/** The `customer` store slice: each seat's order and mood, the score, and the level. */
module Customers {
  import opened Js
  import MenuList

  /** The statuses the game dispatches for a seat: `'waiting'`, `'errors'` and `'eating'`. */
  datatype Status = Waiting | Errors | Eating

  /**
   * One seat `customer<i>`: the dish it ordered, its status, and whether it
   * has waited too long. A fresh seat has no `overtime` property; it is read
   * only for truthiness, so its absence is `false` here.
   */
  datatype Customer = Customer(order: string, status: Status, overtime: bool)

  /** `dishes.filter(e => !e.level2)`. */
  function BasicDishes(dishes: seq<MenuList.Dish>): seq<MenuList.Dish>
  {
    if dishes == [] then []
    else if dishes[0].level2 then BasicDishes(dishes[1..])
    else [dishes[0]] + BasicDishes(dishes[1..])
  }

  /** The filter keeps exactly the dishes that are not level-2 ones. */
  lemma {:induction false} BasicDishesMembers(dishes: seq<MenuList.Dish>)
    ensures forall d :: d in BasicDishes(dishes) <==> d in dishes && !d.level2
    decreases |dishes|
  {
    if dishes != [] {
      BasicDishesMembers(dishes[1..]);
      assert dishes == [dishes[0]] + dishes[1..];
    }
  }

  /** `basicList`: the ingredient strings of the dishes of `menu` that are not level-2 ones. */
  function BasicList(menu: seq<MenuList.Dish>): seq<string>
  {
    MenuList.Ingredients(BasicDishes(menu))
  }

  /**
   * The list an order is drawn from: every dish of `menu` on level 2 (for
   * the game's table this is `menuList`), the basic dishes otherwise.
   */
  function OrderList(menu: seq<MenuList.Dish>, isLevel2: bool): seq<string>
  {
    if isLevel2 then MenuList.Ingredients(menu) else BasicList(menu)
  }

  /** The table has a dish that is not a level-2 one. */
  predicate HasBasicDish(menu: seq<MenuList.Dish>)
  {
    exists i :: 0 <= i < |menu| && !menu[i].level2
  }

  /** The game's dish table opens with level-1 dishes. */
  lemma MenuHasBasicDish()
    ensures HasBasicDish(MenuList.MenuInfo)
  {
    assert !MenuList.MenuInfo[0].level2;
  }

  /**
   * The order list names exactly the dishes a customer may order: every
   * entry is the ingredient string of a dish of the table, not a level-2 one
   * below level 2, and every such dish is in the list.
   */
  lemma OrderListDishes(menu: seq<MenuList.Dish>, isLevel2: bool)
    ensures forall o :: o in OrderList(menu, isLevel2) ==>
              exists i :: 0 <= i < |menu| && menu[i].ingredient == o && (isLevel2 || !menu[i].level2)
    ensures forall i :: 0 <= i < |menu| && (isLevel2 || !menu[i].level2) ==> menu[i].ingredient in OrderList(menu, isLevel2)
  {
    var picked := if isLevel2 then menu else BasicDishes(menu);
    BasicDishesMembers(menu);
    assert OrderList(menu, isLevel2) == MenuList.Ingredients(picked);
    forall o | o in OrderList(menu, isLevel2)
      ensures exists i :: 0 <= i < |menu| && menu[i].ingredient == o && (isLevel2 || !menu[i].level2)
    {
      var k :| 0 <= k < |picked| && MenuList.Ingredients(picked)[k] == o;
      assert picked[k] in picked;
      var i :| 0 <= i < |menu| && menu[i] == picked[k];
    }
    forall i | 0 <= i < |menu| && (isLevel2 || !menu[i].level2)
      ensures menu[i].ingredient in OrderList(menu, isLevel2)
    {
      assert menu[i] in picked;
      var k :| 0 <= k < |picked| && picked[k] == menu[i];
      assert MenuList.Ingredients(picked)[k] == menu[i].ingredient;
    }
  }

  /** A table with a level-1 dish never gives an empty order list, so `sample` always finds an order. */
  lemma {:induction false} OrderListNonEmpty(menu: seq<MenuList.Dish>, isLevel2: bool)
    requires HasBasicDish(menu)
    ensures |OrderList(menu, isLevel2)| > 0
    decreases |menu|
  {
    if menu[0].level2 {
      var i :| 0 <= i < |menu| && !menu[i].level2;
      assert !menu[1..][i - 1].level2;
      OrderListNonEmpty(menu[1..], isLevel2);
    }
  }

  /** `isLevel2 ? sample(menuList) : sample(basicList)`: some entry of the order list. */
  method SampleOrder(menu: seq<MenuList.Dish>, isLevel2: bool) returns (order: string)
    requires HasBasicDish(menu)
    ensures order in OrderList(menu, isLevel2)
  {
    OrderListNonEmpty(menu, isLevel2);
    order := OrderList(menu, isLevel2)[0];
  }

  /**
   * `defaultSetting`: seats `customer1` to `customer<n>`, each waiting for a
   * sampled order, none marked overtime.
   */
  method DefaultCustomers(menu: seq<MenuList.Dish>, n: nat, isLevel2: bool) returns (seats: map<nat, Customer>)
    requires HasBasicDish(menu)
    ensures forall i :: i in seats <==> 1 <= i <= n
    ensures forall i :: i in seats ==>
              seats[i].status == Waiting && !seats[i].overtime && seats[i].order in OrderList(menu, isLevel2)
  {
    seats := map[];
    var i := 0;
    while i < n
      invariant 0 <= i <= n
      invariant forall k :: k in seats <==> 1 <= k <= i
      invariant forall k :: k in seats ==>
                  seats[k].status == Waiting && !seats[k].overtime && seats[k].order in OrderList(menu, isLevel2)
    {
      var order := SampleOrder(menu, isLevel2);
      seats := seats[i + 1 := Customer(order, Waiting, false)];
      i := i + 1;
    }
  }

  /** The slice's state: the score, the seats by number, and the level it was set up for. */
  class CustomerSlice {
    /** The dish table the reducers draw orders from (`menuInfo`). */
    const menu: seq<MenuList.Dish>
    var score: int
    var customers: map<nat, Customer>
    var isLevel2: Option<bool>

    /** Orders can always be drawn from the table. */
    predicate Valid()
      reads this
    {
      HasBasicDish(menu)
    }

    /** The initial state: a zero score and no seats yet. */
    constructor()
      ensures menu == MenuList.MenuInfo && Valid()
      ensures score == 0 && customers == map[] && isLevel2 == None
    {
      menu := MenuList.MenuInfo;
      score := 0;
      customers := map[];
      isLevel2 := None;
      new;
      MenuHasBasicDish();
    }

    /** `handleOvertime({ id, status })`; the seat must exist, as the reducer dereferences it. */
    method HandleOvertime(id: nat, status: bool)
      requires id in customers
      modifies this
      ensures customers == old(customers)[id := old(customers)[id].(overtime := status)]
      ensures score == old(score) && isLevel2 == old(isLevel2)
    {
      customers := customers[id := customers[id].(overtime := status)];
    }

    /** `handleCustomStatus({ id, status })`. */
    method HandleCustomStatus(id: nat, status: Status)
      requires id in customers
      modifies this
      ensures customers == old(customers)[id := old(customers)[id].(status := status)]
      ensures score == old(score) && isLevel2 == old(isLevel2)
    {
      customers := customers[id := customers[id].(status := status)];
    }

    /** `getNextOrder({ id, isLevel2 })`: the seat gets a new sampled order and keeps its status. */
    method GetNextOrder(id: nat, level2: bool)
      requires Valid() && id in customers
      modifies this
      ensures customers.Keys == old(customers).Keys
      ensures customers[id].order in OrderList(menu, level2)
      ensures customers[id].status == old(customers)[id].status && customers[id].overtime == old(customers)[id].overtime
      ensures forall k :: k in customers && k != id ==> customers[k] == old(customers)[k]
      ensures score == old(score) && isLevel2 == old(isLevel2)
    {
      var order := SampleOrder(menu, level2);
      customers := customers[id := customers[id].(order := order)];
    }

    /** `getScore({ score })`. */
    method GetScore(points: int)
      modifies this
      ensures score == old(score) + points
      ensures customers == old(customers) && isLevel2 == old(isLevel2)
    {
      score := score + points;
    }

    /** `minusScore`: the penalty for a wrong dish. */
    method MinusScore()
      modifies this
      ensures score == old(score) - 30
      ensures customers == old(customers) && isLevel2 == old(isLevel2)
    {
      score := score - 30;
    }

    /**
     * `getInitCustomersState({ isLevel2 })` with `maxCustomers` seats: seats 1
     * to `maxCustomers` are replaced by fresh waiting ones (dropping any
     * overtime mark), other seats and the score are kept, and the level is
     * recorded.
     */
    method GetInitCustomersState(level2: bool, maxCustomers: nat)
      requires Valid()
      modifies this
      ensures forall i :: i in customers <==> i in old(customers) || 1 <= i <= maxCustomers
      ensures forall i :: 1 <= i <= maxCustomers ==>
                customers[i].status == Waiting && !customers[i].overtime && customers[i].order in OrderList(menu, level2)
      ensures forall i :: i in old(customers) && !(1 <= i <= maxCustomers) ==> customers[i] == old(customers)[i]
      ensures score == old(score) && isLevel2 == Some(level2)
    {
      var defaults := DefaultCustomers(menu, maxCustomers, level2);
      customers := customers + defaults;
      isLevel2 := Some(level2);
    }
  }
}
