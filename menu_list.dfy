/** The dish table (`menuInfo`) and its projection onto ingredient strings (`menuList`). */
module MenuList {
  import JsArray

  /** One dish: its ingredients joined by `'&'`, its score, and whether it is a level-2 dish. */
  datatype Dish = Dish(ingredient: string, score: int, level2: bool)

  const MenuInfo: seq<Dish> := [
    Dish("hotDog&sunnyEgg", 300, false),
    Dish("hotDog&toast", 300, false),
    Dish("coffee", 300, false),
    Dish("sunnyEgg&toast", 300, false),
    Dish("blueberry&toast", 300, false),
    Dish("butter&toast", 300, false),
    Dish("hotDog&rosemarry&sunnyEgg", 300, true),
    Dish("bacon&hotDog&rosemarry&toast", 300, true),
    Dish("bacon&rosemarry&sunnyEgg&toast", 300, true),
    Dish("bacon&hotDog&sunnyEgg", 300, true),
    Dish("bacon&hotDog&rosemarry&sunnyEgg", 300, true)
  ]

  /** `dishes.map(e => e.ingredient)`. */
  function Ingredients(dishes: seq<Dish>): (r: seq<string>)
    ensures |r| == |dishes|
    ensures forall i :: 0 <= i < |r| ==> r[i] == dishes[i].ingredient
  {
    if dishes == [] then [] else [dishes[0].ingredient] + Ingredients(dishes[1..])
  }

  /** The default export `menuList`: every dish's ingredient string, in table order. */
  function MenuList(): seq<string>
  {
    Ingredients(MenuInfo)
  }

  /** The `'&'`-separated parts of a dish, as `checkIsPlateFull` reads them. */
  function Parts(d: Dish): seq<string>
  {
    JsArray.Split(d.ingredient, '&')
  }

  /** Each part sorts strictly before the next. */
  predicate StrictlyAscending(parts: seq<string>)
  {
    forall i :: 0 < i < |parts| ==> JsArray.LexLt(parts[i - 1], parts[i])
  }

  lemma MenuTableShape()
    ensures |MenuInfo| == 11
    ensures forall i :: 0 <= i < |MenuInfo| ==> MenuInfo[i].score == 300
    ensures forall i :: 0 <= i < |MenuInfo| ==> (MenuInfo[i].level2 <==> i >= 6)
  {
  }

  /** The parts each dish of `MenuInfo` splits into, in table order. */
  const MenuParts: seq<seq<string>> := [
    ["hotDog", "sunnyEgg"],
    ["hotDog", "toast"],
    ["coffee"],
    ["sunnyEgg", "toast"],
    ["blueberry", "toast"],
    ["butter", "toast"],
    ["hotDog", "rosemarry", "sunnyEgg"],
    ["bacon", "hotDog", "rosemarry", "toast"],
    ["bacon", "rosemarry", "sunnyEgg", "toast"],
    ["bacon", "hotDog", "sunnyEgg"],
    ["bacon", "hotDog", "rosemarry", "sunnyEgg"]
  ]

  lemma Dish0Joined()
    ensures JsArray.Join(MenuParts[0], '&') == MenuInfo[0].ingredient
  {
    assert JsArray.Join(["hotDog", "sunnyEgg"], '&') == "hotDog&sunnyEgg";
  }

  lemma Dish1Joined()
    ensures JsArray.Join(MenuParts[1], '&') == MenuInfo[1].ingredient
  {
    assert JsArray.Join(["hotDog", "toast"], '&') == "hotDog&toast";
  }

  lemma Dish2Joined()
    ensures JsArray.Join(MenuParts[2], '&') == MenuInfo[2].ingredient
  {
    assert JsArray.Join(["coffee"], '&') == "coffee";
  }

  lemma Dish3Joined()
    ensures JsArray.Join(MenuParts[3], '&') == MenuInfo[3].ingredient
  {
    assert JsArray.Join(["sunnyEgg", "toast"], '&') == "sunnyEgg&toast";
  }

  lemma Dish4Joined()
    ensures JsArray.Join(MenuParts[4], '&') == MenuInfo[4].ingredient
  {
    assert JsArray.Join(["blueberry", "toast"], '&') == "blueberry&toast";
  }

  lemma Dish5Joined()
    ensures JsArray.Join(MenuParts[5], '&') == MenuInfo[5].ingredient
  {
    assert JsArray.Join(["butter", "toast"], '&') == "butter&toast";
  }

  lemma Dish6Joined()
    ensures JsArray.Join(MenuParts[6], '&') == MenuInfo[6].ingredient
  {
    assert JsArray.Join(["hotDog", "rosemarry", "sunnyEgg"], '&') == "hotDog&rosemarry&sunnyEgg";
  }

  lemma Dish7Joined()
    ensures JsArray.Join(MenuParts[7], '&') == MenuInfo[7].ingredient
  {
    assert JsArray.Join(["bacon", "hotDog", "rosemarry", "toast"], '&') == "bacon&hotDog&rosemarry&toast";
  }

  lemma Dish8Joined()
    ensures JsArray.Join(MenuParts[8], '&') == MenuInfo[8].ingredient
  {
    assert JsArray.Join(["bacon", "rosemarry", "sunnyEgg", "toast"], '&') == "bacon&rosemarry&sunnyEgg&toast";
  }

  lemma Dish9Joined()
    ensures JsArray.Join(MenuParts[9], '&') == MenuInfo[9].ingredient
  {
    assert JsArray.Join(["bacon", "hotDog", "sunnyEgg"], '&') == "bacon&hotDog&sunnyEgg";
  }

  lemma Dish10Joined()
    ensures JsArray.Join(MenuParts[10], '&') == MenuInfo[10].ingredient
  {
    assert JsArray.Join(["bacon", "hotDog", "rosemarry", "sunnyEgg"], '&') == "bacon&hotDog&rosemarry&sunnyEgg";
  }

  /** No listed part contains the separator. */
  lemma MenuPartsSeparatorFree()
    ensures forall i :: 0 <= i < |MenuParts| ==> JsArray.SeparatorFree(MenuParts[i], '&')
  {
  }

  /** Every dish's ingredient string splits into the parts listed for it in `MenuParts`. */
  lemma PartsTable()
    ensures |MenuParts| == |MenuInfo|
    ensures forall i :: 0 <= i < |MenuInfo| ==> Parts(MenuInfo[i]) == MenuParts[i]
  {
    Dish0Joined(); Dish1Joined(); Dish2Joined(); Dish3Joined(); Dish4Joined(); Dish5Joined();
    Dish6Joined(); Dish7Joined(); Dish8Joined(); Dish9Joined(); Dish10Joined();
    MenuPartsSeparatorFree();
    forall i | 0 <= i < |MenuInfo| ensures Parts(MenuInfo[i]) == MenuParts[i] {
      JsArray.SplitJoin(MenuParts[i], '&');
    }
  }

  /** Each dish's listed parts are in strictly ascending order. */
  lemma MenuPartsAscending()
    ensures forall i :: 0 <= i < |MenuParts| ==> StrictlyAscending(MenuParts[i])
  {
  }

  /** A strictly ascending list holds no element twice. */
  lemma {:induction false} AscendingDistinct(p: seq<string>)
    requires StrictlyAscending(p)
    ensures forall j, k :: 0 <= j < k < |p| ==> JsArray.LexLt(p[j], p[k])
    ensures Distinct(p)
    decreases |p|
  {
    if |p| > 1 {
      var init := p[..|p| - 1];
      assert StrictlyAscending(init) by {
        forall i | 0 < i < |init| ensures JsArray.LexLt(init[i - 1], init[i]) {
          assert init[i - 1] == p[i - 1] && init[i] == p[i];
        }
      }
      AscendingDistinct(init);
      forall j, k | 0 <= j < k < |p| ensures JsArray.LexLt(p[j], p[k]) {
        if k < |p| - 1 {
          assert p[j] == init[j] && p[k] == init[k];
        } else if j < k - 1 {
          assert JsArray.LexLt(p[j], p[k - 1]) by { assert p[j] == init[j] && p[k - 1] == init[k - 1]; }
          JsArray.LexLeTransitive(p[j], p[k - 1], p[k]);
          if p[j] == p[k] {
            JsArray.LexLeAntisymmetric(p[k - 1], p[k]);
          }
        }
      }
    }
  }

  /** No element occurs twice. */
  predicate Distinct(p: seq<string>)
  {
    forall j, k :: 0 <= j < k < |p| ==> p[j] != p[k]
  }

  /**
   * Each dish lists its ingredients in strictly ascending order, so no
   * ingredient occurs twice in one dish.
   */
  lemma DishPartsAscending(i: nat)
    requires i < |MenuInfo|
    ensures StrictlyAscending(Parts(MenuInfo[i]))
    ensures Distinct(Parts(MenuInfo[i]))
  {
    PartsTable();
    MenuPartsAscending();
    AscendingDistinct(MenuParts[i]);
  }

  /** `menuList` is the ingredient column of the dish table, entry for entry. */
  lemma MenuListProjection()
    ensures |MenuList()| == |MenuInfo| == 11
    ensures forall i :: 0 <= i < |MenuInfo| ==> MenuList()[i] == MenuInfo[i].ingredient
  {
  }
}
