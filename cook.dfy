/**
 * A cooking station (a stove slot or the toaster) and the three handlers the
 * station components share: `onDragEnter` picks the cooking-stage group of
 * the dragged ingredient, `onDrop` starts cooking, `passToPlate` hands the
 * cooked food to the first plate that takes it and clears the station.
 */
module Cook {
  import opened Js
  import CookedList
  import Plates
  import AutoPlace

  /** `list.find(e => e.init.value === targetItem)`. */
  function FindByInit(list: seq<CookedList.CookedGroup>, targetItem: Value): (found: Option<CookedList.CookedGroup>)
    ensures found.Some? ==> found.value in list && Str(found.value.init.value) == targetItem
    ensures found.None? <==> forall i :: 0 <= i < |list| ==> Str(list[i].init.value) != targetItem
    ensures found.Some? ==>
              exists i :: 0 <= i < |list| && list[i] == found.value &&
                forall j :: 0 <= j < i ==> Str(list[j].init.value) != targetItem
  {
    if list == [] then None
    else if Str(list[0].init.value) == targetItem then
      // index 0 is the witness of the third ensures: no entry comes before it
      assert exists i ::
               0 <= i < |list| && list[i] == list[0] &&
               forall j :: 0 <= j < i ==> Str(list[j].init.value) != targetItem;
      Some(list[0])
    else
      var rest := FindByInit(list[1..], targetItem);
      assert forall i :: 1 <= i < |list| ==> list[i] == list[1..][i - 1];
      rest
  }

  /** In a table whose init values are distinct, looking a group up by its init value finds that group. */
  lemma FindByInitUnique(list: seq<CookedList.CookedGroup>, g: CookedList.CookedGroup)
    requires CookedList.DistinctInits(list) && g in list
    ensures FindByInit(list, Str(g.init.value)) == Some(g)
  {
    var found := FindByInit(list, Str(g.init.value));
    var k :| 0 <= k < |list| && list[k] == g;
    var i :| 0 <= i < |list| && list[i] == found.value &&
             forall j :: 0 <= j < i ==> Str(list[j].init.value) != Str(g.init.value);
    if i < k {
      assert list[i].init.value == list[k].init.value;
    }
  }

  /** On the stove and in the toaster, each raw ingredient selects exactly its own group. */
  lemma StationTablesLookUp(g: CookedList.CookedGroup)
    ensures g in CookedList.StoveList ==> FindByInit(CookedList.StoveList, Str(g.init.value)) == Some(g)
    ensures g in CookedList.ToasterList ==> FindByInit(CookedList.ToasterList, Str(g.init.value)) == Some(g)
  {
    CookedList.InitsDistinct();
    if g in CookedList.StoveList { FindByInitUnique(CookedList.StoveList, g); }
    if g in CookedList.ToasterList { FindByInitUnique(CookedList.ToasterList, g); }
  }

  /** `cookedGroup?.init.value`. */
  function InitValue(g: Option<CookedList.CookedGroup>): Value
  {
    if g.Some? then Str(g.value.init.value) else Undefined
  }

  /** `cookedGroup?.done.value`. */
  function DoneValue(g: Option<CookedList.CookedGroup>): Value
  {
    if g.Some? then Str(g.value.done.value) else Undefined
  }

  /** The React state of one station component. */
  class Station {
    /** `undefined`/`null` (None), `'cooking'`, `'maturity'`, `'over'`, `'done'` or `'overDone'`. */
    var status: Option<string>
    /** The cooking-stage group of the food on the station, if any. */
    var cookedGroup: Option<CookedList.CookedGroup>
    /** Whether the toaster's toast is being moved (the toaster only). */
    var move: bool

    /** `onDragEnter(targetItem, status, haveOverCook, list, setCookedGroup)`. */
    method OnDragEnter(targetItem: Value, haveOverCook: bool, list: seq<CookedList.CookedGroup>)
      modifies this
      ensures !Truthy(old(status)) && !haveOverCook ==> cookedGroup == FindByInit(list, targetItem)
      ensures Truthy(old(status)) || haveOverCook ==> cookedGroup == old(cookedGroup)
      ensures cookedGroup.Some? && cookedGroup != old(cookedGroup) ==> InitValue(cookedGroup) == targetItem
      ensures status == old(status) && move == old(move)
    {
      if !Truthy(status) && !haveOverCook {
        cookedGroup := FindByInit(list, targetItem);
      }
    }

    /** `onDrop(targetItem, cookedGroup, status, setStatus)`. */
    method OnDrop(targetItem: Value)
      modifies this
      ensures targetItem == InitValue(old(cookedGroup)) && !Truthy(old(status)) ==> status == Some("cooking")
      ensures !(targetItem == InitValue(old(cookedGroup)) && !Truthy(old(status))) ==> status == old(status)
      ensures cookedGroup == old(cookedGroup) && move == old(move)
    {
      var isMaterial := targetItem == InitValue(cookedGroup);
      if isMaterial && !Truthy(status) {
        status := Some("cooking");
      }
    }

    /**
     * `passToPlate(data, cookedGroup, isDone, setStatus, setMove, dispatch)`;
     * `hasSetMove` says whether a `setMove` callback was passed. Returns the
     * plate the food went onto, if any. Without a cooked group the food is
     * `undefined`, and `addFood` would throw on reading its length; callers
     * must not reach that.
     */
    method PassToPlate(data: Plates.PlateSlice, isDone: bool, hasSetMove: bool) returns (placed: Option<nat>)
      requires data.Valid()
      requires isDone && cookedGroup.None? ==>
                 forall j :: 1 <= j <= data.plate ==> !AutoPlace.Accepts(data.plates[j], Undefined)
      modifies this, data
      ensures data.Valid()
      ensures placed.Some? ==>
                var id := placed.value;
                var item := DoneValue(old(cookedGroup));
                isDone && item.Str? &&
                1 <= id <= old(data.plate) && AutoPlace.Accepts(old(data.plates)[id], item) &&
                (forall j :: 1 <= j < id ==> !AutoPlace.Accepts(old(data.plates)[j], item)) &&
                data.plates == old(data.plates)[id := if item.str == "" then [] else old(data.plates)[id] + [item.str]]
      ensures placed.None? ==> data.plates == old(data.plates)
      ensures placed.None? && isDone ==>
                forall j :: 1 <= j <= old(data.plate) ==> !AutoPlace.Accepts(old(data.plates)[j], DoneValue(old(cookedGroup)))
      ensures data.status == old(data.status) && data.targetItem == old(data.targetItem)
      ensures data.targetPlate == old(data.targetPlate) && data.plate == old(data.plate)
      ensures status == (if isDone then None else old(status))
      ensures move == (if isDone && hasSetMove then false else old(move))
      ensures cookedGroup == old(cookedGroup)
    {
      var item := DoneValue(cookedGroup);
      var dispatched := AutoPlace.AutoPlateSystem(data, item, isDone);
      placed := None;
      if dispatched.Some? {
        data.AddFood(dispatched.value.id, dispatched.value.targetItem);
        placed := Some(dispatched.value.id);
      }
      if isDone {
        status := None;
        if hasSetMove {
          move := false;
        }
      }
    }
  }
}
