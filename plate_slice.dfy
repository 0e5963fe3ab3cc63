/**
 * The `plate` slice of the Redux store: the contents of each plate
 * (`plateContent1` .. `plateContent{MAX_PLATE}`, here keyed by their number),
 * the dragged item and the dragged-from plate.
 */
module Plates {
  import opened Js

  /** The keys `1..n`, each holding an empty plate. */
  method EmptyPlates(n: nat) returns (plates: map<nat, seq<string>>)
    ensures forall i :: i in plates <==> 1 <= i <= n
    ensures forall i :: i in plates ==> plates[i] == []
  {
    plates := map[];
    var i := 0;
    while i < n
      invariant 0 <= i <= n
      invariant forall k :: k in plates <==> 1 <= k <= i
      invariant forall k :: k in plates ==> plates[k] == []
    {
      plates := plates[i + 1 := []];
      i := i + 1;
    }
  }

  class PlateSlice {
    /** `plateContent{i}` for each plate key `i`. */
    var plates: map<nat, seq<string>>
    /** Always `"idle"`: no reducer writes it. */
    var status: string
    /** The item being dragged; the initial `''`, or `null` once cleared. */
    var targetItem: Value
    /** The plate a drag started from; `None` for the initial `''` and for `null`. */
    var targetPlate: Option<nat>
    /** The number of plates, `MAX_PLATE`. */
    var plate: nat

    /** Every plate `1..plate` exists; reducers only ever add keys. */
    predicate Valid()
      reads this
    {
      forall i :: 1 <= i <= plate ==> i in plates
    }

    /** The initial state, for `MAX_PLATE = maxPlate`. */
    constructor(maxPlate: nat)
      ensures Valid()
      ensures forall i :: i in plates <==> 1 <= i <= maxPlate
      ensures forall i :: i in plates ==> plates[i] == []
      ensures status == "idle" && targetItem == Str("") && targetPlate == None && plate == maxPlate
    {
      var empty := EmptyPlates(maxPlate);
      plates := empty;
      status := "idle";
      targetItem := Str("");
      targetPlate := None;
      plate := maxPlate;
    }

    /**
     * `addFood({ id, targetItem })`. A missing plate key, or an item of length
     * zero, leaves plate `id` empty; otherwise the item goes on top. Reading
     * `.length` of `null` or `undefined` throws, which the caller must avoid.
     */
    method AddFood(id: nat, item: Value)
      requires Valid()
      requires id in plates ==> item.Str?
      modifies this
      ensures Valid()
      ensures id !in old(plates) || item.str == "" ==> plates == old(plates)[id := []]
      ensures id in old(plates) && item.str != "" ==> plates == old(plates)[id := old(plates)[id] + [item.str]]
      ensures id in old(plates) && item.str != "" ==> |plates[id]| == |old(plates)[id]| + 1
      ensures forall k :: k != id ==> (k in plates <==> k in old(plates))
      ensures forall k :: k != id && k in plates ==> plates[k] == old(plates)[k]
      ensures status == old(status) && targetItem == old(targetItem)
      ensures targetPlate == old(targetPlate) && plate == old(plate)
    {
      if id !in plates || item.str == "" {
        plates := plates[id := []];
      } else {
        plates := plates[id := plates[id] + [item.str]];
      }
    }

    /** `setTargetItem({ target })`: only the dragged item changes. */
    method SetTargetItem(target: Value)
      requires Valid()
      modifies this
      ensures Valid()
      ensures targetItem == target
      ensures plates == old(plates) && status == old(status)
      ensures targetPlate == old(targetPlate) && plate == old(plate)
    {
      targetItem := target;
    }

    /** `setTargetPlate({ index })`: only the dragged-from plate changes. */
    method SetTargetPlate(index: Option<nat>)
      requires Valid()
      modifies this
      ensures Valid()
      ensures targetPlate == index
      ensures plates == old(plates) && status == old(status)
      ensures targetItem == old(targetItem) && plate == old(plate)
    {
      targetPlate := index;
    }
  }
}
