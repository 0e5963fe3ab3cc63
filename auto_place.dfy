/**
 * The first-fit placement loops: `autoPlateSystem` puts a cooked food on the
 * first plate that takes it, `autoJamSystem` puts jam on the first plate
 * holding a lone toast. Each scans plates `1..plate` and dispatches at most
 * one `addFood`; here the dispatched action is returned.
 */
module AutoPlace {
  import opened Js
  import PlateRules
  import Plates

  /** The `addFood({ id, targetItem })` action. */
  datatype PlateAction = AddFood(id: nat, targetItem: Value)

  /** A plate takes `target`: the placement rule allows it and the plate is not yet a finished dish. */
  predicate Accepts(plate: seq<string>, target: Value)
  {
    PlateRules.SettingPlateRules(plate, target) && !PlateRules.CheckIsPlateFull(plate)
  }

  /** A plate holds a toast and nothing else. */
  predicate LoneToast(plate: seq<string>)
  {
    "toast" in plate && |plate| == 1
  }

  /** `autoPlateSystem(data, target, isDone, dispatch)`. */
  method AutoPlateSystem(data: Plates.PlateSlice, target: Value, isDone: bool) returns (dispatched: Option<PlateAction>)
    requires data.Valid()
    ensures !isDone ==> dispatched == None
    ensures dispatched.Some? ==>
              var id := dispatched.value.id;
              dispatched.value.targetItem == target &&
              1 <= id <= data.plate && Accepts(data.plates[id], target) &&
              forall j :: 1 <= j < id ==> !Accepts(data.plates[j], target)
    ensures isDone && dispatched == None ==>
              forall j :: 1 <= j <= data.plate ==> !Accepts(data.plates[j], target)
  {
    dispatched := None;
    var i := 1;
    while i < data.plate + 1
      invariant 1 <= i <= data.plate + 1
      invariant isDone ==> forall j :: 1 <= j < i ==> !Accepts(data.plates[j], target)
      decreases data.plate + 1 - i
    {
      if isDone && Accepts(data.plates[i], target) {
        dispatched := Some(AddFood(i, target));
        break;
      }
      i := i + 1;
    }
  }

  /** `autoJamSystem(data, target, dispatch)`. */
  method AutoJamSystem(data: Plates.PlateSlice, target: Value) returns (dispatched: Option<PlateAction>)
    requires data.Valid()
    ensures dispatched.Some? ==>
              var id := dispatched.value.id;
              dispatched.value.targetItem == target &&
              1 <= id <= data.plate && LoneToast(data.plates[id]) &&
              forall j :: 1 <= j < id ==> !LoneToast(data.plates[j])
    ensures dispatched == None ==> forall j :: 1 <= j <= data.plate ==> !LoneToast(data.plates[j])
  {
    dispatched := None;
    var i := 1;
    while i < data.plate + 1
      invariant 1 <= i <= data.plate + 1
      invariant forall j :: 1 <= j < i ==> !LoneToast(data.plates[j])
      decreases data.plate + 1 - i
    {
      if "toast" in data.plates[i] && |data.plates[i]| == 1 {
        dispatched := Some(AddFood(i, target));
        break;
      }
      i := i + 1;
    }
  }
}
