/** The cooking-stage tables of the stove and the toaster (`stoveList`, `toasterList`). */
module CookedList {

  /** One stage of a food: the picture shown and the value the food carries at that stage. */
  datatype Stage = Stage(src: string, value: string)

  /** A food's three stages: raw (`init`), cooked (`done`) and burnt (`over`). */
  datatype CookedGroup = CookedGroup(init: Stage, done: Stage, over: Stage)

  const StoveList: seq<CookedGroup> := [
    CookedGroup(Stage("sunnyEgg0", "egg"), Stage("sunnyEgg", "sunnyEgg"), Stage("sunnyEgg2", "sunnyEgg2")),
    CookedGroup(Stage("hotDog0", "hotDog0"), Stage("hotDog", "hotDog"), Stage("hotDog2", "hotDog2")),
    CookedGroup(Stage("bacon0", "bacon0"), Stage("bacon", "bacon"), Stage("bacon2", "bacon2"))
  ]

  const ToasterList: seq<CookedGroup> := [
    CookedGroup(Stage("toasterIn0", "toast0"), Stage("toasterIn1", "toast"), Stage("toasterIn2", "toast2"))
  ]

  /** The module's default export. */
  const DefaultList: seq<CookedGroup> := StoveList

  /** No two groups of `list` share an init value. */
  predicate DistinctInits(list: seq<CookedGroup>)
  {
    forall i, j :: 0 <= i < j < |list| ==> list[i].init.value != list[j].init.value
  }

  /** Every burnt value carries the character `'2'`, the mark plates refuse. */
  predicate OverMarked(list: seq<CookedGroup>)
  {
    forall i :: 0 <= i < |list| ==> '2' in list[i].over.value
  }

  lemma StoveListShape()
    ensures |StoveList| == 3
    ensures StoveList[0].init.value == "egg"
    ensures StoveList[1].init.value == "hotDog0"
    ensures StoveList[2].init.value == "bacon0"
    ensures DefaultList == StoveList
  {
  }

  lemma ToasterListShape()
    ensures |ToasterList| == 1
    ensures ToasterList[0].init.value == "toast0"
    ensures ToasterList[0].done.value == "toast"
    ensures ToasterList[0].over.value == "toast2"
  {
  }

  /** Both tables have pairwise distinct init values. */
  lemma InitsDistinct()
    ensures DistinctInits(StoveList) && DistinctInits(ToasterList)
  {
    assert StoveList[0].init.value[0] == 'e';
    assert StoveList[1].init.value[0] == 'h';
    assert StoveList[2].init.value[0] == 'b';
  }

  /** Every burnt stage in both tables is marked with `'2'`. */
  lemma OverValuesMarked()
    ensures OverMarked(StoveList) && OverMarked(ToasterList)
  {
    assert StoveList[0].over.value[8] == '2';
    assert StoveList[1].over.value[6] == '2';
    assert StoveList[2].over.value[5] == '2';
    assert ToasterList[0].over.value[5] == '2';
  }
}
