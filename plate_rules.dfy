/**
 * The placement rule `settingPlateRules` (may this food go onto this plate?)
 * and `checkIsPlateFull` (does this plate hold exactly one finished dish?).
 */
module PlateRules {
  import opened Js
  import JsArray
  import MenuList

  /** Foods that may not lie under a toast (`toastNotValidArr`). */
  const ToastNotValid: seq<string> := ["hotDog", "sunnyEgg", "bacon"]

  /**
   * `rules(plate)[value]` is truthy. The rules object has the single own key
   * `toast`; every key it inherits from `Object.prototype` reads as a truthy
   * function, and any other key reads as `undefined`.
   */
  predicate RuleForbids(plate: seq<string>, value: Value)
  {
    value.Str? &&
    ((value.str == "toast" && |plate| > 0 && plate[0] in ToastNotValid) || value.str in InheritedKeys)
  }

  /** `plate.includes(value)`. A plate holds only strings. */
  predicate Includes(plate: seq<string>, value: Value)
  {
    value.Str? && value.str in plate
  }

  /** `settingPlateRules(plate, value)`: may `value` be placed on `plate`? */
  function SettingPlateRules(plate: seq<string>, value: Value): (ok: bool)
    ensures Includes(plate, value) ==> !ok
    ensures value == Str("toast") && |plate| > 0 && plate[0] in ToastNotValid ==> !ok
    ensures !ok ==>
              value.Str? &&
              (value.str in plate || (value.str == "toast" && |plate| > 0 && plate[0] in ToastNotValid) ||
               value.str in InheritedKeys)
  {
    !(Includes(plate, value) || RuleForbids(plate, value))
  }

  /** An empty plate accepts every food (every value that is not an inherited property name). */
  lemma EmptyPlateAccepts(value: Value)
    requires !(value.Str? && value.str in InheritedKeys)
    ensures SettingPlateRules([], value)
  {
  }

  /** A value other than `"toast"` is refused only as a duplicate (or as an inherited property name). */
  lemma OnlyToastHasARule(plate: seq<string>, value: Value)
    requires value != Str("toast") && !(value.Str? && value.str in InheritedKeys)
    ensures SettingPlateRules(plate, value) <==> !Includes(plate, value)
  {
  }

  /** `"toast"` is refused exactly when it is already there or the plate starts with a food that may not lie under it. */
  lemma ToastRule(plate: seq<string>)
    ensures SettingPlateRules(plate, Str("toast")) <==>
              "toast" !in plate && !(|plate| > 0 && plate[0] in ToastNotValid)
  {
    assert "toast" !in InheritedKeys;
  }

  /** The plate holds the ingredients of some menu dish, each as often as the dish lists it. */
  predicate HoldsDish(plate: seq<string>)
  {
    exists i :: 0 <= i < |MenuList.MenuInfo| && multiset(MenuList.Parts(MenuList.MenuInfo[i])) == multiset(plate)
  }

  /**
   * The list `checkIsPlateFull` compares against,
   * `menuInfo.map(e => e.ingredient.split('&').sort())`. It depends on
   * constants only, so it is given here by its value; `SortedDishesComputed`
   * proves that value equal to the split-and-sort of every dish.
   */
  const SortedDishes: seq<seq<string>> := MenuList.MenuParts

  /** Each entry of `SortedDishes` is the corresponding dish split on `'&'` and sorted. */
  lemma SortedDishesComputed()
    ensures |SortedDishes| == |MenuList.MenuInfo|
    ensures forall i :: 0 <= i < |MenuList.MenuInfo| ==>
              SortedDishes[i] == JsArray.Sort(MenuList.Parts(MenuList.MenuInfo[i]))
  {
    MenuList.PartsTable();
    forall i | 0 <= i < |MenuList.MenuInfo|
      ensures SortedDishes[i] == JsArray.Sort(MenuList.Parts(MenuList.MenuInfo[i]))
    {
      var p := MenuList.MenuParts[i];
      MenuList.DishPartsAscending(i);
      assert JsArray.Sorted(p) by {
        MenuList.AscendingDistinct(p);
      }
      JsArray.SortSpec(p);
      JsArray.SortedUnique(JsArray.Sort(p), p);
    }
  }

  /** `checkIsPlateFull(plate)`: `list.some(e => isEqual(e, [...plate].sort()))`. */
  predicate CheckIsPlateFull(plate: seq<string>)
  {
    JsArray.Sort(plate) in SortedDishes
  }

  /** A plate is full exactly when it holds some dish's ingredients, in any order. */
  lemma CheckIsPlateFullSpec(plate: seq<string>)
    ensures CheckIsPlateFull(plate) <==> HoldsDish(plate)
  {
    SortedDishesComputed();
    if CheckIsPlateFull(plate) {
      var i :| 0 <= i < |SortedDishes| && SortedDishes[i] == JsArray.Sort(plate);
      JsArray.SortEqualIffSameElements(MenuList.Parts(MenuList.MenuInfo[i]), plate);
    }
    if HoldsDish(plate) {
      var i :| 0 <= i < |MenuList.MenuInfo| && multiset(MenuList.Parts(MenuList.MenuInfo[i])) == multiset(plate);
      JsArray.SortEqualIffSameElements(MenuList.Parts(MenuList.MenuInfo[i]), plate);
      assert SortedDishes[i] == JsArray.Sort(plate);
    }
  }

  /** Rearranging a plate does not change whether it is full. */
  lemma FullIgnoresOrder(a: seq<string>, b: seq<string>)
    requires multiset(a) == multiset(b)
    ensures CheckIsPlateFull(a) == CheckIsPlateFull(b)
  {
    CheckIsPlateFullSpec(a);
    CheckIsPlateFullSpec(b);
  }

  /** An empty plate is never full: every dish has at least one part. */
  lemma EmptyPlateNotFull()
    ensures !CheckIsPlateFull([])
  {
    CheckIsPlateFullSpec([]);
  }

  /** A plate holding some food twice is never full, because no dish lists a part twice. */
  lemma RepeatedItemNotFull(plate: seq<string>, j: nat, k: nat)
    requires j < k < |plate| && plate[j] == plate[k]
    ensures !CheckIsPlateFull(plate)
  {
    var x := plate[j];
    TwoCopies(plate, j, k);
    CheckIsPlateFullSpec(plate);
    if HoldsDish(plate) {
      var i :| 0 <= i < |MenuList.MenuInfo| && multiset(MenuList.Parts(MenuList.MenuInfo[i])) == multiset(plate);
      MenuList.DishPartsAscending(i);
      AtMostOneCopy(MenuList.Parts(MenuList.MenuInfo[i]), x);
    }
  }

  /** Two positions holding `x` give `x` a multiplicity of at least two. */
  lemma TwoCopies(s: seq<string>, j: nat, k: nat)
    requires j < k < |s| && s[j] == s[k]
    ensures multiset(s)[s[j]] >= 2
  {
    var x := s[j];
    assert s == s[..j] + [x] + s[j + 1..k] + [x] + s[k + 1..];
  }

  /** In a sequence without repeats every element occurs at most once. */
  lemma {:induction false} AtMostOneCopy(s: seq<string>, x: string)
    requires MenuList.Distinct(s)
    ensures multiset(s)[x] <= 1
    decreases |s|
  {
    if s != [] {
      var t := s[1..];
      assert MenuList.Distinct(t) by {
        forall a, b | 0 <= a < b < |t| ensures t[a] != t[b] { assert t[a] == s[a + 1] && t[b] == s[b + 1]; }
      }
      AtMostOneCopy(t, x);
      assert s == [s[0]] + t;
      if s[0] == x {
        assert x !in t by {
          forall a | 0 <= a < |t| ensures t[a] != x { assert t[a] == s[a + 1]; }
        }
      }
    }
  }
}
