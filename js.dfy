/** The few JavaScript value rules that the game's code leans on. */
module Js {

  /** A value that may be `undefined` or `null` (None) or present (Some). */
  datatype Option<+T> = None | Some(value: T)

  /** A result that may carry an error message in place of a value. */
  datatype Result<+T> = Ok(value: T) | Err(error: string)

  /** A value that is `undefined`, `null` or a string; `===` on it is datatype equality. */
  datatype Value = Undefined | Null | Str(str: string)

  /** JavaScript truthiness of an optional string: `undefined`, `null` and `""` are falsy. */
  predicate Truthy(s: Option<string>)
  {
    s.Some? && s.value != ""
  }

  /** `s || ""`: the string itself when truthy, otherwise the empty string. */
  function OrEmpty(s: Option<string>): string
  {
    if Truthy(s) then s.value else ""
  }

  /**
   * The property names every plain object (`{}`) inherits from `Object.prototype`.
   * Reading one of them from an object that lacks an own property of that name
   * yields a truthy value (a function, or the prototype itself), not `undefined`.
   */
  const InheritedKeys: set<string> := {
    "constructor", "__proto__", "hasOwnProperty", "isPrototypeOf",
    "propertyIsEnumerable", "toLocaleString", "toString", "valueOf",
    "__defineGetter__", "__defineSetter__", "__lookupGetter__", "__lookupSetter__"
  }

  /** A character that `Number.prototype.toString(36)` produces, after `toUpperCase()`. */
  predicate IsUpperBase36(c: char)
  {
    ('0' <= c <= '9') || ('A' <= c <= 'Z')
  }

  /** Every inherited property name has a character outside `[0-9A-Z]`. */
  lemma InheritedKeysNotUpperBase36(k: string)
    requires k in InheritedKeys
    ensures exists i :: 0 <= i < |k| && !IsUpperBase36(k[i])
  {
    assert !IsUpperBase36(k[1]);
  }
}
