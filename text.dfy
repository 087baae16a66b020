/** String helpers used by the project router: ASCII lower-casing (the model's
    stand-in for Python's str.lower()) and substring containment (Python's `in`
    on two strings). */
module Text {

  datatype Option<+T> = None | Some(value: T) {
    /** `dict.get(key, default)`: the stored value, or `default` when absent. */
    function GetOr(default: T): (r: T)
      ensures Some? ==> r == value
      ensures None? ==> r == default
    {
      match this
      case Some(v) => v
      case None => default
    }
  }

  predicate IsUpper(c: char) { 'A' <= c <= 'Z' }

  /** Lower-cases one ASCII letter; every other character is left alone. */
  function LowerChar(c: char): (r: char)
    ensures !IsUpper(r)
    ensures !IsUpper(c) ==> r == c
    ensures IsUpper(c) ==> r as int - c as int == 32
  {
    if IsUpper(c) then (c as int + 32) as char else c
  }

  /** Character-wise ASCII lower-casing. */
  function ToLower(s: string): (r: string)
    ensures |r| == |s|
    ensures forall i :: 0 <= i < |s| ==> r[i] == LowerChar(s[i])
  {
    seq(|s|, i requires 0 <= i < |s| => LowerChar(s[i]))
  }

  predicate IsLower(s: string) {
    forall i :: 0 <= i < |s| ==> !IsUpper(s[i])
  }

  /** `needle` occurs in `s` starting at index `i`. */
  predicate OccursAt(s: string, needle: string, i: int) {
    0 <= i && i + |needle| <= |s| && s[i..i + |needle|] == needle
  }

  /** Python's `needle in s` for two strings. */
  predicate Contains(s: string, needle: string) {
    exists i :: 0 <= i <= |s| - |needle| && OccursAt(s, needle, i)
  }

  /** Lower-casing makes a string lower-case and leaves a lower-case one as it is. */
  lemma ToLowerIsLower(s: string)
    ensures IsLower(ToLower(s))
    ensures IsLower(s) ==> ToLower(s) == s
  {
  }

  /** Lower-casing commutes with taking a slice. */
  lemma ToLowerSlice(s: string, i: int, j: int)
    requires 0 <= i <= j <= |s|
    ensures ToLower(s)[i..j] == ToLower(s[i..j])
  {
  }

  /** Case-insensitive matching: an occurrence of `needle` in `s`, in any case,
      becomes an occurrence of its lower-cased form in the lower-cased `s`. */
  lemma {:induction false} ContainsToLower(s: string, needle: string)
    requires Contains(s, needle)
    ensures Contains(ToLower(s), ToLower(needle))
  {
    var i :| 0 <= i <= |s| - |needle| && OccursAt(s, needle, i);
    ToLowerSlice(s, i, i + |needle|);
    assert OccursAt(ToLower(s), ToLower(needle), i);
  }

  /** Nothing but the empty string occurs in the empty string. */
  lemma EmptyContainsOnlyEmpty(needle: string)
    ensures Contains("", needle) <==> needle == ""
  {
    if needle == "" {
      assert OccursAt("", needle, 0);
    }
  }
}
