/**
 * FullWidth.ToHalfWidth: folds the full-width ASCII forms U+FF01..U+FF5E onto
 * U+0021..U+007E and the ideographic space U+3000 onto U+0020, character by character.
 */
module FullWidth {

  const IDEOGRAPHIC_SPACE: int := 0x3000

  /** The characters the map changes. */
  predicate IsFullWidth(c: char) {
    (0xFF00 < c as int < 0xFF5F) || c as int == IDEOGRAPHIC_SPACE
  }

  /** The per-character conversion (the `convertChar` lambda). */
  function ConvertChar(c: char): (r: char)
    ensures !IsFullWidth(r)
    ensures r == c <==> !IsFullWidth(c)
    ensures IsFullWidth(c) ==> 0x20 <= r as int <= 0x7E
  {
    if 0xFF00 < c as int < 0xFF5F then (0x20 + (c as int - 0xFF00)) as char
    else if c as int == IDEOGRAPHIC_SPACE then 0x20 as char
    else c
  }

  function ToHalfWidth(s: string): (r: string)
    ensures |r| == |s|
    ensures forall i :: 0 <= i < |r| ==> !IsFullWidth(r[i])
  {
    seq(|s|, i requires 0 <= i < |s| => ConvertChar(s[i]))
  }

  /** Normalising twice is normalising once. */
  lemma ToHalfWidthIdempotent(s: string)
    ensures ToHalfWidth(ToHalfWidth(s)) == ToHalfWidth(s)
  {
    var t := ToHalfWidth(s);
    forall i | 0 <= i < |t|
      ensures ToHalfWidth(t)[i] == t[i]
    {
      assert !IsFullWidth(t[i]);
    }
  }

  /** A string is left unchanged exactly when it holds no full-width character. */
  lemma ToHalfWidthFixedPoint(s: string)
    ensures ToHalfWidth(s) == s <==> forall i :: 0 <= i < |s| ==> !IsFullWidth(s[i])
  {
    if forall i :: 0 <= i < |s| ==> !IsFullWidth(s[i]) {
      forall i | 0 <= i < |s|
        ensures ToHalfWidth(s)[i] == s[i]
      {
      }
    } else {
      var i :| 0 <= i < |s| && IsFullWidth(s[i]);
      assert ToHalfWidth(s)[i] != s[i];
    }
  }

  /** The full-width form of a printable ASCII character (space excluded). */
  function FullWidthOf(c: char): (r: char)
    requires 0x21 <= c as int <= 0x7E
    ensures IsFullWidth(r)
  {
    (c as int + 0xFF00 - 0x20) as char
  }

  /** Half-width conversion undoes the full-width form of printable ASCII text. */
  lemma HalfWidthOfFullWidth(t: string)
    requires forall i :: 0 <= i < |t| ==> 0x21 <= t[i] as int <= 0x7E
    ensures ToHalfWidth(seq(|t|, i requires 0 <= i < |t| => FullWidthOf(t[i]))) == t
  {
    var f := seq(|t|, i requires 0 <= i < |t| => FullWidthOf(t[i]));
    forall i | 0 <= i < |t|
      ensures ToHalfWidth(f)[i] == t[i]
    {
    }
  }
}
