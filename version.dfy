/**
 * Format versions of replay files. The decoder prints the three version bytes of a
 * GameStart event as "a.b.c" (an absent byte prints as nothing), and the frame
 * reducer parses that text again with System.Version.Parse to compare it with
 * "1.6.0" and "2.2.0". Parsing is modelled for the three-component form only;
 * comparison is lexicographic on the integer triple.
 */
module Version {
  import opened Wrappers
  import opened Bits

  datatype Triple = Triple(major: nat, minor: nat, build: nat)

  /** The threshold from which settings are complete at GameStart. */
  const SHEIK_FIX_VERSION: Triple := Triple(1, 6, 0)
  /** The last version whose files carry no FrameBookend events. */
  const LAST_UNBOOKENDED_VERSION: Triple := Triple(2, 2, 0)

  /**
   * `v >= w` for System.Version values with three components: every version is at
   * least itself, and the major component decides unless it ties.
   */
  predicate AtLeast(v: Triple, w: Triple): (r: bool)
    ensures v == w ==> r
    ensures v.major > w.major ==> r
    ensures v.major < w.major ==> !r
  {
    v.major > w.major
    || (v.major == w.major && v.minor > w.minor)
    || (v.major == w.major && v.minor == w.minor && v.build >= w.build)
  }

  /** `v <= w`: holds exactly when the versions are equal or `v >= w` fails. */
  predicate AtMost(v: Triple, w: Triple): (r: bool)
    ensures r <==> v == w || !AtLeast(v, w)
  {
    AtLeast(w, v)
  }

  /** One interpolated component: the decimal byte, or nothing for an absent byte. */
  function Component(x: Option<nat>): string {
    if x.Some? then NatToString(x.value) else ""
  }

  /** `$"{a}.{b}.{c}"` over nullable bytes: splitting at the dots gives the three components back. */
  function FormatVersion(a: Option<nat>, b: Option<nat>, c: Option<nat>): (r: string)
    ensures Split(r, '.') == [Component(a), Component(b), Component(c)]
  {
    var x, y, z := Component(a), Component(b), Component(c);
    assert x + "." + y + "." + z == x + ['.'] + (y + ['.'] + z);
    SplitAtSeparator(x, '.', y + ['.'] + z);
    SplitAtSeparator(y, '.', z);
    SplitNoSeparator(z, '.');
    x + "." + y + "." + z
  }

  /**
   * Version.Parse for the "major.minor.build" form: three non-empty runs of digits,
   * each no larger than int.MaxValue. None stands for the exception Parse throws.
   */
  function Parse(s: string): (r: Option<Triple>)
    ensures r.Some? ==> r.value.major <= INT32_MAX && r.value.minor <= INT32_MAX && r.value.build <= INT32_MAX
  {
    var parts := Split(s, '.');
    if |parts| == 3 then
      var a, b, c := ParseNat(parts[0]), ParseNat(parts[1]), ParseNat(parts[2]);
      if a.Some? && b.Some? && c.Some? && a.value <= INT32_MAX && b.value <= INT32_MAX && c.value <= INT32_MAX
      then Some(Triple(a.value, b.value, c.value))
      else None
    else None
  }

  lemma {:induction false} SplitNoSeparator(x: string, sep: char)
    requires forall i :: 0 <= i < |x| ==> x[i] != sep
    ensures Split(x, sep) == [x]
  {
    if x != [] {
      SplitNoSeparator(x[1..], sep);
      assert [x[0]] + x[1..] == x;
    }
  }

  lemma {:induction false} SplitAtSeparator(x: string, sep: char, y: string)
    requires forall i :: 0 <= i < |x| ==> x[i] != sep
    ensures Split(x + [sep] + y, sep) == [x] + Split(y, sep)
  {
    if x == [] {
      assert (x + [sep] + y)[1..] == y;
    } else {
      var s := x + [sep] + y;
      assert s[0] == x[0] && s[1..] == x[1..] + [sep] + y;
      SplitAtSeparator(x[1..], sep, y);
      assert [x[0]] + x[1..] == x;
    }
  }

  /**
   * The printed version of a GameStart parses back to its three bytes, and fails to
   * parse exactly when one of them was absent from the payload.
   */
  lemma FormatParseRoundTrip(a: Option<nat>, b: Option<nat>, c: Option<nat>)
    requires a.Some? ==> a.value <= INT32_MAX
    requires b.Some? ==> b.value <= INT32_MAX
    requires c.Some? ==> c.value <= INT32_MAX
    ensures Parse(FormatVersion(a, b, c)).Some? <==> a.Some? && b.Some? && c.Some?
    ensures a.Some? && b.Some? && c.Some? ==>
              Parse(FormatVersion(a, b, c)) == Some(Triple(a.value, b.value, c.value))
  {
    if a.Some? { NatToStringRoundTrip(a.value); }
    if b.Some? { NatToStringRoundTrip(b.value); }
    if c.Some? { NatToStringRoundTrip(c.value); }
  }

  /** Version comparison is a total order: any two versions compare one way or the other, and both ways only when equal. */
  lemma CompareTotal(v: Triple, w: Triple)
    ensures AtLeast(v, w) || AtLeast(w, v)
    ensures AtLeast(v, w) && AtLeast(w, v) ==> v == w
  {
  }
}
