/**
 * Whether the database server can store the `data` columns as JSON: MariaDB
 * from 10.2.7, MySQL from 5.7.8, judged from the text `SELECT VERSION()`
 * returns.
 */
module DbVersion {
  import opened Common
  import PhpStrings

  datatype Version = Version(major: nat, minor: nat, patch: nat)

  /** `v` is `t` or later in (major, minor, patch) order. */
  predicate AtLeast(v: Version, t: Version) {
    v.major > t.major
    || (v.major == t.major && v.minor > t.minor)
    || (v.major == t.major && v.minor == t.minor && v.patch >= t.patch)
  }

  const MariaDbJson: Version := Version(10, 2, 7)
  const MySqlJson: Version := Version(5, 7, 8)

  /** A run of digits followed by a dot at the start of `t`: its value and the text after the dot. */
  function DotRun(t: string): Option<(nat, string)> {
    var d := PhpStrings.LeadingDigits(t);
    if |d| == 0 || |d| >= |t| || t[|d|] != '.' then None
    else Some((PhpStrings.DigitsValue(d), t[|d| + 1..]))
  }

  /**
   * The pattern `(\d+)\.(\d+)\.(\d+)` at the start of `t`: three runs of
   * digits separated by dots. Each run is taken whole, as greedy matching
   * that must be followed by a dot (or, for the last, by nothing) takes it.
   */
  function MatchFrom(t: string): Option<Version> {
    match DotRun(t)
    case None => None
    case Some((major, t1)) =>
      match DotRun(t1)
      case None => None
      case Some((minor, t2)) =>
        var d3 := PhpStrings.LeadingDigits(t2);
        if |d3| == 0 then None else Some(Version(major, minor, PhpStrings.DigitsValue(d3)))
  }

  function MatchAt(s: string, i: nat): Option<Version>
    requires i <= |s|
  {
    MatchFrom(s[i..])
  }

  /** `p` is the first position from `i` on where the pattern matches. */
  predicate LeftmostAt(s: string, i: nat, p: nat)
    requires i <= |s|
  {
    i <= p <= |s| && MatchAt(s, p).Some? && forall q :: i <= q < p ==> MatchAt(s, q).None?
  }

  /** `preg_match`: the leftmost position from `i` on where the pattern matches. */
  function FirstMatch(s: string, i: nat): (r: Option<Version>)
    requires i <= |s|
    ensures r.Some? ==> exists p :: LeftmostAt(s, i, p) && MatchAt(s, p) == r
    ensures r.None? ==> forall p :: i <= p <= |s| ==> MatchAt(s, p).None?
    decreases |s| - i
  {
    if MatchAt(s, i).Some? then
      assert LeftmostAt(s, i, i);
      MatchAt(s, i)
    else if i == |s| then None
    else
      var r := FirstMatch(s, i + 1);
      if r.Some? then
        var p :| LeftmostAt(s, i + 1, p) && MatchAt(s, p) == r;
        LeftmostStep(s, i, p);
        r
      else r
  }

  /** A leftmost match from `i + 1` is leftmost from `i` when the pattern does not match at `i`. */
  lemma LeftmostStep(s: string, i: nat, p: nat)
    requires i < |s| && MatchAt(s, i).None?
    requires LeftmostAt(s, i + 1, p)
    ensures LeftmostAt(s, i, p)
  {
  }

  /** `stripos($version, 'mariadb') !== false`. */
  predicate IsMariaDb(version: string) {
    PhpStrings.Contains(PhpStrings.ToLower(version), "mariadb")
  }

  /** `supports_json_type`: an empty version, or one with no x.y.z in it, supports nothing. */
  function SupportsJson(version: string): (r: bool)
    ensures PhpStrings.IsEmpty(version) ==> !r
    ensures FirstMatch(version, 0).None? ==> !r
    ensures !PhpStrings.IsEmpty(version) && FirstMatch(version, 0).Some? ==>
      (r <==> AtLeast(FirstMatch(version, 0).value, if IsMariaDb(version) then MariaDbJson else MySqlJson))
  {
    if PhpStrings.IsEmpty(version) then false
    else
      match FirstMatch(version, 0)
      case None => false
      case Some(v) => if IsMariaDb(version) then AtLeast(v, MariaDbJson) else AtLeast(v, MySqlJson)
  }

  /** The version order is transitive, so any release after a threshold also passes it. */
  lemma AtLeastTransitive(u: Version, v: Version, t: Version)
    requires AtLeast(u, v) && AtLeast(v, t)
    ensures AtLeast(u, t)
  {
  }

  /** The text "a.b.c" followed by anything that does not continue the number. */
  function VersionText(v: Version, suffix: string): string {
    PhpStrings.NatToString(v.major) + "." + PhpStrings.NatToString(v.minor) + "."
      + PhpStrings.NatToString(v.patch) + suffix
  }

  predicate AllDigits(d: string) {
    |d| > 0 && forall i :: 0 <= i < |d| ==> PhpStrings.IsDigit(d[i])
  }

  lemma DotRunOf(d: string, rest: string)
    requires AllDigits(d)
    ensures DotRun(d + "." + rest) == Some((PhpStrings.DigitsValue(d), rest))
  {
    var t := d + "." + rest;
    assert t == d + ("." + rest);
    PhpStrings.LeadingDigitsOfPrefix(d, "." + rest);
    assert t[|d|] == '.';
    assert t[|d| + 1..] == rest;
  }

  lemma MatchDigits(a: string, b: string, c: string, suffix: string)
    requires AllDigits(a) && AllDigits(b) && AllDigits(c)
    requires |suffix| == 0 || !PhpStrings.IsDigit(suffix[0])
    ensures MatchFrom(a + "." + (b + "." + (c + suffix)))
      == Some(Version(PhpStrings.DigitsValue(a), PhpStrings.DigitsValue(b), PhpStrings.DigitsValue(c)))
  {
    DotRunOf(a, b + "." + (c + suffix));
    DotRunOf(b, c + suffix);
    PhpStrings.LeadingDigitsOfPrefix(c, suffix);
  }

  /** A version string that starts "a.b.c" is read as (a, b, c). */
  lemma MatchVersionText(v: Version, suffix: string)
    requires |suffix| == 0 || !PhpStrings.IsDigit(suffix[0])
    ensures FirstMatch(VersionText(v, suffix), 0) == Some(v)
  {
    var a := PhpStrings.NatToString(v.major);
    var b := PhpStrings.NatToString(v.minor);
    var c := PhpStrings.NatToString(v.patch);
    var s := VersionText(v, suffix);
    assert s == a + "." + (b + "." + (c + suffix));
    assert s[0..] == s;
    MatchDigits(a, b, c, suffix);
    PhpStrings.DigitsValueOfNat(v.major);
    PhpStrings.DigitsValueOfNat(v.minor);
    PhpStrings.DigitsValueOfNat(v.patch);
  }

  /** A MySQL server reporting "a.b.c-..." supports JSON exactly from 5.7.8 on. */
  lemma MySqlThreshold(v: Version, suffix: string)
    requires |suffix| == 0 || !PhpStrings.IsDigit(suffix[0])
    requires !IsMariaDb(VersionText(v, suffix))
    ensures SupportsJson(VersionText(v, suffix)) <==> AtLeast(v, MySqlJson)
  {
    MatchVersionText(v, suffix);
    var s := VersionText(v, suffix);
    assert !PhpStrings.IsEmpty(s) by {
      assert |s| >= 5;
    }
  }
}
