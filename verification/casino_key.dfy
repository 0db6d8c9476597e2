/**
 * The key that ties a pros/cons override to a card: "casino-" followed by
 * the item's position, a dash and the brand slug. The block editor stores an
 * override under the slug its REST route sends (`sanitize_title` of the raw
 * brand name); the card renderers look it up under `sanitize_title` of the
 * HTML-escaped name. The two keys meet only when both slugs agree.
 */
module CasinoKeys {
  import opened Common
  import PhpStrings

  const KeyPrefix: string := "casino-"

  function CasinoKey(position: string, slug: string): (r: string)
    ensures PhpStrings.StartsWith(r, KeyPrefix)
    ensures |r| == |KeyPrefix| + |position| + 1 + |slug|
  {
    KeyPrefix + position + "-" + slug
  }

  /** Read a key back into its position number and slug. */
  function ParseCasinoKey(k: string): Option<(nat, string)> {
    if !PhpStrings.StartsWith(k, KeyPrefix) then None
    else
      var rest := k[|KeyPrefix|..];
      var digits := PhpStrings.LeadingDigits(rest);
      if |digits| == 0 || |digits| == |rest| || rest[|digits|] != '-' then None
      else Some((PhpStrings.DigitsValue(digits), rest[|digits| + 1..]))
  }

  /** The key of a numeric position parses back to that position and slug. */
  lemma ParseCasinoKeyRoundTrip(position: nat, slug: string)
    ensures ParseCasinoKey(CasinoKey(PhpStrings.NatToString(position), slug)) == Some((position, slug))
  {
    var p := PhpStrings.NatToString(position);
    var k := CasinoKey(p, slug);
    assert k[|KeyPrefix|..] == p + "-" + slug;
    PhpStrings.LeadingDigitsOfPrefix(p, "-" + slug);
    assert p + "-" + slug == p + ("-" + slug);
    PhpStrings.DigitsValueOfNat(position);
    assert (p + "-" + slug)[|p| + 1..] == slug;
  }

  /** Different cards get different keys. */
  lemma CasinoKeyInjective(p1: nat, s1: string, p2: nat, s2: string)
    requires CasinoKey(PhpStrings.NatToString(p1), s1) == CasinoKey(PhpStrings.NatToString(p2), s2)
    ensures p1 == p2 && s1 == s2
  {
    ParseCasinoKeyRoundTrip(p1, s1);
    ParseCasinoKeyRoundTrip(p2, s2);
  }

  /** Two keys for the same position are equal exactly when their slugs are. */
  lemma CasinoKeySameSlot(position: string, s1: string, s2: string)
    ensures CasinoKey(position, s1) == CasinoKey(position, s2) <==> s1 == s2
  {
    var n := |KeyPrefix| + |position| + 1;
    assert CasinoKey(position, s1)[n..] == s1;
    assert CasinoKey(position, s2)[n..] == s2;
  }
}
