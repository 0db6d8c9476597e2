/**
 * The `$build_class` helper of `render_casino_card`: it turns a colour
 * setting such as "blue-600" into a Tailwind class ("bg-blue-600") while
 * leaving values that already are full classes alone.
 */
module Tailwind {
  import opened PhpStrings

  /** Prefixes that mark a value as an already complete class. */
  const FullClassPrefixes: seq<string> := ["text-", "bg-", "border-", "hover:bg-", "hover:text-"]

  predicate HasFullClassPrefix(c: string) {
    exists i :: 0 <= i < |FullClassPrefixes| && StartsWith(c, FullClassPrefixes[i])
  }

  /** `$build_class($base, $custom)`. */
  function BuildClass(base: string, custom: string): (r: string)
    ensures IsEmpty(custom) ==> r == ""
    ensures !IsEmpty(custom) && '[' in custom ==> r == custom
    ensures !IsEmpty(custom) && StartsWith(custom, base + "-") ==> r == custom
    ensures !IsEmpty(custom) && HasFullClassPrefix(custom) ==> r == custom
    ensures !IsEmpty(custom) && '[' !in custom && !StartsWith(custom, base + "-") && !HasFullClassPrefix(custom)
            ==> r == base + "-" + custom
  {
    if IsEmpty(custom) then ""
    else if '[' in custom then custom
    else if StartsWith(custom, base + "-") then custom
    else if HasFullClassPrefix(custom) then custom
    else base + "-" + custom
  }

  /** Every result is empty, the input itself, or carries the `base-` prefix. */
  lemma BuildClassShape(base: string, custom: string)
    ensures var r := BuildClass(base, custom);
            r == "" || r == custom || StartsWith(r, base + "-")
  {
    var r := BuildClass(base, custom);
    if r != "" && r != custom {
      assert r == base + "-" + custom;
      assert r[..|base + "-"|] == base + "-";
    }
  }

  /** Normalising a class twice is the same as normalising it once. */
  lemma BuildClassIdempotent(base: string, custom: string)
    ensures BuildClass(base, BuildClass(base, custom)) == BuildClass(base, custom)
  {
    var r := BuildClass(base, custom);
    if r != "" && r != custom {
      assert r == base + "-" + custom;
      assert r[..|base + "-"|] == base + "-";
      assert |r| >= 2;
    }
  }

  // The hover classes are built as `'hover:' . $build_class(...)` in
  // dataflair-toplists.php. Since $build_class passes "hover:bg-..." values
  // through unchanged, that concatenation doubles the variant prefix.

  /** The hover class exactly as the template concatenates it. */
  function HoverClassAsWritten(base: string, custom: string): (r: string)
    ensures StartsWith(r, "hover:")
    ensures r[|"hover:"|..] == BuildClass(base, custom)
  {
    var r := "hover:" + BuildClass(base, custom);
    assert r[..|"hover:"|] == "hover:";
    r
  }

  /**
   * A value entered as the editor's help text suggests ("hover:bg-[color]")
   * comes out with the variant twice, which Tailwind does not recognise.
   */
  lemma HoverClassDoublesPrefix()
    ensures HoverClassAsWritten("bg", "hover:bg-blue-700") == "hover:hover:bg-blue-700"
  {
    var c := "hover:bg-blue-700";
    assert StartsWith(c, FullClassPrefixes[3]);
    assert c[0] == 'h';
    assert !StartsWith(c, "bg-");
    assert '[' !in c;
    assert BuildClass("bg", c) == c;
  }

  /** The hover class with the `hover:` variant added only when it is not already there. */
  function HoverClass(base: string, custom: string): (r: string)
    ensures BuildClass(base, custom) == "" ==> r == ""
    ensures BuildClass(base, custom) != "" ==> StartsWith(r, "hover:")
    ensures StartsWith(BuildClass(base, custom), "hover:") ==> r == BuildClass(base, custom)
    ensures r == BuildClass(base, custom) || r == "hover:" + BuildClass(base, custom)
  {
    var b := BuildClass(base, custom);
    if b == "" then ""
    else if StartsWith(b, "hover:") then b
    else
      var r := "hover:" + b;
      assert r[..|"hover:"|] == "hover:";
      r
  }

  /** The value from the counterexample above now yields a single variant. */
  lemma HoverClassKeepsSingleVariant()
    ensures HoverClass("bg", "hover:bg-blue-700") == "hover:bg-blue-700"
  {
    HoverClassDoublesPrefix();
  }

  /** Where the template's concatenation was already right, the corrected one agrees with it. */
  lemma HoverClassAgrees(base: string, custom: string)
    requires BuildClass(base, custom) != ""
    requires !StartsWith(BuildClass(base, custom), "hover:")
    ensures HoverClass(base, custom) == HoverClassAsWritten(base, custom)
  {
  }
}
