/**
 * Field resolution for one casino card of a toplist: which of the several
 * places the API may put a logo, a link, payment methods or a review URL is
 * used, and which features and pros/cons the card shows. `item` is one
 * decoded toplist item, `brand` and `offer` its `brand` and `offer` parts.
 * WordPress's escaping and URL helpers are parameters.
 */
module CasinoCard {
  import opened Common
  import PhpStrings
  import opened Values
  import CasinoKeys

  /** PHP's conversion of a value to text: arrays print as "Array", null as "". */
  function AsText(v: Value): string {
    match v
    case Str(s) => s
    case Null => ""
    case _ => "Array"
  }

  /** `vs[i]` is the first non-empty value: the one an `if (!empty(..)) .. elseif ..` chain picks. */
  predicate FirstNonEmptyAt(vs: seq<Value>, i: int) {
    0 <= i < |vs| && !IsEmpty(vs[i]) && forall j :: 0 <= j < i ==> IsEmpty(vs[j])
  }

  predicate AllEmpty(vs: seq<Value>) {
    forall j :: 0 <= j < |vs| ==> IsEmpty(vs[j])
  }

  /** The first non-empty value, or `default` when every value is empty: an `if (!empty(..)) .. elseif ..` chain. */
  function FirstOr(vs: seq<Value>, default: Value): (r: Value)
    ensures forall i :: FirstNonEmptyAt(vs, i) ==> r == vs[i]
    ensures AllEmpty(vs) ==> r == default
  {
    if |vs| == 0 then default
    else if !IsEmpty(vs[0]) then vs[0]
    else
      assert forall i :: FirstNonEmptyAt(vs, i) ==> i > 0 && FirstNonEmptyAt(vs[1..], i - 1);
      FirstOr(vs[1..], default)
  }

  function Fields(v: Value, keys: seq<string>): (r: seq<Value>)
    ensures |r| == |keys|
    ensures forall i :: 0 <= i < |keys| ==> r[i] == Get(v, keys[i])
  {
    seq(|keys|, i requires 0 <= i < |keys| => Get(v, keys[i]))
  }

  // ---------------------------------------------------------------- logo

  const LogoKeys: seq<string> := ["logo", "brandLogo", "logoUrl", "image", "logoImage"]
  const LogoSubKeys: seq<string> := ["rectangular", "square", "url", "src", "path", "0"]

  /** An array-valued logo source: its first non-empty sub-key, in `LogoSubKeys` order. */
  function NestedLogo(v: Value): (r: Option<Value>)
    ensures r.Some? <==> exists i :: 0 <= i < |LogoSubKeys| && !IsEmpty(Get(v, LogoSubKeys[i]))
    ensures forall i :: FirstNonEmptyAt(Fields(v, LogoSubKeys), i) ==> r == Some(Get(v, LogoSubKeys[i]))
  {
    var fs := Fields(v, LogoSubKeys);
    if !IsEmpty(fs[0]) then Some(fs[0])
    else if !IsEmpty(fs[1]) then Some(fs[1])
    else if !IsEmpty(fs[2]) then Some(fs[2])
    else if !IsEmpty(fs[3]) then Some(fs[3])
    else if !IsEmpty(fs[4]) then Some(fs[4])
    else if !IsEmpty(fs[5]) then Some(fs[5])
    else None
  }

  /** A logo source decides the logo when it is a non-empty string, or an array with a non-empty sub-key. */
  predicate Decides(v: Value) {
    !IsEmpty(v) && (!IsArray(v) || NestedLogo(v).Some?)
  }

  predicate FirstDecidingAt(brand: Value, keys: seq<string>, i: int) {
    0 <= i < |keys| && Decides(Get(brand, keys[i])) && forall j :: 0 <= j < i ==> !Decides(Get(brand, keys[j]))
  }

  /** What a deciding source contributes. */
  function Picked(v: Value): Value
    requires Decides(v)
  {
    if IsArray(v) then NestedLogo(v).value else v
  }

  /**
   * The loop over the logo keys: an empty key is skipped, and so is an array
   * with no usable sub-key; anything else ends the loop.
   */
  function ScanLogo(brand: Value, keys: seq<string>): (r: Value)
    ensures (forall i :: 0 <= i < |keys| ==> !Decides(Get(brand, keys[i]))) ==> r == Str("")
    ensures forall i :: FirstDecidingAt(brand, keys, i) ==> r == Picked(Get(brand, keys[i]))
  {
    if |keys| == 0 then Str("")
    else
      var v := Get(brand, keys[0]);
      if !Decides(v) then
        ScanShift(brand, keys);
        ScanLogo(brand, keys[1..])
      else
        assert forall i :: FirstDecidingAt(brand, keys, i) ==> i == 0;
        if IsArray(v) then NestedLogo(v).value else v
  }

  /** When the first key does not decide, the scan's answer is that of the remaining keys. */
  lemma ScanShift(brand: Value, keys: seq<string>)
    requires |keys| > 0 && !Decides(Get(brand, keys[0]))
    ensures forall i :: FirstDecidingAt(brand, keys, i) ==> FirstDecidingAt(brand, keys[1..], i - 1)
    ensures (forall i :: 0 <= i < |keys| ==> !Decides(Get(brand, keys[i])))
            ==> forall i :: 0 <= i < |keys| - 1 ==> !Decides(Get(brand, keys[1..][i]))
  {
    var rest := keys[1..];
    forall i | FirstDecidingAt(brand, keys, i)
      ensures FirstDecidingAt(brand, rest, i - 1)
    {
      assert rest[i - 1] == keys[i];
      forall j | 0 <= j < i - 1 ensures !Decides(Get(brand, rest[j])) {
        assert rest[j] == keys[j + 1];
      }
    }
    if forall i :: 0 <= i < |keys| ==> !Decides(Get(brand, keys[i])) {
      forall i | 0 <= i < |rest| ensures !Decides(Get(brand, rest[i])) {
        assert rest[i] == keys[i + 1];
      }
    }
  }

  /** The logo before cleaning: a non-empty `local_logo` wins, otherwise the key scan. */
  function LogoSource(brand: Value): (r: Value)
    ensures !IsEmpty(Get(brand, "local_logo")) ==> r == Get(brand, "local_logo")
  {
    var local := Get(brand, "local_logo");
    if !IsEmpty(local) then local else ScanLogo(brand, LogoKeys)
  }

  /** The logo URL: the escaped source when it is a non-empty string, otherwise "". */
  function LogoUrl(brand: Value, escUrl: string -> string): (r: string)
    ensures LogoSource(brand).Str? && !PhpStrings.IsEmpty(LogoSource(brand).s) ==> r == escUrl(LogoSource(brand).s)
    ensures IsEmpty(LogoSource(brand)) || IsArray(LogoSource(brand)) ==> r == ""
  {
    var v := LogoSource(brand);
    if !IsEmpty(v) && !IsArray(v) then escUrl(AsText(v)) else ""
  }

  /** A non-empty string `local_logo` is the logo, whatever the other keys hold. */
  lemma LocalLogoWins(brand: Value, escUrl: string -> string)
    requires Get(brand, "local_logo").Str? && !PhpStrings.IsEmpty(Get(brand, "local_logo").s)
    ensures LogoUrl(brand, escUrl) == escUrl(Get(brand, "local_logo").s)
  {
  }

  /** The first logo key holding a non-empty string decides when no earlier key decides. */
  lemma {:induction false} FirstStringLogoKeyWins(brand: Value, i: nat, escUrl: string -> string)
    requires IsEmpty(Get(brand, "local_logo"))
    requires i < |LogoKeys|
    requires Get(brand, LogoKeys[i]).Str? && !IsEmpty(Get(brand, LogoKeys[i]))
    requires forall j :: 0 <= j < i ==> !Decides(Get(brand, LogoKeys[j]))
    ensures LogoUrl(brand, escUrl) == escUrl(Get(brand, LogoKeys[i]).s)
  {
    assert Decides(Get(brand, LogoKeys[i]));
    assert ScanLogo(brand, LogoKeys) == Get(brand, LogoKeys[i]);
  }

  // ------------------------------------------------------------ features

  /** `!empty(trim($x))`: a string with something other than whitespace. */
  predicate NotBlank(v: Value) {
    v.Str? && !PhpStrings.IsEmpty(PhpStrings.Trim(v.s))
  }

  /** The entries of a list value; other values have none. */
  function Entries(v: Value): seq<Value> {
    if v.List? then v.items else []
  }

  /** The `array_filter` that drops blank entries, keeping order. */
  function NonBlank(xs: seq<Value>): (r: seq<Value>)
    ensures |r| <= |xs|
    ensures forall i :: 0 <= i < |r| ==> NotBlank(r[i])
    ensures forall x :: x in r <==> x in xs && NotBlank(x)
  {
    if |xs| == 0 then []
    else
      assert xs == [xs[0]] + xs[1..];
      (if NotBlank(xs[0]) then [xs[0]] else []) + NonBlank(xs[1..])
  }

  /** The filter keeps every non-blank entry as often as it occurs and drops every blank one. */
  lemma {:induction false} NonBlankCounts(xs: seq<Value>)
    ensures forall x :: multiset(NonBlank(xs))[x] == if NotBlank(x) then multiset(xs)[x] else 0
  {
    if |xs| > 0 {
      NonBlankCounts(xs[1..]);
      NonBlankCons(xs[0], xs[1..]);
      assert xs == [xs[0]] + xs[1..];
      assert multiset(xs) == multiset{xs[0]} + multiset(xs[1..]);
    }
  }

  /** Filtering a list with one more entry in front. */
  lemma NonBlankCons(x: Value, xs: seq<Value>)
    ensures NonBlank([x] + xs) == (if NotBlank(x) then [x] else []) + NonBlank(xs)
  {
    assert ([x] + xs)[0] == x && ([x] + xs)[1..] == xs;
  }

  /** The filter keeps order: filtering a concatenation concatenates the filtered parts. */
  lemma {:induction false} NonBlankAppend(a: seq<Value>, b: seq<Value>)
    ensures NonBlank(a + b) == NonBlank(a) + NonBlank(b)
  {
    if |a| == 0 {
      assert a + b == b;
    } else {
      var h := if NotBlank(a[0]) then [a[0]] else [];
      assert a == [a[0]] + a[1..];
      assert a + b == [a[0]] + (a[1..] + b);
      NonBlankCons(a[0], a[1..] + b);
      NonBlankCons(a[0], a[1..]);
      NonBlankAppend(a[1..], b);
      AppendAssoc(h, NonBlank(a[1..]), NonBlank(b));
    }
  }

  lemma AppendAssoc(x: seq<Value>, y: seq<Value>, z: seq<Value>)
    ensures x + (y + z) == (x + y) + z
  {
  }

  /** One entry is kept exactly when it is not blank. */
  lemma NonBlankSingle(x: Value)
    ensures NonBlank([x]) == if NotBlank(x) then [x] else []
  {
    assert [x][1..] == [];
  }

  /** A list with no blank entries passes the filter unchanged. */
  lemma {:induction false} NonBlankKeepsClean(xs: seq<Value>)
    requires forall i :: 0 <= i < |xs| ==> NotBlank(xs[i])
    ensures NonBlank(xs) == xs
  {
    if |xs| > 0 {
      NonBlankKeepsClean(xs[1..]);
      assert xs == [xs[0]] + xs[1..];
    }
  }

  /** Filtering twice is filtering once. */
  lemma NonBlankIdempotent(xs: seq<Value>)
    ensures NonBlank(NonBlank(xs)) == NonBlank(xs)
  {
    NonBlankKeepsClean(NonBlank(xs));
  }

  const MaxFeatures: nat := 3

  /** The block-editor override for a card, when the pros/cons data has one for its key. */
  function Override(prosCons: Value, casinoKey: string): Option<Value> {
    var o := Get(prosCons, casinoKey);
    if !IsEmpty(prosCons) && o != Null then Some(o) else None
  }

  /** The override's pros, blank-filtered and capped, or nothing. */
  function OverridePros(prosCons: Value, casinoKey: string): (r: seq<Value>)
    ensures |r| <= MaxFeatures
  {
    match Override(prosCons, casinoKey)
    case Some(o) =>
      var pros := Get(o, "pros");
      if !IsEmpty(pros) && IsArray(pros) then PhpStrings.Take(NonBlank(Entries(pros)), MaxFeatures) else []
    case None => []
  }

  /**
   * The card's features: the override's non-blank pros, else the first API
   * features; never more than 3. A non-array `features` value has no entries.
   */
  function Features(item: Value, prosCons: Value, casinoKey: string): (r: seq<Value>)
    ensures |r| <= MaxFeatures
    ensures |OverridePros(prosCons, casinoKey)| > 0 ==> r == OverridePros(prosCons, casinoKey)
    ensures |OverridePros(prosCons, casinoKey)| == 0 ==> r == PhpStrings.Take(Entries(Get(item, "features")), MaxFeatures)
  {
    var fromPros := OverridePros(prosCons, casinoKey);
    var api := Get(item, "features");
    if |fromPros| == 0 && !IsEmpty(api) then PhpStrings.Take(Entries(api), MaxFeatures)
    else fromPros
  }

  lemma OverrideProsValue(prosCons: Value, casinoKey: string, pros: seq<Value>)
    requires !IsEmpty(prosCons)
    requires Get(prosCons, casinoKey) != Null
    requires Get(Get(prosCons, casinoKey), "pros") == List(pros)
    requires |pros| > 0
    ensures OverridePros(prosCons, casinoKey) == PhpStrings.Take(NonBlank(pros), MaxFeatures)
  {
    var o := Get(prosCons, casinoKey);
    assert Override(prosCons, casinoKey) == Some(o);
    var p := Get(o, "pros");
    assert p == List(pros) && !IsEmpty(p) && IsArray(p);
    assert Entries(p) == pros;
  }

  /** An override with a non-blank pro replaces the API features by its first three non-blank pros, in order. */
  lemma OverrideProsAreFeatures(item: Value, prosCons: Value, casinoKey: string, pros: seq<Value>)
    requires !IsEmpty(prosCons)
    requires Get(prosCons, casinoKey) != Null
    requires Get(Get(prosCons, casinoKey), "pros") == List(pros)
    requires exists i :: 0 <= i < |pros| && NotBlank(pros[i])
    ensures Features(item, prosCons, casinoKey) == PhpStrings.Take(NonBlank(pros), MaxFeatures)
    ensures forall f :: f in Features(item, prosCons, casinoKey) ==> NotBlank(f) && f in pros
  {
    var i :| 0 <= i < |pros| && NotBlank(pros[i]);
    var kept := NonBlank(pros);
    assert pros[i] in pros;
    assert pros[i] in kept;
    OverrideProsValue(prosCons, casinoKey, pros);
    var r := PhpStrings.Take(kept, MaxFeatures);
    assert |r| > 0;
    forall f | f in r ensures NotBlank(f) && f in pros {
      assert f in kept;
    }
  }

  // ------------------------------------------------------ payment methods

  /** The payment-method sources, in the order they are tried. */
  function PaymentSources(item: Value, brand: Value): seq<Value> {
    [Get(item, "payment_methods"), Get(item, "paymentMethods"),
     Get(brand, "payment_methods"), Get(brand, "paymentMethods")]
  }

  function PaymentMethods(item: Value, brand: Value): (r: Value)
    ensures forall i :: FirstNonEmptyAt(PaymentSources(item, brand), i) ==> r == PaymentSources(item, brand)[i]
    ensures AllEmpty(PaymentSources(item, brand)) ==> r == List([])
  {
    FirstOr(PaymentSources(item, brand), List([]))
  }

  // ---------------------------------------------------------- casino URL

  const NoUrl: string := "#"

  /** The card template's link sources, in order: offer `tracking_url`, offer `url`, brand `url`. */
  function CardUrlSources(offer: Value, brand: Value): seq<Value> {
    [Get(offer, "tracking_url"), Get(offer, "url"), Get(brand, "url")]
  }

  /**
   * The card template's casino link: the first non-empty source, "" when that
   * source is an array (no fall-through to later sources), then escaped, or
   * "#" when nothing usable is left.
   */
  function CardCasinoUrl(offer: Value, brand: Value, escUrl: string -> string): (r: string)
    ensures AllEmpty(CardUrlSources(offer, brand)) ==> r == NoUrl
    ensures forall i :: FirstNonEmptyAt(CardUrlSources(offer, brand), i) ==>
      r == (if IsArray(CardUrlSources(offer, brand)[i]) then NoUrl else escUrl(CardUrlSources(offer, brand)[i].s))
  {
    var chosen := FirstOr(CardUrlSources(offer, brand), Str(""));
    var url := if IsArray(chosen) then "" else AsText(chosen);
    if !PhpStrings.IsEmpty(url) then escUrl(url) else NoUrl
  }

  /** An array `tracking_url` gives "#" even when the offer or brand has a string URL. */
  lemma ArrayTrackingUrlStops(offer: Value, brand: Value, escUrl: string -> string)
    requires Get(offer, "tracking_url").List? && |Get(offer, "tracking_url").items| > 0
    ensures CardCasinoUrl(offer, brand, escUrl) == NoUrl
  {
  }

  /** The shortcode renderer's link sources, in order. */
  function LinkSources(item: Value, offer: Value, brand: Value): seq<Value> {
    [Get(offer, "tracking_url"), Get(offer, "url"), Get(offer, "link"),
     Get(brand, "url"), Get(brand, "website"), Get(item, "url")]
  }

  /**
   * The shortcode renderer's casino link: the first non-empty of six sources,
   * passed through the `dataflair_casino_url` filter `hook`, and "#" when the
   * filtered value is empty.
   */
  function CasinoUrl(item: Value, offer: Value, brand: Value, hook: Value -> Value): (r: Value)
    ensures AllEmpty(LinkSources(item, offer, brand)) ==>
      r == (if IsEmpty(hook(Str(""))) then Str(NoUrl) else hook(Str("")))
    ensures forall i :: FirstNonEmptyAt(LinkSources(item, offer, brand), i) ==>
      var chosen := LinkSources(item, offer, brand)[i];
      r == (if IsEmpty(hook(chosen)) then Str(NoUrl) else hook(chosen))
  {
    var url := FirstOr(LinkSources(item, offer, brand), Str(""));
    var filtered := hook(url);
    if IsEmpty(filtered) then Str(NoUrl) else filtered
  }

  /** With no filter registered, a card with no link anywhere points at "#". */
  lemma NoLinkGivesHash(item: Value, offer: Value, brand: Value)
    requires AllEmpty(LinkSources(item, offer, brand))
    ensures CasinoUrl(item, offer, brand, v => v) == Str(NoUrl)
  {
  }

  // ---------------------------------------------------------- review URL

  /** The review page path for a slug. */
  function ReviewPath(slug: string): string {
    "/reviews/" + slug + "/"
  }

  /** The slug for the review path: the brand's `slug`, else the sanitized name. */
  function ReviewSlug(brand: Value, sanitizeTitle: string -> string): (r: string)
    ensures !IsEmpty(Get(brand, "slug")) ==> r == AsText(Get(brand, "slug"))
    ensures IsEmpty(Get(brand, "slug")) ==> r == sanitizeTitle(AsText(Get(brand, "name")))
  {
    var slug := Get(brand, "slug");
    if !IsEmpty(slug) then AsText(slug) else sanitizeTitle(AsText(Get(brand, "name")))
  }

  /**
   * The card template's review link: a non-empty pre-set URL is kept;
   * otherwise the brand's string `review_url`, else the home URL of
   * `/reviews/{slug}/`; the casino link if that is still empty.
   */
  function ReviewUrl(preset: Option<string>, brand: Value, casinoUrl: string,
                     escUrl: string -> string, homeUrl: string -> string,
                     sanitizeTitle: string -> string): (r: string)
    ensures preset.Some? && !PhpStrings.IsEmpty(preset.value) ==> r == preset.value
    ensures (preset.None? || PhpStrings.IsEmpty(preset.value))
      && !IsEmpty(Get(brand, "review_url")) && !IsArray(Get(brand, "review_url"))
      ==> var given := escUrl(AsText(Get(brand, "review_url")));
          r == (if PhpStrings.IsEmpty(given) then casinoUrl else given)
    ensures (preset.None? || PhpStrings.IsEmpty(preset.value))
      && (IsEmpty(Get(brand, "review_url")) || IsArray(Get(brand, "review_url")))
      ==> var generated := homeUrl(ReviewPath(ReviewSlug(brand, sanitizeTitle)));
          r == (if PhpStrings.IsEmpty(generated) then casinoUrl else generated)
    ensures !PhpStrings.IsEmpty(r) || r == casinoUrl
  {
    var url :=
      if preset.None? || PhpStrings.IsEmpty(preset.value) then
        var given := Get(brand, "review_url");
        if !IsEmpty(given) && !IsArray(given) then escUrl(AsText(given))
        else homeUrl(ReviewPath(ReviewSlug(brand, sanitizeTitle)))
      else preset.value;
    if PhpStrings.IsEmpty(url) then casinoUrl else url
  }

  // ------------------------------------------------------------ pros/cons

  datatype CardProsCons = CardProsCons(pros: Value, cons: Value)

  /** The card's key: "casino-{position}-{slug of the escaped brand name}". */
  function CardKey(item: Value, brand: Value, escHtml: string -> string, sanitizeTitle: string -> string): string {
    CasinoKeys.CasinoKey(AsText(Get(item, "position")), CardSlug(brand, escHtml, sanitizeTitle))
  }

  /** The slug part of a card's key: the sanitized, HTML-escaped brand name. */
  function CardSlug(brand: Value, escHtml: string -> string, sanitizeTitle: string -> string): string {
    sanitizeTitle(escHtml(AsText(Get(brand, "name"))))
  }

  /**
   * The card at position `p` finds an override stored under its own key, so
   * that override's non-blank pros become the card's features (whether the
   * editor's key is that key is `EditorKeyMatchesIff`).
   */
  lemma CardUsesItsOverride(item: Value, brand: Value, escHtml: string -> string, sanitizeTitle: string -> string,
                            p: nat, fields: map<string, Value>, pros: seq<Value>)
    requires Get(item, "position") == Str(PhpStrings.NatToString(p))
    requires CasinoKeys.CasinoKey(PhpStrings.NatToString(p), CardSlug(brand, escHtml, sanitizeTitle)) in fields
    requires Get(fields[CasinoKeys.CasinoKey(PhpStrings.NatToString(p), CardSlug(brand, escHtml, sanitizeTitle))], "pros") == List(pros)
    requires exists i :: 0 <= i < |pros| && NotBlank(pros[i])
    ensures Features(item, Obj(fields), CardKey(item, brand, escHtml, sanitizeTitle)) == PhpStrings.Take(NonBlank(pros), MaxFeatures)
    ensures ResolveProsCons(item, Obj(fields), CardKey(item, brand, escHtml, sanitizeTitle)).pros == List(pros)
  {
    var k := CasinoKeys.CasinoKey(PhpStrings.NatToString(p), CardSlug(brand, escHtml, sanitizeTitle));
    assert CardKey(item, brand, escHtml, sanitizeTitle) == k;
    assert !IsEmpty(Obj(fields)) by {
      assert k in fields;
    }
    OverrideProsAreFeatures(item, Obj(fields), k, pros);
  }

  /**
   * An override stored for another card, at another position or for another
   * brand, does not reach this card: it keeps the API's features and lists.
   */
  lemma OtherCardsOverrideIgnored(item: Value, brand: Value, escHtml: string -> string, sanitizeTitle: string -> string,
                                  p: nat, q: nat, otherSlug: string, o: Value)
    requires Get(item, "position") == Str(PhpStrings.NatToString(p))
    requires q != p || otherSlug != CardSlug(brand, escHtml, sanitizeTitle)
    ensures var prosCons := Obj(map[CasinoKeys.CasinoKey(PhpStrings.NatToString(q), otherSlug) := o]);
            var key := CardKey(item, brand, escHtml, sanitizeTitle);
            && Features(item, prosCons, key) == PhpStrings.Take(Entries(Get(item, "features")), MaxFeatures)
            && ResolveProsCons(item, prosCons, key) == ResolveProsCons(item, Obj(map[]), key)
  {
    var other := CasinoKeys.CasinoKey(PhpStrings.NatToString(q), otherSlug);
    var key := CardKey(item, brand, escHtml, sanitizeTitle);
    assert key == CasinoKeys.CasinoKey(PhpStrings.NatToString(p), CardSlug(brand, escHtml, sanitizeTitle));
    if key == other {
      CasinoKeys.CasinoKeyInjective(p, CardSlug(brand, escHtml, sanitizeTitle), q, otherSlug);
      assert false;
    }
    var prosCons := Obj(map[other := o]);
    assert Get(prosCons, key) == Null;
    assert OverridePros(prosCons, key) == [];
  }

  /** The slug the editor's REST route sends for a card: the sanitized raw brand name. */
  function EditorSlug(brand: Value, sanitizeTitle: string -> string): string {
    sanitizeTitle(AsText(Get(brand, "name")))
  }

  /** The key the block editor stores a card's override under. */
  function EditorKey(item: Value, brand: Value, sanitizeTitle: string -> string): string {
    CasinoKeys.CasinoKey(AsText(Get(item, "position")), EditorSlug(brand, sanitizeTitle))
  }

  /**
   * The editor's key is the renderer's key exactly when sanitizing the raw
   * name and the HTML-escaped name give the same slug.
   */
  lemma EditorKeyMatchesIff(item: Value, brand: Value, escHtml: string -> string, sanitizeTitle: string -> string)
    ensures EditorKey(item, brand, sanitizeTitle) == CardKey(item, brand, escHtml, sanitizeTitle)
            <==> EditorSlug(brand, sanitizeTitle) == CardSlug(brand, escHtml, sanitizeTitle)
  {
    CasinoKeys.CasinoKeySameSlot(AsText(Get(item, "position")), EditorSlug(brand, sanitizeTitle),
                                 CardSlug(brand, escHtml, sanitizeTitle));
  }

  /** An override saved from the editor reaches the card exactly when the two slugs agree. */
  lemma EditorOverrideReachesCard(item: Value, brand: Value, escHtml: string -> string,
                                  sanitizeTitle: string -> string, o: Value)
    ensures var prosCons := Obj(map[EditorKey(item, brand, sanitizeTitle) := o]);
            Get(prosCons, CardKey(item, brand, escHtml, sanitizeTitle))
              == if EditorSlug(brand, sanitizeTitle) == CardSlug(brand, escHtml, sanitizeTitle) then o else Null
  {
    EditorKeyMatchesIff(item, brand, escHtml, sanitizeTitle);
  }

  /**
   * When escaping changes the slug, the card never sees what the editor
   * saved: it shows the API's features and lists.
   */
  lemma EditorOverrideLost(item: Value, brand: Value, escHtml: string -> string,
                           sanitizeTitle: string -> string, o: Value)
    requires EditorSlug(brand, sanitizeTitle) != CardSlug(brand, escHtml, sanitizeTitle)
    ensures var prosCons := Obj(map[EditorKey(item, brand, sanitizeTitle) := o]);
            var key := CardKey(item, brand, escHtml, sanitizeTitle);
            && Features(item, prosCons, key) == PhpStrings.Take(Entries(Get(item, "features")), MaxFeatures)
            && ResolveProsCons(item, prosCons, key) == ResolveProsCons(item, Obj(map[]), key)
  {
    var prosCons := Obj(map[EditorKey(item, brand, sanitizeTitle) := o]);
    var key := CardKey(item, brand, escHtml, sanitizeTitle);
    EditorOverrideReachesCard(item, brand, escHtml, sanitizeTitle, o);
    assert Get(prosCons, key) == Null;
    assert OverridePros(prosCons, key) == [];
  }

  /**
   * The shortcode renderer's pros and cons: with an override for the card's
   * key, each list it sets is used as is (even when empty) and an unset one
   * falls back to the API's; without one, the API's lists.
   */
  function ResolveProsCons(item: Value, prosCons: Value, casinoKey: string): (r: CardProsCons)
    ensures Get(prosCons, casinoKey) == Null ==>
      r.pros == (if IsEmpty(Get(item, "pros")) then List([]) else Get(item, "pros"))
      && r.cons == (if IsEmpty(Get(item, "cons")) then List([]) else Get(item, "cons"))
    ensures Get(prosCons, casinoKey) != Null && Get(Get(prosCons, casinoKey), "pros") != Null ==>
      r.pros == Get(Get(prosCons, casinoKey), "pros")
    ensures Get(prosCons, casinoKey) != Null && Get(Get(prosCons, casinoKey), "cons") != Null ==>
      r.cons == Get(Get(prosCons, casinoKey), "cons")
  {
    var apiPros := if !IsEmpty(Get(item, "pros")) then Get(item, "pros") else List([]);
    var apiCons := if !IsEmpty(Get(item, "cons")) then Get(item, "cons") else List([]);
    var o := Get(prosCons, casinoKey);
    if o != Null then
      CardProsCons(
        if Get(o, "pros") != Null then Get(o, "pros") else apiPros,
        if Get(o, "cons") != Null then Get(o, "cons") else apiCons)
    else CardProsCons(apiPros, apiCons)
  }

  /** The pros or cons lines the card prints: the non-blank entries. */
  function Shown(list: Value): (r: seq<Value>)
    ensures forall x :: x in r <==> x in Entries(list) && NotBlank(x)
    ensures forall x :: multiset(r)[x] == if NotBlank(x) then multiset(Entries(list))[x] else 0
  {
    NonBlankCounts(Entries(list));
    NonBlank(Entries(list))
  }

  /** The printed lines of two lists one after the other are the lines of each, in order. */
  lemma ShownAppend(a: seq<Value>, b: seq<Value>)
    ensures Shown(List(a + b)) == Shown(List(a)) + Shown(List(b))
  {
    NonBlankAppend(a, b);
  }

  /** An override whose pros are an empty list hides the API pros entirely. */
  lemma EmptyOverrideHidesApiPros(item: Value, prosCons: Value, casinoKey: string)
    requires Get(prosCons, casinoKey) != Null
    requires Get(Get(prosCons, casinoKey), "pros") == List([])
    ensures Shown(ResolveProsCons(item, prosCons, casinoKey).pros) == []
  {
  }
}
