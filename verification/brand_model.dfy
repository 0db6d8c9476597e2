/**
 * The read side of a brands-table row (`Brand` in includes/Brand.php):
 * attribute lookup with a default, and the list getters that split the
 * comma-joined columns written by the brand sync back into lists.
 */
module BrandModel {
  import opened Common
  import opened PhpStrings
  import BrandSync

  /** A row as `$wpdb` returns it with ARRAY_A: column name to text, or SQL NULL. */
  type Attributes = map<string, Option<string>>

  /** `getAttribute($key, $default)`: the stored value when it is set (present and not NULL). */
  function GetAttribute(attrs: Attributes, key: string, default: Option<string>): (r: Option<string>)
    ensures key in attrs && attrs[key].Some? ==> r == attrs[key]
    ensures (key !in attrs || attrs[key].None?) ==> r == default
  {
    if key in attrs && attrs[key].Some? then attrs[key] else default
  }

  /** `array_map('trim', explode(',', $s))`. */
  function SplitTrim(s: string): (r: seq<string>)
    ensures |r| == |Explode(s, ',')| >= 1
    ensures forall i :: 0 <= i < |r| ==> IsTrimmed(r[i]) && ',' !in r[i]
  {
    var parts := Explode(s, ',');
    var r := TrimAll(parts);
    assert forall i :: 0 <= i < |r| ==> IsTrimmed(r[i]) && ',' !in r[i] by {
      forall i | 0 <= i < |r| ensures IsTrimmed(r[i]) && ',' !in r[i] {
        TrimResult(parts[i]);
        assert ',' !in parts[i];
      }
    }
    r
  }

  /**
   * `getProductTypes`, `getLicenses` and `getTopGeos`: an empty column gives
   * the empty list, anything else is split on ',' and every part trimmed.
   */
  function ListColumn(attrs: Attributes, key: string): (r: seq<string>)
    ensures GetAttribute(attrs, key, None).None? ==> r == []
    ensures GetAttribute(attrs, key, None).Some? && IsEmpty(GetAttribute(attrs, key, None).value) ==> r == []
    ensures GetAttribute(attrs, key, None).Some? && !IsEmpty(GetAttribute(attrs, key, None).value)
            ==> r == SplitTrim(GetAttribute(attrs, key, None).value)
    ensures forall i :: 0 <= i < |r| ==> IsTrimmed(r[i]) && ',' !in r[i]
  {
    match GetAttribute(attrs, key, None)
    case None => []
    case Some(s) => if IsEmpty(s) then [] else SplitTrim(s)
  }

  function GetProductTypes(attrs: Attributes): seq<string> { ListColumn(attrs, "product_types") }
  function GetLicenses(attrs: Attributes): seq<string> { ListColumn(attrs, "licenses") }
  function GetTopGeos(attrs: Attributes): seq<string> { ListColumn(attrs, "top_geos") }

  /** A list the sync can store and read back: trimmed, comma-free items. */
  predicate Storable(xs: seq<string>) {
    forall i :: 0 <= i < |xs| ==> IsTrimmed(xs[i]) && ',' !in xs[i]
  }

  /**
   * Splitting a column written as `implode(', ', xs)` returns `xs`, except for
   * the two one-item lists whose text PHP's `empty()` treats as no value.
   */
  lemma SplitTrimImplode(xs: seq<string>)
    requires |xs| >= 1 && Storable(xs)
    ensures SplitTrim(Implode(xs, BrandSync.ListSeparator)) == xs
  {
    ExplodeImplode(xs);
    var parts := Explode(Implode(xs, ", "), ',');
    var r := SplitTrim(Implode(xs, ", "));
    forall i | 0 <= i < |xs| ensures r[i] == xs[i] {
      if i == 0 {
        TrimResult(xs[0]);
      } else {
        TrimSpacePrefix(xs[i]);
      }
    }
  }

  /** A joined list is empty text exactly when it is [], [""] or ["0"]. */
  lemma ImplodeEmpty(xs: seq<string>)
    ensures IsEmpty(Implode(xs, BrandSync.ListSeparator)) <==> xs == [] || xs == [""] || xs == ["0"]
  {
    var s := Implode(xs, ", ");
    if |xs| == 0 {
    } else if |xs| >= 2 {
      assert s == xs[0] + ", " + Implode(xs[1..], ", ");
      assert s[|xs[0]|] == ',';
    } else {
      assert xs == [xs[0]];
    }
  }

  /**
   * Splitting a column written as `implode(', ', xs)` returns `xs`, except for
   * the two one-item lists whose text PHP's `empty()` treats as no value.
   */
  lemma ListColumnRoundTrip(attrs: Attributes, key: string, xs: seq<string>)
    requires Storable(xs)
    requires xs != [""] && xs != ["0"]
    requires key in attrs && attrs[key] == Some(Implode(xs, BrandSync.ListSeparator))
    ensures ListColumn(attrs, key) == xs
  {
    if |xs| >= 1 {
      ImplodeEmpty(xs);
      SplitTrimImplode(xs);
    }
  }

  /** The one-item lists the round trip excludes do read back as empty. */
  lemma ZeroLicenseReadsAsNone(attrs: Attributes)
    requires "licenses" in attrs && attrs["licenses"] == Some(Implode(["0"], BrandSync.ListSeparator))
    ensures GetLicenses(attrs) == []
  {
  }

  /** The columns of a synced row as the getters see them. */
  function RowAttributes(row: BrandSync.BrandRow): (a: Attributes)
    ensures "licenses" in a && a["licenses"] == Some(row.licenses)
    ensures "top_geos" in a && a["top_geos"] == Some(row.topGeos)
    ensures "product_types" in a && a["product_types"] == Some(row.productTypes)
    ensures "name" in a && a["name"] == Some(row.name)
    ensures "slug" in a && a["slug"] == Some(row.slug)
  {
    map["api_brand_id" := Some(IntToString(row.apiBrandId)),
        "name" := Some(row.name),
        "slug" := Some(row.slug),
        "status" := Some(row.status),
        "product_types" := Some(row.productTypes),
        "licenses" := Some(row.licenses),
        "top_geos" := Some(row.topGeos),
        "offers_count" := Some(NatToString(row.offersCount)),
        "trackers_count" := Some(NatToString(row.trackersCount)),
        "last_synced" := Some(row.lastSynced)]
  }

  /** Licenses written by the sync come back from `getLicenses` unchanged. */
  lemma SyncedLicensesReadBack(b: BrandSync.ApiBrand, id: int, now: string, sanitizeTitle: string -> string)
    requires b.licenses.Some? && Storable(b.licenses.value)
    requires b.licenses.value != [""] && b.licenses.value != ["0"]
    ensures GetLicenses(RowAttributes(BrandSync.DeriveRow(b, id, now, sanitizeTitle))) == b.licenses.value
  {
    var row := BrandSync.DeriveRow(b, id, now, sanitizeTitle);
    ListColumnRoundTrip(RowAttributes(row), "licenses", b.licenses.value);
  }

  /** Top geos written by the sync read back as the countries followed by the markets. */
  lemma SyncedTopGeosReadBack(b: BrandSync.ApiBrand, id: int, now: string, sanitizeTitle: string -> string)
    requires Storable(BrandSync.TopGeoList(b))
    requires BrandSync.TopGeoList(b) != [""] && BrandSync.TopGeoList(b) != ["0"]
    ensures GetTopGeos(RowAttributes(BrandSync.DeriveRow(b, id, now, sanitizeTitle)))
            == b.topGeos.countries.GetOr([]) + b.topGeos.markets.GetOr([])
  {
    var row := BrandSync.DeriveRow(b, id, now, sanitizeTitle);
    ListColumnRoundTrip(RowAttributes(row), "top_geos", BrandSync.TopGeoList(b));
  }
}
