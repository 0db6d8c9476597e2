/**
 * The brand-table filters of the admin page: three multi-selects (licenses,
 * top geos, payment methods) and the per-row test that decides whether a
 * brand row matches them.
 */
module AdminFilters {
  import opened Common

  /** The filter lists a brand row carries; `None` is a missing or null list. */
  datatype BrandData = BrandData(
    licenses: Option<seq<string>>,
    topGeos: Option<seq<string>>,
    paymentMethods: Option<seq<string>>)

  /** The current selection of each multi-select. */
  datatype Selection = Selection(licenses: seq<string>, geos: seq<string>, payments: seq<string>)

  /**
   * The values chosen in one multi-select: nothing when the control has no
   * array value, otherwise its values without nulls and empty strings.
   */
  function SelectedValues(raw: Option<seq<Option<string>>>): (r: seq<string>)
    ensures raw.None? ==> r == []
    ensures forall i :: 0 <= i < |r| ==> r[i] != ""
    ensures forall x :: x in r <==> x != "" && raw.Some? && Some(x) in raw.value
  {
    match raw
    case None => []
    case Some(vs) => NonEmptyValues(vs)
  }

  function NonEmptyValues(vs: seq<Option<string>>): (r: seq<string>)
    ensures forall i :: 0 <= i < |r| ==> r[i] != ""
    ensures forall x :: x in r <==> x != "" && Some(x) in vs
    ensures |r| <= |vs|
  {
    if |vs| == 0 then []
    else
      var rest := NonEmptyValues(vs[1..]);
      assert vs == [vs[0]] + vs[1..];
      match vs[0]
      case Some(v) => if v != "" then [v] + rest else rest
      case None => rest
  }

  /** The list-level rule: no selection matches anything; otherwise some selected value is in the row's list. */
  predicate AnyOf(selected: seq<string>, list: Option<seq<string>>) {
    |selected| == 0 || (list.Some? && exists i :: 0 <= i < |selected| && selected[i] in list.value)
  }

  /**
   * One of the three checks of a row: start from "matches" when nothing is
   * selected, otherwise scan the selection and stop at the first value the
   * row's list contains.
   */
  method CheckList(selected: seq<string>, list: Option<seq<string>>) returns (matches: bool)
    ensures matches <==> AnyOf(selected, list)
  {
    matches := |selected| == 0;
    if !matches && list.Some? {
      var i := 0;
      while i < |selected|
        invariant 0 <= i <= |selected|
        invariant !matches
        invariant forall j :: 0 <= j < i ==> selected[j] !in list.value
      {
        if selected[i] in list.value {
          matches := true;
          break;
        }
        i := i + 1;
      }
    }
  }

  /** `rowMatchesFilters`: a row with no brand data never matches. */
  method RowMatches(row: Option<BrandData>, sel: Selection) returns (r: bool)
    ensures row.None? ==> !r
    ensures r <==> Matches(row, sel)
  {
    if row.None? {
      return false;
    }
    var data := row.value;
    var matchesLicenses := CheckList(sel.licenses, data.licenses);
    var matchesGeos := CheckList(sel.geos, data.topGeos);
    var matchesPayments := CheckList(sel.payments, data.paymentMethods);
    r := matchesLicenses && matchesGeos && matchesPayments;
  }

  /** The matching rule as a predicate: every one of the three lists passes `AnyOf`. */
  predicate Matches(row: Option<BrandData>, sel: Selection) {
    row.Some?
      && AnyOf(sel.licenses, row.value.licenses)
      && AnyOf(sel.geos, row.value.topGeos)
      && AnyOf(sel.payments, row.value.paymentMethods)
  }

  /** With nothing selected every row that has brand data matches. */
  lemma EmptySelectionMatchesAll(row: Option<BrandData>)
    ensures Matches(row, Selection([], [], [])) <==> row.Some?
  {
  }

  /** Selecting more values in one control never hides a row that matched on that control. */
  lemma {:induction false} AnyOfGrows(selected: seq<string>, more: seq<string>, list: Option<seq<string>>)
    requires |selected| > 0
    requires AnyOf(selected, list)
    ensures AnyOf(selected + more, list)
  {
    var i :| 0 <= i < |selected| && selected[i] in list.value;
    assert (selected + more)[i] == selected[i];
  }
}
