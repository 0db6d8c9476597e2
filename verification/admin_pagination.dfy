/**
 * Client-side pagination of the admin brand table: the page count, the
 * clamping of the current page, the window of matching rows a page shows,
 * and the navigation buttons and page-number box.
 */
module AdminPagination {
  import opened Common

  const DefaultItemsPerPage: nat := 20

  /** `parseInt(value) || 20`: an unparsable or zero value falls back to 20. */
  function ItemsPerPage(parsed: Option<int>): (r: int)
    ensures parsed.None? ==> r == DefaultItemsPerPage
    ensures parsed.Some? && parsed.value != 0 ==> r == parsed.value
    ensures r != 0
  {
    match parsed
    case Some(n) => if n != 0 then n else DefaultItemsPerPage
    case None => DefaultItemsPerPage
  }

  /** `Math.ceil(matching / perPage)`: the fewest pages of `perPage` rows that hold `matching` rows. */
  function TotalPages(matching: nat, perPage: nat): (r: nat)
    requires perPage > 0
    ensures r * perPage >= matching
    ensures r > 0 ==> (r - 1) * perPage < matching
    ensures r == 0 <==> matching == 0
  {
    (matching + perPage - 1) / perPage
  }

  /** A current page is in range: 1 when there are no pages, otherwise between 1 and the page count. */
  predicate Valid(current: int, total: nat) {
    if total == 0 then current == 1 else 1 <= current <= total
  }

  /** The clamp at the end of `updatePagination`. */
  function Clamp(current: int, total: nat): (r: int)
    ensures current >= 1 ==> Valid(r, total)
    ensures Valid(current, total) ==> r == current
    ensures total > 0 && current > total ==> r == total
    ensures total == 0 ==> r == 1
  {
    if current > total && total > 0 then total
    else if total == 0 then 1
    else current
  }

  /** The page state after `updatePagination` with `matching` rows passing the filters. */
  datatype Pages = Pages(current: int, total: nat)

  function Update(current: int, matching: nat, perPage: nat): (r: Pages)
    requires perPage > 0
    ensures r.total * perPage >= matching && (r.total > 0 ==> (r.total - 1) * perPage < matching)
    ensures current >= 1 ==> Valid(r.current, r.total)
    ensures Valid(current, r.total) ==> r.current == current
  {
    var total := TotalPages(matching, perPage);
    Pages(Clamp(current, total), total)
  }

  /** First-page button. */
  function First(p: Pages): (r: Pages)
    ensures r.total == p.total && r.current == 1
  {
    if p.current != 1 then Pages(Clamp(1, p.total), p.total) else p
  }

  /** Previous-page button: moves back only from a page after the first. */
  function Prev(p: Pages): (r: Pages)
    ensures r.total == p.total
    ensures p.current > 1 && Valid(p.current, p.total) ==> r.current == p.current - 1
    ensures p.current <= 1 ==> r == p
    ensures Valid(p.current, p.total) ==> Valid(r.current, r.total)
  {
    if p.current > 1 then Pages(Clamp(p.current - 1, p.total), p.total) else p
  }

  /** Next-page button: moves on only from a page before the last. */
  function Next(p: Pages): (r: Pages)
    ensures r.total == p.total
    ensures 1 <= p.current < p.total ==> r.current == p.current + 1
    ensures p.current >= p.total ==> r == p
    ensures Valid(p.current, p.total) ==> Valid(r.current, r.total)
  {
    if p.current < p.total && p.total > 0 then Pages(Clamp(p.current + 1, p.total), p.total) else p
  }

  /** Last-page button. */
  function Last(p: Pages): (r: Pages)
    ensures r.total == p.total
    ensures p.total > 0 ==> r.current == p.total
    ensures p.total == 0 ==> r == p
  {
    if p.total > 0 && p.current != p.total then Pages(Clamp(p.total, p.total), p.total) else p
  }

  /**
   * Enter or blur in the page-number box: a number in [1, total] becomes the
   * current page; anything else (including text that does not parse) leaves
   * the page as it was.
   */
  function GoTo(p: Pages, entered: Option<int>): (r: Pages)
    ensures r.total == p.total
    ensures entered.Some? && 1 <= entered.value <= p.total ==> r.current == entered.value
    ensures !(entered.Some? && 1 <= entered.value <= p.total) ==> r == p
    ensures Valid(p.current, p.total) ==> Valid(r.current, r.total)
  {
    match entered
    case Some(page) => if 1 <= page <= p.total then Pages(Clamp(page, p.total), p.total) else p
    case None => p
  }

  datatype Nav = FirstPage | PrevPage | NextPage | LastPage | Enter(entered: Option<int>)

  function Apply(p: Pages, n: Nav): Pages {
    match n
    case FirstPage => First(p)
    case PrevPage => Prev(p)
    case NextPage => Next(p)
    case LastPage => Last(p)
    case Enter(e) => GoTo(p, e)
  }

  function ApplyAll(p: Pages, ns: seq<Nav>): Pages
    decreases |ns|
  {
    if |ns| == 0 then p else ApplyAll(Apply(p, ns[0]), ns[1..])
  }

  /** No sequence of clicks and entries takes the current page outside [1, total]. */
  lemma {:induction false} NavigationStaysValid(p: Pages, ns: seq<Nav>)
    requires Valid(p.current, p.total)
    ensures Valid(ApplyAll(p, ns).current, ApplyAll(p, ns).total)
    ensures ApplyAll(p, ns).total == p.total
    decreases |ns|
  {
    if |ns| > 0 {
      NavigationStaysValid(Apply(p, ns[0]), ns[1..]);
    }
  }

  /** The number of `true` entries. */
  function CountTrue(bs: seq<bool>): (r: nat)
    ensures r <= |bs|
  {
    if |bs| == 0 then 0 else CountTrue(bs[..|bs| - 1]) + (if bs[|bs| - 1] then 1 else 0)
  }

  /**
   * `displayPage`: walk the rows, counting the matching ones; a matching row
   * is shown when its position among matching rows lies in
   * [(page-1)*perPage, page*perPage), and every other row is hidden.
   */
  method DisplayPage(matches: seq<bool>, page: int, perPage: int) returns (shown: seq<bool>)
    ensures |shown| == |matches|
    ensures forall i :: 0 <= i < |matches| ==>
      (shown[i] <==> (matches[i] && (page - 1) * perPage <= CountTrue(matches[..i]) < (page - 1) * perPage + perPage))
    ensures perPage >= 0 ==> CountTrue(shown) <= perPage
  {
    var start := (page - 1) * perPage;
    var end := start + perPage;
    var visibleIndex := 0;
    shown := [];
    var i := 0;
    while i < |matches|
      invariant 0 <= i <= |matches|
      invariant |shown| == i
      invariant visibleIndex == CountTrue(matches[..i])
      invariant forall j :: 0 <= j < i ==>
        (shown[j] <==> matches[j] && start <= CountTrue(matches[..j]) < end)
    {
      assert matches[..i + 1][..i] == matches[..i];
      if matches[i] {
        shown := shown + [start <= visibleIndex < end];
        visibleIndex := visibleIndex + 1;
      } else {
        shown := shown + [false];
      }
      i := i + 1;
    }
    if perPage >= 0 {
      ShownRows(matches, shown, start, end);
    }
  }

  /** How many of the positions 0 .. seen-1 fall in [start, end). */
  function Window(seen: nat, start: int, end: int): nat
  {
    var lo := if start < 0 then 0 else start;
    var hi := if end < seen then end else seen;
    if hi <= lo then 0 else hi - lo
  }

  /** A page shows exactly the part of [start, end) that the matching rows reach, so at most one page of rows. */
  lemma {:induction false} ShownRows(matches: seq<bool>, shown: seq<bool>, start: int, end: int)
    requires start <= end
    requires |shown| == |matches|
    requires forall i :: 0 <= i < |matches| ==>
      (shown[i] <==> matches[i] && start <= CountTrue(matches[..i]) < end)
    ensures CountTrue(shown) == Window(CountTrue(matches), start, end)
    ensures CountTrue(shown) <= end - start
    decreases |matches|
  {
    if |matches| > 0 {
      var n := |matches| - 1;
      var m := matches[..n];
      var sh := shown[..n];
      ShownPrefix(matches, shown, start, end, n);
      ShownRows(m, sh, start, end);
      var c := CountTrue(m);
      assert shown[n] <==> matches[n] && start <= c < end;
      assert CountTrue(matches) == c + (if matches[n] then 1 else 0);
      assert CountTrue(shown) == CountTrue(sh) + (if shown[n] then 1 else 0);
      WindowStep(c, start, end);
    }
  }

  /** The display rule holds for every prefix of the rows once it holds for all of them. */
  lemma ShownPrefix(matches: seq<bool>, shown: seq<bool>, start: int, end: int, k: nat)
    requires |shown| == |matches| && k <= |matches|
    requires forall i :: 0 <= i < |matches| ==>
      (shown[i] <==> matches[i] && start <= CountTrue(matches[..i]) < end)
    ensures forall i :: 0 <= i < k ==>
      (shown[..k][i] <==> matches[..k][i] && start <= CountTrue(matches[..k][..i]) < end)
  {
    forall i | 0 <= i < k
      ensures shown[..k][i] <==> matches[..k][i] && start <= CountTrue(matches[..k][..i]) < end
    {
      assert matches[..k][..i] == matches[..i];
    }
  }

  /** One more matching row adds one to the window exactly when its index falls inside it. */
  lemma WindowStep(c: nat, start: int, end: int)
    requires start <= end
    ensures Window(c + 1, start, end) == Window(c, start, end) + (if start <= c < end then 1 else 0)
    ensures Window(c, start, end) <= end - start
  {
  }
}
