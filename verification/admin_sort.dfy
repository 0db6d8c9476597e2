/**
 * Column sorting of the admin brand table: the header-click toggle, the
 * comparator (brand name in JavaScript's UTF-16 order; counts as numbers read
 * with `parseInt(...) || 0`) and the re-ordering of the rows, after which the
 * table goes back to page 1.
 */
module AdminSort {
  import opened Common
  import PhpStrings
  import JsStrings
  import AdminFilters
  import AdminPagination

  datatype Direction = Asc | Desc

  /** The column sorted on (none before the first click) and its direction. */
  datatype SortState = SortState(field: Option<string>, direction: Direction)

  const InitialSort: SortState := SortState(None, Asc)

  /** A click on a sortable header: the same column flips direction, a new column starts ascending. */
  function Toggle(s: SortState, field: string): (r: SortState)
    ensures r.field == Some(field)
    ensures s.field == Some(field) ==> r.direction != s.direction
    ensures s.field != Some(field) ==> r.direction == Asc
  {
    if s.field == Some(field) then s.(direction := if s.direction == Asc then Desc else Asc)
    else SortState(Some(field), Asc)
  }

  /** Two clicks on the same column return to the direction it had. */
  lemma ToggleTwice(s: SortState, field: string)
    requires s.field == Some(field)
    ensures Toggle(Toggle(s, field), field) == s
  {
  }

  /**
   * The characters `parseInt` skips before the number: ECMAScript's white
   * space (tab, vertical tab, form feed, the byte-order mark and every space
   * separator of Unicode category Zs) and its line terminators.
   */
  predicate IsJsSpace(c: char) {
    c == '\t' || c == '\n' || c == '\U{000B}' || c == '\U{000C}' || c == '\r' || c == ' '
      || c == '\U{00A0}' || c == '\U{1680}' || ('\U{2000}' <= c <= '\U{200A}')
      || c == '\U{2028}' || c == '\U{2029}' || c == '\U{202F}' || c == '\U{205F}'
      || c == '\U{3000}' || c == '\U{FEFF}'
  }

  function SkipSpace(s: string): (r: string)
    ensures |r| <= |s| && r == s[|s| - |r|..]
    ensures |r| > 0 ==> !IsJsSpace(r[0])
  {
    if |s| > 0 && IsJsSpace(s[0]) then SkipSpace(s[1..]) else s
  }

  /** The value of the decimal digit run at the front of `body`, or `None` when there is none. */
  function DigitRun(body: string): Option<int> {
    var digits := PhpStrings.LeadingDigits(body);
    if |digits| == 0 then None else Some(PhpStrings.DigitsValue(digits))
  }

  /** A digit of base 16, in either case. */
  predicate IsHexDigit(c: char) {
    PhpStrings.IsDigit(c) || 'a' <= c <= 'f' || 'A' <= c <= 'F'
  }

  function HexDigitValue(c: char): (v: nat)
    requires IsHexDigit(c)
    ensures v < 16
  {
    if PhpStrings.IsDigit(c) then (c as int - '0' as int) as nat
    else if 'a' <= c <= 'f' then (c as int - 'a' as int + 10) as nat
    else (c as int - 'A' as int + 10) as nat
  }

  /** The longest prefix of hexadecimal digits. */
  function LeadingHexDigits(s: string): (r: string)
    ensures |r| <= |s| && r == s[..|r|]
    ensures forall i :: 0 <= i < |r| ==> IsHexDigit(r[i])
    ensures |r| == |s| || !IsHexDigit(s[|r|])
  {
    if |s| > 0 && IsHexDigit(s[0]) then [s[0]] + LeadingHexDigits(s[1..]) else []
  }

  function HexValue(s: string): nat
    requires forall i :: 0 <= i < |s| ==> IsHexDigit(s[i])
  {
    if |s| == 0 then 0 else HexValue(s[..|s| - 1]) * 16 + HexDigitValue(s[|s| - 1])
  }

  /** The value of the hexadecimal digit run at the front of `body`, or `None` when there is none. */
  function HexRun(body: string): Option<int> {
    var digits := LeadingHexDigits(body);
    if |digits| == 0 then None else Some(HexValue(digits))
  }

  /** Without a radix argument, a leading "0x" or "0X" switches `parseInt` to base 16. */
  predicate HasHexPrefix(t: string) {
    |t| >= 2 && t[0] == '0' && (t[1] == 'x' || t[1] == 'X')
  }

  /** The unsigned number at the front of `t`, in base 16 after a hex prefix and in base 10 otherwise. */
  function Magnitude(t: string): Option<int> {
    if HasHexPrefix(t) then HexRun(t[2..]) else DigitRun(t)
  }

  /**
   * JavaScript `parseInt(s)` with no radix: leading white space is skipped,
   * one sign is read, then the digit run of the base the prefix selects.
   * `None` is NaN.
   */
  function ParseInt(s: string): Option<int> {
    ReadSigned(SkipSpace(s))
  }

  /** One optional sign, then the magnitude; a '-' negates it. */
  function ReadSigned(t: string): Option<int> {
    if |t| > 0 && t[0] == '-' then
      match Magnitude(t[1..])
      case None => None
      case Some(v) => Some(-v)
    else if |t| > 0 && t[0] == '+' then Magnitude(t[1..])
    else Magnitude(t)
  }

  /** `parseInt(s) || 0`: NaN becomes 0. */
  function CountValue(s: string): int {
    ParseInt(s).GetOr(0)
  }

  predicate AllDigits(d: string) {
    |d| > 0 && forall i :: 0 <= i < |d| ==> PhpStrings.IsDigit(d[i])
  }

  /** A whole string of decimal digits is read as its value, with no hex prefix in the way. */
  lemma MagnitudeOfDigits(d: string)
    requires AllDigits(d)
    ensures Magnitude(d) == Some(PhpStrings.DigitsValue(d) as int)
  {
    assert d + "" == d;
    PhpStrings.LeadingDigitsOfPrefix(d, "");
    assert |d| >= 2 ==> PhpStrings.IsDigit(d[1]);
  }

  /** A '-' in front of a decimal digit string negates what `parseInt` reads. */
  lemma ParseIntNegative(d: string)
    requires AllDigits(d)
    ensures ParseInt("-" + d) == Some(-(PhpStrings.DigitsValue(d) as int))
  {
    var s := "-" + d;
    assert s[0] == '-' && s[1..] == d;
    SkipNonSpace(s);
    MagnitudeOfDigits(d);
    NegativeSign(s);
  }

  /** After a '-' the magnitude is read and negated. */
  lemma NegativeSign(s: string)
    requires |s| > 0 && s[0] == '-' && SkipSpace(s) == s
    ensures ParseInt(s) == match Magnitude(s[1..]) case None => None case Some(v) => Some(-v)
  {
  }

  /** Nothing is skipped in front of a character that is not white space. */
  lemma SkipNonSpace(s: string)
    requires |s| > 0 && (s[0] == '-' || s[0] == '+' || PhpStrings.IsDigit(s[0]))
    ensures SkipSpace(s) == s
  {
    assert !IsJsSpace(s[0]);
  }

  /** A decimal digit string is read as its value. */
  lemma ParseIntUnsigned(d: string)
    requires AllDigits(d)
    ensures ParseInt(d) == Some(PhpStrings.DigitsValue(d) as int)
  {
    SkipNonSpace(d);
    assert d[0] != '-' && d[0] != '+';
    MagnitudeOfDigits(d);
  }

  /** `parseInt` reads back the decimal text of every integer. */
  lemma ParseIntOfIntToString(n: int)
    ensures ParseInt(PhpStrings.IntToString(n)) == Some(n)
  {
    var m: nat := if n < 0 then -n else n;
    var d := PhpStrings.NatToString(m);
    PhpStrings.DigitsValueOfNat(m);
    if n < 0 {
      ParseIntNegative(d);
    } else {
      ParseIntUnsigned(d);
    }
  }

  /** A string of hexadecimal digits is one hexadecimal digit run. */
  lemma {:induction false} LeadingHexOfHex(h: string)
    requires forall i :: 0 <= i < |h| ==> IsHexDigit(h[i])
    ensures LeadingHexDigits(h) == h
  {
    if |h| > 0 {
      LeadingHexOfHex(h[1..]);
      assert [h[0]] + h[1..] == h;
    }
  }

  /** "0x" followed by hexadecimal digits is read in base 16, as JavaScript does when no radix is given. */
  lemma ParseIntHexPrefix(h: string)
    requires |h| > 0 && forall i :: 0 <= i < |h| ==> IsHexDigit(h[i])
    ensures ParseInt("0x" + h) == Some(HexValue(h) as int)
  {
    var s := "0x" + h;
    assert s[0] == '0' && s[1] == 'x' && s[2..] == h;
    LeadingHexOfHex(h);
    assert Magnitude(s) == Some(HexValue(h) as int);
    NoSpaceNoSign(s);
  }

  /** A string that starts with a digit is read by `Magnitude` alone. */
  lemma NoSpaceNoSign(s: string)
    requires |s| > 0 && PhpStrings.IsDigit(s[0])
    ensures ParseInt(s) == Magnitude(s)
  {
    SkipNonSpace(s);
    assert s[0] != '-' && s[0] != '+';
  }

  /** White space in front of the number changes nothing. */
  lemma ParseIntSkipsSpace(c: char, s: string)
    requires IsJsSpace(c)
    ensures ParseInt([c] + s) == ParseInt(s)
  {
    assert ([c] + s)[1..] == s;
    assert SkipSpace([c] + s) == SkipSpace(s);
  }

  /** The fields of a brand row the table sorts and filters on, as its data attributes hold them. */
  datatype TableRow = TableRow(
    name: string,
    offersCount: string,
    trackersCount: string,
    data: Option<AdminFilters.BrandData>)

  function Count(field: string, row: TableRow): int {
    CountValue(if field == "offers" then row.offersCount else row.trackersCount)
  }

  /** The comparator handed to `Array.prototype.sort`: negative, zero or positive. */
  function Compare(field: string, dir: Direction, a: TableRow, b: TableRow): (r: int)
    ensures field == "name" && dir == Asc ==> (r < 0 <==> JsStrings.Less(a.name, b.name))
    ensures field == "name" && dir == Desc ==> (r < 0 <==> JsStrings.Less(b.name, a.name))
    ensures field == "name" && dir == Asc ==> (r > 0 <==> JsStrings.Less(b.name, a.name))
    ensures field == "name" && dir == Desc ==> (r > 0 <==> JsStrings.Less(a.name, b.name))
    ensures (field == "offers" || field == "trackers") && dir == Asc ==> (r <= 0 <==> Count(field, a) <= Count(field, b))
    ensures (field == "offers" || field == "trackers") && dir == Desc ==> (r <= 0 <==> Count(field, b) <= Count(field, a))
    ensures field != "name" && field != "offers" && field != "trackers" ==> r == 0
  {
    JsStrings.LessAsymmetric(a.name, b.name);
    if field == "name" then
      if dir == Asc then
        (if JsStrings.Less(a.name, b.name) then -1 else if JsStrings.Less(b.name, a.name) then 1 else 0)
      else
        (if JsStrings.Less(b.name, a.name) then -1 else if JsStrings.Less(a.name, b.name) then 1 else 0)
    else if field == "offers" || field == "trackers" then
      if dir == Asc then Count(field, a) - Count(field, b) else Count(field, b) - Count(field, a)
    else 0
  }

  predicate InOrder(field: string, dir: Direction, a: TableRow, b: TableRow) {
    Compare(field, dir, a, b) <= 0
  }

  /** Each neighbouring pair is in comparator order. */
  predicate SortedBy(field: string, dir: Direction, s: seq<TableRow>) {
    forall i :: 0 <= i < |s| - 1 ==> InOrder(field, dir, s[i], s[i + 1])
  }

  /** Insert `x` after every row that does not compare greater than it, so equal rows keep their order. */
  function InsertLast(field: string, dir: Direction, x: TableRow, s: seq<TableRow>): (r: seq<TableRow>)
    requires SortedBy(field, dir, s)
    ensures SortedBy(field, dir, r)
    ensures multiset(r) == multiset(s) + multiset{x}
    ensures |r| == |s| + 1
    ensures r[|r| - 1] == x || (|s| > 0 && r[|r| - 1] == s[|s| - 1])
  {
    if |s| == 0 then [x]
    else if InOrder(field, dir, s[|s| - 1], x) then
      SortedAppend(field, dir, s, x);
      s + [x]
    else
      SortedPrefix(field, dir, s);
      var rec := InsertLast(field, dir, x, s[..|s| - 1]);
      InsertBehindLast(field, dir, x, s, rec);
      rec + [s[|s| - 1]]
  }

  /** The step of `InsertLast` that puts the last row back behind the recursive result. */
  lemma InsertBehindLast(field: string, dir: Direction, x: TableRow, s: seq<TableRow>, rec: seq<TableRow>)
    requires |s| > 0 && SortedBy(field, dir, s) && !InOrder(field, dir, s[|s| - 1], x)
    requires SortedBy(field, dir, rec)
    requires multiset(rec) == multiset(s[..|s| - 1]) + multiset{x}
    requires |rec| == |s|
    requires rec[|rec| - 1] == x || (|s| > 1 && rec[|rec| - 1] == s[|s| - 2])
    ensures SortedBy(field, dir, rec + [s[|s| - 1]])
    ensures multiset(rec + [s[|s| - 1]]) == multiset(s) + multiset{x}
  {
    var init := s[..|s| - 1];
    var last := s[|s| - 1];
    InOrderFlip(field, dir, last, x);
    assert |s| > 1 ==> InOrder(field, dir, s[|s| - 2], last);
    assert InOrder(field, dir, rec[|rec| - 1], last);
    SortedAppend(field, dir, rec, last);
    MultisetSnoc(rec, init, last, x);
    assert s == init + [last];
  }

  lemma MultisetSnoc(rec: seq<TableRow>, init: seq<TableRow>, last: TableRow, x: TableRow)
    requires multiset(rec) == multiset(init) + multiset{x}
    ensures multiset(rec + [last]) == multiset(init + [last]) + multiset{x}
  {
    assert multiset(rec + [last]) == multiset(rec) + multiset{last};
    assert multiset(init + [last]) == multiset(init) + multiset{last};
  }

  /** The comparator never puts both rows of a pair strictly first. */
  lemma InOrderFlip(field: string, dir: Direction, a: TableRow, b: TableRow)
    requires !InOrder(field, dir, a, b)
    ensures InOrder(field, dir, b, a)
  {
  }

  /** Dropping the last row of a sorted list keeps it sorted. */
  lemma SortedPrefix(field: string, dir: Direction, s: seq<TableRow>)
    requires |s| > 0 && SortedBy(field, dir, s)
    ensures SortedBy(field, dir, s[..|s| - 1])
  {
    var t := s[..|s| - 1];
    forall i | 0 <= i < |t| - 1
      ensures InOrder(field, dir, t[i], t[i + 1])
    {
      assert t[i] == s[i] && t[i + 1] == s[i + 1];
    }
  }

  /** A row that belongs after the last of a sorted list can be appended. */
  lemma SortedAppend(field: string, dir: Direction, s: seq<TableRow>, y: TableRow)
    requires SortedBy(field, dir, s)
    requires |s| > 0 ==> InOrder(field, dir, s[|s| - 1], y)
    ensures SortedBy(field, dir, s + [y])
  {
    var t := s + [y];
    forall i | 0 <= i < |t| - 1
      ensures InOrder(field, dir, t[i], t[i + 1])
    {
      if i < |s| - 1 {
        assert t[i] == s[i] && t[i + 1] == s[i + 1];
      }
    }
  }

  /** The rows in comparator order: a stable sort. */
  function SortRows(field: string, dir: Direction, rows: seq<TableRow>): (r: seq<TableRow>)
    ensures SortedBy(field, dir, r)
    ensures multiset(r) == multiset(rows)
  {
    if |rows| == 0 then []
    else
      assert rows == rows[..|rows| - 1] + [rows[|rows| - 1]];
      InsertLast(field, dir, rows[|rows| - 1], SortRows(field, dir, rows[..|rows| - 1]))
  }

  /** A row that belongs after every row of a sorted list is appended. */
  lemma InsertLastInOrder(field: string, dir: Direction, x: TableRow, s: seq<TableRow>)
    requires SortedBy(field, dir, s)
    requires |s| > 0 ==> InOrder(field, dir, s[|s| - 1], x)
    ensures InsertLast(field, dir, x, s) == s + [x]
  {
    if |s| == 0 {
      assert InsertLast(field, dir, x, s) == [x];
    }
  }

  /** The comparator treats every pair as equal on a column it does not know. */
  lemma UnknownFieldInOrder(field: string, dir: Direction, a: TableRow, b: TableRow)
    requires field != "name" && field != "offers" && field != "trackers"
    ensures InOrder(field, dir, a, b)
  {
  }

  lemma UnknownFieldSorted(field: string, dir: Direction, s: seq<TableRow>)
    requires field != "name" && field != "offers" && field != "trackers"
    ensures SortedBy(field, dir, s)
  {
    forall i | 0 <= i < |s| - 1 ensures InOrder(field, dir, s[i], s[i + 1]) {
      UnknownFieldInOrder(field, dir, s[i], s[i + 1]);
    }
  }

  /** Sorting a list whose prefix is already in place appends the last row when it belongs there. */
  lemma SortRowsAppendsLast(field: string, dir: Direction, rows: seq<TableRow>)
    requires |rows| > 0
    requires SortRows(field, dir, rows[..|rows| - 1]) == rows[..|rows| - 1]
    requires |rows| > 1 ==> InOrder(field, dir, rows[|rows| - 2], rows[|rows| - 1])
    ensures SortRows(field, dir, rows) == rows
  {
    var init := rows[..|rows| - 1];
    var last := rows[|rows| - 1];
    assert |init| > 0 ==> init[|init| - 1] == rows[|rows| - 2];
    InsertLastInOrder(field, dir, last, init);
    assert rows == init + [last];
  }

  /** A click on a column the comparator does not know leaves the rows in their order. */
  lemma {:induction false} UnknownFieldKeepsOrder(field: string, dir: Direction, rows: seq<TableRow>)
    requires field != "name" && field != "offers" && field != "trackers"
    ensures SortRows(field, dir, rows) == rows
  {
    if |rows| > 0 {
      UnknownFieldKeepsOrder(field, dir, rows[..|rows| - 1]);
      if |rows| > 1 {
        UnknownFieldInOrder(field, dir, rows[|rows| - 2], rows[|rows| - 1]);
      }
      SortRowsAppendsLast(field, dir, rows);
    }
  }

  /** How many rows pass the filters. */
  function MatchingCount(rows: seq<TableRow>, sel: AdminFilters.Selection): (r: nat)
    ensures r <= |rows|
  {
    if |rows| == 0 then 0
    else
      MatchingCount(rows[..|rows| - 1], sel)
        + (if AdminFilters.Matches(rows[|rows| - 1].data, sel) then 1 else 0)
  }

  lemma MatchingCountAppend(s: seq<TableRow>, y: TableRow, sel: AdminFilters.Selection)
    ensures MatchingCount(s + [y], sel) == MatchingCount(s, sel) + (if AdminFilters.Matches(y.data, sel) then 1 else 0)
  {
    assert (s + [y])[..|s|] == s;
  }

  lemma {:induction false} InsertKeepsMatching(field: string, dir: Direction, x: TableRow, s: seq<TableRow>,
                                               sel: AdminFilters.Selection)
    requires SortedBy(field, dir, s)
    ensures MatchingCount(InsertLast(field, dir, x, s), sel)
      == MatchingCount(s, sel) + (if AdminFilters.Matches(x.data, sel) then 1 else 0)
  {
    if |s| == 0 {
      MatchingCountAppend([], x, sel);
    } else if InOrder(field, dir, s[|s| - 1], x) {
      MatchingCountAppend(s, x, sel);
    } else {
      var init := s[..|s| - 1];
      var last := s[|s| - 1];
      assert s == init + [last];
      SortedPrefix(field, dir, s);
      InsertKeepsMatching(field, dir, x, init, sel);
      MatchingCountAppend(InsertLast(field, dir, x, init), last, sel);
      MatchingCountAppend(init, last, sel);
    }
  }

  /** Sorting moves rows but does not change how many of them pass the filters. */
  lemma {:induction false} SortKeepsMatching(field: string, dir: Direction, rows: seq<TableRow>,
                                             sel: AdminFilters.Selection)
    ensures MatchingCount(SortRows(field, dir, rows), sel) == MatchingCount(rows, sel)
  {
    if |rows| > 0 {
      SortKeepsMatching(field, dir, rows[..|rows| - 1], sel);
      InsertKeepsMatching(field, dir, rows[|rows| - 1], SortRows(field, dir, rows[..|rows| - 1]), sel);
    }
  }

  datatype Sorted = Sorted(rows: seq<TableRow>, pages: AdminPagination.Pages)

  /** `sortBrands`: re-order the rows, go back to page 1 and recompute the page count. */
  function SortBrands(field: string, dir: Direction, rows: seq<TableRow>,
                      sel: AdminFilters.Selection, perPage: nat): (r: Sorted)
    requires perPage > 0
    ensures SortedBy(field, dir, r.rows)
    ensures multiset(r.rows) == multiset(rows)
    ensures r.pages.current == 1
    ensures r.pages.total == AdminPagination.TotalPages(MatchingCount(rows, sel), perPage)
  {
    var sorted := SortRows(field, dir, rows);
    SortKeepsMatching(field, dir, rows, sel);
    Sorted(sorted, AdminPagination.Update(1, MatchingCount(sorted, sel), perPage))
  }
}
