/**
 * Brand synchronisation (`sync_brands_page` / `sync_all_brands` in
 * dataflair-toplists.php): keep only the Active brands of an API page, derive
 * the flat columns of the brands table and upsert one row per API brand id.
 */
module BrandSync {
  import opened Common
  import opened PhpStrings
  import Values

  datatype TopGeos = TopGeos(countries: Option<seq<string>>, markets: Option<seq<string>>)

  /** An offer of a brand; only its tracker list matters for the table. */
  datatype ApiOffer = ApiOffer(trackers: Option<seq<Values.Value>>)

  /**
   * One element of the API's `data` array. A field that is missing, or that
   * is not an array where the code requires `is_array`, is `None`.
   */
  datatype ApiBrand = ApiBrand(
    id: Option<int>,
    name: Option<string>,
    slug: Option<string>,
    brandStatus: Option<string>,
    productTypes: Option<seq<string>>,
    licenses: Option<seq<string>>,
    topGeos: TopGeos,
    offers: Option<seq<ApiOffer>>)

  /** A row of the brands table. `data` stands for the JSON-encoded API brand. */
  datatype BrandRow = BrandRow(
    apiBrandId: int,
    name: string,
    slug: string,
    status: string,
    productTypes: string,
    licenses: string,
    topGeos: string,
    offersCount: nat,
    trackersCount: nat,
    data: ApiBrand,
    lastSynced: string)

  /** The brands table, keyed by its unique `api_brand_id`. */
  type BrandTable = map<int, BrandRow>

  const ActiveStatus: string := "Active"
  const UnnamedBrand: string := "Unnamed Brand"
  const ListSeparator: string := ", "

  /** Only brands whose `brandStatus` is exactly "Active" are synced. */
  predicate IsActive(b: ApiBrand) {
    b.brandStatus.GetOr("") == ActiveStatus
  }

  /** Countries followed by markets, each only when present as an array. */
  function TopGeoList(b: ApiBrand): (r: seq<string>)
    ensures |r| == |b.topGeos.countries.GetOr([])| + |b.topGeos.markets.GetOr([])|
    ensures r[..|b.topGeos.countries.GetOr([])|] == b.topGeos.countries.GetOr([])
    ensures r[|b.topGeos.countries.GetOr([])|..] == b.topGeos.markets.GetOr([])
  {
    b.topGeos.countries.GetOr([]) + b.topGeos.markets.GetOr([])
  }

  /** Sum of the lengths of the offers' tracker arrays; offers without one add nothing. */
  function TrackerTotal(offers: seq<ApiOffer>): nat
  {
    if |offers| == 0 then 0
    else TrackerTotal(offers[..|offers| - 1]) + |offers[|offers| - 1].trackers.GetOr([])|
  }

  /** Adding an offer with `k` trackers adds exactly `k` to the total, wherever it stands. */
  lemma {:induction false} TrackerTotalAppend(a: seq<ApiOffer>, b: seq<ApiOffer>)
    ensures TrackerTotal(a + b) == TrackerTotal(a) + TrackerTotal(b)
  {
    if |b| > 0 {
      assert (a + b)[..|a + b| - 1] == a + b[..|b| - 1];
      TrackerTotalAppend(a, b[..|b| - 1]);
    } else {
      assert a + b == a;
    }
  }

  /** The table row that a synced brand with id `id` turns into. */
  function DeriveRow(b: ApiBrand, id: int, now: string, sanitizeTitle: string -> string): (r: BrandRow)
    ensures r.apiBrandId == id && r.data == b && r.lastSynced == now
    ensures r.name == b.name.GetOr(UnnamedBrand)
    ensures b.slug.Some? ==> r.slug == b.slug.value
    ensures b.slug.None? ==> r.slug == sanitizeTitle(r.name)
    ensures r.productTypes == Implode(b.productTypes.GetOr([]), ListSeparator)
    ensures r.licenses == Implode(b.licenses.GetOr([]), ListSeparator)
    ensures r.topGeos == Implode(TopGeoList(b), ListSeparator)
    ensures r.offersCount == |b.offers.GetOr([])|
    ensures r.trackersCount == TrackerTotal(b.offers.GetOr([]))
  {
    var name := b.name.GetOr(UnnamedBrand);
    BrandRow(
      id, name,
      if b.slug.Some? then b.slug.value else sanitizeTitle(name),
      b.brandStatus.GetOr(""),
      Implode(b.productTypes.GetOr([]), ListSeparator),
      Implode(b.licenses.GetOr([]), ListSeparator),
      Implode(TopGeoList(b), ListSeparator),
      |b.offers.GetOr([])|,
      TrackerTotal(b.offers.GetOr([])),
      b, now)
  }

  /** Insert-or-update keyed by `api_brand_id`. */
  function Upsert(table: BrandTable, row: BrandRow): (r: BrandTable)
    ensures row.apiBrandId in r && r[row.apiBrandId] == row
    ensures r.Keys == table.Keys + {row.apiBrandId}
    ensures forall k :: k in table && k != row.apiBrandId ==> r[k] == table[k]
  {
    table[row.apiBrandId := row]
  }

  /** The state the page loop carries: the table and its two counters. */
  datatype PageOutcome = PageOutcome(table: BrandTable, synced: nat, errors: nat)

  /**
   * One iteration of the brand loop. `writeOk` says whether the database
   * accepted the insert or update of a row (a failed write leaves the table as it was).
   */
  function Step(s: PageOutcome, b: ApiBrand, now: string,
                sanitizeTitle: string -> string, writeOk: BrandRow -> bool): (r: PageOutcome)
    ensures !IsActive(b) ==> r == s
    ensures IsActive(b) ==> r.synced + r.errors == s.synced + s.errors + 1
    ensures IsActive(b) && b.id.None? ==> r == s.(errors := s.errors + 1)
    ensures IsActive(b) && b.id.Some? && writeOk(DeriveRow(b, b.id.value, now, sanitizeTitle))
            ==> r.synced == s.synced + 1 && r.table == Upsert(s.table, DeriveRow(b, b.id.value, now, sanitizeTitle))
    ensures IsActive(b) && b.id.Some? && !writeOk(DeriveRow(b, b.id.value, now, sanitizeTitle))
            ==> r == s.(errors := s.errors + 1)
  {
    if !IsActive(b) then s
    else if b.id.None? then s.(errors := s.errors + 1)
    else
      var row := DeriveRow(b, b.id.value, now, sanitizeTitle);
      if writeOk(row) then PageOutcome(Upsert(s.table, row), s.synced + 1, s.errors)
      else s.(errors := s.errors + 1)
  }

  function ActiveCount(brands: seq<ApiBrand>): (n: nat)
    ensures n <= |brands|
  {
    if |brands| == 0 then 0
    else ActiveCount(brands[..|brands| - 1]) + (if IsActive(brands[|brands| - 1]) then 1 else 0)
  }

  /** The ids of the Active brands of a page, the only keys a page can write. */
  function ActiveIds(brands: seq<ApiBrand>): set<int>
  {
    set i | 0 <= i < |brands| && IsActive(brands[i]) && brands[i].id.Some? :: brands[i].id.value
  }

  /** The brand loop of one page, from the first brand to the last. */
  function ProcessBrands(s: PageOutcome, brands: seq<ApiBrand>, now: string,
                         sanitizeTitle: string -> string, writeOk: BrandRow -> bool): (r: PageOutcome)
    ensures r.synced + r.errors == s.synced + s.errors + ActiveCount(brands)
    ensures r.table.Keys <= s.table.Keys + ActiveIds(brands)
    ensures forall k :: k in s.table && k !in ActiveIds(brands) ==> k in r.table && r.table[k] == s.table[k]
  {
    if |brands| == 0 then s
    else
      var prefix := brands[..|brands| - 1];
      var last := brands[|brands| - 1];
      var mid := ProcessBrands(s, prefix, now, sanitizeTitle, writeOk);
      assert ActiveIds(prefix) <= ActiveIds(brands) by {
        forall k | k in ActiveIds(prefix) ensures k in ActiveIds(brands) {
          var i :| 0 <= i < |prefix| && IsActive(prefix[i]) && prefix[i].id.Some? && prefix[i].id.value == k;
          assert brands[i] == prefix[i];
        }
      }
      assert IsActive(last) && last.id.Some? ==> last.id.value in ActiveIds(brands) by {
        if IsActive(last) && last.id.Some? {
          assert brands[|brands| - 1] == last;
        }
      }
      Step(mid, last, now, sanitizeTitle, writeOk)
  }

  /**
   * `sync_brands_page` after the response has been decoded: the page's
   * counters start at zero, so synced + errors counts the Active brands.
   */
  function SyncBrandsPage(table: BrandTable, brands: seq<ApiBrand>, now: string,
                          sanitizeTitle: string -> string, writeOk: BrandRow -> bool): (r: PageOutcome)
    ensures r.synced + r.errors == ActiveCount(brands) <= |brands|
    ensures forall k :: k in r.table && k !in ActiveIds(brands) ==> k in table && r.table[k] == table[k]
    ensures forall k :: k in table && k !in ActiveIds(brands) ==> k in r.table && r.table[k] == table[k]
  {
    ProcessBrands(PageOutcome(table, 0, 0), brands, now, sanitizeTitle, writeOk)
  }

  /** A page without any Active brand changes nothing and counts nothing. */
  lemma {:induction false} InactivePageIsNoOp(s: PageOutcome, brands: seq<ApiBrand>, now: string,
                                              sanitizeTitle: string -> string, writeOk: BrandRow -> bool)
    requires forall i :: 0 <= i < |brands| ==> !IsActive(brands[i])
    ensures ProcessBrands(s, brands, now, sanitizeTitle, writeOk) == s
  {
    if |brands| > 0 {
      InactivePageIsNoOp(s, brands[..|brands| - 1], now, sanitizeTitle, writeOk);
    }
  }

  /** The last brand of a page that is written decides its id's row. */
  lemma LastWriteWins(s: PageOutcome, brands: seq<ApiBrand>, b: ApiBrand, now: string,
                      sanitizeTitle: string -> string, writeOk: BrandRow -> bool)
    requires IsActive(b) && b.id.Some?
    requires writeOk(DeriveRow(b, b.id.value, now, sanitizeTitle))
    ensures var r := ProcessBrands(s, brands + [b], now, sanitizeTitle, writeOk);
            b.id.value in r.table && r.table[b.id.value] == DeriveRow(b, b.id.value, now, sanitizeTitle)
  {
    assert (brands + [b])[..|brands|] == brands;
  }

  /** Some Active brand of the run with id `k` derives `row`, and the database accepted that write. */
  predicate WrittenBy(brands: seq<ApiBrand>, k: int, row: BrandRow, now: string,
                      sanitizeTitle: string -> string, writeOk: BrandRow -> bool)
  {
    exists i :: 0 <= i < |brands| && IsActive(brands[i]) && brands[i].id == Some(k)
                && row == DeriveRow(brands[i], k, now, sanitizeTitle) && writeOk(row)
  }

  /** Every row after the loop is either the row it had before or the derived row of a brand that was written. */
  lemma {:induction false} RowsComeFromBrands(s: PageOutcome, brands: seq<ApiBrand>, now: string,
                                              sanitizeTitle: string -> string, writeOk: BrandRow -> bool)
    ensures var r := ProcessBrands(s, brands, now, sanitizeTitle, writeOk);
            forall k :: k in r.table ==>
              (k in s.table && r.table[k] == s.table[k]) || WrittenBy(brands, k, r.table[k], now, sanitizeTitle, writeOk)
  {
    if |brands| > 0 {
      var prefix := brands[..|brands| - 1];
      var last := brands[|brands| - 1];
      var mid := ProcessBrands(s, prefix, now, sanitizeTitle, writeOk);
      var r := ProcessBrands(s, brands, now, sanitizeTitle, writeOk);
      assert r == Step(mid, last, now, sanitizeTitle, writeOk);
      RowsComeFromBrands(s, prefix, now, sanitizeTitle, writeOk);
      forall k | k in r.table
        ensures (k in s.table && r.table[k] == s.table[k]) || WrittenBy(brands, k, r.table[k], now, sanitizeTitle, writeOk)
      {
        if IsActive(last) && last.id == Some(k) && writeOk(DeriveRow(last, k, now, sanitizeTitle)) {
          assert r.table[k] == DeriveRow(last, k, now, sanitizeTitle);
          assert brands[|brands| - 1] == last;
        } else {
          assert k in mid.table && r.table[k] == mid.table[k];
          if !(k in s.table && mid.table[k] == s.table[k]) {
            WrittenByGrows(prefix, brands, k, mid.table[k], now, sanitizeTitle, writeOk);
          }
        }
      }
    }
  }

  lemma WrittenByGrows(prefix: seq<ApiBrand>, brands: seq<ApiBrand>, k: int, row: BrandRow, now: string,
                       sanitizeTitle: string -> string, writeOk: BrandRow -> bool)
    requires |prefix| <= |brands| && prefix == brands[..|prefix|]
    requires WrittenBy(prefix, k, row, now, sanitizeTitle, writeOk)
    ensures WrittenBy(brands, k, row, now, sanitizeTitle, writeOk)
  {
    var i :| 0 <= i < |prefix| && IsActive(prefix[i]) && prefix[i].id == Some(k)
             && row == DeriveRow(prefix[i], k, now, sanitizeTitle) && writeOk(row);
    assert brands[i] == prefix[i];
  }

  /** One decoded page of the `/brands?page=N` endpoint, or why it could not be had. */
  datatype PageResponse =
    | PageFailed(message: string)
    | PageOk(brands: seq<ApiBrand>, lastPage: Option<int>)

  /** What `sync_all_brands` reports on success. */
  datatype SyncCounts = SyncCounts(synced: nat, errors: nat)

  /** Requesting page `n` of the responses the API would give; pages past the end fail. */
  function Fetch(pages: seq<PageResponse>, n: int): PageResponse
  {
    if 1 <= n <= |pages| then pages[n - 1] else PageFailed("no response for page " + IntToString(n))
  }

  /** The brands of the given pages, page after page, in API order. */
  function PageBrands(pages: seq<PageResponse>): seq<ApiBrand>
  {
    if |pages| == 0 then []
    else PageBrands(pages[..|pages| - 1])
         + (match pages[|pages| - 1] case PageOk(bs, _) => bs case PageFailed(_) => [])
  }

  /** The `last_page` the loop holds after the given pages: the latest one reported, 1 before any. */
  function LastPageAfter(pages: seq<PageResponse>): int
  {
    if |pages| == 0 then 1
    else match pages[|pages| - 1]
      case PageOk(_, Some(lp)) => lp
      case _ => LastPageAfter(pages[..|pages| - 1])
  }

  /** The first `n` pages were all fetched and decoded. */
  predicate FirstPagesOk(pages: seq<PageResponse>, n: nat)
  {
    n <= |pages| && forall i :: 0 <= i < n ==> pages[i].PageOk?
  }

  /** After `n` good pages the loop goes on: `$current_page = n + 1` is still `<= $last_page`. */
  predicate ContinuesAfter(pages: seq<PageResponse>, n: nat)
    requires n <= |pages|
  {
    n < LastPageAfter(pages[..n])
  }

  /** The loop reads pages 1..n, all good, and stops because page n + 1 is past the last page. */
  predicate StopsAfter(pages: seq<PageResponse>, n: nat)
  {
    1 <= n && FirstPagesOk(pages, n) && !ContinuesAfter(pages, n)
    && forall m :: 1 <= m < n ==> ContinuesAfter(pages, m)
  }

  /** The loop reads pages 1..n - 1, all good, goes on after each, and the request for page n fails. */
  predicate FailsAt(pages: seq<PageResponse>, n: nat)
  {
    1 <= n && FirstPagesOk(pages, n - 1) && Fetch(pages, n).PageFailed?
    && forall m :: 1 <= m < n ==> ContinuesAfter(pages, m)
  }

  /** The table and counters after processing the brands of `pages` in order, starting from `table`. */
  function RunPages(table: BrandTable, pages: seq<PageResponse>, now: string,
                    sanitizeTitle: string -> string, writeOk: BrandRow -> bool): PageOutcome
  {
    ProcessBrands(PageOutcome(table, 0, 0), PageBrands(pages), now, sanitizeTitle, writeOk)
  }

  /** Processing two runs of brands one after the other is processing their concatenation. */
  lemma {:induction false} ProcessBrandsAppend(s: PageOutcome, a: seq<ApiBrand>, b: seq<ApiBrand>, now: string,
                                               sanitizeTitle: string -> string, writeOk: BrandRow -> bool)
    ensures ProcessBrands(s, a + b, now, sanitizeTitle, writeOk)
            == ProcessBrands(ProcessBrands(s, a, now, sanitizeTitle, writeOk), b, now, sanitizeTitle, writeOk)
  {
    if |b| == 0 {
      assert a + b == a;
    } else {
      assert (a + b)[..|a + b| - 1] == a + b[..|b| - 1];
      assert (a + b)[|a + b| - 1] == b[|b| - 1];
      ProcessBrandsAppend(s, a, b[..|b| - 1], now, sanitizeTitle, writeOk);
    }
  }

  /** Reading one more good page processes its brands after the earlier pages' and may move `last_page`. */
  lemma RunOneMorePage(table: BrandTable, pages: seq<PageResponse>, n: nat, now: string,
                       sanitizeTitle: string -> string, writeOk: BrandRow -> bool)
    requires n < |pages| && pages[n].PageOk?
    ensures RunPages(table, pages[..n + 1], now, sanitizeTitle, writeOk)
            == ProcessBrands(RunPages(table, pages[..n], now, sanitizeTitle, writeOk), pages[n].brands,
                             now, sanitizeTitle, writeOk)
    ensures LastPageAfter(pages[..n + 1])
            == if pages[n].lastPage.Some? then pages[n].lastPage.value else LastPageAfter(pages[..n])
  {
    assert pages[..n + 1][..n] == pages[..n];
    assert pages[..n + 1][n] == pages[n];
    assert PageBrands(pages[..n + 1]) == PageBrands(pages[..n]) + pages[n].brands;
    ProcessBrandsAppend(PageOutcome(table, 0, 0), PageBrands(pages[..n]), pages[n].brands,
                        now, sanitizeTitle, writeOk);
  }

  /** After good page `c` the loop either stops there or has gone on after every page so far. */
  lemma AfterGoodPage(pages: seq<PageResponse>, c: nat)
    requires 1 <= c <= |pages| && pages[c - 1].PageOk?
    requires FirstPagesOk(pages, c - 1)
    requires forall m :: 1 <= m < c ==> ContinuesAfter(pages, m)
    ensures FirstPagesOk(pages, c)
    ensures !ContinuesAfter(pages, c) ==> StopsAfter(pages, c)
    ensures ContinuesAfter(pages, c) ==> forall m :: 1 <= m < c + 1 ==> ContinuesAfter(pages, m)
  {
  }

  /** A run that fails at some page never stops normally. */
  lemma FailExcludesStop(pages: seq<PageResponse>, k: nat)
    requires FailsAt(pages, k)
    ensures forall n: nat :: !StopsAfter(pages, n)
  {
    forall n: nat ensures !StopsAfter(pages, n) {
      if n < k {
        assert 1 <= n ==> ContinuesAfter(pages, n);
      } else if n <= |pages| {
        assert Fetch(pages, k) == pages[k - 1];
        assert !FirstPagesOk(pages, n);
      }
    }
  }

  /**
   * `sync_all_brands` after the HTTP layer: fetch page 1, 2, ... while the
   * page number does not exceed the `last_page` the latest response
   * reported, and stop with the first failure. `db` is the brands table
   * afterwards: rows written before a failure stay written.
   */
  method SyncAllBrands(token: string, table: BrandTable, pages: seq<PageResponse>, now: string,
                       sanitizeTitle: string -> string, writeOk: BrandRow -> bool)
    returns (r: Result<SyncCounts>, db: BrandTable)
    ensures IsEmpty(token) ==> r == Err("API token not configured") && db == table
    ensures r.Ok? <==> !IsEmpty(token) && exists n: nat :: StopsAfter(pages, n)
    ensures r.Ok? ==> exists n: nat :: StopsAfter(pages, n)
                        && var out := RunPages(table, pages[..n], now, sanitizeTitle, writeOk);
                           r.value == SyncCounts(out.synced, out.errors) && db == out.table
    ensures r.Err? && !IsEmpty(token) ==>
              exists n: nat :: FailsAt(pages, n) && r.message == Fetch(pages, n).message
                          && db == RunPages(table, pages[..n - 1], now, sanitizeTitle, writeOk).table
  {
    if IsEmpty(token) {
      return Err("API token not configured"), table;
    }
    var current := 1;
    var lastPage := 1;
    var out := PageOutcome(table, 0, 0);
    assert pages[..0] == [];
    while true
      invariant 1 <= current <= |pages| + 1
      invariant FirstPagesOk(pages, current - 1)
      invariant forall m :: 1 <= m < current ==> ContinuesAfter(pages, m)
      invariant lastPage == LastPageAfter(pages[..current - 1])
      invariant out == RunPages(table, pages[..current - 1], now, sanitizeTitle, writeOk)
      decreases |pages| + 1 - current
    {
      var response := Fetch(pages, current);
      if response.PageFailed? {
        assert FailsAt(pages, current);
        FailExcludesStop(pages, current);
        return Err(response.message), out.table;
      }
      RunOneMorePage(table, pages, current - 1, now, sanitizeTitle, writeOk);
      AfterGoodPage(pages, current);
      if response.lastPage.Some? {
        lastPage := response.lastPage.value;
      }
      out := ProcessBrands(out, response.brands, now, sanitizeTitle, writeOk);
      current := current + 1;
      if current > lastPage {
        return Ok(SyncCounts(out.synced, out.errors)), out.table;
      }
    }
  }

  /**
   * The admin page's batch loop (`syncBrandsBatch` in assets/admin.js and
   * `ajax_sync_brands_batch`): after page `page` the server reports
   * `is_complete = page >= last_page`, and the browser asks for page + 1
   * only while the batch is not complete and page < last_page.
   */
  function NextBatch(page: int, lastPage: int): (r: Option<int>)
    ensures r.Some? <==> page < lastPage
    ensures r.Some? ==> r.value == page + 1 && r.value <= lastPage
  {
    var isComplete := page >= lastPage;
    if !isComplete && page < lastPage then Some(page + 1) else None
  }

  /** The pages one batch run requests, starting at `page`, while `last_page` stays fixed. */
  function BatchPages(page: int, lastPage: int): seq<int>
    decreases lastPage - page
  {
    match NextBatch(page, lastPage)
    case None => [page]
    case Some(next) => [page] + BatchPages(next, lastPage)
  }

  /** A batch run starting at page 1 requests pages 1..last_page in order, or page 1 alone. */
  lemma {:induction false} BatchPagesAreConsecutive(page: int, lastPage: int)
    ensures var ps := BatchPages(page, lastPage);
            |ps| == (if page < lastPage then lastPage - page + 1 else 1)
            && forall i :: 0 <= i < |ps| ==> ps[i] == page + i
    decreases lastPage - page
  {
    if page < lastPage {
      BatchPagesAreConsecutive(page + 1, lastPage);
    }
  }
}
