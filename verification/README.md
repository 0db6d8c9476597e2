# DataFlair Toplists — a Dafny model of the plugin core

DataFlair Toplists is a WordPress plugin. It pulls casino "toplists" and
brands from the DataFlair API and stores them in custom tables. It renders
them through a `[dataflair_toplist]` shortcode and a block. It also gives
administrators a brands table with filters, sorting and pagination.

This project models the logic at the heart of the plugin as pure Dafny
functions, with proofs about them:

- **Brand synchronisation.** Only Active brands of an API page are kept. The
  model derives their flat columns, upserts them by `api_brand_id`, walks the
  pages and runs the admin batch loop (`BrandSync`).
- **The `Brand` model.** Its static query builder and list-column getters are
  covered by `QueryBuilder` and `BrandModel`. `includes/Toplist.php` has the
  same builder, line for line.
- **Toplist synchronisation.** The endpoint list is parsed and the outcomes
  are counted (`ToplistSync`).
- **Toplist data and the shortcode.** This covers item extraction, staleness
  and the limit (`ToplistModel`, `Shortcode`).
- **Alternative toplists.** Per-geo mappings are saved, deleted and listed,
  and the list of available geos is built (`AltToplists`, `Ordering`).
- **The casino card renderer.** This covers:
  - the Tailwind class helper (`Tailwind`);
  - the logo, link, review-URL, features, payment-method and pros/cons
    selection (`CasinoCard`);
  - the `casino-{position}-{slug}` override key, as the editor builds it and as
    the renderers look it up (`CasinoKeys`).
- **The block editor's pros/cons overrides** (`ProsConsEditor`).
- **The admin brands table.** This covers filtering (`AdminFilters`),
  pagination (`AdminPagination`) and sorting (`AdminSort`), whose name
  order is JavaScript's UTF-16 code-unit order (`JsStrings`).
- **The database JSON-capability check** (`DbVersion`).

Several PHP and JavaScript primitives are modelled with their exact edge
cases. They live in `PhpStrings` and `Values`:

- `empty()` treats `"0"` as empty;
- `trim()` strips a fixed set of whitespace bytes;
- `explode`/`implode` behave as PHP defines them;
- `parseInt` reads as JavaScript does when no radix is given: leading white space is skipped, one sign is read, a `0x` prefix selects base 16, and the longest digit run is taken;
- decoded JSON is a `Value` of strings, lists and keyed arrays.

WordPress and browser services the code calls but does not define are
function parameters of the model. These are `sanitize_title`, `esc_url`,
`esc_html`, `home_url`, `apply_filters`, the outcome of a database write,
the fetch of one endpoint and `$wpdb` query execution.

## Model

| member | source | states |
|---|---|---|
| PhpStrings.TrimResult | includes/Brand.php:287-322 | `trim` leaves no strippable character at either end, and leaves an already trimmed string unchanged |
| PhpStrings.TrimSpacePrefix | includes/Brand.php:287-322 | trimming an item that only gained the leading space of a ", " separator gives the item back |
| PhpStrings.ExplodeImplode | dataflair-toplists.php:2036-2067 | splitting a ", "-joined list of comma-free items on ',' yields as many pieces as items: the first item as is, each later one behind one space |
| PhpStrings.LeadingDigitsOfPrefix | src/index.js:312 | the digit run at the front of `digits + rest` is exactly `digits` when `rest` does not continue with a digit |
| PhpStrings.NatToStringInjective | src/index.js:312 | two positions with the same decimal text are the same position |
| Tailwind.BuildClass | dataflair-toplists.php:2698-2716 | an empty setting gives ""; arbitrary values in brackets, values already carrying `base-` and full classes starting `text-`, `bg-`, `border-`, `hover:bg-` or `hover:text-` pass through (any other `hover:` class gets the `base-` prefix like any other value); anything else gets the `base-` prefix |
| Tailwind.BuildClassShape | dataflair-toplists.php:2698-2716 | every class the helper produces is empty, the setting itself, or starts with `base-` |
| Tailwind.BuildClassIdempotent | dataflair-toplists.php:2698-2716 | applying the helper to its own output changes nothing |
| Tailwind.HoverClassAsWritten | dataflair-toplists.php:2916 | the template's hover class is `hover:` in front of whatever the helper returned, whatever that was |
| Tailwind.HoverClassDoublesPrefix | dataflair-toplists.php:2916 | the value "hover:bg-blue-700", of the form the editor's help text asks for, renders as "hover:hover:bg-blue-700" |
| Tailwind.HoverClass | dataflair-toplists.php:2916 | the corrected hover class is empty for an empty setting, always starts with `hover:` otherwise, and never adds a second `hover:` |
| Tailwind.HoverClassKeepsSingleVariant | dataflair-toplists.php:2916 | for the same value the corrected class is "hover:bg-blue-700" |
| Tailwind.HoverClassAgrees | dataflair-toplists.php:2877 | on every setting that does not already carry `hover:`, the corrected class equals the template's |
| BrandSync.TopGeoList | dataflair-toplists.php:2036-2067 | the top geos are the countries followed by the markets, each only when present as an array |
| BrandSync.TrackerTotalAppend | dataflair-toplists.php:2036-2067 | the trackers count adds up over offers: the count of two offer lists joined is the sum of their counts |
| BrandSync.DeriveRow | dataflair-toplists.php:2036-2067 | the row keeps the API id and brand; the name defaults to "Unnamed Brand"; the slug is the API slug else the sanitized name; the lists are ", "-joined; the offers count is the number of offers and the trackers count sums the tracker arrays |
| BrandSync.Upsert | dataflair-toplists.php:2070-2112 | after the write the brand's id maps to the new row, no other id changes, and the table gains at most that id |
| BrandSync.Step | dataflair-toplists.php:2013-2121 | a non-Active brand changes nothing; an Active one without id, or whose write fails, counts one error and leaves the table; a successful write counts one synced and upserts the row |
| BrandSync.ProcessBrands | dataflair-toplists.php:2013-2121 | synced plus errors grows by the number of Active brands; only ids of Active brands can be added or changed |
| BrandSync.SyncBrandsPage | dataflair-toplists.php:1957-2139 | for one page, synced + errors equals the Active brands on it, and rows of ids not on the page's Active list are untouched both ways |
| BrandSync.InactivePageIsNoOp | dataflair-toplists.php:2013-2017 | a page without an Active brand leaves table and counters exactly as they were |
| BrandSync.ProcessBrandsAppend | dataflair-toplists.php:2145-2326 | processing the brands of one page after another's is processing their concatenation, so the counters and writes carry over from page to page |
| BrandSync.RowsComeFromBrands | dataflair-toplists.php:2013-2121 | after the loop every row is either the row it had before or the derived row of an Active brand with that id whose write the database accepted |
| BrandSync.FailExcludesStop | dataflair-toplists.php:2145-2326 | a run whose request for some page fails never reaches the normal end of the loop |
| BrandSync.LastWriteWins | dataflair-toplists.php:2070-2112 | when the last brand of a page is written successfully, its id's row is that brand's derived row |
| BrandSync.SyncAllBrands | dataflair-toplists.php:2145-2326 | with no token it fails with "API token not configured" and leaves the table alone; it succeeds exactly when some n has pages 1..n all good, the `last_page` held after each earlier page asking for the next one, and the `last_page` held after page n (default 1) at most n; then the counts and the table are those of processing the brands of pages 1..n in order; otherwise it fails with the message of the first failed request, and the rows written by the pages before it stay written |
| BrandSync.NextBatch | assets/admin.js:175-177 | the browser asks for another page exactly when page < last_page, and then for page + 1 |
| BrandSync.BatchPagesAreConsecutive | dataflair-toplists.php:1900-1930 | a batch run starting at `page` requests page, page+1, ..., last_page in order, or `page` alone when it is already the last |
| BrandModel.GetAttribute | includes/Brand.php:254-256 | a key that is present and not NULL yields its value; otherwise the default |
| BrandModel.SplitTrim | includes/Brand.php:287-322 | one piece per comma-separated part, each trimmed and comma-free |
| BrandModel.ListColumn | includes/Brand.php:287-322 | an unset or `empty()` column reads as []; otherwise the trimmed comma-separated pieces |
| BrandModel.SplitTrimImplode | includes/Brand.php:287-322 | splitting and trimming a ", "-joined list of trimmed comma-free items gives the list back |
| BrandModel.ImplodeEmpty | includes/Brand.php:287-322 | a joined list is `empty()` exactly when the list is [], [""] or ["0"] |
| BrandModel.ListColumnRoundTrip | includes/Brand.php:287-322 | a column written as a joined storable list reads back as that list |
| BrandModel.ZeroLicenseReadsAsNone | includes/Brand.php:301-308 | a brand whose only license is "0" reads back with no licenses |
| BrandModel.RowAttributes | dataflair-toplists.php:2070-2112 | the getters see the columns the sync wrote |
| BrandModel.SyncedLicensesReadBack | includes/Brand.php:301-308 | licenses the sync stored come back from `getLicenses` unchanged |
| BrandModel.SyncedTopGeosReadBack | includes/Brand.php:315-322 | top geos the sync stored come back as countries then markets |
| QueryBuilder.AddWhere | includes/Brand.php:104-112 | `where` appends exactly one condition and touches neither order nor limit |
| QueryBuilder.OrderBy | includes/Brand.php:121-128 | `orderBy` stores the column and the upper-cased direction and touches nothing else |
| QueryBuilder.SetLimit | includes/Brand.php:136-140 | `limit` stores the limit and touches nothing else |
| QueryBuilder.LimitPart | includes/Brand.php:182-184 | a LIMIT clause is emitted exactly when the stored limit is truthy |
| QueryBuilder.BuildQuery | includes/Brand.php:156-184 | the SQL is `SELECT * FROM` the table followed by the WHERE clause (present exactly when there are conditions, joined by AND), the ORDER BY text and the LIMIT clause (present exactly when the limit is truthy), in that order; the where values are bound in call order |
| QueryBuilder.ImplodeAppend | includes/Brand.php:165-174 | joining one more clause appends the separator and the clause |
| QueryBuilder.WhereExtendsClause | includes/Brand.php:165-174 | each `where` call adds its clause after the earlier ones, joined by AND, and its value after theirs |
| QueryBuilder.GetResults | includes/Brand.php:156-202 | the results are those of the built query, and the builder is reset afterwards |
| QueryBuilder.NoLeakBetweenQueries | includes/Brand.php:186-187 | a query built after `getResults` sees only the calls made after it |
| QueryBuilder.All | includes/Brand.php:209-212 | `all()` ignores pending conditions and selects the whole table |
| QueryBuilder.First | includes/Brand.php:219-223 | `first()` runs the pending query with LIMIT 1 and returns its first row or nothing |
| ToplistModel.GetItems | includes/Toplist.php:264-271 | missing, empty or item-less data gives []; otherwise `data.items` |
| ToplistModel.IsStale | includes/Toplist.php:279-287 | a timestamp that did not parse, or parsed to 0 (the epoch, which `!$last_synced` reads as false), is stale; otherwise stale exactly when more than `days` days have passed |
| ToplistModel.StaleIsMonotone | includes/Toplist.php:279-287 | once stale, a toplist stays stale as time goes on |
| Shortcode.ApplyLimit | dataflair-toplists.php:2636-2639 | a positive limit keeps the first `limit` items; any other limit keeps them all |
| Shortcode.ShortcodeStaleAgrees | dataflair-toplists.php:2631-2632 | for a parsed timestamp the shortcode's 3-day check agrees with `Toplist::isStale()` |
| Shortcode.Render | dataflair-toplists.php:2596-2642 | an empty id and an unknown toplist are errors; for a `limit` given as an integer, a found row whose decoded data holds an item list succeeds, and nothing else does; the items are the limited list; a non-empty title attribute wins, otherwise the title is `data.name`; staleness is the 3-day check |
| ToplistSync.KeepNonEmpty | dataflair-toplists.php:816 | `array_filter` keeps exactly the strings that are not `empty()`, each as many times as it occurs |
| ToplistSync.KeepNonEmptyAppend | dataflair-toplists.php:816 | the filter keeps order: filtering a concatenation concatenates the filtered parts, so kept strings keep their positions relative to each other and repeats stay |
| ToplistSync.KeepNonEmptySingle | dataflair-toplists.php:816 | a single string is kept exactly when it is not `empty()` |
| ToplistSync.TrimKeepsOut | dataflair-toplists.php:816 | trimming never introduces a character |
| ToplistSync.TrimmedLines | dataflair-toplists.php:816 | trimmed lines are trimmed and still free of newlines |
| ToplistSync.TrimAllMembers | dataflair-toplists.php:816 | a string is among the trimmed lines exactly when it is the trim of some line |
| ToplistSync.ParseEndpoints | dataflair-toplists.php:816 | the endpoints are exactly the non-empty trimmed lines of the option, each trimmed and single-line |
| ToplistSync.ParseEndpointsFirstLine | dataflair-toplists.php:816-827 | the first line's endpoint (its trim, unless `empty()`) comes first, then the endpoints of the remaining lines in order; a repeated line is fetched and counted again |
| ToplistSync.ParseEndpointsOneLine | dataflair-toplists.php:816 | an option of a single line gives that line's trim, or nothing when the trim is `empty()` |
| ToplistSync.CountResults | dataflair-toplists.php:820-827 | every endpoint counts once, as synced when its fetch succeeded and as an error otherwise |
| ToplistSync.SyncAllToplists | dataflair-toplists.php:804-834 | no token and no endpoints are the two errors, in that order; otherwise success, with synced + errors = number of endpoints and synced = successful fetches |
| Ordering.StrLeTotal | dataflair-toplists.php:2494 | any two geo names are comparable |
| Ordering.StrLeTransitive | dataflair-toplists.php:2494 | the byte order `sort` uses is transitive |
| Ordering.StrLeAntisymmetric | dataflair-toplists.php:2494 | two names that sort before each other are equal |
| Ordering.Insert | dataflair-toplists.php:2494 | inserting into a sorted list keeps it sorted and adds exactly one element |
| Ordering.Sort | dataflair-toplists.php:2494 | `sort` returns a sorted permutation of its input |
| Ordering.Dedupe | dataflair-toplists.php:2487-2489 | the `in_array` check leaves no duplicates and keeps every value that occurred |
| Ordering.DistinctCounts | dataflair-toplists.php:2487-2489 | a duplicate-free list holds each value at most once |
| Ordering.RepeatCounts | dataflair-toplists.php:2487-2489 | a value at two positions occurs at least twice |
| Ordering.DistinctPermutation | dataflair-toplists.php:2494 | sorting a duplicate-free list keeps it duplicate-free |
| AltToplists.Save | dataflair-toplists.php:2361-2425 | a zero toplist id, an empty geo or a zero alternative is "Missing required parameters"; a failed write is "Failed to save alternative toplist: " plus the error; otherwise the (toplist, geo) row holds the alternative and the new update time, an update keeps id and creation time, an insert takes the new id, and no other row changes |
| AltToplists.Delete | dataflair-toplists.php:2430-2456 | id 0 is "Invalid ID", a failed write is "Failed to delete alternative toplist"; otherwise exactly the rows with that id are gone and the rest are unchanged |
| AltToplists.ForToplist | dataflair-toplists.php:2331-2356 | toplist id 0 is "Invalid toplist ID"; otherwise the geos mapped are exactly those with a row for the toplist, each to its alternative |
| AltToplists.SaveThenList | dataflair-toplists.php:2361-2425 | after a successful save, listing the toplist shows the saved alternative for that geo |
| AltToplists.SaveTwiceKeepsRow | dataflair-toplists.php:2391-2402 | saving the same mapping twice gives the same rows as once, apart from the later update time |
| AltToplists.GeoNames | dataflair-toplists.php:2479-2492 | a name is collected exactly when some stored toplist sets `data.geo.name` to it |
| AltToplists.AvailableGeos | dataflair-toplists.php:2461-2497 | the available geos are sorted, duplicate-free, and exactly the geo names of the stored toplists |
| AdminFilters.SelectedValues | assets/admin.js:248-257 | the selected values of a control, without empties; none when the control has no value |
| AdminFilters.NonEmptyValues | assets/admin.js:248-257 | exactly the non-empty selected values are kept |
| AdminFilters.CheckList | assets/admin.js:339-385 | a list passes exactly when nothing is selected or some selected value is in the row's list |
| AdminFilters.RowMatches | assets/admin.js:339-385 | a row without brand data never matches; otherwise it matches exactly when licenses, geos and payment methods all pass |
| AdminFilters.EmptySelectionMatchesAll | assets/admin.js:339-385 | with nothing selected, every row that has brand data is shown |
| AdminFilters.AnyOfGrows | assets/admin.js:339-385 | selecting more values in a control never hides a row that matched on it |
| AdminPagination.ItemsPerPage | assets/admin.js:598-603 | an unparsable or zero choice falls back to 20 rows per page; any other number is used |
| AdminPagination.TotalPages | assets/admin.js:387-435 | the page count is the fewest pages of `perPage` rows that hold every matching row, and 0 only when nothing matches |
| AdminPagination.Clamp | assets/admin.js:407-420 | the current page is put back into range: the last page when beyond it, 1 when there are no pages, unchanged when valid |
| AdminPagination.Update | assets/admin.js:387-435 | after an update the page count is the ceiling of matching rows over page size, the current page is in range, and a current page that is still valid is kept |
| AdminPagination.First | assets/admin.js:529-536 | the first-page button goes to page 1 |
| AdminPagination.Prev | assets/admin.js:538-545 | the previous button moves back one page only when not on the first |
| AdminPagination.Next | assets/admin.js:547-556 | the next button moves on one page only when before the last |
| AdminPagination.Last | assets/admin.js:558-567 | the last-page button goes to the last page when there is one |
| AdminPagination.GoTo | assets/admin.js:569-595 | an entered page is taken only when it is a number between 1 and the page count |
| AdminPagination.NavigationStaysValid | assets/admin.js:529-595 | no sequence of clicks and entries takes the current page out of range or changes the page count |
| AdminPagination.DisplayPage | assets/admin.js:437-465 | a row is shown exactly when it matches and its index among the matching rows lies in the page's window; no more than `perPage` rows are shown |
| AdminPagination.ShownRows | assets/admin.js:437-465 | the rows shown are the part of the page's window the matching rows reach |
| AdminSort.Toggle | assets/admin.js:276-281 | a click on the sorted column flips its direction; a click on another column sorts it ascending |
| AdminSort.ToggleTwice | assets/admin.js:276-281 | two clicks on the sorted column restore its direction |
| AdminSort.ParseIntOfIntToString | assets/admin.js:295-330 | `parseInt` reads back the decimal text of every integer count |
| AdminSort.ParseIntHexPrefix | assets/admin.js:309 | with no radix argument, "0x" followed by hexadecimal digits is read in base 16 |
| AdminSort.ParseIntSkipsSpace | assets/admin.js:309 | white space in front of the number, in JavaScript's sense, does not change what is read |
| AdminSort.Compare | assets/admin.js:295-330 | names compare by JavaScript's `<` and `>`, which order the names' UTF-16 code units, and counts compare numerically; both are reversed when descending; an unknown column compares every pair equal |
| JsStrings.CodeUnits | assets/admin.js:305-307 | a character up to U+FFFF is one code unit; a larger one is a high surrogate followed by a low surrogate |
| JsStrings.CodeUnitsDecode | assets/admin.js:305-307 | a surrogate pair decodes back to the character it encodes |
| JsStrings.UnitsLtAsymmetric | assets/admin.js:305-307 | no code-unit sequence sorts before another and after it |
| JsStrings.LessAsymmetric | assets/admin.js:305-307 | `a < b` and `b < a` never both hold for two names |
| JsStrings.LessAgreesBelowSurrogates | assets/admin.js:305-307 | on names made only of characters up to U+FFFF, JavaScript's order is the character order |
| JsStrings.SupplementaryBeforeFullwidth | assets/admin.js:305-307 | U+1F600 sorts before U+FF21 in JavaScript, although its code point is larger |
| AdminSort.InsertLast | assets/admin.js:295-330 | inserting a row behind its equals keeps the rows in comparator order and adds exactly that row |
| AdminSort.SortRows | assets/admin.js:295-330 | the sorted rows are in comparator order and are a permutation of the input |
| AdminSort.UnknownFieldKeepsOrder | assets/admin.js:295-330 | sorting on a column the comparator does not know leaves the rows in their order |
| AdminSort.MatchingCount | assets/admin.js:387-435 | no more rows match than there are rows |
| AdminSort.InsertKeepsMatching | assets/admin.js:295-330 | inserting a row adds one match exactly when that row matches |
| AdminSort.SortKeepsMatching | assets/admin.js:295-330 | sorting does not change how many rows pass the filters |
| AdminSort.SortBrands | assets/admin.js:295-330 | the rows end up sorted and permuted, the current page is 1, and the page count is that of the matching rows |
| CasinoKeys.CasinoKey | includes/render-casino-card.php:77 | a card key starts with "casino-" and is made of the position, a dash and the slug |
| CasinoKeys.ParseCasinoKeyRoundTrip | src/index.js:312 | the key of a numeric position reads back to that position and slug |
| CasinoKeys.CasinoKeyInjective | dataflair-toplists.php:3105 | two cards with different positions or slugs get different keys |
| CasinoKeys.CasinoKeySameSlot | src/index.js:312 | for one position, two keys are equal exactly when their slugs are |
| CasinoCard.FirstOr | includes/render-casino-card.php:107-117 | an `if (!empty) .. elseif` chain yields the first non-empty source, or the default when all are empty |
| CasinoCard.Fields | includes/render-casino-card.php:23-60 | the values of the listed keys, in order |
| CasinoCard.NestedLogo | includes/render-casino-card.php:23-60 | an array logo yields its first non-empty sub-key among rectangular, square, url, src, path, 0, and nothing when none is set |
| CasinoCard.ScanLogo | includes/render-casino-card.php:23-60 | the first logo key holding a non-empty string, or an array with a set sub-key, decides the logo; with none the logo is "" |
| CasinoCard.LogoSource | includes/render-casino-card.php:19-21 | a non-empty `local_logo` wins over every other key |
| CasinoCard.LogoUrl | includes/render-casino-card.php:64-68 | a non-empty string logo is escaped; an empty or array logo gives "" |
| CasinoCard.LocalLogoWins | includes/render-casino-card.php:15-68 | with a non-empty string `local_logo`, the card shows it escaped whatever the other keys hold |
| CasinoCard.FirstStringLogoKeyWins | includes/render-casino-card.php:23-68 | when no earlier key decides, the first logo key holding a non-empty string is the logo |
| CasinoCard.NonBlank | includes/render-casino-card.php:87-105 | the filter keeps exactly the entries that are not blank after trimming |
| CasinoCard.NonBlankCounts | includes/render-casino-card.php:93-96 | each non-blank entry is kept as many times as it occurs, and blank entries never |
| CasinoCard.NonBlankKeepsClean | includes/render-casino-card.php:87-105 | a list without blank entries passes the filter unchanged |
| CasinoCard.NonBlankAppend | includes/render-casino-card.php:93-96 | the filter keeps order: filtering a concatenation concatenates the filtered parts |
| CasinoCard.NonBlankSingle | includes/render-casino-card.php:93-96 | a single entry is kept exactly when it is a string that is not blank after trimming |
| CasinoCard.NonBlankIdempotent | includes/render-casino-card.php:87-105 | filtering twice is filtering once |
| CasinoCard.OverridePros | includes/render-casino-card.php:87-105 | the override contributes at most three pros |
| CasinoCard.Features | includes/render-casino-card.php:73-105 | at most three features: the override's non-blank pros when there are any, else the first three API features (a non-array `features` value reads as none) |
| CasinoCard.OverrideProsValue | includes/render-casino-card.php:87-97 | an override with a pros list contributes its first three non-blank pros, in order |
| CasinoCard.OverrideProsAreFeatures | includes/render-casino-card.php:73-105 | an override with a non-blank pro replaces the API features by its first three non-blank pros, each one of the override's pros |
| CasinoCard.PaymentMethods | includes/render-casino-card.php:107-117 | the first non-empty of item and brand `payment_methods`/`paymentMethods`, else [] |
| CasinoCard.CardCasinoUrl | includes/render-casino-card.php:137-146 | the first non-empty of offer tracking URL, offer URL and brand URL decides; an array there or no URL at all gives "#"; a string is escaped |
| CasinoCard.ArrayTrackingUrlStops | includes/render-casino-card.php:137-146 | an array `tracking_url` gives "#" even when a later source holds a URL |
| CasinoCard.CasinoUrl | dataflair-toplists.php:2722-2744 | the first non-empty of six link sources, passed through the filter hook, with "#" when the hook returns something empty |
| CasinoCard.NoLinkGivesHash | dataflair-toplists.php:2722-2744 | with the hook passing values through and no link anywhere, the card points at "#" |
| CasinoCard.ReviewSlug | includes/render-casino-card.php:155 | the review slug is the brand slug, else the sanitized name |
| CasinoCard.ReviewUrl | includes/render-casino-card.php:148-163 | a non-empty preset review URL wins; otherwise a non-empty, non-array `review_url` is escaped and used, and failing that the home URL of /reviews/{slug}/; whichever of these comes out empty is replaced by the casino URL |
| CasinoCard.ResolveProsCons | dataflair-toplists.php:3104-3117 | without an override the API pros and cons are used; with one, each list it sets is used as is, even when empty |
| CasinoCard.Shown | dataflair-toplists.php:3120-3144 | the lines printed are exactly the non-blank entries, each as many times as it occurs |
| CasinoCard.ShownAppend | dataflair-toplists.php:3126-3142 | the lines printed for two lists one after the other are each list's lines in order, repeats included |
| CasinoCard.CardUsesItsOverride | dataflair-toplists.php:3105-3112 | the card at position p finds the override stored under `casino-{p}-{slug of its escaped name}`: its non-blank pros, at most three, are the features and its pros list is the pros |
| CasinoCard.OtherCardsOverrideIgnored | dataflair-toplists.php:3105-3117 | an override stored under another position's or another brand's key leaves the card with the API features and lists |
| CasinoCard.EditorKeyMatchesIff | dataflair-toplists.php:3535 | the key the editor saves under (slug of the raw name) is the key the card reads (slug of the HTML-escaped name) exactly when the two slugs agree |
| CasinoCard.EditorOverrideReachesCard | dataflair-toplists.php:3105-3106 | the card reads an editor-saved override exactly when the two slugs agree, and reads nothing otherwise |
| CasinoCard.EditorOverrideLost | dataflair-toplists.php:3105-3117 | when escaping changes the slug, the card shows the API's features and pros/cons despite the editor's override |
| CasinoCard.EmptyOverrideHidesApiPros | dataflair-toplists.php:3104-3117 | an override whose pros are [] hides the API pros entirely |
| ProsConsEditor.EntryOf | src/index.js:64-74 | a card without an entry reads as empty pros and cons |
| ProsConsEditor.WithField | src/index.js:64-74 | replacing one list leaves the other list of the entry alone |
| ProsConsEditor.SetAt | src/index.js:76-88 | element `index` takes the value, other elements stay, and positions skipped past the end become "" |
| ProsConsEditor.RemoveAt | src/index.js:103-115 | `splice(index, 1)` drops element `index` and shifts the rest; an index past the end removes nothing |
| ProsConsEditor.UpdateProsCons | src/index.js:64-74 | one list of one card is replaced; its other list and every other card stay |
| ProsConsEditor.UpdateProsConsArray | src/index.js:76-88 | one line of one list is set; its other list and every other card stay |
| ProsConsEditor.AddProsConsItem | src/index.js:90-101 | one empty line is appended to one list; its other list and every other card stay |
| ProsConsEditor.RemoveProsConsItem | src/index.js:103-115 | one line is removed from one list, shortening it by one when it existed; its other list and every other card stay |
| ProsConsEditor.AddThenRemove | src/index.js:90-115 | adding a line then removing that same line gives the list back |
| ProsConsEditor.SetSameValue | src/index.js:76-88 | setting a line to its current value leaves the entry unchanged |
| ProsConsEditor.SeedEdit | src/index.js:350-366 | the first edit of a card without an override copies the API list with the edited line set and starts the other list empty |
| ProsConsEditor.SeedAdd | src/index.js:383-393 | the first "+ Add" on a card without an override copies the API list plus an empty line and starts the other list empty |
| ProsConsEditor.FirstProEditSeedsFromApi | src/index.js:350-366 | a first pro edit keeps every other API pro, sets the edited one, and stores no cons |
| ProsConsEditor.SeededThenEdited | src/index.js:350-369 | after seeding, further edits change the stored override line by line |
| DbVersion.FirstMatch | dataflair-toplists.php:3562 | `preg_match` finds the leftmost position where digits.digits.digits match, or reports that none does |
| DbVersion.SupportsJson | dataflair-toplists.php:3549-3581 | an empty version or one with no x.y.z supports nothing; otherwise JSON is supported from 10.2.7 on MariaDB and from 5.7.8 on MySQL |
| DbVersion.AtLeastTransitive | dataflair-toplists.php:3567-3576 | every release at or after a release that passes a threshold passes it too |
| DbVersion.DotRunOf | dataflair-toplists.php:3562 | a digit run followed by a dot is read as its value and the text after the dot |
| DbVersion.MatchDigits | dataflair-toplists.php:3562 | "a.b.c" followed by a non-digit matches as (a, b, c) |
| DbVersion.MatchVersionText | dataflair-toplists.php:3562-3568 | a version string starting "a.b.c" is read as (a, b, c) |
| DbVersion.MySqlThreshold | dataflair-toplists.php:3570-3577 | a MySQL server reporting "a.b.c..." supports JSON exactly when a.b.c is 5.7.8 or later |

## Left out

- HTTP requests, response decoding, nonces, capability checks, `error_log`, cron scheduling and the admin page markup: the model starts from decoded responses and ends at the data the templates print.
- Table creation, migrations and the rest of the DDL: each table is a map keyed by its unique key, `api_brand_id` for brands and (toplist id, geo) for alternatives.
- `sanitize_title`, `esc_url`, `esc_html`, `home_url`, `apply_filters`, `$wpdb` query execution, database write outcomes and the per-endpoint fetch (`fetch_and_store_toplist`): these are function parameters, because their code is WordPress's, not the plugin's.
- Numbers in decoded JSON: they are carried as their text (`Values.Str`), so `floatval` ratings and integer ids arriving as JSON numbers are not distinguished from strings.
- The order of keys in PHP keyed arrays: a keyed-array (`Obj`) pros or features value is treated as holding no list entries.
- Non-string pros or features entries are treated as blank; PHP 8 would raise a TypeError on `trim(array)`.
- BrandSync.SyncAllBrands: the HTTP pages are given as a sequence of responses, and a page past the end counts as a failed request; `intval` of `last_page` is taken as already done.
- BrandSync.SyncBrandsPage: `total_synced`, the count of Active rows read back from the table, is not returned.
- AltToplists.Save: geos are compared as exact strings. The table's `geo` column uses the site's collation (`$charset_collate`), which WordPress makes case-insensitive by default, so the database treats "UK" and "uk" as one key and updates one row where the model inserts a second.
- AltToplists.Save: the `geo` argument is the text after `sanitize_text_field`; that WordPress function is not modelled.
- AltToplists.ForToplist: returns a map from geo to alternative; the `ORDER BY geo` of the listing and the full row contents are not modelled.
- AltToplists.GeoNames: a geo name that is not a string is skipped; PHP's loose `in_array` equality between numeric strings is not modelled.
- Ordering.Sort: PHP `sort` compares numeric strings as numbers; the model uses the byte order, which is what it does for non-numeric geo names.
- AdminPagination.TotalPages: requires a positive page size; a negative `parseInt` result for the page size is not modelled.
- AdminSort.SortRows: stability is stated only for a column the comparator does not know (UnknownFieldKeepsOrder), not for equal keys in general.
- `parseInt` results are unbounded integers here; JavaScript returns a double, which rounds digit runs beyond 2^53.
- AdminSort.Compare: jQuery's `.data()` converts numeric-looking names to numbers; names are compared as strings here.
- CasinoCard.EditorKeyMatchesIff: `sanitize_title` and `esc_html` are parameters, so the model states when the editor's key and the card's key agree but does not decide which brand names break that. By WordPress's `sanitize_title_with_dashes`, which removes `&...;` entities, a name such as "Spin & Win; Casino" gives two different slugs, and the card then ignores the editor's override.
- Shortcode.Render: stored items that are not a list are treated as invalid data; the template markup is not modelled.
- Shortcode.Render: `limit` is the integer the attribute denotes. The shortcode passes the attribute text itself to `> 0` and `array_slice` (dataflair-toplists.php:2637-2638), and only the block path applies `intval` (dataflair-toplists.php:3431). Under PHP 8, non-numeric text such as `limit="abc"` passes the `> 0` test as a string comparison and then makes `array_slice` throw a TypeError; the model has no such error path.
- CasinoCard.Features: a non-empty `features` value that is not an array (a string such as "abc") is read here as no entries, so the card has no features. Under PHP 8, `array_slice($item['features'], 0, 3)` throws a TypeError for it (includes/render-casino-card.php:102-103).
- The block editor's network fetch of the toplist, the inspector controls and the block's save function are not modelled; only the pros/cons attribute updates are.
- The remaining template output of `render_casino_card` (ratings, bonus text, wagering, licenses text, games count) is plain printing of fields and is not modelled.
- The plugin's tests and `uninstall.php` are not part of this model.

## Findings

| source | as written | input that shows it | evidently intended | confidence | as-written member | corrected member |
|---|---|---|---|---|---|---|
| dataflair-toplists.php:2916 | the CTA hover class is `'hover:' . $build_class('bg', $cta_hover_bg)`, but `$build_class` passes values that already start with `hover:bg-` through unchanged | `ctaHoverBgColor` = "hover:bg-blue-700", the form the editor's help text (src/index.js:250) asks for, renders "hover:hover:bg-blue-700", which Tailwind does not recognise | add the `hover:` variant only when the class does not already carry it | not executed | Tailwind.HoverClassAsWritten, Tailwind.HoverClassDoublesPrefix | Tailwind.HoverClass, Tailwind.HoverClassKeepsSingleVariant |
