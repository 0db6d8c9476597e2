/**
 * The data decisions of the `[dataflair_toplist]` shortcode
 * (`toplist_shortcode` in dataflair-toplists.php): argument checks, the
 * item limit, the title fallback and the stale-data notice.
 */
module Shortcode {
  import opened Common
  import opened Values
  import PhpStrings
  import ToplistModel

  /** What the shortcode reads from its toplists-table row. */
  datatype StoredToplist = StoredToplist(decoded: Option<Value>, lastSynced: Option<int>)

  /** What the template is rendered from. */
  datatype Listing = Listing(title: Value, items: seq<Value>, isStale: bool)

  const MissingIdError: string := "DataFlair Error: Toplist ID is required"
  const InvalidDataError: string := "DataFlair Error: Invalid toplist data"

  /** `array_slice($items, 0, $limit)` when the limit is positive, all items otherwise. */
  function ApplyLimit(items: seq<Value>, limit: int): (r: seq<Value>)
    ensures limit <= 0 ==> r == items
    ensures limit > 0 ==> |r| == (if limit < |items| then limit else |items|)
    ensures r == items[..|r|]
  {
    if limit > 0 then PhpStrings.Take(items, limit) else items
  }

  /**
   * The shortcode's own stale test: `time() - strtotime(last_synced)` over three
   * days, where a timestamp that does not parse counts as 0.
   */
  function ShortcodeIsStale(lastSynced: Option<int>, now: int): bool {
    now - lastSynced.GetOr(0) > ToplistModel.DefaultStaleDays * ToplistModel.SecondsPerDay
  }

  /** For a timestamp that parsed, the shortcode and `Toplist::isStale()` agree. */
  lemma ShortcodeStaleAgrees(lastSynced: Option<int>, now: int)
    requires lastSynced.Some? && lastSynced.value != 0
    ensures ShortcodeIsStale(lastSynced, now) == ToplistModel.IsStale(lastSynced, now)
  {
  }

  /**
   * The listing for shortcode attributes `id`, `title` and `limit`, with
   * `stored` the row found for `api_toplist_id = id`, if any. `limit` is the
   * integer the attribute denotes; non-numeric limit text is not modelled.
   */
  function Render(id: string, title: string, limit: int, stored: Option<StoredToplist>, now: int): (r: Result<Listing>)
    ensures PhpStrings.IsEmpty(id) ==> r == Err(MissingIdError)
    ensures !PhpStrings.IsEmpty(id) && stored.None? ==> r.Err?
    ensures r.Ok? ==> stored.Some? && stored.value.decoded.Some?
                      && ToplistModel.ItemsOf(stored.value.decoded.value).List?
    ensures r.Ok? ==> r.value.items == ApplyLimit(ToplistModel.ItemsOf(stored.value.decoded.value).items, limit)
    ensures (!PhpStrings.IsEmpty(id) && stored.Some? && stored.value.decoded.Some?
             && ToplistModel.ItemsOf(stored.value.decoded.value).List?) ==> r.Ok?
    ensures r.Ok? && !PhpStrings.IsEmpty(title) ==> r.value.title == Str(title)
    ensures r.Ok? && PhpStrings.IsEmpty(title) ==> r.value.title == Get(Get(stored.value.decoded.value, "data"), "name")
    ensures r.Ok? ==> r.value.isStale == ShortcodeIsStale(stored.value.lastSynced, now)
  {
    if PhpStrings.IsEmpty(id) then Err(MissingIdError)
    else if stored.None? then Err("DataFlair Error: Toplist ID " + id + " not found. Please sync first.")
    else
      var row := stored.value;
      match row.decoded
      case None => Err(InvalidDataError)
      case Some(data) =>
        var items := ToplistModel.ItemsOf(data);
        if !items.List? then Err(InvalidDataError)
        else
          var name := Get(Get(data, "data"), "name");
          Ok(Listing(
            if !PhpStrings.IsEmpty(title) then Str(title) else name,
            ApplyLimit(items.items, limit),
            ShortcodeIsStale(row.lastSynced, now)))
  }
}
