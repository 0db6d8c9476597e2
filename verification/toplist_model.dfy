/**
 * The read side of a toplists-table row (`Toplist` in includes/Toplist.php):
 * the casino items inside the stored API payload, and the staleness test.
 * The clock and `strtotime` are inputs: a timestamp that did not parse is `None`.
 */
module ToplistModel {
  import opened Common
  import opened Values

  const SecondsPerDay: int := 24 * 60 * 60
  const DefaultStaleDays: int := 3

  /** `$data['data']['items']`, when it is set (present and not null). */
  function ItemsOf(data: Value): Value {
    Get(Get(data, "data"), "items")
  }

  /**
   * `getItems()`. `decoded` is `getData()`: the decoded `data` column, or
   * `None` when the column is empty or not valid JSON.
   */
  function GetItems(decoded: Option<Value>): (r: Value)
    ensures decoded.None? ==> r == List([])
    ensures decoded.Some? && IsEmpty(decoded.value) ==> r == List([])
    ensures decoded.Some? && ItemsOf(decoded.value) == Null ==> r == List([])
    ensures decoded.Some? && !IsEmpty(decoded.value) && ItemsOf(decoded.value) != Null
            ==> r == decoded.value.fields["data"].fields["items"]
  {
    match decoded
    case None => List([])
    case Some(data) =>
      if IsEmpty(data) || ItemsOf(data) == Null then List([]) else ItemsOf(data)
  }

  /**
   * `isStale($days = 3)`: true when `last_synced` does not parse (or parses
   * to 0, which PHP also reads as false), otherwise when more than `days`
   * whole days have passed.
   */
  function IsStale(lastSynced: Option<int>, now: int, days: int := DefaultStaleDays): (r: bool)
    ensures lastSynced.None? ==> r
    ensures lastSynced == Some(0) ==> r
    ensures lastSynced.Some? && lastSynced.value != 0 ==> (r <==> now - lastSynced.value > days * SecondsPerDay)
  {
    match lastSynced
    case None => true
    case Some(t) => if t == 0 then true else now - t > days * SecondsPerDay
  }

  /** A row synced within the period is not stale, and staleness never reverts as time passes. */
  lemma StaleIsMonotone(lastSynced: Option<int>, now: int, later: int, days: int)
    requires now <= later
    requires IsStale(lastSynced, now, days)
    ensures IsStale(lastSynced, later, days)
  {
  }
}
