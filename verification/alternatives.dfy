/**
 * Alternative toplists: for a toplist and a geo (a country or market name),
 * the toplist to show instead. Rows live in a table whose unique key is
 * (toplist_id, geo), so the model keeps them in a map on that pair.
 */
module AltToplists {
  import opened Common
  import PhpStrings
  import Values
  import Ordering

  datatype AltKey = AltKey(toplistId: int, geo: string)

  datatype AltRow = AltRow(id: int, alternativeId: int, createdAt: string, updatedAt: string)

  type AltTable = map<AltKey, AltRow>

  const MissingParams: string := "Missing required parameters"
  const SaveFailed: string := "Failed to save alternative toplist: "
  const InvalidId: string := "Invalid ID"
  const DeleteFailed: string := "Failed to delete alternative toplist"
  const InvalidToplistId: string := "Invalid toplist ID"

  /**
   * Save the mapping (toplistId, geo) -> alternativeId. An existing mapping
   * is updated in place; otherwise a row with the database's next id `newId`
   * is inserted. `geo` is the posted text after `sanitize_text_field`, and
   * geos are compared as exact strings. `now` is the current time, `dbError`
   * the database's last error and `writeOk` whether the write went through.
   */
  function Save(table: AltTable, toplistId: int, geo: string, alternativeId: int,
                now: string, newId: int, writeOk: bool, dbError: string): (r: Result<AltTable>)
    ensures toplistId == 0 || PhpStrings.IsEmpty(geo) || alternativeId == 0 ==> r == Err(MissingParams)
    ensures toplistId != 0 && !PhpStrings.IsEmpty(geo) && alternativeId != 0 && !writeOk ==>
      r == Err(SaveFailed + dbError)
    ensures r.Ok? <==> toplistId != 0 && !PhpStrings.IsEmpty(geo) && alternativeId != 0 && writeOk
    ensures r.Ok? ==>
      var k := AltKey(toplistId, geo);
      && r.value.Keys == table.Keys + {k}
      && r.value[k].alternativeId == alternativeId
      && r.value[k].updatedAt == now
      && (k in table ==> r.value[k].id == table[k].id && r.value[k].createdAt == table[k].createdAt)
      && (k !in table ==> r.value[k].id == newId && r.value[k].createdAt == now)
      && (forall o :: o in table && o != k ==> r.value[o] == table[o])
  {
    if toplistId == 0 || PhpStrings.IsEmpty(geo) || alternativeId == 0 then Err(MissingParams)
    else
      var k := AltKey(toplistId, geo);
      var row :=
        if k in table then table[k].(alternativeId := alternativeId, updatedAt := now)
        else AltRow(newId, alternativeId, now, now);
      if writeOk then Ok(table[k := row]) else Err(SaveFailed + dbError)
  }

  /** Delete the row whose primary key is `id`; a missing id deletes nothing. */
  function Delete(table: AltTable, id: int, writeOk: bool): (r: Result<AltTable>)
    ensures id == 0 ==> r == Err(InvalidId)
    ensures id != 0 && !writeOk ==> r == Err(DeleteFailed)
    ensures r.Ok? <==> id != 0 && writeOk
    ensures r.Ok? ==> forall k :: k in r.value <==> k in table && table[k].id != id
    ensures r.Ok? ==> forall k :: k in r.value ==> r.value[k] == table[k]
  {
    if id == 0 then Err(InvalidId)
    else if !writeOk then Err(DeleteFailed)
    else Ok(map k | k in table && table[k].id != id :: table[k])
  }

  /** The geo -> alternative toplist mappings of one toplist. */
  function ForToplist(table: AltTable, toplistId: int): (r: Result<map<string, int>>)
    ensures toplistId == 0 <==> r == Err(InvalidToplistId)
    ensures r.Ok? ==> forall g :: g in r.value <==> AltKey(toplistId, g) in table
    ensures r.Ok? ==> forall g :: g in r.value ==> r.value[g] == table[AltKey(toplistId, g)].alternativeId
  {
    if toplistId == 0 then Err(InvalidToplistId)
    else Ok(map k | k in table && k.toplistId == toplistId :: k.geo := table[k].alternativeId)
  }

  /** Saving then listing a toplist's mappings shows the saved alternative for that geo. */
  lemma SaveThenList(table: AltTable, toplistId: int, geo: string, alternativeId: int,
                     now: string, newId: int, dbError: string)
    requires toplistId != 0 && !PhpStrings.IsEmpty(geo) && alternativeId != 0
    ensures Save(table, toplistId, geo, alternativeId, now, newId, true, dbError).Ok?
    ensures
      var t := Save(table, toplistId, geo, alternativeId, now, newId, true, dbError).value;
      var l := ForToplist(t, toplistId);
      l.Ok? && geo in l.value && l.value[geo] == alternativeId
  {
  }

  /** Saving the same mapping twice leaves the same table as saving it once, apart from the update time. */
  lemma SaveTwiceKeepsRow(table: AltTable, toplistId: int, geo: string, alternativeId: int,
                          t1: string, t2: string, newId1: int, newId2: int, dbError: string)
    requires toplistId != 0 && !PhpStrings.IsEmpty(geo) && alternativeId != 0
    ensures
      var once := Save(table, toplistId, geo, alternativeId, t1, newId1, true, dbError).value;
      var twice := Save(once, toplistId, geo, alternativeId, t2, newId2, true, dbError).value;
      var k := AltKey(toplistId, geo);
      twice == once[k := once[k].(updatedAt := t2)]
  {
  }

  /**
   * `$toplist_data['data']['geo']['name']` of one stored toplist, when it is
   * set and a string. `data` is the decoded `data` column, `Null` when the
   * column is empty or does not decode.
   */
  function GeoName(data: Values.Value): Option<string> {
    match Values.Get(Values.Get(Values.Get(data, "data"), "geo"), "name")
    case Str(s) => Some(s)
    case _ => None
  }

  /** Every geo name set in the stored toplists, in table order. */
  function GeoNames(rows: seq<Values.Value>): (r: seq<string>)
    ensures forall g :: g in r <==> exists i :: 0 <= i < |rows| && GeoName(rows[i]) == Some(g)
  {
    if |rows| == 0 then []
    else
      var init := GeoNames(rows[..|rows| - 1]);
      var last := rows[|rows| - 1];
      assert forall i :: 0 <= i < |rows| - 1 ==> rows[..|rows| - 1][i] == rows[i];
      match GeoName(last)
      case Some(g) => init + [g]
      case None => init
  }

  /** The geo names used by the stored toplists, de-duplicated and sorted. */
  function AvailableGeos(rows: seq<Values.Value>): (r: seq<string>)
    ensures Ordering.Sorted(r)
    ensures Ordering.Distinct(r)
    ensures forall g :: g in r <==> exists i :: 0 <= i < |rows| && GeoName(rows[i]) == Some(g)
  {
    var d := Ordering.Dedupe(GeoNames(rows));
    var r := Ordering.Sort(d);
    Ordering.DistinctPermutation(d, r);
    assert forall g :: g in r <==> g in multiset(d);
    r
  }
}
