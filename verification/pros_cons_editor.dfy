/**
 * The block editor's pros/cons overrides: a map from casino key to the pros
 * and cons lists the editor has set for that card. Each edit helper reads
 * the entry (or an empty one), changes one list and writes the entry back.
 * A card with no entry shows the API's lists, and its first edit seeds an
 * entry from them.
 */
module ProsConsEditor {
  import opened Common

  datatype Field = Pros | Cons

  datatype ProsCons = ProsCons(pros: seq<string>, cons: seq<string>)

  type Overrides = map<string, ProsCons>

  const Blank: ProsCons := ProsCons([], [])

  /** `prosCons || {}`: the block attribute, empty when unset. */
  function Current(attr: Option<Overrides>): Overrides {
    attr.GetOr(map[])
  }

  /** `currentProsCons[casinoKey] || { pros: [], cons: [] }`. */
  function EntryOf(m: Overrides, key: string): (r: ProsCons)
    ensures key !in m ==> r == Blank
  {
    if key in m then m[key] else Blank
  }

  function FieldOf(e: ProsCons, f: Field): seq<string> {
    match f
    case Pros => e.pros
    case Cons => e.cons
  }

  function WithField(e: ProsCons, f: Field, xs: seq<string>): (r: ProsCons)
    ensures FieldOf(r, f) == xs
    ensures f == Pros ==> r.cons == e.cons
    ensures f == Cons ==> r.pros == e.pros
  {
    match f
    case Pros => e.(pros := xs)
    case Cons => e.(cons := xs)
  }

  /**
   * `newArray[index] = value` on a copy: replaces element `index`, or
   * extends the list up to it. Slots a JavaScript array would leave as holes
   * are filled with "".
   */
  function SetAt(xs: seq<string>, index: nat, value: string): (r: seq<string>)
    ensures |r| == if index < |xs| then |xs| else index + 1
    ensures r[index] == value
    ensures forall j :: 0 <= j < |xs| && j != index ==> r[j] == xs[j]
    ensures forall j :: |xs| <= j < index ==> r[j] == ""
  {
    if index < |xs| then xs[index := value]
    else xs + seq(index - |xs|, _ => "") + [value]
  }

  /** `newArray.splice(index, 1)`: removes element `index`; an index past the end removes nothing. */
  function RemoveAt(xs: seq<string>, index: nat): (r: seq<string>)
    ensures index < |xs| ==> |r| == |xs| - 1
    ensures index < |xs| ==> forall j :: 0 <= j < |r| ==> r[j] == (if j < index then xs[j] else xs[j + 1])
    ensures index >= |xs| ==> r == xs
  {
    if index < |xs| then xs[..index] + xs[index + 1..] else xs
  }

  /** `updateProsCons`: replace one whole list of the card's entry. */
  function UpdateProsCons(attr: Option<Overrides>, key: string, f: Field, value: seq<string>): (r: Overrides)
    ensures r.Keys == Current(attr).Keys + {key}
    ensures FieldOf(r[key], f) == value
    ensures f == Pros ==> r[key].cons == EntryOf(Current(attr), key).cons
    ensures f == Cons ==> r[key].pros == EntryOf(Current(attr), key).pros
    ensures forall k :: k in Current(attr) && k != key ==> r[k] == Current(attr)[k]
  {
    var m := Current(attr);
    m[key := WithField(EntryOf(m, key), f, value)]
  }

  /** `updateProsConsArray`: set element `index` of one list. */
  function UpdateProsConsArray(attr: Option<Overrides>, key: string, f: Field, index: nat, value: string): (r: Overrides)
    ensures r.Keys == Current(attr).Keys + {key}
    ensures FieldOf(r[key], f) == SetAt(FieldOf(EntryOf(Current(attr), key), f), index, value)
    ensures f == Pros ==> r[key].cons == EntryOf(Current(attr), key).cons
    ensures f == Cons ==> r[key].pros == EntryOf(Current(attr), key).pros
    ensures forall k :: k in Current(attr) && k != key ==> r[k] == Current(attr)[k]
  {
    var m := Current(attr);
    var e := EntryOf(m, key);
    m[key := WithField(e, f, SetAt(FieldOf(e, f), index, value))]
  }

  /** `addProsConsItem`: append one empty line to a list. */
  function AddProsConsItem(attr: Option<Overrides>, key: string, f: Field): (r: Overrides)
    ensures r.Keys == Current(attr).Keys + {key}
    ensures FieldOf(r[key], f) == FieldOf(EntryOf(Current(attr), key), f) + [""]
    ensures |FieldOf(r[key], f)| == |FieldOf(EntryOf(Current(attr), key), f)| + 1
    ensures f == Pros ==> r[key].cons == EntryOf(Current(attr), key).cons
    ensures f == Cons ==> r[key].pros == EntryOf(Current(attr), key).pros
    ensures forall k :: k in Current(attr) && k != key ==> r[k] == Current(attr)[k]
  {
    var m := Current(attr);
    var e := EntryOf(m, key);
    m[key := WithField(e, f, FieldOf(e, f) + [""])]
  }

  /** `removeProsConsItem`: drop element `index` of a list. */
  function RemoveProsConsItem(attr: Option<Overrides>, key: string, f: Field, index: nat): (r: Overrides)
    ensures r.Keys == Current(attr).Keys + {key}
    ensures FieldOf(r[key], f) == RemoveAt(FieldOf(EntryOf(Current(attr), key), f), index)
    ensures index < |FieldOf(EntryOf(Current(attr), key), f)| ==>
      |FieldOf(r[key], f)| == |FieldOf(EntryOf(Current(attr), key), f)| - 1
    ensures f == Pros ==> r[key].cons == EntryOf(Current(attr), key).cons
    ensures f == Cons ==> r[key].pros == EntryOf(Current(attr), key).pros
    ensures forall k :: k in Current(attr) && k != key ==> r[k] == Current(attr)[k]
  {
    var m := Current(attr);
    var e := EntryOf(m, key);
    m[key := WithField(e, f, RemoveAt(FieldOf(e, f), index))]
  }

  /** Adding a line and then removing that same line gives the list back. */
  lemma AddThenRemove(attr: Option<Overrides>, key: string, f: Field)
    ensures
      var n := |FieldOf(EntryOf(Current(attr), key), f)|;
      var after := RemoveProsConsItem(Some(AddProsConsItem(attr, key, f)), key, f, n);
      EntryOf(after, key) == EntryOf(Current(attr), key)
  {
    var xs := FieldOf(EntryOf(Current(attr), key), f);
    assert (xs + [""])[..|xs|] == xs;
  }

  /** Setting a line to the value it already has changes nothing in the entry. */
  lemma SetSameValue(attr: Option<Overrides>, key: string, f: Field, index: nat)
    requires index < |FieldOf(EntryOf(Current(attr), key), f)|
    ensures
      var v := FieldOf(EntryOf(Current(attr), key), f)[index];
      EntryOf(UpdateProsConsArray(attr, key, f, index, v), key) == EntryOf(Current(attr), key)
  {
    var e := EntryOf(Current(attr), key);
    assert SetAt(FieldOf(e, f), index, FieldOf(e, f)[index]) == FieldOf(e, f);
  }

  // ------------------------------------------------ seeding from API lists

  /** A card has an override once the attribute holds an entry for its key. */
  predicate HasOverride(attr: Option<Overrides>, key: string) {
    key in Current(attr)
  }

  /**
   * Editing line `index` of a card that has no override yet: a new entry is
   * made from the API's list for that field with the line replaced; the other
   * list of the entry starts out empty.
   */
  function SeedEdit(attr: Option<Overrides>, key: string, f: Field, api: seq<string>,
                    index: nat, value: string): (r: Overrides)
    ensures r.Keys == Current(attr).Keys + {key}
    ensures FieldOf(r[key], f) == SetAt(api, index, value)
    ensures f == Pros ==> r[key].cons == []
    ensures f == Cons ==> r[key].pros == []
    ensures forall k :: k in Current(attr) && k != key ==> r[k] == Current(attr)[k]
  {
    Current(attr)[key := WithField(Blank, f, SetAt(api, index, value))]
  }

  /** "+ Add" on a card with no override: the API's list plus one empty line; the other list empty. */
  function SeedAdd(attr: Option<Overrides>, key: string, f: Field, api: seq<string>): (r: Overrides)
    ensures r.Keys == Current(attr).Keys + {key}
    ensures FieldOf(r[key], f) == api + [""]
    ensures f == Pros ==> r[key].cons == []
    ensures f == Cons ==> r[key].pros == []
    ensures forall k :: k in Current(attr) && k != key ==> r[k] == Current(attr)[k]
  {
    Current(attr)[key := WithField(Blank, f, api + [""])]
  }

  /** A change to line `index` of a text box: seed from the API lists, or edit the override. */
  function EditLine(attr: Option<Overrides>, key: string, f: Field, api: seq<string>,
                    index: nat, value: string): Overrides
  {
    if HasOverride(attr, key) then UpdateProsConsArray(attr, key, f, index, value)
    else SeedEdit(attr, key, f, api, index, value)
  }

  /** A click on "+ Add Pro" / "+ Add Con". */
  function AddLine(attr: Option<Overrides>, key: string, f: Field, api: seq<string>): Overrides {
    if HasOverride(attr, key) then AddProsConsItem(attr, key, f)
    else SeedAdd(attr, key, f, api)
  }

  /**
   * The first edit of a pro on a card shown with API defaults stores the
   * API pros with only that line replaced, and an empty cons list.
   */
  lemma FirstProEditSeedsFromApi(attr: Option<Overrides>, key: string, apiPros: seq<string>,
                                 index: nat, value: string)
    requires !HasOverride(attr, key)
    requires index < |apiPros|
    ensures
      var e := EditLine(attr, key, Pros, apiPros, index, value)[key];
      |e.pros| == |apiPros| && e.pros[index] == value
      && (forall j :: 0 <= j < |apiPros| && j != index ==> e.pros[j] == apiPros[j])
      && e.cons == []
  {
  }

  /** After seeding, the card has an override, so further edits go to the stored lists. */
  lemma SeededThenEdited(attr: Option<Overrides>, key: string, f: Field, api: seq<string>,
                         i: nat, v: string, j: nat, w: string)
    ensures
      var once := EditLine(attr, key, f, api, i, v);
      var twice := EditLine(Some(once), key, f, api, j, w);
      HasOverride(Some(once), key)
      && FieldOf(twice[key], f) == SetAt(FieldOf(once[key], f), j, w)
  {
  }
}
