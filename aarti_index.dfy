/**
 * The flat indexer, `generateAartiList`: one record per readable `.json`
 * file of the aarti directory, sorted by id.
 */
module AartiIndex {
  import opened Wrappers
  import opened JsonValues
  import opened Strings
  import opened Listing
  import opened NaturalOrder

  /** One record of `index.json`; a field the file lacks stays `undefined` (None). */
  datatype Aarti = Aarti(
    id: Option<Json>,
    title: Option<Json>,
    artist: Option<Json>,
    category: Option<Json>,
    subtitle: Json,
    file: string)

  /**
   * The map callback for one `.json` entry: the record, or None for the
   * `null` it returns when the text is blank or the read or parse throws.
   * Parsed `null` is skipped too: reading `data.id` of it throws inside the
   * same `try`.
   */
  function ReadAarti(e: Entry): (r: Option<Aarti>)
    ensures r.Some? <==> e.content.Parsed? && !e.content.data.JNull?
    ensures r.Some? ==> r.value.file == e.name
    ensures r.Some? ==>
      var data := e.content.data;
      && r.value.id == Get(data, "id")
      && r.value.title == Get(data, "title")
      && r.value.artist == Get(data, "artist")
      && r.value.category == Get(data, "category")
      && (Truthy(Get(data, "subtitle")) ==> Some(r.value.subtitle) == Get(data, "subtitle"))
      && (!Truthy(Get(data, "subtitle")) ==> r.value.subtitle == JStr(""))
    ensures r.Some? ==> r.value.subtitle == JStr("") || Truthy(Some(r.value.subtitle))
  {
    match e.content
    case Parsed(data) =>
      if data.JNull? then None
      else
        Some(Aarti(
          Get(data, "id"),
          Get(data, "title"),
          Get(data, "artist"),
          Get(data, "category"),
          OrElse(Get(data, "subtitle"), JStr("")),
          e.name))
    case _ => None
  }

  /** An entry that produces a record: a `.json` name and parsed content other than `null`. */
  predicate Yields(e: Entry) {
    IsJsonFile(e) && e.content.Parsed? && !e.content.data.JNull?
  }

  /** `files.filter(endsWith('.json')).map(ReadAarti).filter(Boolean)`. */
  function Collected(entries: seq<Entry>): (records: seq<Aarti>)
    ensures |records| <= |entries|
    ensures forall k :: 0 <= k < |records| ==> EndsWith(records[k].file, JsonSuffix)
  {
    if entries == [] then []
    else
      (if IsJsonFile(entries[0]) then OptionToSeq(ReadAarti(entries[0])) else [])
      + Collected(entries[1..])
  }

  predicate HasTextId(a: Aarti) {
    a.id.Some? && a.id.value.JStr?
  }

  /** The sort key; only consulted when every record compared has a text id. */
  function IdKey(a: Aarti): string {
    if HasTextId(a) then a.id.value.s else ""
  }

  /**
   * `a.id.localeCompare(...)` throws a TypeError when `a.id` is not a string,
   * outside the per-file `try`, and that error aborts the whole run. A sort
   * compares only when there are at least two records.
   */
  predicate SortMayThrow(records: seq<Aarti>) {
    |records| >= 2 && exists k :: 0 <= k < |records| && !HasTextId(records[k])
  }

  /** What one run of the flat indexer leaves behind. */
  datatype Outcome =
    | DirectoryMissing            // warning printed, `index.json` not written
    | Written(index: seq<Aarti>)  // the array written to `index.json`
    | Aborted                     // the sort threw; nothing written

  /** `generateAartiList`, given the listing of the aarti directory (None when it does not exist). */
  function AartiList(listing: Option<seq<Entry>>): (r: Outcome)
    ensures r.DirectoryMissing? <==> listing.None?
    ensures r.Written? ==>
      && SortedBy(r.index, IdKey)
      && multiset(r.index) == multiset(Collected(listing.value))
    ensures r.Aborted? ==> exists k :: 0 <= k < |Collected(listing.value)| && !HasTextId(Collected(listing.value)[k])
  {
    match listing
    case None => DirectoryMissing
    case Some(entries) =>
      var records := Collected(entries);
      if SortMayThrow(records) then Aborted else Written(SortBy(records, IdKey))
  }

  // ---------------------------------------------------------------------
  // What each entry contributes
  // ---------------------------------------------------------------------

  lemma {:induction false} CollectedAppend(a: seq<Entry>, b: seq<Entry>)
    ensures Collected(a + b) == Collected(a) + Collected(b)
  {
    if a == [] {
      assert a + b == b;
    } else {
      var e := a[0];
      var head := if IsJsonFile(e) then OptionToSeq(ReadAarti(e)) else [];
      assert (a + b)[0] == e;
      assert (a + b)[1..] == a[1..] + b;
      assert Collected(a + b) == head + Collected(a[1..] + b);
      CollectedAppend(a[1..], b);
      assert Collected(a) == head + Collected(a[1..]);
    }
  }

  /**
   * Wherever it stands in the listing, an entry contributes exactly its own
   * record in its own place when it yields one, and nothing otherwise: a name
   * not ending in `.json`, blank text, a failed read or parse, or `null`.
   */
  lemma EntryContribution(before: seq<Entry>, e: Entry, after: seq<Entry>)
    ensures Yields(e) ==>
      Collected(before + [e] + after) == Collected(before) + [ReadAarti(e).value] + Collected(after)
    ensures !Yields(e) ==>
      Collected(before + [e] + after) == Collected(before + after)
  {
    CollectedAppend(before + [e], after);
    CollectedAppend(before, [e]);
    CollectedAppend(before, after);
    CollectedSingle(e);
  }

  lemma CollectedSingle(e: Entry)
    ensures Yields(e) ==> Collected([e]) == [ReadAarti(e).value]
    ensures !Yields(e) ==> Collected([e]) == []
  {
    assert [e][1..] == [];
    assert Collected([e]) == (if IsJsonFile(e) then OptionToSeq(ReadAarti(e)) else []) + Collected([]);
  }

  /** The number of entries that yield a record. */
  function CountYielding(entries: seq<Entry>): nat {
    if entries == [] then 0 else (if Yields(entries[0]) then 1 else 0) + CountYielding(entries[1..])
  }

  /** One record per yielding entry: skipped files are not counted. */
  lemma {:induction false} CollectedCount(entries: seq<Entry>)
    ensures |Collected(entries)| == CountYielding(entries)
  {
    if entries != [] {
      CollectedCount(entries[1..]);
    }
  }

  /** A record is collected exactly when some yielding entry of the listing produced it. */
  lemma {:induction false} CollectedMembers(entries: seq<Entry>, a: Aarti)
    ensures a in Collected(entries) <==> exists e :: e in entries && Yields(e) && ReadAarti(e) == Some(a)
  {
    if entries != [] {
      CollectedMembers(entries[1..], a);
      assert entries == [entries[0]] + entries[1..];
      if (exists e :: e in entries[1..] && Yields(e) && ReadAarti(e) == Some(a)) {
        var e :| e in entries[1..] && Yields(e) && ReadAarti(e) == Some(a);
        assert e in entries;
      }
    }
  }

  // ---------------------------------------------------------------------
  // The written index
  // ---------------------------------------------------------------------

  /**
   * The written index is the collected records ordered by id under the
   * natural comparator, none lost or repeated, and records with equivalent
   * ids in listing order.
   */
  lemma AartiListSorted(entries: seq<Entry>)
    requires AartiList(Some(entries)).Written?
    ensures var index := AartiList(Some(entries)).index;
      && SortedBy(index, IdKey)
      && multiset(index) == multiset(Collected(entries))
      && |index| == CountYielding(entries)
      && forall k :: Ties(index, IdKey, k) == Ties(Collected(entries), IdKey, k)
  {
    var records := Collected(entries);
    SortByLength(records, IdKey);
    CollectedCount(entries);
    forall k ensures Ties(SortBy(records, IdKey), IdKey, k) == Ties(records, IdKey, k) {
      SortByStable(records, IdKey, k);
    }
  }

  /** Every record of the written index comes from one yielding entry, and every yielding entry has its record there. */
  lemma AartiListMembers(entries: seq<Entry>, a: Aarti)
    requires AartiList(Some(entries)).Written?
    ensures a in AartiList(Some(entries)).index <==>
      exists e :: e in entries && Yields(e) && ReadAarti(e) == Some(a)
  {
    var records := Collected(entries);
    CollectedMembers(entries, a);
    assert a in SortBy(records, IdKey) <==> a in multiset(SortBy(records, IdKey));
  }

  /** The listing of a missing directory writes nothing; text ids in every yielding file mean the index is written. */
  lemma {:induction false} AartiListWritten(entries: seq<Entry>)
    ensures AartiList(None) == DirectoryMissing
    ensures (forall e :: e in entries && Yields(e) ==>
               var id := Get(e.content.data, "id"); id.Some? && id.value.JStr?)
            ==> AartiList(Some(entries)).Written?
  {
    if forall e :: e in entries && Yields(e) ==> var id := Get(e.content.data, "id"); id.Some? && id.value.JStr? {
      var records := Collected(entries);
      forall k | 0 <= k < |records| ensures HasTextId(records[k]) {
        CollectedMembers(entries, records[k]);
      }
    }
  }
}
