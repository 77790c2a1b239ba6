/**
 * The grouped indexer, `generateVartaList`: the files of one varta
 * directory, named `<prefix>_<index>_<prasang>.json`, grouped into one
 * Vaishnav per `<prefix>_<index>`, each holding its prasangs.
 */
module VartaIndex {
  import opened Wrappers
  import opened JsonValues
  import opened Strings
  import opened Listing
  import opened NaturalOrder

  /** One child record: `{ id, title, file }`. */
  datatype Prasang = Prasang(id: string, title: Option<Json>, file: string)

  /** One group record: `{ id, name, bio, prasangs }`. */
  datatype Vaishnav = Vaishnav(id: string, name: Json, bio: Json, prasangs: seq<Prasang>)

  function VaishnavId(v: Vaishnav): string { v.id }

  function PrasangId(p: Prasang): string { p.id }

  /** `filename.replace('.json', '').split('_')`. */
  function NameParts(filename: string): (parts: seq<string>)
    ensures |parts| >= 1
    ensures forall k :: 0 <= k < |parts| ==> '_' !in parts[k]
    ensures Join(parts, '_') == RemoveFirst(filename, JsonSuffix)
  {
    Split(RemoveFirst(filename, JsonSuffix), '_')
  }

  /**
   * What an accepted file contributes: its group id and prasang, and the
   * name and bio its group receives if this file is the group's first.
   */
  datatype Accepted = Accepted(vaishnavId: string, name: Json, bio: Json, prasang: Prasang)

  /**
   * The `forEach` callback's verdict on one entry. It is skipped when its
   * name does not end in `.json`, its text is blank, reading or parsing
   * throws, its base name has fewer than three parts, or the parsed value is
   * `null` (reading a property of it throws before anything is stored).
   */
  function Accept(e: Entry, folderPrefix: string): Option<Accepted> {
    if !IsJsonFile(e) || !e.content.Parsed? then None
    else
      var data := e.content.data;
      var parts := NameParts(e.name);
      if |parts| < 3 || data.JNull? then None
      else
        Some(Accepted(
          parts[0] + "_" + parts[1],
          OrElse(Get(data, "vaishnavName"), JStr("Vaishnav " + parts[1])),
          OrElse(Get(data, "bio"), JStr("")),
          Prasang(parts[2], Get(data, "title"), folderPrefix + "/" + e.name)))
  }

  /**
   * A prasang file name needs at least two underscores once its first
   * `.json` is removed; a name with fewer is skipped and processing goes on.
   */
  lemma {:induction false} AcceptConditions(e: Entry, folderPrefix: string)
    ensures Accept(e, folderPrefix).Some? <==>
      && IsJsonFile(e)
      && e.content.Parsed?
      && !e.content.data.JNull?
      && Count(RemoveFirst(e.name, JsonSuffix), '_') >= 2
  {
  }

  /**
   * What an accepted file yields: the group id is the first two parts of its
   * base name joined by one underscore (and splits back into exactly them),
   * the prasang id is the third part (later parts are ignored), the file is
   * `folderPrefix + "/" + filename`, and the name and bio default when the
   * file's own are absent or falsy, so the name is never falsy.
   */
  lemma AcceptedFields(e: Entry, folderPrefix: string)
    requires Accept(e, folderPrefix).Some?
    ensures var a := Accept(e, folderPrefix).value;
      var parts := NameParts(e.name);
      var data := e.content.data;
      && |parts| >= 3
      && a.vaishnavId == parts[0] + "_" + parts[1]
      && Split(a.vaishnavId, '_') == [parts[0], parts[1]]
      && a.prasang == Prasang(parts[2], Get(data, "title"), folderPrefix + "/" + e.name)
      && (Truthy(Get(data, "vaishnavName")) ==> Some(a.name) == Get(data, "vaishnavName"))
      && (!Truthy(Get(data, "vaishnavName")) ==> a.name == JStr("Vaishnav " + parts[1]))
      && Truthy(Some(a.name))
      && (Truthy(Get(data, "bio")) ==> Some(a.bio) == Get(data, "bio"))
      && (!Truthy(Get(data, "bio")) ==> a.bio == JStr(""))
  {
    var parts := NameParts(e.name);
    assert '_' !in parts[0] && '_' !in parts[1];
    SplitJoin([parts[0], parts[1]], '_');
    assert Join([parts[0], parts[1]], '_') == parts[0] + "_" + parts[1];
  }

  /**
   * The first `.json` is removed, not necessarily the suffix: when the name
   * holds no period before its suffix the two agree, and otherwise they can
   * differ, as `"v84.json_1_p1.json"` shows.
   */
  lemma NamePartsStripSuffix(filename: string)
    requires EndsWith(filename, JsonSuffix)
    requires '.' !in filename[..|filename| - |JsonSuffix|]
    ensures NameParts(filename) == Split(filename[..|filename| - |JsonSuffix|], '_')
  {
    IndexOfOnlySuffix(filename, JsonSuffix);
  }

  lemma FirstOccurrenceRemoved()
    ensures NameParts("v84.json_1_p1.json") == ["v84", "1", "p1.json"]
    ensures Split("v84.json_1_p1", '_') == ["v84.json", "1", "p1"]
  {
    PartsAfterRemoveFirst();
    PartsAfterSuffixStrip();
  }

  lemma PartsAfterRemoveFirst()
    ensures NameParts("v84.json_1_p1.json") == ["v84", "1", "p1.json"]
  {
    RemoveFirstInName();
    JoinThree("v84", "1", "p1.json", '_');
    StrippedPieces();
    SplitJoin(["v84", "1", "p1.json"], '_');
  }

  lemma StrippedPieces()
    ensures "v84" + "_" + "1" + "_" + "p1.json" == "v84_1_p1.json"
  {
  }

  lemma PartsAfterSuffixStrip()
    ensures Split("v84.json_1_p1", '_') == ["v84.json", "1", "p1"]
  {
    JoinThree("v84.json", "1", "p1", '_');
    assert "v84.json" + "_" + "1" + "_" + "p1" == "v84.json_1_p1";
    SplitJoin(["v84.json", "1", "p1"], '_');
  }

  lemma RemoveFirstInName()
    ensures RemoveFirst("v84.json_1_p1.json", JsonSuffix) == "v84_1_p1.json"
  {
    var s := "v84.json_1_p1.json";
    assert s[3..8] == JsonSuffix;
    assert s[..3] == "v84";
    FirstOccurrence(s, JsonSuffix, 3);
    assert s[..3] + s[8..] == "v84_1_p1.json";
  }

  /** The accepted files of a listing, in listing order. */
  function AcceptedFiles(entries: seq<Entry>, folderPrefix: string): seq<Accepted>
    decreases |entries|
  {
    if entries == [] then []
    else
      AcceptedFiles(entries[..|entries| - 1], folderPrefix)
      + OptionToSeq(Accept(entries[|entries| - 1], folderPrefix))
  }

  lemma {:induction false} AcceptedFilesAppend(a: seq<Entry>, b: seq<Entry>, folderPrefix: string)
    ensures AcceptedFiles(a + b, folderPrefix) == AcceptedFiles(a, folderPrefix) + AcceptedFiles(b, folderPrefix)
    decreases |b|
  {
    if b == [] {
      assert a + b == a;
    } else {
      var init := b[..|b| - 1];
      var last := OptionToSeq(Accept(b[|b| - 1], folderPrefix));
      assert (a + b)[..|a + b| - 1] == a + init;
      assert (a + b)[|a + b| - 1] == b[|b| - 1];
      assert AcceptedFiles(a + b, folderPrefix) == AcceptedFiles(a + init, folderPrefix) + last;
      AcceptedFilesAppend(a, init, folderPrefix);
      assert AcceptedFiles(b, folderPrefix) == AcceptedFiles(init, folderPrefix) + last;
    }
  }

  /**
   * Wherever it stands in the listing, an entry contributes exactly its own
   * accepted file in its own place, or nothing when it is skipped.
   */
  lemma EntryContribution(before: seq<Entry>, e: Entry, after: seq<Entry>, folderPrefix: string)
    ensures AcceptedFiles(before + [e] + after, folderPrefix)
         == AcceptedFiles(before, folderPrefix) + OptionToSeq(Accept(e, folderPrefix)) + AcceptedFiles(after, folderPrefix)
  {
    AcceptedFilesAppend(before + [e], after, folderPrefix);
    AcceptedFilesAppend(before, [e], folderPrefix);
    assert [e][..0] == [];
  }

  /**
   * `vaishnavMap`: the groups by id, with the ids in the order they were
   * first inserted, which is the order `Object.values` lists them in (an id
   * always holds an underscore, so it is never an array-index key).
   */
  datatype Table = Table(order: seq<string>, byId: map<string, Vaishnav>)

  /** The table after one accepted file: a new group is created from it, or it joins its group's prasangs. */
  function AddFile(t: Table, a: Accepted): Table {
    if a.vaishnavId in t.byId then
      var v := t.byId[a.vaishnavId];
      Table(t.order, t.byId[a.vaishnavId := v.(prasangs := v.prasangs + [a.prasang])])
    else
      Table(t.order + [a.vaishnavId],
            t.byId[a.vaishnavId := Vaishnav(a.vaishnavId, a.name, a.bio, [a.prasang])])
  }

  /**
   * One step touches only the file's own group: it gains the prasang at the
   * end and keeps its header, or it is created from this file and its id is
   * listed last; every other group stays as it was.
   */
  lemma AddFileEffect(t: Table, a: Accepted)
    ensures var r := AddFile(t, a);
      && a.vaishnavId in r.byId
      && (forall k :: k in t.byId && k != a.vaishnavId ==> k in r.byId && r.byId[k] == t.byId[k])
      && (a.vaishnavId in t.byId ==>
            && r.order == t.order
            && r.byId[a.vaishnavId].(prasangs := []) == t.byId[a.vaishnavId].(prasangs := [])
            && r.byId[a.vaishnavId].prasangs == t.byId[a.vaishnavId].prasangs + [a.prasang])
      && (a.vaishnavId !in t.byId ==>
            && r.order == t.order + [a.vaishnavId]
            && r.byId[a.vaishnavId] == Vaishnav(a.vaishnavId, a.name, a.bio, [a.prasang]))
  {
  }

  /** The table after the accepted files, in order. */
  function Build(files: seq<Accepted>): Table
    decreases |files|
  {
    if files == [] then Table([], map[])
    else AddFile(Build(files[..|files| - 1]), files[|files| - 1])
  }

  /** Every key listed once, exactly the keys of the map, each group filed under its own id. */
  ghost predicate Valid(t: Table) {
    && (forall i, j :: 0 <= i < j < |t.order| ==> t.order[i] != t.order[j])
    && (forall k :: k in t.order <==> k in t.byId)
    && (forall k :: k in t.byId ==> t.byId[k].id == k)
  }

  /** `Object.values(vaishnavMap)`. */
  function Values(t: Table): seq<Vaishnav>
    requires forall k :: k in t.order ==> k in t.byId
  {
    seq(|t.order|, i requires 0 <= i < |t.order| => t.byId[t.order[i]])
  }

  /** `v.prasangs.sort((a, b) => naturalSort(a.id, b.id))`. */
  function SortPrasangs(v: Vaishnav): Vaishnav {
    v.(prasangs := SortBy(v.prasangs, PrasangId))
  }

  /** `groups.map(...)` sorting each group's prasangs. */
  function SortEach(vs: seq<Vaishnav>): seq<Vaishnav> {
    seq(|vs|, i requires 0 <= i < |vs| => SortPrasangs(vs[i]))
  }

  /** The groups sorted by id, then each group's prasangs sorted by id. */
  function Finish(t: Table): seq<Vaishnav>
    requires forall k :: k in t.order ==> k in t.byId
  {
    SortEach(SortBy(Values(t), VaishnavId))
  }

  /** The array `generateVartaList` writes for a listing. */
  function VartaList(entries: seq<Entry>, folderPrefix: string): seq<Vaishnav> {
    var files := AcceptedFiles(entries, folderPrefix);
    BuildValid(files);
    Finish(Build(files))
  }

  /**
   * `generateVartaList(sourceDir, outputFile, folderPrefix)`, given the
   * listing of `sourceDir` (None when it does not exist): the array it
   * writes, or None when it writes nothing.
   */
  method GenerateVartaList(listing: Option<seq<Entry>>, folderPrefix: string)
    returns (index: Option<seq<Vaishnav>>)
    ensures listing.None? <==> index.None?
    ensures listing.Some? ==> index == Some(VartaList(listing.value, folderPrefix))
  {
    if listing.None? {
      return None;
    }
    var order, byId := GroupFiles(listing.value, folderPrefix);
    BuildValid(AcceptedFiles(listing.value, folderPrefix));
    var groups := Finish(Table(order, byId));
    index := Some(groups);
  }

  /** The `forEach` loop over the listing, filling `vaishnavMap`. */
  method GroupFiles(files: seq<Entry>, folderPrefix: string)
    returns (order: seq<string>, byId: map<string, Vaishnav>)
    ensures Table(order, byId) == Build(AcceptedFiles(files, folderPrefix))
  {
    order, byId := [], map[];
    var i := 0;
    while i < |files|
      invariant 0 <= i <= |files|
      invariant Table(order, byId) == Build(AcceptedFiles(files[..i], folderPrefix))
    {
      GroupStep(files, i, folderPrefix);
      order, byId := HandleFile(order, byId, files[i], folderPrefix);
      i := i + 1;
    }
    assert files[..i] == files;
  }

  /**
   * The `forEach` callback for one entry: it updates `vaishnavMap` (here the
   * insertion order and the map) in place, creating the group on its first
   * file and then pushing the prasang.
   */
  method HandleFile(order: seq<string>, byId: map<string, Vaishnav>, e: Entry, folderPrefix: string)
    returns (order': seq<string>, byId': map<string, Vaishnav>)
    ensures Table(order', byId') == match Accept(e, folderPrefix)
      case None => Table(order, byId)
      case Some(a) => AddFile(Table(order, byId), a)
  {
    order', byId' := order, byId;
    if IsJsonFile(e) && e.content.Parsed? {
      var data := e.content.data;
      var parts := NameParts(e.name);
      if |parts| >= 3 && !data.JNull? {
        var id := parts[0] + "_" + parts[1];
        var prasang := Prasang(parts[2], Get(data, "title"), folderPrefix + "/" + e.name);
        ghost var a := Accepted(id, OrElse(Get(data, "vaishnavName"), JStr("Vaishnav " + parts[1])),
                                OrElse(Get(data, "bio"), JStr("")), prasang);
        assert Accept(e, folderPrefix) == Some(a);
        ghost var isNew := id !in byId';
        if id !in byId' {
          byId' := byId'[id := Vaishnav(id, OrElse(Get(data, "vaishnavName"), JStr("Vaishnav " + parts[1])),
                                        OrElse(Get(data, "bio"), JStr("")), [])];
          order' := order' + [id];
        }
        byId' := byId'[id := byId'[id].(prasangs := byId'[id].prasangs + [prasang])];
        InitThenPush(Table(order, byId), a, isNew);
      }
    }
  }

  /** Creating a group with no prasangs, then pushing onto it, is the table step `AddFile`. */
  lemma InitThenPush(t: Table, a: Accepted, isNew: bool)
    requires isNew <==> a.vaishnavId !in t.byId
    ensures var k := a.vaishnavId;
      var m := if isNew then t.byId[k := Vaishnav(k, a.name, a.bio, [])] else t.byId;
      var o := if isNew then t.order + [k] else t.order;
      Table(o, m[k := m[k].(prasangs := m[k].prasangs + [a.prasang])]) == AddFile(t, a)
  {
    var k := a.vaishnavId;
    if isNew {
      var m := t.byId[k := Vaishnav(k, a.name, a.bio, [])];
      assert [] + [a.prasang] == [a.prasang];
      assert m[k := m[k].(prasangs := m[k].prasangs + [a.prasang])]
          == t.byId[k := Vaishnav(k, a.name, a.bio, [a.prasang])];
    }
  }

  /** One more entry of the listing is one more `AddFile`, or none. */
  lemma GroupStep(entries: seq<Entry>, i: nat, folderPrefix: string)
    requires i < |entries|
    ensures Build(AcceptedFiles(entries[..i + 1], folderPrefix)) == match Accept(entries[i], folderPrefix)
      case None => Build(AcceptedFiles(entries[..i], folderPrefix))
      case Some(a) => AddFile(Build(AcceptedFiles(entries[..i], folderPrefix)), a)
  {
    var before := AcceptedFiles(entries[..i], folderPrefix);
    assert entries[..i + 1][..i] == entries[..i];
    assert AcceptedFiles(entries[..i + 1], folderPrefix) == before + OptionToSeq(Accept(entries[i], folderPrefix));
    match Accept(entries[i], folderPrefix) {
      case None =>
        assert before + [] == before;
      case Some(a) =>
        assert (before + [a])[..|before|] == before;
    }
  }

  // ---------------------------------------------------------------------
  // The table the loop builds
  // ---------------------------------------------------------------------

  lemma {:induction false} BuildValid(files: seq<Accepted>)
    ensures Valid(Build(files))
    decreases |files|
  {
    if files != [] {
      BuildValid(files[..|files| - 1]);
    }
  }

  /** A group exists exactly for the ids of the accepted files: no more, none missing. */
  lemma {:induction false} BuildIds(files: seq<Accepted>, k: string)
    ensures k in Build(files).byId <==> exists i :: 0 <= i < |files| && files[i].vaishnavId == k
    decreases |files|
  {
    if files != [] {
      var init := files[..|files| - 1];
      BuildIds(init, k);
      if exists i :: 0 <= i < |init| && init[i].vaishnavId == k {
        var i :| 0 <= i < |init| && init[i].vaishnavId == k;
        assert files[i] == init[i];
      }
      if exists i :: 0 <= i < |files| && files[i].vaishnavId == k {
        var i :| 0 <= i < |files| && files[i].vaishnavId == k;
        if i < |init| {
          assert init[i] == files[i];
        }
      }
    }
  }

  /** The prasangs of the accepted files with group id `k`, in listing order. */
  function PrasangsOf(files: seq<Accepted>, k: string): seq<Prasang>
    decreases |files|
  {
    if files == [] then []
    else
      PrasangsOf(files[..|files| - 1], k)
      + (if files[|files| - 1].vaishnavId == k then [files[|files| - 1].prasang] else [])
  }

  /** Each group holds exactly the prasangs of its files, in listing order; an absent id has none. */
  lemma {:induction false} BuildPrasangs(files: seq<Accepted>, k: string)
    ensures k in Build(files).byId ==> Build(files).byId[k].prasangs == PrasangsOf(files, k)
    ensures k !in Build(files).byId ==> PrasangsOf(files, k) == []
    decreases |files|
  {
    if files != [] {
      BuildPrasangs(files[..|files| - 1], k);
    }
  }

  /** Index `i` holds the first accepted file with group id `k`. */
  predicate FirstFor(files: seq<Accepted>, i: int, k: string) {
    && 0 <= i < |files|
    && files[i].vaishnavId == k
    && forall j :: 0 <= j < i ==> files[j].vaishnavId != k
  }

  /** First file wins: a group's name and bio are those the first of its files offered. */
  lemma {:induction false} BuildFirstWins(files: seq<Accepted>, k: string)
    requires k in Build(files).byId
    ensures exists i :: (FirstFor(files, i, k)
      && Build(files).byId[k].name == files[i].name
      && Build(files).byId[k].bio == files[i].bio)
    decreases |files|
  {
    var init := files[..|files| - 1];
    var last := files[|files| - 1];
    if k in Build(init).byId {
      BuildFirstWins(init, k);
      var i :| FirstFor(init, i, k)
        && Build(init).byId[k].name == init[i].name && Build(init).byId[k].bio == init[i].bio;
      assert FirstFor(files, i, k);
    } else {
      BuildIds(init, k);
      assert FirstFor(files, |files| - 1, k);
    }
  }

  /** Later files never change a group that already exists, except by adding prasangs. */
  lemma {:induction false} BuildKeepsHeader(files: seq<Accepted>, more: seq<Accepted>, k: string)
    requires k in Build(files).byId
    ensures k in Build(files + more).byId
    ensures Build(files + more).byId[k].name == Build(files).byId[k].name
    ensures Build(files + more).byId[k].bio == Build(files).byId[k].bio
    ensures Build(files + more).byId[k].id == Build(files).byId[k].id
    decreases |more|
  {
    if more == [] {
      assert files + more == files;
    } else {
      var init := more[..|more| - 1];
      BuildKeepsHeader(files, init, k);
      assert (files + more)[..|files + more| - 1] == files + init;
    }
  }

  // ---------------------------------------------------------------------
  // Counting prasangs
  // ---------------------------------------------------------------------

  /** The number of prasangs in a list of groups. */
  function TotalPrasangs(vs: seq<Vaishnav>): nat {
    if vs == [] then 0 else |vs[0].prasangs| + TotalPrasangs(vs[1..])
  }

  lemma {:induction false} TotalAppend(vs: seq<Vaishnav>, v: Vaishnav)
    ensures TotalPrasangs(vs + [v]) == TotalPrasangs(vs) + |v.prasangs|
  {
    if vs != [] {
      assert (vs + [v])[1..] == vs[1..] + [v];
      TotalAppend(vs[1..], v);
    }
  }

  lemma {:induction false} TotalUpdate(vs: seq<Vaishnav>, j: nat, v: Vaishnav)
    requires j < |vs| && |v.prasangs| == |vs[j].prasangs| + 1
    ensures TotalPrasangs(vs[j := v]) == TotalPrasangs(vs) + 1
  {
    if j > 0 {
      assert vs[j := v][1..] == vs[1..][j - 1 := v];
      TotalUpdate(vs[1..], j - 1, v);
    }
  }

  /** Every accepted file adds one prasang to the table. */
  lemma {:induction false} BuildCount(files: seq<Accepted>)
    ensures Valid(Build(files))
    ensures TotalPrasangs(Values(Build(files))) == |files|
    decreases |files|
  {
    BuildValid(files);
    if files != [] {
      var init := files[..|files| - 1];
      BuildCount(init);
      AddFileCount(Build(init), files[|files| - 1]);
    }
  }

  /** Filing one more prasang adds one to the total. */
  lemma AddFileCount(t: Table, a: Accepted)
    requires Valid(t)
    ensures TotalPrasangs(Values(AddFile(t, a))) == TotalPrasangs(Values(t)) + 1
  {
    var t' := AddFile(t, a);
    var v := t'.byId[a.vaishnavId];
    if a.vaishnavId in t.byId {
      var j :| 0 <= j < |t.order| && t.order[j] == a.vaishnavId;
      assert Values(t') == Values(t)[j := v];
      TotalUpdate(Values(t), j, v);
    } else {
      assert Values(t') == Values(t) + [v];
      TotalAppend(Values(t), v);
    }
  }

  lemma {:induction false} TotalInsert(v: Vaishnav, vs: seq<Vaishnav>)
    ensures TotalPrasangs(InsertBy(v, vs, VaishnavId)) == |v.prasangs| + TotalPrasangs(vs)
  {
    if vs != [] && !NaturalLeq(VaishnavId(v), VaishnavId(vs[0])) {
      TotalInsert(v, vs[1..]);
      assert ([vs[0]] + InsertBy(v, vs[1..], VaishnavId))[1..] == InsertBy(v, vs[1..], VaishnavId);
    }
  }

  lemma {:induction false} TotalSort(vs: seq<Vaishnav>)
    ensures TotalPrasangs(SortBy(vs, VaishnavId)) == TotalPrasangs(vs)
  {
    if vs != [] {
      TotalSort(vs[1..]);
      TotalInsert(vs[0], SortBy(vs[1..], VaishnavId));
    }
  }

  lemma {:induction false} TotalSortEach(vs: seq<Vaishnav>, ws: seq<Vaishnav>)
    requires |vs| == |ws|
    requires forall i :: 0 <= i < |vs| ==> ws[i] == SortPrasangs(vs[i])
    ensures TotalPrasangs(ws) == TotalPrasangs(vs)
  {
    if vs != [] {
      SortByLength(vs[0].prasangs, PrasangId);
      TotalSortEach(vs[1..], ws[1..]);
    }
  }

  // ---------------------------------------------------------------------
  // From the table to the written array
  // ---------------------------------------------------------------------

  lemma ValuesMember(t: Table, x: Vaishnav)
    requires Valid(t)
    requires x in Values(t)
    ensures x.id in t.byId && t.byId[x.id] == x
  {
    var j :| 0 <= j < |Values(t)| && Values(t)[j] == x;
    assert t.order[j] in t.byId;
  }

  lemma ValuesCover(t: Table, k: string)
    requires Valid(t)
    requires k in t.byId
    ensures t.byId[k] in Values(t)
  {
    var j :| 0 <= j < |t.order| && t.order[j] == k;
    assert Values(t)[j] == t.byId[k];
  }

  /** Each written group is the table's group under its id with its prasangs sorted, and every table group is written. */
  lemma FinishMembers(t: Table)
    requires Valid(t)
    ensures |Finish(t)| == |t.order|
    ensures forall i :: 0 <= i < |Finish(t)| ==>
      Finish(t)[i].id in t.byId && Finish(t)[i] == SortPrasangs(t.byId[Finish(t)[i].id])
    ensures forall k :: k in t.byId ==> exists i :: 0 <= i < |Finish(t)| && Finish(t)[i].id == k
  {
    var vs := Values(t);
    var sorted := SortBy(vs, VaishnavId);
    var out := Finish(t);
    SortByLength(vs, VaishnavId);
    forall i | 0 <= i < |out| ensures out[i].id in t.byId && out[i] == SortPrasangs(t.byId[out[i].id]) {
      assert out[i] == SortPrasangs(sorted[i]);
      assert sorted[i] in multiset(vs);
      ValuesMember(t, sorted[i]);
    }
    forall k | k in t.byId ensures exists i :: 0 <= i < |out| && out[i].id == k {
      ValuesCover(t, k);
      assert t.byId[k] in multiset(sorted);
      var i :| 0 <= i < |sorted| && sorted[i] == t.byId[k];
      assert out[i] == SortPrasangs(sorted[i]);
    }
  }

  /** Order and distinctness of ids carry over to a sequence with the same ids. */
  lemma SameIds(out: seq<Vaishnav>, sorted: seq<Vaishnav>)
    requires |out| == |sorted|
    requires forall i :: 0 <= i < |out| ==> out[i].id == sorted[i].id
    requires SortedBy(sorted, VaishnavId) && KeysDistinct(sorted, VaishnavId)
    ensures SortedBy(out, VaishnavId) && KeysDistinct(out, VaishnavId)
  {
    forall i, j | 0 <= i < j < |out| ensures NaturalLeq(VaishnavId(out[i]), VaishnavId(out[j])) {
      assert NaturalLeq(VaishnavId(sorted[i]), VaishnavId(sorted[j]));
    }
    forall i, j | 0 <= i < j < |out| ensures VaishnavId(out[i]) != VaishnavId(out[j]) {
      assert VaishnavId(sorted[i]) != VaishnavId(sorted[j]);
    }
  }

  /** The written array is sorted by group id, ids are unique, and each group's prasangs are sorted by id. */
  lemma VartaListSorted(entries: seq<Entry>, folderPrefix: string)
    ensures var out := VartaList(entries, folderPrefix);
      && SortedBy(out, VaishnavId)
      && KeysDistinct(out, VaishnavId)
      && forall i :: 0 <= i < |out| ==> SortedBy(out[i].prasangs, PrasangId)
  {
    var t := Build(AcceptedFiles(entries, folderPrefix));
    BuildValid(AcceptedFiles(entries, folderPrefix));
    var vs := Values(t);
    var sorted := SortBy(vs, VaishnavId);
    SortByKeepsKeysDistinct(vs, VaishnavId);
    var out := Finish(t);
    assert out == VartaList(entries, folderPrefix);
    forall i | 0 <= i < |out| ensures out[i].id == sorted[i].id && SortedBy(out[i].prasangs, PrasangId) {
      assert out[i] == SortPrasangs(sorted[i]);
    }
    SameIds(out, sorted);
  }

  /** Some group of `out` has id `k`. */
  predicate HasGroup(out: seq<Vaishnav>, k: string) {
    exists i :: 0 <= i < |out| && out[i].id == k
  }

  /** Some accepted file has group id `k`. */
  predicate HasFile(files: seq<Accepted>, k: string) {
    exists j :: 0 <= j < |files| && files[j].vaishnavId == k
  }

  /** The written groups are exactly one per group id of the accepted files. */
  lemma VartaListIds(entries: seq<Entry>, folderPrefix: string, k: string)
    ensures HasGroup(VartaList(entries, folderPrefix), k) <==> HasFile(AcceptedFiles(entries, folderPrefix), k)
  {
    var files := AcceptedFiles(entries, folderPrefix);
    var t := Build(files);
    BuildValid(files);
    FinishMembers(t);
    BuildIds(files, k);
  }

  /**
   * Each written group holds a permutation of the prasangs of its files,
   * and the name and bio its first file offered.
   */
  lemma VartaListGroups(entries: seq<Entry>, folderPrefix: string, i: nat)
    requires i < |VartaList(entries, folderPrefix)|
    ensures var files := AcceptedFiles(entries, folderPrefix);
      var v := VartaList(entries, folderPrefix)[i];
      && multiset(v.prasangs) == multiset(PrasangsOf(files, v.id))
      && exists j :: (FirstFor(files, j, v.id) && v.name == files[j].name && v.bio == files[j].bio)
  {
    var files := AcceptedFiles(entries, folderPrefix);
    var t := Build(files);
    BuildValid(files);
    FinishMembers(t);
    var v := Finish(t)[i];
    BuildPrasangs(files, v.id);
    BuildFirstWins(files, v.id);
  }

  /** No prasang is lost or duplicated: the written array holds one per accepted file. */
  lemma VartaListCount(entries: seq<Entry>, folderPrefix: string)
    ensures TotalPrasangs(VartaList(entries, folderPrefix)) == |AcceptedFiles(entries, folderPrefix)|
  {
    var files := AcceptedFiles(entries, folderPrefix);
    var t := Build(files);
    BuildCount(files);
    var sorted := SortBy(Values(t), VaishnavId);
    TotalSort(Values(t));
    TotalSortEach(sorted, Finish(t));
  }

  /** The groups of the table, in the order of their first files. */
  function Grouped(files: seq<Accepted>): seq<Vaishnav> {
    BuildValid(files);
    Values(Build(files))
  }

  /** Sorting a group's prasangs keeps its id, so it commutes with picking the groups tied with `k`. */
  lemma {:induction false} TiesSortEach(vs: seq<Vaishnav>, k: string)
    ensures Ties(SortEach(vs), VaishnavId, k) == SortEach(Ties(vs, VaishnavId, k))
  {
    if vs != [] {
      var v, tail := vs[0], vs[1..];
      var w := SortEach(vs);
      SortEachCons(v, tail);
      assert vs == [v] + tail;
      assert w[0] == SortPrasangs(v) && w[1..] == SortEach(tail);
      TiesSortEach(tail, k);
      var tied := Equivalent(VaishnavId(v), k);
      var rest := Ties(tail, VaishnavId, k);
      assert Ties(vs, VaishnavId, k) == (if tied then [v] else []) + rest;
      assert Ties(w, VaishnavId, k) == (if tied then [SortPrasangs(v)] else []) + SortEach(rest);
      if tied {
        SortEachCons(v, rest);
      } else {
        assert [] + rest == rest;
      }
    }
  }

  lemma SortEachCons(v: Vaishnav, vs: seq<Vaishnav>)
    ensures SortEach([v] + vs) == [SortPrasangs(v)] + SortEach(vs)
  {
  }

  /**
   * The sorts are stable: groups with equivalent ids (`v84_01`, `v84_1`) are
   * written in the order their first files were listed, and prasangs with
   * equivalent ids (`p01`, `p1`) in the order of their files.
   */
  lemma VartaListStable(entries: seq<Entry>, folderPrefix: string, k: string)
    ensures Ties(VartaList(entries, folderPrefix), VaishnavId, k)
      == SortEach(Ties(Grouped(AcceptedFiles(entries, folderPrefix)), VaishnavId, k))
    ensures var files := AcceptedFiles(entries, folderPrefix);
      var out := VartaList(entries, folderPrefix);
      forall i :: 0 <= i < |out| ==>
        Ties(out[i].prasangs, PrasangId, k) == Ties(PrasangsOf(files, out[i].id), PrasangId, k)
  {
    var files := AcceptedFiles(entries, folderPrefix);
    var t := Build(files);
    BuildValid(files);
    SortByStable(Values(t), VaishnavId, k);
    TiesSortEach(SortBy(Values(t), VaishnavId), k);
    FinishMembers(t);
    var out := Finish(t);
    forall i | 0 <= i < |out|
      ensures Ties(out[i].prasangs, PrasangId, k) == Ties(PrasangsOf(files, out[i].id), PrasangId, k)
    {
      BuildPrasangs(files, out[i].id);
      SortByStable(t.byId[out[i].id].prasangs, PrasangId, k);
    }
  }
}
