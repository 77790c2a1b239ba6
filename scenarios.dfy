/**
 * Concrete runs of the model on small illustrative inputs: a numeric-aware
 * sort, one flat record, a grouped directory, first-file naming and a
 * badly named file.
 */
module Scenarios {
  import opened Wrappers
  import opened JsonValues
  import opened Strings
  import opened Listing
  import opened NaturalOrder
  import AartiIndex
  import VartaIndex

  function Text(s: string): string { s }

  /** How the three names compare: by the value of their digit runs. */
  lemma CompareA1A2A10()
    ensures !NaturalLeq("a10", "a1") && !NaturalLeq("a2", "a1") && NaturalLeq("a2", "a10")
  {
    assert "10"[..1] == "1";
    assert DecimalValue("1") == 1 && DecimalValue("2") == 2;
    assert DecimalValue("10") == 10;
    assert "a10" == "a" + "10" && "a1" == "a" + "1" && "a2" == "a" + "2";
    NumbersCompareByValue("a", "10", "1");
    NumbersCompareByValue("a", "2", "1");
    NumbersCompareByValue("a", "2", "10");
  }

  lemma SortTail()
    requires !NaturalLeq("a10", "a1")
    ensures SortBy(["a10", "a1"], Text) == ["a1", "a10"]
  {
    assert ["a10", "a1"][1..] == ["a1"];
    assert SortBy(["a1"], Text) == InsertBy("a1", [], Text) == ["a1"];
    assert InsertBy("a10", ["a1"], Text) == ["a1"] + InsertBy("a10", [], Text);
  }

  /** Digit runs compare by value: "a1", "a2", "a10" rather than "a1", "a10", "a2". */
  lemma NumericAwareSort()
    ensures SortBy(["a2", "a10", "a1"], Text) == ["a1", "a2", "a10"]
  {
    CompareA1A2A10();
    SortTail();
    InsertA2();
    assert ["a2", "a10", "a1"][1..] == ["a10", "a1"];
  }

  lemma InsertA2()
    requires !NaturalLeq("a2", "a1") && NaturalLeq("a2", "a10")
    ensures InsertBy("a2", ["a1", "a10"], Text) == ["a1", "a2", "a10"]
  {
    assert ["a1", "a10"][1..] == ["a10"];
    assert InsertBy("a2", ["a10"], Text) == ["a2", "a10"];
    assert InsertBy("a2", ["a1", "a10"], Text) == ["a1"] + InsertBy("a2", ["a10"], Text);
  }

  const X1: Entry := Entry("x1.json", Parsed(JObj(map[
    "id" := JStr("x1"), "title" := JStr("T"), "artist" := JStr("A"), "category" := JStr("C")])))

  const X1Record: AartiIndex.Aarti :=
    AartiIndex.Aarti(Some(JStr("x1")), Some(JStr("T")), Some(JStr("A")), Some(JStr("C")), JStr(""), "x1.json")

  /** A file without a subtitle gets `""`, and the record names its file. */
  lemma FlatProjection()
    ensures AartiIndex.AartiList(Some([X1])) == AartiIndex.Written([X1Record])
  {
    assert EndsWith(X1.name, JsonSuffix);
    assert AartiIndex.Collected([X1]) == [X1Record];
  }

  /** A file whose content fails to parse is left out, and the run goes on. */
  lemma FlatResilience()
    ensures AartiIndex.AartiList(Some([X1, Entry("broken.json", Unreadable)])) == AartiIndex.Written([X1Record])
  {
    var bad := Entry("broken.json", Unreadable);
    assert EndsWith(X1.name, JsonSuffix);
    assert [X1, bad][1..] == [bad];
    assert AartiIndex.Collected([bad]) == [];
    assert AartiIndex.Collected([X1, bad]) == [X1Record];
  }

  /** `v84_1_<p>.json` splits into `["v84", "1", p]`. */
  lemma PartsOfV84(p: string)
    requires '_' !in p && '.' !in p
    ensures VartaIndex.NameParts("v84_1_" + p + ".json") == ["v84", "1", p]
  {
    var name := "v84_1_" + p + ".json";
    V84Stem(p);
    VartaIndex.NamePartsStripSuffix(name);
    JoinThree("v84", "1", p, '_');
    V84Join(p);
    SplitJoin(["v84", "1", p], '_');
  }

  lemma V84Stem(p: string)
    requires '.' !in p
    ensures var name := "v84_1_" + p + ".json";
      && EndsWith(name, JsonSuffix)
      && name[..|name| - |JsonSuffix|] == "v84_1_" + p
      && '.' !in name[..|name| - |JsonSuffix|]
  {
    var name := "v84_1_" + p + ".json";
    assert name[..|name| - 5] == "v84_1_" + p;
    assert name[|name| - 5..] == ".json";
    assert '.' !in "v84_1_";
  }

  lemma V84Join(p: string)
    ensures "v84" + "_" + "1" + "_" + p == "v84_1_" + p
  {
  }

  /** The record a file `v84_1_<p>.json` with an object as content is accepted as. */
  lemma AcceptV84(e: Entry, p: string, data: Json)
    requires '_' !in p && '.' !in p
    requires data.JObj?
    requires e == Entry("v84_1_" + p + ".json", Parsed(data))
    ensures VartaIndex.Accept(e, "84")
      == Some(VartaIndex.Accepted("v84_1",
           OrElse(Get(data, "vaishnavName"), JStr("Vaishnav 1")),
           OrElse(Get(data, "bio"), JStr("")),
           VartaIndex.Prasang(p, Get(data, "title"), "84/" + e.name)))
  {
    PartsOfV84(p);
    V84IsJson(p);
    V84Pieces(e.name);
  }

  lemma V84IsJson(p: string)
    ensures EndsWith("v84_1_" + p + ".json", JsonSuffix)
  {
    var name := "v84_1_" + p + ".json";
    assert name[|name| - 5..] == ".json";
  }

  lemma V84Pieces(name: string)
    ensures "v84" + "_" + "1" == "v84_1"
    ensures "Vaishnav " + "1" == "Vaishnav 1"
    ensures "84" + "/" + name == "84/" + name
  {
  }

  lemma AcceptedTwo(e1: Entry, e2: Entry, folderPrefix: string)
    ensures VartaIndex.AcceptedFiles([e1, e2], folderPrefix)
      == OptionToSeq(VartaIndex.Accept(e1, folderPrefix)) + OptionToSeq(VartaIndex.Accept(e2, folderPrefix))
  {
    var s1 := OptionToSeq(VartaIndex.Accept(e1, folderPrefix));
    assert [e1, e2][..1] == [e1];
    assert [e1][..0] == [];
    assert VartaIndex.AcceptedFiles([e1], folderPrefix) == [] + s1 == s1;
  }

  /** Two files of one group make one group holding both, the first file's name and bio. */
  lemma BuildTwoSame(a1: VartaIndex.Accepted, a2: VartaIndex.Accepted)
    requires a1.vaishnavId == a2.vaishnavId
    ensures VartaIndex.Build([a1, a2]) == VartaIndex.Table([a1.vaishnavId], map[a1.vaishnavId :=
      VartaIndex.Vaishnav(a1.vaishnavId, a1.name, a1.bio, [a1.prasang, a2.prasang])])
  {
    var id := a1.vaishnavId;
    var v1 := VartaIndex.Vaishnav(id, a1.name, a1.bio, [a1.prasang]);
    assert [a1, a2][..1] == [a1];
    assert [a1][..0] == [];
    assert [] + [id] == [id];
    assert VartaIndex.Build([a1]) == VartaIndex.Table([id], map[id := v1]);
    assert [a1.prasang] + [a2.prasang] == [a1.prasang, a2.prasang];
    assert map[id := v1][id := v1.(prasangs := [a1.prasang, a2.prasang])]
      == map[id := VartaIndex.Vaishnav(id, a1.name, a1.bio, [a1.prasang, a2.prasang])];
  }

  lemma FinishOne(v: VartaIndex.Vaishnav)
    ensures VartaIndex.Finish(VartaIndex.Table([v.id], map[v.id := v])) == [VartaIndex.SortPrasangs(v)]
  {
    var t := VartaIndex.Table([v.id], map[v.id := v]);
    assert VartaIndex.Values(t) == [v];
    assert SortBy([v], VartaIndex.VaishnavId) == [v];
  }

  function Titled(title: string): Json {
    JObj(map["title" := JStr(title)])
  }

  function Named(title: string, name: string): Json {
    JObj(map["title" := JStr(title), "vaishnavName" := JStr(name)])
  }

  lemma AcceptTitled(e: Entry, p: string, title: string)
    requires '_' !in p && '.' !in p
    requires e == Entry("v84_1_" + p + ".json", Parsed(Titled(title)))
    ensures VartaIndex.Accept(e, "84")
      == Some(VartaIndex.Accepted("v84_1", JStr("Vaishnav 1"), JStr(""),
           VartaIndex.Prasang(p, Some(JStr(title)), "84/" + e.name)))
  {
    AcceptV84(e, p, Titled(title));
    assert Get(Titled(title), "vaishnavName") == None;
    assert Get(Titled(title), "bio") == None;
  }

  lemma AcceptNamed(e: Entry, p: string, title: string, name: string)
    requires '_' !in p && '.' !in p && name != ""
    requires e == Entry("v84_1_" + p + ".json", Parsed(Named(title, name)))
    ensures VartaIndex.Accept(e, "84")
      == Some(VartaIndex.Accepted("v84_1", JStr(name), JStr(""),
           VartaIndex.Prasang(p, Some(JStr(title)), "84/" + e.name)))
  {
    AcceptV84(e, p, Named(title, name));
    assert Get(Named(title, name), "vaishnavName") == Some(JStr(name));
    assert Get(Named(title, name), "bio") == None;
  }

  lemma SortP2P1(p1: VartaIndex.Prasang, p2: VartaIndex.Prasang)
    requires p1.id == "p1" && p2.id == "p2"
    ensures SortBy([p2, p1], VartaIndex.PrasangId) == [p1, p2]
  {
    assert "p1" == "p" + "1" && "p2" == "p" + "2";
    assert DecimalValue("1") == 1 && DecimalValue("2") == 2;
    NumbersCompareByValue("p", "2", "1");
    assert [p2, p1][1..] == [p1];
    assert SortBy([p1], VartaIndex.PrasangId) == [p1];
    assert InsertBy(p2, [p1], VartaIndex.PrasangId) == [p1] + InsertBy(p2, [], VartaIndex.PrasangId);
  }

  const P1: VartaIndex.Prasang := VartaIndex.Prasang("p1", Some(JStr("A")), "84/v84_1_p1.json")
  const P2: VartaIndex.Prasang := VartaIndex.Prasang("p2", Some(JStr("B")), "84/v84_1_p2.json")

  lemma NameOfP1()
    ensures "v84_1_" + "p1" + ".json" == "v84_1_p1.json"
    ensures "84/" + "v84_1_p1.json" == "84/v84_1_p1.json"
  {
  }

  lemma NameOfP2()
    ensures "v84_1_" + "p2" + ".json" == "v84_1_p2.json"
    ensures "84/" + "v84_1_p2.json" == "84/v84_1_p2.json"
  {
  }

  lemma GroupingFiles(e1: Entry, e2: Entry)
    requires e1 == Entry("v84_1_p1.json", Parsed(Titled("A")))
    requires e2 == Entry("v84_1_p2.json", Parsed(Titled("B")))
    ensures VartaIndex.AcceptedFiles([e2, e1], "84")
      == [VartaIndex.Accepted("v84_1", JStr("Vaishnav 1"), JStr(""), P2),
          VartaIndex.Accepted("v84_1", JStr("Vaishnav 1"), JStr(""), P1)]
  {
    AcceptedTwo(e2, e1, "84");
    AcceptP1(e1);
    AcceptP2(e2);
  }

  lemma AcceptP1(e: Entry)
    requires e == Entry("v84_1_p1.json", Parsed(Titled("A")))
    ensures VartaIndex.Accept(e, "84") == Some(VartaIndex.Accepted("v84_1", JStr("Vaishnav 1"), JStr(""), P1))
  {
    NameOfP1();
    AcceptTitled(e, "p1", "A");
  }

  lemma AcceptP2(e: Entry)
    requires e == Entry("v84_1_p2.json", Parsed(Titled("B")))
    ensures VartaIndex.Accept(e, "84") == Some(VartaIndex.Accepted("v84_1", JStr("Vaishnav 1"), JStr(""), P2))
  {
    NameOfP2();
    AcceptTitled(e, "p2", "B");
  }

  /**
   * Two prasangs of one Vaishnav, listed out of order, make one group
   * `v84_1` holding `p1` then `p2`, each with the path `84/<filename>`; with
   * no name in either file the group is called "Vaishnav 1".
   */
  lemma Grouping()
    ensures VartaIndex.VartaList(
      [Entry("v84_1_p2.json", Parsed(Titled("B"))), Entry("v84_1_p1.json", Parsed(Titled("A")))], "84")
      == [VartaIndex.Vaishnav("v84_1", JStr("Vaishnav 1"), JStr(""), [P1, P2])]
  {
    var e2 := Entry("v84_1_p2.json", Parsed(Titled("B")));
    var e1 := Entry("v84_1_p1.json", Parsed(Titled("A")));
    var a1 := VartaIndex.Accepted("v84_1", JStr("Vaishnav 1"), JStr(""), P1);
    var a2 := VartaIndex.Accepted("v84_1", JStr("Vaishnav 1"), JStr(""), P2);
    GroupingFiles(e1, e2);
    BuildTwoSame(a2, a1);
    var v := VartaIndex.Vaishnav("v84_1", JStr("Vaishnav 1"), JStr(""), [P2, P1]);
    FinishOne(v);
    SortP2P1(P1, P2);
  }

  lemma FirstWinsFiles(e1: Entry, e2: Entry)
    requires e1 == Entry("v84_1_p1.json", Parsed(Named("A", "Alice")))
    requires e2 == Entry("v84_1_p2.json", Parsed(Named("B", "Bob")))
    ensures VartaIndex.AcceptedFiles([e1, e2], "84")
      == [VartaIndex.Accepted("v84_1", JStr("Alice"), JStr(""), P1),
          VartaIndex.Accepted("v84_1", JStr("Bob"), JStr(""), P2)]
  {
    AcceptedTwo(e1, e2, "84");
    AcceptAlice(e1);
    AcceptBob(e2);
  }

  lemma AcceptAlice(e: Entry)
    requires e == Entry("v84_1_p1.json", Parsed(Named("A", "Alice")))
    ensures VartaIndex.Accept(e, "84") == Some(VartaIndex.Accepted("v84_1", JStr("Alice"), JStr(""), P1))
  {
    NameOfP1();
    AcceptNamed(e, "p1", "A", "Alice");
  }

  lemma AcceptBob(e: Entry)
    requires e == Entry("v84_1_p2.json", Parsed(Named("B", "Bob")))
    ensures VartaIndex.Accept(e, "84") == Some(VartaIndex.Accepted("v84_1", JStr("Bob"), JStr(""), P2))
  {
    NameOfP2();
    AcceptNamed(e, "p2", "B", "Bob");
  }

  /** The first file listed names the group; a later file's name is ignored. */
  lemma FirstWinsNaming()
    ensures var out := VartaIndex.VartaList(
      [Entry("v84_1_p1.json", Parsed(Named("A", "Alice"))), Entry("v84_1_p2.json", Parsed(Named("B", "Bob")))], "84");
      |out| == 1 && out[0].id == "v84_1" && out[0].name == JStr("Alice")
  {
    var e1 := Entry("v84_1_p1.json", Parsed(Named("A", "Alice")));
    var e2 := Entry("v84_1_p2.json", Parsed(Named("B", "Bob")));
    var a1 := VartaIndex.Accepted("v84_1", JStr("Alice"), JStr(""), P1);
    var a2 := VartaIndex.Accepted("v84_1", JStr("Bob"), JStr(""), P2);
    FirstWinsFiles(e1, e2);
    BuildTwoSame(a1, a2);
    FinishOne(VartaIndex.Vaishnav("v84_1", JStr("Alice"), JStr(""), [P1, P2]));
  }

  lemma BadnameParts()
    ensures VartaIndex.NameParts("badname.json") == ["badname"]
  {
    var name := "badname.json";
    assert EndsWith(name, JsonSuffix);
    assert name[..|name| - 5] == "badname";
    VartaIndex.NamePartsStripSuffix(name);
    SplitPlain("badname", '_');
  }

  lemma BadnameRejected(e: Entry)
    requires e == Entry("badname.json", Parsed(Titled("X")))
    ensures VartaIndex.Accept(e, "84") == None
  {
    BadnameParts();
  }

  /** A name with a single part contributes no group and no prasang. */
  lemma MalformedNameSkipped()
    ensures VartaIndex.VartaList([Entry("badname.json", Parsed(Titled("X")))], "84") == []
  {
    var e := Entry("badname.json", Parsed(Titled("X")));
    BadnameRejected(e);
    assert [e][..0] == [];
    assert VartaIndex.AcceptedFiles([e], "84") == [];
    assert VartaIndex.Values(VartaIndex.Table([], map[])) == [];
  }
}
