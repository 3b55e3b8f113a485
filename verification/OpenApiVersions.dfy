/**
 * The version of the combined document
 * (`merge_openapi_version`, crates/sdkwork-web-contract/src/openapi_merge.rs): which version texts agree, and that
 * the first one with the highest patch stays.
 */
module OpenApiVersions {
  import opened Sorting
  import opened Text
  import opened Json
  import opened OpenApiMerge
  import opened OpenApiDocuments
  import opened OpenApiWriting
  import opened OpenApiShapes
  import opened OpenApiSections

  /** The dot-separated parts of a version: two numbers of 32 bits, and a third, zero when it is none. */
  ghost predicate Numbered(version: string, major: nat, minor: nat, patch: nat) {
    exists parts: seq<string> :: VersionOf(version, parts, major, minor, patch)
  }

  ghost predicate VersionOf(version: string, parts: seq<string>, major: nat, minor: nat, patch: nat) {
    && AllFree(parts, '.') && |parts| >= 2 && version == Joined(parts, '.')
    && Number32(parts[0], major) && Number32(parts[1], minor)
    && (if |parts| > 2 && (exists n: nat :: Number32(parts[2], n)) then Number32(parts[2], patch) else patch == 0)
  }

  ghost predicate Number32(s: string, n: nat) {
    n <= 0xFFFF_FFFF && IsNumeral(s, n)
  }

  ghost predicate SameLine(a: string, b: string) {
    a == b || exists major: nat, minor: nat, p: nat, q: nat ::
      Numbered(a, major, minor, p) && Numbered(b, major, minor, q)
  }

  /** The same line of versions, and the patch of the first is lower. */
  ghost predicate LowerPatch(a: string, b: string) {
    exists major: nat, minor: nat, p: nat, q: nat ::
      Numbered(a, major, minor, p) && Numbered(b, major, minor, q) && p < q
  }

  lemma VersionPartsAre(version: string, parts: seq<string>, major: nat, minor: nat, patch: nat)
    requires parts == Split(version, '.')
    ensures VersionParts(version) == Some(Parts(major, minor, patch)) <==>
      VersionOf(version, parts, major, minor, patch)
  {
    JoinedSplit(version, '.');
    SplitFree(version, '.');
    if |parts| >= 2 {
      ParsesExactly(parts[0], U32_MAX, major);
      ParsesExactly(parts[1], U32_MAX, minor);
      if |parts| > 2 {
        forall n: nat { ParsesExactly(parts[2], U32_MAX, n); }
        var read := ParseUpTo(parts[2], U32_MAX);
        assert read.Some? ==> Number32(parts[2], read.value);
      }
    }
  }

  /** What a version text reads as. */
  lemma NumberedExactly(version: string, major: nat, minor: nat, patch: nat)
    ensures VersionParts(version) == Some(Parts(major, minor, patch)) <==> Numbered(version, major, minor, patch)
  {
    VersionPartsAre(version, Split(version, '.'), major, minor, patch);
    if parts: seq<string> :| VersionOf(version, parts, major, minor, patch) { SplitJoined(parts, '.'); }
  }

  /** Which versions agree, and which of two that agree has the higher rank. */
  lemma VersionsAgreeExactly(a: string, b: string)
    ensures Agree(a, b) <==> SameLine(a, b)
    ensures Agree(a, b) ==> (!RankLeq(Rank(b), Rank(a)) <==> LowerPatch(a, b))
  {
    forall x: nat, y: nat, z: nat { NumberedExactly(a, x, y, z); }
    forall x: nat, y: nat, z: nat { NumberedExactly(b, x, y, z); }
    var p, q := VersionParts(a), VersionParts(b);
    if SameMinorLine(a, b) {
      assert Numbered(a, p.value.major, p.value.minor, p.value.patch);
      assert Numbered(b, q.value.major, q.value.minor, q.value.patch);
    }
  }

  /** The version at `k` is higher than those before it, and no later one is higher. */
  ghost predicate HighestAt(texts: seq<string>, k: nat) {
    && k < |texts|
    && (forall j :: 0 <= j < k ==> LowerPatch(texts[j], texts[k]))
    && (forall j :: k <= j < |texts| ==> !LowerPatch(texts[k], texts[j]))
  }

  function Versions(items: seq<Item>): seq<string> {
    if items == [] then []
    else Versions(items[..|items| - 1]) + if items[|items| - 1].Version? then [items[|items| - 1].text] else []
  }

  ghost predicate RankedAt(texts: seq<string>, k: nat) {
    && k < |texts|
    && (forall j :: 0 <= j < k ==> !RankLeq(Rank(texts[k]), Rank(texts[j])))
    && (forall j :: k <= j < |texts| ==> RankLeq(Rank(texts[j]), Rank(texts[k])))
  }

  lemma VersionsLonger(items: seq<Item>, x: Item)
    ensures Versions(items + [x]) == Versions(items) + if x.Version? then [x.text] else []
  {
    assert (items + [x])[..|items|] == items;
  }

  lemma {:induction false} VersionsConcat(a: seq<Item>, b: seq<Item>)
    ensures Versions(a + b) == Versions(a) + Versions(b)
    decreases |b|
  {
    if b == [] {
      assert a + b == a;
    } else {
      var n := |b| - 1;
      VersionsConcat(a, b[..n]);
      assert a + b == a + b[..n] + [b[n]];
      VersionsLonger(a + b[..n], b[n]);
    }
  }

  lemma RankedStep(texts: seq<string>, k: nat, x: string)
    requires RankedAt(texts, k)
    ensures RankedAt(texts + [x], if RankLeq(Rank(x), Rank(texts[k])) then k else |texts|)
  {
  }

  /** The merge keeps the first of the highest versions. */
  lemma {:induction false} RunKeepsHighest(items: seq<Item>) returns (k: nat)
    requires Run(items).Merged?
    ensures var texts := Versions(items);
            if texts == [] then Run(items).state.version == None
            else RankedAt(texts, k) && Run(items).state.version == Some(texts[k])
    decreases |items|
  {
    k := 0;
    if items != [] {
      var n := |items| - 1;
      var before, x := items[..n], items[n];
      assert items == before + [x];
      RunLonger(before, x);
      k := RunKeepsHighest(before);
      VersionsLonger(before, x);
      if x.Version? {
        var texts := Versions(before);
        if texts == [] {
          k := 0;
        } else {
          RankedStep(texts, k, x.text);
          if !RankLeq(Rank(x.text), Rank(texts[k])) { k := |texts|; }
        }
      }
    }
  }

  /** The versions the contributions declare. */
  function Declared(cs: seq<Contribution>): seq<string> {
    if cs == [] then [] else Declared(cs[..|cs| - 1]) + [TextField(cs[|cs| - 1].document, "openapi")]
  }

  lemma {:induction false} NoVersions(items: seq<Item>)
    requires forall x :: x in items ==> !x.Version?
    ensures Versions(items) == []
    decreases |items|
  {
    if items != [] {
      assert items[|items| - 1] in items;
      NoVersions(items[..|items| - 1]);
    }
  }

  lemma NotVersion(render: Value -> string, m: Object, x: Item)
    requires WellShaped(Obj(m)) && x.Version?
    ensures x !in InfoItems(m) && x !in PathsItems(m) && x !in Flat(Keys(m.Keys), SectionsOf(render, m))
  {
    InfoTells(render, m, x);
    PathsTell(render, m, x);
    SectionsTell(render, m, x);
  }

  lemma NoVersionsAfter(render: Value -> string, m: Object)
    requires WellShaped(Obj(m))
    ensures Versions(InfoItems(m)) == [] && Versions(PathsItems(m)) == []
    ensures Versions(Flat(Keys(m.Keys), SectionsOf(render, m))) == []
  {
    forall x: Item | x.Version?
      ensures x !in InfoItems(m) && x !in PathsItems(m) && x !in Flat(Keys(m.Keys), SectionsOf(render, m))
    {
      NotVersion(render, m, x);
    }
    NoVersions(InfoItems(m));
    NoVersions(PathsItems(m));
    NoVersions(Flat(Keys(m.Keys), SectionsOf(render, m)));
  }

  lemma OnlyFirst(a: seq<Item>, b: seq<Item>, c: seq<Item>, d: seq<Item>)
    requires Versions(b) == [] && Versions(c) == [] && Versions(d) == []
    ensures Versions(a + b + c + d) == Versions(a)
  {
    VersionsConcat(a + b + c, d);
    VersionsConcat(a + b, c);
    VersionsConcat(a, b);
  }

  lemma OneVersion(text: string)
    ensures Versions([Version(text)]) == [text]
  {
    VersionsLonger([], Version(text));
    assert [] + [Version(text)] == [Version(text)];
  }

  lemma DocumentVersion(render: Value -> string, doc: Value)
    requires WellShaped(doc)
    ensures Versions(DocumentItems(render, doc)) == [TextField(doc, "openapi")]
  {
    var m := doc.fields;
    NoVersionsAfter(render, m);
    OnlyFirst(VersionItems(m), InfoItems(m), PathsItems(m), Flat(Keys(m.Keys), SectionsOf(render, m)));
    OneVersion(TextField(doc, "openapi"));
  }

  lemma {:induction false} VersionsDeclared(render: Value -> string, cs: seq<Contribution>)
    requires AllAcceptable(cs)
    ensures Versions(AllItems(render, cs)) == Declared(cs)
    decreases |cs|
  {
    if cs != [] {
      var n := |cs| - 1;
      assert cs[n] in cs && Acceptable(cs[n]);
      VersionsDeclared(render, cs[..n]);
      DocumentVersion(render, cs[n].document);
      VersionsConcat(AllItems(render, cs[..n]), DocumentItems(render, cs[n].document));
    }
  }

  lemma VersionsAgree(render: Value -> string, cs: seq<Contribution>, i: nat, j: nat)
    requires AllAcceptable(cs) && Good(multiset(AllItems(render, cs)))
    requires i < |Declared(cs)| && j < |Declared(cs)|
    ensures Agree(Declared(cs)[i], Declared(cs)[j])
  {
    var items := AllItems(render, cs);
    VersionsDeclared(render, cs);
    VersionsIn(items);
    assert Version(Declared(cs)[i]) in multiset(items) && Version(Declared(cs)[j]) in multiset(items);
  }

  lemma {:induction false} VersionsIn(items: seq<Item>)
    ensures forall v :: v in Versions(items) <==> Version(v) in items
    decreases |items|
  {
    if items != [] {
      var n := |items| - 1;
      VersionsIn(items[..n]);
      assert items == items[..n] + [items[n]];
    }
  }

  /** The combined version is the first of the highest patch. */
  ghost predicate CarriesVersion(v: Value, cs: seq<Contribution>) {
    exists k: nat :: HighestAt(Declared(cs), k) && Lookup(v, ["openapi"]) == Some(Str(Declared(cs)[k]))
  }

  lemma {:induction false} DeclaredLength(cs: seq<Contribution>)
    ensures |Declared(cs)| == |cs|
    ensures forall i :: 0 <= i < |cs| ==> Declared(cs)[i] == TextField(cs[i].document, "openapi")
    decreases |cs|
  {
    if cs != [] { DeclaredLength(cs[..|cs| - 1]); }
  }

  lemma HighestDeclared(render: Value -> string, cs: seq<Contribution>) returns (k: nat)
    requires AllAcceptable(cs) && cs != [] && Run(AllItems(render, cs)).Merged?
    ensures HighestAt(Declared(cs), k) && Run(AllItems(render, cs)).state.version == Some(Declared(cs)[k])
  {
    var items, texts := AllItems(render, cs), Declared(cs);
    RunExactly(items);
    VersionsDeclared(render, cs);
    DeclaredLength(cs);
    k := RunKeepsHighest(items);
    forall j | 0 <= j < k ensures LowerPatch(texts[j], texts[k]) {
      VersionsAgree(render, cs, j, k);
      VersionsAgreeExactly(texts[j], texts[k]);
    }
    forall j | k <= j < |texts| ensures !LowerPatch(texts[k], texts[j]) {
      VersionsAgree(render, cs, k, j);
      VersionsAgreeExactly(texts[k], texts[j]);
    }
  }

  lemma VersionCarried(render: Value -> string, title: string, cs: seq<Contribution>)
    requires Merge(render, title, cs).Merged? && AllAcceptable(cs)
    ensures CarriesVersion(Materialize(Merge(render, title, cs).state, title), cs)
  {
    var s := Merge(render, title, cs).state;
    var k := HighestDeclared(render, cs);
    MaterializedVersion(s, title);
    LookupOne(Materialize(s, title), "openapi");
  }
}
