/**
 * What the combined document says, read off the contributed documents
 * (`merge_openapi_documents` and `materialize`, crates/sdkwork-web-contract/src/openapi_merge.rs).
 */
module OpenApiSections {
  import opened Sorting
  import opened Text
  import opened Json
  import opened OpenApiMerge
  import opened OpenApiDocuments
  import opened OpenApiWriting
  import opened Operations
  import opened OpenApiShapes

  // -- looking things up -----------------------------------------------------------------------------

  /** The value under a chain of member names. */
  function Lookup(v: Value, names: seq<string>): Option<Value> {
    if names == [] then Some(v)
    else if v.Obj? && names[0] in v.fields then Lookup(v.fields[names[0]], names[1..])
    else None
  }

  /** The value of the first contribution that has one there. */
  function FirstLookup(cs: seq<Contribution>, names: seq<string>): Option<Value> {
    if cs == [] then None
    else
      var before := FirstLookup(cs[..|cs| - 1], names);
      if before.Some? then before else Lookup(cs[|cs| - 1].document, names)
  }

  lemma LookupOne(v: Value, a: string)
    ensures Lookup(v, [a]) == if v.Obj? && a in v.fields then Some(v.fields[a]) else None
  {
    assert [a][1..] == [];
  }

  lemma LookupMore(v: Value, a: string, rest: seq<string>)
    ensures Lookup(v, [a] + rest) == if v.Obj? && a in v.fields then Lookup(v.fields[a], rest) else None
  {
    assert ([a] + rest)[1..] == rest;
  }

  lemma LookupTwo(v: Value, a: string, b: string)
    ensures Lookup(v, [a, b]) == if v.Obj? && a in v.fields then Lookup(v.fields[a], [b]) else None
    ensures forall w :: Lookup(v, [a, b]) == Some(w) <==> HasUnder(v, a, b, w)
  {
    assert [a, b] == [a] + [b];
    LookupMore(v, a, [b]);
    if v.Obj? && a in v.fields { LookupOne(v.fields[a], b); }
  }

  lemma LookupThree(v: Value, a: string, b: string, c: string)
    ensures Lookup(v, [a, b, c]) == if v.Obj? && a in v.fields then Lookup(v.fields[a], [b, c]) else None
  {
    assert [a, b, c] == [a] + [b, c];
    LookupMore(v, a, [b, c]);
  }

  // -- the first entry of a location -----------------------------------------------------------------

  ghost predicate Acceptable(c: Contribution) {
    !Blank(c.owner) && WellShaped(c.document)
  }

  ghost predicate AllAcceptable(cs: seq<Contribution>) {
    forall c :: c in cs ==> Acceptable(c)
  }

  lemma {:induction false} FirstAtConcat(a: seq<Item>, b: seq<Item>, loc: Loc)
    ensures FirstAt(a + b, loc) == if FirstAt(a, loc).Some? then FirstAt(a, loc) else FirstAt(b, loc)
    decreases |b|
  {
    if b == [] {
      assert a + b == a;
    } else {
      var n := |b| - 1;
      FirstAtConcat(a, b[..n], loc);
      assert a + b == a + b[..n] + [b[n]];
      FirstAtLonger(a + b[..n], b[n], loc);
    }
  }

  /** A section or namespace is only marked as present. */
  predicate IsMark(loc: Loc) {
    loc.Path? || loc.Namespace? || loc.Components? || loc.Tags? || loc.Servers? || loc.Security? || loc.Webhooks?
  }

  function Noted(loc: Loc, o: Option<Value>): Option<Value> {
    if o.Some? && IsMark(loc) then Some(Null) else o
  }

  /** The location is what stands under `names`, in every document. */
  ghost predicate StandsUnder(render: Value -> string, loc: Loc, names: seq<string>) {
    forall doc, w :: WellShaped(doc) ==>
      (Holds(render, doc, loc, w) <==> Noted(loc, Lookup(doc, names)) == Some(w))
  }

  lemma FirstInDocument(render: Value -> string, doc: Value, loc: Loc, names: seq<string>)
    requires WellShaped(doc) && StandsUnder(render, loc, names)
    ensures FirstAt(DocumentItems(render, doc), loc) == Noted(loc, Lookup(doc, names))
  {
    var items := DocumentItems(render, doc);
    var o := Noted(loc, Lookup(doc, names));
    FirstAtIn(items, loc);
    if o.Some? {
      assert Holds(render, doc, loc, o.value);
      DocumentTells(render, doc, Put(loc, o.value));
    }
    if FirstAt(items, loc).Some? { DocumentTells(render, doc, Put(loc, FirstAt(items, loc).value)); }
  }

  lemma {:induction false} FirstAmong(render: Value -> string, cs: seq<Contribution>, loc: Loc, names: seq<string>)
    requires AllAcceptable(cs) && StandsUnder(render, loc, names)
    ensures FirstAt(AllItems(render, cs), loc) == Noted(loc, FirstLookup(cs, names))
    decreases |cs|
  {
    if cs != [] {
      var n := |cs| - 1;
      assert cs[n] in cs && Acceptable(cs[n]);
      FirstAmong(render, cs[..n], loc, names);
      FirstInDocument(render, cs[n].document, loc, names);
      FirstAtConcat(AllItems(render, cs[..n]), DocumentItems(render, cs[n].document), loc);
    }
  }

  // -- where each location stands --------------------------------------------------------------------

  lemma InfoStands(render: Value -> string, k: string)
    requires k != "title"
    ensures StandsUnder(render, Info(k), ["info", k])
  {
    forall doc, w | WellShaped(doc)
      ensures Holds(render, doc, Info(k), w) <==> Lookup(doc, ["info", k]) == Some(w)
    {
      LookupTwo(doc, "info", k);
    }
  }

  lemma PathStands(render: Value -> string, p: string)
    ensures StandsUnder(render, Path(p), ["paths", p])
  {
    forall doc, w | WellShaped(doc)
      ensures Holds(render, doc, Path(p), w) <==> Noted(Path(p), Lookup(doc, ["paths", p])) == Some(w)
    {
      LookupTwo(doc, "paths", p);
      LookupOne(doc.fields["paths"], p);
    }
  }

  lemma FieldStands(render: Value -> string, p: string, f: string)
    ensures StandsUnder(render, FieldAt(p, f), ["paths", p, f])
  {
    forall doc, w | WellShaped(doc)
      ensures Holds(render, doc, FieldAt(p, f), w) <==> Lookup(doc, ["paths", p, f]) == Some(w)
    {
      LookupThree(doc, "paths", p, f);
      LookupTwo(doc.fields["paths"], p, f);
    }
  }

  lemma MarkTells(render: Value -> string, x: Section, v: Value, w: Value)
    ensures Home(SectionMark(x)) == SectionName(x) && IsMark(SectionMark(x))
    ensures HoldsIn(render, v, SectionMark(x), w) <==> w == Null
  {
  }

  lemma SectionStands(render: Value -> string, x: Section)
    ensures StandsUnder(render, SectionMark(x), [SectionName(x)])
  {
    var loc, name := SectionMark(x), SectionName(x);
    forall doc, w | WellShaped(doc) ensures Holds(render, doc, loc, w) <==> Noted(loc, Lookup(doc, [name])) == Some(w) {
      LookupOne(doc, name);
      MarkTells(render, x, Get(doc.fields, name), w);
    }
  }

  lemma ExtensionStands(render: Value -> string, k: string)
    requires IsExtension(k)
    ensures StandsUnder(render, ComponentExtension(k), ["components", k])
  {
    forall doc, w | WellShaped(doc)
      ensures Holds(render, doc, ComponentExtension(k), w) <==> Lookup(doc, ["components", k]) == Some(w)
    {
      LookupTwo(doc, "components", k);
    }
  }

  lemma NamespaceStands(render: Value -> string, k: string)
    requires !IsExtension(k)
    ensures StandsUnder(render, Namespace(k), ["components", k])
  {
    forall doc, w | WellShaped(doc)
      ensures Holds(render, doc, Namespace(k), w) <==>
        Noted(Namespace(k), Lookup(doc, ["components", k])) == Some(w)
    {
      LookupTwo(doc, "components", k);
      if "components" in doc.fields { LookupOne(doc.fields["components"], k); }
    }
  }

  lemma ComponentStands(render: Value -> string, k: string, n: string)
    requires !IsExtension(k)
    ensures StandsUnder(render, Component(k, n), ["components", k, n])
  {
    forall doc, w | WellShaped(doc)
      ensures Holds(render, doc, Component(k, n), w) <==> Lookup(doc, ["components", k, n]) == Some(w)
    {
      LookupThree(doc, "components", k, n);
      if "components" in doc.fields { LookupTwo(doc.fields["components"], k, n); }
    }
  }

  lemma WebhookStands(render: Value -> string, n: string)
    ensures StandsUnder(render, Webhook(n), ["webhooks", n])
  {
    forall doc, w | WellShaped(doc)
      ensures Holds(render, doc, Webhook(n), w) <==> Lookup(doc, ["webhooks", n]) == Some(w)
    {
      LookupTwo(doc, "webhooks", n);
    }
  }

  lemma PlainStands(render: Value -> string, k: string)
    requires !IsHead(k) && !IsSectionName(k)
    ensures StandsUnder(render, TopLevel(k), [k])
  {
    forall doc, w | WellShaped(doc)
      ensures Holds(render, doc, TopLevel(k), w) <==> Lookup(doc, [k]) == Some(w)
    {
      LookupOne(doc, k);
      if k in doc.fields { assert SectionOk(k, doc.fields[k]); }
    }
  }

  // -- the merged state ------------------------------------------------------------------------------

  function Entry(e: Entries, loc: Loc): Option<Value> {
    if loc in e then Some(e[loc]) else None
  }

  /** A state that holds what the contributions hold. */
  ghost predicate Gathered(render: Value -> string, cs: seq<Contribution>, e: Entries) {
    && (forall loc, names :: StandsUnder(render, loc, names) ==> Entry(e, loc) == Noted(loc, FirstLookup(cs, names)))
    && (forall loc :: loc in e ==> exists c :: c in cs && Holds(render, c.document, loc, e[loc]))
    && (forall c, loc, w :: c in cs && Holds(render, c.document, loc, w) ==> loc in e)
  }

  lemma AcceptableItems(render: Value -> string, cs: seq<Contribution>)
    ensures Clean(AllItems(render, cs)) <==> AllAcceptable(cs)
  {
    var g := ContributionItems(render);
    FlatCleanExactly(cs, g);
    forall c | c in cs ensures Clean(g(c)) <==> Acceptable(c) {
      DocumentTells(render, c.document, Bad(EmptyOwner));
      OneClean(Bad(EmptyOwner));
    }
  }

  lemma EntrySource(render: Value -> string, cs: seq<Contribution>, x: Item)
    requires AllAcceptable(cs) && x.Put?
    ensures x in AllItems(render, cs) <==> exists c :: c in cs && Holds(render, c.document, x.loc, x.value)
  {
    FlatMember(cs, ContributionItems(render), x);
    forall c | c in cs
      ensures x in ContributionItems(render)(c) <==> Holds(render, c.document, x.loc, x.value)
    {
      assert Acceptable(c);
      DocumentTells(render, c.document, x);
    }
  }

  lemma MergedGathers(render: Value -> string, title: string, cs: seq<Contribution>)
    requires Merge(render, title, cs).Merged?
    ensures AllAcceptable(cs) && Gathered(render, cs, Merge(render, title, cs).state.entries)
  {
    var items, e := AllItems(render, cs), Merge(render, title, cs).state.entries;
    RunExactly(items);
    forall x | x in items ensures !x.Bad? { assert x in multiset(items); }
    AcceptableItems(render, cs);
    forall loc, names | StandsUnder(render, loc, names)
      ensures Entry(e, loc) == Noted(loc, FirstLookup(cs, names))
    {
      FirstAmong(render, cs, loc, names);
    }
    forall loc | loc in e ensures exists c :: c in cs && Holds(render, c.document, loc, e[loc]) {
      FirstAtIn(items, loc);
      EntrySource(render, cs, Put(loc, e[loc]));
    }
    forall c, loc, w | c in cs && Holds(render, c.document, loc, w) ensures loc in e {
      EntrySource(render, cs, Put(loc, w));
      FirstAtIn(items, loc);
    }
  }

  // -- the written document --------------------------------------------------------------------------

  lemma WrittenInfo(s: State, title: string, k: string)
    ensures Lookup(Materialize(s, title), ["info", k]) ==
      if Info(k) in s.entries then Entry(s.entries, Info(k)) else if k == "title" then Some(Str(Trim(title))) else None
  {
    LookupTwo(Materialize(s, title), "info", k);
    LookupOne(Obj(InfoOf(s.entries, title)), k);
  }

  lemma WrittenPath(s: State, title: string, p: string)
    ensures Lookup(Materialize(s, title), ["paths", p]) ==
      if Path(p) in s.entries then Some(Obj(PathItemOf(s.entries, p))) else None
  {
    LookupTwo(Materialize(s, title), "paths", p);
    LookupOne(Obj(PathsOf(s.entries)), p);
  }

  lemma WrittenField(s: State, title: string, p: string, f: string)
    requires Path(p) in s.entries <== FieldAt(p, f) in s.entries
    requires f in HTTP_METHODS ==> PathField(p, f) !in s.entries
    requires f !in HTTP_METHODS ==> Operation(p, f) !in s.entries
    ensures Lookup(Materialize(s, title), ["paths", p, f]) == Entry(s.entries, FieldAt(p, f))
  {
    var e := s.entries;
    LookupThree(Materialize(s, title), "paths", p, f);
    LookupTwo(Obj(PathsOf(e)), p, f);
    if Path(p) in e {
      LookupOne(Obj(PathItemOf(e, p)), f);
      assert f in FieldNames(e, p) <==> FieldAt(p, f) in e;
    }
  }

  /** A section is written exactly when it was seen. */
  lemma WrittenUnder(s: State, title: string, x: Section)
    requires TopLevel(SectionName(x)) !in s.entries
    ensures Lookup(Materialize(s, title), [SectionName(x)]) ==
      if SectionMark(x) in s.entries then Some(SectionValue(s.entries, x)) else None
  {
    var k := SectionName(x);
    LookupOne(Materialize(s, title), k);
    MaterializedSection(s, title, x);
    NotAHead(x);
    SectionsListed(x);
    WrittenNames(TopLevelsOf(s.entries), s.entries, SECTIONS, k);
    forall y | SectionName(y) == k { SectionNamesDiffer(y, x); }
  }

  lemma NotSection(x: Section, k: string)
    requires !IsSectionName(k)
    ensures SectionName(x) != k
  {
  }

  lemma MaterializedOther(s: State, title: string, k: string)
    requires !IsHead(k)
    ensures var m := WithSections(TopLevelsOf(s.entries), s.entries, SECTIONS);
            Lookup(Materialize(s, title), [k]) == if k in m then Some(m[k]) else None
  {
    LookupOne(Materialize(s, title), k);
  }

  lemma WrittenPlain(s: State, title: string, k: string)
    requires !IsHead(k) && !IsSectionName(k)
    ensures Lookup(Materialize(s, title), [k]) == Entry(s.entries, TopLevel(k))
  {
    forall x { NotSection(x, k); }
    MaterializedOther(s, title, k);
    WrittenNames(TopLevelsOf(s.entries), s.entries, SECTIONS, k);
    OtherFields(TopLevelsOf(s.entries), s.entries, SECTIONS, k);
  }

  lemma {:induction false} OtherFields(m: Object, e: Entries, xs: seq<Section>, k: string)
    requires forall x :: SectionName(x) != k
    ensures Get(WithSections(m, e, xs), k) == Get(m, k)
    decreases |xs|
  {
    if xs != [] { OtherFields(m, e, xs[..|xs| - 1], k); }
  }

  // -- member by member ------------------------------------------------------------------------------

  /** The combined document has there what the first contribution with something there has. */
  ghost predicate Carries(v: Value, cs: seq<Contribution>, names: seq<string>) {
    Lookup(v, names) == FirstLookup(cs, names)
  }

  /** The combined document has an object there exactly when some contribution has something there. */
  ghost predicate Opens(v: Value, cs: seq<Contribution>, names: seq<string>) {
    && (Lookup(v, names).Some? <==> FirstLookup(cs, names).Some?)
    && (Lookup(v, names).Some? ==> Lookup(v, names).value.Obj?)
  }

  ghost predicate CarriesInfo(v: Value, cs: seq<Contribution>) {
    Opens(v, cs, ["info"]) && forall k :: k != "title" ==> Carries(v, cs, ["info", k])
  }

  ghost predicate CarriesPaths(v: Value, cs: seq<Contribution>) {
    && Opens(v, cs, ["paths"])
    && (forall p :: Opens(v, cs, ["paths", p]))
    && (forall p, f :: Carries(v, cs, ["paths", p, f]))
  }

  ghost predicate CarriesComponents(v: Value, cs: seq<Contribution>) {
    && Opens(v, cs, ["components"])
    && (forall k :: if IsExtension(k) then Carries(v, cs, ["components", k]) else Opens(v, cs, ["components", k]))
    && (forall k, n :: !IsExtension(k) ==> Carries(v, cs, ["components", k, n]))
  }

  ghost predicate CarriesWebhooks(v: Value, cs: seq<Contribution>) {
    Opens(v, cs, ["webhooks"]) && forall n :: Carries(v, cs, ["webhooks", n])
  }

  ghost predicate CarriesPlain(v: Value, cs: seq<Contribution>) {
    forall k :: !IsHead(k) && !IsSectionName(k) ==> Carries(v, cs, [k])
  }

  lemma {:induction false} FirstLookupSome(cs: seq<Contribution>, names: seq<string>)
    ensures FirstLookup(cs, names).Some? <==> exists c :: c in cs && Lookup(c.document, names).Some?
    decreases |cs|
  {
    if cs != [] {
      var n := |cs| - 1;
      FirstLookupSome(cs[..n], names);
      assert cs == cs[..n] + [cs[n]];
    }
  }

  lemma HeadCarried(cs: seq<Contribution>, field: string)
    requires cs != [] && AllAcceptable(cs) && (field == "info" || field == "paths")
    ensures FirstLookup(cs, [field]).Some?
  {
    assert cs[0] in cs && Acceptable(cs[0]);
    LookupOne(cs[0].document, field);
    FirstLookupSome(cs, [field]);
  }

  lemma HeadOpened(title: string, cs: seq<Contribution>, s: State, field: string)
    requires cs != [] && AllAcceptable(cs) && (field == "info" || field == "paths")
    ensures Opens(Materialize(s, title), cs, [field])
  {
    HeadCarried(cs, field);
    LookupOne(Materialize(s, title), field);
  }

  lemma InfoAt(render: Value -> string, title: string, cs: seq<Contribution>, s: State, k: string)
    requires Gathered(render, cs, s.entries) && k != "title"
    ensures Carries(Materialize(s, title), cs, ["info", k])
  {
    InfoStands(render, k);
    WrittenInfo(s, title, k);
  }

  lemma InfoCarried(render: Value -> string, title: string, cs: seq<Contribution>, s: State)
    requires cs != [] && AllAcceptable(cs) && Gathered(render, cs, s.entries)
    ensures CarriesInfo(Materialize(s, title), cs)
  {
    HeadOpened(title, cs, s, "info");
    forall k | k != "title" ensures Carries(Materialize(s, title), cs, ["info", k]) { InfoAt(render, title, cs, s, k); }
  }

  lemma TitleWritten(render: Value -> string, title: string, cs: seq<Contribution>, s: State)
    requires Gathered(render, cs, s.entries)
    ensures Lookup(Materialize(s, title), ["info", "title"]) == Some(Str(Trim(title)))
  {
    WrittenInfo(s, title, "title");
    assert Info("title") !in s.entries;
  }

  lemma FieldHeld(render: Value -> string, cs: seq<Contribution>, e: Entries, p: string, f: string)
    requires Gathered(render, cs, e)
    ensures FieldAt(p, f) in e ==> Path(p) in e
    ensures if f in HTTP_METHODS then PathField(p, f) !in e else Operation(p, f) !in e
  {
    var loc := FieldAt(p, f);
    if loc in e {
      var c :| c in cs && Holds(render, c.document, loc, e[loc]);
      assert Holds(render, c.document, Path(p), Null);
    }
  }

  lemma PathAt(render: Value -> string, title: string, cs: seq<Contribution>, s: State, p: string)
    requires Gathered(render, cs, s.entries)
    ensures Opens(Materialize(s, title), cs, ["paths", p])
  {
    PathStands(render, p);
    WrittenPath(s, title, p);
  }

  lemma PathFieldAt(render: Value -> string, title: string, cs: seq<Contribution>, s: State, p: string, f: string)
    requires Gathered(render, cs, s.entries)
    ensures Carries(Materialize(s, title), cs, ["paths", p, f])
  {
    FieldHeld(render, cs, s.entries, p, f);
    FieldStands(render, p, f);
    WrittenField(s, title, p, f);
  }

  lemma PathsCarried(render: Value -> string, title: string, cs: seq<Contribution>, s: State)
    requires cs != [] && AllAcceptable(cs) && Gathered(render, cs, s.entries)
    ensures CarriesPaths(Materialize(s, title), cs)
  {
    var v := Materialize(s, title);
    HeadOpened(title, cs, s, "paths");
    forall p ensures Opens(v, cs, ["paths", p]) { PathAt(render, title, cs, s, p); }
    forall p, f ensures Carries(v, cs, ["paths", p, f]) { PathFieldAt(render, title, cs, s, p, f); }
  }

  lemma NoPlainSection(render: Value -> string, cs: seq<Contribution>, e: Entries, x: Section)
    requires Gathered(render, cs, e)
    ensures TopLevel(SectionName(x)) !in e
  {
    var loc := TopLevel(SectionName(x));
    if loc in e {
      var c :| c in cs && Holds(render, c.document, loc, e[loc]);
      SectionPlain(x);
      SectionsNamed(x);
    }
  }

  lemma SectionsNamed(x: Section)
    ensures IsSectionName(SectionName(x)) && !IsPlain(SectionName(x))
  {
    SectionPlain(x);
  }

  lemma SectionOpened(render: Value -> string, title: string, cs: seq<Contribution>, s: State, x: Section)
    requires Gathered(render, cs, s.entries)
    ensures Lookup(Materialize(s, title), [SectionName(x)]) ==
      if FirstLookup(cs, [SectionName(x)]).Some? then Some(SectionValue(s.entries, x)) else None
  {
    NoPlainSection(render, cs, s.entries, x);
    WrittenUnder(s, title, x);
    SectionStands(render, x);
    assert StandsUnder(render, SectionMark(x), [SectionName(x)]);
    MarkTells(render, x, Null, Null);
  }

  /** What lies under an object section. */
  lemma UnderSection(render: Value -> string, title: string, cs: seq<Contribution>, s: State, x: Section, k: string)
    requires Gathered(render, cs, s.entries)
    ensures Lookup(Materialize(s, title), [SectionName(x), k]) ==
      if FirstLookup(cs, [SectionName(x)]).Some? then Lookup(SectionValue(s.entries, x), [k]) else None
  {
    SectionOpened(render, title, cs, s, x);
    LookupOne(Materialize(s, title), SectionName(x));
    LookupTwo(Materialize(s, title), SectionName(x), k);
  }

  lemma LongerLookup(cs: seq<Contribution>, a: string, b: string)
    ensures FirstLookup(cs, [a, b]).Some? ==> FirstLookup(cs, [a]).Some?
  {
    FirstLookupSome(cs, [a]);
    FirstLookupSome(cs, [a, b]);
    if c :| c in cs && Lookup(c.document, [a, b]).Some? {
      LookupOne(c.document, a);
      LookupTwo(c.document, a, b);
    }
  }

  lemma WebhookAt(render: Value -> string, title: string, cs: seq<Contribution>, s: State, n: string)
    requires Gathered(render, cs, s.entries)
    ensures Carries(Materialize(s, title), cs, ["webhooks", n])
  {
    UnderSection(render, title, cs, s, WebhooksSection, n);
    LookupOne(Obj(WebhooksOf(s.entries)), n);
    WebhookStands(render, n);
    LongerLookup(cs, "webhooks", n);
  }

  lemma WebhooksCarried(render: Value -> string, title: string, cs: seq<Contribution>, s: State)
    requires Gathered(render, cs, s.entries)
    ensures CarriesWebhooks(Materialize(s, title), cs)
  {
    SectionOpened(render, title, cs, s, WebhooksSection);
    forall n ensures Carries(Materialize(s, title), cs, ["webhooks", n]) { WebhookAt(render, title, cs, s, n); }
  }

  lemma UnderComponents(e: Entries, k: string)
    ensures Lookup(Obj(ComponentsOf(e)), [k]) ==
      if Namespace(k) in e then Some(Obj(NamespaceOf(e, k))) else Entry(e, ComponentExtension(k))
  {
    LookupOne(Obj(ComponentsOf(e)), k);
  }

  lemma ExtensionAt(render: Value -> string, title: string, cs: seq<Contribution>, s: State, k: string)
    requires Gathered(render, cs, s.entries) && IsExtension(k)
    ensures Carries(Materialize(s, title), cs, ["components", k])
  {
    SpacesSeparate(render, cs, s.entries, k);
    UnderSection(render, title, cs, s, ComponentsSection, k);
    UnderComponents(s.entries, k);
    ExtensionStands(render, k);
    LongerLookup(cs, "components", k);
  }

  lemma SpaceAt(render: Value -> string, title: string, cs: seq<Contribution>, s: State, k: string)
    requires Gathered(render, cs, s.entries) && !IsExtension(k)
    ensures Opens(Materialize(s, title), cs, ["components", k])
  {
    SpacesSeparate(render, cs, s.entries, k);
    UnderSection(render, title, cs, s, ComponentsSection, k);
    UnderComponents(s.entries, k);
    NamespaceStands(render, k);
    LongerLookup(cs, "components", k);
  }

  lemma SpacesSeparate(render: Value -> string, cs: seq<Contribution>, e: Entries, k: string)
    requires Gathered(render, cs, e)
    ensures if IsExtension(k) then Namespace(k) !in e else ComponentExtension(k) !in e
    ensures forall n :: Component(k, n) in e ==> Namespace(k) in e
  {
    assert if IsExtension(k) then Namespace(k) !in e else ComponentExtension(k) !in e;
    forall n | Component(k, n) in e ensures Namespace(k) in e {
      var c :| c in cs && Holds(render, c.document, Component(k, n), e[Component(k, n)]);
      assert Holds(render, c.document, Namespace(k), Null);
    }
  }

  lemma UnderSpace(s: State, k: string, n: string)
    requires Namespace(k) in s.entries <== Component(k, n) in s.entries
    requires ComponentExtension(k) !in s.entries
    ensures Lookup(Obj(ComponentsOf(s.entries)), [k, n]) == Entry(s.entries, Component(k, n))
  {
    LookupTwo(Obj(ComponentsOf(s.entries)), k, n);
    LookupOne(Obj(NamespaceOf(s.entries, k)), n);
  }

  lemma ComponentAt(render: Value -> string, title: string, cs: seq<Contribution>, s: State, k: string, n: string)
    requires Gathered(render, cs, s.entries) && !IsExtension(k)
    ensures Carries(Materialize(s, title), cs, ["components", k, n])
  {
    SectionOpened(render, title, cs, s, ComponentsSection);
    LookupOne(Materialize(s, title), "components");
    LookupThree(Materialize(s, title), "components", k, n);
    ComponentStands(render, k, n);
    SpacesSeparate(render, cs, s.entries, k);
    UnderSpace(s, k, n);
    ComponentSeen(cs, k, n);
  }

  lemma ComponentSeen(cs: seq<Contribution>, k: string, n: string)
    ensures FirstLookup(cs, ["components", k, n]).Some? ==> FirstLookup(cs, ["components"]).Some?
  {
    FirstLookupSome(cs, ["components"]);
    FirstLookupSome(cs, ["components", k, n]);
    if c :| c in cs && Lookup(c.document, ["components", k, n]).Some? {
      LookupOne(c.document, "components");
      LookupThree(c.document, "components", k, n);
    }
  }

  lemma ComponentsCarried(render: Value -> string, title: string, cs: seq<Contribution>, s: State)
    requires Gathered(render, cs, s.entries)
    ensures CarriesComponents(Materialize(s, title), cs)
  {
    var v := Materialize(s, title);
    SectionOpened(render, title, cs, s, ComponentsSection);
    forall k | IsExtension(k) ensures Carries(v, cs, ["components", k]) { ExtensionAt(render, title, cs, s, k); }
    forall k | !IsExtension(k) ensures Opens(v, cs, ["components", k]) { SpaceAt(render, title, cs, s, k); }
    forall k, n | !IsExtension(k) ensures Carries(v, cs, ["components", k, n]) {
      ComponentAt(render, title, cs, s, k, n);
    }
  }

  lemma PlainCarried(render: Value -> string, title: string, cs: seq<Contribution>, s: State)
    requires Gathered(render, cs, s.entries)
    ensures CarriesPlain(Materialize(s, title), cs)
  {
    forall k | !IsHead(k) && !IsSectionName(k) ensures Carries(Materialize(s, title), cs, [k]) {
      WrittenPlain(s, title, k);
      PlainStands(render, k);
    }
  }
}
