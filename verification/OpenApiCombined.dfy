/**
 * Combining OpenAPI documents, from the contributed documents to the combined one
 * (`merge_openapi_documents`, crates/sdkwork-web-contract/src/openapi_merge.rs): exactly when it succeeds, and
 * everything the combined document says.
 */
module OpenApiCombined {
  import opened Sorting
  import opened Text
  import opened Json
  import opened OpenApiMerge
  import opened OpenApiDocuments
  import opened OpenApiWriting
  import opened Operations
  import opened OpenApiShapes
  import opened OpenApiSections
  import opened OpenApiLists
  import opened OpenApiVersions

  // -- what the combined document says ---------------------------------------------------------------

  /**
   * The version of the highest patch, the given title, every other member as the first contribution that has it
   * has it, and the first tag of every name, server of every url and requirement of every spelling.
   */
  ghost predicate Combines(render: Value -> string, title: string, cs: seq<Contribution>, v: Value) {
    && CarriesVersion(v, cs) && Lookup(v, ["info", "title"]) == Some(Str(Trim(title)))
    && CarriesMembers(v, cs) && CarriesLists(render, v, cs)
  }

  ghost predicate CarriesMembers(v: Value, cs: seq<Contribution>) {
    && v.Obj? && CarriesInfo(v, cs) && CarriesPaths(v, cs) && CarriesComponents(v, cs) && CarriesWebhooks(v, cs)
    && CarriesPlain(v, cs)
  }

  ghost predicate CarriesLists(render: Value -> string, v: Value, cs: seq<Contribution>) {
    && CarriesList(v, cs, "tags", NameKey())
    && CarriesList(v, cs, "servers", UrlKey())
    && CarriesList(v, cs, "security", render)
  }

  lemma MembersCarried(render: Value -> string, title: string, cs: seq<Contribution>, s: State)
    requires cs != [] && AllAcceptable(cs) && Gathered(render, cs, s.entries)
    ensures CarriesMembers(Materialize(s, title), cs)
  {
    InfoCarried(render, title, cs, s);
    PathsCarried(render, title, cs, s);
    ComponentsCarried(render, title, cs, s);
    WebhooksCarried(render, title, cs, s);
    PlainCarried(render, title, cs, s);
  }

  lemma ListsCarried(render: Value -> string, v: Value, cs: seq<Contribution>)
    requires forall x :: IsList(x) ==> CarriesList(v, cs, SectionName(x), KeyIn(render, x))
    ensures CarriesLists(render, v, cs)
  {
    assert CarriesList(v, cs, SectionName(TagsSection), KeyIn(render, TagsSection));
    assert CarriesList(v, cs, SectionName(ServersSection), KeyIn(render, ServersSection));
    assert CarriesList(v, cs, SectionName(SecuritySection), KeyIn(render, SecuritySection));
  }

  lemma MergedLists(render: Value -> string, title: string, cs: seq<Contribution>)
    requires Merge(render, title, cs).Merged?
    ensures CarriesLists(render, Materialize(Merge(render, title, cs).state, title), cs)
  {
    var v := Materialize(Merge(render, title, cs).state, title);
    forall x | IsList(x) ensures CarriesList(v, cs, SectionName(x), KeyIn(render, x)) {
      ListCarried(render, title, cs, x);
    }
    ListsCarried(render, v, cs);
  }

  /** The combined document combines its contributions. */
  lemma MergedCombines(render: Value -> string, title: string, cs: seq<Contribution>)
    requires Merge(render, title, cs).Merged?
    ensures Combines(render, title, cs, Materialize(Merge(render, title, cs).state, title))
  {
    var s := Merge(render, title, cs).state;
    MergedGathers(render, title, cs);
    VersionCarried(render, title, cs);
    TitleWritten(render, title, cs, s);
    MembersCarried(render, title, cs, s);
    MergedLists(render, title, cs);
  }

  // -- when documents merge --------------------------------------------------------------------------

  /** Contributions that both have something there have the same. */
  ghost predicate Agreed(cs: seq<Contribution>, names: seq<string>) {
    forall c, d :: c in cs && d in cs && Lookup(c.document, names).Some? && Lookup(d.document, names).Some? ==>
      Lookup(c.document, names) == Lookup(d.document, names)
  }

  /** No two contributions have the same operation, however alike. */
  ghost predicate OperationsApart(cs: seq<Contribution>) {
    forall i, j, p, f :: 0 <= i < j < |cs| && f in HTTP_METHODS ==>
      Lookup(cs[i].document, ["paths", p, f]).None? || Lookup(cs[j].document, ["paths", p, f]).None?
  }

  ghost predicate OneLine(cs: seq<Contribution>) {
    forall a, b :: a in Declared(cs) && b in Declared(cs) ==> SameLine(a, b)
  }

  ghost predicate TagsAgreed(cs: seq<Contribution>) {
    var tags := Elements(cs, "tags");
    forall x, y :: x in tags && y in tags && TextField(x, "name") == TextField(y, "name") ==> x == y
  }

  ghost predicate FieldsAgreed(cs: seq<Contribution>) {
    forall p, f :: f !in HTTP_METHODS ==> Agreed(cs, ["paths", p, f])
  }

  ghost predicate WebhooksAgreed(cs: seq<Contribution>) {
    forall n :: Agreed(cs, ["webhooks", n])
  }

  ghost predicate ExtensionsAgreed(cs: seq<Contribution>) {
    forall k :: IsExtension(k) ==> Agreed(cs, ["components", k])
  }

  /** The title is the composer's, and the first version, description and extensions stay. */
  predicate MayDiffer(k: string) {
    k == "title" || k == "version" || k == "description" || IsExtension(k)
  }

  ghost predicate InfoAgreed(cs: seq<Contribution>) {
    forall k :: !MayDiffer(k) ==> Agreed(cs, ["info", k])
  }

  ghost predicate PlainAgreed(cs: seq<Contribution>) {
    Agreed(cs, ["jsonSchemaDialect"]) && Agreed(cs, ["externalDocs"])
  }

  /** What may not differ between contributions: everything else takes the first value. */
  ghost predicate MembersAgreed(cs: seq<Contribution>) {
    FieldsAgreed(cs) && WebhooksAgreed(cs) && ExtensionsAgreed(cs) && InfoAgreed(cs) && PlainAgreed(cs)
  }

  ghost predicate Mergeable(title: string, cs: seq<Contribution>) {
    && !Blank(title) && cs != [] && AllAcceptable(cs)
    && OneLine(cs) && OperationsApart(cs) && TagsAgreed(cs) && MembersAgreed(cs)
  }

  /** The contributions hold one value at the location. */
  ghost predicate OneValue(render: Value -> string, cs: seq<Contribution>, loc: Loc) {
    forall c, d, w, u ::
      c in cs && d in cs && Holds(render, c.document, loc, w) && Holds(render, d.document, loc, u) ==> w == u
  }

  lemma HeldUnder(render: Value -> string, c: Contribution, loc: Loc, names: seq<string>, w: Value)
    requires Acceptable(c) && StandsUnder(render, loc, names) && !IsMark(loc)
    ensures Holds(render, c.document, loc, w) <==> Lookup(c.document, names) == Some(w)
  {
  }

  lemma OneValueUnder(render: Value -> string, cs: seq<Contribution>, loc: Loc, names: seq<string>)
    requires AllAcceptable(cs) && StandsUnder(render, loc, names) && !IsMark(loc)
    ensures OneValue(render, cs, loc) <==> Agreed(cs, names)
  {
    forall c, w | c in cs ensures Holds(render, c.document, loc, w) <==> Lookup(c.document, names) == Some(w) {
      HeldUnder(render, c, loc, names, w);
    }
    OneLookup(render, cs, loc, names);
  }

  lemma OneLookup(render: Value -> string, cs: seq<Contribution>, loc: Loc, names: seq<string>)
    requires forall c, w :: c in cs ==> (Holds(render, c.document, loc, w) <==> Lookup(c.document, names) == Some(w))
    ensures OneValue(render, cs, loc) <==> Agreed(cs, names)
  {
    if OneValue(render, cs, loc) {
      forall c, d | c in cs && d in cs && Lookup(c.document, names).Some? && Lookup(d.document, names).Some?
        ensures Lookup(c.document, names) == Lookup(d.document, names)
      {
        assert Holds(render, c.document, loc, Lookup(c.document, names).value);
        assert Holds(render, d.document, loc, Lookup(d.document, names).value);
      }
    }
    if Agreed(cs, names) {
      forall c, d, w, u | c in cs && d in cs && Holds(render, c.document, loc, w) && Holds(render, d.document, loc, u)
        ensures w == u
      {
        assert Lookup(c.document, names) == Some(w) && Lookup(d.document, names) == Some(u);
      }
    }
  }

  /** The items with one location have one value. */
  ghost predicate OneItem(items: seq<Item>, loc: Loc) {
    forall x, y :: x in items && y in items && x.Put? && y.Put? && x.loc == loc && y.loc == loc ==> x.value == y.value
  }

  lemma HeldItem(render: Value -> string, cs: seq<Contribution>, c: Contribution, loc: Loc, w: Value)
    requires AllAcceptable(cs) && c in cs && Holds(render, c.document, loc, w)
    ensures Put(loc, w) in AllItems(render, cs)
  {
    EntrySource(render, cs, Put(loc, w));
  }

  lemma OneItemValue(items: seq<Item>, loc: Loc, w: Value, u: Value)
    requires OneItem(items, loc) && Put(loc, w) in items && Put(loc, u) in items
    ensures w == u
  {
    assert Put(loc, w).value == Put(loc, u).value;
  }

  lemma ItemsOneValue(render: Value -> string, cs: seq<Contribution>, loc: Loc)
    requires AllAcceptable(cs) && OneItem(AllItems(render, cs), loc)
    ensures OneValue(render, cs, loc)
  {
    forall c, d, w, u | c in cs && d in cs && Holds(render, c.document, loc, w) && Holds(render, d.document, loc, u)
      ensures w == u
    {
      HeldItem(render, cs, c, loc, w);
      HeldItem(render, cs, d, loc, u);
      OneItemValue(AllItems(render, cs), loc, w, u);
    }
  }

  lemma ValueOneItem(render: Value -> string, cs: seq<Contribution>, loc: Loc)
    requires AllAcceptable(cs) && OneValue(render, cs, loc)
    ensures OneItem(AllItems(render, cs), loc)
  {
    var items := AllItems(render, cs);
    forall x, y | x in items && y in items && x.Put? && y.Put? && x.loc == loc && y.loc == loc
      ensures x.value == y.value
    {
      EntrySource(render, cs, x);
      EntrySource(render, cs, y);
    }
  }

  ghost predicate FieldsOne(render: Value -> string, cs: seq<Contribution>) {
    forall p, f :: f !in HTTP_METHODS ==> OneValue(render, cs, PathField(p, f))
  }

  ghost predicate WebhooksOne(render: Value -> string, cs: seq<Contribution>) {
    forall n :: OneValue(render, cs, Webhook(n))
  }

  ghost predicate ExtensionsOne(render: Value -> string, cs: seq<Contribution>) {
    forall k :: IsExtension(k) ==> OneValue(render, cs, ComponentExtension(k))
  }

  ghost predicate InfoOne(render: Value -> string, cs: seq<Contribution>) {
    forall k :: !MayDiffer(k) ==> OneValue(render, cs, Info(k))
  }

  ghost predicate PlainOne(render: Value -> string, cs: seq<Contribution>) {
    OneValue(render, cs, TopLevel("jsonSchemaDialect")) && OneValue(render, cs, TopLevel("externalDocs"))
  }

  lemma FieldsExactly(render: Value -> string, cs: seq<Contribution>)
    requires AllAcceptable(cs)
    ensures FieldsAgreed(cs) <==> FieldsOne(render, cs)
  {
    forall p, f ensures Agreed(cs, ["paths", p, f]) <==> OneValue(render, cs, FieldAt(p, f)) {
      FieldStands(render, p, f);
      OneValueUnder(render, cs, FieldAt(p, f), ["paths", p, f]);
    }
    if FieldsAgreed(cs) {
      forall p, f | f !in HTTP_METHODS ensures OneValue(render, cs, PathField(p, f)) {
        assert Agreed(cs, ["paths", p, f]);
      }
    }
  }

  lemma WebhooksExactly(render: Value -> string, cs: seq<Contribution>)
    requires AllAcceptable(cs)
    ensures WebhooksAgreed(cs) <==> WebhooksOne(render, cs)
  {
    forall n ensures Agreed(cs, ["webhooks", n]) <==> OneValue(render, cs, Webhook(n)) {
      WebhookStands(render, n);
      OneValueUnder(render, cs, Webhook(n), ["webhooks", n]);
    }
    if WebhooksAgreed(cs) { forall n ensures OneValue(render, cs, Webhook(n)) { assert Agreed(cs, ["webhooks", n]); } }
  }

  lemma ExtensionsExactly(render: Value -> string, cs: seq<Contribution>)
    requires AllAcceptable(cs)
    ensures ExtensionsAgreed(cs) <==> ExtensionsOne(render, cs)
  {
    forall k | IsExtension(k)
      ensures Agreed(cs, ["components", k]) <==> OneValue(render, cs, ComponentExtension(k))
    {
      ExtensionStands(render, k);
      OneValueUnder(render, cs, ComponentExtension(k), ["components", k]);
    }
    if ExtensionsAgreed(cs) {
      forall k | IsExtension(k) ensures OneValue(render, cs, ComponentExtension(k)) {
        assert Agreed(cs, ["components", k]);
      }
    }
  }

  lemma InfoExactly(render: Value -> string, cs: seq<Contribution>)
    requires AllAcceptable(cs)
    ensures InfoAgreed(cs) <==> InfoOne(render, cs)
  {
    forall k | !MayDiffer(k) ensures Agreed(cs, ["info", k]) <==> OneValue(render, cs, Info(k)) {
      InfoStands(render, k);
      OneValueUnder(render, cs, Info(k), ["info", k]);
    }
    if InfoAgreed(cs) {
      forall k | !MayDiffer(k) ensures OneValue(render, cs, Info(k)) { assert Agreed(cs, ["info", k]); }
    }
  }

  lemma FieldExactly(render: Value -> string, cs: seq<Contribution>, k: string)
    requires AllAcceptable(cs) && (k == "jsonSchemaDialect" || k == "externalDocs")
    ensures Agreed(cs, [k]) <==> OneValue(render, cs, TopLevel(k))
  {
    PlainStands(render, k);
    OneValueUnder(render, cs, TopLevel(k), [k]);
  }

  lemma PlainExactly(render: Value -> string, cs: seq<Contribution>)
    requires AllAcceptable(cs)
    ensures PlainAgreed(cs) <==> PlainOne(render, cs)
  {
    FieldExactly(render, cs, "jsonSchemaDialect");
    FieldExactly(render, cs, "externalDocs");
  }

  /** The locations with a rule that some document can hold. */
  ghost predicate Ruled(loc: Loc) {
    match loc
    case PathField(_, f) => f !in HTTP_METHODS
    case ComponentExtension(k) => IsExtension(k)
    case Webhook(_) => true
    case Info(k) => !MayDiffer(k)
    case TopLevel(k) => k == "jsonSchemaDialect" || k == "externalDocs"
    case Operation(_, f) => f in HTTP_METHODS
    case Tag(_) => true
    case _ => false
  }

  lemma RuledExactly(render: Value -> string, cs: seq<Contribution>, loc: Loc)
    ensures Ruled(loc) ==> RuleOf(loc) != FirstWins
    ensures RuleOf(loc) != FirstWins && !Ruled(loc) ==> OneValue(render, cs, loc)
  {
  }

  /** One value at every location that has a rule and is a member of an object. */
  ghost predicate MembersOne(render: Value -> string, cs: seq<Contribution>) {
    forall loc :: Ruled(loc) && !loc.Operation? && !loc.Tag? ==> OneValue(render, cs, loc)
  }

  lemma FieldsSplit(render: Value -> string, cs: seq<Contribution>)
    requires MembersOne(render, cs)
    ensures FieldsOne(render, cs)
  {
    forall p, f | f !in HTTP_METHODS ensures OneValue(render, cs, PathField(p, f)) { assert Ruled(PathField(p, f)); }
  }

  lemma MembersSplit(render: Value -> string, cs: seq<Contribution>)
    requires MembersOne(render, cs)
    ensures WebhooksOne(render, cs) && ExtensionsOne(render, cs) && InfoOne(render, cs) && PlainOne(render, cs)
  {
    forall n ensures OneValue(render, cs, Webhook(n)) { assert Ruled(Webhook(n)); }
    forall k | IsExtension(k) ensures OneValue(render, cs, ComponentExtension(k)) {
      assert Ruled(ComponentExtension(k));
    }
    forall k | !MayDiffer(k) ensures OneValue(render, cs, Info(k)) { assert Ruled(Info(k)); }
  }

  lemma MembersJoined(render: Value -> string, cs: seq<Contribution>)
    requires FieldsOne(render, cs) && WebhooksOne(render, cs) && ExtensionsOne(render, cs) && InfoOne(render, cs)
    requires PlainOne(render, cs)
    ensures MembersOne(render, cs)
  {
  }

  lemma MembersExactly(render: Value -> string, cs: seq<Contribution>)
    requires AllAcceptable(cs)
    ensures MembersAgreed(cs) <==> MembersOne(render, cs)
  {
    FieldsExactly(render, cs);
    WebhooksExactly(render, cs);
    ExtensionsExactly(render, cs);
    InfoExactly(render, cs);
    PlainExactly(render, cs);
    if MembersOne(render, cs) {
      FieldsSplit(render, cs);
      MembersSplit(render, cs);
    }
    if MembersAgreed(cs) { MembersJoined(render, cs); }
  }

  // -- tags, operations and versions -------------------------------------------------------------------

  lemma {:induction false} ElementsAre(cs: seq<Contribution>, section: string, x: Value)
    ensures x in Elements(cs, section) <==> exists c :: c in cs && x in ItemsOf(Lookup(c.document, [section]))
    decreases |cs|
  {
    if cs != [] {
      var n := |cs| - 1;
      ElementsAre(cs[..n], section, x);
      assert cs == cs[..n] + [cs[n]];
    }
  }

  lemma TagHeld(render: Value -> string, doc: Value, n: string, w: Value)
    ensures Holds(render, doc, Tag(n), w) <==> w in ItemsOf(Lookup(doc, ["tags"])) && TextField(w, "name") == n
  {
    LookupOne(doc, "tags");
  }

  ghost predicate TagsOne(render: Value -> string, cs: seq<Contribution>) {
    forall n :: OneValue(render, cs, Tag(n))
  }

  lemma TagsExactly(render: Value -> string, cs: seq<Contribution>)
    ensures TagsAgreed(cs) <==> TagsOne(render, cs)
  {
    var tags := Elements(cs, "tags");
    forall x ensures x in tags <==> exists c :: c in cs && Holds(render, c.document, Tag(TextField(x, "name")), x) {
      ElementsAre(cs, "tags", x);
      forall c: Contribution ensures Holds(render, c.document, Tag(TextField(x, "name")), x) <==>
        x in ItemsOf(Lookup(c.document, ["tags"]))
      {
        TagHeld(render, c.document, TextField(x, "name"), x);
      }
    }
    if TagsAgreed(cs) {
      forall n, c, d, w, u | c in cs && d in cs && Holds(render, c.document, Tag(n), w)
        && Holds(render, d.document, Tag(n), u)
        ensures w == u
      {
        assert w in tags && u in tags;
      }
    }
    if TagsOne(render, cs) {
      forall x, y | x in tags && y in tags && TextField(x, "name") == TextField(y, "name") ensures x == y {
        assert OneValue(render, cs, Tag(TextField(x, "name")));
      }
    }
  }

  ghost predicate OperationsOne(render: Value -> string, cs: seq<Contribution>) {
    forall p, f :: f in HTTP_METHODS ==> OneValue(render, cs, Operation(p, f))
  }

  ghost predicate OperationsOnce(items: seq<Item>) {
    forall x :: x in items && x.Put? && RuleOf(x.loc) == Exclusive ==> multiset(items)[x] == 1
  }

  lemma OperationHeld(render: Value -> string, doc: Value, p: string, f: string, w: Value)
    requires WellShaped(doc) && f in HTTP_METHODS
    ensures Holds(render, doc, Operation(p, f), w) <==> Lookup(doc, ["paths", p, f]) == Some(w)
  {
    FieldStands(render, p, f);
    assert FieldAt(p, f) == Operation(p, f);
  }

  lemma OperationListed(render: Value -> string, c: Contribution, p: string, f: string, w: Value)
    requires Acceptable(c) && f in HTTP_METHODS
    ensures Put(Operation(p, f), w) in ContributionItems(render)(c) <==>
      Lookup(c.document, ["paths", p, f]) == Some(w)
  {
    DocumentTells(render, c.document, Put(Operation(p, f), w));
    OperationHeld(render, c.document, p, f, w);
  }

  lemma OperationShared(render: Value -> string, cs: seq<Contribution>, c: Contribution, d: Contribution,
      p: string, f: string, w: Value, u: Value)
    requires AllAcceptable(cs) && OperationsOne(render, cs) && c in cs && d in cs && f in HTTP_METHODS
    requires Lookup(c.document, ["paths", p, f]) == Some(w) && Lookup(d.document, ["paths", p, f]) == Some(u)
    ensures w == u
  {
    assert Acceptable(c) && Acceptable(d) && OneValue(render, cs, Operation(p, f));
    OperationHeld(render, c.document, p, f, w);
    OperationHeld(render, d.document, p, f, u);
  }

  lemma NotOnce(items: seq<Item>, x: Item)
    requires x in items && multiset(items)[x] >= 2 && x.Put? && x.loc.Operation?
    ensures !OperationsOnce(items)
  {
    assert RuleOf(x.loc) == Exclusive;
  }

  lemma TwiceClashes(render: Value -> string, cs: seq<Contribution>, i: nat, j: nat, x: Item)
    requires i < j < |cs| && x.Put? && x.loc.Operation?
    requires x in ContributionItems(render)(cs[i]) && x in ContributionItems(render)(cs[j])
    ensures !OperationsOnce(AllItems(render, cs))
  {
    FlatTwice(cs, ContributionItems(render), i, j, x);
    NotOnce(AllItems(render, cs), x);
  }

  lemma SharedClashes(render: Value -> string, cs: seq<Contribution>, i: nat, j: nat, p: string, f: string)
    requires AllAcceptable(cs) && OperationsOne(render, cs) && i < j < |cs| && f in HTTP_METHODS
    requires Lookup(cs[i].document, ["paths", p, f]).Some? && Lookup(cs[j].document, ["paths", p, f]).Some?
    ensures !OperationsOnce(AllItems(render, cs))
  {
    var w, u := Lookup(cs[i].document, ["paths", p, f]).value, Lookup(cs[j].document, ["paths", p, f]).value;
    assert Acceptable(cs[i]) && Acceptable(cs[j]);
    OperationShared(render, cs, cs[i], cs[j], p, f, w, u);
    OperationListed(render, cs[i], p, f, w);
    OperationListed(render, cs[j], p, f, w);
    TwiceClashes(render, cs, i, j, Put(Operation(p, f), w));
  }

  lemma ApartOne(render: Value -> string, cs: seq<Contribution>)
    requires AllAcceptable(cs) && OperationsApart(cs)
    ensures OperationsOne(render, cs)
  {
    forall p, f, c, d, w, u | f in HTTP_METHODS && c in cs && d in cs && Holds(render, c.document, Operation(p, f), w)
      && Holds(render, d.document, Operation(p, f), u)
      ensures w == u
    {
      assert Acceptable(c) && Acceptable(d);
      OperationHeld(render, c.document, p, f, w);
      OperationHeld(render, d.document, p, f, u);
      var i :| 0 <= i < |cs| && cs[i] == c;
      var j :| 0 <= j < |cs| && cs[j] == d;
    }
  }

  lemma OnceInEach(render: Value -> string, c: Contribution, x: Item)
    requires Acceptable(c) && x.Put? && x.loc.Operation?
    ensures multiset(ContributionItems(render)(c))[x] <= 1
  {
    OperationOnce(render, c.document, x);
  }

  lemma OperationFound(render: Value -> string, c: Contribution, x: Item)
    requires Acceptable(c) && x.Put? && x.loc.Operation? && x in ContributionItems(render)(c)
    ensures x.loc.name in HTTP_METHODS && Lookup(c.document, ["paths", x.loc.path, x.loc.name]).Some?
  {
    DocumentTells(render, c.document, x);
    OperationListed(render, c, x.loc.path, x.loc.name, x.value);
  }

  lemma InOnePlace(render: Value -> string, cs: seq<Contribution>, i: nat, j: nat, x: Item)
    requires AllAcceptable(cs) && OperationsApart(cs) && x.Put? && x.loc.Operation? && i < j < |cs|
    ensures x !in ContributionItems(render)(cs[i]) || x !in ContributionItems(render)(cs[j])
  {
    assert Acceptable(cs[i]) && Acceptable(cs[j]);
    if x in ContributionItems(render)(cs[i]) && x in ContributionItems(render)(cs[j]) {
      OperationFound(render, cs[i], x);
      OperationFound(render, cs[j], x);
    }
  }

  lemma ApartOnce(render: Value -> string, cs: seq<Contribution>, x: Item)
    requires AllAcceptable(cs) && OperationsApart(cs) && x.Put? && x.loc.Operation?
    ensures multiset(AllItems(render, cs))[x] <= 1
  {
    var g := ContributionItems(render);
    forall i | 0 <= i < |cs| ensures multiset(g(cs[i]))[x] <= 1 {
      assert Acceptable(cs[i]);
      OnceInEach(render, cs[i], x);
    }
    forall i, j | 0 <= i < j < |cs| ensures x !in g(cs[i]) || x !in g(cs[j]) { InOnePlace(render, cs, i, j, x); }
    FlatOnceAt(cs, g, x);
  }

  lemma OperationsExactly(render: Value -> string, cs: seq<Contribution>)
    requires AllAcceptable(cs)
    ensures OperationsApart(cs) <==> OperationsOne(render, cs) && OperationsOnce(AllItems(render, cs))
  {
    if OperationsApart(cs) {
      ApartOne(render, cs);
      forall x | x in AllItems(render, cs) && x.Put? && RuleOf(x.loc) == Exclusive
        ensures multiset(AllItems(render, cs))[x] == 1
      {
        ApartOnce(render, cs, x);
        assert x in multiset(AllItems(render, cs));
      }
    }
    if OperationsOne(render, cs) && OperationsOnce(AllItems(render, cs)) {
      forall i, j, p, f | 0 <= i < j < |cs| && f in HTTP_METHODS
        ensures Lookup(cs[i].document, ["paths", p, f]).None? || Lookup(cs[j].document, ["paths", p, f]).None?
      {
        if Lookup(cs[i].document, ["paths", p, f]).Some? && Lookup(cs[j].document, ["paths", p, f]).Some? {
          SharedClashes(render, cs, i, j, p, f);
        }
      }
    }
  }

  ghost predicate VersionsOne(items: seq<Item>) {
    forall x, y :: x in items && y in items && x.Version? && y.Version? ==> Agree(x.text, y.text)
  }

  lemma VersionsExactly(render: Value -> string, cs: seq<Contribution>)
    requires AllAcceptable(cs)
    ensures OneLine(cs) <==> VersionsOne(AllItems(render, cs))
  {
    var items := AllItems(render, cs);
    VersionsDeclared(render, cs);
    VersionsIn(items);
    forall a, b ensures SameLine(a, b) <==> Agree(a, b) { VersionsAgreeExactly(a, b); }
    if VersionsOne(items) {
      forall a, b | a in Declared(cs) && b in Declared(cs) ensures Agree(a, b) {
        assert Version(a).text == a && Version(b).text == b;
      }
    }
  }

  // -- the main results --------------------------------------------------------------------------------

  ghost predicate RulesKept(render: Value -> string, cs: seq<Contribution>) {
    forall loc :: RuleOf(loc) != FirstWins ==> OneValue(render, cs, loc)
  }

  lemma RulesSplit(render: Value -> string, cs: seq<Contribution>)
    ensures RulesKept(render, cs) <==> MembersOne(render, cs) && TagsOne(render, cs) && OperationsOne(render, cs)
  {
    forall loc { RuledExactly(render, cs, loc); }
    if RulesKept(render, cs) {
      forall n ensures OneValue(render, cs, Tag(n)) { assert Ruled(Tag(n)); }
      forall p, f | f in HTTP_METHODS ensures OneValue(render, cs, Operation(p, f)) { assert Ruled(Operation(p, f)); }
    }
  }

  lemma RulesItems(render: Value -> string, cs: seq<Contribution>)
    requires AllAcceptable(cs)
    ensures RulesKept(render, cs) <==> forall loc :: RuleOf(loc) != FirstWins ==> OneItem(AllItems(render, cs), loc)
  {
    var items := AllItems(render, cs);
    forall loc ensures OneValue(render, cs, loc) <==> OneItem(items, loc) {
      if OneValue(render, cs, loc) { ValueOneItem(render, cs, loc); }
      if OneItem(items, loc) { ItemsOneValue(render, cs, loc); }
    }
  }

  lemma GoodItems(items: seq<Item>)
    ensures Good(multiset(items)) <==>
      && Clean(items) && VersionsOne(items) && OperationsOnce(items)
      && forall loc :: RuleOf(loc) != FirstWins ==> OneItem(items, loc)
  {
    forall x ensures x in items <==> x in multiset(items) { }
  }

  /** The lists of contributions that merge. */
  lemma MergeableExactly(render: Value -> string, title: string, cs: seq<Contribution>)
    ensures Merge(render, title, cs).Merged? <==> Mergeable(title, cs)
  {
    MergesExactly(render, title, cs);
    GoodItems(AllItems(render, cs));
    AcceptableItems(render, cs);
    if AllAcceptable(cs) {
      VersionsExactly(render, cs);
      OperationsExactly(render, cs);
      TagsExactly(render, cs);
      MembersExactly(render, cs);
      RulesSplit(render, cs);
      RulesItems(render, cs);
    }
  }

  datatype Combination = Combined(document: Value) | Refused(error: MergeError)

  /** `merge_openapi_documents`: the combined document, or the first error in contribution order. */
  method MergeOpenApiDocuments(render: Value -> string, title: string, cs: seq<Contribution>)
    returns (r: Combination)
    ensures r.Combined? <==> Mergeable(title, cs)
    ensures r.Combined? ==> Combines(render, title, cs, r.document)
    ensures r.Refused? ==> Merge(render, title, cs) == Failed(r.error)
  {
    MergeableExactly(render, title, cs);
    var merged := MergeDocuments(render, title, cs);
    match merged {
      case Merged(state) =>
        MergedCombines(render, title, cs);
        r := Combined(Materialize(state, title));
      case Failed(error) =>
        r := Refused(error);
    }
  }
}
