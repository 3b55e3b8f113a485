/**
 * Writing the combined document (`materialize`, crates/sdkwork-web-contract/src/openapi_merge.rs),
 * and what of it depends on the order of the contributions.
 */
module OpenApiWriting {
  import opened Sorting
  import opened Text
  import opened Json
  import opened OpenApiMerge
  import opened OpenApiDocuments

  type Entries = map<Loc, Value>

  function At(entries: Entries, loc: Loc): Value {
    if loc in entries then entries[loc] else Null
  }

  function PathNames(entries: Entries): set<string> {
    set loc | loc in entries && loc.Path? :: loc.path
  }

  function FieldNames(entries: Entries, path: string): set<string> {
    set loc | loc in entries && (loc.PathField? || loc.Operation?) && loc.path == path :: loc.name
  }

  /** Fields first, then operations. */
  function PathItemOf(entries: Entries, path: string): Object {
    map f | f in FieldNames(entries, path) ::
      if Operation(path, f) in entries then entries[Operation(path, f)] else At(entries, PathField(path, f))
  }

  function PathsOf(entries: Entries): Object {
    map path | path in PathNames(entries) :: Obj(PathItemOf(entries, path))
  }

  function InfoNames(entries: Entries): set<string> {
    set loc | loc in entries && loc.Info? :: loc.name
  }

  function InfoOf(entries: Entries, title: string): Object {
    map["title" := Str(Trim(title))] + map k | k in InfoNames(entries) :: At(entries, Info(k))
  }

  function ComponentNames(entries: Entries, space: string): set<string> {
    set loc | loc in entries && loc.Component? && loc.space == space :: loc.name
  }

  function NamespaceNames(entries: Entries): set<string> {
    set loc | loc in entries && loc.Namespace? :: loc.name
  }

  function ExtensionNames(entries: Entries): set<string> {
    set loc | loc in entries && loc.ComponentExtension? :: loc.name
  }

  function NamespaceOf(entries: Entries, space: string): Object {
    map n | n in ComponentNames(entries, space) :: At(entries, Component(space, n))
  }

  function ComponentsOf(entries: Entries): Object {
    map k | k in ExtensionNames(entries) + NamespaceNames(entries) ::
      if k in NamespaceNames(entries) then Obj(NamespaceOf(entries, k)) else At(entries, ComponentExtension(k))
  }

  function WebhookNames(entries: Entries): set<string> {
    set loc | loc in entries && loc.Webhook? :: loc.name
  }

  function WebhooksOf(entries: Entries): Object {
    map n | n in WebhookNames(entries) :: At(entries, Webhook(n))
  }

  /** The values of a keyed section, in key order. */
  function ListOf(entries: Entries, names: set<string>, loc: string -> Loc): Value {
    Arr(Flat(Keys(names), (n: string) => [At(entries, loc(n))]))
  }

  function TagNames(entries: Entries): set<string> {
    set loc | loc in entries && loc.Tag? :: loc.name
  }

  function TagAt(n: string): Loc {
    Tag(n)
  }

  function ServerNames(entries: Entries): set<string> {
    set loc | loc in entries && loc.Server? :: loc.name
  }

  function ServerAt(n: string): Loc {
    Server(n)
  }

  function RequirementNames(entries: Entries): set<string> {
    set loc | loc in entries && loc.Requirement? :: loc.name
  }

  function RequirementAt(n: string): Loc {
    Requirement(n)
  }

  function TagsOf(entries: Entries): Value {
    ListOf(entries, TagNames(entries), TagAt)
  }

  function ServersOf(entries: Entries): Value {
    ListOf(entries, ServerNames(entries), ServerAt)
  }

  function SecurityOf(entries: Entries): Value {
    ListOf(entries, RequirementNames(entries), RequirementAt)
  }

  // -- the document ----------------------------------------------------------------------------------

  /** Sections written only when some contribution has them. */
  datatype Section = ServersSection | WebhooksSection | ComponentsSection | SecuritySection | TagsSection

  function SectionName(x: Section): string {
    match x
    case ServersSection => "servers"
    case WebhooksSection => "webhooks"
    case ComponentsSection => "components"
    case SecuritySection => "security"
    case TagsSection => "tags"
  }

  function SectionMark(x: Section): Loc {
    match x
    case ServersSection => Servers
    case WebhooksSection => Webhooks
    case ComponentsSection => Components
    case SecuritySection => Security
    case TagsSection => Tags
  }

  function SectionValue(entries: Entries, x: Section): Value {
    match x
    case ServersSection => ServersOf(entries)
    case WebhooksSection => Obj(WebhooksOf(entries))
    case ComponentsSection => Obj(ComponentsOf(entries))
    case SecuritySection => SecurityOf(entries)
    case TagsSection => TagsOf(entries)
  }

  /** The field the section is written to, unless the section is absent. */
  function WithSection(m: Object, entries: Entries, x: Section): Object {
    if SectionMark(x) in entries then m[SectionName(x) := SectionValue(entries, x)] else m
  }

  function TopLevelNames(entries: Entries): set<string> {
    set loc | loc in entries && loc.TopLevel? :: loc.name
  }

  function TopLevelsOf(entries: Entries): Object {
    map k | k in TopLevelNames(entries) :: At(entries, TopLevel(k))
  }

  function VersionText(s: State): Value {
    if s.version.Some? then Str(s.version.value) else Null
  }

  const SECTIONS: seq<Section> := [ServersSection, WebhooksSection, ComponentsSection, SecuritySection, TagsSection]

  function WithSections(m: Object, entries: Entries, xs: seq<Section>): Object {
    if xs == [] then m else WithSection(WithSections(m, entries, xs[..|xs| - 1]), entries, xs[|xs| - 1])
  }

  /** `materialize`. */
  function Materialize(s: State, title: string): Value {
    Obj(WithSections(TopLevelsOf(s.entries), s.entries, SECTIONS)
        + map["openapi" := VersionText(s), "info" := Obj(InfoOf(s.entries, title)), "paths" := Obj(PathsOf(s.entries))])
  }

  lemma MaterializedPaths(s: State, title: string)
    ensures Materialize(s, title).Obj? && Get(Materialize(s, title).fields, "paths") == Obj(PathsOf(s.entries))
  {
  }

  lemma MaterializedVersion(s: State, title: string)
    ensures Get(Materialize(s, title).fields, "openapi") == VersionText(s)
  {
  }

  // -- reading sections back -------------------------------------------------------------------------

  lemma SectionNamesDiffer(x: Section, y: Section)
    ensures SectionName(x) == SectionName(y) ==> x == y
  {
    var a, b := SectionName(x), SectionName(y);
    assert a == b ==> |a| == |b| && a[0] == b[0] && a[2] == b[2];
  }

  /** A section among those written is found under its name, or what was there before when it is absent. */
  lemma {:induction false} WrittenSection(m: Object, entries: Entries, xs: seq<Section>, x: Section)
    requires Distinct(xs)
    ensures Get(WithSections(m, entries, xs), SectionName(x)) ==
      if x in xs && SectionMark(x) in entries then SectionValue(entries, x) else Get(m, SectionName(x))
    decreases |xs|
  {
    if xs != [] {
      var n := |xs| - 1;
      assert xs == xs[..n] + [xs[n]];
      WrittenSection(m, entries, xs[..n], x);
      SectionNamesDiffer(x, xs[n]);
    }
  }

  lemma {:induction false} WrittenNames(m: Object, entries: Entries, xs: seq<Section>, k: string)
    ensures k in WithSections(m, entries, xs) <==>
      k in m || exists x :: x in xs && SectionMark(x) in entries && SectionName(x) == k
    decreases |xs|
  {
    if xs != [] {
      var n := |xs| - 1;
      assert xs == xs[..n] + [xs[n]];
      WrittenNames(m, entries, xs[..n], k);
      assert xs[n] in xs;
    }
  }

  lemma SectionsListed(x: Section)
    ensures x in SECTIONS && Distinct(SECTIONS)
  {
    assert SECTIONS[0] == ServersSection && SECTIONS[1] == WebhooksSection && SECTIONS[2] == ComponentsSection;
    assert SECTIONS[3] == SecuritySection && SECTIONS[4] == TagsSection;
  }

  lemma NotAHead(x: Section)
    ensures SectionName(x) != "openapi" && SectionName(x) != "info" && SectionName(x) != "paths"
  {
    assert SectionName(x)[0] != 'o' && SectionName(x)[0] != 'i' && SectionName(x)[0] != 'p';
  }

  /** Where the combined document holds its section. */
  lemma MaterializedSection(s: State, title: string, x: Section)
    ensures Get(Materialize(s, title).fields, SectionName(x)) ==
      if SectionMark(x) in s.entries then SectionValue(s.entries, x) else Get(TopLevelsOf(s.entries), SectionName(x))
  {
    SectionsListed(x);
    NotAHead(x);
    WrittenSection(TopLevelsOf(s.entries), s.entries, SECTIONS, x);
  }

  // -- entries are filed under their own names -------------------------------------------------------

  function TextField(v: Value, field: string): string {
    if v.Obj? && Get(v.fields, field).Str? then Get(v.fields, field).s else ""
  }

  /** Servers, tags and requirements are filed under their url, name and serialization. */
  ghost predicate Filed(render: Value -> string, x: Item) {
    x.Put? ==>
      && (x.loc.Server? ==> TextField(x.value, "url") == x.loc.name)
      && (x.loc.Tag? ==> TextField(x.value, "name") == x.loc.name)
      && (x.loc.Requirement? ==> ScopesOk(x.value) && render(x.value) == x.loc.name)
  }

  ghost predicate AllFiled(render: Value -> string, items: seq<Item>) {
    forall x :: x in items ==> Filed(render, x)
  }

  lemma FlatFiled<A>(render: Value -> string, xs: seq<A>, f: A -> seq<Item>)
    requires forall x :: x in xs ==> AllFiled(render, f(x))
    ensures AllFiled(render, Flat(xs, f))
  {
    forall y | y in Flat(xs, f) ensures Filed(render, y) { FlatMember(xs, f, y); }
  }

  lemma HeadFiled(render: Value -> string, m: Object)
    ensures AllFiled(render, VersionItems(m)) && AllFiled(render, InfoItems(m))
  {
    var v := Get(m, "info");
    if v.Obj? { FlatFiled(render, Keys(v.fields.Keys), InfoField(v.fields)); }
  }

  lemma PathFieldFiled(render: Value -> string, path: string, item: Object, f: string)
    ensures AllFiled(render, PathItemField(path, item)(f))
  {
    var items := PathItemField(path, item)(f);
    assert |items| == 1;
    forall x | x in items ensures Filed(render, x) { assert x == items[0]; }
  }

  lemma PathFieldsFiled(render: Value -> string, path: string, item: Object)
    ensures AllFiled(render, Flat(Keys(item.Keys), PathItemField(path, item)))
  {
    forall f | f in Keys(item.Keys) ensures AllFiled(render, PathItemField(path, item)(f)) {
      PathFieldFiled(render, path, item, f);
    }
    FlatFiled(render, Keys(item.Keys), PathItemField(path, item));
  }

  lemma PathItemFiled(render: Value -> string, paths: Object, path: string)
    ensures AllFiled(render, PathItems(paths)(path))
  {
    if Get(paths, path).Obj? { PathFieldsFiled(render, path, Get(paths, path).fields); }
  }

  lemma PathsFiled(render: Value -> string, m: Object)
    ensures AllFiled(render, PathsItems(m))
  {
    var v := Get(m, "paths");
    if v.Obj? {
      forall path | path in Keys(v.fields.Keys) ensures AllFiled(render, PathItems(v.fields)(path)) {
        PathItemFiled(render, v.fields, path);
      }
      FlatFiled(render, Keys(v.fields.Keys), PathItems(v.fields));
    }
  }

  lemma ComponentsFiled(render: Value -> string, v: Value)
    ensures AllFiled(render, ComponentsItems(v))
  {
    if v.Obj? {
      forall space | space in v.fields ensures AllFiled(render, NamespaceItems(v.fields)(space)) {
        var d := Get(v.fields, space);
        if d.Obj? {
          FlatFiled(render, Keys(d.fields.Keys), (name: string) => [Put(Component(space, name), Get(d.fields, name))]);
        }
      }
      FlatFiled(render, Keys(v.fields.Keys), NamespaceItems(v.fields));
    }
  }

  lemma TagsFiled(render: Value -> string, v: Value)
    ensures AllFiled(render, TagsItems(v))
  {
    if v.Arr? { FlatFiled(render, v.items, TagItems); }
  }

  lemma ServersFiled(render: Value -> string, v: Value)
    ensures AllFiled(render, ServersItems(v))
  {
    if v.Arr? { FlatFiled(render, v.items, ServerItems); }
  }

  lemma SecurityFiled(render: Value -> string, v: Value)
    ensures AllFiled(render, SecurityItems(render, v))
  {
    if v.Arr? { FlatFiled(render, v.items, RequirementItems(render)); }
  }

  lemma WebhooksFiled(render: Value -> string, v: Value)
    ensures AllFiled(render, WebhooksItems(v))
  {
    if v.Obj? { FlatFiled(render, Keys(v.fields.Keys), WebhookItems(v.fields)); }
  }

  lemma SectionFiled(render: Value -> string, field: string, v: Value)
    ensures AllFiled(render, SectionItems(render, field, v))
  {
    SectionIs(render, field, v);
    var s := SectionItems(render, field, v);
    if s == ComponentsItems(v) { ComponentsFiled(render, v); }
    else if s == TagsItems(v) { TagsFiled(render, v); }
    else if s == ServersItems(v) { ServersFiled(render, v); }
    else if s == SecurityItems(render, v) { SecurityFiled(render, v); }
    else if s == WebhooksItems(v) { WebhooksFiled(render, v); }
  }

  lemma DocumentFiled(render: Value -> string, doc: Value)
    ensures AllFiled(render, DocumentItems(render, doc))
  {
    if doc.Obj? {
      var m := doc.fields;
      HeadFiled(render, m);
      PathsFiled(render, m);
      forall field | field in Keys(m.Keys) ensures AllFiled(render, SectionsOf(render, m)(field)) {
        SectionFiled(render, field, Get(m, field));
      }
      FlatFiled(render, Keys(m.Keys), SectionsOf(render, m));
    }
  }

  lemma EverythingFiled(render: Value -> string, cs: seq<Contribution>)
    ensures AllFiled(render, AllItems(render, cs))
  {
    forall c | c in cs ensures AllFiled(render, ContributionItems(render)(c)) { DocumentFiled(render, c.document); }
    FlatFiled(render, cs, ContributionItems(render));
  }

  /** In a merged state, too. */
  ghost predicate StateFiled(render: Value -> string, e: Entries) {
    forall loc :: loc in e ==> Filed(render, Put(loc, e[loc]))
  }

  lemma MergedFiled(render: Value -> string, title: string, cs: seq<Contribution>)
    requires Merge(render, title, cs).Merged?
    ensures StateFiled(render, Merge(render, title, cs).state.entries)
  {
    var items := AllItems(render, cs);
    EverythingFiled(render, cs);
    RunExactly(items);
    forall loc | loc in Merge(render, title, cs).state.entries
      ensures Filed(render, Put(loc, Merge(render, title, cs).state.entries[loc]))
    {
      FirstAtIn(items, loc);
    }
  }

  // -- the same contributions in another order ---------------------------------------------------------

  /** The serializer tells security requirements apart. */
  ghost predicate Separates(render: Value -> string) {
    forall a, b :: ScopesOk(a) && ScopesOk(b) && render(a) == render(b) ==> a == b
  }

  /** The two states have the same locations, and the same values where the first does not simply win. */
  ghost predicate SameEntries(e: Entries, f: Entries) {
    e.Keys == f.Keys && forall loc :: loc in e && RuleOf(loc) != FirstWins ==> e[loc] == f[loc]
  }

  lemma SamePathItem(e: Entries, f: Entries, path: string)
    requires SameEntries(e, f)
    ensures PathItemOf(e, path) == PathItemOf(f, path)
  {
    assert FieldNames(e, path) == FieldNames(f, path);
    forall k | k in FieldNames(e, path) ensures PathItemOf(e, path)[k] == PathItemOf(f, path)[k] {
      assert RuleOf(Operation(path, k)) != FirstWins && RuleOf(PathField(path, k)) != FirstWins;
    }
  }

  lemma SamePaths(e: Entries, f: Entries)
    requires SameEntries(e, f)
    ensures PathsOf(e) == PathsOf(f)
  {
    assert PathNames(e) == PathNames(f);
    forall path | path in PathNames(e) ensures PathsOf(e)[path] == PathsOf(f)[path] { SamePathItem(e, f, path); }
  }

  lemma SameList(e: Entries, f: Entries, names: set<string>, loc: string -> Loc)
    requires forall n :: n in names ==> At(e, loc(n)) == At(f, loc(n))
    ensures ListOf(e, names, loc) == ListOf(f, names, loc)
  {
    FlatCongruent(Keys(names), (n: string) => [At(e, loc(n))], (n: string) => [At(f, loc(n))]);
  }

  lemma SameTags(e: Entries, f: Entries)
    requires SameEntries(e, f)
    ensures TagsOf(e) == TagsOf(f)
  {
    assert TagNames(e) == TagNames(f);
    forall n | n in TagNames(e) ensures At(e, TagAt(n)) == At(f, TagAt(n)) { assert RuleOf(Tag(n)) != FirstWins; }
    SameList(e, f, TagNames(e), TagAt);
  }

  lemma SameWebhooks(e: Entries, f: Entries)
    requires SameEntries(e, f)
    ensures WebhooksOf(e) == WebhooksOf(f)
  {
    assert WebhookNames(e) == WebhookNames(f);
    forall n | n in WebhookNames(e)
      ensures At(e, Webhook(n)) == At(f, Webhook(n))
    {
      assert RuleOf(Webhook(n)) != FirstWins;
    }
  }

  lemma SameRequirement(render: Value -> string, e: Entries, f: Entries, n: string)
    requires SameEntries(e, f) && StateFiled(render, e) && StateFiled(render, f) && Separates(render)
    ensures At(e, RequirementAt(n)) == At(f, RequirementAt(n))
  {
    var loc := Requirement(n);
    if loc in e {
      assert Filed(render, Put(loc, e[loc])) && Filed(render, Put(loc, f[loc]));
    }
  }

  /** Requirements are first-wins, but a requirement is its serialization: the list is the same. */
  lemma SameSecurity(render: Value -> string, e: Entries, f: Entries)
    requires SameEntries(e, f) && StateFiled(render, e) && StateFiled(render, f) && Separates(render)
    ensures SecurityOf(e) == SecurityOf(f)
  {
    assert RequirementNames(e) == RequirementNames(f);
    forall n | n in RequirementNames(e) ensures At(e, RequirementAt(n)) == At(f, RequirementAt(n)) {
      SameRequirement(render, e, f, n);
    }
    SameList(e, f, RequirementNames(e), RequirementAt);
  }

  /** The texts of one field of the objects in a list. */
  function TextsIn(list: Value, field: string): seq<string> {
    if list.Arr? then Flat(list.items, (v: Value) => [TextField(v, field)]) else []
  }

  lemma {:induction false} ListTexts(e: Entries, keys: seq<string>, loc: string -> Loc, field: string)
    requires forall n :: n in keys ==> TextField(At(e, loc(n)), field) == n
    ensures TextsIn(Arr(Flat(keys, (n: string) => [At(e, loc(n))])), field) == keys
    decreases |keys|
  {
    if keys != [] {
      var n := |keys| - 1;
      var f := (k: string) => [At(e, loc(k))];
      assert keys == keys[..n] + [keys[n]];
      ListTexts(e, keys[..n], loc, field);
      FlatConcat(Flat(keys[..n], f), f(keys[n]), (v: Value) => [TextField(v, field)]);
      FlatOne(At(e, loc(keys[n])), (v: Value) => [TextField(v, field)]);
    }
  }

  /** The combined servers and tags are exactly their urls and names, in ascending order. */
  lemma ListedInOrder(render: Value -> string, e: Entries)
    requires StateFiled(render, e)
    ensures TextsIn(ServersOf(e), "url") == Keys(ServerNames(e)) && Sorted(StringLeq, TextsIn(ServersOf(e), "url"))
    ensures TextsIn(TagsOf(e), "name") == Keys(TagNames(e)) && Sorted(StringLeq, TextsIn(TagsOf(e), "name"))
  {
    forall n | n in ServerNames(e) ensures TextField(At(e, ServerAt(n)), "url") == n {
      assert Filed(render, Put(Server(n), e[Server(n)]));
    }
    ListTexts(e, Keys(ServerNames(e)), ServerAt, "url");
    forall n | n in TagNames(e) ensures TextField(At(e, TagAt(n)), "name") == n {
      assert Filed(render, Put(Tag(n), e[Tag(n)]));
    }
    ListTexts(e, Keys(TagNames(e)), TagAt, "name");
    KeysSorted(ServerNames(e));
    KeysSorted(TagNames(e));
  }

  lemma SameServers(render: Value -> string, e: Entries, f: Entries)
    requires SameEntries(e, f) && StateFiled(render, e) && StateFiled(render, f)
    ensures TextsIn(ServersOf(e), "url") == TextsIn(ServersOf(f), "url")
  {
    assert ServerNames(e) == ServerNames(f);
    ListedInOrder(render, e);
    ListedInOrder(render, f);
  }

  function NamesIn(v: Value): set<string> {
    if v.Obj? then v.fields.Keys else {}
  }

  /** The same namespaces, with the same component names in each. */
  ghost predicate SameNames(a: Value, b: Value) {
    NamesIn(a) == NamesIn(b) && (a.Obj? <==> b.Obj?)
    && forall k :: k in NamesIn(a) ==> NamesIn(a.fields[k]) == NamesIn(b.fields[k])
  }

  lemma SameComponents(e: Entries, f: Entries)
    requires SameEntries(e, f)
    ensures SameNames(Obj(ComponentsOf(e)), Obj(ComponentsOf(f)))
  {
    assert NamespaceNames(e) == NamespaceNames(f) && ExtensionNames(e) == ExtensionNames(f);
    forall k | k in ComponentsOf(e) ensures NamesIn(ComponentsOf(e)[k]) == NamesIn(ComponentsOf(f)[k]) {
      assert ComponentNames(e, k) == ComponentNames(f, k);
      assert RuleOf(ComponentExtension(k)) != FirstWins;
    }
  }

  /** Two combined documents that differ at most in first-wins values and in the spelling of the version. */
  ghost predicate SameWritten(a: Value, b: Value) {
    a.Obj? && b.Obj? && SameValues(a.fields, b.fields) && SameShape(a.fields, b.fields)
  }

  ghost predicate SameValues(a: Object, b: Object) {
    && Get(a, "paths") == Get(b, "paths")
    && Get(a, "webhooks") == Get(b, "webhooks")
    && Get(a, "tags") == Get(b, "tags")
    && Get(a, "security") == Get(b, "security")
  }

  ghost predicate SameShape(a: Object, b: Object) {
    && a.Keys == b.Keys
    && TextsIn(Get(a, "servers"), "url") == TextsIn(Get(b, "servers"), "url")
    && SameNames(Get(a, "components"), Get(b, "components"))
    && SameVersion(Get(a, "openapi"), Get(b, "openapi"))
  }

  ghost predicate SameVersion(a: Value, b: Value) {
    (a.Str? <==> b.Str?) && (a.Str? ==> Rank(a.s) == Rank(b.s))
  }

  lemma SameTopLevel(e: Entries, f: Entries, k: string)
    requires SameEntries(e, f) && !IsExtension(k)
    ensures Get(TopLevelsOf(e), k) == Get(TopLevelsOf(f), k)
  {
    assert TopLevelNames(e) == TopLevelNames(f);
    assert RuleOf(TopLevel(k)) != FirstWins;
  }

  lemma SectionPlain(x: Section)
    ensures !IsExtension(SectionName(x))
  {
    assert SectionName(x)[0] != 'x';
  }

  /** One section of the two documents, when its own value does not depend on the order. */
  lemma SameSection(s: State, t: State, title: string, x: Section)
    requires SameEntries(s.entries, t.entries) && SectionValue(s.entries, x) == SectionValue(t.entries, x)
    ensures Get(Materialize(s, title).fields, SectionName(x)) == Get(Materialize(t, title).fields, SectionName(x))
  {
    MaterializedSection(s, title, x);
    MaterializedSection(t, title, x);
    SectionPlain(x);
    SameTopLevel(s.entries, t.entries, SectionName(x));
  }

  lemma SameServersSection(render: Value -> string, s: State, t: State, title: string)
    requires SameEntries(s.entries, t.entries) && StateFiled(render, s.entries) && StateFiled(render, t.entries)
    ensures TextsIn(Get(Materialize(s, title).fields, "servers"), "url") ==
      TextsIn(Get(Materialize(t, title).fields, "servers"), "url")
  {
    MaterializedSection(s, title, ServersSection);
    MaterializedSection(t, title, ServersSection);
    SectionPlain(ServersSection);
    SameTopLevel(s.entries, t.entries, "servers");
    SameServers(render, s.entries, t.entries);
  }

  lemma SameComponentsSection(s: State, t: State, title: string)
    requires SameEntries(s.entries, t.entries)
    ensures SameNames(Get(Materialize(s, title).fields, "components"), Get(Materialize(t, title).fields, "components"))
  {
    MaterializedSection(s, title, ComponentsSection);
    MaterializedSection(t, title, ComponentsSection);
    SectionPlain(ComponentsSection);
    SameTopLevel(s.entries, t.entries, "components");
    if Components in s.entries { SameComponents(s.entries, t.entries); }
  }

  lemma SameFields(s: State, t: State, title: string)
    requires SameEntries(s.entries, t.entries)
    ensures Materialize(s, title).fields.Keys == Materialize(t, title).fields.Keys
  {
    assert TopLevelNames(s.entries) == TopLevelNames(t.entries);
    forall k ensures k in Materialize(s, title).fields <==> k in Materialize(t, title).fields {
      WrittenNames(TopLevelsOf(s.entries), s.entries, SECTIONS, k);
      WrittenNames(TopLevelsOf(t.entries), t.entries, SECTIONS, k);
    }
  }

  lemma SamePathsSection(s: State, t: State, title: string)
    requires SameEntries(s.entries, t.entries)
    ensures Get(Materialize(s, title).fields, "paths") == Get(Materialize(t, title).fields, "paths")
  {
    MaterializedPaths(s, title);
    MaterializedPaths(t, title);
    SamePaths(s.entries, t.entries);
  }

  lemma SameVersionField(s: State, t: State, title: string)
    requires SameUpToFirstWins(s, t)
    ensures SameVersion(Get(Materialize(s, title).fields, "openapi"), Get(Materialize(t, title).fields, "openapi"))
  {
    MaterializedVersion(s, title);
    MaterializedVersion(t, title);
  }

  /**
   * The combined document in two orders: paths, webhooks, tags and security are equal, servers have the
   * same urls, every component namespace the same names, the fields are the same and so is the version rank.
   */
  lemma WrittenInAnyOrder(render: Value -> string, title: string, cs: seq<Contribution>, ds: seq<Contribution>)
    requires multiset(cs) == multiset(ds) && Merge(render, title, cs).Merged? && Separates(render)
    ensures Merge(render, title, ds).Merged?
    ensures SameWritten(Materialize(Merge(render, title, cs).state, title),
      Materialize(Merge(render, title, ds).state, title))
  {
    MergeOrderIndependent(render, title, cs, ds);
    MergedFiled(render, title, cs);
    MergedFiled(render, title, ds);
    SameDocument(render, title, Merge(render, title, cs).state, Merge(render, title, ds).state);
  }

  lemma SameWebhooksSection(s: State, t: State, title: string)
    requires SameEntries(s.entries, t.entries)
    ensures Get(Materialize(s, title).fields, "webhooks") == Get(Materialize(t, title).fields, "webhooks")
  {
    SameWebhooks(s.entries, t.entries);
    SameSection(s, t, title, WebhooksSection);
  }

  lemma SameTagsSection(s: State, t: State, title: string)
    requires SameEntries(s.entries, t.entries)
    ensures Get(Materialize(s, title).fields, "tags") == Get(Materialize(t, title).fields, "tags")
  {
    SameTags(s.entries, t.entries);
    SameSection(s, t, title, TagsSection);
  }

  lemma SameSecuritySection(render: Value -> string, s: State, t: State, title: string)
    requires SameEntries(s.entries, t.entries) && Separates(render)
    requires StateFiled(render, s.entries) && StateFiled(render, t.entries)
    ensures Get(Materialize(s, title).fields, "security") == Get(Materialize(t, title).fields, "security")
  {
    SameSecurity(render, s.entries, t.entries);
    SameSection(s, t, title, SecuritySection);
  }

  lemma ValuesAgree(render: Value -> string, title: string, s: State, t: State)
    requires SameUpToFirstWins(s, t) && Separates(render)
    requires StateFiled(render, s.entries) && StateFiled(render, t.entries)
    ensures SameValues(Materialize(s, title).fields, Materialize(t, title).fields)
  {
    SameWebhooksSection(s, t, title);
    SameTagsSection(s, t, title);
    SameSecuritySection(render, s, t, title);
    SamePathsSection(s, t, title);
  }

  lemma ShapesAgree(render: Value -> string, title: string, s: State, t: State)
    requires SameUpToFirstWins(s, t) && StateFiled(render, s.entries) && StateFiled(render, t.entries)
    ensures SameShape(Materialize(s, title).fields, Materialize(t, title).fields)
  {
    SameServersSection(render, s, t, title);
    SameComponentsSection(s, t, title);
    SameFields(s, t, title);
    SameVersionField(s, t, title);
  }

  lemma SameDocument(render: Value -> string, title: string, s: State, t: State)
    requires SameUpToFirstWins(s, t) && Separates(render)
    requires StateFiled(render, s.entries) && StateFiled(render, t.entries)
    ensures SameWritten(Materialize(s, title), Materialize(t, title))
  {
    ValuesAgree(render, title, s, t);
    ShapesAgree(render, title, s, t);
  }
}
