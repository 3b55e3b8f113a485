/**
 * Reading whole documents into merge entries and merging a list of contributions
 * (crates/sdkwork-web-contract/src/openapi_merge.rs). `render` stands for the JSON serializer that
 * keys security requirements.
 */
module OpenApiDocuments {
  import opened Sorting
  import opened Text
  import opened Json
  import opened OpenApiMerge

  type Object = map<string, Value>

  datatype Contribution = Contribution(owner: string, document: Value)

  // -- sections ----------------------------------------------------------------------------------

  function Shape(where: string): seq<Item> {
    [Bad(InvalidShape(where))]
  }

  function RequireText(m: Object, field: string): seq<Item> {
    if IsText(Get(m, field)) then [] else Shape(field)
  }

  function VersionItems(m: Object): seq<Item> {
    if IsText(Get(m, "openapi")) then [Version(m["openapi"].s)] else Shape("openapi")
  }

  /** `merge_info`: the title is the composer's. */
  function InfoField(info: Object): string -> seq<Item> {
    (k: string) => if k == "title" then [] else [Put(Info(k), Get(info, k))]
  }

  function InfoItems(m: Object): seq<Item> {
    var v := Get(m, "info");
    if !v.Obj? then Shape("info")
    else
      RequireText(v.fields, "title") + RequireText(v.fields, "version")
      + Flat(Keys(v.fields.Keys), InfoField(v.fields))
  }

  /** `merge_paths`: operations, path-item fields and extensions of one path. */
  function PathItemField(path: string, item: Object): string -> seq<Item> {
    (f: string) =>
      if f in HTTP_METHODS && Get(item, f).Obj? then [Put(Operation(path, f), Get(item, f))]
      else if f in HTTP_METHODS then Shape("operation object")
      else if f in PATH_ITEM_FIELDS || IsExtension(f) then [Put(PathField(path, f), Get(item, f))]
      else Shape("path item field")
  }

  predicate IsPath(path: string) {
    path != "" && path[0] == '/'
  }

  function PathItems(paths: Object): string -> seq<Item> {
    (path: string) =>
      if !IsPath(path) then Shape("path beginning with /")
      else if !Get(paths, path).Obj? then Shape("path item object")
      else
        var item := Get(paths, path).fields;
        [Put(Path(path), Null)] + Flat(Keys(item.Keys), PathItemField(path, item))
  }

  function PathsItems(m: Object): seq<Item> {
    var v := Get(m, "paths");
    if !v.Obj? then Shape("paths") else Flat(Keys(v.fields.Keys), PathItems(v.fields))
  }

  function NamespaceItems(components: Object): string -> seq<Item> {
    (space: string) =>
      if IsExtension(space) then [Put(ComponentExtension(space), Get(components, space))]
      else if space !in COMPONENT_NAMESPACES then Shape("component namespace")
      else if !Get(components, space).Obj? then Shape("component namespace object")
      else [Put(Namespace(space), Null)] + ComponentItems(space, Get(components, space).fields)
  }

  function ComponentItems(space: string, entries: Object): seq<Item> {
    Flat(Keys(entries.Keys), (name: string) => [Put(Component(space, name), Get(entries, name))])
  }

  function ComponentsItems(v: Value): seq<Item> {
    [Put(Components, Null)]
    + (if v.Obj? then Flat(Keys(v.fields.Keys), NamespaceItems(v.fields)) else Shape("components"))
  }

  function TagItems(tag: Value): seq<Item> {
    if tag.Obj? && IsText(Get(tag.fields, "name")) then [Put(Tag(tag.fields["name"].s), tag)] else Shape("tag")
  }

  function TagsItems(v: Value): seq<Item> {
    [Put(Tags, Null)] + (if v.Arr? then Flat(v.items, TagItems) else Shape("tags"))
  }

  function ServerItems(server: Value): seq<Item> {
    if server.Obj? && IsText(Get(server.fields, "url")) then [Put(Server(server.fields["url"].s), server)]
    else Shape("server")
  }

  function ServersItems(v: Value): seq<Item> {
    [Put(Servers, Null)] + (if v.Arr? then Flat(v.items, ServerItems) else Shape("servers"))
  }

  predicate ScopesOk(requirement: Value) {
    requirement.Obj? && forall k :: k in requirement.fields ==>
      && requirement.fields[k].Arr?
      && forall i :: 0 <= i < |requirement.fields[k].items| ==> requirement.fields[k].items[i].Str?
  }

  function RequirementItems(render: Value -> string): Value -> seq<Item> {
    (requirement: Value) =>
      if ScopesOk(requirement) then [Put(Requirement(render(requirement)), requirement)]
      else Shape("security requirement")
  }

  function SecurityItems(render: Value -> string, v: Value): seq<Item> {
    [Put(Security, Null)] + (if v.Arr? then Flat(v.items, RequirementItems(render)) else Shape("security"))
  }

  function WebhookItems(hooks: Object): string -> seq<Item> {
    (name: string) => if Get(hooks, name).Obj? then [Put(Webhook(name), Get(hooks, name))] else Shape("webhook")
  }

  function WebhooksItems(v: Value): seq<Item> {
    [Put(Webhooks, Null)] + (if v.Obj? then Flat(Keys(v.fields.Keys), WebhookItems(v.fields)) else Shape("webhooks"))
  }

  function SectionItems(render: Value -> string, field: string, v: Value): seq<Item> {
    if field == "openapi" || field == "info" || field == "paths" then []
    else if field == "components" then ComponentsItems(v)
    else if field == "tags" then TagsItems(v)
    else if field == "servers" then ServersItems(v)
    else if field == "security" then SecurityItems(render, v)
    else if field == "webhooks" then WebhooksItems(v)
    else if field == "jsonSchemaDialect" || field == "externalDocs" || IsExtension(field) then [Put(TopLevel(field), v)]
    else Shape("top-level field")
  }

  predicate IsSectionName(field: string) {
    field == "components" || field == "tags" || field == "servers" || field == "security" || field == "webhooks"
  }

  lemma NamedSection(render: Value -> string, field: string, v: Value)
    requires IsSectionName(field)
    ensures var s := SectionItems(render, field, v);
            || s == ComponentsItems(v) || s == TagsItems(v) || s == ServersItems(v) || s == SecurityItems(render, v)
            || s == WebhooksItems(v)
  {
    assert field != "openapi" && field != "info" && field != "paths";
  }

  lemma OtherSection(render: Value -> string, field: string, v: Value)
    requires !IsSectionName(field)
    ensures var s := SectionItems(render, field, v);
            s == [] || s == [Put(TopLevel(field), v)] || s == Shape("top-level field")
  {
  }

  /** Which list a field contributes. */
  lemma SectionIs(render: Value -> string, field: string, v: Value)
    ensures var s := SectionItems(render, field, v);
            || s == [] || s == ComponentsItems(v) || s == TagsItems(v) || s == ServersItems(v)
            || s == SecurityItems(render, v)
            || s == WebhooksItems(v) || s == [Put(TopLevel(field), v)] || s == Shape("top-level field")
  {
    if IsSectionName(field) { NamedSection(render, field, v); } else { OtherSection(render, field, v); }
  }

  function SectionsOf(render: Value -> string, m: Object): string -> seq<Item> {
    (field: string) => SectionItems(render, field, Get(m, field))
  }

  /** `merge_document`: version, info and paths first, then the other fields in key order. */
  function DocumentItems(render: Value -> string, doc: Value): seq<Item> {
    if !doc.Obj? then Shape("$")
    else
      VersionItems(doc.fields) + InfoItems(doc.fields) + PathsItems(doc.fields)
      + Flat(Keys(doc.fields.Keys), SectionsOf(render, doc.fields))
  }

  function ContributionItems(render: Value -> string): Contribution -> seq<Item> {
    (c: Contribution) => if Blank(c.owner) then [Bad(EmptyOwner)] else DocumentItems(render, c.document)
  }

  function AllItems(render: Value -> string, cs: seq<Contribution>): seq<Item> {
    Flat(cs, ContributionItems(render))
  }

  // -- merging -----------------------------------------------------------------------------------

  function Merge(render: Value -> string, title: string, cs: seq<Contribution>): Outcome {
    if Blank(title) then Failed(EmptyCombinedTitle)
    else if cs == [] then Failed(NoDocuments)
    else Run(AllItems(render, cs))
  }

  class MergeState {
    var version: Option<string>
    var entries: map<Loc, Value>
    ghost var history: seq<Item>

    ghost function Now(): State
      reads this
    {
      State(version, entries)
    }

    ghost predicate Valid()
      reads this
    {
      Run(history) == Merged(Now())
    }

    constructor ()
      ensures Valid() && history == []
    {
      version, entries, history := None, map[], [];
    }

    /** `merge_openapi_version`: the higher patch of one minor line stays. */
    method MergeVersion(v: string) returns (error: Option<MergeError>)
      modifies this`version
      ensures match Apply(old(Now()), Version(v))
              case Failed(e) => error == Some(e)
              case Merged(s) => error == None && Now() == s
    {
      if version.None? {
        version := Some(v);
      } else if version.value != v {
        if !SameMinorLine(version.value, v) { return Some(VersionConflict); }
        if !RankLeq(Rank(v), Rank(version.value)) { version := Some(v); }
      }
      error := None;
    }

    /** An operation, a compatible value, or a first-wins value, as its location demands. */
    method MergeValue(loc: Loc, value: Value) returns (error: Option<MergeError>)
      modifies this`entries
      ensures match Apply(old(Now()), Put(loc, value))
              case Failed(e) => error == Some(e)
              case Merged(s) => error == None && Now() == s
    {
      error := None;
      if loc !in entries {
        entries := entries[loc := value];
      } else {
        match RuleOf(loc)
        case Exclusive => error := Some(Conflict(loc));
        case Compatible => if entries[loc] != value { error := Some(Conflict(loc)); }
        case FirstWins =>
      }
    }

    method MergeItem(item: Item) returns (error: Option<MergeError>)
      requires Valid()
      modifies this
      ensures error.None? ==> Valid() && history == old(history) + [item]
      ensures error.Some? ==> Run(old(history) + [item]) == Failed(error.value)
    {
      RunLonger(history, item);
      match item {
        case Bad(e) => error := Some(Rejected(e));
        case Version(v) => error := MergeVersion(v);
        case Put(loc, value) => error := MergeValue(loc, value);
      }
      if error.None? { history := history + [item]; }
    }

    /** Merges entries in order until one fails. */
    method Absorb(items: seq<Item>) returns (error: Option<MergeError>)
      requires Valid()
      modifies this
      ensures error.None? ==> Valid() && history == old(history) + items
      ensures error.Some? ==> Run(old(history) + items) == Failed(error.value)
    {
      assert items[..0] == [] && old(history) + [] == old(history);
      for i := 0 to |items|
        invariant Valid() && history == old(history) + items[..i]
      {
        error := MergeItem(items[i]);
        NextItem(old(history), items, i);
        if error.Some? {
          FailureStays(old(history) + items[..i + 1], items[i + 1..]);
          return;
        }
      }
      assert items[..|items|] == items;
      error := None;
    }
  }

  lemma NextItem(before: seq<Item>, items: seq<Item>, i: nat)
    requires i < |items|
    ensures before + items[..i] + [items[i]] == before + items[..i + 1]
    ensures before + items[..i + 1] + items[i + 1..] == before + items
  {
  }

  lemma NextContribution(render: Value -> string, cs: seq<Contribution>, i: nat)
    requires i < |cs|
    ensures AllItems(render, cs[..i + 1]) == AllItems(render, cs[..i]) + ContributionItems(render)(cs[i])
    ensures AllItems(render, cs) == AllItems(render, cs[..i + 1]) + Flat(cs[i + 1..], ContributionItems(render))
  {
    assert cs[..i + 1][..i] == cs[..i] && cs[..i + 1] + cs[i + 1..] == cs;
    FlatConcat(cs[..i + 1], cs[i + 1..], ContributionItems(render));
  }

  /** `merge_openapi_documents` up to writing the result. */
  method MergeDocuments(render: Value -> string, title: string, cs: seq<Contribution>) returns (r: Outcome)
    ensures r == Merge(render, title, cs)
  {
    if Blank(title) { return Failed(EmptyCombinedTitle); }
    if cs == [] { return Failed(NoDocuments); }
    var state := new MergeState();
    assert cs[..0] == [];
    for i := 0 to |cs|
      invariant state.Valid() && state.history == AllItems(render, cs[..i]) && fresh(state)
    {
      NextContribution(render, cs, i);
      var error := state.Absorb(ContributionItems(render)(cs[i]));
      if error.Some? {
        FailureStays(AllItems(render, cs[..i + 1]), Flat(cs[i + 1..], ContributionItems(render)));
        return Failed(error.value);
      }
    }
    assert cs[..|cs|] == cs;
    r := Merged(State(state.version, state.entries));
  }

  /**
   * A list of documents merges in one order exactly when it merges in any other, and then only
   * first-wins values and the spelling of the version can differ.
   */
  lemma MergeOrderIndependent(render: Value -> string, title: string, cs: seq<Contribution>, ds: seq<Contribution>)
    requires multiset(cs) == multiset(ds)
    ensures Merge(render, title, cs).Merged? <==> Merge(render, title, ds).Merged?
    ensures Merge(render, title, cs).Merged? ==>
      SameUpToFirstWins(Merge(render, title, cs).state, Merge(render, title, ds).state)
  {
    SameLength(cs, ds);
    FlatPermuted(cs, ds, ContributionItems(render));
    RunOrderIndependent(AllItems(render, cs), AllItems(render, ds));
  }

  /** When a list of documents merges. */
  lemma MergesExactly(render: Value -> string, title: string, cs: seq<Contribution>)
    ensures Merge(render, title, cs).Merged? <==> !Blank(title) && cs != [] && Good(multiset(AllItems(render, cs)))
  {
    RunExactly(AllItems(render, cs));
  }
}
