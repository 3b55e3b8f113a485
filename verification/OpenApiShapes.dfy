/**
 * What one OpenAPI document holds (`merge_document` and the functions it calls,
 * crates/sdkwork-web-contract/src/openapi_merge.rs), read off the document itself: which documents have an
 * acceptable shape, and which value stands where. The entries of a document are exactly these values.
 */
module OpenApiShapes {
  import opened Json
  import opened OpenApiMerge
  import opened OpenApiDocuments
  import opened OpenApiWriting
  import opened Operations

  lemma ExtensionExactly(field: string)
    ensures IsExtension(field) <==> "x-" <= field
  {
  }

  // -- acceptable documents --------------------------------------------------------------------------

  ghost predicate Texts(v: Value, field: string) {
    v.Obj? && field in v.fields && IsText(v.fields[field])
  }

  ghost predicate PathOk(path: string, v: Value) {
    IsPath(path) && FieldsOk(v)
  }

  ghost predicate FieldOk(f: string, v: Value) {
    if f in HTTP_METHODS then v.Obj? else f in PATH_ITEM_FIELDS || IsExtension(f)
  }

  ghost predicate FieldsOk(v: Value) {
    v.Obj? && forall f :: f in v.fields ==> FieldOk(f, v.fields[f])
  }

  ghost predicate PathsOk(v: Value) {
    v.Obj? && forall path :: path in v.fields ==> PathOk(path, v.fields[path])
  }

  ghost predicate NamespaceOk(space: string, v: Value) {
    IsExtension(space) || (space in COMPONENT_NAMESPACES && v.Obj?)
  }

  ghost predicate ComponentsOk(v: Value) {
    v.Obj? && forall space :: space in v.fields ==> NamespaceOk(space, v.fields[space])
  }

  ghost predicate NamedList(v: Value, field: string) {
    v.Arr? && forall x :: x in v.items ==> Texts(x, field)
  }

  ghost predicate SecurityOk(v: Value) {
    v.Arr? && forall x :: x in v.items ==> ScopesOk(x)
  }

  ghost predicate WebhooksOk(v: Value) {
    v.Obj? && forall name :: name in v.fields ==> v.fields[name].Obj?
  }

  /** Fields that are not sections of their own. */
  predicate IsPlain(field: string) {
    field == "jsonSchemaDialect" || field == "externalDocs" || IsExtension(field)
  }

  ghost predicate SectionOk(field: string, v: Value) {
    if field == "components" then ComponentsOk(v)
    else if field == "tags" then NamedList(v, "name")
    else if field == "servers" then NamedList(v, "url")
    else if field == "security" then SecurityOk(v)
    else if field == "webhooks" then WebhooksOk(v)
    else field == "openapi" || field == "info" || field == "paths" || IsPlain(field)
  }

  /** The documents `merge_document` accepts on their own. */
  ghost predicate WellShaped(doc: Value) {
    && Texts(doc, "openapi")
    && "info" in doc.fields && Texts(doc.fields["info"], "title") && Texts(doc.fields["info"], "version")
    && "paths" in doc.fields && PathsOk(doc.fields["paths"])
    && forall field :: field in doc.fields ==> SectionOk(field, doc.fields[field])
  }

  // -- what stands where -----------------------------------------------------------------------------

  /** The top-level field a location belongs to. */
  function Home(loc: Loc): string {
    match loc
    case Info(_) => "info"
    case Path(_) => "paths"
    case PathField(_, _) => "paths"
    case Operation(_, _) => "paths"
    case Components => "components"
    case Namespace(_) => "components"
    case ComponentExtension(_) => "components"
    case Component(_, _) => "components"
    case Tags => "tags"
    case Tag(_) => "tags"
    case Servers => "servers"
    case Server(_) => "servers"
    case Security => "security"
    case Requirement(_) => "security"
    case Webhooks => "webhooks"
    case Webhook(_) => "webhooks"
    case TopLevel(name) => name
  }

  ghost predicate Has(v: Value, k: string, w: Value) {
    v.Obj? && k in v.fields && v.fields[k] == w
  }

  ghost predicate HasUnder(v: Value, k: string, name: string, w: Value) {
    v.Obj? && k in v.fields && Has(v.fields[k], name, w)
  }

  /** The field `v` of a document holds `w` at `loc`; sections and namespaces are only marked as present. */
  ghost predicate HoldsIn(render: Value -> string, v: Value, loc: Loc, w: Value) {
    match loc
    case Info(k) => k != "title" && Has(v, k, w)
    case Path(p) => w == Null && v.Obj? && p in v.fields
    case PathField(p, f) => f !in HTTP_METHODS && HasUnder(v, p, f, w)
    case Operation(p, f) => f in HTTP_METHODS && HasUnder(v, p, f, w)
    case Namespace(k) => w == Null && !IsExtension(k) && v.Obj? && k in v.fields
    case ComponentExtension(k) => IsExtension(k) && Has(v, k, w)
    case Component(k, n) => !IsExtension(k) && HasUnder(v, k, n, w)
    case Tag(n) => v.Arr? && w in v.items && TextField(w, "name") == n
    case Server(u) => v.Arr? && w in v.items && TextField(w, "url") == u
    case Requirement(r) => v.Arr? && w in v.items && render(w) == r
    case Webhook(n) => Has(v, n, w)
    case TopLevel(k) => w == v && IsPlain(k)
    case _ => w == Null
  }

  ghost predicate Holds(render: Value -> string, doc: Value, loc: Loc, w: Value) {
    doc.Obj? && Home(loc) in doc.fields && HoldsIn(render, doc.fields[Home(loc)], loc, w)
  }

  /** An entry that says where a value of the field stands. */
  ghost predicate Tells(render: Value -> string, field: string, v: Value, x: Item) {
    x.Put? && Home(x.loc) == field && HoldsIn(render, v, x.loc, x.value)
  }

  lemma OneHome(loc: Loc)
    ensures Home(loc) == "info" <==> loc.Info? || loc == TopLevel("info")
    ensures Home(loc) == "paths" <==> loc.Path? || loc.PathField? || loc.Operation? || loc == TopLevel("paths")
    ensures Home(loc) == "tags" <==> loc.Tags? || loc.Tag? || loc == TopLevel("tags")
    ensures Home(loc) == "servers" <==> loc.Servers? || loc.Server? || loc == TopLevel("servers")
    ensures Home(loc) == "security" <==> loc.Security? || loc.Requirement? || loc == TopLevel("security")
    ensures Home(loc) == "webhooks" <==> loc.Webhooks? || loc.Webhook? || loc == TopLevel("webhooks")
    ensures Home(loc) == "components" <==>
      loc.Components? || loc.Namespace? || loc.ComponentExtension? || loc.Component? || loc == TopLevel("components")
  {
  }

  // -- clean lists -----------------------------------------------------------------------------------

  lemma FlatCleanExactly<A>(xs: seq<A>, f: A -> seq<Item>)
    ensures Clean(Flat(xs, f)) <==> forall x :: x in xs ==> Clean(f(x))
  {
    if Clean(Flat(xs, f)) {
      forall x | x in xs ensures Clean(f(x)) { FlatClean(xs, f, x); }
    } else {
      var y :| y in Flat(xs, f) && y.Bad?;
      FlatMember(xs, f, y);
    }
  }

  lemma ConcatCleanExactly(a: seq<Item>, b: seq<Item>)
    ensures Clean(a + b) <==> Clean(a) && Clean(b)
  {
    if Clean(a + b) { ConcatClean(a, b); }
  }

  lemma OneClean(x: Item)
    ensures Clean([x]) <==> !x.Bad?
  {
    assert x in [x];
  }

  lemma ShapeUnclean(where: string)
    ensures !Clean(Shape(where))
  {
    OneClean(Bad(InvalidShape(where)));
  }

  // -- section by section ----------------------------------------------------------------------------

  lemma InfoFields(render: Value -> string, v: Value, x: Item)
    requires v.Obj?
    ensures var items := Flat(Keys(v.fields.Keys), InfoField(v.fields));
            Clean(items) && (x in items <==> Tells(render, "info", v, x))
  {
    var f := InfoField(v.fields);
    forall k | k in v.fields ensures Clean(f(k)) { if k != "title" { OneClean(Put(Info(k), v.fields[k])); } }
    FlatCleanExactly(Keys(v.fields.Keys), f);
    FlatMember(Keys(v.fields.Keys), f, x);
    if Tells(render, "info", v, x) {
      OneHome(x.loc);
      assert x in f(x.loc.name);
    }
  }

  lemma RequiredText(v: Value, field: string)
    requires v.Obj?
    ensures RequireText(v.fields, field) == [] <==> Texts(v, field)
    ensures Clean(RequireText(v.fields, field)) <==> Texts(v, field)
  {
    ShapeUnclean(field);
  }

  lemma InfoTells(render: Value -> string, m: Object, x: Item)
    ensures Clean(InfoItems(m)) <==> "info" in m && Texts(m["info"], "title") && Texts(m["info"], "version")
    ensures Clean(InfoItems(m)) ==> (x in InfoItems(m) <==> Tells(render, "info", m["info"], x))
  {
    var v := Get(m, "info");
    if v.Obj? {
      var a, b := RequireText(v.fields, "title"), RequireText(v.fields, "version");
      var c := Flat(Keys(v.fields.Keys), InfoField(v.fields));
      InfoFields(render, v, x);
      ConcatCleanExactly(a + b, c);
      ConcatCleanExactly(a, b);
      RequiredText(v, "title");
      RequiredText(v, "version");
    } else {
      ShapeUnclean("info");
    }
  }

  /** The entries of one path. */
  ghost predicate PathTells(path: string, v: Value, x: Item) {
    && x.Put?
    && match x.loc
       case Path(p) => p == path && x.value == Null
       case PathField(p, f) => p == path && f !in HTTP_METHODS && Has(v, f, x.value)
       case Operation(p, f) => p == path && f in HTTP_METHODS && Has(v, f, x.value)
       case _ => false
  }

  /** The entry of one path-item field. */
  function FieldAt(path: string, f: string): Loc {
    if f in HTTP_METHODS then Operation(path, f) else PathField(path, f)
  }

  lemma FieldTells(path: string, item: Object, f: string, x: Item)
    requires f in item
    ensures Clean(PathItemField(path, item)(f)) <==> FieldOk(f, item[f])
    ensures FieldOk(f, item[f]) ==> PathItemField(path, item)(f) == [Put(FieldAt(path, f), item[f])]
  {
    OneClean(PathItemField(path, item)(f)[0]);
  }

  lemma FieldsClean(path: string, v: Value)
    requires v.Obj?
    ensures Clean(Flat(Keys(v.fields.Keys), PathItemField(path, v.fields))) <==> FieldsOk(v)
  {
    FlatCleanExactly(Keys(v.fields.Keys), PathItemField(path, v.fields));
    forall f | f in v.fields { FieldTells(path, v.fields, f, Put(Path(path), Null)); }
  }

  lemma FieldsTell(path: string, v: Value, x: Item)
    requires FieldsOk(v)
    ensures x in Flat(Keys(v.fields.Keys), PathItemField(path, v.fields)) <==>
      exists f :: f in v.fields && x == Put(FieldAt(path, f), v.fields[f])
  {
    var g := PathItemField(path, v.fields);
    FlatMember(Keys(v.fields.Keys), g, x);
    forall f | f in v.fields ensures x in g(f) <==> x == Put(FieldAt(path, f), v.fields[f]) {
      FieldTells(path, v.fields, f, x);
    }
  }

  lemma FieldsTellPath(path: string, v: Value, x: Item)
    requires FieldsOk(v)
    ensures (exists f :: f in v.fields && x == Put(FieldAt(path, f), v.fields[f])) <==>
      PathTells(path, v, x) && !x.loc.Path?
  {
    if PathTells(path, v, x) && !x.loc.Path? { assert x == Put(FieldAt(path, x.loc.name), v.fields[x.loc.name]); }
  }

  lemma OnePathTells(paths: Object, path: string, x: Item)
    requires path in paths
    ensures Clean(PathItems(paths)(path)) <==> PathOk(path, paths[path])
    ensures Clean(PathItems(paths)(path)) ==> (x in PathItems(paths)(path) <==> PathTells(path, paths[path], x))
  {
    var v := paths[path];
    ShapeUnclean("path beginning with /");
    ShapeUnclean("path item object");
    if IsPath(path) && v.Obj? {
      FieldsClean(path, v);
      if FieldsOk(v) {
        FieldsTell(path, v, x);
        FieldsTellPath(path, v, x);
      }
      OneClean(Put(Path(path), Null));
      ConcatCleanExactly([Put(Path(path), Null)], Flat(Keys(v.fields.Keys), PathItemField(path, v.fields)));
    }
  }

  lemma PathsTell(render: Value -> string, m: Object, x: Item)
    ensures Clean(PathsItems(m)) <==> "paths" in m && PathsOk(m["paths"])
    ensures Clean(PathsItems(m)) ==> (x in PathsItems(m) <==> Tells(render, "paths", m["paths"], x))
  {
    var v := Get(m, "paths");
    ShapeUnclean("paths");
    if v.Obj? {
      PathEntriesClean(v);
      if PathsOk(v) {
        PathEntriesTell(v, x);
        PathEntriesHome(render, v, x);
      }
    }
  }

  lemma PathEntriesClean(v: Value)
    requires v.Obj?
    ensures Clean(Flat(Keys(v.fields.Keys), PathItems(v.fields))) <==> PathsOk(v)
  {
    FlatCleanExactly(Keys(v.fields.Keys), PathItems(v.fields));
    forall p | p in v.fields { OnePathTells(v.fields, p, Put(Path(p), Null)); }
  }

  lemma PathEntriesTell(v: Value, x: Item)
    requires PathsOk(v)
    ensures x in Flat(Keys(v.fields.Keys), PathItems(v.fields)) <==>
      exists p :: p in v.fields && PathTells(p, v.fields[p], x)
  {
    var g := PathItems(v.fields);
    FlatMember(Keys(v.fields.Keys), g, x);
    forall p | p in v.fields ensures x in g(p) <==> PathTells(p, v.fields[p], x) { OnePathTells(v.fields, p, x); }
  }

  lemma PathEntriesHome(render: Value -> string, v: Value, x: Item)
    requires PathsOk(v)
    ensures (exists p :: p in v.fields && PathTells(p, v.fields[p], x)) <==> Tells(render, "paths", v, x)
  {
    if x.Put? {
      OneHome(x.loc);
      if Tells(render, "paths", v, x) { assert PathTells(x.loc.path, v.fields[x.loc.path], x); }
    }
  }

  /** The entries of one namespace or extension of the components. */
  ghost predicate SpaceTells(space: string, v: Value, x: Item) {
    && x.Put?
    && match x.loc
       case Namespace(k) => k == space && !IsExtension(space) && x.value == Null
       case ComponentExtension(k) => k == space && IsExtension(space) && x.value == v
       case Component(k, n) => k == space && !IsExtension(space) && Has(v, n, x.value)
       case _ => false
  }

  lemma DefinitionsTell(space: string, entries: Object, x: Item)
    ensures Clean(ComponentItems(space, entries))
    ensures x in ComponentItems(space, entries) <==>
      x.Put? && x.loc.Component? && x.loc.space == space && Has(Obj(entries), x.loc.name, x.value)
  {
    var g := (name: string) => [Put(Component(space, name), Get(entries, name))];
    forall name ensures Clean(g(name)) { OneClean(Put(Component(space, name), Get(entries, name))); }
    FlatCleanExactly(Keys(entries.Keys), g);
    FlatMember(Keys(entries.Keys), g, x);
    if x.Put? && x.loc.Component? && x.loc.space == space && Has(Obj(entries), x.loc.name, x.value) {
      assert x in g(x.loc.name);
    }
  }

  lemma OneSpaceTells(components: Object, space: string, x: Item)
    requires space in components
    ensures Clean(NamespaceItems(components)(space)) <==> NamespaceOk(space, components[space])
    ensures Clean(NamespaceItems(components)(space)) ==>
      (x in NamespaceItems(components)(space) <==> SpaceTells(space, components[space], x))
  {
    var v := components[space];
    OneClean(Put(ComponentExtension(space), v));
    ShapeUnclean("component namespace");
    ShapeUnclean("component namespace object");
    if !IsExtension(space) && space in COMPONENT_NAMESPACES && v.Obj? {
      DefinitionsTell(space, v.fields, x);
      OneClean(Put(Namespace(space), Null));
      ConcatCleanExactly([Put(Namespace(space), Null)], ComponentItems(space, v.fields));
    }
  }

  lemma SpacesClean(v: Value)
    requires v.Obj?
    ensures Clean(Flat(Keys(v.fields.Keys), NamespaceItems(v.fields))) <==> ComponentsOk(v)
  {
    FlatCleanExactly(Keys(v.fields.Keys), NamespaceItems(v.fields));
    forall k | k in v.fields { OneSpaceTells(v.fields, k, Put(Namespace(k), Null)); }
  }

  lemma SpacesTell(v: Value, x: Item)
    requires ComponentsOk(v)
    ensures x in Flat(Keys(v.fields.Keys), NamespaceItems(v.fields)) <==>
      exists k :: k in v.fields && SpaceTells(k, v.fields[k], x)
  {
    var g := NamespaceItems(v.fields);
    FlatMember(Keys(v.fields.Keys), g, x);
    forall k | k in v.fields ensures x in g(k) <==> SpaceTells(k, v.fields[k], x) { OneSpaceTells(v.fields, k, x); }
  }

  lemma SpacesHome(render: Value -> string, v: Value, x: Item)
    requires ComponentsOk(v)
    ensures (exists k :: k in v.fields && SpaceTells(k, v.fields[k], x)) <==>
      Tells(render, "components", v, x) && !x.loc.Components?
  {
    if x.Put? {
      OneHome(x.loc);
      if Tells(render, "components", v, x) && !x.loc.Components? {
        var k := if x.loc.Component? then x.loc.space else x.loc.name;
        assert SpaceTells(k, v.fields[k], x);
      }
    }
  }

  lemma ComponentsClean(v: Value)
    ensures Clean(ComponentsItems(v)) <==> ComponentsOk(v)
  {
    OneClean(Put(Components, Null));
    if v.Obj? {
      SpacesClean(v);
      ConcatCleanExactly([Put(Components, Null)], Flat(Keys(v.fields.Keys), NamespaceItems(v.fields)));
    } else {
      ShapeUnclean("components");
      ConcatCleanExactly([Put(Components, Null)], Shape("components"));
    }
  }

  lemma OnlyComponents(render: Value -> string, v: Value, x: Item)
    ensures Tells(render, "components", v, x) && x.loc.Components? <==> x == Put(Components, Null)
  {
  }

  lemma ComponentsTell(render: Value -> string, v: Value, x: Item)
    ensures Clean(ComponentsItems(v)) <==> ComponentsOk(v)
    ensures Clean(ComponentsItems(v)) ==> (x in ComponentsItems(v) <==> Tells(render, "components", v, x))
  {
    ComponentsClean(v);
    if ComponentsOk(v) {
      var rest := Flat(Keys(v.fields.Keys), NamespaceItems(v.fields));
      assert x in ComponentsItems(v) <==> x == Put(Components, Null) || x in rest;
      SpacesTell(v, x);
      SpacesHome(render, v, x);
      OnlyComponents(render, v, x);
    }
  }

  lemma TagsTell(render: Value -> string, v: Value, x: Item)
    ensures Clean(TagsItems(v)) <==> NamedList(v, "name")
    ensures Clean(TagsItems(v)) ==> (x in TagsItems(v) <==> Tells(render, "tags", v, x))
  {
    OneClean(Put(Tags, Null));
    ShapeUnclean("tags");
    ShapeUnclean("tag");
    if v.Arr? {
      forall tag | tag in v.items { OneClean(TagItems(tag)[0]); }
      FlatCleanExactly(v.items, TagItems);
      FlatMember(v.items, TagItems, x);
      ConcatCleanExactly([Put(Tags, Null)], Flat(v.items, TagItems));
      if x.Put? { OneHome(x.loc); }
    } else {
      ConcatCleanExactly([Put(Tags, Null)], Shape("tags"));
    }
  }

  lemma ServersTell(render: Value -> string, v: Value, x: Item)
    ensures Clean(ServersItems(v)) <==> NamedList(v, "url")
    ensures Clean(ServersItems(v)) ==> (x in ServersItems(v) <==> Tells(render, "servers", v, x))
  {
    OneClean(Put(Servers, Null));
    ShapeUnclean("servers");
    ShapeUnclean("server");
    if v.Arr? {
      forall server | server in v.items { OneClean(ServerItems(server)[0]); }
      FlatCleanExactly(v.items, ServerItems);
      FlatMember(v.items, ServerItems, x);
      ConcatCleanExactly([Put(Servers, Null)], Flat(v.items, ServerItems));
      if x.Put? { OneHome(x.loc); }
    } else {
      ConcatCleanExactly([Put(Servers, Null)], Shape("servers"));
    }
  }

  lemma SecurityTells(render: Value -> string, v: Value, x: Item)
    ensures Clean(SecurityItems(render, v)) <==> SecurityOk(v)
    ensures Clean(SecurityItems(render, v)) ==> (x in SecurityItems(render, v) <==> Tells(render, "security", v, x))
  {
    OneClean(Put(Security, Null));
    ShapeUnclean("security");
    ShapeUnclean("security requirement");
    if v.Arr? {
      var g := RequirementItems(render);
      forall requirement | requirement in v.items { OneClean(g(requirement)[0]); }
      FlatCleanExactly(v.items, g);
      FlatMember(v.items, g, x);
      ConcatCleanExactly([Put(Security, Null)], Flat(v.items, g));
      if x.Put? { OneHome(x.loc); }
    } else {
      ConcatCleanExactly([Put(Security, Null)], Shape("security"));
    }
  }

  lemma WebhooksTell(render: Value -> string, v: Value, x: Item)
    ensures Clean(WebhooksItems(v)) <==> WebhooksOk(v)
    ensures Clean(WebhooksItems(v)) ==> (x in WebhooksItems(v) <==> Tells(render, "webhooks", v, x))
  {
    OneClean(Put(Webhooks, Null));
    ShapeUnclean("webhooks");
    ShapeUnclean("webhook");
    if v.Obj? {
      var g := WebhookItems(v.fields);
      forall name | name in v.fields { OneClean(g(name)[0]); }
      FlatCleanExactly(Keys(v.fields.Keys), g);
      FlatMember(Keys(v.fields.Keys), g, x);
      ConcatCleanExactly([Put(Webhooks, Null)], Flat(Keys(v.fields.Keys), g));
      if x.Put? {
        OneHome(x.loc);
        if x.loc.Webhook? && Has(v, x.loc.name, x.value) { assert x.loc.name in Keys(v.fields.Keys); }
      }
    } else {
      ConcatCleanExactly([Put(Webhooks, Null)], Shape("webhooks"));
    }
  }

  // -- whole documents -------------------------------------------------------------------------------

  lemma PlainTells(render: Value -> string, field: string, v: Value, x: Item)
    requires !IsSectionName(field) && field != "openapi" && field != "info" && field != "paths"
    ensures Clean(SectionItems(render, field, v)) <==> IsPlain(field)
    ensures IsPlain(field) ==> (x in SectionItems(render, field, v) <==> Tells(render, field, v, x))
  {
    OneClean(Put(TopLevel(field), v));
    ShapeUnclean("top-level field");
    if x.Put? { OneHome(x.loc); }
  }

  predicate IsHead(field: string) {
    field == "openapi" || field == "info" || field == "paths"
  }

  lemma SectionTells(render: Value -> string, field: string, v: Value, x: Item)
    ensures Clean(SectionItems(render, field, v)) <==> SectionOk(field, v)
    ensures SectionOk(field, v) ==>
      (x in SectionItems(render, field, v) <==> !IsHead(field) && Tells(render, field, v, x))
  {
    if field == "components" { ComponentsTell(render, v, x); }
    else if field == "tags" { TagsTell(render, v, x); }
    else if field == "servers" { ServersTell(render, v, x); }
    else if field == "security" { SecurityTells(render, v, x); }
    else if field == "webhooks" { WebhooksTell(render, v, x); }
    else if !IsHead(field) { PlainTells(render, field, v, x); }
  }

  lemma VersionTells(m: Object, x: Item)
    ensures Clean(VersionItems(m)) <==> Texts(Obj(m), "openapi")
    ensures Clean(VersionItems(m)) ==> (x in VersionItems(m) <==> x.Version? && m["openapi"] == Str(x.text))
  {
    ShapeUnclean("openapi");
    OneClean(VersionItems(m)[0]);
  }

  lemma SectionsTell(render: Value -> string, m: Object, x: Item)
    ensures var items := Flat(Keys(m.Keys), SectionsOf(render, m));
            && (Clean(items) <==> forall field :: field in m ==> SectionOk(field, m[field]))
            && (Clean(items) ==> (x in items <==>
                exists field :: field in m && !IsHead(field) && Tells(render, field, m[field], x)))
  {
    var g := SectionsOf(render, m);
    FlatCleanExactly(Keys(m.Keys), g);
    FlatMember(Keys(m.Keys), g, x);
    forall field | field in m
      ensures Clean(g(field)) <==> SectionOk(field, m[field])
      ensures SectionOk(field, m[field]) ==> (x in g(field) <==> !IsHead(field) && Tells(render, field, m[field], x))
    {
      SectionTells(render, field, m[field], x);
    }
  }

  lemma HomeTells(render: Value -> string, m: Object, x: Item)
    requires "info" in m && "paths" in m
    ensures
      || Tells(render, "info", m["info"], x) || Tells(render, "paths", m["paths"], x)
      || (exists field :: field in m && !IsHead(field) && Tells(render, field, m[field], x))
      <==> x.Put? && Holds(render, Obj(m), x.loc, x.value)
  {
    if x.Put? {
      OneHome(x.loc);
      if Home(x.loc) == "openapi" { assert x.loc == TopLevel("openapi"); }
    }
  }

  /** The entries of a document: an acceptable document's version and everything it holds, each where it stands. */
  lemma DocumentTells(render: Value -> string, doc: Value, x: Item)
    ensures Clean(DocumentItems(render, doc)) <==> WellShaped(doc)
    ensures WellShaped(doc) ==> (x in DocumentItems(render, doc) <==>
      if x.Put? then Holds(render, doc, x.loc, x.value) else x.Version? && Has(doc, "openapi", Str(x.text)))
  {
    ShapeUnclean("$");
    if doc.Obj? {
      var m := doc.fields;
      var a, b, c, d := VersionItems(m), InfoItems(m), PathsItems(m), Flat(Keys(m.Keys), SectionsOf(render, m));
      VersionTells(m, x);
      InfoTells(render, m, x);
      PathsTell(render, m, x);
      SectionsTell(render, m, x);
      ConcatCleanExactly(a + b + c, d);
      ConcatCleanExactly(a + b, c);
      ConcatCleanExactly(a, b);
      if WellShaped(doc) { HomeTells(render, m, x); }
    }
  }
}
