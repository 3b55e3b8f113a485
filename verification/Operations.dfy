/**
 * The operations of OpenAPI documents, seen three ways: as merge entries, as the rows the inventory
 * reader visits, and as the paths object of the combined document.
 */
module Operations {
  import opened Text
  import opened Json
  import opened OpenApiMerge
  import opened OpenApiDocuments
  import opened Inventory

  /** The methods an inventory lists, as documents spell them. */
  const LISTED: set<string> := {"delete", "get", "patch", "post", "put"}

  // -- spelling ----------------------------------------------------------------------------------

  lemma UpperFields(f: string)
    requires f in PATH_ITEM_FIELDS || IsExtension(f)
    ensures Upper(f) !in METHODS && f !in HTTP_METHODS
  {
    if IsExtension(f) {
      assert Upper(f)[0] == 'X';
    } else {
      assert f[0] == '$' || |f| >= 7;
      assert Upper(f)[0] == '$' || |Upper(f)| >= 7;
    }
  }

  lemma UpperMethods(f: string)
    requires f in HTTP_METHODS
    ensures Upper(f) in METHODS <==> f in LISTED
  {
    if f in LISTED { UpperListed(f); } else { UpperUnlisted(f); }
  }

  lemma UpperListed(f: string)
    requires f in LISTED
    ensures Upper(f) in METHODS
  {
    assert Upper("delete") == "DELETE";
    assert Upper("get") == "GET";
    assert Upper("patch") == "PATCH";
    assert Upper("post") == "POST";
    assert Upper("put") == "PUT";
  }

  lemma UpperUnlisted(f: string)
    requires f in HTTP_METHODS && f !in LISTED
    ensures Upper(f) !in METHODS
  {
    assert f == "head" || f == "options" || f == "trace";
    assert Upper(f)[0] == 'H' || Upper(f)[0] == 'O' || Upper(f)[0] == 'T';
  }

  // -- entries that are not about paths ------------------------------------------------------------

  predicate AboutPaths(x: Item) {
    x.Put? && (x.loc.Operation? || x.loc.PathField? || x.loc.Path?)
  }

  ghost predicate Elsewhere(items: seq<Item>) {
    forall x :: x in items ==> !AboutPaths(x)
  }

  lemma FlatElsewhere<A>(xs: seq<A>, f: A -> seq<Item>)
    requires forall x :: x in xs ==> Elsewhere(f(x))
    ensures Elsewhere(Flat(xs, f))
  {
    forall y | y in Flat(xs, f) ensures !AboutPaths(y) { FlatMember(xs, f, y); }
  }

  lemma HeadElsewhere(m: Object)
    ensures Elsewhere(VersionItems(m)) && Elsewhere(InfoItems(m))
  {
    var v := Get(m, "info");
    if v.Obj? { FlatElsewhere(Keys(v.fields.Keys), InfoField(v.fields)); }
  }

  lemma ComponentsElsewhere(v: Value)
    ensures Elsewhere(ComponentsItems(v))
  {
    if v.Obj? {
      forall space | space in v.fields ensures Elsewhere(NamespaceItems(v.fields)(space)) {
        var d := Get(v.fields, space);
        if d.Obj? {
          FlatElsewhere(Keys(d.fields.Keys), (name: string) => [Put(Component(space, name), Get(d.fields, name))]);
        }
      }
      FlatElsewhere(Keys(v.fields.Keys), NamespaceItems(v.fields));
    }
  }

  lemma TagsElsewhere(v: Value)
    ensures Elsewhere(TagsItems(v))
  {
    if v.Arr? { FlatElsewhere(v.items, TagItems); }
  }

  lemma ServersElsewhere(v: Value)
    ensures Elsewhere(ServersItems(v))
  {
    if v.Arr? { FlatElsewhere(v.items, ServerItems); }
  }

  lemma SecurityElsewhere(render: Value -> string, v: Value)
    ensures Elsewhere(SecurityItems(render, v))
  {
    if v.Arr? { FlatElsewhere(v.items, RequirementItems(render)); }
  }

  lemma WebhooksElsewhere(v: Value)
    ensures Elsewhere(WebhooksItems(v))
  {
    if v.Obj? { FlatElsewhere(Keys(v.fields.Keys), WebhookItems(v.fields)); }
  }

  lemma SectionElsewhere(render: Value -> string, field: string, v: Value)
    ensures Elsewhere(SectionItems(render, field, v))
  {
    SectionIs(render, field, v);
    var s := SectionItems(render, field, v);
    if s == ComponentsItems(v) { ComponentsElsewhere(v); }
    else if s == TagsItems(v) { TagsElsewhere(v); }
    else if s == ServersItems(v) { ServersElsewhere(v); }
    else if s == SecurityItems(render, v) { SecurityElsewhere(render, v); }
    else if s == WebhooksItems(v) { WebhooksElsewhere(v); }
  }

  lemma SectionsElsewhere(render: Value -> string, m: Object)
    ensures Elsewhere(Flat(Keys(m.Keys), SectionsOf(render, m)))
  {
    var f := SectionsOf(render, m);
    forall field | field in Keys(m.Keys) ensures Elsewhere(f(field)) {
      SectionElsewhere(render, field, Get(m, field));
      assert f(field) == SectionItems(render, field, Get(m, field));
    }
    FlatElsewhere(Keys(m.Keys), f);
  }

  /** Entries about paths come from the paths section. */
  lemma PathEntries(render: Value -> string, doc: Value, x: Item)
    requires AboutPaths(x)
    ensures x in DocumentItems(render, doc) <==> doc.Obj? && x in PathsItems(doc.fields)
  {
    if doc.Obj? {
      HeadElsewhere(doc.fields);
      SectionsElsewhere(render, doc.fields);
    }
  }

  // -- entries about paths --------------------------------------------------------------------------

  ghost predicate ItemHas(item: Object, f: string, v: Value) {
    f in item && v == item[f]
  }

  /** An operation of the document, as the merge accepts it. */
  ghost predicate OperationIn(doc: Value, path: string, f: string, v: Value) {
    && doc.Obj? && Get(doc.fields, "paths").Obj? && path in Get(doc.fields, "paths").fields && IsPath(path)
    && var item := Get(doc.fields, "paths").fields[path];
    item.Obj? && ItemHas(item.fields, f, v) && f in HTTP_METHODS && v.Obj?
  }

  lemma FieldEntry(path: string, item: Object, f: string, x: Item)
    ensures x in PathItemField(path, item)(f) && AboutPaths(x) ==>
      || (x == Put(Operation(path, f), Get(item, f)) && f in HTTP_METHODS && Get(item, f).Obj?)
      || (x == Put(PathField(path, f), Get(item, f)) && (f in PATH_ITEM_FIELDS || IsExtension(f)))
    ensures f in HTTP_METHODS && Get(item, f).Obj? ==>
      PathItemField(path, item)(f) == [Put(Operation(path, f), Get(item, f))]
  {
  }

  /** What an entry about paths says of the document it came from. */
  ghost predicate Explained(m: Object, x: Item)
    requires AboutPaths(x)
  {
    && Get(m, "paths").Obj? && x.loc.path in Get(m, "paths").fields && IsPath(x.loc.path)
    && var item := Get(m, "paths").fields[x.loc.path];
    item.Obj? &&
    match x.loc
    case Path(_) => x.value == Null
    case Operation(_, f) => ItemHas(item.fields, f, x.value) && f in HTTP_METHODS && x.value.Obj?
    case PathField(_, f) => ItemHas(item.fields, f, x.value) && (f in PATH_ITEM_FIELDS || IsExtension(f))
    case _ => false
  }

  lemma PathsEntry(m: Object, x: Item)
    requires AboutPaths(x) && x in PathsItems(m)
    ensures Explained(m, x)
  {
    var paths := Get(m, "paths").fields;
    FlatMember(Keys(paths.Keys), PathItems(paths), x);
    var path :| path in Keys(paths.Keys) && x in PathItems(paths)(path);
    var item := paths[path].fields;
    if x != Put(Path(path), Null) {
      FlatMember(Keys(item.Keys), PathItemField(path, item), x);
      var f :| f in Keys(item.Keys) && x in PathItemField(path, item)(f);
      FieldEntry(path, item, f, x);
    }
  }

  lemma OperationEntered(m: Object, path: string, f: string, v: Value)
    requires OperationIn(Obj(m), path, f, v)
    ensures Put(Operation(path, f), v) in PathsItems(m) && Put(Path(path), Null) in PathsItems(m)
  {
    var paths := Get(m, "paths").fields;
    var item := paths[path].fields;
    var x := Put(Operation(path, f), v);
    FieldEntry(path, item, f, x);
    FlatMember(Keys(item.Keys), PathItemField(path, item), x);
    assert f in Keys(item.Keys) && x in PathItemField(path, item)(f);
    assert x in PathItems(paths)(path) && Put(Path(path), Null) in PathItems(paths)(path);
    FlatMember(Keys(paths.Keys), PathItems(paths), x);
    FlatMember(Keys(paths.Keys), PathItems(paths), Put(Path(path), Null));
  }

  /** The operation entries of a document are its operations. */
  lemma OperationEntries(render: Value -> string, doc: Value, path: string, f: string, v: Value)
    ensures Put(Operation(path, f), v) in DocumentItems(render, doc) <==> OperationIn(doc, path, f, v)
    ensures OperationIn(doc, path, f, v) ==> Put(Path(path), Null) in DocumentItems(render, doc)
  {
    var x := Put(Operation(path, f), v);
    PathEntries(render, doc, x);
    PathEntries(render, doc, Put(Path(path), Null));
    if doc.Obj? && x in PathsItems(doc.fields) { PathsEntry(doc.fields, x); }
    if OperationIn(doc, path, f, v) { OperationEntered(doc.fields, path, f, v); }
  }

  /** A field entry is never spelled like a listed method. */
  lemma FieldEntries(render: Value -> string, doc: Value, path: string, f: string, v: Value)
    requires Put(PathField(path, f), v) in DocumentItems(render, doc)
    ensures Upper(f) !in METHODS && f !in HTTP_METHODS
  {
    var x := Put(PathField(path, f), v);
    PathEntries(render, doc, x);
    PathsEntry(doc.fields, x);
    UpperFields(f);
  }

  // -- one operation, one entry ----------------------------------------------------------------------

  lemma ElsewhereCount(items: seq<Item>, x: Item)
    requires Elsewhere(items) && AboutPaths(x)
    ensures multiset(items)[x] == 0
  {
    assert x !in items;
  }

  lemma FieldOnce(path: string, item: Object, k: string, x: Item)
    ensures multiset(PathItemField(path, item)(k))[x] <= 1
  {
    var items := PathItemField(path, item)(k);
    assert |items| == 1 && items == [items[0]];
  }

  lemma FieldsOnce(path: string, item: Object, x: Item)
    requires AboutPaths(x) && x.loc.Operation?
    ensures multiset(Flat(Keys(item.Keys), PathItemField(path, item)))[x] <= 1
  {
    var f := PathItemField(path, item);
    forall k | k in Keys(item.Keys) ensures multiset(f(k))[x] <= 1 && (x in f(k) ==> k == x.loc.name) {
      FieldOnce(path, item, k, x);
      FieldEntry(path, item, k, x);
    }
    FlatOnce(Keys(item.Keys), f, x);
  }

  lemma ItemOnce(path: string, item: Object, x: Item)
    requires AboutPaths(x) && x.loc.Operation?
    ensures multiset([Put(Path(path), Null)] + Flat(Keys(item.Keys), PathItemField(path, item)))[x] <= 1
  {
    FieldsOnce(path, item, x);
    CountConcat([Put(Path(path), Null)], Flat(Keys(item.Keys), PathItemField(path, item)), x);
  }

  lemma PathsOnce(m: Object, x: Item)
    requires AboutPaths(x) && x.loc.Operation?
    ensures multiset(PathsItems(m))[x] <= 1
  {
    if Get(m, "paths").Obj? {
      var paths := Get(m, "paths").fields;
      var f := PathItems(paths);
      forall p | p in Keys(paths.Keys) ensures multiset(f(p))[x] <= 1 && (x in f(p) ==> x.loc.path == p) {
        if IsPath(p) && Get(paths, p).Obj? {
          var item := Get(paths, p).fields;
          ItemOnce(p, item, x);
          if x in f(p) {
            FlatMember(Keys(item.Keys), PathItemField(p, item), x);
            var k :| k in Keys(item.Keys) && x in PathItemField(p, item)(k);
            FieldEntry(p, item, k, x);
          }
        }
      }
      FlatOnce(Keys(paths.Keys), f, x);
    }
  }

  /** A document enters each of its operations once. */
  lemma OperationOnce(render: Value -> string, doc: Value, x: Item)
    requires x.Put? && x.loc.Operation?
    ensures multiset(DocumentItems(render, doc))[x] <= 1
  {
    if doc.Obj? {
      var m := doc.fields;
      HeadElsewhere(m);
      SectionsElsewhere(render, m);
      PathsOnce(m, x);
      var a, b, c, d := VersionItems(m), InfoItems(m), PathsItems(m), Flat(Keys(m.Keys), SectionsOf(render, m));
      ElsewhereCount(a, x);
      ElsewhereCount(b, x);
      ElsewhereCount(d, x);
      CountConcat(a, b, x);
      CountConcat(a + b, c, x);
      CountConcat(a + b + c, d, x);
    }
  }

  // -- documents the merge accepts -------------------------------------------------------------------

  ghost predicate Clean(items: seq<Item>) {
    forall x :: x in items ==> !x.Bad?
  }

  lemma FlatClean<A>(xs: seq<A>, f: A -> seq<Item>, x: A)
    requires Clean(Flat(xs, f)) && x in xs
    ensures Clean(f(x))
  {
    forall y | y in f(x) ensures !y.Bad? { FlatMember(xs, f, y); }
  }

  lemma ConcatClean(a: seq<Item>, b: seq<Item>)
    requires Clean(a + b)
    ensures Clean(a) && Clean(b)
  {
    forall x | x in a ensures !x.Bad? { assert x in a + b; }
    forall x | x in b ensures !x.Bad? { assert x in a + b; }
  }

  lemma CleanPaths(render: Value -> string, doc: Value)
    requires Clean(DocumentItems(render, doc)) && doc.Obj?
    ensures Clean(PathsItems(doc.fields))
  {
    var m := doc.fields;
    ConcatClean(VersionItems(m) + InfoItems(m) + PathsItems(m), Flat(Keys(m.Keys), SectionsOf(render, m)));
    ConcatClean(VersionItems(m) + InfoItems(m), PathsItems(m));
  }

  lemma PathShape(paths: Object, path: string)
    ensures Clean(PathItems(paths)(path)) ==> IsPath(path)
  {
    if !IsPath(path) { assert PathItems(paths)(path)[0].Bad?; }
  }

  lemma FieldShape(path: string, item: Object, f: string)
    ensures Clean(PathItemField(path, item)(f)) ==>
      (f in HTTP_METHODS && Get(item, f).Obj?) || (f !in HTTP_METHODS && (f in PATH_ITEM_FIELDS || IsExtension(f)))
  {
    var items := PathItemField(path, item)(f);
    assert items[0] in items;
  }

  /** In an accepted document every path item field is an operation, a known field or an extension. */
  lemma CleanField(render: Value -> string, doc: Value, path: string, f: string)
    requires Clean(DocumentItems(render, doc)) && doc.Obj? && Get(doc.fields, "paths").Obj?
    requires path in Get(doc.fields, "paths").fields && Get(doc.fields, "paths").fields[path].Obj?
    requires f in Get(doc.fields, "paths").fields[path].fields
    ensures IsPath(path)
    ensures var v := Get(doc.fields, "paths").fields[path].fields[f];
            (f in HTTP_METHODS && v.Obj?) || (f !in HTTP_METHODS && (f in PATH_ITEM_FIELDS || IsExtension(f)))
  {
    var paths := Get(doc.fields, "paths").fields;
    var item := paths[path].fields;
    CleanPaths(render, doc);
    FlatClean(Keys(paths.Keys), PathItems(paths), path);
    PathShape(paths, path);
    ConcatClean([Put(Path(path), Null)], Flat(Keys(item.Keys), PathItemField(path, item)));
    FlatClean(Keys(item.Keys), PathItemField(path, item), f);
    FieldShape(path, item, f);
  }

  /** In an accepted document the inventory reader's rows are the operations with a listed method. */
  lemma RowsAreOperations(render: Value -> string, doc: Value, row: Row)
    requires Clean(DocumentItems(render, doc)) && doc.Obj? && Get(doc.fields, "paths").Obj?
    ensures HasRow(Get(doc.fields, "paths").fields, row) <==>
      row.field in LISTED && OperationIn(doc, row.path, row.field, row.operation)
  {
    var paths := Get(doc.fields, "paths").fields;
    if HasRow(paths, row) {
      CleanField(render, doc, row.path, row.field);
      if row.field in HTTP_METHODS { UpperMethods(row.field); } else { UpperFields(row.field); }
    }
    if row.field in LISTED && OperationIn(doc, row.path, row.field, row.operation) { UpperListed(row.field); }
  }
}
