/**
 * Why composing validated API assemblies cannot fail late
 * (crates/sdkwork-web-bootstrap/src/api_assembly.rs): the merge never meets two listed operations
 * at one place, and the combined document's inventory is the combined manifest's.
 */
module Composition {
  import opened Sorting
  import opened Text
  import opened Json
  import opened Routes
  import opened Inventory
  import opened OpenApiMerge
  import opened OpenApiDocuments
  import opened OpenApiWriting
  import opened Operations
  import opened Manifests

  /** What one owner contributes. */
  datatype ApiContribution = ApiContribution(
    owner: string,
    routes: seq<HttpRoute>,
    openapi: Value,
    permissions: seq<string>)

  function DocumentOf(c: ApiContribution): Contribution {
    Contribution(c.owner, c.openapi)
  }

  function Documents(cs: seq<ApiContribution>): seq<Contribution> {
    Flat(cs, (c: ApiContribution) => [DocumentOf(c)])
  }

  function AllRoutes(cs: seq<ApiContribution>): seq<HttpRoute> {
    Flat(cs, (c: ApiContribution) => c.routes)
  }

  /** The owner's manifest and document list the same operations. */
  predicate InventoriesAgree(c: ApiContribution) {
    Readable(c.openapi) && ManifestInventory(c.routes) == DocumentInventory(c.openapi)
  }

  // -- rows of one document ------------------------------------------------------------------------

  predicate HasPaths(doc: Value) {
    doc.Obj? && Get(doc.fields, "paths").Obj?
  }

  function DocumentRows(d: Contribution): seq<Row> {
    if HasPaths(d.document) then Rows(Get(d.document.fields, "paths").fields) else []
  }

  function EntryOf(row: Row): Item {
    Put(Operation(row.path, row.field), row.operation)
  }

  lemma RowEntered(render: Value -> string, d: Contribution, row: Row)
    requires !Blank(d.owner) && Clean(DocumentItems(render, d.document)) && HasPaths(d.document)
    ensures row in DocumentRows(d) <==> row.field in LISTED && EntryOf(row) in ContributionItems(render)(d)
  {
    RowMember(Get(d.document.fields, "paths").fields, row);
    RowsAreOperations(render, d.document, row);
    OperationEntries(render, d.document, row.path, row.field, row.operation);
  }

  /** What a merged list says about each of its contributions. */
  ghost predicate Accepted(render: Value -> string, d: Contribution) {
    !Blank(d.owner) && Clean(DocumentItems(render, d.document)) && HasPaths(d.document)
  }

  lemma GoodAccepts(render: Value -> string, ds: seq<Contribution>, d: Contribution)
    requires Good(multiset(AllItems(render, ds))) && d in ds
    ensures Accepted(render, d)
  {
    var f := ContributionItems(render);
    forall x | x in AllItems(render, ds) ensures !x.Bad? { assert x in multiset(AllItems(render, ds)); }
    FlatClean(ds, f, d);
    OwnerShape(render, d);
    PathsPresent(render, d.document);
  }

  lemma OwnerShape(render: Value -> string, d: Contribution)
    ensures Clean(ContributionItems(render)(d)) ==> !Blank(d.owner) && Clean(DocumentItems(render, d.document))
  {
    if Blank(d.owner) { assert ContributionItems(render)(d)[0].Bad?; }
  }

  lemma PathsPresent(render: Value -> string, doc: Value)
    ensures Clean(DocumentItems(render, doc)) ==> HasPaths(doc)
  {
    if !doc.Obj? {
      assert DocumentItems(render, doc)[0].Bad?;
    } else if !Get(doc.fields, "paths").Obj? {
      var bad := PathsItems(doc.fields)[0];
      assert bad.Bad? && bad in DocumentItems(render, doc);
    }
  }

  // -- rows of the combined document -----------------------------------------------------------------

  /** An entry at an exclusive location is in the state exactly when it is in the list. */
  lemma ExclusiveEntry(s: State, items: seq<Item>, loc: Loc, v: Value)
    requires Good(multiset(items)) && Reflects(s, items) && RuleOf(loc) == Exclusive
    ensures loc in s.entries && s.entries[loc] == v <==> Put(loc, v) in items
  {
    FirstAtIn(items, loc);
    if Put(loc, v) in items && loc in s.entries {
      assert Put(loc, v) in multiset(items) && Put(loc, s.entries[loc]) in multiset(items);
    }
  }

  lemma ItemSource(render: Value -> string, ds: seq<Contribution>, x: Item)
    requires x in AllItems(render, ds) && !x.Bad?
    ensures exists d :: d in ds && x in DocumentItems(render, d.document)
  {
    FlatMember(ds, ContributionItems(render), x);
    var d :| d in ds && x in ContributionItems(render)(d);
    assert x in DocumentItems(render, d.document);
  }

  lemma PathEntered(render: Value -> string, ds: seq<Contribution>, row: Row)
    requires EntryOf(row) in AllItems(render, ds)
    ensures Put(Path(row.path), Null) in AllItems(render, ds) && row.field in HTTP_METHODS
  {
    FlatMember(ds, ContributionItems(render), EntryOf(row));
    var d :| d in ds && EntryOf(row) in ContributionItems(render)(d);
    OperationEntries(render, d.document, row.path, row.field, row.operation);
    assert Put(Path(row.path), Null) in ContributionItems(render)(d);
    FlatMember(ds, ContributionItems(render), Put(Path(row.path), Null));
  }

  /** A field that is not an operation is not spelled like one. */
  lemma FieldUnlisted(render: Value -> string, ds: seq<Contribution>, s: State, path: string, f: string)
    requires Reflects(s, AllItems(render, ds)) && PathField(path, f) in s.entries
    ensures Upper(f) !in METHODS
  {
    var items := AllItems(render, ds);
    FirstAtIn(items, PathField(path, f));
    var x := Put(PathField(path, f), s.entries[PathField(path, f)]);
    ItemSource(render, ds, x);
    var d :| d in ds && x in DocumentItems(render, d.document);
    FieldEntries(render, d.document, path, f, x.value);
  }

  lemma CombinedField(e: map<Loc, Value>, row: Row)
    requires PathField(row.path, row.field) in e ==> Upper(row.field) !in METHODS
    ensures HasRow(PathsOf(e), row) ==>
      Operation(row.path, row.field) in e && e[Operation(row.path, row.field)] == row.operation
    ensures
      && Path(row.path) in e && Upper(row.field) in METHODS
      && Operation(row.path, row.field) in e && e[Operation(row.path, row.field)] == row.operation
      ==> HasRow(PathsOf(e), row)
  {
    if Operation(row.path, row.field) in e { assert row.field in FieldNames(e, row.path); }
    if Path(row.path) in e { assert row.path in PathNames(e); }
  }

  /** The rows of the combined document are the listed operations entered by its contributions. */
  lemma CombinedRow(render: Value -> string, ds: seq<Contribution>, s: State, row: Row)
    requires Good(multiset(AllItems(render, ds))) && Reflects(s, AllItems(render, ds))
    ensures HasRow(PathsOf(s.entries), row) <==> row.field in LISTED && EntryOf(row) in AllItems(render, ds)
  {
    var items := AllItems(render, ds);
    ExclusiveEntry(s, items, Operation(row.path, row.field), row.operation);
    if PathField(row.path, row.field) in s.entries { FieldUnlisted(render, ds, s, row.path, row.field); }
    CombinedField(s.entries, row);
    if EntryOf(row) in items {
      PathEntered(render, ds, row);
      FirstAtIn(items, Path(row.path));
      UpperMethods(row.field);
    }
  }

  lemma ContributedRow(render: Value -> string, ds: seq<Contribution>, row: Row)
    requires Good(multiset(AllItems(render, ds)))
    ensures row in Flat(ds, DocumentRows) <==> row.field in LISTED && EntryOf(row) in AllItems(render, ds)
  {
    FlatMember(ds, DocumentRows, row);
    FlatMember(ds, ContributionItems(render), EntryOf(row));
    forall d | d in ds
      ensures row in DocumentRows(d) <==> row.field in LISTED && EntryOf(row) in ContributionItems(render)(d)
    {
      GoodAccepts(render, ds, d);
      RowEntered(render, d, row);
    }
  }

  lemma SourceEntry(render: Value -> string, ds: seq<Contribution>, d: Contribution, row: Row)
    requires Good(multiset(AllItems(render, ds))) && d in ds && row in DocumentRows(d)
    ensures EntryOf(row) in ContributionItems(render)(d)
  {
    GoodAccepts(render, ds, d);
    RowEntered(render, d, row);
  }

  lemma ExclusiveCount(m: multiset<Item>, x: Item)
    requires Good(m) && x.Put? && RuleOf(x.loc) == Exclusive
    ensures m[x] <= 1
  {
    if x in m { assert m[x] == 1; }
  }

  lemma OneEntry(ds: seq<Contribution>, f: Contribution -> seq<Item>, d: Contribution, d': Contribution, x: Item)
    requires Good(multiset(Flat(ds, f))) && x.Put? && RuleOf(x.loc) == Exclusive
    requires d in ds && d' in ds && x in f(d) && x in f(d')
    ensures d == d'
  {
    ExclusiveCount(multiset(Flat(ds, f)), x);
    OneArgument(ds, f, d, d', x);
  }

  /** If rows are entered as operations and operations are entered once, rows occur once. */
  lemma RowsOccurOnce(ds: seq<Contribution>, f: Contribution -> seq<Item>, g: Contribution -> seq<Row>)
    requires Good(multiset(Flat(ds, f))) && Distinct(ds)
    requires forall d, row :: d in ds && row in g(d) ==> EntryOf(row) in f(d)
    requires forall d :: d in ds ==> Distinct(g(d))
    ensures Distinct(Flat(ds, g))
  {
    forall d, d', row | d in ds && d' in ds && row in g(d) && row in g(d') ensures d == d' {
      OneEntry(ds, f, d, d', EntryOf(row));
    }
    FlatDistinct(ds, g);
  }

  lemma DocumentRowsDistinct(d: Contribution)
    ensures Distinct(DocumentRows(d))
  {
    if HasPaths(d.document) { RowsDistinct(Get(d.document.fields, "paths").fields); }
  }

  lemma ContributedDistinct(render: Value -> string, ds: seq<Contribution>)
    requires Good(multiset(AllItems(render, ds))) && Distinct(ds)
    ensures Distinct(Flat(ds, DocumentRows))
  {
    forall d | d in ds ensures Distinct(DocumentRows(d)) { DocumentRowsDistinct(d); }
    forall d, row | d in ds && row in DocumentRows(d) ensures EntryOf(row) in ContributionItems(render)(d) {
      SourceEntry(render, ds, d, row);
    }
    RowsOccurOnce(ds, ContributionItems(render), DocumentRows);
  }

  /** The combined document's rows are the disjoint union of the contributions' rows. */
  lemma CombinedRows(render: Value -> string, ds: seq<Contribution>, s: State)
    requires Good(multiset(AllItems(render, ds))) && Reflects(s, AllItems(render, ds)) && Distinct(ds)
    ensures multiset(Rows(PathsOf(s.entries))) == multiset(Flat(ds, DocumentRows))
  {
    RowsDistinct(PathsOf(s.entries));
    ContributedDistinct(render, ds);
    forall row ensures row in Rows(PathsOf(s.entries)) <==> row in Flat(ds, DocumentRows) {
      RowMember(PathsOf(s.entries), row);
      CombinedRow(render, ds, s, row);
      ContributedRow(render, ds, row);
    }
    SameElements(Rows(PathsOf(s.entries)), Flat(ds, DocumentRows));
  }

  // -- the inventories agree ----------------------------------------------------------------------

  function RowsOf(c: ApiContribution): seq<Row> {
    DocumentRows(DocumentOf(c))
  }

  lemma {:induction false} RowsOfDocuments(cs: seq<ApiContribution>)
    ensures Flat(Documents(cs), DocumentRows) == Flat(cs, RowsOf)
    decreases |cs|
  {
    if cs != [] {
      var n := |cs| - 1;
      RowsOfDocuments(cs[..n]);
      FlatConcat(Documents(cs[..n]), [DocumentOf(cs[n])], DocumentRows);
      FlatOne(DocumentOf(cs[n]), DocumentRows);
    }
  }

  /** The owner's rows read as its manifest's entries. */
  lemma EntriesAgree(c: ApiContribution)
    requires InventoriesAgree(c)
    ensures multiset(RowEntries(RowsOf(c))) == multiset(ManifestEntries(c.routes))
  {
    SortedEntries(ManifestEntries(c.routes), RowEntries(RowsOf(c)));
  }

  lemma {:induction false} AllEntriesAgree(cs: seq<ApiContribution>)
    requires forall c :: c in cs ==> InventoriesAgree(c)
    ensures multiset(RowEntries(Flat(cs, RowsOf))) == multiset(ManifestEntries(AllRoutes(cs)))
    decreases |cs|
  {
    if cs != [] {
      var n := |cs| - 1;
      assert cs[n] in cs;
      AllEntriesAgree(cs[..n]);
      EntriesAgree(cs[n]);
      EntriesConcat(Flat(cs[..n], RowsOf), RowsOf(cs[n]));
      ManifestConcat(AllRoutes(cs[..n]), cs[n].routes);
    }
  }

  lemma ManifestConcat(a: seq<HttpRoute>, b: seq<HttpRoute>)
    ensures ManifestEntries(a + b) == ManifestEntries(a) + ManifestEntries(b)
  {
    FlatConcat(a, b, (r: HttpRoute) => [FromRoute(r)]);
  }

  lemma {:induction false} DocumentsDistinct(cs: seq<ApiContribution>)
    requires forall i, j :: 0 <= i < j < |cs| ==> cs[i].owner != cs[j].owner
    ensures Distinct(Documents(cs)) && |Documents(cs)| == |cs|
    ensures forall i :: 0 <= i < |cs| ==> Documents(cs)[i] == DocumentOf(cs[i])
    decreases |cs|
  {
    if cs != [] { DocumentsDistinct(cs[..|cs| - 1]); }
  }

  /** Every row of the combined document can be read. */
  lemma CombinedReadable(render: Value -> string, cs: seq<ApiContribution>, s: State)
    requires Good(multiset(AllItems(render, Documents(cs)))) && Reflects(s, AllItems(render, Documents(cs)))
    requires forall c :: c in cs ==> InventoriesAgree(c)
    ensures PathsReadable(PathsOf(s.entries))
  {
    var paths := PathsOf(s.entries);
    forall p | p in paths ensures ItemReadable(p, paths[p]) {
      forall i | 0 <= i < |ItemRows(p, paths[p])| ensures RowReadable(ItemRows(p, paths[p])[i]) {
        var row := ItemRows(p, paths[p])[i];
        assert row in ItemRows(p, paths[p]);
        ItemMember(p, paths[p], row);
        CombinedRow(render, Documents(cs), s, row);
        ContributedRow(render, Documents(cs), row);
        ContributedReadable(cs, row);
      }
    }
  }

  lemma ContributedReadable(cs: seq<ApiContribution>, row: Row)
    requires row in Flat(Documents(cs), DocumentRows) && forall c :: c in cs ==> InventoriesAgree(c)
    ensures RowReadable(row)
  {
    RowsOfDocuments(cs);
    FlatMember(cs, RowsOf, row);
    var c :| c in cs && row in RowsOf(c);
    ReadableRow(Get(c.openapi.fields, "paths").fields, row);
  }

  /**
   * If every owner's inventories agree and the documents merge, the combined document can be read
   * and lists exactly the combined manifest: the last comparison of the composition always passes.
   */
  lemma CompositionAgrees(render: Value -> string, title: string, cs: seq<ApiContribution>)
    requires forall c :: c in cs ==> InventoriesAgree(c)
    requires forall i, j :: 0 <= i < j < |cs| ==> cs[i].owner != cs[j].owner
    requires Merge(render, title, Documents(cs)).Merged?
    ensures var doc := Materialize(Merge(render, title, Documents(cs)).state, title);
            Readable(doc) && DocumentInventory(doc) == ManifestInventory(AllRoutes(cs))
  {
    var ds := Documents(cs);
    var s := Merge(render, title, ds).state;
    RunExactly(AllItems(render, ds));
    DocumentsDistinct(cs);
    CombinedReadable(render, cs, s);
    CombinedRows(render, ds, s);
    RowsOfDocuments(cs);
    SameRowsSameInventory(cs, Rows(PathsOf(s.entries)));
    MaterializedPaths(s, title);
  }

  lemma SameRowsSameInventory(cs: seq<ApiContribution>, rows: seq<Row>)
    requires multiset(rows) == multiset(Flat(cs, RowsOf)) && forall c :: c in cs ==> InventoriesAgree(c)
    ensures Sort(EntryLeq, RowEntries(rows)) == ManifestInventory(AllRoutes(cs))
  {
    FlatPermuted(rows, Flat(cs, RowsOf), (row: Row) => [FromRow(row)]);
    AllEntriesAgree(cs);
    SortedEntries(RowEntries(rows), ManifestEntries(AllRoutes(cs)));
  }

  // -- no late operation conflict --------------------------------------------------------------------

  /** A conflict means two entries at the location. */
  lemma {:induction false} ConflictingEntries(items: seq<Item>, loc: Loc) returns (i: nat, j: nat)
    requires Run(items) == Failed(Conflict(loc))
    ensures i < j < |items| && items[i].Put? && items[i].loc == loc && items[j].Put? && items[j].loc == loc
    decreases |items|
  {
    var n := |items| - 1;
    var before := items[..n];
    if Run(before).Failed? {
      i, j := ConflictingEntries(before, loc);
    } else {
      RunExactly(before);
      FirstAtIn(before, loc);
      var x := Put(loc, FirstAt(before, loc).value);
      i :| 0 <= i < |before| && before[i] == x;
      j := n;
    }
  }

  /** An element that occurs twice, but not in one image, comes from two arguments. */
  lemma TwoArguments<A, B>(xs: seq<A>, f: A -> seq<B>, y: B)
    requires Distinct(xs) && multiset(Flat(xs, f))[y] >= 2 && forall x :: x in xs ==> multiset(f(x))[y] <= 1
    ensures exists a, b :: a in xs && b in xs && a != b && y in f(a) && y in f(b)
  {
    if forall a, b :: a in xs && b in xs && y in f(a) && y in f(b) ==> a == b { FlatOnce(xs, f, y); }
  }

  ghost predicate Enters(render: Value -> string, d: Contribution, path: string, f: string) {
    exists v :: OperationIn(d.document, path, f, v)
  }

  lemma EntrySource(render: Value -> string, ds: seq<Contribution>, x: Item)
    requires x in AllItems(render, ds) && x.Put? && x.loc.Operation?
    ensures exists d ::
      d in ds && x in ContributionItems(render)(d) && OperationIn(d.document, x.loc.path, x.loc.name, x.value)
  {
    FlatMember(ds, ContributionItems(render), x);
    var d :| d in ds && x in ContributionItems(render)(d);
    OperationEntries(render, d.document, x.loc.path, x.loc.name, x.value);
  }

  lemma EntersOnce(render: Value -> string, d: Contribution, x: Item)
    requires x.Put? && x.loc.Operation?
    ensures multiset(ContributionItems(render)(d))[x] <= 1
  {
    if Blank(d.owner) { assert x !in [Bad(EmptyOwner)]; } else { OperationOnce(render, d.document, x); }
  }

  lemma RepeatedEntry(render: Value -> string, ds: seq<Contribution>, x: Item)
    requires Distinct(ds) && multiset(AllItems(render, ds))[x] >= 2 && x.Put? && x.loc.Operation?
    ensures exists a, b ::
      && a in ds && b in ds && a != b
      && Enters(render, a, x.loc.path, x.loc.name) && Enters(render, b, x.loc.path, x.loc.name)
  {
    var f := ContributionItems(render);
    forall d | d in ds ensures multiset(f(d))[x] <= 1 { EntersOnce(render, d, x); }
    TwoArguments(ds, f, x);
    var a, b :| a in ds && b in ds && a != b && x in f(a) && x in f(b);
    OperationEntries(render, a.document, x.loc.path, x.loc.name, x.value);
    OperationEntries(render, b.document, x.loc.path, x.loc.name, x.value);
    assert Enters(render, a, x.loc.path, x.loc.name) && Enters(render, b, x.loc.path, x.loc.name);
  }

  /** An operation conflict is between two different contributions. */
  lemma ConflictingContributions(render: Value -> string, ds: seq<Contribution>, path: string, f: string)
    requires Distinct(ds) && Run(AllItems(render, ds)) == Failed(Conflict(Operation(path, f)))
    ensures exists a, b :: a in ds && b in ds && a != b && Enters(render, a, path, f) && Enters(render, b, path, f)
  {
    var items := AllItems(render, ds);
    var i, j := ConflictingEntries(items, Operation(path, f));
    var x, y := items[i], items[j];
    assert x in items && y in items;
    EntrySource(render, ds, x);
    EntrySource(render, ds, y);
    var a :| a in ds && x in ContributionItems(render)(a) && OperationIn(a.document, path, f, x.value);
    var b :| b in ds && y in ContributionItems(render)(b) && OperationIn(b.document, path, f, y.value);
    assert Enters(render, a, path, f) && Enters(render, b, path, f);
    if a == b {
      CountTwice(items, i, j);
      RepeatedEntry(render, ds, x);
    }
  }

  lemma RowListed(c: ApiContribution, path: string, f: string, v: Value)
    requires f in LISTED && OperationIn(c.openapi, path, f, v)
    ensures Row(path, f, v) in RowsOf(c)
  {
    UpperListed(f);
    RowMember(Get(c.openapi.fields, "paths").fields, Row(path, f, v));
  }

  lemma EntryListed(c: ApiContribution, row: Row)
    requires InventoriesAgree(c) && row in RowsOf(c)
    ensures FromRow(row) in ManifestEntries(c.routes)
  {
    EntryMember(RowsOf(c), row);
    EntriesAgree(c);
    assert FromRow(row) in multiset(RowEntries(RowsOf(c)));
    assert FromRow(row) in multiset(ManifestEntries(c.routes));
  }

  lemma {:induction false} EntryMember(rows: seq<Row>, row: Row)
    requires row in rows
    ensures FromRow(row) in RowEntries(rows)
    decreases |rows|
  {
    var n := |rows| - 1;
    if rows[n] != row { EntryMember(rows[..n], row); }
  }

  lemma {:induction false} RouteMember(routes: seq<HttpRoute>, entry: Entry) returns (r: HttpRoute)
    requires entry in ManifestEntries(routes)
    ensures r in routes && FromRoute(r) == entry
    decreases |routes|
  {
    var n := |routes| - 1;
    if FromRoute(routes[n]) == entry { r := routes[n]; } else { r := RouteMember(routes[..n], entry); }
  }

  /** A listed operation of an owner's document is one of its routes. */
  lemma RouteBehind(c: ApiContribution, path: string, f: string) returns (r: HttpRoute)
    requires InventoriesAgree(c) && f in LISTED && exists v :: OperationIn(c.openapi, path, f, v)
    ensures r in c.routes && MethodLabel(r.verb) == Upper(f) && NormalizeRoutePath(r.path) == NormalizeRoutePath(path)
  {
    var v :| OperationIn(c.openapi, path, f, v);
    RowListed(c, path, f, v);
    EntryListed(c, Row(path, f, v));
    r := RouteMember(c.routes, FromRow(Row(path, f, v)));
  }

  lemma SamePlaceCollides(r: HttpRoute, q: HttpRoute)
    requires MethodLabel(r.verb) == MethodLabel(q.verb) && NormalizeRoutePath(r.path) == NormalizeRoutePath(q.path)
    ensures CollisionKey(r) == CollisionKey(q)
  {
  }

  lemma DocumentIndex(cs: seq<ApiContribution>, d: Contribution) returns (i: nat)
    requires (forall k, l :: 0 <= k < l < |cs| ==> cs[k].owner != cs[l].owner) && d in Documents(cs)
    ensures i < |cs| && d == DocumentOf(cs[i])
  {
    DocumentsDistinct(cs);
    i :| 0 <= i < |Documents(cs)| && Documents(cs)[i] == d;
  }

  /**
   * Once every owner's inventories agree and the combined manifest has no collision, the merge can
   * fail for other reasons, but not with a conflict between delete, get, patch, post or put operations.
   */
  lemma NoOperationConflict(render: Value -> string, title: string, cs: seq<ApiContribution>, path: string, f: string)
    requires forall c :: c in cs ==> InventoriesAgree(c)
    requires forall i, j :: 0 <= i < j < |cs| ==> cs[i].owner != cs[j].owner
    requires NoCollision(AllRoutes(cs)) && f in LISTED
    ensures Merge(render, title, Documents(cs)) != Failed(Conflict(Operation(path, f)))
  {
    if Merge(render, title, Documents(cs)) == Failed(Conflict(Operation(path, f))) {
      DocumentsDistinct(cs);
      ConflictingContributions(render, Documents(cs), path, f);
      var a, b :| a in Documents(cs) && b in Documents(cs) && a != b && Enters(render, a, path, f)
          && Enters(render, b, path, f);
      var i := DocumentIndex(cs, a);
      var j := DocumentIndex(cs, b);
      var r := RouteBehind(cs[i], path, f);
      var q := RouteBehind(cs[j], path, f);
      SamePlaceCollides(r, q);
      if i < j {
        var u, v := FlatPositions(cs, (c: ApiContribution) => c.routes, i, j, r, q);
        Collides(AllRoutes(cs), u, v);
      } else {
        var u, v := FlatPositions(cs, (c: ApiContribution) => c.routes, j, i, q, r);
        Collides(AllRoutes(cs), u, v);
      }
    }
  }
}
