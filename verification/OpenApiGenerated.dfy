/**
 * Documents generated from routes (`build_openapi_document`, crates/sdkwork-web-contract/src/openapi.rs), as the
 * merge sees them (crates/sdkwork-web-contract/src/openapi_merge.rs).
 */
module OpenApiGenerated {
  import opened Sorting
  import opened Text
  import opened Json
  import opened Routes
  import opened Inventory
  import opened OpenApiBuild
  import OpenApiMerge
  import OpenApiDocuments
  import OpenApiShapes
  import OpenApiSections

  /** Every row is an operation under a method. */
  ghost predicate Operational(rows: seq<Row>) {
    forall i :: 0 <= i < |rows| ==> rows[i].field in OpenApiMerge.HTTP_METHODS && rows[i].operation.Obj?
  }

  lemma RouteRowsOperational(routes: seq<HttpRoute>)
    requires Contracts(routes)
    ensures Operational(RouteRows(routes))
  {
  }

  /** The paths of the assembled object are those of the rows, and its items hold operations only. */
  lemma {:induction false} AssembledPaths(rows: seq<Row>)
    requires Operational(rows)
    ensures forall p :: p in Assembled(rows) <==> exists i :: 0 <= i < |rows| && rows[i].path == p
    ensures forall p :: p in Assembled(rows) ==> OpenApiShapes.FieldsOk(Assembled(rows)[p])
    decreases |rows|
  {
    if rows != [] {
      var n := |rows| - 1;
      var before, last := rows[..n], rows[n];
      AssembledPaths(before);
      ItemKept(Assembled(before), last);
      forall p ensures p in Assembled(rows) <==> exists i :: 0 <= i < |rows| && rows[i].path == p {
        if i :| 0 <= i < n && before[i].path == p { assert rows[i].path == p; }
        if i :| 0 <= i < |rows| && rows[i].path == p { assert i < n ==> before[i].path == p; }
      }
    }
  }

  lemma ItemKept(paths: map<string, Value>, last: Row)
    requires last.field in OpenApiMerge.HTTP_METHODS && last.operation.Obj?
    requires forall p :: p in paths ==> OpenApiShapes.FieldsOk(paths[p])
    ensures forall p :: p in WithRow(paths, last) ==> OpenApiShapes.FieldsOk(WithRow(paths, last)[p])
  {
  }

  lemma AssembledOk(rows: seq<Row>)
    requires Operational(rows)
    ensures OpenApiShapes.PathsOk(Obj(Assembled(rows))) <==>
      forall i :: 0 <= i < |rows| ==> OpenApiDocuments.IsPath(rows[i].path)
  {
    AssembledPaths(rows);
    var paths := Assembled(rows);
    if OpenApiShapes.PathsOk(Obj(paths)) {
      forall i | 0 <= i < |rows| ensures OpenApiDocuments.IsPath(rows[i].path) {
        assert rows[i].path in paths && OpenApiShapes.PathOk(rows[i].path, paths[rows[i].path]);
      }
    }
  }

  /** What a generated document holds besides its paths. */
  lemma GeneratedHolds(title: string, components: Value, paths: map<string, Value>)
    ensures var doc := DocumentFrom(title, components, paths);
            && OpenApiSections.Lookup(doc, ["openapi"]) == Some(Str("3.1.2"))
            && OpenApiSections.Lookup(doc, ["info", "title"]) == Some(Str(title))
            && OpenApiSections.Lookup(doc, ["components"]) == Some(components)
            && OpenApiSections.Lookup(doc, ["paths"]) == Some(Obj(paths))
  {
    var doc := DocumentFrom(title, components, paths);
    OpenApiSections.LookupOne(doc, "openapi");
    OpenApiSections.LookupTwo(doc, "info", "title");
    OpenApiSections.LookupOne(doc.fields["info"], "title");
    OpenApiSections.LookupOne(doc, "components");
    OpenApiSections.LookupOne(doc, "paths");
  }

  lemma DocumentOk(title: string, components: Value, paths: map<string, Value>)
    ensures OpenApiShapes.WellShaped(DocumentFrom(title, components, paths)) <==>
      !Blank(title) && OpenApiShapes.ComponentsOk(components) && OpenApiShapes.PathsOk(Obj(paths))
  {
    var doc := DocumentFrom(title, components, paths);
    assert !IsWhitespace("3.1.2"[0]) && !IsWhitespace("0.1.0"[0]);
    if OpenApiShapes.WellShaped(doc) { assert OpenApiShapes.SectionOk("components", doc.fields["components"]); }
  }

  /**
   * The merge accepts the document of a manifest exactly when its title shows and its components and paths are
   * well formed.
   */
  lemma GeneratedAccepted(title: string, components: Value, routes: seq<HttpRoute>)
    requires Contracts(routes)
    ensures OpenApiShapes.WellShaped(DocumentFrom(title, components, PathsFrom(routes))) <==>
      && !Blank(title) && OpenApiShapes.ComponentsOk(components)
      && forall i :: 0 <= i < |routes| ==> routes[i].path != "" && routes[i].path[0] == '/'
  {
    var rows := RouteRows(routes);
    RouteRowsOperational(routes);
    AssembledOk(rows);
    DocumentOk(title, components, Assembled(rows));
    assert forall i :: 0 <= i < |routes| ==> rows[i].path == routes[i].path;
  }
}
