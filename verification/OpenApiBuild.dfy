/**
 * Building an OpenAPI document from routes (crates/sdkwork-web-contract/src/openapi.rs) and reading
 * its inventory back.
 */
module OpenApiBuild {
  import opened Sorting
  import opened Text
  import opened Json
  import opened Routes
  import opened Inventory

  function ItemOf(paths: map<string, Value>, path: string): map<string, Value> {
    if path in paths && paths[path].Obj? then paths[path].fields else map[]
  }

  /** An operation goes under its path and method, over an earlier one. */
  function WithRow(paths: map<string, Value>, row: Row): map<string, Value> {
    paths[row.path := Obj(ItemOf(paths, row.path)[row.field := row.operation])]
  }

  function Assembled(rows: seq<Row>): map<string, Value> {
    if rows == [] then map[] else WithRow(Assembled(rows[..|rows| - 1]), rows[|rows| - 1])
  }

  ghost predicate Contracts(routes: seq<HttpRoute>) {
    forall i :: 0 <= i < |routes| ==> ContractHolds(routes[i])
  }

  function RouteRow(r: HttpRoute): Row
    requires ContractHolds(r)
  {
    Row(r.path, MethodKey(r.verb), BuildOperation(r))
  }

  function RouteRows(routes: seq<HttpRoute>): seq<Row>
    requires Contracts(routes)
  {
    seq(|routes|, i requires 0 <= i < |routes| => RouteRow(routes[i]))
  }

  function PathsFrom(routes: seq<HttpRoute>): map<string, Value>
    requires Contracts(routes)
  {
    Assembled(RouteRows(routes))
  }

  function DocumentFrom(title: string, components: Value, paths: map<string, Value>): Value {
    Obj(map["openapi" := Str("3.1.2"), "info" := Obj(map["title" := Str(title), "version" := Str("0.1.0")]),
            "components" := components, "paths" := Obj(paths)])
  }

  /** `build_openapi_document`; the component schemas are a parameter. */
  method BuildDocument(title: string, components: Value, routes: seq<HttpRoute>) returns (doc: Value)
    requires Contracts(routes)
    ensures doc == DocumentFrom(title, components, PathsFrom(routes))
  {
    var paths: map<string, Value> := map[];
    ghost var rows := RouteRows(routes);
    assert rows[..0] == [];
    for i := 0 to |routes|
      invariant paths == Assembled(rows[..i])
    {
      var path, key, operation := routes[i].path, MethodKey(routes[i].verb), BuildOperation(routes[i]);
      var item := if path in paths && paths[path].Obj? then paths[path].fields else map[];
      NextRow(rows, i);
      paths := paths[path := Obj(item[key := operation])];
    }
    assert rows[..|rows|] == rows;
    doc := DocumentFrom(title, components, paths);
  }

  lemma NextRow(rows: seq<Row>, i: nat)
    requires i < |rows|
    ensures Assembled(rows[..i + 1]) == WithRow(Assembled(rows[..i]), rows[i])
  {
    assert rows[..i + 1][..i] == rows[..i] && rows[..i + 1][i] == rows[i];
  }

  // -- rows of an assembled paths object -----------------------------------------------------------

  datatype Place = Place(path: string, field: string)

  function PlaceOf(row: Row): Place {
    Place(row.path, row.field)
  }

  function Places(rows: seq<Row>): seq<Place> {
    seq(|rows|, i requires 0 <= i < |rows| => PlaceOf(rows[i]))
  }

  predicate Known(rows: seq<Row>) {
    forall i :: 0 <= i < |rows| ==> Upper(rows[i].field) in METHODS
  }

  lemma WithRowRows(paths: map<string, Value>, last: Row, row: Row)
    requires Upper(last.field) in METHODS
    ensures HasRow(WithRow(paths, last), row) <==>
      if PlaceOf(row) == PlaceOf(last) then row == last else HasRow(paths, row)
  {
  }

  /** The row was written at `i` and not overwritten since. */
  ghost predicate LastAt(rows: seq<Row>, i: int, row: Row) {
    0 <= i < |rows| && row == rows[i] && forall j :: i < j < |rows| ==> PlaceOf(row) != PlaceOf(rows[j])
  }

  lemma LastLonger(rows: seq<Row>, last: Row, i: int, row: Row)
    ensures LastAt(rows + [last], i, row) <==>
      if i == |rows| then row == last else LastAt(rows, i, row) && PlaceOf(row) != PlaceOf(last)
  {
    var longer := rows + [last];
    if LastAt(longer, i, row) && i < |rows| {
      assert longer[|rows|] == last;
      assert forall j :: i < j < |rows| ==> longer[j] == rows[j];
    }
  }

  /** The rows of the object are the last ones written at each place. */
  lemma {:induction false} AssembledRows(rows: seq<Row>, row: Row)
    requires Known(rows)
    ensures HasRow(Assembled(rows), row) <==> exists i :: LastAt(rows, i, row)
    decreases |rows|
  {
    if rows != [] {
      var n := |rows| - 1;
      var before, last := rows[..n], rows[n];
      assert rows == before + [last];
      AssembledRows(before, row);
      WithRowRows(Assembled(before), last, row);
      if exists i :: LastAt(before, i, row) {
        var i :| LastAt(before, i, row);
        LastLonger(before, last, i, row);
      }
      if exists i :: LastAt(rows, i, row) {
        var i :| LastAt(rows, i, row);
        LastLonger(before, last, i, row);
      }
      LastLonger(before, last, n, row);
    }
  }

  lemma {:induction false} LastExists(rows: seq<Row>, place: Place)
    requires place in Places(rows)
    ensures exists i, row :: LastAt(rows, i, row) && PlaceOf(row) == place
    decreases |rows|
  {
    var n := |rows| - 1;
    var before, last := rows[..n], rows[n];
    assert rows == before + [last];
    if PlaceOf(last) == place {
      assert LastAt(rows, n, last);
    } else {
      var k :| 0 <= k < |rows| && Places(rows)[k] == place;
      assert Places(before)[k] == place;
      LastExists(before, place);
      var i, row :| LastAt(before, i, row) && PlaceOf(row) == place;
      LastLonger(before, last, i, row);
      assert LastAt(rows, i, row);
    }
  }

  function Elements<T>(s: seq<T>): set<T> {
    set x | x in s
  }

  /** A sequence has as many elements as places exactly when none repeats. */
  lemma {:induction false} DistinctExactly<T>(s: seq<T>)
    ensures |Elements(s)| <= |s|
    ensures |Elements(s)| == |s| <==> Distinct(s)
    decreases |s|
  {
    if s != [] {
      var n := |s| - 1;
      DistinctExactly(s[..n]);
      assert s == s[..n] + [s[n]];
      assert Elements(s) == Elements(s[..n]) + {s[n]};
      if s[n] in s[..n] {
        var i :| 0 <= i < n && s[i] == s[n];
        assert !Distinct(s);
        assert Elements(s) == Elements(s[..n]);
      } else {
        assert Distinct(s) <==> Distinct(s[..n]);
      }
    }
  }

  lemma RowPlacesDistinct(paths: map<string, Value>)
    ensures Distinct(Places(Rows(paths)))
  {
    var rows := Rows(paths);
    RowsDistinct(paths);
    forall i, j | 0 <= i < j < |rows| ensures PlaceOf(rows[i]) != PlaceOf(rows[j]) {
      assert rows[i] in rows && rows[j] in rows;
      RowMember(paths, rows[i]);
      RowMember(paths, rows[j]);
    }
  }

  lemma PlacesIn(rows: seq<Row>, p: Place)
    ensures p in Places(rows) <==> exists row :: row in rows && PlaceOf(row) == p
  {
    if p in Places(rows) {
      var i :| 0 <= i < |rows| && Places(rows)[i] == p;
      assert rows[i] in rows;
    }
    if exists row :: row in rows && PlaceOf(row) == p {
      var row :| row in rows && PlaceOf(row) == p;
      var i :| 0 <= i < |rows| && rows[i] == row;
      assert Places(rows)[i] == p;
    }
  }

  lemma SamePlace(rows: seq<Row>, p: Place)
    requires Known(rows)
    ensures p in Places(Rows(Assembled(rows))) <==> p in Places(rows)
  {
    var found := Rows(Assembled(rows));
    PlacesIn(found, p);
    PlacesIn(rows, p);
    if p in Places(found) {
      var row :| row in found && PlaceOf(row) == p;
      RowMember(Assembled(rows), row);
      AssembledRows(rows, row);
      var i :| LastAt(rows, i, row);
      assert rows[i] in rows;
    }
    if p in Places(rows) {
      LastExists(rows, p);
      var i, row :| LastAt(rows, i, row) && PlaceOf(row) == p;
      AssembledRows(rows, row);
      RowMember(Assembled(rows), row);
    }
  }

  /** The object has as many rows as were written exactly when no place repeats. */
  lemma RowCount(rows: seq<Row>)
    requires Known(rows)
    ensures |Rows(Assembled(rows))| == |rows| <==> Distinct(Places(rows))
  {
    var found := Rows(Assembled(rows));
    forall p ensures p in Places(found) <==> p in Places(rows) { SamePlace(rows, p); }
    assert Elements(Places(found)) == Elements(Places(rows));
    RowPlacesDistinct(Assembled(rows));
    DistinctExactly(Places(found));
    DistinctExactly(Places(rows));
  }

  /** Without repetition the rows of the object are the rows written. */
  lemma AssembledRowsAre(rows: seq<Row>)
    requires Known(rows) && Distinct(Places(rows))
    ensures multiset(Rows(Assembled(rows))) == multiset(rows)
  {
    var paths := Assembled(rows);
    RowsDistinct(paths);
    forall i, j | 0 <= i < j < |rows| ensures rows[i] != rows[j] { assert Places(rows)[i] != Places(rows)[j]; }
    forall row ensures row in Rows(paths) <==> row in rows {
      RowMember(paths, row);
      AssembledRows(rows, row);
      if row in rows {
        var i :| 0 <= i < |rows| && rows[i] == row;
        forall j | i < j < |rows|
          ensures PlaceOf(row) != PlaceOf(rows[j])
        {
          assert Places(rows)[i] != Places(rows)[j];
        }
        assert LastAt(rows, i, row);
      }
    }
    SameElements(Rows(paths), rows);
  }

  lemma {:induction false} AssembledItems(rows: seq<Row>, p: string)
    requires p in Assembled(rows)
    ensures Assembled(rows)[p].Obj?
    decreases |rows|
  {
    var n := |rows| - 1;
    if p != rows[n].path { AssembledItems(rows[..n], p); }
  }

  /** Without repetition the object is readable exactly when every row written is. */
  lemma AssembledReadable(rows: seq<Row>)
    requires Known(rows) && Distinct(Places(rows))
    ensures PathsReadable(Assembled(rows)) <==> AllReadable(rows)
  {
    var paths := Assembled(rows);
    AssembledRowsAre(rows);
    if AllReadable(rows) {
      forall p | p in paths ensures ItemReadable(p, paths[p]) {
        AssembledItems(rows, p);
        forall i | 0 <= i < |ItemRows(p, paths[p])| ensures RowReadable(ItemRows(p, paths[p])[i]) {
          var row := ItemRows(p, paths[p])[i];
          assert row in ItemRows(p, paths[p]);
          ItemMember(p, paths[p], row);
          AssembledRows(rows, row);
        }
      }
    }
    if PathsReadable(paths) {
      ReadableRows(paths);
      forall i | 0 <= i < |rows| ensures RowReadable(rows[i]) {
        assert rows[i] in multiset(rows);
        assert rows[i] in multiset(Rows(paths));
        var k :| 0 <= k < |Rows(paths)| && Rows(paths)[k] == rows[i];
      }
    }
  }

  // -- the round trip ------------------------------------------------------------------------------

  lemma MethodNames(m: HttpMethod)
    ensures Upper(MethodKey(m)) == MethodLabel(m) && MethodLabel(m) in METHODS
  {
    assert Upper(MethodKey(m)) == MethodLabel(m);
  }

  lemma MethodKeysDiffer(a: HttpMethod, b: HttpMethod)
    ensures MethodKey(a) == MethodKey(b) ==> a == b
  {
    var x, y := MethodKey(a), MethodKey(b);
    assert x == y ==> |x| == |y| && x[0] == y[0] && x[1] == y[1];
  }

  /** A built operation reads back as the route's own inventory row, if its operation id can be read. */
  lemma RowOfRoute(r: HttpRoute)
    requires ContractHolds(r)
    ensures FromRow(RouteRow(r)) == FromRoute(r) && Upper(RouteRow(r).field) in METHODS
    ensures RowReadable(RouteRow(r)) <==> !Blank(r.operationId)
  {
    OperationFacts(r);
    MethodNames(r.verb);
    LabelsAgree(r.auth);
    SurfaceLabelsShow(InferSurface(r.path));
  }

  lemma {:induction false} EntriesOfRoutes(routes: seq<HttpRoute>)
    requires Contracts(routes)
    ensures RowEntries(RouteRows(routes)) == ManifestEntries(routes)
    decreases |routes|
  {
    if routes != [] {
      var n := |routes| - 1;
      EntriesOfRoutes(routes[..n]);
      assert RouteRows(routes)[..n] == RouteRows(routes[..n]);
      RowOfRoute(routes[n]);
    }
  }

  lemma {:induction false} EntryCount(rows: seq<Row>)
    ensures |RowEntries(rows)| == |rows|
    decreases |rows|
  {
    if rows != [] { EntryCount(rows[..|rows| - 1]); }
  }

  /** No two routes share path and method. */
  ghost predicate NoRepeats(routes: seq<HttpRoute>) {
    forall i, j :: 0 <= i < j < |routes| ==> routes[i].path != routes[j].path || routes[i].verb != routes[j].verb
  }

  ghost predicate AllNamed(routes: seq<HttpRoute>) {
    forall i :: 0 <= i < |routes| ==> !Blank(routes[i].operationId)
  }

  lemma RouteRowFacts(routes: seq<HttpRoute>)
    requires Contracts(routes)
    ensures Known(RouteRows(routes))
    ensures Distinct(Places(RouteRows(routes))) <==> NoRepeats(routes)
    ensures AllReadable(RouteRows(routes)) <==> AllNamed(routes)
  {
    var rows := RouteRows(routes);
    forall i | 0 <= i < |routes|
      ensures Upper(rows[i].field) in METHODS && (RowReadable(rows[i]) <==> !Blank(routes[i].operationId))
    {
      RowOfRoute(routes[i]);
    }
    forall i, j | 0 <= i < j < |routes|
      ensures Places(rows)[i] == Places(rows)[j] <==>
        routes[i].path == routes[j].path && routes[i].verb == routes[j].verb
    {
      MethodKeysDiffer(routes[i].verb, routes[j].verb);
    }
  }

  ghost predicate RoundTrips(title: string, components: Value, routes: seq<HttpRoute>)
    requires Contracts(routes)
  {
    var doc := DocumentFrom(title, components, PathsFrom(routes));
    Readable(doc) && DocumentInventory(doc) == ManifestInventory(routes)
  }

  lemma DocumentPaths(title: string, components: Value, paths: map<string, Value>)
    ensures Get(DocumentFrom(title, components, paths).fields, "paths") == Obj(paths)
  {
  }

  /** Whether the assembled rows read back as the rows written. */
  lemma ReadsBack(rows: seq<Row>)
    requires Known(rows)
    ensures PathsReadable(Assembled(rows)) && multiset(RowEntries(Rows(Assembled(rows)))) == multiset(RowEntries(rows))
      <==> Distinct(Places(rows)) && AllReadable(rows)
  {
    var found := Rows(Assembled(rows));
    EntryCount(found);
    EntryCount(rows);
    RowCount(rows);
    if Distinct(Places(rows)) {
      AssembledReadable(rows);
      AssembledRowsAre(rows);
      FlatPermuted(found, rows, (row: Row) => [FromRow(row)]);
    } else if multiset(RowEntries(found)) == multiset(RowEntries(rows)) {
      SameLength(RowEntries(found), RowEntries(rows));
    }
  }

  /**
   * Reading the built document gives back the manifest's sorted inventory exactly when no path and
   * method repeats and every operation id shows.
   */
  lemma RoundTripExactly(title: string, components: Value, routes: seq<HttpRoute>)
    requires Contracts(routes)
    ensures RoundTrips(title, components, routes) <==> NoRepeats(routes) && AllNamed(routes)
  {
    var rows := RouteRows(routes);
    DocumentPaths(title, components, Assembled(rows));
    RouteRowFacts(routes);
    ReadsBack(rows);
    EntriesOfRoutes(routes);
    SortedEntries(RowEntries(Rows(Assembled(rows))), ManifestEntries(routes));
  }
}
