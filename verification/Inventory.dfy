/**
 * Route inventories: from a manifest, and read back from an OpenAPI document
 * (crates/sdkwork-web-contract/src/inventory.rs).
 */
module Inventory {
  import opened Sorting
  import opened Text
  import opened Json
  import opened Routes

  datatype Entry = Entry(surface: string, verb: string, path: string, operationId: string, authProfile: string)

  /** The derived order of the inventory row: its fields in declaration order. */
  predicate EntryLeq(a: Entry, b: Entry) {
    FieldsLeq([a.surface, a.verb, a.path, a.operationId, a.authProfile],
              [b.surface, b.verb, b.path, b.operationId, b.authProfile])
  }

  lemma EntryOrder()
    ensures TotalPreorder(EntryLeq) && forall m: multiset<Entry> :: NoTies(EntryLeq, m)
  {
    forall a, b
      ensures (EntryLeq(a, b) || EntryLeq(b, a)) && (EntryLeq(a, b) && EntryLeq(b, a) ==> a == b)
    {
      EntryTotal(a, b);
    }
    forall a, b, c | EntryLeq(a, b) && EntryLeq(b, c) ensures EntryLeq(a, c) {
      FieldsTransitive([a.surface, a.verb, a.path, a.operationId, a.authProfile],
                       [b.surface, b.verb, b.path, b.operationId, b.authProfile],
                       [c.surface, c.verb, c.path, c.operationId, c.authProfile]);
    }
  }

  lemma EntryTotal(a: Entry, b: Entry)
    ensures EntryLeq(a, b) || EntryLeq(b, a)
    ensures EntryLeq(a, b) && EntryLeq(b, a) ==> a == b
  {
    var x := [a.surface, a.verb, a.path, a.operationId, a.authProfile];
    var y := [b.surface, b.verb, b.path, b.operationId, b.authProfile];
    FieldsTotal(x, y);
    if x == y { assert x[0] == y[0] && x[1] == y[1] && x[2] == y[2] && x[3] == y[3] && x[4] == y[4]; }
  }

  /** Strictly before: at the first field that differs, the text comes first in lexicographic order. */
  ghost predicate EntryBefore(a: Entry, b: Entry) {
    || StringBefore(a.surface, b.surface)
    || (a.surface == b.surface && StringBefore(a.verb, b.verb))
    || (a.surface == b.surface && a.verb == b.verb && StringBefore(a.path, b.path))
    || (a.surface == b.surface && a.verb == b.verb && a.path == b.path && StringBefore(a.operationId, b.operationId))
    || (a.surface == b.surface && a.verb == b.verb && a.path == b.path && a.operationId == b.operationId
        && StringBefore(a.authProfile, b.authProfile))
  }

  lemma FieldsStep(x: string, a: seq<string>, y: string, b: seq<string>)
    ensures FieldsLeq([x] + a, [y] + b) <==> StringBefore(x, y) || (x == y && FieldsLeq(a, b))
  {
    assert ([x] + a)[1..] == a && ([y] + b)[1..] == b;
    StringLeqMeaning(x, y);
  }

  lemma EntryLeqMeaning(a: Entry, b: Entry)
    ensures EntryLeq(a, b) <==> a == b || EntryBefore(a, b)
  {
    FieldsStep(a.authProfile, [], b.authProfile, []);
    FieldsStep(a.operationId, [a.authProfile], b.operationId, [b.authProfile]);
    FieldsStep(a.path, [a.operationId, a.authProfile], b.path, [b.operationId, b.authProfile]);
    FieldsStep(a.verb, [a.path, a.operationId, a.authProfile], b.verb, [b.path, b.operationId, b.authProfile]);
    FieldsStep(a.surface, [a.verb, a.path, a.operationId, a.authProfile],
               b.surface, [b.verb, b.path, b.operationId, b.authProfile]);
    EntryList(a);
    EntryList(b);
  }

  lemma EntryList(a: Entry)
    ensures [a.surface, a.verb, a.path, a.operationId, a.authProfile] ==
      [a.surface] + [a.verb, a.path, a.operationId, a.authProfile]
    ensures [a.verb, a.path, a.operationId, a.authProfile] == [a.verb] + [a.path, a.operationId, a.authProfile]
    ensures [a.path, a.operationId, a.authProfile] == [a.path] + [a.operationId, a.authProfile]
    ensures [a.operationId, a.authProfile] == [a.operationId] + [a.authProfile]
    ensures [a.authProfile] == [a.authProfile] + []
  {
  }

  /** Sorting forgets the order in which rows were met. */
  lemma SortedEntries(a: seq<Entry>, b: seq<Entry>)
    ensures Sort(EntryLeq, a) == Sort(EntryLeq, b) <==> multiset(a) == multiset(b)
  {
    EntryOrder();
    SortCanonical(EntryLeq, a, b);
  }

  // -- paths -------------------------------------------------------------------------------------

  function NormalizeSegment(segment: string): string {
    if segment != "" && segment[0] == ':' then "{" + segment[1..] + "}" else segment
  }

  /** `normalize_route_path`. */
  function NormalizeRoutePath(path: string): string {
    var segments := Split("/" + TrimMatches(Trim(path), '/'), '/');
    var normalized := Joined(Flat(segments, (s: string) => [NormalizeSegment(s)]), '/');
    if normalized == "" then "/" else normalized
  }

  /** The segments of a path: what stands between its slashes, without blanks and slashes at its ends. */
  function Segments(path: string): seq<string> {
    Split(TrimMatches(Trim(path), '/'), '/')
  }

  predicate IsSlash(c: char) {
    c == '/'
  }

  /** The segments, said without the trimming and splitting functions. */
  lemma SegmentsExactly(path: string, segments: seq<string>)
    ensures segments == Segments(path) <==>
      && segments != [] && AllFree(segments, '/')
      && exists bare :: IsTrimmed(path, IsWhitespace, bare) && IsTrimmed(bare, IsSlash, Joined(segments, '/'))
  {
    var core := TrimMatches(Trim(path), '/');
    BothEnds(path, IsWhitespace);
    SlashesTrimmed(Trim(path));
    SplitFree(core, '/');
    JoinedSplit(core, '/');
    if segments != [] && AllFree(segments, '/')
        && exists bare :: IsTrimmed(path, IsWhitespace, bare) && IsTrimmed(bare, IsSlash, Joined(segments, '/'))
    {
      var bare :| IsTrimmed(path, IsWhitespace, bare) && IsTrimmed(bare, IsSlash, Joined(segments, '/'));
      TrimmedUnique(path, IsWhitespace, bare, Trim(path));
      TrimmedUnique(bare, IsSlash, Joined(segments, '/'), core);
      SplitJoined(segments, '/');
    }
  }

  lemma {:induction false} SameTrimEnd(s: string, d: char -> bool, e: char -> bool)
    requires forall c :: d(c) == e(c)
    ensures TrimEnd(s, d) == TrimEnd(s, e)
    decreases |s|
  {
    if s != "" { SameTrimEnd(s[..|s| - 1], d, e); }
  }

  lemma {:induction false} SameTrimStart(s: string, d: char -> bool, e: char -> bool)
    requires forall c :: d(c) == e(c)
    ensures TrimStart(s, d) == TrimStart(s, e)
    decreases |s|
  {
    if s != "" { SameTrimStart(s[1..], d, e); }
  }

  lemma SlashesTrimmed(s: string)
    ensures IsTrimmed(s, IsSlash, TrimMatches(s, '/'))
  {
    SameTrimStart(s, IsSlash, x => x == '/');
    SameTrimEnd(TrimStart(s, IsSlash), IsSlash, x => x == '/');
    BothEnds(s, IsSlash);
  }

  lemma {:induction false} FlatMapped(xs: seq<string>, f: string -> string, g: string -> seq<string>)
    requires forall x :: g(x) == [f(x)]
    ensures |Flat(xs, g)| == |xs| && forall i :: 0 <= i < |xs| ==> Flat(xs, g)[i] == f(xs[i])
    decreases |xs|
  {
    if xs != [] { FlatMapped(xs[..|xs| - 1], f, g); }
  }

  /** A colon parameter is written in braces. */
  function Braced(segments: seq<string>): (r: seq<string>)
    ensures |r| == |segments|
  {
    seq(|segments|, i requires 0 <= i < |segments| => NormalizeSegment(segments[i]))
  }

  lemma BracedFree(segments: seq<string>)
    requires AllFree(segments, '/')
    ensures AllFree(Braced(segments), '/')
  {
  }

  lemma SlashedParts(core: string)
    ensures Split("/" + core, '/') == [""] + Split(core, '/')
  {
    assert ("/" + core)[1..] == core;
  }

  lemma BracedParts(parts: seq<string>)
    ensures Flat([""] + parts, (s: string) => [NormalizeSegment(s)]) == [""] + Braced(parts)
  {
    FlatMapped([""] + parts, NormalizeSegment, (s: string) => [NormalizeSegment(s)]);
  }

  lemma JoinedSlashed(parts: seq<string>)
    requires parts != []
    ensures Joined([""] + parts, '/') == "/" + Joined(parts, '/')
  {
    assert ([""] + parts)[1..] == parts;
  }

  /** The normalized path is its segments, each behind a slash, with colon parameters in braces. */
  lemma NormalizedSegments(path: string)
    ensures NormalizeRoutePath(path) == "/" + Joined(Braced(Segments(path)), '/')
    ensures Split(NormalizeRoutePath(path), '/') == [""] + Braced(Segments(path))
  {
    var core := TrimMatches(Trim(path), '/');
    SlashedParts(core);
    BracedParts(Segments(path));
    JoinedSlashed(Braced(Segments(path)));
    SplitFree(core, '/');
    BracedFree(Segments(path));
    SplitJoined([""] + Braced(Segments(path)), '/');
  }

  predicate IsColon(segment: string) {
    segment != "" && segment[0] == ':'
  }

  /** The second writes in braces what the first writes behind a colon. */
  ghost predicate Rewritten(a: string, b: string) {
    IsColon(a) && b == "{" + a[1..] + "}"
  }

  lemma SegmentRewritten(a: string, b: string)
    ensures NormalizeSegment(a) == NormalizeSegment(b) <==> a == b || Rewritten(a, b) || Rewritten(b, a)
    ensures !IsColon(NormalizeSegment(a))
  {
    if IsColon(a) && IsColon(b) && NormalizeSegment(a) == NormalizeSegment(b) {
      assert a[1..] == NormalizeSegment(a)[1..|a|] && b[1..] == NormalizeSegment(b)[1..|b|];
      assert a == [a[0]] + a[1..] && b == [b[0]] + b[1..];
    }
  }

  /** Segment by segment, equal or one parameter behind a colon and in braces. */
  ghost predicate SameSpelling(a: seq<string>, b: seq<string>) {
    |a| == |b| && forall i :: 0 <= i < |a| ==> a[i] == b[i] || Rewritten(a[i], b[i]) || Rewritten(b[i], a[i])
  }

  lemma SameBraced(a: seq<string>, b: seq<string>)
    ensures Braced(a) == Braced(b) <==> SameSpelling(a, b)
  {
    if |a| == |b| {
      forall i | 0 <= i < |a|
        ensures Braced(a)[i] == Braced(b)[i] <==> a[i] == b[i] || Rewritten(a[i], b[i]) || Rewritten(b[i], a[i])
      {
        SegmentRewritten(a[i], b[i]);
      }
      if SameSpelling(a, b) { assert Braced(a) == Braced(b); }
    }
  }

  /** Which paths have one normal form, and that it has no colon parameters left. */
  lemma NormalizedExactly(p: string, q: string)
    ensures NormalizeRoutePath(p) == NormalizeRoutePath(q) <==> SameSpelling(Segments(p), Segments(q))
    ensures forall part :: part in Split(NormalizeRoutePath(p), '/') ==> !IsColon(part)
  {
    NormalizedSegments(p);
    NormalizedSegments(q);
    SameBraced(Segments(p), Segments(q));
    assert ([""] + Braced(Segments(p)))[1..] == Braced(Segments(p));
    assert ([""] + Braced(Segments(q)))[1..] == Braced(Segments(q));
    forall i | 0 <= i < |Segments(p)| ensures !IsColon(Braced(Segments(p))[i]) {
      SegmentRewritten(Segments(p)[i], "");
    }
  }

  // -- from a manifest ---------------------------------------------------------------------------

  function FromRoute(r: HttpRoute): Entry {
    Entry(SurfaceLabel(InferSurface(r.path)), MethodLabel(r.verb), NormalizeRoutePath(r.path), r.operationId,
          AuthProfileLabel(r.auth))
  }

  function ManifestEntries(routes: seq<HttpRoute>): seq<Entry> {
    Flat(routes, (r: HttpRoute) => [FromRoute(r)])
  }

  /** `route_inventory_from_routes`. */
  function ManifestInventory(routes: seq<HttpRoute>): seq<Entry> {
    Sort(EntryLeq, ManifestEntries(routes))
  }

  // -- from a document ---------------------------------------------------------------------------

  const METHODS: set<string> := {"DELETE", "GET", "PATCH", "POST", "PUT"}

  datatype Row = Row(path: string, field: string, operation: Value)

  function FieldRows(path: string, item: map<string, Value>): string -> seq<Row> {
    (f: string) => if Upper(f) in METHODS then [Row(path, f, Get(item, f))] else []
  }

  function ItemRows(path: string, item: Value): seq<Row> {
    if item.Obj? then Flat(Keys(item.fields.Keys), FieldRows(path, item.fields)) else []
  }

  function PathRows(paths: map<string, Value>): string -> seq<Row> {
    (path: string) => ItemRows(path, Get(paths, path))
  }

  /** The operations the reader visits, in its order. */
  function Rows(paths: map<string, Value>): seq<Row> {
    Flat(Keys(paths.Keys), PathRows(paths))
  }

  predicate RowReadable(row: Row) {
    && row.operation.Obj?
    && IsText(Get(row.operation.fields, OPERATION_ID))
    && IsText(Get(row.operation.fields, API_SURFACE))
    && IsText(Get(row.operation.fields, AUTH_MODE))
  }

  function TextAt(v: Value, k: string): string {
    if v.Obj? && Get(v.fields, k).Str? then Get(v.fields, k).s else ""
  }

  function FromRow(row: Row): Entry {
    Entry(TextAt(row.operation, API_SURFACE), Upper(row.field), NormalizeRoutePath(row.path),
          TextAt(row.operation, OPERATION_ID), TextAt(row.operation, AUTH_MODE))
  }

  function RowEntries(rows: seq<Row>): seq<Entry> {
    Flat(rows, (row: Row) => [FromRow(row)])
  }

  predicate AllReadable(rows: seq<Row>) {
    forall i :: 0 <= i < |rows| ==> RowReadable(rows[i])
  }

  predicate ItemReadable(path: string, item: Value) {
    item.Obj? && AllReadable(ItemRows(path, item))
  }

  predicate PathsReadable(paths: map<string, Value>) {
    forall p :: p in paths ==> ItemReadable(p, paths[p])
  }

  predicate Readable(doc: Value) {
    doc.Obj? && Get(doc.fields, "paths").Obj? && PathsReadable(Get(doc.fields, "paths").fields)
  }

  function DocumentInventory(doc: Value): seq<Entry>
    requires Readable(doc)
  {
    Sort(EntryLeq, RowEntries(Rows(Get(doc.fields, "paths").fields)))
  }

  /** `route_inventory_from_openapi`: all the rows in sorted order, or nothing when one is unreadable. */
  method ReadInventory(doc: Value) returns (r: Option<seq<Entry>>)
    ensures r.Some? <==> Readable(doc)
    ensures r.Some? ==> r.value == DocumentInventory(doc)
    ensures r.Some? <==> Legible(doc)
    ensures r.Some? ==> Inventories(r.value, doc)
  {
    LegibleExactly(doc);
    if Readable(doc) { DocumentInventoried(doc); }
    if !doc.Obj? || !Get(doc.fields, "paths").Obj? { return None; }
    var read := ReadPaths(Get(doc.fields, "paths").fields);
    if read.None? { return None; }
    r := Some(Sort(EntryLeq, read.value));
  }

  /** The outer loop. */
  method ReadPaths(paths: map<string, Value>) returns (r: Option<seq<Entry>>)
    ensures r.Some? <==> PathsReadable(paths)
    ensures r.Some? ==> r.value == RowEntries(Rows(paths))
  {
    var keys := Keys(paths.Keys);
    var entries: seq<Entry> := [];
    assert keys[..0] == [];
    for i := 0 to |keys|
      invariant ReadUpTo(paths, keys, i, entries)
    {
      PathToRead(paths, i);
      var item := paths[keys[i]];
      if !item.Obj? { return None; }
      var found := ReadItem(keys[i], item);
      if found.None? { return None; }
      NextPath(paths, keys, i, entries);
      entries := entries + found.value;
    }
    EveryPathRead(paths, keys, entries);
    r := Some(entries);
  }

  /** The first `i` paths are readable and their rows are in the entries. */
  ghost predicate ReadUpTo(paths: map<string, Value>, keys: seq<string>, i: nat, entries: seq<Entry>)
    requires i <= |keys|
  {
    && (forall j :: 0 <= j < i ==> ItemReadable(keys[j], Get(paths, keys[j])))
    && entries == RowEntries(Flat(keys[..i], PathRows(paths)))
  }

  lemma PathToRead(paths: map<string, Value>, i: nat)
    requires i < |Keys(paths.Keys)|
    ensures var key := Keys(paths.Keys)[i]; key in paths && (PathsReadable(paths) ==> ItemReadable(key, paths[key]))
  {
    assert Keys(paths.Keys)[i] in Keys(paths.Keys);
  }

  lemma EveryPathRead(paths: map<string, Value>, keys: seq<string>, entries: seq<Entry>)
    requires keys == Keys(paths.Keys) && ReadUpTo(paths, keys, |keys|, entries)
    ensures PathsReadable(paths) && entries == RowEntries(Rows(paths))
  {
    assert keys[..|keys|] == keys;
    forall p | p in paths ensures ItemReadable(p, paths[p]) { assert p in keys; }
  }

  lemma NextPath(paths: map<string, Value>, keys: seq<string>, i: nat, entries: seq<Entry>)
    requires i < |keys| && ReadUpTo(paths, keys, i, entries) && ItemReadable(keys[i], Get(paths, keys[i]))
    ensures ReadUpTo(paths, keys, i + 1, entries + RowEntries(ItemRows(keys[i], Get(paths, keys[i]))))
  {
    FlatNext(keys, PathRows(paths), i);
    EntriesConcat(Flat(keys[..i], PathRows(paths)), ItemRows(keys[i], Get(paths, keys[i])));
  }

  /** The inner loop: the operations of one path item. */
  method ReadItem(path: string, item: Value) returns (r: Option<seq<Entry>>)
    requires item.Obj?
    ensures r.Some? <==> AllReadable(ItemRows(path, item))
    ensures r.Some? ==> r.value == RowEntries(ItemRows(path, item))
  {
    var keys := Keys(item.fields.Keys);
    ghost var f := FieldRows(path, item.fields);
    var entries: seq<Entry> := [];
    ghost var done: seq<Row> := [];
    assert keys[..0] == [];
    for i := 0 to |keys|
      invariant done == Flat(keys[..i], f) && AllReadable(done) && entries == RowEntries(done)
    {
      assert keys[i] in keys;
      FlatNext(keys, f, i);
      ReadableConcat(done, f(keys[i]));
      ReadableConcat(done + f(keys[i]), Flat(keys[i + 1..], f));
      EntriesConcat(done, f(keys[i]));
      if Upper(keys[i]) in METHODS {
        var row := Row(path, keys[i], item.fields[keys[i]]);
        OneRow(row);
        if !RowReadable(row) { return None; }
        entries := entries + [FromRow(row)];
      }
      done := done + f(keys[i]);
    }
    assert keys[..|keys|] == keys;
    r := Some(entries);
  }

  lemma OneRow(row: Row)
    ensures RowEntries([row]) == [FromRow(row)] && (AllReadable([row]) <==> RowReadable(row))
    ensures RowEntries([]) == [] && AllReadable([])
  {
    FlatOne(row, (x: Row) => [FromRow(x)]);
    if AllReadable([row]) { assert RowReadable([row][0]); }
  }

  lemma ReadableConcat(a: seq<Row>, b: seq<Row>)
    ensures AllReadable(a + b) <==> AllReadable(a) && AllReadable(b)
  {
    if AllReadable(a + b) {
      forall i | 0 <= i < |a| ensures RowReadable(a[i]) { assert (a + b)[i] == a[i]; }
      forall i | 0 <= i < |b| ensures RowReadable(b[i]) { assert (a + b)[|a| + i] == b[i]; }
    }
  }

  lemma EntriesConcat(a: seq<Row>, b: seq<Row>)
    ensures RowEntries(a + b) == RowEntries(a) + RowEntries(b)
  {
    FlatConcat(a, b, (row: Row) => [FromRow(row)]);
  }

  // -- which rows a document has -------------------------------------------------------------------

  ghost predicate HasRow(paths: map<string, Value>, row: Row) {
    && row.path in paths && paths[row.path].Obj? && row.field in paths[row.path].fields
    && Upper(row.field) in METHODS && row.operation == paths[row.path].fields[row.field]
  }

  lemma ItemMember(path: string, item: Value, row: Row)
    ensures row in ItemRows(path, item) <==>
      && row.path == path && item.Obj? && row.field in item.fields && Upper(row.field) in METHODS
      && row.operation == item.fields[row.field]
  {
    if item.Obj? {
      var f := FieldRows(path, item.fields);
      FlatMember(Keys(item.fields.Keys), f, row);
      if row in ItemRows(path, item) {
        var k :| k in Keys(item.fields.Keys) && row in f(k);
      }
      if row.path == path && row.field in item.fields && Upper(row.field) in METHODS {
        assert row.operation == item.fields[row.field] ==> row in f(row.field);
      }
    }
  }

  lemma RowMember(paths: map<string, Value>, row: Row)
    ensures row in Rows(paths) <==> HasRow(paths, row)
  {
    FlatMember(Keys(paths.Keys), PathRows(paths), row);
    forall k { ItemMember(k, Get(paths, k), row); }
    if HasRow(paths, row) { assert row in PathRows(paths)(row.path); }
  }

  lemma RowsDistinct(paths: map<string, Value>)
    ensures Distinct(Rows(paths))
  {
    var f := PathRows(paths);
    forall p | p in Keys(paths.Keys) ensures Distinct(f(p)) { ItemDistinct(p, Get(paths, p)); }
    forall p, q, row | p in Keys(paths.Keys) && q in Keys(paths.Keys) && row in f(p) && row in f(q) ensures p == q {
      ItemMember(p, Get(paths, p), row);
      ItemMember(q, Get(paths, q), row);
    }
    FlatDistinct(Keys(paths.Keys), f);
  }

  lemma ItemDistinct(path: string, item: Value)
    ensures Distinct(ItemRows(path, item))
  {
    if item.Obj? {
      FlatDistinct(Keys(item.fields.Keys), FieldRows(path, item.fields));
    }
  }

  lemma ReadableRow(paths: map<string, Value>, row: Row)
    requires PathsReadable(paths) && row in Rows(paths)
    ensures RowReadable(row)
  {
    RowMember(paths, row);
    ItemMember(row.path, paths[row.path], row);
    var rows := ItemRows(row.path, paths[row.path]);
    var j :| 0 <= j < |rows| && rows[j] == row;
    assert ItemReadable(row.path, paths[row.path]);
  }

  lemma ReadableRows(paths: map<string, Value>)
    requires PathsReadable(paths)
    ensures AllReadable(Rows(paths))
  {
    forall i | 0 <= i < |Rows(paths)| ensures RowReadable(Rows(paths)[i]) {
      assert Rows(paths)[i] in Rows(paths);
      ReadableRow(paths, Rows(paths)[i]);
    }
  }

  // -- what the reader promises, without its own functions -------------------------------------------

  /** The operation has the text at the key, and it is not blank. */
  ghost predicate HasText(operation: Value, key: string, text: string) {
    operation.Obj? && key in operation.fields && operation.fields[key] == Str(text) && !Blank(text)
  }

  /** The entry is what the operation's document says of it. */
  ghost predicate Lists(e: Entry, row: Row) {
    && HasText(row.operation, "operationId", e.operationId)
    && HasText(row.operation, "x-sdkwork-api-surface", e.surface)
    && HasText(row.operation, "x-sdkwork-auth-mode", e.authProfile)
    && e.verb == Upper(row.field) && e.path == NormalizeRoutePath(row.path)
  }

  lemma ListsExactly(e: Entry, row: Row)
    ensures Lists(e, row) <==> RowReadable(row) && e == FromRow(row)
  {
  }

  /** Every path item is an object, and every operation under a listed method has something to list. */
  ghost predicate Legible(doc: Value) {
    && doc.Obj? && Get(doc.fields, "paths").Obj?
    && var paths := Get(doc.fields, "paths").fields;
    && (forall p :: p in paths ==> paths[p].Obj?)
    && (forall row :: HasRow(paths, row) ==> exists e :: Lists(e, row))
  }

  lemma LegibleExactly(doc: Value)
    ensures Readable(doc) <==> Legible(doc)
  {
    if doc.Obj? && Get(doc.fields, "paths").Obj? {
      var paths := Get(doc.fields, "paths").fields;
      if Readable(doc) {
        forall row | HasRow(paths, row) ensures exists e :: Lists(e, row) {
          RowMember(paths, row);
          ReadableRow(paths, row);
          ListsExactly(FromRow(row), row);
        }
      }
      if Legible(doc) {
        forall p | p in paths ensures ItemReadable(p, paths[p]) { LegibleItem(doc, p); }
      }
    }
  }

  lemma LegibleItem(doc: Value, p: string)
    requires Legible(doc) && p in Get(doc.fields, "paths").fields
    ensures ItemReadable(p, Get(doc.fields, "paths").fields[p])
  {
    var paths := Get(doc.fields, "paths").fields;
    var rows := ItemRows(p, paths[p]);
    forall i | 0 <= i < |rows| ensures RowReadable(rows[i]) {
      ItemMember(p, paths[p], rows[i]);
      assert HasRow(paths, rows[i]);
      var e :| Lists(e, rows[i]);
      ListsExactly(e, rows[i]);
    }
  }

  ghost predicate Ascending(entries: seq<Entry>) {
    forall i, j :: 0 <= i < j < |entries| ==> entries[i] == entries[j] || EntryBefore(entries[i], entries[j])
  }

  lemma SortedAscending(entries: seq<Entry>)
    ensures Ascending(Sort(EntryLeq, entries))
  {
    EntryOrder();
    SortSorted(EntryLeq, entries);
    var sorted := Sort(EntryLeq, entries);
    forall i, j | 0 <= i < j < |sorted| ensures sorted[i] == sorted[j] || EntryBefore(sorted[i], sorted[j]) {
      EntryLeqMeaning(sorted[i], sorted[j]);
    }
  }

  /** The entries, one for each operation of the document with a listed method, in ascending order. */
  ghost predicate Inventories(entries: seq<Entry>, doc: Value) {
    && Ascending(entries)
    && exists rows: seq<Row> :: Distinct(rows) && Enumerates(rows, doc) && ListedBy(entries, rows)
  }

  ghost predicate Enumerates(rows: seq<Row>, doc: Value) {
    doc.Obj? && Get(doc.fields, "paths").Obj?
    && forall row :: row in rows <==> HasRow(Get(doc.fields, "paths").fields, row)
  }

  ghost predicate ListedBy(entries: seq<Entry>, rows: seq<Row>) {
    exists listed: seq<Entry> :: multiset(listed) == multiset(entries) && ListedEach(listed, rows)
  }

  ghost predicate ListedEach(listed: seq<Entry>, rows: seq<Row>) {
    |listed| == |rows| && forall i :: 0 <= i < |rows| ==> Lists(listed[i], rows[i])
  }

  lemma {:induction false} RowsListed(rows: seq<Row>)
    requires AllReadable(rows)
    ensures ListedEach(RowEntries(rows), rows)
    decreases |rows|
  {
    if rows != [] {
      var n := |rows| - 1;
      RowsListed(rows[..n]);
      ListsExactly(FromRow(rows[n]), rows[n]);
    }
  }

  lemma DocumentInventoried(doc: Value)
    requires Readable(doc)
    ensures Inventories(DocumentInventory(doc), doc)
  {
    var paths := Get(doc.fields, "paths").fields;
    var rows := Rows(paths);
    SortedAscending(RowEntries(rows));
    RowsDistinct(paths);
    forall row { RowMember(paths, row); }
    ReadableRows(paths);
    RowsListed(rows);
    assert Enumerates(rows, doc);
    assert ListedBy(DocumentInventory(doc), rows);
  }

  lemma {:induction false} ListedAre(listed: seq<Entry>, rows: seq<Row>)
    requires ListedEach(listed, rows)
    ensures listed == RowEntries(rows)
    decreases |rows|
  {
    if rows != [] {
      var n := |rows| - 1;
      ListedAre(listed[..n], rows[..n]);
      ListsExactly(listed[n], rows[n]);
      assert listed == listed[..n] + [listed[n]];
    }
  }

  lemma AscendingSorted(entries: seq<Entry>)
    requires Ascending(entries)
    ensures Sorted(EntryLeq, entries)
  {
    forall i, j | 0 <= i <= j < |entries| ensures EntryLeq(entries[i], entries[j]) {
      EntryLeqMeaning(entries[i], entries[j]);
    }
  }

  /** The inventory of a legible document, and nothing else, inventories it. */
  lemma InventoriesExactly(entries: seq<Entry>, doc: Value)
    requires Readable(doc)
    ensures Inventories(entries, doc) <==> entries == DocumentInventory(doc)
  {
    DocumentInventoried(doc);
    if Inventories(entries, doc) {
      var rows: seq<Row> :| Distinct(rows) && Enumerates(rows, doc) && ListedBy(entries, rows);
      var listed: seq<Entry> :| multiset(listed) == multiset(entries) && ListedEach(listed, rows);
      InventoriedSame(entries, doc, rows, listed);
    }
  }

  lemma InventoriedSame(entries: seq<Entry>, doc: Value, rows: seq<Row>, listed: seq<Entry>)
    requires Readable(doc) && Ascending(entries) && Distinct(rows) && Enumerates(rows, doc)
    requires multiset(listed) == multiset(entries) && ListedEach(listed, rows)
    ensures entries == DocumentInventory(doc)
  {
    var paths := Get(doc.fields, "paths").fields;
    var sorted := DocumentInventory(doc);
    RowsDistinct(paths);
    forall row { RowMember(paths, row); }
    SameElements(rows, Rows(paths));
    FlatPermuted(rows, Rows(paths), (row: Row) => [FromRow(row)]);
    ListedAre(listed, rows);
    EntryOrder();
    SortSorted(EntryLeq, RowEntries(Rows(paths)));
    AscendingSorted(entries);
    SameLength(entries, sorted);
    SortedUnique(EntryLeq, entries, sorted);
  }
}
