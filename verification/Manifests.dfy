/** Route manifests: validation and collision keys (crates/sdkwork-web-bootstrap/src/api_assembly.rs). */
module Manifests {
  import opened Text
  import opened Json
  import opened Routes
  import opened Inventory

  const INFRASTRUCTURE_PATHS: set<string> := {"/healthz", "/livez", "/metrics", "/readyz"}

  predicate EndsWith(s: string, c: char) {
    s != "" && s[|s| - 1] == c
  }

  function CollapseSegment(s: string): string {
    if s != "" && ((s[0] == '{' && EndsWith(s, '}')) || s[0] == ':' || (s[0] == '<' && EndsWith(s, '>')))
    then "{param}" else s
  }

  /** `collision_key`: the method, and the normalized path with its parameter names erased. */
  function CollisionKey(r: HttpRoute): (string, string) {
    (MethodLabel(r.verb),
     Joined(Flat(Split(NormalizeRoutePath(r.path), '/'), (s: string) => [CollapseSegment(s)]), '/'))
  }

  function CollisionKeys(routes: seq<HttpRoute>): seq<(string, string)> {
    seq(|routes|, i requires 0 <= i < |routes| => CollisionKey(routes[i]))
  }

  ghost predicate NoCollision(routes: seq<HttpRoute>) {
    Distinct(CollisionKeys(routes))
  }

  // -- which routes collide --------------------------------------------------------------------------

  /** `:name`, `{name}` or `<name>`. */
  ghost predicate IsParameter(segment: string) {
    segment != ""
    && (segment[0] == ':'
        || (segment[0] == '{' && segment[|segment| - 1] == '}')
        || (segment[0] == '<' && segment[|segment| - 1] == '>'))
  }

  /** The paths have the same segments, up to what parameters are called and how they are written. */
  ghost predicate SameShape(a: seq<string>, b: seq<string>) {
    |a| == |b| && forall i :: 0 <= i < |a| ==> a[i] == b[i] || (IsParameter(a[i]) && IsParameter(b[i]))
  }

  ghost predicate SameEndpoint(r: HttpRoute, q: HttpRoute) {
    r.verb == q.verb && SameShape(Segments(r.path), Segments(q.path))
  }

  function Collapsed(s: string): string {
    CollapseSegment(NormalizeSegment(s))
  }

  lemma CollapsedExactly(a: string, b: string)
    ensures Collapsed(a) == if IsParameter(a) then "{param}" else a
    ensures Collapsed(a) == Collapsed(b) <==> a == b || (IsParameter(a) && IsParameter(b))
    ensures Free(a, '/') ==> Free(Collapsed(a), '/')
  {
    assert !IsParameter(a) ==> a != "{param}";
    assert !IsParameter(b) ==> b != "{param}";
  }

  function AllCollapsed(parts: seq<string>): seq<string> {
    seq(|parts|, i requires 0 <= i < |parts| => Collapsed(parts[i]))
  }

  lemma SameCollapsed(a: seq<string>, b: seq<string>)
    ensures AllCollapsed(a) == AllCollapsed(b) <==> SameShape(a, b)
  {
    if |a| == |b| {
      forall i | 0 <= i < |a|
        ensures AllCollapsed(a)[i] == AllCollapsed(b)[i] <==> a[i] == b[i] || (IsParameter(a[i]) && IsParameter(b[i]))
      {
        CollapsedExactly(a[i], b[i]);
      }
      if SameShape(a, b) { assert AllCollapsed(a) == AllCollapsed(b); }
    }
  }

  lemma CollapsedFree(parts: seq<string>)
    requires AllFree(parts, '/')
    ensures AllFree([""] + AllCollapsed(parts), '/')
  {
    forall i | 0 <= i < |parts| ensures Free(AllCollapsed(parts)[i], '/') { CollapsedExactly(parts[i], parts[i]); }
  }

  lemma CollisionPath(r: HttpRoute)
    ensures CollisionKey(r).1 == Joined([""] + AllCollapsed(Segments(r.path)), '/')
    ensures AllFree([""] + AllCollapsed(Segments(r.path)), '/')
  {
    var parts := Segments(r.path);
    var f := (s: string) => [CollapseSegment(s)];
    NormalizedSegments(r.path);
    FlatMapped([""] + Braced(parts), CollapseSegment, f);
    assert Flat([""] + Braced(parts), f) == [""] + AllCollapsed(parts);
    SplitFree(TrimMatches(Trim(r.path), '/'), '/');
    CollapsedFree(parts);
  }

  /** Two routes have the same collision key exactly when they have the same verb and their paths the same shape. */
  lemma CollidesExactly(r: HttpRoute, q: HttpRoute)
    ensures CollisionKey(r) == CollisionKey(q) <==> SameEndpoint(r, q)
  {
    var x, y := AllCollapsed(Segments(r.path)), AllCollapsed(Segments(q.path));
    CollisionPath(r);
    CollisionPath(q);
    JoinedInjective([""] + x, [""] + y, '/');
    assert ([""] + x)[1..] == x && ([""] + y)[1..] == y;
    SameCollapsed(Segments(r.path), Segments(q.path));
    LabelsDiffer(r.verb, q.verb);
  }

  lemma LabelsDiffer(a: HttpMethod, b: HttpMethod)
    ensures MethodLabel(a) == MethodLabel(b) <==> a == b
  {
    var x, y := MethodLabel(a), MethodLabel(b);
    assert x == y ==> |x| == |y| && x[0] == y[0] && x[1] == y[1];
  }

  ghost predicate NoSameEndpoint(routes: seq<HttpRoute>) {
    forall i, j :: 0 <= i < j < |routes| ==> !SameEndpoint(routes[i], routes[j])
  }

  lemma NoCollisionExactly(routes: seq<HttpRoute>)
    ensures NoCollision(routes) <==> NoSameEndpoint(routes)
  {
    forall i, j | 0 <= i < j < |routes|
      ensures CollisionKeys(routes)[i] == CollisionKeys(routes)[j] <==> SameEndpoint(routes[i], routes[j])
    {
      CollidesExactly(routes[i], routes[j]);
    }
  }

  lemma Collides(routes: seq<HttpRoute>, i: nat, j: nat)
    requires i < j < |routes| && CollisionKey(routes[i]) == CollisionKey(routes[j])
    ensures !NoCollision(routes)
  {
    assert CollisionKeys(routes)[i] == CollisionKeys(routes)[j];
  }

  predicate RouteOk(r: HttpRoute) {
    ContractHolds(r) && RetentionValid(r) && NormalizeRoutePath(r.path) !in INFRASTRUCTURE_PATHS
  }

  /**
   * A route may be served: it declares external authentication and an upstream operation exactly when it is a
   * compatibility route, and then a valid one and an operation with its own id and responses; its logs are
   * kept for ever or for a positive number of days; and its path is none of the four infrastructure paths.
   */
  ghost predicate Servable(r: HttpRoute) {
    && (r.auth == Compatibility <==> r.compatibilityAuth.Some?)
    && (r.auth == Compatibility <==> !r.upstream.Absent?)
    && (r.compatibilityAuth.Some? ==> r.compatibilityAuth.value.valid)
    && (!r.upstream.Absent? ==> r.upstream.Parsed? && Declares(r.upstream.value, r.operationId))
    && (r.logRetention.Some? ==> KeptForEver(r.logRetention.value) || KeptForDays(r.logRetention.value))
    && Segments(r.path) !in [["healthz"], ["livez"], ["metrics"], ["readyz"]]
  }

  ghost predicate Declares(upstream: Value, operationId: string) {
    && upstream.Obj? && "operationId" in upstream.fields && upstream.fields["operationId"] == Str(operationId)
    && "responses" in upstream.fields && upstream.fields["responses"].Obj?
  }

  ghost predicate KeptForEver(retention: string) {
    retention == "permanent"
  }

  /** A positive number of days that fits a signed 64-bit integer, written as a numeral and a `d`. */
  ghost predicate KeptForDays(retention: string) {
    exists numeral: string, days: nat :: DaysText(retention, numeral, days)
  }

  ghost predicate DaysText(retention: string, numeral: string, days: nat) {
    retention == numeral + "d" && IsNumeral(numeral, days) && 0 < days <= 0x7FFF_FFFF_FFFF_FFFF
  }

  /** The number in front of the final `d`, as `RetentionValid` reads it. */
  predicate DaysRead(t: string) {
    |t| >= 2 && t[|t| - 1] == 'd' &&
    match ParseUpTo(t[..|t| - 1], I64_MAX)
    case Some(days) => days > 0
    case None => false
  }

  lemma DaysExactly(t: string)
    ensures DaysRead(t) <==> KeptForDays(t)
  {
    if numeral: string, days: nat :| DaysText(t, numeral, days) {
      assert t[..|t| - 1] == numeral;
      ParsesExactly(numeral, I64_MAX, days);
    }
    if DaysRead(t) {
      var numeral := t[..|t| - 1];
      var days := ParseUpTo(numeral, I64_MAX).value;
      ParsesExactly(numeral, I64_MAX, days);
      assert t == numeral + "d";
      assert DaysText(t, numeral, days);
    }
  }

  lemma PlainSegment(path: string, name: string)
    requires name != "" && name[0] != '{' && name[0] != ':' && Free(name, '/')
    ensures NormalizeRoutePath(path) == "/" + name <==> Segments(path) == [name]
  {
    var braced := Braced(Segments(path));
    NormalizedSegments(path);
    SplitAt("", '/', name);
    SplitFreeText(name, '/');
    assert "" + ['/'] + name == "/" + name;
    if NormalizeRoutePath(path) == "/" + name {
      assert ([""] + braced)[1..] == braced && ([""] + [name])[1..] == [name];
      assert braced[0] == name;
      assert Segments(path) == [name];
    }
    if Segments(path) == [name] { assert braced == [name]; }
  }

  lemma InfrastructureExactly(path: string)
    ensures NormalizeRoutePath(path) in INFRASTRUCTURE_PATHS <==>
      Segments(path) in [["healthz"], ["livez"], ["metrics"], ["readyz"]]
  {
    PlainSegment(path, "healthz");
    PlainSegment(path, "livez");
    PlainSegment(path, "metrics");
    PlainSegment(path, "readyz");
    assert "/" + "healthz" == "/healthz" && "/" + "livez" == "/livez";
    assert "/" + "metrics" == "/metrics" && "/" + "readyz" == "/readyz";
  }

  lemma RouteOkExactly(r: HttpRoute)
    ensures RouteOk(r) <==> Servable(r)
  {
    InfrastructureExactly(r.path);
    if r.logRetention.Some? { DaysExactly(r.logRetention.value); }
  }

  /** When a manifest is valid, said of its routes. */
  lemma ManifestExactly(routes: seq<HttpRoute>)
    ensures ManifestOk(routes) <==> (forall r :: r in routes ==> Servable(r)) && NoSameEndpoint(routes)
  {
    forall r { RouteOkExactly(r); }
    NoCollisionExactly(routes);
  }

  predicate RoutesOk(routes: seq<HttpRoute>) {
    forall r :: r in routes ==> RouteOk(r)
  }

  ghost predicate ManifestOk(routes: seq<HttpRoute>) {
    RoutesOk(routes) && NoCollision(routes)
  }

  lemma NextRoute(routes: seq<HttpRoute>, i: nat)
    requires i < |routes|
    ensures RoutesOk(routes[..i + 1]) <==> RoutesOk(routes[..i]) && RouteOk(routes[i])
    ensures RoutesOk(routes) ==> RouteOk(routes[i])
  {
    assert routes[..i + 1] == routes[..i] + [routes[i]];
    if RoutesOk(routes[..i + 1]) {
      forall r | r in routes[..i] ensures RouteOk(r) { assert r in routes[..i + 1]; }
      assert routes[i] in routes[..i + 1];
    }
    assert routes[i] in routes;
  }

  lemma DistinctNext<T>(s: seq<T>, i: nat)
    requires i < |s|
    ensures Distinct(s[..i + 1]) <==> Distinct(s[..i]) && s[i] !in s[..i]
    ensures Distinct(s) ==> Distinct(s[..i + 1])
    ensures forall x :: x in s[..i + 1] <==> x in s[..i] || x == s[i]
  {
    assert s[..i + 1] == s[..i] + [s[i]];
    if s[i] in s[..i] {
      var k :| 0 <= k < i && s[k] == s[i];
      assert s[..i + 1][k] == s[..i + 1][i];
    }
  }

  ghost predicate Remembers<K(!new), V>(seen: map<K, V>, keys: seq<K>, i: nat)
    requires i <= |keys|
  {
    Distinct(keys[..i]) && forall key :: key in seen <==> key in keys[..i]
  }

  /** Inserts the next key; false when it was there before. */
  method InsertKey<K(==, !new), V>(seen: map<K, V>, ghost keys: seq<K>, ghost i: nat, key: K, value: V)
    returns (unseen: bool, after: map<K, V>)
    requires i < |keys| && keys[i] == key && Remembers(seen, keys, i)
    ensures unseen ==> Remembers(after, keys, i + 1)
    ensures !unseen ==> !Distinct(keys)
  {
    DistinctNext(keys, i);
    unseen, after := key !in seen, seen[key := value];
  }

  /** `validate_manifest`. */
  method ValidateManifest(routes: seq<HttpRoute>) returns (ok: bool)
    ensures ok <==> ManifestOk(routes)
    ensures ok <==> (forall r :: r in routes ==> Servable(r)) && NoSameEndpoint(routes)
  {
    ManifestExactly(routes);
    ghost var keys := CollisionKeys(routes);
    var operations: map<(string, string), string> := map[];
    for i := 0 to |routes|
      invariant RoutesOk(routes[..i])
      invariant Remembers(operations, keys, i)
    {
      NextRoute(routes, i);
      var routeOk := ValidateRoute(routes[i]);
      if !routeOk { return false; }
      var unseen;
      unseen, operations := InsertKey(operations, keys, i, CollisionKey(routes[i]), routes[i].operationId);
      if !unseen { return false; }
    }
    assert keys[..|routes|] == keys && routes[..|routes|] == routes;
    ok := true;
  }

  method ValidateRoute(r: HttpRoute) returns (ok: bool)
    ensures ok <==> RouteOk(r)
  {
    if !ContractHolds(r) || !RetentionValid(r) { return false; }
    ok := NormalizeRoutePath(r.path) !in INFRASTRUCTURE_PATHS;
  }

  /** `permission_catalog`: every declared permission once, in order. */
  function Permissions(routes: seq<HttpRoute>): set<string> {
    (set r | r in routes && r.requiredPermission.Some? :: r.requiredPermission.value)
    + (set r, p | r in routes && r.alternatePermissions.Some? && p in r.alternatePermissions.value :: p)
  }

  function PermissionCatalog(routes: seq<HttpRoute>): seq<string> {
    Keys(Permissions(routes))
  }
}
