/**
 * API assemblies: validating contributions, composing them, and the module registry in front
 * (crates/sdkwork-web-bootstrap/src/api_assembly.rs).
 */
module Assembly {
  import opened Sorting
  import opened Text
  import opened Json
  import opened Routes
  import opened Inventory
  import opened OpenApiBuild
  import opened OpenApiMerge
  import opened OpenApiDocuments
  import opened OpenApiWriting
  import opened Operations
  import opened Manifests
  import opened Composition
  import OpenApiCombined

  // -- one contribution ----------------------------------------------------------------------------

  predicate OwnerOk(owner: string) {
    !Blank(owner) && StartsWith(owner, "sdkwork-")
  }

  predicate OwnedOperation(owner: string, operation: Value) {
    && operation.Obj? && Get(operation.fields, "x-sdkwork-owner") == Str(owner)
    && IsText(Get(operation.fields, "x-sdkwork-api-authority"))
    && StartsWith(Get(operation.fields, "x-sdkwork-api-authority").s, "sdkwork-")
  }

  predicate OwnedItem(owner: string, item: Value) {
    item.Obj? && forall f :: f in item.fields && f in LISTED ==> OwnedOperation(owner, item.fields[f])
  }

  /** `validate_openapi_ownership`. */
  predicate OwnershipOk(owner: string, doc: Value) {
    HasPaths(doc) && forall p :: p in Get(doc.fields, "paths").fields ==>
        OwnedItem(owner, Get(doc.fields, "paths").fields[p])
  }

  ghost predicate ContributionOk(c: ApiContribution) {
    && OwnerOk(c.owner) && ManifestOk(c.routes) && InventoriesAgree(c) && OwnershipOk(c.owner, c.openapi)
    && c.permissions == PermissionCatalog(c.routes)
  }

  // -- what a valid contribution is, without the checks -----------------------------------------------

  /** Every operation under a listed method names the owner, and an authority of the platform. */
  ghost predicate OwnsOperations(owner: string, doc: Value) {
    HasPaths(doc) && var paths := Get(doc.fields, "paths").fields;
    && (forall p :: p in paths ==> paths[p].Obj?)
    && (forall p, f :: p in paths && f in paths[p].fields && f in LISTED ==> Owned(owner, paths[p].fields[f]))
  }

  ghost predicate Owned(owner: string, operation: Value) {
    && HasText(operation, "x-sdkwork-owner", owner)
    && exists authority :: HasText(operation, "x-sdkwork-api-authority", authority) && OfPlatform(authority)
  }

  ghost predicate OfPlatform(name: string) {
    |name| >= 8 && name[..8] == "sdkwork-"
  }

  /** Every permission a route asks for or accepts instead, once, in ascending order. */
  ghost predicate Catalogues(permissions: seq<string>, routes: seq<HttpRoute>) {
    && (forall i, j :: 0 <= i < j < |permissions| ==> StringBefore(permissions[i], permissions[j]))
    && (forall p :: p in permissions <==> exists r :: r in routes && Names(r, p))
  }

  ghost predicate Names(r: HttpRoute, permission: string) {
    || r.requiredPermission == Some(permission)
    || (r.alternatePermissions.Some? && permission in r.alternatePermissions.value)
  }

  ghost predicate Contributes(c: ApiContribution) {
    && !Blank(c.owner) && OfPlatform(c.owner)
    && (forall r :: r in c.routes ==> Servable(r)) && NoSameEndpoint(c.routes)
    && ListsRoutes(c) && OwnsOperations(c.owner, c.openapi) && Catalogues(c.permissions, c.routes)
  }

  lemma OwnedExactly(owner: string, operation: Value)
    requires !Blank(owner)
    ensures OwnedOperation(owner, operation) <==> Owned(owner, operation)
  {
    if OwnedOperation(owner, operation) {
      var authority := operation.fields["x-sdkwork-api-authority"].s;
      assert HasText(operation, "x-sdkwork-api-authority", authority) && OfPlatform(authority);
    }
  }

  lemma OwnershipExactly(owner: string, doc: Value)
    requires !Blank(owner)
    ensures OwnershipOk(owner, doc) <==> OwnsOperations(owner, doc)
  {
    forall operation { OwnedExactly(owner, operation); }
    if OwnershipOk(owner, doc) {
      var paths := Get(doc.fields, "paths").fields;
      forall p, f | p in paths && f in paths[p].fields && f in LISTED ensures Owned(owner, paths[p].fields[f]) {
        assert OwnedItem(owner, paths[p]);
      }
    }
    if OwnsOperations(owner, doc) {
      var paths := Get(doc.fields, "paths").fields;
      forall p | p in paths ensures OwnedItem(owner, paths[p]) {
        forall f | f in paths[p].fields && f in LISTED ensures OwnedOperation(owner, paths[p].fields[f]) {
          assert Owned(owner, paths[p].fields[f]);
        }
      }
    }
  }

  lemma CatalogueExactly(permissions: seq<string>, routes: seq<HttpRoute>)
    ensures permissions == PermissionCatalog(routes) <==> Catalogues(permissions, routes)
  {
    KeysAscend(Permissions(routes));
    forall p ensures p in PermissionCatalog(routes) <==> exists r :: r in routes && Names(r, p) {
      assert p in Permissions(routes) <==> exists r :: r in routes && Names(r, p);
    }
    if Catalogues(permissions, routes) {
      AscendingUnique(permissions, PermissionCatalog(routes), (s: string) => s);
    }
  }

  lemma OwnerExactly(owner: string)
    ensures OwnerOk(owner) <==> !Blank(owner) && OfPlatform(owner)
  {
  }

  /** The document lists exactly the manifest's routes. */
  ghost predicate ListsRoutes(c: ApiContribution) {
    Legible(c.openapi) && Inventories(ManifestInventory(c.routes), c.openapi)
  }

  lemma AgreeExactly(c: ApiContribution)
    ensures InventoriesAgree(c) <==> ListsRoutes(c)
  {
    LegibleExactly(c.openapi);
    if Readable(c.openapi) { InventoriesExactly(ManifestInventory(c.routes), c.openapi); }
  }

  /** When a contribution is valid, said of its owner, routes, document and permissions. */
  lemma ContributionExactly(c: ApiContribution)
    ensures ContributionOk(c) <==> Contributes(c)
  {
    OwnerExactly(c.owner);
    ManifestExactly(c.routes);
    AgreeExactly(c);
    if !Blank(c.owner) { OwnershipExactly(c.owner, c.openapi); }
    CatalogueExactly(c.permissions, c.routes);
  }

  /** `ApiAssemblyContribution::validate`. */
  method Validate(c: ApiContribution) returns (ok: bool)
    ensures ok <==> ContributionOk(c)
    ensures ok <==> Contributes(c)
  {
    ContributionExactly(c);
    if !OwnerOk(c.owner) { return false; }
    var manifestOk := ValidateManifest(c.routes);
    if !manifestOk { return false; }
    var read := ReadInventory(c.openapi);
    if read.None? || ManifestInventory(c.routes) != read.value { return false; }
    ok := OwnershipOk(c.owner, c.openapi) && c.permissions == PermissionCatalog(c.routes);
  }

  // -- contributions generated from a manifest --------------------------------------------------------

  function OwnedRow(owner: string, r: HttpRoute): Row
    requires ContractHolds(r)
  {
    Row(r.path, MethodKey(r.verb), BuildOwnedOperation(owner, r))
  }

  function OwnedRows(owner: string, routes: seq<HttpRoute>): seq<Row>
    requires Contracts(routes)
  {
    seq(|routes|, i requires 0 <= i < |routes| => OwnedRow(owner, routes[i]))
  }

  /** `from_manifest`: the generated document with every operation stamped by its owner. */
  function FromManifest(owner: string, title: string, components: Value, routes: seq<HttpRoute>): ApiContribution
    requires Contracts(routes)
  {
    var doc := DocumentFrom(title, components, Assembled(OwnedRows(owner, routes)));
    ApiContribution(owner, routes, doc, PermissionCatalog(routes))
  }

  lemma OwnedRowFacts(owner: string, r: HttpRoute)
    requires ContractHolds(r)
    ensures var row := OwnedRow(owner, r);
            && FromRow(row) == FromRoute(r) && Upper(row.field) in METHODS
            && (RowReadable(row) <==> !Blank(r.operationId))
            && (OwnerOk(owner) ==> OwnedOperation(owner, row.operation))
  {
    OwnedFacts(owner, r);
    MethodNames(r.verb);
    LabelsAgree(r.auth);
    SurfaceLabelsShow(InferSurface(r.path));
    if OwnerOk(owner) { AuthorityShows(owner, r); }
  }

  lemma AuthorityShows(owner: string, r: HttpRoute)
    requires OwnerOk(owner)
    ensures StartsWith(Authority(owner, r), "sdkwork-") && !Blank(Authority(owner, r))
  {
    var a := Authority(owner, r);
    assert a[..|owner|] == owner && a[0] == 's' && !IsWhitespace(a[0]);
  }

  lemma {:induction false} EntriesOfOwned(owner: string, routes: seq<HttpRoute>)
    requires Contracts(routes)
    ensures RowEntries(OwnedRows(owner, routes)) == ManifestEntries(routes)
    decreases |routes|
  {
    if routes != [] {
      var n := |routes| - 1;
      EntriesOfOwned(owner, routes[..n]);
      assert OwnedRows(owner, routes)[..n] == OwnedRows(owner, routes[..n]);
      OwnedRowFacts(owner, routes[n]);
    }
  }

  lemma OwnedRowsFacts(owner: string, routes: seq<HttpRoute>)
    requires Contracts(routes)
    ensures OpenApiBuild.Known(OwnedRows(owner, routes))
    ensures AllReadable(OwnedRows(owner, routes)) <==> AllNamed(routes)
    ensures OwnerOk(owner) ==> forall row :: row in OwnedRows(owner, routes) ==> OwnedOperation(owner, row.operation)
  {
    var rows := OwnedRows(owner, routes);
    forall i | 0 <= i < |routes|
      ensures Upper(rows[i].field) in METHODS && (RowReadable(rows[i]) <==> !Blank(routes[i].operationId))
        && (OwnerOk(owner) ==> OwnedOperation(owner, rows[i].operation))
    {
      OwnedRowFacts(owner, routes[i]);
    }
  }

  /** Routes that do not collide are written at different places. */
  lemma NoCollisionPlaces(owner: string, routes: seq<HttpRoute>)
    requires Contracts(routes) && NoCollision(routes)
    ensures Distinct(Places(OwnedRows(owner, routes)))
  {
    forall i, j | 0 <= i < j < |routes|
      ensures Places(OwnedRows(owner, routes))[i] != Places(OwnedRows(owner, routes))[j]
    {
      MethodKeysDiffer(routes[i].verb, routes[j].verb);
      if routes[i].path == routes[j].path && routes[i].verb == routes[j].verb { Collides(routes, i, j); }
    }
  }

  /** Every listed operation of the assembled document is one of the rows. */
  lemma AssembledOwned(owner: string, rows: seq<Row>)
    requires OpenApiBuild.Known(rows) && forall row :: row in rows ==> OwnedOperation(owner, row.operation)
    ensures forall p :: p in Assembled(rows) ==> OwnedItem(owner, Assembled(rows)[p])
  {
    var paths := Assembled(rows);
    forall p | p in paths ensures OwnedItem(owner, paths[p]) {
      AssembledItems(rows, p);
      forall f | f in paths[p].fields && f in LISTED ensures OwnedOperation(owner, paths[p].fields[f]) {
        UpperListed(f);
        AssembledRows(rows, Row(p, f, paths[p].fields[f]));
      }
    }
  }

  lemma GeneratedAgrees(c: ApiContribution, rows: seq<Row>)
    requires HasPaths(c.openapi) && Get(c.openapi.fields, "paths") == Obj(Assembled(rows))
    requires OpenApiBuild.Known(rows) && Distinct(Places(rows)) && RowEntries(rows) == ManifestEntries(c.routes)
    ensures InventoriesAgree(c) <==> AllReadable(rows)
  {
    ReadsBack(rows);
    AssembledReadable(rows);
    SortedEntries(ManifestEntries(c.routes), RowEntries(Rows(Assembled(rows))));
  }

  lemma GeneratedOwned(c: ApiContribution, rows: seq<Row>)
    requires HasPaths(c.openapi) && Get(c.openapi.fields, "paths") == Obj(Assembled(rows)) && OpenApiBuild.Known(rows)
    requires forall row :: row in rows ==> OwnedOperation(c.owner, row.operation)
    ensures OwnershipOk(c.owner, c.openapi)
  {
    AssembledOwned(c.owner, rows);
  }

  lemma GeneratedPaths(owner: string, title: string, components: Value, routes: seq<HttpRoute>)
    requires Contracts(routes)
    ensures var c := FromManifest(owner, title, components, routes);
            HasPaths(c.openapi) && Get(c.openapi.fields, "paths") == Obj(Assembled(OwnedRows(owner, routes)))
  {
    DocumentPaths(title, components, Assembled(OwnedRows(owner, routes)));
  }

  /**
   * A contribution generated from a manifest validates exactly when its owner is well formed, its
   * manifest is valid and every operation id shows.
   */
  lemma FromManifestExactly(owner: string, title: string, components: Value, routes: seq<HttpRoute>)
    requires Contracts(routes)
    ensures ContributionOk(FromManifest(owner, title, components, routes)) <==>
      OwnerOk(owner) && ManifestOk(routes) && AllNamed(routes)
  {
    var c := FromManifest(owner, title, components, routes);
    GeneratedPaths(owner, title, components, routes);
    OwnedRowsFacts(owner, routes);
    if OwnerOk(owner) && ManifestOk(routes) {
      NoCollisionPlaces(owner, routes);
      EntriesOfOwned(owner, routes);
      GeneratedAgrees(c, OwnedRows(owner, routes));
      GeneratedOwned(c, OwnedRows(owner, routes));
    }
  }

  // -- composing -----------------------------------------------------------------------------------

  datatype ComposeError =
    | NothingSelected | InvalidContribution(owner: string) | OwnerTwice(owner: string) | InvalidManifest
    | MergeFailed(error: MergeError) | InventoryUnreadable | InventoriesDiffer

  datatype Profile = Profile(owners: seq<string>, routes: seq<HttpRoute>, openapi: Value, permissions: seq<string>)

  datatype Composed = Success(profile: Profile) | Refused(reason: ComposeError)

  function Owners(cs: seq<ApiContribution>): seq<string> {
    seq(|cs|, i requires 0 <= i < |cs| => cs[i].owner)
  }

  ghost predicate AllOk(cs: seq<ApiContribution>) {
    forall c :: c in cs ==> ContributionOk(c)
  }

  /** Exactly when contributions compose. */
  ghost predicate Composable(render: Value -> string, title: string, cs: seq<ApiContribution>) {
    && cs != [] && AllOk(cs) && Distinct(Owners(cs)) && ManifestOk(AllRoutes(cs))
    && Merge(render, title, Documents(cs)).Merged?
  }

  function PermissionsOf(cs: seq<ApiContribution>): set<string> {
    set c, p | c in cs && p in c.permissions :: p
  }

  /** What the loop has gathered from the contributions so far. */
  datatype Gathered = Gathered(
    owners: seq<string>,
    routes: seq<HttpRoute>,
    documents: seq<Contribution>,
    permissions: set<string>)

  function Gather(cs: seq<ApiContribution>): Gathered {
    Gathered(Owners(cs), AllRoutes(cs), Documents(cs), PermissionsOf(cs))
  }

  function Add(g: Gathered, c: ApiContribution): Gathered {
    Gathered(g.owners + [c.owner], g.routes + c.routes, g.documents + [DocumentOf(c)],
             g.permissions + set p | p in c.permissions)
  }

  /** The loop over the contributions: each must be valid and its owner new. */
  method Collect(cs: seq<ApiContribution>) returns (error: Option<ComposeError>, g: Gathered)
    ensures error.None? <==> AllOk(cs) && Distinct(Owners(cs))
    ensures error.None? ==> g == Gather(cs)
    ensures error.Some? ==> error.value.InvalidContribution? || error.value.OwnerTwice?
  {
    g := Gathered([], [], [], {});
    var ownerSet: map<string, ()> := map[];
    ghost var keys := Owners(cs);
    error := None;
    assert cs[..0] == [];
    for i := 0 to |cs|
      invariant g == Gather(cs[..i]) && AllOk(cs[..i]) && Remembers(ownerSet, keys, i)
    {
      var valid := Validate(cs[i]);
      NextOk(cs, i);
      if !valid { return Some(InvalidContribution(cs[i].owner)), g; }
      var unseen;
      unseen, ownerSet := InsertKey(ownerSet, keys, i, cs[i].owner, ());
      if !unseen { return Some(OwnerTwice(cs[i].owner)), g; }
      NextGathered(cs, i);
      g := Add(g, cs[i]);
    }
    assert cs[..|cs|] == cs && keys[..|cs|] == keys;
  }

  lemma NextGathered(cs: seq<ApiContribution>, i: nat)
    requires i < |cs|
    ensures Gather(cs[..i + 1]) == Add(Gather(cs[..i]), cs[i])
  {
    NextCollected(cs, i);
    assert Owners(cs[..i + 1]) == Owners(cs[..i]) + [cs[i].owner];
  }

  lemma NextOk(cs: seq<ApiContribution>, i: nat)
    requires i < |cs|
    ensures AllOk(cs[..i + 1]) <==> AllOk(cs[..i]) && ContributionOk(cs[i])
    ensures AllOk(cs) ==> ContributionOk(cs[i])
  {
    assert cs[..i + 1] == cs[..i] + [cs[i]];
    assert cs[i] in cs[..i + 1] && cs[i] in cs;
    if AllOk(cs[..i + 1]) {
      forall c | c in cs[..i] ensures ContributionOk(c) { assert c in cs[..i + 1]; }
    }
  }

  lemma NextCollected(cs: seq<ApiContribution>, i: nat)
    requires i < |cs|
    ensures AllRoutes(cs[..i + 1]) == AllRoutes(cs[..i]) + cs[i].routes
    ensures Documents(cs[..i + 1]) == Documents(cs[..i]) + [DocumentOf(cs[i])]
    ensures PermissionsOf(cs[..i + 1]) == PermissionsOf(cs[..i]) + set p | p in cs[i].permissions
  {
    FlatNext(cs, (c: ApiContribution) => c.routes, i);
    FlatNext(cs, (c: ApiContribution) => [DocumentOf(c)], i);
    assert cs[..i + 1] == cs[..i] + [cs[i]];
    forall p ensures p in PermissionsOf(cs[..i + 1]) <==> p in PermissionsOf(cs[..i]) || p in cs[i].permissions {
      if p in cs[i].permissions { assert cs[i] in cs[..i + 1]; }
      if p in PermissionsOf(cs[..i]) {
        var c :| c in cs[..i] && p in c.permissions;
        assert c in cs[..i + 1];
      }
    }
  }

  /**
   * `ComposedApiAssembly::try_compose`: succeeds exactly on composable contributions; its last two
   * checks never refuse, and the merge never refuses for a conflict between listed operations.
   */
  method TryCompose(render: Value -> string, title: string, cs: seq<ApiContribution>) returns (r: Composed)
    ensures r.Success? <==> Composable(render, title, cs)
    ensures r.Success? ==>
      r.profile == Profile(Owners(cs), AllRoutes(cs), Materialize(Merge(render, title, Documents(cs)).state, title),
                           Keys(PermissionsOf(cs)))
    ensures r.Success? ==> OpenApiCombined.Combines(render, title, Documents(cs), r.profile.openapi)
    ensures r.Success? ==> Catalogues(r.profile.permissions, AllRoutes(cs))
    ensures r.Success? ==> NoSameEndpoint(AllRoutes(cs)) && forall route :: route in AllRoutes(cs) ==> Servable(route)
    ensures r != Refused(InventoryUnreadable) && r != Refused(InventoriesDiffer)
    ensures forall path, f :: f in LISTED ==> r != Refused(MergeFailed(Conflict(Operation(path, f))))
  {
    if cs == [] { return Refused(NothingSelected); }
    ManifestExactly(AllRoutes(cs));
    var error, g := Collect(cs);
    if error.Some? { return Refused(error.value); }
    var manifestOk := ValidateManifest(g.routes);
    if !manifestOk { return Refused(InvalidManifest); }
    Late(render, title, cs);
    var merged := MergeDocuments(render, title, g.documents);
    if merged.Failed? { return Refused(MergeFailed(merged.error)); }
    OpenApiCombined.MergedCombines(render, title, Documents(cs));
    OkCatalogued(cs);
    AllCatalogued(cs);
    var openapi := Materialize(merged.state, title);
    var read := ReadInventory(openapi);
    r := if read.None? then Refused(InventoryUnreadable)
         else if ManifestInventory(g.routes) != read.value then Refused(InventoriesDiffer)
         else Success(Profile(g.owners, g.routes, openapi, Keys(g.permissions)));
  }

  ghost predicate EachCatalogued(cs: seq<ApiContribution>) {
    forall c :: c in cs ==> Catalogues(c.permissions, c.routes)
  }

  /** The catalogues of the contributions together are the catalogue of their routes. */
  lemma AllCatalogued(cs: seq<ApiContribution>)
    requires EachCatalogued(cs)
    ensures Catalogues(Keys(PermissionsOf(cs)), AllRoutes(cs))
  {
    KeysAscend(PermissionsOf(cs));
    forall p ensures p in Keys(PermissionsOf(cs)) <==> exists r :: r in AllRoutes(cs) && Names(r, p) {
      if c :| c in cs && p in c.permissions { Catalogued(cs, c, p); }
      if r :| r in AllRoutes(cs) && Names(r, p) { Named(cs, r, p); }
    }
  }

  lemma Catalogued(cs: seq<ApiContribution>, c: ApiContribution, p: string)
    requires EachCatalogued(cs) && c in cs && p in c.permissions
    ensures exists r :: r in AllRoutes(cs) && Names(r, p)
  {
    var r :| r in c.routes && Names(r, p);
    FlatMember(cs, (x: ApiContribution) => x.routes, r);
  }

  lemma Named(cs: seq<ApiContribution>, r: HttpRoute, p: string)
    requires EachCatalogued(cs) && r in AllRoutes(cs) && Names(r, p)
    ensures p in PermissionsOf(cs)
  {
    FlatMember(cs, (x: ApiContribution) => x.routes, r);
    var c :| c in cs && r in c.routes;
    assert Catalogues(c.permissions, c.routes) && p in c.permissions;
  }

  lemma OkCatalogued(cs: seq<ApiContribution>)
    requires AllOk(cs)
    ensures EachCatalogued(cs)
  {
    forall c | c in cs ensures Catalogues(c.permissions, c.routes) {
      assert ContributionOk(c);
      CatalogueExactly(c.permissions, c.routes);
    }
  }

  /** What is already certain when the merge starts. */
  lemma Late(render: Value -> string, title: string, cs: seq<ApiContribution>)
    requires AllOk(cs) && Distinct(Owners(cs)) && ManifestOk(AllRoutes(cs))
    ensures var m := Merge(render, title, Documents(cs));
            && (m.Merged? ==>
              && Readable(Materialize(m.state, title))
              && DocumentInventory(Materialize(m.state, title)) == ManifestInventory(AllRoutes(cs)))
            && forall path, f :: f in LISTED ==> m != Failed(Conflict(Operation(path, f)))
  {
    forall i, j | 0 <= i < j < |cs| ensures cs[i].owner != cs[j].owner { assert Owners(cs)[i] != Owners(cs)[j]; }
    forall c | c in cs ensures InventoriesAgree(c) { assert ContributionOk(c); }
    if Merge(render, title, Documents(cs)).Merged? { CompositionAgrees(render, title, cs); }
    forall path, f | f in LISTED ensures Merge(render, title, Documents(cs)) != Failed(Conflict(Operation(path, f))) {
      NoOperationConflict(render, title, cs, path, f);
    }
  }
}
