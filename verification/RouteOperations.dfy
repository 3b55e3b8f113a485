/**
 * What a built operation tells its readers (`build_openapi_operation` and `openapi_extensions_for_route`,
 * crates/sdkwork-web-contract/src/openapi.rs): which credentials open it, and which extensions it carries.
 */
module RouteOperations {
  import opened Sorting
  import opened Json
  import opened Routes

  // -- security --------------------------------------------------------------------------------------

  /** The credentials presented include every scheme of the requirement. */
  ghost predicate Meets(requirement: Value, have: set<string>) {
    requirement.Obj? && forall scheme :: scheme in requirement.fields ==> scheme in have
  }

  /** The security field of an operation, as OpenAPI reads it: no requirement at all, or any one of them. */
  ghost predicate Opens(security: Value, have: set<string>) {
    security.Arr? && (security.items == [] || exists i :: 0 <= i < |security.items| && Meets(security.items[i], have))
  }

  /** The credentials a route's authentication asks for. */
  predicate Suffices(a: RouteAuth, have: set<string>) {
    match a
    case Public | BootstrapBody | RefreshToken => true
    case CredentialEntryBootstrap => "AccessToken" in have
    case DualToken | DualTokenOrAnonymous => "AuthToken" in have && "AccessToken" in have
    case ApiKey => "ApiKey" in have
    case OAuth | OpenApiBearerFlexible => "OAuthBearer" in have
    case OpenApiFlexible => "ApiKey" in have || "OAuthBearer" in have
    case ApiKeyOrDualToken => "ApiKey" in have || ("AuthToken" in have && "AccessToken" in have)
    case IngressToken => "IngressToken" in have && "AccessToken" in have
    case AgentToken => "AgentToken" in have && "AccessToken" in have
    case Compatibility => true
  }

  lemma OneRequirement(schemes: set<string>, have: set<string>)
    ensures Meets(Require(schemes), have) <==> schemes <= have
    ensures Opens(Arr([Require(schemes)]), have) <==> schemes <= have
  {
    assert Arr([Require(schemes)]).items[0] == Require(schemes);
    if schemes <= have { assert Meets([Require(schemes)][0], have); }
    if Meets(Require(schemes), have) {
      forall s | s in schemes ensures s in have { assert s in Require(schemes).fields; }
    }
  }

  lemma EitherRequirement(one: set<string>, other: set<string>, have: set<string>)
    ensures Opens(Arr([Require(one), Require(other)]), have) <==> one <= have || other <= have
  {
    var items := [Require(one), Require(other)];
    OneRequirement(one, have);
    OneRequirement(other, have);
    assert items[0] == Require(one) && items[1] == Require(other);
  }

  lemma SecurityOpens(a: RouteAuth, have: set<string>)
    requires a != Compatibility
    ensures Opens(SecurityOf(a), have) <==> Suffices(a, have)
  {
    OneRequirement({"AccessToken"}, have);
    OneRequirement({"AuthToken", "AccessToken"}, have);
    OneRequirement({"ApiKey"}, have);
    OneRequirement({"OAuthBearer"}, have);
    OneRequirement({"IngressToken", "AccessToken"}, have);
    OneRequirement({"AgentToken", "AccessToken"}, have);
    EitherRequirement({"ApiKey"}, {"OAuthBearer"}, have);
    EitherRequirement({"ApiKey"}, {"AuthToken", "AccessToken"}, have);
  }

  lemma Kept(core: map<string, Value>, extensions: map<string, Value>, k: string)
    requires Extending(extensions) && (k == "" || k[0] != 'x')
    ensures k in core + extensions <==> k in core
    ensures k in core ==> (core + extensions)[k] == core[k]
  {
  }

  lemma CoreSecurity(r: HttpRoute)
    requires ContractHolds(r)
    ensures Get(OperationCore(r), "security") ==
      if r.auth == Compatibility then r.compatibilityAuth.value.requirements else SecurityOf(r.auth)
  {
  }

  /**
   * The operation of a route opens for exactly the credentials its authentication asks for; a compatibility
   * route's operation declares its own requirements. Behind every authentication that is neither anonymous nor
   * of the open-API kind the access token is always among them.
   */
  lemma OperationSecurity(r: HttpRoute, have: set<string>)
    requires ContractHolds(r)
    ensures var security := Get(BuildOperation(r).fields, "security");
            && (r.auth == Compatibility ==> security == r.compatibilityAuth.value.requirements)
            && (r.auth != Compatibility ==> (Opens(security, have) <==> Suffices(r.auth, have)))
            && (r.auth != Compatibility && Opens(security, have) && "AccessToken" !in have ==>
                 SkipsCredentials(r.auth) || "ApiKey" in have || "OAuthBearer" in have)
  {
    ExtensionsNamed(r);
    CoreSecurity(r);
    assert "security"[0] == 's';
    Kept(OperationCore(r), Extensions(r), "security");
    if r.auth != Compatibility { SecurityOpens(r.auth, have); }
  }

  // -- surface ---------------------------------------------------------------------------------------

  /** The reserved prefixes exclude each other, so that each surface is told by its own prefix alone. */
  lemma SurfaceExactly(path: string)
    ensures InferSurface(path) == AppApi <==> "/app/v3/api" <= path
    ensures InferSurface(path) == BackendApi <==> "/backend/v3/api" <= path
    ensures InferSurface(path) == InternalApi <==> "/internal/v3/api" <= path
    ensures InferSurface(path) == GatewayApi <==> "/v1" <= path
    ensures InferSurface(path) == Unknown <==> path == "" || path[0] != '/'
  {
    assert "/app/v3/api" <= path ==> path[1] == 'a';
    assert "/backend/v3/api" <= path ==> path[1] == 'b';
    assert "/internal/v3/api" <= path ==> path[1] == 'i';
    assert "/v1" <= path ==> path[1] == 'v';
  }

  // -- extensions ------------------------------------------------------------------------------------

  function Entry(m: map<string, Value>, k: string): Option<Value> {
    if k in m then Some(m[k]) else None
  }

  const FORBID := "x-sdkwork-forbid-credential-headers"
  const WIRE := "x-sdkwork-wire-protocol"
  const PROTOCOL := "x-sdkwork-external-protocol-id"
  const TIER := "x-sdkwork-rate-limit-tier"
  const RETENTION := "x-sdkwork-log-retention"
  const PERMISSION := "x-sdkwork-permission"
  const ALTERNATES := "x-sdkwork-alternate-permissions"
  const REQUIRED := "x-sdkwork-required-surface"
  const CONTEXT := "x-sdkwork-request-context"
  const ROUTE_AUTH := "x-sdkwork-route-auth"

  function NamesAt(j: nat): set<string> {
    if j == 0 then {FORBID} else if j == 1 then {WIRE, PROTOCOL} else if j == 2 then {TIER}
    else if j == 3 then {RETENTION} else if j == 4 then {PERMISSION} else if j == 5 then {ALTERNATES}
    else if j == 6 then {REQUIRED} else {}
  }

  /** The letters behind the common prefix tell the names apart. */
  function Position(k: string): nat {
    if |k| < 12 then 7
    else if k[10] == 'f' then 0
    else if k[10] == 'w' || k[10] == 'e' then 1
    else if k[10] == 'l' then 3
    else if k[10] == 'p' then 4
    else if k[10] == 'a' && k[11] == 'l' then 5
    else if k[10] == 'r' && k[11] == 'a' then 2
    else if k[10] == 'r' && k[11] == 'e' && k[|k| - 1] == 'e' then 6
    else 7
  }

  lemma Positions(j: nat, k: string)
    requires k in NamesAt(j)
    ensures Position(k) == j
  {
  }

  lemma DeclaredAt(r: HttpRoute, j: nat)
    requires j < |DeclaredExtensions(r)|
    ensures |DeclaredExtensions(r)| == 7 && DeclaredExtensions(r)[j].Keys <= NamesAt(j)
  {
  }

  lemma {:induction false} AllOfAt(ms: seq<map<string, Value>>, i: nat, k: string)
    requires i < |ms| && forall j :: 0 <= j < |ms| && j != i ==> k !in ms[j]
    ensures Entry(AllOf(ms), k) == Entry(ms[i], k)
    decreases |ms|
  {
    if i > 0 {
      AllOfAt(ms[1..], i - 1, k);
    } else {
      AllOfNone(ms[1..], k);
    }
  }

  lemma {:induction false} AllOfNone(ms: seq<map<string, Value>>, k: string)
    requires forall j :: 0 <= j < |ms| ==> k !in ms[j]
    ensures k !in AllOf(ms)
    decreases |ms|
  {
    if ms != [] { AllOfNone(ms[1..], k); }
  }

  lemma SurfaceNames(r: HttpRoute, k: string)
    requires k in SurfaceExtensions(r)
    ensures Position(k) == 7
  {
  }

  lemma DeclaredEntry(r: HttpRoute, i: nat, k: string)
    requires i < 7 && k in NamesAt(i)
    ensures |DeclaredExtensions(r)| == 7 && Entry(Extensions(r), k) == Entry(DeclaredExtensions(r)[i], k)
  {
    var ms := DeclaredExtensions(r);
    DeclaredAt(r, 0);
    Positions(i, k);
    forall j | 0 <= j < |ms| && j != i ensures k !in ms[j] {
      DeclaredAt(r, j);
      if k in ms[j] { Positions(j, k); }
    }
    AllOfAt(ms, i, k);
    if k in SurfaceExtensions(r) { SurfaceNames(r, k); }
  }

  /** An extension with a text the route declares, present exactly when it does. */
  ghost predicate Declares(m: map<string, Value>, k: string, text: Option<string>) {
    Entry(m, k) == match text case Some(t) => Some(Str(t)) case None => None
  }

  ghost predicate DeclaresTexts(m: map<string, Value>, k: string, texts: Option<seq<string>>) {
    match texts
    case None => k !in m
    case Some(ts) =>
      && k in m && m[k].Arr? && |m[k].items| == |ts|
      && forall i :: 0 <= i < |ts| ==> m[k].items[i] == Str(ts[i])
  }

  lemma {:induction false} TextItems(ts: seq<string>)
    ensures Texts(ts).Arr? && |Texts(ts).items| == |ts|
    ensures forall i :: 0 <= i < |ts| ==> Texts(ts).items[i] == Str(ts[i])
    decreases |ts|
  {
    if ts != [] { TextItems(ts[..|ts| - 1]); }
  }

  lemma WireDeclared(r: HttpRoute)
    ensures Entry(Extensions(r), FORBID) == if r.forbidCredentialHeaders then Some(Bool(true)) else None
    ensures Declares(Extensions(r), TIER, r.rateLimitTier)
  {
    DeclaredEntry(r, 0, FORBID);
    DeclaredEntry(r, 2, TIER);
  }

  lemma ProtocolDeclared(r: HttpRoute)
    ensures var external := r.auth == Compatibility && r.compatibilityAuth.Some?;
            && Declares(Extensions(r), WIRE, if external then Some("external") else None)
            && Declares(Extensions(r), PROTOCOL, if external then Some(r.compatibilityAuth.value.protocolId) else None)
  {
    DeclaredEntry(r, 1, WIRE);
    DeclaredEntry(r, 1, PROTOCOL);
    Positions(1, WIRE);
    assert WIRE[10] != PROTOCOL[10];
  }

  lemma PolicyDeclared(r: HttpRoute)
    ensures Declares(Extensions(r), RETENTION, r.logRetention)
    ensures Declares(Extensions(r), PERMISSION, r.requiredPermission)
    ensures DeclaresTexts(Extensions(r), ALTERNATES, r.alternatePermissions)
  {
    DeclaredEntry(r, 3, RETENTION);
    DeclaredEntry(r, 4, PERMISSION);
    DeclaredEntry(r, 5, ALTERNATES);
    if r.alternatePermissions.Some? { TextItems(r.alternatePermissions.value); }
  }

  lemma SurfaceDeclared(r: HttpRoute)
    ensures Declares(Extensions(r), REQUIRED,
      if InferSurface(r.path) == BackendApi && !SkipsCredentials(r.auth) then Some("organizationMember") else None)
    ensures Declares(Extensions(r), CONTEXT, Some("WebRequestContext"))
    ensures Declares(Extensions(r), ROUTE_AUTH, Some(RouteAuthLabel(r.auth)))
  {
    DeclaredEntry(r, 6, REQUIRED);
    assert |CONTEXT| == 25 && |ROUTE_AUTH| == 20 && |API_SURFACE| == 21 && |AUTH_MODE| == 19;
  }

  /** An extension of the operation: the route's own first, then whatever an upstream operation brought along. */
  lemma ExtensionEntry(r: HttpRoute, k: string)
    requires ContractHolds(r) && k != "" && k[0] == 'x'
    ensures var o := BuildOperation(r).fields;
            && (k in Extensions(r) ==> Entry(o, k) == Entry(Extensions(r), k))
            && (k !in Extensions(r) ==>
                 Entry(o, k) == if r.auth == Compatibility then Entry(r.upstream.value.fields, k) else None)
  {
    if r.auth == Compatibility {
      assert "security"[0] == 's';
    } else if k in OperationCore(r) {
      CoreNames(r, k);
    }
  }

  lemma CoreNames(r: HttpRoute, k: string)
    requires ContractHolds(r) && r.auth != Compatibility && k in OperationCore(r)
    ensures k == "operationId" || k == "tags" || k == "summary" || k == "responses" || k == "security"
      || k == "parameters"
    ensures k != "" && k[0] != 'x'
  {
  }

  /** The extensions that say what the route declares. */
  ghost predicate Shows(m: map<string, Value>, r: HttpRoute) {
    && (Entry(m, FORBID) == if r.forbidCredentialHeaders then Some(Bool(true)) else None)
    && Declares(m, TIER, r.rateLimitTier) && Declares(m, RETENTION, r.logRetention)
    && Declares(m, PERMISSION, r.requiredPermission) && DeclaresTexts(m, ALTERNATES, r.alternatePermissions)
    && Declares(m, REQUIRED, if InferSurface(r.path) == BackendApi && !SkipsCredentials(r.auth)
         then Some("organizationMember") else None)
    && Declares(m, CONTEXT, Some("WebRequestContext")) && Declares(m, ROUTE_AUTH, Some(RouteAuthLabel(r.auth)))
  }

  ghost predicate IsExtensionKey(k: string) {
    k != "" && k[0] == 'x'
  }

  lemma WireKeys()
    ensures IsExtensionKey(FORBID) && IsExtensionKey(TIER) && IsExtensionKey(CONTEXT) && IsExtensionKey(ROUTE_AUTH)
  {
  }

  lemma PolicyKeys()
    ensures IsExtensionKey(RETENTION) && IsExtensionKey(PERMISSION) && IsExtensionKey(ALTERNATES)
    ensures IsExtensionKey(REQUIRED)
  {
  }

  lemma ShowsAlike(m: map<string, Value>, n: map<string, Value>, r: HttpRoute)
    requires Shows(m, r) && forall k :: IsExtensionKey(k) ==> Entry(n, k) == Entry(m, k)
    ensures Shows(n, r)
  {
    WireKeys();
    PolicyKeys();
  }

  lemma ExtensionsShow(r: HttpRoute)
    ensures Shows(Extensions(r), r)
  {
    WireDeclared(r);
    PolicyDeclared(r);
    SurfaceDeclared(r);
  }

  /** What the operation of a route of the framework's own carries as extensions. */
  lemma OperationExtensions(r: HttpRoute)
    requires ContractHolds(r) && r.auth != Compatibility
    ensures Shows(BuildOperation(r).fields, r)
  {
    forall k | IsExtensionKey(k) ensures Entry(BuildOperation(r).fields, k) == Entry(Extensions(r), k) {
      ExtensionEntry(r, k);
    }
    ExtensionsShow(r);
    ShowsAlike(Extensions(r), BuildOperation(r).fields, r);
  }

  /** A compatibility route keeps its upstream operation, except for the security and the extensions it declares. */
  lemma UpstreamKept(r: HttpRoute, k: string)
    requires ContractHolds(r) && r.auth == Compatibility && k != "security" && (k == "" || k[0] != 'x')
    ensures Entry(BuildOperation(r).fields, k) == Entry(r.upstream.value.fields, k)
    ensures Declares(Extensions(r), WIRE, Some("external"))
    ensures Declares(Extensions(r), PROTOCOL, Some(r.compatibilityAuth.value.protocolId))
  {
    ExtensionsNamed(r);
    Kept(OperationCore(r), Extensions(r), k);
    ProtocolDeclared(r);
  }

  /** In a generated document the authority of an operation is its owner and the surface it declares. */
  lemma AuthorityNamesSurface(owner: string, r: HttpRoute)
    requires ContractHolds(r)
    ensures var o := BuildOwnedOperation(owner, r).fields;
            && Get(o, "x-sdkwork-owner") == Str(owner) && Get(o, "x-sdkwork-api-surface").Str?
            && Get(o, "x-sdkwork-api-authority") == Str(owner + "-" +
                 if r.path != "" && r.path[0] == '/' then Get(o, "x-sdkwork-api-surface").s else "api")
  {
    OwnedFacts(owner, r);
    SurfaceExactly(r.path);
  }
}
