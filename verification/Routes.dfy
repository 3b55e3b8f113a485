/**
 * HTTP routes and the OpenAPI operations built from them (crates/sdkwork-web-contract/src/lib.rs
 * and openapi.rs).
 */
module Routes {
  import opened Sorting
  import opened Text
  import opened Json

  datatype HttpMethod = DELETE | GET | PATCH | POST | PUT

  datatype ApiSurface = OpenApi | AppApi | BackendApi | InternalApi | GatewayApi | Unknown

  datatype RouteAuth =
    | Public | BootstrapBody | CredentialEntryBootstrap | DualToken
    | DualTokenOrAnonymous | ApiKey | IngressToken | OAuth
    | OpenApiFlexible | ApiKeyOrDualToken | OpenApiBearerFlexible | RefreshToken | AgentToken | Compatibility

  /** Declared external authentication; `valid` is the outcome of its own validation. */
  datatype CompatibilityAuth = CompatibilityAuth(protocolId: string, requirements: Value, valid: bool)

  /** The upstream operation of a compatibility route, as its JSON text parses. */
  datatype Upstream = Absent | Unparsable | Parsed(value: Value)

  /** `responses` and `parameters` are what the builder derives from the route's path and auth. */
  datatype HttpRoute = HttpRoute(
    verb: HttpMethod,
    path: string,
    tag: string,
    operationId: string,
    auth: RouteAuth,
    rateLimitTier: Option<string>,
    logRetention: Option<string>,
    requiredPermission: Option<string>,
    alternatePermissions: Option<seq<string>>,
    forbidCredentialHeaders: bool,
    compatibilityAuth: Option<CompatibilityAuth>,
    upstream: Upstream,
    responses: Value,
    parameters: Option<Value>)

  // -- labels ------------------------------------------------------------------------------------

  function MethodKey(m: HttpMethod): string {
    match m case DELETE => "delete" case GET => "get" case PATCH => "patch" case POST => "post" case PUT => "put"
  }

  function MethodLabel(m: HttpMethod): string {
    match m case DELETE => "DELETE" case GET => "GET" case PATCH => "PATCH" case POST => "POST" case PUT => "PUT"
  }

  function SurfaceLabel(s: ApiSurface): string {
    match s
    case OpenApi => "open-api"
    case AppApi => "app-api"
    case BackendApi => "backend-api"
    case InternalApi => "internal-api"
    case GatewayApi => "gateway-api"
    case Unknown => "unknown"
  }

  /** `infer_api_surface_from_path`. */
  function InferSurface(path: string): ApiSurface {
    if StartsWith(path, "/app/v3/api") then AppApi
    else if StartsWith(path, "/backend/v3/api") then BackendApi
    else if StartsWith(path, "/internal/v3/api") then InternalApi
    else if StartsWith(path, "/v1") then GatewayApi
    else if StartsWith(path, "/") then OpenApi
    else Unknown
  }

  /** `RouteAuth::auth_profile_label`, used by manifests. */
  function AuthProfileLabel(a: RouteAuth): string {
    match a
    case Public => "anonymous"
    case BootstrapBody => "bootstrap-body"
    case CredentialEntryBootstrap => "credential-entry-bootstrap"
    case RefreshToken => "refresh-token"
    case DualToken => "dual-token"
    case DualTokenOrAnonymous => "dual-token-or-anonymous"
    case ApiKey => "api-key"
    case IngressToken => "ingress-token"
    case OAuth => "oauth"
    case OpenApiFlexible => "open-api-flexible"
    case OpenApiBearerFlexible => "open-api-bearer-flexible"
    case ApiKeyOrDualToken => "api-key-or-dual-token"
    case AgentToken => "agent-token"
    case Compatibility => "compatibility"
  }

  /** `auth_mode_label`, used by documents. */
  function AuthModeLabel(a: RouteAuth): string {
    match a
    case Public => "anonymous"
    case BootstrapBody => "bootstrap-body"
    case CredentialEntryBootstrap => "credential-entry-bootstrap"
    case RefreshToken => "refresh-token"
    case DualToken => "dual-token"
    case DualTokenOrAnonymous => "dual-token-or-anonymous"
    case ApiKey => "api-key"
    case IngressToken => "ingress-token"
    case OAuth => "oauth"
    case OpenApiFlexible => "open-api-flexible"
    case OpenApiBearerFlexible => "open-api-bearer-flexible"
    case ApiKeyOrDualToken => "api-key-or-dual-token"
    case AgentToken => "agent-token"
    case Compatibility => "compatibility"
  }

  /** `route_auth_label`: differs from the auth mode for public routes. */
  function RouteAuthLabel(a: RouteAuth): string {
    if a == Public then "public" else AuthModeLabel(a)
  }

  lemma LabelsAgree(a: RouteAuth)
    ensures AuthModeLabel(a) == AuthProfileLabel(a) && !Blank(AuthModeLabel(a))
  {
    assert !IsWhitespace(AuthModeLabel(a)[0]);
  }

  lemma SurfaceLabelsShow(s: ApiSurface)
    ensures !Blank(SurfaceLabel(s))
  {
    assert !IsWhitespace(SurfaceLabel(s)[0]);
  }

  // -- contracts ---------------------------------------------------------------------------------

  /** `validate_compatibility_contract`. */
  predicate ContractHolds(r: HttpRoute) {
    if r.auth != Compatibility then r.compatibilityAuth.None? && r.upstream.Absent?
    else
      && r.compatibilityAuth.Some? && r.compatibilityAuth.value.valid
      && r.upstream.Parsed? && r.upstream.value.Obj?
      && Get(r.upstream.value.fields, "operationId") == Str(r.operationId)
      && Get(r.upstream.value.fields, "responses").Obj?
  }

  const I64_MAX: nat := 0x7FFF_FFFF_FFFF_FFFF

  /** `validate_log_retention`: permanent, or a positive number of days. */
  predicate RetentionValid(r: HttpRoute) {
    r.logRetention.Some? ==>
      var t := r.logRetention.value;
      || t == "permanent"
      || (|t| >= 2 && t[|t| - 1] == 'd'
          && var days := ParseUpTo(t[..|t| - 1], I64_MAX); days.Some? && days.value > 0)
  }

  // -- operations --------------------------------------------------------------------------------

  const OPERATION_ID := "operationId"
  const API_SURFACE := "x-sdkwork-api-surface"
  const AUTH_MODE := "x-sdkwork-auth-mode"

  function StrOf(present: bool, key: string, value: string): map<string, Value> {
    if present then map[key := Str(value)] else map[]
  }

  function TextOr(o: Option<string>): string {
    if o.Some? then o.value else ""
  }

  function ExternalProtocol(r: HttpRoute): map<string, Value> {
    if r.auth == Compatibility && r.compatibilityAuth.Some?
    then map["x-sdkwork-wire-protocol" := Str("external"),
             "x-sdkwork-external-protocol-id" := Str(r.compatibilityAuth.value.protocolId)]
    else map[]
  }

  function SkipsCredentials(a: RouteAuth): bool {
    a == Public || a == BootstrapBody || a == RefreshToken
  }

  /** The extensions only some routes have. */
  function DeclaredExtensions(r: HttpRoute): seq<map<string, Value>> {
    WireExtensions(r) + PolicyExtensions(r)
  }

  function WireExtensions(r: HttpRoute): seq<map<string, Value>> {
    [if r.forbidCredentialHeaders then map["x-sdkwork-forbid-credential-headers" := Bool(true)] else map[],
     ExternalProtocol(r),
     StrOf(r.rateLimitTier.Some?, "x-sdkwork-rate-limit-tier", TextOr(r.rateLimitTier))]
  }

  function PolicyExtensions(r: HttpRoute): seq<map<string, Value>> {
    [StrOf(r.logRetention.Some?, "x-sdkwork-log-retention", TextOr(r.logRetention)),
     StrOf(r.requiredPermission.Some?, "x-sdkwork-permission", TextOr(r.requiredPermission)),
     if r.alternatePermissions.Some?
       then map["x-sdkwork-alternate-permissions" := Texts(r.alternatePermissions.value)]
       else map[],
     StrOf(InferSurface(r.path) == BackendApi && !SkipsCredentials(r.auth),
           "x-sdkwork-required-surface", "organizationMember")]
  }

  function AllOf(ms: seq<map<string, Value>>): map<string, Value> {
    if ms == [] then map[] else ms[0] + AllOf(ms[1..])
  }

  function SurfaceExtensions(r: HttpRoute): map<string, Value> {
    map["x-sdkwork-request-context" := Str("WebRequestContext"),
        "x-sdkwork-route-auth" := Str(RouteAuthLabel(r.auth)),
        API_SURFACE := Str(SurfaceLabel(InferSurface(r.path))),
        AUTH_MODE := Str(AuthModeLabel(r.auth))]
  }

  /** `openapi_extensions_for_route`. */
  function Extensions(r: HttpRoute): map<string, Value> {
    Overlaid(DeclaredExtensions(r), SurfaceExtensions(r))
  }

  function Overlaid(ms: seq<map<string, Value>>, last: map<string, Value>): map<string, Value> {
    AllOf(ms) + last
  }

  function Texts(ss: seq<string>): Value {
    Arr(Flat(ss, (s: string) => [Str(s)]))
  }

  function Require(schemes: set<string>): Value {
    Obj(map s | s in schemes :: Arr([]))
  }

  function SecurityOf(a: RouteAuth): Value {
    match a
    case Public | BootstrapBody | RefreshToken | Compatibility => Arr([])
    case CredentialEntryBootstrap => Arr([Require({"AccessToken"})])
    case DualToken | DualTokenOrAnonymous => Arr([Require({"AuthToken", "AccessToken"})])
    case ApiKey => Arr([Require({"ApiKey"})])
    case OAuth => Arr([Require({"OAuthBearer"})])
    case OpenApiFlexible => Arr([Require({"ApiKey"}), Require({"OAuthBearer"})])
    case OpenApiBearerFlexible => Arr([Require({"OAuthBearer"})])
    case ApiKeyOrDualToken => Arr([Require({"ApiKey"}), Require({"AuthToken", "AccessToken"})])
    case IngressToken => Arr([Require({"IngressToken", "AccessToken"})])
    case AgentToken => Arr([Require({"AgentToken", "AccessToken"})])
  }

  /** What the operation says before the extensions are inserted. */
  function OperationCore(r: HttpRoute): map<string, Value>
    requires ContractHolds(r)
  {
    if r.auth == Compatibility then r.upstream.value.fields["security" := r.compatibilityAuth.value.requirements]
    else
      (if r.parameters.Some? then map["parameters" := r.parameters.value] else map[])
      + map[OPERATION_ID := Str(r.operationId), "tags" := Arr([Str(r.tag)]), "summary" := Str(r.operationId),
            "responses" := r.responses, "security" := SecurityOf(r.auth)]
  }

  /** `build_openapi_operation`. */
  function BuildOperation(r: HttpRoute): Value
    requires ContractHolds(r)
  {
    Obj(OperationCore(r) + Extensions(r))
  }

  ghost predicate Extending(m: map<string, Value>) {
    forall k :: k in m ==> k != "" && k[0] == 'x'
  }

  lemma {:induction false} AllExtending(ms: seq<map<string, Value>>)
    requires forall i :: 0 <= i < |ms| ==> Extending(ms[i])
    ensures Extending(AllOf(ms))
    decreases |ms|
  {
    if ms != [] { AllExtending(ms[1..]); }
  }

  lemma SurfaceExtensionsNamed(r: HttpRoute)
    ensures Extending(SurfaceExtensions(r))
    ensures Get(SurfaceExtensions(r), API_SURFACE) == Str(SurfaceLabel(InferSurface(r.path)))
    ensures Get(SurfaceExtensions(r), AUTH_MODE) == Str(AuthModeLabel(r.auth))
  {
    assert API_SURFACE[12] != AUTH_MODE[12];
  }

  /** The last layer decides its own keys. */
  lemma Layered(ms: seq<map<string, Value>>, last: map<string, Value>, k: string)
    requires (forall i :: 0 <= i < |ms| ==> Extending(ms[i])) && Extending(last) && k in last
    ensures Extending(Overlaid(ms, last)) && Get(Overlaid(ms, last), k) == last[k]
  {
    AllExtending(ms);
  }

  lemma WireExtending(r: HttpRoute)
    ensures forall i :: 0 <= i < |WireExtensions(r)| ==> Extending(WireExtensions(r)[i])
  {
  }

  lemma PolicyExtending(r: HttpRoute)
    ensures forall i :: 0 <= i < |PolicyExtensions(r)| ==> Extending(PolicyExtensions(r)[i])
  {
  }

  lemma DeclaredExtending(r: HttpRoute)
    ensures forall i :: 0 <= i < |DeclaredExtensions(r)| ==> Extending(DeclaredExtensions(r)[i])
  {
    WireExtending(r);
    PolicyExtending(r);
    BothExtending(WireExtensions(r), PolicyExtensions(r));
  }

  lemma BothExtending(a: seq<map<string, Value>>, b: seq<map<string, Value>>)
    requires (forall i :: 0 <= i < |a| ==> Extending(a[i])) && (forall i :: 0 <= i < |b| ==> Extending(b[i]))
    ensures forall i :: 0 <= i < |a + b| ==> Extending((a + b)[i])
  {
  }

  lemma ExtensionsNamed(r: HttpRoute)
    ensures Extending(Extensions(r))
    ensures Get(Extensions(r), API_SURFACE) == Str(SurfaceLabel(InferSurface(r.path)))
    ensures Get(Extensions(r), AUTH_MODE) == Str(AuthModeLabel(r.auth))
  {
    DeclaredExtending(r);
    SurfaceExtensionsNamed(r);
    Layered(DeclaredExtensions(r), SurfaceExtensions(r), API_SURFACE);
    Layered(DeclaredExtensions(r), SurfaceExtensions(r), AUTH_MODE);
  }

  /** Extensions go over the core without touching the operation id. */
  lemma Stamped(core: map<string, Value>, extensions: map<string, Value>, k: string)
    requires Extending(extensions) && Get(extensions, k) != Null
    ensures Get(core + extensions, OPERATION_ID) == Get(core, OPERATION_ID)
      && Get(core + extensions, k) == Get(extensions, k)
  {
    assert OPERATION_ID[0] != 'x';
  }

  lemma CoreNamed(r: HttpRoute)
    requires ContractHolds(r)
    ensures Get(OperationCore(r), OPERATION_ID) == Str(r.operationId)
  {
    assert "security" != OPERATION_ID;
  }

  /** What the inventory reader looks for in a built operation. */
  lemma OperationFacts(r: HttpRoute)
    requires ContractHolds(r)
    ensures BuildOperation(r).Obj?
    ensures var o := BuildOperation(r).fields;
            && Get(o, OPERATION_ID) == Str(r.operationId)
            && Get(o, API_SURFACE) == Str(SurfaceLabel(InferSurface(r.path)))
            && Get(o, AUTH_MODE) == Str(AuthProfileLabel(r.auth))
  {
    ExtensionsNamed(r);
    LabelsAgree(r.auth);
    CoreNamed(r);
    Stamped(OperationCore(r), Extensions(r), API_SURFACE);
    Stamped(OperationCore(r), Extensions(r), AUTH_MODE);
  }

  // -- ownership -----------------------------------------------------------------------------------

  /** `api_authority_for_route`. */
  function Authority(owner: string, r: HttpRoute): string {
    owner + "-" + if InferSurface(r.path) == Unknown then "api" else SurfaceLabel(InferSurface(r.path))
  }

  function Ownership(owner: string, r: HttpRoute): map<string, Value> {
    map["x-sdkwork-owner" := Str(owner), "x-sdkwork-api-authority" := Str(Authority(owner, r))]
  }

  /** The operation an owner's generated document ends up with. */
  function BuildOwnedOperation(owner: string, r: HttpRoute): Value
    requires ContractHolds(r)
  {
    Obj(BuildOperation(r).fields + Ownership(owner, r))
  }

  lemma OwnershipElsewhere(owner: string, r: HttpRoute)
    ensures OPERATION_ID !in Ownership(owner, r) && API_SURFACE !in Ownership(owner, r)
      && AUTH_MODE !in Ownership(owner, r)
    ensures Get(Ownership(owner, r), "x-sdkwork-owner") == Str(owner)
    ensures Get(Ownership(owner, r), "x-sdkwork-api-authority") == Str(Authority(owner, r))
  {
    var a, b := "x-sdkwork-owner", "x-sdkwork-api-authority";
    assert |a| == 15 && |b| == 23 && |API_SURFACE| == 21 && |AUTH_MODE| == 19 && |OPERATION_ID| == 11;
  }

  lemma Overlay(base: map<string, Value>, top: map<string, Value>, k: string)
    ensures k !in top ==> Get(base + top, k) == Get(base, k)
    ensures k in top ==> Get(base + top, k) == top[k]
  {
  }

  lemma OwnedFacts(owner: string, r: HttpRoute)
    requires ContractHolds(r)
    ensures var o := BuildOwnedOperation(owner, r).fields;
            && Get(o, OPERATION_ID) == Str(r.operationId)
            && Get(o, API_SURFACE) == Str(SurfaceLabel(InferSurface(r.path)))
            && Get(o, AUTH_MODE) == Str(AuthProfileLabel(r.auth))
            && Get(o, "x-sdkwork-owner") == Str(owner)
            && Get(o, "x-sdkwork-api-authority") == Str(Authority(owner, r))
  {
    OperationFacts(r);
    OwnershipElsewhere(owner, r);
    var base, top := BuildOperation(r).fields, Ownership(owner, r);
    Overlay(base, top, OPERATION_ID);
    Overlay(base, top, API_SURFACE);
    Overlay(base, top, AUTH_MODE);
    Overlay(base, top, "x-sdkwork-owner");
    Overlay(base, top, "x-sdkwork-api-authority");
  }
}
