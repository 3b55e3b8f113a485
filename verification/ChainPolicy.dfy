/** Layered chain policy: limits, IP access and stage switches (crates/sdkwork-web-chain/src/policy.rs). */
module ChainPolicy {
  import opened Sorting

  datatype StageEnablement = StageEnablement(enabledOnly: Option<seq<string>>, disabled: Option<seq<string>>)

  datatype ConcurrencyScope = Global | ApiKey | Tenant

  datatype ConcurrencyPolicy = ConcurrencyPolicy(maxInflight: Option<nat>, perScope: Option<map<string, nat>>)

  datatype IpAccessMode = Open | AllowlistOnly

  datatype IpAccessPolicy = IpAccessPolicy(mode: IpAccessMode, allowlist: seq<string>, denylist: seq<string>)

  datatype PolicyLayer = PolicyLayer(
    concurrency: Option<ConcurrencyPolicy>,
    ipAccess: Option<IpAccessPolicy>,
    stages: Option<StageEnablement>)

  datatype Origin = FromApiKey | FromGlobal | FromDefault

  datatype ResolvedPolicy = ResolvedPolicy(
    concurrency: Option<ConcurrencyPolicy>,
    ipAccess: Option<IpAccessPolicy>,
    stages: StageEnablement,
    origin: Origin)

  function ScopeName(scope: ConcurrencyScope): string {
    match scope
    case Global => "global"
    case ApiKey => "apiKey"
    case Tenant => "tenant"
  }

  /** Effective limit for a scope; a per-scope override wins over the shared maximum. */
  function LimitFor(policy: ConcurrencyPolicy, scope: ConcurrencyScope): Option<nat> {
    if policy.perScope.Some? && ScopeName(scope) in policy.perScope.value
    then Some(policy.perScope.value[ScopeName(scope)])
    else policy.maxInflight
  }

  predicate IsEnabled(e: StageEnablement, name: string) {
    && (e.enabledOnly.Some? ==> name in e.enabledOnly.value)
    && (e.disabled.Some? ==> name !in e.disabled.value)
  }

  function Pick<T>(perKey: Option<T>, global: Option<T>, defaults: Option<T>): Option<T> {
    if perKey.Some? then perKey else if global.Some? then global else defaults
  }

  function EnabledOnlyOf(layer: Option<PolicyLayer>): Option<seq<string>> {
    if layer.Some? && layer.value.stages.Some? then layer.value.stages.value.enabledOnly else None
  }

  function DisabledOf(layer: Option<PolicyLayer>): Option<seq<string>> {
    if layer.Some? && layer.value.stages.Some? then layer.value.stages.value.disabled else None
  }

  /** `ChainPolicy::is_restrictive`. */
  predicate IsRestrictive(layer: PolicyLayer) {
    layer.concurrency.Some? || layer.ipAccess.Some? || layer.stages.Some?
  }

  /** `merge_chain_policies`: each field comes from the most specific layer that sets it. */
  function Merge(defaults: PolicyLayer, global: PolicyLayer, perKey: Option<PolicyLayer>): ResolvedPolicy {
    ResolvedPolicy(
      Pick(if perKey.Some? then perKey.value.concurrency else None, global.concurrency, defaults.concurrency),
      Pick(if perKey.Some? then perKey.value.ipAccess else None, global.ipAccess, defaults.ipAccess),
      StageEnablement(
        Pick(EnabledOnlyOf(perKey), EnabledOnlyOf(Some(global)), EnabledOnlyOf(Some(defaults))),
        Pick(DisabledOf(perKey), DisabledOf(Some(global)), DisabledOf(Some(defaults)))),
      if perKey.Some? then FromApiKey
      else if IsRestrictive(global) || global.concurrency.Some? || global.stages.Some? then FromGlobal
      else FromDefault)
  }

  /** The layers of a request, most specific first. */
  function Layers(defaults: PolicyLayer, global: PolicyLayer, perKey: Option<PolicyLayer>): seq<PolicyLayer> {
    (if perKey.Some? then [perKey.value] else []) + [global, defaults]
  }

  /** The value of the first layer that sets the field, or nothing when none does. */
  ghost predicate FirstSet<T>(layers: seq<PolicyLayer>, field: PolicyLayer -> Option<T>, value: Option<T>) {
    if value.None? then forall i :: 0 <= i < |layers| ==> field(layers[i]).None?
    else exists i :: 0 <= i < |layers| && field(layers[i]) == value && forall j :: 0 <= j < i ==> field(layers[j]).None?
  }

  lemma FirstSetUnique<T>(layers: seq<PolicyLayer>, field: PolicyLayer -> Option<T>, a: Option<T>, b: Option<T>)
    requires FirstSet(layers, field, a) && FirstSet(layers, field, b)
    ensures a == b
  {
    if a.Some? && b.Some? {
      var i :| 0 <= i < |layers| && field(layers[i]) == a && forall j :: 0 <= j < i ==> field(layers[j]).None?;
      var k :| 0 <= k < |layers| && field(layers[k]) == b && forall j :: 0 <= j < k ==> field(layers[j]).None?;
      assert !(i < k) && !(k < i);
    }
  }

  lemma PickIsFirst<T>(perKey: Option<PolicyLayer>, global: PolicyLayer, defaults: PolicyLayer,
      field: PolicyLayer -> Option<T>)
    ensures FirstSet(Layers(defaults, global, perKey), field,
                     Pick(if perKey.Some? then field(perKey.value) else None, field(global), field(defaults)))
  {
    var layers := Layers(defaults, global, perKey);
    var n := |layers|;
    assert layers[n - 2] == global && layers[n - 1] == defaults;
    if perKey.Some? {
      assert layers[0] == perKey.value;
      if field(perKey.value).Some? { assert field(layers[0]).Some?; }
    }
  }

  function ConcurrencyIn(layer: PolicyLayer): Option<ConcurrencyPolicy> {
    layer.concurrency
  }

  function IpAccessIn(layer: PolicyLayer): Option<IpAccessPolicy> {
    layer.ipAccess
  }

  function EnabledOnlyIn(layer: PolicyLayer): Option<seq<string>> {
    if layer.stages.Some? then layer.stages.value.enabledOnly else None
  }

  function DisabledIn(layer: PolicyLayer): Option<seq<string>> {
    if layer.stages.Some? then layer.stages.value.disabled else None
  }

  /** Field by field, the most specific layer that sets it decides the merged policy. */
  lemma MostSpecificWins(defaults: PolicyLayer, global: PolicyLayer, perKey: Option<PolicyLayer>)
    ensures var layers, merged := Layers(defaults, global, perKey), Merge(defaults, global, perKey);
            && FirstSet(layers, ConcurrencyIn, merged.concurrency)
            && FirstSet(layers, IpAccessIn, merged.ipAccess)
            && FirstSet(layers, EnabledOnlyIn, merged.stages.enabledOnly)
            && FirstSet(layers, DisabledIn, merged.stages.disabled)
  {
    PickIsFirst(perKey, global, defaults, ConcurrencyIn);
    PickIsFirst(perKey, global, defaults, IpAccessIn);
    PickIsFirst(perKey, global, defaults, EnabledOnlyIn);
    PickIsFirst(perKey, global, defaults, DisabledIn);
  }

  // -- the origin trace ------------------------------------------------------------------------------

  /** A value of the merged policy is set by this layer, and by no more specific one. */
  ghost predicate Supplies(layers: seq<PolicyLayer>, i: nat)
    requires i < |layers|
  {
    || Decides(layers, i, ConcurrencyIn)
    || Decides(layers, i, IpAccessIn)
    || Decides(layers, i, EnabledOnlyIn)
    || Decides(layers, i, DisabledIn)
  }

  ghost predicate Decides<T>(layers: seq<PolicyLayer>, i: nat, field: PolicyLayer -> Option<T>)
    requires i < |layers|
  {
    field(layers[i]).Some? && forall j :: 0 <= j < i ==> field(layers[j]).None?
  }

  /** The documented origin: the most specific layer that supplies a value, and the defaults when none does. */
  ghost predicate DocumentedOrigin(defaults: PolicyLayer, global: PolicyLayer, perKey: Option<PolicyLayer>, o: Origin) {
    var layers := Layers(defaults, global, perKey);
    var n := |layers|;
    match o
    case FromApiKey => perKey.Some? && Supplies(layers, 0)
    case FromGlobal => Supplies(layers, n - 2) && (perKey.Some? ==> !Supplies(layers, 0))
    case FromDefault => !Supplies(layers, n - 2) && (perKey.Some? ==> !Supplies(layers, 0))
  }

  /** A layer that sets some field; an empty stage section sets none. */
  predicate SetsSomething(layer: PolicyLayer) {
    layer.concurrency.Some? || layer.ipAccess.Some? || EnabledOnlyIn(layer).Some? || DisabledIn(layer).Some?
  }

  /**
   * The origin is the documented one exactly when the layer it names, unless that is the defaults,
   * sets a field: the code names a per-key layer even if it is empty, and a global layer even if all it
   * has is an empty stage section.
   */
  lemma OriginExactly(defaults: PolicyLayer, global: PolicyLayer, perKey: Option<PolicyLayer>)
    ensures var origin := Merge(defaults, global, perKey).origin;
            DocumentedOrigin(defaults, global, perKey, origin) <==>
              match origin
              case FromApiKey => SetsSomething(perKey.value)
              case FromGlobal => SetsSomething(global)
              case FromDefault => true
  {
    var layers := Layers(defaults, global, perKey);
    assert layers[|layers| - 2] == global;
    if perKey.Some? { assert layers[0] == perKey.value; }
  }
}
