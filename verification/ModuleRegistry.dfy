/**
 * The registry of API modules: duplicate modules are ignored, and composing flattens what is left
 * (crates/sdkwork-web-bootstrap/src/api_assembly.rs).
 */
module ModuleRegistry {
  import opened Json
  import opened Occurrences
  import opened Composition
  import opened Assembly

  datatype WebModule = WebModule(owner: string, contributions: seq<ApiContribution>)

  // -- registering ---------------------------------------------------------------------------------

  function ModuleOwners(ms: seq<WebModule>): seq<string> {
    seq(|ms|, i requires 0 <= i < |ms| => ms[i].owner)
  }

  /** The modules that stay when `added` are registered in order, and the owners of the others. */
  function Kept(added: seq<WebModule>): seq<WebModule> {
    if added == [] then []
    else
      var before, last := Kept(added[..|added| - 1]), added[|added| - 1];
      if last.owner in ModuleOwners(before) then before else before + [last]
  }

  function Ignored(added: seq<WebModule>): seq<string> {
    if added == [] then []
    else
      var before, last := added[..|added| - 1], added[|added| - 1];
      if last.owner in ModuleOwners(Kept(before)) then Ignored(before) + [last.owner] else Ignored(before)
  }

  lemma ModuleOwnersNext(ms: seq<WebModule>, m: WebModule)
    ensures ModuleOwners(ms + [m]) == ModuleOwners(ms) + [m.owner]
  {
  }

  lemma KeptNext(added: seq<WebModule>, m: WebModule)
    ensures Kept(added + [m]) == if m.owner in ModuleOwners(Kept(added)) then Kept(added) else Kept(added) + [m]
    ensures Ignored(added + [m]) ==
      if m.owner in ModuleOwners(Kept(added)) then Ignored(added) + [m.owner] else Ignored(added)
  {
    assert (added + [m])[..|added|] == added;
  }

  /** After any adds: the kept owners are the first occurrences, and every add is kept or ignored. */
  lemma {:induction false} KeptFirst(added: seq<WebModule>)
    ensures ModuleOwners(Kept(added)) == Dedupe(ModuleOwners(added))
    ensures |Kept(added)| + |Ignored(added)| == |added|
    decreases |added|
  {
    if added != [] {
      var n := |added| - 1;
      var before, last := added[..n], added[n];
      assert added == before + [last];
      KeptFirst(before);
      KeptNext(before, last);
      ModuleOwnersNext(before, last);
      ModuleOwnersNext(Kept(before), last);
      DedupeNext(ModuleOwners(before), last.owner);
      DedupeMember(ModuleOwners(before));
    }
  }

  /** Registering modules of owners already seen changes nothing, whatever those modules hold. */
  lemma {:induction false} RepeatedIgnored(added: seq<WebModule>, more: seq<WebModule>)
    requires forall m :: m in more ==> m.owner in ModuleOwners(added)
    ensures Kept(added + more) == Kept(added)
    decreases |more|
  {
    if more == [] {
      assert added + more == added;
    } else {
      var n := |more| - 1;
      assert more == more[..n] + [more[n]] && added + more == (added + more[..n]) + [more[n]];
      RepeatedIgnored(added, more[..n]);
      KeptNext(added + more[..n], more[n]);
      KeptFirst(added);
      DedupeMember(ModuleOwners(added));
    }
  }

  // -- flattening ----------------------------------------------------------------------------------

  function OwnerSet(cs: seq<ApiContribution>): set<string> {
    set c | c in cs :: c.owner
  }

  /** The contributions whose owner no earlier module mounted. */
  function Admitted(mounted: set<string>, cs: seq<ApiContribution>): seq<ApiContribution> {
    Flat(cs, (c: ApiContribution) => if c.owner in mounted then [] else [c])
  }

  function Mounted(ms: seq<WebModule>): seq<ApiContribution> {
    if ms == [] then []
    else
      var before := Mounted(ms[..|ms| - 1]);
      before + Admitted(OwnerSet(before), ms[|ms| - 1].contributions)
  }

  /** One module of the flattening loop, with its two owner sets. */
  method MountModule(mounted: set<string>, m: WebModule) returns (after: set<string>, admitted: seq<ApiContribution>)
    ensures admitted == Admitted(mounted, m.contributions) && after == mounted + OwnerSet(admitted)
  {
    var cs := m.contributions;
    var moduleOwners: set<string> := {};
    after, admitted := mounted, [];
    assert cs[..0] == [];
    for i := 0 to |cs|
      invariant admitted == Admitted(mounted, cs[..i])
      invariant moduleOwners == OwnerSet(admitted) && moduleOwners !! mounted && after == mounted + moduleOwners
    {
      AdmitNext(mounted, cs, i);
      var duplicateFromEarlierModule := cs[i].owner in after && cs[i].owner !in moduleOwners;
      if !duplicateFromEarlierModule {
        moduleOwners := moduleOwners + {cs[i].owner};
        after := after + {cs[i].owner};
        OwnersGrow(admitted, cs[i]);
        admitted := admitted + [cs[i]];
      }
    }
    assert cs[..|cs|] == cs;
  }

  lemma OwnersGrow(cs: seq<ApiContribution>, c: ApiContribution)
    ensures OwnerSet(cs + [c]) == OwnerSet(cs) + {c.owner}
  {
    forall o ensures o in OwnerSet(cs + [c]) <==> o in OwnerSet(cs) + {c.owner} {
      if o == c.owner { assert c in cs + [c]; }
      if o in OwnerSet(cs) {
        var x :| x in cs && x.owner == o;
        assert x in cs + [c];
      }
    }
  }

  lemma AdmitNext(mounted: set<string>, cs: seq<ApiContribution>, i: nat)
    requires i < |cs|
    ensures Admitted(mounted, cs[..i + 1]) ==
      Admitted(mounted, cs[..i]) + if cs[i].owner in mounted then [] else [cs[i]]
  {
    FlatNext(cs, (c: ApiContribution) => if c.owner in mounted then [] else [c], i);
  }

  /** Behind what is mounted, the module introduces no new owner twice. */
  ghost predicate IntroducesOnce(before: seq<ApiContribution>, m: WebModule) {
    Distinct(Owners(Admitted(OwnerSet(before), m.contributions)))
  }

  ghost predicate FreshOnce(ms: seq<WebModule>, i: nat)
    requires i < |ms|
  {
    IntroducesOnce(Mounted(ms[..i]), ms[i])
  }

  lemma {:induction false} AdmittedFresh(mounted: set<string>, cs: seq<ApiContribution>)
    ensures forall c :: c in Admitted(mounted, cs) ==> c in cs && c.owner !in mounted
    ensures forall c :: c in cs && c.owner !in mounted ==> c in Admitted(mounted, cs)
    decreases |cs|
  {
    if cs != [] {
      var n := |cs| - 1;
      AdmittedFresh(mounted, cs[..n]);
      assert cs == cs[..n] + [cs[n]];
    }
  }

  lemma OwnersConcat(a: seq<ApiContribution>, b: seq<ApiContribution>)
    ensures Owners(a + b) == Owners(a) + Owners(b)
  {
  }

  lemma OwnersIn(cs: seq<ApiContribution>, o: string)
    ensures o in Owners(cs) <==> o in OwnerSet(cs)
  {
    if o in Owners(cs) {
      var i :| 0 <= i < |Owners(cs)| && Owners(cs)[i] == o;
      assert cs[i] in cs;
    }
    if o in OwnerSet(cs) {
      var c :| c in cs && c.owner == o;
      var i :| 0 <= i < |cs| && cs[i] == c;
      assert Owners(cs)[i] == o;
    }
  }

  lemma LastModule(ms: seq<WebModule>)
    requires ms != []
    ensures var n := |ms| - 1; Distinct(Owners(Mounted(ms))) <==> Distinct(Owners(Mounted(ms[..n]))) && FreshOnce(ms, n)
  {
    var n := |ms| - 1;
    var before := Mounted(ms[..n]);
    var last := Admitted(OwnerSet(before), ms[n].contributions);
    AdmittedFresh(OwnerSet(before), ms[n].contributions);
    OwnersConcat(before, last);
    forall o | o in Owners(before) ensures o !in Owners(last) {
      OwnersIn(before, o);
      OwnersIn(last, o);
    }
    DistinctParts(Owners(before), Owners(last));
  }

  ghost predicate AllFreshOnce(ms: seq<WebModule>) {
    forall i :: 0 <= i < |ms| ==> FreshOnce(ms, i)
  }

  lemma FreshShorter(ms: seq<WebModule>, n: nat, i: nat)
    requires i < n <= |ms|
    ensures FreshOnce(ms, i) <==> FreshOnce(ms[..n], i)
  {
    TakeTake(ms, n, i);
  }

  lemma AllFreshNext(ms: seq<WebModule>)
    requires ms != []
    ensures AllFreshOnce(ms) <==> AllFreshOnce(ms[..|ms| - 1]) && FreshOnce(ms, |ms| - 1)
  {
    var n := |ms| - 1;
    forall i | 0 <= i < n ensures FreshOnce(ms, i) <==> FreshOnce(ms[..n], i) { FreshShorter(ms, n, i); }
  }

  /** The flattened owners repeat exactly when some module introduces an owner twice. */
  lemma {:induction false} RepeatsExactly(ms: seq<WebModule>)
    ensures Distinct(Owners(Mounted(ms))) <==> AllFreshOnce(ms)
    decreases |ms|
  {
    if ms != [] {
      RepeatsExactly(ms[..|ms| - 1]);
      LastModule(ms);
      AllFreshNext(ms);
    }
  }

  // -- the order of the owners -----------------------------------------------------------------------

  function AllContributions(ms: seq<WebModule>): seq<ApiContribution> {
    Flat(ms, (m: WebModule) => m.contributions)
  }

  lemma {:induction false} AdmittedOwners(mounted: set<string>, cs: seq<ApiContribution>)
    ensures Owners(Admitted(mounted, cs)) == Without(Owners(cs), mounted)
    decreases |cs|
  {
    if cs != [] {
      var n := |cs| - 1;
      AdmittedOwners(mounted, cs[..n]);
      assert Owners(cs)[..n] == Owners(cs[..n]);
      OwnersConcat(Admitted(mounted, cs[..n]), if cs[n].owner in mounted then [] else [cs[n]]);
    }
  }

  lemma OwnerSetConcat(a: seq<ApiContribution>, b: seq<ApiContribution>)
    ensures OwnerSet(a + b) == OwnerSet(a) + OwnerSet(b)
  {
    forall c ensures c in a + b <==> c in a || c in b { }
  }

  /** Flattening leaves the owners and their first occurrences as they are. */
  lemma {:induction false} MountedOwners(ms: seq<WebModule>)
    ensures Dedupe(Owners(Mounted(ms))) == Dedupe(Owners(AllContributions(ms)))
    ensures OwnerSet(Mounted(ms)) == OwnerSet(AllContributions(ms))
    decreases |ms|
  {
    if ms != [] {
      var n := |ms| - 1;
      MountedOwners(ms[..n]);
      MountedNext(Mounted(ms[..n]), AllContributions(ms[..n]), ms[n].contributions);
    }
  }

  lemma MountedNext(before: seq<ApiContribution>, all: seq<ApiContribution>, last: seq<ApiContribution>)
    requires Dedupe(Owners(before)) == Dedupe(Owners(all)) && OwnerSet(before) == OwnerSet(all)
    ensures var admitted := Admitted(OwnerSet(before), last);
            && Dedupe(Owners(before + admitted)) == Dedupe(Owners(all + last))
            && OwnerSet(before + admitted) == OwnerSet(all + last)
  {
    var mounted := OwnerSet(before);
    var admitted := Admitted(mounted, last);
    forall o ensures o in mounted <==> o in Owners(before) { OwnersIn(before, o); }
    forall o ensures o in mounted <==> o in Owners(all) { OwnersIn(all, o); }
    AdmittedFresh(mounted, last);
    AdmittedOwners(mounted, last);
    WithoutTwice(Owners(last), mounted);
    DedupeConcat(Owners(before), Owners(admitted), mounted);
    DedupeConcat(Owners(all), Owners(last), mounted);
    OwnersConcat(before, admitted);
    OwnersConcat(all, last);
    OwnerSetConcat(before, admitted);
    OwnerSetConcat(all, last);
    forall o ensures o in OwnerSet(before) + OwnerSet(admitted) <==> o in OwnerSet(all) + OwnerSet(last) { }
  }

  /** Without a repeated fresh owner, the profile's owners are the first occurrences of all contribution owners. */
  lemma OwnersAreFirst(ms: seq<WebModule>)
    requires Distinct(Owners(Mounted(ms)))
    ensures Owners(Mounted(ms)) == Dedupe(Owners(AllContributions(ms)))
  {
    MountedOwners(ms);
    DedupeOfDistinct(Owners(Mounted(ms)));
  }

  // -- the registry --------------------------------------------------------------------------------

  class ApiModuleRegistry {
    var modules: seq<WebModule>
    var registeredOwners: set<string>
    var ignoredDuplicates: seq<string>
    ghost var added: seq<WebModule>

    ghost predicate Valid()
      reads this
    {
      && modules == Kept(added) && ignoredDuplicates == Ignored(added)
      && forall o :: o in registeredOwners <==> o in ModuleOwners(modules)
    }

    constructor ()
      ensures Valid() && added == []
    {
      modules, registeredOwners, ignoredDuplicates, added := [], {}, [], [];
    }

    /** First registration wins; later modules of the same owner are recorded and ignored. */
    method AddModule(m: WebModule)
      requires Valid()
      modifies this
      ensures Valid() && added == old(added) + [m]
    {
      KeptNext(added, m);
      ModuleOwnersNext(modules, m);
      added := added + [m];
      if m.owner in registeredOwners {
        ignoredDuplicates := ignoredDuplicates + [m.owner];
        return;
      }
      registeredOwners := registeredOwners + {m.owner};
      modules := modules + [m];
    }

    method AddModules(ms: seq<WebModule>)
      requires Valid()
      modifies this
      ensures Valid() && added == old(added) + ms
    {
      for i := 0 to |ms|
        invariant Valid() && added == old(added) + ms[..i]
      {
        AddModule(ms[i]);
        assert ms[..i + 1] == ms[..i] + [ms[i]];
      }
      assert ms[..|ms|] == ms;
    }

    /** Flattens the modules in registration order. */
    method Flatten() returns (contributions: seq<ApiContribution>)
      ensures contributions == Mounted(modules)
    {
      contributions := [];
      var mountedOwners: set<string> := {};
      assert modules[..0] == [];
      for i := 0 to |modules|
        invariant contributions == Mounted(modules[..i]) && mountedOwners == OwnerSet(contributions)
      {
        assert modules[..i + 1][..i] == modules[..i];
        var admitted;
        mountedOwners, admitted := MountModule(mountedOwners, modules[i]);
        OwnerSetConcat(contributions, admitted);
        contributions := contributions + admitted;
      }
      assert modules[..|modules|] == modules;
    }

    /**
     * `try_compose`. A module that introduces an owner twice always makes it fail; otherwise the
     * owners of the profile are the first occurrences over all modules.
     */
    method TryCompose(render: Value -> string, title: string) returns (r: Composed)
      requires Valid()
      ensures r.Success? <==> Composable(render, title, Mounted(modules))
      ensures r.Success? ==> r.profile.owners == Dedupe(Owners(AllContributions(modules)))
      ensures !AllFreshOnce(modules) ==> r.Refused?
    {
      var contributions := Flatten();
      r := Assembly.TryCompose(render, title, contributions);
      RepeatsExactly(modules);
      if r.Success? { OwnersAreFirst(modules); }
    }
  }

  /** A fresh registry, the modules added in order, and the profile composed. */
  method ComposeModules(render: Value -> string, title: string, ms: seq<WebModule>) returns (r: Composed)
    ensures r.Success? <==> Composable(render, title, Mounted(Kept(ms)))
    ensures r.Success? ==> r.profile.owners == Dedupe(Owners(AllContributions(Kept(ms))))
    ensures !AllFreshOnce(Kept(ms)) ==> r.Refused?
  {
    var registry := new ApiModuleRegistry();
    registry.AddModules(ms);
    assert registry.added == ms;
    r := registry.TryCompose(render, title);
  }
}
