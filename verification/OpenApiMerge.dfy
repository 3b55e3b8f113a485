/**
 * Combining OpenAPI documents (crates/sdkwork-web-contract/src/openapi_merge.rs).
 *
 * A document is read as the sequence of entries the merge functions would add to `MergeState`, in
 * the order they add them, with a `Bad` item where they reject its shape. The eight maps of
 * `MergeState` are one map keyed by location; a location's rule says what a second entry means.
 */
module OpenApiMerge {
  import opened Sorting
  import opened Text
  import opened Json

  const HTTP_METHODS: set<string> := {"delete", "get", "head", "options", "patch", "post", "put", "trace"}
  const PATH_ITEM_FIELDS: set<string> := {"$ref", "description", "parameters", "servers", "summary"}
  const COMPONENT_NAMESPACES: set<string> :=
    {"callbacks", "examples", "headers", "links", "parameters",
     "pathItems", "requestBodies", "responses", "schemas", "securitySchemes"}

  predicate IsExtension(field: string) {
    |field| >= 2 && field[0] == 'x' && field[1] == '-'
  }

  // -- locations and their rules -----------------------------------------------------------------

  /** Where an entry of the combined document lives; sections marked as seen have an entry too. */
  datatype Loc =
    | Info(name: string)
    | Path(path: string) | PathField(path: string, name: string) | Operation(path: string, name: string)
    | Components | Namespace(name: string) | ComponentExtension(name: string) | Component(space: string, name: string)
    | Tags | Tag(name: string)
    | Servers | Server(name: string)
    | Security | Requirement(name: string)
    | Webhooks | Webhook(name: string)
    | TopLevel(name: string)

  /** A second entry is refused, must equal the first, or is ignored. */
  datatype Rule = Exclusive | Compatible | FirstWins

  function RuleOf(loc: Loc): Rule {
    match loc
    case Operation(_, _) => Exclusive
    case PathField(_, _) => Compatible
    case ComponentExtension(_) => Compatible
    case Tag(_) => Compatible
    case Webhook(_) => Compatible
    case Info(name) => if name == "version" || name == "description" || IsExtension(name) then FirstWins else Compatible
    case TopLevel(name) => if IsExtension(name) then FirstWins else Compatible
    case _ => FirstWins
  }

  datatype ShapeError = EmptyOwner | InvalidShape(where: string)

  datatype MergeError =
    | EmptyCombinedTitle
    | NoDocuments
    | Rejected(shape: ShapeError)
    | VersionConflict
    | Conflict(at: Loc)

  datatype Item = Version(text: string) | Put(loc: Loc, value: Value) | Bad(shape: ShapeError)

  // -- OpenAPI versions --------------------------------------------------------------------------

  const U32_MAX: nat := 0xFFFF_FFFF

  datatype Parts = Parts(major: nat, minor: nat, patch: nat)

  /** `openapi_version_parts`: a missing or unreadable patch is zero, anything past it is ignored. */
  function VersionParts(version: string): Option<Parts> {
    var parts := Split(version, '.');
    if |parts| < 2 then None
    else
      var major, minor := ParseUpTo(parts[0], U32_MAX), ParseUpTo(parts[1], U32_MAX);
      if major.None? || minor.None? then None
      else
        var patch := if |parts| > 2 then ParseUpTo(parts[2], U32_MAX) else Some(0);
        Some(Parts(major.value, minor.value, if patch.Some? then patch.value else 0))
  }

  predicate SameMinorLine(a: string, b: string) {
    var p, q := VersionParts(a), VersionParts(b);
    p.Some? && q.Some? && p.value.major == q.value.major && p.value.minor == q.value.minor
  }

  function Rank(version: string): Parts {
    var p := VersionParts(version);
    if p.Some? then p.value else Parts(0, 0, 0)
  }

  predicate RankLeq(a: Parts, b: Parts) {
    a.major < b.major || (a.major == b.major && (a.minor < b.minor || (a.minor == b.minor && a.patch <= b.patch)))
  }

  predicate Agree(a: string, b: string) {
    a == b || SameMinorLine(a, b)
  }

  // -- one entry at a time -----------------------------------------------------------------------

  datatype State = State(version: Option<string>, entries: map<Loc, Value>)

  datatype Outcome = Merged(state: State) | Failed(error: MergeError)

  const EMPTY := State(None, map[])

  function Apply(s: State, item: Item): Outcome {
    match item
    case Bad(e) => Failed(Rejected(e))
    case Version(v) =>
      if s.version.None? then Merged(s.(version := Some(v)))
      else if s.version.value == v then Merged(s)
      else if !SameMinorLine(s.version.value, v) then Failed(VersionConflict)
      else if RankLeq(Rank(v), Rank(s.version.value)) then Merged(s)
      else Merged(s.(version := Some(v)))
    case Put(loc, value) =>
      if loc !in s.entries then Merged(s.(entries := s.entries[loc := value]))
      else if RuleOf(loc) == Exclusive || (RuleOf(loc) == Compatible && s.entries[loc] != value) then
        Failed(Conflict(loc))
      else Merged(s)
  }

  /** The fold of the merge: the first failing entry decides the error. */
  function Run(items: seq<Item>): Outcome {
    if items == [] then Merged(EMPTY)
    else
      var before := Run(items[..|items| - 1]);
      if before.Failed? then before else Apply(before.state, items[|items| - 1])
  }

  lemma RunLonger(items: seq<Item>, x: Item)
    ensures Run(items + [x]) == if Run(items).Failed? then Run(items) else Apply(Run(items).state, x)
  {
    assert (items + [x])[..|items|] == items;
  }

  lemma {:induction false} FailureStays(a: seq<Item>, b: seq<Item>)
    requires Run(a).Failed?
    ensures Run(a + b) == Run(a)
    decreases |b|
  {
    if b == [] {
      assert a + b == a;
    } else {
      var n := |b| - 1;
      FailureStays(a, b[..n]);
      RunLonger(a + b[..n], b[n]);
      assert a + b == a + b[..n] + [b[n]];
    }
  }

  // -- when a list of entries merges ---------------------------------------------------------------

  /** Every shape was accepted, versions agree pairwise, and entries at one location fit its rule. */
  ghost predicate Good(m: multiset<Item>) {
    && (forall x :: x in m ==> !x.Bad?)
    && (forall x, y :: x in m && y in m && x.Version? && y.Version? ==> Agree(x.text, y.text))
    && (forall x, y :: x in m && y in m && x.Put? && y.Put? && x.loc == y.loc && RuleOf(x.loc) != FirstWins ==>
      x.value == y.value)
    && (forall x :: x in m && x.Put? && RuleOf(x.loc) == Exclusive ==> m[x] == 1)
  }

  /** The new entry fits those already there. */
  ghost predicate Fits(m: multiset<Item>, x: Item) {
    match x
    case Bad(_) => false
    case Version(v) => forall y :: y in m && y.Version? ==> Agree(y.text, v)
    case Put(loc, value) =>
      && (RuleOf(loc) == Compatible ==> forall y :: y in m && y.Put? && y.loc == loc ==> y.value == value)
      && (RuleOf(loc) == Exclusive ==> forall y :: y in m && y.Put? ==> y.loc != loc)
  }

  lemma AgreeSymmetric(a: string, b: string)
    requires Agree(a, b)
    ensures Agree(b, a)
  {
  }

  lemma GoodFits(m: multiset<Item>, x: Item)
    requires Good(m + multiset{x})
    ensures Good(m) && Fits(m, x)
  {
    var n := m + multiset{x};
    assert x in n;
    assert forall y :: y in m ==> y in n;
    forall y | y in m && y.Put? && RuleOf(y.loc) == Exclusive ensures m[y] == 1 {
      assert n[y] == 1;
    }
    if x.Put? && RuleOf(x.loc) == Exclusive {
      forall y | y in m && y.Put? ensures y.loc != x.loc {
        assert n[x] == 1;
        assert y != x;
      }
    }
  }

  lemma FitsGood(m: multiset<Item>, x: Item)
    requires Good(m) && Fits(m, x)
    ensures Good(m + multiset{x})
  {
    var n := m + multiset{x};
    forall y, z | y in n && z in n && y.Version? && z.Version? ensures Agree(y.text, z.text) {
      if y == x && z != x { AgreeSymmetric(z.text, x.text); }
    }
    forall y | y in n && y.Put? && RuleOf(y.loc) == Exclusive ensures n[y] == 1 {
      if y != x { assert y in m; } else { assert x !in m; }
    }
  }

  /** The value of the first entry at a location. */
  function FirstAt(items: seq<Item>, loc: Loc): Option<Value> {
    if items == [] then None
    else
      var before := FirstAt(items[..|items| - 1], loc);
      var last := items[|items| - 1];
      if before.Some? then before else if last.Put? && last.loc == loc then Some(last.value) else None
  }

  lemma {:induction false} FirstAtIn(items: seq<Item>, loc: Loc)
    ensures FirstAt(items, loc).Some? ==> Put(loc, FirstAt(items, loc).value) in items
    ensures FirstAt(items, loc).None? ==> forall x :: x in items && x.Put? ==> x.loc != loc
    decreases |items|
  {
    if items != [] {
      var n := |items| - 1;
      FirstAtIn(items[..n], loc);
      assert items == items[..n] + [items[n]];
    }
  }

  /** What the state knows about the entries merged so far. */
  ghost predicate Reflects(s: State, items: seq<Item>) {
    && (forall loc :: loc in s.entries <==> FirstAt(items, loc).Some?)
    && (forall loc :: loc in s.entries ==> s.entries[loc] == FirstAt(items, loc).value)
    && (s.version.None? ==> forall x :: x in items ==> !x.Version?)
    && (s.version.Some? ==> Version(s.version.value) in items && Highest(items, s.version.value))
  }

  ghost predicate Highest(items: seq<Item>, v: string) {
    forall x :: x in items && x.Version? ==> Agree(x.text, v) && RankLeq(Rank(x.text), Rank(v))
  }

  lemma AgreeTransitive(a: string, b: string, c: string)
    requires Agree(a, b) && Agree(b, c)
    ensures Agree(a, c)
  {
  }

  lemma VersionStep(s: State, items: seq<Item>, v: string)
    requires Reflects(s, items)
    ensures Apply(s, Version(v)).Merged? <==> Fits(multiset(items), Version(v))
    ensures Apply(s, Version(v)).Merged? ==>
      && Version(Apply(s, Version(v)).state.version.value) in items + [Version(v)]
      && Highest(items + [Version(v)], Apply(s, Version(v)).state.version.value)
  {
    if s.version.Some? {
      var c := s.version.value;
      assert Version(c) in multiset(items);
      forall x | x in items && x.Version? ensures Agree(c, v) ==> Agree(x.text, v) {
        if Agree(c, v) { AgreeTransitive(x.text, c, v); }
      }
      if Agree(c, v) { AgreeSymmetric(c, v); }
    }
  }

  lemma PutStep(s: State, items: seq<Item>, loc: Loc, value: Value)
    requires Reflects(s, items) && Good(multiset(items))
    ensures Apply(s, Put(loc, value)).Merged? <==> Fits(multiset(items), Put(loc, value))
  {
    FirstAtIn(items, loc);
    if loc in s.entries {
      assert Put(loc, s.entries[loc]) in multiset(items);
    }
  }

  lemma FirstAtLonger(items: seq<Item>, x: Item, loc: Loc)
    ensures FirstAt(items + [x], loc) ==
      if FirstAt(items, loc).Some? then FirstAt(items, loc) else if x.Put? && x.loc == loc then Some(x.value) else None
  {
    assert (items + [x])[..|items|] == items;
  }

  lemma StepReflects(s: State, items: seq<Item>, x: Item)
    requires Reflects(s, items) && Good(multiset(items))
    ensures Apply(s, x).Merged? <==> Fits(multiset(items), x)
    ensures Apply(s, x).Merged? ==> Reflects(Apply(s, x).state, items + [x])
  {
    forall loc { FirstAtLonger(items, x, loc); }
    match x
    case Bad(_) =>
    case Version(v) => VersionStep(s, items, v);
    case Put(loc, value) => PutStep(s, items, loc, value);
  }

  /**
   * The merge succeeds exactly on good lists, and then holds the first entry of every location and a
   * highest version.
   */
  lemma {:induction false} RunExactly(items: seq<Item>)
    ensures Run(items).Merged? <==> Good(multiset(items))
    ensures Run(items).Merged? ==> Reflects(Run(items).state, items)
    decreases |items|
  {
    if items != [] {
      var n := |items| - 1;
      var before, x := items[..n], items[n];
      assert items == before + [x];
      RunExactly(before);
      assert multiset(items) == multiset(before) + multiset{x};
      if Good(multiset(items)) { GoodFits(multiset(before), x); }
      if Run(before).Merged? {
        StepReflects(Run(before).state, before, x);
        if Fits(multiset(before), x) { FitsGood(multiset(before), x); }
      }
    }
  }

  lemma RankAntisymmetric(a: Parts, b: Parts)
    requires RankLeq(a, b) && RankLeq(b, a)
    ensures a == b
  {
  }

  /** What two orders of the same entries agree on. */
  ghost predicate SameUpToFirstWins(s: State, t: State) {
    && s.entries.Keys == t.entries.Keys
    && (forall loc :: loc in s.entries && RuleOf(loc) != FirstWins ==> s.entries[loc] == t.entries[loc])
    && (s.version.None? <==> t.version.None?)
    && (s.version.Some? ==> Rank(s.version.value) == Rank(t.version.value))
  }

  lemma ReflectsSame(s: State, t: State, a: seq<Item>, b: seq<Item>)
    requires multiset(a) == multiset(b) && Good(multiset(a)) && Reflects(s, a) && Reflects(t, b)
    ensures SameUpToFirstWins(s, t)
  {
    forall x ensures x in a <==> x in b { assert x in multiset(a) <==> x in multiset(b); }
    forall loc ensures loc in s.entries <==> loc in t.entries {
      FirstAtIn(a, loc);
      FirstAtIn(b, loc);
    }
    forall loc | loc in s.entries && RuleOf(loc) != FirstWins ensures s.entries[loc] == t.entries[loc] {
      FirstAtIn(a, loc);
      FirstAtIn(b, loc);
      assert Put(loc, s.entries[loc]) in multiset(a) && Put(loc, t.entries[loc]) in multiset(a);
    }
    if s.version.Some? && t.version.Some? { RankAntisymmetric(Rank(s.version.value), Rank(t.version.value)); }
  }

  /** The order of the entries decides neither success nor anything but first-wins values. */
  lemma RunOrderIndependent(a: seq<Item>, b: seq<Item>)
    requires multiset(a) == multiset(b)
    ensures Run(a).Merged? <==> Run(b).Merged?
    ensures Run(a).Merged? ==> SameUpToFirstWins(Run(a).state, Run(b).state)
  {
    RunExactly(a);
    RunExactly(b);
    if Run(a).Merged? { ReflectsSame(Run(a).state, Run(b).state, a, b); }
  }
}
