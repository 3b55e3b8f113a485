/**
 * Cache keys of authorization-scope subjects (crates/sdkwork-web-core/src/authz_scope.rs): eight
 * fields joined by `|`, with `-` for an absent optional, and the prefixes used to invalidate them.
 */
module ScopeKeys {
  import opened Sorting
  import opened Text

  datatype Environment = Dev | Test | Prod
  datatype DeploymentMode = Saas | Private | Local
  datatype Surface = OpenApi | AppApi | BackendApi | InternalApi | GatewayApi | Unknown

  datatype Subject = Subject(
    tenant: string,
    organization: Option<string>,
    user: string,
    app: string,
    session: Option<string>,
    environment: Environment,
    mode: DeploymentMode,
    surface: Surface)

  function EnvironmentName(e: Environment): string {
    match e case Dev => "Dev" case Test => "Test" case Prod => "Prod"
  }

  function ModeName(m: DeploymentMode): string {
    match m case Saas => "Saas" case Private => "Private" case Local => "Local"
  }

  function SurfaceName(s: Surface): string {
    match s
    case OpenApi => "OpenApi"
    case AppApi => "AppApi"
    case BackendApi => "BackendApi"
    case InternalApi => "InternalApi"
    case GatewayApi => "GatewayApi"
    case Unknown => "Unknown"
  }

  function OrDash(o: Option<string>): string {
    if o.Some? then o.value else "-"
  }

  function Fields(s: Subject): seq<string> {
    [s.tenant, OrDash(s.organization), s.user, s.app, OrDash(s.session),
     EnvironmentName(s.environment), ModeName(s.mode), SurfaceName(s.surface)]
  }

  function Join(fields: seq<string>): string
    requires fields != []
  {
    if |fields| == 1 then fields[0] else fields[0] + "|" + Join(fields[1..])
  }

  /** `cache_key`. */
  function CacheKey(s: Subject): string {
    Join(Fields(s))
  }

  /** Every field followed by `|`: the shape of the invalidation prefixes. */
  function Prefix(fields: seq<string>): string {
    if fields == [] then "" else fields[0] + "|" + Prefix(fields[1..])
  }

  function TenantPrefix(tenant: string): string {
    Prefix([tenant])
  }

  /** `subject_prefix`: tenant, organization and user. */
  function UserPrefix(s: Subject): string {
    Prefix(Fields(s)[..3])
  }

  // -- where the bars are ----------------------------------------------------------------------

  ghost predicate BarFree(s: string) {
    '|' !in s
  }

  ghost predicate AllBarFree(fields: seq<string>) {
    forall i :: 0 <= i < |fields| ==> BarFree(fields[i])
  }

  /** A field up to its first bar decides where the next field begins. */
  lemma FirstBar(a: string, x: string, b: string, y: string)
    requires a + "|" + x == b + "|" + y && BarFree(a) && BarFree(b)
    ensures a == b && x == y
  {
    var whole := a + "|" + x;
    assert whole[|a|] == '|' && whole[|b|] == '|';
    assert forall i :: 0 <= i < |a| ==> whole[i] == a[i];
    assert forall i :: 0 <= i < |b| ==> whole[i] == b[i];
    assert |a| == |b|;
    assert a == whole[..|a|] && b == whole[..|b|];
    assert x == whole[|a| + 1..] && y == whole[|b| + 1..];
  }

  /** The number of bars. */
  function Bars(s: string): nat {
    if s == "" then 0 else (if s[0] == '|' then 1 else 0) + Bars(s[1..])
  }

  lemma {:induction false} BarsJoin(a: string, b: string)
    ensures Bars(a + b) == Bars(a) + Bars(b)
    decreases |a|
  {
    if a == "" {
      assert a + b == b;
    } else {
      assert (a + b)[1..] == a[1..] + b;
      BarsJoin(a[1..], b);
    }
  }

  lemma {:induction false} NoBars(s: string)
    ensures Bars(s) == 0 <==> BarFree(s)
    decreases |s|
  {
    if s != "" {
      NoBars(s[1..]);
      assert s == [s[0]] + s[1..];
    }
  }

  /** A key has one bar between fields, and exactly the bars of its fields besides. */
  lemma {:induction false} BarsInKey(fields: seq<string>)
    requires fields != []
    ensures Bars(Join(fields)) >= |fields| - 1
    ensures Bars(Join(fields)) == |fields| - 1 <==> AllBarFree(fields)
    decreases |fields|
  {
    NoBars(fields[0]);
    if |fields| > 1 {
      BarsInKey(fields[1..]);
      BarsJoin(fields[0] + "|", Join(fields[1..]));
      BarsJoin(fields[0], "|");
      AllTail(fields);
    }
  }

  lemma AllTail(fields: seq<string>)
    requires fields != []
    ensures AllBarFree(fields) <==> BarFree(fields[0]) && AllBarFree(fields[1..])
  {
    assert fields == [fields[0]] + fields[1..];
    if BarFree(fields[0]) && AllBarFree(fields[1..]) {
      forall i | 0 <= i < |fields| ensures BarFree(fields[i]) {
        if i > 0 { assert fields[i] == fields[1..][i - 1]; }
      }
    }
  }

  lemma {:induction false} JoinSplits(a: seq<string>, b: seq<string>)
    requires |a| == |b| > 0 && AllBarFree(a) && AllBarFree(b) && Join(a) == Join(b)
    ensures a == b
    decreases |a|
  {
    AllTail(a);
    AllTail(b);
    if |a| > 1 {
      FirstBar(a[0], Join(a[1..]), b[0], Join(b[1..]));
      JoinSplits(a[1..], b[1..]);
    }
    assert a == [a[0]] + a[1..] && b == [b[0]] + b[1..];
  }

  /** Bar-free fields are recovered from the key, even against fields that contain bars. */
  lemma JoinInjective(a: seq<string>, b: seq<string>)
    requires |a| == |b| > 0 && AllBarFree(a) && Join(a) == Join(b)
    ensures a == b
  {
    BarsInKey(a);
    BarsInKey(b);
    JoinSplits(a, b);
  }

  // -- keys of subjects ------------------------------------------------------------------------

  /** No optional field is the literal dash, which stands for "absent" in a key. */
  predicate Plain(s: Subject) {
    s.organization != Some("-") && s.session != Some("-")
  }

  ghost predicate Separable(s: Subject) {
    AllBarFree(Fields(s))
  }

  lemma FieldsDetermine(s: Subject, t: Subject)
    requires Plain(s) && Plain(t) && Fields(s) == Fields(t)
    ensures s == t
  {
    var a, b := Fields(s), Fields(t);
    assert a[0] == b[0] && a[1] == b[1] && a[2] == b[2] && a[3] == b[3] && a[4] == b[4];
    assert a[5] == b[5] && a[6] == b[6] && a[7] == b[7];
    NamesDiffer(s, t);
  }

  lemma NamesDiffer(s: Subject, t: Subject)
    ensures EnvironmentName(s.environment) == EnvironmentName(t.environment) ==> s.environment == t.environment
    ensures ModeName(s.mode) == ModeName(t.mode) ==> s.mode == t.mode
    ensures SurfaceName(s.surface) == SurfaceName(t.surface) ==> s.surface == t.surface
  {
    var a, b := SurfaceName(s.surface), SurfaceName(t.surface);
    assert a == b ==> a[0] == b[0];
    var c, d := ModeName(s.mode), ModeName(t.mode);
    assert c == d ==> c[0] == d[0];
    var e, f := EnvironmentName(s.environment), EnvironmentName(t.environment);
    assert e == f ==> e[0] == f[0];
  }

  ghost predicate KeyIsOwn(s: Subject) {
    forall t :: Plain(t) && CacheKey(t) == CacheKey(s) ==> t == s
  }

  function Optional(field: string): Option<string> {
    if field == "-" then None else Some(field)
  }

  /** A subject with the first five fields replaced. */
  function With(s: Subject, f: seq<string>): Subject
    requires |f| == 5
  {
    s.(tenant := f[0], organization := Optional(f[1]), user := f[2], app := f[3], session := Optional(f[4]))
  }

  function Tail(s: Subject): string {
    Join([EnvironmentName(s.environment), ModeName(s.mode), SurfaceName(s.surface)])
  }

  lemma {:induction false} JoinPrefix(a: seq<string>, b: seq<string>)
    requires b != []
    ensures Join(a + b) == Prefix(a) + Join(b)
    decreases |a|
  {
    if a == [] {
      assert a + b == b;
    } else {
      assert (a + b)[1..] == a[1..] + b;
      JoinPrefix(a[1..], b);
      assert a[0] + "|" + (Prefix(a[1..]) + Join(b)) == a[0] + "|" + Prefix(a[1..]) + Join(b);
    }
  }

  lemma KeyParts(s: Subject)
    ensures CacheKey(s) == Prefix(Fields(s)[..5]) + Tail(s)
  {
    var tail := [EnvironmentName(s.environment), ModeName(s.mode), SurfaceName(s.surface)];
    JoinPrefix(Fields(s)[..5], tail);
    assert Fields(s) == Fields(s)[..5] + tail;
  }

  /** Moving one bar from inside a field to between two fields changes nothing. */
  lemma {:induction false} ShiftBar(f: seq<string>, i: nat, x: string, y: string)
    requires i + 1 < |f|
    ensures Prefix(f[i := x + "|" + y]) == Prefix(f[i := x][i + 1 := y + "|" + f[i + 1]])
    decreases |f|
  {
    var a, b := f[i := x + "|" + y], f[i := x][i + 1 := y + "|" + f[i + 1]];
    if i > 0 {
      assert a[1..] == f[1..][i - 1 := x + "|" + y];
      assert b[1..] == f[1..][i - 1 := x][i := y + "|" + f[1..][i]];
      ShiftBar(f[1..], i - 1, x, y);
    } else {
      var rest := Prefix(f[2..]);
      assert a[1..][1..] == f[2..] && b[1..][1..] == f[2..];
      assert Prefix(a) == x + "|" + y + "|" + (f[1] + "|" + rest);
      assert Prefix(b) == x + "|" + (y + "|" + f[1] + "|" + rest);
    }
  }

  lemma WithKey(s: Subject, f: seq<string>)
    requires |f| == 5
    ensures Plain(With(s, f)) && Fields(With(s, f))[..5] == f && CacheKey(With(s, f)) == Prefix(f) + Tail(s)
  {
    var t := With(s, f);
    WithFields(s, f);
    KeyParts(t);
    assert Tail(t) == Tail(s);
  }

  lemma WithFields(s: Subject, f: seq<string>)
    requires |f| == 5
    ensures Fields(With(s, f))[..5] == f
  {
    var t := With(s, f);
    assert OrDash(Optional(f[1])) == f[1] && OrDash(Optional(f[4])) == f[4];
    assert Fields(t)[..5] == [f[0], f[1], f[2], f[3], f[4]];
  }

  /** A bar inside a field: another subject has the same key. */
  lemma BarCollides(s: Subject, i: nat, x: string, y: string) returns (t: Subject)
    requires i < 5 && Fields(s)[i] == x + "|" + y
    ensures Plain(t) && CacheKey(t) == CacheKey(s) && Fields(t)[..5] != Fields(s)[..5]
  {
    var f := Fields(s)[..5];
    KeyParts(s);
    if i < 4 {
      var g := f[i := x][i + 1 := y + "|" + f[i + 1]];
      t := With(s, g);
      WithKey(s, g);
      ShiftBar(f, i, x, y);
      assert f[i := x + "|" + y] == f;
      assert |g[i]| < |f[i]|;
    } else {
      var h := f[4 := y];
      var g := h[3 := f[3] + "|" + x];
      t := With(s, g);
      WithKey(s, g);
      ShiftBar(h, 3, f[3], x);
      assert h[3 := f[3]][4 := x + "|" + h[4]] == f;
      assert |g[3]| > |f[3]|;
    }
  }

  lemma BarWithin(field: string) returns (x: string, y: string)
    requires !BarFree(field)
    ensures field == x + "|" + y
  {
    var i :| 0 <= i < |field| && field[i] == '|';
    x, y := field[..i], field[i + 1..];
  }

  lemma NamesBarFree(s: Subject)
    ensures BarFree(EnvironmentName(s.environment)) && BarFree(ModeName(s.mode)) && BarFree(SurfaceName(s.surface))
  {
  }

  /** Exactly the subjects without a bar in any field have a key of their own. */
  lemma KeyIsOwnExactly(s: Subject)
    requires Plain(s)
    ensures KeyIsOwn(s) <==> Separable(s)
  {
    if Separable(s) {
      forall t | Plain(t) && CacheKey(t) == CacheKey(s) ensures t == s {
        JoinInjective(Fields(s), Fields(t));
        FieldsDetermine(s, t);
      }
    } else {
      var i :| 0 <= i < 8 && !BarFree(Fields(s)[i]);
      NamesBarFree(s);
      var x, y := BarWithin(Fields(s)[i]);
      var t := BarCollides(s, i, x, y);
    }
  }

  /** No optional field shows as the dash, whether absent or spelled out. */
  predicate Dashless(s: Subject) {
    OrDash(s.organization) != "-" && OrDash(s.session) != "-"
  }

  /** An absent optional and the literal dash share a key. */
  lemma DashCollides(s: Subject) returns (t: Subject)
    requires !Dashless(s)
    ensures t != s && CacheKey(t) == CacheKey(s)
  {
    if OrDash(s.organization) == "-" {
      t := s.(organization := if s.organization.None? then Some("-") else None);
    } else {
      t := s.(session := if s.session.None? then Some("-") else None);
    }
    assert Fields(t) == Fields(s);
  }

  /**
   * Among all subjects, exactly those without a bar in a field and without a dash for an optional are
   * alone on their key.
   */
  lemma KeyIsAloneExactly(s: Subject)
    ensures (forall t :: CacheKey(t) == CacheKey(s) ==> t == s) <==> Separable(s) && Dashless(s)
  {
    if !Dashless(s) {
      var t := DashCollides(s);
    } else {
      KeyIsOwnExactly(s);
      if Separable(s) {
        forall t | CacheKey(t) == CacheKey(s) ensures t == s {
          JoinInjective(Fields(s), Fields(t));
          assert OrDash(t.organization) == Fields(s)[1] && OrDash(t.session) == Fields(s)[4];
        }
      }
    }
  }

  // -- what a prefix selects -------------------------------------------------------------------

  lemma {:induction false} PrefixSelects(f: seq<string>, p: seq<string>)
    requires |p| < |f| && AllBarFree(f[..|p|]) && AllBarFree(p)
    ensures StartsWith(Join(f), Prefix(p)) <==> f[..|p|] == p
    decreases |p|
  {
    if p != [] {
      AllTail(f[..|p|]);
      AllTail(p);
      assert f[..|p|][1..] == f[1..][..|p| - 1];
      PrefixSelects(f[1..], p[1..]);
      var rest, whole := Prefix(p[1..]), Join(f);
      if StartsWith(whole, Prefix(p)) {
        FirstBar(f[0], Join(f[1..]), p[0], whole[|p[0]| + 1..]);
        assert StartsWith(Join(f[1..]), rest);
      }
      if f[0] == p[0] && StartsWith(Join(f[1..]), rest) { PrependPrefix(f[0] + "|", Join(f[1..]), rest); }
      assert f[..|p|] == [f[0]] + f[1..][..|p| - 1] && p == [p[0]] + p[1..];
    } else {
      assert f[..0] == p;
    }
  }

  lemma PrependPrefix(a: string, s: string, p: string)
    requires StartsWith(s, p)
    ensures StartsWith(a + s, a + p)
  {
    assert s == p + s[|p|..];
    assert a + s == (a + p) + s[|p|..];
  }

  lemma AllSub(f: seq<string>, n: nat)
    requires n <= |f| && AllBarFree(f)
    ensures AllBarFree(f[..n])
  {
  }

  /** The tenant, or one whose id continues it behind a bar. */
  predicate TenantCovers(tenant: string, id: string) {
    id == tenant || StartsWith(id, tenant + "|")
  }

  lemma FieldStart(field: string, rest: string, x: string)
    requires BarFree(x)
    ensures StartsWith(field + "|" + rest, x + "|") <==> TenantCovers(x, field)
  {
    var whole, n := field + "|" + rest, |x|;
    assert whole[|field|] == '|';
    if StartsWith(whole, x + "|") {
      assert whole[..n + 1] == x + "|" && whole[n] == '|';
      assert forall i :: 0 <= i < n ==> whole[i] == x[i];
      assert n <= |field|;
      assert field[..n] == whole[..n] == x;
      if n < |field| { assert field[..n + 1] == whole[..n + 1]; }
    }
    if field == x { assert whole[..n + 1] == x + "|"; }
    if StartsWith(field, x + "|") { assert whole[..n + 1] == field[..n + 1]; }
  }

  /** What `invalidate_tenant` selects, for every subject. */
  lemma TenantSelects(t: Subject, tenant: string)
    requires BarFree(tenant)
    ensures StartsWith(CacheKey(t), TenantPrefix(tenant)) <==> TenantCovers(tenant, t.tenant)
    ensures BarFree(t.tenant) ==> (StartsWith(CacheKey(t), TenantPrefix(tenant)) <==> t.tenant == tenant)
  {
    var f := Fields(t);
    assert CacheKey(t) == t.tenant + "|" + Join(f[1..]);
    assert [tenant][1..] == [] && Prefix([tenant]) == tenant + "|" + "";
    assert tenant + "|" + "" == tenant + "|";
    FieldStart(t.tenant, Join(f[1..]), tenant);
    if StartsWith(t.tenant, tenant + "|") { assert t.tenant[|tenant|] == '|'; }
  }

  /** A tenant whose id contains a bar loses its entries when another tenant is invalidated. */
  lemma BarTenantIsSwept(s: Subject, tenant: string, rest: string)
    requires s.tenant == tenant + "|" + rest && BarFree(tenant)
    ensures StartsWith(CacheKey(s), TenantPrefix(tenant)) && s.tenant != tenant
  {
    TenantSelects(s, tenant);
    assert s.tenant[..|tenant| + 1] == tenant + "|";
    assert |s.tenant| > |tenant|;
  }

  // -- keys as bar-separated pieces --------------------------------------------------------------

  /** The pieces between the bars of every field in turn. */
  function Pieces(fields: seq<string>): seq<string> {
    if fields == [] then [] else Text.Split(fields[0], '|') + Pieces(fields[1..])
  }

  lemma {:induction false} SplitConcat(a: string, b: string)
    ensures Text.Split(a + "|" + b, '|') == Text.Split(a, '|') + Text.Split(b, '|')
    decreases |a|
  {
    var whole := a + "|" + b;
    if a == "" {
      assert whole[1..] == b;
    } else {
      assert whole[0] == a[0] && whole[1..] == a[1..] + "|" + b;
      SplitConcat(a[1..], b);
    }
  }

  lemma {:induction false} SplitJoin(fields: seq<string>)
    requires fields != []
    ensures Text.Split(Join(fields), '|') == Pieces(fields)
    decreases |fields|
  {
    if |fields| == 1 {
      assert fields[1..] == [];
    } else {
      SplitConcat(fields[0], Join(fields[1..]));
      SplitJoin(fields[1..]);
    }
  }

  /** Some pieces come first, and more follow. */
  ghost predicate Leads(first: seq<string>, all: seq<string>) {
    |first| < |all| && all[..|first|] == first
  }

  /** A string starts with another up to and including a bar exactly when its pieces start with the other's. */
  lemma {:induction false} BarPrefix(x: string, y: string)
    ensures StartsWith(x, y + "|") <==> Leads(Text.Split(y, '|'), Text.Split(x, '|'))
    decreases |y|
  {
    var px, py := Text.Split(x, '|'), Text.Split(y, '|');
    if x != "" {
      var rx := Text.Split(x[1..], '|');
      assert x == [x[0]] + x[1..];
      if y == "" {
        assert (y + "|")[0] == '|';
        if x[0] == '|' { assert px[0] == "" && px[..1] == py; } else { assert px[0] != ""; }
      } else {
        var ry := Text.Split(y[1..], '|');
        assert y + "|" == [y[0]] + (y[1..] + "|");
        BarPrefix(x[1..], y[1..]);
        HeadPrefix(x[0], x[1..], y[0], y[1..] + "|");
        if x[0] == '|' && y[0] == '|' { LeadsCons("", ry, rx); }
        if x[0] == y[0] != '|' { LeadsGrow(x[0], ry, rx); }
        if x[0] != y[0] { HeadsDiffer(x, y); }
      }
    }
  }

  lemma HeadPrefix(a: char, s: string, b: char, p: string)
    ensures StartsWith([a] + s, [b] + p) <==> a == b && StartsWith(s, p)
  {
    if a == b && StartsWith(s, p) { PrependPrefix([a], s, p); }
    if StartsWith([a] + s, [b] + p) {
      assert ([a] + s)[0] == ([b] + p)[0];
      assert forall i :: 0 <= i < |p| ==> s[i] == ([a] + s)[i + 1] == ([b] + p)[i + 1] == p[i];
      assert s[..|p|] == p;
    }
  }

  lemma LeadsCons(h: string, a: seq<string>, b: seq<string>)
    ensures Leads([h] + a, [h] + b) <==> Leads(a, b)
  {
    if |a| < |b| {
      assert ([h] + b)[..|a| + 1] == [h] + b[..|a|];
      assert ([h] + a)[1..] == a && ([h] + b[..|a|])[1..] == b[..|a|];
    }
  }

  lemma LeadsGrow(c: char, a: seq<string>, b: seq<string>)
    requires a != [] && b != []
    ensures Leads([[c] + a[0]] + a[1..], [[c] + b[0]] + b[1..]) <==> Leads(a, b)
  {
    var x, y := [[c] + a[0]] + a[1..], [[c] + b[0]] + b[1..];
    assert ([c] + a[0])[1..] == a[0] && ([c] + b[0])[1..] == b[0];
    if |a| < |b| {
      assert y[..|a|] == [[c] + b[0]] + b[..|a|][1..];
      assert b[..|a|] == [b[0]] + b[..|a|][1..] && a == [a[0]] + a[1..];
      if y[..|a|] == x { assert y[..|a|][0] == x[0] && y[..|a|][1..] == x[1..]; }
    }
  }

  lemma HeadsDiffer(x: string, y: string)
    requires x != "" && y != "" && x[0] != y[0]
    ensures !Leads(Text.Split(y, '|'), Text.Split(x, '|'))
  {
    var px, py := Text.Split(x, '|'), Text.Split(y, '|');
    assert x[0] == '|' ==> px[0] == "";
    assert y[0] == '|' ==> py[0] == "";
    assert x[0] != '|' ==> px[0] != "" && px[0][0] == x[0];
    assert y[0] != '|' ==> py[0] != "" && py[0][0] == y[0];
  }

  lemma {:induction false} PrefixIsJoin(p: seq<string>)
    requires p != []
    ensures Prefix(p) == Join(p) + "|"
    decreases |p|
  {
    if |p| == 1 {
      assert p[1..] == [] && Prefix(p) == p[0] + "|" + "";
    } else {
      PrefixIsJoin(p[1..]);
      assert p[0] + "|" + (Join(p[1..]) + "|") == p[0] + "|" + Join(p[1..]) + "|";
    }
  }

  /**
   * What `invalidate_user` selects, for every pair of subjects, bars or not: the keys whose pieces
   * begin with the pieces of the tenant, organization and user.
   */
  lemma UserSelectsExactly(t: Subject, s: Subject)
    ensures StartsWith(CacheKey(t), UserPrefix(s)) <==> Leads(Pieces(Fields(s)[..3]), Pieces(Fields(t)))
  {
    PrefixIsJoin(Fields(s)[..3]);
    BarPrefix(CacheKey(t), Join(Fields(s)[..3]));
    SplitJoin(Fields(t));
    SplitJoin(Fields(s)[..3]);
  }

  predicate SameUser(t: Subject, s: Subject) {
    t.tenant == s.tenant && t.organization == s.organization && t.user == s.user
  }

  /** The fields a user invalidation looks at have no bar, and the organization is not the literal dash. */
  ghost predicate UserSeparable(s: Subject) {
    AllBarFree(Fields(s)[..3]) && s.organization != Some("-")
  }

  /** What `invalidate_tenant` selects, for a tenant id with bars, too. */
  lemma TenantSelectsExactly(t: Subject, tenant: string)
    ensures StartsWith(CacheKey(t), TenantPrefix(tenant)) <==> Leads(Pieces([tenant]), Pieces(Fields(t)))
  {
    PrefixIsJoin([tenant]);
    assert Prefix([tenant]) == TenantPrefix(tenant) by { assert [tenant][1..] == []; }
    BarPrefix(CacheKey(t), Join([tenant]));
    SplitJoin(Fields(t));
    SplitJoin([tenant]);
  }

  /** `invalidate_user` selects the keys of the same tenant, organization and user. */
  lemma UserSelects(t: Subject, s: Subject)
    requires UserSeparable(t) && UserSeparable(s)
    ensures StartsWith(CacheKey(t), UserPrefix(s)) <==> SameUser(t, s)
  {
    var p, q := Fields(t)[..3], Fields(s)[..3];
    PrefixSelects(Fields(t), q);
    assert p == [t.tenant, OrDash(t.organization), t.user] && q == [s.tenant, OrDash(s.organization), s.user];
    if p == q { assert p[0] == q[0] && p[1] == q[1] && p[2] == q[2]; }
  }

  lemma NamePrefixes(a: Surface, b: Surface)
    ensures StartsWith(SurfaceName(a), SurfaceName(b)) ==> a == b
  {
    assert StartsWith(SurfaceName(a), SurfaceName(b)) ==> SurfaceName(a)[0] == SurfaceName(b)[0];
  }

  lemma KeySurface(s: Subject)
    ensures CacheKey(s) == Prefix(Fields(s)[..7]) + SurfaceName(s.surface)
  {
    JoinPrefix(Fields(s)[..7], [SurfaceName(s.surface)]);
    assert Fields(s) == Fields(s)[..7] + [SurfaceName(s.surface)];
  }

  /** All pieces but the last come first, and the next one starts with the last. */
  ghost predicate Begins(first: seq<string>, all: seq<string>) {
    && 0 < |first| <= |all|
    && all[..|first| - 1] == first[..|first| - 1]
    && StartsWith(all[|first| - 1], first[|first| - 1])
  }

  lemma BeginsCons(h: string, a: seq<string>, b: seq<string>)
    requires a != []
    ensures Begins([h] + a, [h] + b) <==> Begins(a, b)
  {
    var x, y := [h] + a, [h] + b;
    if |a| <= |b| {
      var n := |a| - 1;
      assert x[..n + 1] == [h] + a[..n] && y[..n + 1] == [h] + b[..n];
      assert x[..n + 1][1..] == a[..n] && y[..n + 1][1..] == b[..n];
    }
  }

  lemma BeginsGrow(c: char, a: seq<string>, b: seq<string>)
    requires a != [] && b != []
    ensures Begins([[c] + a[0]] + a[1..], [[c] + b[0]] + b[1..]) <==> Begins(a, b)
  {
    var x, y := [[c] + a[0]] + a[1..], [[c] + b[0]] + b[1..];
    HeadPrefix(c, b[0], c, a[0]);
    assert ([c] + a[0])[1..] == a[0] && ([c] + b[0])[1..] == b[0];
    if 1 < |a| <= |b| {
      var n := |a| - 1;
      assert x[..n] == [[c] + a[0]] + a[..n][1..] && a[..n] == [a[0]] + a[..n][1..];
      assert y[..n] == [[c] + b[0]] + b[..n][1..] && b[..n] == [b[0]] + b[..n][1..];
      if x[..n] == y[..n] { assert x[..n][0] == y[..n][0] && x[..n][1..] == y[..n][1..]; }
    }
  }

  lemma HeadsDisagree(x: string, y: string)
    requires x != "" && y != "" && x[0] != y[0]
    ensures !Begins(Text.Split(y, '|'), Text.Split(x, '|'))
  {
    var px, py := Text.Split(x, '|'), Text.Split(y, '|');
    assert x[0] == '|' ==> px[0] == "";
    assert y[0] == '|' ==> py[0] == "" && |py| > 1;
    assert x[0] != '|' ==> px[0] != "" && px[0][0] == x[0];
    assert y[0] != '|' ==> py[0] != "" && py[0][0] == y[0];
    if |py| > 1 && |px| >= |py| { assert px[..|py| - 1][0] == px[0] && py[..|py| - 1][0] == py[0]; }
  }

  /** A string starts with another exactly when its pieces begin with the other's, the last one perhaps cut short. */
  lemma {:induction false} PiecePrefix(x: string, y: string)
    ensures StartsWith(x, y) <==> Begins(Text.Split(y, '|'), Text.Split(x, '|'))
    decreases |y|
  {
    var px, py := Text.Split(x, '|'), Text.Split(y, '|');
    if y == "" {
      assert py == [""] && px != [];
    } else if x == "" {
      assert px == [""];
      assert y[0] != '|' ==> py[0] != "";
    } else {
      var rx, ry := Text.Split(x[1..], '|'), Text.Split(y[1..], '|');
      assert x == [x[0]] + x[1..] && y == [y[0]] + y[1..];
      PiecePrefix(x[1..], y[1..]);
      HeadPrefix(x[0], x[1..], y[0], y[1..]);
      if x[0] != y[0] { HeadsDisagree(x, y); }
      else if x[0] == '|' { BeginsCons("", ry, rx); }
      else { BeginsGrow(x[0], ry, rx); }
    }
  }

  /** What `invalidate_subject` selects, for every pair of subjects: the key is used as a prefix. */
  lemma SubjectSelectsExactly(t: Subject, s: Subject)
    ensures StartsWith(CacheKey(t), CacheKey(s)) <==> Begins(Pieces(Fields(s)), Pieces(Fields(t)))
  {
    PiecePrefix(CacheKey(t), CacheKey(s));
    SplitJoin(Fields(t));
    SplitJoin(Fields(s));
  }

  /** Every invalidated subject takes somebody else along: a tenant whose id continues its key. */
  lemma SubjectSweeps(s: Subject) returns (t: Subject)
    ensures t != s && StartsWith(CacheKey(t), CacheKey(s))
  {
    t := s.(tenant := CacheKey(s));
    assert CacheKey(s) == s.tenant + "|" + Join(Fields(s)[1..]);
    assert CacheKey(t) == CacheKey(s) + "|" + Join(Fields(t)[1..]);
    assert |t.tenant| > |s.tenant|;
  }

  lemma PrefixBars(x: string, y: string)
    requires StartsWith(x, y)
    ensures Bars(y) <= Bars(x)
  {
    assert x == y + x[|y|..];
    BarsJoin(y, x[|y|..]);
  }

  /** A subject without bars is selected exactly under its own key, whatever the invalidated subject looks like. */
  lemma SubjectSelects(t: Subject, s: Subject)
    requires Separable(t)
    ensures StartsWith(CacheKey(t), CacheKey(s)) <==> CacheKey(t) == CacheKey(s)
    ensures Plain(t) && Plain(s) ==> (StartsWith(CacheKey(t), CacheKey(s)) <==> t == s)
  {
    if StartsWith(CacheKey(t), CacheKey(s)) {
      PrefixBars(CacheKey(t), CacheKey(s));
      BarsInKey(Fields(t));
      BarsInKey(Fields(s));
      PrefixIsWhole(t, s);
    }
    if CacheKey(t) == CacheKey(s) && Plain(t) && Plain(s) { KeyIsOwnExactly(t); }
  }

  lemma PrefixIsWhole(t: Subject, s: Subject)
    requires AllBarFree(Fields(t)) && AllBarFree(Fields(s))
    ensures StartsWith(CacheKey(t), CacheKey(s)) ==> CacheKey(t) == CacheKey(s)
  {
    KeySurface(s);
    KeySurface(t);
    if StartsWith(CacheKey(t), CacheKey(s)) {
      var p := Fields(s)[..7];
      AllSub(Fields(s), 7);
      AllSub(Fields(t), 7);
      assert StartsWith(CacheKey(t), Prefix(p));
      PrefixSelects(Fields(t), p);
      assert StartsWith(SurfaceName(t.surface), SurfaceName(s.surface)) by {
        assert CacheKey(t)[|Prefix(p)|..] == SurfaceName(t.surface)
            && CacheKey(s)[|Prefix(p)|..] == SurfaceName(s.surface);
      }
      NamePrefixes(t.surface, s.surface);
      assert Fields(t) == p + [SurfaceName(t.surface)] && Fields(s) == p + [SurfaceName(s.surface)];
    }
  }
}
