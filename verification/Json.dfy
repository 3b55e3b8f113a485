/** JSON values as `serde_json` holds them, and iteration over their members in key order. */
module Json {
  import opened Sorting
  import opened Text

  datatype Value =
    | Null
    | Bool(b: bool)
    | Num(repr: string)
    | Str(s: string)
    | Arr(items: seq<Value>)
    | Obj(fields: map<string, Value>)

  /** The member of an object, or `Null`. */
  function Get(m: map<string, Value>, k: string): Value {
    if k in m then m[k] else Null
  }

  /** A string with something other than whitespace in it. */
  predicate IsText(v: Value) {
    v.Str? && !Blank(v.s)
  }

  // -- sequences without repetition ------------------------------------------------------------

  ghost predicate Distinct<T>(s: seq<T>) {
    forall i, j :: 0 <= i < j < |s| ==> s[i] != s[j]
  }

  lemma {:induction false} DistinctCount<T>(s: seq<T>, x: T)
    requires Distinct(s)
    ensures multiset(s)[x] == if x in s then 1 else 0
    decreases |s|
  {
    if s != [] {
      var n := |s| - 1;
      assert s == s[..n] + [s[n]];
      DistinctCount(s[..n], x);
    }
  }

  /** Without repetition, the elements decide the multiset. */
  lemma SameElements<T>(a: seq<T>, b: seq<T>)
    requires Distinct(a) && Distinct(b) && forall x :: x in a <==> x in b
    ensures multiset(a) == multiset(b)
  {
    forall x ensures multiset(a)[x] == multiset(b)[x] {
      DistinctCount(a, x);
      DistinctCount(b, x);
    }
  }

  // -- keys in order ----------------------------------------------------------------------------

  predicate IsLeast(s: set<string>, k: string) {
    k in s && forall x :: x in s ==> StringLeq(k, x)
  }

  lemma {:induction false} LeastExists(s: set<string>)
    requires s != {}
    ensures exists k :: IsLeast(s, k)
    decreases |s|
  {
    var x :| x in s;
    StringTotal(x, x);
    if s == {x} {
      assert IsLeast(s, x);
    } else {
      LeastExists(s - {x});
      var k :| IsLeast(s - {x}, k);
      StringTotal(x, k);
      if StringLeq(k, x) {
        assert IsLeast(s, k);
      } else {
        forall y | y in s ensures StringLeq(x, y) {
          if y != x { StringTransitive(x, k, y); }
        }
        assert IsLeast(s, x);
      }
    }
  }

  lemma LeastUnique(s: set<string>, j: string, k: string)
    requires IsLeast(s, j) && IsLeast(s, k)
    ensures j == k
  {
    StringTotal(j, k);
  }

  function Least(s: set<string>): (k: string)
    requires s != {}
    ensures IsLeast(s, k)
  {
    LeastExists(s);
    assert forall j, k :: IsLeast(s, j) && IsLeast(s, k) ==> j == k by {
      forall j, k | IsLeast(s, j) && IsLeast(s, k) ensures j == k { LeastUnique(s, j, k); }
    }
    var k :| k in s && IsLeast(s, k);
    k
  }

  /** The keys of a map in ascending order: how `BTreeMap` iterates. */
  function Keys(s: set<string>): (r: seq<string>)
    ensures Distinct(r) && forall k :: k in r <==> k in s
  {
    if s == {} then [] else
      var k := Least(s);
      [k] + Keys(s - {k})
  }

  lemma {:induction false} KeysSorted(s: set<string>)
    ensures Sorted(StringLeq, Keys(s))
    decreases |s|
  {
    if s != {} {
      var k := Least(s);
      KeysSorted(s - {k});
      StringTotal(k, k);
      var rest := Keys(s - {k});
      forall j | 0 <= j < |rest| ensures StringLeq(k, rest[j]) { assert rest[j] in rest; }
      SortedCons(StringLeq, k, rest);
    }
  }

  lemma KeysAscend(s: set<string>)
    ensures forall i, j :: 0 <= i < j < |Keys(s)| ==> StringBefore(Keys(s)[i], Keys(s)[j])
  {
    KeysSorted(s);
    forall i, j | 0 <= i < j < |Keys(s)| ensures StringBefore(Keys(s)[i], Keys(s)[j]) {
      StringLeqMeaning(Keys(s)[i], Keys(s)[j]);
    }
  }

  lemma NotBefore(s: string)
    ensures !StringBefore(s, s)
  {
  }

  ghost predicate Ascends<T>(s: seq<T>, key: T -> string) {
    forall i, j :: 0 <= i < j < |s| ==> StringBefore(key(s[i]), key(s[j]))
  }

  lemma AscendsSorted<T>(s: seq<T>, key: T -> string)
    requires Ascends(s, key)
    ensures Distinct(s) && Sorted((x: T, y: T) => StringLeq(key(x), key(y)), s)
  {
    forall i, j | 0 <= i <= j < |s| ensures StringLeq(key(s[i]), key(s[j])) && (i < j ==> s[i] != s[j]) {
      StringLeqMeaning(key(s[i]), key(s[j]));
      NotBefore(key(s[i]));
    }
  }

  lemma AscendsNoTies<T>(s: seq<T>, key: T -> string)
    requires Ascends(s, key)
    ensures NoTies((x: T, y: T) => StringLeq(key(x), key(y)), multiset(s))
  {
    forall x, y | x in s && y in s && StringLeq(key(x), key(y)) && StringLeq(key(y), key(x)) ensures x == y {
      StringTotal(key(x), key(y));
      NotBefore(key(x));
    }
  }

  /** Under strictly ascending keys, the elements decide the list. */
  lemma AscendingUnique<T>(a: seq<T>, b: seq<T>, key: T -> string)
    requires Ascends(a, key) && Ascends(b, key) && forall x :: x in a <==> x in b
    ensures a == b
  {
    AscendsSorted(a, key);
    AscendsSorted(b, key);
    AscendsNoTies(a, key);
    SameElements(a, b);
    SameLength(a, b);
    SortedUnique((x: T, y: T) => StringLeq(key(x), key(y)), a, b);
  }

  // -- concatenated images ---------------------------------------------------------------------

  function Flat<A, B>(xs: seq<A>, f: A -> seq<B>): seq<B> {
    if xs == [] then [] else Flat(xs[..|xs| - 1], f) + f(xs[|xs| - 1])
  }

  lemma {:induction false} FlatMember<A, B>(xs: seq<A>, f: A -> seq<B>, y: B)
    ensures y in Flat(xs, f) <==> exists x :: x in xs && y in f(x)
    decreases |xs|
  {
    if xs != [] {
      var n := |xs| - 1;
      FlatMember(xs[..n], f, y);
      assert xs == xs[..n] + [xs[n]];
    }
  }

  lemma {:induction false} FlatDistinct<A, B>(xs: seq<A>, f: A -> seq<B>)
    requires Distinct(xs) && forall x :: x in xs ==> Distinct(f(x))
    requires forall x, x', y :: x in xs && x' in xs && y in f(x) && y in f(x') ==> x == x'
    ensures Distinct(Flat(xs, f))
    decreases |xs|
  {
    if xs != [] {
      var n := |xs| - 1;
      var a, b := Flat(xs[..n], f), f(xs[n]);
      FlatDistinct(xs[..n], f);
      assert xs[n] in xs;
      forall y | y in a ensures y !in b {
        FlatMember(xs[..n], f, y);
        var x :| x in xs[..n] && y in f(x);
        assert x in xs && x != xs[n];
      }
      DistinctConcat(a, b);
    }
  }

  lemma DistinctConcat<T>(a: seq<T>, b: seq<T>)
    requires Distinct(a) && Distinct(b) && forall y :: y in a ==> y !in b
    ensures Distinct(a + b)
  {
    var s := a + b;
    forall i, j | 0 <= i < j < |s| ensures s[i] != s[j] {
      if i < |a| <= j { assert s[i] in a && s[j] in b; }
    }
  }

  lemma {:induction false} FlatCongruent<A, B>(xs: seq<A>, f: A -> seq<B>, g: A -> seq<B>)
    requires forall x :: x in xs ==> f(x) == g(x)
    ensures Flat(xs, f) == Flat(xs, g)
    decreases |xs|
  {
    if xs != [] { FlatCongruent(xs[..|xs| - 1], f, g); }
  }

  lemma Swap<T>(a: multiset<T>, b: multiset<T>, c: multiset<T>)
    ensures a + b + c == a + c + b
  {
  }

  lemma FlatAround<A, B>(p: seq<A>, x: A, q: seq<A>, f: A -> seq<B>)
    ensures multiset(Flat(p + [x] + q, f)) == multiset(Flat(p + q, f)) + multiset(f(x))
  {
    FlatConcat(p + [x], q, f);
    FlatConcat(p, [x], f);
    FlatConcat(p, q, f);
    FlatOne(x, f);
    Swap(multiset(Flat(p, f)), multiset(f(x)), multiset(Flat(q, f)));
  }

  lemma Around<T>(p: seq<T>, x: T, q: seq<T>)
    ensures multiset(p + [x] + q) == multiset(p + q) + multiset{x}
  {
  }

  lemma Found<T>(s: seq<T>, x: T) returns (p: seq<T>, q: seq<T>)
    requires x in multiset(s)
    ensures s == p + [x] + q
  {
    var k :| 0 <= k < |s| && s[k] == x;
    p, q := s[..k], s[k + 1..];
  }

  lemma Cancel<T>(a: multiset<T>, b: multiset<T>, x: T)
    requires a + multiset{x} == b + multiset{x}
    ensures a == b
  {
    assert a == a + multiset{x} - multiset{x} && b == b + multiset{x} - multiset{x};
  }

  /** Reordering the arguments reorders the images. */
  lemma {:induction false} FlatPermuted<A, B>(xs: seq<A>, ys: seq<A>, f: A -> seq<B>)
    requires multiset(xs) == multiset(ys)
    ensures multiset(Flat(xs, f)) == multiset(Flat(ys, f))
    decreases |xs|
  {
    if xs == [] {
      assert |multiset(ys)| == 0;
      assert ys == [];
    } else {
      assert xs[0] in multiset(xs);
      var p, q := Found(ys, xs[0]);
      var rest := xs[1..];
      assert xs == [] + [xs[0]] + rest;
      Around([], xs[0], rest);
      Around(p, xs[0], q);
      Cancel(multiset([] + rest), multiset(p + q), xs[0]);
      FlatPermuted([] + rest, p + q, f);
      FlatAround([], xs[0], rest, f);
      FlatAround(p, xs[0], q, f);
    }
  }

  lemma FlatOne<A, B>(x: A, f: A -> seq<B>)
    ensures Flat([x], f) == f(x)
  {
    assert [x][..0] == [];
    assert Flat([x], f) == [] + f(x);
  }

  lemma {:induction false} FlatConcat<A, B>(xs: seq<A>, ys: seq<A>, f: A -> seq<B>)
    ensures Flat(xs + ys, f) == Flat(xs, f) + Flat(ys, f)
    decreases |ys|
  {
    if ys == [] {
      assert xs + ys == xs;
    } else {
      var n := |ys| - 1;
      assert (xs + ys)[..|xs + ys| - 1] == xs + ys[..n];
      FlatConcat(xs, ys[..n], f);
      assert Flat(xs, f) + Flat(ys[..n], f) + f(ys[n]) == Flat(xs, f) + (Flat(ys[..n], f) + f(ys[n]));
    }
  }

  lemma FlatNextAt<A, B>(p: seq<A>, x: A, q: seq<A>, f: A -> seq<B>)
    ensures Flat(p + [x], f) == Flat(p, f) + f(x)
    ensures Flat(p + [x] + q, f) == Flat(p, f) + f(x) + Flat(q, f)
  {
    FlatConcat(p, [x], f);
    FlatOne(x, f);
    FlatConcat(p + [x], q, f);
  }

  lemma Pieces<A>(xs: seq<A>, i: nat)
    requires i < |xs|
    ensures xs[..i + 1] == xs[..i] + [xs[i]] && xs == xs[..i] + [xs[i]] + xs[i + 1..]
  {
  }

  /** One more argument: the prefix grows by its image, and the rest follows. */
  lemma FlatNext<A, B>(xs: seq<A>, f: A -> seq<B>, i: nat)
    requires i < |xs|
    ensures Flat(xs[..i + 1], f) == Flat(xs[..i], f) + f(xs[i])
    ensures Flat(xs, f) == Flat(xs[..i], f) + f(xs[i]) + Flat(xs[i + 1..], f)
  {
    var p, q := xs[..i], xs[i + 1..];
    Pieces(xs, i);
    FlatNextAt(p, xs[i], q, f);
  }

  /** Two arguments, two positions. */
  lemma FlatPositions<A, B>(xs: seq<A>, f: A -> seq<B>, i: nat, j: nat, y: B, z: B) returns (u: nat, v: nat)
    requires i < j < |xs| && y in f(xs[i]) && z in f(xs[j])
    ensures u < v < |Flat(xs, f)| && Flat(xs, f)[u] == y && Flat(xs, f)[v] == z
  {
    var p, q := xs[..i + 1], xs[i + 1..];
    FlatMember(p, f, y);
    FlatMember(q, f, z);
    assert p[i] in p && q[j - i - 1] in q;
    FlatConcat(p, q, f);
    assert xs == p + q;
    u :| 0 <= u < |Flat(p, f)| && Flat(p, f)[u] == y;
    var w :| 0 <= w < |Flat(q, f)| && Flat(q, f)[w] == z;
    v := |Flat(p, f)| + w;
  }

  lemma CountTwice<T>(s: seq<T>, u: nat, v: nat)
    requires u < v < |s| && s[u] == s[v]
    ensures multiset(s)[s[u]] >= 2
  {
    assert s == s[..v] + s[v..];
    assert s[u] in s[..v] && s[v] in s[v..];
  }

  lemma FlatTwice<A, B>(xs: seq<A>, f: A -> seq<B>, i: nat, j: nat, y: B)
    requires i < j < |xs| && y in f(xs[i]) && y in f(xs[j])
    ensures y in Flat(xs, f) && multiset(Flat(xs, f))[y] >= 2
  {
    var u, v := FlatPositions(xs, f, i, j, y, y);
    CountTwice(Flat(xs, f), u, v);
  }

  lemma CountConcat<T>(a: seq<T>, b: seq<T>, y: T)
    ensures multiset(a + b)[y] == multiset(a)[y] + multiset(b)[y]
  {
  }

  /** An element that only one argument produces, once, occurs once. */
  lemma {:induction false} FlatOnce<A, B>(xs: seq<A>, f: A -> seq<B>, y: B)
    requires Distinct(xs) && forall x :: x in xs ==> multiset(f(x))[y] <= 1
    requires forall x, z :: x in xs && z in xs && y in f(x) && y in f(z) ==> x == z
    ensures multiset(Flat(xs, f))[y] <= 1
    decreases |xs|
  {
    if xs != [] {
      var n := |xs| - 1;
      var before, last := xs[..n], xs[n];
      assert xs == before + [last] && last in xs;
      FlatOnce(before, f, y);
      CountConcat(Flat(before, f), f(last), y);
      FlatMember(before, f, y);
      if y in Flat(before, f) {
        var x :| x in before && y in f(x);
        assert x in xs && x != last;
        assert y !in f(last);
        assert multiset(f(last))[y] == 0;
      } else {
        assert multiset(Flat(before, f))[y] == 0;
      }
    }
  }

  /** An element that every position produces at most once, and no two positions produce, occurs at most once. */
  lemma {:induction false} FlatOnceAt<A, B>(xs: seq<A>, f: A -> seq<B>, y: B)
    requires forall i :: 0 <= i < |xs| ==> multiset(f(xs[i]))[y] <= 1
    requires forall i, j :: 0 <= i < j < |xs| ==> y !in f(xs[i]) || y !in f(xs[j])
    ensures multiset(Flat(xs, f))[y] <= 1
    decreases |xs|
  {
    if xs != [] {
      var n := |xs| - 1;
      FlatOnceAt(xs[..n], f, y);
      CountConcat(Flat(xs[..n], f), f(xs[n]), y);
      FlatMember(xs[..n], f, y);
      assert y in f(xs[n]) ==> y !in Flat(xs[..n], f);
    }
  }

  /** An element that occurs once comes from one argument. */
  lemma OneArgument<A, B>(xs: seq<A>, f: A -> seq<B>, a: A, b: A, y: B)
    requires multiset(Flat(xs, f))[y] <= 1 && a in xs && b in xs && y in f(a) && y in f(b)
    ensures a == b
  {
    var i :| 0 <= i < |xs| && xs[i] == a;
    var j :| 0 <= j < |xs| && xs[j] == b;
    if i < j {
      var u, v := FlatPositions(xs, f, i, j, y, y);
      CountTwice(Flat(xs, f), u, v);
    } else if j < i {
      var u, v := FlatPositions(xs, f, j, i, y, y);
      CountTwice(Flat(xs, f), u, v);
    }
  }
}
