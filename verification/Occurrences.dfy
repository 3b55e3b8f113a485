/** First occurrences in a sequence. */
module Occurrences {
  import opened Json

  /** The first occurrence of every element, in order. */
  function Dedupe<T(==)>(s: seq<T>): seq<T> {
    if s == [] then []
    else
      var before := Dedupe(s[..|s| - 1]);
      if s[|s| - 1] in before then before else before + [s[|s| - 1]]
  }

  /** Where an element occurs first. */
  function FirstIndex<T(==)>(s: seq<T>, x: T): nat {
    if s == [] || s[0] == x then 0 else 1 + FirstIndex(s[1..], x)
  }

  lemma {:induction false} FirstIndexLonger<T>(s: seq<T>, y: T, x: T)
    ensures x in s ==> FirstIndex(s + [y], x) == FirstIndex(s, x) < |s|
    ensures x !in s ==> FirstIndex(s + [y], x) >= |s|
    decreases |s|
  {
    if s != [] {
      assert (s + [y])[1..] == s[1..] + [y];
      assert s == [s[0]] + s[1..];
      FirstIndexLonger(s[1..], y, x);
    }
  }

  lemma {:induction false} DedupeMember<T>(s: seq<T>)
    ensures forall x :: x in Dedupe(s) ==> x in s
    ensures forall x :: x in s ==> x in Dedupe(s)
    decreases |s|
  {
    if s != [] {
      DedupeMember(s[..|s| - 1]);
      assert s == s[..|s| - 1] + [s[|s| - 1]];
    }
  }

  lemma DedupeNext<T>(s: seq<T>, x: T)
    ensures Dedupe(s + [x]) == if x in s then Dedupe(s) else Dedupe(s) + [x]
  {
    assert (s + [x])[..|s|] == s;
    DedupeMember(s);
  }

  ghost predicate InOrder<T>(s: seq<T>, d: seq<T>) {
    forall i, j :: 0 <= i < j < |d| ==> FirstIndex(s, d[i]) < FirstIndex(s, d[j])
  }

  lemma InOrderLonger<T>(s: seq<T>, d: seq<T>, x: T)
    requires InOrder(s, d) && forall y :: y in d ==> y in s
    ensures InOrder(s + [x], d) && (x !in s ==> InOrder(s + [x], d + [x]))
  {
    forall y | y in d ensures FirstIndex(s + [x], y) == FirstIndex(s, y) < |s| { FirstIndexLonger(s, x, y); }
    FirstIndexLonger(s, x, x);
    forall i | 0 <= i < |d| ensures FirstIndex(s + [x], d[i]) == FirstIndex(s, d[i]) < |s| { assert d[i] in d; }
  }

  /** Deduplication keeps each element once, in the order of first occurrence. */
  lemma {:induction false} DedupeOrdered<T>(s: seq<T>)
    ensures (forall x :: x in Dedupe(s) ==> x in s) && (forall x :: x in s ==> x in Dedupe(s))
    ensures InOrder(s, Dedupe(s)) && Distinct(Dedupe(s))
    decreases |s|
  {
    DedupeMember(s);
    if s != [] {
      var n := |s| - 1;
      var before, last := s[..n], s[n];
      assert s == before + [last];
      DedupeOrdered(before);
      DedupeMember(before);
      DedupeNext(before, last);
      InOrderLonger(before, Dedupe(before), last);
    }
  }

  lemma {:induction false} DedupeOfDistinct<T>(s: seq<T>)
    requires Distinct(s)
    ensures Dedupe(s) == s
    decreases |s|
  {
    if s != [] {
      var n := |s| - 1;
      DedupeOfDistinct(s[..n]);
      assert s == s[..n] + [s[n]];
    }
  }

  /** The elements not yet seen. */
  function Without<T(==)>(s: seq<T>, seen: set<T>): seq<T> {
    if s == [] then []
    else Without(s[..|s| - 1], seen) + if s[|s| - 1] in seen then [] else [s[|s| - 1]]
  }

  lemma WithoutNext<T>(s: seq<T>, x: T, seen: set<T>)
    ensures Without(s + [x], seen) == Without(s, seen) + if x in seen then [] else [x]
  {
    assert (s + [x])[..|s|] == s;
  }

  lemma {:induction false} WithoutMember<T>(s: seq<T>, seen: set<T>)
    ensures forall x :: x in Without(s, seen) <==> x in s && x !in seen
    decreases |s|
  {
    if s != [] {
      var n := |s| - 1;
      WithoutMember(s[..n], seen);
      assert s == s[..n] + [s[n]];
    }
  }

  lemma {:induction false} WithoutTwice<T>(s: seq<T>, seen: set<T>)
    ensures Without(Without(s, seen), seen) == Without(s, seen)
    decreases |s|
  {
    if s != [] {
      var n := |s| - 1;
      var w := Without(s[..n], seen);
      WithoutTwice(s[..n], seen);
      if s[n] in seen { assert Without(s, seen) == w; } else { WithoutNext(w, s[n], seen); }
    }
  }

  lemma Join3<T>(a: seq<T>, b: seq<T>, c: seq<T>)
    ensures a + b + c == a + (b + c)
  {
  }

  /** Deduplicating a concatenation: the second part contributes what the first does not have. */
  lemma {:induction false} DedupeConcat<T>(a: seq<T>, b: seq<T>, seen: set<T>)
    requires forall x :: x in seen <==> x in a
    ensures Dedupe(a + b) == Dedupe(a) + Dedupe(Without(b, seen))
    decreases |b|
  {
    if b == [] {
      assert a + b == a;
    } else {
      var n := |b| - 1;
      DedupeConcat(a, b[..n], seen);
      Pieces(b, n);
      assert b == b[..n] + [b[n]];
      DedupeConcatNext(a, b[..n], b[n], seen);
      Join3(a, b[..n], [b[n]]);
    }
  }

  lemma DedupeConcatNext<T>(a: seq<T>, b: seq<T>, x: T, seen: set<T>)
    requires (forall y :: y in seen <==> y in a) && Dedupe(a + b) == Dedupe(a) + Dedupe(Without(b, seen))
    ensures Dedupe(a + b + [x]) == Dedupe(a) + Dedupe(Without(b + [x], seen))
  {
    DedupeNext(a + b, x);
    WithoutNext(b, x, seen);
    WithoutMember(b, seen);
    var w := Without(b, seen);
    assert x in a + b <==> x in a || x in b;
    if x in seen {
      assert w + [] == w;
    } else {
      DedupeNext(w, x);
      Join3(Dedupe(a), Dedupe(w), [x]);
    }
  }

  lemma DistinctParts<T>(a: seq<T>, b: seq<T>)
    requires forall y :: y in a ==> y !in b
    ensures Distinct(a + b) <==> Distinct(a) && Distinct(b)
  {
    if Distinct(a) && Distinct(b) { DistinctConcat(a, b); }
    if Distinct(a + b) {
      forall i, j | 0 <= i < j < |a| ensures a[i] != a[j] { assert (a + b)[i] == a[i] && (a + b)[j] == a[j]; }
      forall i, j | 0 <= i < j < |b|
        ensures b[i] != b[j]
      {
        assert (a + b)[|a| + i] == b[i] && (a + b)[|a| + j] == b[j];
      }
    }
  }

  lemma TakeTake<T>(s: seq<T>, n: nat, i: nat)
    requires i < n <= |s|
    ensures s[..n][..i] == s[..i] && s[..n][i] == s[i]
  {
  }
}
