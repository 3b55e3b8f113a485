/** Options, byte-order string comparison and canonical sorting. */
module Sorting {
  datatype Option<+T> = None | Some(value: T)

  ghost predicate TotalPreorder<T(!new)>(leq: (T, T) -> bool) {
    && (forall a, b :: leq(a, b) || leq(b, a))
    && (forall a, b, c :: leq(a, b) && leq(b, c) ==> leq(a, c))
  }

  ghost predicate Sorted<T>(leq: (T, T) -> bool, s: seq<T>) {
    forall i, j :: 0 <= i <= j < |s| ==> leq(s[i], s[j])
  }

  /** No two different elements of the multiset tie in the order. */
  ghost predicate NoTies<T>(leq: (T, T) -> bool, m: multiset<T>) {
    forall x, y :: x in m && y in m && leq(x, y) && leq(y, x) ==> x == y
  }

  function Insert<T>(leq: (T, T) -> bool, x: T, s: seq<T>): (r: seq<T>)
    ensures multiset(r) == multiset{x} + multiset(s)
  {
    if s == [] || leq(x, s[0]) then [x] + s
    else
      assert s == [s[0]] + s[1..];
      [s[0]] + Insert(leq, x, s[1..])
  }

  /** The stable sort of the standard library, as insertion sort. */
  function Sort<T>(leq: (T, T) -> bool, s: seq<T>): (r: seq<T>)
    ensures multiset(r) == multiset(s)
  {
    if s == [] then []
    else
      assert s == [s[0]] + s[1..];
      Insert(leq, s[0], Sort(leq, s[1..]))
  }

  lemma {:induction false} InsertSorted<T(!new)>(leq: (T, T) -> bool, x: T, s: seq<T>)
    requires TotalPreorder(leq) && Sorted(leq, s)
    ensures Sorted(leq, Insert(leq, x, s))
    decreases |s|
  {
    if s != [] && !leq(x, s[0]) {
      var rest := Insert(leq, x, s[1..]);
      InsertSorted(leq, x, s[1..]);
      forall j | 0 <= j < |rest| ensures leq(s[0], rest[j]) {
        assert rest[j] in multiset(rest);
        if rest[j] != x {
          assert rest[j] in s[1..];
          HeadLeast(leq, s, rest[j]);
        }
      }
      SortedCons(leq, s[0], rest);
    } else if s != [] {
      forall j | 0 <= j < |s| ensures leq(x, s[j]) {
        HeadLeast(leq, s, s[j]);
      }
      SortedCons(leq, x, s);
    }
  }

  lemma SortedCons<T>(leq: (T, T) -> bool, x: T, s: seq<T>)
    requires Sorted(leq, s) && leq(x, x) && forall j :: 0 <= j < |s| ==> leq(x, s[j])
    ensures Sorted(leq, [x] + s)
  {
  }

  lemma {:induction false} SortSorted<T(!new)>(leq: (T, T) -> bool, s: seq<T>)
    requires TotalPreorder(leq)
    ensures Sorted(leq, Sort(leq, s))
    decreases |s|
  {
    if s != [] {
      SortSorted(leq, s[1..]);
      InsertSorted(leq, s[0], Sort(leq, s[1..]));
    }
  }

  lemma HeadLeast<T>(leq: (T, T) -> bool, s: seq<T>, x: T)
    requires Sorted(leq, s) && x in multiset(s)
    ensures s != [] && leq(s[0], x)
  {
    var i :| 0 <= i < |s| && s[i] == x;
    assert leq(s[0], s[i]);
  }

  lemma MultisetTail<T>(s: seq<T>)
    requires s != []
    ensures multiset(s[1..]) == multiset(s) - multiset{s[0]}
  {
    assert s == [s[0]] + s[1..];
  }

  lemma NoTiesBelow<T>(leq: (T, T) -> bool, m: multiset<T>, n: multiset<T>)
    requires NoTies(leq, n) && m <= n
    ensures NoTies(leq, m)
  {
  }

  lemma SortedTail<T>(leq: (T, T) -> bool, s: seq<T>)
    requires Sorted(leq, s) && s != []
    ensures Sorted(leq, s[1..])
  {
  }

  lemma SameHead<T>(leq: (T, T) -> bool, s: seq<T>, t: seq<T>)
    requires Sorted(leq, s) && Sorted(leq, t) && s != [] && t != []
    requires multiset(s) == multiset(t) && NoTies(leq, multiset(s))
    ensures s[0] == t[0]
  {
    assert s[0] in multiset(s) && t[0] in multiset(t);
    HeadLeast(leq, s, t[0]);
    HeadLeast(leq, t, s[0]);
  }

  lemma SameTail<T>(leq: (T, T) -> bool, s: seq<T>, t: seq<T>)
    requires s != [] && t != [] && s[0] == t[0] && multiset(s) == multiset(t) && NoTies(leq, multiset(s))
    ensures multiset(s[1..]) == multiset(t[1..]) && NoTies(leq, multiset(s[1..]))
  {
    MultisetTail(s);
    MultisetTail(t);
    NoTiesBelow(leq, multiset(s[1..]), multiset(s));
  }

  /** A multiset without ties has one sorted arrangement. */
  lemma {:induction false} SortedUnique<T>(leq: (T, T) -> bool, s: seq<T>, t: seq<T>)
    requires Sorted(leq, s) && Sorted(leq, t) && |s| == |t|
    requires multiset(s) == multiset(t) && NoTies(leq, multiset(s))
    ensures s == t
    decreases |s|
  {
    if s != [] {
      SameHead(leq, s, t);
      SameTail(leq, s, t);
      SortedTail(leq, s);
      SortedTail(leq, t);
      SortedUnique(leq, s[1..], t[1..]);
      assert s == [s[0]] + s[1..] && t == [t[0]] + t[1..];
    }
  }

  lemma SameLength<T>(s: seq<T>, t: seq<T>)
    requires multiset(s) == multiset(t)
    ensures |s| == |t|
  {
    assert |s| == |multiset(s)| && |t| == |multiset(t)|;
  }

  /** Sorting forgets the input order. */
  lemma SortCanonical<T(!new)>(leq: (T, T) -> bool, s: seq<T>, t: seq<T>)
    requires TotalPreorder(leq) && NoTies(leq, multiset(s))
    ensures Sort(leq, s) == Sort(leq, t) <==> multiset(s) == multiset(t)
  {
    SortSorted(leq, s);
    SortSorted(leq, t);
    if multiset(s) == multiset(t) {
      SameLength(Sort(leq, s), Sort(leq, t));
      SortedUnique(leq, Sort(leq, s), Sort(leq, t));
    }
  }

  // -- strings ------------------------------------------------------------------------------

  /** `str` ordering: lexicographic. */
  predicate StringLeq(a: string, b: string) {
    a == "" || (b != "" && (a[0] < b[0] || (a[0] == b[0] && StringLeq(a[1..], b[1..]))))
  }

  lemma {:induction false} StringTotal(a: string, b: string)
    ensures StringLeq(a, b) || StringLeq(b, a)
    ensures StringLeq(a, b) && StringLeq(b, a) ==> a == b
    decreases |a|
  {
    if a != "" && b != "" {
      StringTotal(a[1..], b[1..]);
      assert a == [a[0]] + a[1..] && b == [b[0]] + b[1..];
    }
  }

  /** The strings agree up to `i`, and there the first ends or has the smaller character. */
  ghost predicate DecidedAt(a: string, b: string, i: nat) {
    i <= |a| && i < |b| && a[..i] == b[..i] && (i == |a| || a[i] < b[i])
  }

  /** Strictly before in lexicographic order. */
  ghost predicate StringBefore(a: string, b: string) {
    exists i: nat :: DecidedAt(a, b, i)
  }

  /** What the recursive comparison decides: lexicographic order. */
  lemma {:induction false} StringLeqMeaning(a: string, b: string)
    ensures StringLeq(a, b) <==> a == b || StringBefore(a, b)
    decreases |a|
  {
    if a == "" {
      if b != "" { assert DecidedAt(a, b, 0); }
    } else if b != "" {
      assert a == [a[0]] + a[1..] && b == [b[0]] + b[1..];
      if a[0] < b[0] {
        assert DecidedAt(a, b, 0);
      } else {
        StringLeqMeaning(a[1..], b[1..]);
        if a[0] == b[0] && StringBefore(a[1..], b[1..]) {
          var i: nat :| DecidedAt(a[1..], b[1..], i);
          assert a[..i + 1] == [a[0]] + a[1..][..i] && b[..i + 1] == [b[0]] + b[1..][..i];
          assert DecidedAt(a, b, i + 1);
        }
        if StringBefore(a, b) {
          var i: nat :| DecidedAt(a, b, i);
          if i > 0 {
            assert a[..i][0] == a[0] && b[..i][0] == b[0];
            assert a[1..][..i - 1] == a[..i][1..] && b[1..][..i - 1] == b[..i][1..];
            assert DecidedAt(a[1..], b[1..], i - 1);
          }
        }
      }
    }
  }

  lemma {:induction false} StringTransitive(a: string, b: string, c: string)
    requires StringLeq(a, b) && StringLeq(b, c)
    ensures StringLeq(a, c)
    decreases |a|
  {
    if a != "" && a[0] == b[0] && b[0] == c[0] { StringTransitive(a[1..], b[1..], c[1..]); }
  }

  /** Derived ordering of a record: field by field, as on the list of its fields. */
  predicate FieldsLeq(a: seq<string>, b: seq<string>) {
    a == [] || (b != [] && (if a[0] == b[0] then FieldsLeq(a[1..], b[1..]) else StringLeq(a[0], b[0])))
  }

  lemma {:induction false} FieldsTotal(a: seq<string>, b: seq<string>)
    ensures FieldsLeq(a, b) || FieldsLeq(b, a)
    ensures FieldsLeq(a, b) && FieldsLeq(b, a) ==> a == b
    decreases |a|
  {
    if a != [] && b != [] {
      StringTotal(a[0], b[0]);
      FieldsTotal(a[1..], b[1..]);
      assert a == [a[0]] + a[1..] && b == [b[0]] + b[1..];
    }
  }

  lemma {:induction false} FieldsTransitive(a: seq<string>, b: seq<string>, c: seq<string>)
    requires FieldsLeq(a, b) && FieldsLeq(b, c)
    ensures FieldsLeq(a, c)
    decreases |a|
  {
    if a != [] {
      if a[0] == b[0] && b[0] == c[0] {
        FieldsTransitive(a[1..], b[1..], c[1..]);
      } else {
        StringTotal(a[0], b[0]);
        StringTotal(b[0], c[0]);
        StringTotal(a[0], c[0]);
        if a[0] != b[0] && b[0] != c[0] { StringTransitive(a[0], b[0], c[0]); }
      }
    }
  }
}
