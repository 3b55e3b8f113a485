/** The string operations of the standard library that the contract code uses. */
module Text {
  import opened Sorting

  /** Unicode White_Space. */
  predicate IsWhitespace(c: char) {
    var n := c as int;
    (9 <= n <= 13) || n == 32 || n == 0x85 || n == 0xA0 || n == 0x1680 || (0x2000 <= n <= 0x200A)
    || n == 0x2028 || n == 0x2029 || n == 0x202F || n == 0x205F || n == 0x3000
  }

  /** `trim().is_empty()`. */
  predicate Blank(s: string) {
    forall i :: 0 <= i < |s| ==> IsWhitespace(s[i])
  }

  function TrimStart(s: string, drop: char -> bool): string {
    if s != "" && drop(s[0]) then TrimStart(s[1..], drop) else s
  }

  function TrimEnd(s: string, drop: char -> bool): string {
    if s != "" && drop(s[|s| - 1]) then TrimEnd(s[..|s| - 1], drop) else s
  }

  function Trim(s: string): string {
    TrimEnd(TrimStart(s, IsWhitespace), IsWhitespace)
  }

  function TrimMatches(s: string, c: char): string {
    TrimEnd(TrimStart(s, x => x == c), x => x == c)
  }

  predicate StartsWith(s: string, p: string) {
    p <= s
  }

  function Split(s: string, c: char): (parts: seq<string>)
    ensures parts != []
  {
    if s == "" then [""]
    else if s[0] == c then [""] + Split(s[1..], c)
    else
      var rest := Split(s[1..], c);
      [[s[0]] + rest[0]] + rest[1..]
  }

  function Joined(parts: seq<string>, c: char): string {
    if parts == [] then "" else if |parts| == 1 then parts[0] else parts[0] + [c] + Joined(parts[1..], c)
  }

  // -- splitting and joining -----------------------------------------------------------------------

  ghost predicate Free(s: string, c: char) {
    c !in s
  }

  ghost predicate AllFree(parts: seq<string>, c: char) {
    forall i :: 0 <= i < |parts| ==> Free(parts[i], c)
  }

  lemma {:induction false} SplitFree(s: string, c: char)
    ensures AllFree(Split(s, c), c)
    decreases |s|
  {
    if s != "" { SplitFree(s[1..], c); }
  }

  lemma {:induction false} SplitFreeText(s: string, c: char)
    requires Free(s, c)
    ensures Split(s, c) == [s]
    decreases |s|
  {
    if s != "" {
      assert s == [s[0]] + s[1..] && s[0] in s;
      SplitFreeText(s[1..], c);
    }
  }

  lemma {:induction false} SplitAt(a: string, c: char, b: string)
    requires Free(a, c)
    ensures Split(a + [c] + b, c) == [a] + Split(b, c)
    decreases |a|
  {
    var s := a + [c] + b;
    if a == "" {
      assert s[1..] == b;
    } else {
      assert a[0] in a && s[1..] == a[1..] + [c] + b;
      SplitAt(a[1..], c, b);
      assert [a[0]] + a[1..] == a;
    }
  }

  /** Splitting what was joined gives the parts back. */
  lemma {:induction false} SplitJoined(parts: seq<string>, c: char)
    requires parts != [] && AllFree(parts, c)
    ensures Split(Joined(parts, c), c) == parts
    decreases |parts|
  {
    if |parts| == 1 {
      SplitFreeText(parts[0], c);
    } else {
      SplitJoined(parts[1..], c);
      SplitAt(parts[0], c, Joined(parts[1..], c));
    }
  }

  /** Joining what was split gives the text back. */
  lemma {:induction false} JoinedSplit(s: string, c: char)
    ensures Joined(Split(s, c), c) == s
    decreases |s|
  {
    if s != "" {
      JoinedSplit(s[1..], c);
      var rest := Split(s[1..], c);
      if s[0] == c {
        assert ([""] + rest)[1..] == rest;
        assert Joined([""] + rest, c) == "" + [c] + s[1..];
      } else {
        assert ([[s[0]] + rest[0]] + rest[1..])[1..] == rest[1..];
        assert [s[0]] + s[1..] == s;
      }
    }
  }

  /** Lists of parts without the separator are joined to the same text exactly when they are equal. */
  lemma JoinedInjective(a: seq<string>, b: seq<string>, c: char)
    requires a != [] && b != [] && AllFree(a, c) && AllFree(b, c)
    ensures Joined(a, c) == Joined(b, c) <==> a == b
  {
    SplitJoined(a, c);
    SplitJoined(b, c);
  }

  // -- trimming ------------------------------------------------------------------------------------

  /** The text with what may be dropped taken off both ends, and no more. */
  ghost predicate Trims(s: string, drop: char -> bool, t: string, i: nat) {
    && i + |t| <= |s| && t == s[i..i + |t|]
    && (forall j :: 0 <= j < i ==> drop(s[j])) && (forall j :: i + |t| <= j < |s| ==> drop(s[j]))
    && (t != "" ==> !drop(t[0]) && !drop(t[|t| - 1]))
  }

  ghost predicate IsTrimmed(s: string, drop: char -> bool, t: string) {
    exists i: nat :: Trims(s, drop, t, i)
  }

  lemma {:induction false} TrimEndDrops(s: string, drop: char -> bool)
    ensures TrimEnd(s, drop) <= s && forall j :: |TrimEnd(s, drop)| <= j < |s| ==> drop(s[j])
    ensures TrimEnd(s, drop) != "" ==> !drop(TrimEnd(s, drop)[|TrimEnd(s, drop)| - 1])
    decreases |s|
  {
    if s != "" && drop(s[|s| - 1]) { TrimEndDrops(s[..|s| - 1], drop); }
  }

  lemma {:induction false} TrimStartDrops(s: string, drop: char -> bool) returns (i: nat)
    ensures i <= |s| && TrimStart(s, drop) == s[i..] && forall j :: 0 <= j < i ==> drop(s[j])
    ensures i < |s| ==> !drop(s[i])
    decreases |s|
  {
    if s != "" && drop(s[0]) {
      i := TrimStartDrops(s[1..], drop);
      i := i + 1;
    } else {
      i := 0;
    }
  }

  /** What the two trimming loops leave. */
  lemma BothEnds(s: string, drop: char -> bool)
    ensures IsTrimmed(s, drop, TrimEnd(TrimStart(s, drop), drop))
  {
    var i := TrimStartDrops(s, drop);
    var rest := TrimStart(s, drop);
    var t := TrimEnd(rest, drop);
    TrimEndDrops(rest, drop);
    forall j | i + |t| <= j < |s| ensures drop(s[j]) { assert s[j] == rest[j - i]; }
    assert Trims(s, drop, t, i);
  }

  /** There is one trimmed text. */
  lemma TrimmedUnique(s: string, drop: char -> bool, t: string, u: string)
    requires IsTrimmed(s, drop, t) && IsTrimmed(s, drop, u)
    ensures t == u
  {
    var i: nat :| Trims(s, drop, t, i);
    var k: nat :| Trims(s, drop, u, k);
    assert t != "" ==> !drop(s[i]) && !drop(s[i + |t| - 1]);
    assert u != "" ==> !drop(s[k]) && !drop(s[k + |u| - 1]);
  }

  function UpperChar(c: char): char {
    if 'a' <= c <= 'z' then c - 'a' + 'A' else c
  }

  /** `to_ascii_uppercase`. */
  function Upper(s: string): (r: string)
    ensures |r| == |s|
  {
    seq(|s|, i requires 0 <= i < |s| => UpperChar(s[i]))
  }

  /** The value of a string of decimal digits, if it is one. */
  function Digits(s: string): Option<nat> {
    if s == "" then None
    else if !('0' <= s[|s| - 1] <= '9') then None
    else
      var d := (s[|s| - 1] - '0') as int;
      if |s| == 1 then Some(d)
      else
        var rest := Digits(s[..|s| - 1]);
        if rest.None? then None else Some(10 * rest.value + d)
  }

  // -- numerals --------------------------------------------------------------------------------------

  function DigitChar(d: nat): char
    requires d < 10
  {
    ('0' as int + d) as char
  }

  /** The numeral of a number, without zeros in front. */
  function Decimal(n: nat): (s: string)
    ensures s != ""
  {
    if n < 10 then [DigitChar(n)] else Decimal(n / 10) + [DigitChar(n % 10)]
  }

  function Zeros(k: nat): (s: string)
    ensures |s| == k
  {
    if k == 0 then "" else Zeros(k - 1) + "0"
  }

  lemma DigitsSnoc(s: string, c: char)
    ensures Digits(s + [c]) ==
      if !('0' <= c <= '9') then None
      else
        var d := (c - '0') as int;
        if s == "" then Some(d) else if Digits(s).None? then None else Some(10 * Digits(s).value + d)
  {
    assert (s + [c])[..|s|] == s;
  }

  lemma DigitReads(d: nat)
    requires d < 10
    ensures '0' <= DigitChar(d) <= '9' && (DigitChar(d) - '0') as int == d
  {
  }

  lemma {:induction false} DecimalReads(n: nat, k: nat)
    ensures Digits(Zeros(k) + Decimal(n)) == Some(n)
    decreases n, k
  {
    DigitReads(n % 10);
    if n >= 10 {
      DecimalReads(n / 10, k);
      DigitsSnoc(Zeros(k) + Decimal(n / 10), DigitChar(n % 10));
      assert Zeros(k) + Decimal(n) == Zeros(k) + Decimal(n / 10) + [DigitChar(n % 10)];
    } else {
      if k > 0 {
        DecimalReads(0, k - 1);
        assert Zeros(k) == Zeros(k - 1) + Decimal(0);
      }
      DigitsSnoc(Zeros(k), DigitChar(n));
    }
  }

  lemma DigitBehind(k: nat, m: nat, d: nat)
    requires d < 10
    ensures var s := Zeros(k) + Decimal(m) + [DigitChar(d)];
            s == if m == 0 then Zeros(k + 1) + Decimal(d) else Zeros(k) + Decimal(10 * m + d)
  {
    if m > 0 { assert Decimal(10 * m + d) == Decimal(m) + [DigitChar(d)]; }
  }

  lemma {:induction false} DigitsDecimal(s: string) returns (k: nat)
    requires Digits(s).Some?
    ensures s == Zeros(k) + Decimal(Digits(s).value)
    decreases |s|
  {
    var before, last := s[..|s| - 1], s[|s| - 1];
    var d := (last - '0') as int;
    assert s == before + [last] && last == DigitChar(d);
    k := 0;
    if before != "" {
      k := DigitsDecimal(before);
      DigitBehind(k, Digits(before).value, d);
      if Digits(before).value == 0 { k := k + 1; }
    }
  }

  /** Integer parsing: an optional plus sign, digits, and a maximum. */
  function ParseUpTo(s: string, max: nat): Option<nat> {
    var n := Digits(if s != "" && s[0] == '+' then s[1..] else s);
    if n.Some? && n.value <= max then n else None
  }

  /** A decimal numeral of `n`: zeros may stand in front, and a plus sign before them. */
  ghost predicate IsNumeral(s: string, n: nat) {
    exists zeros: nat :: s == Zeros(zeros) + Decimal(n) || s == "+" + (Zeros(zeros) + Decimal(n))
  }

  lemma {:induction false} NumeralStart(zeros: nat, n: nat)
    ensures var s := Zeros(zeros) + Decimal(n); s != "" && s[0] != '+'
    decreases n, zeros
  {
    if n >= 10 {
      NumeralStart(zeros, n / 10);
      assert Zeros(zeros) + Decimal(n) == Zeros(zeros) + Decimal(n / 10) + [DigitChar(n % 10)];
    } else if zeros > 0 {
      NumeralStart(zeros - 1, 0);
      assert Zeros(zeros) == Zeros(zeros - 1) + Decimal(0);
    }
  }

  lemma NumeralDigits(s: string, n: nat)
    requires IsNumeral(s, n)
    ensures Digits(if s != "" && s[0] == '+' then s[1..] else s) == Some(n)
  {
    var zeros: nat :| s == Zeros(zeros) + Decimal(n) || s == "+" + (Zeros(zeros) + Decimal(n));
    var digits := Zeros(zeros) + Decimal(n);
    NumeralStart(zeros, n);
    DecimalReads(n, zeros);
    assert ("+" + digits)[1..] == digits;
  }

  /** What integer parsing reads: the numerals up to the maximum. */
  lemma ParsesExactly(s: string, max: nat, n: nat)
    ensures ParseUpTo(s, max) == Some(n) <==> n <= max && IsNumeral(s, n)
  {
    if IsNumeral(s, n) { NumeralDigits(s, n); }
    if ParseUpTo(s, max) == Some(n) {
      var signed := s != "" && s[0] == '+';
      var digits := if signed then s[1..] else s;
      var zeros := DigitsDecimal(digits);
      assert signed ==> s == "+" + digits;
    }
  }
}
