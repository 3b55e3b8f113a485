/**
 * The base64url codec: one encoder and two independently written decoders.
 *
 * Both sides are specified by place value, as section 5 of RFC 4648 reads a byte string: the
 * bytes are one big-endian numeral in base 256, the symbols one numeral in base 64, and the
 * encoding pads the bit string on the right with fewer than six zero bits.
 */
module Base64Url {
  import opened Bits

  type sextet = x: int | 0 <= x < 64

  datatype Decoded = Accepted(bytes: seq<byte>) | Rejected(symbol: byte)

  // -- alphabets ---------------------------------------------------------------------------

  const PAD: byte := '=' as int

  /** The match arms shared by both decoders: `-`/`+` and `_`/`/` are synonyms. */
  function SextetOf(b: byte): (r: int)
    ensures -1 <= r < 64
  {
    if 'A' as int <= b <= 'Z' as int then b - 'A' as int
    else if 'a' as int <= b <= 'z' as int then b - 'a' as int + 26
    else if '0' as int <= b <= '9' as int then b - '0' as int + 52
    else if b == '-' as int || b == '+' as int then 62
    else if b == '_' as int || b == '/' as int then 63
    else -1
  }

  /** The standard (not URL-safe) table the encoder indexes. */
  function TableSymbol(v: sextet): (b: byte)
    ensures SextetOf(b) == v && b != PAD
  {
    if v < 26 then 'A' as int + v
    else if v < 52 then 'a' as int + v - 26
    else if v < 62 then '0' as int + v - 52
    else if v == 62 then '+' as int
    else '/' as int
  }

  function UrlSafe(b: byte): (r: byte)
    ensures SextetOf(r) == SextetOf(b)
    ensures r != '+' as int && r != '/' as int
    ensures r == PAD <==> b == PAD
  {
    if b == '+' as int then '-' as int else if b == '/' as int then '_' as int else b
  }

  // -- place values ------------------------------------------------------------------------

  function BytesValue(digits: seq<byte>): nat {
    if digits == [] then 0
    else BytesValue(digits[..|digits| - 1]) * 256 + digits[|digits| - 1]
  }

  function SymbolsValue(symbols: seq<byte>): nat
    requires AllSymbols(symbols)
  {
    if symbols == [] then 0
    else SymbolsValue(symbols[..|symbols| - 1]) * 64 + SextetOf(symbols[|symbols| - 1])
  }

  predicate AllSymbols(symbols: seq<byte>) {
    forall i :: 0 <= i < |symbols| ==> SextetOf(symbols[i]) >= 0
  }

  lemma BytesSnoc(digits: seq<byte>, d: byte)
    ensures BytesValue(digits + [d]) == BytesValue(digits) * 256 + d
  {
    assert (digits + [d])[..|digits|] == digits;
  }

  lemma SymbolsSnoc(symbols: seq<byte>, b: byte)
    requires AllSymbols(symbols) && SextetOf(b) >= 0
    ensures AllSymbols(symbols + [b])
    ensures SymbolsValue(symbols + [b]) == SymbolsValue(symbols) * 64 + SextetOf(b)
  {
    assert (symbols + [b])[..|symbols|] == symbols;
  }

  /** A byte numeral of known length determines its digits. */
  lemma {:induction false} BytesInjective(x: seq<byte>, y: seq<byte>)
    requires |x| == |y| && BytesValue(x) == BytesValue(y)
    ensures x == y
    decreases |x|
  {
    if x != [] {
      var n := |x| - 1;
      BytesInjective(x[..n], y[..n]);
      assert x == x[..n] + [x[n]] && y == y[..n] + [y[n]];
    }
  }

  lemma {:induction false} SymbolsAgree(x: seq<byte>, y: seq<byte>)
    requires |x| == |y| && AllSymbols(x) && AllSymbols(y)
    requires forall i :: 0 <= i < |x| ==> SextetOf(x[i]) == SextetOf(y[i])
    ensures SymbolsValue(x) == SymbolsValue(y)
    decreases |x|
  {
    if x != [] { SymbolsAgree(x[..|x| - 1], y[..|y| - 1]); }
  }

  // -- bit buffer arithmetic ---------------------------------------------------------------

  /** The numeral `v` followed by the `bits` low bits of the buffer, most significant first. */
  function Joined(v: nat, buffer: nat, bits: nat): nat
    decreases bits, buffer, v
  {
    if bits == 0 then v else 2 * Joined(v, buffer / 2, bits - 1) + buffer % 2
  }

  /** Shifting the joined bits out again leaves the numeral. */
  lemma {:induction false} ShrJoined(v: nat, buffer: nat, bits: nat)
    ensures Shr(Joined(v, buffer, bits), bits) == v
    decreases bits
  {
    if bits > 0 { ShrJoined(v, buffer / 2, bits - 1); }
  }

  /** Joining `m + n` bits joins the upper `n`, then the lower `m`. */
  lemma {:induction false} JoinedSplit(v: nat, buffer: nat, m: nat, n: nat)
    ensures Joined(v, buffer, m + n) == Joined(Joined(v, Shr(buffer, m), n), buffer, m)
    decreases m
  {
    if m > 0 { JoinedSplit(v, buffer / 2, m - 1, n); }
  }

  /** Bits above the unread ones do not matter. */
  lemma {:induction false} JoinedLow(v: nat, buffer: nat, bits: nat, m: nat)
    requires bits <= m
    ensures Joined(v, Low(buffer, m), bits) == Joined(v, buffer, bits)
    decreases bits
  {
    if bits > 0 { JoinedLow(v, buffer / 2, bits - 1, m - 1); }
  }

  /** Joining one whole chunk is a place-value step. */
  lemma {:induction false} JoinedChunk(v: nat, chunk: nat, width: nat)
    ensures Joined(v, chunk, width) == Shl(v, width) + Low(chunk, width)
    decreases width
  {
    if width > 0 { JoinedChunk(v, chunk / 2, width - 1); }
  }

  lemma Widths(v: nat)
    ensures Shl(v, 6) == v * 64 && Shl(v, 8) == v * 256
    ensures Pow2(6) == 64 && Pow2(8) == 256
  {
    assert Shl(v, 1) == 2 * v;
    assert Shl(v, 2) == 4 * v;
    assert Shl(v, 3) == 8 * v;
    assert Shl(v, 4) == 16 * v;
    assert Shl(v, 5) == 32 * v;
    assert Shl(v, 6) == 64 * v;
    assert Shl(v, 7) == 128 * v;
  }

  /** A `u32` after a left shift and an or: the surviving high part, then the chunk. */
  lemma ShiftedOr(buffer: nat, width: nat, chunk: nat)
    requires width <= 32 && chunk < Pow2(width)
    ensures Shr(BitOr(Shl32(buffer, width), chunk), width) == Low(buffer, 32 - width)
    ensures Low(BitOr(Shl32(buffer, width), chunk), width) == chunk
  {
    SmallValue(chunk, width);
    ShrOr(Shl32(buffer, width), chunk, width);
    ShrLow(Shl(buffer, width), 32, width);
    ShrShl(buffer, width);
    OrZero(Low(buffer, 32 - width));
    LowOr(Shl32(buffer, width), chunk, width);
    LowLow(Shl(buffer, width), 32, width);
    LowShl(buffer, width);
    OrZero(chunk);
  }

  /** Shifting a chunk into the `u32` buffer keeps every bit that is still unread. */
  lemma PushChunk(v: nat, buffer: nat, bits: nat, width: nat, chunk: nat)
    requires bits + width <= 32 && chunk < Pow2(width)
    ensures Joined(v, BitOr(Shl32(buffer, width), chunk), width + bits) == Shl(Joined(v, buffer, bits), width) + chunk
  {
    var next := BitOr(Shl32(buffer, width), chunk);
    ShiftedOr(buffer, width, chunk);
    JoinedSplit(v, next, width, bits);
    JoinedLow(v, buffer, bits, 32 - width);
    JoinedChunk(Joined(v, buffer, bits), next, width);
  }

  /** Reading the top `width` of the unread bits. */
  lemma PopChunk(v: nat, buffer: nat, bits: nat, width: nat)
    ensures Joined(v, buffer, bits + width) == Joined(Shl(v, width) + Low(Shr(buffer, bits), width), buffer, bits)
  {
    JoinedSplit(v, buffer, bits, width);
    JoinedChunk(v, Shr(buffer, bits), width);
  }

  /** Filling the last symbol with zero bits: `buffer <<= 6 - bits`. */
  lemma PadTail(v: nat, buffer: nat, bits: nat, width: nat)
    requires bits + width <= 32
    ensures Shl(v, width + bits) + Low(Shl32(buffer, width), width + bits) == Joined(Joined(v, buffer, bits), 0, width)
  {
    PushChunk(v, buffer, bits, width, 0);
    OrZero(Shl32(buffer, width));
    JoinedChunk(v, Shl32(buffer, width), width + bits);
    JoinedChunk(Joined(v, buffer, bits), 0, width);
    SmallValue(0, width);
  }

  function LowByte(v: nat): (b: byte) {
    LowRange(v, 8);
    Widths(v);
    Low(v, 8)
  }

  function LowSextet(v: nat): (x: sextet) {
    LowRange(v, 6);
    Widths(v);
    Low(v, 6)
  }

  // -- specifications ----------------------------------------------------------------------

  /** The symbols both decoders look at: everything before the first `=`. */
  function Payload(input: seq<byte>): (p: seq<byte>)
    ensures p <= input && PAD !in p
    ensures |p| < |input| ==> input[|p|] == PAD
  {
    if input == [] || input[0] == PAD then [] else [input[0]] + Payload(input[1..])
  }

  /** What decoding an input means: rejection names the first bad symbol, acceptance drops the trailing bits. */
  ghost predicate IsDecoding(input: seq<byte>, r: Decoded) {
    var p := Payload(input);
    match r
    case Rejected(b) =>
      exists i :: 0 <= i < |p| && p[i] == b && SextetOf(b) < 0 && forall k :: 0 <= k < i ==> SextetOf(p[k]) >= 0
    case Accepted(out) =>
      && AllSymbols(p)
      && |out| == 3 * |p| / 4
      && BytesValue(out) == Shr(SymbolsValue(p), 6 * |p| - 8 * |out|)
  }

  /** Symbols that spell the bytes' number followed by the padding zero bits. */
  ghost predicate Spells(input: seq<byte>, out: seq<byte>) {
    && |out| == (8 * |input| + 5) / 6
    && PAD !in out && AllSymbols(out)
    && SymbolsValue(out) == Joined(BytesValue(input), 0, 6 * |out| - 8 * |input|)
  }

  /** What encoding means: an unpadded spelling in the URL-safe alphabet. */
  ghost predicate IsEncoding(input: seq<byte>, out: seq<byte>) {
    && Spells(input, out)
    && (forall i :: 0 <= i < |out| ==> out[i] != '+' as int && out[i] != '/' as int)
  }

  // -- decoders ----------------------------------------------------------------------------

  /** The state both decoders keep after reading `read`: the output and `bits` unread buffer bits. */
  ghost predicate Midway(read: seq<byte>, out: seq<byte>, buffer: nat, bits: nat) {
    && AllSymbols(read)
    && bits % 2 == 0 && bits <= 12
    && 6 * |read| == 8 * |out| + bits
    && Joined(BytesValue(out), buffer, bits) == SymbolsValue(read)
  }

  lemma MidwayIsDecoding(input: seq<byte>, out: seq<byte>, buffer: nat, bits: nat)
    requires Midway(Payload(input), out, buffer, bits) && bits < 8
    ensures IsDecoding(input, Accepted(out))
  {
    var p := Payload(input);
    ByteCount(|p|, |out|, bits);
    ShrJoined(BytesValue(out), buffer, bits);
    assert BytesValue(out) == Shr(SymbolsValue(p), 6 * |p| - 8 * |out|);
  }

  lemma ByteCount(n: nat, m: nat, bits: nat)
    requires 6 * n == 8 * m + bits && bits < 8
    ensures m == 3 * n / 4
  {
  }

  lemma MidwayPush(read: seq<byte>, out: seq<byte>, buffer: nat, bits: nat, b: byte)
    requires Midway(read, out, buffer, bits) && bits < 8 && SextetOf(b) >= 0
    ensures Midway(read + [b], out, BitOr(Shl32(buffer, 6), SextetOf(b)), bits + 6)
  {
    Widths(SymbolsValue(read));
    PushChunk(BytesValue(out), buffer, bits, 6, SextetOf(b));
    SymbolsSnoc(read, b);
  }

  lemma PopByte(v: nat, buffer: nat, bits: nat)
    ensures Joined(v, buffer, bits + 8) == Joined(v * 256 + LowByte(Shr(buffer, bits)), buffer, bits)
  {
    Widths(v);
    PopChunk(v, buffer, bits, 8);
  }

  lemma PopSextet(v: nat, buffer: nat, bits: nat)
    ensures Joined(v, buffer, bits + 6) == Joined(v * 64 + LowSextet(Shr(buffer, bits)), buffer, bits)
  {
    Widths(v);
    PopChunk(v, buffer, bits, 6);
  }

  lemma AppendByte(out: seq<byte>, buffer: nat, bits: nat)
    ensures Joined(BytesValue(out + [LowByte(Shr(buffer, bits))]), buffer, bits) ==
      Joined(BytesValue(out), buffer, bits + 8)
  {
    var b := LowByte(Shr(buffer, bits));
    PopByte(BytesValue(out), buffer, bits);
    BytesSnoc(out, b);
    assert BytesValue(out + [b]) == BytesValue(out) * 256 + b;
  }

  lemma MidwayPop(read: seq<byte>, out: seq<byte>, buffer: nat, bits: nat, b: byte)
    requires bits <= 4 && Midway(read, out, buffer, bits + 8) && b == LowByte(Shr(buffer, bits))
    ensures Midway(read, out + [b], buffer, bits)
  {
    AppendByte(out, buffer, bits);
  }

  lemma {:induction false} PayloadStep(input: seq<byte>, i: nat)
    requires i <= |input| && PAD !in input[..i]
    ensures input[..i] <= Payload(input)
    ensures i == |input| || input[i] == PAD ==> Payload(input) == input[..i]
    ensures i < |input| && input[i] != PAD ==> |Payload(input)| > i && PAD !in input[..i + 1]
    decreases i
  {
    if i > 0 {
      assert input[..i][0] == input[0];
      assert input[1..][..i - 1] == input[..i][1..];
      PayloadStep(input[1..], i - 1);
    }
    if i < |input| { assert input[..i + 1] == input[..i] + [input[i]]; }
  }

  lemma RejectsAt(input: seq<byte>, i: nat)
    requires i < |input| && PAD !in input[..i] && AllSymbols(input[..i])
    requires input[i] != PAD && SextetOf(input[i]) < 0
    ensures IsDecoding(input, Rejected(input[i]))
  {
    PayloadStep(input, i);
    forall k | 0 <= k < i ensures SextetOf(Payload(input)[k]) >= 0 {
      assert Payload(input)[k] == input[..i][k];
    }
  }

  /** `codec::decode_base64url` of jwt.rs: an `if` extracts at most one byte per symbol. */
  method DecodeJwt(input: seq<byte>) returns (r: Decoded)
    ensures IsDecoding(input, r)
  {
    var output: seq<byte>, buffer: nat, bits: nat := [], 0, 0;
    var i := 0;
    while i < |input|
      invariant 0 <= i <= |input| && PAD !in input[..i]
      invariant Midway(input[..i], output, buffer, bits) && bits < 8
    {
      PayloadStep(input, i);
      if input[i] == PAD { break; }
      var value := SextetOf(input[i]);
      if value < 0 {
        RejectsAt(input, i);
        return Rejected(input[i]);
      }
      MidwayPush(input[..i], output, buffer, bits, input[i]);
      assert input[..i] + [input[i]] == input[..i + 1];
      buffer := BitOr(Shl32(buffer, 6), value);
      bits := bits + 6;
      if bits >= 8 {
        bits := bits - 8;
        var b := LowByte(Shr(buffer, bits));
        MidwayPop(input[..i + 1], output, buffer, bits, b);
        output := output + [b];
      }
      i := i + 1;
    }
    PayloadStep(input, i);
    MidwayIsDecoding(input, output, buffer, bits);
    r := Accepted(output);
  }

  /** `decode_base64url` of parsers.rs: a `while` extracts bytes, and rejection carries no symbol. */
  method DecodeClaims(input: seq<byte>) returns (accepted: bool, output: seq<byte>)
    ensures accepted ==> IsDecoding(input, Accepted(output))
    ensures !accepted ==> exists b :: IsDecoding(input, Rejected(b))
  {
    var buffer: nat, bits: nat := 0, 0;
    output := [];
    var i := 0;
    while i < |input|
      invariant 0 <= i <= |input| && PAD !in input[..i]
      invariant Midway(input[..i], output, buffer, bits) && bits < 8
    {
      PayloadStep(input, i);
      if input[i] == PAD { break; }
      var value := SextetOf(input[i]);
      if value < 0 {
        RejectsAt(input, i);
        return false, [];
      }
      MidwayPush(input[..i], output, buffer, bits, input[i]);
      assert input[..i] + [input[i]] == input[..i + 1];
      buffer := BitOr(Shl32(buffer, 6), value);
      bits := bits + 6;
      while bits >= 8
        invariant Midway(input[..i + 1], output, buffer, bits)
      {
        bits := bits - 8;
        var b := LowByte(Shr(buffer, bits));
        MidwayPop(input[..i + 1], output, buffer, bits, b);
        output := output + [b];
      }
      i := i + 1;
    }
    PayloadStep(input, i);
    MidwayIsDecoding(input, output, buffer, bits);
    accepted := true;
  }

  /** An input has one decoding, so any two decoders that meet the specification agree. */
  lemma DecodingUnique(input: seq<byte>, r: Decoded, s: Decoded)
    requires IsDecoding(input, r) && IsDecoding(input, s)
    ensures r == s
  {
    var p := Payload(input);
    match (r, s)
    case (Accepted(x), Accepted(y)) =>
      BytesInjective(x, y);
    case (Rejected(a), Rejected(b)) =>
    case (Accepted(_), Rejected(b)) =>
    case (Rejected(a), Accepted(_)) =>
  }

  /** The two decoders agree on every input: same acceptance, same bytes. */
  method DecodersAgree(input: seq<byte>) returns (r: Decoded, accepted: bool, bytes: seq<byte>)
    ensures r.Accepted? <==> accepted
    ensures accepted ==> r.bytes == bytes && |bytes| == 3 * |Payload(input)| / 4
  {
    r := DecodeJwt(input);
    accepted, bytes := DecodeClaims(input);
    if accepted {
      DecodingUnique(input, r, Accepted(bytes));
    } else {
      ghost var b :| IsDecoding(input, Rejected(b));
      DecodingUnique(input, r, Rejected(b));
    }
  }

  // -- encoder -----------------------------------------------------------------------------

  /** The encoder's running state: symbols from the standard table, `bits` unread buffer bits. */
  ghost predicate Emitting(read: seq<byte>, out: seq<byte>, buffer: nat, bits: nat) {
    && AllSymbols(out) && PAD !in out
    && bits % 2 == 0 && bits <= 12
    && 8 * |read| == 6 * |out| + bits
    && Joined(SymbolsValue(out), buffer, bits) == BytesValue(read)
  }

  lemma EmitOne(read: seq<byte>, out: seq<byte>, buffer: nat, bits: nat, symbol: byte)
    requires bits <= 6 && Emitting(read, out, buffer, bits + 6)
    requires symbol != PAD && SextetOf(symbol) == LowSextet(Shr(buffer, bits))
    ensures Emitting(read, out + [symbol], buffer, bits)
  {
    SymbolsSnoc(out, symbol);
    PopSextet(SymbolsValue(out), buffer, bits);
  }

  lemma ReadOne(read: seq<byte>, out: seq<byte>, buffer: nat, bits: nat, b: byte)
    requires bits <= 4 && Emitting(read, out, buffer, bits)
    ensures Emitting(read + [b], out, BitOr(Shl32(buffer, 8), b), bits + 8)
  {
    Widths(BytesValue(read));
    PushChunk(SymbolsValue(out), buffer, bits, 8, b);
    BytesSnoc(read, b);
  }

  lemma EmitTail(input: seq<byte>, out: seq<byte>, buffer: nat, bits: nat)
    requires bits <= 4 && Emitting(input, out, buffer, bits)
    ensures bits == 0 ==> Spells(input, out)
    ensures bits > 0 ==> Spells(input, out + [TableSymbol(LowSextet(Shl32(buffer, 6 - bits)))])
  {
    SymbolsSnoc(out, TableSymbol(LowSextet(Shl32(buffer, 6 - bits))));
    Widths(SymbolsValue(out));
    PadTail(SymbolsValue(out), buffer, bits, 6 - bits);
  }

  function MakeUrlSafe(s: seq<byte>): (r: seq<byte>)
    ensures |r| == |s|
    ensures forall i :: 0 <= i < |r| ==> r[i] == UrlSafe(s[i])
  {
    seq(|s|, i requires 0 <= i < |s| => UrlSafe(s[i]))
  }

  function TrimPad(s: seq<byte>): seq<byte> {
    if s != [] && s[|s| - 1] == PAD then TrimPad(s[..|s| - 1]) else s
  }

  lemma UrlSafeSpelling(input: seq<byte>, out: seq<byte>)
    requires Spells(input, out)
    ensures IsEncoding(input, TrimPad(MakeUrlSafe(out)))
  {
    var r := MakeUrlSafe(out);
    SymbolsAgree(r, out);
    assert TrimPad(r) == r;
  }

  /** `encode_base64url` of jwt_fixtures.rs. */
  method Encode(input: seq<byte>) returns (r: seq<byte>)
    ensures IsEncoding(input, r)
  {
    var output: seq<byte>, buffer: nat, bits: nat := [], 0, 0;
    for i := 0 to |input|
      invariant bits <= 4 && Emitting(input[..i], output, buffer, bits)
    {
      ReadOne(input[..i], output, buffer, bits, input[i]);
      assert input[..i] + [input[i]] == input[..i + 1];
      buffer := BitOr(Shl32(buffer, 8), input[i]);
      bits := bits + 8;
      while bits >= 6
        invariant Emitting(input[..i + 1], output, buffer, bits)
      {
        bits := bits - 6;
        var symbol := TableSymbol(LowSextet(Shr(buffer, bits)));
        EmitOne(input[..i + 1], output, buffer, bits, symbol);
        output := output + [symbol];
      }
    }
    assert input[..|input|] == input;
    EmitTail(input, output, buffer, bits);
    if bits > 0 {
      buffer := Shl32(buffer, 6 - bits);
      output := output + [TableSymbol(LowSextet(buffer))];
    }
    UrlSafeSpelling(input, output);
    r := TrimPad(MakeUrlSafe(output));
  }

  /** Decoding an encoding gives back the bytes, whatever they were. */
  lemma RoundTrip(input: seq<byte>, text: seq<byte>, r: Decoded)
    requires IsEncoding(input, text) && IsDecoding(text, r)
    ensures r == Accepted(input)
  {
    assert Payload(text) == text;
    match r {
      case Rejected(b) =>
      case Accepted(out) =>
        ShrJoined(BytesValue(input), 0, 6 * |text| - 8 * |input|);
        BytesInjective(out, input);
    }
  }

  // -- constant-time comparison ------------------------------------------------------------

  /** `codec::subtle_constant_time_eq`: the accumulated difference is zero exactly on equal slices. */
  method ConstantTimeEq(left: seq<byte>, right: seq<byte>) returns (equal: bool)
    ensures equal <==> left == right
  {
    if |left| != |right| { return false; }
    var diff: nat := 0;
    for i := 0 to |left|
      invariant diff == 0 <==> left[..i] == right[..i]
    {
      OrVanishes(diff, BitXor(left[i], right[i]));
      XorVanishes(left[i], right[i]);
      assert left[..i + 1] == left[..i] + [left[i]] && right[..i + 1] == right[..i] + [right[i]];
      diff := BitOr(diff, BitXor(left[i], right[i]));
    }
    assert left[..|left|] == left && right[..|right|] == right;
    equal := diff == 0;
  }

  // -- the alphabet ------------------------------------------------------------------------

  const UPPER: string := "ABCDEFGHIJKLMNOPQRSTUVWXYZ"
  const LOWER: string := "abcdefghijklmnopqrstuvwxyz"
  const DIGITS: string := "0123456789"
  /** Table 2 of RFC 4648. */
  const ALPHABET: string := UPPER + LOWER + DIGITS + "-_"

  lemma Consecutive(i: nat)
    requires i < 26
    ensures UPPER[i] as int == 'A' as int + i && LOWER[i] as int == 'a' as int + i
    ensures i < 10 ==> DIGITS[i] as int == '0' as int + i
  {
  }

  /** Which symbols stand for a value: its own in the URL-safe alphabet, and the two of the standard one. */
  lemma AlphabetExactly(v: sextet, b: byte)
    ensures |ALPHABET| == 64
    ensures SextetOf(b) == v <==>
      b == ALPHABET[v] as int || (v == 62 && b == '+' as int) || (v == 63 && b == '/' as int)
  {
    if v < 26 { Consecutive(v); } else if v < 52 { Consecutive(v - 26); } else if v < 62 { Consecutive(v - 52); }
  }
}
