/**
 The variable-length integers of the data segment: the writers of oi/FuncGen.cpp and
 include/oi/types/st.h and the reader of oi/exporters/ParsedData.cpp. The format is the
 unsigned LEB128 of section 7.6 of the DWARF 5 standard.
 */
module Leb128 {
  import opened Machine

  const MAX_BYTES: nat := 10

  /** What a reader makes of a byte sequence. */
  datatype Decoded = TooFewBytes | TooManyBytes | Value(value: U64, rest: seq<Byte>)

  function Pow128(k: nat): (p: nat)
    ensures p > 0
  {
    if k == 0 then 1 else 128 * Pow128(k - 1)
  }

  /** The bytes that encode `v`: groups of seven bits, least significant first. */
  function Encode(v: nat): (s: seq<Byte>)
    ensures |s| > 0
  {
    if v < 128 then [v] else [128 + v % 128] + Encode(v / 128)
  }

  /** The number that a sequence of groups denotes. */
  function Number(s: seq<Byte>): nat
  {
    if s == [] then 0 else s[0] % 128 + 128 * Number(s[1..])
  }

  /** The index of the first byte without the continuation bit, or |s|. */
  function Terminator(s: seq<Byte>): (n: nat)
    ensures n <= |s|
    ensures n < |s| ==> s[n] < 128
    ensures forall i :: 0 <= i < n ==> s[i] >= 128
  {
    if s == [] || s[0] < 128 then 0 else 1 + Terminator(s[1..])
  }

  /** One LEB128 number from the front of `s`, cut off at 64 bits. */
  function Read(s: seq<Byte>): (d: Decoded)
    ensures d.Value? ==> |d.rest| < |s| && d.rest == s[|s| - |d.rest|..]
  {
    var n := Terminator(s);
    if n >= MAX_BYTES then TooManyBytes
    else if n == |s| then TooFewBytes
    else Value(Number(s[..n + 1]) % U64_LIMIT, s[n + 1..])
  }

  // ----- the encoder and the decoder are inverse

  lemma {:induction false} TerminatorOfEncode(v: nat, rest: seq<Byte>)
    ensures Terminator(Encode(v) + rest) == |Encode(v)| - 1
    ensures Number(Encode(v)) == v
  {
    var s := Encode(v) + rest;
    if v < 128 {
      assert Number([v]) == v;
    } else {
      TerminatorOfEncode(v / 128, rest);
      assert s[1..] == Encode(v / 128) + rest;
      assert Encode(v)[1..] == Encode(v / 128);
    }
  }

  /** A number needs one byte for every seven bits. */
  lemma {:induction false} EncodeLength(v: nat, k: nat)
    requires k > 0
    ensures |Encode(v)| <= k <==> v < Pow128(k)
  {
    if v >= 128 && k > 1 {
      EncodeLength(v / 128, k - 1);
    }
  }

  lemma Pow128Values()
    ensures Pow128(9) == 0x8000_0000_0000_0000
    ensures Pow128(10) > U64_LIMIT
  {
    assert Pow128(3) == 0x20_0000;
    assert Pow128(6) == 128 * (128 * (128 * Pow128(3)));
    assert Pow128(9) == 128 * (128 * (128 * Pow128(6)));
  }

  lemma EncodeFitsTenBytes(v: U64)
    ensures 1 <= |Encode(v)| <= MAX_BYTES
  {
    Pow128Values();
    EncodeLength(v, 10);
  }

  /** Reading what was written gives the number back and leaves the rest untouched. */
  lemma ReadEncode(v: U64, rest: seq<Byte>)
    ensures Read(Encode(v) + rest) == Value(v, rest)
  {
    TerminatorOfEncode(v, rest);
    EncodeFitsTenBytes(v);
    var s, n := Encode(v) + rest, |Encode(v)|;
    assert s[..n] == Encode(v) && s[n..] == rest;
  }

  /** No encoding is longer than another spelling of the same number. */
  lemma {:induction false} EncodeIsShortest(s: seq<Byte>)
    requires s != []
    ensures |Encode(Number(s))| <= |s|
  {
    NumberBound(s);
    EncodeLength(Number(s), |s|);
  }

  lemma {:induction false} NumberBound(s: seq<Byte>)
    ensures Number(s) < Pow128(|s|)
  {
    if s != [] {
      NumberBound(s[1..]);
    }
  }

  lemma {:induction false} NumberAppend(s: seq<Byte>, b: Byte)
    ensures Number(s + [b]) == Number(s) + b % 128 * Pow128(|s|)
  {
    if s == [] {
      assert [b][1..] == [];
      assert s + [b] == [b];
    } else {
      NumberAppend(s[1..], b);
      assert (s + [b])[1..] == s[1..] + [b];
      var x, p := b % 128, Pow128(|s| - 1);
      assert 128 * (x * p) == x * (128 * p);
    }
  }

  /** The encodings of several numbers, one after the other. */
  function EncodeAll(ws: seq<U64>): seq<Byte>
  {
    if ws == [] then [] else Encode(ws[0]) + EncodeAll(ws[1..])
  }

  lemma {:induction false} EncodeAllConcat(vs: seq<U64>, ws: seq<U64>)
    ensures EncodeAll(vs + ws) == EncodeAll(vs) + EncodeAll(ws)
  {
    if vs == [] {
      assert vs + ws == ws;
    } else {
      assert (vs + ws)[1..] == vs[1..] + ws;
      EncodeAllConcat(vs[1..], ws);
      assert (Encode(vs[0]) + EncodeAll(vs[1..])) + EncodeAll(ws) == Encode(vs[0]) + (EncodeAll(vs[1..]) + EncodeAll(ws));
    }
  }

  // ----- the loops of the source

  /** `EncodeVarintSize`: counts the bytes without writing them. */
  method EncodeVarintSize(val: U64) returns (s: nat)
    ensures s == |Encode(val)|
  {
    var v: U64 := val;
    s := 1;
    while v >= 128
      invariant s - 1 + |Encode(v)| == |Encode(val)|
    {
      s := s + 1;
      v := v / 128;
    }
  }

  /** `mem` with `bytes` written over it from index `start`. */
  function Overwrite<T>(mem: seq<T>, start: nat, bytes: seq<T>): (r: seq<T>)
    requires start + |bytes| <= |mem|
    ensures |r| == |mem| && r[start..start + |bytes|] == bytes
    ensures r[..start] == mem[..start] && r[start + |bytes|..] == mem[start + |bytes|..]
  {
    mem[..start] + bytes + mem[start + |bytes|..]
  }

  /** `EncodeVarint`: writes through a moving pointer. */
  method EncodeVarint(val: U64, buf: array<Byte>, start: nat) returns (n: nat)
    requires start + |Encode(val)| <= buf.Length
    modifies buf
    ensures n == |Encode(val)|
    ensures buf[..] == Overwrite(old(buf[..]), start, Encode(val))
  {
    var v: U64 := val;
    var p := start;
    ghost var before, done: seq<Byte> := buf[..], [];
    while v >= 128
      invariant p == start + |done| && done + Encode(v) == Encode(val)
      invariant buf[..] == Overwrite(before, start, done)
    {
      buf[p] := 128 + v % 128;
      done := done + [128 + v % 128];
      p := p + 1;
      v := v / 128;
    }
    buf[p] := v;
    p := p + 1;
    n := p - start;
    assert Encode(val) == done + [v];
  }

  /** `x << (7 * k)` on 64-bit words. */
  function Shl7(x: nat, k: nat): (r: U64)
  {
    x * Pow128(k) % U64_LIMIT
  }

  /** `v |= x` when the bits of `x` lie above those of `v`. */
  function OrAbove(v: nat, x: nat, bound: nat): (r: nat)
    requires bound > 0 && v < bound && x % bound == 0
  {
    v + x
  }

  /** `v |= uint64_t(b & 0x7f) << (7 * k)`. */
  function OrGroup(v: nat, b: Byte, k: nat): (r: U64)
    requires k < MAX_BYTES && v < Pow128(k)
    ensures r == (v + b % 128 * Pow128(k)) % U64_LIMIT
  {
    ShiftInto(b % 128, k, v);
    OrAbove(v, Shl7(b % 128, k), Pow128(k))
  }

  lemma Pow128DividesLimit(k: nat) returns (q: nat)
    requires k < MAX_BYTES
    ensures q > 0 && Pow128(k) * q == U64_LIMIT
    decreases MAX_BYTES - k
  {
    if k == 9 {
      Pow128Values();
      q := 2;
    } else {
      var q' := Pow128DividesLimit(k + 1);
      q := 128 * q';
      assert Pow128(k) * (128 * q') == (128 * Pow128(k)) * q';
    }
  }

  lemma ModOfMultiple(x: nat, p: nat, q: nat, m: nat, low: nat)
    requires p > 0 && q > 0 && low < p && m == p * q
    ensures m > 0 && (x * p + low) % m == (x % q) * p + low
  {
    var d, r := x / q, x % q;
    assert x * p == d * m + r * p by {
      Distribute(d * q, r, p);
      assert d * q * p == d * (p * q);
    }
    MulMono(r + 1, q, p);
    Distribute(r, 1, p);
    assert p * q > 0 by { MulMono(1, q, p); }
    DivModUnique(x * p + low, m, d, r * p + low);
  }

  lemma ShiftInto(x: nat, k: nat, low: nat)
    requires k < MAX_BYTES && low < Pow128(k)
    ensures Shl7(x, k) % Pow128(k) == 0
    ensures low + Shl7(x, k) == (low + x * Pow128(k)) % U64_LIMIT
  {
    var p := Pow128(k);
    var q := Pow128DividesLimit(k);
    ModOfMultiple(x, p, q, U64_LIMIT, 0);
    ModOfMultiple(x, p, q, U64_LIMIT, low);
    MultipleOf(x % q, p);
  }

  /** Below ten groups nothing is cut off. */
  lemma NoCutOff(s: seq<Byte>)
    requires |s| < MAX_BYTES
    ensures Number(s) < Pow128(|s|)
    ensures Number(s) < U64_LIMIT && Number(s) % U64_LIMIT == Number(s)
  {
    NumberBound(s);
    var q := Pow128DividesLimit(|s|);
    MulMono(1, q, Pow128(|s|));
  }

  /** The next group goes above what was read. */
  lemma NextGroup(s: seq<Byte>, b: Byte)
    requires |s| < MAX_BYTES && Number(s) < Pow128(|s|)
    ensures OrGroup(Number(s), b, |s|) == Number(s + [b]) % U64_LIMIT
  {
    NumberAppend(s, b);
  }

  /**
   `parseVarint`. The source dereferences the iterator without a bound and shifts a 64-bit word
   by a growing amount, so it demands a terminator among the first ten bytes.
   */
  method ParseVarint(data: seq<Byte>, it: nat) returns (v: U64, next: nat)
    requires it <= |data| && Read(data[it..]).Value?
    ensures it < next <= |data|
    ensures Read(data[it..]) == Value(v, data[next..])
  {
    ghost var input, done: seq<Byte> := data[it..], [];
    ghost var n := Terminator(input);
    v, next := 0, it;
    while data[next] >= 0x80
      invariant next == it + |done| && |done| <= n < |input| && n < MAX_BYTES
      invariant done == input[..|done|] && v == Number(done)
      decreases n - |done|
    {
      assert data[next] == input[|done|];
      NoCutOff(done);
      NextGroup(done, data[next]);
      NoCutOff(done + [data[next]]);
      v := OrGroup(v, data[next], next - it);
      done := done + [data[next]];
      next := next + 1;
    }
    assert data[next] == input[|done|];
    NoCutOff(done);
    NextGroup(done, data[next]);
    v := OrGroup(v, data[next], next - it);
    assert input[..n + 1] == done + [data[next]];
    next := next + 1;
    assert data[next..] == input[n + 1..];
  }
}
