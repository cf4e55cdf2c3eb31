/** Bytes, fixed-width integers and their encodings, as Go's encoding/binary lays them out.

    Integers are unbounded in Dafny, so widths are subset types and every conversion that can lose
    something is written out. Hash functions are parameters; what is assumed of one is always about
    a given finite set of inputs. */
module Bytes {

  type Byte = b: int | 0 <= b < 256
  type Blob = seq<Byte>

  /** A SHA-256 output: exactly 32 bytes. */
  type Digest = d: Blob | |d| == 32 witness Fill(32, 0)

  datatype Option<T> = None | Some(value: T)

  const TWO32 := 0x1_0000_0000
  const TWO64 := 0x1_0000_0000_0000_0000
  const U64_MAX := 0xFFFF_FFFF_FFFF_FFFF

  type U32 = x: int | 0 <= x < TWO32
  type U64 = x: int | 0 <= x < TWO64
  type I32 = x: int | -0x8000_0000 <= x < 0x8000_0000

  /** The hash function is a parameter of everything that calls it. */
  type Hasher = Blob -> Digest

  function Fill(n: nat, b: Byte): (r: Blob)
    ensures |r| == n && forall i :: 0 <= i < n ==> r[i] == b
  {
    seq(n, _ => b)
  }

  /** No two different members of `inputs` have the same digest. A hash onto 32 bytes cannot be
      injective on all inputs, so the premise is always about the inputs actually hashed. */
  ghost predicate CollisionFreeOn(sha: Hasher, inputs: set<Blob>) {
    forall x, y :: x in inputs && y in inputs && sha(x) == sha(y) ==> x == y
  }

  // --- little endian ---------------------------------------------------------------------------

  function Pow256(n: nat): (r: int)
    ensures r > 0
  {
    if n == 0 then 1 else 256 * Pow256(n - 1)
  }

  lemma {:induction false} Pow256Values()
    ensures Pow256(4) == TWO32 && Pow256(8) == TWO64
  {
    assert Pow256(2) == 256 * Pow256(1) == 65536;
    assert Pow256(4) == 256 * Pow256(3) == 65536 * Pow256(2);
    assert Pow256(6) == 256 * Pow256(5) == 65536 * Pow256(4);
    assert Pow256(8) == 256 * Pow256(7) == 65536 * Pow256(6);
  }

  /** The n low-order bytes of x, least significant first. */
  function LittleEndian(x: nat, n: nat): (r: Blob)
    ensures |r| == n
  {
    if n == 0 then [] else [x % 256] + LittleEndian(x / 256, n - 1)
  }

  function FromLittleEndian(s: Blob): (r: nat) {
    if s == [] then 0 else s[0] + 256 * FromLittleEndian(s[1..])
  }

  lemma {:induction false} LittleEndianRoundTrip(x: nat, n: nat)
    requires x < Pow256(n)
    ensures FromLittleEndian(LittleEndian(x, n)) == x
  {
    if n > 0 {
      LittleEndianRoundTrip(x / 256, n - 1);
      assert LittleEndian(x, n)[1..] == LittleEndian(x / 256, n - 1);
    }
  }

  lemma {:induction false} LowByte(b: Byte, rest: nat)
    ensures (b + 256 * rest) % 256 == b && (b + 256 * rest) / 256 == rest
  {
  }

  lemma {:induction false} FromLittleEndianRoundTrip(s: Blob)
    ensures FromLittleEndian(s) < Pow256(|s|)
    ensures LittleEndian(FromLittleEndian(s), |s|) == s
  {
    if s != [] {
      var rest := FromLittleEndian(s[1..]);
      FromLittleEndianRoundTrip(s[1..]);
      LowByte(s[0], rest);
      assert [s[0]] + s[1..] == s;
    }
  }

  /** Byte i of a little-endian number counts 256^i. */
  lemma {:induction false} LittleEndianAt(x: nat, n: nat, i: nat)
    requires i < n
    ensures LittleEndian(x, n)[i] == x / Pow256(i) % 256
  {
    if i > 0 {
      LittleEndianAt(x / 256, n - 1, i - 1);
      DivideTwice(x, Pow256(i - 1));
    }
  }

  lemma {:induction false} DivideTwice(x: nat, m: nat)
    requires m > 0
    ensures x / 256 / m == x / (256 * m)
  {
    var q, r := x / 256, x % 256;
    var a, b := q / m, q % m;
    assert x == 256 * q + r && q == a * m + b;
    assert x == a * (256 * m) + (256 * b + r);
    assert 256 * b + r < 256 * m;
    QuotientUnique(x, a, 256 * m, 256 * b + r);
  }

  lemma {:induction false} QuotientUnique(x: int, q: int, d: int, r: int)
    requires d > 0 && 0 <= r < d && x == q * d + r
    ensures x / d == q
  {
    var p, s := x / d, x % d;
    assert x == p * d + s && 0 <= s < d;
    assert (p - q) * d == r - s;
    SmallMultiple(p - q, d);
  }

  lemma {:induction false} SmallMultiple(n: int, d: int)
    requires d > 0
    ensures -d < n * d < d ==> n == 0
  {
    if n >= 1 {
      assert (n - 1) * d >= 0;
    } else if n <= -1 {
      assert (-n - 1) * d >= 0;
    }
  }

  lemma {:induction false} FirstByteIsLowest(s: Blob)
    requires |s| == 8
    ensures GetLe64(s) % 16 == s[0] % 16
  {
    var rest := FromLittleEndian(s[1..]);
    assert GetLe64(s) == s[0] + 16 * (16 * rest);
  }

  function Le32(x: U32): (r: Blob)
    ensures |r| == 4
  {
    LittleEndian(x, 4)
  }

  function Le64(x: U64): (r: Blob)
    ensures |r| == 8
  {
    LittleEndian(x, 8)
  }

  function GetLe32(s: Blob): (r: U32)
    requires |s| == 4
  {
    Pow256Values();
    FromLittleEndianRoundTrip(s);
    FromLittleEndian(s)
  }

  function GetLe64(s: Blob): (r: U64)
    requires |s| == 8
  {
    Pow256Values();
    FromLittleEndianRoundTrip(s);
    FromLittleEndian(s)
  }

  lemma {:induction false} Le32RoundTrip(x: U32)
    ensures GetLe32(Le32(x)) == x
  {
    Pow256Values();
    LittleEndianRoundTrip(x, 4);
  }

  lemma {:induction false} Le64RoundTrip(x: U64)
    ensures GetLe64(Le64(x)) == x
  {
    Pow256Values();
    LittleEndianRoundTrip(x, 8);
  }

  lemma {:induction false} GetLe32RoundTrip(s: Blob)
    requires |s| == 4
    ensures Le32(GetLe32(s)) == s
  {
    FromLittleEndianRoundTrip(s);
  }

  lemma {:induction false} GetLe64RoundTrip(s: Blob)
    requires |s| == 8
    ensures Le64(GetLe64(s)) == s
  {
    FromLittleEndianRoundTrip(s);
  }

  /** Where each byte of an encoded number goes. */
  lemma {:induction false} Le32At(x: U32, i: nat)
    requires i < 4
    ensures Le32(x)[i] == x / Pow256(i) % 256
  {
    LittleEndianAt(x, 4, i);
  }

  lemma {:induction false} Le64At(x: U64, i: nat)
    requires i < 8
    ensures Le64(x)[i] == x / Pow256(i) % 256
  {
    LittleEndianAt(x, 8, i);
  }

  /** Go's uint32(t) and int32(u): two's complement reinterpretation. */
  function ToU32(t: I32): (u: U32) {
    if t < 0 then t + TWO32 else t
  }

  function ToI32(u: U32): (t: I32) {
    if u < 0x8000_0000 then u else u - TWO32
  }

  // --- token lists -----------------------------------------------------------------------------

  /** Every token as four little-endian bytes, in order. */
  function EncodeTokens(tokens: seq<I32>): (r: Blob)
    ensures |r| == 4 * |tokens|
  {
    if tokens == [] then [] else Le32(ToU32(tokens[0])) + EncodeTokens(tokens[1..])
  }

  function DecodeTokens(s: Blob): (r: seq<I32>)
    requires |s| % 4 == 0
    ensures 4 * |r| == |s|
  {
    if s == [] then [] else [ToI32(GetLe32(s[..4]))] + DecodeTokens(s[4..])
  }

  /** Token j is the four bytes at 4j: its two's complement value, lowest byte first. */
  lemma {:induction false} EncodeTokensAt(tokens: seq<I32>, j: nat)
    requires j < |tokens|
    ensures var t: int := tokens[j];
            EncodeTokens(tokens)[4 * j..4 * j + 4] == Le32(if t < 0 then t + 0x1_0000_0000 else t)
  {
    var s := EncodeTokens(tokens);
    if j == 0 {
      assert s[0..4] == Le32(ToU32(tokens[0]));
    } else {
      var rest := EncodeTokens(tokens[1..]);
      EncodeTokensAt(tokens[1..], j - 1);
      assert s[4..] == rest;
      assert s[4 * j..4 * j + 4] == rest[4 * (j - 1)..4 * (j - 1) + 4];
    }
  }

  lemma {:induction false} TokensRoundTrip(tokens: seq<I32>)
    ensures DecodeTokens(EncodeTokens(tokens)) == tokens
  {
    if tokens != [] {
      var s := EncodeTokens(tokens);
      assert s[..4] == Le32(ToU32(tokens[0]));
      assert s[4..] == EncodeTokens(tokens[1..]);
      Le32RoundTrip(ToU32(tokens[0]));
      TokensRoundTrip(tokens[1..]);
    }
  }

  lemma {:induction false} DecodeTokensRoundTrip(s: Blob)
    requires |s| % 4 == 0
    ensures EncodeTokens(DecodeTokens(s)) == s
  {
    if s != [] {
      GetLe32RoundTrip(s[..4]);
      DecodeTokensRoundTrip(s[4..]);
      var d := DecodeTokens(s);
      assert d[1..] == DecodeTokens(s[4..]);
      assert s[..4] + s[4..] == s;
    }
  }

  // --- big endian, as the ring reads positions --------------------------------------------------

  function BigEndian64(s: Blob): (r: U64)
    requires |s| == 8
  {
    Pow256Values();
    FromLittleEndianRoundTrip(Reverse(s));
    FromLittleEndian(Reverse(s))
  }

  /** Byte i of eight counts 256^(7-i). */
  lemma {:induction false} BigEndianAt(s: Blob, i: nat)
    requires |s| == 8 && i < 8
    ensures BigEndian64(s) / Pow256(7 - i) % 256 == s[i]
  {
    var r := Reverse(s);
    FromLittleEndianRoundTrip(r);
    LittleEndianAt(FromLittleEndian(r), 8, 7 - i);
    assert r[7 - i] == s[i];
  }

  function Reverse(s: Blob): (r: Blob)
    ensures |r| == |s|
  {
    seq(|s|, i requires 0 <= i < |s| => s[|s| - 1 - i])
  }
}
