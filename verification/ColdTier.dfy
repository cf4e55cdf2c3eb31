/** The cold tier (internal/coldtier/coldtier.go): object keys, the self-describing object frame, and
    the in-memory tier. A Get has to rebuild a servable entry, so the frame carries version and
    tokens beside the payload. */
module ColdTier {
  import opened Bytes

  // --- object keys -----------------------------------------------------------------------------

  const BLOCKS_PREFIX: Blob := [0x62, 0x6C, 0x6F, 0x63, 0x6B, 0x73, 0x2F]  // "blocks/"
  const SLASH: Byte := 0x2F

  /** One lower-case hexadecimal digit, as encoding/hex writes it. */
  function HexDigit(n: int): (r: Byte)
    requires 0 <= n < 16
  {
    if n < 10 then 0x30 + n else 0x61 + n - 10
  }

  function Hex(s: Blob): (r: Blob)
    ensures |r| == 2 * |s|
  {
    if s == [] then [] else [HexDigit(s[0] / 16), HexDigit(s[0] % 16)] + Hex(s[1..])
  }

  function ObjectKey(model: Blob, hash: Digest): (r: Blob)
    ensures |r| == |model| + 72
  {
    BLOCKS_PREFIX + model + [SLASH] + Hex(hash)
  }

  /** The key of a block: "blocks/", the model, a slash, and the hash in hexadecimal. */
  lemma {:induction false} ObjectKeyMeans(model: Blob, hash: Digest)
    ensures var key := ObjectKey(model, hash);
            && key[..7] == [0x62, 0x6C, 0x6F, 0x63, 0x6B, 0x73, 0x2F]
            && key[7..7 + |model|] == model && key[7 + |model|] == 0x2F && key[8 + |model|..] == Hex(hash)
  {
  }

  lemma {:induction false} HexInjective(a: Blob, b: Blob)
    requires Hex(a) == Hex(b)
    ensures a == b
  {
    assert |a| == |b|;
    if a != [] {
      var x, y := Hex(a), Hex(b);
      assert x[0] == y[0] && x[1] == y[1];
      assert x[2..] == Hex(a[1..]) && y[2..] == Hex(b[1..]);
      HexInjective(a[1..], b[1..]);
      assert a == [a[0]] + a[1..] && b == [b[0]] + b[1..];
    }
  }

  predicate IsHexDigit(c: Byte) {
    0x30 <= c < 0x3A || 0x61 <= c < 0x67
  }

  function HexValue(c: Byte): (n: int)
    requires IsHexDigit(c)
  {
    if c < 0x3A then c - 0x30 else c - 0x61 + 10
  }

  /** Two lower-case hexadecimal digits per byte, the high half first. */
  lemma {:induction false} HexMeans(s: Blob, i: nat)
    requires i < |s|
    ensures var a, b := Hex(s)[2 * i], Hex(s)[2 * i + 1];
            IsHexDigit(a) && IsHexDigit(b) && 16 * HexValue(a) + HexValue(b) == s[i]
  {
    if i > 0 {
      HexMeans(s[1..], i - 1);
      assert Hex(s)[2..] == Hex(s[1..]);
      assert Hex(s)[2 * i] == Hex(s[1..])[2 * (i - 1)] && Hex(s)[2 * i + 1] == Hex(s[1..])[2 * (i - 1) + 1];
    }
  }

  /** The hash suffix has a fixed length, so a model name holding '/' cannot shift the boundary. */
  lemma {:induction false} ObjectKeyInjective(m1: Blob, h1: Digest, m2: Blob, h2: Digest)
    requires ObjectKey(m1, h1) == ObjectKey(m2, h2)
    ensures m1 == m2 && h1 == h2
  {
    var a, b := ObjectKey(m1, h1), ObjectKey(m2, h2);
    assert |m1| == |m2|;
    assert a[7..7 + |m1|] == m1 && b[7..7 + |m2|] == m2;
    assert a[8 + |m1|..] == Hex(h1) && b[8 + |m2|..] == Hex(h2);
    HexInjective(h1, h2);
  }

  // --- the frame -------------------------------------------------------------------------------

  const MAGIC: Blob := [0x4B, 0x56, 0x43, 0x31]  // "KVC1"
  const HEADER_MIN := 16

  datatype Decoded = Ok(version: U64, tokens: seq<I32>, kv: Blob) | BadHeader | Overrun

  /** [4: magic][8: version][4: nTokens][4*nTokens: token ids][rest: kv], little endian. The token
      count is truncated to 32 bits, as the uint32 conversion in the source does. */
  function Encode(version: U64, tokens: seq<I32>, kv: Blob): (blob: Blob)
    ensures |blob| == HEADER_MIN + 4 * |tokens| + |kv|
  {
    MAGIC + Le64(version) + Le32(|tokens| % TWO32) + EncodeTokens(tokens) + kv
  }

  function Decode(blob: Blob): (r: Decoded) {
    if |blob| < HEADER_MIN || blob[..4] != MAGIC then BadHeader
    else
      var n := GetLe32(blob[12..16]);
      if HEADER_MIN + 4 * n > |blob| then Overrun
      else Ok(GetLe64(blob[4..12]), DecodeTokens(blob[16..16 + 4 * n]), blob[16 + 4 * n..])
  }

  lemma {:induction false} EncodeParts(version: U64, tokens: seq<I32>, kv: Blob)
    ensures var b := Encode(version, tokens, kv);
            && b[..4] == [0x4B, 0x56, 0x43, 0x31]
            && b[4..12] == Le64(version)
            && b[12..16] == Le32(|tokens| % TWO32)
            && b[16..16 + 4 * |tokens|] == EncodeTokens(tokens)
            && b[16 + 4 * |tokens|..] == kv
  {
    Slices(MAGIC, Le64(version), Le32(|tokens| % TWO32), EncodeTokens(tokens), kv);
  }

  lemma {:induction false} Slices(m: Blob, v: Blob, n: Blob, t: Blob, kv: Blob)
    requires |m| == 4 && |v| == 8 && |n| == 4
    ensures var b := m + v + n + t + kv;
            && b[..4] == m && b[4..12] == v && b[12..16] == n
            && b[16..16 + |t|] == t && b[16 + |t|..] == kv
  {
  }

  /** What reading back any prefix of a frame gives. Cutting inside the header or the tokens is an
      error; cutting inside the payload is not noticed: the shorter payload is accepted. */
  lemma {:induction false} DecodeOfPrefix(version: U64, tokens: seq<I32>, kv: Blob, m: nat)
    requires |tokens| < TWO32
    requires m <= HEADER_MIN + 4 * |tokens| + |kv|
    ensures var r := Decode(Encode(version, tokens, kv)[..m]);
            if m < HEADER_MIN + 4 * |tokens| then !r.Ok?
            else r == Ok(version, tokens, kv[..m - HEADER_MIN - 4 * |tokens|])
  {
    if m >= HEADER_MIN {
      CutHeader(version, tokens, kv, m);
      if m >= HEADER_MIN + 4 * |tokens| {
        CutBody(version, tokens, kv, m);
        TokensRoundTrip(tokens);
      }
    }
  }

  lemma {:induction false} CutHeader(version: U64, tokens: seq<I32>, kv: Blob, m: nat)
    requires |tokens| < TWO32 && HEADER_MIN <= m <= HEADER_MIN + 4 * |tokens| + |kv|
    ensures var b := Encode(version, tokens, kv)[..m];
            b[..4] == MAGIC && GetLe64(b[4..12]) == version && GetLe32(b[12..16]) == |tokens|
  {
    EncodeParts(version, tokens, kv);
    CutThree(Encode(version, tokens, kv), m);
    Le64RoundTrip(version);
    Le32RoundTrip(|tokens|);
  }

  lemma {:induction false} CutThree(s: Blob, m: nat)
    requires 16 <= m <= |s|
    ensures s[..m][..4] == s[..4] && s[..m][4..12] == s[4..12] && s[..m][12..16] == s[12..16]
  {
  }

  lemma {:induction false} CutBody(version: U64, tokens: seq<I32>, kv: Blob, m: nat)
    requires HEADER_MIN + 4 * |tokens| <= m <= HEADER_MIN + 4 * |tokens| + |kv|
    ensures var b, end := Encode(version, tokens, kv)[..m], HEADER_MIN + 4 * |tokens|;
            b[16..end] == EncodeTokens(tokens) && b[end..] == kv[..m - end]
  {
    EncodeParts(version, tokens, kv);
    CutSlice(Encode(version, tokens, kv), m, 16, HEADER_MIN + 4 * |tokens|);
    CutTail(Encode(version, tokens, kv), m, HEADER_MIN + 4 * |tokens|);
  }

  lemma {:induction false} CutSlice(s: Blob, m: nat, i: nat, j: nat)
    requires i <= j <= m <= |s|
    ensures s[..m][i..j] == s[i..j]
  {
  }

  lemma {:induction false} CutTail(s: Blob, m: nat, i: nat)
    requires i <= m <= |s|
    ensures s[..m][i..] == s[i..][..m - i]
  {
  }

  /** Decoding undoes encoding exactly when the token count fits its 32-bit field. */
  lemma {:induction false} DecodeEncode(version: U64, tokens: seq<I32>, kv: Blob)
    ensures Decode(Encode(version, tokens, kv)) == Ok(version, tokens, kv) <==> |tokens| < TWO32
  {
    var b := Encode(version, tokens, kv);
    if |tokens| < TWO32 {
      DecodeOfPrefix(version, tokens, kv, |b|);
      assert b[..|b|] == b && kv[..|kv|] == kv;
    } else {
      EncodeParts(version, tokens, kv);
      Le32RoundTrip(|tokens| % TWO32);
    }
  }

  /** Whatever blob decode accepts, encode writes back byte for byte: no two accepted objects have
      the same meaning. */
  lemma {:induction false} EncodeDecode(blob: Blob)
    ensures var r := Decode(blob);
            r.Ok? ==> |r.tokens| < TWO32 && Encode(r.version, r.tokens, r.kv) == blob
  {
    var r := Decode(blob);
    if r.Ok? {
      DecodedCount(blob);
      DecodedTokens(blob);
      GetLe64RoundTrip(blob[4..12]);
      JoinParts(blob, 16 + 4 * |r.tokens|, MAGIC, Le64(r.version), Le32(|r.tokens|), EncodeTokens(r.tokens), r.kv);
    }
  }

  lemma {:induction false} DecodedCount(blob: Blob)
    requires Decode(blob).Ok?
    ensures var r := Decode(blob);
            |r.tokens| < TWO32 && 16 + 4 * |r.tokens| <= |blob| && Le32(|r.tokens|) == blob[12..16]
  {
    GetLe32RoundTrip(blob[12..16]);
  }

  lemma {:induction false} DecodedTokens(blob: Blob)
    requires Decode(blob).Ok?
    ensures var r := Decode(blob);
            && 16 + 4 * |r.tokens| <= |blob|
            && EncodeTokens(r.tokens) == blob[16..16 + 4 * |r.tokens|] && r.kv == blob[16 + 4 * |r.tokens|..]
  {
    var n: int := GetLe32(blob[12..16]);
    DecodeTokensRoundTrip(blob[16..16 + 4 * n]);
  }

  lemma {:induction false} JoinParts(blob: Blob, end: nat, m: Blob, v: Blob, n: Blob, t: Blob, kv: Blob)
    requires 16 <= end <= |blob|
    requires m == blob[..4] && v == blob[4..12] && n == blob[12..16] && t == blob[16..end] && kv == blob[end..]
    ensures m + v + n + t + kv == blob
  {
  }

  /** A truncated object is not always an error, whatever the comment on decode says. */
  lemma {:induction false} TruncationCanPass()
    ensures Decode(Encode(1, [], [7, 8])[..17]) == Ok(1, [], [7])
  {
    DecodeOfPrefix(1, [], [7, 8], 17);
    assert [7, 8][..1] == [7];
  }

  // --- the source's loops ----------------------------------------------------------------------

  /** encode: a fresh buffer filled field by field. */
  method EncodeBlob(version: U64, tokens: seq<I32>, kv: Blob) returns (blob: Blob)
    ensures blob == Encode(version, tokens, kv)
  {
    var out := MAGIC + Le64(version) + Le32(|tokens| % TWO32);
    ghost var header := out;
    var i := 0;
    while i < |tokens|
      invariant 0 <= i <= |tokens|
      invariant out + EncodeTokens(tokens[i..]) == header + EncodeTokens(tokens)
    {
      assert tokens[i..][0] == tokens[i] && tokens[i..][1..] == tokens[i + 1..];
      out := out + Le32(ToU32(tokens[i]));
      i := i + 1;
    }
    blob := out + kv;
  }

  /** decode: validate, then read the tokens one by one. Every slice is within bounds. */
  method DecodeBlob(blob: Blob) returns (r: Decoded)
    ensures r == Decode(blob)
  {
    if |blob| < HEADER_MIN || blob[0..4] != MAGIC {
      return BadHeader;
    }
    var version := GetLe64(blob[4..12]);
    var n := GetLe32(blob[12..16]);
    if 16 + 4 * n > |blob| {
      return Overrun;
    }
    var tokens: seq<I32> := [];
    var off, i := 16, 0;
    while i < n
      invariant 0 <= i <= n && off == 16 + 4 * i
      invariant tokens + DecodeTokens(blob[off..16 + 4 * n]) == DecodeTokens(blob[16..16 + 4 * n])
    {
      var rest := blob[off..16 + 4 * n];
      assert rest[..4] == blob[off..off + 4] && rest[4..] == blob[off + 4..16 + 4 * n];
      tokens := tokens + [ToI32(GetLe32(blob[off..off + 4]))];
      off, i := off + 4, i + 1;
    }
    r := Ok(version, tokens, blob[off..]);
  }

  // --- the in-memory tier ----------------------------------------------------------------------

  datatype Cold = Miss | Failed | Hit(kv: Blob, version: U64, tokens: seq<I32>)

  /** What a tier holding these objects answers. */
  function Read(objects: map<Blob, Blob>, model: Blob, hash: Digest): (r: Cold) {
    var key := ObjectKey(model, hash);
    if key !in objects then Miss
    else match Decode(objects[key])
      case Ok(v, t, kv) => Hit(kv, v, t)
      case _ => Failed
  }

  class Memory {
    var m: map<Blob, Blob>

    constructor ()
      ensures m == map[]
    {
      m := map[];
    }

    method Spill(model: Blob, hash: Digest, version: U64, tokens: seq<I32>, kv: Blob)
      modifies this
      ensures m == old(m)[ObjectKey(model, hash) := Encode(version, tokens, kv)]
      ensures |tokens| < TWO32 ==> Read(m, model, hash) == Hit(kv, version, tokens)
      ensures forall mo, h: Digest :: (mo, h) != (model, hash) ==> Read(m, mo, h) == Read(old(m), mo, h)
    {
      var blob := EncodeBlob(version, tokens, kv);
      m := m[ObjectKey(model, hash) := blob];
      DecodeEncode(version, tokens, kv);
      forall mo, h: Digest | (mo, h) != (model, hash)
        ensures Read(m, mo, h) == Read(old(m), mo, h)
      {
        if ObjectKey(mo, h) == ObjectKey(model, hash) {
          ObjectKeyInjective(mo, h, model, hash);
        }
      }
    }

    method Get(model: Blob, hash: Digest) returns (r: Cold)
      ensures r == Read(m, model, hash)
    {
      var key := ObjectKey(model, hash);
      if key !in m {
        return Miss;
      }
      var d := DecodeBlob(m[key]);
      match d {
        case Ok(v, t, kv) => r := Hit(kv, v, t);
        case _ => r := Failed;
      }
    }
  }
}
