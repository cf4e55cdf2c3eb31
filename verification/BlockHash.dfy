/** Chained per-block keys (internal/blockhash/blockhash.go and its Python twin hashing.py). */
module BlockHash {
  import opened Bytes
  import opened Chains

  // "kvcache/v1\x00"
  const SEED_PREFIX: Blob := [0x6B, 0x76, 0x63, 0x61, 0x63, 0x68, 0x65, 0x2F, 0x76, 0x31, 0x00]

  type Block = Link<Digest, I32>

  function Seed(sha: Hasher, model: Blob): (r: Digest) {
    sha(SEED_PREFIX + model)
  }

  /** SHA256(prev || encode(block)). */
  function Next(sha: Hasher): (r: (Digest, seq<I32>) -> Digest) {
    (prev, block) => sha(prev + EncodeTokens(block))
  }

  function Chain(sha: Hasher, model: Blob, tokens: seq<I32>, size: int): (r: seq<Block>) {
    if size <= 0 then [] else ChainFrom(Next(sha), Seed(sha, model), tokens, size)
  }

  ghost function HashInput(p: (Digest, seq<I32>)): (r: Blob) {
    p.0 + EncodeTokens(p.1)
  }

  /** Everything hashed while building that chain. */
  ghost function Inputs(sha: Hasher, model: Blob, tokens: seq<I32>, size: int): (r: set<Blob>)
    requires size > 0
  {
    {SEED_PREFIX + model} + set p | p in PairsFrom(Next(sha), Seed(sha, model), tokens, size) :: HashInput(p)
  }

  lemma {:induction false} HashInputInjective(p: (Digest, seq<I32>), q: (Digest, seq<I32>))
    requires HashInput(p) == HashInput(q)
    ensures p == q
  {
    assert HashInput(p)[..32] == p.0 && HashInput(q)[..32] == q.0;
    assert HashInput(p)[32..] == EncodeTokens(p.1) && HashInput(q)[32..] == EncodeTokens(q.1);
    TokensRoundTrip(p.1);
    TokensRoundTrip(q.1);
  }

  lemma {:induction false} NextSeparates(sha: Hasher, pairs: set<(Digest, seq<I32>)>, inputs: set<Blob>)
    requires CollisionFreeOn(sha, inputs)
    requires forall p :: p in pairs ==> HashInput(p) in inputs
    ensures Separates(Next(sha), pairs)
  {
    forall p, q | p in pairs && q in pairs && Next(sha)(p.0, p.1) == Next(sha)(q.0, q.1)
      ensures p == q
    {
      assert sha(HashInput(p)) == sha(HashInput(q));
      HashInputInjective(p, q);
    }
  }

  lemma {:induction false} SeedSeparates(sha: Hasher, m1: Blob, m2: Blob, inputs: set<Blob>)
    requires CollisionFreeOn(sha, inputs)
    requires SEED_PREFIX + m1 in inputs && SEED_PREFIX + m2 in inputs
    ensures Seed(sha, m1) == Seed(sha, m2) <==> m1 == m2
  {
    assert (SEED_PREFIX + m1)[11..] == m1 && (SEED_PREFIX + m2)[11..] == m2;
  }

  /** Collision freedom on what two chains hash is all the chain lemmas need. */
  lemma {:induction false} ChainsSeparate(sha: Hasher, m1: Blob, t1: seq<I32>, m2: Blob, t2: seq<I32>, size: int)
    requires size > 0
    requires CollisionFreeOn(sha, Inputs(sha, m1, t1, size) + Inputs(sha, m2, t2, size))
    ensures Separates(Next(sha), PairsFrom(Next(sha), Seed(sha, m1), t1, size)
                                 + PairsFrom(Next(sha), Seed(sha, m2), t2, size))
    ensures Seed(sha, m1) == Seed(sha, m2) <==> m1 == m2
  {
    var all := Inputs(sha, m1, t1, size) + Inputs(sha, m2, t2, size);
    var pairs := PairsFrom(Next(sha), Seed(sha, m1), t1, size) + PairsFrom(Next(sha), Seed(sha, m2), t2, size);
    NextSeparates(sha, pairs, all);
    SeedSeparates(sha, m1, m2, all);
  }

  /** Hash equality means prefix equality: two chains agree at block i exactly when the models and
      the first Covered(i+1, size) = (i+1)*size tokens are the same. */
  lemma {:induction false} ChainMeansPrefix(
    sha: Hasher, m1: Blob, t1: seq<I32>, m2: Blob, t2: seq<I32>, size: int, i: nat)
    requires size > 0
    requires i < |Chain(sha, m1, t1, size)| && i < |Chain(sha, m2, t2, size)|
    requires CollisionFreeOn(sha, Inputs(sha, m1, t1, size) + Inputs(sha, m2, t2, size))
    ensures Covered(i + 1, size) <= |t1| && Covered(i + 1, size) <= |t2|
    ensures Chain(sha, m1, t1, size)[i].hash == Chain(sha, m2, t2, size)[i].hash
            <==> m1 == m2 && t1[..Covered(i + 1, size)] == t2[..Covered(i + 1, size)]
  {
    ChainsSeparate(sha, m1, t1, m2, t2, size);
    AgreeAt(Next(sha), Seed(sha, m1), t1, Seed(sha, m2), t2, size, i);
  }

  /** Longest-prefix matching works: for one model, the number of leading hashes two prompts share
      is their common token prefix divided by the block size, rounded down. */
  lemma {:induction false} SharedBlocks(sha: Hasher, model: Blob, t1: seq<I32>, t2: seq<I32>, size: int)
    requires size > 0
    requires CollisionFreeOn(sha, Inputs(sha, model, t1, size) + Inputs(sha, model, t2, size))
    ensures CommonPrefix(Hashes(Chain(sha, model, t1, size)), Hashes(Chain(sha, model, t2, size)))
            == CommonPrefix(t1, t2) / size
  {
    var next, seed := Next(sha), Seed(sha, model);
    ChainsSeparate(sha, model, t1, model, t2, size);
    SharedFrom(next, seed, t1, t2, size);
    CoveredIsProduct(SharedHashes(next, seed, t1, t2, size), size);
    DivisionUnique(CommonPrefix(t1, t2), SharedHashes(next, seed, t1, t2, size), size);
  }

  /** What each block hash is: the digest of the hash before it followed by the block's tokens, and
      before the first comes the digest of "kvcache/v1", a zero byte and the model name. */
  lemma {:induction false} ChainHashes(sha: Hasher, model: Blob, tokens: seq<I32>, size: int, i: nat)
    requires size > 0 && i < |Chain(sha, model, tokens, size)|
    ensures Covered(i + 1, size) <= |tokens|
    ensures var c, block := Chain(sha, model, tokens, size), tokens[Covered(i, size)..Covered(i + 1, size)];
            && c[i].items == block
            && c[i].hash == sha((if i == 0 then sha([0x6B, 0x76, 0x63, 0x61, 0x63, 0x68, 0x65, 0x2F, 0x76, 0x31, 0] + model) else c[i - 1].hash) + EncodeTokens(block))
  {
    ChainAt(Next(sha), Seed(sha, model), tokens, size, i);
  }

  // --- the two implementations -----------------------------------------------------------------

  lemma {:induction false} ChainStep(next: (Digest, seq<I32>) -> Digest, prev: Digest, tokens: seq<I32>, off: nat, size: int)
    requires size > 0 && off + size <= |tokens|
    ensures var block := tokens[off..off + size];
            ChainFrom(next, prev, tokens[off..], size)
            == [Link(next(prev, block), block)] + ChainFrom(next, next(prev, block), tokens[off + size..], size)
  {
    var rest := tokens[off..];
    assert tokens[off..off + size] == rest[..size] && rest[size..] == tokens[off + size..];
  }

  /** The Go loop: one buffer, reused for every block. */
  method ChainBlocksGo(sha: Hasher, model: Blob, tokens: seq<I32>, size: int) returns (blocks: seq<Block>)
    ensures blocks == Chain(sha, model, tokens, size)
  {
    blocks := [];
    if size <= 0 || |tokens| < size {
      return;
    }
    var numBlocks := |tokens| / size;
    WholeBlocks(|tokens|, size);
    ghost var next := Next(sha);
    var prev := Seed(sha, model);
    var buf := new Byte[32 + 4 * size];
    var off := 0;
    assert tokens[off..] == tokens;
    for b := 0 to numBlocks
      invariant off == Covered(b, size) <= |tokens|
      invariant blocks + ChainFrom(next, prev, tokens[off..], size) == Chain(sha, model, tokens, size)
    {
      CoveredMonotone(b + 1, numBlocks, size);
      var toks := tokens[off..off + size];
      ChainStep(next, prev, tokens, off, size);
      prev := HashBlock(sha, buf, prev, toks);
      off := off + size;
      ghost var rest := ChainFrom(next, prev, tokens[off..], size);
      assert blocks + ([Link(prev, toks)] + rest) == blocks + [Link(prev, toks)] + rest;
      blocks := blocks + [Link(prev, toks)];
    }
  }

  method HashBlock(sha: Hasher, buf: array<Byte>, prev: Digest, toks: seq<I32>) returns (h: Digest)
    requires buf.Length == 32 + 4 * |toks|
    modifies buf
    ensures h == Next(sha)(prev, toks)
  {
    FillBuffer(buf, prev, toks);
    h := sha(buf[..]);
  }

  /** buf becomes prev followed by the encoded tokens. */
  method FillBuffer(buf: array<Byte>, prev: Digest, toks: seq<I32>)
    requires buf.Length == 32 + 4 * |toks|
    modifies buf
    ensures buf[..] == prev + EncodeTokens(toks)
  {
    forall i | 0 <= i < 32 { buf[i] := prev[i]; }
    assert buf[..32] == prev;
    var off := 32;
    for j := 0 to |toks|
      invariant off == 32 + 4 * j
      invariant buf[..off] + EncodeTokens(toks[j..]) == prev + EncodeTokens(toks)
    {
      assert toks[j..][0] == toks[j] && toks[j..][1..] == toks[j + 1..];
      PutWord(buf, off, Le32(ToU32(toks[j])));
      off := off + 4;
    }
    assert buf[..] == buf[..off];
  }

  /** binary.LittleEndian.PutUint32 at an offset. */
  method PutWord(buf: array<Byte>, off: nat, w: Blob)
    requires |w| == 4 && off + 4 <= buf.Length
    modifies buf
    ensures buf[..off + 4] == old(buf[..off]) + w
  {
    ghost var was := buf[..off];
    buf[off], buf[off + 1], buf[off + 2], buf[off + 3] := w[0], w[1], w[2], w[3];
    assert buf[..off] == was;
  }

  datatype PyResult<T> = Value(value: T) | StructError

  predicate InRange(t: int) {
    -0x8000_0000 <= t < 0x8000_0000
  }

  predicate AllInRange(tokens: seq<int>) {
    forall i :: 0 <= i < |tokens| ==> InRange(tokens[i])
  }

  /** One block of the Python chain: struct.pack raises on a token outside int32. */
  function PyLink(sha: Hasher, prev: Digest, block: seq<int>): (r: PyResult<Block>) {
    if AllInRange(block) then Value(Link(Next(sha)(prev, block), block)) else StructError
  }

  method PackAndHash(sha: Hasher, prev: Digest, block: seq<int>) returns (r: PyResult<Block>)
    ensures r == PyLink(sha, prev, block)
  {
    var payload: Blob := prev;
    for j := 0 to |block|
      invariant AllInRange(block[..j])
      invariant payload == prev + EncodeTokens(block[..j])
    {
      if !InRange(block[j]) {
        return StructError;
      }
      assert block[..j + 1] == block[..j] + [block[j]];
      EncodeSnoc(block[..j], block[j]);
      payload := payload + Le32(ToU32(block[j]));
    }
    assert block[..|block|] == block;
    r := Value(Link(sha(payload), block));
  }

  /** What the Python loop computes from a chain whose last hash is `prev`. Python integers are
      unbounded. */
  function PyChainFrom(sha: Hasher, prev: Digest, tokens: seq<int>, size: int): (r: PyResult<seq<Block>>)
    requires size > 0
    decreases |tokens|
  {
    if |tokens| < size then Value([])
    else match PyLink(sha, prev, tokens[..size])
      case StructError => StructError
      case Value(link) => Prepend([link], PyChainFrom(sha, link.hash, tokens[size..], size))
  }

  function Prepend(b: seq<Block>, r: PyResult<seq<Block>>): PyResult<seq<Block>> {
    match r
    case Value(v) => Value(b + v)
    case StructError => StructError
  }

  lemma {:induction false} PrependTwice(a: seq<Block>, b: seq<Block>, r: PyResult<seq<Block>>)
    ensures Prepend(a, Prepend(b, r)) == Prepend(a + b, r)
  {
    match r {
      case Value(v) => assert a + (b + v) == a + b + v;
      case StructError =>
    }
  }

  lemma {:induction false} PrependNothing(r: PyResult<seq<Block>>)
    ensures Prepend([], r) == r
  {
    match r {
      case Value(v) => assert [] + v == v;
      case StructError =>
    }
  }

  /** The two implementations agree on int32 tokens. */
  lemma {:induction false} PyChainIsGoChain(sha: Hasher, prev: Digest, tokens: seq<I32>, size: int)
    requires size > 0
    ensures PyChainFrom(sha, prev, tokens, size) == Value(ChainFrom(Next(sha), prev, tokens, size))
    decreases |tokens|
  {
    if |tokens| >= size {
      PyChainIsGoChain(sha, Next(sha)(prev, tokens[..size]), tokens[size..], size);
    }
  }

  /** The Python call raises exactly when a token of some full block is outside int32. */
  lemma {:induction false} PyChainRaises(sha: Hasher, prev: Digest, tokens: seq<int>, size: int)
    requires size > 0
    ensures PyChainFrom(sha, prev, tokens, size) == StructError <==> !AllInRange(FullTokens(tokens, size))
    decreases |tokens|
  {
    if |tokens| >= size {
      assert FullTokens(tokens, size) == tokens[..size] + FullTokens(tokens[size..], size);
      if AllInRange(tokens[..size]) {
        PyChainRaises(sha, Next(sha)(prev, tokens[..size]), tokens[size..], size);
        AllInRangeAppend(tokens[..size], FullTokens(tokens[size..], size));
      } else {
        AllInRangeAppend(tokens[..size], FullTokens(tokens[size..], size));
      }
    }
  }

  lemma {:induction false} AllInRangeAppend(a: seq<int>, b: seq<int>)
    ensures AllInRange(a + b) <==> AllInRange(a) && AllInRange(b)
  {
    assert forall i :: 0 <= i < |a| ==> a[i] == (a + b)[i];
    assert forall i :: 0 <= i < |b| ==> b[i] == (a + b)[|a| + i];
  }

  /** The tokens that fall in a full block. */
  function FullTokens(tokens: seq<int>, size: int): (r: seq<int>)
    requires size > 0
    decreases |tokens|
  {
    if |tokens| < size then [] else tokens[..size] + FullTokens(tokens[size..], size)
  }

  lemma {:induction false} PyStep(sha: Hasher, prev: Digest, tokens: seq<int>, off: nat, size: int)
    requires size > 0 && off + size <= |tokens|
    ensures PyChainFrom(sha, prev, tokens[off..], size) ==
            match PyLink(sha, prev, tokens[off..off + size])
            case StructError => StructError
            case Value(link) => Prepend([link], PyChainFrom(sha, link.hash, tokens[off + size..], size))
  {
    var rest := tokens[off..];
    assert tokens[off..off + size] == rest[..size] && rest[size..] == tokens[off + size..];
  }

  method ChainBlocksPy(sha: Hasher, model: Blob, tokens: seq<int>, size: int) returns (r: PyResult<seq<Block>>)
    ensures r == if size <= 0 then Value([]) else PyChainFrom(sha, Seed(sha, model), tokens, size)
  {
    if size <= 0 || |tokens| < size {
      return Value([]);
    }
    var prev := Seed(sha, model);
    var out: seq<Block> := [];
    var full := |tokens| / size;
    WholeBlocks(|tokens|, size);
    var off := 0;
    assert tokens[off..] == tokens;
    ghost var want := PyChainFrom(sha, prev, tokens, size);
    PrependNothing(want);
    for b := 0 to full
      invariant off == Covered(b, size) <= |tokens|
      invariant want == Prepend(out, PyChainFrom(sha, prev, tokens[off..], size))
    {
      CoveredMonotone(b + 1, full, size);
      PyStep(sha, prev, tokens, off, size);
      var link := PackAndHash(sha, prev, tokens[off..off + size]);
      if link.StructError? {
        return StructError;
      }
      prev := link.value.hash;
      off := off + size;
      PrependTwice(out, [link.value], PyChainFrom(sha, prev, tokens[off..], size));
      out := out + [link.value];
    }
    assert out + [] == out;
    r := Value(out);
  }

  lemma {:induction false} EncodeSnoc(a: seq<I32>, t: I32)
    ensures EncodeTokens(a + [t]) == EncodeTokens(a) + Le32(ToU32(t))
  {
    if a == [] {
      assert a + [t] == [t];
    } else {
      assert (a + [t])[0] == a[0] && (a + [t])[1..] == a[1..] + [t];
      EncodeSnoc(a[1..], t);
    }
  }
}
