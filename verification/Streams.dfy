/** Chunked transport: Fetch and BatchFetch streams with the client's reassembly, and the
    header-plus-chunks stream shared by Write and Replicate. A stream is the sequence of frames that
    arrived, together with whether it failed. */
module Streams {
  import opened Bytes

  const CHUNK := 0x10_0000  // 1 MiB: fetchChunkBytes, replicateChunkBytes and CHUNK_BYTES

  // --- Fetch -----------------------------------------------------------------------------------

  datatype Frame = Frame(data: Blob, last: bool)

  /** The frames of one payload: every one but the final one is full, and only the final one is
      marked. An empty payload is one empty final frame. */
  function Frames(data: Blob): (r: seq<Frame>)
    ensures |r| > 0
    decreases |data|
  {
    if |data| <= CHUNK then [Frame(data, true)]
    else [Frame(data[..CHUNK], false)] + Frames(data[CHUNK..])
  }

  lemma {:induction false} FrameStep(data: Blob, off: nat)
    requires off < |data|
    ensures Frames(data[off..]) ==
            if off + CHUNK >= |data| then [Frame(data[off..], true)]
            else [Frame(data[off..off + CHUNK], false)] + Frames(data[off + CHUNK..])
  {
    var rest := data[off..];
    if off + CHUNK < |data| {
      assert rest[..CHUNK] == data[off..off + CHUNK] && rest[CHUNK..] == data[off + CHUNK..];
    }
  }

  /** What has been sent once the loop is at an offset. Unfolded only where SentUpToAt is mentioned. */
  ghost predicate SentUpTo(data: Blob, off: nat, sent: seq<Frame>) {
    forall u: bool {:trigger SentUpToAt(data, off, sent, u)} :: SentUpToAt(data, off, sent, u)
  }

  ghost predicate SentUpToAt(data: Blob, off: nat, sent: seq<Frame>, u: bool) {
    off <= |data| && if off < |data| || data == [] then sent + Frames(data[off..]) == Frames(data) else sent == Frames(data)
  }

  lemma {:induction false} SendNothing(data: Blob)
    ensures SentUpTo(data, 0, [])
  {
    assert data[0..] == data && [] + Frames(data) == Frames(data);
  }

  lemma {:induction false} SendNext(data: Blob, off: nat, end: nat, sent: seq<Frame>)
    requires off < |data| && SentUpTo(data, off, sent) && end == (if off + CHUNK > |data| then |data| else off + CHUNK)
    ensures SentUpTo(data, end, sent + [Frame(data[off..end], end == |data|)])
  {
    assert SentUpToAt(data, off, sent, true);
    FrameStep(data, off);
    var frame := Frame(data[off..end], end == |data|);
    if end < |data| {
      assert sent + ([frame] + Frames(data[end..])) == sent + [frame] + Frames(data[end..]);
    } else {
      assert data[off..|data|] == data[off..];
    }
  }

  lemma {:induction false} SendEnd(data: Blob, off: nat, sent: seq<Frame>)
    requires SentUpTo(data, off, sent) && off >= |data|
    ensures Frames(data) == if data == [] then sent + [Frame([], true)] else sent
  {
    assert SentUpToAt(data, off, sent, true);
    if data == [] {
      assert data[off..] == [];
    }
  }

  method StreamKV(data: Blob) returns (sent: seq<Frame>)
    ensures sent == Frames(data)
  {
    sent := [];
    var off := 0;
    SendNothing(data);
    while off < |data|
      invariant 0 <= off <= |data| && SentUpTo(data, off, sent)
    {
      var end := off + CHUNK;
      if end > |data| {
        end := |data|;
      }
      SendNext(data, off, end, sent);
      sent := sent + [Frame(data[off..end], end == |data|)];
      off := end;
    }
    SendEnd(data, off, sent);
    if |data| == 0 {
      sent := sent + [Frame([], true)];
    }
  }

  function Concat(frames: seq<Frame>): (r: Blob) {
    if frames == [] then [] else frames[0].data + Concat(frames[1..])
  }

  /** What the Python client returns for the frames it got before the stream ended (or failed). */
  function Reassembled(frames: seq<Frame>, failed: bool): (r: Option<Blob>) {
    if failed || frames == [] || !frames[|frames| - 1].last then None else Some(Concat(frames))
  }

  lemma {:induction false} ConcatSnoc(frames: seq<Frame>, f: Frame)
    ensures Concat(frames + [f]) == Concat(frames) + f.data
  {
    if frames == [] {
      assert frames + [f] == [f];
    } else {
      assert (frames + [f])[0] == frames[0] && (frames + [f])[1..] == frames[1..] + [f];
      ConcatSnoc(frames[1..], f);
    }
  }

  method ClientFetch(stream: seq<Frame>, failed: bool) returns (r: Option<Blob>)
    ensures r == Reassembled(stream, failed)
  {
    var out: Blob := [];
    var seenLast := false;
    for i := 0 to |stream|
      invariant out == Concat(stream[..i])
      invariant seenLast == (i > 0 && stream[i - 1].last)
    {
      assert stream[..i + 1] == stream[..i] + [stream[i]];
      ConcatSnoc(stream[..i], stream[i]);
      out := out + stream[i].data;
      seenLast := stream[i].last;
    }
    assert stream[..|stream|] == stream;
    r := if failed || !seenLast then None else Some(out);
  }

  lemma {:induction false} FramesConcat(data: Blob)
    ensures Concat(Frames(data)) == data
    decreases |data|
  {
    if |data| > CHUNK {
      FramesConcat(data[CHUNK..]);
      assert Frames(data)[1..] == Frames(data[CHUNK..]);
      assert data == data[..CHUNK] + data[CHUNK..];
    }
  }

  /** Only the very last frame carries the mark, and frames respect the chunk bound. */
  lemma {:induction false} OnlyFinalFrameIsLast(data: Blob)
    ensures Marked(Frames(data))
    decreases |data|
  {
    if |data| > CHUNK {
      OnlyFinalFrameIsLast(data[CHUNK..]);
      var f, g := Frames(data), Frames(data[CHUNK..]);
      forall i | 0 <= i < |f|
        ensures (f[i].last <==> i == |f| - 1) && |f[i].data| <= CHUNK
      {
        if i > 0 {
          assert f[i] == g[i - 1];
        }
      }
    }
  }

  predicate Marked(f: seq<Frame>) {
    forall i :: 0 <= i < |f| ==> (f[i].last <==> i == |f| - 1) && |f[i].data| <= CHUNK
  }

  /** Every frame but the final one carries exactly one mebibyte. */
  lemma {:induction false} FramesAreFull(data: Blob, i: nat)
    requires i < |Frames(data)|
    ensures i < |Frames(data)| - 1 ==> |Frames(data)[i].data| == 1048576
    ensures |Frames(data)[i].data| <= 1048576 && (|Frames(data)[i].data| == 0 ==> data == [])
    decreases |data|
  {
    if |data| > CHUNK && i > 0 {
      FramesAreFull(data[CHUNK..], i - 1);
      assert Frames(data)[i] == Frames(data[CHUNK..])[i - 1];
    }
  }

  /** A stream cut anywhere is never mistaken for a complete one: the client gets all the bytes or
      nothing. */
  lemma {:induction false} FetchAllOrNothing(data: Blob, m: nat, failed: bool)
    requires m <= |Frames(data)|
    ensures Reassembled(Frames(data)[..m], failed)
         == if m == |Frames(data)| && !failed then Some(data) else None
  {
    OnlyFinalFrameIsLast(data);
    FramesConcat(data);
    assert Frames(data)[..|Frames(data)|] == Frames(data);
  }

  // --- BatchFetch ------------------------------------------------------------------------------

  datatype BatchFrame = BatchFrame(index: nat, data: Blob, found: bool, last: bool)

  function Tag(index: nat, frames: seq<Frame>): (r: seq<BatchFrame>)
    ensures |r| == |frames|
  {
    seq(|frames|, i requires 0 <= i < |frames| => BatchFrame(index, frames[i].data, true, frames[i].last))
  }

  /** The frames BatchFetch sends for one block. */
  function BlockFrames(index: nat, result: Option<Blob>): (r: seq<BatchFrame>)
    ensures |r| > 0
  {
    match result
    case None => [BatchFrame(index, [], false, true)]
    case Some(data) => Tag(index, Frames(data))
  }

  function Flatten<T>(lists: seq<seq<T>>): (r: seq<T>) {
    if lists == [] then [] else lists[0] + Flatten(lists[1..])
  }

  /** All frames of a batch in request order; the index is sent as a uint32. */
  function BatchFrames(results: seq<Option<Blob>>): (r: seq<BatchFrame>) {
    Flatten(PerBlock(results))
  }

  function PerBlock(results: seq<Option<Blob>>): (r: seq<seq<BatchFrame>>)
    ensures |r| == |results|
  {
    seq(|results|, i requires 0 <= i < |results| => BlockFrames(i % TWO32, results[i]))
  }

  lemma {:induction false} FlattenSnoc<T>(lists: seq<seq<T>>, last: seq<T>)
    ensures Flatten(lists + [last]) == Flatten(lists) + last
  {
    if lists == [] {
      assert lists + [last] == [last];
      assert Flatten([last]) == last + Flatten([]);
    } else {
      assert (lists + [last])[0] == lists[0] && (lists + [last])[1..] == lists[1..] + [last];
      FlattenSnoc(lists[1..], last);
      assert lists[0] + (Flatten(lists[1..]) + last) == lists[0] + Flatten(lists[1..]) + last;
    }
  }

  /** One more block adds its frames at the end. */
  lemma {:induction false} BatchSnoc(results: seq<Option<Blob>>, r: Option<Blob>)
    ensures BatchFrames(results + [r]) == BatchFrames(results) + BlockFrames(|results| % TWO32, r)
  {
    assert PerBlock(results + [r]) == PerBlock(results) + [BlockFrames(|results| % TWO32, r)];
    FlattenSnoc(PerBlock(results), BlockFrames(|results| % TWO32, r));
  }

  method StreamBatchKV(index: nat, data: Blob) returns (sent: seq<BatchFrame>)
    ensures sent == Tag(index, Frames(data))
  {
    var off := 0;
    sent := [];
    ghost var plain: seq<Frame> := [];
    SendNothing(data);
    while off < |data|
      invariant 0 <= off <= |data| && SentUpTo(data, off, plain) && sent == Tag(index, plain)
    {
      var end := off + CHUNK;
      if end > |data| {
        end := |data|;
      }
      SendNext(data, off, end, plain);
      sent := sent + [BatchFrame(index, data[off..end], true, end == |data|)];
      plain := plain + [Frame(data[off..end], end == |data|)];
      off := end;
    }
    SendEnd(data, off, plain);
    if |data| == 0 {
      sent := sent + [BatchFrame(index, [], true, true)];
    }
  }

  /** The frames of a stream that carry a given index, in stream order. */
  function Select(frames: seq<BatchFrame>, index: nat): (r: seq<BatchFrame>) {
    if frames == [] then []
    else
      var rest := Select(frames[1..], index);
      if frames[0].index == index then [frames[0]] + rest else rest
  }

  lemma {:induction false} SelectAppend(a: seq<BatchFrame>, b: seq<BatchFrame>, index: nat)
    ensures Select(a + b, index) == Select(a, index) + Select(b, index)
  {
    if a == [] {
      assert a + b == b;
    } else {
      assert (a + b)[0] == a[0] && (a + b)[1..] == a[1..] + b;
      SelectAppend(a[1..], b, index);
    }
  }

  /** The client's per-index state. */
  datatype Slot = Slot(buffer: Blob, found: bool, done: bool)

  function Absorb(s: Slot, f: BatchFrame): (r: Slot) {
    if !f.found then s.(done := true)
    else Slot(s.buffer + f.data, true, s.done || f.last)
  }

  function AbsorbAll(s: Slot, frames: seq<BatchFrame>): (r: Slot)
    decreases |frames|
  {
    if frames == [] then s else AbsorbAll(Absorb(s, frames[0]), frames[1..])
  }

  const FRESH := Slot([], false, false)

  function Delivered(s: Slot): (r: Option<Blob>) {
    if s.found && s.done then Some(s.buffer) else None
  }

  /** What the client returns for block i: it only depends on the frames tagged i. */
  function Demuxed(frames: seq<BatchFrame>, failed: bool, i: nat): (r: Option<Blob>) {
    if failed then None else Delivered(AbsorbAll(FRESH, Select(frames, i)))
  }

  lemma {:induction false} AbsorbSnoc(s: Slot, frames: seq<BatchFrame>, f: BatchFrame)
    ensures AbsorbAll(s, frames + [f]) == Absorb(AbsorbAll(s, frames), f)
    decreases |frames|
  {
    if frames == [] {
      assert frames + [f] == [f];
    } else {
      assert (frames + [f])[0] == frames[0] && (frames + [f])[1..] == frames[1..] + [f];
      AbsorbSnoc(Absorb(s, frames[0]), frames[1..], f);
    }
  }

  lemma {:induction false} SelectSnoc(frames: seq<BatchFrame>, f: BatchFrame, i: nat)
    ensures Select(frames + [f], i) == if f.index == i then Select(frames, i) + [f] else Select(frames, i)
  {
    SelectAppend(frames, [f], i);
    assert Select([f], i) == if f.index == i then [f] else [];
    assert Select(frames, i) + [] == Select(frames, i);
  }

  /** The client loop over the whole stream: three parallel lists indexed by block. */
  method ClientBatchFetch(stream: seq<BatchFrame>, failed: bool, n: nat) returns (r: seq<Option<Blob>>)
    ensures |r| == n
    ensures forall i :: 0 <= i < n ==> r[i] == Demuxed(stream, failed, i)
  {
    var buffers: seq<Blob> := seq(n, _ => []);
    var found, done := seq(n, _ => false), seq(n, _ => false);
    for k := 0 to |stream|
      invariant |buffers| == n && |found| == n && |done| == n
      invariant forall i :: 0 <= i < n ==>
        Slot(buffers[i], found[i], done[i]) == AbsorbAll(FRESH, Select(stream[..k], i))
    {
      var f := stream[k];
      assert stream[..k + 1] == stream[..k] + [f];
      forall i | 0 <= i < n
        ensures AbsorbAll(FRESH, Select(stream[..k + 1], i)) ==
                if f.index == i then Absorb(AbsorbAll(FRESH, Select(stream[..k], i)), f)
                else AbsorbAll(FRESH, Select(stream[..k], i))
      {
        SelectSnoc(stream[..k], f, i);
        AbsorbSnoc(FRESH, Select(stream[..k], i), f);
      }
      var i := f.index;
      if i >= n {
        // an out-of-range index is ignored
      } else if !f.found {
        done := done[i := true];
      } else {
        found := found[i := true];
        buffers := buffers[i := buffers[i] + f.data];
        if f.last {
          done := done[i := true];
        }
      }
    }
    assert stream[..|stream|] == stream;
    r := seq(n, i requires 0 <= i < n => if !failed && found[i] && done[i] then Some(buffers[i]) else None);
  }

  lemma {:induction false} AbsorbTagged(s: Slot, index: nat, frames: seq<Frame>, m: nat)
    requires m <= |frames|
    requires Marked(frames)
    ensures var t := AbsorbAll(s, Tag(index, frames)[..m]);
            && t.buffer == s.buffer + Concat(frames[..m])
            && t.found == (s.found || m > 0)
            && t.done == (s.done || (m == |frames| && m > 0))
    decreases m
  {
    if m == 0 {
      assert s.buffer + Concat(frames[..0]) == s.buffer;
    } else {
      var all := Tag(index, frames)[..m];
      assert all == Tag(index, frames)[..m - 1] + [all[m - 1]];
      AbsorbTagged(s, index, frames, m - 1);
      AbsorbSnoc(s, Tag(index, frames)[..m - 1], all[m - 1]);
      assert frames[..m] == frames[..m - 1] + [frames[m - 1]];
      ConcatSnoc(frames[..m - 1], frames[m - 1]);
    }
  }

  /** One block's frames, or any cut of them, give the block's result or nothing. */
  lemma {:induction false} BlockAllOrNothing(index: nat, result: Option<Blob>, m: nat)
    requires m <= |BlockFrames(index, result)|
    ensures Delivered(AbsorbAll(FRESH, BlockFrames(index, result)[..m]))
         == if m == |BlockFrames(index, result)| then result else None
  {
    match result {
      case None =>
        var miss := BatchFrame(index, [], false, true);
        if m == 1 {
          assert BlockFrames(index, result)[..m] == [miss];
          assert AbsorbAll(FRESH, [miss]) == Absorb(FRESH, miss);
        }
      case Some(data) =>
        OnlyFinalFrameIsLast(data);
        FramesConcat(data);
        AbsorbTagged(FRESH, index, Frames(data), m);
        assert Frames(data)[..|Frames(data)|] == Frames(data);
        assert FRESH.buffer + Concat(Frames(data)[..m]) == Concat(Frames(data)[..m]);
    }
  }

  /** `stream` is some merge of the batch's frames, possibly cut short: for every block it holds, in
      order, a prefix of that block's frames. */
  ghost predicate CutMerge(stream: seq<BatchFrame>, results: seq<Option<Blob>>) {
    forall i: nat ::
      if i < |results| then Select(stream, i) <= BlockFrames(i, results[i]) else Select(stream, i) == []
  }

  ghost predicate Complete(stream: seq<BatchFrame>, results: seq<Option<Blob>>, i: nat)
    requires i < |results|
  {
    Select(stream, i) == BlockFrames(i, results[i])
  }

  /** However the blocks' frames are interleaved and wherever the stream stops, each block comes out
      whole or as None, and comes out right exactly when all its frames arrived. */
  lemma {:induction false} BatchAllOrNothing(stream: seq<BatchFrame>, results: seq<Option<Blob>>, failed: bool, i: nat)
    requires CutMerge(stream, results)
    ensures Demuxed(stream, failed, i) ==
            if i < |results| && !failed && Complete(stream, results, i) then results[i] else None
  {
    if i < |results| {
      var got, all := Select(stream, i), BlockFrames(i, results[i]);
      assert got == all[..|got|];
      BlockAllOrNothing(i, results[i], |got|);
      if |got| == |all| {
        assert all[..|all|] == all;
      }
    }
  }

  ghost predicate AllTagged(frames: seq<BatchFrame>, index: nat) {
    forall k :: 0 <= k < |frames| ==> frames[k].index == index
  }

  lemma {:induction false} SelectTagged(frames: seq<BatchFrame>, index: nat, i: nat)
    requires AllTagged(frames, index)
    ensures Select(frames, i) == if i == index then frames else []
  {
    if frames != [] {
      SelectTagged(frames[1..], index, i);
      assert frames == [frames[0]] + frames[1..];
    }
  }

  /** List k carries the tag start + k. */
  ghost predicate TaggedFrom(lists: seq<seq<BatchFrame>>, start: nat) {
    forall k :: 0 <= k < |lists| ==> AllTagged(lists[k], start + k)
  }

  lemma {:induction false} TaggedTail(lists: seq<seq<BatchFrame>>, start: nat)
    requires lists != [] && TaggedFrom(lists, start)
    ensures AllTagged(lists[0], start) && TaggedFrom(lists[1..], start + 1)
  {
    assert AllTagged(lists[0], start + 0);
    forall k | 0 <= k < |lists[1..]| ensures AllTagged(lists[1..][k], start + 1 + k) {
      assert AllTagged(lists[k + 1], start + (k + 1));
    }
  }

  lemma {:induction false} SelectFlatten(lists: seq<seq<BatchFrame>>, start: nat, i: nat)
    requires TaggedFrom(lists, start)
    ensures Select(Flatten(lists), i) == if start <= i < start + |lists| then lists[i - start] else []
    decreases |lists|
  {
    if lists != [] {
      TaggedTail(lists, start);
      SelectAppend(lists[0], Flatten(lists[1..]), i);
      SelectTagged(lists[0], start, i);
      SelectFlatten(lists[1..], start + 1, i);
    }
  }

  lemma {:induction false} SelectBatch(results: seq<Option<Blob>>, i: nat)
    requires |results| <= TWO32
    ensures Select(BatchFrames(results), i) == if i < |results| then BlockFrames(i, results[i]) else []
  {
    var lists := PerBlock(results);
    forall k | 0 <= k < |lists|
      ensures AllTagged(lists[k], 0 + k) && lists[k] == BlockFrames(k, results[k])
    {
      PerBlockTagged(results, k);
    }
    SelectFlatten(lists, 0, i);
  }

  lemma {:induction false} PerBlockTagged(results: seq<Option<Blob>>, k: nat)
    requires k < |results| <= TWO32
    ensures PerBlock(results)[k] == BlockFrames(k, results[k])
    ensures AllTagged(BlockFrames(k, results[k]), k)
  {
    assert k % TWO32 == k;
  }

  lemma {:induction false} BatchIsMerge(results: seq<Option<Blob>>)
    requires |results| <= TWO32
    ensures CutMerge(BatchFrames(results), results)
  {
    forall i: nat
      ensures if i < |results| then Select(BatchFrames(results), i) <= BlockFrames(i, results[i])
              else Select(BatchFrames(results), i) == []
    {
      SelectBatch(results, i);
    }
  }

  /** What the server sends is such a merge, so the client gets exactly the server's answers; blocks
      the request left out (fewer versions than blocks) come back as None. */
  lemma {:induction false} BatchRoundTrip(results: seq<Option<Blob>>, i: nat)
    requires |results| <= TWO32
    ensures Demuxed(BatchFrames(results), false, i) == if i < |results| then results[i] else None
  {
    BatchIsMerge(results);
    SelectBatch(results, i);
    BatchAllOrNothing(BatchFrames(results), results, false, i);
  }

  // --- Write and Replicate ---------------------------------------------------------------------

  datatype WriteMsg<H> = Header(header: H, totalSize: nat) | Chunk(frame: Frame) | Empty
  datatype End = Eof | Broken

  datatype Assembled<H> = Block(header: H, data: Blob) | NoHeader | SecondHeader | StreamError

  /** assembleBlock after its header. The declared total size is only a capacity hint: neither it
      nor the last flag is compared with what arrived. */
  function AssembleRest<H>(h: H, buf: Blob, msgs: seq<WriteMsg<H>>, end: End): (r: Assembled<H>)
    decreases |msgs|
  {
    if msgs == [] then (if end.Eof? then Block(h, buf) else StreamError)
    else match msgs[0]
      case Header(_, _) => SecondHeader
      case Chunk(f) => AssembleRest(h, buf + f.data, msgs[1..], end)
      case Empty => AssembleRest(h, buf, msgs[1..], end)
  }

  function Assemble<H>(msgs: seq<WriteMsg<H>>, end: End): (r: Assembled<H>) {
    if msgs == [] then StreamError
    else if !msgs[0].Header? then NoHeader
    else AssembleRest(msgs[0].header, [], msgs[1..], end)
  }

  method AssembleBlock<H(0)>(msgs: seq<WriteMsg<H>>, end: End) returns (r: Assembled<H>)
    ensures r == Assemble(msgs, end)
  {
    if |msgs| == 0 {
      return StreamError;
    }
    if !msgs[0].Header? {
      return NoHeader;
    }
    var hdr := msgs[0].header;
    var buf: Blob := [];
    for i := 1 to |msgs|
      invariant Assemble(msgs, end) == AssembleRest(hdr, buf, msgs[i..], end)
    {
      assert msgs[i..][0] == msgs[i] && msgs[i..][1..] == msgs[i + 1..];
      match msgs[i] {
        case Header(_, _) => return SecondHeader;
        case Chunk(f) => buf := buf + f.data;
        case Empty =>
      }
    }
    assert msgs[|msgs|..] == [];
    r := if end.Eof? then Block(hdr, buf) else StreamError;
  }

  /** The bytes of the chunks among some messages, in order. */
  function ChunkBytes<H>(msgs: seq<WriteMsg<H>>): (r: Blob)
    decreases |msgs|
  {
    if msgs == [] then []
    else (if msgs[0].Chunk? then msgs[0].frame.data else []) + ChunkBytes(msgs[1..])
  }

  ghost predicate HasHeader<H>(msgs: seq<WriteMsg<H>>) {
    exists i :: 0 <= i < |msgs| && msgs[i].Header?
  }

  lemma {:induction false} AssembleRestMeans<H>(h: H, buf: Blob, msgs: seq<WriteMsg<H>>, end: End)
    ensures AssembleRest(h, buf, msgs, end) ==
            if HasHeader(msgs) then SecondHeader
            else if end.Eof? then Block(h, buf + ChunkBytes(msgs)) else StreamError
    decreases |msgs|
  {
    if msgs == [] {
      assert buf + [] == buf;
    } else {
      var m, rest := msgs[0], msgs[1..];
      assert HasHeader(msgs) <==> m.Header? || HasHeader(rest) by {
        if HasHeader(rest) {
          var i :| 0 <= i < |rest| && rest[i].Header?;
          assert msgs[i + 1].Header?;
        }
        if i :| 0 <= i < |msgs| && msgs[i].Header? {
          assert i > 0 ==> rest[i - 1].Header?;
        }
      }
      match m {
        case Header(_, _) =>
        case Chunk(f) =>
          AssembleRestMeans(h, buf + f.data, rest, end);
          assert buf + f.data + ChunkBytes(rest) == buf + (f.data + ChunkBytes(rest));
        case Empty =>
          AssembleRestMeans(h, buf, rest, end);
          assert [] + ChunkBytes(rest) == ChunkBytes(rest);
      }
    }
  }

  /** What assembling answers to every stream: the first message must be a header and no other may be;
      then a clean end gives the chunks' bytes in order, and a broken one an error. */
  lemma {:induction false} AssembleMeans<H>(msgs: seq<WriteMsg<H>>, end: End)
    ensures Assemble(msgs, end) ==
            if msgs == [] then StreamError
            else if !msgs[0].Header? then NoHeader
            else if HasHeader(msgs[1..]) then SecondHeader
            else if end.Eof? then Block(msgs[0].header, ChunkBytes(msgs[1..])) else StreamError
  {
    if msgs != [] && msgs[0].Header? {
      AssembleRestMeans(msgs[0].header, [], msgs[1..], end);
      assert [] + ChunkBytes(msgs[1..]) == ChunkBytes(msgs[1..]);
    }
  }

  /** sendOne's messages: the header, then the payload's chunks. Unlike a Fetch stream, an empty
      payload sends no chunk at all. */
  function Sent<H>(h: H, data: Blob): (r: seq<WriteMsg<H>>) {
    [Header(h, |data|)] + if data == [] then [] else Chunks(Frames(data))
  }

  function Chunks<H>(frames: seq<Frame>): (r: seq<WriteMsg<H>>)
    ensures |r| == |frames|
  {
    seq(|frames|, i requires 0 <= i < |frames| => Chunk(frames[i]))
  }

  lemma {:induction false} AssembleChunks<H>(h: H, buf: Blob, frames: seq<Frame>, end: End)
    ensures AssembleRest(h, buf, Chunks<H>(frames), end)
         == if end.Eof? then Block(h, buf + Concat(frames)) else StreamError
    decreases |frames|
  {
    var msgs := Chunks<H>(frames);
    if frames == [] {
      assert buf + [] == buf;
    } else {
      assert msgs[1..] == Chunks<H>(frames[1..]);
      AssembleChunks(h, buf + frames[0].data, frames[1..], end);
      assert buf + frames[0].data + Concat(frames[1..]) == buf + (frames[0].data + Concat(frames[1..]));
    }
  }

  /** No proper prefix of a payload's frames carries the whole payload. */
  lemma {:induction false} PrefixIsShorter(data: Blob, j: nat)
    requires data != [] && j < |Frames(data)|
    ensures |Concat(Frames(data)[..j])| < |data|
    decreases |data|
  {
    if j > 0 {
      var f, rest := Frames(data), Frames(data[CHUNK..]);
      PrefixIsShorter(data[CHUNK..], j - 1);
      assert f[..j][1..] == rest[..j - 1];
    }
  }

  /** A replicated or written block arrives byte for byte exactly when all its messages came and the
      stream ended cleanly; a broken stream stores nothing. A stream that is closed early, though, is
      accepted with the bytes that came: the cut is invisible unless the transport reports it. */
  lemma {:induction false} AssembleSent<H>(h: H, data: Blob, m: nat, end: End)
    requires m <= |Sent(h, data)|
    ensures Assemble(Sent(h, data)[..m], end) ==
            if m == 0 || end.Broken? then StreamError
            else Block(h, if data == [] then [] else Concat(Frames(data)[..m - 1]))
    ensures Assemble(Sent(h, data)[..m], end) == Block(h, data) <==> end.Eof? && m == |Sent(h, data)|
  {
    if m > 0 {
      AssemblePrefix(h, data, m, end);
      var frames := if data == [] then [] else Frames(data);
      if m == |Sent(h, data)| {
        assert frames[..m - 1] == frames;
        FramesConcat(data);
      } else {
        PrefixIsShorter(data, m - 1);
      }
    }
  }

  lemma {:induction false} AssemblePrefix<H>(h: H, data: Blob, m: nat, end: End)
    requires 1 <= m <= |Sent(h, data)|
    ensures Assemble(Sent(h, data)[..m], end) ==
            if end.Broken? then StreamError
            else Block(h, if data == [] then [] else Concat(Frames(data)[..m - 1]))
  {
    var frames := if data == [] then [] else Frames(data);
    ChunksPrefix<H>(frames, m - 1);
    AfterHeader(h, |data|, Chunks<H>(frames), m, end);
    AssembleChunks(h, [], frames[..m - 1], end);
    assert [] + Concat(frames[..m - 1]) == Concat(frames[..m - 1]);
  }

  lemma {:induction false} ChunksPrefix<H>(frames: seq<Frame>, n: nat)
    requires n <= |frames|
    ensures Chunks<H>(frames)[..n] == Chunks<H>(frames[..n])
  {
  }

  lemma {:induction false} AfterHeader<H>(h: H, size: nat, rest: seq<WriteMsg<H>>, m: nat, end: End)
    requires 1 <= m <= 1 + |rest|
    ensures Assemble(([Header(h, size)] + rest)[..m], end) == AssembleRest(h, [], rest[..m - 1], end)
  {
    var msgs := ([Header(h, size)] + rest)[..m];
    assert msgs[0] == Header(h, size) && msgs[1..] == rest[..m - 1];
  }

  /** A header announcing two bytes, no chunk, and a clean end: stored as an empty block. */
  lemma {:induction false} EarlyEndIsStored<H>(h: H)
    ensures Sent(h, [7, 8])[0] == Header(h, 2)
    ensures Assemble(Sent(h, [7, 8])[..1], Eof) == Block(h, [])
  {
    AssembleSent(h, [7, 8], 1, Eof);
    assert Frames([7, 8])[..0] == [];
  }
}
