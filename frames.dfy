/** What the `MessagesHandler` steps do with the bytes of one peer message:
    how the partial fields accumulate, that a message built by
    `torrentMessages.ts` and fed to a fresh handler in any split comes back
    unchanged, and that after a message the handler stops making progress. */
module Frames {
  import opened Wrappers
  import opened Bytes
  import opened Messages
  import opened Framing
  import Handshakes

  function Min(a: int, b: int): int {
    if a < b then a else b
  }

  lemma SliceWithin<T>(c: seq<T>, start: int, end: int)
    requires 0 <= start <= end && start <= |c|
    ensures Slice(c, start, end) == c[start..Min(end, |c|)]
  {
  }

  /** `decodeLengthPrefix` appends the next bytes of the chunk to the held
      prefix, never more than four in all, and returns only once four are
      held: then it has moved to `DECODING_BYTE_ID` and returns them as a
      big-endian int32. Without bytes left it changes nothing. */
  lemma LengthPrefixAccumulates(s: HState, chunk: seq<byte>)
    requires |s.lengthPrefix| < 4
    ensures s.offset >= |chunk| ==> LengthPrefixStep(s, chunk) == Decoded(s, None)
    ensures s.offset < |chunk| ==>
      var d := LengthPrefixStep(s, chunk);
      var n := Min(|chunk| - s.offset, 4 - |s.lengthPrefix|);
      && d.state.lengthPrefix == s.lengthPrefix + chunk[s.offset..s.offset + n]
      && d.state.offset == s.offset + n
      && d.state.messageID == s.messageID && d.state.payload == s.payload
      && (d.value.Some? <==> |d.state.lengthPrefix| == 4)
      && (d.value.Some? ==> d.state.status == DECODING_BYTE_ID && d.value.value == ReadInt32BE(d.state.lengthPrefix, 0))
      && (d.value.None? ==> d.state.status == s.status)
  {
    if s.offset < |chunk| {
      SliceWithin(chunk, s.offset, s.offset + (4 - |s.lengthPrefix|));
    }
  }

  /** `decodePayload` appends the next bytes of the chunk to the held payload,
      never beyond the prefix minus one, and returns the payload exactly when
      it has reached that length. */
  lemma PayloadAccumulates(s: HState, chunk: seq<byte>)
    requires |s.lengthPrefix| >= 4 && |s.payload| <= ReadInt32BE(s.lengthPrefix, 0) - 1
    ensures s.offset >= |chunk| ==> PayloadStep(s, chunk) == Decoded(s, None)
    ensures s.offset < |chunk| ==>
      var d := PayloadStep(s, chunk);
      var expected := ReadInt32BE(s.lengthPrefix, 0) - 1;
      var n := Min(|chunk| - s.offset, expected - |s.payload|);
      && d.state == s.(offset := s.offset + n, payload := s.payload + chunk[s.offset..s.offset + n])
      && (d.value.Some? <==> |d.state.payload| == expected)
      && (d.value.Some? ==> d.value.value == d.state.payload)
  {
    if s.offset < |chunk| {
      SliceWithin(chunk, s.offset, s.offset + (ReadInt32BE(s.lengthPrefix, 0) - 1 - |s.payload|));
    }
  }

  /** From `DECODING_LENGTH_PREFIX` with nothing held, a chunk of at least four
      bytes: an out-of-range length drops the message, a zero length is a
      KeepAlive, and IDs 0-3 complete with no payload. Because `clear()` is
      called without `true`, the status is left at `DECODING_BYTE_ID` or
      `DECODING_PAYLOAD`. */
  lemma LengthPrefixOutcomes(s: HState, chunk: seq<byte>)
    requires s.status == DECODING_LENGTH_PREFIX && s.lengthPrefix == [] && |chunk| >= 4
    ensures var v := ReadInt32BE(chunk, 0);
      var step := ParseMessageStep(s, chunk, true);
      var held := HState(4, DECODING_BYTE_ID, s.messageID, [], []);
      && (v < MESSAGE_MIN_LENGTH || v > MESSAGE_MAX_LENGTH ==> step == (held, None))
      && (v == 0 ==> step == (held, Some(KeepAlive())))
      && (MESSAGE_MIN_LENGTH < v <= MESSAGE_MAX_LENGTH && |chunk| >= 5 && chunk[4] <= 3 ==>
            step == (HState(5, DECODING_PAYLOAD, Some(chunk[4]), [], []), Some(Signal(chunk[4]))))
  {
    var s0 := s.(offset := 0);
    LengthPrefixAccumulates(s0, chunk);
    assert [] + chunk[0..4] == chunk[..4];
    ReadInt32BEWindow(chunk[..4], 0, chunk, 0);
  }

  /** The bytes of one message as `parse` reads it: a length prefix that
      counts exactly the ID byte and payload that follow, within the
      handler's bound, and a payload exactly when the ID is above 3. */
  predicate Frame(f: seq<byte>) {
    |f| >= 5 && ReadInt32BE(f, 0) == |f| - 4 && |f| - 4 <= MESSAGE_MAX_LENGTH && (f[4] <= 3 <==> |f| == 5)
  }

  /** The handler state once the first `k` bytes of frame `f` have arrived,
      starting from `DECODING_LENGTH_PREFIX` with message ID `id0`. */
  function Partial(f: seq<byte>, k: nat, id0: Option<int>, offset: nat): HState
    requires k <= |f|
  {
    if k < 4 then HState(offset, DECODING_LENGTH_PREFIX, id0, f[..k], [])
    else if k == 4 then HState(offset, DECODING_BYTE_ID, id0, f[..4], [])
    else HState(offset, DECODING_PAYLOAD, Some(f[4]), f[..4], f[5..k])
  }

  /** The state and message once the last byte of frame `f` has arrived. */
  function Finish(f: seq<byte>, offset: nat): (HState, Option<Message>)
    requires Frame(f)
  {
    var id := f[4];
    if id <= 3 then (HState(offset, DECODING_PAYLOAD, Some(id), [], []), Some(Signal(id)))
    else match ParsePayload(Some(id), f[5..])
      case PayloadThrows => (HState(offset, DECODING_PAYLOAD, Some(id), f[..4], f[5..]), None)
      case PayloadParsed(m) => (HState(offset, DECODING_PAYLOAD, Some(id), [], []), m)
  }

  /** The payload case from frame position `k`, reading chunk `c` from `o`. */
  lemma PayloadFrame(f: seq<byte>, k: nat, c: seq<byte>, o: nat)
    requires Frame(f) && 5 <= k <= |f| && (f[4] > 3 ==> k < |f|)
    requires o <= |c| && k + (|c| - o) <= |f| && c[o..] == f[k..k + (|c| - o)]
    ensures var k' := k + (|c| - o);
      PayloadPhase(HState(o, DECODING_PAYLOAD, Some(f[4]), f[..4], f[5..k]), c)
        == if k' < |f| then (Partial(f, k', None, |c|), None) else Finish(f, |c|)
  {
    var s := HState(o, DECODING_PAYLOAD, Some(f[4]), f[..4], f[5..k]);
    if f[4] > 3 {
      ReadInt32BEWindow(f[..4], 0, f, 0);
      PayloadAccumulates(s, c);
      if o < |c| {
        var k' := k + (|c| - o);
        assert Min(|c| - o, |f| - 5 - (k - 5)) == |c| - o;
        assert c[o..o + (|c| - o)] == c[o..];
        assert f[5..k] + c[o..] == f[5..k'];
        if k' == |f| {
          assert f[5..k'] == f[5..];
        }
      }
    }
  }

  /** The ID case at frame position 4, reading chunk `c` from `o`. */
  lemma MessageIDFrame(f: seq<byte>, id0: Option<int>, c: seq<byte>, o: nat)
    requires Frame(f)
    requires o <= |c| && 4 + (|c| - o) <= |f| && c[o..] == f[4..4 + (|c| - o)]
    ensures var k' := 4 + (|c| - o);
      MessageIDPhase(HState(o, DECODING_BYTE_ID, id0, f[..4], []), c)
        == if k' < |f| then (Partial(f, k', id0, |c|), None) else Finish(f, |c|)
  {
    if o < |c| {
      assert c[o] == c[o..][0] == f[4];
      assert c[o + 1..] == c[o..][1..];
      assert f[5..5] == [];
      PayloadFrame(f, 5, c, o + 1);
    }
  }

  /** The length-prefix case at frame position `k` < 4, when `c` ends before
      the prefix is complete. */
  lemma LengthPrefixShort(f: seq<byte>, k: nat, id0: Option<int>, c: seq<byte>)
    requires Frame(f) && k < 4
    requires 0 < |c| && k + |c| < 4 && c == f[k..k + |c|]
    ensures LengthPrefixPhase(HState(0, DECODING_LENGTH_PREFIX, id0, f[..k], []), c)
        == (Partial(f, k + |c|, id0, |c|), None)
  {
    var s := HState(0, DECODING_LENGTH_PREFIX, id0, f[..k], []);
    LengthPrefixAccumulates(s, c);
    assert f[..k] + c[0..|c|] == f[..k + |c|];
  }

  /** The length-prefix case at frame position `k` < 4, when `c` completes
      the prefix. */
  lemma LengthPrefixComplete(f: seq<byte>, k: nat, id0: Option<int>, c: seq<byte>)
    requires Frame(f) && k < 4
    requires 4 <= k + |c| <= |f| && c == f[k..k + |c|]
    ensures LengthPrefixPhase(HState(0, DECODING_LENGTH_PREFIX, id0, f[..k], []), c)
        == if k + |c| < |f| then (Partial(f, k + |c|, id0, |c|), None) else Finish(f, |c|)
  {
    var s := HState(0, DECODING_LENGTH_PREFIX, id0, f[..k], []);
    LengthPrefixAccumulates(s, c);
    var n := 4 - k;
    assert f[..k] + c[0..n] == f[..4];
    ReadInt32BEWindow(f[..4], 0, f, 0);
    var d := LengthPrefixStep(s, c);
    assert d == Decoded(HState(n, DECODING_BYTE_ID, id0, f[..4], []), Some(|f| - 4));
    PrefixFallsThrough(s, c, d);
    assert c[n..] == f[4..4 + (|c| - n)];
    MessageIDFrame(f, id0, c, n);
  }

  /** A complete, in-range, non-zero prefix falls through to the ID case. */
  lemma PrefixFallsThrough(s: HState, c: seq<byte>, d: Decoded<int>)
    requires d == LengthPrefixStep(s, c) && d.value.Some?
    requires MESSAGE_MIN_LENGTH < d.value.value <= MESSAGE_MAX_LENGTH
    ensures LengthPrefixPhase(s, c) == MessageIDPhase(d.state, c)
  {
  }

  /** One `parseMessage(c, true)` on the next bytes `c` of a frame: it reads
      all of `c`, and yields the message only with the frame's last byte. */
  lemma StepFrame(f: seq<byte>, k: nat, id0: Option<int>, s: HState, c: seq<byte>)
    requires Frame(f) && k < |f| && s == Partial(f, k, id0, s.offset)
    requires 0 < |c| && k + |c| <= |f| && c == f[k..k + |c|]
    ensures ParseMessageStep(s, c, true)
        == if k + |c| < |f| then (Partial(f, k + |c|, id0, |c|), None) else Finish(f, |c|)
  {
    if k + |c| < 4 {
      LengthPrefixShort(f, k, id0, c);
    } else if k < 4 {
      LengthPrefixComplete(f, k, id0, c);
    } else if k == 4 {
      MessageIDFrame(f, id0, c, 0);
    } else {
      PayloadFrame(f, k, c, 0);
    }
  }

  function Concat(chunks: seq<seq<byte>>): seq<byte> {
    if chunks == [] then [] else chunks[0] + Concat(chunks[1..])
  }

  predicate NonEmptyChunks(chunks: seq<seq<byte>>) {
    forall i :: 0 <= i < |chunks| ==> |chunks[i]| > 0
  }

  lemma ConcatNonEmpty(chunks: seq<seq<byte>>)
    requires NonEmptyChunks(chunks) && chunks != []
    ensures |Concat(chunks)| > 0
  {
    assert |chunks[0]| > 0;
  }

  /** `parse` called on each chunk in turn, each call running at most `fuel`
      iterations of its loop: the final state and every returned message, in
      order (a call that throws returns none). */
  function Feed(s: HState, chunks: seq<seq<byte>>, fuel: nat): (HState, seq<Message>)
    decreases |chunks|
  {
    if chunks == [] then (s, [])
    else
      var call := ParseSpec(s, chunks[0], fuel);
      var rest := Feed(call.0, chunks[1..], fuel);
      (rest.0, (if call.1.Parsed? then call.1.run.messages else []) + rest.1)
  }

  /** The frame's next bytes after position `k`, once `StepFrame` is known. */
  function NextFrameStep(f: seq<byte>, k: nat, id0: Option<int>, c: seq<byte>): (HState, Option<Message>)
    requires Frame(f) && k + |c| <= |f|
  {
    if k + |c| < |f| then (Partial(f, k + |c|, id0, |c|), None) else Finish(f, |c|)
  }

  /** One `parse` call on the next bytes of a frame runs one iteration. */
  lemma ParseFrameChunk(f: seq<byte>, k: nat, id0: Option<int>, s: HState, c: seq<byte>, fuel: nat)
    requires Frame(f) && k < |f| && s == Partial(f, k, id0, s.offset)
    requires 0 < |c| && k + |c| <= |f| && c == f[k..k + |c|] && fuel > 0
    ensures var next := NextFrameStep(f, k, id0, c);
      ParseSpec(s, c, fuel) == (next.0, Parsed(Run(next.0, Emitted(next.1), true)))
  {
    var s0 := s.(offset := 0);
    StepFrame(f, k, id0, s0, c);
    var next := NextFrameStep(f, k, id0, c);
    assert next.0.offset == |c|;
    assert ParseLoop(next.0, c, fuel - 1) == Run(next.0, [], true);
    assert Emitted(next.1) + [] == Emitted(next.1);
  }

  lemma TailNonEmpty(chunks: seq<seq<byte>>)
    requires chunks != [] && NonEmptyChunks(chunks)
    ensures NonEmptyChunks(chunks[1..])
  {
    var more := chunks[1..];
    forall i | 0 <= i < |more| ensures |more[i]| > 0 {
      assert more[i] == chunks[i + 1];
    }
  }

  /** `Feed` after a first call that returned `messages` in state `t`. */
  lemma FeedCons(s: HState, chunks: seq<seq<byte>>, fuel: nat, t: HState, messages: seq<Message>)
    requires chunks != [] && ParseSpec(s, chunks[0], fuel) == (t, Parsed(Run(t, messages, true)))
    ensures Feed(s, chunks, fuel) == (Feed(t, chunks[1..], fuel).0, messages + Feed(t, chunks[1..], fuel).1)
  {
  }

  /** Feeding the first of the chunks left of a frame. */
  lemma FeedFrameStep(f: seq<byte>, k: nat, id0: Option<int>, s: HState, chunks: seq<seq<byte>>, fuel: nat)
    requires Frame(f) && k < |f| && s == Partial(f, k, id0, s.offset)
    requires fuel > 0 && chunks != [] && NonEmptyChunks(chunks) && Concat(chunks) == f[k..]
    ensures k + |chunks[0]| <= |f| && Concat(chunks[1..]) == f[k + |chunks[0]|..]
    ensures NonEmptyChunks(chunks[1..])
    ensures var next := NextFrameStep(f, k, id0, chunks[0]);
      Feed(s, chunks, fuel) == (Feed(next.0, chunks[1..], fuel).0, Emitted(next.1) + Feed(next.0, chunks[1..], fuel).1)
  {
    var c := chunks[0];
    var more := chunks[1..];
    assert Concat(chunks) == c + Concat(more);
    assert c == f[k..k + |c|];
    ParseFrameChunk(f, k, id0, s, c, fuel);
    var next := NextFrameStep(f, k, id0, c);
    FeedCons(s, chunks, fuel, next.0, Emitted(next.1));
    TailNonEmpty(chunks);
  }

  /** Feeding the rest of a frame from position `k`, in non-empty chunks. */
  lemma {:induction false} FeedFrame(f: seq<byte>, k: nat, id0: Option<int>, s: HState,
                                     chunks: seq<seq<byte>>, fuel: nat)
    requires Frame(f) && k < |f| && s == Partial(f, k, id0, s.offset)
    requires fuel > 0 && chunks != [] && NonEmptyChunks(chunks) && Concat(chunks) == f[k..]
    ensures var fin := Finish(f, |chunks[|chunks| - 1]|);
      Feed(s, chunks, fuel) == (fin.0, Emitted(fin.1))
    decreases |chunks|
  {
    var c := chunks[0];
    var more := chunks[1..];
    FeedFrameStep(f, k, id0, s, chunks, fuel);
    var next := NextFrameStep(f, k, id0, c);
    var fin := Finish(f, |chunks[|chunks| - 1]|);
    if k + |c| < |f| {
      assert Concat(more) == f[k + |c|..];
      FeedFrame(f, k + |c|, id0, next.0, more, fuel);
      assert more[|more| - 1] == chunks[|chunks| - 1];
      assert [] + Emitted(fin.1) == Emitted(fin.1);
    } else {
      if more != [] {
        ConcatNonEmpty(more);
      }
      assert c == chunks[|chunks| - 1];
      assert Emitted(next.1) + [] == Emitted(next.1);
    }
  }

  /** Splitting one frame into any non-empty chunks, fed to a handler that
      starts in `DECODING_LENGTH_PREFIX` with nothing held, yields the same
      messages and the same state (up to the offset) as feeding it whole. */
  lemma ChunkSplit(f: seq<byte>, s: HState, chunks: seq<seq<byte>>, fuel: nat)
    requires Frame(f) && s.status == DECODING_LENGTH_PREFIX && s.lengthPrefix == [] && s.payload == []
    requires fuel > 0 && chunks != [] && NonEmptyChunks(chunks) && Concat(chunks) == f
    ensures Feed(s, chunks, fuel).1 == Feed(s, [f], fuel).1 == Emitted(Finish(f, 0).1)
    ensures Feed(s, chunks, fuel).0.(offset := 0) == Feed(s, [f], fuel).0.(offset := 0)
  {
    assert s == Partial(f, 0, s.messageID, s.offset);
    assert f[0..] == f;
    FeedFrame(f, 0, s.messageID, s, chunks, fuel);
    assert Concat([f]) == f + Concat([]);
    FeedFrame(f, 0, s.messageID, s, [f], fuel);
    FinishOffset(f, |chunks[|chunks| - 1]|);
    FinishOffset(f, |[f][0]|);
  }

  /** Where the last chunk ended changes only the offset of the state. */
  lemma FinishOffset(f: seq<byte>, offset: nat)
    requires Frame(f)
    ensures Finish(f, offset).1 == Finish(f, 0).1
    ensures Finish(f, offset).0.(offset := 0) == Finish(f, 0).0
  {
  }

  /** One call of a message constructor other than `KeepAlive`. */
  datatype Call =
    | SignalCall(id: int)
    | HaveCall(pieceIndex: int)
    | BitfieldCall(bitfield: seq<byte>)
    | RequestCall(index: int, begin: int, length: int)
    | CancelCall(index: int, begin: int, length: int)
    | PieceCall(index: int, begin: int, block: seq<byte>)

  /** The calls whose message `parse` can read back: int32 arguments (the
      constructors' `writeInt32BE` throws otherwise), a non-empty bitfield,
      and a length prefix within the handler's bound. */
  predicate ValidCall(c: Call) {
    match c
    case SignalCall(id) => 0 <= id <= 3
    case HaveCall(i) => IsInt32(i)
    case BitfieldCall(bf) => 0 < |bf| && 1 + |bf| <= MESSAGE_MAX_LENGTH
    case RequestCall(i, b, l) => IsInt32(i) && IsInt32(b) && IsInt32(l)
    case CancelCall(i, b, l) => IsInt32(i) && IsInt32(b) && IsInt32(l)
    case PieceCall(i, b, block) => IsInt32(i) && IsInt32(b) && 9 + |block| <= MESSAGE_MAX_LENGTH
  }

  function Construct(c: Call): Message
    requires ValidCall(c)
  {
    match c
    case SignalCall(id) => Signal(id)
    case HaveCall(i) => Have(i)
    case BitfieldCall(bf) => Bitfield(bf)
    case RequestCall(i, b, l) => Request(i, b, l)
    case CancelCall(i, b, l) => Cancel(i, b, l)
    case PieceCall(i, b, block) => PieceMessage(i, b, block)
  }

  /** Three int32s read back from their big-endian encoding. */
  lemma ReadThree(i: int, b: int, l: int)
    requires IsInt32(i) && IsInt32(b) && IsInt32(l)
    ensures var p := Int32BE(i) + Int32BE(b) + Int32BE(l);
      |p| == 12 && ReadInt32BE(p, 0) == i && ReadInt32BE(p, 4) == b && ReadInt32BE(p, 8) == l
  {
    var p := Int32BE(i) + Int32BE(b) + Int32BE(l);
    ReadTriple(i, b, Int32BE(l));
    ReadInt32BEOfInt32BE(l);
    ReadInt32BEWindow(p, 8, Int32BE(l), 0);
  }

  /** A framed message within the handler's bound, carrying a payload exactly
      when its ID is above 3, builds to a frame; when its payload parses back
      to the message, so does the frame's last byte. */
  lemma FramedBuildIsFrame(m: Message)
    requires Framed(m) && m.lengthPrefix.value <= MESSAGE_MAX_LENGTH
    requires m.messageID.value <= 3 <==> m.lengthPrefix.value == 1
    ensures Frame(Build(m))
    ensures m.messageID.value > 3 && ParsePayload(m.messageID, m.payload.value) == PayloadParsed(Some(m))
        ==> Finish(Build(m), 0).1 == Some(m)
  {
    BuildFramed(m);
    if m.messageID.value > 3 {
      assert Build(m)[5..] == m.payload.value;
    }
  }

  /** A constructed message builds to a frame whose last byte yields that
      message again. */
  lemma BuildIsFrame(c: Call)
    requires ValidCall(c)
    ensures Frame(Build(Construct(c)))
    ensures Finish(Build(Construct(c)), 0).1 == Some(Construct(c))
  {
    var m := Construct(c);
    match c
    case SignalCall(id) =>
      FramedBuildIsFrame(m);
      BuildFramed(m);
    case HaveCall(i) =>
      ReadInt32BEOfInt32BE(i);
      assert ParsePayload(m.messageID, m.payload.value) == PayloadParsed(Some(m));
      FramedBuildIsFrame(m);
    case BitfieldCall(bf) =>
      assert ParsePayload(m.messageID, m.payload.value) == PayloadParsed(Some(m));
      FramedBuildIsFrame(m);
    case RequestCall(i, b, l) =>
      ReadThree(i, b, l);
      assert ParsePayload(m.messageID, m.payload.value) == PayloadParsed(Some(m));
      FramedBuildIsFrame(m);
    case CancelCall(i, b, l) =>
      ReadThree(i, b, l);
      assert ParsePayload(m.messageID, m.payload.value) == PayloadParsed(Some(m));
      FramedBuildIsFrame(m);
    case PieceCall(i, b, block) =>
      ReadTriple(i, b, block);
      assert ParsePayload(m.messageID, m.payload.value) == PayloadParsed(Some(m));
      FramedBuildIsFrame(m);
  }

  /** A handler in `DECODING_LENGTH_PREFIX` with nothing held, fed the built
      bytes of a constructed message in any non-empty chunks, returns exactly
      that message. */
  lemma RoundTrip(c: Call, s: HState, chunks: seq<seq<byte>>, fuel: nat)
    requires ValidCall(c)
    requires s.status == DECODING_LENGTH_PREFIX && s.lengthPrefix == [] && s.payload == []
    requires fuel > 0 && chunks != [] && NonEmptyChunks(chunks) && Concat(chunks) == Build(Construct(c))
    ensures Feed(s, chunks, fuel).1 == [Construct(c)]
  {
    BuildIsFrame(c);
    ChunkSplit(Build(Construct(c)), s, chunks, fuel);
  }

  function Copies(m: Message, n: nat): (r: seq<Message>)
    ensures |r| == n && forall i :: 0 <= i < n ==> r[i] == m
  {
    if n == 0 then [] else [m] + Copies(m, n - 1)
  }

  /** After a message with ID 0-3 the handler stays in `DECODING_PAYLOAD` with
      that ID; every iteration of `parse`'s loop restarts at offset 0 and
      returns the same message without consuming a byte, so on a non-empty
      chunk the loop runs for as long as it is given fuel. */
  lemma {:induction false} SignalRepeats(s: HState, chunk: seq<byte>, fuel: nat)
    requires s.status == DECODING_PAYLOAD && s.messageID.Some? && 0 <= s.messageID.value <= 3
    requires s.lengthPrefix == [] && s.payload == [] && s.offset < |chunk|
    ensures ParseLoop(s, chunk, fuel)
         == Run(if fuel == 0 then s else s.(offset := 0), Copies(Signal(s.messageID.value), fuel), false)
    decreases fuel
  {
    if fuel > 0 {
      var s0 := s.(offset := 0);
      assert ParseMessageStep(s, chunk, true) == (s0, Some(Signal(s.messageID.value)));
      SignalRepeats(s0, chunk, fuel - 1);
    }
  }

  /** With any other ID, the emptied prefix makes `readInt32BE` throw on
      every iteration: nothing is returned and the loop makes no progress. */
  lemma {:induction false} PayloadStalls(s: HState, chunk: seq<byte>, fuel: nat)
    requires s.status == DECODING_PAYLOAD && !(s.messageID.Some? && 0 <= s.messageID.value <= 3)
    requires s.lengthPrefix == [] && s.offset < |chunk|
    ensures ParseLoop(s, chunk, fuel) == Run(if fuel == 0 then s else s.(offset := 0), [], false)
    decreases fuel
  {
    if fuel > 0 {
      var s0 := s.(offset := 0);
      assert ParseMessageStep(s, chunk, true) == (s0, None);
      PayloadStalls(s0, chunk, fuel - 1);
    }
  }

  /** The five zero bytes of `KeepAlive().build()` read as a KeepAlive, then
      (the status having stopped at `DECODING_BYTE_ID`) as a Choke whose ID is
      the first zero byte, and then as that Choke forever. */
  lemma KeepAliveThenChokes(s: HState, fuel: nat)
    requires s.status == DECODING_LENGTH_PREFIX && s.lengthPrefix == []
    ensures var out := ParseSpec(s, Build(KeepAlive()), fuel + 1).1;
      out.Parsed? && out.run.messages == [KeepAlive()] + Copies(Choke(), fuel) && !out.run.complete
  {
    var c := Build(KeepAlive());
    KeepAliveBuildsFiveZeros();
    var s0 := s.(offset := 0);
    LengthPrefixOutcomes(s0, c);
    assert ReadInt32BE(c, 0) == 0;
    var t := HState(4, DECODING_BYTE_ID, s.messageID, [], []);
    assert ParseMessageStep(s0, c, true) == (t, Some(KeepAlive()));
    if fuel > 0 {
      var u := HState(1, DECODING_PAYLOAD, Some(0), [], []);
      assert ParseMessageStep(t, c, true) == (u, Some(Choke()));
      SignalRepeats(u, c, fuel - 1);
      assert ParseLoop(t, c, fuel).messages == [Choke()] + Copies(Choke(), fuel - 1);
    }
  }

  /** `decodeHandshake` accepts a handshake built with the handler's own
      info-hash and refuses one built with another. */
  lemma DecodeHandshakeOfBuild(h: MessagesHandler, other: seq<byte>, peerId: seq<byte>)
    requires |h.infoHash| == 20 && |other| == 20 && |peerId| == 20
    ensures h.DecodeHandshake(Handshakes.Build(h.infoHash, peerId)) == Right(Handshakes.Handshake(h.infoHash, Some(peerId)))
    ensures other != h.infoHash ==> h.DecodeHandshake(Handshakes.Build(other, peerId)) == Left(InfoHashMismatch)
  {
    Handshakes.ParseBuild(h.infoHash, peerId);
    Handshakes.ParseBuild(other, peerId);
  }
}
