/** `MessagesHandler`: the resumable decoder that turns the chunks read from
    a peer's socket into peer messages, keeping a partial length prefix,
    message ID and payload between chunks. The pure functions below give each
    decode step's effect on the handler state; the class's methods are proved
    to perform exactly those steps. */
module Framing {
  import opened Wrappers
  import opened Bytes
  import opened Messages
  import Handshakes

  const MESSAGE_MAX_LENGTH: int := 16384 + 13
  const MESSAGE_MIN_LENGTH: int := 0

  const AWAIT_HANDSHAKE: int := 0
  const DECODING_LENGTH_PREFIX: int := 1
  const DECODING_BYTE_ID: int := 2
  const DECODING_PAYLOAD: int := 3

  /** The handler's mutable fields. `messageID` is `None` while
      `partialMessageID` is still `undefined`. */
  datatype HState = HState(offset: nat, status: int, messageID: Option<int>,
                           lengthPrefix: seq<byte>, payload: seq<byte>)

  /** A decode step's new state and its value; `None` when the step threw
      because the chunk ran out ("waiting for next chunk"). */
  datatype Decoded<T> = Decoded(state: HState, value: Option<T>)

  /** `clear(resetStatus)`: the partial prefix and payload are always
      emptied; the status and message ID are reset only when asked. */
  function ClearState(s: HState, resetStatus: bool): HState {
    s.(status := if resetStatus then DECODING_LENGTH_PREFIX else s.status,
       messageID := if resetStatus then Some(-1) else s.messageID,
       lengthPrefix := [], payload := [])
  }

  /** `decodeLengthPrefix`: take up to the missing prefix bytes from the
      chunk; once four are held, move to `DECODING_BYTE_ID` and return them as
      a big-endian int32. */
  function LengthPrefixStep(s: HState, chunk: seq<byte>): Decoded<int> {
    if s.offset < |chunk| then
      var part := Slice(chunk, s.offset, s.offset + (4 - |s.lengthPrefix|));
      var prefix := s.lengthPrefix + part;
      var t := s.(offset := s.offset + |part|, lengthPrefix := prefix);
      if |prefix| == 4 then Decoded(t.(status := DECODING_BYTE_ID), Some(ReadInt32BE(prefix, 0)))
      else Decoded(t, None)
    else Decoded(s, None)
  }

  /** `decodeMessageID`: one byte, then the next status. */
  function MessageIDStep(s: HState, chunk: seq<byte>): Decoded<int> {
    if s.offset < |chunk| then
      Decoded(s.(messageID := Some(chunk[s.offset]), offset := s.offset + 1, status := s.status + 1),
              Some(chunk[s.offset]))
    else Decoded(s, None)
  }

  /** `decodePayload`: the expected length is the held prefix minus one
      (`readInt32BE` throws while fewer than four prefix bytes are held); take
      up to the missing payload bytes and return the payload once complete. */
  function PayloadStep(s: HState, chunk: seq<byte>): Decoded<seq<byte>> {
    if |s.lengthPrefix| < 4 then Decoded(s, None)
    else
      var payloadLength := ReadInt32BE(s.lengthPrefix, 0) - 1;
      if s.offset < |chunk| then
        var part := Slice(chunk, s.offset, s.offset + (payloadLength - |s.payload|));
        var payload := s.payload + part;
        var t := s.(offset := s.offset + |part|, payload := payload);
        Decoded(t, if |payload| == payloadLength then Some(payload) else None)
      else Decoded(s, None)
  }

  /** What `parsePayload` does: a message, `null` (`None`) for an ID it does
      not know, or a `readInt32BE` RangeError on a payload too short. */
  datatype PayloadResult = PayloadThrows | PayloadParsed(message: Option<Message>)

  /** `parsePayload(messageID, buffer)`. */
  function ParsePayload(messageID: Option<int>, payload: seq<byte>): PayloadResult {
    if messageID == Some(4) then
      if |payload| < 4 then PayloadThrows else PayloadParsed(Some(Have(ReadInt32BE(payload, 0))))
    else if messageID == Some(5) then PayloadParsed(Some(Bitfield(payload)))
    else if messageID == Some(6) || messageID == Some(8) then
      if |payload| < 12 then PayloadThrows
      else
        var index, begin, length := ReadInt32BE(payload, 0), ReadInt32BE(payload, 4), ReadInt32BE(payload, 8);
        PayloadParsed(Some(if messageID == Some(6) then Request(index, begin, length) else Cancel(index, begin, length)))
    else if messageID == Some(7) then
      if |payload| < 8 then PayloadThrows
      else PayloadParsed(Some(PieceMessage(ReadInt32BE(payload, 0), ReadInt32BE(payload, 4), payload[8..])))
    else PayloadParsed(None)
  }

  /** The `DECODING_PAYLOAD` case of `parseMessage`: IDs 0-3 complete without
      a payload; otherwise the payload is decoded and parsed. A throw leaves
      the state as the step left it; every completed case calls `clear()`
      without `true`. */
  function PayloadPhase(s: HState, chunk: seq<byte>): (HState, Option<Message>) {
    if s.messageID.Some? && 0 <= s.messageID.value <= 3 then (ClearState(s, false), Some(Signal(s.messageID.value)))
    else
      var p := PayloadStep(s, chunk);
      if p.value.None? then (p.state, None)
      else match ParsePayload(s.messageID, p.value.value)
        case PayloadThrows => (p.state, None)
        case PayloadParsed(m) => (ClearState(p.state, false), m)
  }

  /** The `DECODING_BYTE_ID` case, falling through to the payload case. */
  function MessageIDPhase(s: HState, chunk: seq<byte>): (HState, Option<Message>) {
    var d := MessageIDStep(s, chunk);
    if d.value.None? then (d.state, None) else PayloadPhase(d.state, chunk)
  }

  /** The `DECODING_LENGTH_PREFIX` case: an out-of-range prefix drops the
      message, a zero prefix is a KeepAlive, any other falls through. */
  function LengthPrefixPhase(s: HState, chunk: seq<byte>): (HState, Option<Message>) {
    var d := LengthPrefixStep(s, chunk);
    if d.value.None? then (d.state, None)
    else if d.value.value < MESSAGE_MIN_LENGTH || d.value.value > MESSAGE_MAX_LENGTH then (ClearState(d.state, false), None)
    else if d.value.value == 0 then (ClearState(d.state, false), Some(KeepAlive()))
    else MessageIDPhase(d.state, chunk)
  }

  /** `parseMessage(chunk, isPartial)`: the switch on the status read at entry,
      with its fall-through. In `AWAIT_HANDSHAKE`, `decodePeerID` reads the
      length of `partialPeerID`, which no code ever sets, so it throws and the
      step yields `null`. */
  function ParseMessageStep(s: HState, chunk: seq<byte>, isPartial: bool): (HState, Option<Message>) {
    var s0 := if isPartial then s.(offset := 0) else s;
    if s0.status == AWAIT_HANDSHAKE then (s0, None)
    else if s0.status == DECODING_LENGTH_PREFIX then LengthPrefixPhase(s0, chunk)
    else if s0.status == DECODING_BYTE_ID then MessageIDPhase(s0, chunk)
    else if s0.status == DECODING_PAYLOAD then PayloadPhase(s0, chunk)
    else (ClearState(s0, false), None)
  }

  /** The state and messages after the loop of `parse`; `complete` is false
      when `fuel` iterations ran out with the offset still inside the chunk. */
  datatype Run = Run(state: HState, messages: seq<Message>, complete: bool)

  function Emitted(m: Option<Message>): seq<Message> {
    if m.Some? then [m.value] else []
  }

  /** `while (offset < chunk.length)` calling `parseMessage(chunk, true)` and
      pushing every non-null message, at most `fuel` times. */
  function ParseLoop(s: HState, chunk: seq<byte>, fuel: nat): Run
    decreases fuel
  {
    if s.offset >= |chunk| then Run(s, [], true)
    else if fuel == 0 then Run(s, [], false)
    else
      var step := ParseMessageStep(s, chunk, true);
      var rest := ParseLoop(step.0, chunk, fuel - 1);
      Run(rest.state, Emitted(step.1) + rest.messages, rest.complete)
  }

  /** Messages pushed before the rest of a run. */
  function Prepend(messages: seq<Message>, r: Run): Run {
    Run(r.state, messages + r.messages, r.complete)
  }

  /** One iteration of the loop of `parse`, from step `(t, m)`. */
  lemma LoopStep(s: HState, chunk: seq<byte>, fuel: nat, messages: seq<Message>, t: HState, m: Option<Message>)
    requires s.offset < |chunk| && fuel > 0
    requires (t, m) == ParseMessageStep(s, chunk, true)
    ensures Prepend(messages, ParseLoop(s, chunk, fuel)) == Prepend(messages + Emitted(m), ParseLoop(t, chunk, fuel - 1))
  {
    var rest := ParseLoop(t, chunk, fuel - 1);
    assert messages + (Emitted(m) + rest.messages) == messages + Emitted(m) + rest.messages;
  }

  /** The loop of `parse` when its condition fails. */
  lemma LoopDone(full: Run, messages: seq<Message>, s: HState, chunk: seq<byte>, fuel: nat, steps: nat)
    requires steps <= fuel && (s.offset >= |chunk| || steps == fuel)
    requires full == Prepend(messages, ParseLoop(s, chunk, fuel - steps))
    ensures full == Run(s, messages, s.offset >= |chunk|)
  {
    LoopExit(s, chunk, fuel - steps, messages);
  }

  /** The loop of `parse` once it stops. */
  lemma LoopExit(s: HState, chunk: seq<byte>, fuel: nat, messages: seq<Message>)
    requires s.offset >= |chunk| || fuel == 0
    ensures Prepend(messages, ParseLoop(s, chunk, fuel)) == Run(s, messages, s.offset >= |chunk|)
  {
    assert messages + [] == messages;
  }

  /** `parse(chunk)` either throws or returns the loop's messages. */
  datatype ParseOutcome = ParseThrows | Parsed(run: Run)

  /** `parse`: in `AWAIT_HANDSHAKE` it calls `.cata` on the promise that
      `Handshake.parse` returns, which a promise does not have, so it throws a
      TypeError before the loop. */
  function ParseSpec(s: HState, chunk: seq<byte>, fuel: nat): (HState, ParseOutcome) {
    var s0 := s.(offset := 0);
    if s0.status == AWAIT_HANDSHAKE then (s0, ParseThrows)
    else
      var r := ParseLoop(s0, chunk, fuel);
      (r.state, Parsed(r))
  }

  /** Outside `AWAIT_HANDSHAKE`, `parse` is its loop from offset 0. */
  lemma SpecRunsLoop(s: HState, chunk: seq<byte>, fuel: nat, r: Run)
    requires s.status != AWAIT_HANDSHAKE
    requires r == ParseLoop(s.(offset := 0), chunk, fuel)
    ensures ParseSpec(s, chunk, fuel) == (r.state, Parsed(r))
  {
  }

  /** Why `decodeHandshake` yields `Left`. */
  datatype HandshakeFailure = ParseFailed(error: Handshakes.HandshakeError) | InfoHashMismatch

  class MessagesHandler {
    const infoHash: seq<byte>
    var offset: nat
    var partialStatus: int
    var partialMessageID: Option<int>
    var partialLengthPrefix: seq<byte>
    var partialPayload: seq<byte>

    function State(): HState
      reads this
    {
      HState(offset, partialStatus, partialMessageID, partialLengthPrefix, partialPayload)
    }

    /** `new MessagesHandler(infoHash, waitingForPeerId)`; `clear(false)`
        leaves `partialMessageID` undefined. */
    constructor(infoHash: seq<byte>, waitingForPeerId: bool)
      ensures this.infoHash == infoHash
      ensures State() == HState(0, if waitingForPeerId then AWAIT_HANDSHAKE else DECODING_LENGTH_PREFIX, None, [], [])
    {
      this.infoHash := infoHash;
      offset := 0;
      partialStatus := if waitingForPeerId then AWAIT_HANDSHAKE else DECODING_LENGTH_PREFIX;
      partialMessageID := None;
      partialLengthPrefix := [];
      partialPayload := [];
    }

    method Clear(resetStatus: bool)
      modifies this
      ensures State() == ClearState(old(State()), resetStatus)
      ensures partialLengthPrefix == [] && partialPayload == []
    {
      partialStatus := if resetStatus then DECODING_LENGTH_PREFIX else partialStatus;
      partialMessageID := if resetStatus then Some(-1) else partialMessageID;
      partialLengthPrefix := [];
      partialPayload := [];
    }

    method DecodeLengthPrefix(chunk: seq<byte>) returns (r: Option<int>)
      modifies this
      ensures Decoded(State(), r) == LengthPrefixStep(old(State()), chunk)
    {
      if offset < |chunk| {
        var remainingBytes := 4 - |partialLengthPrefix|;
        var otherPart := Slice(chunk, offset, offset + remainingBytes);
        partialLengthPrefix := partialLengthPrefix + otherPart;
        offset := offset + |otherPart|;
        if |partialLengthPrefix| == 4 {
          partialStatus := DECODING_BYTE_ID;
          return Some(ReadInt32BE(partialLengthPrefix, 0));
        }
      }
      return None;
    }

    method DecodeMessageID(chunk: seq<byte>) returns (r: Option<int>)
      modifies this
      ensures Decoded(State(), r) == MessageIDStep(old(State()), chunk)
    {
      if offset < |chunk| {
        var messageID := chunk[offset];
        partialMessageID := Some(messageID);
        offset := offset + 1;
        partialStatus := partialStatus + 1;
        return Some(messageID);
      }
      return None;
    }

    method DecodePayload(chunk: seq<byte>) returns (r: Option<seq<byte>>)
      modifies this
      ensures Decoded(State(), r) == PayloadStep(old(State()), chunk)
    {
      if |partialLengthPrefix| < 4 {
        return None;
      }
      var payloadLength := ReadInt32BE(partialLengthPrefix, 0) - 1;
      if offset < |chunk| {
        var remainingBytes := payloadLength - |partialPayload|;
        var otherPart := Slice(chunk, offset, offset + remainingBytes);
        partialPayload := partialPayload + otherPart;
        offset := offset + |otherPart|;
        if |partialPayload| == payloadLength {
          return Some(partialPayload);
        }
      }
      return None;
    }

    /** The `DECODING_PAYLOAD` case of `parseMessage`. */
    method PayloadCase(chunk: seq<byte>) returns (m: Option<Message>)
      modifies this
      ensures (State(), m) == PayloadPhase(old(State()), chunk)
    {
      if partialMessageID.Some? && 0 <= partialMessageID.value <= 3 {
        Clear(false);
        return Some(Signal(partialMessageID.value));
      }
      var messageID := partialMessageID;
      var payload := DecodePayload(chunk);
      if payload.None? {
        return None;
      }
      var parsed := ParsePayload(messageID, payload.value);
      if parsed.PayloadThrows? {
        return None;
      }
      Clear(false);
      return parsed.message;
    }

    /** `parseMessage(chunk, isPartial)`. */
    method ParseMessage(chunk: seq<byte>, isPartial: bool) returns (m: Option<Message>)
      modifies this
      ensures (State(), m) == ParseMessageStep(old(State()), chunk, isPartial)
    {
      offset := if isPartial then 0 else offset;
      var status := partialStatus;
      if status == AWAIT_HANDSHAKE {
        return None;
      } else if status == DECODING_LENGTH_PREFIX {
        var lengthPrefix := DecodeLengthPrefix(chunk);
        if lengthPrefix.None? {
          return None;
        }
        if lengthPrefix.value < MESSAGE_MIN_LENGTH || lengthPrefix.value > MESSAGE_MAX_LENGTH {
          Clear(false);
          return None;
        }
        if lengthPrefix.value == 0 {
          Clear(false);
          return Some(KeepAlive());
        }
        var messageID := DecodeMessageID(chunk);
        if messageID.None? {
          return None;
        }
        m := PayloadCase(chunk);
      } else if status == DECODING_BYTE_ID {
        var messageID := DecodeMessageID(chunk);
        if messageID.None? {
          return None;
        }
        m := PayloadCase(chunk);
      } else if status == DECODING_PAYLOAD {
        m := PayloadCase(chunk);
      } else {
        Clear(false);
        return None;
      }
    }

    /** `parse(chunk)`, running at most `fuel` iterations of its loop. */
    method Parse(chunk: seq<byte>, fuel: nat) returns (out: ParseOutcome)
      modifies this
      ensures (State(), out) == ParseSpec(old(State()), chunk, fuel)
    {
      offset := 0;
      if partialStatus == AWAIT_HANDSHAKE {
        return ParseThrows;
      }
      var r := ParseLoopFrom(chunk, fuel);
      SpecRunsLoop(old(State()), chunk, fuel, r);
      return Parsed(r);
    }

    /** The loop of `parse`: `parseMessage(chunk, true)` while the offset is
        inside the chunk, pushing every non-null message. */
    method ParseLoopFrom(chunk: seq<byte>, fuel: nat) returns (r: Run)
      modifies this
      ensures r == ParseLoop(old(State()), chunk, fuel) && State() == r.state
    {
      ghost var full := ParseLoop(State(), chunk, fuel);
      var result: seq<Message> := [];
      var steps: nat := 0;
      while offset < |chunk| && steps < fuel
        invariant steps <= fuel
        invariant full == Prepend(result, ParseLoop(State(), chunk, fuel - steps))
        decreases fuel - steps
      {
        ghost var before := State();
        var message := ParseMessage(chunk, true);
        LoopStep(before, chunk, fuel - steps, result, State(), message);
        result := result + Emitted(message);
        steps := steps + 1;
      }
      LoopDone(full, result, State(), chunk, fuel, steps);
      r := Run(State(), result, offset >= |chunk|);
    }

    /** `decodeHandshake(chunk)`, as its `Either` logic intends: `Left` when
        the handshake does not parse or carries another info-hash. */
    function DecodeHandshake(chunk: seq<byte>): (r: Either<HandshakeFailure, Handshakes.Handshake>)
      reads this
      ensures r.Right? <==> Handshakes.Parse(chunk).Right? && Handshakes.Parse(chunk).value.infoHash == infoHash
      ensures r.Right? ==> r.value == Handshakes.Parse(chunk).value
    {
      match Handshakes.Parse(chunk)
      case Left(e) => Left(ParseFailed(e))
      case Right(h) => if h.infoHash == infoHash then Right(h) else Left(InfoHashMismatch)
    }
  }
}
