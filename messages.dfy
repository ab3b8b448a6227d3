/** The peer wire messages of the BitTorrent peer protocol (section "peer
    messages" of BEP 3) as `torrentMessages.ts` builds them: a 4-byte
    big-endian length prefix, a message ID byte and a payload. */
module Messages {
  import opened Wrappers
  import opened Bytes

  /** A `TorrentMessage` object. `lengthPrefix`, `messageID` and `payload`
      are `undefined` (`None`) when the constructor does not set them;
      `index`, `begin` and `length` default to 0. */
  datatype Message = Message(lengthPrefix: Option<int>, messageID: Option<int>, payload: Option<seq<byte>>,
                             index: int, begin: int, length: int)

  function KeepAlive(): Message {
    Message(None, None, None, 0, 0, 0)
  }

  function Choke(): Message {
    Message(Some(1), Some(0), None, 0, 0, 0)
  }

  function Unchoke(): Message {
    Message(Some(1), Some(1), None, 0, 0, 0)
  }

  function Interested(): Message {
    Message(Some(1), Some(2), None, 0, 0, 0)
  }

  function NotInterested(): Message {
    Message(Some(1), Some(3), None, 0, 0, 0)
  }

  /** The four payload-free messages, by ID. */
  function Signal(id: int): Message
    requires 0 <= id <= 3
  {
    if id == 0 then Choke() else if id == 1 then Unchoke() else if id == 2 then Interested() else NotInterested()
  }

  /** `new Have(pieceIndex)`; `writeInt32BE` throws a RangeError outside the
      int32 range. */
  function Have(pieceIndex: int): Message
    requires IsInt32(pieceIndex)
  {
    Message(Some(5), Some(4), Some(Int32BE(pieceIndex)), pieceIndex, 0, 0)
  }

  function Bitfield(bitfield: seq<byte>): Message {
    Message(Some(1 + |bitfield|), Some(5), Some(bitfield), 0, 0, 0)
  }

  function Request(index: int, begin: int, length: int): Message
    requires IsInt32(index) && IsInt32(begin) && IsInt32(length)
  {
    Message(Some(13), Some(6), Some(Int32BE(index) + Int32BE(begin) + Int32BE(length)), index, begin, length)
  }

  function Cancel(index: int, begin: int, length: int): Message
    requires IsInt32(index) && IsInt32(begin) && IsInt32(length)
  {
    Message(Some(13), Some(8), Some(Int32BE(index) + Int32BE(begin) + Int32BE(length)), index, begin, length)
  }

  function PieceMessage(index: int, begin: int, block: seq<byte>): Message
    requires IsInt32(index) && IsInt32(begin)
  {
    Message(Some(9 + |block|), Some(7), Some(Int32BE(index) + Int32BE(begin) + block), index, begin, |block|)
  }

  /** What `build()` accepts: `writeInt32BE` throws for a length prefix
      outside the int32 range. */
  predicate Buildable(m: Message) {
    m.lengthPrefix.None? || IsInt32(m.lengthPrefix.value)
  }

  /** `build()`: `writeInt32BE(undefined)` writes four zero bytes, a zero or
      absent ID leaves byte 4 at 0 (a byte store keeps the low 8 bits), and the
      payload, when present, follows the 5-byte header. */
  function Build(m: Message): (r: seq<byte>)
    requires Buildable(m)
    ensures |r| == 5 + (if m.payload.Some? then |m.payload.value| else 0)
    ensures r[..4] == Int32BE(if m.lengthPrefix.Some? then m.lengthPrefix.value else 0)
    ensures r[4] == if m.messageID.Some? && m.messageID.value != 0 then m.messageID.value % 256 else 0
    ensures m.payload.Some? ==> r[5..] == m.payload.value
  {
    var prefix := Int32BE(if m.lengthPrefix.Some? then m.lengthPrefix.value else 0);
    var header := prefix + [if m.messageID.Some? && m.messageID.value != 0 then m.messageID.value % 256 else 0];
    if m.payload.Some? then header + m.payload.value else header
  }

  /** A message whose length prefix counts its ID byte and payload, as the
      peer protocol frames them. */
  predicate Framed(m: Message) {
    m.lengthPrefix.Some? && m.messageID.Some? && 0 <= m.messageID.value < 256 &&
    IsInt32(m.lengthPrefix.value) &&
    m.lengthPrefix.value == 1 + (if m.payload.Some? then |m.payload.value| else 0)
  }

  /** Every constructor except `KeepAlive` frames its message, given a
      bitfield or block whose length keeps the prefix in the int32 range. */
  lemma ConstructorsFramed(pieceIndex: int, index: int, begin: int, length: int, bf: seq<byte>, block: seq<byte>)
    requires IsInt32(pieceIndex) && IsInt32(index) && IsInt32(begin) && IsInt32(length)
    requires 1 + |bf| <= INT32_MAX && 9 + |block| <= INT32_MAX
    ensures Framed(Choke()) && Framed(Unchoke()) && Framed(Interested()) && Framed(NotInterested())
    ensures Framed(Have(pieceIndex)) && Framed(Bitfield(bf))
    ensures Framed(Request(index, begin, length)) && Framed(Cancel(index, begin, length))
    ensures Framed(PieceMessage(index, begin, block))
    ensures !Framed(KeepAlive())
  {
  }

  /** A framed message builds to 4 + `lengthPrefix` bytes that start with its
      length prefix, then its ID. */
  lemma BuildFramed(m: Message)
    requires Framed(m)
    ensures |Build(m)| == 4 + m.lengthPrefix.value
    ensures ReadInt32BE(Build(m), 0) == m.lengthPrefix.value
    ensures Build(m)[4] == m.messageID.value
  {
    var b := Build(m);
    ReadInt32BEOfInt32BE(m.lengthPrefix.value);
    ReadInt32BEWindow(b, 0, Int32BE(m.lengthPrefix.value), 0);
  }

  /** `KeepAlive().build()` is five zero bytes, not the 4-byte keep-alive of
      the peer protocol. */
  lemma KeepAliveBuildsFiveZeros()
    ensures Build(KeepAlive()) == [0, 0, 0, 0, 0]
  {
    assert Int32BE(0) == [0, 0, 0, 0];
  }

  /** The payload fields of a Request, Cancel or Piece are read back at
      offsets 0, 4 and 8. */
  lemma ReadTriple(a: int, b: int, c: seq<byte>)
    requires IsInt32(a) && IsInt32(b)
    ensures var p := Int32BE(a) + Int32BE(b) + c;
      |p| == 8 + |c| && ReadInt32BE(p, 0) == a && ReadInt32BE(p, 4) == b && p[8..] == c
  {
    var p := Int32BE(a) + Int32BE(b) + c;
    ReadInt32BEOfInt32BE(a);
    ReadInt32BEOfInt32BE(b);
    ReadInt32BEWindow(p, 0, Int32BE(a), 0);
    assert p[4..8] == Int32BE(b);
    ReadInt32BEWindow(p, 4, Int32BE(b), 0);
    assert p[8..] == c;
  }
}
