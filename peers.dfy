/** One remote peer as `peer.ts` keeps it: the four choke and interest flags
    of the peer protocol, the FIFO queue of outgoing messages, the number of
    pieces in flight and the bitfield the peer announced. The torrent the
    peer belongs to enters only through the values a method needs from it. */
module Peers {
  import opened Wrappers
  import opened Bytes
  import opened Messages
  import Bitfields
  import Framing

  /** `1 << 14`, the block length a piece request asks for. */
  const BLOCK_LENGTH: nat := 16384

  /** The flag a queued job sets when it runs, before it writes its bytes. */
  datatype FlagUpdate = SetChoking(choking: bool) | SetInterested(interested: bool) | NoFlag

  /** One job of the outgoing queue: the flag it sets and the message whose
      `build()` it writes to the socket. */
  datatype Job = Job(update: FlagUpdate, message: Message)

  /** The job `addMessageToQueue` pushes for a message with an ID. */
  function JobFor(m: Message): Job
    requires m.messageID.Some?
  {
    var id := m.messageID.value;
    var update :=
      if id == 0 then SetChoking(true) else if id == 1 then SetChoking(false)
      else if id == 2 then SetInterested(true) else if id == 3 then SetInterested(false)
      else NoFlag;
    Job(update, m)
  }

  /** `addMessageToQueue(m)` on a queue: a message whose ID is `null` or
      `undefined` (a KeepAlive) is dropped, any other is pushed at the back. */
  function Enqueue(queue: seq<Job>, m: Message): seq<Job> {
    if m.messageID.Some? then queue + [JobFor(m)] else queue
  }

  /** `addMessageToQueue` on each message in turn. */
  function EnqueueAll(queue: seq<Job>, ms: seq<Message>): seq<Job>
    decreases |ms|
  {
    if ms == [] then queue else EnqueueAll(Enqueue(queue, ms[0]), ms[1..])
  }

  lemma {:induction false} EnqueueAllWithIDs(queue: seq<Job>, ms: seq<Message>)
    requires forall i :: 0 <= i < |ms| ==> ms[i].messageID.Some?
    ensures var r := EnqueueAll(queue, ms);
      && |r| == |queue| + |ms| && r[..|queue|] == queue
      && forall i :: 0 <= i < |ms| ==> r[|queue| + i] == JobFor(ms[i])
    decreases |ms|
  {
    if ms != [] {
      var q := queue + [JobFor(ms[0])];
      EnqueueAllWithIDs(q, ms[1..]);
      var r := EnqueueAll(queue, ms);
      assert r == EnqueueAll(q, ms[1..]);
      assert r[..|queue|] == r[..|q|][..|queue|];
      forall i | 0 <= i < |ms|
        ensures r[|queue| + i] == JobFor(ms[i])
      {
        if i == 0 {
          assert r[|queue|] == r[..|q|][|queue|] == q[|queue|];
        } else {
          assert r[|q| + (i - 1)] == JobFor(ms[1..][i - 1]);
        }
      }
    }
  }

  /** A KeepAlive never enters the queue; every other constructed message
      enters it behind what was queued before. */
  lemma EnqueueKeepAlive(queue: seq<Job>, m: Message)
    requires m == KeepAlive() || Framed(m)
    ensures Enqueue(queue, m) == if m == KeepAlive() then queue else queue + [JobFor(m)]
  {
  }

  /** A `{begin, length}` block of a piece. */
  datatype Block = Block(begin: int, length: int)

  /** `createBlockRequests(pieceLength, blockLength)`: the begins are
      `_.range(0, pieceLength, blockLength)` (a step of 0 counts as 1, a
      negative step gives no begins), each block is `blockLength` long and the
      last one runs to the end of the piece. */
  function BlockRequests(pieceLength: nat, blockLength: int): seq<Block> {
    if blockLength < 0 then []
    else
      var step := if blockLength == 0 then 1 else blockLength;
      var n := (pieceLength + step - 1) / step;
      seq(n, k requires 0 <= k < n => Block(k * step, if k == n - 1 then pieceLength - k * step else blockLength))
  }

  /** The number of blocks needed for `pieceLength` bytes, rounded up. */
  function CeilDiv(a: nat, b: nat): nat
    requires b > 0
  {
    (a + b - 1) / b
  }

  /** The bytes the blocks cover, added up. */
  function TotalLength(blocks: seq<Block>): int
    decreases |blocks|
  {
    if blocks == [] then 0 else TotalLength(blocks[..|blocks| - 1]) + blocks[|blocks| - 1].length
  }

  /** Blocks that start at 0 and each start where the previous one ended. */
  predicate Contiguous(blocks: seq<Block>) {
    (blocks != [] ==> blocks[0].begin == 0) &&
    forall k :: 0 <= k < |blocks| - 1 ==> blocks[k + 1].begin == blocks[k].begin + blocks[k].length
  }

  /** Contiguous blocks cover exactly up to the end of the last one. */
  lemma {:induction false} TotalLengthOfContiguous(blocks: seq<Block>)
    requires Contiguous(blocks) && blocks != []
    ensures TotalLength(blocks) == blocks[|blocks| - 1].begin + blocks[|blocks| - 1].length
    decreases |blocks|
  {
    var n := |blocks|;
    if n > 1 {
      var init := blocks[..n - 1];
      assert Contiguous(init) by {
        forall k | 0 <= k < |init| - 1
          ensures init[k + 1].begin == init[k].begin + init[k].length
        {
          assert init[k] == blocks[k] && init[k + 1] == blocks[k + 1];
        }
      }
      TotalLengthOfContiguous(init);
      assert init[n - 2] == blocks[n - 2];
    } else {
      assert blocks[..0] == [];
    }
  }

  /** The shape of the blocks read off their definition. */
  lemma BlockRequestsShape(pieceLength: nat, blockLength: nat)
    requires blockLength > 0
    ensures var r := BlockRequests(pieceLength, blockLength);
      && |r| == CeilDiv(pieceLength, blockLength)
      && (forall k :: 0 <= k < |r| ==> r[k].begin == k * blockLength)
      && (forall k :: 0 <= k < |r| - 1 ==> r[k].length == blockLength)
      && (r != [] ==> r[|r| - 1].length == pieceLength - (|r| - 1) * blockLength)
  {
  }

  lemma MulStep(k: int, b: int)
    ensures (k + 1) * b == k * b + b
  {
  }

  lemma MulMono(j: nat, k: nat, b: nat)
    requires j <= k
    ensures j * b <= k * b
  {
    assert k * b == j * b + (k - j) * b;
  }

  /** The last begin lies inside the piece and at most one block before its
      end. */
  lemma LastBlockBounds(pieceLength: nat, blockLength: nat)
    requires blockLength > 0 && pieceLength > 0
    ensures var n := CeilDiv(pieceLength, blockLength);
      n > 0 && (n - 1) * blockLength < pieceLength <= n * blockLength
  {
    var t := pieceLength + blockLength - 1;
    var n := t / blockLength;
    var rem := t % blockLength;
    assert t == n * blockLength + rem;
    assert 0 <= rem < blockLength;
    MulStep(n - 1, blockLength);
    assert n * blockLength >= pieceLength;
  }

  lemma EmptyIffNoBytes(pieceLength: nat, blockLength: nat)
    requires blockLength > 0
    ensures CeilDiv(pieceLength, blockLength) == 0 <==> pieceLength == 0
  {
    if pieceLength == 0 {
      assert (blockLength - 1) / blockLength == 0;
    } else {
      LastBlockBounds(pieceLength, blockLength);
    }
  }

  lemma LastLength(pieceLength: nat, blockLength: nat)
    requires blockLength > 0 && pieceLength > 0
    ensures var n := CeilDiv(pieceLength, blockLength);
      0 < pieceLength - (n - 1) * blockLength <= blockLength
  {
    var n := CeilDiv(pieceLength, blockLength);
    LastBlockBounds(pieceLength, blockLength);
    MulStep(n - 1, blockLength);
  }

  /** Blocks at a fixed stride, each a stride long but the last, are
      contiguous. */
  lemma StridedContiguous(r: seq<Block>, b: int)
    requires forall k :: 0 <= k < |r| ==> r[k].begin == k * b
    requires forall k :: 0 <= k < |r| - 1 ==> r[k].length == b
    ensures Contiguous(r)
  {
    forall k | 0 <= k < |r| - 1
      ensures r[k + 1].begin == r[k].begin + r[k].length
    {
      MulStep(k, b);
    }
  }

  /** For a positive block length the blocks tile `[0, pieceLength)`: there
      are ceil(pieceLength / blockLength) of them, none for an empty piece,
      block k begins at k * blockLength, all but the last are `blockLength`
      long, the last is the non-empty rest of the piece, each starts where
      the previous one ended and together they are the piece's length. */
  lemma BlockRequestsTile(pieceLength: nat, blockLength: nat)
    requires blockLength > 0
    ensures var r := BlockRequests(pieceLength, blockLength);
      && |r| == CeilDiv(pieceLength, blockLength)
      && (r == [] <==> pieceLength == 0)
      && (forall k :: 0 <= k < |r| ==> r[k].begin == k * blockLength)
      && (forall k :: 0 <= k < |r| - 1 ==> r[k].length == blockLength)
      && (r != [] ==> 0 < r[|r| - 1].length <= blockLength)
      && Contiguous(r)
      && TotalLength(r) == pieceLength
  {
    var r := BlockRequests(pieceLength, blockLength);
    BlockRequestsShape(pieceLength, blockLength);
    EmptyIffNoBytes(pieceLength, blockLength);
    StridedContiguous(r, blockLength);
    if r != [] {
      LastLength(pieceLength, blockLength);
      TotalLengthOfContiguous(r);
    }
  }

  /** Every block begins inside the piece and is at most the piece long. */
  lemma BlocksWithin(pieceLength: nat, blockLength: int)
    ensures var r := BlockRequests(pieceLength, blockLength);
      forall k :: 0 <= k < |r| ==> 0 <= r[k].begin < pieceLength && 0 <= r[k].length <= pieceLength
  {
    var r := BlockRequests(pieceLength, blockLength);
    if blockLength > 0 && r != [] {
      var n := |r|;
      BlockRequestsShape(pieceLength, blockLength);
      EmptyIffNoBytes(pieceLength, blockLength);
      LastBlockBounds(pieceLength, blockLength);
      LastLength(pieceLength, blockLength);
      forall k | 0 <= k < n
        ensures 0 <= r[k].begin < pieceLength && 0 <= r[k].length <= pieceLength
      {
        MulMono(k, n - 1, blockLength);
        if k < n - 1 {
          MulMono(1, n - 1, blockLength);
        }
      }
    } else if blockLength == 0 {
      forall k | 0 <= k < |r|
        ensures 0 <= r[k].begin < pieceLength && 0 <= r[k].length <= pieceLength
      {
      }
    }
  }

  /** The torrent values `createRequestMessages` reads: its number of pieces,
      its piece length and the length of its last piece. */
  datatype Geometry = Geometry(nbPieces: int, pieceLength: nat, lastPieceLength: nat)

  /** The length of piece `pieceIndex` as `createRequestMessages` sees it. */
  function RequestedPieceLength(g: Geometry, pieceIndex: int): nat {
    if pieceIndex == g.nbPieces - 1 then g.lastPieceLength else g.pieceLength
  }

  /** The block length `createRequestMessages` uses: the given length when it
      is truthy (present and non-zero), `1 << 14` otherwise, capped by the
      piece length. */
  function RequestedBlockLength(g: Geometry, pieceIndex: int, lengthBlock: Option<int>): int {
    var blockLength := if lengthBlock.None? || lengthBlock.value == 0 then BLOCK_LENGTH else lengthBlock.value;
    var pieceLength := RequestedPieceLength(g, pieceIndex);
    if blockLength < pieceLength then blockLength else pieceLength
  }

  /** `createRequestMessages(pieceIndex, lengthBlock)`: one Request per block
      of the piece. `new Request` throws a RangeError for fields outside the
      int32 range. */
  function RequestMessages(g: Geometry, pieceIndex: int, lengthBlock: Option<int>): seq<Message>
    requires IsInt32(pieceIndex) && RequestedPieceLength(g, pieceIndex) <= INT32_MAX
  {
    var pieceLength := RequestedPieceLength(g, pieceIndex);
    var blocks := BlockRequests(pieceLength, RequestedBlockLength(g, pieceIndex, lengthBlock));
    BlocksWithin(pieceLength, RequestedBlockLength(g, pieceIndex, lengthBlock));
    seq(|blocks|, k requires 0 <= k < |blocks| => Request(pieceIndex, blocks[k].begin, blocks[k].length))
  }

  /** The `{begin, length}` each message asks for. */
  function AsBlocks(ms: seq<Message>): (r: seq<Block>)
    ensures |r| == |ms|
  {
    seq(|ms|, k requires 0 <= k < |ms| => Block(ms[k].begin, ms[k].length))
  }

  /** Without a block length, piece `pieceIndex` (the last piece by its own
      length) is asked for in blocks of bl = min(1 << 14, its length) bytes:
      ceil(length / bl) Requests, the k-th for bl bytes at k * bl (the last
      for the non-empty rest), each a Request of that piece, and together
      they ask for the whole piece, each byte once and in order. */
  lemma RequestMessagesCoverPiece(g: Geometry, pieceIndex: int)
    requires IsInt32(pieceIndex) && RequestedPieceLength(g, pieceIndex) <= INT32_MAX
    ensures var pieceLength := if pieceIndex == g.nbPieces - 1 then g.lastPieceLength else g.pieceLength;
      var bl := if BLOCK_LENGTH < pieceLength then BLOCK_LENGTH else pieceLength;
      var r := RequestMessages(g, pieceIndex, None);
      && (pieceLength == 0 <==> r == [])
      && (pieceLength > 0 ==> |r| == CeilDiv(pieceLength, bl))
      && (forall k :: 0 <= k < |r| ==>
            && 0 <= r[k].begin < pieceLength && r[k].begin == k * bl
            && 0 < r[k].length <= bl && (k < |r| - 1 ==> r[k].length == bl)
            && r[k] == Request(pieceIndex, r[k].begin, r[k].length))
      && Contiguous(AsBlocks(r))
      && TotalLength(AsBlocks(r)) == pieceLength
  {
    var pieceLength := RequestedPieceLength(g, pieceIndex);
    var bl := RequestedBlockLength(g, pieceIndex, None);
    var r := RequestMessages(g, pieceIndex, None);
    var blocks := BlockRequests(pieceLength, bl);
    BlocksWithin(pieceLength, bl);
    assert AsBlocks(r) == blocks;
    if pieceLength > 0 {
      BlockRequestsTile(pieceLength, bl);
    } else {
      assert bl == 0;
      assert r == [];
    }
  }

  /** The peer's flags, in-flight count and bitfield: everything but the
      queue. */
  datatype Status = Status(amChoking: bool, amInterested: bool, peerChoking: bool, peerInterested: bool,
                           inFlight: int, peerBitfield: Option<seq<byte>>)

  /** The status once a job's flag update has been applied. */
  function Apply(s: Status, u: FlagUpdate): Status {
    match u
    case SetChoking(b) => s.(amChoking := b)
    case SetInterested(b) => s.(amInterested := b)
    case NoFlag => s
  }

  /** Running the job of a Choke, Unchoke, Interested or NotInterested sets
      `am_choking` to true or false or `am_interested` to true or false, and
      no other job changes a flag. */
  lemma JobFlags(s: Status, m: Message)
    requires m.messageID.Some?
    ensures var t := Apply(s, JobFor(m).update);
      var id := m.messageID.value;
      && (id == 0 || id == 1 ==> t == s.(amChoking := id == 0))
      && (id == 2 || id == 3 ==> t == s.(amInterested := id == 2))
      && (!(0 <= id <= 3) ==> t == s)
  {
  }

  class Peer {
    var peerId: Option<seq<byte>>
    var amChoking: bool
    var amInterested: bool
    var peerChoking: bool
    var peerInterested: bool
    /** `messageQueue`, a queue of jobs run in push order. */
    var queue: seq<Job>
    /** `nbPiecesCurrentlyDownloading`. */
    var inFlight: int
    /** `peer_bitfield`, `null` until the peer sends one. */
    var peerBitfield: Option<seq<byte>>
    const parser: Framing.MessagesHandler

    function State(): Status
      reads this
    {
      Status(amChoking, amInterested, peerChoking, peerInterested, inFlight, peerBitfield)
    }

    /** `new Peer(torrent, socket, peerId)`: both peers choke and neither is
        interested, nothing is queued or in flight and no bitfield is known.
        Neither branch passes an info-hash to the handler (the second passes
        `true` in its place), so it never waits for a handshake. */
    constructor(peerId: Option<seq<byte>>)
      ensures this.peerId == peerId && queue == []
      ensures State() == Status(true, false, true, false, 0, None)
      ensures fresh(parser) && parser.State() == Framing.HState(0, Framing.DECODING_LENGTH_PREFIX, None, [], [])
    {
      this.peerId := peerId;
      amChoking := true;
      amInterested := false;
      peerChoking := true;
      peerInterested := false;
      queue := [];
      inFlight := 0;
      peerBitfield := None;
      parser := new Framing.MessagesHandler([], false);
    }

    /** `containsPiece(i)`: false while no bitfield is known, else the
        most-significant-bit-first test of bit i. */
    predicate ContainsPiece(pieceIndex: int)
      reads this
    {
      peerBitfield.Some? && Bitfields.ContainsPiece(peerBitfield.value, pieceIndex)
    }

    method AddMessageToQueue(m: Message)
      modifies this
      ensures queue == Enqueue(old(queue), m)
      ensures State() == old(State()) && peerId == old(peerId)
    {
      if m.messageID.Some? {
        queue := queue + [JobFor(m)];
      }
    }

    /** The queue runs its front job: the flag it sets changes, the job
        leaves the queue and `build()` produces the bytes it writes, unless
        the length prefix is outside the int32 range and `build()` throws. */
    method RunNextJob() returns (written: Option<seq<byte>>)
      requires queue != []
      modifies this
      ensures var j := old(queue[0]);
        && queue == old(queue[1..])
        && State() == Apply(old(State()), j.update)
        && written == (if Buildable(j.message) then Some(Build(j.message)) else None)
      ensures peerId == old(peerId)
    {
      var j := queue[0];
      queue := queue[1..];
      match j.update {
        case SetChoking(b) => amChoking := b;
        case SetInterested(b) => amInterested := b;
        case NoFlag =>
      }
      written := if Buildable(j.message) then Some(Build(j.message)) else None;
    }

    method SendUnchoke()
      modifies this
      ensures queue == old(queue) + [JobFor(Unchoke())]
      ensures State() == old(State()).(amChoking := false) && peerId == old(peerId)
    {
      AddMessageToQueue(Unchoke());
      amChoking := false;
    }

    method SendInterested()
      modifies this
      ensures queue == old(queue) + [JobFor(Interested())]
      ensures State() == old(State()).(amInterested := true) && peerId == old(peerId)
    {
      AddMessageToQueue(Interested());
      amInterested := true;
    }

    method SendBitfield(bitfield: seq<byte>)
      modifies this
      ensures queue == old(queue) + [JobFor(Bitfield(bitfield))]
      ensures State() == old(State()) && peerId == old(peerId)
    {
      AddMessageToQueue(Bitfield(bitfield));
    }

    method SendHave(pieceIndex: int)
      requires IsInt32(pieceIndex)
      modifies this
      ensures queue == old(queue) + [JobFor(Have(pieceIndex))]
      ensures State() == old(State()) && peerId == old(peerId)
    {
      AddMessageToQueue(Have(pieceIndex));
    }

    /** `start()`: it tests the method `isCompleted` itself, which is always
        truthy, so it never sends Interested. */
    method Start(torrentBitfield: seq<byte>)
      modifies this
      ensures queue == old(queue) + [JobFor(Unchoke()), JobFor(Bitfield(torrentBitfield))]
      ensures State() == old(State()).(amChoking := false) && peerId == old(peerId)
    {
      SendUnchoke();
      SendBitfield(torrentBitfield);
    }

    /** `sendRequest(pieceIndex)`: the Requests of `createRequestMessages`
        join the queue in block order. */
    method SendRequest(g: Geometry, pieceIndex: int)
      requires IsInt32(pieceIndex) && RequestedPieceLength(g, pieceIndex) <= INT32_MAX
      modifies this
      ensures queue == EnqueueAll(old(queue), RequestMessages(g, pieceIndex, None))
      ensures State() == old(State()) && peerId == old(peerId)
    {
      var requests := RequestMessages(g, pieceIndex, None);
      var i := 0;
      while i < |requests|
        invariant 0 <= i <= |requests|
        invariant EnqueueAll(queue, requests[i..]) == EnqueueAll(old(queue), requests)
        invariant State() == old(State()) && peerId == old(peerId)
      {
        assert requests[i..][1..] == requests[i + 1..];
        AddMessageToQueue(requests[i]);
        i := i + 1;
      }
    }

    method ReceiveKeepAlive()
      ensures State() == old(State())
    {
    }

    method ReceiveChoke()
      modifies this
      ensures State() == old(State()).(peerChoking := true)
      ensures queue == old(queue) && peerId == old(peerId)
    {
      peerChoking := true;
    }

    method ReceiveUnchoke()
      modifies this
      ensures State() == old(State()).(peerChoking := false)
      ensures queue == old(queue) && peerId == old(peerId)
    {
      peerChoking := false;
    }

    method ReceiveInterested()
      modifies this
      ensures State() == old(State()).(peerInterested := true)
      ensures queue == old(queue) && peerId == old(peerId)
    {
      peerInterested := true;
    }

    method ReceiveNotInterested()
      modifies this
      ensures State() == old(State()).(peerInterested := false)
      ensures queue == old(queue) && peerId == old(peerId)
    {
      peerInterested := false;
    }

    /** `receiveHave(i)`: sets bit i of the known bitfield; before any
        bitfield arrived, `updateBitfield(null, i)` throws a TypeError. */
    method ReceiveHave(pieceIndex: int) returns (ok: bool)
      modifies this
      ensures ok <==> old(peerBitfield).Some?
      ensures State() == if ok then old(State()).(peerBitfield := Some(Bitfields.SetPiece(old(peerBitfield).value, pieceIndex)))
                         else old(State())
      ensures ok ==> ContainsPiece(pieceIndex) == (pieceIndex >= 0 && pieceIndex / 8 < |old(peerBitfield).value|)
      ensures ok ==> forall j :: j != pieceIndex ==> (ContainsPiece(j) <==> old(ContainsPiece(j)))
      ensures queue == old(queue) && peerId == old(peerId)
    {
      if peerBitfield.None? {
        return false;
      }
      var before := peerBitfield.value;
      peerBitfield := Some(Bitfields.SetPiece(before, pieceIndex));
      forall j
        ensures Bitfields.ContainsPiece(Bitfields.SetPiece(before, pieceIndex), j)
          <==> Bitfields.ContainsPiece(before, j) || (j == pieceIndex && Bitfields.InRange(before, pieceIndex))
      {
        Bitfields.ContainsPieceOfSetPiece(before, pieceIndex, j);
      }
      assert Bitfields.InRange(before, pieceIndex) ==> Bitfields.ContainsPiece(Bitfields.SetPiece(before, pieceIndex), pieceIndex);
      return true;
    }

    method ReceiveBitfield(bitfield: seq<byte>)
      modifies this
      ensures State() == old(State()).(peerBitfield := Some(bitfield))
      ensures queue == old(queue) && peerId == old(peerId)
    {
      peerBitfield := Some(bitfield);
    }

    /** `receiveRequest(index, begin, length)`: when the torrent holds the
        piece, the block it reads back (`chunk`) is queued as a Piece. */
    method ReceiveRequest(index: int, begin: int, torrentHasPiece: bool, chunk: seq<byte>)
      requires IsInt32(index) && IsInt32(begin)
      modifies this
      ensures queue == if torrentHasPiece then old(queue) + [JobFor(PieceMessage(index, begin, chunk))] else old(queue)
      ensures State() == old(State()) && peerId == old(peerId)
    {
      if torrentHasPiece {
        AddMessageToQueue(PieceMessage(index, begin, chunk));
      }
    }

    /** `receivePiece(index, begin, block)`: a piece the torrent does not hold
        is written, and the in-flight count drops by one when the write reports
        the piece completed and valid (`pieceCompleted`). */
    method ReceivePiece(torrentHasPiece: bool, pieceCompleted: bool)
      modifies this
      ensures State() == old(State()).(inFlight := old(inFlight) - if !torrentHasPiece && pieceCompleted then 1 else 0)
      ensures queue == old(queue) && peerId == old(peerId)
    {
      if !torrentHasPiece {
        if pieceCompleted {
          inFlight := inFlight - 1;
        }
      }
    }

    method ReceiveCancel()
      ensures State() == old(State())
    {
    }
  }

  /** Every Request of a piece enters the queue, in block order, behind what
      was queued before. */
  lemma SendRequestQueues(queue: seq<Job>, g: Geometry, pieceIndex: int)
    requires IsInt32(pieceIndex) && RequestedPieceLength(g, pieceIndex) <= INT32_MAX
    ensures var ms := RequestMessages(g, pieceIndex, None);
      var r := EnqueueAll(queue, ms);
      && |r| == |queue| + |ms| && r[..|queue|] == queue
      && forall i :: 0 <= i < |ms| ==> r[|queue| + i] == Job(NoFlag, ms[i])
  {
    var ms := RequestMessages(g, pieceIndex, None);
    EnqueueAllWithIDs(queue, ms);
  }
}
