/** The peer handshake of the BitTorrent peer protocol (BEP 3): one byte
    19, the 19-byte name "BitTorrent protocol", 8 reserved bytes, the
    20-byte info-hash and the 20-byte peer id. `handshake.ts` also accepts
    the 48-byte prefix that stops before the peer id. */
module Handshakes {
  import opened Wrappers
  import opened Bytes

  const MIN_HANDSHAKE_LENGTH: nat := 48
  const MAX_HANDSHAKE_LENGTH: nat := 68
  const INFO_HASH_LENGTH: nat := 20
  const PEER_ID_LENGTH: nat := 20
  const PROTOCOL_LENGTH: byte := 19
  const PROTOCOL_NAME: string := "BitTorrent protocol"

  /** The UTF-8 encoding of the (ASCII) protocol name. */
  function ProtocolName(): (r: seq<byte>)
    ensures |r| == 19
  {
    assert IsByteString(PROTOCOL_NAME);
    StringBytes(PROTOCOL_NAME)
  }

  /** What `parse` resolves with; `peerId` is absent for a 48-byte chunk. */
  datatype Handshake = Handshake(infoHash: seq<byte>, peerId: Option<seq<byte>>)

  /** Why `parse` rejects: the chunk length, or the protocol length byte and
      name. */
  datatype HandshakeError = InvalidLength(length: nat) | InvalidProtocol(protocolLength: byte)

  /** `ensureRightProtocol`: byte 0 is 19 and the `protocolLength` bytes after
      it are the protocol name. */
  predicate RightProtocol(chunk: seq<byte>)
    requires |chunk| > 0
  {
    chunk[0] == PROTOCOL_LENGTH && Slice(chunk, 1, chunk[0] + 1) == ProtocolName()
  }

  /** `parse`: the chain `ensureHandshakeLength`, `ensureRightProtocol`,
      `getInfoHash`, `getPeerId`; a rejected promise is `Left`. */
  function Parse(chunk: seq<byte>): (r: Either<HandshakeError, Handshake>)
    ensures r.Right? <==> (|chunk| == 48 || |chunk| == 68) && chunk[0] == 19 && chunk[1..20] == ProtocolName()
    ensures r.Right? ==> r.value.infoHash == chunk[28..48]
    ensures r.Right? && |chunk| == 68 ==> r.value.peerId == Some(chunk[48..68])
    ensures r.Right? && |chunk| == 48 ==> r.value.peerId.None?
    ensures !(|chunk| == 48 || |chunk| == 68) ==> r == Left(InvalidLength(|chunk|))
  {
    if |chunk| != MIN_HANDSHAKE_LENGTH && |chunk| != MAX_HANDSHAKE_LENGTH then Left(InvalidLength(|chunk|))
    else if !RightProtocol(chunk) then Left(InvalidProtocol(chunk[0]))
    else
      var infoHash := Slice(chunk, 28, 28 + INFO_HASH_LENGTH);
      if |chunk| == MIN_HANDSHAKE_LENGTH then Right(Handshake(infoHash, None))
      else Right(Handshake(infoHash, Some(SliceFrom(chunk, 48))))
  }

  /** The 68 bytes `build` would produce before truncation or padding. */
  function Unpadded(infoHash: seq<byte>, peerId: seq<byte>): seq<byte> {
    [PROTOCOL_LENGTH] + ProtocolName() + Zeros(8) + infoHash + peerId
  }

  /** `build`: `Buffer.concat` with a total length of 68 truncates longer
      input and zero-fills shorter input. */
  function Build(infoHash: seq<byte>, peerId: seq<byte>): (r: seq<byte>)
    ensures |r| == MAX_HANDSHAKE_LENGTH
    ensures r[0] == 19 && r[1..20] == ProtocolName() && r[20..28] == Zeros(8)
    ensures |infoHash| == 20 ==> r[28..48] == infoHash
    ensures |infoHash| == 20 && |peerId| == 20 ==> r[48..] == peerId
  {
    var u := Unpadded(infoHash, peerId);
    FitWindow(u, MAX_HANDSHAKE_LENGTH, 1, 20);
    FitWindow(u, MAX_HANDSHAKE_LENGTH, 20, 28);
    if |infoHash| == 20 then
      FitWindow(u, MAX_HANDSHAKE_LENGTH, 28, 48);
      if |peerId| == 20 then
        FitWindow(u, MAX_HANDSHAKE_LENGTH, 48, 68);
        Fit(u, MAX_HANDSHAKE_LENGTH)
      else Fit(u, MAX_HANDSHAKE_LENGTH)
    else Fit(u, MAX_HANDSHAKE_LENGTH)
  }

  /** A window of the input that fits in the total length is kept. */
  lemma FitWindow(u: seq<byte>, n: nat, i: nat, j: nat)
    requires i <= j <= |u| && j <= n
    ensures Fit(u, n)[i..j] == u[i..j]
  {
    var r := Fit(u, n);
    assert forall k :: 0 <= k < j - i ==> r[i..j][k] == r[i + k] == u[i + k];
  }

  /** Parsing a built handshake gives back its 20-byte info-hash and peer id. */
  lemma ParseBuild(infoHash: seq<byte>, peerId: seq<byte>)
    requires |infoHash| == INFO_HASH_LENGTH && |peerId| == PEER_ID_LENGTH
    ensures Parse(Build(infoHash, peerId)) == Right(Handshake(infoHash, Some(peerId)))
  {
  }

  /** Its first 48 bytes parse to the info-hash with no peer id. */
  lemma ParseBuildPrefix(infoHash: seq<byte>, peerId: seq<byte>)
    requires |infoHash| == INFO_HASH_LENGTH
    ensures Parse(Build(infoHash, peerId)[..48]) == Right(Handshake(infoHash, None))
  {
    var b := Build(infoHash, peerId);
    assert b[..48][1..20] == b[1..20];
    assert b[..48][28..48] == b[28..48];
  }

  /** Conversely, a 68-byte handshake whose reserved bytes are zero is rebuilt
      from what it parses to: the reserved bytes are the only thing `parse`
      does not check or return. */
  lemma BuildParse(chunk: seq<byte>)
    requires Parse(chunk).Right? && |chunk| == MAX_HANDSHAKE_LENGTH
    requires chunk[20..28] == Zeros(8)
    ensures Build(Parse(chunk).value.infoHash, Parse(chunk).value.peerId.value) == chunk
  {
    var h := Parse(chunk).value;
    var b := Build(h.infoHash, h.peerId.value);
    assert b[..20] == chunk[..20] by {
      assert b[..20] == [b[0]] + b[1..20];
      assert chunk[..20] == [chunk[0]] + chunk[1..20];
    }
    assert b == b[..20] + b[20..28] + b[28..48] + b[48..];
    assert chunk == chunk[..20] + chunk[20..28] + chunk[28..48] + chunk[48..];
  }
}
