/** `TorrentDisk`: lays the torrent's pieces over its files, keeps the local
    bitfield and routes block writes to the pieces. */
module Disks {
  import opened Wrappers
  import opened Bytes
  import opened Files
  import opened Blocks
  import opened Pieces
  import opened Bitfields
  import opened InfoDicts

  // ------------------------------------------------------- empty-file fill

  /** `1 << 30`, the chunk size used for files of a gibibyte or more. */
  const ONE_GIB: int := 0x4000_0000

  /** The result of `computeChunkSizeToFillEmptyFile`. */
  datatype FillChunks = FillChunks(nbSteps: int, chunkSize: int, lastChunkSize: int)

  /** `computeChunkSizeToFillEmptyFile(theoricalLength)`. */
  function ComputeChunkSizeToFillEmptyFile(theoricalLength: int): (r: FillChunks)
    ensures theoricalLength < ONE_GIB ==> r.nbSteps == 11
    ensures theoricalLength >= ONE_GIB ==> r.chunkSize == ONE_GIB && r.nbSteps >= 2 && 0 <= r.lastChunkSize < ONE_GIB
    ensures theoricalLength >= 0 ==> 0 <= r.chunkSize && 0 <= r.lastChunkSize
    ensures theoricalLength >= 0 ==> (r.nbSteps - 1) * r.chunkSize + r.lastChunkSize == theoricalLength
  {
    if theoricalLength < ONE_GIB then
      FillChunks(11, theoricalLength / 10, JsRem(theoricalLength, 10))
    else
      var nbSteps := theoricalLength / ONE_GIB + 1;
      FillChunks(nbSteps, ONE_GIB, theoricalLength - (nbSteps - 1) * ONE_GIB)
  }

  function Repeat(x: int, n: nat): (r: seq<int>)
    ensures |r| == n && forall k :: 0 <= k < n ==> r[k] == x
  {
    if n == 0 then [] else Repeat(x, n - 1) + [x]
  }

  function Sum(xs: seq<int>): int {
    if xs == [] then 0 else Sum(xs[..|xs| - 1]) + xs[|xs| - 1]
  }

  lemma {:induction false} SumRepeat(x: int, n: nat)
    ensures Sum(Repeat(x, n)) == n * x
  {
    if n > 0 {
      SumRepeat(x, n - 1);
      assert Repeat(x, n)[..n - 1] == Repeat(x, n - 1);
    }
  }

  /** The write loop of `fillWithEmptyBytes`: the sizes of the chunks it
      writes, in order. The write stream opens the file with flag 'w', which
      truncates it, so the chunks add up to the whole expected length, not
      to what is missing. A file that already has the expected length gets
      no write; a negative length makes `Buffer.allocUnsafe` throw (`None`). The
      bytes themselves are left out: `allocUnsafe` leaves them unspecified. */
  method FillWithEmptyBytes(actualLength: int, theoricalLength: int) returns (writes: Option<seq<int>>)
    ensures actualLength == theoricalLength ==> writes == Some([])
    ensures actualLength != theoricalLength && theoricalLength < 0 ==> writes == None
    ensures actualLength != theoricalLength && theoricalLength >= 0 ==>
      var c := ComputeChunkSizeToFillEmptyFile(theoricalLength);
      writes == Some(Repeat(c.chunkSize, c.nbSteps - 1) + [c.lastChunkSize]) && Sum(writes.value) == theoricalLength
  {
    if actualLength == theoricalLength {
      return Some([]);
    }
    var c := ComputeChunkSizeToFillEmptyFile(theoricalLength);
    if c.chunkSize < 0 || c.lastChunkSize < 0 {
      return None;
    }
    var done: seq<int> := [];
    var i := c.nbSteps;
    var first := true;
    while first || i > 0
      invariant 1 <= c.nbSteps && i <= c.nbSteps
      invariant first ==> i == c.nbSteps && done == []
      invariant !first && i > 0 ==> done == Repeat(c.chunkSize, c.nbSteps - i)
      invariant !first ==> i >= 0
      invariant !first && i == 0 ==> done == Repeat(c.chunkSize, c.nbSteps - 1) + [c.lastChunkSize]
      decreases i + (if first then 1 else 0)
    {
      first := false;
      i := i - 1;
      if i == 0 {
        done := done + [c.lastChunkSize];
      } else {
        done := done + [c.chunkSize];
      }
    }
    var sizes := Repeat(c.chunkSize, c.nbSteps - 1) + [c.lastChunkSize];
    assert sizes[..|sizes| - 1] == Repeat(c.chunkSize, c.nbSteps - 1);
    SumRepeat(c.chunkSize, c.nbSteps - 1);
    return Some(done);
  }

  // ---------------------------------------------------------- piece layout

  /** An opened file: descriptor, path and length on disk. */
  datatype FileInfo = FileInfo(fd: int, path: string, length: nat)

  /** A file position the layout loop can be at: within file `fileIndex`, or
      past the last file. */
  predicate CursorOk(files: seq<FileInfo>, fileIndex: int, fileOffset: nat) {
    0 <= fileIndex && (fileIndex < |files| ==> fileOffset <= files[fileIndex].length)
  }

  /** The seek pointers of one piece and the loop state after it. */
  datatype Laid = Laid(pointers: seq<SeekPointer>, fileIndex: int, fileOffset: nat, pieceOffset: nat)

  /** The inner loop of `initPieces`: the pointers of a piece of `remaining`
      more bytes starting at `fileOffset` of file `fileIndex`; `None` when the
      files run out (destructuring `files[fileIndex]` throws). */
  function LayPiece(files: seq<FileInfo>, fileIndex: int, fileOffset: nat, pieceOffset: nat, remaining: int): (r: Option<Laid>)
    requires CursorOk(files, fileIndex, fileOffset)
    ensures r.Some? ==> CursorOk(files, r.value.fileIndex, r.value.fileOffset)
    ensures r.Some? && remaining > 0 ==> r.value.pieceOffset == 0
    ensures r.Some? && remaining <= 0 ==> r.value == Laid([], fileIndex, fileOffset, pieceOffset)
    decreases |files| - fileIndex
  {
    if remaining <= 0 then Some(Laid([], fileIndex, fileOffset, pieceOffset))
    else if fileIndex >= |files| then None
    else
      var f := files[fileIndex];
      var p := SeekPointer(f.fd, fileOffset, pieceOffset, f.length);
      var room := f.length - fileOffset;
      if remaining > room then
        match LayPiece(files, fileIndex + 1, 0, pieceOffset + room, remaining - room)
        case None => None
        case Some(l) => Some(l.(pointers := [p] + l.pointers))
      else if remaining < room then Some(Laid([p], fileIndex, fileOffset + remaining, 0))
      else Some(Laid([p], fileIndex + 1, 0, 0))
  }

  /** One piece as `initPieces` creates it, with the file cursor its first
      pointer was laid from. */
  datatype PieceLayout = PieceLayout(fingerPrint: seq<byte>, length: int, pointers: seq<SeekPointer>,
                                     startFile: int, startOffset: nat)

  /** The outer loop of `initPieces` from piece `i` on. `i` runs while it is
      below the (possibly fractional) piece count, and only the piece whose
      index equals `nbPieces - 1` gets the last piece length. */
  function LayoutFrom(d: CustomInfoDict, last: int, files: seq<FileInfo>, i: nat,
                      fileIndex: int, fileOffset: nat, pieceOffset: nat): Option<seq<PieceLayout>>
    requires CursorOk(files, fileIndex, fileOffset)
    decreases |d.pieces| + 20 - 20 * i
  {
    if !((i as real) < d.NbPieces()) then Some([])
    else
      var len := if (i as real) != d.NbPieces() - 1.0 then d.pieceLength else last;
      match LayPiece(files, fileIndex, fileOffset, pieceOffset, len)
      case None => None
      case Some(l) =>
        match LayoutFrom(d, last, files, i + 1, l.fileIndex, l.fileOffset, l.pieceOffset)
        case None => None
        case Some(rest) => Some([PieceLayout(Slice(d.pieces, 20 * i, 20 * (i + 1)), len, l.pointers, fileIndex, fileOffset)] + rest)
  }

  function PrependLayouts(done: seq<PieceLayout>, o: Option<seq<PieceLayout>>): Option<seq<PieceLayout>> {
    if o.None? then None else Some(done + o.value)
  }

  function PrependPointers(done: seq<SeekPointer>, o: Option<Laid>): Option<Laid> {
    if o.None? then None else Some(o.value.(pointers := done + o.value.pointers))
  }

  /** A freshly created piece with the given layout. */
  predicate IsLaidOut(p: Piece, l: PieceLayout)
    reads p
  {
    p.fingerPrint == l.fingerPrint && p.length == l.length && p.pointers == l.pointers &&
    p.blocks == [] && !p.isCompletedAndValid
  }

  /** A piece's byte at piece offset `k` and the file position the layout
      assigns it, counted over the concatenated files. */
  function Start(files: seq<FileInfo>, fileIndex: nat): int
    requires fileIndex <= |files|
  {
    if fileIndex == 0 then 0 else Start(files, fileIndex - 1) + files[fileIndex - 1].length
  }

  /** The global position of a layout cursor. */
  function Position(files: seq<FileInfo>, fileIndex: int, fileOffset: nat): int
    requires 0 <= fileIndex <= |files|
  {
    Start(files, fileIndex) + fileOffset
  }

  /** The pointer chain of one piece: the first pointer is at the cursor,
      every later one at offset 0 of the next file with its piece offset
      advanced by the previous pointer's room, and the last one has room for
      the rest of the piece. */
  lemma {:induction false} LayPieceChain(files: seq<FileInfo>, fileIndex: int, fileOffset: nat, pieceOffset: nat, remaining: int)
    requires CursorOk(files, fileIndex, fileOffset)
    requires remaining > 0
    requires LayPiece(files, fileIndex, fileOffset, pieceOffset, remaining).Some?
    ensures var ps := LayPiece(files, fileIndex, fileOffset, pieceOffset, remaining).value.pointers;
      |ps| >= 1 && fileIndex + |ps| <= |files| &&
      ps[0].fileOffset == fileOffset && ps[0].pieceOffset == pieceOffset &&
      (forall k :: 0 <= k < |ps| ==> ps[k].fd == files[fileIndex + k].fd && ps[k].fileLength == files[fileIndex + k].length) &&
      (forall k :: 1 <= k < |ps| ==>
         (ps[k].fileOffset == 0 && ps[k].pieceOffset == ps[k - 1].pieceOffset + ps[k - 1].fileLength - ps[k - 1].fileOffset)) &&
      0 < pieceOffset + remaining - ps[|ps| - 1].pieceOffset <= ps[|ps| - 1].fileLength - ps[|ps| - 1].fileOffset
    decreases |files| - fileIndex
  {
    var f := files[fileIndex];
    var room := f.length - fileOffset;
    if remaining > room {
      var p := SeekPointer(f.fd, fileOffset, pieceOffset, f.length);
      var l := LayPiece(files, fileIndex + 1, 0, pieceOffset + room, remaining - room).value;
      LayPieceChain(files, fileIndex + 1, 0, pieceOffset + room, remaining - room);
      var ps := [p] + l.pointers;
      assert LayPiece(files, fileIndex, fileOffset, pieceOffset, remaining).value.pointers == ps;
      assert forall k :: 1 <= k < |ps| ==> ps[k] == l.pointers[k - 1];
    }
  }

  /** The layout cursor moves on by exactly the piece's length in the
      concatenated files. */
  lemma {:induction false} LayPieceAdvance(files: seq<FileInfo>, fileIndex: int, fileOffset: nat, pieceOffset: nat, remaining: int)
    requires CursorOk(files, fileIndex, fileOffset) && fileIndex <= |files|
    requires remaining > 0
    requires LayPiece(files, fileIndex, fileOffset, pieceOffset, remaining).Some?
    ensures var l := LayPiece(files, fileIndex, fileOffset, pieceOffset, remaining).value;
      l.fileIndex <= |files| &&
      Position(files, l.fileIndex, l.fileOffset) == Position(files, fileIndex, fileOffset) + remaining
    decreases |files| - fileIndex
  {
    var f := files[fileIndex];
    var room := f.length - fileOffset;
    if remaining > room {
      LayPieceAdvance(files, fileIndex + 1, 0, pieceOffset + room, remaining - room);
    }
  }

  lemma PrependNothing(o: Option<seq<PieceLayout>>)
    ensures PrependLayouts([], o) == o
  {
    if o.Some? {
      assert [] + o.value == o.value;
    }
  }

  lemma PrependLayoutsAppend(done: seq<PieceLayout>, l: PieceLayout, o: Option<seq<PieceLayout>>)
    ensures PrependLayouts(done, PrependLayouts([l], o)) == PrependLayouts(done + [l], o)
  {
    if o.Some? {
      assert done + ([l] + o.value) == (done + [l]) + o.value;
    }
  }

  lemma PrependPointersNothing(o: Option<Laid>)
    ensures PrependPointers([], o) == o
  {
    if o.Some? {
      assert [] + o.value.pointers == o.value.pointers;
    }
  }

  /** One turn of the inner loop, seen on `LayPiece`. */
  lemma LayPieceStep(files: seq<FileInfo>, fileIndex: int, fileOffset: nat, pieceOffset: nat, remaining: int, added: seq<SeekPointer>)
    requires CursorOk(files, fileIndex, fileOffset) && fileIndex < |files| && remaining > 0
    ensures var f := files[fileIndex];
      var room := f.length - fileOffset;
      var added' := added + [SeekPointer(f.fd, fileOffset, pieceOffset, f.length)];
      var o := PrependPointers(added, LayPiece(files, fileIndex, fileOffset, pieceOffset, remaining));
      (remaining > room ==> o == PrependPointers(added', LayPiece(files, fileIndex + 1, 0, pieceOffset + room, remaining - room))) &&
      (remaining < room ==> o == PrependPointers(added', LayPiece(files, fileIndex, fileOffset + remaining, 0, 0))) &&
      (remaining == room ==> o == PrependPointers(added', LayPiece(files, fileIndex + 1, 0, 0, 0)))
  {
    var f := files[fileIndex];
    var room := f.length - fileOffset;
    var p := SeekPointer(f.fd, fileOffset, pieceOffset, f.length);
    if remaining > room {
      var rest := LayPiece(files, fileIndex + 1, 0, pieceOffset + room, remaining - room);
      if rest.Some? {
        assert added + ([p] + rest.value.pointers) == (added + [p]) + rest.value.pointers;
      }
    } else {
      assert added + [p] + [] == added + [p];
    }
  }

  /** The inner `while (bytesPieceRemaining > 0)` loop of `initPieces`: adds
      the piece's seek pointers and moves the layout cursor on, or reports that
      the files ran out (`ok` false). */
  method AddPiecePointers(piece: Piece, files: seq<FileInfo>, fileIndex0: int, fileOffset0: nat, pieceOffset0: nat, len: int)
    returns (ok: bool, fileIndex: int, fileOffset: nat, pieceOffset: nat)
    requires CursorOk(files, fileIndex0, fileOffset0)
    modifies piece
    ensures var l := LayPiece(files, fileIndex0, fileOffset0, pieceOffset0, len);
      ok == l.Some? &&
      (ok ==> piece.pointers == old(piece.pointers) + l.value.pointers &&
              Laid(l.value.pointers, fileIndex, fileOffset, pieceOffset) == l.value)
    ensures piece.blocks == old(piece.blocks) && piece.isCompletedAndValid == old(piece.isCompletedAndValid)
  {
    fileIndex, fileOffset, pieceOffset := fileIndex0, fileOffset0, pieceOffset0;
    var remaining := len;
    ghost var added: seq<SeekPointer> := [];
    PrependPointersNothing(LayPiece(files, fileIndex, fileOffset, pieceOffset, remaining));
    while remaining > 0
      invariant CursorOk(files, fileIndex, fileOffset)
      invariant piece.pointers == old(piece.pointers) + added
      invariant LayPiece(files, fileIndex0, fileOffset0, pieceOffset0, len) == PrependPointers(added, LayPiece(files, fileIndex, fileOffset, pieceOffset, remaining))
      invariant piece.blocks == old(piece.blocks) && piece.isCompletedAndValid == old(piece.isCompletedAndValid)
      decreases |files| - fileIndex, remaining
    {
      if fileIndex >= |files| {
        return false, fileIndex, fileOffset, pieceOffset;
      }
      var f := files[fileIndex];
      var p := SeekPointer(f.fd, fileOffset, pieceOffset, f.length);
      LayPieceStep(files, fileIndex, fileOffset, pieceOffset, remaining, added);
      piece.AddSeekPointer(p);
      added := added + [p];
      if remaining > f.length - fileOffset {
        pieceOffset := pieceOffset + (f.length - fileOffset);
        remaining := remaining - f.length + fileOffset;
        fileOffset := 0;
        fileIndex := fileIndex + 1;
      } else if remaining < f.length - fileOffset {
        fileOffset := fileOffset + remaining;
        remaining := 0;
        pieceOffset := 0;
      } else {
        fileOffset := 0;
        remaining := 0;
        pieceOffset := 0;
        fileIndex := fileIndex + 1;
      }
    }
    assert added + [] == added;
    return true, fileIndex, fileOffset, pieceOffset;
  }

  /** `initPieces(infoDict, files)`: the pieces laid over the opened files, in
      order (`R.append` adds at the end), or `None` when the files run out
      and the destructuring of `files[fileIndex]` throws. */
  method InitPieces(d: CustomInfoDict, files: seq<FileInfo>) returns (result: Option<seq<Piece>>)
    requires d.pieceLength != 0
    ensures var lay := LayoutFrom(d, d.LastPieceLength().value, files, 0, 0, 0, 0);
      result.Some? == lay.Some? &&
      (result.Some? ==>
        (|result.value| == |lay.value| &&
         forall k :: 0 <= k < |lay.value| ==> fresh(result.value[k]) && IsLaidOut(result.value[k], lay.value[k])))
  {
    var last := d.LastPieceLength().value;
    var nbPieces := d.NbPieces();
    var pieces: seq<Piece> := [];
    ghost var done: seq<PieceLayout> := [];
    var fileOffset: nat, pieceOffset: nat, fileIndex := 0, 0, 0;
    var i: nat := 0;
    PrependNothing(LayoutFrom(d, last, files, 0, 0, 0, 0));
    while (i as real) < nbPieces
      invariant CursorOk(files, fileIndex, fileOffset)
      invariant LayoutFrom(d, last, files, 0, 0, 0, 0) == PrependLayouts(done, LayoutFrom(d, last, files, i, fileIndex, fileOffset, pieceOffset))
      invariant |pieces| == |done|
      invariant forall k :: 0 <= k < |done| ==> fresh(pieces[k]) && IsLaidOut(pieces[k], done[k])
      decreases |d.pieces| + 20 - 20 * i
    {
      var fingerPrint := Slice(d.pieces, 20 * i, 20 * (i + 1));
      var len := if (i as real) != nbPieces - 1.0 then d.pieceLength else last;
      var piece := new Piece(fingerPrint, len);
      ghost var rest := LayoutFrom(d, last, files, i, fileIndex, fileOffset, pieceOffset);
      var ok, fi, fo, po := AddPiecePointers(piece, files, fileIndex, fileOffset, pieceOffset, len);
      if !ok {
        assert rest.None?;
        return None;
      }
      assert piece.pointers == LayPiece(files, fileIndex, fileOffset, pieceOffset, len).value.pointers;
      ghost var l := PieceLayout(fingerPrint, len, piece.pointers, fileIndex, fileOffset);
      assert rest == PrependLayouts([l], LayoutFrom(d, last, files, i + 1, fi, fo, po));
      PrependLayoutsAppend(done, l, LayoutFrom(d, last, files, i + 1, fi, fo, po));
      pieces := pieces + [piece];
      done := done + [l];
      fileIndex, fileOffset, pieceOffset := fi, fo, po;
      i := i + 1;
    }
    return Some(pieces);
  }

  /** The pieces tile the concatenated files: with a positive piece length,
      piece k is laid from the cursor k piece lengths past the start, and
      every piece after the first starts at piece offset 0. */
  lemma {:induction false} LayoutTiling(d: CustomInfoDict, last: int, files: seq<FileInfo>, i: nat,
                                        fileIndex: int, fileOffset: nat, pieceOffset: nat)
    requires CursorOk(files, fileIndex, fileOffset) && fileIndex <= |files|
    requires d.pieceLength > 0
    requires LayoutFrom(d, last, files, i, fileIndex, fileOffset, pieceOffset).Some?
    ensures var ls := LayoutFrom(d, last, files, i, fileIndex, fileOffset, pieceOffset).value;
      forall k :: 0 <= k < |ls| ==>
        (0 <= ls[k].startFile <= |files| && CursorOk(files, ls[k].startFile, ls[k].startOffset) &&
         Position(files, ls[k].startFile, ls[k].startOffset) == Position(files, fileIndex, fileOffset) + k * d.pieceLength &&
         LayPiece(files, ls[k].startFile, ls[k].startOffset, if k == 0 then pieceOffset else 0, ls[k].length).Some? &&
         LayPiece(files, ls[k].startFile, ls[k].startOffset, if k == 0 then pieceOffset else 0, ls[k].length).value.pointers == ls[k].pointers)
    decreases |d.pieces| + 20 - 20 * i
  {
    var ls := LayoutFrom(d, last, files, i, fileIndex, fileOffset, pieceOffset).value;
    if (i as real) < d.NbPieces() {
      var len := if (i as real) != d.NbPieces() - 1.0 then d.pieceLength else last;
      var l := LayPiece(files, fileIndex, fileOffset, pieceOffset, len).value;
      var rest := LayoutFrom(d, last, files, i + 1, l.fileIndex, l.fileOffset, l.pieceOffset).value;
      assert ls == [PieceLayout(Slice(d.pieces, 20 * i, 20 * (i + 1)), len, l.pointers, fileIndex, fileOffset)] + rest;
      if |rest| > 0 {
        assert ((i + 1) as real) < d.NbPieces();
        assert len == d.pieceLength;
        LayPieceAdvance(files, fileIndex, fileOffset, pieceOffset, len);
        LayoutTiling(d, last, files, i + 1, l.fileIndex, l.fileOffset, l.pieceOffset);
        forall k | 1 <= k < |ls|
          ensures Position(files, ls[k].startFile, ls[k].startOffset) == Position(files, fileIndex, fileOffset) + k * d.pieceLength
        {
          assert ls[k] == rest[k - 1];
          assert k * d.pieceLength == (k - 1) * d.pieceLength + d.pieceLength;
        }
        assert forall k :: 1 <= k < |ls| ==> ls[k] == rest[k - 1];
      }
    }
  }

  /** The real comparisons of the `initPieces` loop, on integers. */
  lemma PieceIndexCompare(d: CustomInfoDict, i: nat)
    ensures (i as real) < d.NbPieces() <==> 20 * i < |d.pieces|
    ensures (i as real) == d.NbPieces() - 1.0 <==> 20 * (i + 1) == |d.pieces|
  {
    var n := d.NbPieces();
    assert n * 20.0 == |d.pieces| as real;
  }

  lemma PieceCountStep(p: nat, i: nat)
    requires 20 * i < p
    ensures (p + 19) / 20 - i == 1 + (if 20 * (i + 1) < p then (p + 19) / 20 - (i + 1) else 0)
  {
    var q := (p + 19) / 20;
    assert 20 * q <= p + 19 < 20 * q + 20;
  }

  /** How many pieces `initPieces` creates and which of them gets the last
      piece length: piece k has prints k of the blob, and only when the blob
      is a whole number of prints does the final piece get `last`. */
  lemma {:induction false} LayoutShape(d: CustomInfoDict, last: int, files: seq<FileInfo>, i: nat,
                                       fileIndex: int, fileOffset: nat, pieceOffset: nat)
    requires CursorOk(files, fileIndex, fileOffset)
    requires LayoutFrom(d, last, files, i, fileIndex, fileOffset, pieceOffset).Some?
    ensures var ls := LayoutFrom(d, last, files, i, fileIndex, fileOffset, pieceOffset).value;
      |ls| == (if 20 * i < |d.pieces| then (|d.pieces| + 19) / 20 - i else 0) &&
      forall k :: 0 <= k < |ls| ==>
        (ls[k].fingerPrint == Slice(d.pieces, 20 * (i + k), 20 * (i + k + 1)) &&
         ls[k].length == (if 20 * (i + k + 1) == |d.pieces| then last else d.pieceLength))
    decreases |d.pieces| + 20 - 20 * i
  {
    var ls := LayoutFrom(d, last, files, i, fileIndex, fileOffset, pieceOffset).value;
    var n := d.NbPieces();
    PieceIndexCompare(d, i);
    if (i as real) < n {
      PieceCountStep(|d.pieces|, i);
      var len := if (i as real) != n - 1.0 then d.pieceLength else last;
      var l := LayPiece(files, fileIndex, fileOffset, pieceOffset, len).value;
      var rest := LayoutFrom(d, last, files, i + 1, l.fileIndex, l.fileOffset, l.pieceOffset).value;
      assert ls == [PieceLayout(Slice(d.pieces, 20 * i, 20 * (i + 1)), len, l.pointers, fileIndex, fileOffset)] + rest;
      LayoutShape(d, last, files, i + 1, l.fileIndex, l.fileOffset, l.pieceOffset);
      forall k | 0 <= k < |ls|
        ensures ls[k].fingerPrint == Slice(d.pieces, 20 * (i + k), 20 * (i + k + 1))
        ensures ls[k].length == (if 20 * (i + k + 1) == |d.pieces| then last else d.pieceLength)
      {
        if k > 0 {
          assert ls[k] == rest[k - 1];
          assert (i + 1) + (k - 1) == i + k;
        }
      }
    }
  }

  // ------------------------------------------------------------ the disk

  /** The bytes `verify()` and `getBitfield()` count as completed: the
      lengths of the pieces whose SHA-1 check passed. */
  function VerifiedTotal(pieces: seq<Piece>, verified: seq<bool>): int
    requires |verified| == |pieces|
  {
    if pieces == [] then 0
    else
      var last := if verified[|verified| - 1] then pieces[|pieces| - 1].length else 0;
      VerifiedTotal(pieces[..|pieces| - 1], verified[..|verified| - 1]) + last
  }

  /** The sum of all piece lengths. */
  function TotalLength(pieces: seq<Piece>): int {
    if pieces == [] then 0 else TotalLength(pieces[..|pieces| - 1]) + pieces[|pieces| - 1].length
  }

  /** With non-negative piece lengths the completed count lies between 0 and
      the total, and reaches the total when every piece verified. */
  lemma {:induction false} VerifiedTotalBounds(pieces: seq<Piece>, verified: seq<bool>)
    requires |verified| == |pieces|
    requires forall k :: 0 <= k < |pieces| ==> pieces[k].length >= 0
    ensures 0 <= VerifiedTotal(pieces, verified) <= TotalLength(pieces)
    ensures (forall k :: 0 <= k < |verified| ==> verified[k]) ==> VerifiedTotal(pieces, verified) == TotalLength(pieces)
    ensures (forall k :: 0 <= k < |verified| ==> !verified[k]) ==> VerifiedTotal(pieces, verified) == 0
  {
    if pieces != [] {
      VerifiedTotalBounds(pieces[..|pieces| - 1], verified[..|verified| - 1]);
    }
  }

  /** The `forEach` of `getBitfield`: ORs each verified piece's bit into a
      zeroed buffer and adds up the verified lengths. */
  method MarkVerified(ps: seq<Piece>, verified: seq<bool>) returns (bf: array<byte>, total: int)
    requires |verified| == |ps|
    ensures fresh(bf)
    ensures bf[..] == Packed(verified)
    ensures total == VerifiedTotal(ps, verified)
  {
    var n := |ps|;
    bf := new byte[BitfieldLength(n)](_ => 0);
    assert bf[..] == Zeros(BitfieldLength(n));
    total := 0;
    var i := 0;
    while i < n
      invariant 0 <= i <= n
      invariant bf[..] == MarkAll(Zeros(BitfieldLength(n)), verified, i)
      invariant total == VerifiedTotal(ps[..i], verified[..i])
    {
      MarkTurn(verified, i);
      bf[i / 8] := MarkedByte(bf[i / 8], verified[i], i);
      assert ps[..i + 1][..i] == ps[..i] && verified[..i + 1][..i] == verified[..i];
      if verified[i] {
        total := total + ps[i].length;
      }
      i := i + 1;
    }
    assert ps[..n] == ps && verified[..n] == verified;
  }

  class TorrentDisk {
    const infoDictionary: CustomInfoDict
    const savepath: string
    var pieces: seq<Piece>
    var files: seq<FileInfo>
    var completed: int
    /** `null` until `getBitfield` has run. */
    var bitfield: array?<byte>

    constructor(infoDictionary: CustomInfoDict, savepath: string)
      ensures this.infoDictionary == infoDictionary && this.savepath == savepath
      ensures pieces == [] && files == [] && completed == 0 && bitfield == null
    {
      this.infoDictionary := infoDictionary;
      this.savepath := savepath;
      pieces := [];
      files := [];
      completed := 0;
      bitfield := null;
    }

    /** `init()`, given the files `initFiles` opened: lays the pieces out and
        stores both; a failed layout rejects and stores nothing. */
    method Init(fileInfos: seq<FileInfo>) returns (ok: bool)
      requires infoDictionary.pieceLength != 0
      modifies this
      ensures var lay := LayoutFrom(infoDictionary, infoDictionary.LastPieceLength().value, fileInfos, 0, 0, 0, 0);
        ok == lay.Some? &&
        (ok ==> files == fileInfos && |pieces| == |lay.value| &&
                forall k :: 0 <= k < |pieces| ==> fresh(pieces[k]) && IsLaidOut(pieces[k], lay.value[k])) &&
        (!ok ==> files == old(files) && pieces == old(pieces))
      ensures completed == old(completed) && bitfield == old(bitfield)
    {
      var laid := InitPieces(infoDictionary, fileInfos);
      if laid.None? {
        return false;
      }
      files := fileInfos;
      pieces := laid.value;
      return true;
    }

    /** `read(index, begin, length)`; a missing piece is dereferenced before
        any promise exists. */
    method Read(index: int, begin: int, len: int, fs: FileSystem) returns (out: ReadOutcome)
      ensures !(0 <= index < |pieces|) ==> out == ReadThrows
      ensures 0 <= index < |pieces| ==>
        out == PieceReadResult(pieces[index].length, pieces[index].pointers, fs.files, begin, len)
    {
      if !(0 <= index < |pieces|) {
        return ReadThrows;
      }
      out := pieces[index].Read(begin, len, fs);
    }

    /** `write(index, begin, block)`: a piece already valid is not written
        again; when the write completes the piece with a matching digest its
        bit is set, and with no bitfield yet the `.then` callback throws and
        the promise rejects. */
    method Write(index: int, begin: int, block: seq<byte>, fs: FileSystem, digestMatches: bool) returns (out: WriteOutcome)
      modifies (if 0 <= index < |pieces| then {pieces[index]} else {}), fs, bitfield
      ensures !(0 <= index < |pieces|) ==> out == Throws && fs.files == old(fs.files)
      ensures 0 <= index < |pieces| && old(pieces[index].isCompletedAndValid) ==>
        out == Written(0, true) && fs.files == old(fs.files) &&
        pieces[index].blocks == old(pieces[index].blocks) && pieces[index].pointers == old(pieces[index].pointers)
      ensures 0 <= index < |pieces| && !old(pieces[index].isCompletedAndValid) ==>
        var p := pieces[index];
        var r := WriteResult(p.length, old(p.pointers), old(p.blocks), old(fs.files), begin, block, digestMatches);
        var valid := r.Written? && r.completedAndValid;
        out == (if valid && bitfield == null then Rejected else r) &&
        p.isCompletedAndValid == valid &&
        p.pointers == old(p.pointers) &&
        fs.files == FilesAfterWrite(p.length, old(p.pointers), old(fs.files), begin, block) &&
        p.blocks == BlocksAfterWrite(p.length, old(p.pointers), old(p.blocks), old(fs.files), begin, block, digestMatches) &&
        (bitfield != null ==> bitfield[..] == if valid then SetPiece(old(bitfield[..]), index) else old(bitfield[..]))
      ensures bitfield != null && !(0 <= index < |pieces| && !old(pieces[index].isCompletedAndValid)) ==>
        bitfield[..] == old(bitfield[..])
    {
      if !(0 <= index < |pieces|) {
        return Throws;
      }
      var piece := pieces[index];
      if piece.isCompletedAndValid {
        return Written(0, true);
      }
      out := piece.Write(begin, block, fs, digestMatches);
      if out.Written? && out.completedAndValid {
        if bitfield == null {
          return Rejected;
        }
        UpdateBitfield(bitfield, index);
      }
    }

    /** `getBitfield()`, given the outcome of each piece's SHA-1 check: a new
        bitfield announcing exactly the verified pieces, and their total
        length. `this.completed` is left as it was. */
    method GetBitfield(verified: seq<bool>) returns (bf: array<byte>, total: int)
      requires |verified| == |pieces|
      modifies this
      ensures pieces == old(pieces) && files == old(files) && completed == old(completed)
      ensures fresh(bf) && bitfield == bf
      ensures bf[..] == Packed(verified)
      ensures total == VerifiedTotal(pieces, verified)
    {
      bf, total := MarkVerified(pieces, verified);
      bitfield := bf;
    }

    /** `verify()`, given the outcome of each piece's SHA-1 check. */
    method Verify(verified: seq<bool>) returns (total: int)
      requires |verified| == |pieces|
      modifies this
      ensures pieces == old(pieces) && files == old(files) && bitfield == old(bitfield)
      ensures total == VerifiedTotal(pieces, verified) && completed == total
    {
      completed := VerifiedTotal(pieces, verified);
      return completed;
    }
  }
}
