/** `CustomInfoDictCommon`: the disk layer's view of a metainfo `info`
    dictionary, with the total size and the piece count derived from the
    file list and the concatenated SHA-1 prints. */
module InfoDicts {
  import opened Wrappers
  import opened Bytes

  /** JavaScript's `%` on integers: the remainder takes the sign of the
      dividend (Dafny's `%` is Euclidean). */
  function JsRem(a: int, b: int): (r: int)
    requires b != 0
    ensures a >= 0 ==> 0 <= r < (if b > 0 then b else -b)
    ensures a >= 0 && b > 0 ==> r == a % b
  {
    var m := if b > 0 then b else -b;
    if a >= 0 then a % m else -((-a) % m)
  }

  /** One `{length, path}` entry of the file list. */
  datatype FileEntry = FileEntry(length: int, path: string)

  function SumLengths(files: seq<FileEntry>): int {
    if files == [] then 0 else SumLengths(files[..|files| - 1]) + files[|files| - 1].length
  }

  /** The stored fields of `CustomInfoDictCommon`; `totalSize` and `nbPieces`
      are the values the constructor computes from them. */
  datatype CustomInfoDict = CustomInfoDict(name: string, savepath: string, files: seq<FileEntry>,
                                           pieceLength: int, pieces: seq<byte>)
  {
    /** `computeTotalSize()`: the sum of the file lengths. */
    function TotalSize(): int {
      SumLengths(files)
    }

    /** `computeNbPieces()`: `pieces.length / 20`, a JavaScript number that is
        fractional when the prints blob is not a multiple of 20 bytes. */
    function NbPieces(): (r: real)
      ensures r * 20.0 == |pieces| as real
    {
      |pieces| as real / 20.0
    }

    /** `computeLastPieceLength()`; `None` stands for the NaN that a zero piece
        length gives. */
    function LastPieceLength(): (r: Option<int>)
      ensures r.None? <==> pieceLength == 0
      ensures r.Some? && JsRem(TotalSize(), pieceLength) == 0 ==> r.value == pieceLength
      ensures r.Some? && JsRem(TotalSize(), pieceLength) != 0 ==> r.value == JsRem(TotalSize(), pieceLength)
    {
      if pieceLength == 0 then None
      else
        var rem := JsRem(TotalSize(), pieceLength);
        Some(if rem == 0 then pieceLength else rem)
    }

    /** `getFilesInfos()`. */
    function GetFilesInfos(): (r: seq<FileEntry>)
      ensures r == files
    {
      files
    }
  }

  /** The total size of files appended one by one. */
  lemma SumLengthsAppend(files: seq<FileEntry>, more: seq<FileEntry>)
    ensures SumLengths(files + more) == SumLengths(files) + SumLengths(more)
    decreases |more|
  {
    if more == [] {
      assert files + more == files;
    } else {
      var init := more[..|more| - 1];
      assert (files + more)[..|files + more| - 1] == files + init;
      SumLengthsAppend(files, init);
    }
  }

  lemma {:induction false} SumLengthsNonNegative(files: seq<FileEntry>)
    requires forall k :: 0 <= k < |files| ==> files[k].length >= 0
    ensures SumLengths(files) >= 0
  {
    if files != [] {
      SumLengthsNonNegative(files[..|files| - 1]);
    }
  }

  /** A whole number of pieces leaves no remainder. */
  lemma MultipleMod(q: int, m: int)
    requires m > 0
    ensures (q * m) % m == 0
  {
    var d, r := (q * m) / m, (q * m) % m;
    assert q * m == d * m + r && 0 <= r < m;
    assert r == (q - d) * m;
    MultiplesOutside(q - d, m);
  }

  /** A non-zero multiple of m is at least m away from 0. */
  lemma MultiplesOutside(k: int, m: int)
    requires m > 0
    ensures k >= 1 ==> k * m >= m
    ensures k <= -1 ==> k * m <= -m
  {
  }

  /** With non-negative file lengths and a positive piece length, the last
      piece's length lies in (0, pieceLength], and the total size is a whole
      number of full pieces followed by it. */
  lemma LastPieceLengthBounds(d: CustomInfoDict)
    requires forall k :: 0 <= k < |d.files| ==> d.files[k].length >= 0
    requires d.pieceLength > 0
    ensures d.LastPieceLength().Some?
    ensures var last := d.LastPieceLength().value;
      0 < last <= d.pieceLength && (d.TotalSize() - last) % d.pieceLength == 0
  {
    SumLengthsNonNegative(d.files);
    var t := d.TotalSize();
    var pl := d.pieceLength;
    var q, rem := t / pl, t % pl;
    assert t == q * pl + rem;
    if rem == 0 {
      assert q > 0 || t == 0;
      if t == 0 {
        MultipleMod(-1, pl);
      } else {
        assert t - pl == (q - 1) * pl;
        MultipleMod(q - 1, pl);
      }
    } else {
      assert t - rem == q * pl;
      MultipleMod(q, pl);
    }
  }
}
