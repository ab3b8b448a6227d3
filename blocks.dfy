/** The list of byte ranges a piece has received: the sorted insert with its
    tie-break (`insertBlock`) and the merge of touching ranges (`mergeBlocks`),
    specified on values. */
module Blocks {

  /** `PieceBlock`: `size` bytes starting at piece offset `begin`. */
  datatype PieceBlock = PieceBlock(begin: int, size: nat)

  function End(b: PieceBlock): int {
    b.begin + b.size
  }

  predicate SortedByBegin(bs: seq<PieceBlock>) {
    forall i, j :: 0 <= i < j < |bs| ==> bs[i].begin <= bs[j].begin
  }

  /** No two consecutive blocks touch or overlap. */
  predicate Separated(bs: seq<PieceBlock>) {
    forall i :: 0 <= i < |bs| - 1 ==> End(bs[i]) < bs[i + 1].begin
  }

  /** The offsets lo, lo + 1, ..., hi - 1. */
  function Range(lo: int, hi: int): (r: set<int>)
    ensures forall k :: k in r <==> lo <= k < hi
    decreases hi - lo
  {
    if hi <= lo then {} else Range(lo, hi - 1) + {hi - 1}
  }

  /** The piece offsets some block covers. */
  function Covered(bs: seq<PieceBlock>): set<int> {
    if bs == [] then {} else Range(bs[0].begin, End(bs[0])) + Covered(bs[1..])
  }

  /** `getCompleted`: the sum of the block sizes. */
  function SumSizes(bs: seq<PieceBlock>): nat {
    if bs == [] then 0 else bs[0].size + SumSizes(bs[1..])
  }

  // ---------------------------------------------------------------- insert

  /** The index `insertBlock` splices at, scanning from index i: it walks past
      blocks that begin at or before `begin`, and at the first block with the
      same begin it stops, before that block if the new one is strictly
      longer, after it otherwise. */
  function InsertPos(bs: seq<PieceBlock>, begin: int, size: nat, i: nat): (r: nat)
    requires i <= |bs|
    ensures i <= r <= |bs|
    decreases |bs| - i
  {
    if i < |bs| && begin >= bs[i].begin then
      if begin == bs[i].begin then (if size > bs[i].size then i else i + 1)
      else InsertPos(bs, begin, size, i + 1)
    else i
  }

  function Inserted(bs: seq<PieceBlock>, begin: int, size: nat): (r: seq<PieceBlock>)
    ensures |r| == |bs| + 1
  {
    var p := InsertPos(bs, begin, size, 0);
    bs[..p] + [PieceBlock(begin, size)] + bs[p..]
  }

  /** The splice position in a sorted list: every block before it begins at
      or before `begin` and every block after it at or after `begin`; if some
      block begins at `begin`, the first such block j decides: position j if
      the new block is strictly longer, j + 1 otherwise. */
  lemma {:induction false} InsertPosSpec(bs: seq<PieceBlock>, begin: int, size: nat, i: nat)
    requires i <= |bs| && SortedByBegin(bs)
    requires forall k :: 0 <= k < i ==> bs[k].begin < begin
    ensures var p := InsertPos(bs, begin, size, i);
      (forall k :: 0 <= k < p ==> bs[k].begin <= begin) &&
      (forall k :: p <= k < |bs| ==> bs[k].begin >= begin) &&
      (forall j :: 0 <= j < |bs| && bs[j].begin == begin && (forall k :: 0 <= k < j ==> bs[k].begin != begin) ==>
         p == if size > bs[j].size then j else j + 1) &&
      ((forall k :: 0 <= k < |bs| ==> bs[k].begin != begin) ==>
         (forall k :: 0 <= k < p ==> bs[k].begin < begin) && (forall k :: p <= k < |bs| ==> bs[k].begin > begin))
    decreases |bs| - i
  {
    if i < |bs| && begin > bs[i].begin {
      InsertPosSpec(bs, begin, size, i + 1);
    }
  }

  /** `insertBlock` adds exactly the new block and keeps the others in their
      relative order. */
  lemma InsertedAddsOne(bs: seq<PieceBlock>, begin: int, size: nat)
    ensures var r := Inserted(bs, begin, size); var p := InsertPos(bs, begin, size, 0);
      r[p] == PieceBlock(begin, size) && r[..p] + r[p + 1..] == bs
    ensures multiset(Inserted(bs, begin, size)) == multiset(bs) + multiset{PieceBlock(begin, size)}
  {
    var p := InsertPos(bs, begin, size, 0);
    var r := Inserted(bs, begin, size);
    assert r[..p] == bs[..p];
    assert r[p + 1..] == bs[p..];
    assert bs == bs[..p] + bs[p..];
    calc {
      multiset(r);
      multiset(bs[..p]) + multiset([PieceBlock(begin, size)]) + multiset(bs[p..]);
      multiset(bs[..p]) + multiset(bs[p..]) + multiset{PieceBlock(begin, size)};
      { assert bs[..p] + bs[p..] == bs; }
      multiset(bs) + multiset{PieceBlock(begin, size)};
    }
  }

  /** Inserting into a list sorted by begin keeps it sorted. */
  lemma InsertedSorted(bs: seq<PieceBlock>, begin: int, size: nat)
    requires SortedByBegin(bs)
    ensures SortedByBegin(Inserted(bs, begin, size))
  {
    InsertPosSpec(bs, begin, size, 0);
    var p := InsertPos(bs, begin, size, 0);
    var r := Inserted(bs, begin, size);
    forall i, j | 0 <= i < j < |r| ensures r[i].begin <= r[j].begin {
      if j < p {
        assert r[i] == bs[i] && r[j] == bs[j];
      } else if j == p {
        assert r[i] == bs[i];
      } else if i == p {
        assert r[j] == bs[j - 1];
      } else if i < p {
        assert r[i] == bs[i] && r[j] == bs[j - 1];
      } else {
        assert r[i] == bs[i - 1] && r[j] == bs[j - 1];
      }
    }
  }

  lemma {:induction false} CoveredAppend(a: seq<PieceBlock>, b: seq<PieceBlock>)
    ensures Covered(a + b) == Covered(a) + Covered(b)
  {
    if a == [] {
      assert a + b == b;
    } else {
      assert (a + b)[1..] == a[1..] + b;
      CoveredAppend(a[1..], b);
    }
  }

  /** Inserting a block adds exactly its range to the covered offsets. */
  lemma CoveredInserted(bs: seq<PieceBlock>, begin: int, size: nat)
    ensures Covered(Inserted(bs, begin, size)) == Covered(bs) + Range(begin, begin + size)
  {
    var p := InsertPos(bs, begin, size, 0);
    var nb := PieceBlock(begin, size);
    CoveredAppend(bs[..p] + [nb], bs[p..]);
    CoveredAppend(bs[..p], [nb]);
    CoveredAppend(bs[..p], bs[p..]);
    assert bs[..p] + bs[p..] == bs;
    assert Covered([nb]) == Range(begin, begin + size) by {
      assert [nb][1..] == [];
    }
  }

  // ----------------------------------------------------------------- merge

  /** `mergeBlocks` run from index i: while a next block exists, a next block
      that the current one reaches (end >= next begin) is absorbed: replaced
      together with the current one by [current.begin, next.end) when it ends
      further, dropped when it is contained; otherwise the scan moves on. */
  function MergeFrom(bs: seq<PieceBlock>, i: nat): (r: seq<PieceBlock>)
    requires i <= |bs|
    ensures |r| <= |bs|
    decreases |bs|, |bs| - i
  {
    if i + 1 >= |bs| then bs
    else if End(bs[i]) >= bs[i + 1].begin then
      if End(bs[i]) < End(bs[i + 1]) then
        MergeFrom(bs[..i] + [PieceBlock(bs[i].begin, End(bs[i + 1]) - bs[i].begin)] + bs[i + 2..], i)
      else
        MergeFrom(bs[..i + 1] + bs[i + 2..], i)
    else MergeFrom(bs, i + 1)
  }

  function Merged(bs: seq<PieceBlock>): seq<PieceBlock> {
    MergeFrom(bs, 0)
  }

  /** What the merge scan keeps true: the list stays sorted by begin and the
      blocks before the cursor are already separated. */
  predicate MergeInv(bs: seq<PieceBlock>, i: nat) {
    SortedByBegin(bs) && i <= |bs| && (|bs| > 0 ==> i < |bs|) &&
    forall k :: 0 <= k < i ==> End(bs[k]) < bs[k + 1].begin
  }

  lemma AbsorbKeepsInv(bs: seq<PieceBlock>, i: nat)
    requires MergeInv(bs, i) && i + 1 < |bs| && End(bs[i]) >= bs[i + 1].begin
    ensures End(bs[i]) < End(bs[i + 1]) ==>
      MergeInv(bs[..i] + [PieceBlock(bs[i].begin, End(bs[i + 1]) - bs[i].begin)] + bs[i + 2..], i)
    ensures MergeInv(bs[..i + 1] + bs[i + 2..], i)
  {
    var m := PieceBlock(bs[i].begin, End(bs[i + 1]) - bs[i].begin);
    var c := bs[..i] + [m] + bs[i + 2..];
    var d := bs[..i + 1] + bs[i + 2..];
    assert forall k :: 0 <= k < |c| ==> c[k] == if k < i then bs[k] else if k == i then m else bs[k + 1];
    assert forall k :: 0 <= k < |d| ==> d[k] == if k <= i then bs[k] else bs[k + 1];
    if End(bs[i]) < End(bs[i + 1]) {
      assert SortedByBegin(c) by {
        forall a, b | 0 <= a < b < |c| ensures c[a].begin <= c[b].begin {
          if b <= i {
          } else if a <= i {
            assert bs[a].begin <= bs[b + 1].begin;
          } else {
            assert bs[a + 1].begin <= bs[b + 1].begin;
          }
        }
      }
    }
  }

  lemma {:induction false} MergeFromSeparated(bs: seq<PieceBlock>, i: nat)
    requires MergeInv(bs, i)
    ensures Separated(MergeFrom(bs, i)) && SortedByBegin(MergeFrom(bs, i))
    decreases |bs|, |bs| - i
  {
    if i + 1 >= |bs| {
    } else if End(bs[i]) >= bs[i + 1].begin {
      AbsorbKeepsInv(bs, i);
      if End(bs[i]) < End(bs[i + 1]) {
        MergeFromSeparated(bs[..i] + [PieceBlock(bs[i].begin, End(bs[i + 1]) - bs[i].begin)] + bs[i + 2..], i);
      } else {
        MergeFromSeparated(bs[..i + 1] + bs[i + 2..], i);
      }
    } else {
      MergeFromSeparated(bs, i + 1);
    }
  }

  /** After `mergeBlocks` on a begin-sorted list, no two consecutive blocks
      touch or overlap, and the list is still sorted. */
  lemma MergedSeparated(bs: seq<PieceBlock>)
    requires SortedByBegin(bs)
    ensures Separated(Merged(bs)) && SortedByBegin(Merged(bs))
  {
    MergeFromSeparated(bs, 0);
  }

  lemma CoveredMiddle(pre: seq<PieceBlock>, mid: seq<PieceBlock>, mid': seq<PieceBlock>, post: seq<PieceBlock>)
    requires Covered(mid) == Covered(mid')
    ensures Covered(pre + mid + post) == Covered(pre + mid' + post)
  {
    CoveredAppend(pre + mid, post);
    CoveredAppend(pre, mid);
    CoveredAppend(pre + mid', post);
    CoveredAppend(pre, mid');
  }

  lemma CoveredPair(x: PieceBlock, y: PieceBlock)
    requires x.begin <= y.begin <= End(x)
    ensures End(x) < End(y) ==> Covered([x, y]) == Covered([PieceBlock(x.begin, End(y) - x.begin)])
    ensures End(x) >= End(y) ==> Covered([x, y]) == Covered([x])
  {
    assert [x, y][1..] == [y];
    assert [y][1..] == [];
    assert [x][1..] == [];
    assert [PieceBlock(x.begin, End(y) - x.begin)][1..] == [];
  }

  lemma AbsorbKeepsCovered(bs: seq<PieceBlock>, i: nat)
    requires i + 1 < |bs| && bs[i].begin <= bs[i + 1].begin && End(bs[i]) >= bs[i + 1].begin
    ensures End(bs[i]) < End(bs[i + 1]) ==>
      Covered(bs[..i] + [PieceBlock(bs[i].begin, End(bs[i + 1]) - bs[i].begin)] + bs[i + 2..]) == Covered(bs)
    ensures End(bs[i]) >= End(bs[i + 1]) ==> Covered(bs[..i + 1] + bs[i + 2..]) == Covered(bs)
  {
    assert bs == bs[..i] + [bs[i], bs[i + 1]] + bs[i + 2..];
    assert bs[..i + 1] == bs[..i] + [bs[i]];
    CoveredPair(bs[i], bs[i + 1]);
    if End(bs[i]) < End(bs[i + 1]) {
      CoveredMiddle(bs[..i], [bs[i], bs[i + 1]], [PieceBlock(bs[i].begin, End(bs[i + 1]) - bs[i].begin)], bs[i + 2..]);
    } else {
      CoveredMiddle(bs[..i], [bs[i], bs[i + 1]], [bs[i]], bs[i + 2..]);
    }
  }

  lemma {:induction false} MergeFromCovered(bs: seq<PieceBlock>, i: nat)
    requires MergeInv(bs, i)
    ensures Covered(MergeFrom(bs, i)) == Covered(bs)
    decreases |bs|, |bs| - i
  {
    if i + 1 >= |bs| {
    } else if End(bs[i]) >= bs[i + 1].begin {
      AbsorbKeepsInv(bs, i);
      AbsorbKeepsCovered(bs, i);
      if End(bs[i]) < End(bs[i + 1]) {
        MergeFromCovered(bs[..i] + [PieceBlock(bs[i].begin, End(bs[i + 1]) - bs[i].begin)] + bs[i + 2..], i);
      } else {
        MergeFromCovered(bs[..i + 1] + bs[i + 2..], i);
      }
    } else {
      MergeFromCovered(bs, i + 1);
    }
  }

  /** `mergeBlocks` on a begin-sorted list leaves the covered offsets unchanged. */
  lemma MergedCovered(bs: seq<PieceBlock>)
    requires SortedByBegin(bs)
    ensures Covered(Merged(bs)) == Covered(bs)
  {
    MergeFromCovered(bs, 0);
  }

  lemma {:induction false} RangeSize(lo: int, hi: int)
    requires lo <= hi
    ensures |Range(lo, hi)| == hi - lo
    decreases hi - lo
  {
    if lo < hi {
      RangeSize(lo, hi - 1);
    }
  }

  lemma {:induction false} CoveredAtLeast(bs: seq<PieceBlock>, x: int)
    requires Separated(bs)
    requires bs != [] && x <= bs[0].begin
    ensures forall k :: k in Covered(bs) ==> k >= x
  {
    if |bs| > 1 {
      CoveredAtLeast(bs[1..], x);
    }
  }

  /** On a separated list the completed count is the number of covered
      offsets, so `isCompleted` means every offset of [0, length) is held
      when the blocks lie inside the piece. */
  lemma {:induction false} SumSizesOfSeparated(bs: seq<PieceBlock>)
    requires Separated(bs)
    ensures SumSizes(bs) == |Covered(bs)|
  {
    if bs != [] {
      SumSizesOfSeparated(bs[1..]);
      RangeSize(bs[0].begin, End(bs[0]));
      if |bs| > 1 {
        CoveredAtLeast(bs[1..], bs[1].begin);
        assert Range(bs[0].begin, End(bs[0])) * Covered(bs[1..]) == {};
      }
    }
  }

  /** The merge keeps the completed count honest: inserting a block into a
      separated list and merging yields a separated list whose size sum is
      the number of offsets covered by the old blocks and the new range. */
  lemma InsertMergeCount(bs: seq<PieceBlock>, begin: int, size: nat)
    requires Separated(bs)
    ensures Separated(Merged(Inserted(bs, begin, size)))
    ensures SumSizes(Merged(Inserted(bs, begin, size))) == |Covered(bs) + Range(begin, begin + size)|
  {
    assert SortedByBegin(bs) by { SeparatedSorted(bs); }
    InsertedSorted(bs, begin, size);
    MergedSeparated(Inserted(bs, begin, size));
    MergedCovered(Inserted(bs, begin, size));
    CoveredInserted(bs, begin, size);
    SumSizesOfSeparated(Merged(Inserted(bs, begin, size)));
  }

  lemma SeparatedSorted(bs: seq<PieceBlock>)
    requires Separated(bs)
    ensures SortedByBegin(bs)
  {
    forall i, j | 0 <= i < j < |bs| ensures bs[i].begin <= bs[j].begin {
      SeparatedChain(bs, i, j);
    }
  }

  lemma {:induction false} SeparatedChain(bs: seq<PieceBlock>, i: nat, j: nat)
    requires Separated(bs) && i < j < |bs|
    ensures bs[i].begin < bs[j].begin
    decreases j - i
  {
    if j > i + 1 {
      SeparatedChain(bs, i + 1, j);
    }
  }
}
