/** One piece of the torrent on disk (`Piece`): the file ranges it is laid
    over (`SeekPointer`s), the blocks received so far, and the split of a
    piece-relative range into per-file writes and reads. */
module Pieces {
  import opened Bytes
  import opened Files
  import opened Blocks

  /** `SeekPointer`: the piece bytes from `pieceOffset` on are stored in file
      `fd` from `fileOffset` on; `fileLength` is that file's length. */
  datatype SeekPointer = SeekPointer(fd: int, fileOffset: nat, pieceOffset: nat, fileLength: nat)

  function Min(a: int, b: int): int {
    if a < b then a else b
  }

  // ------------------------------------------------------- pointer lookup

  /** Index of the last pointer among the first n whose piece offset is at
      most `begin`, or -1. */
  function LastPointerAtOrBefore(ps: seq<SeekPointer>, begin: int, n: nat): (r: int)
    requires n <= |ps|
    ensures -1 <= r < n
    ensures r >= 0 ==> begin >= ps[r].pieceOffset
    ensures forall k :: r < k < n ==> begin < ps[k].pieceOffset
  {
    if n == 0 then -1
    else if begin >= ps[n - 1].pieceOffset then n - 1
    else LastPointerAtOrBefore(ps, begin, n - 1)
  }

  // ------------------------------------------------------- write planning

  /** One `fs.write` issued by `write`: `length` bytes of `buffer` at `position`. */
  datatype SubWrite = SubWrite(fd: int, buffer: seq<byte>, length: int, position: int)

  /** One `fs.read` issued by `read`. */
  datatype SubRead = SubRead(fd: int, length: int, position: int)

  /** The calls one of the pointer loops issues, and whether it ends by
      indexing a pointer that does not exist (a synchronous TypeError). */
  datatype Plan<S> = Plan(steps: seq<S>, throws: bool)

  /** The sub-write of one turn of the `write` loop: as many of the
      `remaining` bytes as the file has room for from `fileOffset + newBegin`. */
  function WriteStep(p: SeekPointer, newBegin: int, remaining: seq<byte>): SubWrite {
    var offset := p.fileOffset + newBegin;
    SubWrite(p.fd, remaining, Min(|remaining|, p.fileLength - offset), offset)
  }

  /** Room left in the pointer's file from `fileOffset + newBegin`. */
  function Available(p: SeekPointer, newBegin: int): int {
    p.fileLength - (p.fileOffset + newBegin)
  }

  /** The pointer loop of `write` from pointer `idx` on. The first pointer
      touched writes at `fileOffset + begin`; each later one at its
      `fileOffset`, and the bytes still to write are always
      `block.slice(available)`, taken from the whole block. */
  function WritePlanFrom(ps: seq<SeekPointer>, block: seq<byte>, idx: int, newBegin: int, remaining: seq<byte>): (r: Plan<SubWrite>)
    decreases |ps| - idx
  {
    if idx < 0 || idx >= |ps| then Plan([], true)
    else
      var available := Available(ps[idx], newBegin);
      if |remaining| - available > 0 then
        var rest := WritePlanFrom(ps, block, idx + 1, 0, SliceFrom(block, available));
        Plan([WriteStep(ps[idx], newBegin, remaining)] + rest.steps, rest.throws)
      else Plan([WriteStep(ps[idx], newBegin, remaining)], false)
  }

  function WritePlan(ps: seq<SeekPointer>, begin: int, block: seq<byte>): Plan<SubWrite> {
    WritePlanFrom(ps, block, LastPointerAtOrBefore(ps, begin, |ps|), begin, block)
  }

  /** A sub-write succeeds on an open descriptor with a length in range. */
  predicate WriteOk(files: map<int, seq<byte>>, w: SubWrite) {
    CanWrite(files, w.fd, w.buffer, w.length, w.position)
  }

  /** Every sub-write of `ws` succeeds on the files as they are when it runs. */
  predicate AllWritesOk(files: map<int, seq<byte>>, ws: seq<SubWrite>) {
    ws == [] || (WriteOk(files, ws[0]) && AllWritesOk(ApplyWrite(files, ws[0]), ws[1..]))
  }

  /** The files after one sub-write; a failed one changes nothing. */
  function ApplyWrite(files: map<int, seq<byte>>, w: SubWrite): (r: map<int, seq<byte>>)
    ensures r.Keys == files.Keys
  {
    AfterWrite(files, w.fd, w.buffer, w.length, w.position)
  }

  /** The files after the sub-writes `ws`, in issue order. */
  function ApplyWrites(files: map<int, seq<byte>>, ws: seq<SubWrite>): (r: map<int, seq<byte>>)
    ensures r.Keys == files.Keys
  {
    if ws == [] then files else ApplyWrites(ApplyWrite(files, ws[0]), ws[1..])
  }

  function TotalWritten(ws: seq<SubWrite>): int {
    if ws == [] then 0 else ws[0].length + TotalWritten(ws[1..])
  }

  /** The sub-writes `[w] + ws` are `w` followed by `ws`. */
  lemma WritesCons(files: map<int, seq<byte>>, w: SubWrite, ws: seq<SubWrite>)
    ensures ApplyWrites(files, [w] + ws) == ApplyWrites(ApplyWrite(files, w), ws)
    ensures AllWritesOk(files, [w] + ws) == (WriteOk(files, w) && AllWritesOk(ApplyWrite(files, w), ws))
    ensures TotalWritten([w] + ws) == w.length + TotalWritten(ws)
  {
    assert ([w] + ws)[0] == w && ([w] + ws)[1..] == ws;
  }

  /** The state the `write` loop ends in: file contents, whether it threw,
      whether every sub-write succeeded, and the bytes reported written. */
  datatype WriteRun = WriteRun(files: map<int, seq<byte>>, throws: bool, allOk: bool, total: int)

  /** The `write` loop run from pointer `idx` with the given accumulators. */
  function RunWrites(ps: seq<SeekPointer>, block: seq<byte>, idx: int, newBegin: int, remaining: seq<byte>,
                     files: map<int, seq<byte>>, allOk: bool, total: int): WriteRun
    decreases |ps| - idx
  {
    if idx < 0 || idx >= |ps| then WriteRun(files, true, allOk, total)
    else
      var w := WriteStep(ps[idx], newBegin, remaining);
      var available := Available(ps[idx], newBegin);
      var files' := ApplyWrite(files, w);
      var allOk' := allOk && WriteOk(files, w);
      if |remaining| - available > 0 then
        RunWrites(ps, block, idx + 1, 0, SliceFrom(block, available), files', allOk', total + w.length)
      else WriteRun(files', false, allOk', total + w.length)
  }

  /** One turn of the `write` loop. */
  lemma RunWritesStep(ps: seq<SeekPointer>, block: seq<byte>, idx: int, newBegin: int, remaining: seq<byte>,
                      files: map<int, seq<byte>>, allOk: bool, total: int)
    requires 0 <= idx < |ps|
    ensures var w := WriteStep(ps[idx], newBegin, remaining); var a := Available(ps[idx], newBegin);
      RunWrites(ps, block, idx, newBegin, remaining, files, allOk, total) ==
        if |remaining| - a > 0
        then RunWrites(ps, block, idx + 1, 0, SliceFrom(block, a), ApplyWrite(files, w), allOk && WriteOk(files, w), total + w.length)
        else WriteRun(ApplyWrite(files, w), false, allOk && WriteOk(files, w), total + w.length)
  {
  }

  /** Running the loop issues exactly the planned sub-writes, in order. */
  lemma {:induction false} RunWritesFollowsPlan(ps: seq<SeekPointer>, block: seq<byte>, idx: int, newBegin: int,
                                                remaining: seq<byte>, files: map<int, seq<byte>>, allOk: bool, total: int)
    ensures var p := WritePlanFrom(ps, block, idx, newBegin, remaining);
      var r := RunWrites(ps, block, idx, newBegin, remaining, files, allOk, total);
      r.files == ApplyWrites(files, p.steps) && r.throws == p.throws &&
      r.allOk == (allOk && AllWritesOk(files, p.steps)) && r.total == total + TotalWritten(p.steps)
    decreases |ps| - idx
  {
    if 0 <= idx < |ps| {
      var w := WriteStep(ps[idx], newBegin, remaining);
      var available := Available(ps[idx], newBegin);
      var files' := ApplyWrite(files, w);
      if |remaining| - available > 0 {
        var next := SliceFrom(block, available);
        var rest := WritePlanFrom(ps, block, idx + 1, 0, next);
        RunWritesStep(ps, block, idx, newBegin, remaining, files, allOk, total);
        RunWritesFollowsPlan(ps, block, idx + 1, 0, next, files', allOk && WriteOk(files, w), total + w.length);
        WritesCons(files, w, rest.steps);
        assert WritePlanFrom(ps, block, idx, newBegin, remaining) == Plan([w] + rest.steps, rest.throws);
      } else {
        WritesCons(files, w, []);
        assert [w] + [] == [w];
      }
    }
  }

  // -------------------------------------------------------- read planning

  /** The sub-read of one turn of the `read` loop. */
  function ReadStep(p: SeekPointer, newBegin: int, newLength: int): SubRead {
    var offset := p.fileOffset + newBegin;
    SubRead(p.fd, Min(newLength, p.fileLength - offset), offset)
  }

  /** The pointer loop of `read` from pointer `idx` on: each step reads
      min(still needed, available in this file) bytes. */
  function ReadPlanFrom(ps: seq<SeekPointer>, idx: int, newBegin: int, newLength: int): (r: Plan<SubRead>)
    decreases |ps| - idx
  {
    if idx < 0 || idx >= |ps| then Plan([], true)
    else
      var available := Available(ps[idx], newBegin);
      if newLength - available > 0 then
        var rest := ReadPlanFrom(ps, idx + 1, 0, newLength - available);
        Plan([ReadStep(ps[idx], newBegin, newLength)] + rest.steps, rest.throws)
      else Plan([ReadStep(ps[idx], newBegin, newLength)], false)
  }

  function ReadPlan(ps: seq<SeekPointer>, begin: int, length: int): Plan<SubRead> {
    ReadPlanFrom(ps, LastPointerAtOrBefore(ps, begin, |ps|), begin, length)
  }

  predicate ReadOk(files: map<int, seq<byte>>, r: SubRead) {
    CanRead(files, r.fd, r.length, r.position)
  }

  predicate AllReadsOk(files: map<int, seq<byte>>, rs: seq<SubRead>) {
    rs == [] || (ReadOk(files, rs[0]) && AllReadsOk(files, rs[1..]))
  }

  /** The buffer one sub-read fills, or nothing when it fails. */
  function ReadOne(files: map<int, seq<byte>>, r: SubRead): seq<byte> {
    ReadResult(files, r.fd, r.length, r.position)
  }

  /** `Buffer.concat` of the buffers the sub-reads fill. */
  function ReadAll(files: map<int, seq<byte>>, rs: seq<SubRead>): seq<byte> {
    if rs == [] then [] else ReadOne(files, rs[0]) + ReadAll(files, rs[1..])
  }

  /** The sub-reads `[r] + rs` are `r` followed by `rs`. */
  lemma ReadsCons(files: map<int, seq<byte>>, r: SubRead, rs: seq<SubRead>)
    ensures AllReadsOk(files, [r] + rs) == (ReadOk(files, r) && AllReadsOk(files, rs))
    ensures ReadAll(files, [r] + rs) == ReadOne(files, r) + ReadAll(files, rs)
  {
    assert ([r] + rs)[0] == r && ([r] + rs)[1..] == rs;
  }

  /** The state the `read` loop ends in. */
  datatype ReadRun = ReadRun(throws: bool, allOk: bool, data: seq<byte>)

  /** The `read` loop run from pointer `idx` with the given accumulators. */
  function RunReads(ps: seq<SeekPointer>, idx: int, newBegin: int, newLength: int,
                    files: map<int, seq<byte>>, allOk: bool, data: seq<byte>): ReadRun
    decreases |ps| - idx
  {
    if idx < 0 || idx >= |ps| then ReadRun(true, allOk, data)
    else
      var r := ReadStep(ps[idx], newBegin, newLength);
      var available := Available(ps[idx], newBegin);
      var allOk' := allOk && ReadOk(files, r);
      if newLength - available > 0 then
        RunReads(ps, idx + 1, 0, newLength - available, files, allOk', data + ReadOne(files, r))
      else ReadRun(false, allOk', data + ReadOne(files, r))
  }

  /** One turn of the `read` loop. */
  lemma RunReadsStep(ps: seq<SeekPointer>, idx: int, newBegin: int, newLength: int,
                     files: map<int, seq<byte>>, allOk: bool, data: seq<byte>)
    requires 0 <= idx < |ps|
    ensures var r := ReadStep(ps[idx], newBegin, newLength); var a := Available(ps[idx], newBegin);
      RunReads(ps, idx, newBegin, newLength, files, allOk, data) ==
        if newLength - a > 0
        then RunReads(ps, idx + 1, 0, newLength - a, files, allOk && ReadOk(files, r), data + ReadOne(files, r))
        else ReadRun(false, allOk && ReadOk(files, r), data + ReadOne(files, r))
  {
  }

  lemma {:induction false} RunReadsFollowsPlan(ps: seq<SeekPointer>, idx: int, newBegin: int, newLength: int,
                                               files: map<int, seq<byte>>, allOk: bool, data: seq<byte>)
    ensures var p := ReadPlanFrom(ps, idx, newBegin, newLength);
      RunReads(ps, idx, newBegin, newLength, files, allOk, data) ==
        ReadRun(p.throws, allOk && AllReadsOk(files, p.steps), data + ReadAll(files, p.steps))
    decreases |ps| - idx
  {
    if 0 <= idx < |ps| {
      var r := ReadStep(ps[idx], newBegin, newLength);
      var available := Available(ps[idx], newBegin);
      if newLength - available > 0 {
        var rest := ReadPlanFrom(ps, idx + 1, 0, newLength - available);
        RunReadsStep(ps, idx, newBegin, newLength, files, allOk, data);
        RunReadsFollowsPlan(ps, idx + 1, 0, newLength - available, files, allOk && ReadOk(files, r), data + ReadOne(files, r));
        ReadsCons(files, r, rest.steps);
        assert ReadPlanFrom(ps, idx, newBegin, newLength) == Plan([r] + rest.steps, rest.throws);
        assert data + ReadOne(files, r) + ReadAll(files, rest.steps) == data + (ReadOne(files, r) + ReadAll(files, rest.steps));
      } else {
        ReadsCons(files, r, []);
        assert [r] + [] == [r];
      }
    }
  }

  // ------------------------------------------------- range splitting facts

  /** The pointer `write`/`read` start at, and the bytes its file still has
      from the position the first sub-call uses. */
  function StartIndex(ps: seq<SeekPointer>, begin: int): int {
    LastPointerAtOrBefore(ps, begin, |ps|)
  }

  function FirstAvailable(ps: seq<SeekPointer>, begin: int): int
    requires StartIndex(ps, begin) >= 0
  {
    var p := ps[StartIndex(ps, begin)];
    p.fileLength - (p.fileOffset + begin)
  }

  /** A range of n bytes at `begin` fits in the file of its first pointer. */
  predicate InOnePointer(ps: seq<SeekPointer>, begin: int, n: int) {
    StartIndex(ps, begin) >= 0 && n <= FirstAvailable(ps, begin)
  }

  /** A range of n bytes at `begin` overflows its first pointer's file and
      the rest fits in the next pointer's file. */
  predicate InTwoPointers(ps: seq<SeekPointer>, begin: int, n: int) {
    var k := StartIndex(ps, begin);
    k >= 0 && k + 1 < |ps| && 0 <= FirstAvailable(ps, begin) < n &&
    n - FirstAvailable(ps, begin) <= ps[k + 1].fileLength - ps[k + 1].fileOffset
  }

  /** Within one file, `write` issues one sub-write of the whole block at
      `fileOffset + begin`. */
  lemma WritePlanOnePointer(ps: seq<SeekPointer>, begin: int, block: seq<byte>)
    requires InOnePointer(ps, begin, |block|)
    ensures var p := ps[StartIndex(ps, begin)];
      WritePlan(ps, begin, block) == Plan([SubWrite(p.fd, block, |block|, p.fileOffset + begin)], false)
  {
  }

  /** Across two files, `write` puts the first `available` bytes in the first
      file at `fileOffset + begin` and the rest at the next pointer's
      `fileOffset`. */
  lemma WritePlanTwoPointers(ps: seq<SeekPointer>, begin: int, block: seq<byte>)
    requires InTwoPointers(ps, begin, |block|)
    ensures var k := StartIndex(ps, begin); var a := FirstAvailable(ps, begin);
      WritePlan(ps, begin, block) ==
        Plan([SubWrite(ps[k].fd, block, a, ps[k].fileOffset + begin),
              SubWrite(ps[k + 1].fd, block[a..], |block| - a, ps[k + 1].fileOffset)], false)
  {
    var k := StartIndex(ps, begin);
    var a := FirstAvailable(ps, begin);
    var w2 := SubWrite(ps[k + 1].fd, block[a..], |block| - a, ps[k + 1].fileOffset);
    assert SliceFrom(block, a) == block[a..];
    assert WritePlanFrom(ps, block, k + 1, 0, block[a..]) == Plan([w2], false);
  }

  /** When the range overflows the file of the last pointer, `write` throws. */
  lemma WritePlanPastLastPointer(ps: seq<SeekPointer>, begin: int, block: seq<byte>)
    requires |ps| > 0 && StartIndex(ps, begin) == |ps| - 1 && FirstAvailable(ps, begin) < |block|
    ensures WritePlan(ps, begin, block).throws
  {
    assert WritePlanFrom(ps, block, |ps|, 0, SliceFrom(block, FirstAvailable(ps, begin))).throws;
  }

  /** A `begin` before every pointer makes `write` throw. */
  lemma WritePlanNoPointer(ps: seq<SeekPointer>, begin: int, block: seq<byte>)
    requires forall k :: 0 <= k < |ps| ==> begin < ps[k].pieceOffset
    ensures WritePlan(ps, begin, block) == Plan([], true)
  {
  }

  lemma ReadPlanOnePointer(ps: seq<SeekPointer>, begin: int, n: int)
    requires InOnePointer(ps, begin, n)
    ensures var p := ps[StartIndex(ps, begin)];
      ReadPlan(ps, begin, n) == Plan([SubRead(p.fd, n, p.fileOffset + begin)], false)
  {
  }

  /** Across two files, `read` reads the first `available` bytes from the
      first file and the rest from the next pointer's `fileOffset`. */
  lemma ReadPlanTwoPointers(ps: seq<SeekPointer>, begin: int, n: int)
    requires InTwoPointers(ps, begin, n)
    ensures var k := StartIndex(ps, begin); var a := FirstAvailable(ps, begin);
      ReadPlan(ps, begin, n) ==
        Plan([SubRead(ps[k].fd, a, ps[k].fileOffset + begin),
              SubRead(ps[k + 1].fd, n - a, ps[k + 1].fileOffset)], false)
  {
    var k := StartIndex(ps, begin);
    var a := FirstAvailable(ps, begin);
    assert ReadPlanFrom(ps, k + 1, 0, n - a) == Plan([SubRead(ps[k + 1].fd, n - a, ps[k + 1].fileOffset)], false);
  }

  lemma ReadAfterWriteOne(files: map<int, seq<byte>>, ps: seq<SeekPointer>, begin: int, block: seq<byte>)
    requires InOnePointer(ps, begin, |block|)
    requires ps[StartIndex(ps, begin)].fd in files
    ensures var w := WritePlan(ps, begin, block); var r := ReadPlan(ps, begin, |block|);
      !w.throws && AllWritesOk(files, w.steps) && !r.throws
    ensures var w := WritePlan(ps, begin, block); var r := ReadPlan(ps, begin, |block|);
      AllReadsOk(ApplyWrites(files, w.steps), r.steps) &&
      ReadAll(ApplyWrites(files, w.steps), r.steps) == block
  {
    var p := ps[StartIndex(ps, begin)];
    WritePlanOnePointer(ps, begin, block);
    ReadPlanOnePointer(ps, begin, |block|);
    var w := SubWrite(p.fd, block, |block|, p.fileOffset + begin);
    assert [w][1..] == [];
    var after := ApplyWrite(files, w);
    assert block[..|block|] == block;
    ReadAtWriteAt(files[p.fd], p.fileOffset + begin, block);
    var r := SubRead(p.fd, |block|, p.fileOffset + begin);
    assert [r][1..] == [];
  }

  lemma TwoWrites(files: map<int, seq<byte>>, w1: SubWrite, w2: SubWrite)
    requires WriteOk(files, w1) && WriteOk(files, w2) && w1.fd != w2.fd
    ensures AllWritesOk(files, [w1, w2])
    ensures ApplyWrites(files, [w1, w2]) ==
      files[w1.fd := WriteAt(files[w1.fd], w1.position, w1.buffer[..w1.length])]
           [w2.fd := WriteAt(files[w2.fd], w2.position, w2.buffer[..w2.length])]
  {
    assert [w1, w2][1..] == [w2] && [w2][1..] == [];
    var after1 := ApplyWrite(files, w1);
    assert WriteOk(after1, w2);
    assert AllWritesOk(after1, [w2]);
    assert after1 == files[w1.fd := WriteAt(files[w1.fd], w1.position, w1.buffer[..w1.length])];
    assert after1[w2.fd] == files[w2.fd];
    assert ApplyWrites(files, [w1, w2]) == ApplyWrites(after1, [w2]) == ApplyWrite(after1, w2);
  }

  lemma TwoReads(files: map<int, seq<byte>>, r1: SubRead, r2: SubRead)
    requires ReadOk(files, r1) && ReadOk(files, r2)
    ensures AllReadsOk(files, [r1, r2])
    ensures ReadAll(files, [r1, r2]) ==
      ReadAt(files[r1.fd], r1.position, r1.length) + ReadAt(files[r2.fd], r2.position, r2.length)
  {
    assert [r1, r2][1..] == [r2] && [r2][1..] == [];
    assert ReadAll(files, [r2]) == ReadOne(files, r2) + [];
  }

  /** Two sub-writes to distinct files read back by the matching sub-reads. */
  lemma TwoWritesReadBack(files: map<int, seq<byte>>, w1: SubWrite, w2: SubWrite)
    requires WriteOk(files, w1) && WriteOk(files, w2) && w1.fd != w2.fd
    ensures var after := ApplyWrites(files, [w1, w2]);
      var rs := [SubRead(w1.fd, w1.length, w1.position), SubRead(w2.fd, w2.length, w2.position)];
      AllWritesOk(files, [w1, w2]) && AllReadsOk(after, rs) &&
      ReadAll(after, rs) == w1.buffer[..w1.length] + w2.buffer[..w2.length]
  {
    TwoWrites(files, w1, w2);
    var d1, d2 := w1.buffer[..w1.length], w2.buffer[..w2.length];
    var after := files[w1.fd := WriteAt(files[w1.fd], w1.position, d1)][w2.fd := WriteAt(files[w2.fd], w2.position, d2)];
    ReadAtWriteAt(files[w1.fd], w1.position, d1);
    ReadAtWriteAt(files[w2.fd], w2.position, d2);
    TwoReads(after, SubRead(w1.fd, w1.length, w1.position), SubRead(w2.fd, w2.length, w2.position));
  }

  lemma ReadAfterWriteTwoSteps(files: map<int, seq<byte>>, ps: seq<SeekPointer>, begin: int, block: seq<byte>)
    requires InTwoPointers(ps, begin, |block|)
    requires ps[StartIndex(ps, begin)].fd in files && ps[StartIndex(ps, begin) + 1].fd in files
    requires ps[StartIndex(ps, begin)].fd != ps[StartIndex(ps, begin) + 1].fd
    ensures var w := WritePlan(ps, begin, block); var r := ReadPlan(ps, begin, |block|);
      !w.throws && AllWritesOk(files, w.steps) && !r.throws
  {
    var k := StartIndex(ps, begin);
    var a := FirstAvailable(ps, begin);
    WritePlanTwoPointers(ps, begin, block);
    ReadPlanTwoPointers(ps, begin, |block|);
    TwoWrites(files, SubWrite(ps[k].fd, block, a, ps[k].fileOffset + begin),
                     SubWrite(ps[k + 1].fd, block[a..], |block| - a, ps[k + 1].fileOffset));
  }

  lemma ReadAfterWriteTwoData(files: map<int, seq<byte>>, ps: seq<SeekPointer>, begin: int, block: seq<byte>)
    requires InTwoPointers(ps, begin, |block|)
    requires ps[StartIndex(ps, begin)].fd in files && ps[StartIndex(ps, begin) + 1].fd in files
    requires ps[StartIndex(ps, begin)].fd != ps[StartIndex(ps, begin) + 1].fd
    ensures var w := WritePlan(ps, begin, block); var r := ReadPlan(ps, begin, |block|);
      AllReadsOk(ApplyWrites(files, w.steps), r.steps) &&
      ReadAll(ApplyWrites(files, w.steps), r.steps) == block
  {
    var k := StartIndex(ps, begin);
    var a := FirstAvailable(ps, begin);
    var w1 := SubWrite(ps[k].fd, block, a, ps[k].fileOffset + begin);
    var w2 := SubWrite(ps[k + 1].fd, block[a..], |block| - a, ps[k + 1].fileOffset);
    WritePlanTwoPointers(ps, begin, block);
    ReadPlanTwoPointers(ps, begin, |block|);
    assert WritePlan(ps, begin, block).steps == [w1, w2];
    assert ReadPlan(ps, begin, |block|).steps ==
      [SubRead(w1.fd, w1.length, w1.position), SubRead(w2.fd, w2.length, w2.position)];
    TwoWritesReadBack(files, w1, w2);
    assert w1.buffer[..w1.length] + w2.buffer[..w2.length] == block;
  }

  /** Reading back a range just written, within one file or across two
      distinct open files, returns the written block: `read` concatenates the
      parts in pointer order. */
  lemma ReadAfterWrite(files: map<int, seq<byte>>, ps: seq<SeekPointer>, begin: int, block: seq<byte>)
    requires InOnePointer(ps, begin, |block|) || InTwoPointers(ps, begin, |block|)
    requires forall k :: 0 <= k < |ps| ==> ps[k].fd in files
    requires InTwoPointers(ps, begin, |block|) ==>
      ps[StartIndex(ps, begin)].fd != ps[StartIndex(ps, begin) + 1].fd
    ensures var w := WritePlan(ps, begin, block); var r := ReadPlan(ps, begin, |block|);
      !w.throws && AllWritesOk(files, w.steps) && !r.throws
    ensures var w := WritePlan(ps, begin, block); var r := ReadPlan(ps, begin, |block|);
      AllReadsOk(ApplyWrites(files, w.steps), r.steps) &&
      ReadAll(ApplyWrites(files, w.steps), r.steps) == block
  {
    if InOnePointer(ps, begin, |block|) {
      ReadAfterWriteOne(files, ps, begin, block);
    } else {
      ReadAfterWriteTwoSteps(files, ps, begin, block);
      ReadAfterWriteTwoData(files, ps, begin, block);
    }
  }

  /** The first pointer touched writes at `fileOffset + begin` even when it is
      not the piece's first pointer: a one-byte write at piece offset 2 of a
      piece whose bytes from offset 2 start at offset 0 of file 2 lands at
      offset 2 of that file. */
  lemma WriteFromLaterPointerUsesPieceOffset()
    ensures WritePlan([SeekPointer(1, 8, 0, 10), SeekPointer(2, 0, 2, 10)], 2, [7]) ==
            Plan([SubWrite(2, [7], 1, 2)], false)
  {
  }

  /** The remainder is always sliced from the whole block: over three files of
      room 1, 1 and 10, a 3-byte write sends bytes 1..2 to both the second
      and the third file, 4 bytes in total. */
  lemma WriteOverThreeFilesResendsRemainder()
    ensures var ps := [SeekPointer(1, 9, 0, 10), SeekPointer(2, 0, 1, 1), SeekPointer(3, 0, 2, 10)];
      var plan := WritePlan(ps, 0, [10, 20, 30]);
      plan == Plan([SubWrite(1, [10, 20, 30], 1, 9), SubWrite(2, [20, 30], 1, 0), SubWrite(3, [20, 30], 2, 0)], false) &&
      TotalWritten(plan.steps) == 4
  {
    var ps := [SeekPointer(1, 9, 0, 10), SeekPointer(2, 0, 1, 1), SeekPointer(3, 0, 2, 10)];
    var block: seq<byte> := [10, 20, 30];
    assert SliceFrom(block, 1) == [20, 30];
    var ws := [SubWrite(1, [10, 20, 30], 1, 9), SubWrite(2, [20, 30], 1, 0), SubWrite(3, [20, 30], 2, 0)];
    assert WritePlanFrom(ps, block, 2, 0, [20, 30]) == Plan([ws[2]], false);
    assert WritePlanFrom(ps, block, 1, 0, [20, 30]) == Plan([ws[1], ws[2]], false);
    assert WritePlan(ps, 0, block).steps == ws;
    assert ws[1..] == [ws[1], ws[2]] && [ws[1], ws[2]][1..] == [ws[2]] && [ws[2]][1..] == [];
  }

  /** The pointer loop of `write`: issues the sub-writes of the plan in
      order; `throws` reports the dereference of a missing pointer. */
  method IssueWrites(ps: seq<SeekPointer>, begin: int, block: seq<byte>, fs: FileSystem) returns (throws: bool, allOk: bool, total: int)
    modifies fs
    ensures var plan := WritePlan(ps, begin, block);
      fs.files == ApplyWrites(old(fs.files), plan.steps) && throws == plan.throws &&
      allOk == AllWritesOk(old(fs.files), plan.steps) && total == TotalWritten(plan.steps)
  {
    allOk, total := true, 0;
    var newBegin := begin;
    var blockRemaining := block;
    var filePointerIndex := LastPointerAtOrBefore(ps, begin, |ps|);
    ghost var run := RunWrites(ps, block, filePointerIndex, newBegin, blockRemaining, fs.files, allOk, total);
    RunWritesFollowsPlan(ps, block, filePointerIndex, newBegin, blockRemaining, fs.files, allOk, total);
    var isOverlap := true;
    while isOverlap
      invariant isOverlap ==> RunWrites(ps, block, filePointerIndex, newBegin, blockRemaining, fs.files, allOk, total) == run
      invariant !isOverlap ==> run == WriteRun(fs.files, false, allOk, total)
      invariant -1 <= filePointerIndex <= |ps|
      decreases |ps| - filePointerIndex, isOverlap
    {
      if filePointerIndex < 0 || filePointerIndex >= |ps| {
        return true, allOk, total;
      }
      var filePointer := ps[filePointerIndex];
      var currentOffset := filePointer.fileOffset + newBegin;
      var bytesToWrite := |blockRemaining|;
      var bytesAvailableInCurrentFile := filePointer.fileLength - currentOffset;
      var bytesRemaining := bytesToWrite - bytesAvailableInCurrentFile;
      isOverlap := bytesRemaining > 0;
      var step := SubWrite(filePointer.fd, blockRemaining, Min(bytesToWrite, bytesAvailableInCurrentFile), currentOffset);
      assert step == WriteStep(ps[filePointerIndex], newBegin, blockRemaining);
      RunWritesStep(ps, block, filePointerIndex, newBegin, blockRemaining, fs.files, allOk, total);
      ghost var before := fs.files;
      var ok, written := fs.Write(step.fd, step.buffer, step.length, step.position);
      assert fs.files == ApplyWrite(before, step) && ok == WriteOk(before, step);
      allOk := allOk && ok;
      total := total + step.length;
      newBegin := 0;
      blockRemaining := SliceFrom(block, bytesAvailableInCurrentFile);
      filePointerIndex := filePointerIndex + 1;
    }
    return false, allOk, total;
  }

  /** The pointer loop of `read`: issues the sub-reads of the plan in order
    and concatenates the buffers they fill. */
  method IssueReads(ps: seq<SeekPointer>, begin: int, len: int, fs: FileSystem) returns (throws: bool, allOk: bool, data: seq<byte>)
    ensures var plan := ReadPlan(ps, begin, len);
      throws == plan.throws && allOk == AllReadsOk(fs.files, plan.steps) && data == ReadAll(fs.files, plan.steps)
  {
    allOk, data := true, [];
    var newBegin := begin;
    var newLength := len;
    var filePointerIndex := LastPointerAtOrBefore(ps, begin, |ps|);
    ghost var run := RunReads(ps, filePointerIndex, newBegin, newLength, fs.files, allOk, data);
    RunReadsFollowsPlan(ps, filePointerIndex, newBegin, newLength, fs.files, allOk, data);
    var isOverlap := true;
    while isOverlap
      invariant isOverlap ==> RunReads(ps, filePointerIndex, newBegin, newLength, fs.files, allOk, data) == run
      invariant !isOverlap ==> run == ReadRun(false, allOk, data)
      invariant -1 <= filePointerIndex <= |ps|
      decreases |ps| - filePointerIndex, isOverlap
    {
      if filePointerIndex < 0 || filePointerIndex >= |ps| {
        return true, allOk, data;
      }
      var filePointer := ps[filePointerIndex];
      var currentOffset := filePointer.fileOffset + newBegin;
      var bytesAvailableInCurrentFile := filePointer.fileLength - currentOffset;
      var bytesRemaining := newLength - bytesAvailableInCurrentFile;
      isOverlap := bytesRemaining > 0;
      var step := SubRead(filePointer.fd, Min(newLength, bytesAvailableInCurrentFile), currentOffset);
      assert step == ReadStep(ps[filePointerIndex], newBegin, newLength);
      RunReadsStep(ps, filePointerIndex, newBegin, newLength, fs.files, allOk, data);
      var ok, buffer := fs.Read(step.fd, step.length, step.position);
      assert buffer == ReadOne(fs.files, step) && ok == ReadOk(fs.files, step);
      data := data + buffer;
      allOk := allOk && ok;
      newBegin := 0;
      newLength := bytesRemaining;
      filePointerIndex := filePointerIndex + 1;
    }
    return false, allOk, data;
  }

  // ------------------------------------------------------------- outcomes

  /** How the promise returned by `write` ends. `Rejected`: the range does not
      fit the piece. `Throws`: a missing pointer is dereferenced before the
      promise exists. `Pending`: a sub-write failed inside an inner async
      function whose rejection nobody handles, so the promise never settles.
      `Written`: it resolves with the bytes written and the completion flag. */
  datatype WriteOutcome = Rejected | Throws | Pending | Written(bytesWritten: int, completedAndValid: bool)

  /** How the promise returned by `read` ends; a failed sub-read resolves
      with an empty buffer. */
  datatype ReadOutcome = ReadRejected | ReadThrows | ReadDone(data: seq<byte>)

  /** The outcome of `write(begin, block)` on a piece of the given length,
      pointers and received blocks, over the given file contents. */
  function WriteResult(length: int, pointers: seq<SeekPointer>, blocks: seq<PieceBlock>, files: map<int, seq<byte>>,
                       begin: int, block: seq<byte>, digestMatches: bool): WriteOutcome
  {
    if |block| + begin > length then Rejected
    else
      var plan := WritePlan(pointers, begin, block);
      if plan.throws then Throws
      else if !AllWritesOk(files, plan.steps) then Pending
      else
        var complete := SumSizes(Merged(Inserted(blocks, begin, |block|))) == length;
        Written(TotalWritten(plan.steps), complete && digestMatches)
  }

  /** The file contents after `write(begin, block)`: untouched when the range
      is rejected, otherwise changed by the sub-writes issued before the loop
      ends or throws. */
  function FilesAfterWrite(length: int, pointers: seq<SeekPointer>, files: map<int, seq<byte>>,
                           begin: int, block: seq<byte>): map<int, seq<byte>>
  {
    if |block| + begin > length then files
    else ApplyWrites(files, WritePlan(pointers, begin, block).steps)
  }

  /** The received blocks after `write(begin, block)`: the block is inserted
      and merged only once every sub-write succeeded, and the list is
      emptied when that completes the piece with a mismatching digest. */
  function BlocksAfterWrite(length: int, pointers: seq<SeekPointer>, blocks: seq<PieceBlock>, files: map<int, seq<byte>>,
                            begin: int, block: seq<byte>, digestMatches: bool): seq<PieceBlock>
  {
    if |block| + begin > length then blocks
    else
      var plan := WritePlan(pointers, begin, block);
      if plan.throws || !AllWritesOk(files, plan.steps) then blocks
      else
        var merged := Merged(Inserted(blocks, begin, |block|));
        if SumSizes(merged) == length && !digestMatches then [] else merged
  }

  /** The outcome of `read(begin, length)` on a piece of the given length and
      pointers, over the given file contents. */
  function PieceReadResult(length: int, pointers: seq<SeekPointer>, files: map<int, seq<byte>>, begin: int, len: int): ReadOutcome {
    if length - begin < len then ReadRejected
    else
      var plan := ReadPlan(pointers, begin, len);
      if plan.throws then ReadThrows
      else if !AllReadsOk(files, plan.steps) then ReadDone([])
      else ReadDone(ReadAll(files, plan.steps))
  }

  class Piece {
    const fingerPrint: seq<byte>
    const length: int
    var pointers: seq<SeekPointer>
    var blocks: seq<PieceBlock>
    var isCompletedAndValid: bool

    constructor(sha1Print: seq<byte>, pieceLength: int)
      ensures fingerPrint == sha1Print && length == pieceLength
      ensures pointers == [] && blocks == [] && !isCompletedAndValid
    {
      fingerPrint := sha1Print;
      length := pieceLength;
      pointers := [];
      blocks := [];
      isCompletedAndValid := false;
    }

    method AddSeekPointer(pointer: SeekPointer)
      modifies this
      ensures pointers == old(pointers) + [pointer]
      ensures blocks == old(blocks) && isCompletedAndValid == old(isCompletedAndValid)
    {
      pointers := pointers + [pointer];
    }

    /** `getFilePointerIndex(begin)`: the pointer that holds piece offset
        `begin`, i.e. the last one starting at or before it, or -1. */
    function GetFilePointerIndex(begin: int): (r: int)
      reads this
      ensures -1 <= r < |pointers|
      ensures r >= 0 ==> pointers[r].pieceOffset <= begin
      ensures forall k :: r < k < |pointers| ==> begin < pointers[k].pieceOffset
    {
      LastPointerAtOrBefore(pointers, begin, |pointers|)
    }

    function GetCompleted(): nat
      reads this
    {
      SumSizes(blocks)
    }

    predicate IsCompleted()
      reads this
    {
      GetCompleted() == length
    }

    /** `insertBlock(begin, length)`. */
    method InsertBlock(begin: int, size: nat)
      modifies this
      ensures blocks == Inserted(old(blocks), begin, size)
      ensures pointers == old(pointers) && isCompletedAndValid == old(isCompletedAndValid)
    {
      var rightIndex := 0;
      var i := 0;
      while i < |blocks| && begin >= blocks[i].begin
        invariant 0 <= i <= |blocks| && rightIndex == i
        invariant InsertPos(blocks, begin, size, i) == InsertPos(blocks, begin, size, 0)
        decreases |blocks| - i
      {
        if begin == blocks[i].begin {
          rightIndex := if size > blocks[i].size then i else i + 1;
          break;
        }
        i := i + 1;
        rightIndex := rightIndex + 1;
      }
      blocks := blocks[..rightIndex] + [PieceBlock(begin, size)] + blocks[rightIndex..];
    }

    /** `mergeBlocks()`. */
    method MergeBlocks()
      modifies this
      ensures blocks == Merged(old(blocks))
      ensures pointers == old(pointers) && isCompletedAndValid == old(isCompletedAndValid)
    {
      var nbBlocks := |blocks|;
      var i := 0;
      while i < nbBlocks - 1
        invariant nbBlocks == |blocks| && 0 <= i <= |blocks|
        invariant MergeFrom(blocks, i) == Merged(old(blocks))
        invariant pointers == old(pointers) && isCompletedAndValid == old(isCompletedAndValid)
        decreases |blocks|, |blocks| - i
      {
        var prevBegin, prevSize := blocks[i].begin, blocks[i].size;
        var nextBegin, nextSize := blocks[i + 1].begin, blocks[i + 1].size;
        if prevBegin + prevSize >= nextBegin {
          if prevBegin + prevSize < nextBegin + nextSize {
            blocks := blocks[..i] + [PieceBlock(prevBegin, nextBegin + nextSize - prevBegin)] + blocks[i + 2..];
          } else {
            blocks := blocks[..i + 1] + blocks[i + 2..];
          }
          nbBlocks := nbBlocks - 1;
        } else {
          i := i + 1;
        }
      }
    }

    /** `write(begin, block)`. `digestMatches` stands for the SHA-1 check of
        the stored piece against `fingerPrint`. */
    method Write(begin: int, block: seq<byte>, fs: FileSystem, digestMatches: bool) returns (out: WriteOutcome)
      modifies this, fs
      ensures out == WriteResult(length, old(pointers), old(blocks), old(fs.files), begin, block, digestMatches)
      ensures pointers == old(pointers)
      ensures fs.files == FilesAfterWrite(length, old(pointers), old(fs.files), begin, block)
      ensures blocks == BlocksAfterWrite(length, old(pointers), old(blocks), old(fs.files), begin, block, digestMatches)
      ensures |block| + begin > length ==>
        out == Rejected && fs.files == old(fs.files) && blocks == old(blocks) && isCompletedAndValid == old(isCompletedAndValid)
      ensures |block| + begin <= length ==>
        var plan := WritePlan(old(pointers), begin, block);
        var merged := Merged(Inserted(old(blocks), begin, |block|));
        fs.files == ApplyWrites(old(fs.files), plan.steps) &&
        (plan.throws ==> out == Throws && blocks == old(blocks) && isCompletedAndValid == old(isCompletedAndValid)) &&
        (!plan.throws && !AllWritesOk(old(fs.files), plan.steps) ==>
          out == Pending && blocks == old(blocks) && isCompletedAndValid == old(isCompletedAndValid)) &&
        (!plan.throws && AllWritesOk(old(fs.files), plan.steps) ==>
          var complete := SumSizes(merged) == length;
          out == Written(TotalWritten(plan.steps), complete && digestMatches) &&
          blocks == (if complete && !digestMatches then [] else merged) &&
          isCompletedAndValid == (old(isCompletedAndValid) || (complete && digestMatches)))
    {
      if |block| + begin > length {
        return Rejected;
      }
      var throws, allOk, total := IssueWrites(pointers, begin, block, fs);
      if throws {
        return Throws;
      }
      if !allOk {
        return Pending;
      }
      InsertBlock(begin, |block|);
      MergeBlocks();
      if IsCompleted() {
        if !digestMatches {
          blocks := [];
          return Written(total, false);
        } else {
          isCompletedAndValid := true;
          return Written(total, true);
        }
      }
      return Written(total, false);
    }

    /** `read(begin, length)`. */
    method Read(begin: int, len: int, fs: FileSystem) returns (out: ReadOutcome)
      ensures out == PieceReadResult(length, pointers, fs.files, begin, len)
      ensures length - begin < len ==> out == ReadRejected
      ensures length - begin >= len ==>
        var plan := ReadPlan(pointers, begin, len);
        (plan.throws ==> out == ReadThrows) &&
        (!plan.throws && !AllReadsOk(fs.files, plan.steps) ==> out == ReadDone([])) &&
        (!plan.throws && AllReadsOk(fs.files, plan.steps) ==> out == ReadDone(ReadAll(fs.files, plan.steps)))
    {
      if length - begin < len {
        return ReadRejected;
      }
      var throws, allOk, data := IssueReads(pointers, begin, len, fs);
      if throws {
        return ReadThrows;
      }
      if !allOk {
        return ReadDone([]);
      }
      return ReadDone(data);
    }
  }
}
