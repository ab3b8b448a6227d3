/** The open files the pieces are stored in, addressed by file descriptor,
    with the positional `fs.write`/`fs.read` the disk layer uses. */
module Files {
  import opened Bytes

  function Max(a: int, b: int): int {
    if a < b then b else a
  }

  /** File contents after writing `data` at `pos`; a write past the end
      first extends the file with zero bytes. */
  function WriteAt(f: seq<byte>, pos: nat, data: seq<byte>): (r: seq<byte>)
    ensures |r| == Max(|f|, pos + |data|)
    ensures forall k :: 0 <= k < |data| ==> r[pos + k] == data[k]
    ensures forall k :: 0 <= k < |r| && !(pos <= k < pos + |data|) ==> r[k] == if k < |f| then f[k] else 0
  {
    var g := if |f| < pos then f + Zeros(pos - |f|) else f;
    g[..pos] + data + (if pos + |data| < |g| then g[pos + |data|..] else [])
  }

  /** `fs.read(fd, Buffer.alloc(n), 0, n, pos)`: the n bytes from `pos`, with
      the part past the end of the file left zero. */
  function ReadAt(f: seq<byte>, pos: nat, n: nat): (r: seq<byte>)
    ensures |r| == n
    ensures forall k :: 0 <= k < n ==> r[k] == if pos + k < |f| then f[pos + k] else 0
  {
    if n == 0 then [] else ReadAt(f, pos, n - 1) + [if pos + n - 1 < |f| then f[pos + n - 1] else 0]
  }

  /** Reading back the range just written gives the written bytes. */
  lemma ReadAtWriteAt(f: seq<byte>, pos: nat, data: seq<byte>)
    ensures ReadAt(WriteAt(f, pos, data), pos, |data|) == data
  {
  }

  /** A write leaves every range it does not touch as it read before. */
  lemma ReadAtWriteAtElsewhere(f: seq<byte>, pos: nat, data: seq<byte>, pos': nat, n: nat)
    requires pos' + n <= pos || pos + |data| <= pos'
    ensures ReadAt(WriteAt(f, pos, data), pos', n) == ReadAt(f, pos', n)
  {
  }

  /** Whether `fs.write(fd, buffer, 0, length, position)` succeeds. */
  predicate CanWrite(files: map<int, seq<byte>>, fd: int, buffer: seq<byte>, length: int, position: int) {
    fd in files && 0 <= length <= |buffer| && position >= 0
  }

  /** The open files after that call; a failed call changes nothing. */
  function AfterWrite(files: map<int, seq<byte>>, fd: int, buffer: seq<byte>, length: int, position: int): (r: map<int, seq<byte>>)
    ensures r.Keys == files.Keys
    ensures CanWrite(files, fd, buffer, length, position) ==> r == files[fd := WriteAt(files[fd], position, buffer[..length])]
    ensures !CanWrite(files, fd, buffer, length, position) ==> r == files
  {
    if CanWrite(files, fd, buffer, length, position) then files[fd := WriteAt(files[fd], position, buffer[..length])] else files
  }

  /** Whether `fs.read(fd, Buffer.alloc(length), 0, length, position)` succeeds. */
  predicate CanRead(files: map<int, seq<byte>>, fd: int, length: int, position: int) {
    fd in files && length >= 0 && position >= 0
  }

  /** The buffer that call fills, or nothing when it fails. */
  function ReadResult(files: map<int, seq<byte>>, fd: int, length: int, position: int): (r: seq<byte>)
    ensures CanRead(files, fd, length, position) ==> r == ReadAt(files[fd], position, length)
    ensures !CanRead(files, fd, length, position) ==> r == []
  {
    if CanRead(files, fd, length, position) then ReadAt(files[fd], position, length) else []
  }

  class FileSystem {
    /** The contents of every open file descriptor. */
    var files: map<int, seq<byte>>

    constructor(files: map<int, seq<byte>>)
      ensures this.files == files
    {
      this.files := files;
    }

    /** `fs.write(fd, buffer, 0, length, position)`; fails for an unknown
        descriptor, a negative position, or a length outside [0, |buffer|]. */
    method Write(fd: int, buffer: seq<byte>, length: int, position: int) returns (ok: bool, written: nat)
      modifies this
      ensures ok == CanWrite(old(files), fd, buffer, length, position)
      ensures files == AfterWrite(old(files), fd, buffer, length, position)
      ensures written == if ok then length else 0
    {
      if fd in files && 0 <= length <= |buffer| && position >= 0 {
        files := files[fd := WriteAt(files[fd], position, buffer[..length])];
        ok, written := true, length;
      } else {
        ok, written := false, 0;
      }
    }

    /** `fs.read(fd, Buffer.alloc(length), 0, length, position)`; fails for an
        unknown descriptor, a negative position, or a negative length (which
        `Buffer.alloc` refuses). */
    method Read(fd: int, length: int, position: int) returns (ok: bool, buffer: seq<byte>)
      ensures ok == CanRead(files, fd, length, position)
      ensures buffer == ReadResult(files, fd, length, position)
    {
      if fd in files && length >= 0 && position >= 0 {
        ok, buffer := true, ReadAt(files[fd], position, length);
      } else {
        ok, buffer := false, [];
      }
    }
  }
}
