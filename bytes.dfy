/** Bytes, Node `Buffer` slicing and concatenation, and the big-endian
    signed 32-bit integers read and written by `readInt32BE`/`writeInt32BE`. */
module Bytes {

  type byte = x: int | 0 <= x < 256

  /** `Buffer.alloc(n)`: n zero bytes. */
  function Zeros(n: nat): (r: seq<byte>)
    ensures |r| == n
    ensures forall i :: 0 <= i < n ==> r[i] == 0
  {
    if n == 0 then [] else Zeros(n - 1) + [0]
  }

  /** How `slice` normalises one bound: a negative bound counts from the end,
      and every bound is clamped to [0, len]. */
  function RelativeIndex(i: int, len: nat): (r: nat)
    ensures r <= len
    ensures 0 <= i <= len ==> r == i
    ensures i > len ==> r == len
    ensures i < 0 ==> r == if len + i < 0 then 0 else len + i
  {
    if i < 0 then (if len + i < 0 then 0 else len + i)
    else if i > len then len
    else i
  }

  /** `s.slice(start, end)` on a Buffer, an array or a string. */
  function Slice<T>(s: seq<T>, start: int, end: int): (r: seq<T>)
    ensures |r| <= |s|
    ensures 0 <= start <= end <= |s| ==> r == s[start..end]
    ensures RelativeIndex(end, |s|) <= RelativeIndex(start, |s|) ==> r == []
  {
    var a := RelativeIndex(start, |s|);
    var b := RelativeIndex(end, |s|);
    if a < b then s[a..b] else []
  }

  /** `s.slice(start)`. */
  function SliceFrom<T>(s: seq<T>, start: int): (r: seq<T>)
    ensures 0 <= start <= |s| ==> r == s[start..]
    ensures start < 0 && |s| + start >= 0 ==> r == s[|s| + start..]
    ensures start > |s| ==> r == []
  {
    Slice(s, start, |s|)
  }

  /** `Buffer.concat([b], n)`: b truncated to n bytes, or zero-filled up to n bytes. */
  function Fit(b: seq<byte>, n: nat): (r: seq<byte>)
    ensures |r| == n
    ensures forall i :: 0 <= i < n && i < |b| ==> r[i] == b[i]
    ensures forall i :: |b| <= i < n ==> r[i] == 0
  {
    if |b| >= n then b[..n] else b + Zeros(n - |b|)
  }

  const TWO_32: int := 0x1_0000_0000
  const INT32_MIN: int := -0x8000_0000
  const INT32_MAX: int := 0x7fff_ffff

  predicate IsInt32(n: int) {
    INT32_MIN <= n <= INT32_MAX
  }

  /** `buf.writeInt32BE(n, 0)` on a 4-byte buffer: two's complement, most
      significant byte first.  Node throws a RangeError outside the int32
      range; callers check `IsInt32` first. */
  function Int32BE(n: int): (r: seq<byte>)
    requires IsInt32(n)
    ensures |r| == 4
  {
    var u := if n < 0 then n + TWO_32 else n;
    [u / 0x100_0000, (u / 0x1_0000) % 0x100, (u / 0x100) % 0x100, u % 0x100]
  }

  /** `buf.readInt32BE(at)`: the signed big-endian integer in bytes [at, at+4). */
  function ReadInt32BE(b: seq<byte>, at: nat): (r: int)
    requires at + 4 <= |b|
    ensures IsInt32(r)
  {
    var u := (b[at] as int) * 0x100_0000 + (b[at + 1] as int) * 0x1_0000 + (b[at + 2] as int) * 0x100 + (b[at + 3] as int);
    if u > INT32_MAX then u - TWO_32 else u
  }

  /** Reading back what was written gives the same integer. */
  lemma ReadInt32BEOfInt32BE(n: int)
    requires IsInt32(n)
    ensures ReadInt32BE(Int32BE(n), 0) == n
  {
    var u := if n < 0 then n + TWO_32 else n;
    var b := Int32BE(n);
    assert 0 <= u < TWO_32;
    var q1 := u / 0x100;
    var q2 := q1 / 0x100;
    var q3 := q2 / 0x100;
    assert u == q1 * 0x100 + u % 0x100;
    assert q1 == q2 * 0x100 + q1 % 0x100;
    assert q2 == q3 * 0x100 + q2 % 0x100;
    assert u / 0x1_0000 == q2;
    assert u / 0x100_0000 == q3;
    assert (b[0] as int) * 0x100_0000 + (b[1] as int) * 0x1_0000 + (b[2] as int) * 0x100 + (b[3] as int) == u;
  }

  lemma DivModByte(a: int, r: int)
    requires 0 <= r < 0x100
    ensures (a * 0x100 + r) / 0x100 == a && (a * 0x100 + r) % 0x100 == r
  {
  }

  /** Reading four bytes and writing the integer back gives the same bytes. */
  lemma Int32BEOfReadInt32BE(b: seq<byte>)
    requires |b| == 4
    ensures Int32BE(ReadInt32BE(b, 0)) == b
  {
    var h := (b[0] as int) * 0x100 + (b[1] as int);
    var m := h * 0x100 + (b[2] as int);
    var u := m * 0x100 + (b[3] as int);
    assert u == (b[0] as int) * 0x100_0000 + (b[1] as int) * 0x1_0000 + (b[2] as int) * 0x100 + (b[3] as int);
    DivModByte(m, b[3]);
    DivModByte(h, b[2]);
    DivModByte(b[0], b[1]);
    assert u / 0x1_0000 == m / 0x100 by {
      assert u / 0x1_0000 == (u / 0x100) / 0x100;
    }
    assert u / 0x100_0000 == h / 0x100 by {
      assert u / 0x100_0000 == ((u / 0x100) / 0x100) / 0x100;
    }
    var r := Int32BE(ReadInt32BE(b, 0));
    assert r[0] == b[0] && r[1] == b[1] && r[2] == b[2] && r[3] == b[3];
  }

  /** `readInt32BE` only looks at the four bytes it reads. */
  lemma ReadInt32BEWindow(b: seq<byte>, at: nat, c: seq<byte>, at': nat)
    requires at + 4 <= |b| && at' + 4 <= |c|
    requires b[at..at + 4] == c[at'..at' + 4]
    ensures ReadInt32BE(b, at) == ReadInt32BE(c, at')
  {
    assert b[at] == b[at..at + 4][0] == c[at'];
    assert b[at + 1] == b[at..at + 4][1] == c[at' + 1];
    assert b[at + 2] == b[at..at + 4][2] == c[at' + 2];
    assert b[at + 3] == b[at..at + 4][3] == c[at' + 3];
  }

  /** The bytes of an ASCII / Latin-1 string, one byte per character. */
  predicate IsByteString(s: string) {
    forall i :: 0 <= i < |s| ==> s[i] as int < 256
  }

  function StringBytes(s: string): (r: seq<byte>)
    requires IsByteString(s)
    ensures |r| == |s|
    ensures forall i :: 0 <= i < |s| ==> r[i] == s[i] as int
  {
    if s == [] then [] else StringBytes(s[..|s| - 1]) + [s[|s| - 1] as int]
  }

  /** A byte read back as the character with that code. */
  function BytesString(b: seq<byte>): (r: string)
    ensures |r| == |b|
    ensures forall i :: 0 <= i < |b| ==> r[i] as int == b[i]
  {
    if b == [] then [] else BytesString(b[..|b| - 1]) + [b[|b| - 1] as char]
  }

  lemma BytesStringOfStringBytes(s: string)
    requires IsByteString(s)
    ensures BytesString(StringBytes(s)) == s
  {
    var r := BytesString(StringBytes(s));
    assert |r| == |s|;
    forall i | 0 <= i < |s| ensures r[i] == s[i] {
      assert r[i] as int == s[i] as int;
    }
  }

  lemma StringBytesOfBytesString(b: seq<byte>)
    ensures IsByteString(BytesString(b))
    ensures StringBytes(BytesString(b)) == b
  {
  }
}
