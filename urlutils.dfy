/** The query-string helpers of `utils.js`: left padding, the percent
    encoding of binary values (the info hash and the peer id a tracker
    request carries), the `key=value&...` request string, and even-length
    hexadecimal numerals. The bitfield helpers of the same file are
    modelled by the Bitfields module. */
module Utils {
  import opened Wrappers
  import opened Bytes
  import Numerals

  // ---- padLeft ----

  /** `padLeft(str, pad)`: the first |pad| - |str| characters of `pad`,
      then `str`. `substring` clamps a negative end to 0, so a `str` at
      least as long as `pad` comes back unchanged. */
  function PadLeft(str: string, pad: string): (r: string)
    ensures |r| == if |str| < |pad| then |pad| else |str|
    ensures r[|r| - |str|..] == str
    ensures r[..|r| - |str|] == pad[..|r| - |str|]
  {
    var end := if |pad| - |str| < 0 then 0 else |pad| - |str|;
    pad[..end] + str
  }

  // ---- encodeByte / encodeBuffer ----

  /** The bytes `encodeByte` keeps as characters: '1'-'9', 'A'-'Z' and
      'a'-'z'. The digit '0' (48) is not among them. */
  predicate Kept(b: byte) {
    (49 <= b <= 57) || (65 <= b <= 90) || (97 <= b <= 122)
  }

  /** `encodeByte(byte)`: a kept byte as its character, any other byte as
      '%' and its two-digit lowercase hexadecimal value. */
  function EncodeByte(b: byte): (r: string)
    ensures |r| == (if Kept(b) then 1 else 3)
    ensures Kept(b) ==> r == [b as char]
    ensures !Kept(b) ==> r == ['%', Numerals.HexChar(b / 16), Numerals.HexChar(b % 16)]
  {
    if Kept(b) then [b as char]
    else
      HexPair(b);
      "%" + PadLeft(Numerals.NatToHex(b), "00")
  }

  /** `padLeft(byte.toString(16), "00")` is the byte's two hex digits. */
  lemma HexPair(b: byte)
    ensures PadLeft(Numerals.NatToHex(b), "00") == [Numerals.HexChar(b / 16), Numerals.HexChar(b % 16)]
  {
    if b >= 16 {
      assert Numerals.NatToHex(b / 16) == [Numerals.HexChar(b / 16)];
    }
  }

  /** `encodeBuffer(buf)`: the byte encodings in order, joined. */
  function EncodeBuffer(buf: seq<byte>): (r: string)
    ensures |buf| <= |r| <= 3 * |buf|
  {
    if buf == [] then "" else EncodeByte(buf[0]) + EncodeBuffer(buf[1..])
  }

  /** The characters an encoded buffer is made of. */
  predicate UrlSafe(c: char) {
    c == '%' || Numerals.IsHexChar(c) || ('1' <= c <= '9') || ('A' <= c <= 'Z') || ('a' <= c <= 'z')
  }

  /** An encoded buffer holds only kept characters, '%' and hex digits, so
      never the '&' and '=' that separate a request's fields. */
  lemma {:induction false} EncodeBufferSafe(buf: seq<byte>)
    ensures forall c :: c in EncodeBuffer(buf) ==> UrlSafe(c)
    ensures '&' !in EncodeBuffer(buf) && '=' !in EncodeBuffer(buf)
    decreases |buf|
  {
    if buf != [] {
      EncodeBufferSafe(buf[1..]);
      var head := EncodeByte(buf[0]);
      assert forall c :: c in head ==> UrlSafe(c);
      assert EncodeBuffer(buf) == head + EncodeBuffer(buf[1..]);
      assert !UrlSafe('&') && !UrlSafe('=');
    }
  }

  /** Percent decoding: the inverse of `EncodeBuffer`. */
  function DecodeBuffer(s: string): (r: Option<seq<byte>>)
    decreases |s|
  {
    if s == [] then Some([])
    else if s[0] == '%' then
      if |s| >= 3 && Numerals.IsHexChar(s[1]) && Numerals.IsHexChar(s[2]) then
        var b := 16 * Numerals.HexCharValue(s[1]) + Numerals.HexCharValue(s[2]);
        match DecodeBuffer(s[3..])
        case Some(rest) => Some([b] + rest)
        case None => None
      else None
    else if 0 <= s[0] as int < 256 && Kept(s[0] as int) then
      match DecodeBuffer(s[1..])
      case Some(rest) => Some([s[0] as int] + rest)
      case None => None
    else None
  }

  /** Decoding an encoded byte gives the byte back. */
  lemma DecodeByte(b: byte, rest: string)
    ensures DecodeBuffer(EncodeByte(b) + rest) == match DecodeBuffer(rest)
      case Some(tail) => Some([b] + tail)
      case None => None
  {
    var s := EncodeByte(b) + rest;
    if Kept(b) {
      assert s[0] == b as char && s[1..] == rest;
    } else {
      var hi := Numerals.HexChar(b / 16);
      var lo := Numerals.HexChar(b % 16);
      HexCharRoundTrip(b / 16);
      HexCharRoundTrip(b % 16);
      assert s[0] == '%' && s[1] == hi && s[2] == lo && s[3..] == rest;
      assert 16 * (b / 16) + b % 16 == b;
    }
  }

  lemma HexCharRoundTrip(d: nat)
    requires d < 16
    ensures Numerals.IsHexChar(Numerals.HexChar(d)) && Numerals.HexCharValue(Numerals.HexChar(d)) == d
  {
  }

  /** `encodeBuffer` loses nothing: decoding gives the buffer back. */
  lemma {:induction false} DecodeEncodeBuffer(buf: seq<byte>)
    ensures DecodeBuffer(EncodeBuffer(buf)) == Some(buf)
    decreases |buf|
  {
    if buf != [] {
      DecodeEncodeBuffer(buf[1..]);
      DecodeByte(buf[0], EncodeBuffer(buf[1..]));
      assert [buf[0]] + buf[1..] == buf;
    }
  }

  /** Hence two buffers with the same encoding are equal. */
  lemma EncodeBufferInjective(a: seq<byte>, b: seq<byte>)
    requires EncodeBuffer(a) == EncodeBuffer(b)
    ensures a == b
  {
    DecodeEncodeBuffer(a);
    DecodeEncodeBuffer(b);
  }

  // ---- stringify ----

  /** A request parameter: a Buffer, or any other value as the text
      `String(value)` gives. */
  datatype QueryValue = QBuffer(bytes: seq<byte>) | QText(text: string)

  /** `escapeRequestWithBuffer(value)`: a Buffer is percent-encoded by
      `encodeBuffer`, anything else by the runtime's `querystring.escape`,
      which the caller supplies. */
  function EscapeValue(v: QueryValue, escape: string -> string): string {
    match v
    case QBuffer(b) => EncodeBuffer(b)
    case QText(t) => escape(t)
  }

  /** One `key=value` field. */
  function Field(p: (string, QueryValue), escape: string -> string): string {
    p.0 + "=" + EscapeValue(p.1, escape)
  }

  /** The fields of an object's entries, in key order. */
  function Fields(obj: seq<(string, QueryValue)>, escape: string -> string): (r: seq<string>)
    ensures |r| == |obj|
  {
    if obj == [] then [] else Fields(obj[..|obj| - 1], escape) + [Field(obj[|obj| - 1], escape)]
  }

  lemma {:induction false} FieldsAt(obj: seq<(string, QueryValue)>, escape: string -> string, i: nat)
    requires i < |obj|
    ensures Fields(obj, escape)[i] == Field(obj[i], escape)
    decreases |obj|
  {
    if i < |obj| - 1 {
      FieldsAt(obj[..|obj| - 1], escape, i);
    }
  }

  /** Strings joined with '&' between them. */
  function JoinAmp(parts: seq<string>): string {
    if parts == [] then ""
    else if |parts| == 1 then parts[0]
    else JoinAmp(parts[..|parts| - 1]) + "&" + parts[|parts| - 1]
  }

  /** What `stringify(obj)` returns: the fields joined by '&'. */
  function Query(obj: seq<(string, QueryValue)>, escape: string -> string): string {
    JoinAmp(Fields(obj, escape))
  }

  /** Each field followed by '&', as the loop accumulates them. */
  function Terminated(parts: seq<string>): (r: string)
  {
    if parts == [] then "" else Terminated(parts[..|parts| - 1]) + parts[|parts| - 1] + "&"
  }

  lemma TerminatedStep(parts: seq<string>, i: nat)
    requires i < |parts|
    ensures Terminated(parts[..i + 1]) == Terminated(parts[..i]) + parts[i] + "&"
  {
    assert parts[..i + 1][..i] == parts[..i];
  }

  /** The accumulated text is the joined text plus one trailing '&'. */
  lemma {:induction false} TerminatedJoin(parts: seq<string>)
    requires parts != []
    ensures Terminated(parts) == JoinAmp(parts) + "&"
    decreases |parts|
  {
    if |parts| > 1 {
      TerminatedJoin(parts[..|parts| - 1]);
    } else {
      assert Terminated(parts[..0]) == "";
    }
  }

  /** `stringify(obj)`: "" for an object without keys; otherwise the loop
      appends `key=value&` for every key and the last '&' is cut off. */
  method Stringify(obj: seq<(string, QueryValue)>, escape: string -> string) returns (request: string)
    ensures request == Query(obj, escape)
  {
    request := "";
    if |obj| <= 0 {
      return request;
    }
    ghost var fields := Fields(obj, escape);
    var i := 0;
    while i < |obj|
      invariant 0 <= i <= |obj|
      invariant request == Terminated(fields[..i])
    {
      var value := EscapeValue(obj[i].1, escape);
      var field := obj[i].0 + "=" + value;
      FieldsAt(obj, escape, i);
      TerminatedStep(fields, i);
      request := request + field + "&";
      i := i + 1;
    }
    assert fields[..i] == fields;
    TerminatedJoin(fields);
    request := request[..|request| - 1];
  }

  /** Cutting a string at every '&'. */
  function SplitAmp(s: string): (r: seq<string>)
    ensures |r| >= 1
  {
    if s == [] then [""]
    else
      var rest := SplitAmp(s[1..]);
      if s[0] == '&' then [""] + rest else [[s[0]] + rest[0]] + rest[1..]
  }

  /** Fields free of '&' are recovered by cutting the joined text at '&'. */
  lemma {:induction false} SplitJoin(parts: seq<string>)
    requires parts != [] && forall i :: 0 <= i < |parts| ==> '&' !in parts[i]
    ensures SplitAmp(JoinAmp(parts)) == parts
    decreases |parts|
  {
    if |parts| == 1 {
      SplitPlain(parts[0], []);
      assert parts[0] + [] == parts[0] && SplitAmp([]) == [""];
      assert [parts[0]] == parts;
    } else {
      var front := parts[..|parts| - 1];
      SplitJoin(front);
      SplitAppend(JoinAmp(front), parts[|parts| - 1]);
      assert front + [parts[|parts| - 1]] == parts;
    }
  }

  /** Text without '&' in front of more text extends the first piece. */
  lemma {:induction false} SplitPlain(a: string, b: string)
    requires '&' !in a
    ensures SplitAmp(a + b) == [a + SplitAmp(b)[0]] + SplitAmp(b)[1..]
    decreases |a|
  {
    if a == [] {
      assert a + b == b;
      assert a + SplitAmp(b)[0] == SplitAmp(b)[0];
    } else {
      assert (a + b)[1..] == a[1..] + b;
      SplitPlain(a[1..], b);
      assert [a[0]] + (a[1..] + SplitAmp(b)[0]) == a + SplitAmp(b)[0];
    }
  }

  /** Joining one more field adds one more piece. */
  lemma {:induction false} SplitAppend(a: string, last: string)
    requires '&' !in last
    ensures SplitAmp(a + "&" + last) == SplitAmp(a) + [last]
    decreases |a|
  {
    if a == [] {
      assert a + "&" + last == "&" + last;
      assert ("&" + last)[1..] == last;
      SplitPlain(last, "");
      assert last + "" == last && last + [] == last;
    } else {
      assert (a + "&" + last)[1..] == a[1..] + "&" + last;
      SplitAppend(a[1..], last);
    }
  }

  /** A field's key and escaped value, when neither holds '&', come back one
      per field from the request string. */
  lemma QueryFields(obj: seq<(string, QueryValue)>, escape: string -> string)
    requires obj != []
    requires forall i :: 0 <= i < |obj| ==> '&' !in Field(obj[i], escape)
    ensures SplitAmp(Query(obj, escape)) == Fields(obj, escape)
  {
    var f := Fields(obj, escape);
    forall i | 0 <= i < |f| ensures '&' !in f[i] {
      FieldsAt(obj, escape, i);
    }
    SplitJoin(f);
  }

  /** A Buffer's field never holds '&' when its key does not. */
  lemma BufferFieldSafe(key: string, b: seq<byte>, escape: string -> string)
    requires '&' !in key
    ensures '&' !in Field((key, QBuffer(b)), escape)
  {
    EncodeBufferSafe(b);
  }

  // ---- decimalToHexString ----

  /** `decimalToHexString(number)`: the hex digits of `number.toString(16)`,
      with a '0' in front when their count is odd. A negative number's
      minus sign counts as a character and stays after that '0'. */
  function DecimalToHexString(n: int): (r: string)
    ensures |r| % 2 == 0
    ensures |r| == |Numerals.IntToHex(n)| || r == "0" + Numerals.IntToHex(n)
  {
    var hexString := Numerals.IntToHex(n);
    if |hexString| % 2 == 1 then "0" + hexString else hexString
  }

  /** For a non-negative number the result is a hex numeral of that value,
      at most one character longer than the shortest one. */
  lemma DecimalToHexValue(n: nat)
    ensures var r := DecimalToHexString(n);
      && (forall i :: 0 <= i < |r| ==> Numerals.IsHexChar(r[i]))
      && Numerals.HexValue(r) == n
      && |r| <= |Numerals.NatToHex(n)| + 1
  {
    var h := Numerals.NatToHex(n);
    Numerals.HexValueOfNatToHex(n);
    if |h| % 2 == 1 {
      LeadingZero(h);
    }
  }

  /** A leading '0' does not change a hex numeral's value. */
  lemma {:induction false} LeadingZero(h: string)
    requires forall i :: 0 <= i < |h| ==> Numerals.IsHexChar(h[i])
    ensures forall i :: 0 <= i < |"0" + h| ==> Numerals.IsHexChar(("0" + h)[i])
    ensures Numerals.HexValue("0" + h) == Numerals.HexValue(h)
    decreases |h|
  {
    if h == [] {
      assert ("0" + h)[..0] == [];
    } else {
      var front := h[..|h| - 1];
      LeadingZero(front);
      assert ("0" + h)[..|"0" + h| - 1] == "0" + front;
    }
  }
}
