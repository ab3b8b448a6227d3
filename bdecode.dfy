/** The bencode decoder of `utils.ts`. The functions state what each
    decoding step returns, following the source's branches; the methods are
    its while loops and recursive calls, each proved to return what its
    function states. Positions are JavaScript indices into the input
    Buffer; the `string_length` accumulator is a string of digit
    characters. */
module Bdecode {
  import opened Bytes
  import Numerals
  import Utf8
  import KeyOrder
  import opened Bencode

  /** What a `Left` reports. */
  datatype Failure =
    | NoData
    | TrailingBytes(position: nat, length: nat)
    | ShortString(position: nat, expected: JsNumber, got: nat)
    | BadIntegerChar
    | OddTokenCount(count: nat)
    | UnexpectedEnd
    | InvalidToken(position: nat)

  /** A decoding step's outcome: monet's `Left` / `Right`, the `undefined`
      a function returns when it falls off its end, and the TypeError thrown
      when `.cata` or `.flatMap` is called on that `undefined`. */
  datatype Decoded<T> = Err(failure: Failure) | Ok(value: T) | Undefined | Threw

  /** `decode` takes a Buffer or a string. */
  datatype Input = FromBuffer(bytes: seq<byte>) | FromString(text: string)

  /** `numberIsInteger(String.fromCharCode(c))`: `parseInt` of a single
      character is a number only for '0'..'9'. */
  predicate IsDigitByte(c: byte) {
    0x30 <= c <= 0x39
  }

  /** `parseInt(s, 10)` of a string of digits; NaN when it is empty. */
  function ParseDigits(s: string): JsNumber
    requires Numerals.AllDigits(s)
  {
    if s == [] then NaN else Integer(Numerals.DecimalValue(s))
  }

  // ---- What each step returns ----

  /** `decode_integer`'s loop from `current`, with the digits read so far. */
  function IntegerFrom(data: seq<byte>, current: nat, number: string): (r: Decoded<(Token, nat)>)
    requires Numerals.AllDigits(number)
    ensures r.Ok? ==> current < r.value.1 <= |data|
    ensures r.Ok? || r.Err?
    decreases |data| - current
  {
    // Past the end, `data[current]` is undefined: neither a digit nor 'e'.
    if current >= |data| then Err(BadIntegerChar)
    else if IsDigitByte(data[current]) then IntegerFrom(data, current + 1, number + [data[current] as char])
    else if data[current] == LETTER_E then Ok((BInt(ParseDigits(number)), current + 1))
    else Err(BadIntegerChar)
  }

  /** `decode_integer(data, position)`: the loop tests `position`, which never
      changes, so it is entered only when `position` is inside the input and
      then ends only by returning. */
  function ReadInteger(data: seq<byte>, position: nat): (r: Decoded<(Token, nat)>)
    ensures r.Ok? ==> position < r.value.1 <= |data|
    ensures !r.Threw?
  {
    if position < |data| then IntegerFrom(data, position, "") else Undefined
  }

  /** `decode_string(data, position, string_length)`: `data.slice` clamps to
      the input and the length check rejects a short slice. An empty length
      parses to NaN; the slice up to NaN is empty and 0 differs from NaN. */
  function DecodeString(data: seq<byte>, position: nat, stringLength: string): (r: Decoded<(Token, nat)>)
    requires position <= |data| && Numerals.AllDigits(stringLength)
    ensures r.Ok? ==> position <= r.value.1 <= |data|
    ensures r.Ok? || r.Err?
  {
    match ParseDigits(stringLength)
    case NaN => Err(ShortString(position, NaN, 0))
    case Integer(n) =>
      var got := Slice(data, position, position + n);
      if |got| == n then Ok((BString(got), position + n))
      else Err(ShortString(position, Integer(n), |got|))
  }

  /** `decodeTokenStream`'s loop from `current`, with the tokens read so far
      and the digits seen since the last token. Every token read restarts
      the stream in a fresh call; 'e' ends it; any other character is
      skipped. */
  function ReadStream(data: seq<byte>, current: nat, result: seq<Token>, stringLength: string)
    : (r: Decoded<(seq<Token>, nat)>)
    requires current <= |data| && Numerals.AllDigits(stringLength)
    ensures r.Ok? ==> current < r.value.1 <= |data|
    ensures !r.Undefined?
    decreases |data| - current, 0
  {
    if current == |data| then Err(UnexpectedEnd)
    else
      var c := data[current];
      var next := current + 1;
      if IsDigitByte(c) then ReadStream(data, next, result, stringLength + [c as char])
      else if c == LETTER_E then Ok((result, next))
      else if IsLead(c) then
        match ReadToken(data, next, c, stringLength)
        case Ok((token, newPosition)) => ReadStream(data, newPosition, result + [token], "")
        case Err(f) => Err(f)
        case _ => Threw
      else ReadStream(data, next, result, stringLength)
  }

  /** The characters that start a token: 'd', 'l', 'i', and the ':' that
      ends a string's length. */
  predicate IsLead(c: byte) {
    c == LETTER_D || c == LETTER_L || c == LETTER_I || c == COLON
  }

  /** The token whose lead character `lead` was just read. */
  function ReadToken(data: seq<byte>, position: nat, lead: byte, stringLength: string): (r: Decoded<(Token, nat)>)
    requires position <= |data| && Numerals.AllDigits(stringLength)
    ensures r.Ok? ==> position <= r.value.1 <= |data|
    decreases |data| - position, 2
  {
    if lead == LETTER_D then ReadDict(data, position)
    else if lead == LETTER_L then ReadList(data, position)
    else if lead == LETTER_I then ReadInteger(data, position)
    else DecodeString(data, position, stringLength)
  }

  /** `decode_list(data, position)`. */
  function ReadList(data: seq<byte>, position: nat): (r: Decoded<(Token, nat)>)
    requires position <= |data|
    ensures r.Ok? ==> position < r.value.1 <= |data|
    ensures !r.Undefined?
    decreases |data| - position, 1
  {
    match ReadStream(data, position, [], "")
    case Ok((tokens, newPosition)) => Ok((BList(tokens), newPosition))
    case Err(f) => Err(f)
    case _ => Threw
  }

  /** The dictionary `decode_dictionary` fills: each key token's text, in
      order, is put with the token after it. */
  function Pairs(tokens: seq<Token>): seq<(string, Token)>
    requires |tokens| % 2 == 0
  {
    if tokens == [] then []
    else Put(Pairs(tokens[..|tokens| - 2]), ToString(tokens[|tokens| - 2]), tokens[|tokens| - 1])
  }

  /** Two more tokens put one more key. */
  lemma PairsStep(tokens: seq<Token>, i: nat)
    requires |tokens| % 2 == 0 && i % 2 == 0 && i < |tokens|
    ensures i + 2 <= |tokens| && (i + 2) % 2 == 0
    ensures Pairs(tokens[..i + 2]) == Put(Pairs(tokens[..i]), ToString(tokens[i]), tokens[i + 1])
  {
    assert tokens[..i + 2][..i] == tokens[..i];
  }

  /** `decode_dictionary(data, position)`. */
  function ReadDict(data: seq<byte>, position: nat): (r: Decoded<(Token, nat)>)
    requires position <= |data|
    ensures r.Ok? ==> position < r.value.1 <= |data|
    ensures !r.Undefined?
    decreases |data| - position, 1
  {
    match ReadStream(data, position, [], "")
    case Ok((tokens, newPosition)) =>
      if |tokens| % 2 != 0 then Err(OddTokenCount(|tokens|))
      else Ok((BDict(Pairs(tokens)), newPosition))
    case Err(f) => Err(f)
    case _ => Threw
  }

  /** `validateEndOfStreamFunctor(data)` applied through `flatMap`; the
      `flatMap` of an `undefined` throws. */
  function ValidateEnd(data: seq<byte>, r: Decoded<(Token, nat)>): Decoded<Token> {
    match r
    case Ok((token, position)) =>
      if position != |data| then Err(TrailingBytes(position, |data|)) else Ok(token)
    case Err(f) => Err(f)
    case _ => Threw
  }

  /** `decode`'s loop from `position`: only digits may precede the first
      token, a ':' needs digits before it, and any other character is an
      error. Input made of digits only runs off the end of the function. */
  function ParseFrom(data: seq<byte>, position: nat, stringLength: string): Decoded<Token>
    requires Numerals.AllDigits(stringLength)
    decreases |data| - position
  {
    if position >= |data| then Undefined
    else
      var c := data[position];
      var next := position + 1;
      if IsDigitByte(c) then ParseFrom(data, next, stringLength + [c as char])
      else if IsLead(c) && (c != COLON || stringLength != "") then
        ValidateEnd(data, ReadToken(data, next, c, stringLength))
      else Err(InvalidToken(next))
  }

  /** `decode(data)` on a Buffer. */
  function Parse(data: seq<byte>): Decoded<Token> {
    if |data| == 0 then Err(NoData) else ParseFrom(data, 0, "")
  }

  // ---- The loops ----

  /** `decode_integer`. */
  method DecodeInteger(data: seq<byte>, position: nat) returns (r: Decoded<(Token, nat)>)
    ensures r == ReadInteger(data, position)
  {
    if position >= |data| {
      return Undefined;
    }
    var number: string := "";
    var current := position;
    while current < |data|
      invariant position <= current <= |data| && Numerals.AllDigits(number)
      invariant IntegerFrom(data, current, number) == ReadInteger(data, position)
      decreases |data| - current
    {
      var digit := data[current];
      current := current + 1;
      if IsDigitByte(digit) {
        number := number + [digit as char];
      } else if digit == LETTER_E {
        return Ok((BInt(ParseDigits(number)), current));
      } else {
        return Err(BadIntegerChar);
      }
    }
    r := Err(BadIntegerChar);
  }

  /** `decodeTokenStream(data, position, partial_result)`. */
  method DecodeTokenStream(data: seq<byte>, position: nat, partialResult: seq<Token>)
      returns (r: Decoded<(seq<Token>, nat)>)
    requires position <= |data|
    ensures r == ReadStream(data, position, partialResult, "")
    decreases |data| - position, 0
  {
    var stringLength: string := "";
    var current := position;
    var result := partialResult;
    while current < |data|
      invariant position <= current <= |data| && Numerals.AllDigits(stringLength)
      invariant ReadStream(data, current, result, stringLength) == ReadStream(data, position, partialResult, "")
      decreases |data| - current
    {
      var character := data[current];
      current := current + 1;
      if IsDigitByte(character) {
        stringLength := stringLength + [character as char];
      } else if character == LETTER_E {
        return Ok((result, current));
      } else if character == LETTER_D || character == LETTER_L || character == LETTER_I || character == COLON {
        var sub;
        if character == LETTER_D {
          sub := DecodeDictionary(data, current);
        } else if character == LETTER_L {
          sub := DecodeList(data, current);
        } else if character == LETTER_I {
          sub := DecodeInteger(data, current);
        } else {
          sub := DecodeString(data, current, stringLength);
        }
        match sub
        case Ok((token, newPosition)) =>
          r := DecodeTokenStream(data, newPosition, result + [token]);
          return;
        case Err(f) =>
          return Err(f);
        case _ =>
          return Threw;
      }
    }
    r := Err(UnexpectedEnd);
  }

  /** `decode_list`. */
  method DecodeList(data: seq<byte>, position: nat) returns (r: Decoded<(Token, nat)>)
    requires position <= |data|
    ensures r == ReadList(data, position)
    decreases |data| - position, 1
  {
    var eitherTokens := DecodeTokenStream(data, position, []);
    match eitherTokens
    case Ok((tokens, newPosition)) => r := Ok((BList(tokens), newPosition));
    case Err(f) => r := Err(f);
    case _ => r := Threw;
  }

  /** `decode_dictionary`: a fresh `BencodeDict` filled by `putContent`. */
  method DecodeDictionary(data: seq<byte>, position: nat) returns (r: Decoded<(Token, nat)>)
    requires position <= |data|
    ensures r == ReadDict(data, position)
    decreases |data| - position, 1
  {
    var dict := new BencodeDict([]);
    var eitherTokens := DecodeTokenStream(data, position, []);
    match eitherTokens
    case Ok((tokens, newPosition)) =>
      if |tokens| % 2 != 0 {
        return Err(OddTokenCount(|tokens|));
      }
      var i := 0;
      while i < |tokens|
        invariant 0 <= i <= |tokens| && i % 2 == 0
        invariant dict.value == Pairs(tokens[..i])
      {
        PairsStep(tokens, i);
        dict.PutContent(ToString(tokens[i]), JsTok(tokens[i + 1]));
        i := i + 2;
      }
      assert tokens[..i] == tokens;
      r := Ok((BDict(dict.value), newPosition));
    case Err(f) => r := Err(f);
    case _ => r := Threw;
  }

  /** `decode(data)`. A string argument is never converted: the helper that
      should turn it into a Buffer returns nothing, and reading `length` of
      the result throws. */
  method Decode(input: Input) returns (r: Decoded<Token>)
    ensures r == if input.FromString? then Threw else Parse(input.bytes)
  {
    if input.FromString? {
      return Threw;
    }
    var data := input.bytes;
    var position := 0;
    var stringLength: string := "";
    if |data| == 0 {
      return Err(NoData);
    }
    while position < |data|
      invariant position <= |data| && Numerals.AllDigits(stringLength)
      invariant ParseFrom(data, position, stringLength) == Parse(data)
      decreases |data| - position
    {
      var character := data[position];
      position := position + 1;
      if IsDigitByte(character) {
        stringLength := stringLength + [character as char];
      } else if character == LETTER_D {
        var d := DecodeDictionary(data, position);
        return ValidateEnd(data, d);
      } else if character == LETTER_L {
        var l := DecodeList(data, position);
        return ValidateEnd(data, l);
      } else if character == LETTER_I {
        var n := DecodeInteger(data, position);
        return ValidateEnd(data, n);
      } else if character == COLON && stringLength != "" {
        return ValidateEnd(data, DecodeString(data, position, stringLength));
      } else {
        return Err(InvalidToken(position));
      }
    }
    r := Undefined;
  }

  // ---- What decoding promises ----

  /** Every key token's text is put once: the decoded dictionary has each
      key once, as the JavaScript object behind it does. */
  lemma {:induction false} PairsDistinct(tokens: seq<Token>)
    requires |tokens| % 2 == 0
    ensures DistinctKeys(Pairs(tokens))
    decreases |tokens|
  {
    if tokens != [] {
      PairsDistinct(tokens[..|tokens| - 2]);
      PutKeys(Pairs(tokens[..|tokens| - 2]), ToString(tokens[|tokens| - 2]), tokens[|tokens| - 1]);
    }
  }

  /** The tokens an encoder writes and this decoder reads back: integers
      without a sign that a double holds exactly, so that the template
      literal prints every digit and `parseInt` reads them back, and
      dictionaries whose keys are already in `keys.sort()` order, each
      once, none `__proto__`, each short enough that its `toString` is the
      whole key. */
  predicate Encodable(t: Token)
    decreases t, 0
  {
    match t
    case BInt(number) => number.Integer? && 0 <= number.n <= MAX_SAFE_INTEGER
    case BString(_) => true
    case BList(items) => AllEncodable(items)
    case BDict(e) =>
      && StrictlySorted(e)
      && KeysEncodable(e)
      && EntriesEncodable(e)
  }

  /** Keys whose text survives the round trip: short enough for
      `toString` to print in full, and not `__proto__`. */
  predicate KeysEncodable(e: seq<(string, Token)>) {
    forall i :: 0 <= i < |e| ==> |Utf8.Encode(e[i].0)| <= 255 && e[i].0 != PROTO
  }

  predicate AllEncodable(items: seq<Token>)
    decreases items, 0
  {
    items == [] || (Encodable(items[0]) && AllEncodable(items[1..]))
  }

  predicate EntriesEncodable(e: seq<(string, Token)>)
    decreases e, 0
  {
    forall i :: 0 <= i < |e| ==> (assert e[i] in e && e[i].1 < e[i]; Encodable(e[i].1))
  }

  /** The token stream a dictionary's pairs are written as: each key as a
      byte string, then its value. */
  function FlattenPairs(s: seq<(string, Token)>): (r: seq<Token>)
    ensures |r| == 2 * |s|
  {
    if s == [] then [] else [BString(Utf8.Encode(s[0].0)), s[0].1] + FlattenPairs(s[1..])
  }

  /** `w` sits in `data` at `p`. */
  predicate At(data: seq<byte>, p: nat, w: seq<byte>) {
    p + |w| <= |data| && data[p..p + |w|] == w
  }

  lemma AtSplit(data: seq<byte>, p: nat, u: seq<byte>, v: seq<byte>)
    requires At(data, p, u + v)
    ensures At(data, p, u) && At(data, p + |u|, v)
  {
    assert data[p..p + |u|] == (u + v)[..|u|] == u;
    assert data[p + |u|..p + |u| + |v|] == (u + v)[|u|..] == v;
  }

  /** The digits `ds` sit in `data` at `p`, one byte each. */
  predicate DigitsAt(data: seq<byte>, p: nat, ds: string) {
    && Numerals.AllDigits(ds)
    && p + |ds| <= |data|
    && forall i :: 0 <= i < |ds| ==> data[p + i] == ds[i] as int
  }

  /** Digits are ASCII, so their UTF-8 form is one byte each. */
  lemma EncodedDigits(data: seq<byte>, p: nat, ds: string)
    requires Numerals.AllDigits(ds) && At(data, p, Utf8.Encode(ds))
    ensures |Utf8.Encode(ds)| == |ds| && DigitsAt(data, p, ds)
  {
    Utf8.EncodeAscii(ds);
    forall i | 0 <= i < |ds| ensures data[p + i] == ds[i] as int {
      assert data[p + i] == data[p..p + |ds|][i];
    }
  }

  lemma {:induction false} StreamDigits(data: seq<byte>, p: nat, ds: string, result: seq<Token>, len: string)
    requires DigitsAt(data, p, ds) && Numerals.AllDigits(len)
    ensures ReadStream(data, p, result, len) == ReadStream(data, p + |ds|, result, len + ds)
    decreases |ds|
  {
    if ds == [] {
      assert len + ds == len;
    } else {
      assert data[p] == ds[0] as int;
      assert DigitsAt(data, p + 1, ds[1..]) by {
        forall i | 0 <= i < |ds[1..]| ensures data[p + 1 + i] == ds[1..][i] as int {
          assert data[p + (i + 1)] == ds[i + 1] as int;
        }
      }
      StreamDigits(data, p + 1, ds[1..], result, len + [ds[0]]);
      assert len + [ds[0]] + ds[1..] == len + ds;
    }
  }

  lemma {:induction false} ParseDigitsLoop(data: seq<byte>, p: nat, ds: string, len: string)
    requires DigitsAt(data, p, ds) && Numerals.AllDigits(len)
    ensures ParseFrom(data, p, len) == ParseFrom(data, p + |ds|, len + ds)
    decreases |ds|
  {
    if ds == [] {
      assert len + ds == len;
    } else {
      assert data[p] == ds[0] as int;
      assert DigitsAt(data, p + 1, ds[1..]) by {
        forall i | 0 <= i < |ds[1..]| ensures data[p + 1 + i] == ds[1..][i] as int {
          assert data[p + (i + 1)] == ds[i + 1] as int;
        }
      }
      ParseDigitsLoop(data, p + 1, ds[1..], len + [ds[0]]);
      assert len + [ds[0]] + ds[1..] == len + ds;
    }
  }

  /** The digits before a token, from a fresh start. */
  lemma StreamDigitsFresh(data: seq<byte>, p: nat, ds: string, result: seq<Token>)
    requires DigitsAt(data, p, ds)
    ensures ReadStream(data, p, result, "") == ReadStream(data, p + |ds|, result, ds)
  {
    StreamDigits(data, p, ds, result, "");
    assert "" + ds == ds;
  }

  lemma ParseDigitsFresh(data: seq<byte>, ds: string)
    requires DigitsAt(data, 0, ds)
    ensures ParseFrom(data, 0, "") == ParseFrom(data, |ds|, ds)
  {
    ParseDigitsLoop(data, 0, ds, "");
    assert "" + ds == ds;
  }

  lemma IntegerDigitsFresh(data: seq<byte>, p: nat, ds: string)
    requires DigitsAt(data, p, ds)
    ensures IntegerFrom(data, p, "") == IntegerFrom(data, p + |ds|, ds)
  {
    IntegerDigits(data, p, ds, "");
    assert "" + ds == ds;
  }

  lemma {:induction false} IntegerDigits(data: seq<byte>, p: nat, ds: string, number: string)
    requires DigitsAt(data, p, ds) && Numerals.AllDigits(number)
    ensures IntegerFrom(data, p, number) == IntegerFrom(data, p + |ds|, number + ds)
    decreases |ds|
  {
    if ds == [] {
      assert number + ds == number;
    } else {
      assert data[p] == ds[0] as int;
      assert DigitsAt(data, p + 1, ds[1..]) by {
        forall i | 0 <= i < |ds[1..]| ensures data[p + 1 + i] == ds[1..][i] as int {
          assert data[p + (i + 1)] == ds[i + 1] as int;
        }
      }
      IntegerDigits(data, p + 1, ds[1..], number + [ds[0]]);
      assert number + [ds[0]] + ds[1..] == number + ds;
    }
  }

  /** An encoded byte string starts with its length digits and a ':'. */
  lemma StringHeader(data: seq<byte>, p: nat, b: seq<byte>)
    requires At(data, p, EncodeString(b))
    ensures var ds := Numerals.NatToDecimal(|b|);
      && DigitsAt(data, p, ds)
      && data[p + |ds|] == COLON
      && |EncodeString(b)| == |ds| + 1 + |b|
      && At(data, p + |ds| + 1, b)
      && ds != [] && Numerals.DecimalValue(ds) == |b|
  {
    var ds := Numerals.NatToDecimal(|b|);
    assert EncodeString(b) == Utf8.Encode(ds) + [COLON] + b;
    DigitsColon(data, p, ds, b);
    Numerals.DecimalValueOfNatToDecimal(|b|);
  }

  /** Digits, a ':' and `b`, encoded, sit in `data` a byte per digit. */
  lemma DigitsColon(data: seq<byte>, p: nat, ds: string, b: seq<byte>)
    requires Numerals.AllDigits(ds) && At(data, p, Utf8.Encode(ds) + [COLON] + b)
    ensures DigitsAt(data, p, ds) && p + |ds| < |data| && data[p + |ds|] == COLON
    ensures |Utf8.Encode(ds) + [COLON] + b| == |ds| + 1 + |b| && At(data, p + |ds| + 1, b)
  {
    ColonSplit(data, p, Utf8.Encode(ds), b);
    EncodedDigits(data, p, ds);
  }

  /** `u`, a ':' and `v` in a row sit in `data` one after the other. */
  lemma ColonSplit(data: seq<byte>, p: nat, u: seq<byte>, v: seq<byte>)
    requires At(data, p, u + [COLON] + v)
    ensures At(data, p, u) && p + |u| < |data| && data[p + |u|] == COLON && At(data, p + |u| + 1, v)
  {
    AtSplit(data, p, u + [COLON], v);
    AtSplit(data, p, u, [COLON]);
    assert data[p + |u|] == data[p + |u|..p + |u| + 1][0];
  }

  /** After the ':', `decode_string` reads exactly the bytes the digits
      announce. */
  lemma StringBody(data: seq<byte>, q: nat, b: seq<byte>, ds: string, next: nat)
    requires Numerals.AllDigits(ds) && ds != [] && Numerals.DecimalValue(ds) == |b|
    requires At(data, q, b) && next == q + |b|
    ensures ReadToken(data, q, COLON, ds) == Ok((BString(b), next))
  {
    assert Slice(data, q, next) == data[q..next] == b;
  }

  /** One step of a stream: a token starts at `q` and is read. */
  lemma StreamStep(data: seq<byte>, q: nat, lead: byte, result: seq<Token>, len: string, token: Token, next: nat)
    requires q < |data| && data[q] == lead && IsLead(lead) && Numerals.AllDigits(len)
    requires ReadToken(data, q + 1, lead, len) == Ok((token, next))
    ensures ReadStream(data, q, result, len) == ReadStream(data, next, result + [token], "")
  {
  }

  /** The stream ends at an 'e'. */
  lemma StreamEnd(data: seq<byte>, q: nat, result: seq<Token>)
    requires q < |data| && data[q] == LETTER_E
    ensures ReadStream(data, q, result, "") == Ok((result, q + 1))
  {
  }

  lemma StringInStream(data: seq<byte>, p: nat, b: seq<byte>, result: seq<Token>)
    requires At(data, p, EncodeString(b))
    ensures ReadStream(data, p, result, "") == ReadStream(data, p + |EncodeString(b)|, result + [BString(b)], "")
  {
    var ds := Numerals.NatToDecimal(|b|);
    StringHeader(data, p, b);
    var next := p + |ds| + 1 + |b|;
    assert p + |EncodeString(b)| == next;
    StringStream(data, p, ds, b, next, result);
  }

  /** Digits, a ':' and as many bytes as the digits say, inside a stream:
      the stream reads them as one byte string. */
  lemma StringStream(data: seq<byte>, p: nat, ds: string, b: seq<byte>, next: nat, result: seq<Token>)
    requires DigitsAt(data, p, ds) && p + |ds| < |data| && data[p + |ds|] == COLON
    requires ds != [] && Numerals.DecimalValue(ds) == |b| && At(data, p + |ds| + 1, b)
    requires next == p + |ds| + 1 + |b|
    ensures ReadStream(data, p, result, "") == ReadStream(data, next, result + [BString(b)], "")
  {
    var q := p + |ds|;
    StringBody(data, q + 1, b, ds, next);
    StreamDigitsFresh(data, p, ds, result);
    StreamStep(data, q, COLON, result, ds, BString(b), next);
  }

  /** An encoded integer, list or dictionary: its lead byte, after which the
      token is read up to its end. */
  lemma {:induction false} TokenRead(data: seq<byte>, p: nat, t: Token, next: nat)
    requires Encodable(t) && !t.BString? && At(data, p, Encode(t)) && next == p + |Encode(t)|
    ensures p + 1 <= |data| && IsLead(data[p]) && data[p] != COLON
    ensures ReadToken(data, p + 1, data[p], "") == Ok((t, next))
    decreases Height(t), 1, 0
  {
    match t
    case BInt(number) => IntegerRead(data, p, number.n);
    case BList(items) => ListRead(data, p, items);
    case BDict(e) =>
      DictEncoding(e);
      DictRead(data, p, e, next);
  }

  lemma IntegerRead(data: seq<byte>, p: nat, n: nat)
    requires At(data, p, Encode(BInt(Integer(n))))
    ensures p + 1 <= |data| && data[p] == LETTER_I
    ensures ReadToken(data, p + 1, data[p], "") == Ok((BInt(Integer(n)), p + |Encode(BInt(Integer(n)))|))
  {
    var ds := Numerals.NatToDecimal(n);
    IntegerHeader(data, p, n);
    IntegerTail(data, p + 1, data[p], ds, n, p + |Encode(BInt(Integer(n)))|);
  }

  /** Digits and an 'e' after the 'i': the integer they spell. */
  lemma IntegerTail(data: seq<byte>, q: nat, lead: byte, ds: string, n: nat, next: nat)
    requires DigitsAt(data, q, ds) && ds != [] && Numerals.DecimalValue(ds) == n && lead == LETTER_I
    requires q + |ds| < |data| && data[q + |ds|] == LETTER_E && next == q + |ds| + 1
    ensures ReadToken(data, q, lead, "") == Ok((BInt(Integer(n)), next))
  {
    IntegerDigitsFresh(data, q, ds);
    IntegerEnd(data, q + |ds|, ds);
    IntegerStart(data, q);
  }

  /** An encoded integer: 'i', its digits, 'e'. */
  lemma IntegerHeader(data: seq<byte>, p: nat, n: nat)
    requires At(data, p, Encode(BInt(Integer(n))))
    ensures var ds := Numerals.NatToDecimal(n);
      && data[p] == LETTER_I
      && DigitsAt(data, p + 1, ds)
      && |Encode(BInt(Integer(n)))| == |ds| + 2
      && p + |ds| + 2 <= |data|
      && data[p + 1 + |ds|] == LETTER_E
      && ds != [] && Numerals.DecimalValue(ds) == n
  {
    var ds := Numerals.NatToDecimal(n);
    Numerals.DecimalValueOfNatToDecimal(n);
    var w := Encode(BInt(Integer(n)));
    assert w == [LETTER_I] + Utf8.Encode(ds) + [LETTER_E];
    AtSplit(data, p, [LETTER_I] + Utf8.Encode(ds), [LETTER_E]);
    AtSplit(data, p, [LETTER_I], Utf8.Encode(ds));
    assert data[p] == data[p..p + 1][0];
    EncodedDigits(data, p + 1, ds);
    var q := p + 1 + |ds|;
    assert data[q] == data[q..q + 1][0];
  }

  lemma IntegerStart(data: seq<byte>, q: nat)
    requires q < |data|
    ensures ReadToken(data, q, LETTER_I, "") == IntegerFrom(data, q, "")
  {
  }

  lemma IntegerEnd(data: seq<byte>, q: nat, ds: string)
    requires q < |data| && data[q] == LETTER_E && Numerals.AllDigits(ds) && ds != []
    ensures IntegerFrom(data, q, ds) == Ok((BInt(Integer(Numerals.DecimalValue(ds))), q + 1))
  {
  }

  /** An encoded list: 'l', its items, 'e'. */
  lemma {:induction false} ListRead(data: seq<byte>, p: nat, items: seq<Token>)
    requires AllEncodable(items) && At(data, p, Encode(BList(items)))
    ensures p + 1 <= |data| && data[p] == LETTER_L
    ensures ReadToken(data, p + 1, data[p], "") == Ok((BList(items), p + |Encode(BList(items))|))
    decreases Height(BList(items)), 0, 1
  {
    assert Height(BList(items)) == 1 + MaxHeight(items);
    assert Encode(BList(items)) == [LETTER_L] + EncodeAll(items) + [LETTER_E];
    ListBodyRead(data, p, items, p + |Encode(BList(items))|);
  }

  /** 'l', the items' encodings, 'e': the list is read up to the 'e'. */
  lemma {:induction false} ListBodyRead(data: seq<byte>, p: nat, items: seq<Token>, next: nat)
    requires AllEncodable(items) && MaxHeight(items) < Height(BList(items))
    requires At(data, p, [LETTER_L] + EncodeAll(items) + [LETTER_E]) && next == p + |EncodeAll(items)| + 2
    ensures p + 1 <= |data| && data[p] == LETTER_L
    ensures ReadToken(data, p + 1, data[p], "") == Ok((BList(items), next))
    decreases Height(BList(items)), 0, 0
  {
    var body := EncodeAll(items);
    Enclosed(data, p, LETTER_L, body, LETTER_E);
    ItemsFromStart(data, p + 1, items);
    ListClose(data, p + 1, data[p], items, p + 1 + |body|, next);
  }

  lemma {:induction false} ItemsFromStart(data: seq<byte>, q: nat, items: seq<Token>)
    requires AllEncodable(items) && At(data, q, EncodeAll(items))
    ensures ReadStream(data, q, [], "") == ReadStream(data, q + |EncodeAll(items)|, items, "")
    decreases MaxHeight(items), 4, 0
  {
    ItemsInStream(data, q, items, []);
    assert [] + items == items;
  }

  lemma ListClose(data: seq<byte>, q: nat, lead: byte, items: seq<Token>, end: nat, next: nat)
    requires q <= end < |data| && data[end] == LETTER_E && lead == LETTER_L && next == end + 1
    requires ReadStream(data, q, [], "") == ReadStream(data, end, items, "")
    ensures ReadToken(data, q, lead, "") == Ok((BList(items), next))
  {
    StreamEnd(data, end, items);
    ListStep(data, q, items, next);
  }

  /** An encoded dictionary: 'd', the flat stream of its keys and values,
      'e'. */
  lemma {:induction false} DictRead(data: seq<byte>, p: nat, e: seq<(string, Token)>, next: nat)
    requires Encodable(BDict(e)) && At(data, p, [LETTER_D] + EncodeAll(FlattenPairs(e)) + [LETTER_E])
    requires next == p + |EncodeAll(FlattenPairs(e))| + 2
    ensures p + 1 <= |data| && data[p] == LETTER_D
    ensures ReadToken(data, p + 1, data[p], "") == Ok((BDict(e), next))
    decreases Height(BDict(e)), 0, 2
  {
    DictFacts(e);
    FlatDictAt(data, p, FlattenPairs(e), Height(BDict(e)), next);
  }

  /** A flat stream of keys and values between 'd' and 'e' is read as the
      dictionary its pairs put. */
  lemma {:induction false} FlatDictAt(data: seq<byte>, p: nat, flat: seq<Token>, h: nat, next: nat)
    requires At(data, p, [LETTER_D] + EncodeAll(flat) + [LETTER_E]) && next == p + |EncodeAll(flat)| + 2
    requires AllEncodable(flat) && MaxHeight(flat) < h && |flat| % 2 == 0
    ensures p + 1 <= |data| && data[p] == LETTER_D
    ensures ReadToken(data, p + 1, data[p], "") == Ok((BDict(Pairs(flat)), next))
    decreases h, 0, 1
  {
    Enclosed(data, p, LETTER_D, EncodeAll(flat), LETTER_E);
    DictBodyRead(data, p, flat, h, next);
  }

  /** 'd', the flat stream of a dictionary's keys and values, 'e': the
      dictionary is read up to the 'e'. */
  lemma {:induction false} DictBodyRead(data: seq<byte>, p: nat, flat: seq<Token>, h: nat, next: nat)
    requires AllEncodable(flat) && MaxHeight(flat) < h && |flat| % 2 == 0
    requires At(data, p + 1, EncodeAll(flat)) && next == p + |EncodeAll(flat)| + 2
    requires next <= |data| && data[next - 1] == LETTER_E
    ensures ReadToken(data, p + 1, LETTER_D, "") == Ok((BDict(Pairs(flat)), next))
    decreases h, 0, 0
  {
    ItemsFromStart(data, p + 1, flat);
    DictClose(data, p + 1, LETTER_D, Pairs(flat), flat, next - 1, next);
  }

  /** A sorted dictionary is written as 'd', the flat stream of its keys and
      values, 'e'. */
  lemma DictEncoding(e: seq<(string, Token)>)
    requires StrictlySorted(e)
    ensures Encode(BDict(e)) == [LETTER_D] + EncodeAll(FlattenPairs(e)) + [LETTER_E]
  {
    SortedFlat(e);
  }

  lemma DictFacts(e: seq<(string, Token)>)
    requires Encodable(BDict(e))
    ensures AllEncodable(FlattenPairs(e)) && MaxHeight(FlattenPairs(e)) < Height(BDict(e))
    ensures |FlattenPairs(e)| % 2 == 0 && Pairs(FlattenPairs(e)) == e
  {
    FlattenEven(e);
    FlattenEncodable(e);
    FlattenHeight(e);
    PairsOfFlatten(e);
  }

  lemma FlattenEven(e: seq<(string, Token)>)
    ensures |FlattenPairs(e)| % 2 == 0
  {
    var k := |FlattenPairs(e)|;
    assert k == 2 * |e|;
  }

  /** A sorted dictionary's pairs are written in their own order, as the flat
      stream of its keys and values. */
  lemma SortedFlat(e: seq<(string, Token)>)
    requires StrictlySorted(e)
    ensures EncodeEntries(e, KeyOrder.Order(Keys(e))) == EncodeAll(FlattenPairs(e))
  {
    var ord := KeyOrder.Order(Keys(e));
    KeyOrder.OrderOfSorted(Keys(e));
    EncodeEntriesFlat(e, ord);
    assert Arrange(e, ord) == e;
  }

  lemma DictClose(data: seq<byte>, q: nat, lead: byte, e: seq<(string, Token)>, tokens: seq<Token>, end: nat, next: nat)
    requires q <= end < |data| && data[end] == LETTER_E && lead == LETTER_D && next == end + 1
    requires ReadStream(data, q, [], "") == ReadStream(data, end, tokens, "")
    requires |tokens| % 2 == 0 && Pairs(tokens) == e
    ensures ReadToken(data, q, lead, "") == Ok((BDict(e), next))
  {
    StreamEnd(data, end, tokens);
    DictStep(data, q, e, tokens, next);
  }

  lemma Enclosed(data: seq<byte>, p: nat, open: byte, body: seq<byte>, close: byte)
    requires At(data, p, [open] + body + [close])
    ensures p + |body| + 2 <= |data|
    ensures data[p] == open && At(data, p + 1, body) && data[p + 1 + |body|] == close
  {
    AtSplit(data, p, [open] + body, [close]);
    AtSplit(data, p, [open], body);
    assert data[p] == data[p..p + 1][0];
    var q := p + 1 + |body|;
    assert data[q] == data[q..q + 1][0];
  }

  lemma ListStep(data: seq<byte>, q: nat, items: seq<Token>, end: nat)
    requires q <= |data|
    requires ReadStream(data, q, [], "") == Ok((items, end))
    ensures ReadToken(data, q, LETTER_L, "") == Ok((BList(items), end))
  {
  }

  lemma DictStep(data: seq<byte>, q: nat, e: seq<(string, Token)>, tokens: seq<Token>, end: nat)
    requires q <= |data|
    requires ReadStream(data, q, [], "") == Ok((tokens, end))
    requires |tokens| % 2 == 0 && Pairs(tokens) == e
    ensures ReadToken(data, q, LETTER_D, "") == Ok((BDict(e), end))
  {
  }

  /** Inside a stream, an encoded token is read and the stream goes on right
      after it. */
  lemma {:induction false} TokenInStream(data: seq<byte>, p: nat, t: Token, result: seq<Token>)
    requires Encodable(t) && At(data, p, Encode(t))
    ensures ReadStream(data, p, result, "") == ReadStream(data, p + |Encode(t)|, result + [t], "")
    decreases Height(t), 2, 0
  {
    if t.BString? {
      StringInStream(data, p, t.bytes, result);
    } else {
      NestedInStream(data, p, t, result);
    }
  }

  /** A number, list or dictionary is read whole at its lead character. */
  lemma {:induction false} NestedInStream(data: seq<byte>, p: nat, t: Token, result: seq<Token>)
    requires Encodable(t) && !t.BString? && At(data, p, Encode(t))
    ensures ReadStream(data, p, result, "") == ReadStream(data, p + |Encode(t)|, result + [t], "")
    decreases Height(t), 1, 1
  {
    var next := p + |Encode(t)|;
    TokenRead(data, p, t, next);
    StreamStep(data, p, data[p], result, "", t, next);
  }

  lemma {:induction false} ItemsInStream(data: seq<byte>, p: nat, items: seq<Token>, result: seq<Token>)
    requires AllEncodable(items) && At(data, p, EncodeAll(items))
    ensures ReadStream(data, p, result, "") == ReadStream(data, p + |EncodeAll(items)|, result + items, "")
    decreases MaxHeight(items), 3, |items|
  {
    if items == [] {
      assert result + items == result;
    } else {
      var mid := p + |Encode(items[0])|;
      var end := p + |EncodeAll(items)|;
      ItemsHead(items);
      AtSplit(data, p, Encode(items[0]), EncodeAll(items[1..]));
      ItemsInStream(data, mid, items[1..], result + [items[0]]);
      assert mid + |EncodeAll(items[1..])| == end;
      ItemsLink(data, p, items, result, mid, end);
    }
  }

  /** The first item is read, and the stream goes on as it does after it. */
  lemma {:induction false} ItemsLink(data: seq<byte>, p: nat, items: seq<Token>, result: seq<Token>, mid: nat, end: nat)
    requires items != [] && Encodable(items[0]) && At(data, p, Encode(items[0])) && mid == p + |Encode(items[0])|
    requires Height(items[0]) <= MaxHeight(items) && end <= |data|
    requires ReadStream(data, mid, result + [items[0]], "") == ReadStream(data, end, result + [items[0]] + items[1..], "")
    ensures ReadStream(data, p, result, "") == ReadStream(data, end, result + items, "")
    decreases MaxHeight(items), 3, 0
  {
    TokenInStream(data, p, items[0], result);
    ItemsAppend(result, items);
  }

  lemma ItemsHead(items: seq<Token>)
    requires items != [] && AllEncodable(items)
    ensures Encodable(items[0]) && AllEncodable(items[1..])
    ensures Height(items[0]) <= MaxHeight(items) && MaxHeight(items[1..]) <= MaxHeight(items)
    ensures EncodeAll(items) == Encode(items[0]) + EncodeAll(items[1..])
  {
  }

  lemma ItemsAppend(result: seq<Token>, items: seq<Token>)
    requires items != []
    ensures result + [items[0]] + items[1..] == result + items
  {
    assert [items[0]] + items[1..] == items;
  }

  /** How deeply a token nests lists and dictionaries: the measure the
      round-trip proofs descend on, since a dictionary's pairs are read as a
      flat stream of keys and values. */
  function Height(t: Token): nat
    decreases t, 1
  {
    match t
    case BList(items) => 1 + MaxHeight(items)
    case BDict(e) => 1 + ValuesHeight(e)
    case _ => 0
  }

  function MaxHeight(items: seq<Token>): nat
    decreases items, 0
  {
    if items == [] then 0
    else
      assert items[0] in items;
      var h := Height(items[0]);
      var rest := MaxHeight(items[1..]);
      if h < rest then rest else h
  }

  function ValuesHeight(e: seq<(string, Token)>): nat
    decreases e, 0
  {
    if e == [] then 0
    else
      assert e[0] in e && e[0].1 < e[0];
      var h := Height(e[0].1);
      var rest := ValuesHeight(e[1..]);
      if h < rest then rest else h
  }

  /** A dictionary's flat stream of keys and values nests no deeper than its
      values. */
  lemma {:induction false} FlattenHeight(e: seq<(string, Token)>)
    ensures MaxHeight(FlattenPairs(e)) == ValuesHeight(e)
  {
    if e != [] {
      var f := FlattenPairs(e);
      assert f[1..][1..] == FlattenPairs(e[1..]);
      FlattenHeight(e[1..]);
    }
  }

  /** The pairs at positions `ord` are written as the flat stream of their
      keys and values. */
  lemma {:induction false} EncodeEntriesFlat(e: seq<(string, Token)>, ord: seq<nat>)
    requires forall k :: 0 <= k < |ord| ==> ord[k] < |e|
    ensures EncodeEntries(e, ord) == EncodeAll(FlattenPairs(Arrange(e, ord)))
    decreases |ord|
  {
    if ord != [] {
      var pair := e[ord[0]];
      FlattenArrangeStep(e, ord);
      EncodeAllPair(Utf8.Encode(pair.0), pair.1, FlattenPairs(Arrange(e, ord[1..])));
      EncodeEntriesFlat(e, ord[1..]);
    }
  }

  lemma FlattenArrangeStep(e: seq<(string, Token)>, ord: seq<nat>)
    requires ord != [] && forall k :: 0 <= k < |ord| ==> ord[k] < |e|
    ensures FlattenPairs(Arrange(e, ord))
         == [BString(Utf8.Encode(e[ord[0]].0)), e[ord[0]].1] + FlattenPairs(Arrange(e, ord[1..]))
  {
    var a := Arrange(e, ord);
    assert a[1..] == Arrange(e, ord[1..]);
  }

  lemma EncodeAllPair(k: seq<byte>, v: Token, rest: seq<Token>)
    ensures EncodeAll([BString(k), v] + rest) == EncodeString(k) + Encode(v) + EncodeAll(rest)
  {
    var s := [BString(k), v] + rest;
    assert s[1..] == [v] + rest;
    assert s[1..][1..] == rest;
  }

  lemma {:induction false} FlattenEncodable(e: seq<(string, Token)>)
    requires EntriesEncodable(e)
    ensures AllEncodable(FlattenPairs(e))
  {
    if e != [] {
      assert EntriesEncodable(e[1..]) by {
        forall i | 0 <= i < |e[1..]| ensures Encodable(e[1..][i].1) {
          assert e[1..][i] == e[i + 1];
        }
      }
      FlattenEncodable(e[1..]);
      var f := FlattenPairs(e);
      assert f[1..][1..] == FlattenPairs(e[1..]);
      assert Encodable(e[0].1);
      assert f[1..][0] == e[0].1;
      assert AllEncodable(f[1..]);
    }
  }

  lemma {:induction false} FlattenAppend(s: seq<(string, Token)>, p: (string, Token))
    ensures FlattenPairs(s + [p]) == FlattenPairs(s) + [BString(Utf8.Encode(p.0)), p.1]
    decreases |s|
  {
    if s != [] {
      assert (s + [p])[1..] == s[1..] + [p];
      FlattenAppend(s[1..], p);
    } else {
      assert s + [p] == [p];
    }
  }

  /** Putting back the pairs of a sorted dictionary, key text by key text,
      rebuilds it. */
  lemma {:induction false} PairsOfFlatten(e: seq<(string, Token)>)
    requires StrictlySorted(e) && KeysEncodable(e)
    ensures Pairs(FlattenPairs(e)) == e
    decreases |e|
  {
    if e != [] {
      var front := e[..|e| - 1];
      var last := e[|e| - 1];
      assert e == front + [last];
      FlattenAppend(front, last);
      var f := FlattenPairs(e);
      assert f[..|f| - 2] == FlattenPairs(front);
      SortedFront(e);
      PairsOfFlatten(front);
      ToStringOfKey(last.0);
      PutNew(front, last.0, last.1);
    }
  }

  /** Dropping the last pair keeps a list sorted and its keys encodable, and
      the last key is new and encodable. */
  lemma SortedFront(e: seq<(string, Token)>)
    requires e != [] && StrictlySorted(e) && KeysEncodable(e)
    ensures StrictlySorted(e[..|e| - 1]) && KeysEncodable(e[..|e| - 1])
    ensures e[|e| - 1].0 !in Keys(e[..|e| - 1]) && e[|e| - 1].0 != PROTO
    ensures |Utf8.Encode(e[|e| - 1].0)| <= 255
  {
    KeyOrder.KeyIrreflexive(e[|e| - 1].0);
  }

  /** Input that starts with an encoded token decodes to it exactly when
      nothing follows. */
  lemma {:induction false} ParsePrefix(data: seq<byte>, t: Token)
    requires Encodable(t) && At(data, 0, Encode(t))
    ensures Parse(data) == ValidateEnd(data, Ok((t, |Encode(t)|)))
  {
    if t.BString? {
      StringPrefix(data, t.bytes);
    } else {
      TokenPrefix(data, t, |Encode(t)|);
    }
  }

  lemma TokenPrefix(data: seq<byte>, t: Token, next: nat)
    requires Encodable(t) && !t.BString? && At(data, 0, Encode(t)) && next == |Encode(t)|
    ensures Parse(data) == ValidateEnd(data, Ok((t, next)))
  {
    TokenRead(data, 0, t, next);
    ParseToken(data, data[0], t, next);
  }

  /** `decode` meets a token's lead character first and reads the token. */
  lemma ParseToken(data: seq<byte>, lead: byte, token: Token, next: nat)
    requires 0 < |data| && data[0] == lead && IsLead(lead) && lead != COLON
    requires ReadToken(data, 1, lead, "") == Ok((token, next))
    ensures Parse(data) == ValidateEnd(data, Ok((token, next)))
  {
    ParseStep(data, 0, "");
  }

  lemma StringPrefix(data: seq<byte>, b: seq<byte>)
    requires At(data, 0, EncodeString(b))
    ensures Parse(data) == ValidateEnd(data, Ok((BString(b), |EncodeString(b)|)))
  {
    var ds := Numerals.NatToDecimal(|b|);
    StringHeader(data, 0, b);
    StringBody(data, |ds| + 1, b, ds, |EncodeString(b)|);
    LengthThenColon(data, ds);
  }

  /** Digits, then a ':', at the start of the input: `decode` reads a string
      of that length from the byte after the ':'. */
  lemma LengthThenColon(data: seq<byte>, ds: string)
    requires DigitsAt(data, 0, ds) && ds != [] && |ds| < |data| && data[|ds|] == COLON
    ensures Parse(data) == ValidateEnd(data, ReadToken(data, |ds| + 1, COLON, ds))
  {
    ParseDigitsFresh(data, ds);
    ParseStep(data, |ds|, ds);
  }

  /** One step of `decode` at a token's lead character. */
  lemma ParseStep(data: seq<byte>, q: nat, len: string)
    requires q < |data| && IsLead(data[q]) && Numerals.AllDigits(len) && (data[q] != COLON || len != "")
    ensures ParseFrom(data, q, len) == ValidateEnd(data, ReadToken(data, q + 1, data[q], len))
  {
  }

  /** `decode(encode(t))` is `t` for every encodable token. */
  lemma DecodeEncode(t: Token)
    requires Encodable(t)
    ensures Parse(Encode(t)) == Ok(t)
  {
    var data := Encode(t);
    assert data[0..|data|] == data;
    ParsePrefix(data, t);
  }

  /** Bytes after a complete token are rejected. */
  lemma TrailingBytesRejected(t: Token, rest: seq<byte>)
    requires Encodable(t) && rest != []
    ensures Parse(Encode(t) + rest) == Err(TrailingBytes(|Encode(t)|, |Encode(t)| + |rest|))
  {
    var data := Encode(t) + rest;
    assert data[0..|Encode(t)|] == Encode(t);
    ParsePrefix(data, t);
  }

  /** A dictionary whose only key is `__proto__` decodes to a dictionary
      without keys, and so encodes back as `de`: `putContent` assigns the
      key, which runs the prototype setter instead of adding it. */
  lemma ProtoKeyDropped()
    ensures var flat := [BString(Utf8.Encode(PROTO)), BInt(Integer(1))];
      && Parse([LETTER_D] + EncodeAll(flat) + [LETTER_E]) == Ok(BDict([]))
      && Encode(BDict([])) == [LETTER_D, LETTER_E]
  {
    var flat := [BString(Utf8.Encode(PROTO)), BInt(Integer(1))];
    ProtoPairs(flat);
    PairFlat(flat, Utf8.Encode(PROTO), 1);
    var data := [LETTER_D] + EncodeAll(flat) + [LETTER_E];
    assert At(data, 0, data);
    FlatDictParse(data, flat, 1);
    DictEncoding([]);
    assert FlattenPairs([]) == [];
  }

  /** A flat stream of keys and values between 'd' and 'e' decodes to the
      dictionary its pairs put. */
  lemma FlatDictParse(data: seq<byte>, flat: seq<Token>, h: nat)
    requires AllEncodable(flat) && MaxHeight(flat) < h && |flat| % 2 == 0
    requires At(data, 0, [LETTER_D] + EncodeAll(flat) + [LETTER_E]) && |data| == |EncodeAll(flat)| + 2
    ensures Parse(data) == Ok(BDict(Pairs(flat)))
  {
    FlatDictAt(data, 0, flat, h, |data|);
    ParseToken(data, LETTER_D, BDict(Pairs(flat)), |data|);
  }

  /** The key token's text is `__proto__`, so the pair puts nothing. */
  lemma ProtoPairs(flat: seq<Token>)
    requires flat == [BString(Utf8.Encode(PROTO)), BInt(Integer(1))]
    ensures Pairs(flat) == []
  {
    assert |Utf8.Encode(PROTO)| <= 255;
    ToStringOfKey(PROTO);
    assert flat[..0] == [];
  }

  /** A key and a small integer are encodable and nest nothing. */
  lemma PairFlat(flat: seq<Token>, key: seq<byte>, n: nat)
    requires flat == [BString(key), BInt(Integer(n))] && n <= MAX_SAFE_INTEGER
    ensures AllEncodable(flat) && MaxHeight(flat) == 0 && |flat| % 2 == 0
  {
    OneItem(BInt(Integer(n)));
    assert flat == [BString(key)] + [BInt(Integer(n))];
    ItemThen(BString(key), [BInt(Integer(n))]);
  }

  lemma OneItem(t: Token)
    ensures AllEncodable([t]) == Encodable(t) && MaxHeight([t]) == Height(t)
  {
    assert [t][1..] == [];
  }

  lemma ItemThen(t: Token, rest: seq<Token>)
    ensures AllEncodable([t] + rest) == (Encodable(t) && AllEncodable(rest))
    ensures MaxHeight([t] + rest) == if Height(t) < MaxHeight(rest) then MaxHeight(rest) else Height(t)
  {
    assert ([t] + rest)[1..] == rest;
  }

  // ---- The error paths ----

  /** A written length is checked against the bytes that follow: a short
      string is reported where its bytes start, and bytes beyond it are
      trailing. */
  lemma {:induction false} StringLengthChecked(n: nat, b: seq<byte>)
    ensures var prefix := Utf8.Encode(Numerals.NatToDecimal(n)) + [COLON];
      Parse(prefix + b)
        == if |b| == n then Ok(BString(b))
           else if |b| < n then Err(ShortString(|prefix|, Integer(n), |b|))
           else Err(TrailingBytes(|prefix| + n, |prefix| + |b|))
  {
    var ds := Numerals.NatToDecimal(n);
    var data := Utf8.Encode(ds) + [COLON] + b;
    LengthThenBytes(n, b);
    StringOutcome(data, |ds| + 1, n, b);
  }

  /** `n` written out, a ':' and `b`: `decode` slices `n` bytes of `b`. */
  lemma LengthThenBytes(n: nat, b: seq<byte>)
    ensures var ds := Numerals.NatToDecimal(n);
      var data := Utf8.Encode(ds) + [COLON] + b;
      && |data| == |ds| + 1 + |b|
      && Parse(data) == ValidateEnd(data, if |b| >= n then Ok((BString(b[..n]), |ds| + 1 + n))
                                         else Err(ShortString(|ds| + 1, Integer(n), |b|)))
  {
    var ds := Numerals.NatToDecimal(n);
    var data := Utf8.Encode(ds) + [COLON] + b;
    HeaderThen(Utf8.Encode(ds), b);
    LengthPrefix(data, ds);
    StringSlice(data, |ds| + 1, n, b);
    var r := DecodeString(data, |ds| + 1, ds);
    assert Parse(data) == ValidateEnd(data, r);
  }

  /** What `decode` reports once the string's bytes are sliced: the string
      when they run exactly to the end, else the shortfall or the excess. */
  lemma StringOutcome(data: seq<byte>, q: nat, n: nat, b: seq<byte>)
    requires |data| == q + |b|
    ensures ValidateEnd(data, if |b| >= n then Ok((BString(b[..n]), q + n)) else Err(ShortString(q, Integer(n), |b|)))
         == if |b| == n then Ok(BString(b))
            else if |b| < n then Err(ShortString(q, Integer(n), |b|))
            else Err(TrailingBytes(q + n, q + |b|))
  {
    if |b| == n {
      assert b[..n] == b;
    }
  }

  /** The bytes before and after a ':'. */
  lemma HeaderThen(u: seq<byte>, b: seq<byte>)
    ensures |u + [COLON] + b| == |u| + 1 + |b|
    ensures (u + [COLON] + b)[..|u| + 1] == u + [COLON] && (u + [COLON] + b)[|u| + 1..] == b
  {
  }

  /** `decode_string` at `q`, with the length `n` written out, where the
      input ends with `b`. */
  lemma StringSlice(data: seq<byte>, q: nat, n: nat, b: seq<byte>)
    requires q <= |data| && data[q..] == b
    ensures DecodeString(data, q, Numerals.NatToDecimal(n))
         == if |b| >= n then Ok((BString(b[..n]), q + n)) else Err(ShortString(q, Integer(n), |b|))
  {
    Numerals.DecimalValueOfNatToDecimal(n);
    if |b| >= n {
      assert Slice(data, q, q + n) == data[q..q + n] == b[..n];
    } else {
      assert Slice(data, q, q + n) == data[q..] == b;
    }
  }

  /** A length and its ':' at the start of the input: `decode` then reads a
      string from the byte after the ':'. */
  lemma LengthPrefix(data: seq<byte>, ds: string)
    requires Numerals.AllDigits(ds) && ds != []
    requires |data| > |Utf8.Encode(ds)| && data[..|Utf8.Encode(ds)| + 1] == Utf8.Encode(ds) + [COLON]
    ensures |Utf8.Encode(ds)| == |ds|
    ensures Parse(data) == ValidateEnd(data, DecodeString(data, |ds| + 1, ds))
  {
    AtSplit(data, 0, Utf8.Encode(ds), [COLON]);
    EncodedDigits(data, 0, ds);
    assert data[|ds|] == data[|ds|..|ds| + 1][0];
    LengthThenColon(data, ds);
  }

  /** `decode` reads no sign, so the encoding of a negative integer, which
      `encode` writes with a '-', is rejected at the '-'. */
  lemma {:induction false} NegativeIntegerRejected(n: int, rest: seq<byte>)
    requires n < 0
    ensures Parse(Encode(BInt(Integer(n))) + rest) == Err(BadIntegerChar)
  {
    var data := Encode(BInt(Integer(n))) + rest;
    var ds := Numerals.IntToDecimal(n);
    assert Encode(BInt(Integer(n))) == [LETTER_I] + Utf8.Encode(ds) + [LETTER_E];
    assert Utf8.Encode(ds) == Utf8.EncodeChar('-') + Utf8.Encode(ds[1..]);
    assert data[0] == LETTER_I && data[1] == 0x2D;
    ParseStep(data, 0, "");
  }

  /** An integer without its 'e' at the end of the input: a lone 'i' makes
      `decode_integer` fall off its end, digits make it read past them. */
  lemma {:induction false} UnterminatedInteger(ds: string)
    requires Numerals.AllDigits(ds)
    ensures Parse([LETTER_I] + Utf8.Encode(ds)) == if ds == [] then Threw else Err(BadIntegerChar)
  {
    var data := [LETTER_I] + Utf8.Encode(ds);
    assert At(data, 1, Utf8.Encode(ds));
    EncodedDigits(data, 1, ds);
    ParseStep(data, 0, "");
    IntegerDigitsFresh(data, 1, ds);
  }

  /** Input made of digits only never reaches a token: `decode` falls off
      its end. */
  lemma {:induction false} DigitsOnly(ds: string)
    requires Numerals.AllDigits(ds) && ds != []
    ensures Parse(Utf8.Encode(ds)) == Undefined
  {
    var data := Utf8.Encode(ds);
    assert At(data, 0, data);
    EncodedDigits(data, 0, ds);
    ParseDigitsLoop(data, 0, ds, "");
  }

  /** A first character that is neither a digit nor a token's lead, or a ':'
      with no length before it, is an invalid token. */
  lemma {:induction false} InvalidFirst(c: byte, rest: seq<byte>)
    requires !IsDigitByte(c) && (!IsLead(c) || c == COLON)
    ensures Parse([c] + rest) == Err(InvalidToken(1))
  {
    assert ([c] + rest)[0] == c;
  }

  /** A list whose 'e' is missing runs into the end of the input. */
  lemma {:induction false} UnterminatedList(items: seq<Token>)
    requires AllEncodable(items)
    ensures Parse([LETTER_L] + EncodeAll(items)) == Err(UnexpectedEnd)
  {
    var data := [LETTER_L] + EncodeAll(items);
    assert At(data, 1, EncodeAll(items));
    ItemsFromStart(data, 1, items);
    ParseStep(data, 0, "");
  }

  /** A dictionary holding an odd number of tokens is rejected with that
      number. */
  lemma {:induction false} OddDictionary(tokens: seq<Token>)
    requires AllEncodable(tokens) && |tokens| % 2 == 1
    ensures Parse([LETTER_D] + EncodeAll(tokens) + [LETTER_E]) == Err(OddTokenCount(|tokens|))
  {
    var data := [LETTER_D] + EncodeAll(tokens) + [LETTER_E];
    assert At(data, 0, data);
    BracketedStream(data, tokens);
    OddClose(data, tokens, 1 + |EncodeAll(tokens)|);
  }

  /** Between a leading 'd' and a trailing 'e', the stream reads every
      token up to the 'e'. */
  lemma BracketedStream(data: seq<byte>, tokens: seq<Token>)
    requires AllEncodable(tokens) && At(data, 0, [LETTER_D] + EncodeAll(tokens) + [LETTER_E])
    ensures 1 + |EncodeAll(tokens)| < |data| && data[0] == LETTER_D && data[1 + |EncodeAll(tokens)|] == LETTER_E
    ensures ReadStream(data, 1, [], "") == ReadStream(data, 1 + |EncodeAll(tokens)|, tokens, "")
  {
    var body := EncodeAll(tokens);
    Enclosed(data, 0, LETTER_D, body, LETTER_E);
    assert At(data, 1, body);
    ItemsFromStart(data, 1, tokens);
  }

  lemma OddClose(data: seq<byte>, tokens: seq<Token>, end: nat)
    requires 1 <= end < |data| && data[0] == LETTER_D && data[end] == LETTER_E && |tokens| % 2 == 1
    requires ReadStream(data, 1, [], "") == ReadStream(data, end, tokens, "")
    ensures Parse(data) == Err(OddTokenCount(|tokens|))
  {
    StreamEnd(data, end, tokens);
    ParseStep(data, 0, "");
  }
}
