/** Bencode tokens (`types.ts`): the four token kinds of BEP 3's
    bencoding, how arbitrary JavaScript values become tokens, how tokens
    turn back into JavaScript values, their text form and their encoding.
    A dictionary is a list of an object's own key/value pairs in the order
    they were first assigned; only encoding and printing sort them. */
module Bencode {
  import opened Wrappers
  import opened Bytes
  import Numerals
  import Utf8
  import KeyOrder

  /** A JavaScript number as the token layer meets it: an integer, or the
      NaN that `parseInt` gives for an empty digit string. */
  datatype JsNumber = Integer(n: int) | NaN

  /** `Number.MAX_SAFE_INTEGER`, 2^53 - 1: the integers up to it are
      doubles, print in full decimal and parse back exactly. */
  const MAX_SAFE_INTEGER: int := 0x1F_FFFF_FFFF_FFFF

  datatype Token =
    | BInt(number: JsNumber)
    | BString(bytes: seq<byte>)
    | BList(items: seq<Token>)
    | BDict(entries: seq<(string, Token)>)

  /** The JavaScript values `createBencodeToken` accepts and `get()` returns:
      numbers, Buffers, strings, booleans, arrays, plain objects (their own
      keys in order) and tokens themselves. */
  datatype JsValue =
    | JsNum(number: JsNumber)
    | JsBuf(bytes: seq<byte>)
    | JsStr(text: string)
    | JsBool(flag: bool)
    | JsArr(elements: seq<JsValue>)
    | JsObj(props: seq<(string, JsValue)>)
    | JsTok(token: Token)

  const LETTER_D: byte := 0x64
  const LETTER_L: byte := 0x6C
  const LETTER_I: byte := 0x69
  const LETTER_E: byte := 0x65
  const COLON: byte := 0x3A

  // ---- Objects as key/value lists ----

  function Keys<V>(e: seq<(string, V)>): (r: seq<string>)
    ensures |r| == |e| && forall i :: 0 <= i < |e| ==> r[i] == e[i].0
  {
    if e == [] then [] else Keys(e[..|e| - 1]) + [e[|e| - 1].0]
  }

  predicate DistinctKeys<V>(e: seq<(string, V)>) {
    forall i, j :: 0 <= i < j < |e| ==> e[i].0 != e[j].0
  }

  /** The position of a key, if the object has it. */
  function Find<V>(e: seq<(string, V)>, k: string): (r: Option<nat>)
    ensures r.Some? ==> r.value < |e| && e[r.value].0 == k
    ensures r.Some? ==> forall i :: 0 <= i < r.value ==> e[i].0 != k
    ensures r.None? ==> forall i :: 0 <= i < |e| ==> e[i].0 != k
  {
    if e == [] then None
    else if e[0].0 == k then Some(0)
    else match Find(e[1..], k)
      case None => None
      case Some(i) => Some(i + 1)
  }

  /** `obj[key]`; `None` is `undefined`. */
  function Lookup<V>(e: seq<(string, V)>, k: string): Option<V> {
    match Find(e, k)
    case None => None
    case Some(i) => Some(e[i].1)
  }

  /** The key whose assignment runs `Object.prototype`'s setter instead of
      making an own property. */
  const PROTO: string := "__proto__"

  /** Whether `obj[key] = value` writes an own property: always, except that
      `__proto__` on an object without such an own key only replaces the
      object's prototype. */
  predicate Assigns<V>(e: seq<(string, V)>, k: string) {
    k != PROTO || Find(e, k).Some?
  }

  /** `obj[key] = value`: a key the object has keeps its place and takes the
      new value; a new key goes last; a new `__proto__` leaves the own keys
      as they were. */
  function Put<V>(e: seq<(string, V)>, k: string, v: V): (r: seq<(string, V)>)
    ensures |r| == (if Find(e, k).Some? || !Assigns(e, k) then |e| else |e| + 1)
    ensures forall i :: 0 <= i < |e| && e[i].0 != k ==> r[i] == e[i]
    ensures !Assigns(e, k) ==> r == e
  {
    match Find(e, k)
    case Some(i) => e[i := (k, v)]
    case None => if k == PROTO then e else e + [(k, v)]
  }

  /** After `obj[key] = value`, the key reads the value, unless the setter
      took it, and every other key reads what it read before. */
  lemma PutLookup<V>(e: seq<(string, V)>, k: string, v: V, j: string)
    ensures Lookup(Put(e, k, v), j) == if j == k && Assigns(e, k) then Some(v) else Lookup(e, j)
  {
    var r := Put(e, k, v);
    match Find(e, k)
    case Some(i) =>
      FindUpdated(e, i, k, v, j);
    case None =>
      if k != PROTO {
        FindAppended(e, k, v, j);
      }
  }

  lemma {:induction false} FindUpdated<V>(e: seq<(string, V)>, i: nat, k: string, v: V, j: string)
    requires Find(e, k) == Some(i)
    ensures Find(e[i := (k, v)], j) == Find(e, j)
    decreases |e|
  {
    if e[0].0 == k && e[0].0 != j {
      assert e[i := (k, v)][1..] == e[1..];
    } else if e[0].0 != k && e[0].0 != j {
      assert e[i := (k, v)][1..] == e[1..][i - 1 := (k, v)];
      FindUpdated(e[1..], i - 1, k, v, j);
    }
  }

  lemma {:induction false} FindAppended<V>(e: seq<(string, V)>, k: string, v: V, j: string)
    requires Find(e, k).None?
    ensures Find(e + [(k, v)], j) == if j == k then Some(|e|) else Find(e, j)
    decreases |e|
  {
    if e != [] && e[0].0 != j {
      assert (e + [(k, v)])[1..] == e[1..] + [(k, v)];
      FindAppended(e[1..], k, v, j);
    }
  }

  /** The key set grows by the new key only, never by a new `__proto__`,
      and stays free of repeats. */
  lemma PutKeys<V>(e: seq<(string, V)>, k: string, v: V)
    ensures forall j :: j in Keys(Put(e, k, v)) <==> j in Keys(e) || (j == k && k != PROTO)
    ensures DistinctKeys(e) ==> DistinctKeys(Put(e, k, v))
  {
    forall j ensures j in Keys(Put(e, k, v)) <==> j in Keys(e) || (j == k && k != PROTO) {
      PutKeyIn(e, k, v, j);
    }
    if DistinctKeys(e) {
      PutDistinct(e, k, v);
    }
  }

  lemma PutKeyIn<V>(e: seq<(string, V)>, k: string, v: V, j: string)
    ensures j in Keys(Put(e, k, v)) <==> j in Keys(e) || (j == k && k != PROTO)
  {
    KeyFound(Put(e, k, v), j);
    KeyFound(e, j);
    PutLookup(e, k, v, j);
  }

  /** A key is listed exactly when `Find` finds it. */
  lemma KeyFound<V>(e: seq<(string, V)>, j: string)
    ensures j in Keys(e) <==> Find(e, j).Some?
  {
    if j in Keys(e) {
      var i :| 0 <= i < |e| && Keys(e)[i] == j;
      assert e[i].0 == j;
    }
    if Find(e, j).Some? {
      assert Keys(e)[Find(e, j).value] == j;
    }
  }

  lemma PutDistinct<V>(e: seq<(string, V)>, k: string, v: V)
    requires DistinctKeys(e)
    ensures DistinctKeys(Put(e, k, v))
  {
    match Find(e, k)
    case Some(x) =>
      var r := e[x := (k, v)];
      assert forall i :: 0 <= i < |r| ==> r[i].0 == e[i].0;
    case None =>
      if k != PROTO {
        var r := e + [(k, v)];
        assert forall i :: 0 <= i < |e| ==> r[i] == e[i];
      }
  }

  // ---- createBencodeToken ----

  /** `createBencodeToken(value)`: a token stays itself, a number becomes an
      integer, a Buffer or a string (as its UTF-8 bytes) a byte string, an
      array a list, and any other value a dictionary of its own keys (none,
      for a boolean). */
  function CreateToken(v: JsValue): (r: Token)
    decreases v, 0
  {
    match v
    case JsTok(t) => t
    case JsNum(n) => BInt(n)
    case JsBuf(b) => BString(b)
    case JsStr(s) => BString(Utf8.Encode(s))
    case JsArr(vs) => BList(CreateAll(vs))
    case JsObj(props) => BDict(FromObject(props))
    case JsBool(_) => BDict([])
  }

  /** `tokens.map(createBencodeToken)`. */
  function CreateAll(vs: seq<JsValue>): (r: seq<Token>)
    ensures |r| == |vs|
    decreases vs, 0
  {
    if vs == [] then []
    else
      var last := vs[|vs| - 1];
      assert last in vs;
      CreateAll(vs[..|vs| - 1]) + [CreateToken(last)]
  }

  /** `Object.assign({}, ...keys.map(key => ({[key]: createBencodeToken(token[key])})))`. */
  function FromObject(props: seq<(string, JsValue)>): (r: seq<(string, Token)>)
    ensures DistinctKeys(r)
    ensures forall j :: j in Keys(r) <==> j in Keys(props) && j != PROTO
    decreases props, 0
  {
    if props == [] then []
    else
      var front := props[..|props| - 1];
      var last := props[|props| - 1];
      assert last in props && last.1 < last;
      var r := Put(FromObject(front), last.0, CreateToken(last.1));
      PutKeys(FromObject(front), last.0, CreateToken(last.1));
      assert Keys(props) == Keys(front) + [last.0];
      r
  }

  // ---- get() ----

  /** `token.get()`: a byte string becomes its Buffer, an integer its number,
      a list an array and a dictionary an object, all the way down. */
  function Get(t: Token): (r: JsValue)
    decreases t, 0
  {
    match t
    case BString(b) => JsBuf(b)
    case BInt(n) => JsNum(n)
    case BList(items) => JsArr(GetAll(items))
    case BDict(e) => JsObj(GetEntries(e))
  }

  function GetAll(items: seq<Token>): (r: seq<JsValue>)
    ensures |r| == |items|
    decreases items, 0
  {
    if items == [] then []
    else
      var last := items[|items| - 1];
      assert last in items;
      GetAll(items[..|items| - 1]) + [Get(last)]
  }

  function GetEntries(e: seq<(string, Token)>): (r: seq<(string, JsValue)>)
    ensures Keys(r) == Keys(e)
    decreases e, 0
  {
    if e == [] then []
    else
      var last := e[|e| - 1];
      assert last in e && last.1 < last;
      GetEntries(e[..|e| - 1]) + [(last.0, Get(last.1))]
  }

  /** The own keys assignment can give a fresh object: each key once, and
      no `__proto__`. */
  predicate OwnKeys<V>(e: seq<(string, V)>) {
    DistinctKeys(e) && forall i :: 0 <= i < |e| ==> e[i].0 != PROTO
  }

  /** Every dictionary in the token, at any depth, has the own keys of an
      object built by assignment. */
  predicate WellFormed(t: Token)
    decreases t, 0
  {
    match t
    case BList(items) => AllWellFormed(items)
    case BDict(e) => OwnKeys(e) && EntriesWellFormed(e)
    case _ => true
  }

  predicate AllWellFormed(items: seq<Token>)
    decreases items, 0
  {
    items == [] || (AllWellFormed(items[..|items| - 1]) && var last := items[|items| - 1]; assert last in items; WellFormed(last))
  }

  predicate EntriesWellFormed(e: seq<(string, Token)>)
    decreases e, 0
  {
    e == [] || (EntriesWellFormed(e[..|e| - 1]) && var last := e[|e| - 1]; assert last in e && last.1 < last; WellFormed(last.1))
  }

  /** Adding a key an object lacks appends it. */
  lemma PutNew<V>(e: seq<(string, V)>, k: string, v: V)
    requires k !in Keys(e) && k != PROTO
    ensures Put(e, k, v) == e + [(k, v)]
  {
  }

  lemma OwnFront<V>(e: seq<(string, V)>)
    requires OwnKeys(e) && e != []
    ensures OwnKeys(e[..|e| - 1]) && e[|e| - 1].0 !in Keys(e[..|e| - 1]) && e[|e| - 1].0 != PROTO
  {
  }

  /** Making a token of what `get()` returns gives the token back. */
  lemma {:induction false} CreateOfGet(t: Token)
    requires WellFormed(t)
    ensures CreateToken(Get(t)) == t
    decreases t, 1
  {
    match t
    case BString(_) =>
    case BInt(_) =>
    case BList(items) =>
      CreateAllOfGetAll(items);
      assert CreateToken(Get(t)) == BList(CreateAll(GetAll(items)));
    case BDict(e) =>
      FromObjectOfGetEntries(e);
      assert CreateToken(Get(t)) == BDict(FromObject(GetEntries(e)));
  }

  lemma {:induction false} CreateAllOfGetAll(items: seq<Token>)
    requires AllWellFormed(items)
    ensures CreateAll(GetAll(items)) == items
    decreases items, 1
  {
    if items != [] {
      var front := items[..|items| - 1];
      var last := items[|items| - 1];
      var g := GetAll(items);
      AllWellFormedLast(items);
      GetAllLast(items, g);
      CreateAllStep(g);
      CreateAllOfGetAll(front);
      CreateOfGet(last);
      assert CreateAll(g) == front + [last];
      assert items == front + [last];
    }
  }

  lemma AllWellFormedLast(items: seq<Token>)
    requires items != [] && AllWellFormed(items)
    ensures AllWellFormed(items[..|items| - 1]) && WellFormed(items[|items| - 1])
  {
  }

  lemma GetAllLast(items: seq<Token>, g: seq<JsValue>)
    requires items != [] && g == GetAll(items)
    ensures g != [] && g[..|g| - 1] == GetAll(items[..|items| - 1]) && g[|g| - 1] == Get(items[|items| - 1])
  {
  }

  /** `CreateAll` makes the last token after the others. */
  lemma CreateAllStep(vs: seq<JsValue>)
    requires vs != []
    ensures CreateAll(vs) == CreateAll(vs[..|vs| - 1]) + [CreateToken(vs[|vs| - 1])]
  {
  }

  lemma {:induction false} FromObjectOfGetEntries(e: seq<(string, Token)>)
    requires OwnKeys(e) && EntriesWellFormed(e)
    ensures FromObject(GetEntries(e)) == e
    decreases e, 1
  {
    if e != [] {
      var front := e[..|e| - 1];
      var last := e[|e| - 1];
      assert last in e && last.1 < last;
      EntriesWellFormedLast(e);
      OwnFront(e);
      FromObjectOfGetEntries(front);
      CreateOfGet(last.1);
      var g := GetEntries(e);
      GetEntriesLast(e, g);
      FromObjectAppend(g, front, last.0, Get(last.1), last.1);
      assert e == front + [last];
    }
  }

  lemma EntriesWellFormedLast(e: seq<(string, Token)>)
    requires e != [] && EntriesWellFormed(e)
    ensures EntriesWellFormed(e[..|e| - 1]) && WellFormed(e[|e| - 1].1)
  {
  }

  /** Assigning a last key the object lacks appends its token. */
  lemma FromObjectAppend(g: seq<(string, JsValue)>, front: seq<(string, Token)>, k: string, w: JsValue, t: Token)
    requires g != [] && g[|g| - 1] == (k, w)
    requires FromObject(g[..|g| - 1]) == front && CreateToken(w) == t
    requires k !in Keys(front) && k != PROTO
    ensures FromObject(g) == front + [(k, t)]
  {
    FromObjectStep(g);
    PutNew(front, k, t);
  }

  /** `FromObject` assigns the last key after the others. */
  lemma FromObjectStep(props: seq<(string, JsValue)>)
    requires props != []
    ensures FromObject(props) == Put(FromObject(props[..|props| - 1]), props[|props| - 1].0, CreateToken(props[|props| - 1].1))
  {
  }

  lemma GetEntriesLast(e: seq<(string, Token)>, g: seq<(string, JsValue)>)
    requires e != [] && g == GetEntries(e)
    ensures g != [] && g[..|g| - 1] == GetEntries(e[..|e| - 1])
    ensures g[|g| - 1] == (e[|e| - 1].0, Get(e[|e| - 1].1))
  {
  }

  /** A JavaScript value that `get()` can return: no strings, booleans or
      tokens inside, and objects with each key once and no own
      `__proto__`. */
  predicate Plain(v: JsValue)
    decreases v, 0
  {
    match v
    case JsNum(_) => true
    case JsBuf(_) => true
    case JsArr(vs) => AllPlain(vs)
    case JsObj(props) => OwnKeys(props) && PropsPlain(props)
    case _ => false
  }

  predicate AllPlain(vs: seq<JsValue>)
    decreases vs, 0
  {
    vs == [] || (AllPlain(vs[..|vs| - 1]) && var last := vs[|vs| - 1]; assert last in vs; Plain(last))
  }

  predicate PropsPlain(props: seq<(string, JsValue)>)
    decreases props, 0
  {
    props == [] || (PropsPlain(props[..|props| - 1]) && var last := props[|props| - 1]; assert last in props && last.1 < last; Plain(last.1))
  }

  /** `get()` of the token made of a plain value gives the value back. */
  lemma {:induction false} GetOfCreate(v: JsValue)
    requires Plain(v)
    ensures Get(CreateToken(v)) == v
    decreases v, 1
  {
    match v
    case JsNum(_) =>
    case JsBuf(_) =>
    case JsArr(vs) => GetAllOfCreateAll(vs);
    case JsObj(props) => GetEntriesOfFromObject(props);
  }

  lemma {:induction false} GetAllOfCreateAll(vs: seq<JsValue>)
    requires AllPlain(vs)
    ensures GetAll(CreateAll(vs)) == vs
    decreases vs, 1
  {
    if vs != [] {
      var front := vs[..|vs| - 1];
      var last := vs[|vs| - 1];
      AllPlainLast(vs);
      var c := CreateAll(vs);
      CreateAllStep(vs);
      GetAllLast(c, GetAll(c));
      assert c[..|c| - 1] == CreateAll(front);
      GetAllOfCreateAll(front);
      GetOfCreate(last);
      assert GetAll(c) == front + [last];
      assert vs == front + [last];
    }
  }

  lemma AllPlainLast(vs: seq<JsValue>)
    requires vs != [] && AllPlain(vs)
    ensures AllPlain(vs[..|vs| - 1]) && Plain(vs[|vs| - 1])
  {
  }

  lemma {:induction false} GetEntriesOfFromObject(props: seq<(string, JsValue)>)
    requires OwnKeys(props) && PropsPlain(props)
    ensures GetEntries(FromObject(props)) == props
    decreases props, 1
  {
    if props != [] {
      var front := props[..|props| - 1];
      var last := props[|props| - 1];
      assert last in props && last.1 < last;
      PropsPlainLast(props);
      OwnFront(props);
      var r := FromObject(props);
      FromObjectStep(props);
      GetEntriesOfFromObject(front);
      GetOfCreate(last.1);
      assert last.0 !in Keys(FromObject(front));
      PutNew(FromObject(front), last.0, CreateToken(last.1));
      GetEntriesLast(r, GetEntries(r));
      assert GetEntries(r) == front + [last];
      assert props == front + [last];
    }
  }

  lemma PropsPlainLast(props: seq<(string, JsValue)>)
    requires props != [] && PropsPlain(props)
    ensures PropsPlain(props[..|props| - 1]) && Plain(props[|props| - 1].1)
  {
  }

  // ---- encode() ----

  /** `${length}:` then the bytes; the prefix is ASCII, so `Buffer.from`
      writes one byte per character. */
  function EncodeString(b: seq<byte>): (r: seq<byte>)
    ensures |r| > |b|
  {
    Utf8.Encode(Numerals.NatToDecimal(|b|)) + [COLON] + b
  }

  /** `token.encode()`. A dictionary writes its keys in the order of
      `keys.sort()`, each as a byte string followed by its value. */
  function Encode(t: Token): (r: seq<byte>)
    decreases t, 0
  {
    match t
    case BInt(Integer(n)) => [LETTER_I] + Utf8.Encode(Numerals.IntToDecimal(n)) + [LETTER_E]
    case BInt(NaN) => [LETTER_I] + Utf8.Encode("NaN") + [LETTER_E]
    case BString(b) => EncodeString(b)
    case BList(items) => [LETTER_L] + EncodeAll(items) + [LETTER_E]
    case BDict(e) => [LETTER_D] + EncodeEntries(e, KeyOrder.Order(Keys(e))) + [LETTER_E]
  }

  function EncodeAll(items: seq<Token>): seq<byte>
    decreases items, 0
  {
    if items == [] then [] else Encode(items[0]) + EncodeAll(items[1..])
  }

  /** The pairs at positions `ord`, each key as a byte string, then its value. */
  function EncodeEntries(e: seq<(string, Token)>, ord: seq<nat>): seq<byte>
    requires forall k :: 0 <= k < |ord| ==> ord[k] < |e|
    decreases e, |ord|
  {
    if ord == [] then []
    else
      var p := e[ord[0]];
      assert p in e && p.1 < p;
      EncodeString(Utf8.Encode(p.0)) + Encode(p.1) + EncodeEntries(e, ord[1..])
  }

  // ---- toString() ----

  /** `token.toString()`: a byte string shows its first 255 bytes decoded as
      UTF-8, an integer its decimal digits, a list its items joined by
      commas, and a dictionary a header and one line per key in key order. */
  function ToString(t: Token): (r: string)
    decreases t, 0
  {
    match t
    case BString(b) => Utf8.Decode(Slice(b, 0, 255))
    case BInt(Integer(n)) => Numerals.IntToDecimal(n)
    case BInt(NaN) => "NaN"
    case BList(items) => JoinAll(items)
    case BDict(e) =>
      "\tDictionary[" + Numerals.NatToDecimal(|e|) + "] : \n" + TreeLines(e, KeyOrder.Order(Keys(e)))
  }

  /** `items.map(toString).toString()`: the texts joined by commas. */
  function JoinAll(items: seq<Token>): string
    decreases items, 0
  {
    if items == [] then ""
    else if |items| == 1 then ToString(items[0])
    else ToString(items[0]) + "," + JoinAll(items[1..])
  }

  function TreeLines(e: seq<(string, Token)>, ord: seq<nat>): string
    requires forall k :: 0 <= k < |ord| ==> ord[k] < |e|
    decreases e, |ord|
  {
    if ord == [] then ""
    else
      var p := e[ord[0]];
      assert p in e && p.1 < p;
      "\t\t" + p.0 + " : " + ToString(p.1) + " \n" + TreeLines(e, ord[1..])
  }

  /** A byte string's text depends on its first 255 bytes only. */
  lemma ToStringFirstBytes(b: seq<byte>, c: seq<byte>)
    requires |b| >= 255 && |c| >= 255 && b[..255] == c[..255]
    ensures ToString(BString(b)) == ToString(BString(c))
    ensures ToString(BString(b)) == ToString(BString(b[..255]))
  {
    assert Slice(b, 0, 255) == b[..255] == Slice(b[..255], 0, 255);
    assert Slice(c, 0, 255) == c[..255];
  }

  /** The text of a key written as a byte string is the key itself, as long
      as its UTF-8 form fits in 255 bytes. */
  lemma ToStringOfKey(k: string)
    requires |Utf8.Encode(k)| <= 255
    ensures ToString(BString(Utf8.Encode(k))) == k
  {
    var b := Utf8.Encode(k);
    assert Slice(b, 0, 255) == b;
    Utf8.DecodeEncode(k);
  }

  // ---- Encoding does not depend on insertion order ----

  /** The pairs at positions `ord`. */
  function Arrange<V>(e: seq<(string, V)>, ord: seq<nat>): (r: seq<(string, V)>)
    requires forall k :: 0 <= k < |ord| ==> ord[k] < |e|
    ensures |r| == |ord| && forall k :: 0 <= k < |ord| ==> r[k] == e[ord[k]]
  {
    if ord == [] then [] else [e[ord[0]]] + Arrange(e, ord[1..])
  }

  predicate StrictlySorted<V>(s: seq<(string, V)>) {
    forall i, j :: 0 <= i < j < |s| ==> KeyOrder.KeyLess(s[i].0, s[j].0)
  }

  /** Two strictly sorted lists holding the same pairs are the same list. */
  lemma {:induction false} SortedUnique<V>(s: seq<(string, V)>, t: seq<(string, V)>)
    requires StrictlySorted(s) && StrictlySorted(t)
    requires forall p :: p in s <==> p in t
    ensures s == t
    decreases |s|
  {
    if s != [] {
      assert s[0] in s;
    }
    if t != [] {
      assert t[0] in t;
    }
    if s != [] && t != [] {
      SortedHeads(s, t);
      forall p ensures p in s[1..] <==> p in t[1..] {
        if p in s[1..] {
          assert p in s;
          SortedTailMember(s, t, p);
        }
        if p in t[1..] {
          assert p in t;
          SortedTailMember(t, s, p);
        }
      }
      SortedTail(s);
      SortedTail(t);
      SortedUnique(s[1..], t[1..]);
      assert s == [s[0]] + s[1..] && t == [t[0]] + t[1..];
    }
  }

  /** The least key of two sorted lists with the same pairs is the same. */
  lemma SortedHeads<V>(s: seq<(string, V)>, t: seq<(string, V)>)
    requires StrictlySorted(s) && StrictlySorted(t) && s != [] && t != []
    requires s[0] in t && t[0] in s
    ensures s[0] == t[0]
  {
    var i :| 0 <= i < |t| && t[i] == s[0];
    var j :| 0 <= j < |s| && s[j] == t[0];
    if i > 0 {
      if j > 0 {
        KeyOrder.KeyAsymmetric(s[0].0, s[j].0);
      } else {
        KeyOrder.KeyIrreflexive(t[0].0);
      }
    }
  }

  /** A pair after the common head of one list comes after it in the other. */
  lemma SortedTailMember<V>(s: seq<(string, V)>, t: seq<(string, V)>, p: (string, V))
    requires StrictlySorted(s) && s != [] && t != [] && s[0] == t[0]
    requires p in s[1..] && p in t
    ensures p in t[1..]
  {
    var a :| 0 <= a < |s[1..]| && s[1..][a] == p;
    assert s[a + 1] == p;
    var b :| 0 <= b < |t| && t[b] == p;
    if b == 0 {
      KeyOrder.KeyIrreflexive(s[0].0);
    }
    assert t[1..][b - 1] == p;
  }

  lemma SortedTail<V>(s: seq<(string, V)>)
    requires StrictlySorted(s) && s != []
    ensures StrictlySorted(s[1..])
  {
    forall i, j | 0 <= i < j < |s[1..]| ensures KeyOrder.KeyLess(s[1..][i].0, s[1..][j].0) {
      assert s[1..][i] == s[i + 1] && s[1..][j] == s[j + 1];
    }
  }

  /** The pairs in `keys.sort()` order: strictly sorted, and the same pairs. */
  lemma SortedView<V>(e: seq<(string, V)>)
    requires DistinctKeys(e)
    ensures StrictlySorted(Arrange(e, KeyOrder.Order(Keys(e))))
    ensures forall p :: p in Arrange(e, KeyOrder.Order(Keys(e))) <==> p in e
  {
    var ks := Keys(e);
    var ord := KeyOrder.Order(ks);
    var s := Arrange(e, ord);
    KeyOrder.OrderSorted(ks);
    forall i, j | 0 <= i < j < |s| ensures KeyOrder.KeyLess(s[i].0, s[j].0) {
      assert !KeyOrder.KeyLess(ks[ord[j]], ks[ord[i]]);
      assert ord[i] in multiset(ord) && ord[j] in multiset(ord);
      if ord[i] == ord[j] {
        MultisetTwice(ord, i, j);
        RangeOnce(|ks|, ord[i]);
      }
      KeyOrder.KeyTotal(ks[ord[i]], ks[ord[j]]);
    }
    forall p ensures p in s <==> p in e {
      if p in e {
        var k :| 0 <= k < |e| && e[k] == p;
        assert k in multiset(KeyOrder.Range(|ks|)) by {
          assert KeyOrder.Range(|ks|)[k] == k;
        }
        assert k in multiset(ord);
        var m :| 0 <= m < |ord| && ord[m] == k;
        assert s[m] == p;
      }
    }
  }

  lemma MultisetTwice<T>(s: seq<T>, i: int, j: int)
    requires 0 <= i < j < |s| && s[i] == s[j]
    ensures multiset(s)[s[i]] >= 2
  {
    assert s == s[..j] + s[j..];
    assert s[i] == s[..j][i];
    assert s[j] == s[j..][0];
    assert multiset(s)[s[i]] == multiset(s[..j])[s[i]] + multiset(s[j..])[s[i]];
  }

  lemma {:induction false} RangeOnce(n: nat, x: nat)
    ensures multiset(KeyOrder.Range(n))[x] <= 1
  {
    if n > 0 {
      var y: nat := n - 1;
      RangeOnce(y, x);
      KeyOrder.RangeStep(y);
      if x == y {
        RangeBelow(y, x);
      }
    }
  }

  lemma RangeBelow(n: nat, x: nat)
    requires x >= n
    ensures multiset(KeyOrder.Range(n))[x] == 0
  {
  }

  lemma {:induction false} EncodeEntriesAlike(e: seq<(string, Token)>, o: seq<nat>, e': seq<(string, Token)>, o': seq<nat>)
    requires forall k :: 0 <= k < |o| ==> o[k] < |e|
    requires forall k :: 0 <= k < |o'| ==> o'[k] < |e'|
    requires Arrange(e, o) == Arrange(e', o')
    ensures EncodeEntries(e, o) == EncodeEntries(e', o')
    decreases |o|
  {
    if o != [] {
      assert e[o[0]] == Arrange(e, o)[0] == e'[o'[0]];
      assert Arrange(e, o[1..]) == Arrange(e, o)[1..] == Arrange(e', o')[1..] == Arrange(e', o'[1..]);
      EncodeEntriesAlike(e, o[1..], e', o'[1..]);
    }
  }

  /** Two objects with the same keys and values encode the same, whatever
      order their keys were inserted in. */
  lemma EncodeOrderIndependent(e: seq<(string, Token)>, e': seq<(string, Token)>)
    requires DistinctKeys(e) && DistinctKeys(e')
    requires forall p :: p in e <==> p in e'
    ensures Encode(BDict(e)) == Encode(BDict(e'))
  {
    SortedView(e);
    SortedView(e');
    SortedUnique(Arrange(e, KeyOrder.Order(Keys(e))), Arrange(e', KeyOrder.Order(Keys(e'))));
    EncodeEntriesAlike(e, KeyOrder.Order(Keys(e)), e', KeyOrder.Order(Keys(e')));
  }

  // ---- The mutable dictionary ----

  /** `BencodeDict`: `putContent` writes into the object's `value` in place. */
  class BencodeDict {
    var value: seq<(string, Token)>

    /** `new BencodeDict(token)`: one entry per own key of the object. */
    constructor (token: seq<(string, JsValue)>)
      ensures value == FromObject(token)
    {
      value := FromObject(token);
    }

    /** `putContent(key, value)`: store the token made of `v` under `key`. */
    method PutContent(key: string, v: JsValue)
      modifies this
      ensures value == Put(old(value), key, CreateToken(v))
      ensures DistinctKeys(old(value)) ==> DistinctKeys(value)
    {
      PutKeys(value, key, CreateToken(v));
      value := Put(value, key, CreateToken(v));
    }
  }
}
