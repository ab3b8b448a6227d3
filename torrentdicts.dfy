/** The metainfo checks of `torrentDictUtils.ts`: which decoded dictionaries
    are accepted as torrent files (BEP 3, "metainfo files"), and the plain
    object they become. The checks are ramda `R.where` specifications,
    evaluated key by key in the order they are written, stopping at the
    first that fails; a check that reads a property of `undefined` throws a
    TypeError. */
module TorrentDicts {
  import opened Wrappers
  import opened Bytes
  import opened Bencode
  import Numerals
  import Utf8

  /** The outcome of a check: true, false, or a thrown TypeError. */
  datatype Verdict = Holds | Fails | Throws

  /** The keys `convertBencodeDictInTorrentDict` keeps, in their order. */
  const TORRENT_DICT_KEYS: seq<string> :=
    ["announce", "announce-list", "created by", "encoding", "creation date", "comment", "info"]

  /** The keys whose Buffer values are not turned into text. */
  const EXCLUDED_KEYS: seq<string> := ["pieces"]

  // ---- Properties and type tests ----

  /** `value[key]` for the non-numeric keys the checks read: an object's own
      entry, and the `length` that Buffers, arrays and strings carry.
      Numbers, booleans and token instances have none of these keys. */
  function Prop(v: JsValue, key: string): (r: Option<JsValue>)
    ensures v.JsObj? ==> r == Lookup(v.props, key)
    ensures !v.JsObj? && key != "length" ==> r.None?
    ensures key == "length" && v.JsBuf? ==> r == Some(JsNum(Integer(|v.bytes|)))
    ensures key == "length" && v.JsArr? ==> r == Some(JsNum(Integer(|v.elements|)))
    ensures key == "length" && v.JsStr? ==> r == Some(JsNum(Integer(|v.text|)))
    ensures key == "length" && (v.JsNum? || v.JsBool? || v.JsTok?) ==> r.None?
  {
    match v
    case JsObj(props) => Lookup(props, key)
    case JsBuf(b) => if key == "length" then Some(JsNum(Integer(|b|))) else None
    case JsArr(vs) => if key == "length" then Some(JsNum(Integer(|vs|))) else None
    case JsStr(s) => if key == "length" then Some(JsNum(Integer(|s|))) else None
    case _ => None
  }

  /** `R.is(Buffer, x)`. */
  predicate IsBuffer(x: Option<JsValue>) {
    x.Some? && x.value.JsBuf?
  }

  /** `R.is(Number, x)`: NaN is a number too. */
  predicate IsNumber(x: Option<JsValue>) {
    x.Some? && x.value.JsNum?
  }

  /** `R.is(Array, x)`. */
  predicate IsArray(x: Option<JsValue>) {
    x.Some? && x.value.JsArr?
  }

  /** `R.is(Object, x)`: Buffers, arrays, objects and class instances;
      not numbers, strings, booleans or `undefined`. */
  predicate IsObject(x: Option<JsValue>) {
    x.Some? && (x.value.JsBuf? || x.value.JsArr? || x.value.JsObj? || x.value.JsTok?)
  }

  // ---- checkInfoDict and its parts ----

  /** `checkInfoDictSingleFile(info)`. */
  predicate SingleFileCheck(info: JsValue) {
    && IsBuffer(Prop(info, "pieces"))
    && IsNumber(Prop(info, "piece length"))
    && IsBuffer(Prop(info, "name"))
    && IsNumber(Prop(info, "length"))
  }

  /** One entry of `files` as `checkFiles`' `R.where` tests it: reading a
      property of a missing entry throws. */
  function FileEntryCheck(entry: Option<JsValue>): Verdict {
    if entry.None? then Throws
    else if IsNumber(Prop(entry.value, "length")) && IsArray(Prop(entry.value, "path")) then Holds
    else Fails
  }

  /** `R.all` over the entries of an array, stopping at the first failure. */
  function AllEntries(vs: seq<JsValue>): (r: Verdict)
    ensures r != Throws
  {
    if vs == [] then Holds
    else if FileEntryCheck(Some(vs[0])) == Holds then AllEntries(vs[1..])
    else Fails
  }

  /** `R.all` over an object, walking indices `i` up to `n`: entries "0",
      "1", ... read by their index keys, stopping at the first that does not
      hold. */
  function IndexedEntries(props: seq<(string, JsValue)>, i: nat, n: int): Verdict
    decreases n - i
  {
    if i >= n then Holds
    else
      match FileEntryCheck(Lookup(props, Numerals.NatToDecimal(i)))
      case Holds => IndexedEntries(props, i + 1, n)
      case other => other
  }

  // ---- `idx < list.length`: JavaScript's conversion of `length` ----

  /** How far `while (idx < list.length)` walks from index 0: the indices
      below a bound, every index (`length` is +Infinity), or not at all
      because converting `length` to a number throws a TypeError. */
  datatype Walk = Indices(n: nat) | Endless | ConversionThrows

  /** The JavaScript white space and line terminators that `Number(text)`
      ignores around the numeral. */
  predicate IsJsSpace(c: char) {
    var n := c as int;
    n == 0x09 || n == 0x0A || n == 0x0B || n == 0x0C || n == 0x0D || n == 0x20 || n == 0xA0 ||
    n == 0x1680 || (0x2000 <= n <= 0x200A) || n == 0x2028 || n == 0x2029 || n == 0x202F ||
    n == 0x205F || n == 0x3000 || n == 0xFEFF
  }

  /** The value of a digit or letter in bases up to 36 (36 for anything
      else). */
  function DigitValue(c: char): nat {
    if '0' <= c <= '9' then (c as int) - ('0' as int)
    else if 'a' <= c <= 'z' then (c as int) - ('a' as int) + 10
    else if 'A' <= c <= 'Z' then (c as int) - ('A' as int) + 10
    else 36
  }

  /** The base a `0x`, `0o` or `0b` prefix letter names, 0 for any other. */
  function PrefixBase(c: char): nat {
    if c == 'x' || c == 'X' then 16 else if c == 'o' || c == 'O' then 8 else if c == 'b' || c == 'B' then 2 else 0
  }

  function Pow10(e: nat): (r: nat)
    ensures r >= 1
  {
    if e == 0 then 1 else 10 * Pow10(e - 1)
  }

  /** The number of indices below m·10^e, for m > 0. */
  function CeilScaled(m: nat, e: int): nat {
    if e >= 0 then m * Pow10(e)
    else
      var p := Pow10(-e);
      if m % p == 0 then m / p else m / p + 1
  }

  /** The digits of `t` from position `i` on, in the given base, after the
      value `acc` of those before them; None if one is not a digit of the
      base. */
  function RadixDigits(t: string, i: nat, base: nat, acc: nat): Option<nat>
    decreases |t| - i
  {
    if i >= |t| then Some(acc)
    else if DigitValue(t[i]) < base then RadixDigits(t, i + 1, base, acc * base + DigitValue(t[i]))
    else None
  }

  /** An exponent: optional sign, then at least one digit. */
  function ExponentValue(x: string): Option<int> {
    var neg := x != [] && x[0] == '-';
    var ds := if x != [] && (x[0] == '+' || x[0] == '-') then x[1..] else x;
    if ds == [] || !Numerals.AllDigits(ds) then None
    else
      var magnitude: int := Numerals.DecimalValue(ds);
      Some(if neg then -magnitude else magnitude)
  }

  /** An unsigned decimal numeral read from position `i` on, as the pair
      (m, e) of its value m·10^e: `m` holds the digits read so far, `frac`
      how many of them follow the '.' (-1 before any '.'), and `digits`
      whether there was one. An 'e' or 'E' and a signed exponent may end
      the numeral. */
  function Mantissa(u: string, i: nat, m: nat, frac: int, digits: bool): Option<(nat, int)>
    decreases |u| - i
  {
    var scale := if frac < 0 then 0 else frac;
    if i >= |u| then (if digits then Some((m, -scale)) else None)
    else if Numerals.IsDigit(u[i]) then
      Mantissa(u, i + 1, m * 10 + DigitValue(u[i]), if frac < 0 then frac else frac + 1, true)
    else if u[i] == '.' && frac < 0 then Mantissa(u, i + 1, m, 0, digits)
    else if (u[i] == 'e' || u[i] == 'E') && digits then
      match ExponentValue(u[i + 1..])
      case Some(x) => Some((m, x - scale))
      case None => None
    else None
  }

  /** The walk for `Number(text)`: white space around the numeral is
      ignored and empty text is 0. */
  function StringWalk(s: string): Walk
    decreases |s|
  {
    if s == [] then Indices(0)
    else if IsJsSpace(s[0]) then StringWalk(s[1..])
    else if IsJsSpace(s[|s| - 1]) then StringWalk(s[..|s| - 1])
    else NumeralWalk(s)
  }

  /** The walk for a numeral without white space around it: `0x`, `0o` and
      `0b` numerals take no sign; a decimal numeral may have a sign, a
      fraction and an exponent, or be `Infinity`; anything else is NaN,
      below which no index lies. */
  function NumeralWalk(t: string): Walk
    requires t != []
  {
    if |t| > 2 && t[0] == '0' && PrefixBase(t[1]) > 0 then
      match RadixDigits(t, 2, PrefixBase(t[1]), 0)
      case Some(n) => Indices(n)
      case None => Indices(0)
    else
      var neg := t[0] == '-';
      var u := if t[0] == '-' || t[0] == '+' then t[1..] else t;
      if u == "Infinity" then (if neg then Indices(0) else Endless)
      else
        match Mantissa(u, 0, 0, -1, false)
        case None => Indices(0)
        case Some(v) => if neg || v.0 == 0 then Indices(0) else Indices(CeilScaled(v.0, v.1))
  }

  /** The text a value converts to when a number or a string is needed:
      numbers print in decimal, Buffers decode as UTF-8, arrays join their
      elements' texts with ',', tokens use their `toString()`, and a plain
      object is "[object Object]" unless an own `toString` key hides the
      method, in which case the conversion throws (`None`). */
  function Text(v: JsValue): Option<string>
    decreases v, 1
  {
    match v
    case JsNum(Integer(n)) => Some(Numerals.IntToDecimal(n))
    case JsNum(NaN) => Some("NaN")
    case JsBuf(b) => Some(Utf8.Decode(b))
    case JsStr(s) => Some(s)
    case JsBool(b) => Some(if b then "true" else "false")
    case JsArr(vs) => JoinTexts(vs)
    case JsObj(props) => if "toString" in Keys(props) then None else Some("[object Object]")
    case JsTok(t) => Some(ToString(t))
  }

  /** `Array.prototype.join(",")` on the elements' texts. */
  function JoinTexts(vs: seq<JsValue>): Option<string>
    decreases vs, 0
  {
    if vs == [] then Some("")
    else
      match Text(vs[0])
      case None => None
      case Some(t) =>
        match JoinTexts(vs[1..])
        case None => None
        case Some(rest) => Some(if |vs| == 1 then t else t + "," + rest)
  }

  /** The walk for `idx < list.length`: `undefined` and NaN allow no index,
      a number every index below it, a boolean 0 or 1, and any other value
      goes through its text. */
  function LengthWalk(length: Option<JsValue>): Walk {
    match length
    case None => Indices(0)
    case Some(JsNum(NaN)) => Indices(0)
    case Some(JsNum(Integer(k))) => Indices(if k > 0 then k else 0)
    case Some(JsBool(b)) => Indices(if b then 1 else 0)
    case Some(JsStr(s)) => StringWalk(s)
    case Some(v) =>
      match Text(v)
      case None => ConversionThrows
      case Some(s) => StringWalk(s)
  }

  /** One past the largest index an all-digit key names: every index from
      there on is missing. */
  function IndexBound(props: seq<(string, JsValue)>): (r: nat)
    ensures forall i :: 0 <= i < |props| && Numerals.AllDigits(props[i].0) ==> Numerals.DecimalValue(props[i].0) < r
  {
    if props == [] then 0
    else
      var rest := IndexBound(props[1..]);
      var k := props[0].0;
      if Numerals.AllDigits(k) && Numerals.DecimalValue(k) >= rest then Numerals.DecimalValue(k) + 1 else rest
  }

  /** `checkFiles(files)`: `R.all(where({length: Number, path: Array}))`.
      An array is checked entry by entry. On anything else `R.all` walks the
      indices below `files.length`: a number or a boolean has no `length`
      and passes; a Buffer or a string passes only when empty, since an
      entry that is a number or a character has no `path`; an object's
      `length` is converted to a number, so a byte string "2" walks indices
      0 and 1, and an endless walk stops at the first missing index, which
      throws (`EndlessWalk`); `undefined` throws. */
  function CheckFiles(files: Option<JsValue>): Verdict {
    if files.None? then Throws
    else
      match files.value
      case JsArr(vs) => AllEntries(vs)
      case JsBuf(b) => if |b| == 0 then Holds else Fails
      case JsStr(s) => if |s| == 0 then Holds else Fails
      case JsObj(props) => ObjectEntries(props, LengthWalk(Lookup(props, "length")))
      case _ => Holds
  }

  /** `R.all` over an object whose `length` converts to the given walk. */
  function ObjectEntries(props: seq<(string, JsValue)>, walk: Walk): Verdict {
    match walk
    case Indices(n) => IndexedEntries(props, 0, n)
    case Endless => IndexedEntries(props, 0, IndexBound(props) + 1)
    case ConversionThrows => Throws
  }

  /** Every index from `IndexBound` on is missing from the object. */
  lemma MissingFromBound(props: seq<(string, JsValue)>, m: nat)
    requires m >= IndexBound(props)
    ensures Lookup(props, Numerals.NatToDecimal(m)).None?
  {
    Numerals.DecimalValueOfNatToDecimal(m);
  }

  /** A walk past `IndexBound` ends at that index at the latest, without
      holding: so walking every index, as +Infinity does, is the walk up to
      one past the bound. */
  lemma EndlessWalk(props: seq<(string, JsValue)>, n: int)
    requires IndexBound(props) < n
    ensures IndexedEntries(props, 0, n) == IndexedEntries(props, 0, IndexBound(props) + 1)
    ensures IndexedEntries(props, 0, n) != Holds
  {
    MissingFromBound(props, IndexBound(props));
    WalkToMissing(props, 0, IndexBound(props), n);
  }

  /** A walk that reaches a missing index throws there, whatever its bound
      beyond it. */
  lemma {:induction false} WalkToMissing(props: seq<(string, JsValue)>, i: nat, b: nat, n: int)
    requires i <= b < n && Lookup(props, Numerals.NatToDecimal(b)).None?
    ensures IndexedEntries(props, i, n) == IndexedEntries(props, i, b + 1)
    ensures IndexedEntries(props, i, n) != Holds
    decreases b - i
  {
    if i < b && FileEntryCheck(Lookup(props, Numerals.NatToDecimal(i))) == Holds {
      WalkToMissing(props, i + 1, b, n);
    }
  }

  /** A decimal numeral converts to its own value. */
  lemma DecimalTextWalk(n: nat)
    ensures StringWalk(Numerals.NatToDecimal(n)) == Indices(n)
  {
    var t := Numerals.NatToDecimal(n);
    assert Numerals.IsDigit(t[0]) && Numerals.IsDigit(t[|t| - 1]);
    assert t != "Infinity" by { assert t[0] != 'I'; }
    assert |t| > 2 ==> PrefixBase(t[1]) == 0 by {
      if |t| > 2 { assert Numerals.IsDigit(t[1]); }
    }
    MantissaOfDigits(t, 0);
    assert t[..0] == [];
    Numerals.DecimalValueOfNatToDecimal(n);
  }

  /** Reading the rest of a string of digits adds them to the value of
      those before. */
  lemma {:induction false} MantissaOfDigits(u: string, i: nat)
    requires Numerals.AllDigits(u) && i <= |u| && u != []
    ensures Mantissa(u, i, Numerals.DecimalValue(u[..i]), -1, i > 0) == Some((Numerals.DecimalValue(u), 0))
    decreases |u| - i
  {
    if i < |u| {
      assert u[..i + 1][..i] == u[..i];
      assert Numerals.IsDigit(u[i]);
      MantissaOfDigits(u, i + 1);
    } else {
      assert u[..i] == u;
    }
  }

  /** A files dictionary whose 'length' is the byte string "1": the text
      converts to 1, so `R.all` tests entry "0", which is missing, and the
      test of its properties throws. */
  lemma TextLengthThrows()
    ensures CheckFiles(Some(Get(BDict([("length", BString([0x31]))])))) == Throws
  {
    var props := [("length", JsBuf([0x31]))];
    OneLengthObject();
    BufferOneWalk();
    assert Lookup(props, "length") == Some(JsBuf([0x31]));
    assert CheckFiles(Some(JsObj(props))) == IndexedEntries(props, 0, 1);
    ZeroMissing(props);
  }

  /** `get()` of the dictionary makes an object whose only property is the
      'length' Buffer. */
  lemma OneLengthObject()
    ensures Get(BDict([("length", BString([0x31]))])) == JsObj([("length", JsBuf([0x31]))])
  {
    var e := [("length", BString([0x31]))];
    assert e[..0] == [];
  }

  /** An object without the key "0" throws at the first index. */
  lemma ZeroMissing(props: seq<(string, JsValue)>)
    requires "0" !in Keys(props)
    ensures IndexedEntries(props, 0, 1) == Throws
  {
    assert Numerals.NatToDecimal(0) == "0";
  }

  /** The Buffer holding "1" converts to the number 1. */
  lemma BufferOneWalk()
    ensures LengthWalk(Some(JsBuf([0x31]))) == Indices(1)
  {
    assert Utf8.Decode([0x31]) == "1";
    DecimalTextWalk(1);
    assert Numerals.NatToDecimal(1) == "1";
  }

  /** `checkInfoDictMultipleFiles(info)`: piece length, pieces and name, in
      that order, then the files. */
  function MultiFileCheck(info: JsValue): Verdict {
    if !IsNumber(Prop(info, "piece length")) then Fails
    else if !IsBuffer(Prop(info, "pieces")) then Fails
    else if !IsBuffer(Prop(info, "name")) then Fails
    else CheckFiles(Prop(info, "files"))
  }

  /** `checkInfoDict(token)`: the multi-file check when `'files' in token`,
      the single-file check otherwise. The `in` operator throws on a
      number, a string or a boolean. */
  function CheckInfoDict(token: JsValue): Verdict {
    match token
    case JsNum(_) => Throws
    case JsStr(_) => Throws
    case JsBool(_) => Throws
    case JsObj(props) =>
      if "files" in Keys(props) then MultiFileCheck(token)
      else if SingleFileCheck(token) then Holds else Fails
    case _ => if SingleFileCheck(token) then Holds else Fails
  }

  /** The `info` predicate: `R.is(Object, elem) && checkInfoDict(elem)`. */
  function InfoCheck(elem: Option<JsValue>): Verdict {
    if !IsObject(elem) then Fails else CheckInfoDict(elem.value)
  }

  /** The `R.where` of `convertBencodeDictInTorrentDict`: announce, then
      announce-list, then info. */
  function TorrentCheck(obj: JsValue): Verdict {
    if !IsBuffer(Prop(obj, "announce")) then Fails
    else if !IsArray(Prop(obj, "announce-list")) then Fails
    else InfoCheck(Prop(obj, "info"))
  }

  // ---- convertBencodeDictValues / convertBencodeListValues ----

  /** No token instance anywhere inside: what `get()` returns. */
  predicate TokenFree(v: JsValue) {
    match v
    case JsTok(_) => false
    case JsArr(vs) => forall x :: x in vs ==> TokenFree(x)
    case JsObj(props) => forall p :: p in props ==> TokenFree(p.1)
    case _ => true
  }

  /** The shape after conversion, for a value under a dictionary key: a
      Buffer only under an excluded key, and inside it everything
      converted. */
  predicate EntryForm(excl: seq<string>, key: string, v: JsValue)
    decreases v, 1
  {
    if v.JsBuf? then key in excl else ItemForm(excl, v)
  }

  /** The shape after conversion, for a list item: no Buffer at all at this
      level. */
  predicate ItemForm(excl: seq<string>, v: JsValue)
    decreases v, 0
  {
    match v
    case JsBuf(_) => false
    case JsTok(_) => false
    case JsArr(vs) => forall x :: x in vs ==> ItemForm(excl, x)
    case JsObj(props) => forall p :: p in props ==> EntryForm(excl, p.0, p.1)
    case _ => true
  }

  /** The callback of `convertBencodeDictValues`' `R.mapObjIndexed`: a Buffer
      under a key outside `excl` becomes its UTF-8 text; arrays and plain
      objects are converted inside; anything else stays. */
  function ConvertEntry(excl: seq<string>, key: string, v: JsValue): (r: JsValue)
    requires TokenFree(v)
    ensures TokenFree(r) && EntryForm(excl, key, r)
    decreases v, 1
  {
    match v
    case JsBuf(b) => if key in excl then v else JsStr(Utf8.Decode(b))
    case JsArr(vs) => JsArr(ConvertList(excl, vs))
    case JsObj(props) => JsObj(ConvertDict(excl, props))
    case _ => v
  }

  /** The callback of `convertBencodeListValues`' `R.map`: every Buffer
      becomes text, whatever the key above the list. */
  function ConvertItem(excl: seq<string>, v: JsValue): (r: JsValue)
    requires TokenFree(v)
    ensures TokenFree(r) && ItemForm(excl, r)
    decreases v, 1
  {
    match v
    case JsBuf(b) => JsStr(Utf8.Decode(b))
    case JsArr(vs) => JsArr(ConvertList(excl, vs))
    case JsObj(props) => JsObj(ConvertDict(excl, props))
    case _ => v
  }

  /** `convertBencodeDictValues(excl)(obj)`: every entry converted in place,
      keys and their order unchanged. */
  function ConvertDict(excl: seq<string>, props: seq<(string, JsValue)>): (r: seq<(string, JsValue)>)
    requires forall p :: p in props ==> TokenFree(p.1)
    ensures |r| == |props| && Keys(r) == Keys(props)
    ensures forall p :: p in r ==> TokenFree(p.1) && EntryForm(excl, p.0, p.1)
    decreases props, 0
  {
    if props == [] then []
    else
      var last := props[|props| - 1];
      assert last in props && last.1 < last;
      ConvertDict(excl, props[..|props| - 1]) + [(last.0, ConvertEntry(excl, last.0, last.1))]
  }

  /** `convertBencodeListValues(excl)(list)`: every item converted, order
      and length unchanged. */
  function ConvertList(excl: seq<string>, vs: seq<JsValue>): (r: seq<JsValue>)
    requires forall x :: x in vs ==> TokenFree(x)
    ensures |r| == |vs|
    ensures forall i :: 0 <= i < |vs| ==> r[i] == ConvertItem(excl, vs[i])
    ensures forall x :: x in r ==> TokenFree(x) && ItemForm(excl, x)
    decreases vs, 0
  {
    if vs == [] then []
    else
      var last := vs[|vs| - 1];
      assert last in vs;
      ConvertList(excl, vs[..|vs| - 1]) + [ConvertItem(excl, last)]
  }

  /** Each entry is converted where it stands. */
  lemma {:induction false} ConvertDictAt(excl: seq<string>, props: seq<(string, JsValue)>, i: nat)
    requires forall p :: p in props ==> TokenFree(p.1)
    requires i < |props|
    ensures props[i] in props && TokenFree(props[i].1)
    ensures ConvertDict(excl, props)[i] == (props[i].0, ConvertEntry(excl, props[i].0, props[i].1))
    decreases |props|
  {
    assert props[i] in props;
    if i < |props| - 1 {
      ConvertDictAt(excl, props[..|props| - 1], i);
    }
  }

  /** A value already in converted form is left as it is, so converting
      twice is converting once. */
  lemma {:induction false} EntryFixed(excl: seq<string>, key: string, v: JsValue)
    requires TokenFree(v) && EntryForm(excl, key, v)
    ensures ConvertEntry(excl, key, v) == v
    decreases v, 1
  {
    if !v.JsBuf? {
      ItemFixed(excl, v);
    }
  }

  lemma {:induction false} ItemFixed(excl: seq<string>, v: JsValue)
    requires TokenFree(v) && ItemForm(excl, v)
    ensures ConvertItem(excl, v) == v
    ensures !v.JsBuf? ==> ConvertEntry(excl, "", v) == v
    decreases v, 0
  {
    match v
    case JsArr(vs) =>
      var r := ConvertList(excl, vs);
      forall i | 0 <= i < |vs| ensures r[i] == vs[i] {
        assert vs[i] in vs;
        ItemFixed(excl, vs[i]);
      }
    case JsObj(props) =>
      var r := ConvertDict(excl, props);
      forall i | 0 <= i < |props| ensures r[i] == props[i] {
        ConvertDictAt(excl, props, i);
        assert props[i].1 < props[i];
        EntryFixed(excl, props[i].0, props[i].1);
      }
    case _ =>
  }

  /** Conversion is idempotent. */
  lemma ConvertTwice(excl: seq<string>, key: string, v: JsValue)
    requires TokenFree(v)
    ensures ConvertEntry(excl, key, ConvertEntry(excl, key, v)) == ConvertEntry(excl, key, v)
  {
    EntryFixed(excl, key, ConvertEntry(excl, key, v));
  }

  // ---- R.pick ----

  /** `R.pick(names, obj)`: for each name in turn that `obj` has, the entry
      is put into a fresh object. */
  function Pick(names: seq<string>, obj: seq<(string, JsValue)>): (r: seq<(string, JsValue)>)
  {
    if names == [] then []
    else
      var rest := Pick(names[..|names| - 1], obj);
      var name := names[|names| - 1];
      match Lookup(obj, name)
      case Some(v) => Put(rest, name, v)
      case None => rest
  }

  /** The picked object reads a name's value exactly when the name is
      listed, is not `__proto__`, and the source object has it. */
  lemma {:induction false} PickLookup(names: seq<string>, obj: seq<(string, JsValue)>, k: string)
    ensures Lookup(Pick(names, obj), k) == if k in names && k != PROTO then Lookup(obj, k) else None
    decreases |names|
  {
    if names != [] {
      var front := names[..|names| - 1];
      var name := names[|names| - 1];
      PickLookup(front, obj, k);
      assert names == front + [name];
      match Lookup(obj, name)
      case Some(v) => PutLookup(Pick(front, obj), name, v, k);
      case None =>
    }
  }

  /** The picked object has each key once and only listed keys. */
  lemma {:induction false} PickKeys(names: seq<string>, obj: seq<(string, JsValue)>)
    ensures DistinctKeys(Pick(names, obj))
    ensures forall k :: k in Keys(Pick(names, obj)) ==> k in names && k in Keys(obj)
    decreases |names|
  {
    if names != [] {
      var front := names[..|names| - 1];
      var name := names[|names| - 1];
      PickKeys(front, obj);
      match Lookup(obj, name)
      case Some(v) =>
        PutKeys(Pick(front, obj), name, v);
        KeyFound(obj, name);
      case None =>
    }
  }

  // ---- convertBencodeDictInTorrentDict ----

  /** `Maybe<TorrentDict>`, or the TypeError a check can throw. */
  datatype Conversion = Converted(dict: seq<(string, JsValue)>) | NotATorrent | Threw

  /** `convertBencodeDictInTorrentDict(bdict)`. Only a `BencodeDict` gets an
      object to check (its `get()`); for anything else the helper returns
      `undefined` and `R.where` throws reading a property of it. An accepted
      dictionary has its Buffers turned into text, except under 'pieces',
      and keeps only the torrent keys. */
  function ConvertTorrent(input: JsValue): (r: Conversion)
    ensures !(input.JsTok? && input.token.BDict?) ==> r == Threw
  {
    if !(input.JsTok? && input.token.BDict?) then Threw
    else
      var obj := Get(input.token);
      match TorrentCheck(obj)
      case Holds => Converted(TorrentDict(input.token.entries))
      case Fails => NotATorrent
      case Throws => Threw
  }

  /** `R.pick(TORRENT_DICT_KEYS)` of `convertBencodeDictValues(['pieces'])`
      of the dictionary's `get()`. */
  function TorrentDict(e: seq<(string, Token)>): seq<(string, JsValue)> {
    TokenFreeGet(BDict(e));
    Pick(TORRENT_DICT_KEYS, ConvertDict(EXCLUDED_KEYS, GetEntries(e)))
  }

  // ---- get() and the checks ----

  /** `get()` never leaves a token inside. */
  lemma {:induction false} TokenFreeGet(t: Token)
    ensures TokenFree(Get(t))
    decreases t, 1
  {
    match t
    case BList(items) =>
      forall x | x in GetAll(items) ensures TokenFree(x) {
        var i :| 0 <= i < |GetAll(items)| && GetAll(items)[i] == x;
        GetAllAt(items, i);
        assert items[i] in items;
        TokenFreeGet(items[i]);
      }
    case BDict(e) =>
      forall p | p in GetEntries(e) ensures TokenFree(p.1) {
        var i :| 0 <= i < |GetEntries(e)| && GetEntries(e)[i] == p;
        GetEntriesAt(e, i);
        assert e[i] in e && e[i].1 < e[i];
        TokenFreeGet(e[i].1);
      }
    case _ =>
  }

  lemma {:induction false} GetAllAt(items: seq<Token>, i: nat)
    requires i < |items|
    ensures GetAll(items)[i] == Get(items[i])
    decreases |items|
  {
    if i < |items| - 1 {
      GetAllAt(items[..|items| - 1], i);
    }
  }

  lemma {:induction false} GetEntriesAt(e: seq<(string, Token)>, i: nat)
    requires i < |e|
    ensures GetEntries(e)[i] == (e[i].0, Get(e[i].1))
    decreases |e|
  {
    if i < |e| - 1 {
      GetEntriesAt(e[..|e| - 1], i);
    } else {
      assert Keys(GetEntries(e))[i] == Keys(e)[i];
    }
  }

  /** Objects with the same keys in the same order find a key at the same
      place. */
  lemma FindSameKeys<U, V>(a: seq<(string, U)>, b: seq<(string, V)>, k: string)
    requires Keys(a) == Keys(b)
    ensures Find(a, k) == Find(b, k)
  {
    assert forall i :: 0 <= i < |a| ==> a[i].0 == Keys(a)[i] == Keys(b)[i] == b[i].0;
  }

  /** A property of `get()`'s object is `get()` of the token's entry. */
  lemma PropOfGet(e: seq<(string, Token)>, k: string)
    ensures Prop(Get(BDict(e)), k) == match Lookup(e, k)
      case Some(t) => Some(Get(t))
      case None => None
  {
    FindSameKeys(GetEntries(e), e, k);
    if Find(e, k).Some? {
      GetEntriesAt(e, Find(e, k).value);
    }
  }

  /** The key holds a byte string. */
  predicate HasString(e: seq<(string, Token)>, k: string) {
    Lookup(e, k).Some? && Lookup(e, k).value.BString?
  }

  /** The key holds an integer. */
  predicate HasInteger(e: seq<(string, Token)>, k: string) {
    Lookup(e, k).Some? && Lookup(e, k).value.BInt?
  }

  /** The key holds a list. */
  predicate HasList(e: seq<(string, Token)>, k: string) {
    Lookup(e, k).Some? && Lookup(e, k).value.BList?
  }

  /** The key holds a dictionary. */
  predicate HasDict(e: seq<(string, Token)>, k: string) {
    Lookup(e, k).Some? && Lookup(e, k).value.BDict?
  }

  /** What the type tests see in `get()`'s object: a Buffer for a byte
      string, a number for an integer, an array for a list. */
  lemma PropKinds(e: seq<(string, Token)>, k: string)
    ensures IsBuffer(Prop(Get(BDict(e)), k)) <==> HasString(e, k)
    ensures IsNumber(Prop(Get(BDict(e)), k)) <==> HasInteger(e, k)
    ensures IsArray(Prop(Get(BDict(e)), k)) <==> HasList(e, k)
  {
    PropOfGet(e, k);
  }

  /** `get()` of a dictionary is an object with the same keys. */
  lemma ObjectOfGet(e: seq<(string, Token)>)
    ensures Get(BDict(e)) == JsObj(GetEntries(e)) && Keys(GetEntries(e)) == Keys(e)
  {
  }

  /** A decoded info dictionary without 'files' is accepted exactly when
      'pieces' is a byte string, 'piece length' an integer, 'name' a byte
      string and 'length' an integer. */
  lemma SingleFileAccepts(info: seq<(string, Token)>)
    requires "files" !in Keys(info)
    ensures var r := CheckInfoDict(Get(BDict(info)));
      && r != Throws
      && (r == Holds <==>
          && HasString(info, "pieces") && HasInteger(info, "piece length")
          && HasString(info, "name") && HasInteger(info, "length"))
  {
    ObjectOfGet(info);
    PropKinds(info, "pieces");
    PropKinds(info, "piece length");
    PropKinds(info, "name");
    PropKinds(info, "length");
  }

  /** A file entry of a decoded list: a dictionary whose 'length' is an
      integer and whose 'path' is a list. */
  predicate FileEntry(t: Token) {
    t.BDict? && HasInteger(t.entries, "length") && HasList(t.entries, "path")
  }

  /** `R.all` over a decoded list of files never throws, and holds exactly
      when every entry is a file entry. */
  lemma {:induction false} FilesListAccepts(files: seq<Token>)
    ensures var r := AllEntries(GetAll(files));
      r != Throws && (r == Holds <==> forall i :: 0 <= i < |files| ==> FileEntry(files[i]))
    decreases |files|
  {
    if files != [] {
      FilesListAccepts(files[1..]);
      GetAllTail(files);
      EntryAccepts(files[0]);
      GetAllAt(files, 0);
      AllFilesSplit(files);
    }
  }

  lemma AllFilesSplit(files: seq<Token>)
    requires files != []
    ensures (forall i :: 0 <= i < |files| ==> FileEntry(files[i])) <==>
      FileEntry(files[0]) && forall i :: 0 <= i < |files[1..]| ==> FileEntry(files[1..][i])
  {
    if FileEntry(files[0]) && forall i :: 0 <= i < |files[1..]| ==> FileEntry(files[1..][i]) {
      forall i | 0 < i < |files| ensures FileEntry(files[i]) {
        assert files[i] == files[1..][i - 1];
      }
    }
  }

  lemma GetAllTail(items: seq<Token>)
    requires items != []
    ensures GetAll(items)[1..] == GetAll(items[1..])
  {
    var g := GetAll(items);
    var t := GetAll(items[1..]);
    forall i | 0 <= i < |t| ensures g[1..][i] == t[i] {
      GetAllAt(items, i + 1);
      GetAllAt(items[1..], i);
    }
  }

  /** One decoded file entry passes `checkFiles`' test exactly when it is a
      file entry. */
  lemma EntryAccepts(t: Token)
    ensures FileEntryCheck(Some(Get(t))) == Holds <==> FileEntry(t)
  {
    if t.BDict? {
      PropKinds(t.entries, "length");
      PropKinds(t.entries, "path");
    }
  }

  /** A decoded info dictionary with a list of files is accepted exactly
      when 'piece length' is an integer, 'pieces' and 'name' byte strings,
      and every file entry has an integer 'length' and a list 'path'. */
  lemma MultiFileAccepts(info: seq<(string, Token)>, files: seq<Token>)
    requires Lookup(info, "files") == Some(BList(files))
    ensures var r := CheckInfoDict(Get(BDict(info)));
      && r != Throws
      && (r == Holds <==>
          && HasInteger(info, "piece length") && HasString(info, "pieces") && HasString(info, "name")
          && forall i :: 0 <= i < |files| ==> FileEntry(files[i]))
  {
    var v := Get(BDict(info));
    MultiFileBranch(info);
    PropOfGet(info, "files");
    assert CheckFiles(Prop(v, "files")) == AllEntries(GetAll(files));
    FilesListAccepts(files);
  }

  /** An info dictionary with 'files' goes to the multi-file check, which
      reads 'piece length', 'pieces' and 'name' before the files. */
  lemma MultiFileBranch(info: seq<(string, Token)>)
    requires "files" in Keys(info)
    ensures var v := Get(BDict(info));
      CheckInfoDict(v) == if HasInteger(info, "piece length") && HasString(info, "pieces") && HasString(info, "name")
        then CheckFiles(Prop(v, "files")) else Fails
  {
    var v := Get(BDict(info));
    ObjectOfGet(info);
    assert CheckInfoDict(v) == MultiFileCheck(v);
    PropKinds(info, "piece length");
    PropKinds(info, "pieces");
    PropKinds(info, "name");
  }

  /** `R.all` treats a number as an empty list: an info dictionary whose
      'files' is an integer passes the multi-file check on its other keys
      alone. */
  lemma FilesNumberPasses(info: seq<(string, Token)>, n: JsNumber)
    requires Lookup(info, "files") == Some(BInt(n))
    ensures CheckInfoDict(Get(BDict(info))) == Holds <==>
      HasInteger(info, "piece length") && HasString(info, "pieces") && HasString(info, "name")
  {
    KeyFound(info, "files");
    MultiFileBranch(info);
    PropOfGet(info, "files");
  }

  // ---- What the conversion accepts and returns ----

  /** The `info` test on a decoded value: only a dictionary can pass, and
      any other value fails without an exception. */
  lemma InfoOfToken(t: Token)
    ensures !t.BDict? ==> InfoCheck(Some(Get(t))) == Fails
    ensures t.BDict? ==> InfoCheck(Some(Get(t))) == CheckInfoDict(Get(t))
  {
  }

  /** A decoded dictionary is rejected, never with an exception, when its
      announce is not a byte string, its announce-list not a list, or its
      info not a dictionary: a missing info, a numeric announce and a string
      info all give None. */
  lemma Rejections(e: seq<(string, Token)>)
    requires !HasString(e, "announce") || !HasList(e, "announce-list") || !HasDict(e, "info")
    ensures ConvertTorrent(JsTok(BDict(e))) == NotATorrent
  {
    PropKinds(e, "announce");
    PropKinds(e, "announce-list");
    PropOfGet(e, "info");
    if Lookup(e, "info").Some? {
      InfoOfToken(Lookup(e, "info").value);
    }
  }

  /** A decoded dictionary is accepted exactly when announce is a byte
      string, announce-list a list, and info a dictionary that
      `checkInfoDict` accepts. */
  lemma Acceptance(e: seq<(string, Token)>)
    ensures ConvertTorrent(JsTok(BDict(e))).Converted? <==>
      && HasString(e, "announce") && HasList(e, "announce-list") && HasDict(e, "info")
      && CheckInfoDict(Get(Lookup(e, "info").value)) == Holds
  {
    if !HasString(e, "announce") || !HasList(e, "announce-list") || !HasDict(e, "info") {
      Rejections(e);
    } else {
      PropKinds(e, "announce");
      PropKinds(e, "announce-list");
      PropOfGet(e, "info");
      InfoOfToken(Lookup(e, "info").value);
    }
  }

  /** The value a torrent key of the input holds after conversion. */
  function ConvertToken(key: string, t: Token): JsValue {
    TokenFreeGet(t);
    ConvertEntry(EXCLUDED_KEYS, key, Get(t))
  }

  /** Converting an object and then reading a key reads the converted
      value. */
  lemma ConvertLookup(excl: seq<string>, props: seq<(string, JsValue)>, k: string)
    requires forall p :: p in props ==> TokenFree(p.1)
    ensures Lookup(ConvertDict(excl, props), k).Some? == Lookup(props, k).Some?
    ensures Lookup(props, k).Some? ==> TokenFree(Lookup(props, k).value)
    ensures Lookup(props, k).Some? ==>
      Lookup(ConvertDict(excl, props), k).value == ConvertEntry(excl, k, Lookup(props, k).value)
  {
    var c := ConvertDict(excl, props);
    FindSameKeys(c, props, k);
    if Find(props, k).Some? {
      ConvertDictAt(excl, props, Find(props, k).value);
    }
  }

  /** The dictionary an accepted input becomes. */
  lemma ConvertedIs(e: seq<(string, Token)>)
    requires ConvertTorrent(JsTok(BDict(e))).Converted?
    ensures forall p :: p in GetEntries(e) ==> TokenFree(p.1)
    ensures ConvertTorrent(JsTok(BDict(e))).dict == Pick(TORRENT_DICT_KEYS, ConvertDict(EXCLUDED_KEYS, GetEntries(e)))
  {
    TokenFreeGet(BDict(e));
    assert ConvertTorrent(JsTok(BDict(e))).dict == TorrentDict(e);
  }

  /** The accepted dictionary keeps exactly the torrent keys the input has,
      each once, with its value converted. */
  lemma ConvertedEntries(e: seq<(string, Token)>, k: string)
    requires ConvertTorrent(JsTok(BDict(e))).Converted?
    ensures var d := ConvertTorrent(JsTok(BDict(e))).dict;
      && DistinctKeys(d)
      && Lookup(d, k) == if k in TORRENT_DICT_KEYS && Lookup(e, k).Some?
        then Some(ConvertToken(k, Lookup(e, k).value)) else None
  {
    ConvertedIs(e);
    PickedEntries(e, k);
  }

  lemma PickedEntries(e: seq<(string, Token)>, k: string)
    requires forall p :: p in GetEntries(e) ==> TokenFree(p.1)
    ensures var d := Pick(TORRENT_DICT_KEYS, ConvertDict(EXCLUDED_KEYS, GetEntries(e)));
      && DistinctKeys(d)
      && Lookup(d, k) == if k in TORRENT_DICT_KEYS && Lookup(e, k).Some?
        then Some(ConvertToken(k, Lookup(e, k).value)) else None
  {
    PickedConverted(GetEntries(e), k);
    PropOfGet(e, k);
    ObjectOfGet(e);
  }

  /** Picking the torrent keys out of a converted object keeps each one
      the object has, converted, and nothing else. */
  lemma PickedConverted(props: seq<(string, JsValue)>, k: string)
    requires forall p :: p in props ==> TokenFree(p.1)
    ensures var d := Pick(TORRENT_DICT_KEYS, ConvertDict(EXCLUDED_KEYS, props));
      && DistinctKeys(d)
      && Lookup(d, k) == if k in TORRENT_DICT_KEYS && Lookup(props, k).Some?
        then Some(ConvertEntry(EXCLUDED_KEYS, k, Lookup(props, k).value)) else None
  {
    var c := ConvertDict(EXCLUDED_KEYS, props);
    assert PROTO !in TORRENT_DICT_KEYS;
    PickLookup(TORRENT_DICT_KEYS, c, k);
    PickKeys(TORRENT_DICT_KEYS, c);
    ConvertLookup(EXCLUDED_KEYS, props, k);
  }

  /** In the accepted dictionary the announce URL is text, and the info
      dictionary's pieces hashes are still the raw bytes. */
  lemma ConvertedFields(e: seq<(string, Token)>, announce: seq<byte>, info: seq<(string, Token)>, pieces: seq<byte>)
    requires ConvertTorrent(JsTok(BDict(e))).Converted?
    requires Lookup(e, "announce") == Some(BString(announce))
    requires Lookup(e, "info") == Some(BDict(info)) && Lookup(info, "pieces") == Some(BString(pieces))
    ensures var d := ConvertTorrent(JsTok(BDict(e))).dict;
      && Lookup(d, "announce") == Some(JsStr(Utf8.Decode(announce)))
      && Lookup(d, "info").Some? && Lookup(d, "info").value.JsObj?
      && Lookup(Lookup(d, "info").value.props, "pieces") == Some(JsBuf(pieces))
  {
    ConvertedEntries(e, "announce");
    ConvertedEntries(e, "info");
    AnnounceText(announce);
    PiecesKept(info, pieces);
  }

  /** A byte string outside 'pieces' becomes its UTF-8 text. */
  lemma AnnounceText(announce: seq<byte>)
    ensures ConvertToken("announce", BString(announce)) == JsStr(Utf8.Decode(announce))
  {
    assert "announce" !in EXCLUDED_KEYS;
  }

  /** Converting an info dictionary leaves its 'pieces' bytes as they are. */
  lemma PiecesKept(info: seq<(string, Token)>, pieces: seq<byte>)
    requires Lookup(info, "pieces") == Some(BString(pieces))
    ensures ConvertToken("info", BDict(info)).JsObj?
    ensures Lookup(ConvertToken("info", BDict(info)).props, "pieces") == Some(JsBuf(pieces))
  {
    InfoConverted(info);
    PropOfGet(info, "pieces");
    BufKept(GetEntries(info), pieces);
  }

  /** Converting a dictionary token converts the object `get()` builds. */
  lemma InfoConverted(info: seq<(string, Token)>)
    ensures forall p :: p in GetEntries(info) ==> TokenFree(p.1)
    ensures ConvertToken("info", BDict(info)) == JsObj(ConvertDict(EXCLUDED_KEYS, GetEntries(info)))
  {
    TokenFreeGet(BDict(info));
    ObjectOfGet(info);
  }

  /** A Buffer under 'pieces' is kept as it is. */
  lemma BufKept(props: seq<(string, JsValue)>, pieces: seq<byte>)
    requires forall p :: p in props ==> TokenFree(p.1)
    requires Lookup(props, "pieces") == Some(JsBuf(pieces))
    ensures Lookup(ConvertDict(EXCLUDED_KEYS, props), "pieces") == Some(JsBuf(pieces))
  {
    ConvertLookup(EXCLUDED_KEYS, props, "pieces");
    assert "pieces" in EXCLUDED_KEYS;
  }

  /** Every Buffer left in the accepted dictionary sits directly under a
      'pieces' key. */
  lemma ConvertedForm(e: seq<(string, Token)>)
    requires ConvertTorrent(JsTok(BDict(e))).Converted?
    ensures forall p :: p in ConvertTorrent(JsTok(BDict(e))).dict ==> EntryForm(EXCLUDED_KEYS, p.0, p.1)
  {
    ConvertedIs(e);
    PickFrom(TORRENT_DICT_KEYS, ConvertDict(EXCLUDED_KEYS, GetEntries(e)));
  }

  /** Every entry of a picked object is an entry of the source object. */
  lemma {:induction false} PickFrom(names: seq<string>, obj: seq<(string, JsValue)>)
    ensures forall p :: p in Pick(names, obj) ==> p in obj
    decreases |names|
  {
    if names != [] {
      var front := names[..|names| - 1];
      var name := names[|names| - 1];
      PickFrom(front, obj);
      match Lookup(obj, name)
      case Some(v) =>
        var rest := Pick(front, obj);
        var i := Find(obj, name).value;
        assert obj[i] == (name, v);
        forall p | p in Put(rest, name, v) ensures p in obj {
          var j :| 0 <= j < |Put(rest, name, v)| && Put(rest, name, v)[j] == p;
          if j < |rest| && rest[j].0 != name {
            assert rest[j] in rest;
          }
        }
      case None =>
    }
  }
}
