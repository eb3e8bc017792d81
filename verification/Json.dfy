/** The JavaScript values a parsed JSON document can hold, with the coercions the
    import code applies to them. */
module Json {
  import opened Prelude

  datatype Entry = Entry(key: string, value: JValue)

  /** A number keeps only its `String` form and whether it is zero. */
  datatype JValue =
    | JNull
    | JBool(b: bool)
    | JNum(text: string, zero: bool)
    | JStr(s: string)
    | JArr(elems: seq<JValue>)
    | JObj(entries: seq<Entry>)

  // --- property access -------------------------------------------------------

  /** `obj[k]`; None is `undefined`. */
  function Get(es: seq<Entry>, k: string): Option<JValue> {
    if es == [] then None
    else if es[0].key == k then Some(es[0].value)
    else Get(es[1..], k)
  }

  predicate HasKey(es: seq<Entry>, k: string) {
    exists i :: 0 <= i < |es| && es[i].key == k
  }

  lemma {:induction false} GetFirst(es: seq<Entry>, i: nat)
    requires i < |es|
    requires forall j :: 0 <= j < i ==> es[j].key != es[i].key
    ensures Get(es, es[i].key) == Some(es[i].value)
  {
    if i > 0 {
      assert es[1..][i - 1] == es[i];
      GetFirst(es[1..], i - 1);
    }
  }

  lemma {:induction false} GetMissing(es: seq<Entry>, k: string)
    ensures Get(es, k) == None <==> !HasKey(es, k)
  {
    if es != [] {
      GetMissing(es[1..], k);
      if HasKey(es[1..], k) {
        var i :| 0 <= i < |es[1..]| && es[1..][i].key == k;
        assert es[i + 1].key == k;
      }
      if HasKey(es, k) && es[0].key != k {
        var i :| 0 <= i < |es| && es[i].key == k;
        assert es[1..][i - 1].key == k;
      }
    }
  }

  lemma {:induction false} GetConcat(a: seq<Entry>, b: seq<Entry>, k: string)
    ensures Get(a + b, k) == if Get(a, k).Some? then Get(a, k) else Get(b, k)
  {
    if a == [] {
      assert a + b == b;
    } else {
      assert (a + b)[1..] == a[1..] + b;
      GetConcat(a[1..], b, k);
    }
  }

  /** The enumerable properties an object spread copies. */
  function Properties(v: JValue): seq<Entry> {
    match v
    case JObj(es) => es
    case JArr(a) => seq(|a|, i requires 0 <= i < |a| => Entry(Decimal(i), a[i]))
    case JStr(s) => seq(|s|, i requires 0 <= i < |s| => Entry(Decimal(i), JStr([s[i]])))
    case _ => []
  }

  predicate DistinctKeys(es: seq<Entry>) {
    forall i, j :: 0 <= i < j < |es| ==> es[i].key != es[j].key
  }

  /** A name spelled like an array index, which JavaScript lists before the others. */
  predicate IntegerLike(k: string) {
    k != "" && (k[0] != '0' || |k| == 1) && forall i :: 0 <= i < |k| ==> '0' <= k[i] <= '9'
  }

  /** A value that keeps its form when it is printed and parsed: at every level the
      names are distinct and not integer-like, and the numbers are as they print. */
  predicate Plain(parse: string -> Option<JValue>, v: JValue) {
    match v
    case JNum(text, _) => parse(text) == Some(v)
    case JArr(a) => forall i :: 0 <= i < |a| ==> Plain(parse, a[i])
    case JObj(es) => DistinctKeys(es) && forall i :: 0 <= i < |es| ==>
        !IntegerLike(es[i].key) && Plain(parse, es[i].value)
    case _ => true
  }

  function Overlay(over: seq<Entry>, e: Entry): Entry {
    match Get(over, e.key)
    case Some(v) => Entry(e.key, v)
    case None => e
  }

  /** `{ ...base, ...over }`: base keys keep their place, new keys follow. */
  function Spread(base: seq<Entry>, over: seq<Entry>): seq<Entry> {
    Map(e => Overlay(over, e), base) + Filter((e: Entry) => !HasKey(base, e.key), over)
  }

  /** Completing an object with defaults a second time changes nothing. */
  lemma SpreadIdempotent(base: seq<Entry>, over: seq<Entry>)
    requires DistinctKeys(base)
    ensures Spread(base, Spread(base, over)) == Spread(base, over)
  {
    var known := Map(e => Overlay(over, e), base);
    var isNew := (e: Entry) => !HasKey(base, e.key);
    var extra := Filter(isNew, over);
    var all := known + extra;
    forall i | 0 <= i < |base| ensures Overlay(all, base[i]) == all[i] {
      GetFirst(all, i);
    }
    assert Map(e => Overlay(all, e), base) == known;
    forall e | e in known ensures !isNew(e) {
      var i :| 0 <= i < |known| && known[i] == e;
      assert base[i].key == e.key;
    }
    FilterConcat(isNew, known, extra);
    FilterNone(isNew, known);
    FilterAll(isNew, extra);
    assert Filter(isNew, all) == extra;
  }

  // --- coercions -------------------------------------------------------------

  function Truthy(v: JValue): bool {
    match v
    case JNull => false
    case JBool(b) => b
    case JNum(_, zero) => !zero
    case JStr(s) => s != ""
    case _ => true
  }

  predicate IsObject(v: JValue) {
    v.JArr? || v.JObj?
  }

  /** `String(v)`. None is the TypeError JavaScript raises for an object whose own
      `toString` property is data rather than a function. */
  function JsString(v: JValue): Option<string> {
    match v
    case JNull => Some("null")
    case JBool(b) => Some(if b then "true" else "false")
    case JNum(text, _) => Some(text)
    case JStr(s) => Some(s)
    case JArr(a) =>
      (match ElementStrings(a)
       case Some(parts) => Some(Join(parts, ","))
       case None => None)
    case JObj(es) => if HasKey(es, "toString") then None else Some("[object Object]")
  }

  /** The parts `Array.prototype.join` puts together; null becomes "". */
  function ElementStrings(a: seq<JValue>): Option<seq<string>> {
    if a == [] then Some([])
    else
      var first := if a[0].JNull? then Some("") else JsString(a[0]);
      var rest := ElementStrings(a[1..]);
      if first.Some? && rest.Some? then Some([first.value] + rest.value) else None
  }

  /** `v == null ? "" : String(v)`, where None stands for undefined. */
  function TextOf(v: Option<JValue>): Option<string> {
    if v.None? || v.value.JNull? then Some("") else JsString(v.value)
  }

  /** What `String` accepts: no object whose own `toString` hides the inherited one. */
  predicate Convertible(v: JValue) {
    match v
    case JArr(a) => forall i :: 0 <= i < |a| ==> Convertible(a[i])
    case JObj(es) => !HasKey(es, "toString")
    case _ => true
  }

  lemma {:induction false} ConvertsExactly(v: JValue)
    ensures JsString(v).Some? <==> Convertible(v)
  {
    if v.JArr? {
      ElementsConvert(v.elems);
    }
  }

  lemma {:induction false} ElementsConvert(a: seq<JValue>)
    ensures ElementStrings(a).Some? <==> forall i :: 0 <= i < |a| ==> Convertible(a[i])
  {
    if a != [] {
      ConvertsExactly(a[0]);
      ElementsConvert(a[1..]);
      assert forall i :: 0 < i < |a| ==> a[i] == a[1..][i - 1];
    }
  }

  lemma TextConverts(v: Option<JValue>)
    ensures TextOf(v).Some? <==> v.Some? ==> Convertible(v.value)
  {
    if v.Some? {
      ConvertsExactly(v.value);
    }
  }

  // --- strings ---------------------------------------------------------------

  /** The characters that `trim` strips and `\s` matches. */
  predicate IsSpace(c: char) {
    c == ' ' || '\t' <= c <= '\r' || c == '\U{A0}' || c == '\U{1680}' || '\U{2000}' <= c <= '\U{200A}'
    || c == '\U{2028}' || c == '\U{2029}' || c == '\U{202F}' || c == '\U{205F}' || c == '\U{3000}' || c == '\U{FEFF}'
  }

  function TrimStart(s: string): string {
    if s != "" && IsSpace(s[0]) then TrimStart(s[1..]) else s
  }

  function TrimEnd(s: string): string {
    if s != "" && IsSpace(s[|s| - 1]) then TrimEnd(s[..|s| - 1]) else s
  }

  function Trim(s: string): string {
    TrimEnd(TrimStart(s))
  }

  /** `toLowerCase` on ASCII; no other character lower-cases into the ASCII words
      the import code compares with. */
  function LowerChar(c: char): char {
    if 'A' <= c <= 'Z' then c - 'A' + 'a' else c
  }

  function Lower(s: string): string {
    Map(LowerChar, s)
  }
}
