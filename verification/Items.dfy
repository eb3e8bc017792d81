/** `normalizeItemFields` and `blankFields` of
    clients/packages/api-client/src/session.ts. */
module Items {
  import opened Prelude
  import opened Json

  datatype Kind = Login | Note | Card | Identity

  datatype CustomField = CustomField(name: string, value: string, hidden: bool)

  /** The flat text columns every item carries. */
  datatype Columns = Columns(
    name: string, url: string, username: string, password: string, totp: string, notes: string, folder: string)

  /** A normalised vault item. `extra` holds the unknown keys that are preserved. */
  datatype Item = Item(
    kind: Kind, columns: Columns, card: seq<Entry>, identity: seq<Entry>, fields: seq<CustomField>,
    favorite: bool, extra: seq<Entry>)

  function Blank(k: string): Entry { Entry(k, JStr("")) }

  const BLANK_CARD: seq<Entry> :=
      [Blank("cardholder"), Blank("number"), Blank("expMonth"), Blank("expYear"), Blank("cvv")]
  const BLANK_IDENTITY: seq<Entry> :=
      [Blank("fullName"), Blank("email"), Blank("phone"), Blank("address"), Blank("company")]

  /** The keys of ItemFields, in the order blankFields writes them. */
  const KEYS: seq<string> :=
    ["type", "name", "username", "password", "url", "totp", "notes", "card", "identity", "fields", "favorite", "folder"]

  /** The keys of the flat text columns. */
  const TEXT_KEYS: seq<string> := ["name", "url", "username", "password", "totp", "notes", "folder"]

  function KindName(k: Kind): string {
    match k case Login => "login" case Note => "note" case Card => "card" case Identity => "identity"
  }

  function KindOf(v: Option<JValue>): Kind {
    if v == Some(JStr("note")) then Note
    else if v == Some(JStr("card")) then Card
    else if v == Some(JStr("identity")) then Identity
    else Login
  }

  /** `{ ...blank, ...(v && typeof v === "object" ? v : {}) }` */
  function Details(blank: seq<Entry>, v: Option<JValue>): seq<Entry> {
    Spread(blank, if v.Some? && IsObject(v.value) then Properties(v.value) else [])
  }

  function Prop(v: JValue, k: string): Option<JValue> {
    if v.JObj? then Get(v.entries, k) else None
  }

  function FieldOf(f: JValue): Option<CustomField> {
    var name, value := TextOf(Prop(f, "label")), TextOf(Prop(f, "value"));
    var hidden := Prop(f, "hidden");
    if name.Some? && value.Some?
    then Some(CustomField(name.value, value.value, hidden.Some? && Truthy(hidden.value)))
    else None
  }

  function FieldsOf(a: seq<JValue>): Option<seq<CustomField>> {
    if a == [] then Some([])
    else
      var rest := FieldsOf(a[1..]);
      if !IsObject(a[0]) then rest
      else
        var first := FieldOf(a[0]);
        if first.Some? && rest.Some? then Some([first.value] + rest.value) else None
  }

  function FavoriteOf(v: Option<JValue>): Option<bool> {
    match v
    case None => Some(false)
    case Some(x) =>
      if x == JBool(true) then Some(true)
      else match JsString(x)
           case Some(s) => Some(Lower(s) in ["1", "true", "yes"])
           case None => None
  }

  predicate Declared(k: string) { k in KEYS }

  predicate IsExtra(e: Entry) { !Declared(e.key) }

  function ExtraOf(raw: seq<Entry>): seq<Entry> {
    Filter(IsExtra, raw)
  }

  function ColumnsOf(raw: seq<Entry>): Option<Columns> {
    var name, url, username := TextOf(Get(raw, "name")), TextOf(Get(raw, "url")), TextOf(Get(raw, "username"));
    var password, totp := TextOf(Get(raw, "password")), TextOf(Get(raw, "totp"));
    var notes, folder := TextOf(Get(raw, "notes")), TextOf(Get(raw, "folder"));
    if name.Some? && url.Some? && username.Some? && password.Some? && totp.Some? && notes.Some? && folder.Some?
    then Some(Columns(name.value, url.value, username.value, password.value, totp.value, notes.value, folder.value))
    else None
  }

  function CustomFieldsOf(v: Option<JValue>): Option<seq<CustomField>> {
    if v.Some? && v.value.JArr? then FieldsOf(v.value.elems) else Some([])
  }

  function Assemble(kind: Kind, columns: Option<Columns>, card: seq<Entry>, identity: seq<Entry>,
                    fields: Option<seq<CustomField>>, favorite: Option<bool>, extra: seq<Entry>): Option<Item>
  {
    if columns.Some? && favorite.Some? && fields.Some?
    then Some(Item(kind, columns.value, card, identity, fields.value, favorite.value, extra))
    else None
  }

  /** The coerced item, or None when a `String` call throws. */
  function NormalizeItemFields(raw: seq<Entry>): Option<Item> {
    Assemble(
      KindOf(Get(raw, "type")), ColumnsOf(raw),
      Details(BLANK_CARD, Get(raw, "card")), Details(BLANK_IDENTITY, Get(raw, "identity")),
      CustomFieldsOf(Get(raw, "fields")), FavoriteOf(Get(raw, "favorite")), ExtraOf(raw))
  }

  // --- an item as the object it is -------------------------------------------

  function EncodeField(f: CustomField): JValue {
    JObj([Entry("label", JStr(f.name)), Entry("value", JStr(f.value))]
         + if f.hidden then [Entry("hidden", JBool(true))] else [])
  }

  function Values(it: Item): (vs: seq<JValue>)
    ensures |vs| == |KEYS|
  {
    [JStr(KindName(it.kind)), JStr(it.columns.name), JStr(it.columns.username),
     JStr(it.columns.password), JStr(it.columns.url), JStr(it.columns.totp),
     JStr(it.columns.notes), JObj(it.card), JObj(it.identity), JArr(Map(EncodeField, it.fields)), JBool(it.favorite),
     JStr(it.columns.folder)]
  }

  function DeclaredEntries(it: Item): (es: seq<Entry>)
    ensures |es| == |KEYS|
  {
    seq(|KEYS|, i requires 0 <= i < |KEYS| => Entry(KEYS[i], Values(it)[i]))
  }

  function Encode(it: Item): seq<Entry> {
    DeclaredEntries(it) + it.extra
  }

  // --- idempotence -----------------------------------------------------------

  lemma KeysDistinct()
    ensures forall i, j :: 0 <= i < j < |KEYS| ==> KEYS[i] != KEYS[j]
  {
  }

  lemma GetEncoded(it: Item)
    ensures forall i :: 0 <= i < |KEYS| ==> Get(Encode(it), KEYS[i]) == Some(Values(it)[i])
  {
    KeysDistinct();
    var es := Encode(it);
    forall i | 0 <= i < |KEYS| ensures Get(es, KEYS[i]) == Some(Values(it)[i]) {
      assert forall j :: 0 <= j < |KEYS| ==> es[j] == DeclaredEntries(it)[j];
      GetFirst(es, i);
    }
  }

  lemma FieldRoundTrip(f: CustomField)
    ensures FieldOf(EncodeField(f)) == Some(f)
  {
    var es := EncodeField(f).entries;
    GetFirst(es, 0);
    assert es[0].key == "label";
    GetFirst(es, 1);
    assert es[1].key == "value";
    if f.hidden {
      GetFirst(es, 2);
      assert es[2].key == "hidden";
    } else {
      GetMissing(es, "hidden");
    }
  }

  lemma {:induction false} FieldsRoundTrip(fs: seq<CustomField>)
    ensures FieldsOf(Map(EncodeField, fs)) == Some(fs)
  {
    if fs != [] {
      FieldRoundTrip(fs[0]);
      assert Map(EncodeField, fs)[1..] == Map(EncodeField, fs[1..]);
      FieldsRoundTrip(fs[1..]);
      assert [fs[0]] + fs[1..] == fs;
    }
  }

  /** Every item normalizeItemFields can return. */
  ghost predicate Normal(it: Item) {
    && Spread(BLANK_CARD, it.card) == it.card
    && Spread(BLANK_IDENTITY, it.identity) == it.identity
    && forall e :: e in it.extra ==> IsExtra(e)
  }

  lemma DetailsNormal(blank: seq<Entry>, v: Option<JValue>)
    requires DistinctKeys(blank)
    ensures Spread(blank, Details(blank, v)) == Details(blank, v)
  {
    SpreadIdempotent(blank, if v.Some? && IsObject(v.value) then Properties(v.value) else []);
  }

  lemma DefaultsDistinct()
    ensures DistinctKeys(BLANK_CARD) && DistinctKeys(BLANK_IDENTITY)
  {
  }

  lemma NormalizedIsNormal(raw: seq<Entry>)
    ensures var r := NormalizeItemFields(raw); r.Some? ==> Normal(r.value)
  {
    var r := NormalizeItemFields(raw);
    var card, identity := Details(BLANK_CARD, Get(raw, "card")), Details(BLANK_IDENTITY, Get(raw, "identity"));
    if r.Some? {
      DefaultsDistinct();
      assert r.value.card == card && r.value.identity == identity && r.value.extra == ExtraOf(raw);
      assert Spread(BLANK_CARD, card) == card by {
        DetailsNormal(BLANK_CARD, Get(raw, "card"));
      }
      assert Spread(BLANK_IDENTITY, identity) == identity by {
        DetailsNormal(BLANK_IDENTITY, Get(raw, "identity"));
      }
    }
  }

  /** The object `raw` has the declared properties of `it`. */
  ghost predicate Describes(raw: seq<Entry>, it: Item) {
    && Get(raw, "type") == Some(JStr(KindName(it.kind)))
    && Get(raw, "card") == Some(JObj(it.card)) && Get(raw, "identity") == Some(JObj(it.identity))
    && Get(raw, "fields") == Some(JArr(Map(EncodeField, it.fields)))
    && Get(raw, "favorite") == Some(JBool(it.favorite))
    && DescribesColumns(raw, it.columns)
  }

  ghost predicate DescribesColumns(raw: seq<Entry>, c: Columns) {
    && Get(raw, "name") == Some(JStr(c.name)) && Get(raw, "username") == Some(JStr(c.username))
    && Get(raw, "password") == Some(JStr(c.password)) && Get(raw, "url") == Some(JStr(c.url))
    && Get(raw, "totp") == Some(JStr(c.totp)) && Get(raw, "notes") == Some(JStr(c.notes))
    && Get(raw, "folder") == Some(JStr(c.folder))
  }

  lemma EncodedProperties(it: Item)
    ensures Describes(Encode(it), it)
  {
    GetEncoded(it);
    var raw := Encode(it);
    assert forall i :: 0 <= i < |KEYS| ==> Get(raw, KEYS[i]) == Some(Values(it)[i]);
    assert KEYS[0] == "type" && KEYS[1] == "name" && KEYS[2] == "username" && KEYS[3] == "password";
    assert KEYS[4] == "url" && KEYS[5] == "totp" && KEYS[6] == "notes" && KEYS[7] == "card";
    assert KEYS[8] == "identity" && KEYS[9] == "fields" && KEYS[10] == "favorite" && KEYS[11] == "folder";
  }

  lemma EncodedExtra(it: Item)
    requires Normal(it)
    ensures ExtraOf(Encode(it)) == it.extra
  {
    FilterConcat(IsExtra, DeclaredEntries(it), it.extra);
    forall e | e in DeclaredEntries(it) ensures !IsExtra(e) {
      var i :| 0 <= i < |KEYS| && DeclaredEntries(it)[i] == e;
      assert e.key == KEYS[i];
    }
    FilterNone(IsExtra, DeclaredEntries(it));
    FilterAll(IsExtra, it.extra);
  }

  lemma FlagsRoundTrip(k: Kind, b: bool)
    ensures KindOf(Some(JStr(KindName(k)))) == k
    ensures FavoriteOf(Some(JBool(b))) == Some(b)
  {
    assert KindName(Login)[0] == 'l';
    assert Lower("false")[0] == 'f';
  }

  lemma ColumnsFromProperties(raw: seq<Entry>, c: Columns)
    requires DescribesColumns(raw, c)
    ensures ColumnsOf(raw) == Some(c)
  {
  }

  lemma CompleteDetails(blank: seq<Entry>, details: seq<Entry>)
    requires Spread(blank, details) == details
    ensures Details(blank, Some(JObj(details))) == details
  {
  }

  lemma NormalizeFromProperties(raw: seq<Entry>, it: Item)
    requires Describes(raw, it) && Normal(it)
    ensures NormalizeItemFields(raw) == Some(it.(extra := ExtraOf(raw)))
  {
    assert KindOf(Get(raw, "type")) == it.kind && FavoriteOf(Get(raw, "favorite")) == Some(it.favorite) by {
      FlagsRoundTrip(it.kind, it.favorite);
    }
    assert Details(BLANK_CARD, Get(raw, "card")) == it.card by {
      CompleteDetails(BLANK_CARD, it.card);
    }
    assert Details(BLANK_IDENTITY, Get(raw, "identity")) == it.identity by {
      CompleteDetails(BLANK_IDENTITY, it.identity);
    }
    assert CustomFieldsOf(Get(raw, "fields")) == Some(it.fields) by {
      FieldsRoundTrip(it.fields);
    }
    assert ColumnsOf(raw) == Some(it.columns) by {
      ColumnsFromProperties(raw, it.columns);
    }
  }

  lemma NormalIsFixed(it: Item)
    requires Normal(it)
    ensures NormalizeItemFields(Encode(it)) == Some(it)
  {
    EncodedProperties(it);
    EncodedExtra(it);
    NormalizeFromProperties(Encode(it), it);
  }

  /** Normalising is idempotent on every JSON object it accepts. */
  lemma NormalizeIdempotent(raw: seq<Entry>)
    ensures var r := NormalizeItemFields(raw); r.Some? ==> NormalizeItemFields(Encode(r.value)) == r
  {
    NormalizedIsNormal(raw);
    if NormalizeItemFields(raw).Some? {
      NormalIsFixed(NormalizeItemFields(raw).value);
    }
  }

  // --- when normalising throws -----------------------------------------------

  predicate TextsConvertible(raw: seq<Entry>) {
    forall i :: 0 <= i < |TEXT_KEYS| ==> Get(raw, TEXT_KEYS[i]).Some? ==> Convertible(Get(raw, TEXT_KEYS[i]).value)
  }

  predicate FieldConvertible(f: JValue) {
    && (Prop(f, "label").Some? ==> Convertible(Prop(f, "label").value))
    && (Prop(f, "value").Some? ==> Convertible(Prop(f, "value").value))
  }

  predicate FieldsConvertible(v: Option<JValue>) {
    v.Some? && v.value.JArr? ==> forall i :: 0 <= i < |v.value.elems| ==> FieldConvertible(v.value.elems[i])
  }

  lemma ColumnsThrow(raw: seq<Entry>)
    ensures ColumnsOf(raw).Some? <==> TextsConvertible(raw)
  {
    forall i | 0 <= i < |TEXT_KEYS|
      ensures TextOf(Get(raw, TEXT_KEYS[i])).Some? <==> Get(raw, TEXT_KEYS[i]).Some? ==>
          Convertible(Get(raw, TEXT_KEYS[i]).value)
    {
      TextConverts(Get(raw, TEXT_KEYS[i]));
    }
    assert TEXT_KEYS[0] == "name" && TEXT_KEYS[1] == "url" && TEXT_KEYS[2] == "username" && TEXT_KEYS[3] == "password";
    assert TEXT_KEYS[4] == "totp" && TEXT_KEYS[5] == "notes" && TEXT_KEYS[6] == "folder";
  }

  lemma {:induction false} FieldsThrow(a: seq<JValue>)
    ensures FieldsOf(a).Some? <==> forall i :: 0 <= i < |a| ==> FieldConvertible(a[i])
  {
    if a != [] {
      TextConverts(Prop(a[0], "label"));
      TextConverts(Prop(a[0], "value"));
      FieldsThrow(a[1..]);
      assert forall i :: 0 < i < |a| ==> a[i] == a[1..][i - 1];
    }
  }

  lemma FavoriteThrows(v: Option<JValue>)
    ensures FavoriteOf(v).Some? <==> v.Some? ==> Convertible(v.value)
  {
    if v.Some? {
      ConvertsExactly(v.value);
    }
  }

  /** Normalising throws exactly when a value it passes to `String` cannot be converted. */
  lemma NormalizeThrowsExactly(raw: seq<Entry>)
    ensures NormalizeItemFields(raw).Some?
            <==> && TextsConvertible(raw) && FieldsConvertible(Get(raw, "fields"))
                 && (Get(raw, "favorite").Some? ==> Convertible(Get(raw, "favorite").value))
  {
    ColumnsThrow(raw);
    FavoriteThrows(Get(raw, "favorite"));
    var v := Get(raw, "fields");
    if v.Some? && v.value.JArr? {
      FieldsThrow(v.value.elems);
    }
  }

  /** `{"name": {"toString": null}}` is such an object. */
  lemma NormalizeCanThrow()
    ensures NormalizeItemFields([Entry("name", JObj([Entry("toString", JNull)]))]) == None
  {
    var name := JObj([Entry("toString", JNull)]);
    var raw := [Entry("name", name)];
    assert name.entries[0].key == "toString";
    ConvertsExactly(name);
    assert Get(raw, "name") == Some(name);
    assert TextOf(Get(raw, "name")) == None;
    assert ColumnsOf(raw) == None;
  }

  // --- what normalising gives ------------------------------------------------

  lemma {:induction false} GetOverlaid(base: seq<Entry>, over: seq<Entry>, k: string)
    ensures Get(Map(e => Overlay(over, e), base), k)
         == if Get(base, k).Some? && Get(over, k).Some? then Get(over, k) else Get(base, k)
  {
    if base != [] {
      assert Map(e => Overlay(over, e), base)[1..] == Map(e => Overlay(over, e), base[1..]);
      GetOverlaid(base[1..], over, k);
    }
  }

  lemma {:induction false} GetNew(base: seq<Entry>, over: seq<Entry>, k: string)
    requires Get(base, k) == None
    ensures Get(Filter((e: Entry) => !HasKey(base, e.key), over), k) == Get(over, k)
  {
    if over != [] {
      GetMissing(base, k);
      GetNew(base, over[1..], k);
    }
  }

  /** A spread answers with the later object's own value first. */
  lemma GetSpread(base: seq<Entry>, over: seq<Entry>, k: string)
    ensures Get(Spread(base, over), k) == if Get(over, k).Some? then Get(over, k) else Get(base, k)
  {
    GetOverlaid(base, over, k);
    GetConcat(Map(e => Overlay(over, e), base), Filter((e: Entry) => !HasKey(base, e.key), over), k);
    if Get(base, k) == None {
      GetNew(base, over, k);
    }
  }

  /** The value a key has within an object that is itself a value of the raw item. */
  function Within(v: Option<JValue>, k: string): Option<JValue> {
    if v.Some? && IsObject(v.value) then Get(Properties(v.value), k) else None
  }

  /** Completed: the raw value wherever there is one, "" at the other named keys. */
  ghost predicate Completes(details: seq<Entry>, v: Option<JValue>, names: set<string>) {
    forall k :: Get(details, k) == if Within(v, k).Some? then Within(v, k)
                                   else if k in names then Some(JStr("")) else None
  }

  lemma BlankCards(k: string)
    ensures Get(BLANK_CARD, k)
         == if k in {"cardholder", "number", "expMonth", "expYear", "cvv"} then Some(JStr("")) else None
  {
    var es := BLANK_CARD;
    assert es[0].key == "cardholder" && es[1].key == "number" && es[2].key == "expMonth" && es[3].key == "expYear";
    assert es[4].key == "cvv";
    BlankAt(es, k);
  }

  lemma BlankIdentities(k: string)
    ensures Get(BLANK_IDENTITY, k)
         == if k in {"fullName", "email", "phone", "address", "company"} then Some(JStr("")) else None
  {
    var es := BLANK_IDENTITY;
    assert es[0].key == "fullName" && es[1].key == "email" && es[2].key == "phone" && es[3].key == "address";
    assert es[4].key == "company";
    BlankAt(es, k);
  }

  lemma {:induction false} BlankAt(es: seq<Entry>, k: string)
    requires forall i :: 0 <= i < |es| ==> es[i].value == JStr("")
    ensures Get(es, k) == if exists i :: 0 <= i < |es| && es[i].key == k then Some(JStr("")) else None
  {
    GetMissing(es, k);
    if es != [] && es[0].key != k {
      BlankAt(es[1..], k);
      GetMissing(es[1..], k);
    }
  }

  lemma DetailsAre(blank: seq<Entry>, v: Option<JValue>, names: set<string>)
    requires forall k :: Get(blank, k) == if k in names then Some(JStr("")) else None
    ensures Completes(Details(blank, v), v, names)
  {
    forall k ensures Get(Details(blank, v), k) == if Within(v, k).Some? then Within(v, k) else Get(blank, k) {
      GetSpread(blank, if v.Some? && IsObject(v.value) then Properties(v.value) else [], k);
    }
  }

  lemma DetailsComplete(raw: seq<Entry>)
    ensures Completes(Details(BLANK_CARD, Get(raw, "card")), Get(raw, "card"),
                      {"cardholder", "number", "expMonth", "expYear", "cvv"})
    ensures Completes(Details(BLANK_IDENTITY, Get(raw, "identity")), Get(raw, "identity"),
                      {"fullName", "email", "phone", "address", "company"})
  {
    var onCard := {"cardholder", "number", "expMonth", "expYear", "cvv"};
    var onIdentity := {"fullName", "email", "phone", "address", "company"};
    forall k ensures Get(BLANK_CARD, k) == if k in onCard then Some(JStr("")) else None { BlankCards(k); }
    forall k ensures Get(BLANK_IDENTITY, k) == if k in onIdentity then Some(JStr("")) else None { BlankIdentities(k); }
    DetailsAre(BLANK_CARD, Get(raw, "card"), onCard);
    DetailsAre(BLANK_IDENTITY, Get(raw, "identity"), onIdentity);
  }

  /** `v == null ? "" : String(v)` */
  predicate Reads(v: Option<JValue>, text: string) {
    if v == None || v == Some(JNull) then text == "" else JsString(v.value) == Some(text)
  }

  predicate FieldReads(f: JValue, field: CustomField) {
    && Reads(Prop(f, "label"), field.name) && Reads(Prop(f, "value"), field.value)
    && (field.hidden <==> Prop(f, "hidden").Some? && Truthy(Prop(f, "hidden").value))
  }

  function ObjectsIn(v: Option<JValue>): seq<JValue> {
    if v.Some? && v.value.JArr? then Filter(IsObject, v.value.elems) else []
  }

  ghost predicate FieldsRead(objects: seq<JValue>, fields: seq<CustomField>) {
    |fields| == |objects| && forall i :: 0 <= i < |fields| ==> FieldReads(objects[i], fields[i])
  }

  lemma {:induction false} FieldsAre(a: seq<JValue>)
    requires FieldsOf(a).Some?
    ensures FieldsRead(Filter(IsObject, a), FieldsOf(a).value)
  {
    if a != [] {
      FieldsAre(a[1..]);
      var rest, fields := Filter(IsObject, a[1..]), FieldsOf(a[1..]).value;
      if IsObject(a[0]) {
        var first := FieldOf(a[0]).value;
        assert FieldReads(a[0], first);
        assert Filter(IsObject, a) == [a[0]] + rest && FieldsOf(a).value == [first] + fields;
      }
    }
  }

  ghost predicate ColumnsRead(raw: seq<Entry>, c: Columns) {
    && Reads(Get(raw, "name"), c.name) && Reads(Get(raw, "url"), c.url) && Reads(Get(raw, "username"), c.username)
    && Reads(Get(raw, "password"), c.password) && Reads(Get(raw, "totp"), c.totp)
    && Reads(Get(raw, "notes"), c.notes) && Reads(Get(raw, "folder"), c.folder)
  }

  predicate KindReads(v: Option<JValue>, kind: Kind) {
    && (kind == Note <==> v == Some(JStr("note"))) && (kind == Card <==> v == Some(JStr("card")))
    && (kind == Identity <==> v == Some(JStr("identity")))
  }

  predicate FavoriteReads(v: Option<JValue>, favorite: bool) {
    favorite <==> && v.Some?
                  && (v.value == JBool(true)
                      || (JsString(v.value).Some? && Lower(JsString(v.value).value) in {"1", "true", "yes"}))
  }

  lemma ColumnsAre(raw: seq<Entry>)
    requires ColumnsOf(raw).Some?
    ensures ColumnsRead(raw, ColumnsOf(raw).value)
  {
  }

  lemma FlagsAre(raw: seq<Entry>)
    ensures KindReads(Get(raw, "type"), KindOf(Get(raw, "type")))
    ensures var favorite := FavoriteOf(Get(raw, "favorite"));
            favorite.Some? ==> FavoriteReads(Get(raw, "favorite"), favorite.value)
  {
  }

  /** A key the client does not declare. */
  predicate Undeclared(e: Entry) {
    e.key !in {"type", "name", "username", "password", "url", "totp", "notes", "card", "identity", "fields", "favorite",
               "folder"}
  }

  lemma UndeclaredIs(e: Entry)
    ensures Undeclared(e) <==> IsExtra(e)
  {
    assert KEYS[0] == "type" && KEYS[1] == "name" && KEYS[2] == "username" && KEYS[3] == "password";
    assert KEYS[4] == "url" && KEYS[5] == "totp" && KEYS[6] == "notes" && KEYS[7] == "card";
    assert KEYS[8] == "identity" && KEYS[9] == "fields" && KEYS[10] == "favorite" && KEYS[11] == "folder";
  }

  /** Part by part what a normalised item holds: the kind if it is one of three and login
      otherwise, the text of each column, both details completed, the custom fields of the
      objects in the list, the favourite under any spelling, and every other key as it was. */
  lemma NormalizedItemIs(raw: seq<Entry>)
    requires NormalizeItemFields(raw).Some?
    ensures var it := NormalizeItemFields(raw).value;
            && KindReads(Get(raw, "type"), it.kind) && ColumnsRead(raw, it.columns)
            && Completes(it.card, Get(raw, "card"), {"cardholder", "number", "expMonth", "expYear", "cvv"})
            && Completes(it.identity, Get(raw, "identity"), {"fullName", "email", "phone", "address", "company"})
            && FieldsRead(ObjectsIn(Get(raw, "fields")), it.fields)
            && FavoriteReads(Get(raw, "favorite"), it.favorite) && it.extra == Filter(Undeclared, raw)
  {
    ColumnsAre(raw);
    FlagsAre(raw);
    DetailsComplete(raw);
    var v := Get(raw, "fields");
    if v.Some? && v.value.JArr? {
      FieldsAre(v.value.elems);
    }
    forall e: Entry | e in raw ensures IsExtra(e) <==> Undeclared(e) {
      UndeclaredIs(e);
    }
    FilterSame(IsExtra, Undeclared, raw);
  }
}
