/** Vault export and import: clients/packages/api-client/src/portable.ts. */
module Portable {
  import opened Prelude
  import opened Json
  import opened Items
  import Csv

  /** `FIELDS`, as the columns it names. */
  datatype Field = Name | Url | Username | Password | Totp | Notes | Folder

  const FIELDS: seq<Field> := [Name, Url, Username, Password, Totp, Notes, Folder]

  function FieldName(f: Field): string {
    match f
    case Name => "name" case Url => "url" case Username => "username" case Password => "password"
    case Totp => "totp" case Notes => "notes" case Folder => "folder"
  }

  function Column(c: Columns, f: Field): string {
    match f
    case Name => c.name case Url => c.url case Username => c.username case Password => c.password
    case Totp => c.totp case Notes => c.notes case Folder => c.folder
  }

  const ALIASES: map<string, Field> := map[
    "name" := Name, "title" := Name, "item" := Name,
    "url" := Url, "uri" := Url, "login_uri" := Url, "website" := Url, "site" := Url,
    "username" := Username, "user" := Username, "user name" := Username, "login" := Username,
    "login_username" := Username, "email" := Username,
    "password" := Password, "pass" := Password, "login_password" := Password,
    "notes" := Notes, "note" := Notes, "comment" := Notes, "comments" := Notes,
    "totp" := Totp, "otp" := Totp, "login_totp" := Totp,
    "folder" := Folder, "group" := Folder, "grouping" := Folder]

  /** The names the alias table inherits from Object.prototype (the others hold capitals,
      which a lower-cased name cannot), with the key each value turns into. */
  const INHERITED: map<string, string> := map[
    "constructor" := "function Object() { [native code] }",
    "__proto__" := "[object Object]"]

  const FAVORITE_KEYS: seq<string> := ["favorite", "favourite", "fav"]

  datatype ImportError = EmptyFile | InvalidJson | UnrecognizedJson | NoItems | NotAnObject | Uncoercible

  // --- export ----------------------------------------------------------------

  function HeaderRow(): Csv.Row {
    seq(|FIELDS|, i requires 0 <= i < |FIELDS| => FieldName(FIELDS[i])) + ["favorite"]
  }

  function Texts(c: Columns): seq<string> {
    seq(|FIELDS|, i requires 0 <= i < |FIELDS| => Column(c, FIELDS[i]))
  }

  function ItemRow(it: Item): Csv.Row {
    Texts(it.columns) + [if it.favorite then "1" else ""]
  }

  /** The table that toCSV writes out. */
  function TableOf(items: seq<Item>): seq<Csv.Row> {
    [HeaderRow()] + Map(ItemRow, items)
  }

  /** The header and the favourite flag are written unescaped, which is the same. */
  lemma {:induction false} PlainCells(row: Csv.Row)
    requires forall i :: 0 <= i < |row| ==> !Csv.NeedsQuotes(row[i])
    ensures Map(Csv.CsvEscape, row) == row
  {
  }

  lemma PlainHeader()
    ensures Join(HeaderRow(), ",") == Csv.PrintRow(HeaderRow())
  {
    forall i | 0 <= i < |HeaderRow()| ensures !Csv.NeedsQuotes(HeaderRow()[i]) {
      if i < |FIELDS| {
        assert HeaderRow()[i] == FieldName(FIELDS[i]);
      }
    }
    PlainCells(HeaderRow());
  }

  function PrintItem(it: Item): string {
    Csv.PrintRow(ItemRow(it))
  }

  lemma PrintTable(header: Csv.Row, items: seq<Item>)
    ensures Map(Csv.PrintRow, [header] + Map(ItemRow, items)) == [Csv.PrintRow(header)] + Map(PrintItem, items)
  {
  }

  lemma PrintedTable(items: seq<Item>)
    ensures Csv.Print(TableOf(items)) == Join([Join(HeaderRow(), ",")] + Map(PrintItem, items), "\r\n")
  {
    PlainHeader();
    PrintTable(HeaderRow(), items);
  }

  method ToCsv(items: seq<Item>) returns (text: string)
    ensures text == Csv.Print(TableOf(items))
  {
    PrintedTable(items);
    text := PrintLines(Join(HeaderRow(), ","), items);
  }

  method PrintLines(header: string, items: seq<Item>) returns (text: string)
    ensures text == Join([header] + Map(PrintItem, items), "\r\n")
  {
    var rows := [header];
    for i := 0 to |items|
      invariant rows == [header] + Map(PrintItem, items[..i])
    {
      var line := PrintLine(items[i]);
      MapAppend(PrintItem, items[..i], items[i]);
      rows := rows + [line];
      assert items[..i + 1] == items[..i] + [items[i]];
    }
    assert items[..|items|] == items;
    text := Join(rows, "\r\n");
  }

  method PrintLine(it: Item) returns (line: string)
    ensures line == PrintItem(it)
  {
    var flag := if it.favorite then "1" else "";
    var cells := Texts(it.columns);
    line := Join(Map(Csv.CsvEscape, cells) + [flag], ",");
    assert !Csv.NeedsQuotes(flag);
    MapAppend(Csv.CsvEscape, cells, flag);
  }

  // --- the row normaliser ----------------------------------------------------

  /** The object `normalize` fills: the structured keys it carries over, the first
      non-blank value of each column, the last favourite spelling, and the keys that
      inherited names turn into. */
  datatype Flat = Flat(carried: seq<Entry>, texts: map<Field, string>, favorite: Option<JValue>, strays: seq<Entry>)

  const CARRIED: seq<string> := ["type", "card", "identity", "fields"]

  function Carry(row: seq<Entry>, keys: seq<string>): seq<Entry> {
    if keys == [] then []
    else
      var v := Get(row, keys[0]);
      (if v.Some? then [Entry(keys[0], v.value)] else []) + Carry(row, keys[1..])
  }

  function FieldNamed(key: string, lower: string): Option<Field> {
    if key == "name" then Some(Name) else if key == "url" then Some(Url)
    else if key == "username" then Some(Username) else if key == "password" then Some(Password)
    else if key == "totp" then Some(Totp) else if key == "notes" then Some(Notes)
    else if key == "folder" then Some(Folder)
    else if lower in ALIASES then Some(ALIASES[lower]) else None
  }

  /** `es[k] = s`: a key keeps its place. */
  function SetText(es: seq<Entry>, k: string, s: string): seq<Entry> {
    if Get(es, k).Some? then Map((e: Entry) => if e.key == k then Entry(k, JStr(s)) else e, es)
        else es + [Entry(k, JStr(s))]
  }

  /** An inherited name, under the key it turns into. */
  function AbsorbStray(flat: Flat, k: string, v: JValue): Option<Flat> {
    var had := Get(flat.strays, k);
    if had.Some? && Truthy(had.value) then Some(flat)
    else
      match TextOf(Some(v))
      case Some(s) => Some(flat.(strays := SetText(flat.strays, k, s)))
      case None => None
  }

  /** One turn of the loop over the row's entries; None when `String` throws. */
  function Absorb(flat: Flat, e: Entry): Option<Flat> {
    var lower := Lower(Trim(e.key));
    if lower in FAVORITE_KEYS then Some(flat.(favorite := Some(e.value)))
    else
      var field := FieldNamed(e.key, lower);
      if field.None? && lower in INHERITED then AbsorbStray(flat, INHERITED[lower], e.value)
      else if field.None? || (field.value in flat.texts && flat.texts[field.value] != "") then Some(flat)
      else
        match TextOf(Some(e.value))
        case Some(s) => Some(flat.(texts := flat.texts[field.value := s]))
        case None => None
  }

  function AbsorbAll(flat: Flat, es: seq<Entry>): Option<Flat>
    decreases |es|
  {
    if es == [] then Some(flat)
    else
      match Absorb(flat, es[0])
      case Some(next) => AbsorbAll(next, es[1..])
      case None => None
  }

  function FlatTexts(texts: map<Field, string>, fields: seq<Field>): seq<Entry> {
    if fields == [] then []
    else
      (if fields[0] in texts then [Entry(FieldName(fields[0]), JStr(texts[fields[0]]))] else [])
      + FlatTexts(texts, fields[1..])
  }

  function FlatEntries(flat: Flat): seq<Entry> {
    flat.carried + FlatTexts(flat.texts, FIELDS) + flat.strays
    + if flat.favorite.Some? then [Entry("favorite", flat.favorite.value)] else []
  }

  function Normalize(row: seq<Entry>): Option<Item> {
    match AbsorbAll(Flat(Carry(row, CARRIED), map[], None, []), row)
    case Some(flat) => NormalizeItemFields(FlatEntries(flat))
    case None => None
  }

  /** The same computation step by step, as the source writes it. */
  method NormalizeRow(row: seq<Entry>) returns (item: Option<Item>)
    ensures item == Normalize(row)
  {
    var carried := CarryStructured(row, CARRIED);
    var flat := FlattenEntries(carried, row);
    if flat.None? { return None; }
    item := NormalizeItemFields(FlatEntries(flat.value));
  }

  method CarryStructured(row: seq<Entry>, keys: seq<string>) returns (carried: seq<Entry>)
    ensures carried == Carry(row, keys)
  {
    carried := [];
    assert keys[0..] == keys;
    for k := 0 to |keys|
      invariant carried + Carry(row, keys[k..]) == Carry(row, keys)
    {
      assert keys[k..][1..] == keys[k + 1..];
      var v := Get(row, keys[k]);
      if v.Some? { carried := carried + [Entry(keys[k], v.value)]; }
    }
    assert keys[|keys|..] == [] && carried + [] == carried;
  }

  method FlattenEntries(carried: seq<Entry>, row: seq<Entry>) returns (result: Option<Flat>)
    ensures result == AbsorbAll(Flat(carried, map[], None, []), row)
  {
    var flat := Flat(carried, map[], None, []);
    assert row[0..] == row;
    for i := 0 to |row|
      invariant AbsorbAll(flat, row[i..]) == AbsorbAll(Flat(carried, map[], None, []), row)
    {
      assert row[i..][1..] == row[i + 1..];
      var e := row[i];
      var lower := Lower(Trim(e.key));
      if lower in FAVORITE_KEYS {
        flat := flat.(favorite := Some(e.value));
        continue;
      }
      var field := FieldNamed(e.key, lower);
      if field.None? && lower in INHERITED {
        var next := AbsorbStray(flat, INHERITED[lower], e.value);
        if next.None? { return None; }
        flat := next.value;
      } else if field.Some? && !(field.value in flat.texts && flat.texts[field.value] != "") {
        var text := TextOf(Some(e.value));
        if text.None? { return None; }
        flat := flat.(texts := flat.texts[field.value := text.value]);
      }
    }
    assert row[|row|..] == [];
    result := Some(flat);
  }

  // --- on declared keys, `normalize` is normalizeItemFields ------------------

  lemma {:induction false} GetCarried(row: seq<Entry>, keys: seq<string>, k: string)
    ensures Get(Carry(row, keys), k) == if k in keys then Get(row, k) else None
    ensures forall e :: e in Carry(row, keys) ==> e.key in keys
  {
    if keys != [] {
      var v := Get(row, keys[0]);
      var first := if v.Some? then [Entry(keys[0], v.value)] else [];
      GetCarried(row, keys[1..], k);
      GetConcat(first, Carry(row, keys[1..]), k);
    }
  }

  lemma FieldNamesDistinct(f: Field, g: Field)
    ensures FieldName(f) == FieldName(g) ==> f == g
    ensures FieldName(f) !in CARRIED && FieldName(f) != "favorite"
    ensures FieldName(f) in KEYS
    ensures f in FIELDS
  {
    assert KEYS[1] == "name" && KEYS[2] == "username" && KEYS[3] == "password" && KEYS[4] == "url";
    assert KEYS[5] == "totp" && KEYS[6] == "notes" && KEYS[11] == "folder";
    assert FIELDS[0] == Name && FIELDS[1] == Url && FIELDS[2] == Username && FIELDS[3] == Password;
    assert FIELDS[4] == Totp && FIELDS[5] == Notes && FIELDS[6] == Folder;
  }

  lemma {:induction false} GetTexts(texts: map<Field, string>, fields: seq<Field>, f: Field)
    ensures Get(FlatTexts(texts, fields), FieldName(f))
         == if f in fields && f in texts then Some(JStr(texts[f])) else None
    ensures forall e :: e in FlatTexts(texts, fields) ==> exists g :: g in fields && e.key == FieldName(g)
  {
    if fields != [] {
      var first := if fields[0] in texts then [Entry(FieldName(fields[0]), JStr(texts[fields[0]]))] else [];
      GetTexts(texts, fields[1..], f);
      GetConcat(first, FlatTexts(texts, fields[1..]), FieldName(f));
      FieldNamesDistinct(f, fields[0]);
    }
  }

  lemma Trimmed(s: string)
    requires s != "" && !IsSpace(s[0]) && !IsSpace(s[|s| - 1])
    ensures Trim(s) == s
  {
  }

  lemma {:induction false} LowerCased(s: string)
    requires forall i :: 0 <= i < |s| ==> !('A' <= s[i] <= 'Z')
    ensures Lower(s) == s
  {
  }

  /** The declared keys are already trimmed and in lower case. */
  lemma DeclaredKeyLower(k: string)
    requires k in KEYS
    ensures Lower(Trim(k)) == k
  {
    Trimmed(k);
    LowerCased(k);
  }

  lemma LongInherited(k: string)
    requires k in INHERITED
    ensures |k| > 8 && (k[0] == 'c' || k[0] == '_')
  {
  }

  lemma ShortDeclared(k: string)
    requires k in KEYS
    ensures |k| <= 8
  {
  }

  lemma DeclaredIsNotInherited(k: string)
    requires k in KEYS
    ensures k !in INHERITED
  {
    ShortDeclared(k);
    if k in INHERITED {
      LongInherited(k);
    }
  }

  lemma CarriedKey(k: string)
    requires k in CARRIED
    ensures FieldNamed(k, k) == None && k !in FAVORITE_KEYS
  {
    assert k !in ALIASES;
  }

  lemma FieldKey(f: Field)
    ensures FieldNamed(FieldName(f), FieldName(f)) == Some(f) && FieldName(f) !in FAVORITE_KEYS
  {
    assert FieldName(f)[0] != 'f' || |FieldName(f)| == 6;
  }

  lemma KeyKinds(k: string)
    requires k in KEYS
    ensures k == "favorite" || k in CARRIED || exists f :: k == FieldName(f)
  {
    assert KEYS[1] == FieldName(Name) && KEYS[2] == FieldName(Username) && KEYS[3] == FieldName(Password);
    assert KEYS[4] == FieldName(Url) && KEYS[5] == FieldName(Totp) && KEYS[6] == FieldName(Notes);
    assert KEYS[11] == FieldName(Folder);
    assert CARRIED[0] == KEYS[0] && CARRIED[1] == KEYS[7] && CARRIED[2] == KEYS[8] && CARRIED[3] == KEYS[9];
  }

  /** What the loop leaves in column f, when no key repeats. */
  function Absorbed(texts: map<Field, string>, es: seq<Entry>, f: Field): Option<string> {
    if f in texts then Some(texts[f])
    else if Get(es, FieldName(f)).Some? then TextOf(Get(es, FieldName(f)))
    else None
  }

  ghost predicate AllDeclared(es: seq<Entry>) {
    DistinctKeys(es) && forall e :: e in es ==> e.key in KEYS
  }

  /** What the loop over all entries `es` must have turned `flat` into. */
  ghost predicate AbsorbedAll(flat: Flat, es: seq<Entry>, result: Option<Flat>) {
    match result
    case None => exists f :: Get(es, FieldName(f)).Some? && TextOf(Get(es, FieldName(f))) == None
    case Some(g) =>
      && g.carried == flat.carried && g.strays == flat.strays
      && g.favorite == (if Get(es, "favorite").Some? then Get(es, "favorite") else flat.favorite)
      && (forall f :: Get(es, FieldName(f)).Some? ==> TextOf(Get(es, FieldName(f))).Some?)
      && (forall f :: f in g.texts <==> f in flat.texts || Get(es, FieldName(f)).Some?)
      && (forall f :: f in g.texts ==> Absorbed(flat.texts, es, f) == Some(g.texts[f]))
  }

  lemma AbsorbFavorite(flat: Flat, e: Entry)
    requires e.key == "favorite"
    ensures Absorb(flat, e) == Some(flat.(favorite := Some(e.value)))
    ensures forall f :: FieldName(f) != e.key
  {
    DeclaredKeyLower(e.key);
    assert FAVORITE_KEYS[0] == "favorite";
    forall f ensures FieldName(f) != e.key { FieldNamesDistinct(f, f); }
  }

  lemma AbsorbCarried(flat: Flat, e: Entry)
    requires e.key in CARRIED
    ensures Absorb(flat, e) == Some(flat)
    ensures e.key != "favorite"
    ensures forall f :: FieldName(f) != e.key
  {
    assert e.key in KEYS by {
      assert CARRIED[0] == KEYS[0] && CARRIED[1] == KEYS[7] && CARRIED[2] == KEYS[8] && CARRIED[3] == KEYS[9];
    }
    DeclaredKeyLower(e.key);
    DeclaredIsNotInherited(e.key);
    CarriedKey(e.key);
    assert FAVORITE_KEYS[0] == "favorite";
    forall f ensures FieldName(f) != e.key { FieldNamesDistinct(f, f); }
  }

  lemma AbsorbText(flat: Flat, e: Entry, g: Field)
    requires e.key == FieldName(g) && g !in flat.texts
    ensures Absorb(flat, e) == match TextOf(Some(e.value))
                               case Some(s) => Some(flat.(texts := flat.texts[g := s]))
                               case None => None
    ensures e.key != "favorite"
    ensures forall f :: FieldName(f) == e.key ==> f == g
  {
    FieldNamesDistinct(g, g);
    DeclaredKeyLower(e.key);
    FieldKey(g);
    forall f ensures FieldName(f) == e.key ==> f == g { FieldNamesDistinct(f, g); }
  }

  /** An entry that is not a text column only sets the favourite. */
  lemma AbsorbedOther(flat: Flat, es: seq<Entry>, result: Option<Flat>)
    requires es != [] && forall f :: FieldName(f) != es[0].key
    requires es[0].key == "favorite" ==> Get(es[1..], "favorite") == None
    requires var next := if es[0].key == "favorite" then flat.(favorite := Some(es[0].value)) else flat;
             AbsorbedAll(next, es[1..], result)
    ensures AbsorbedAll(flat, es, result)
  {
    forall f ensures Get(es, FieldName(f)) == Get(es[1..], FieldName(f)) { }
  }

  /** A text column sets its own text. */
  lemma AbsorbedText(flat: Flat, es: seq<Entry>, g: Field, text: string, result: Option<Flat>)
    requires es != [] && es[0].key == FieldName(g) && es[0].key != "favorite"
    requires forall f :: FieldName(f) == es[0].key ==> f == g
    requires g !in flat.texts && Get(es[1..], FieldName(g)) == None && TextOf(Some(es[0].value)) == Some(text)
    requires AbsorbedAll(flat.(texts := flat.texts[g := text]), es[1..], result)
    ensures AbsorbedAll(flat, es, result)
  {
    forall f | f != g ensures Get(es, FieldName(f)) == Get(es[1..], FieldName(f)) { }
    assert Get(es, FieldName(g)) == Some(es[0].value);
  }

  lemma DeclaredTail(es: seq<Entry>)
    requires AllDeclared(es) && es != []
    ensures AllDeclared(es[1..]) && Get(es[1..], es[0].key) == None && es[0].key in KEYS
  {
    var e, rest := es[0], es[1..];
    assert forall i :: 0 <= i < |rest| ==> rest[i] == es[i + 1];
    assert !HasKey(rest, e.key);
    GetMissing(rest, e.key);
  }

  lemma {:induction false} AbsorbDeclared(flat: Flat, es: seq<Entry>)
    requires AllDeclared(es)
    requires forall f :: f in flat.texts ==> Get(es, FieldName(f)) == None
    ensures AbsorbedAll(flat, es, AbsorbAll(flat, es))
    decreases |es|
  {
    if es != [] {
      var e, rest := es[0], es[1..];
      DeclaredTail(es);
      KeyKinds(e.key);
      if e.key == "favorite" || e.key in CARRIED {
        var next := if e.key == "favorite" then flat.(favorite := Some(e.value)) else flat;
        if e.key == "favorite" { AbsorbFavorite(flat, e); } else { AbsorbCarried(flat, e); }
        AbsorbDeclared(next, rest);
        AbsorbedOther(flat, es, AbsorbAll(next, rest));
      } else {
        var g :| e.key == FieldName(g);
        AbsorbText(flat, e, g);
        var text := TextOf(Some(e.value));
        if text.Some? {
          var next := flat.(texts := flat.texts[g := text.value]);
          AbsorbDeclared(next, rest);
          AbsorbedText(flat, es, g, text.value, AbsorbAll(next, rest));
        } else {
          assert Get(es, FieldName(g)) == Some(e.value);
        }
      }
    }
  }

  /** Two objects the item normaliser cannot tell apart. */
  ghost predicate SameProperties(a: seq<Entry>, b: seq<Entry>) {
    && Get(a, "type") == Get(b, "type") && Get(a, "card") == Get(b, "card")
    && Get(a, "identity") == Get(b, "identity") && Get(a, "fields") == Get(b, "fields")
    && Get(a, "favorite") == Get(b, "favorite") && ExtraOf(a) == ExtraOf(b)
    && forall f :: TextOf(Get(a, FieldName(f))) == TextOf(Get(b, FieldName(f)))
  }

  lemma SameItem(a: seq<Entry>, b: seq<Entry>)
    requires SameProperties(a, b)
    ensures NormalizeItemFields(a) == NormalizeItemFields(b)
  {
    assert ColumnsOf(a) == ColumnsOf(b) by {
      assert forall f :: TextOf(Get(a, FieldName(f))) == TextOf(Get(b, FieldName(f)));
      assert FieldName(Name) == "name" && FieldName(Url) == "url" && FieldName(Username) == "username";
      assert FieldName(Password) == "password" && FieldName(Totp) == "totp" && FieldName(Notes) == "notes";
      assert FieldName(Folder) == "folder";
    }
  }

  lemma NoExtra(es: seq<Entry>)
    ensures (forall e :: e in es ==> e.key in KEYS) <==> ExtraOf(es) == []
  {
    if forall e :: e in es ==> e.key in KEYS {
      FilterNone(IsExtra, es);
    } else {
      FilterKeeps(IsExtra, es);
    }
  }

  lemma GetFlat(flat: Flat, k: string)
    requires k in KEYS && forall e :: e in flat.strays ==> IsExtra(e)
    ensures Get(FlatEntries(flat), k) ==
            if Get(flat.carried, k).Some? then Get(flat.carried, k)
            else if Get(FlatTexts(flat.texts, FIELDS), k).Some? then Get(FlatTexts(flat.texts, FIELDS), k)
            else if k == "favorite" then flat.favorite else None
  {
    var texts := FlatTexts(flat.texts, FIELDS);
    var favorite := if flat.favorite.Some? then [Entry("favorite", flat.favorite.value)] else [];
    forall i | 0 <= i < |flat.strays| ensures flat.strays[i].key != k {
      assert IsExtra(flat.strays[i]);
    }
    GetMissing(flat.strays, k);
    GetConcat(flat.carried + texts + flat.strays, favorite, k);
    GetConcat(flat.carried + texts, flat.strays, k);
    GetConcat(flat.carried, texts, k);
  }

  lemma StructuredKey(k: string)
    requires k in CARRIED || k == "favorite"
    ensures k in KEYS
  {
    assert CARRIED[0] == KEYS[0] && CARRIED[1] == KEYS[7] && CARRIED[2] == KEYS[8] && CARRIED[3] == KEYS[9];
    assert KEYS[10] == "favorite";
  }

  /** The flattened object answers like the original on a structured key... */
  lemma FlatKeepsStructured(es: seq<Entry>, flat: Flat, k: string)
    requires flat.carried == Carry(es, CARRIED) && flat.favorite == Get(es, "favorite")
    requires forall e :: e in flat.strays ==> IsExtra(e)
    requires k in CARRIED || k == "favorite"
    ensures Get(FlatEntries(flat), k) == Get(es, k)
  {
    StructuredKey(k);
    GetFlat(flat, k);
    GetCarried(es, CARRIED, k);
    GetTexts(flat.texts, FIELDS, Name);
    GetMissing(FlatTexts(flat.texts, FIELDS), k);
    forall f ensures FieldName(f) != k { FieldNamesDistinct(f, f); }
  }

  /** ... and up to coercion on a text column. */
  lemma FlatKeepsColumn(es: seq<Entry>, flat: Flat, f: Field)
    requires flat.carried == Carry(es, CARRIED) && flat.strays == []
    requires f in flat.texts <==> Get(es, FieldName(f)).Some?
    requires f in flat.texts ==> TextOf(Get(es, FieldName(f))) == Some(flat.texts[f])
    ensures TextOf(Get(FlatEntries(flat), FieldName(f))) == TextOf(Get(es, FieldName(f)))
  {
    FieldNamesDistinct(f, f);
    GetFlat(flat, FieldName(f));
    GetCarried(es, CARRIED, FieldName(f));
    GetTexts(flat.texts, FIELDS, f);
  }

  lemma FlatProperties(es: seq<Entry>, flat: Flat)
    requires flat.carried == Carry(es, CARRIED) && flat.favorite == Get(es, "favorite") && flat.strays == []
    requires forall f :: f in flat.texts <==> Get(es, FieldName(f)).Some?
    requires forall f :: f in flat.texts ==> TextOf(Get(es, FieldName(f))) == Some(flat.texts[f])
    requires ExtraOf(es) == []
    ensures SameProperties(FlatEntries(flat), es)
  {
    forall f ensures TextOf(Get(FlatEntries(flat), FieldName(f))) == TextOf(Get(es, FieldName(f))) {
      FlatKeepsColumn(es, flat, f);
    }
    assert CARRIED[0] == "type" && CARRIED[1] == "card" && CARRIED[2] == "identity" && CARRIED[3] == "fields";
    FlatKeepsStructured(es, flat, "type");
    FlatKeepsStructured(es, flat, "card");
    FlatKeepsStructured(es, flat, "identity");
    FlatKeepsStructured(es, flat, "fields");
    FlatKeepsStructured(es, flat, "favorite");
    FlatExtra(es, flat);
  }

  /** Only inherited names leave keys the client does not declare. */
  lemma FlatExtra(es: seq<Entry>, flat: Flat)
    requires flat.carried == Carry(es, CARRIED) && forall e :: e in flat.strays ==> IsExtra(e)
    ensures ExtraOf(FlatEntries(flat)) == flat.strays
  {
    var known := flat.carried + FlatTexts(flat.texts, FIELDS);
    var favorite := if flat.favorite.Some? then [Entry("favorite", flat.favorite.value)] else [];
    assert KEYS[10] == "favorite";
    KnownDeclared(es, flat);
    FilterNone(IsExtra, known);
    FilterAll(IsExtra, flat.strays);
    FilterNone(IsExtra, favorite);
    FilterConcat(IsExtra, known, flat.strays);
    FilterConcat(IsExtra, known + flat.strays, favorite);
  }

  lemma KnownDeclared(es: seq<Entry>, flat: Flat)
    requires flat.carried == Carry(es, CARRIED)
    ensures forall e :: e in flat.carried + FlatTexts(flat.texts, FIELDS) ==> e.key in KEYS
  {
    GetCarried(es, CARRIED, "type");
    GetTexts(flat.texts, FIELDS, Name);
    assert CARRIED[0] == KEYS[0] && CARRIED[1] == KEYS[7] && CARRIED[2] == KEYS[8] && CARRIED[3] == KEYS[9];
    forall f ensures FieldName(f) in KEYS { FieldNamesDistinct(f, f); }
  }

  /** Renaming, flattening and re-reading loses nothing: on an object with only the
      declared keys, whatever their order and values, the row normaliser is
      normalizeItemFields (and throws exactly when it does). */
  lemma NormalizeDeclared(es: seq<Entry>)
    requires AllDeclared(es)
    ensures Normalize(es) == NormalizeItemFields(es)
  {
    var start := Flat(Carry(es, CARRIED), map[], None, []);
    AbsorbDeclared(start, es);
    NoExtra(es);
    match AbsorbAll(start, es) {
      case Some(flat) =>
        FlatProperties(es, flat);
        SameItem(FlatEntries(flat), es);
      case None =>
        var f :| Get(es, FieldName(f)).Some? && TextOf(Get(es, FieldName(f))) == None;
        ThrowingColumn(es, f);
    }
  }

  lemma ThrowingColumn(es: seq<Entry>, f: Field)
    requires TextOf(Get(es, FieldName(f))) == None
    ensures NormalizeItemFields(es) == None
  {
    assert ColumnsOf(es) == None;
  }

  // --- import ----------------------------------------------------------------

  predicate TruthyAt(es: seq<Entry>, k: string) {
    Get(es, k).Some? && Truthy(Get(es, k).value)
  }

  /** `nonEmpty`: folder and favourite alone do not make an item. */
  predicate HasContent(c: Columns) {
    c.name != "" || c.username != "" || c.password != "" || c.url != "" || c.notes != "" || c.totp != ""
  }

  predicate NonEmpty(it: Item) {
    HasContent(it.columns) || TruthyAt(it.card, "number")
    || TruthyAt(it.identity, "fullName") || TruthyAt(it.identity, "email") || it.fields != []
  }

  /** Normalises each row in order; None as soon as one throws. */
  function NormalizeAll(rows: seq<seq<Entry>>): Option<seq<Item>> {
    Traverse(Normalize, rows)
  }

  /** The property a header cell stands for. */
  function HeadingOf(h: string): Option<string> {
    var lower := Lower(Trim(h));
    if lower in ALIASES then Some(FieldName(ALIASES[lower]))
    else if lower in INHERITED then Some(INHERITED[lower])
    else if lower in FAVORITE_KEYS then Some("favorite")
    else None
  }

  /** The object built from one row: the first column of each heading wins, and a
      short row is padded with "". */
  function RowObject(cols: seq<Option<string>>, cells: Csv.Row, i: nat, obj: seq<Entry>): seq<Entry>
    decreases |cols| - i
  {
    if i >= |cols| then obj
    else
      var unset := cols[i].Some? && Get(obj, cols[i].value) == None;
      var cell := if i < |cells| then cells[i] else "";
      RowObject(cols, cells, i + 1, if unset then obj + [Entry(cols[i].value, JStr(cell))] else obj)
  }

  function CsvObjects(cols: seq<Option<string>>, rows: seq<Csv.Row>): seq<seq<Entry>> {
    Map(cells => RowObject(cols, cells, 0, []), rows)
  }

  function Keep(items: Option<seq<Item>>): Result<seq<Item>, ImportError> {
    match items
    case Some(all) => Ok(Filter(NonEmpty, all))
    case None => Err(Uncoercible)
  }

  function ParseCsv(text: string): Result<seq<Item>, ImportError> {
    var rows := Csv.Rows(text);
    if rows == [] then Ok([]) else Keep(NormalizeAll(CsvObjects(Map(HeadingOf, rows[0]), rows[1..])))
  }

  function ImportDocument(doc: JValue): Result<seq<Item>, ImportError> {
    var arr := if doc.JArr? then Some(doc) else Prop(doc, "items");
    if arr.None? || !arr.value.JArr? then Err(UnrecognizedJson)
    else if JNull in arr.value.elems then Err(NotAnObject)
    else Keep(NormalizeAll(Map(Properties, arr.value.elems)))
  }

  /** `parseVaultImport`; `parse` is JSON.parse, with None for a syntax error. */
  function ParseVaultImport(parse: string -> Option<JValue>, text: string): Result<seq<Item>, ImportError> {
    var trimmed := Trim(text);
    if trimmed == "" then Err(EmptyFile)
    else
      var items :=
        if trimmed[0] == '{' || trimmed[0] == '['
        then match parse(trimmed)
             case Some(doc) => ImportDocument(doc)
             case None => Err(InvalidJson)
        else ParseCsv(trimmed);
      if items == Ok([]) then Err(NoItems) else items
  }

  // --- the CSV round trip ----------------------------------------------------

  function NormalColumns(c: Columns): Columns {
    Columns(Csv.NormalizeNewlines(c.name), Csv.NormalizeNewlines(c.url), Csv.NormalizeNewlines(c.username),
            Csv.NormalizeNewlines(c.password), Csv.NormalizeNewlines(c.totp), Csv.NormalizeNewlines(c.notes),
            Csv.NormalizeNewlines(c.folder))
  }

  /** What a CSV file can say about an item. */
  function AsLogin(it: Item): Item {
    Item(Login, NormalColumns(it.columns), BLANK_CARD, BLANK_IDENTITY, [], it.favorite, [])
  }

  lemma OurHeading(i: nat)
    requires i < |HeaderRow()|
    ensures HeadingOf(HeaderRow()[i]) == Some(HeaderRow()[i])
    ensures HeaderRow()[i] in KEYS
  {
    if i < |FIELDS| {
      var f := FIELDS[i];
      FieldNamesDistinct(f, f);
      DeclaredKeyLower(FieldName(f));
      OurAlias(f);
    } else {
      assert HeaderRow()[i] == KEYS[10] == "favorite";
      DeclaredKeyLower("favorite");
      FavoriteIsNoAlias();
    }
  }

  lemma OurAlias(f: Field)
    ensures FieldName(f) in ALIASES && ALIASES[FieldName(f)] == f
  {
  }

  lemma FavoriteIsNoAlias()
    ensures "favorite" !in ALIASES && "favorite" !in INHERITED && "favorite" in FAVORITE_KEYS
  {
    assert FAVORITE_KEYS[0] == "favorite" && KEYS[10] == "favorite";
    DeclaredIsNotInherited("favorite");
  }

  lemma OurHeaderDistinct()
    ensures forall i, j :: 0 <= i < j < |HeaderRow()| ==> HeaderRow()[i] != HeaderRow()[j]
    ensures |HeaderRow()| == |FIELDS| + 1
  {
    forall i, j | 0 <= i < j < |HeaderRow()| ensures HeaderRow()[i] != HeaderRow()[j] {
      FieldNamesDistinct(FIELDS[i], if j < |FIELDS| then FIELDS[j] else Name);
      assert forall k, l :: 0 <= k < l < |FIELDS| ==> FIELDS[k] != FIELDS[l];
    }
  }

  /** The entries of a row under distinct headings. */
  function Zip(keys: seq<string>, cells: Csv.Row, n: nat): (es: seq<Entry>)
    requires n <= |keys| == |cells|
    ensures |es| == n
  {
    seq(n, i requires 0 <= i < n => Entry(keys[i], JStr(cells[i])))
  }

  lemma {:induction false} RowObjectZips(cols: seq<Option<string>>, keys: seq<string>, cells: Csv.Row, i: nat)
    requires |cols| == |keys| == |cells| && i <= |keys|
    requires forall k :: 0 <= k < |keys| ==> cols[k] == Some(keys[k])
    requires forall k, l :: 0 <= k < l < |keys| ==> keys[k] != keys[l]
    ensures RowObject(cols, cells, i, Zip(keys, cells, i)) == Zip(keys, cells, |keys|)
    decreases |keys| - i
  {
    if i < |keys| {
      var obj := Zip(keys, cells, i);
      GetMissing(obj, keys[i]);
      assert !HasKey(obj, keys[i]);
      assert Zip(keys, cells, i + 1) == obj + [Entry(keys[i], JStr(cells[i]))];
      RowObjectZips(cols, keys, cells, i + 1);
    }
  }
}
