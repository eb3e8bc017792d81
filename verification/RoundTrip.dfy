/** What survives an export followed by an import: the CSV and the JSON laws of
    clients/packages/api-client/src/portable.ts. */
module RoundTrip {
  import opened Prelude
  import opened Json
  import opened Items
  import opened Portable
  import Csv

  // --- one CSV row -----------------------------------------------------------

  function ExportedObject(it: Item): seq<Entry> {
    Zip(HeaderRow(), Csv.NormalizeCells(ItemRow(it)), |FIELDS| + 1)
  }

  lemma ExportedCell(it: Item, i: nat)
    requires i <= |FIELDS|
    ensures |HeaderRow()| == |FIELDS| + 1
    ensures ExportedObject(it)[i] ==
            if i < |FIELDS| then Entry(FieldName(FIELDS[i]), JStr(Column(NormalColumns(it.columns), FIELDS[i])))
            else Entry("favorite", JStr(if it.favorite then "1" else ""))
  {
    var flag := if it.favorite then "1" else "";
    Csv.NormalizeRemovesCr(flag);
  }

  lemma ExportedColumn(it: Item, f: Field)
    ensures Get(ExportedObject(it), FieldName(f)) == Some(JStr(Column(NormalColumns(it.columns), f)))
  {
    OurHeaderDistinct();
    FieldNamesDistinct(f, f);
    var i :| 0 <= i < |FIELDS| && FIELDS[i] == f;
    ExportedCell(it, i);
    var obj := ExportedObject(it);
    assert forall j :: 0 <= j < |obj| ==> obj[j].key == HeaderRow()[j];
    GetFirst(obj, i);
  }

  lemma ExportedOther(it: Item, k: string)
    requires k in CARRIED
    ensures Get(ExportedObject(it), "favorite") == Some(JStr(if it.favorite then "1" else ""))
    ensures Get(ExportedObject(it), k) == None
  {
    OurHeaderDistinct();
    var obj := ExportedObject(it);
    assert forall j :: 0 <= j < |obj| ==> obj[j].key == HeaderRow()[j];
    ExportedCell(it, |FIELDS|);
    GetFirst(obj, |FIELDS|);
    GetMissing(obj, k);
    forall j | 0 <= j < |obj| ensures obj[j].key != k {
      ExportedCell(it, j);
      if j < |FIELDS| {
        FieldNamesDistinct(FIELDS[j], FIELDS[j]);
      } else {
        assert "favorite" !in CARRIED;
      }
    }
  }

  lemma ExportedDeclared(it: Item)
    ensures AllDeclared(ExportedObject(it)) && ExtraOf(ExportedObject(it)) == []
  {
    var obj := ExportedObject(it);
    OurHeaderDistinct();
    assert forall j :: 0 <= j < |obj| ==> obj[j].key == HeaderRow()[j];
    forall e | e in obj ensures e.key in KEYS {
      var j :| 0 <= j < |obj| && obj[j] == e;
      OurHeading(j);
    }
    NoExtra(obj);
  }

  lemma {:induction false} SpreadNothing(base: seq<Entry>)
    ensures Spread(base, []) == base
  {
  }

  lemma FlagMeans(b: bool)
    ensures FavoriteOf(Some(JStr(if b then "1" else ""))) == Some(b)
  {
    assert Lower("") == "" && Lower("1") == "1";
  }

  lemma ExportedColumns(it: Item)
    ensures ColumnsOf(ExportedObject(it)) == Some(NormalColumns(it.columns))
  {
    var obj, c := ExportedObject(it), NormalColumns(it.columns);
    forall f ensures Get(obj, FieldName(f)) == Some(JStr(Column(c, f))) { ExportedColumn(it, f); }
    assert DescribesColumns(obj, c) by {
      assert FieldName(Name) == "name" && FieldName(Url) == "url" && FieldName(Username) == "username";
      assert FieldName(Password) == "password" && FieldName(Totp) == "totp" && FieldName(Notes) == "notes";
      assert FieldName(Folder) == "folder";
    }
    ColumnsFromProperties(obj, c);
  }

  lemma ExportedStructure(it: Item, k: string)
    requires k == "type" || k == "card" || k == "identity" || k == "fields"
    ensures Get(ExportedObject(it), k) == None
    ensures FavoriteOf(Get(ExportedObject(it), "favorite")) == Some(it.favorite)
  {
    assert CARRIED[0] == "type" && CARRIED[1] == "card" && CARRIED[2] == "identity" && CARRIED[3] == "fields";
    ExportedOther(it, k);
    FlagMeans(it.favorite);
  }

  lemma DefaultDetails()
    ensures Details(BLANK_CARD, None) == BLANK_CARD && Details(BLANK_IDENTITY, None) == BLANK_IDENTITY
  {
    SpreadNothing(BLANK_CARD);
    SpreadNothing(BLANK_IDENTITY);
  }

  /** An object with text columns and a favourite but nothing structured is a login. */
  lemma PlainObject(raw: seq<Entry>, c: Columns, favorite: bool)
    requires Get(raw, "type") == None && Get(raw, "card") == None && Get(raw, "identity") == None
    requires Get(raw, "fields") == None && ExtraOf(raw) == []
    requires ColumnsOf(raw) == Some(c) && FavoriteOf(Get(raw, "favorite")) == Some(favorite)
    ensures NormalizeItemFields(raw) == Some(Item(Login, c, BLANK_CARD, BLANK_IDENTITY, [], favorite, []))
  {
    DefaultDetails();
    assert Details(BLANK_CARD, Get(raw, "card")) == BLANK_CARD;
    assert Details(BLANK_IDENTITY, Get(raw, "identity")) == BLANK_IDENTITY;
    assert KindOf(Get(raw, "type")) == Login && CustomFieldsOf(Get(raw, "fields")) == Some([]);
  }

  /** A row that toCSV wrote comes back as the login it describes. */
  lemma ExportedRowImports(it: Item)
    ensures Normalize(ExportedObject(it)) == Some(AsLogin(it))
  {
    var obj := ExportedObject(it);
    ExportedDeclared(it);
    NormalizeDeclared(obj);
    ExportedColumns(it);
    ExportedStructure(it, "type");
    ExportedStructure(it, "card");
    ExportedStructure(it, "identity");
    ExportedStructure(it, "fields");
    PlainObject(obj, NormalColumns(it.columns), it.favorite);
  }

  lemma BlankDefaults()
    ensures !TruthyAt(BLANK_CARD, "number")
    ensures !TruthyAt(BLANK_IDENTITY, "fullName") && !TruthyAt(BLANK_IDENTITY, "email")
  {
    assert BLANK_CARD[1].key == "number" && BLANK_IDENTITY[0].key == "fullName" && BLANK_IDENTITY[1].key == "email";
    DefaultsDistinct();
    GetFirst(BLANK_CARD, 1);
    GetFirst(BLANK_IDENTITY, 0);
    GetFirst(BLANK_IDENTITY, 1);
  }

  lemma NormalContent(c: Columns)
    ensures HasContent(NormalColumns(c)) == HasContent(c)
  {
    Csv.NormalizeRemovesCr(c.name);
    Csv.NormalizeRemovesCr(c.url);
    Csv.NormalizeRemovesCr(c.username);
    Csv.NormalizeRemovesCr(c.password);
    Csv.NormalizeRemovesCr(c.totp);
    Csv.NormalizeRemovesCr(c.notes);
  }

  lemma LoginContent(it: Item)
    ensures NonEmpty(AsLogin(it)) == HasContent(it.columns)
  {
    BlankDefaults();
    NormalContent(it.columns);
  }

  /** A row dropped for being blank belongs to an item without content. */
  lemma BlankRow(it: Item)
    ensures HasContent(it.columns) ==> Csv.NotBlank(Csv.NormalizeCells(ItemRow(it)))
  {
    NormalContent(it.columns);
    if HasContent(it.columns) {
      var c := NormalColumns(it.columns);
      var f :| Column(c, f) != "";
      FieldNamesDistinct(f, f);
      var i :| 0 <= i < |FIELDS| && FIELDS[i] == f;
      ExportedCell(it, i);
      assert Csv.NormalizeCells(ItemRow(it))[i] == Column(c, f);
    }
  }

  // --- all CSV rows ----------------------------------------------------------

  lemma OurColumns()
    ensures forall i :: 0 <= i < |HeaderRow()| ==> HeadingOf(HeaderRow()[i]) == Some(HeaderRow()[i])
  {
    forall i | 0 <= i < |HeaderRow()| ensures HeadingOf(HeaderRow()[i]) == Some(HeaderRow()[i]) {
      OurHeading(i);
    }
  }

  const OUR_COLUMNS: seq<Option<string>> := Map(HeadingOf, HeaderRow())

  lemma ExportedRowObject(it: Item)
    ensures RowObject(OUR_COLUMNS, Csv.NormalizeCells(ItemRow(it)), 0, []) == ExportedObject(it)
  {
    OurColumns();
    OurHeaderDistinct();
    RowObjectOf(OUR_COLUMNS, HeaderRow(), Csv.NormalizeCells(ItemRow(it)));
  }

  lemma RowObjectOf(cols: seq<Option<string>>, keys: seq<string>, cells: Csv.Row)
    requires |cols| == |keys| == |cells|
    requires forall k :: 0 <= k < |keys| ==> cols[k] == Some(keys[k])
    requires forall k, l :: 0 <= k < l < |keys| ==> keys[k] != keys[l]
    ensures RowObject(cols, cells, 0, []) == Zip(keys, cells, |keys|)
  {
    assert Zip(keys, cells, 0) == [];
    RowObjectZips(cols, keys, cells, 0);
  }

  predicate Contentful(it: Item) {
    HasContent(it.columns)
  }

  function ExportedRows(items: seq<Item>): seq<Csv.Row> {
    Map(Csv.NormalizeCells, Map(ItemRow, items))
  }

  ghost predicate RowImports(cols: seq<Option<string>>, it: Item) {
    && Normalize(RowObject(cols, Csv.NormalizeCells(ItemRow(it)), 0, [])) == Some(AsLogin(it))
    && NonEmpty(AsLogin(it)) == Contentful(it)
    && (Contentful(it) ==> Csv.NotBlank(Csv.NormalizeCells(ItemRow(it))))
  }

  lemma KeepCons(first: seq<Entry>, rest: seq<seq<Entry>>, item: Item)
    requires Normalize(first) == Some(item) && Keep(NormalizeAll(rest)).Ok?
    ensures Keep(NormalizeAll([first] + rest))
         == Ok((if NonEmpty(item) then [item] else []) + Keep(NormalizeAll(rest)).value)
  {
    TraverseCons(Normalize, first, rest);
    FilterCons(NonEmpty, item, NormalizeAll(rest).value);
  }

  lemma ImportCons(cols: seq<Option<string>>, row: Csv.Row, tail: seq<Csv.Row>, item: Item)
    requires Normalize(RowObject(cols, row, 0, [])) == Some(item)
    requires Keep(NormalizeAll(CsvObjects(cols, tail))).Ok?
    ensures Keep(NormalizeAll(CsvObjects(cols, [row] + tail)))
         == Ok((if NonEmpty(item) then [item] else []) + Keep(NormalizeAll(CsvObjects(cols, tail))).value)
  {
    assert CsvObjects(cols, [row] + tail) == [RowObject(cols, row, 0, [])] + CsvObjects(cols, tail) by {
      assert ([row] + tail)[1..] == tail;
    }
    KeepCons(RowObject(cols, row, 0, []), CsvObjects(cols, tail), item);
  }

  /** Importing the surviving rows gives the surviving items, in order. */
  lemma {:induction false} RowsImport(cols: seq<Option<string>>, items: seq<Item>)
    requires forall it :: it in items ==> RowImports(cols, it)
    ensures Keep(NormalizeAll(CsvObjects(cols, Filter(Csv.NotBlank, ExportedRows(items)))))
         == Ok(Map(AsLogin, Filter(Contentful, items)))
  {
    if items != [] {
      var it, rest := items[0], items[1..];
      var row := Csv.NormalizeCells(ItemRow(it));
      assert ExportedRows(items) == [row] + ExportedRows(rest);
      assert ExportedRows(items)[1..] == ExportedRows(rest);
      RowsImport(cols, rest);
      assert RowImports(cols, it);
      ImportCons(cols, row, Filter(Csv.NotBlank, ExportedRows(rest)), AsLogin(it));
      assert Map(AsLogin, [it] + Filter(Contentful, rest)) == [AsLogin(it)] + Map(AsLogin, Filter(Contentful, rest));
    }
  }

  lemma OurRowsImport(items: seq<Item>)
    ensures forall it :: it in items ==> RowImports(OUR_COLUMNS, it)
  {
    forall it | it in items ensures RowImports(OUR_COLUMNS, it) {
      ExportedRowObject(it);
      ExportedRowImports(it);
      LoginContent(it);
      BlankRow(it);
    }
  }

  // --- the CSV law -----------------------------------------------------------

  lemma JoinLastChar(parts: seq<string>, sep: string)
    requires parts != [] && parts[|parts| - 1] != ""
    ensures Join(parts, sep) != ""
    ensures Join(parts, sep)[|Join(parts, sep)| - 1] == parts[|parts| - 1][|parts[|parts| - 1]| - 1]
  {
    var last := parts[|parts| - 1];
    if |parts| > 1 {
      assert parts == parts[..|parts| - 1] + [last];
      JoinAppend(parts[..|parts| - 1], last, sep);
    }
  }

  lemma ItemLineEnd(it: Item)
    ensures PrintItem(it) != "" && !IsSpace(PrintItem(it)[|PrintItem(it)| - 1])
  {
    var flag := if it.favorite then "1" else "";
    var cells := Map(Csv.CsvEscape, Texts(it.columns));
    assert !Csv.NeedsQuotes(flag);
    MapAppend(Csv.CsvEscape, Texts(it.columns), flag);
    JoinAppend(cells, flag, ",");
  }

  lemma HeaderLine()
    ensures var line := Join(HeaderRow(), ",");
            line != "" && line[0] == 'n' && line[|line| - 1] == 'e'
  {
    var row := HeaderRow();
    assert row[0] == FieldName(FIELDS[0]) == "name";
    assert row[|row| - 1] == "favorite";
    JoinLastChar(row, ",");
  }

  lemma JoinFirstChar(first: string, rest: seq<string>, sep: string)
    requires first != ""
    ensures Join([first] + rest, sep) != "" && Join([first] + rest, sep)[0] == first[0]
  {
  }

  lemma PrintedEnds(header: string, items: seq<Item>)
    requires header != "" && header[0] == 'n' && header[|header| - 1] == 'e'
    ensures var text := Join([header] + Map(PrintItem, items), "\r\n");
            text != "" && text[0] == 'n' && !IsSpace(text[|text| - 1])
  {
    var lines := [header] + Map(PrintItem, items);
    JoinFirstChar(header, Map(PrintItem, items), "\r\n");
    if items != [] {
      ItemLineEnd(items[|items| - 1]);
      assert lines[|lines| - 1] == PrintItem(items[|items| - 1]);
    }
    JoinLastChar(lines, "\r\n");
  }

  /** The outer `trim` of the importer never removes exported content. */
  lemma ExportNeedsNoTrim(items: seq<Item>)
    ensures var text := Csv.Print(TableOf(items)); Trim(text) == text && text != "" && text[0] == 'n'
  {
    PrintedTable(items);
    HeaderLine();
    PrintedEnds(Join(HeaderRow(), ","), items);
    Trimmed(Csv.Print(TableOf(items)));
  }

  lemma CrFreeSurvives(row: Csv.Row)
    requires forall i :: 0 <= i < |row| ==> '\r' !in row[i]
    ensures Csv.NormalizeCells(row) == row
  {
    forall i | 0 <= i < |row| ensures Csv.NormalizeNewlines(row[i]) == row[i] {
      Csv.NormalizeRemovesCr(row[i]);
    }
  }

  lemma HeaderCells(i: nat)
    requires i < |HeaderRow()|
    ensures '\r' !in HeaderRow()[i] && HeaderRow()[i] != ""
  {
  }

  lemma HeaderSurvives()
    ensures Csv.NormalizeCells(HeaderRow()) == HeaderRow() && Csv.NotBlank(HeaderRow())
  {
    forall i | 0 <= i < |HeaderRow()| ensures '\r' !in HeaderRow()[i] {
      HeaderCells(i);
    }
    HeaderCells(0);
    CrFreeSurvives(HeaderRow());
  }

  lemma ScannedTable(header: Csv.Row, items: seq<Item>)
    requires Csv.NormalizeCells(header) == header && Csv.NotBlank(header)
    ensures Csv.Rows(Csv.Print([header] + Map(ItemRow, items)))
         == [header] + Filter(Csv.NotBlank, ExportedRows(items))
  {
    Csv.RoundTrip([header] + Map(ItemRow, items));
    assert Map(Csv.NormalizeCells, [header] + Map(ItemRow, items)) == [header] + ExportedRows(items);
    FilterCons(Csv.NotBlank, header, ExportedRows(items));
  }

  lemma ParsedTable(items: seq<Item>)
    ensures ParseCsv(Csv.Print(TableOf(items))) == Ok(Map(AsLogin, Filter(Contentful, items)))
  {
    HeaderSurvives();
    ScannedTable(HeaderRow(), items);
    OurRowsImport(items);
    RowsImport(OUR_COLUMNS, items);
    var rows := Csv.Rows(Csv.Print(TableOf(items)));
    assert rows[0] == HeaderRow() && rows[1..] == Filter(Csv.NotBlank, ExportedRows(items));
  }

  lemma ContentfulImport(parse: string -> Option<JValue>, items: seq<Item>)
    ensures var kept := Filter(Contentful, items);
            ParseVaultImport(parse, Csv.Print(TableOf(items)))
            == if kept == [] then Err(NoItems) else Ok(Map(AsLogin, kept))
  {
    ExportNeedsNoTrim(items);
    ParsedTable(items);
  }

  /** For every list of items: importing the exported CSV gives, in order, exactly
      the items with some content, as logins whose text columns differ only in
      newlines and whose favourite flag is kept. */
  lemma CsvRoundTrip(parse: string -> Option<JValue>, items: seq<Item>)
    ensures var kept := Filter((it: Item) =>
              it.columns.name != "" || it.columns.url != "" || it.columns.username != "" || it.columns.password != ""
              || it.columns.totp != "" || it.columns.notes != "", items);
            ParseVaultImport(parse, Csv.Print(TableOf(items)))
            == if kept == [] then Err(NoItems) else Ok(Map(AsLogin, kept))
  {
    ContentfulImport(parse, items);
    FilterSame(Contentful, (it: Item) =>
      it.columns.name != "" || it.columns.url != "" || it.columns.username != "" || it.columns.password != ""
      || it.columns.totp != "" || it.columns.notes != "", items);
  }

  lemma {:induction false} LoneNotes(result: Result<seq<Item>, ImportError>, items: seq<Item>)
    requires |items| == 1 && items[0].columns.notes != ""
    requires var kept := Filter(Contentful, items);
             result == if kept == [] then Err(NoItems) else Ok(Map(AsLogin, kept))
    ensures result == Ok([AsLogin(items[0])])
  {
    assert items[1..] == [];
    assert Contentful(items[0]);
    FilterAll(Contentful, items);
    assert Map(AsLogin, items) == [AsLogin(items[0])];
  }

  /** An item with notes is kept, whatever else it lacks. */
  lemma NotesAreKept(parse: string -> Option<JValue>, items: seq<Item>)
    requires |items| == 1 && items[0].columns.notes != ""
    ensures ParseVaultImport(parse, Csv.Print(TableOf(items))) == Ok([AsLogin(items[0])])
  {
    ContentfulImport(parse, items);
    LoneNotes(ParseVaultImport(parse, Csv.Print(TableOf(items))), items);
  }

  // --- which items hold something --------------------------------------------

  /** Present, and none of null, false, 0 and "". */
  predicate Says(es: seq<Entry>, k: string) {
    Get(es, k).Some?
    && var v := Get(es, k).value;
       v != JNull && v != JBool(false) && v != JStr("") && !(v.JNum? && v.zero)
  }

  predicate HoldsSomething(it: Item) {
    || it.columns.name != "" || it.columns.username != "" || it.columns.password != ""
    || it.columns.url != "" || it.columns.notes != "" || it.columns.totp != ""
    || Says(it.card, "number") || Says(it.identity, "fullName") || Says(it.identity, "email") || it.fields != []
  }

  /** An item holds something exactly when one of six columns, the card's number, the
      identity's name or e-mail, or a custom field does; folder and favourite do not
      count. */
  lemma NonEmptyIs(it: Item)
    ensures NonEmpty(it)
            <==> || it.columns.name != "" || it.columns.username != "" || it.columns.password != ""
                 || it.columns.url != "" || it.columns.notes != "" || it.columns.totp != ""
                 || Says(it.card, "number") || Says(it.identity, "fullName") || Says(it.identity, "email")
                 || it.fields != []
    ensures NonEmpty(it) == HoldsSomething(it)
  {
  }

  /** A card with nothing but a number is one. */
  lemma CardNumberIsKept(it: Item, number: string)
    requires it.card == [Entry("number", JStr(number))] && number != ""
    ensures NonEmpty(it)
  {
    assert it.card[0].key == "number";
    assert Get(it.card, "number") == Some(JStr(number));
  }

  // --- the JSON law ----------------------------------------------------------

  function ItemObject(it: Item): JValue {
    JObj(Encode(it))
  }

  /** The document toPlaintextJSON stringifies; None when an item cannot be coerced. */
  function ExportDocument(items: seq<seq<Entry>>): Option<JValue> {
    match Traverse(NormalizeItemFields, items)
    case Some(all) =>
      Some(JObj([Entry("format", JStr("passwd-export")), Entry("version", JNum("2", false)),
                 Entry("items", JArr(Map(ItemObject, all)))]))
    case None => None
  }

  lemma EncodedDeclared(it: Item)
    requires it.extra == []
    ensures AllDeclared(Encode(it))
  {
    KeysDistinct();
    var es := Encode(it);
    assert forall i :: 0 <= i < |KEYS| ==> es[i].key == KEYS[i];
  }

  /** A key the alias table answers with something it inherits. */
  predicate Inherited(e: Entry) {
    Lower(Trim(e.key)) in INHERITED
  }

  predicate NamesInherited(row: seq<Entry>) {
    exists i :: 0 <= i < |row| && Inherited(row[i])
  }

  /** What an inherited name turns into is neither declared nor inherited. */
  predicate IsStray(e: Entry) {
    e.key == "function Object() { [native code] }" || e.key == "[object Object]"
  }

  lemma StrayChars(k: string)
    requires k == "function Object() { [native code] }" || k == "[object Object]"
    ensures |k| > 1 && (k[0] == '[' || (k[0] == 'f' && k[1] == 'u')) && !IsSpace(k[0]) && !IsSpace(k[|k| - 1])
  {
  }

  lemma ForeignKey(k: string)
    requires |k| > 1 && (k[0] == '[' || (k[0] == 'f' && k[1] == 'u'))
    ensures k !in KEYS
  {
  }

  lemma LowerStart(k: string)
    requires k != "" && !IsSpace(k[0]) && !IsSpace(k[|k| - 1])
    ensures Lower(Trim(k)) != "" && Lower(Trim(k))[0] == LowerChar(k[0])
  {
    Trimmed(k);
  }

  lemma ForeignName(lower: string)
    requires lower != "" && lower[0] != 'c' && lower[0] != '_'
    ensures lower !in INHERITED
  {
    if lower in INHERITED {
      LongInherited(lower);
    }
  }

  lemma StrayIsForeign(e: Entry)
    requires IsStray(e)
    ensures IsExtra(e) && !Inherited(e)
  {
    StrayChars(e.key);
    ForeignKey(e.key);
    LowerStart(e.key);
    ForeignName(Lower(Trim(e.key)));
  }

  lemma InheritedStrays(lower: string, v: JValue)
    requires lower in INHERITED
    ensures IsStray(Entry(INHERITED[lower], v)) && lower !in FAVORITE_KEYS && lower !in ALIASES
  {
  }

  lemma ForeignField(k: string, lower: string)
    requires k !in KEYS
    ensures FieldNamed(k, lower) == if lower in ALIASES then Some(ALIASES[lower]) else None
  {
    assert KEYS[1] == "name" && KEYS[2] == "username" && KEYS[3] == "password" && KEYS[4] == "url";
    assert KEYS[5] == "totp" && KEYS[6] == "notes" && KEYS[11] == "folder";
  }

  lemma InheritedIsNoField(e: Entry)
    requires Inherited(e)
    ensures FieldNamed(e.key, Lower(Trim(e.key))) == None && Lower(Trim(e.key)) !in FAVORITE_KEYS
    ensures e.key !in KEYS
  {
    var lower := Lower(Trim(e.key));
    InheritedStrays(lower, e.value);
    if e.key in KEYS {
      DeclaredKeyLower(e.key);
      DeclaredIsNotInherited(e.key);
    } else {
      ForeignField(e.key, lower);
    }
  }

  predicate OnlyStrays(flat: Flat) {
    forall e :: e in flat.strays ==> IsStray(e)
  }

  lemma SetTextKeeps(es: seq<Entry>, k: string, s: string)
    requires IsStray(Entry(k, JStr(s))) && forall e :: e in es ==> IsStray(e)
    ensures SetText(es, k, s) != [] && forall e :: e in SetText(es, k, s) ==> IsStray(e)
  {
    GetMissing(es, k);
  }

  /** One turn of the loop leaves a stray exactly at an inherited name. */
  lemma AbsorbStrays(flat: Flat, e: Entry)
    requires OnlyStrays(flat) && Absorb(flat, e).Some?
    ensures var next := Absorb(flat, e).value;
            next.carried == flat.carried && OnlyStrays(next)
                && (next.strays == [] <==> flat.strays == [] && !Inherited(e))
  {
    if Inherited(e) {
      InheritedIsNoField(e);
      InheritedStrays(Lower(Trim(e.key)), e.value);
      var text := TextOf(Some(e.value));
      if text.Some? {
        SetTextKeeps(flat.strays, INHERITED[Lower(Trim(e.key))], text.value);
      }
    }
  }

  lemma {:induction false} AbsorbAllStrays(flat: Flat, es: seq<Entry>)
    requires OnlyStrays(flat) && AbsorbAll(flat, es).Some?
    ensures var g := AbsorbAll(flat, es).value;
            g.carried == flat.carried && OnlyStrays(g) && (g.strays == [] <==> flat.strays == [] && !NamesInherited(es))
    decreases |es|
  {
    if es != [] {
      AbsorbStrays(flat, es[0]);
      AbsorbAllStrays(Absorb(flat, es[0]).value, es[1..]);
      assert NamesInherited(es) <==> Inherited(es[0]) || NamesInherited(es[1..]) by {
        assert forall i :: 0 < i < |es| ==> es[i] == es[1..][i - 1];
        assert forall i :: 0 <= i < |es[1..]| ==> es[1..][i] == es[i + 1];
      }
    }
  }

  /** Importing drops every key the client does not declare, unless a key of the row
      spells a name the alias table inherits; then a key made of the inherited value
      gets into the item. */
  lemma ImportDropsExtra(row: seq<Entry>)
    ensures var r := Normalize(row);
            r.Some? ==> (r.value.extra == [] <==> !NamesInherited(row)) && forall e :: e in r.value.extra ==> IsStray(e)
  {
    var start := Flat(Carry(row, CARRIED), map[], None, []);
    if AbsorbAll(start, row).Some? {
      var flat := AbsorbAll(start, row).value;
      AbsorbAllStrays(start, row);
      forall e | e in flat.strays ensures IsExtra(e) { StrayIsForeign(e); }
      FlatExtra(row, flat);
    }
  }

  predicate AllText(es: seq<Entry>) {
    forall e :: e in es ==> e.value.JStr?
  }

  lemma {:induction false} TextAt(es: seq<Entry>, k: string)
    requires AllText(es)
    ensures Get(es, k).Some? ==> Get(es, k).value.JStr?
  {
    if es != [] {
      TextAt(es[1..], k);
    }
  }

  lemma TextNormalizes(es: seq<Entry>)
    requires AllText(es)
    ensures NormalizeItemFields(es).Some?
  {
    NormalizeThrowsExactly(es);
    TextAt(es, "fields");
    TextAt(es, "favorite");
    forall i | 0 <= i < |TEXT_KEYS| ensures Get(es, TEXT_KEYS[i]).Some? ==> Convertible(Get(es, TEXT_KEYS[i]).value) {
      TextAt(es, TEXT_KEYS[i]);
    }
  }

  lemma {:induction false} CarriedText(row: seq<Entry>, keys: seq<string>)
    requires AllText(row)
    ensures AllText(Carry(row, keys))
  {
    if keys != [] {
      TextAt(row, keys[0]);
      CarriedText(row, keys[1..]);
    }
  }

  /** `{"constructor": "..."}` is such a row: it imports, with a foreign key. */
  lemma ImportCanKeepExtra(s: string)
    ensures var r := Normalize([Entry("constructor", JStr(s))]); r.Some? && r.value.extra != []
  {
    LoneNameImports([Entry("constructor", JStr(s))], s);
  }

  lemma LoneNameAbsorbed(flat: Flat, e: Entry, s: string)
    requires Inherited(e) && e.value == JStr(s) && flat.strays == []
    ensures AbsorbAll(flat, [e]) == Some(flat.(strays := [Entry(INHERITED[Lower(Trim(e.key))], JStr(s))]))
  {
    InheritedIsNoField(e);
    var stray := [Entry(INHERITED[Lower(Trim(e.key))], JStr(s))];
    assert flat.strays + stray == stray;
    assert [e][1..] == [];
  }

  lemma LoneNameFlat(row: seq<Entry>, flat: Flat)
    requires AllText(row) && flat.carried == Carry(row, CARRIED) && flat.texts == map[] && flat.favorite == None
    requires AllText(flat.strays)
    ensures AllText(FlatEntries(flat))
  {
    CarriedText(row, CARRIED);
    NoTexts(FIELDS);
  }

  lemma LoneNameImports(row: seq<Entry>, s: string)
    requires |row| == 1 && row[0].key == "constructor" && row[0].value == JStr(s)
    ensures Normalize(row).Some? && Normalize(row).value.extra != []
  {
    NameLowers(row[0].key);
    assert Inherited(row[0]);
    var start := Flat(Carry(row, CARRIED), map[], None, []);
    LoneNameAbsorbed(start, row[0], s);
    assert row == [row[0]];
    LoneNameFlat(row, AbsorbAll(start, row).value);
    TextNormalizes(FlatEntries(AbsorbAll(start, row).value));
    ImportDropsExtra(row);
  }

  lemma {:induction false} NoTexts(fields: seq<Field>)
    ensures FlatTexts(map[], fields) == []
  {
    if fields != [] {
      NoTexts(fields[1..]);
    }
  }

  lemma NameLowers(k: string)
    requires k == "constructor"
    ensures Lower(Trim(k)) in INHERITED
  {
    Trimmed(k);
    LowerCased(k);
  }

  /** An item survives its own JSON form exactly when it has no undeclared keys. */
  lemma JsonItemSurvives(it: Item)
    requires Normal(it)
    ensures Normalize(Encode(it)) == Some(it) <==> it.extra == []
  {
    if it.extra == [] {
      EncodedDeclared(it);
      NormalizeDeclared(Encode(it));
      NormalIsFixed(it);
    } else if Normalize(Encode(it)) == Some(it) {
      ImportDropsExtra(Encode(it));
      EncodedNames(it);
    }
  }

  lemma EncodedNames(it: Item)
    requires forall e :: e in it.extra ==> IsStray(e)
    ensures !NamesInherited(Encode(it))
  {
    var es := Encode(it);
    forall i | 0 <= i < |es| ensures !Inherited(es[i]) {
      if i < |KEYS| {
        assert es[i].key == KEYS[i];
        if Inherited(es[i]) {
          InheritedIsNoField(es[i]);
        }
      } else {
        assert es[i] == it.extra[i - |KEYS|];
        StrayIsForeign(es[i]);
      }
    }
  }

  predicate OnlyDeclared(raw: seq<Entry>) {
    forall e :: e in raw ==> e.key in KEYS
  }

  lemma DeclaredSurvives(raw: seq<Entry>)
    requires OnlyDeclared(raw) && NormalizeItemFields(raw).Some?
    ensures Normalize(Encode(NormalizeItemFields(raw).value)) == NormalizeItemFields(raw)
  {
    NoExtra(raw);
    NormalizedIsNormal(raw);
    JsonItemSurvives(NormalizeItemFields(raw).value);
  }

  lemma ObjectProperties(all: seq<Item>)
    ensures Map(Properties, Map(ItemObject, all)) == Map(Encode, all)
  {
  }

  lemma EachSurvives(items: seq<seq<Entry>>)
    requires forall raw :: raw in items ==> OnlyDeclared(raw)
    ensures forall raw :: raw in items && NormalizeItemFields(raw).Some?
              ==> Normalize(Encode(NormalizeItemFields(raw).value)) == NormalizeItemFields(raw)
  {
    forall raw | raw in items && NormalizeItemFields(raw).Some?
      ensures Normalize(Encode(NormalizeItemFields(raw).value)) == NormalizeItemFields(raw)
    {
      DeclaredSurvives(raw);
    }
  }

  lemma AllSurvive(items: seq<seq<Entry>>)
    requires forall raw :: raw in items ==> OnlyDeclared(raw)
    requires Traverse(NormalizeItemFields, items).Some?
    ensures var all := Traverse(NormalizeItemFields, items).value;
            NormalizeAll(Map(Properties, Map(ItemObject, all))) == Some(all)
  {
    EachSurvives(items);
    TraverseBack(NormalizeItemFields, Encode, Normalize, items);
    ObjectProperties(Traverse(NormalizeItemFields, items).value);
  }

  lemma ItemsImport(es: seq<Entry>, objects: seq<JValue>)
    requires Get(es, "items") == Some(JArr(objects)) && JNull !in objects
    ensures ImportDocument(JObj(es)) == Keep(NormalizeAll(Map(Properties, objects)))
  {
  }

  lemma DocumentItems(all: seq<Item>)
    ensures Get([Entry("format", JStr("passwd-export")), Entry("version", JNum("2", false)),
                 Entry("items", JArr(Map(ItemObject, all)))], "items") == Some(JArr(Map(ItemObject, all)))
  {
    var es := [Entry("format", JStr("passwd-export")), Entry("version", JNum("2", false)),
               Entry("items", JArr(Map(ItemObject, all)))];
    assert es[2].key == "items" && es[0].key != "items" && es[1].key != "items";
    GetFirst(es, 2);
  }

  lemma DocumentImports(items: seq<seq<Entry>>)
    requires forall raw :: raw in items ==> OnlyDeclared(raw)
    requires ExportDocument(items).Some?
    ensures ImportDocument(ExportDocument(items).value)
        == Ok(Filter(NonEmpty, Traverse(NormalizeItemFields, items).value))
  {
    AllSurvive(items);
    var all := Traverse(NormalizeItemFields, items).value;
    DocumentItems(all);
    ItemsImport(ExportDocument(items).value.entries, Map(ItemObject, all));
  }

  /** For items with only declared keys, importing the exported JSON gives back the
      normalised items that hold something, in order. `text` is any text that
      JSON.parse reads back as the exported document. */
  lemma JsonRoundTrip(parse: string -> Option<JValue>, items: seq<seq<Entry>>, text: string)
    requires forall raw :: raw in items ==> OnlyDeclared(raw)
    requires ExportDocument(items).Some?
    requires Trim(text) != "" && Trim(text)[0] == '{' && parse(Trim(text)) == ExportDocument(items)
    ensures var kept := Filter(HoldsSomething, Traverse(NormalizeItemFields, items).value);
            ParseVaultImport(parse, text) == if kept == [] then Err(NoItems) else Ok(kept)
  {
    DocumentImports(items);
    var all := Traverse(NormalizeItemFields, items).value;
    forall it | it in all ensures NonEmpty(it) == HoldsSomething(it) {
      NonEmptyIs(it);
    }
    FilterSame(NonEmpty, HoldsSomething, all);
  }
}
