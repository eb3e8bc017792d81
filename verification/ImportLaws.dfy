/** What an import makes of any file: which spellings name which column, how a CSV row
    becomes an object, and which error is answered when. */
module ImportLaws {
  import opened Prelude
  import opened Json
  import opened Items
  import opened Portable
  import opened RoundTrip
  import opened ForeignRows
  import opened CsvReading
  import Csv

  // --- the spellings ---------------------------------------------------------

  /** The column names of other managers, column by column. */
  function SpellingsOf(f: Field): set<string> {
    match f
    case Name => {"name", "title", "item"}
    case Url => {"url", "uri", "login_uri", "website", "site"}
    case Username => {"username", "user", "user name", "login", "login_username", "email"}
    case Password => {"password", "pass", "login_password"}
    case Totp => {"totp", "otp", "login_totp"}
    case Notes => {"notes", "note", "comment", "comments"}
    case Folder => {"folder", "group", "grouping"}
  }

  lemma NameSpelling(k: string)
    requires k in SpellingsOf(Name)
    ensures k in ALIASES && ALIASES[k] == Name
  {
  }

  lemma UrlSpelling(k: string)
    requires k in SpellingsOf(Url)
    ensures k in ALIASES && ALIASES[k] == Url
  {
  }

  lemma UsernameSpelling(k: string)
    requires k in SpellingsOf(Username)
    ensures k in ALIASES && ALIASES[k] == Username
  {
  }

  lemma PasswordSpelling(k: string)
    requires k in SpellingsOf(Password)
    ensures k in ALIASES && ALIASES[k] == Password
  {
  }

  lemma TotpSpelling(k: string)
    requires k in SpellingsOf(Totp)
    ensures k in ALIASES && ALIASES[k] == Totp
  {
  }

  lemma NotesSpelling(k: string)
    requires k in SpellingsOf(Notes)
    ensures k in ALIASES && ALIASES[k] == Notes
  {
  }

  lemma FolderSpelling(k: string)
    requires k in SpellingsOf(Folder)
    ensures k in ALIASES && ALIASES[k] == Folder
  {
  }

  lemma SpellingFound(k: string, f: Field)
    requires k in SpellingsOf(f)
    ensures k in ALIASES && ALIASES[k] == f
  {
    match f
    case Name => NameSpelling(k);
    case Url => UrlSpelling(k);
    case Username => UsernameSpelling(k);
    case Password => PasswordSpelling(k);
    case Totp => TotpSpelling(k);
    case Notes => NotesSpelling(k);
    case Folder => FolderSpelling(k);
  }

  lemma FoundSpelling(k: string)
    requires k in ALIASES
    ensures k in SpellingsOf(ALIASES[k])
  {
  }

  lemma AliasIs(k: string, f: Field)
    ensures k in ALIASES && ALIASES[k] == f <==> k in SpellingsOf(f)
  {
    if k in SpellingsOf(f) {
      SpellingFound(k, f);
    }
    if k in ALIASES {
      FoundSpelling(k);
    }
  }

  /** Exactly these spellings name a column, whatever else a file's columns are called. */
  lemma AliasesAre(k: string)
    ensures k in ALIASES && ALIASES[k] == Name <==> k in {"name", "title", "item"}
    ensures k in ALIASES && ALIASES[k] == Url <==> k in {"url", "uri", "login_uri", "website", "site"}
    ensures k in ALIASES && ALIASES[k] == Username
            <==> k in {"username", "user", "user name", "login", "login_username", "email"}
    ensures k in ALIASES && ALIASES[k] == Password <==> k in {"password", "pass", "login_password"}
    ensures k in ALIASES && ALIASES[k] == Totp <==> k in {"totp", "otp", "login_totp"}
    ensures k in ALIASES && ALIASES[k] == Notes <==> k in {"notes", "note", "comment", "comments"}
    ensures k in ALIASES && ALIASES[k] == Folder <==> k in {"folder", "group", "grouping"}
  {
    AliasIs(k, Name);
    AliasIs(k, Url);
    AliasIs(k, Username);
    AliasIs(k, Password);
    AliasIs(k, Totp);
    AliasIs(k, Notes);
    AliasIs(k, Folder);
  }

  lemma FavoriteNamesNothing(k: string)
    requires k in FAVORITE_KEYS
    ensures k !in ALIASES && k !in INHERITED
  {
  }

  lemma OwnNames(f: Field, g: Field)
    ensures FieldName(g) in SpellingsOf(f) <==> f == g
  {
    AliasIs(FieldName(g), f);
    OurAlias(g);
  }

  lemma OtherNames(e: Entry, f: Field)
    requires forall g :: e.key != FieldName(g)
    ensures FieldNamed(e.key, Lower(Trim(e.key))) == Some(f)
            <==> Lower(Trim(e.key)) in ALIASES && ALIASES[Lower(Trim(e.key))] == f
  {
    assert FieldName(Name) == "name" && FieldName(Url) == "url" && FieldName(Username) == "username";
    assert FieldName(Password) == "password" && FieldName(Totp) == "totp" && FieldName(Notes) == "notes";
    assert FieldName(Folder) == "folder";
  }

  /** An entry of any object names a column exactly when its key, trimmed and in lower
      case, is one of the column's spellings. */
  lemma NamesIs(e: Entry, f: Field)
    ensures Names(e, f) <==> Lower(Trim(e.key)) in SpellingsOf(f)
  {
    var lower := Lower(Trim(e.key));
    AliasIs(lower, f);
    if g :| e.key == FieldName(g) {
      FieldNamesDistinct(f, g);
      DeclaredKeyLower(e.key);
      FieldKey(g);
      OwnNames(f, g);
    } else {
      OtherNames(e, f);
      if lower in FAVORITE_KEYS {
        FavoriteNamesNothing(lower);
      }
    }
  }

  // --- the headings of a CSV file --------------------------------------------

  function LowerTrim(h: string): string {
    Lower(Trim(h))
  }

  /** The keys a heading can turn into. */
  predicate HeadingKey(k: string) {
    k == "favorite" || (exists f :: k == FieldName(f)) || IsStray(Entry(k, JNull))
  }

  lemma FavoriteIsNoField(f: Field)
    ensures FieldName(f) != "favorite" && FieldName(f) !in INHERITED
    ensures !IsStray(Entry(FieldName(f), JNull))
  {
    FieldNamesDistinct(f, f);
    DeclaredIsNotInherited(FieldName(f));
    if IsStray(Entry(FieldName(f), JNull)) {
      StrayIsForeign(Entry(FieldName(f), JNull));
    }
  }

  lemma FavoriteIsNoStray()
    ensures !IsStray(Entry("favorite", JNull))
  {
    assert KEYS[10] == "favorite";
    if IsStray(Entry("favorite", JNull)) {
      StrayIsForeign(Entry("favorite", JNull));
    }
  }

  lemma HeadingIs(h: string, f: Field)
    ensures HeadingOf(h) == Some(FieldName(f)) <==> LowerTrim(h) in SpellingsOf(f)
    ensures HeadingOf(h) == Some("favorite") <==> LowerTrim(h) in {"favorite", "favourite", "fav"}
    ensures HeadingOf(h).Some? ==> HeadingKey(HeadingOf(h).value)
  {
    var lower := LowerTrim(h);
    AliasIs(lower, f);
    FavoriteIsNoField(f);
    FavoriteIsNoStray();
    if lower in ALIASES {
      FieldNamesDistinct(f, ALIASES[lower]);
      FavoriteIsNoField(ALIASES[lower]);
    } else if lower in INHERITED {
      InheritedStrays(lower, JNull);
    }
    if lower in FAVORITE_KEYS {
      FavoriteNamesNothing(lower);
    }
  }

  // --- the object of a row ---------------------------------------------------

  /** The cell under the first heading for which `named` holds; a short row is padded. */
  function Under<T>(headings: seq<T>, cells: Csv.Row, named: T -> bool): Option<string> {
    if headings == [] then None
    else if named(headings[0]) then Some(if cells == [] then "" else cells[0])
    else Under(headings[1..], if cells == [] then [] else cells[1..], named)
  }

  function Text(v: Option<string>): Option<JValue> {
    match v
    case Some(s) => Some(JStr(s))
    case None => None
  }

  function RestOf(cells: Csv.Row, i: nat): Csv.Row {
    if i <= |cells| then cells[i..] else []
  }

  ghost predicate RowKeys(obj: seq<Entry>) {
    DistinctKeys(obj) && AllText(obj) && forall e :: e in obj ==> HeadingKey(e.key)
  }

  lemma RowKeysGrow(obj: seq<Entry>, k: string, cell: string)
    requires RowKeys(obj) && HeadingKey(k) && Get(obj, k) == None
    ensures RowKeys(obj + [Entry(k, JStr(cell))])
  {
    GetMissing(obj, k);
  }

  lemma GetGrown(obj: seq<Entry>, k: string, cell: string, other: string)
    requires Get(obj, k) == None
    ensures Get(obj + [Entry(k, JStr(cell))], other) == if other == k then Some(JStr(cell)) else Get(obj, other)
  {
    GetConcat(obj, [Entry(k, JStr(cell))], other);
    assert [Entry(k, JStr(cell))][1..] == [];
  }

  lemma {:induction false} RowObjectGets(cols: seq<Option<string>>, cells: Csv.Row, i: nat, obj: seq<Entry>, k: string)
    requires i <= |cols|
    ensures Get(RowObject(cols, cells, i, obj), k)
         == if Get(obj, k).Some? then Get(obj, k)
            else Text(Under(cols[i..], RestOf(cells, i), (c: Option<string>) => c == Some(k)))
    decreases |cols| - i
  {
    if i < |cols| {
      var cell := if i < |cells| then cells[i] else "";
      assert cols[i..][1..] == cols[i + 1..];
      if i < |cells| {
        assert cells[i..][1..] == cells[i + 1..];
      }
      if cols[i].Some? && Get(obj, cols[i].value) == None {
        GetGrown(obj, cols[i].value, cell, k);
        RowObjectGets(cols, cells, i + 1, obj + [Entry(cols[i].value, JStr(cell))], k);
      } else {
        RowObjectGets(cols, cells, i + 1, obj, k);
      }
    }
  }

  lemma {:induction false} RowObjectKeys(cols: seq<Option<string>>, cells: Csv.Row, i: nat, obj: seq<Entry>)
    requires i <= |cols| && RowKeys(obj)
    requires forall j :: 0 <= j < |cols| && cols[j].Some? ==> HeadingKey(cols[j].value)
    ensures RowKeys(RowObject(cols, cells, i, obj))
    decreases |cols| - i
  {
    if i < |cols| {
      var cell := if i < |cells| then cells[i] else "";
      if cols[i].Some? && Get(obj, cols[i].value) == None {
        RowKeysGrow(obj, cols[i].value, cell);
        RowObjectKeys(cols, cells, i + 1, obj + [Entry(cols[i].value, JStr(cell))]);
      } else {
        RowObjectKeys(cols, cells, i + 1, obj);
      }
    }
  }

  lemma {:induction false} UnderMapped(header: Csv.Row, cells: Csv.Row, k: string, names: set<string>)
    requires forall h :: h in header ==> (HeadingOf(h) == Some(k) <==> LowerTrim(h) in names)
    ensures Under(Map(HeadingOf, header), cells, (c: Option<string>) => c == Some(k))
         == Under(header, cells, h => LowerTrim(h) in names)
  {
    if header != [] {
      assert Map(HeadingOf, header)[1..] == Map(HeadingOf, header[1..]);
      UnderMapped(header[1..], if cells == [] then [] else cells[1..], k, names);
    }
  }

  // --- its item --------------------------------------------------------------

  lemma OwnKey(k: string, f: Field)
    requires k == "favorite" || exists g :: k == FieldName(g)
    ensures k in SpellingsOf(f) <==> k == FieldName(f)
    ensures k in FAVORITE_KEYS <==> k == "favorite"
    ensures k in KEYS
  {
    assert KEYS[10] == "favorite" && FAVORITE_KEYS[0] == "favorite";
    AliasIs(k, f);
    FavoriteIsNoField(f);
    FavoriteNamesNothing("favorite");
    if g :| k == FieldName(g) {
      FieldNamesDistinct(g, f);
      OwnNames(f, g);
      FieldKey(g);
      FavoriteIsNoField(g);
    }
  }

  lemma LowerChars(lower: string)
    requires |lower| > 1 && (lower[0] == '[' || (lower[0] == 'f' && lower[1] == 'u'))
    ensures lower !in ALIASES && lower !in FAVORITE_KEYS
  {
  }

  lemma OnlyOwnKey(e: Entry, f: Field)
    requires HeadingKey(e.key) && !IsStray(e)
    ensures Names(e, f) <==> e.key == FieldName(f)
    ensures SpellsFavorite(e) <==> e.key == "favorite"
    ensures !Inherited(e)
  {
    NamesIs(e, f);
    OwnKey(e.key, f);
    DeclaredKeyLower(e.key);
    DeclaredIsNotInherited(e.key);
  }

  lemma StrayLower(e: Entry)
    requires IsStray(e)
    ensures Lower(Trim(e.key)) !in ALIASES && Lower(Trim(e.key)) !in FAVORITE_KEYS
  {
    StrayChars(e.key);
    LowerStarts(e.key);
    LowerChars(Lower(Trim(e.key)));
  }

  lemma LowerStarts(k: string)
    requires |k| > 1 && (k[0] == '[' || (k[0] == 'f' && k[1] == 'u')) && !IsSpace(k[0]) && !IsSpace(k[|k| - 1])
    ensures var lower := Lower(Trim(k)); |lower| > 1 && (lower[0] == '[' || (lower[0] == 'f' && lower[1] == 'u'))
  {
    Trimmed(k);
  }

  lemma StrayNames(e: Entry, f: Field)
    requires IsStray(e)
    ensures !Names(e, f) && !SpellsFavorite(e) && !Inherited(e) && e.key !in KEYS
  {
    StrayIsForeign(e);
    StrayLower(e);
    NamesIs(e, f);
    AliasIs(Lower(Trim(e.key)), f);
  }

  /** In the object of a row each key names what it says. */
  lemma KeyNames(e: Entry, f: Field)
    requires HeadingKey(e.key)
    ensures Names(e, f) <==> e.key == FieldName(f)
    ensures SpellsFavorite(e) <==> e.key == "favorite"
    ensures !Inherited(e)
  {
    if IsStray(e) {
      StrayNames(e, f);
      FieldNamesDistinct(f, f);
      assert KEYS[10] == "favorite";
    } else {
      OnlyOwnKey(e, f);
    }
  }

  function TextAtKey(es: seq<Entry>, k: string): string {
    match Get(es, k)
    case Some(JStr(s)) => s
    case _ => ""
  }

  lemma RowKeysTail(es: seq<Entry>)
    requires RowKeys(es) && es != []
    ensures RowKeys(es[1..]) && RowKeys(es[..|es| - 1])
    ensures HeadingKey(es[0].key) && es[0].value.JStr? && Get(es[1..], es[0].key) == None
    ensures HeadingKey(es[|es| - 1].key) && Get(es[..|es| - 1], es[|es| - 1].key) == None
  {
    GetMissing(es[1..], es[0].key);
    GetMissing(es[..|es| - 1], es[|es| - 1].key);
    assert es[0] in es && es[|es| - 1] in es;
  }

  lemma {:induction false} OwnOffer(es: seq<Entry>, f: Field)
    requires RowKeys(es)
    ensures FirstText(es, f) == TextAtKey(es, FieldName(f))
  {
    if es != [] {
      RowKeysTail(es);
      KeyNames(es[0], f);
      OwnOffer(es[1..], f);
      OffersCons(es[0], es[1..], f);
      assert es == [es[0]] + es[1..];
    }
  }

  lemma {:induction false} OwnFavorite(es: seq<Entry>)
    requires RowKeys(es)
    ensures LastFavorite(es) == Get(es, "favorite")
  {
    if es != [] {
      var before, last := es[..|es| - 1], es[|es| - 1];
      RowKeysTail(es);
      KeyNames(last, Name);
      OwnFavorite(before);
      SpellingsAppend(before, last);
      GetConcat(before, [last], "favorite");
      assert es == before + [last] && [last][1..] == [];
    }
  }

  lemma OwnStrays(es: seq<Entry>)
    requires RowKeys(es)
    ensures !NamesInherited(es)
  {
    forall i | 0 <= i < |es| ensures !Inherited(es[i]) {
      assert es[i] in es;
      KeyNames(es[i], Name);
    }
  }

  /** Text never throws. */
  ghost predicate HoldsText(flat: Flat) {
    AllText(flat.carried) && AllText(flat.strays) && (flat.favorite.Some? ==> flat.favorite.value.JStr?)
  }

  lemma AbsorbText(flat: Flat, e: Entry)
    requires HoldsText(flat) && e.value.JStr? && !Inherited(e)
    ensures Absorb(flat, e).Some? && HoldsText(Absorb(flat, e).value)
  {
  }

  lemma {:induction false} AbsorbTexts(flat: Flat, es: seq<Entry>)
    requires HoldsText(flat) && AllText(es) && !NamesInherited(es)
    ensures AbsorbAll(flat, es).Some? && HoldsText(AbsorbAll(flat, es).value)
    decreases |es|
  {
    if es != [] {
      assert es[0] in es && !Inherited(es[0]);
      AbsorbText(flat, es[0]);
      forall i | 0 <= i < |es[1..]| ensures !Inherited(es[1..][i]) {
        assert es[1..][i] == es[i + 1];
      }
      AbsorbTexts(Absorb(flat, es[0]).value, es[1..]);
    }
  }

  lemma {:induction false} TextsAreText(texts: map<Field, string>, fields: seq<Field>)
    ensures AllText(FlatTexts(texts, fields))
  {
    if fields != [] {
      TextsAreText(texts, fields[1..]);
    }
  }

  lemma RowNormalizes(es: seq<Entry>)
    requires RowKeys(es)
    ensures Normalize(es).Some? && Normalize(es).value.extra == []
  {
    OwnStrays(es);
    CarriedText(es, CARRIED);
    AbsorbTexts(Start(es), es);
    var flat := AbsorbAll(Start(es), es).value;
    TextsAreText(flat.texts, FIELDS);
    TextNormalizes(FlatEntries(flat));
    ImportDropsExtra(es);
  }

  /** The cell under the first heading of the names; "" when there is none. */
  function CellUnder(header: Csv.Row, cells: Csv.Row, names: set<string>): string {
    match Under(header, cells, h => LowerTrim(h) in names)
    case Some(s) => s
    case None => ""
  }

  predicate IsYes(text: string) {
    Lower(text) in ["1", "true", "yes"]
  }

  lemma FlagOf(text: string)
    ensures FavoriteOf(Some(JStr(text))) == Some(IsYes(text))
    ensures FavoriteOf(None) == Some(IsYes(""))
  {
    assert Lower("") == "";
  }

  function ColumnsBy(text: Field -> string): Columns {
    Columns(text(Name), text(Url), text(Username), text(Password), text(Totp), text(Notes), text(Folder))
  }

  lemma ColumnsAre(text: Field -> string, c: Columns)
    requires forall f :: Column(c, f) == text(f)
    ensures c == ColumnsBy(text)
  {
    assert Column(c, Name) == c.name && Column(c, Url) == c.url && Column(c, Username) == c.username;
    assert Column(c, Password) == c.password && Column(c, Totp) == c.totp && Column(c, Notes) == c.notes;
    assert Column(c, Folder) == c.folder;
  }

  /** The item a row of a CSV file says. */
  function ItemUnder(header: Csv.Row, cells: Csv.Row): Item {
    Item(Login, ColumnsBy(f => CellUnder(header, cells, SpellingsOf(f))), BLANK_CARD, BLANK_IDENTITY, [],
         IsYes(CellUnder(header, cells, {"favorite", "favourite", "fav"})), [])
  }

  function RowOf(header: Csv.Row, cells: Csv.Row): seq<Entry> {
    RowObject(Map(HeadingOf, header), cells, 0, [])
  }

  lemma RowOfKeys(header: Csv.Row, cells: Csv.Row)
    ensures RowKeys(RowOf(header, cells))
  {
    var cols := Map(HeadingOf, header);
    forall j | 0 <= j < |cols| && cols[j].Some? ensures HeadingKey(cols[j].value) {
      HeadingIs(header[j], Name);
    }
    RowObjectKeys(cols, cells, 0, []);
  }

  lemma RowOfGets(header: Csv.Row, cells: Csv.Row, k: string, names: set<string>)
    requires forall h :: h in header ==> (HeadingOf(h) == Some(k) <==> LowerTrim(h) in names)
    ensures Get(RowOf(header, cells), k) == Text(Under(header, cells, h => LowerTrim(h) in names))
  {
    var cols := Map(HeadingOf, header);
    RowObjectGets(cols, cells, 0, [], k);
    assert cols[0..] == cols && cells[0..] == cells;
    UnderMapped(header, cells, k, names);
  }

  lemma ColumnUnder(header: Csv.Row, cells: Csv.Row, f: Field)
    ensures FirstText(RowOf(header, cells), f) == CellUnder(header, cells, SpellingsOf(f))
  {
    RowOfKeys(header, cells);
    OwnOffer(RowOf(header, cells), f);
    forall h | h in header ensures HeadingOf(h) == Some(FieldName(f)) <==> LowerTrim(h) in SpellingsOf(f) {
      HeadingIs(h, f);
    }
    RowOfGets(header, cells, FieldName(f), SpellingsOf(f));
  }

  lemma FavoriteUnder(header: Csv.Row, cells: Csv.Row)
    ensures FavoriteOf(LastFavorite(RowOf(header, cells)))
         == Some(IsYes(CellUnder(header, cells, {"favorite", "favourite", "fav"})))
  {
    RowOfKeys(header, cells);
    OwnFavorite(RowOf(header, cells));
    var names := {"favorite", "favourite", "fav"};
    forall h | h in header ensures HeadingOf(h) == Some("favorite") <==> LowerTrim(h) in names {
      HeadingIs(h, Name);
    }
    RowOfGets(header, cells, "favorite", names);
    FlagOf(CellUnder(header, cells, names));
  }

  lemma NotCarried(es: seq<Entry>, k: string)
    requires RowKeys(es) && k in CARRIED
    ensures Get(es, k) == None
  {
    GetMissing(es, k);
    StructuredKey(k);
    assert "favorite" !in CARRIED;
    if HasKey(es, k) {
      var i :| 0 <= i < |es| && es[i].key == k;
      assert es[i] in es;
      if IsStray(Entry(k, JNull)) {
        StrayIsForeign(Entry(k, JNull));
      } else {
        forall f ensures FieldName(f) != k { FieldNamesDistinct(f, f); }
      }
    }
  }

  lemma RowColumns(header: Csv.Row, cells: Csv.Row, c: Columns)
    requires forall f :: Column(c, f) == FirstText(RowOf(header, cells), f)
    ensures c == ItemUnder(header, cells).columns
  {
    forall f ensures Column(c, f) == CellUnder(header, cells, SpellingsOf(f)) {
      ColumnUnder(header, cells, f);
    }
    ColumnsAre(f => CellUnder(header, cells, SpellingsOf(f)), c);
  }

  lemma PlainReads(es: seq<Entry>, it: Item)
    requires ReadsAs(es, it) && it.extra == []
    requires Get(es, "type") == None && Get(es, "card") == None && Get(es, "identity") == None
    requires Get(es, "fields") == None
    ensures it == Item(Login, it.columns, BLANK_CARD, BLANK_IDENTITY, [], it.favorite, [])
  {
    DefaultDetails();
  }

  lemma RowIsPlain(es: seq<Entry>)
    requires RowKeys(es)
    ensures Get(es, "type") == None && Get(es, "card") == None && Get(es, "identity") == None
    ensures Get(es, "fields") == None
  {
    assert CARRIED[0] == "type" && CARRIED[1] == "card" && CARRIED[2] == "identity" && CARRIED[3] == "fields";
    NotCarried(es, "type");
    NotCarried(es, "card");
    NotCarried(es, "identity");
    NotCarried(es, "fields");
  }

  /** A row of a CSV file imports as the item it says, under any header. */
  lemma RowReads(header: Csv.Row, cells: Csv.Row)
    ensures Normalize(RowOf(header, cells)) == Some(ItemUnder(header, cells))
  {
    var es := RowOf(header, cells);
    RowOfKeys(header, cells);
    RowNormalizes(es);
    ImportedRow(es);
    var it := Normalize(es).value;
    RowIsPlain(es);
    PlainReads(es, it);
    FavoriteUnder(header, cells);
    RowColumns(header, cells, it.columns);
  }

  // --- the whole import ------------------------------------------------------

  lemma {:induction false} TraverseMap<A, B, C>(f: B -> Option<C>, g: A -> B, h: A -> C, xs: seq<A>)
    requires forall x :: x in xs ==> f(g(x)) == Some(h(x))
    ensures Traverse(f, Map(g, xs)) == Some(Map(h, xs))
  {
    if xs != [] {
      assert xs[0] in xs;
      TraverseMap(f, g, h, xs[1..]);
      assert Map(g, xs) == [g(xs[0])] + Map(g, xs[1..]);
      TraverseCons(f, g(xs[0]), Map(g, xs[1..]));
    }
  }

  function Kept(items: seq<Item>): Result<seq<Item>, ImportError> {
    var kept := Filter(HoldsSomething, items);
    if kept == [] then Err(NoItems) else Ok(kept)
  }

  lemma KeepsSomething(items: seq<Item>)
    ensures Keep(Some(items)) == Ok(Filter(HoldsSomething, items))
  {
    forall it | it in items ensures NonEmpty(it) == HoldsSomething(it) { NonEmptyIs(it); }
    FilterSame(NonEmpty, HoldsSomething, items);
  }

  lemma CsvReads(text: string)
    requires Csv.Rows(text) != []
    ensures var rows := Csv.Rows(text);
            ParseCsv(text) == Ok(Filter(HoldsSomething, Map(cells => ItemUnder(rows[0], cells), rows[1..])))
  {
    var rows := Csv.Rows(text);
    var says := (cells: Csv.Row) => ItemUnder(rows[0], cells);
    var cols := Map(HeadingOf, rows[0]);
    forall cells | cells in rows[1..] ensures Normalize(RowObject(cols, cells, 0, [])) == Some(says(cells)) {
      RowReads(rows[0], cells);
    }
    TraverseMap(Normalize, cells => RowObject(cols, cells, 0, []), says, rows[1..]);
    KeepsSomething(Map(says, rows[1..]));
  }

  predicate LooksLikeJson(text: string) {
    var trimmed := Trim(text);
    trimmed != "" && (trimmed[0] == '{' || trimmed[0] == '[')
  }

  /** Any file that is not blank and does not look like JSON: the non-blank lines outside
      quotes, the first as header; each other line imports as the item it says, and those
      that hold something are kept, in order. */
  lemma CsvImportReads(parse: string -> Option<JValue>, text: string)
    requires Trim(text) != "" && !LooksLikeJson(text)
    ensures var rows := Filter(Csv.NotBlank, Map(Cells, Lines(Trim(text))));
            ParseVaultImport(parse, text)
            == if rows == [] then Err(NoItems) else Kept(Map(cells => ItemUnder(rows[0], cells), rows[1..]))
  {
    RowsAre(Trim(text));
    if Csv.Rows(Trim(text)) != [] {
      CsvReads(Trim(text));
    }
  }

  /** The list of a JSON file: the file itself, or what it has under `items`. */
  predicate ListIn(doc: JValue, elems: seq<JValue>) {
    doc == JArr(elems) || (doc.JObj? && Get(doc.entries, "items") == Some(JArr(elems)))
  }

  /** A file that looks like JSON and holds a list: every element, normalised, if it holds
      something; an error when an element is null or cannot be converted. */
  lemma ListImports(parse: string -> Option<JValue>, text: string, elems: seq<JValue>)
    requires LooksLikeJson(text) && parse(Trim(text)).Some? && ListIn(parse(Trim(text)).value, elems)
    ensures var all := Traverse(Normalize, Map(Properties, elems));
            ParseVaultImport(parse, text)
            == if JNull in elems then Err(NotAnObject) else if all == None then Err(Uncoercible) else Kept(all.value)
  {
    var all := Traverse(Normalize, Map(Properties, elems));
    if all.Some? {
      KeepsSomething(all.value);
    }
  }

  predicate AllSpace(s: string) {
    forall i :: 0 <= i < |s| ==> IsSpace(s[i])
  }

  lemma {:induction false} TrimStartIs(s: string)
    ensures exists a: string :: AllSpace(a) && s == a + TrimStart(s)
    ensures TrimStart(s) != "" ==> !IsSpace(TrimStart(s)[0])
  {
    if s != "" && IsSpace(s[0]) {
      TrimStartIs(s[1..]);
      var a: string :| AllSpace(a) && s[1..] == a + TrimStart(s[1..]);
      assert AllSpace([s[0]] + a) && s == [s[0]] + a + TrimStart(s);
    } else {
      assert AllSpace("") && s == "" + s;
    }
  }

  lemma {:induction false} TrimEndIs(s: string)
    ensures exists b: string :: AllSpace(b) && s == TrimEnd(s) + b
    ensures TrimEnd(s) != "" ==> !IsSpace(TrimEnd(s)[|TrimEnd(s)| - 1]) && TrimEnd(s)[0] == s[0]
  {
    if s != "" && IsSpace(s[|s| - 1]) {
      var front := s[..|s| - 1];
      TrimEndIs(front);
      var b: string :| AllSpace(b) && front == TrimEnd(front) + b;
      assert AllSpace(b + [s[|s| - 1]]) && s == TrimEnd(s) + (b + [s[|s| - 1]]);
    } else {
      assert AllSpace("") && s == s + "";
    }
  }

  /** `trim` takes away space at both ends and leaves none there. */
  lemma TrimIs(s: string)
    ensures exists a: string, b: string :: AllSpace(a) && AllSpace(b) && s == a + Trim(s) + b
    ensures Trim(s) != "" ==> !IsSpace(Trim(s)[0]) && !IsSpace(Trim(s)[|Trim(s)| - 1])
  {
    TrimStartIs(s);
    TrimEndIs(TrimStart(s));
    var a: string :| AllSpace(a) && s == a + TrimStart(s);
    var b: string :| AllSpace(b) && TrimStart(s) == Trim(s) + b;
    assert s == a + Trim(s) + b;
  }

  lemma BlankTrims(s: string)
    ensures Trim(s) == "" <==> AllSpace(s)
  {
    TrimIs(s);
    var a: string, b: string :| AllSpace(a) && AllSpace(b) && s == a + Trim(s) + b;
    if Trim(s) == "" {
      assert s == a + b;
    } else {
      assert s[|a|] == Trim(s)[0];
    }
  }

  /** Each complaint about the file as a whole, and when it is made. */
  lemma ImportErrors(parse: string -> Option<JValue>, text: string)
    ensures var r := ParseVaultImport(parse, text);
            && (r == Err(EmptyFile) <==> AllSpace(text))
            && (r == Err(InvalidJson) <==> LooksLikeJson(text) && parse(Trim(text)) == None)
            && (r == Err(UnrecognizedJson) <==> LooksLikeJson(text) && parse(Trim(text)).Some?
                                                && forall elems :: !ListIn(parse(Trim(text)).value, elems))
  {
    BlankTrims(text);
    var r := ParseVaultImport(parse, text);
    if Trim(text) != "" && !LooksLikeJson(text) {
      CsvImportReads(parse, text);
    } else if LooksLikeJson(text) && parse(Trim(text)).Some? {
      var doc := parse(Trim(text)).value;
      if elems :| ListIn(doc, elems) {
        ListImports(parse, text, elems);
      } else {
        assert doc.JArr? ==> ListIn(doc, doc.elems);
        assert doc.JObj? && Get(doc.entries, "items").Some? && Get(doc.entries, "items").value.JArr?
          ==> ListIn(doc, Get(doc.entries, "items").value.elems);
      }
    }
  }
}
