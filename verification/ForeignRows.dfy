/** What importing does to any row, and so to an exported item with undeclared keys:
    `normalize` of clients/packages/api-client/src/portable.ts. */
module ForeignRows {
  import opened Prelude
  import opened Json
  import opened Items
  import opened Portable
  import opened RoundTrip

  // --- what each entry says --------------------------------------------------

  predicate SpellsFavorite(e: Entry) {
    Lower(Trim(e.key)) in FAVORITE_KEYS
  }

  predicate Names(e: Entry, f: Field) {
    !SpellsFavorite(e) && FieldNamed(e.key, Lower(Trim(e.key))) == Some(f)
  }

  /** The text an entry offers for a column; "" when it names another or has none. */
  function Offer(e: Entry, f: Field): string {
    match TextOf(Some(e.value))
    case Some(s) => if Names(e, f) then s else ""
    case None => ""
  }

  function Offers(row: seq<Entry>, f: Field): seq<string> {
    seq(|row|, i requires 0 <= i < |row| => Offer(row[i], f))
  }

  /** The values under the spellings of the favourite flag; None at any other entry. */
  function Spelling(e: Entry): Option<JValue> {
    if SpellsFavorite(e) then Some(e.value) else None
  }

  function Spellings(row: seq<Entry>): seq<Option<JValue>> {
    seq(|row|, i requires 0 <= i < |row| => Spelling(row[i]))
  }

  ghost predicate FirstAt(texts: seq<string>, i: nat) {
    i < |texts| && texts[i] != "" && forall j :: 0 <= j < i ==> texts[j] == ""
  }

  function FirstNonBlank(texts: seq<string>): string {
    if texts == [] then "" else if texts[0] != "" then texts[0] else FirstNonBlank(texts[1..])
  }

  lemma {:induction false} FirstNonBlankIs(texts: seq<string>)
    ensures FirstNonBlank(texts) == "" <==> forall i :: 0 <= i < |texts| ==> texts[i] == ""
    ensures forall i: nat :: FirstAt(texts, i) ==> FirstNonBlank(texts) == texts[i]
  {
    if texts != [] && texts[0] == "" {
      var rest := texts[1..];
      FirstNonBlankIs(rest);
      assert forall i :: 0 <= i < |rest| ==> rest[i] == texts[i + 1];
      forall i: nat | FirstAt(texts, i) ensures FirstNonBlank(texts) == texts[i] {
        assert FirstAt(rest, i - 1);
      }
      if forall i :: 0 <= i < |rest| ==> rest[i] == "" {
        assert forall i :: 0 < i < |texts| ==> texts[i] == rest[i - 1];
      }
    }
  }

  ghost predicate LastAt<T>(values: seq<Option<T>>, i: nat) {
    i < |values| && values[i].Some? && forall j :: i < j < |values| ==> values[j].None?
  }

  function LastSome<T>(values: seq<Option<T>>): Option<T> {
    if values == [] then None
    else
      var last := values[|values| - 1];
      if last.Some? then last else LastSome(values[..|values| - 1])
  }

  lemma {:induction false} LastSomeIs<T>(values: seq<Option<T>>)
    ensures LastSome(values) == None <==> forall i :: 0 <= i < |values| ==> values[i].None?
    ensures forall i: nat :: LastAt(values, i) ==> LastSome(values) == values[i]
  {
    if values != [] && values[|values| - 1].None? {
      var before := values[..|values| - 1];
      LastSomeIs(before);
      forall i: nat | LastAt(values, i) ensures LastSome(values) == values[i] {
        assert LastAt(before, i);
      }
    }
  }

  function FirstText(row: seq<Entry>, f: Field): string {
    FirstNonBlank(Offers(row, f))
  }

  function LastFavorite(row: seq<Entry>): Option<JValue> {
    LastSome(Spellings(row))
  }

  // --- what the loop leaves --------------------------------------------------

  function TextIn(texts: map<Field, string>, f: Field): string {
    if f in texts then texts[f] else ""
  }

  lemma AbsorbedTextIn(flat: Flat, e: Entry, f: Field)
    requires Absorb(flat, e).Some?
    ensures TextIn(Absorb(flat, e).value.texts, f) == if TextIn(flat.texts, f) != "" then TextIn(flat.texts, f)
        else Offer(e, f)
  {
  }

  lemma OffersCons(e: Entry, rest: seq<Entry>, f: Field)
    ensures FirstText([e] + rest, f) == if Offer(e, f) != "" then Offer(e, f) else FirstText(rest, f)
  {
    assert Offers([e] + rest, f)[1..] == Offers(rest, f);
  }

  lemma {:induction false} AbsorbedTexts(flat: Flat, es: seq<Entry>, f: Field)
    requires AbsorbAll(flat, es).Some?
    ensures TextIn(AbsorbAll(flat, es).value.texts, f)
         == if TextIn(flat.texts, f) != "" then TextIn(flat.texts, f) else FirstText(es, f)
    decreases |es|
  {
    if es != [] {
      assert es == [es[0]] + es[1..];
      OffersCons(es[0], es[1..], f);
      AbsorbedTextIn(flat, es[0], f);
      AbsorbedTexts(Absorb(flat, es[0]).value, es[1..], f);
    }
  }

  lemma AbsorbedFlag(flat: Flat, e: Entry)
    requires Absorb(flat, e).Some?
    ensures Absorb(flat, e).value.favorite == if SpellsFavorite(e) then Some(e.value) else flat.favorite
  {
  }

  lemma {:induction false} AbsorbConcat(flat: Flat, a: seq<Entry>, b: seq<Entry>)
    ensures AbsorbAll(flat, a + b) == if AbsorbAll(flat, a).Some? then AbsorbAll(AbsorbAll(flat, a).value, b) else None
    decreases |a|
  {
    if a == [] {
      assert a + b == b;
    } else {
      assert (a + b)[0] == a[0] && (a + b)[1..] == a[1..] + b;
      if Absorb(flat, a[0]).Some? {
        AbsorbConcat(Absorb(flat, a[0]).value, a[1..], b);
      }
    }
  }

  lemma SpellingsAppend(row: seq<Entry>, e: Entry)
    ensures LastFavorite(row + [e]) == if SpellsFavorite(e) then Some(e.value) else LastFavorite(row)
  {
    assert Spellings(row + [e])[..|row|] == Spellings(row);
  }

  lemma {:induction false} AbsorbedFavorite(flat: Flat, es: seq<Entry>)
    requires AbsorbAll(flat, es).Some?
    ensures AbsorbAll(flat, es).value.favorite == if LastFavorite(es).Some? then LastFavorite(es) else flat.favorite
    decreases |es|
  {
    if es != [] {
      var before, last := es[..|es| - 1], es[|es| - 1];
      assert es == before + [last];
      SpellingsAppend(before, last);
      AbsorbConcat(flat, before, [last]);
      AbsorbedFavorite(flat, before);
      assert [last][1..] == [];
      AbsorbedFlag(AbsorbAll(flat, before).value, last);
    }
  }

  // --- the item of any row ---------------------------------------------------

  function ColumnsFrom(texts: map<Field, string>): Columns {
    Columns(TextIn(texts, Name), TextIn(texts, Url), TextIn(texts, Username), TextIn(texts, Password),
            TextIn(texts, Totp), TextIn(texts, Notes), TextIn(texts, Folder))
  }

  lemma FlatColumn(row: seq<Entry>, flat: Flat, f: Field)
    requires flat.carried == Carry(row, CARRIED) && forall e :: e in flat.strays ==> IsExtra(e)
    ensures TextOf(Get(FlatEntries(flat), FieldName(f))) == Some(TextIn(flat.texts, f))
  {
    FieldNamesDistinct(f, f);
    GetFlat(flat, FieldName(f));
    GetCarried(row, CARRIED, FieldName(f));
    GetTexts(flat.texts, FIELDS, f);
  }

  lemma FlatColumns(row: seq<Entry>, flat: Flat)
    requires flat.carried == Carry(row, CARRIED) && forall e :: e in flat.strays ==> IsExtra(e)
    ensures ColumnsOf(FlatEntries(flat)) == Some(ColumnsFrom(flat.texts))
  {
    forall f ensures TextOf(Get(FlatEntries(flat), FieldName(f))) == Some(TextIn(flat.texts, f)) {
      FlatColumn(row, flat, f);
    }
    assert FieldName(Name) == "name" && FieldName(Url) == "url" && FieldName(Username) == "username";
    assert FieldName(Password) == "password" && FieldName(Totp) == "totp" && FieldName(Notes) == "notes";
    assert FieldName(Folder) == "folder";
  }

  lemma FlatStructured(row: seq<Entry>, flat: Flat, k: string)
    requires flat.carried == Carry(row, CARRIED) && forall e :: e in flat.strays ==> IsExtra(e)
    requires k in CARRIED || k == "favorite"
    ensures Get(FlatEntries(flat), k) == if k == "favorite" then flat.favorite else Get(row, k)
  {
    StructuredKey(k);
    GetFlat(flat, k);
    GetCarried(row, CARRIED, k);
    GetTexts(flat.texts, FIELDS, Name);
    GetMissing(FlatTexts(flat.texts, FIELDS), k);
    forall f ensures FieldName(f) != k { FieldNamesDistinct(f, f); }
    assert "favorite" !in CARRIED;
  }

  /** The item a flattened row is normalised to. */
  function ItemOf(row: seq<Entry>, flat: Flat): Option<Item> {
    Assemble(KindOf(Get(row, "type")), Some(ColumnsFrom(flat.texts)), Details(BLANK_CARD, Get(row, "card")),
             Details(BLANK_IDENTITY, Get(row, "identity")), CustomFieldsOf(Get(row, "fields")),
                 FavoriteOf(flat.favorite), flat.strays)
  }

  lemma FlatItem(row: seq<Entry>, flat: Flat)
    requires flat.carried == Carry(row, CARRIED) && forall e :: e in flat.strays ==> IsExtra(e)
    ensures NormalizeItemFields(FlatEntries(flat)) == ItemOf(row, flat)
  {
    FlatColumns(row, flat);
    assert CARRIED[0] == "type" && CARRIED[1] == "card" && CARRIED[2] == "identity" && CARRIED[3] == "fields";
    FlatStructured(row, flat, "type");
    FlatStructured(row, flat, "card");
    FlatStructured(row, flat, "identity");
    FlatStructured(row, flat, "fields");
    FlatStructured(row, flat, "favorite");
    FlatExtra(row, flat);
  }

  function Start(row: seq<Entry>): Flat {
    Flat(Carry(row, CARRIED), map[], None, [])
  }

  lemma NormalizeIs(row: seq<Entry>)
    ensures Normalize(row) == if AbsorbAll(Start(row), row).Some?
        then ItemOf(row, AbsorbAll(Start(row), row).value) else None
  {
    var flat := AbsorbAll(Start(row), row);
    if flat.Some? {
      AbsorbAllStrays(Start(row), row);
      forall e | e in flat.value.strays ensures IsExtra(e) { StrayIsForeign(e); }
      FlatItem(row, flat.value);
    }
  }

  lemma ColumnFrom(texts: map<Field, string>, f: Field)
    ensures Column(ColumnsFrom(texts), f) == TextIn(texts, f)
  {
  }

  /** Column by column the first non-blank text offered, the last favourite, and the
      row's own structured parts, completed. */
  ghost predicate ReadsAs(row: seq<Entry>, it: Item) {
    && (forall f :: Column(it.columns, f) == FirstNonBlank(Offers(row, f)))
    && FavoriteOf(LastSome(Spellings(row))) == Some(it.favorite)
    && it.kind == KindOf(Get(row, "type")) && CustomFieldsOf(Get(row, "fields")) == Some(it.fields)
    && it.card == Details(BLANK_CARD, Get(row, "card"))
    && it.identity == Details(BLANK_IDENTITY, Get(row, "identity"))
  }

  lemma ItemReads(row: seq<Entry>, flat: Flat)
    requires ItemOf(row, flat).Some?
    requires flat.favorite == LastFavorite(row) && forall f :: TextIn(flat.texts, f) == FirstText(row, f)
    ensures ReadsAs(row, ItemOf(row, flat).value)
  {
    forall f ensures Column(ColumnsFrom(flat.texts), f) == FirstNonBlank(Offers(row, f)) {
      ColumnFrom(flat.texts, f);
    }
  }

  /** Whatever its keys are called, a row that imports reads as the item it gives. */
  lemma ImportedRow(row: seq<Entry>)
    requires Normalize(row).Some?
    ensures ReadsAs(row, Normalize(row).value)
  {
    NormalizeIs(row);
    var flat := AbsorbAll(Start(row), row).value;
    AbsorbedFavorite(Start(row), row);
    forall f ensures TextIn(flat.texts, f) == FirstText(row, f) {
      AbsorbedTexts(Start(row), row, f);
    }
    ItemReads(row, flat);
  }

  // --- an exported item with undeclared keys ---------------------------------

  /** No entry offers text to a column that is blank. */
  predicate Untouched(texts: map<Field, string>, es: seq<Entry>) {
    forall i, f :: 0 <= i < |es| && TextIn(texts, f) == "" && Names(es[i], f) ==> TextOf(Some(es[i].value)) == Some("")
  }

  /** Every inherited name converts until one of its spelling has brought text. */
  predicate StraysConvert(settled: set<string>, es: seq<Entry>)
    decreases |es|
  {
    if es == [] then true
    else
      var lower := Lower(Trim(es[0].key));
      if lower !in INHERITED || INHERITED[lower] in settled then StraysConvert(settled, es[1..])
      else
        match TextOf(Some(es[0].value))
        case None => false
        case Some(s) => StraysConvert(if s == "" then settled else settled + {INHERITED[lower]}, es[1..])
  }

  predicate HadText(strays: seq<Entry>, k: string) {
    Get(strays, k).Some? && Truthy(Get(strays, k).value)
  }

  ghost predicate Settled(strays: seq<Entry>, settled: set<string>) {
    forall k :: k in settled <==> HadText(strays, k)
  }

  lemma {:induction false} GetReplaced(es: seq<Entry>, k: string, v: JValue, other: string)
    ensures Get(Map((e: Entry) => if e.key == k then Entry(k, v) else e, es), other)
         == if other == k && Get(es, k).Some? then Some(v) else Get(es, other)
  {
    if es != [] {
      GetReplaced(es[1..], k, v, other);
      assert Map((e: Entry) => if e.key == k then Entry(k, v) else e, es)[1..]
          == Map((e: Entry) => if e.key == k then Entry(k, v) else e, es[1..]);
    }
  }

  lemma GetSetText(es: seq<Entry>, k: string, s: string, other: string)
    ensures Get(SetText(es, k, s), other) == if other == k then Some(JStr(s)) else Get(es, other)
  {
    if Get(es, k).Some? {
      GetReplaced(es, k, JStr(s), other);
    } else {
      GetConcat(es, [Entry(k, JStr(s))], other);
      assert [Entry(k, JStr(s))][1..] == [];
    }
  }

  lemma SettledBySetText(strays: seq<Entry>, settled: set<string>, k: string, s: string)
    requires Settled(strays, settled) && k !in settled
    ensures Settled(SetText(strays, k, s), if s == "" then settled else settled + {k})
  {
    forall other ensures HadText(SetText(strays, k, s), other) <==> if other == k then s != "" else other in settled {
      GetSetText(strays, k, s, other);
    }
  }

  /** One turn, at an inherited name. */
  lemma AbsorbInherited(flat: Flat, e: Entry, settled: set<string>)
    requires Inherited(e) && Settled(flat.strays, settled)
    ensures var k, text := INHERITED[Lower(Trim(e.key))], TextOf(Some(e.value));
            Absorb(flat, e) == if k in settled then Some(flat)
                               else if text.None? then None
                               else Some(flat.(strays := SetText(flat.strays, k, text.value)))
  {
    InheritedIsNoField(e);
  }

  /** One turn, at any other name. */
  lemma AbsorbOrdinary(flat: Flat, e: Entry)
    requires !Inherited(e) && forall f :: f in flat.texts
    ensures Absorb(flat, e).Some? ==> Absorb(flat, e).value.strays == flat.strays
    ensures Untouched(flat.texts, [e]) ==> Absorb(flat, e).Some? && Absorb(flat, e).value.texts == flat.texts
    ensures !Untouched(flat.texts, [e]) && Absorb(flat, e).Some? ==>
              exists f :: TextIn(flat.texts, f) == "" && TextIn(Absorb(flat, e).value.texts, f) != ""
  {
    var one := [e];
    if !SpellsFavorite(e) && FieldNamed(e.key, Lower(Trim(e.key))).Some? {
      var f := FieldNamed(e.key, Lower(Trim(e.key))).value;
      assert Names(one[0], f);
      if TextIn(flat.texts, f) == "" && Untouched(flat.texts, one) {
        assert TextOf(Some(one[0].value)) == Some("");
        assert flat.texts[f := ""] == flat.texts;
      }
    }
  }

  lemma UntouchedCons(texts: map<Field, string>, e: Entry, rest: seq<Entry>)
    ensures Untouched(texts, [e] + rest) <==> Untouched(texts, [e]) && Untouched(texts, rest)
  {
    var es := [e] + rest;
    assert es[0] == [e][0] && forall i :: 0 <= i < |rest| ==> rest[i] == es[i + 1];
  }

  lemma InheritedUntouched(texts: map<Field, string>, e: Entry)
    requires Inherited(e)
    ensures Untouched(texts, [e])
  {
    InheritedIsNoField(e);
  }

  /** The loop over the undeclared keys returns with the columns as they were exactly
      when none of them offers text to a blank one and every conversion succeeds. */
  lemma {:induction false} ExtrasUntouched(flat: Flat, es: seq<Entry>, settled: set<string>)
    requires Settled(flat.strays, settled) && forall f :: f in flat.texts
    ensures AbsorbAll(flat, es).Some? && AbsorbAll(flat, es).value.texts == flat.texts
            <==> Untouched(flat.texts, es) && StraysConvert(settled, es)
    decreases |es|
  {
    if es != [] {
      var e, rest := es[0], es[1..];
      assert es == [e] + rest;
      UntouchedCons(flat.texts, e, rest);
      if Inherited(e) {
        InheritedUntouched(flat.texts, e);
        AbsorbInherited(flat, e, settled);
        var k, text := INHERITED[Lower(Trim(e.key))], TextOf(Some(e.value));
        if k in settled {
          ExtrasUntouched(flat, rest, settled);
        } else if text.Some? {
          SettledBySetText(flat.strays, settled, k, text.value);
          ExtrasUntouched(flat.(strays := SetText(flat.strays, k, text.value)), rest,
                          if text.value == "" then settled else settled + {k});
        }
      } else {
        AbsorbOrdinary(flat, e);
        var next := Absorb(flat, e);
        if Untouched(flat.texts, [e]) {
          ExtrasUntouched(next.value, rest, settled);
        } else if next.Some? && AbsorbAll(next.value, rest).Some? {
          var f :| TextIn(flat.texts, f) == "" && TextIn(next.value.texts, f) != "";
          AbsorbedTexts(next.value, rest, f);
        }
      }
    }
  }

  // --- the declared part of an exported item ---------------------------------

  /** What the loop has after the declared keys. */
  ghost predicate HoldsItem(flat: Flat, it: Item) {
    && (forall f :: f in flat.texts && flat.texts[f] == Column(it.columns, f))
    && flat.favorite == Some(JBool(it.favorite)) && flat.strays == []
  }

  lemma DescribedColumn(raw: seq<Entry>, it: Item, f: Field)
    requires Describes(raw, it)
    ensures Get(raw, FieldName(f)) == Some(JStr(Column(it.columns, f)))
  {
  }

  lemma PlainEntries(it: Item)
    ensures Encode(it.(extra := [])) == DeclaredEntries(it)
  {
    var plain := it.(extra := []);
    assert Values(plain) == Values(it);
    assert DeclaredEntries(plain) == DeclaredEntries(it);
    assert DeclaredEntries(it) + [] == DeclaredEntries(it);
  }

  lemma AbsorbedItem(flat: Flat, es: seq<Entry>, it: Item, result: Option<Flat>)
    requires Describes(es, it) && flat.texts == map[] && flat.strays == []
    requires AbsorbedAll(flat, es, result)
    ensures result.Some? && result.value.carried == flat.carried && HoldsItem(result.value, it)
  {
    forall f ensures Get(es, FieldName(f)) == Some(JStr(Column(it.columns, f))) {
      DescribedColumn(es, it, f);
    }
  }

  lemma DeclaredAbsorbed(it: Item, carried: seq<Entry>)
    ensures var flat := AbsorbAll(Flat(carried, map[], None, []), DeclaredEntries(it));
            flat.Some? && flat.value.carried == carried && HoldsItem(flat.value, it)
  {
    var plain, es, start := it.(extra := []), DeclaredEntries(it), Flat(carried, map[], None, []);
    PlainEntries(it);
    EncodedDeclared(plain);
    EncodedProperties(plain);
    AbsorbDeclared(start, es);
    AbsorbedItem(start, es, plain, AbsorbAll(start, es));
  }

  /** The undeclared keys leave the declared part alone: none offers text to a blank
      column, the last favourite spelling agrees, and every conversion succeeds. */
  ghost predicate Harmless(it: Item) {
    && (forall i, f :: 0 <= i < |it.extra| && Column(it.columns, f) == "" && Names(it.extra[i], f)
          ==> TextOf(Some(it.extra[i].value)) == Some(""))
    && (LastSome(Spellings(it.extra)).Some? ==> FavoriteOf(LastSome(Spellings(it.extra))) == Some(it.favorite))
    && StraysConvert({}, it.extra)
  }

  lemma SameColumns(texts: map<Field, string>, c: Columns)
    ensures ColumnsFrom(texts) == c <==> forall f :: TextIn(texts, f) == Column(c, f)
  {
    if ColumnsFrom(texts) == c {
      forall f ensures TextIn(texts, f) == Column(c, f) { ColumnFrom(texts, f); }
    } else {
      assert TextIn(texts, Name) != Column(c, Name) || TextIn(texts, Url) != Column(c, Url)
          || TextIn(texts, Username) != Column(c, Username) || TextIn(texts, Password) != Column(c, Password)
          || TextIn(texts, Totp) != Column(c, Totp) || TextIn(texts, Notes) != Column(c, Notes)
          || TextIn(texts, Folder) != Column(c, Folder);
    }
  }

  /** The item read from an encoded one differs at most in columns, flag and extras. */
  lemma EncodedItem(it: Item, flat: Flat)
    requires Normal(it)
    ensures ItemOf(Encode(it), flat)
         == Assemble(it.kind, Some(ColumnsFrom(flat.texts)), it.card, it.identity, Some(it.fields),
             FavoriteOf(flat.favorite), flat.strays)
  {
    var raw := Encode(it);
    EncodedProperties(it);
    FlagsRoundTrip(it.kind, it.favorite);
    CompleteDetails(BLANK_CARD, it.card);
    CompleteDetails(BLANK_IDENTITY, it.identity);
    FieldsRoundTrip(it.fields);
  }

  lemma HeldTexts(flat: Flat, it: Item, texts: map<Field, string>)
    requires HoldsItem(flat, it) && forall f :: f in flat.texts ==> f in texts
    ensures ColumnsFrom(texts) == it.columns <==> texts == flat.texts
  {
    SameColumns(flat.texts, it.columns);
    SameColumns(texts, it.columns);
    if ColumnsFrom(texts) == it.columns {
      forall f ensures f in texts && texts[f] == flat.texts[f] {
        assert TextIn(texts, f) == Column(it.columns, f);
      }
    }
  }

  lemma HeldUntouched(flat: Flat, it: Item)
    requires HoldsItem(flat, it)
    ensures Untouched(flat.texts, it.extra) <==>
              forall i, f :: 0 <= i < |it.extra| && Column(it.columns, f) == "" && Names(it.extra[i], f)
                ==> TextOf(Some(it.extra[i].value)) == Some("")
  {
    assert forall f :: TextIn(flat.texts, f) == Column(it.columns, f);
  }

  lemma HeldFavorite(flat: Flat, it: Item)
    requires HoldsItem(flat, it) && AbsorbAll(flat, it.extra).Some?
    ensures FavoriteOf(AbsorbAll(flat, it.extra).value.favorite) == Some(it.favorite)
            <==> LastSome(Spellings(it.extra)).Some? ==> FavoriteOf(LastSome(Spellings(it.extra))) == Some(it.favorite)
  {
    AbsorbedFavorite(flat, it.extra);
    FlagsRoundTrip(it.kind, it.favorite);
  }

  lemma EncodedAbsorbed(it: Item, flat: Flat)
    requires HoldsItem(flat, it)
    ensures var g := AbsorbAll(flat, it.extra);
            Harmless(it) <==> && g.Some? && ColumnsFrom(g.value.texts) == it.columns
                              && FavoriteOf(g.value.favorite) == Some(it.favorite)
  {
    var g := AbsorbAll(flat, it.extra);
    assert g.Some? && g.value.texts == flat.texts
        <==> Untouched(flat.texts, it.extra) && StraysConvert({}, it.extra) by {
      ExtrasUntouched(flat, it.extra, {});
    }
    HeldUntouched(flat, it);
    if g.Some? {
      HeldFavorite(flat, it);
      KeepsFields(flat, it.extra);
      HeldTexts(flat, it, g.value.texts);
    }
  }

  lemma {:induction false} KeepsFields(flat: Flat, es: seq<Entry>)
    requires AbsorbAll(flat, es).Some?
    ensures forall f :: f in flat.texts ==> f in AbsorbAll(flat, es).value.texts
    decreases |es|
  {
    if es != [] {
      assert forall f :: f in flat.texts ==> f in Absorb(flat, es[0]).value.texts;
      KeepsFields(Absorb(flat, es[0]).value, es[1..]);
    }
  }

  /** The declared part of a normalised item survives its JSON form exactly when its
      undeclared keys are harmless. */
  lemma DeclaredPartSurvives(it: Item)
    requires Normal(it)
    ensures var r := Normalize(Encode(it));
            r.Some? && r.value.(extra := []) == it.(extra := []) <==> Harmless(it)
  {
    var raw := Encode(it);
    NormalizeIs(raw);
    DeclaredAbsorbed(it, Carry(raw, CARRIED));
    AbsorbConcat(Start(raw), DeclaredEntries(it), it.extra);
    var flat := AbsorbAll(Start(raw), DeclaredEntries(it)).value;
    EncodedAbsorbed(it, flat);
    if AbsorbAll(flat, it.extra).Some? {
      EncodedItem(it, AbsorbAll(flat, it.extra).value);
    }
  }

  lemma TitleLower(k: string)
    requires k == "title"
    ensures Lower(Trim(k)) == k
  {
    Trimmed(k);
    LowerCased(k);
  }

  lemma TitleAlias(k: string)
    requires k == "title"
    ensures k !in FAVORITE_KEYS && k !in KEYS && k in ALIASES && ALIASES[k] == Name
  {
  }

  lemma AliasNames(e: Entry)
    requires var lower := Lower(Trim(e.key)); e.key !in KEYS && lower !in FAVORITE_KEYS && lower in ALIASES
    ensures Names(e, ALIASES[Lower(Trim(e.key))])
  {
    ForeignField(e.key, Lower(Trim(e.key)));
  }

  lemma TitleNames(e: Entry)
    requires e.key == "title"
    ensures Names(e, Name) && IsExtra(e)
  {
    TitleLower(e.key);
    TitleAlias(e.key);
    AliasNames(e);
  }

  lemma OfferIsNotHarmless(it: Item, f: Field)
    requires |it.extra| == 1 && Names(it.extra[0], f) && it.extra[0].value.JStr? && it.extra[0].value.s != ""
    requires Column(it.columns, f) == ""
    ensures !Harmless(it)
  {
  }

  lemma TitleItem(e: Entry)
    requires e.key == "title" && e.value.JStr?
    ensures var r := NormalizeItemFields([e]);
            r.Some? && Normal(r.value) && r.value.extra == [e] && Column(r.value.columns, Name) == ""
  {
    TitleNames(e);
    TextNormalizes([e]);
    NormalizedIsNormal([e]);
    assert Get([e], "name") == None;
    FilterAll(IsExtra, [e]);
  }

  /** `{"title": "x"}` is an item that does not survive: it comes back with a name. */
  lemma TitleIsNotHarmless()
    ensures var r := NormalizeItemFields([Entry("title", JStr("x"))]); r.Some? && Normal(r.value) && !Harmless(r.value)
  {
    var e := Entry("title", JStr("x"));
    TitleItem(e);
    TitleNames(e);
    OfferIsNotHarmless(NormalizeItemFields([e]).value, Name);
  }
}
