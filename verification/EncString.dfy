/** The ciphertext envelope of clients/packages/crypto/src/encstring.ts. */
module EncString {
  import opened Prelude
  import opened Bits
  import Base64

  const AES_GCM: nat := 1

  datatype Envelope = Envelope(kind: nat, nonce: seq<Byte>, data: seq<Byte>)

  datatype ParseError = MissingType | UnsupportedType | ExpectedParts | InvalidBase64

  /** JavaScript's `Number`; None is NaN or not a natural number. */
  type NumberOf = string -> Option<nat>

  /** All the parser needs of it: it reads back the safe integers a template string
      prints, and rounds no larger one down to a safe integer. */
  ghost predicate ReadsDecimals(number: NumberOf) {
    forall n: nat :: if n < SAFE_INTEGERS then number(Decimal(n)) == Some(n)
                     else number(Decimal(n)).Some? ==> number(Decimal(n)).value >= SAFE_INTEGERS
  }

  function Serialize(e: Envelope): string {
    Decimal(e.kind) + "." + Base64.Btoa(e.nonce) + "|" + Base64.Btoa(e.data)
  }

  /** `s.split(sep)` */
  function Split(s: string, sep: char): (parts: seq<string>)
    ensures parts != []
  {
    if s == "" then [""]
    else
      var rest := Split(s[1..], sep);
      if s[0] == sep then [""] + rest else [[s[0]] + rest[0]] + rest[1..]
  }

  function IndexOf(s: string, c: char): (i: int)
    ensures -1 <= i < |s|
  {
    if s == "" then -1
    else if s[0] == c then 0
    else
      var i := IndexOf(s[1..], c);
      if i == -1 then -1 else i + 1
  }

  function Parse(number: NumberOf, s: string): Result<Envelope, ParseError> {
    var dot := IndexOf(s, '.');
    if dot < 0 then Err(MissingType)
    else if number(s[..dot]) != Some(AES_GCM) then Err(UnsupportedType)
    else
      var parts := Split(s[dot + 1..], '|');
      if |parts| != 2 || parts[0] == "" || parts[1] == "" then Err(ExpectedParts)
      else
        var nonce, data := Base64.Atob(parts[0]), Base64.Atob(parts[1]);
        if nonce.Some? && data.Some? then Ok(Envelope(AES_GCM, nonce.value, data.value)) else Err(InvalidBase64)
  }

  lemma {:induction false} IndexOfFirst(prefix: string, c: char, rest: string)
    requires c !in prefix
    ensures IndexOf(prefix + [c] + rest, c) == |prefix|
  {
    if prefix != "" {
      assert (prefix + [c] + rest)[1..] == prefix[1..] + [c] + rest;
      IndexOfFirst(prefix[1..], c, rest);
    }
  }

  lemma {:induction false} SplitWhole(s: string, sep: char)
    requires sep !in s
    ensures Split(s, sep) == [s]
  {
    if s != "" {
      assert s[0] in s;
      SplitWhole(s[1..], sep);
      assert [s[0]] + s[1..] == s;
    }
  }

  lemma {:induction false} SplitOnce(a: string, sep: char, b: string)
    requires sep !in a && sep !in b
    ensures Split(a + [sep] + b, sep) == [a, b]
  {
    var s := a + [sep] + b;
    if a == "" {
      assert s[1..] == b;
      SplitWhole(b, sep);
    } else {
      assert s[1..] == a[1..] + [sep] + b && s[0] == a[0] && a[0] in a;
      SplitOnce(a[1..], sep, b);
      assert [a[0]] + a[1..] == a;
    }
  }

  lemma {:induction false} DecimalDigits(n: nat)
    ensures forall c :: c in Decimal(n) ==> '0' <= c <= '9'
  {
    if n >= 10 {
      DecimalDigits(n / 10);
    }
  }

  lemma CutParts(prefix: string, nonce: string, data: string)
    requires '.' !in prefix && '|' !in nonce && '|' !in data
    ensures var s := prefix + "." + nonce + "|" + data;
            && IndexOf(s, '.') == |prefix| && s[..|prefix|] == prefix
            && Split(s[|prefix| + 1..], '|') == [nonce, data]
  {
    var s := prefix + "." + nonce + "|" + data;
    assert s == prefix + ['.'] + (nonce + ['|'] + data);
    IndexOfFirst(prefix, '.', nonce + ['|'] + data);
    assert s[|prefix| + 1..] == nonce + ['|'] + data;
    SplitOnce(nonce, '|', data);
  }

  lemma NoBar(bs: seq<Byte>)
    ensures '|' !in Base64.Btoa(bs)
  {
    Base64.EncodedChars(bs);
    assert !Base64.CodeChar('|');
  }

  /** Cutting a printed envelope at its dot and its bar finds its three parts. */
  lemma SerializedParts(e: Envelope)
    ensures var s, prefix := Serialize(e), Decimal(e.kind);
            && IndexOf(s, '.') == |prefix| && s[..|prefix|] == prefix
            && Split(s[|prefix| + 1..], '|') == [Base64.Btoa(e.nonce), Base64.Btoa(e.data)]
  {
    NoBar(e.nonce);
    NoBar(e.data);
    DecimalDigits(e.kind);
    CutParts(Decimal(e.kind), Base64.Btoa(e.nonce), Base64.Btoa(e.data));
  }

  lemma ParseParts(number: NumberOf, s: string, prefix: string, nonce: string, data: string)
    requires IndexOf(s, '.') == |prefix| && s[..|prefix|] == prefix && Split(s[|prefix| + 1..], '|') == [nonce, data]
    ensures Parse(number, s)
         == if number(prefix) != Some(AES_GCM) then Err(UnsupportedType)
            else if nonce == "" || data == "" then Err(ExpectedParts)
            else if Base64.Atob(nonce).None? || Base64.Atob(data).None? then Err(InvalidBase64)
            else Ok(Envelope(AES_GCM, Base64.Atob(nonce).value, Base64.Atob(data).value))
  {
  }

  /** Parsing gives back a serialised envelope exactly when it is an AES-GCM one
      and neither part is empty. */
  lemma ParseSerialized(number: NumberOf, e: Envelope)
    requires ReadsDecimals(number)
    ensures Parse(number, Serialize(e)) == Ok(e) <==> e.kind == AES_GCM && e.nonce != [] && e.data != []
    ensures e.kind != AES_GCM ==> Parse(number, Serialize(e)) == Err(UnsupportedType)
    ensures e.kind == AES_GCM && (e.nonce == [] || e.data == []) ==> Parse(number, Serialize(e)) == Err(ExpectedParts)
  {
    SerializedParts(e);
    ParseParts(number, Serialize(e), Decimal(e.kind), Base64.Btoa(e.nonce), Base64.Btoa(e.data));
    assert number(Decimal(e.kind)) == Some(AES_GCM) <==> e.kind == AES_GCM;
    Base64.EncodedChars(e.nonce);
    Base64.EncodedChars(e.data);
    Base64.AtobBtoa(e.nonce);
    Base64.AtobBtoa(e.data);
  }

  /** A serialised AES-GCM envelope starts with its type digit. */
  lemma SerializedStart(e: Envelope)
    requires e.kind == AES_GCM
    ensures Serialize(e) != "" && Serialize(e)[0] == '1'
  {
    assert Decimal(1) == ['1'];
  }

  // --- any text --------------------------------------------------------------

  lemma {:induction false} IndexOfIs(s: string, c: char)
    ensures var i := IndexOf(s, c); if i == -1 then c !in s else s[i] == c && c !in s[..i]
  {
    if s != "" && s[0] != c {
      IndexOfIs(s[1..], c);
      var i := IndexOf(s[1..], c);
      if i == -1 {
        assert s == [s[0]] + s[1..];
      } else {
        assert s[..i + 1] == [s[0]] + s[1..][..i];
      }
    }
  }

  lemma {:induction false} SplitParts(s: string, sep: char)
    ensures Join(Split(s, sep), [sep]) == s
    ensures forall part :: part in Split(s, sep) ==> sep !in part
  {
    if s != "" {
      var rest := Split(s[1..], sep);
      SplitParts(s[1..], sep);
      assert s == [s[0]] + s[1..];
      assert rest[0] in rest;
      if s[0] == sep {
        assert ([""] + rest)[1..] == rest;
      } else {
        assert ([[s[0]] + rest[0]] + rest[1..])[1..] == rest[1..];
      }
    }
  }

  lemma TwoParts(s: string, sep: char)
    requires |Split(s, sep)| == 2
    ensures var parts := Split(s, sep); s == parts[0] + [sep] + parts[1] && sep !in parts[0] && sep !in parts[1]
  {
    SplitParts(s, sep);
    var parts := Split(s, sep);
    assert parts[0] in parts && parts[1] in parts && parts[1..] == [parts[1]];
  }

  /** The text is a prefix, a dot, and two parts around the one bar after it. */
  predicate Cuts(s: string, prefix: string, nonce: string, data: string) {
    s == prefix + "." + nonce + "|" + data && '.' !in prefix && '|' !in nonce && '|' !in data
  }

  lemma CutAt(s: string, dot: nat, nonce: string, data: string)
    requires dot < |s| && s[dot] == '.' && '.' !in s[..dot] && '|' !in nonce && '|' !in data
    requires s[dot + 1..] == nonce + ['|'] + data
    ensures Cuts(s, s[..dot], nonce, data)
  {
    assert s == s[..dot] + "." + s[dot + 1..];
    assert s == s[..dot] + "." + nonce + "|" + data;
  }

  /** Where the parser cuts. */
  lemma ParsedCuts(number: NumberOf, s: string) returns (prefix: string, nonce: string, data: string)
    requires Parse(number, s).Ok?
    ensures Cuts(s, prefix, nonce, data) && nonce != "" && data != "" && number(prefix) == Some(AES_GCM)
    ensures Parse(number, s).value.kind == AES_GCM
    ensures Base64.Atob(nonce) == Some(Parse(number, s).value.nonce)
    ensures Base64.Atob(data) == Some(Parse(number, s).value.data)
  {
    var dot := IndexOf(s, '.');
    var parts := Split(s[dot + 1..], '|');
    prefix, nonce, data := s[..dot], parts[0], parts[1];
    IndexOfIs(s, '.');
    TwoParts(s[dot + 1..], '|');
    CutAt(s, dot, nonce, data);
  }

  /** A text parses to an envelope exactly when it is a prefix that reads as type 1, a
      dot, and two non-empty base64 parts around the only bar. */
  lemma ParsesExactly(number: NumberOf, s: string, e: Envelope)
    ensures Parse(number, s) == Ok(e)
            <==> exists prefix, nonce, data ::
                   && Cuts(s, prefix, nonce, data) && nonce != "" && data != "" && number(prefix) == Some(1)
                   && e.kind == 1 && Base64.Atob(nonce) == Some(e.nonce) && Base64.Atob(data) == Some(e.data)
  {
    if Parse(number, s) == Ok(e) {
      var prefix, nonce, data := ParsedCuts(number, s);
    }
    forall prefix, nonce, data | Cuts(s, prefix, nonce, data)
      ensures IndexOf(s, '.') == |prefix| && s[..|prefix|] == prefix && Split(s[|prefix| + 1..], '|') == [nonce, data]
    {
      CutParts(prefix, nonce, data);
    }
  }
}
