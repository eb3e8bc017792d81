/** The offline vault file of clients/packages/crypto/src/vault.ts. */
module Vault {
  import opened Prelude
  import opened Json
  import opened Account

  datatype VaultState = VaultState(kdf: JValue, salt: string, protectedUserKey: string, userKey: Bytes)

  datatype VaultError = PasswordRequired | NotJson | NotVault | BadVersion | Malformed | WrongPassword

  datatype Written = Written(file: string, state: VaultState)

  function FileObject(s: VaultState, vault: string): seq<Entry> {
    [Entry("format", JStr("passwd-vault")), Entry("version", JNum("1", false)), Entry("kdf", s.kdf),
     Entry("salt", JStr(s.salt)), Entry("protectedUserKey", JStr(s.protectedUserKey)), Entry("vault", JStr(vault))]
  }

  /** `serialize`, which is also `saveVault`. */
  function Save(p: Platform, s: VaultState, payload: string, nonce: Bytes): string {
    p.stringify(JObj(FileObject(s, EncryptItem(p, s.userKey, payload, nonce))))
  }

  /** The randomness of one key wrapping: base64 salt, wrap nonce, payload nonce. */
  datatype Random = Random(salt: string, wrapNonce: Bytes, payloadNonce: Bytes)

  function VaultKey(p: Platform, password: string, salt: string, kdf: JValue): Bytes {
    PasswordKey(p, p.nfkc(password), salt, kdf)
  }

  function Rewrap(p: Platform, userKey: Bytes, password: string, kdf: JValue, payload: string, r: Random): Written {
    var s := VaultState(kdf, r.salt, Wrap(p, VaultKey(p, password, r.salt, kdf), userKey, r.wrapNonce), userKey);
    Written(Save(p, s, payload, r.payloadNonce), s)
  }

  function Create(p: Platform, password: string, payload: string, kdf: JValue, userKey: Bytes,
      r: Random): Result<Written, VaultError> {
    if password == "" then Err(PasswordRequired) else Ok(Rewrap(p, userKey, password, kdf, payload, r))
  }

  function ChangePassword(p: Platform, s: VaultState, password: string, payload: string, kdf: JValue,
      r: Random): Result<Written, VaultError> {
    if password == "" then Err(PasswordRequired) else Ok(Rewrap(p, s.userKey, password, kdf, payload, r))
  }

  function Open(p: Platform, file: string, password: string): Result<(VaultState, string), VaultError> {
    match p.parse(file)
    case None => Err(NotJson)
    case Some(doc) =>
      var es := if doc.JObj? then doc.entries else [];
      if Get(es, "format") != Some(JStr("passwd-vault")) then Err(NotVault)
      else if Get(es, "version") != Some(JNum("1", false)) then Err(BadVersion)
      else
        match (Get(es, "kdf"), Get(es, "salt"), Get(es, "protectedUserKey"), Get(es, "vault"))
        case (Some(kdf), Some(JStr(salt)), Some(JStr(wrapped)), Some(JStr(vault))) =>
          (match Unwrap(p, VaultKey(p, password, salt, kdf), wrapped)
           case None => Err(WrongPassword)
           case Some(userKey) =>
             match DecryptItem(p, userKey, vault)
             case None => Err(WrongPassword)
             case Some(payload) => Ok((VaultState(kdf, salt, wrapped, userKey), payload)))
        case _ => Err(Malformed)
  }

  // --- whole histories of one vault ------------------------------------------

  datatype Act =
    | SaveAct(payload: string, nonce: Bytes)
    | ChangeAct(password: string, payload: string, kdf: JValue, random: Random)

  /** The nonces are not empty, and the key-derivation parameters print as they are. */
  ghost predicate WellFormed(p: Platform, a: Act) {
    match a
    case SaveAct(_, nonce) => nonce != []
    case ChangeAct(_, _, kdf, r) => r.wrapNonce != [] && r.payloadNonce != [] && Plain(p.parse, kdf)
  }

  /** The last file written and the unlocked state, with the password it is under
      and the payload it holds. */
  datatype Session = Session(file: string, state: VaultState, password: string, payload: string)

  function Do(p: Platform, s: Session, a: Act): Session {
    match a
    case SaveAct(payload, nonce) => s.(file := Save(p, s.state, payload, nonce), payload := payload)
    case ChangeAct(password, payload, kdf, r) =>
      match ChangePassword(p, s.state, password, payload, kdf, r)
      case Ok(w) => Session(w.file, w.state, password, payload)
      case Err(_) => s
  }

  function Run(p: Platform, start: Session, acts: seq<Act>): Session {
    if acts == [] then start else Do(p, Run(p, start, acts[..|acts| - 1]), acts[|acts| - 1])
  }

  /** Exactly the passwords that normalise like `s.password` open the file, and they
      give the payload, the state and the User Key. */
  ghost predicate Opens(p: Platform, s: Session, userKey: Bytes) {
    && s.state.userKey == userKey && Plain(p.parse, s.state.kdf)
    && (forall q: string :: Unwrap(p, VaultKey(p, q, s.state.salt, s.state.kdf), s.state.protectedUserKey)
                            == if p.nfkc(q) == p.nfkc(s.password) then Some(userKey) else None)
    && (forall q: string :: Open(p, s.file, q) ==
          if p.nfkc(q) == p.nfkc(s.password) then Ok((s.state, StripBom(s.payload))) else Err(WrongPassword))
  }

  lemma FilePlain(p: Platform, s: VaultState, vault: string)
    requires Ideal(p) && Plain(p.parse, s.kdf)
    ensures Plain(p.parse, JObj(FileObject(s, vault)))
  {
    assert Decimal(1) == "1";
  }

  lemma SavedFields(p: Platform, s: VaultState, payload: string, nonce: Bytes)
    requires Ideal(p) && Plain(p.parse, s.kdf)
    ensures var es := FileObject(s, EncryptItem(p, s.userKey, payload, nonce));
            && p.parse(Save(p, s, payload, nonce)) == Some(JObj(es))
            && Get(es, "format") == Some(JStr("passwd-vault")) && Get(es, "version") == Some(JNum("1", false))
            && Get(es, "kdf") == Some(s.kdf) && Get(es, "salt") == Some(JStr(s.salt))
            && Get(es, "protectedUserKey") == Some(JStr(s.protectedUserKey))
            && Get(es, "vault") == Some(JStr(EncryptItem(p, s.userKey, payload, nonce)))
  {
    var es := FileObject(s, EncryptItem(p, s.userKey, payload, nonce));
    FilePlain(p, s, EncryptItem(p, s.userKey, payload, nonce));
    assert es[0].key == "format" && es[1].key == "version" && es[2].key == "kdf";
    assert es[3].key == "salt" && es[4].key == "protectedUserKey" && es[5].key == "vault";
    GetFirst(es, 0);
    GetFirst(es, 1);
    GetFirst(es, 2);
    GetFirst(es, 3);
    GetFirst(es, 4);
    GetFirst(es, 5);
  }

  lemma SavedOpens(p: Platform, s: VaultState, password: string, payload: string, nonce: Bytes, q: string)
    requires Ideal(p) && nonce != [] && Plain(p.parse, s.kdf)
    requires Unwrap(p, VaultKey(p, q, s.salt, s.kdf), s.protectedUserKey)
             == if p.nfkc(q) == p.nfkc(password) then Some(s.userKey) else None
    ensures Open(p, Save(p, s, payload, nonce), q)
            == if p.nfkc(q) == p.nfkc(password) then Ok((s, StripBom(payload))) else Err(WrongPassword)
  {
    SavedFields(p, s, payload, nonce);
    UnwrapWrapped(p, ItemKey(s.userKey), ItemKey(s.userKey), p.utf8(payload), nonce);
    assert DecryptItem(p, s.userKey, EncryptItem(p, s.userKey, payload, nonce)) == Some(StripBom(payload));
  }

  /** A wrapped User Key opens for the password, salt and parameters it was wrapped for,
      and for no others. */
  lemma VaultKeyOpens(p: Platform, userKey: Bytes, password: string, salt: string, kdf: JValue, nonce: Bytes,
                      q: string, other: string, params: JValue)
    requires Ideal(p) && nonce != []
    ensures Unwrap(p, VaultKey(p, q, other, params), Wrap(p, VaultKey(p, password, salt, kdf), userKey, nonce))
         == if p.nfkc(q) == p.nfkc(password) && other == salt && params == kdf then Some(userKey) else None
  {
    UnwrapWrapped(p, VaultKey(p, password, salt, kdf), VaultKey(p, q, other, params), userKey, nonce);
    AccountKeysDiffer(p, p.nfkc(password), salt, kdf, p.nfkc(q), other, params);
  }

  lemma RewrappedOpens(p: Platform, userKey: Bytes, password: string, kdf: JValue, payload: string, r: Random)
    requires Ideal(p) && r.wrapNonce != [] && r.payloadNonce != [] && Plain(p.parse, kdf)
    ensures var w := Rewrap(p, userKey, password, kdf, payload, r);
            Opens(p, Session(w.file, w.state, password, payload), userKey)
  {
    var w := Rewrap(p, userKey, password, kdf, payload, r);
    forall q: string
      ensures Unwrap(p, VaultKey(p, q, w.state.salt, w.state.kdf), w.state.protectedUserKey)
              == if p.nfkc(q) == p.nfkc(password) then Some(userKey) else None
    {
      VaultKeyOpens(p, userKey, password, r.salt, kdf, r.wrapNonce, q, r.salt, kdf);
    }
    forall q: string
      ensures Open(p, w.file, q) ==
              if p.nfkc(q) == p.nfkc(password) then Ok((w.state, StripBom(payload))) else Err(WrongPassword)
    {
      SavedOpens(p, w.state, password, payload, r.payloadNonce, q);
    }
  }

  lemma DoOpens(p: Platform, s: Session, a: Act, userKey: Bytes)
    requires Ideal(p) && WellFormed(p, a) && Opens(p, s, userKey)
    ensures Opens(p, Do(p, s, a), userKey)
  {
    match a {
      case SaveAct(payload, nonce) =>
        forall q: string
          ensures Open(p, Save(p, s.state, payload, nonce), q)
                  == if p.nfkc(q) == p.nfkc(s.password) then Ok((s.state, StripBom(payload))) else Err(WrongPassword)
        {
          SavedOpens(p, s.state, s.password, payload, nonce, q);
        }
      case ChangeAct(password, payload, kdf, r) =>
        RewrappedOpens(p, userKey, password, kdf, payload, r);
    }
  }

  /** For every history of one vault: the last file opens under exactly the passwords
      that normalise like the current one, and gives the last payload and the User
      Key made at creation. */
  lemma {:induction false} LastFileOpens(p: Platform, password: string, payload: string, kdf: JValue, userKey: Bytes,
                                         r: Random, acts: seq<Act>)
    requires Ideal(p) && password != "" && r.wrapNonce != [] && r.payloadNonce != [] && Plain(p.parse, kdf)
    requires forall a :: a in acts ==> WellFormed(p, a)
    ensures var w := Create(p, password, payload, kdf, userKey, r).value;
            Opens(p, Run(p, Session(w.file, w.state, password, payload), acts), userKey)
  {
    var w := Create(p, password, payload, kdf, userKey, r).value;
    var start := Session(w.file, w.state, password, payload);
    if acts == [] {
      RewrappedOpens(p, userKey, password, kdf, payload, r);
    } else {
      LastFileOpens(p, password, payload, kdf, userKey, r, acts[..|acts| - 1]);
      DoOpens(p, Run(p, start, acts[..|acts| - 1]), acts[|acts| - 1], userKey);
    }
  }

  // --- each act --------------------------------------------------------------

  /** Creating and changing the password fail exactly on an empty password; a change
      takes a fresh salt and keeps the User Key. */
  lemma ChangeTakesEffect(p: Platform, s: VaultState, userKey: Bytes, password: string, payload: string, kdf: JValue,
      r: Random)
    ensures ChangePassword(p, s, password, payload, kdf, r) == Err(PasswordRequired) <==> password == ""
    ensures Create(p, password, payload, kdf, userKey, r) == Err(PasswordRequired) <==> password == ""
    ensures password != "" ==>
              && ChangePassword(p, s, password, payload, kdf, r).Ok?
              && Create(p, password, payload, kdf, userKey, r).Ok?
              && var changed, made := ChangePassword(p, s, password, payload, kdf, r).value.state,
                                      Create(p, password, payload, kdf, userKey, r).value.state;
              && changed.userKey == s.userKey && changed.salt == r.salt && changed.kdf == kdf
              && made.userKey == userKey && made.salt == r.salt && made.kdf == kdf
  {
  }

  /** The payload of a saved file reads under a User Key, of at least 32 bytes, exactly
      when its first 32 bytes are the vault's. */
  lemma PayloadNeedsTheKey(p: Platform, s: VaultState, payload: string, nonce: Bytes, other: Bytes)
    requires Ideal(p) && nonce != [] && Plain(p.parse, s.kdf) && |s.userKey| >= 32 && |other| >= 32
    ensures exists es, vault ::
              && p.parse(Save(p, s, payload, nonce)) == Some(JObj(es)) && Get(es, "vault") == Some(JStr(vault))
              && DecryptItem(p, other, vault)
                 == if other[..32] == s.userKey[..32] then Some(StripBom(payload)) else None
  {
    SavedFields(p, s, payload, nonce);
    var r := ItemRandom([], nonce, nonce);
    ItemsNeedTheKey(p, s.userKey, other, payload, nonce, r);
    var vault := EncryptItem(p, s.userKey, payload, nonce);
    assert Get(FileObject(s, vault), "vault") == Some(JStr(vault));
  }

  // --- opening any file ------------------------------------------------------

  predicate Text(v: Option<JValue>) {
    v.Some? && v.value.JStr?
  }

  /** A file opens exactly when it is a JSON object of the format and version, its
      wrapped key unwraps under the password, and its payload decrypts under that key;
      and the error names the first of these that fails. */
  lemma OpensExactly(p: Platform, file: string, password: string)
    ensures var doc, result := p.parse(file), Open(p, file, password);
            var es := if doc.Some? && doc.value.JObj? then doc.value.entries else [];
            var isVault := doc.Some? && Get(es, "format") == Some(JStr("passwd-vault"));
            var current := isVault && Get(es, "version") == Some(JNum("1", false));
            var whole := && current && Get(es, "kdf").Some? && Text(Get(es, "salt"))
                         && Text(Get(es, "protectedUserKey")) && Text(Get(es, "vault"));
            && (result == Err(NotJson) <==> doc.None?)
            && (result == Err(NotVault) <==> doc.Some? && !isVault)
            && (result == Err(BadVersion) <==> isVault && !current)
            && (result == Err(Malformed) <==> current && !whole)
            && (whole ==>
                  var key := Unwrap(p, PasswordKey(p, p.nfkc(password), Get(es, "salt").value.s, Get(es, "kdf").value),
                                    Get(es, "protectedUserKey").value.s);
                  if key.Some? && DecryptItem(p, key.value, Get(es, "vault").value.s).Some?
                  then && result.Ok? && result.value.1 == DecryptItem(p, key.value, Get(es, "vault").value.s).value
                       && result.value.0 == VaultState(Get(es, "kdf").value, Get(es, "salt").value.s,
                                                       Get(es, "protectedUserKey").value.s, key.value)
                  else result == Err(WrongPassword))
  {
  }
}
