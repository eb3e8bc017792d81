/** The account key hierarchy of clients/packages/crypto/src/account.ts over an
    ideal AEAD: one User Key, wrapped by the password and by the recovery code. */
module Account {
  import opened Prelude
  import opened Bits
  import opened Json
  import opened EncString

  type Bytes = seq<Byte>

  /** The foreign functions the code calls. */
  datatype Platform = Platform(
    seal: (Bytes, Bytes, Bytes) -> Bytes,            // AES-GCM: key, nonce, plaintext
    unseal: (Bytes, Bytes, Bytes) -> Option<Bytes>,  // key, nonce, ciphertext; None is a failed tag
    kdf: (string, string, JValue) -> Bytes,          // normalised password, salt, parameters
    nfkc: string -> string,
    hkdf: (Bytes, string) -> Bytes,
    pbkdf2: string -> Bytes,                         // the recovery base key
    normalizeIdentifier: string -> string,
    utf8: string -> Bytes,
    fromUtf8: Bytes -> string,
    number: NumberOf,
    parse: string -> Option<JValue>,
    stringify: JValue -> string)

  const BOM: char := '\U{FEFF}'

  /** TextDecoder drops one leading byte order mark. */
  function StripBom(s: string): string {
    if s != "" && s[0] == BOM then s[1..] else s
  }

  /** Decryption succeeds exactly on the key and nonce used to encrypt. */
  ghost predicate IdealAead(p: Platform) {
    forall k: Bytes, n: Bytes, m: Bytes, k': Bytes, n': Bytes {:trigger p.unseal(k', n', p.seal(k, n, m))} ::
      p.seal(k, n, m) != [] && p.unseal(k', n', p.seal(k, n, m)) == if k == k' && n == n' then Some(m) else None
  }

  ghost predicate Utf8RoundTrips(p: Platform) {
    forall s: string :: p.fromUtf8(p.utf8(s)) == StripBom(s)
  }

  /** JSON.parse undoes JSON.stringify on plain values, the safe integers print in
      decimal, and no object starts with a digit. */
  ghost predicate JsonRoundTrips(p: Platform) {
    && (forall v: JValue :: Plain(p.parse, v) ==> p.parse(p.stringify(v)) == Some(v))
    && (forall n: nat :: n < SAFE_INTEGERS ==> p.parse(Decimal(n)) == Some(JNum(Decimal(n), n == 0)))
    && (forall s: string :: s != "" && s[0] == '1' && p.parse(s).Some? ==> !IsObject(p.parse(s).value))
  }

  function PasswordKey(p: Platform, normalised: string, salt: string, params: JValue): Bytes {
    p.hkdf(p.kdf(normalised, salt, params), "enc")
  }

  function RecoveryKey(p: Platform, normalised: string): Bytes {
    p.hkdf(p.pbkdf2(normalised), "recovery-enc")
  }

  function RecoveryAuth(p: Platform, normalised: string): Bytes {
    p.hkdf(p.pbkdf2(normalised), "recovery-auth")
  }

  /** Key derivations are injective in everything they take. */
  ghost predicate InjectiveKeys(p: Platform) {
    && (forall a: string, b: string, salt: string, salt': string, params: JValue, params': JValue ::
          p.kdf(a, salt, params) == p.kdf(b, salt', params') ==> a == b && salt == salt' && params == params')
    && (forall a: string, b: string :: p.pbkdf2(a) == p.pbkdf2(b) ==> a == b)
    && (forall k: Bytes, k': Bytes, use: string, use': string ::
          p.hkdf(k, use) == p.hkdf(k', use') ==> k == k' && use == use')
  }

  ghost predicate Ideal(p: Platform) {
    IdealAead(p) && Utf8RoundTrips(p) && JsonRoundTrips(p) && InjectiveKeys(p) && ReadsDecimals(p.number)
  }

  // --- wrapping --------------------------------------------------------------

  function Wrap(p: Platform, key: Bytes, plain: Bytes, nonce: Bytes): string {
    Serialize(Envelope(AES_GCM, nonce, p.seal(key, nonce, plain)))
  }

  /** None when parsing or decrypting throws. */
  function Unwrap(p: Platform, key: Bytes, text: string): Option<Bytes> {
    match Parse(p.number, text)
    case Ok(e) => p.unseal(key, e.nonce, e.data)
    case Err(_) => None
  }

  lemma UnwrapWrapped(p: Platform, key: Bytes, other: Bytes, plain: Bytes, nonce: Bytes)
    requires Ideal(p) && nonce != []
    ensures Unwrap(p, other, Wrap(p, key, plain, nonce)) == if other == key then Some(plain) else None
  {
    var ct := p.seal(key, nonce, plain);
    assert p.unseal(other, nonce, ct) == if other == key then Some(plain) else None;
    ParseSerialized(p.number, Envelope(AES_GCM, nonce, ct));
  }

  // --- items -----------------------------------------------------------------

  function ItemKey(userKey: Bytes): Bytes {
    if |userKey| <= 32 then userKey else userKey[..32]
  }

  function EncryptItem(p: Platform, userKey: Bytes, plaintext: string, nonce: Bytes): string {
    Wrap(p, ItemKey(userKey), p.utf8(plaintext), nonce)
  }

  function DecryptItem(p: Platform, userKey: Bytes, text: string): Option<string> {
    match Unwrap(p, ItemKey(userKey), text)
    case Some(b) => Some(p.fromUtf8(b))
    case None => None
  }

  /** The randomness of one keyed encryption. */
  datatype ItemRandom = ItemRandom(key: Bytes, keyNonce: Bytes, dataNonce: Bytes)

  function Container(wrapped: string, data: string): (v: JValue)
    ensures v.JObj?
  {
    JObj([Entry("v", JNum("2", false)), Entry("key", JStr(wrapped)), Entry("data", JStr(data))])
  }

  function EncryptItemKeyed(p: Platform, userKey: Bytes, plaintext: string, r: ItemRandom): string {
    p.stringify(Container(Wrap(p, ItemKey(userKey), r.key, r.keyNonce), Wrap(p, r.key, p.utf8(plaintext), r.dataNonce)))
  }

  function Truthful(v: Option<JValue>): bool {
    v.Some? && Truthy(v.value)
  }

  /** The key and data of a container; None sends the text down the legacy path. */
  function ContainerOf(p: Platform, stored: string): Option<(JValue, JValue)> {
    match p.parse(stored)
    case Some(JObj(es)) =>
      if Truthful(Get(es, "key")) && Truthful(Get(es, "data"))
      then Some((Get(es, "key").value, Get(es, "data").value)) else None
    case _ => None
  }

  function DecryptItemKeyed(p: Platform, userKey: Bytes, stored: string): Option<string> {
    match ContainerOf(p, stored)
    case None => DecryptItem(p, userKey, stored)
    case Some((JStr(wrapped), JStr(data))) =>
      (match Unwrap(p, ItemKey(userKey), wrapped)
       case Some(key) =>
         (match Unwrap(p, key, data)
          case Some(b) => Some(p.fromUtf8(b))
          case None => None)
       case None => None)
    case Some(_) => None
  }

  lemma ContainerPlain(p: Platform, wrapped: string, data: string)
    requires Ideal(p)
    ensures Plain(p.parse, Container(wrapped, data))
  {
    assert Decimal(2) == "2";
  }

  lemma ContainerProperties(wrapped: string, data: string)
    ensures var es := Container(wrapped, data).entries;
            Get(es, "key") == Some(JStr(wrapped)) && Get(es, "data") == Some(JStr(data))
  {
    var es := Container(wrapped, data).entries;
    assert es[0].key == "v" && es[1].key == "key" && es[2].key == "data";
    GetFirst(es, 1);
    GetFirst(es, 2);
  }

  lemma ContainerParses(p: Platform, userKey: Bytes, plaintext: string, r: ItemRandom)
    requires Ideal(p)
    ensures ContainerOf(p, EncryptItemKeyed(p, userKey, plaintext, r))
         == Some((JStr(Wrap(p, ItemKey(userKey), r.key, r.keyNonce)),
             JStr(Wrap(p, r.key, p.utf8(plaintext), r.dataNonce))))
  {
    var wrapped := Wrap(p, ItemKey(userKey), r.key, r.keyNonce);
    var data := Wrap(p, r.key, p.utf8(plaintext), r.dataNonce);
    SerializedStart(Envelope(AES_GCM, r.keyNonce, p.seal(ItemKey(userKey), r.keyNonce, r.key)));
    SerializedStart(Envelope(AES_GCM, r.dataNonce, p.seal(r.key, r.dataNonce, p.utf8(plaintext))));
    ContainerPlain(p, wrapped, data);
    ContainerProperties(wrapped, data);
  }

  /** A keyed item decrypts under the User Key's item half, and under no other. */
  lemma KeyedItemDecrypts(p: Platform, userKey: Bytes, other: Bytes, plaintext: string, r: ItemRandom)
    requires Ideal(p) && r.keyNonce != [] && r.dataNonce != []
    ensures DecryptItemKeyed(p, other, EncryptItemKeyed(p, userKey, plaintext, r))
         == if ItemKey(other) == ItemKey(userKey) then Some(StripBom(plaintext)) else None
  {
    ContainerParses(p, userKey, plaintext, r);
    UnwrapWrapped(p, ItemKey(userKey), ItemKey(other), r.key, r.keyNonce);
    UnwrapWrapped(p, r.key, r.key, p.utf8(plaintext), r.dataNonce);
  }

  /** A legacy single-key item takes the other path to the same result. */
  lemma LegacyItemDecrypts(p: Platform, userKey: Bytes, other: Bytes, plaintext: string, nonce: Bytes)
    requires Ideal(p) && nonce != []
    ensures DecryptItemKeyed(p, other, EncryptItem(p, userKey, plaintext, nonce))
         == if ItemKey(other) == ItemKey(userKey) then Some(StripBom(plaintext)) else None
  {
    var text := EncryptItem(p, userKey, plaintext, nonce);
    SerializedStart(Envelope(AES_GCM, nonce, p.seal(ItemKey(userKey), nonce, p.utf8(plaintext))));
    assert p.parse(text).Some? ==> !IsObject(p.parse(text).value);
    UnwrapWrapped(p, ItemKey(userKey), ItemKey(other), p.utf8(plaintext), nonce);
  }

  /** Keys are compared on their first 32 bytes: for any two keys that long, the reading
      one opens an item, of either form, exactly when those agree with the writing one's. */
  lemma ItemsNeedTheKey(p: Platform, userKey: Bytes, other: Bytes, plaintext: string, nonce: Bytes, r: ItemRandom)
    requires Ideal(p) && nonce != [] && r.keyNonce != [] && r.dataNonce != []
    requires |userKey| >= 32 && |other| >= 32
    ensures DecryptItemKeyed(p, other, EncryptItemKeyed(p, userKey, plaintext, r))
         == if other[..32] == userKey[..32] then Some(StripBom(plaintext)) else None
    ensures DecryptItemKeyed(p, other, EncryptItem(p, userKey, plaintext, nonce))
         == if other[..32] == userKey[..32] then Some(StripBom(plaintext)) else None
    ensures DecryptItem(p, other, EncryptItem(p, userKey, plaintext, nonce))
         == if other[..32] == userKey[..32] then Some(StripBom(plaintext)) else None
  {
    assert |userKey| == 32 ==> userKey[..32] == userKey;
    assert |other| == 32 ==> other[..32] == other;
    KeyedItemDecrypts(p, userKey, other, plaintext, r);
    LegacyItemDecrypts(p, userKey, other, plaintext, nonce);
    UnwrapWrapped(p, ItemKey(userKey), ItemKey(other), p.utf8(plaintext), nonce);
  }

  /** In a container the item is under its own key and only that key is under the User
      Key, which is what lets it be shared. */
  lemma ContainerHoldsKeys(p: Platform, userKey: Bytes, plaintext: string, r: ItemRandom)
    requires Ideal(p) && r.keyNonce != [] && r.dataNonce != [] && |userKey| >= 32
    ensures var stored := EncryptItemKeyed(p, userKey, plaintext, r);
            exists wrapped, data :: && ContainerOf(p, stored) == Some((JStr(wrapped), JStr(data)))
                                    && Unwrap(p, userKey[..32], wrapped) == Some(r.key)
                                    && Unwrap(p, r.key, data) == Some(p.utf8(plaintext))
  {
    assert |userKey| == 32 ==> userKey[..32] == userKey;
    var wrapped := Wrap(p, ItemKey(userKey), r.key, r.keyNonce);
    var data := Wrap(p, r.key, p.utf8(plaintext), r.dataNonce);
    ContainerParses(p, userKey, plaintext, r);
    UnwrapWrapped(p, ItemKey(userKey), ItemKey(userKey), r.key, r.keyNonce);
    UnwrapWrapped(p, r.key, r.key, p.utf8(plaintext), r.dataNonce);
    assert ContainerOf(p, EncryptItemKeyed(p, userKey, plaintext, r)) == Some((JStr(wrapped), JStr(data)));
  }

  /** The text comes back unchanged exactly when it does not start with a BOM. */
  lemma ItemUnchanged(p: Platform, userKey: Bytes, plaintext: string, r: ItemRandom)
    requires Ideal(p) && r.keyNonce != [] && r.dataNonce != []
    ensures DecryptItemKeyed(p, userKey, EncryptItemKeyed(p, userKey, plaintext, r)) == Some(plaintext)
            <==> !(plaintext != "" && plaintext[0] == BOM)
  {
    KeyedItemDecrypts(p, userKey, userKey, plaintext, r);
    if plaintext != "" && plaintext[0] == BOM {
      assert |StripBom(plaintext)| != |plaintext|;
    }
  }

  /** The text made of a byte order mark alone is one that is lost. */
  lemma BomIsLost(p: Platform, userKey: Bytes, r: ItemRandom)
    requires Ideal(p) && r.keyNonce != [] && r.dataNonce != []
    ensures DecryptItemKeyed(p, userKey, EncryptItemKeyed(p, userKey, [BOM], r)) == Some("")
  {
    KeyedItemDecrypts(p, userKey, userKey, [BOM], r);
  }

  // --- unlocking and recovery ------------------------------------------------

  function AccountKey(p: Platform, identifier: string, password: string, params: JValue): Bytes {
    PasswordKey(p, p.nfkc(password), p.normalizeIdentifier(identifier), params)
  }

  function Unlock(p: Platform, identifier: string, password: string, params: JValue,
      protectedUserKey: string): Option<Bytes> {
    Unwrap(p, AccountKey(p, identifier, password, params), protectedUserKey)
  }

  datatype Enrollment = Enrollment(blob: string, auth: Bytes)

  function EnrollRecovery(p: Platform, userKey: Bytes, code: string, nonce: Bytes): Enrollment {
    var normal := p.normalizeIdentifier(code);
    Enrollment(Wrap(p, RecoveryKey(p, normal), userKey, nonce), RecoveryAuth(p, normal))
  }

  datatype Reset = Reset(auth: Bytes, protectedUserKey: string, params: JValue, userKey: Bytes)

  function CompleteRecovery(p: Platform, code: string, blob: string, identifier: string, password: string,
                            params: JValue, nonce: Bytes): Option<Reset>
  {
    var normal := p.normalizeIdentifier(code);
    match Unwrap(p, RecoveryKey(p, normal), blob)
    case None => None
    case Some(userKey) =>
      Some(Reset(RecoveryAuth(p, normal), Wrap(p, AccountKey(p, identifier, password, params), userKey, nonce),
          params, userKey))
  }

  lemma AccountKeysDiffer(p: Platform, a: string, s: string, x: JValue, b: string, t: string, y: JValue)
    requires InjectiveKeys(p)
    ensures PasswordKey(p, a, s, x) == PasswordKey(p, b, t, y) <==> a == b && s == t && x == y
  {
  }

  /** A wrapped User Key unlocks for the identifier, password and parameters it was
      wrapped for, up to normalisation, and for no others. */
  lemma UnlocksExactly(p: Platform, identifier: string, password: string, params: JValue, userKey: Bytes, nonce: Bytes,
                       id: string, q: string, other: JValue)
    requires Ideal(p) && nonce != []
    ensures Unlock(p, id, q, other, Wrap(p, AccountKey(p, identifier, password, params), userKey, nonce))
         == if p.nfkc(q) == p.nfkc(password) && p.normalizeIdentifier(id) == p.normalizeIdentifier(identifier)
                && other == params
            then Some(userKey) else None
  {
    UnwrapWrapped(p, AccountKey(p, identifier, password, params), AccountKey(p, id, q, other), userKey, nonce);
    AccountKeysDiffer(p, p.nfkc(password), p.normalizeIdentifier(identifier), params,
                      p.nfkc(q), p.normalizeIdentifier(id), other);
  }

  /** What the server gets to check a recovery code by is not the key that opens the
      blob, nor any other code's. */
  lemma AuthIsNotTheKey(p: Platform, code: string, other: string)
    requires Ideal(p)
    ensures RecoveryAuth(p, p.normalizeIdentifier(code)) != RecoveryKey(p, p.normalizeIdentifier(other))
    ensures RecoveryAuth(p, p.normalizeIdentifier(code)) == RecoveryAuth(p, p.normalizeIdentifier(other))
            <==> p.normalizeIdentifier(code) == p.normalizeIdentifier(other)
  {
  }

  // --- whole account histories -----------------------------------------------

  datatype Stored = Stored(text: string, plaintext: string)

  /** What the server keeps, with what the user remembers: the password, the
      recovery code and the plaintexts. The User Key itself is kept nowhere. */
  datatype State = State(
    identifier: string, password: string, params: JValue, protectedUserKey: string,
    recovery: Option<(string, Enrollment)>, items: seq<Stored>)

  datatype Act =
    | Enroll(code: string, nonce: Bytes)
    | Disable
    | Recover(code: string, password: string, params: JValue, nonce: Bytes)
    | WriteKeyed(plaintext: string, random: ItemRandom)
    | WriteLegacy(plaintext: string, nonce: Bytes)

  ghost predicate HasNonces(a: Act) {
    match a
    case Enroll(_, nonce) => nonce != []
    case Disable => true
    case Recover(_, _, _, nonce) => nonce != []
    case WriteKeyed(_, r) => r.keyNonce != [] && r.dataNonce != []
    case WriteLegacy(_, nonce) => nonce != []
  }

  function Register(p: Platform, identifier: string, password: string, params: JValue, userKey: Bytes,
      nonce: Bytes): State {
    State(identifier, password, params, Wrap(p, AccountKey(p, identifier, password, params), userKey, nonce), None, [])
  }

  function SessionKey(p: Platform, s: State): Option<Bytes> {
    Unlock(p, s.identifier, s.password, s.params, s.protectedUserKey)
  }

  /** Each act unlocks afresh; recovery is refused when the code does not unwrap the
      blob or its auth hash is not the enrolled one. */
  function Do(p: Platform, s: State, a: Act): State {
    match a
    case Disable => s.(recovery := None)
    case Recover(code, password, params, nonce) =>
      if s.recovery.None? then s
      else
        (match CompleteRecovery(p, code, s.recovery.value.1.blob, s.identifier, password, params, nonce)
         case Some(reset) =>
           if reset.auth == s.recovery.value.1.auth
           then s.(password := password, params := reset.params, protectedUserKey := reset.protectedUserKey)
           else s
         case None => s)
    case _ =>
      match SessionKey(p, s)
      case None => s
      case Some(userKey) =>
        match a
        case Enroll(code, nonce) => s.(recovery := Some((code, EnrollRecovery(p, userKey, code, nonce))))
        case WriteKeyed(plaintext, r) =>
          s.(items := s.items + [Stored(EncryptItemKeyed(p, userKey, plaintext, r), plaintext)])
        case WriteLegacy(plaintext, nonce) =>
          s.(items := s.items + [Stored(EncryptItem(p, userKey, plaintext, nonce), plaintext)])
        case _ => s
  }

  function Run(p: Platform, start: State, acts: seq<Act>): State {
    if acts == [] then start else Do(p, Run(p, start, acts[..|acts| - 1]), acts[|acts| - 1])
  }

  /** Everything wraps or was encrypted under this one User Key. */
  ghost predicate Keeps(p: Platform, s: State, userKey: Bytes) {
    && (forall q: string :: Unlock(p, s.identifier, q, s.params, s.protectedUserKey)
                            == if p.nfkc(q) == p.nfkc(s.password) then Some(userKey) else None)
    && (forall c: string :: s.recovery.Some? ==>
          Unwrap(p, RecoveryKey(p, p.normalizeIdentifier(c)), s.recovery.value.1.blob)
          == if p.normalizeIdentifier(c) == p.normalizeIdentifier(s.recovery.value.0) then Some(userKey) else None)
    && (s.recovery.Some? ==> s.recovery.value.1.auth == RecoveryAuth(p, p.normalizeIdentifier(s.recovery.value.0)))
    && (forall i :: 0 <= i < |s.items| ==>
        DecryptItemKeyed(p, userKey, s.items[i].text) == Some(StripBom(s.items[i].plaintext)))
  }

  lemma WrappedByPassword(p: Platform, identifier: string, password: string, params: JValue, userKey: Bytes,
      nonce: Bytes)
    requires Ideal(p) && nonce != []
    ensures var text := Wrap(p, AccountKey(p, identifier, password, params), userKey, nonce);
            forall q: string :: Unlock(p, identifier, q, params, text)
                                == if p.nfkc(q) == p.nfkc(password) then Some(userKey) else None
  {
    var text := Wrap(p, AccountKey(p, identifier, password, params), userKey, nonce);
    forall q: string
      ensures Unlock(p, identifier, q, params, text) == if p.nfkc(q) == p.nfkc(password) then Some(userKey) else None
    {
      UnlocksExactly(p, identifier, password, params, userKey, nonce, identifier, q, params);
    }
  }

  lemma CodeUnwraps(p: Platform, code: string, c: string, userKey: Bytes, nonce: Bytes)
    requires Ideal(p) && nonce != []
    ensures Unwrap(p, RecoveryKey(p, p.normalizeIdentifier(c)), EnrollRecovery(p, userKey, code, nonce).blob)
         == if p.normalizeIdentifier(c) == p.normalizeIdentifier(code) then Some(userKey) else None
  {
    UnwrapWrapped(p, RecoveryKey(p, p.normalizeIdentifier(code)), RecoveryKey(p, p.normalizeIdentifier(c)), userKey,
                  nonce);
    RecoveryKeysDiffer(p, p.normalizeIdentifier(code), p.normalizeIdentifier(c));
  }

  lemma RecoveryKeysDiffer(p: Platform, a: string, b: string)
    requires InjectiveKeys(p)
    ensures RecoveryKey(p, a) == RecoveryKey(p, b) <==> a == b
  {
  }

  lemma WrappedByCode(p: Platform, code: string, userKey: Bytes, nonce: Bytes)
    requires Ideal(p) && nonce != []
    ensures forall c: string ::
              Unwrap(p, RecoveryKey(p, p.normalizeIdentifier(c)), EnrollRecovery(p, userKey, code, nonce).blob)
              == if p.normalizeIdentifier(c) == p.normalizeIdentifier(code) then Some(userKey) else None
  {
    forall c: string
      ensures Unwrap(p, RecoveryKey(p, p.normalizeIdentifier(c)), EnrollRecovery(p, userKey, code, nonce).blob)
              == if p.normalizeIdentifier(c) == p.normalizeIdentifier(code) then Some(userKey) else None
    {
      CodeUnwraps(p, code, c, userKey, nonce);
    }
  }

  lemma WriteKeeps(p: Platform, s: State, a: Act, userKey: Bytes)
    requires Ideal(p) && HasNonces(a) && (a.WriteKeyed? || a.WriteLegacy?)
    requires Keeps(p, s, userKey) && SessionKey(p, s) == Some(userKey)
    ensures Keeps(p, Do(p, s, a), userKey)
  {
    if a.WriteKeyed? {
      KeyedItemDecrypts(p, userKey, userKey, a.plaintext, a.random);
    } else {
      LegacyItemDecrypts(p, userKey, userKey, a.plaintext, a.nonce);
    }
  }

  lemma EnrollKeeps(p: Platform, s: State, code: string, nonce: Bytes, userKey: Bytes)
    requires Ideal(p) && nonce != [] && Keeps(p, s, userKey)
    ensures Keeps(p, Do(p, s, Enroll(code, nonce)), userKey)
  {
    assert SessionKey(p, s) == Some(userKey);
    WrappedByCode(p, code, userKey, nonce);
  }

  lemma RecoverKeeps(p: Platform, s: State, a: Act, userKey: Bytes)
    requires Ideal(p) && HasNonces(a) && a.Recover? && Keeps(p, s, userKey)
    ensures Keeps(p, Do(p, s, a), userKey)
  {
    WrappedByPassword(p, s.identifier, a.password, a.params, userKey, a.nonce);
  }

  lemma DoKeeps(p: Platform, s: State, a: Act, userKey: Bytes)
    requires Ideal(p) && HasNonces(a) && Keeps(p, s, userKey)
    ensures Keeps(p, Do(p, s, a), userKey)
  {
    match a {
      case Enroll(code, nonce) => EnrollKeeps(p, s, code, nonce, userKey);
      case Disable =>
      case Recover(_, _, _, _) => RecoverKeeps(p, s, a, userKey);
      case _ =>
        assert SessionKey(p, s) == Some(userKey);
        WriteKeeps(p, s, a, userKey);
    }
  }

  lemma RecoveryMeets(p: Platform, s: State, userKey: Bytes, code: string)
    requires Keeps(p, s, userKey) && s.recovery.Some?
    ensures Unwrap(p, RecoveryKey(p, p.normalizeIdentifier(code)), s.recovery.value.1.blob)
         == if p.normalizeIdentifier(code) == p.normalizeIdentifier(s.recovery.value.0) then Some(userKey) else None
  {
  }

  lemma ResetWith(p: Platform, s: State, userKey: Bytes, code: string, password: string, params: JValue, nonce: Bytes)
    requires s.recovery.Some?
    ensures var found := Unwrap(p, RecoveryKey(p, p.normalizeIdentifier(code)), s.recovery.value.1.blob);
            var rewrapped := Wrap(p, AccountKey(p, s.identifier, password, params), userKey, nonce);
            && (found == None ==> Do(p, s, Recover(code, password, params, nonce)) == s)
            && (found == Some(userKey) && s.recovery.value.1.auth == RecoveryAuth(p, p.normalizeIdentifier(code)) ==>
                  Do(p, s, Recover(code, password, params, nonce))
                  == s.(password := password, params := params, protectedUserKey := rewrapped))
  {
  }

  /** A recovery goes through exactly with the enrolled code, up to normalisation; then
      the new password is the one in force, and otherwise nothing changes. */
  lemma RecoveryTakesEffect(p: Platform, s: State, userKey: Bytes, code: string, password: string, params: JValue,
      nonce: Bytes)
    requires Ideal(p) && nonce != [] && Keeps(p, s, userKey)
    ensures var t := Do(p, s, Recover(code, password, params, nonce));
            if s.recovery.Some? && p.normalizeIdentifier(code) == p.normalizeIdentifier(s.recovery.value.0)
            then && t == s.(password := password, params := params, protectedUserKey := t.protectedUserKey)
                 && Unlock(p, s.identifier, password, params, t.protectedUserKey) == Some(userKey)
            else t == s
  {
    if s.recovery.Some? {
      RecoveryMeets(p, s, userKey, code);
      ResetWith(p, s, userKey, code, password, params, nonce);
    }
    UnlocksExactly(p, s.identifier, password, params, userKey, nonce, s.identifier, password, params);
  }

  /** An unlocked session enrols the code and writes the item it is asked to. */
  lemma SessionTakesEffect(p: Platform, s: State, userKey: Bytes, a: Act)
    requires Ideal(p) && Keeps(p, s, userKey) && !a.Recover?
    ensures var t := Do(p, s, a);
            match a
            case Enroll(code, _) => t.recovery.Some? && t.recovery.value.0 == code && t.(recovery := s.recovery) == s
            case Disable => t == s.(recovery := None)
            case WriteKeyed(text, _) => |t.items| == |s.items| + 1 && t.items[|s.items|].plaintext == text
                                        && t.items[..|s.items|] == s.items && t.(items := s.items) == s
            case WriteLegacy(text, _) => |t.items| == |s.items| + 1 && t.items[|s.items|].plaintext == text
                                         && t.items[..|s.items|] == s.items && t.(items := s.items) == s
            case Recover(_, _, _, _) => true
  {
    assert SessionKey(p, s) == Some(userKey);
  }

  /** Any number of enrolments, recoveries and writes: the current password, and no
      password that normalises differently, unlocks the User Key made at
      registration; the enrolled code recovers it; every item ever written decrypts. */
  lemma {:induction false} UserKeyNeverChanges(p: Platform, identifier: string, password: string, params: JValue,
                                               userKey: Bytes, nonce: Bytes, acts: seq<Act>)
    requires Ideal(p) && nonce != [] && forall a :: a in acts ==> HasNonces(a)
    ensures Keeps(p, Run(p, Register(p, identifier, password, params, userKey, nonce), acts), userKey)
  {
    var start := Register(p, identifier, password, params, userKey, nonce);
    if acts == [] {
      WrappedByPassword(p, identifier, password, params, userKey, nonce);
    } else {
      UserKeyNeverChanges(p, identifier, password, params, userKey, nonce, acts[..|acts| - 1]);
      DoKeeps(p, Run(p, start, acts[..|acts| - 1]), acts[|acts| - 1], userKey);
    }
  }
}
