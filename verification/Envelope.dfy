/** Associated data, key envelopes and sealed entries over an arbitrary AEAD. */
module Envelope {
  import opened Common
  import opened Bytes
  import opened Framing
  import opened ManifestModel
  import opened SnapshotCheck

  datatype Box = Box(nonce: seq<byte>, ciphertext: seq<byte>, tag: seq<byte>)

  /** What the modules above use of the cryptographic library. */
  datatype Crypto = Crypto(
    hash: seq<byte> -> Digest,
    seal: (seq<byte>, seq<byte>, seq<byte>, seq<byte>) -> Box,       // key, nonce, AAD, plaintext
    open: (seq<byte>, Box, seq<byte>) -> Option<seq<byte>>)          // key, box, AAD

  /** The ideal guarantee for one box: it opens under its own key and AAD, and under nothing else. */
  ghost predicate OpensOnlyAs(c: Crypto, box: Box, key: seq<byte>, aad: seq<byte>, plaintext: seq<byte>) {
    forall k, a :: c.open(k, box, a) == if k == key && a == aad then Some(plaintext) else None
  }

  predicate IsKey(k: seq<byte>) {
    |k| == KEY_BYTES
  }

  function EncodeAad(heading: seq<byte>, fields: seq<seq<byte>>): seq<byte>
    requires Fits(Short, [heading] + fields)
  {
    Framed(Short, [heading] + fields)
  }

  /** AAD of one purpose determines its fields. */
  lemma AadInjective(heading: seq<byte>, a: seq<seq<byte>>, b: seq<seq<byte>>)
    requires Fits(Short, [heading] + a) && Fits(Short, [heading] + b)
    requires EncodeAad(heading, a) == EncodeAad(heading, b)
    ensures a == b
  {
    FramedInjective(Short, [heading] + a, [heading] + b);
    assert ([heading] + a)[1..] == a && ([heading] + b)[1..] == b;
  }

  // ---- Key envelopes ----

  datatype EnvelopeFields = EnvelopeFields(
    vaultId: seq<byte>, kind: EnvelopeType, cryptoVersion: int, vaultKeyVersion: int,
    deviceId: seq<byte>, deviceKeyVersion: int, kdf: Option<Kdf>)

  /** resolveFields: the shape rules of one envelope kind, the same on write and on read. */
  function ResolveFields(
    vaultId: seq<byte>, kind: EnvelopeType, cryptoVersion: int, vaultKeyVersion: int,
    deviceId: Option<seq<byte>>, deviceKeyVersion: Option<int>, kdf: Option<Kdf>, allowTestProfile: bool)
    : (r: Result<EnvelopeFields>)
    ensures r.Ok? ==> FieldsOk(r.value) && r.value.vaultId == vaultId && r.value.kind == kind
    ensures r.Ok? ==> r.value.vaultKeyVersion == vaultKeyVersion && r.value.kdf == kdf
    ensures r.Ok? && kind == Device ==>
      Some(r.value.deviceId) == deviceId && Some(r.value.deviceKeyVersion) == deviceKeyVersion
    ensures r.Err? ==> r.error == Protocol
  {
    if !IsId(vaultId) || cryptoVersion != CRYPTO_PROTOCOL_VERSION || !IsVersion(vaultKeyVersion) then Err(Protocol)
    else if kind == Device && (deviceId.None? || !IsId(deviceId.value)
                               || deviceKeyVersion.None? || !IsVersion(deviceKeyVersion.value)) then Err(Protocol)
    else if kind != Device && ((deviceId.Some? && deviceId.value != []) || deviceKeyVersion.Some?) then Err(Protocol)
    else if (if kind == Master then kdf.None? || !KdfOk(kdf.value, allowTestProfile) else kdf.Some?) then Err(Protocol)
    else Ok(EnvelopeFields(
      vaultId, kind, cryptoVersion, vaultKeyVersion,
      if kind == Device then deviceId.value else [], if kind == Device then deviceKeyVersion.value else 0, kdf))
  }

  predicate FieldsOk(f: EnvelopeFields) {
    && IsId(f.vaultId) && f.cryptoVersion == CRYPTO_PROTOCOL_VERSION && IsVersion(f.vaultKeyVersion)
    && (if f.kind == Device then IsId(f.deviceId) && IsVersion(f.deviceKeyVersion)
        else f.deviceId == [] && f.deviceKeyVersion == 0)
    && (if f.kind == Master then f.kdf.Some? && KdfOk(f.kdf.value, true) else f.kdf.None?)
  }

  const ENVELOPE_AAD_LABEL := Ascii("4allpass-envelope-v1")

  function EnvelopeAadFields(kdfDigest: seq<byte>, f: EnvelopeFields): seq<seq<byte>>
    requires FieldsOk(f)
  {
    [f.vaultId, TypeName(f.kind)] + Numbers([f.cryptoVersion, f.vaultKeyVersion])
    + [f.deviceId] + Numbers([f.deviceKeyVersion]) + [kdfDigest]
  }

  lemma EnvelopeAadFits(heading: seq<byte>, kdfDigest: seq<byte>, f: EnvelopeFields)
    requires FieldsOk(f) && |heading| <= 100 && |kdfDigest| <= 32
    ensures Fits(Short, [heading] + EnvelopeAadFields(kdfDigest, f))
  {
    TypeNamesPlain(f.kind);
  }

  function EnvelopeAad(c: Crypto, f: EnvelopeFields): seq<byte>
    requires FieldsOk(f)
  {
    var kdfDigest := KdfDigest(c.hash, f.kdf);
    EnvelopeAadFits(ENVELOPE_AAD_LABEL, kdfDigest, f);
    EncodeAad(ENVELOPE_AAD_LABEL, EnvelopeAadFields(kdfDigest, f))
  }

  function WrapVaultKey(
    c: Crypto, nonce: seq<byte>, vaultKey: seq<byte>, wrappingKey: seq<byte>,
    vaultId: seq<byte>, kind: EnvelopeType, cryptoVersion: int, vaultKeyVersion: int,
    deviceId: Option<seq<byte>>, deviceKeyVersion: Option<int>, kdf: Option<Kdf>): Result<KeyEnvelope>
  {
    if !IsKey(vaultKey) || !IsKey(wrappingKey) then Err(Protocol)
    else
      var f :- ResolveFields(vaultId, kind, cryptoVersion, vaultKeyVersion, deviceId, deviceKeyVersion, kdf, false);
      var box := c.seal(wrappingKey, nonce, EnvelopeAad(c, f), vaultKey);
      Ok(KeyEnvelope(
        f.cryptoVersion, f.kind, f.vaultKeyVersion, f.kdf,
        if f.kind == Device then Some(f.deviceId) else None,
        if f.kind == Device then Some(f.deviceKeyVersion) else None,
        "AES-256-GCM", box.nonce, box.ciphertext, box.tag))
  }

  /** What the caller of unwrapVaultKey says it is opening. */
  datatype Expected = Expected(
    vaultId: seq<byte>, kind: EnvelopeType, vaultKeyVersion: int,
    deviceId: Option<seq<byte>>, deviceKeyVersion: Option<int>)

  function BoxOf(v: KeyEnvelope): Box {
    Box(v.nonce, v.ciphertext, v.tag)
  }

  function UnwrapVaultKey(c: Crypto, v: KeyEnvelope, wrappingKey: seq<byte>, want: Expected): Result<seq<byte>> {
    if v.encryption != "AES-256-GCM" || !IsKey(wrappingKey) then Err(Protocol)
    else if |v.nonce| != NONCE_BYTES || |v.tag| != TAG_BYTES || |v.ciphertext| != KEY_BYTES then Err(AuthFailure)
    else
      var f :- ResolveFields(want.vaultId, v.kind, v.version, v.vaultKeyVersion, v.deviceId, v.deviceKeyVersion, v.kdf,
        false);
      if want.kind != f.kind then Err(Integrity)
      else if !IsVersion(want.vaultKeyVersion) then Err(Protocol)
      else if want.vaultKeyVersion != f.vaultKeyVersion then Err(Integrity)
      else if f.kind == Device && (want.deviceId.None? || !IsId(want.deviceId.value)) then Err(Protocol)
      else if f.kind == Device && want.deviceId.value != f.deviceId then Err(Integrity)
      else if f.kind == Device
              && (want.deviceKeyVersion.None? || !IsVersion(want.deviceKeyVersion.value)) then Err(Protocol)
      else if f.kind == Device && want.deviceKeyVersion.value != f.deviceKeyVersion then Err(Integrity)
      else
        match c.open(wrappingKey, BoxOf(v), EnvelopeAad(c, f))
        case None => Err(AuthFailure)
        case Some(vk) => if IsKey(vk) then Ok(vk) else Err(Protocol)
  }

  /** The box of an envelope behaves ideally. */
  ghost predicate IdealEnvelope(c: Crypto, v: KeyEnvelope, wrappingKey: seq<byte>, f: EnvelopeFields,
      vaultKey: seq<byte>)
    requires FieldsOk(f)
  {
    && |v.nonce| == NONCE_BYTES && |v.tag| == TAG_BYTES && |v.ciphertext| == KEY_BYTES
    && OpensOnlyAs(c, BoxOf(v), wrappingKey, EnvelopeAad(c, f), vaultKey)
  }

  predicate Wants(want: Expected, f: EnvelopeFields) {
    && want.vaultId == f.vaultId && want.kind == f.kind && want.vaultKeyVersion == f.vaultKeyVersion
    && (f.kind == Device ==> want.deviceId == Some(f.deviceId) && want.deviceKeyVersion == Some(f.deviceKeyVersion))
  }

  lemma EnvelopeAadDeterminesVault(c: Crypto, f: EnvelopeFields, g: EnvelopeFields)
    requires FieldsOk(f) && FieldsOk(g) && EnvelopeAad(c, f) == EnvelopeAad(c, g)
    ensures f.vaultId == g.vaultId
  {
    var df, dg := KdfDigest(c.hash, f.kdf), KdfDigest(c.hash, g.kdf);
    EnvelopeAadFits(ENVELOPE_AAD_LABEL, df, f);
    EnvelopeAadFits(ENVELOPE_AAD_LABEL, dg, g);
    AadInjective(ENVELOPE_AAD_LABEL, EnvelopeAadFields(df, f), EnvelopeAadFields(dg, g));
    assert EnvelopeAadFields(df, f)[0] == f.vaultId && EnvelopeAadFields(dg, g)[0] == g.vaultId;
  }

  /**
   * A wrapped vault key opens with its own wrapping key for its own vault, kind, device and generations, and is refused
   * otherwise.
   */
  lemma EnvelopeOpensExactlyAsWrapped(
    c: Crypto, nonce: seq<byte>, vaultKey: seq<byte>, wrappingKey: seq<byte>, vaultId: seq<byte>, kind: EnvelopeType,
    vaultKeyVersion: int, deviceId: Option<seq<byte>>, deviceKeyVersion: Option<int>, kdf: Option<Kdf>,
    v: KeyEnvelope, f: EnvelopeFields, key: seq<byte>, want: Expected)
    requires WrapVaultKey(c, nonce, vaultKey, wrappingKey, vaultId, kind, CRYPTO_PROTOCOL_VERSION, vaultKeyVersion,
               deviceId, deviceKeyVersion, kdf) == Ok(v)
    requires ResolveFields(vaultId, kind, CRYPTO_PROTOCOL_VERSION, vaultKeyVersion, deviceId, deviceKeyVersion, kdf,
               false) == Ok(f)
    requires IdealEnvelope(c, v, wrappingKey, f, vaultKey)
    ensures UnwrapVaultKey(c, v, key, want).Ok? <==> key == wrappingKey && Wants(want, f)
    ensures UnwrapVaultKey(c, v, key, want).Ok? ==> UnwrapVaultKey(c, v, key, want).value == vaultKey
  {
    hide EnvelopeAad, KdfOk, IsId;
    var again := ResolveFields(want.vaultId, v.kind, v.version, v.vaultKeyVersion, v.deviceId, v.deviceKeyVersion,
      v.kdf, false);
    if again.Ok? && EnvelopeAad(c, again.value) == EnvelopeAad(c, f) {
      EnvelopeAadDeterminesVault(c, again.value, f);
    }
  }

  // ---- Entries ----

  const ENTRY_AAD_LABEL := Ascii("4allpass-entry-v1")

  function EntryAadFields(vaultId: seq<byte>, e: EncryptedEntry): seq<seq<byte>>
    requires IsVersion(e.schemaVersion) && IsVersion(e.cryptoVersion) && IsVersion(e.vaultKeyVersion)
  {
    [vaultId, e.id] + Numbers([e.schemaVersion, e.cryptoVersion, e.vaultKeyVersion])
  }

  lemma EntryAadFits(heading: seq<byte>, vaultId: seq<byte>, e: EncryptedEntry)
    requires IsVersion(e.schemaVersion) && IsVersion(e.cryptoVersion) && IsVersion(e.vaultKeyVersion)
    requires |heading| <= 100 && IsId(vaultId) && IsId(e.id)
    ensures Fits(Short, [heading] + EntryAadFields(vaultId, e))
  {
  }

  function EntryAad(vaultId: seq<byte>, e: EncryptedEntry): seq<byte>
    requires IsVersion(e.schemaVersion) && IsVersion(e.cryptoVersion) && IsVersion(e.vaultKeyVersion)
    requires IsId(vaultId) && IsId(e.id)
  {
    EntryAadFits(ENTRY_AAD_LABEL, vaultId, e);
    EncodeAad(ENTRY_AAD_LABEL, EntryAadFields(vaultId, e))
  }

  const ENTRY_SCHEMA_VERSION := 1

  function EncryptEntry(
    c: Crypto, nonce: seq<byte>, vaultKey: seq<byte>, vaultId: seq<byte>, entryId: seq<byte>, plaintext: seq<byte>,
    vaultKeyVersion: int, schemaVersion: int): (r: Result<EncryptedEntry>)
    ensures r.Ok? ==> r.value.id == entryId && r.value.vaultKeyVersion == vaultKeyVersion
    ensures r.Ok? ==>
      r.value.cryptoVersion == CRYPTO_PROTOCOL_VERSION && IsVersion(r.value.schemaVersion) && IsId(entryId)
  {
    if !IsKey(vaultKey) || !IsId(vaultId) || !IsId(entryId) || !IsVersion(schemaVersion) || !IsVersion(vaultKeyVersion)
    then Err(Protocol)
    else
      var blank := EncryptedEntry(entryId, schemaVersion, CRYPTO_PROTOCOL_VERSION, vaultKeyVersion, [], [], []);
      var box := c.seal(vaultKey, nonce, EntryAad(vaultId, blank), plaintext);
      Ok(blank.(nonce := box.nonce, ciphertext := box.ciphertext, tag := box.tag))
  }

  function DecryptEntry(
    c: Crypto, e: EncryptedEntry, vaultKey: seq<byte>, vaultId: seq<byte>, entryId: seq<byte>, vaultKeyVersion: int)
    : Result<seq<byte>>
  {
    if !IsKey(vaultKey) then Err(Protocol)
    else if |e.nonce| != NONCE_BYTES || |e.tag| != TAG_BYTES then Err(AuthFailure)
    else if e.cryptoVersion != CRYPTO_PROTOCOL_VERSION || !IsId(vaultId) || !IsId(e.id)
            || !IsVersion(e.schemaVersion) || !IsVersion(e.vaultKeyVersion) || !IsId(entryId) then Err(Protocol)
    else if entryId != e.id then Err(Integrity)
    else if !IsVersion(vaultKeyVersion) then Err(Protocol)
    else if vaultKeyVersion != e.vaultKeyVersion then Err(Integrity)
    else
      match c.open(vaultKey, Box(e.nonce, e.ciphertext, e.tag), EntryAad(vaultId, e))
      case None => Err(AuthFailure)
      case Some(plaintext) => Ok(plaintext)
  }

  /** The box of a sealed entry behaves ideally. */
  ghost predicate IdealEntry(c: Crypto, e: EncryptedEntry, vaultKey: seq<byte>, vaultId: seq<byte>,
      plaintext: seq<byte>) {
    && IsId(vaultId) && EntryNormal(e) && |e.ciphertext| <= U32_MAX
    && OpensOnlyAs(c, Box(e.nonce, e.ciphertext, e.tag), vaultKey, EntryAad(vaultId, e), plaintext)
  }

  lemma EntryAadInjective(vaultId: seq<byte>, otherId: seq<byte>, e: EncryptedEntry)
    requires IsVersion(e.schemaVersion) && IsVersion(e.cryptoVersion) && IsVersion(e.vaultKeyVersion) && IsId(e.id)
    requires IsId(vaultId) && IsId(otherId) && EntryAad(vaultId, e) == EntryAad(otherId, e)
    ensures vaultId == otherId
  {
    EntryAadFits(ENTRY_AAD_LABEL, vaultId, e);
    EntryAadFits(ENTRY_AAD_LABEL, otherId, e);
    AadInjective(ENTRY_AAD_LABEL, EntryAadFields(vaultId, e), EntryAadFields(otherId, e));
    assert EntryAadFields(vaultId, e)[0] == vaultId && EntryAadFields(otherId, e)[0] == otherId;
  }

  /** A sealed entry opens for its own key, vault, slot and key generation, and is refused everywhere else. */
  lemma EntryOpensExactlyAsSealed(
    c: Crypto, nonce: seq<byte>, vaultKey: seq<byte>, vaultId: seq<byte>, entryId: seq<byte>, plaintext: seq<byte>,
    vaultKeyVersion: int, schemaVersion: int, e: EncryptedEntry,
    key: seq<byte>, inVault: seq<byte>, asEntry: seq<byte>, generation: int)
    requires EncryptEntry(c, nonce, vaultKey, vaultId, entryId, plaintext, vaultKeyVersion, schemaVersion) == Ok(e)
    requires IdealEntry(c, e, vaultKey, vaultId, plaintext)
    ensures var r := DecryptEntry(c, e, key, inVault, asEntry, generation);
      && (r.Ok? <==> key == vaultKey && inVault == vaultId && asEntry == entryId && generation == vaultKeyVersion)
      && (r.Ok? ==> r.value == plaintext)
  {
    if IsId(inVault) && EntryAad(inVault, e) == EntryAad(vaultId, e) {
      EntryAadInjective(inVault, vaultId, e);
    }
  }
}
