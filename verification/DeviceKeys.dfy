/** PRF output -> device wrapping key -> device key -> vault key, on buffers that are wiped on every exit. */
module DeviceKeys {
  import opened Common
  import opened Bytes
  import opened Framing
  import opened ManifestModel
  import opened SnapshotCheck
  import opened Envelope

  datatype Primitives = Primitives(crypto: Crypto, hkdf: (seq<byte>, seq<byte>, seq<byte>) -> Digest)

  /** Everything a device binding is for, and everything an unlock states it expects. */
  datatype Identity = Identity(
    rpId: seq<byte>, vaultId: seq<byte>, deviceId: seq<byte>, credentialId: seq<byte>,
    deviceKeyVersion: int, vaultKeyVersion: int)

  datatype DeviceKeyEnvelope = DeviceKeyEnvelope(
    version: int, vaultId: seq<byte>, deviceId: seq<byte>, credentialId: seq<byte>, deviceKeyVersion: int,
    encryption: string, box: Box)

  datatype DeviceBinding = DeviceBinding(deviceKeyEnvelope: DeviceKeyEnvelope, deviceEnvelope: KeyEnvelope)

  predicate IsCredentialId(s: seq<byte>) {
    16 <= |s| <= 1023
  }

  predicate IdsOk(vaultId: seq<byte>, deviceId: seq<byte>, credentialId: seq<byte>) {
    IsId(vaultId) && IsId(deviceId) && IsCredentialId(credentialId)
  }

  predicate AllZero(s: seq<byte>) {
    forall i :: 0 <= i < |s| ==> s[i] == 0
  }

  // ---- deriveDeviceWrappingKey ----

  const DWK_SALT_LABEL := Ascii("4allpass-dwk-salt-v1")
  const DWK_INFO_LABEL := Ascii("4allpass-device-wrap-v1")
  const DEVICE_KEY_AAD_LABEL := Ascii("4allpass-device-key-v1")

  function InfoFields(id: Identity): seq<seq<byte>> {
    [id.rpId, id.vaultId, id.deviceId, id.credentialId] + Numbers([CRYPTO_PROTOCOL_VERSION])
  }

  lemma InfoFits(heading: seq<byte>, id: Identity)
    requires |heading| <= 100 && IsId(id.rpId) && IdsOk(id.vaultId, id.deviceId, id.credentialId)
    ensures Fits(Short, [heading] + InfoFields(id)) && Fits(Short, [heading] + [id.vaultId, id.credentialId])
  {
  }

  function DwkInfo(id: Identity): seq<byte>
    requires IsId(id.rpId) && IdsOk(id.vaultId, id.deviceId, id.credentialId)
  {
    InfoFits(DWK_INFO_LABEL, id);
    EncodeAad(DWK_INFO_LABEL, InfoFields(id))
  }

  function DwkSalt(p: Primitives, id: Identity): seq<byte>
    requires IsId(id.rpId) && IdsOk(id.vaultId, id.deviceId, id.credentialId)
  {
    InfoFits(DWK_SALT_LABEL, id);
    p.crypto.hash(EncodeAad(DWK_SALT_LABEL, [id.vaultId, id.credentialId]))
  }

  function DeriveDwk(p: Primitives, prfOutput: seq<byte>, id: Identity, cryptoVersion: int): Result<seq<byte>> {
    if |prfOutput| != KEY_BYTES || AllZero(prfOutput) || !IsId(id.rpId)
       || !IdsOk(id.vaultId, id.deviceId, id.credentialId)
       || cryptoVersion != CRYPTO_PROTOCOL_VERSION then Err(Protocol)
    else Ok(p.hkdf(prfOutput, DwkSalt(p, id), DwkInfo(id)))
  }

  // ---- wrapDeviceKey and unwrapDeviceKey ----

  function DeviceKeyAadFields(vaultId: seq<byte>, deviceId: seq<byte>, credentialId: seq<byte>, deviceKeyVersion: int)
    : seq<seq<byte>>
    requires IsVersion(deviceKeyVersion)
  {
    [vaultId, deviceId, credentialId] + Numbers([CRYPTO_PROTOCOL_VERSION, deviceKeyVersion])
  }

  lemma DeviceKeyAadFits(
    heading: seq<byte>, vaultId: seq<byte>, deviceId: seq<byte>, credentialId: seq<byte>, deviceKeyVersion: int)
    requires |heading| <= 100 && IdsOk(vaultId, deviceId, credentialId) && IsVersion(deviceKeyVersion)
    ensures Fits(Short, [heading] + DeviceKeyAadFields(vaultId, deviceId, credentialId, deviceKeyVersion))
  {
  }

  function DeviceKeyAad(vaultId: seq<byte>, deviceId: seq<byte>, credentialId: seq<byte>,
      deviceKeyVersion: int): seq<byte>
    requires IdsOk(vaultId, deviceId, credentialId) && IsVersion(deviceKeyVersion)
  {
    DeviceKeyAadFits(DEVICE_KEY_AAD_LABEL, vaultId, deviceId, credentialId, deviceKeyVersion);
    EncodeAad(DEVICE_KEY_AAD_LABEL, DeviceKeyAadFields(vaultId, deviceId, credentialId, deviceKeyVersion))
  }

  function WrapDeviceKey(
    p: Primitives, nonce: seq<byte>, deviceKey: seq<byte>, dwk: seq<byte>, id: Identity, cryptoVersion: int)
    : Result<DeviceKeyEnvelope>
  {
    if !IsKey(deviceKey) || !IsKey(dwk) || cryptoVersion != CRYPTO_PROTOCOL_VERSION
       || !IdsOk(id.vaultId, id.deviceId, id.credentialId) || !IsVersion(id.deviceKeyVersion) then Err(Protocol)
    else
      var aad := DeviceKeyAad(id.vaultId, id.deviceId, id.credentialId, id.deviceKeyVersion);
      Ok(DeviceKeyEnvelope(
        cryptoVersion, id.vaultId, id.deviceId, id.credentialId, id.deviceKeyVersion, "AES-256-GCM",
        p.crypto.seal(dwk, nonce, aad, deviceKey)))
  }

  function UnwrapDeviceKey(p: Primitives, v: DeviceKeyEnvelope, dwk: seq<byte>, id: Identity): Result<seq<byte>> {
    if v.encryption != "AES-256-GCM" || !IsKey(dwk) then Err(Protocol)
    else if |v.box.nonce| != NONCE_BYTES || |v.box.tag| != TAG_BYTES
            || |v.box.ciphertext| != KEY_BYTES then Err(AuthFailure)
    else if v.version != CRYPTO_PROTOCOL_VERSION || !IdsOk(v.vaultId, v.deviceId, v.credentialId)
            || !IsVersion(v.deviceKeyVersion) || !IsId(id.vaultId) then Err(Protocol)
    else if id.vaultId != v.vaultId then Err(Integrity)
    else if !IsId(id.deviceId) then Err(Protocol)
    else if id.deviceId != v.deviceId then Err(Integrity)
    else if !IsCredentialId(id.credentialId) then Err(Protocol)
    else if id.credentialId != v.credentialId then Err(Integrity)
    else if !IsVersion(id.deviceKeyVersion) then Err(Protocol)
    else if id.deviceKeyVersion != v.deviceKeyVersion then Err(Integrity)
    else
      match p.crypto.open(dwk, v.box, DeviceKeyAad(v.vaultId, v.deviceId, v.credentialId, v.deviceKeyVersion))
      case None => Err(AuthFailure)
      case Some(dk) => if IsKey(dk) then Ok(dk) else Err(Protocol)
  }

  // ---- Binding and unlocking as functions of the buffers' contents ----

  /** The random choices of one binding. */
  datatype Coins = Coins(deviceKey: seq<byte>, nonce0: seq<byte>, nonce1: seq<byte>)

  function Bind(p: Primitives, coins: Coins, dwk: seq<byte>, vaultKey: seq<byte>, id: Identity, cryptoVersion: int)
    : Result<DeviceBinding>
  {
    if !IsKey(vaultKey) then Err(Protocol)
    else
      var inner :- WrapDeviceKey(p, coins.nonce0, coins.deviceKey, dwk, id, cryptoVersion);
      var outer :- WrapVaultKey(
        p.crypto, coins.nonce1, vaultKey, coins.deviceKey, id.vaultId, Device, cryptoVersion, id.vaultKeyVersion,
        Some(id.deviceId), Some(id.deviceKeyVersion), None);
      Ok(DeviceBinding(inner, outer))
  }

  function BindWithPrf(
    p: Primitives, coins: Coins, prfOutput: seq<byte>, vaultKey: seq<byte>, id: Identity, cryptoVersion: int)
    : Result<DeviceBinding>
  {
    var dwk :- DeriveDwk(p, prfOutput, id, cryptoVersion);
    Bind(p, coins, dwk, vaultKey, id, cryptoVersion)
  }

  predicate ExpectationsOk(id: Identity) {
    IdsOk(id.vaultId, id.deviceId, id.credentialId) && IsVersion(id.deviceKeyVersion) && IsVersion(id.vaultKeyVersion)
  }

  function WantedEnvelope(id: Identity): Expected {
    Expected(id.vaultId, Device, id.vaultKeyVersion, Some(id.deviceId), Some(id.deviceKeyVersion))
  }

  function OpenEnvelopes(p: Primitives, b: DeviceBinding, dwk: seq<byte>, id: Identity): Result<seq<byte>> {
    var dk :- UnwrapDeviceKey(p, b.deviceKeyEnvelope, dwk, id);
    UnwrapVaultKey(p.crypto, b.deviceEnvelope, dk, WantedEnvelope(id))
  }

  function UnlockWithPrf(p: Primitives, b: DeviceBinding, prfOutput: seq<byte>, id: Identity, cryptoVersion: int)
    : Result<seq<byte>>
  {
    if !ExpectationsOk(id) then Err(Protocol)
    else
      var dwk :- DeriveDwk(p, prfOutput, id, cryptoVersion);
      OpenEnvelopes(p, b, dwk, id)
  }

  function UnlockWithWrappingKey(p: Primitives, b: DeviceBinding, dwk: seq<byte>, id: Identity): Result<seq<byte>> {
    if !ExpectationsOk(id) then Err(Protocol) else OpenEnvelopes(p, b, dwk, id)
  }

  // ---- A binding opens for its own identity and PRF output, and for no other ----

  /** The HKDF tells the two derivations apart. */
  ghost predicate DistinctDerivations(p: Primitives, prf0: seq<byte>, id0: Identity, prf1: seq<byte>, id1: Identity) {
    IsId(id0.rpId) && IsId(id1.rpId)
    && IdsOk(id0.vaultId, id0.deviceId, id0.credentialId) && IdsOk(id1.vaultId, id1.deviceId, id1.credentialId)
    && p.hkdf(prf0, DwkSalt(p, id0), DwkInfo(id0)) == p.hkdf(prf1, DwkSalt(p, id1), DwkInfo(id1))
    ==> prf0 == prf1 && DwkInfo(id0) == DwkInfo(id1)
  }

  lemma InfoDeterminesRp(a: Identity, b: Identity)
    requires IsId(a.rpId) && IsId(b.rpId)
    requires IdsOk(a.vaultId, a.deviceId, a.credentialId) && IdsOk(b.vaultId, b.deviceId, b.credentialId)
    requires DwkInfo(a) == DwkInfo(b)
    ensures a.rpId == b.rpId
  {
    InfoFits(DWK_INFO_LABEL, a);
    InfoFits(DWK_INFO_LABEL, b);
    AadInjective(DWK_INFO_LABEL, InfoFields(a), InfoFields(b));
    assert InfoFields(a)[0] == a.rpId && InfoFields(b)[0] == b.rpId;
  }

  /** The two boxes of a binding behave ideally. */
  ghost predicate IdealBoxes(p: Primitives, coins: Coins, b: DeviceBinding, dwk: seq<byte>, vaultKey: seq<byte>,
      id: Identity) {
    && ExpectationsOk(id)
    && |b.deviceKeyEnvelope.box.nonce| == NONCE_BYTES && |b.deviceKeyEnvelope.box.tag| == TAG_BYTES
    && |b.deviceKeyEnvelope.box.ciphertext| == KEY_BYTES
    && |b.deviceEnvelope.nonce| == NONCE_BYTES && |b.deviceEnvelope.tag| == TAG_BYTES
    && |b.deviceEnvelope.ciphertext| == KEY_BYTES
    && OpensOnlyAs(p.crypto, b.deviceKeyEnvelope.box, dwk,
         DeviceKeyAad(id.vaultId, id.deviceId, id.credentialId, id.deviceKeyVersion), coins.deviceKey)
    && OpensOnlyAs(p.crypto, BoxOf(b.deviceEnvelope), coins.deviceKey,
         EnvelopeAad(p.crypto, DeviceFields(id)), vaultKey)
  }

  function DeviceFields(id: Identity): (f: EnvelopeFields)
    requires ExpectationsOk(id)
    ensures FieldsOk(f)
  {
    EnvelopeFields(id.vaultId, Device, CRYPTO_PROTOCOL_VERSION, id.vaultKeyVersion, id.deviceId, id.deviceKeyVersion,
      None)
  }

  lemma OpenEnvelopesExact(
    p: Primitives, coins: Coins, b: DeviceBinding, dwk: seq<byte>, vaultKey: seq<byte>, id: Identity,
    other: seq<byte>, want: Identity)
    requires Bind(p, coins, dwk, vaultKey, id, CRYPTO_PROTOCOL_VERSION) == Ok(b)
    requires IdealBoxes(p, coins, b, dwk, vaultKey, id) && ExpectationsOk(want) && IsKey(other)
    ensures OpenEnvelopes(p, b, other, want).Ok? <==> other == dwk && want == id.(rpId := want.rpId)
    ensures OpenEnvelopes(p, b, other, want).Ok? ==> OpenEnvelopes(p, b, other, want).value == vaultKey
  {
  }

  lemma UnlockExactlyForTheBoundIdentity(
    p: Primitives, coins: Coins, prfOutput: seq<byte>, vaultKey: seq<byte>, id: Identity, b: DeviceBinding,
    otherPrf: seq<byte>, want: Identity)
    requires BindWithPrf(p, coins, prfOutput, vaultKey, id, CRYPTO_PROTOCOL_VERSION) == Ok(b)
    requires IdealBoxes(p, coins, b, DeriveDwk(p, prfOutput, id, CRYPTO_PROTOCOL_VERSION).value, vaultKey, id)
    requires DistinctDerivations(p, prfOutput, id, otherPrf, want)
    ensures UnlockWithPrf(p, b, otherPrf, want, CRYPTO_PROTOCOL_VERSION).Ok? <==> otherPrf == prfOutput && want == id
    ensures UnlockWithPrf(p, b, prfOutput, id, CRYPTO_PROTOCOL_VERSION) == Ok(vaultKey)
  {
    var dwk := DeriveDwk(p, prfOutput, id, CRYPTO_PROTOCOL_VERSION).value;
    OpenEnvelopesExact(p, coins, b, dwk, vaultKey, id, dwk, id);
    var derived := DeriveDwk(p, otherPrf, want, CRYPTO_PROTOCOL_VERSION);
    if ExpectationsOk(want) && derived.Ok? {
      OpenEnvelopesExact(p, coins, b, dwk, vaultKey, id, derived.value, want);
      if derived.value == dwk {
        InfoDeterminesRp(id, want);
      }
    }
  }
}
