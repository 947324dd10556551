/** Replacing the printed recovery key: a trusted one under the same vault key, a stolen one together with it. */
module KitRotations {
  import opened Common
  import opened Bytes
  import opened ManifestModel
  import opened SnapshotCheck
  import opened Envelope
  import opened DeviceKeys
  import opened SealedManifests
  import opened Sessions
  import opened RecoveryKit

  type Hkdf = (seq<byte>, seq<byte>, seq<byte>) -> Digest

  function Prims(lib: Library, hkdf: Hkdf): Primitives {
    Primitives(lib.crypto, hkdf)
  }

  // ---- replaceTrustedRecoveryKey ----

  function Replaced(vs: seq<KeyEnvelope>, kit: KeyEnvelope): seq<KeyEnvelope> {
    seq(|vs|, i requires 0 <= i < |vs| => if vs[i].kind == Recovery then kit else vs[i])
  }

  /** The old print must open the key in use, and the new one must differ. */
  function NewKit(lib: Library, hkdf: Hkdf, nonces: Nonces, view: View, vaultKey: seq<byte>, oldKey: seq<byte>,
      newKey: seq<byte>)
    : Result<KeyEnvelope>
  {
    match FirstOfKind(view.envelopes, Recovery)
    case None => Err(Other)
    case Some(current) =>
      var oldWrap :- DeriveRecoveryWrappingKey(Prims(lib, hkdf), oldKey, view.vaultId);
      var _ :- Confirmed(lib, view, vaultKey, current, oldWrap);
      WrapRecoveryEnvelope(Prims(lib, hkdf), nonces.envelope(0), TrustedReplacement, vaultKey, newKey, view.vaultId,
        view.vaultKeyVersion, Some(view.vaultKeyVersion), Some(oldKey))
  }

  function TrustedPayload(
    lib: Library, hkdf: Hkdf, nonces: Nonces, view: View, vaultKey: seq<byte>, oldKey: seq<byte>, newKey: seq<byte>)
    : Result<Payload>
  {
    var kit :- NewKit(lib, hkdf, nonces, view, vaultKey, oldKey, newKey);
    CommitPayload(lib, nonces, view, view.entries, Replaced(view.envelopes, kit), vaultKey, view.vaultKeyVersion)
  }

  /** The print opens the envelope: it unwraps some vault key of that generation. */
  predicate Opens(lib: Library, hkdf: Hkdf, v: KeyEnvelope, kitKey: seq<byte>, vaultId: seq<byte>, generation: int) {
    var wrap := DeriveRecoveryWrappingKey(Prims(lib, hkdf), kitKey, vaultId);
    wrap.Ok? && UnwrapVaultKey(lib.crypto, v, wrap.value, Expected(vaultId, Recovery, generation, None, None)).Ok?
  }

  /** The box of a kit envelope behaves ideally, and the key derivation tells the two prints apart. */
  ghost predicate IdealKit(
    lib: Library, hkdf: Hkdf, kit: KeyEnvelope, newKey: seq<byte>, otherKey: seq<byte>, vaultId: seq<byte>,
    generation: int,
    vaultKey: seq<byte>)
  {
    && IsId(vaultId) && IsRecoveryKey(newKey) && IsRecoveryKey(otherKey)
    && FieldsOk(KitFields(vaultId, generation))
    && IdealEnvelope(lib.crypto, kit, DeriveRecoveryWrappingKey(Prims(lib, hkdf), newKey, vaultId).value,
         KitFields(vaultId, generation), vaultKey)
    && DistinctKits(Prims(lib, hkdf), newKey, vaultId, otherKey, vaultId)
  }

  lemma KitOpensForItsPrint(
    lib: Library, hkdf: Hkdf, nonce: seq<byte>, reason: Reason, vaultKey: seq<byte>, newKey: seq<byte>,
    vaultId: seq<byte>,
    generation: int, previous: Option<int>, previousKey: Option<seq<byte>>, kit: KeyEnvelope, otherKey: seq<byte>)
    requires WrapRecoveryEnvelope(Prims(lib, hkdf), nonce, reason, vaultKey, newKey, vaultId, generation, previous,
               previousKey) == Ok(kit)
    requires IdealKit(lib, hkdf, kit, newKey, otherKey, vaultId, generation, vaultKey)
    ensures Opens(lib, hkdf, kit, newKey, vaultId, generation)
    ensures Opens(lib, hkdf, kit, otherKey, vaultId, generation) <==> otherKey == newKey
  {
    hide WrapRecoveryEnvelope, UnwrapVaultKey, IdealEnvelope, FieldsOk, RwkSalt, RwkInfo;
    var p := Prims(lib, hkdf);
    KitOpensItsEnvelopeOnly(
      p, nonce, reason, vaultKey, newKey, vaultId, generation, previous, previousKey, kit, newKey, vaultId, generation);
    KitOpensItsEnvelopeOnly(
      p, nonce, reason, vaultKey, newKey, vaultId, generation, previous, previousKey, kit, otherKey, vaultId,
      generation);
  }

  /** Only recovery envelopes change; the new print opens each of them, the old one none, and the vault key stays. */
  lemma TrustedReplacementSwapsTheKit(
    lib: Library, hkdf: Hkdf, nonces: Nonces, view: View, vaultKey: seq<byte>, oldKey: seq<byte>, newKey: seq<byte>,
    p: Payload,
    kit: KeyEnvelope)
    requires TrustedPayload(lib, hkdf, nonces, view, vaultKey, oldKey, newKey) == Ok(p)
    requires NewKit(lib, hkdf, nonces, view, vaultKey, oldKey, newKey) == Ok(kit)
    requires IdealKit(lib, hkdf, kit, newKey, oldKey, view.vaultId, view.vaultKeyVersion, vaultKey)
    ensures p.header == NextHeader(view, view.vaultKeyVersion) && |p.contents.envelopes| == |view.envelopes|
    ensures forall i :: 0 <= i < |view.envelopes| && view.envelopes[i].kind != Recovery ==>
      p.contents.envelopes[i] == view.envelopes[i]
    ensures forall i :: 0 <= i < |view.envelopes| && view.envelopes[i].kind == Recovery ==>
      Opens(lib, hkdf, p.contents.envelopes[i], newKey, view.vaultId, view.vaultKeyVersion)
      && !Opens(lib, hkdf, p.contents.envelopes[i], oldKey, view.vaultId, view.vaultKeyVersion)
  {
    hide CommitPayload, Confirmed, WrapRecoveryEnvelope, DeriveRecoveryWrappingKey, IdealKit, Opens;
    PayloadIsNextRevision(lib, nonces, view, view.entries, Replaced(view.envelopes, kit), vaultKey,
      view.vaultKeyVersion, p);
    KitOpensForItsPrint(lib, hkdf, nonces.envelope(0), TrustedReplacement, vaultKey, newKey, view.vaultId,
      view.vaultKeyVersion, Some(view.vaultKeyVersion), Some(oldKey), kit, oldKey);
    NewKeyDiffers(lib, hkdf, nonces.envelope(0), vaultKey, newKey, view.vaultId, view.vaultKeyVersion, oldKey, kit);
  }

  lemma NewKeyDiffers(
    lib: Library, hkdf: Hkdf, nonce: seq<byte>, vaultKey: seq<byte>, newKey: seq<byte>, vaultId: seq<byte>,
    generation: int,
    oldKey: seq<byte>, kit: KeyEnvelope)
    requires WrapRecoveryEnvelope(Prims(lib, hkdf), nonce, TrustedReplacement, vaultKey, newKey, vaultId, generation,
               Some(generation), Some(oldKey)) == Ok(kit)
    ensures newKey != oldKey
  {
    hide DeriveRecoveryWrappingKey, WrapVaultKey;
  }

  // ---- rotateCompromisedRecovery ----

  function DeviceEnvelopes(lib: Library, coins: RotationCoins, view: View, currentId: seq<byte>,
      kept: Option<LocalDevice>)
    : Result<seq<KeyEnvelope>>
  {
    if kept.None? then Ok([])
    else
      var v :- WrapVaultKey(lib.crypto, coins.nonces.envelope(2), coins.vaultKey, kept.value.deviceKey, view.vaultId,
        Device, CRYPTO_PROTOCOL_VERSION, view.vaultKeyVersion + 1, Some(currentId),
        Some(kept.value.deviceKeyVersion), None);
      Ok([v])
  }

  function StolenKitEnvelopes(
    lib: Library, hkdf: Hkdf, coins: RotationCoins, view: View, kdf: Kdf, masterKey: seq<byte>, newKey: seq<byte>,
    previousKey: Option<seq<byte>>, currentId: seq<byte>, kept: Option<LocalDevice>): Result<seq<KeyEnvelope>>
  {
    var generation := view.vaultKeyVersion + 1;
    var master :- WrapVaultKey(lib.crypto, coins.nonces.envelope(0), coins.vaultKey, masterKey,
      view.vaultId, Master, CRYPTO_PROTOCOL_VERSION, generation, None, None, Some(kdf.(salt := coins.salt)));
    var kit :- WrapRecoveryEnvelope(Prims(lib, hkdf), coins.nonces.envelope(1), CompromisedRotation, coins.vaultKey,
      newKey, view.vaultId, generation, Some(view.vaultKeyVersion), previousKey);
    var devices :- DeviceEnvelopes(lib, coins, view, currentId, kept);
    Ok([master, kit] + devices)
  }

  function StolenKitPayload(
    lib: Library, hkdf: Hkdf, coins: RotationCoins, view: View, vaultKey: seq<byte>, password: seq<byte>,
    newKey: seq<byte>,
    previousKey: Option<seq<byte>>, currentId: seq<byte>, local: Option<LocalDevice>): Result<Payload>
  {
    var master :- ConfirmedMaster(lib, view, vaultKey, password);
    if master.kdf.None? then Err(Other)
    else
      var masterKey :- NextMasterKey(lib, password, master.kdf.value, coins.salt);
      var envelopes :- StolenKitEnvelopes(lib, hkdf, coins, view, master.kdf.value, masterKey, newKey, previousKey,
        currentId, if Entitled(view, currentId) then local else None);
      CommitPayload(lib, coins.nonces, view, view.entries, envelopes, coins.vaultKey, view.vaultKeyVersion + 1)
  }

  lemma StolenKitShape(
    lib: Library, hkdf: Hkdf, coins: RotationCoins, view: View, kdf: Kdf, masterKey: seq<byte>, newKey: seq<byte>,
    previousKey: Option<seq<byte>>, currentId: seq<byte>, kept: Option<LocalDevice>, vs: seq<KeyEnvelope>)
    requires StolenKitEnvelopes(lib, hkdf, coins, view, kdf, masterKey, newKey, previousKey, currentId, kept) == Ok(vs)
    ensures RotationShape(vs, view.vaultKeyVersion + 1, true, kept.Some?, currentId)
    ensures WrapRecoveryEnvelope(Prims(lib, hkdf), coins.nonces.envelope(1), CompromisedRotation, coins.vaultKey,
              newKey, view.vaultId, view.vaultKeyVersion + 1, Some(view.vaultKeyVersion), previousKey) == Ok(vs[1])
  {
    hide DeriveRecoveryWrappingKey, ReasonOk, KdfOk, IsId, EnvelopeAad;
  }

  lemma StolenKitIsACommit(
    lib: Library, hkdf: Hkdf, coins: RotationCoins, view: View, vaultKey: seq<byte>, password: seq<byte>,
    newKey: seq<byte>,
    previousKey: Option<seq<byte>>, currentId: seq<byte>, local: Option<LocalDevice>, p: Payload)
    returns (kdf: Kdf, masterKey: seq<byte>, vs: seq<KeyEnvelope>)
    requires StolenKitPayload(lib, hkdf, coins, view, vaultKey, password, newKey, previousKey, currentId, local)
      == Ok(p)
    ensures StolenKitEnvelopes(lib, hkdf, coins, view, kdf, masterKey, newKey, previousKey, currentId,
              if Entitled(view, currentId) then local else None) == Ok(vs)
    ensures CommitPayload(lib, coins.nonces, view, view.entries, vs, coins.vaultKey, view.vaultKeyVersion + 1) == Ok(p)
  {
    hide ConfirmedMaster, NextMasterKey, StolenKitEnvelopes, CommitPayload, Entitled;
    kdf := ConfirmedMaster(lib, view, vaultKey, password).value.kdf.value;
    masterKey := NextMasterKey(lib, password, kdf, coins.salt).value;
    vs := StolenKitEnvelopes(lib, hkdf, coins, view, kdf, masterKey, newKey, previousKey, currentId,
      if Entitled(view, currentId) then local else None).value;
  }

  lemma SecondIsTheKit(vs: seq<KeyEnvelope>, generation: int, withDevice: bool, currentId: seq<byte>)
    requires RotationShape(vs, generation, true, withDevice, currentId)
    ensures FirstOfKind(vs, Recovery) == Some(vs[1])
    ensures forall i :: 0 <= i < |vs| && vs[i].kind == Recovery ==> i == 1
  {
    assert vs[0].kind == Master && vs[1..][0] == vs[1] && vs[1].kind == Recovery;
  }

  /** The next generation, a master and one recovery envelope, which the new print opens and the stolen one does not. */
  lemma StolenKitIsLockedOut(
    lib: Library, hkdf: Hkdf, coins: RotationCoins, view: View, vaultKey: seq<byte>, password: seq<byte>,
    newKey: seq<byte>,
    previousKey: Option<seq<byte>>, currentId: seq<byte>, local: Option<LocalDevice>, p: Payload, kit: KeyEnvelope,
    stolen: seq<byte>)
    requires StolenKitPayload(lib, hkdf, coins, view, vaultKey, password, newKey, previousKey, currentId, local)
      == Ok(p)
    requires FirstOfKind(p.contents.envelopes, Recovery) == Some(kit)
    requires IdealKit(lib, hkdf, kit, newKey, stolen, view.vaultId, view.vaultKeyVersion + 1, coins.vaultKey)
    requires stolen != newKey
    ensures p.header == NextHeader(view, view.vaultKeyVersion + 1)
    ensures (exists v :: v in p.contents.envelopes && v.kind == Master)
      && (exists v :: v in p.contents.envelopes && v.kind == Recovery)
    ensures forall v :: v in p.contents.envelopes ==> v.vaultKeyVersion == view.vaultKeyVersion + 1
    ensures forall i :: 0 <= i < |p.contents.envelopes| && p.contents.envelopes[i].kind == Recovery ==>
      Opens(lib, hkdf, p.contents.envelopes[i], newKey, view.vaultId, view.vaultKeyVersion + 1)
      && !Opens(lib, hkdf, p.contents.envelopes[i], stolen, view.vaultId, view.vaultKeyVersion + 1)
  {
    hide StolenKitPayload, StolenKitEnvelopes, CommitPayload, IdealKit, Opens, Entitled, FirstOfKind;
    var kdf, masterKey, vs := StolenKitIsACommit(
      lib, hkdf, coins, view, vaultKey, password, newKey, previousKey, currentId, local, p);
    var kept := if Entitled(view, currentId) then local else None;
    PayloadIsNextRevision(lib, coins.nonces, view, view.entries, vs, coins.vaultKey, view.vaultKeyVersion + 1, p);
    StolenKitShape(lib, hkdf, coins, view, kdf, masterKey, newKey, previousKey, currentId, kept, vs);
    ShapeMembers(vs, view.vaultKeyVersion + 1, true, kept.Some?, currentId);
    SecondIsTheKit(vs, view.vaultKeyVersion + 1, kept.Some?, currentId);
    KitOpensForItsPrint(lib, hkdf, coins.nonces.envelope(1), CompromisedRotation, coins.vaultKey, newKey, view.vaultId,
      view.vaultKeyVersion + 1, Some(view.vaultKeyVersion), previousKey, vs[1], stolen);
  }
}
