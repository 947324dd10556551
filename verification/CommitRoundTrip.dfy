/** What a client commits is what it, or any other holder of a key, reads back. */
module CommitRoundTrips {
  import opened Common
  import opened Bytes
  import opened ManifestModel
  import opened ManifestCodec
  import opened SnapshotCheck
  import opened Envelope
  import opened SealedManifests
  import opened Revision
  import opened Sessions
  import Server

  /** A snapshot matches the manifest built from it. */
  lemma OwnBuildChecks(hash: seq<byte> -> Digest, header: Header, c: Contents, m: Manifest)
    requires Build(hash, header, c, false) == Ok(m)
    ensures Canonical(m) && m.header == header
    ensures Normalize(c, false).Ok? && Check(hash, m, c, false) == Normalize(c, false)
  {
    hide Describe, Sound, ContentsNormal, Canonical, Validate, HeaderOk, Normalize;
    var n := Normalize(c, false).value;
    NormalizedIsNormal(c, false);
    DescribedIsExact(hash, header, n);
    ValidateCanonical(m);
  }

  /** The boxes of a payload behave ideally. */
  ghost predicate IdealPayload(lib: Library, p: Payload, m: Manifest, vaultKey: seq<byte>, entries: seq<VaultEntry>) {
    && p.sealed.Some? && |p.contents.entries| == |entries|
    && HeaderOk(m.header) && Encode(m).Ok? && IdealSeal(lib.crypto, p.sealed.value, vaultKey, m)
    && forall i :: 0 <= i < |entries| ==>
      IdealEntry(lib.crypto, p.contents.entries[i], vaultKey, p.header.vaultId, lib.writeEntry(entries[i]))
  }

  /** The JSON of the entries reads back, and their titles sort. */
  ghost predicate Readable(lib: Library, entries: seq<VaultEntry>) {
    && lib.arrange(entries).Some?
    && forall e :: e in entries ==> lib.readEntry(e.id, lib.writeEntry(e)) == Some(e)
  }

  function PlainOf(lib: Library, entries: seq<VaultEntry>): seq<Plain> {
    seq(|entries|, i requires 0 <= i < |entries| => Plain(entries[i].id, lib.writeEntry(entries[i])))
  }

  lemma {:induction false} ReadingInvertsWriting(lib: Library, entries: seq<VaultEntry>)
    requires forall e :: e in entries ==> lib.readEntry(e.id, lib.writeEntry(e)) == Some(e)
    ensures ReadEntries(lib, PlainOf(lib, entries)) == Some(entries)
  {
    if entries != [] {
      ReadingInvertsWriting(lib, entries[1..]);
      assert PlainOf(lib, entries)[1..] == PlainOf(lib, entries[1..]);
      assert entries == [entries[0]] + entries[1..];
    }
  }

  lemma SealedEntriesShow(
    lib: Library, nonces: Nonces, vaultKey: seq<byte>, vaultId: seq<byte>, vaultKeyVersion: int,
    entries: seq<VaultEntry>,
    es: seq<EncryptedEntry>, checks: seq<CrossCheck>)
    requires SealEntries(lib, nonces, vaultKey, vaultId, vaultKeyVersion, entries) == Ok(es)
    requires forall i :: 0 <= i < |entries| ==>
      IdealEntry(lib.crypto, es[i], vaultKey, vaultId, lib.writeEntry(entries[i]))
    requires forall i :: 0 <= i < |checks| ==>
      CrossChecked(lib.crypto, vaultId, vaultKeyVersion, checks[i]) == Ok(vaultKey)
    requires Readable(lib, entries)
    ensures ShownEntries(lib, vaultId, vaultKey, vaultKeyVersion, es, checks) == Ok(lib.arrange(entries).value)
  {
    hide DecryptEntry, EncryptEntry, IdealEntry, SealEntries, DecryptedEntries, CrossChecked;
    forall i | 0 <= i < |es|
      ensures DecryptEntry(lib.crypto, es[i], vaultKey, vaultId, es[i].id, vaultKeyVersion)
        == Ok(lib.writeEntry(entries[i]))
      ensures es[i].id == entries[i].id
    {
      EntryOpensExactlyAsSealed(lib.crypto, nonces.entry(i), vaultKey, vaultId, entries[i].id,
        lib.writeEntry(entries[i]), vaultKeyVersion, ENTRY_SCHEMA_VERSION, es[i], vaultKey, vaultId, es[i].id,
        vaultKeyVersion);
    }
    VerifiedIsUnmixed(lib.crypto, vaultId, vaultKey, vaultKeyVersion, es);
    assert DecryptedEntries(lib.crypto, vaultId, vaultKey, vaultKeyVersion, es).value == PlainOf(lib, entries);
    ReadingInvertsWriting(lib, entries);
  }

  function Offered(p: Payload): Snapshot {
    Snapshot(p.header, p.contents, p.sealed)
  }

  lemma OwnManifestVerifies(
    c: Crypto, nonce: seq<byte>, header: Header, contents: Contents, vaultKey: seq<byte>, m: Manifest,
    s: SealedManifest)
    requires Build(c.hash, header, contents, false) == Ok(m) && SealManifest(c, nonce, vaultKey, m) == Ok(s)
    requires HeaderOk(m.header) && Encode(m).Ok? && IdealSeal(c, s, vaultKey, m) && !CarriesBom(m)
    ensures VerifySnapshotManifest(c, s, contents, vaultKey, header).Ok?
    ensures var v := VerifySnapshotManifest(c, s, contents, vaultKey, header).value;
      v.manifest == m && Ok(v.contents) == Normalize(contents, false) && SealedDigest(c, s) == Ok(v.digest)
  {
    hide Check, Build, SealManifest, OpenManifest, Normalize, CarriesBom, IdealSeal, Encode;
    OwnBuildChecks(c.hash, header, contents, m);
    ValidateCanonical(m);
    SealedOpensExactlyAsSealed(c, nonce, vaultKey, m, s, vaultKey, header);
    OpenedIsCanonical(c, s, vaultKey, header);
  }

  /** A pin this commit may advance: same vault, an earlier revision, no newer key generation. */
  predicate PinBelow(pin: Option<VaultRevision>, h: Header) {
    pin.Some? ==>
      RevisionOk(pin.value) && pin.value.vaultId == h.vaultId
      && pin.value.revision < h.revision && pin.value.vaultKeyVersion <= h.vaultKeyVersion
  }

  /** What is sealed is: nothing lost, nothing mixed, the pin moved to this very manifest. */
  lemma CommittedReadsBack(
    lib: Library, nonces: Nonces, view: View, entries: seq<VaultEntry>, envelopes: seq<KeyEnvelope>,
    vaultKey: seq<byte>, vaultKeyVersion: int, p: Payload, m: Manifest, pin: Option<VaultRevision>,
    checks: seq<CrossCheck>)
    requires CommitPayload(lib, nonces, view, entries, envelopes, vaultKey, vaultKeyVersion) == Ok(p)
    requires Build(lib.crypto.hash, p.header, p.contents, false) == Ok(m) && !CarriesBom(m)
    requires IdealPayload(lib, p, m, vaultKey, entries) && Readable(lib, entries) && PinBelow(pin, p.header)
    requires forall i :: 0 <= i < |checks| ==>
      CrossChecked(lib.crypto, view.vaultId, vaultKeyVersion, checks[i]) == Ok(vaultKey)
    ensures OpenedSnapshot(lib, pin, Offered(p), vaultKey, checks).Ok?
    ensures var o := OpenedSnapshot(lib, pin, Offered(p), vaultKey, checks).value;
      && o.view.entries == lib.arrange(entries).value
      && o.view.revision == view.revision + 1 && o.view.vaultKeyVersion == vaultKeyVersion
      && o.view.vaultId == view.vaultId
      && o.view.envelopes == NormalizeEnvelopes(envelopes)
      && SealedDigest(lib.crypto, p.sealed.value).Ok?
      && o.pin == PinOf(p.header, Some(SealedDigest(lib.crypto, p.sealed.value).value))
  {
    hide Build, SealManifest, VerifySnapshotManifest, IdealSeal, CarriesBom, SealEntries, ShownEntries, CrossChecked,
      SealedDigest, Encode, AssertFreshSnapshot, IdealEntry;
    var s := p.sealed.value;
    OwnManifestVerifies(lib.crypto, nonces.manifest, p.header, p.contents, vaultKey, m, s);
    SealedEntriesShow(lib, nonces, vaultKey, view.vaultId, vaultKeyVersion, entries, p.contents.entries, checks);
    OwnBuildChecks(lib.crypto.hash, p.header, p.contents, m);
    var v := VerifySnapshotManifest(lib.crypto, s, p.contents, vaultKey, p.header).value;
    assert Claimed(Offered(p)) == p.header;
    assert Authenticated(lib.crypto, pin, Offered(p), vaultKey) == Ok((PinOf(p.header, Some(v.digest)), v.contents));
    FreshMeansFollows(pin, PinOf(p.header, Some(v.digest)));
  }

  /** The server tells exactly those clients that they lost the race whose vault is not at the current revision. */
  lemma RaceIsDetected(
    lib: Library, nonces: Nonces, view: View, entries: seq<VaultEntry>, envelopes: seq<KeyEnvelope>,
    vaultKey: seq<byte>, vaultKeyVersion: int, p: Payload, current: Option<Server.Row>, revoked: set<seq<byte>>)
    requires CommitPayload(lib, nonces, view, entries, envelopes, vaultKey, vaultKeyVersion) == Ok(p)
    ensures Server.CasCheck(current, revoked, p) == Some(Server.LostRace(Server.RevisionOf(current)))
      <==> view.revision != Server.RevisionOf(current)
    ensures view.revision == Server.RevisionOf(current) ==>
      (Server.CasCheck(current, revoked, p).None? <==>
        Server.GenerationOf(current) <= vaultKeyVersion && !Server.CarriesRevoked(Contents([], envelopes), revoked))
    ensures Offered(p) == Snapshot(Server.RowOf(p).header, Server.RowOf(p).contents, Server.RowOf(p).sealed)
  {
    hide CommitPayload;
    PayloadIsNextRevision(lib, nonces, view, entries, envelopes, vaultKey, vaultKeyVersion, p);
  }

  // ---- After a hard revocation ----

  function RotatedFields(view: View, kind: EnvelopeType, kdf: Option<Kdf>): EnvelopeFields {
    EnvelopeFields(view.vaultId, kind, CRYPTO_PROTOCOL_VERSION, view.vaultKeyVersion + 1, [], 0, kdf)
  }

  /** The master envelope of a rotation, and its recovery envelope if there is one, behave ideally. */
  ghost predicate IdealRotation(lib: Library, coins: RotationCoins, view: View, keys: RotationKeys,
      vs: seq<KeyEnvelope>) {
    var master := RotatedFields(view, Master, Some(keys.kdf.(salt := coins.salt)));
    var kit := RotatedFields(view, Recovery, None);
    && |vs| >= (if keys.recovery.Some? then 2 else 1) && FieldsOk(master) && FieldsOk(kit)
    && IdealEnvelope(lib.crypto, vs[0], keys.masterKey, master, coins.vaultKey)
    && (keys.recovery.Some? ==> IdealEnvelope(lib.crypto, vs[1], keys.recovery.value, kit, coins.vaultKey))
  }

  lemma RotatedMasterOpens(
    lib: Library, coins: RotationCoins, view: View, keys: RotationKeys, currentId: seq<byte>,
    local: Option<LocalDevice>,
    vs: seq<KeyEnvelope>)
    requires RotationEnvelopes(lib, coins, view, keys, currentId, local) == Ok(vs)
    requires IdealRotation(lib, coins, view, keys, vs)
    ensures FirstOfKind(vs, Master) == Some(vs[0]) && vs[0].kdf == Some(keys.kdf.(salt := coins.salt))
    ensures UnwrapVaultKey(lib.crypto, vs[0], keys.masterKey,
              Expected(view.vaultId, Master, view.vaultKeyVersion + 1, None, None)) == Ok(coins.vaultKey)
  {
    hide UnwrapVaultKey, IdealEnvelope, FieldsOk;
    var kdf := Some(keys.kdf.(salt := coins.salt));
    EnvelopeOpensExactlyAsWrapped(lib.crypto, coins.nonces.envelope(0), coins.vaultKey, keys.masterKey, view.vaultId,
      Master, view.vaultKeyVersion + 1, None, None, kdf, vs[0], RotatedFields(view, Master, kdf), keys.masterKey,
      Expected(view.vaultId, Master, view.vaultKeyVersion + 1, None, None));
  }

  lemma RotatedKitOpens(
    lib: Library, coins: RotationCoins, view: View, keys: RotationKeys, currentId: seq<byte>,
    local: Option<LocalDevice>,
    vs: seq<KeyEnvelope>)
    requires RotationEnvelopes(lib, coins, view, keys, currentId, local) == Ok(vs) && keys.recovery.Some?
    requires IdealRotation(lib, coins, view, keys, vs)
    ensures FirstOfKind(vs, Recovery) == Some(vs[1])
    ensures UnwrapVaultKey(lib.crypto, vs[1], keys.recovery.value,
              Expected(view.vaultId, Recovery, view.vaultKeyVersion + 1, None, None)) == Ok(coins.vaultKey)
  {
    hide UnwrapVaultKey, IdealEnvelope, FieldsOk;
    EnvelopeOpensExactlyAsWrapped(lib.crypto, coins.nonces.envelope(1), coins.vaultKey, keys.recovery.value,
      view.vaultId, Recovery, view.vaultKeyVersion + 1, None, None, None, vs[1], RotatedFields(view, Recovery, None),
      keys.recovery.value, Expected(view.vaultId, Recovery, view.vaultKeyVersion + 1, None, None));
    assert FirstOfKind(vs, Recovery) == Some(vs[1]) by {
      assert vs[0].kind == Master && vs[1..][0] == vs[1] && vs[1].kind == Recovery;
    }
  }

  /** The way in that still has to work after a rotation. */
  predicate StillEntitled(view: View, password: seq<byte>, recovery: Option<TypedKit>, way: Way) {
    match way
    case ByPassword(p) => p == password
    case ByRecoveryKey(k) => FirstOfKind(view.envelopes, Recovery).Some? && k.Ok? && recovery == Some(k)
  }

  lemma RotatedUnwraps(
    lib: Library, coins: RotationCoins, view: View, vaultKey: seq<byte>, target: seq<byte>, currentId: seq<byte>,
    password: seq<byte>, recovery: Option<TypedKit>, local: Option<LocalDevice>, p: Payload, way: Way)
    requires RotationPayload(lib, coins, view, vaultKey, target, currentId, password, recovery, local) == Ok(p)
    requires ConfirmedKeys(lib, coins, view, vaultKey, password, recovery).Ok?
    requires IdealRotation(lib, coins, view, ConfirmedKeys(lib, coins, view, vaultKey, password, recovery).value,
      p.contents.envelopes)
    requires StillEntitled(view, password, recovery, way)
    ensures Unwrapped(lib, view.vaultId, Offered(p), way).Ok?
    ensures var (key, check) := Unwrapped(lib, view.vaultId, Offered(p), way).value;
      key == coins.vaultKey && CrossChecked(lib.crypto, view.vaultId, view.vaultKeyVersion + 1, check) == Ok(key)
  {
    hide RotationPayload, ConfirmedKeys, RotationEnvelopes, CommitPayload, UnwrapVaultKey, IdealRotation;
    var keys, vs := RotationIsACommit(lib, coins, view, vaultKey, target, currentId, password, recovery, local, p);
    PayloadIsNextRevision(lib, coins.nonces, view, view.entries, vs, coins.vaultKey, view.vaultKeyVersion + 1, p);
    RotationHasShape(lib, coins, view, keys, currentId, KeptDevice(view, target, currentId, local), vs);
    if way.ByPassword? {
      RotatedMasterOpens(lib, coins, view, keys, currentId, KeptDevice(view, target, currentId, local), vs);
    } else {
      RotatedKitOpens(lib, coins, view, keys, currentId, KeptDevice(view, target, currentId, local), vs);
    }
  }

  /**
   * After hardRevokeDevice has committed, the master password and the recovery key open the new snapshot
   * with the new vault key, and the entry list is the one from before.
   */
  lemma RotatedVaultReopens(
    lib: Library, coins: RotationCoins, view: View, vaultKey: seq<byte>, target: seq<byte>, currentId: seq<byte>,
    password: seq<byte>, recovery: Option<TypedKit>, local: Option<LocalDevice>, p: Payload, m: Manifest,
    pin: Option<VaultRevision>, way: Way)
    requires RotationPayload(lib, coins, view, vaultKey, target, currentId, password, recovery, local) == Ok(p)
    requires ConfirmedKeys(lib, coins, view, vaultKey, password, recovery).Ok?
    requires IdealRotation(lib, coins, view, ConfirmedKeys(lib, coins, view, vaultKey, password, recovery).value,
      p.contents.envelopes)
    requires Build(lib.crypto.hash, p.header, p.contents, false) == Ok(m) && !CarriesBom(m)
    requires IdealPayload(lib, p, m, coins.vaultKey, view.entries) && Readable(lib, view.entries)
      && PinBelow(pin, p.header)
    requires StillEntitled(view, password, recovery, way)
    ensures Unlocked(lib, pin, view.vaultId, Offered(p), way).Ok?
    ensures var (key, o) := Unlocked(lib, pin, view.vaultId, Offered(p), way).value;
      && key == coins.vaultKey && o.view.entries == lib.arrange(view.entries).value
      && o.view.revision == view.revision + 1 && o.view.vaultKeyVersion == view.vaultKeyVersion + 1
  {
    hide RotationPayload, ConfirmedKeys, RotationEnvelopes, CommitPayload, Unwrapped, OpenedSnapshot, CrossChecked,
      IdealRotation,
      Build, CarriesBom, IdealPayload, Readable, AssertFreshSnapshot, SealedDigest, RevisionOk;
    var keys, vs := RotationIsACommit(lib, coins, view, vaultKey, target, currentId, password, recovery, local, p);
    PayloadIsNextRevision(lib, coins.nonces, view, view.entries, vs, coins.vaultKey, view.vaultKeyVersion + 1, p);
    RotatedUnwraps(lib, coins, view, vaultKey, target, currentId, password, recovery, local, p, way);
    var (_, check) := Unwrapped(lib, view.vaultId, Offered(p), way).value;
    CommittedReadsBack(lib, coins.nonces, view, view.entries, vs, coins.vaultKey, view.vaultKeyVersion + 1, p,
      m, pin, [check]);
    OpenedFollows(lib, pin, Offered(p), coins.vaultKey, [check]);
    FreshMeansFollows(pin, PinOf(p.header, Some(SealedDigest(lib.crypto, p.sealed.value).value)));
  }

  // ---- The retained device after a hard revocation ----

  /** deviceEnvelopeOf. */
  function DeviceEnvelopeOf(vs: seq<KeyEnvelope>, deviceId: seq<byte>): Option<KeyEnvelope> {
    if vs == [] then None
    else if vs[0].kind == Device && vs[0].deviceId == Some(deviceId) then Some(vs[0])
    else DeviceEnvelopeOf(vs[1..], deviceId)
  }

  function RetainedFields(view: View, currentId: seq<byte>, device: LocalDevice): EnvelopeFields {
    EnvelopeFields(
      view.vaultId, Device, CRYPTO_PROTOCOL_VERSION, view.vaultKeyVersion + 1, currentId, device.deviceKeyVersion, None)
  }

  function RetainedWanted(view: View, currentId: seq<byte>, device: LocalDevice): Expected {
    Expected(view.vaultId, Device, view.vaultKeyVersion + 1, Some(currentId), Some(device.deviceKeyVersion))
  }

  lemma {:induction false} LastIsTheDevice(vs: seq<KeyEnvelope>, deviceId: seq<byte>)
    requires vs != [] && vs[|vs| - 1].kind == Device && vs[|vs| - 1].deviceId == Some(deviceId)
    requires forall i :: 0 <= i < |vs| - 1 ==> vs[i].kind != Device
    ensures DeviceEnvelopeOf(vs, deviceId) == Some(vs[|vs| - 1])
  {
    if |vs| > 1 {
      assert vs[1..][|vs[1..]| - 1] == vs[|vs| - 1];
      LastIsTheDevice(vs[1..], deviceId);
    }
  }

  lemma RetainedEnvelope(
    lib: Library, coins: RotationCoins, view: View, keys: RotationKeys, currentId: seq<byte>, device: LocalDevice,
    vs: seq<KeyEnvelope>)
    requires RotationEnvelopes(lib, coins, view, keys, currentId, Some(device)) == Ok(vs)
    ensures DeviceEnvelopeOf(vs, currentId) == Some(vs[|vs| - 1])
    ensures WrapVaultKey(lib.crypto, coins.nonces.envelope(2), coins.vaultKey, device.deviceKey, view.vaultId, Device,
              CRYPTO_PROTOCOL_VERSION, view.vaultKeyVersion + 1, Some(currentId), Some(device.deviceKeyVersion), None)
      == Ok(vs[|vs| - 1])
    ensures ResolveFields(view.vaultId, Device, CRYPTO_PROTOCOL_VERSION, view.vaultKeyVersion + 1, Some(currentId),
              Some(device.deviceKeyVersion), None, false) == Ok(RetainedFields(view, currentId, device))
    ensures FieldsOk(RetainedFields(view, currentId, device))
  {
    hide EnvelopeAad, KdfOk, IsId;
    RotationHasShape(lib, coins, view, keys, currentId, Some(device), vs);
    LastIsTheDevice(vs, currentId);
  }

  /** The device that was kept opens the new snapshot with its old device key, and sees the entries from before. */
  lemma RetainedDeviceReopens(
    lib: Library, coins: RotationCoins, view: View, vaultKey: seq<byte>, target: seq<byte>, currentId: seq<byte>,
    password: seq<byte>, recovery: Option<TypedKit>, device: LocalDevice, p: Payload, m: Manifest,
    pin: Option<VaultRevision>, v: KeyEnvelope)
    requires RotationPayload(lib, coins, view, vaultKey, target, currentId, password, recovery, Some(device)) == Ok(p)
    requires KeptDevice(view, target, currentId, Some(device)).Some?
    requires DeviceEnvelopeOf(p.contents.envelopes, currentId) == Some(v)
    requires FieldsOk(RetainedFields(view, currentId, device))
    requires IdealEnvelope(lib.crypto, v, device.deviceKey, RetainedFields(view, currentId, device), coins.vaultKey)
    requires Build(lib.crypto.hash, p.header, p.contents, false) == Ok(m) && !CarriesBom(m)
    requires IdealPayload(lib, p, m, coins.vaultKey, view.entries) && Readable(lib, view.entries)
      && PinBelow(pin, p.header)
    ensures UnwrapVaultKey(lib.crypto, v, device.deviceKey, RetainedWanted(view, currentId, device))
      == Ok(coins.vaultKey)
    ensures OpenedSnapshot(lib, pin, Offered(p), coins.vaultKey, []).Ok?
    ensures var o := OpenedSnapshot(lib, pin, Offered(p), coins.vaultKey, []).value;
      && o.view.entries == lib.arrange(view.entries).value
      && o.view.revision == view.revision + 1 && o.view.vaultKeyVersion == view.vaultKeyVersion + 1
  {
    hide RotationPayload, ConfirmedKeys, RotationEnvelopes, CommitPayload, UnwrapVaultKey, OpenedSnapshot, Build,
      CarriesBom, IdealPayload, Readable, PinBelow, IdealEnvelope, WrapVaultKey, ResolveFields, FieldsOk, Entitled;
    var keys, vs := RotationIsACommit(
      lib, coins, view, vaultKey, target, currentId, password, recovery, Some(device), p);
    PayloadIsNextRevision(lib, coins.nonces, view, view.entries, vs, coins.vaultKey, view.vaultKeyVersion + 1, p);
    RetainedEnvelope(lib, coins, view, keys, currentId, device, vs);
    EnvelopeOpensExactlyAsWrapped(lib.crypto, coins.nonces.envelope(2), coins.vaultKey, device.deviceKey, view.vaultId,
      Device, view.vaultKeyVersion + 1, Some(currentId), Some(device.deviceKeyVersion), None, v,
      RetainedFields(view, currentId, device), device.deviceKey, RetainedWanted(view, currentId, device));
    CommittedReadsBack(lib, coins.nonces, view, view.entries, vs, coins.vaultKey, view.vaultKeyVersion + 1, p, m, pin,
      []);
  }
}
