/** The client: unlock, commit and rotation against a server that may answer anything. */
module Sessions {
  import opened Common
  import opened Bytes
  import opened ManifestModel
  import opened ManifestCodec
  import opened SnapshotCheck
  import opened Envelope
  import opened SealedManifests
  import opened Revision

  datatype VaultEntry = VaultEntry(id: seq<byte>, title: string, fields: seq<string>)

  /** The library code the client calls: Argon2id, JSON of entries, sorting by title. */
  datatype Library = Library(
    crypto: Crypto,
    deriveMaster: (seq<byte>, Kdf) -> Option<Digest>,
    writeEntry: VaultEntry -> seq<byte>,
    readEntry: (seq<byte>, seq<byte>) -> Option<VaultEntry>,
    arrange: seq<VaultEntry> -> Option<seq<VaultEntry>>)

  // ---- verifySnapshot: every record opens under one vault key ----

  datatype CrossCheck = CrossCheck(
    envelope: KeyEnvelope, wrappingKey: seq<byte>, deviceId: Option<seq<byte>>, deviceKeyVersion: Option<int>)

  function CrossChecked(c: Crypto, vaultId: seq<byte>, vaultKeyVersion: int, x: CrossCheck): Result<seq<byte>> {
    UnwrapVaultKey(c, x.envelope, x.wrappingKey,
      Expected(vaultId, x.envelope.kind, vaultKeyVersion, x.deviceId, x.deviceKeyVersion))
  }

  datatype Plain = Plain(id: seq<byte>, plaintext: seq<byte>)

  function DecryptedEntries(c: Crypto, vaultId: seq<byte>, vaultKey: seq<byte>, vaultKeyVersion: int,
      es: seq<EncryptedEntry>)
    : Option<seq<Plain>>
  {
    if es == [] then Some([])
    else
      var before :- DecryptedEntries(c, vaultId, vaultKey, vaultKeyVersion, es[..|es| - 1]);
      var e := es[|es| - 1];
      match DecryptEntry(c, e, vaultKey, vaultId, e.id, vaultKeyVersion)
      case Err(_) => None
      case Ok(plaintext) => Some(before + [Plain(e.id, plaintext)])
  }

  function VerifiedEntries(
    c: Crypto, vaultId: seq<byte>, vaultKey: seq<byte>, vaultKeyVersion: int, es: seq<EncryptedEntry>,
    checks: seq<CrossCheck>)
    : Result<seq<Plain>>
  {
    if exists i :: 0 <= i < |checks| && CrossChecked(c, vaultId, vaultKeyVersion, checks[i]) != Ok(vaultKey)
    then Err(Integrity)
    else
      match DecryptedEntries(c, vaultId, vaultKey, vaultKeyVersion, es)
      case None => Err(Integrity)
      case Some(plain) => Ok(plain)
  }

  lemma {:induction false} OneBadEntrySpoilsAll(
    c: Crypto, vaultId: seq<byte>, vaultKey: seq<byte>, vaultKeyVersion: int, es: seq<EncryptedEntry>, n: nat)
    requires n <= |es| && DecryptedEntries(c, vaultId, vaultKey, vaultKeyVersion, es[..n]).None?
    ensures DecryptedEntries(c, vaultId, vaultKey, vaultKeyVersion, es).None?
  {
    if n < |es| {
      assert es[..|es| - 1][..n] == es[..n];
      OneBadEntrySpoilsAll(c, vaultId, vaultKey, vaultKeyVersion, es[..|es| - 1], n);
    } else {
      assert es[..n] == es;
    }
  }

  method VerifySnapshot(
    c: Crypto, vaultId: seq<byte>, vaultKey: seq<byte>, vaultKeyVersion: int, es: seq<EncryptedEntry>,
    checks: seq<CrossCheck>)
    returns (r: Result<seq<Plain>>)
    ensures r == VerifiedEntries(c, vaultId, vaultKey, vaultKeyVersion, es, checks)
  {
    for i := 0 to |checks|
      invariant forall j :: 0 <= j < i ==> CrossChecked(c, vaultId, vaultKeyVersion, checks[j]) == Ok(vaultKey)
    {
      var candidate := CrossChecked(c, vaultId, vaultKeyVersion, checks[i]);
      if candidate != Ok(vaultKey) {
        return Err(Integrity);
      }
    }
    var decrypted: seq<Plain> := [];
    for i := 0 to |es|
      invariant DecryptedEntries(c, vaultId, vaultKey, vaultKeyVersion, es[..i]) == Some(decrypted)
    {
      assert es[..i + 1][..i] == es[..i];
      var plaintext := DecryptEntry(c, es[i], vaultKey, vaultId, es[i].id, vaultKeyVersion);
      if plaintext.Err? {
        OneBadEntrySpoilsAll(c, vaultId, vaultKey, vaultKeyVersion, es, i + 1);
        return Err(Integrity);
      }
      decrypted := decrypted + [Plain(es[i].id, plaintext.value)];
    }
    assert es[..|es|] == es;
    return Ok(decrypted);
  }

  /** A verified snapshot is not mixed: each record carries the generation and opens under the key. */
  lemma {:induction false} VerifiedIsUnmixed(
    c: Crypto, vaultId: seq<byte>, vaultKey: seq<byte>, vaultKeyVersion: int, es: seq<EncryptedEntry>)
    ensures DecryptedEntries(c, vaultId, vaultKey, vaultKeyVersion, es).Some?
      <==> forall i :: 0 <= i < |es| ==> DecryptEntry(c, es[i], vaultKey, vaultId, es[i].id, vaultKeyVersion).Ok?
    ensures var r := DecryptedEntries(c, vaultId, vaultKey, vaultKeyVersion, es);
      r.Some? ==> |r.value| == |es| && forall i :: 0 <= i < |es| ==>
        && es[i].vaultKeyVersion == vaultKeyVersion
        && Ok(r.value[i].plaintext) == DecryptEntry(c, es[i], vaultKey, vaultId, es[i].id, vaultKeyVersion)
        && r.value[i].id == es[i].id
  {
    if es != [] {
      VerifiedIsUnmixed(c, vaultId, vaultKey, vaultKeyVersion, es[..|es| - 1]);
    }
  }

  // ---- Opening a snapshot ----

  function ReadEntries(lib: Library, plain: seq<Plain>): Option<seq<VaultEntry>> {
    if plain == [] then Some([])
    else
      var first :- lib.readEntry(plain[0].id, plain[0].plaintext);
      var others :- ReadEntries(lib, plain[1..]);
      Some([first] + others)
  }

  function ShownEntries(
    lib: Library, vaultId: seq<byte>, vaultKey: seq<byte>, vaultKeyVersion: int, es: seq<EncryptedEntry>,
    checks: seq<CrossCheck>)
    : Result<seq<VaultEntry>>
  {
    var plain :- VerifiedEntries(lib.crypto, vaultId, vaultKey, vaultKeyVersion, es, checks);
    match ReadEntries(lib, plain)
    case None => Err(Other)
    case Some(entries) =>
      match lib.arrange(entries)
      case None => Err(Other)
      case Some(sorted) => Ok(sorted)
  }

  datatype View = View(
    vaultId: seq<byte>, revision: int, vaultKeyVersion: int, envelopes: seq<KeyEnvelope>, entries: seq<VaultEntry>)

  datatype Opened = Opened(pin: VaultRevision, view: View)

  function PinOf(h: Header, digest: Option<seq<byte>>): VaultRevision {
    VaultRevision(h.vaultId, h.revision, h.vaultKeyVersion, h.cryptoProtocolVersion, digest)
  }

  function Claimed(s: Snapshot): Header {
    s.header.(cryptoProtocolVersion := CRYPTO_PROTOCOL_VERSION)
  }

  /** The records a snapshot stands for and the pin it asks for, once its manifest, if it has one, checks out. */
  function Authenticated(c: Crypto, pin: Option<VaultRevision>, s: Snapshot, vaultKey: seq<byte>)
    : Result<(VaultRevision, Contents)>
  {
    if s.sealed.Some? then
      var v :- VerifySnapshotManifest(c, s.sealed.value, s.contents, vaultKey, Claimed(s));
      Ok((PinOf(v.manifest.header, Some(v.digest)), v.contents))
    else if pin.Some? && pin.value.manifestDigest.Some? then Err(Integrity)
    else Ok((PinOf(Claimed(s), None), s.contents))
  }

  function OpenedSnapshot(
    lib: Library, pin: Option<VaultRevision>, s: Snapshot, vaultKey: seq<byte>, checks: seq<CrossCheck>): Result<Opened>
  {
    var (accepted, records) :- Authenticated(lib.crypto, pin, s, vaultKey);
    var shown :- ShownEntries(lib, s.header.vaultId, vaultKey, accepted.vaultKeyVersion, records.entries, checks);
    var _ :- AssertFreshSnapshot(pin, accepted);
    Ok(Opened(accepted, View(s.header.vaultId, accepted.revision, accepted.vaultKeyVersion, records.envelopes, shown)))
  }

  /** The pin a successful opening leaves is well formed, about the same vault, and follows the old one. */
  lemma OpenedFollows(lib: Library, pin: Option<VaultRevision>, s: Snapshot, vaultKey: seq<byte>,
      checks: seq<CrossCheck>)
    requires OpenedSnapshot(lib, pin, s, vaultKey, checks).Ok?
    ensures var o := OpenedSnapshot(lib, pin, s, vaultKey, checks).value;
      && RevisionOk(o.pin) && Follows(pin, Some(o.pin))
      && o.pin.vaultId == s.header.vaultId && o.pin.revision == s.header.revision
      && o.pin.vaultKeyVersion == s.header.vaultKeyVersion
      && (o.pin.manifestDigest.Some? <==> s.sealed.Some?)
  {
    var (accepted, _) := Authenticated(lib.crypto, pin, s, vaultKey).value;
    FreshMeansFollows(pin, accepted);
    if s.sealed.Some? {
      OpenedIsCanonical(lib.crypto, s.sealed.value, vaultKey, Claimed(s));
    }
  }

  /**
   * What vouches for a snapshot with a manifest: the vault key opened it for exactly this header, and the records match
   * it.
   */
  ghost predicate Vouched(c: Crypto, s: Snapshot, vaultKey: seq<byte>, m: Manifest)
    requires s.sealed.Some?
  {
    && HeaderOk(Claimed(s)) && m.header == Claimed(s) && Canonical(m)
    && c.open(vaultKey, s.sealed.value.box, ManifestAad(Claimed(s))).Some?
    && Decode(c.open(vaultKey, s.sealed.value.box, ManifestAad(Claimed(s))).value) == Ok(m)
    && Check(c.hash, m, s.contents, false).Ok?
  }

  lemma CheckedKeepsEntries(hash: seq<byte> -> Digest, m: Manifest, contents: Contents)
    requires Check(hash, m, contents, false).Ok?
    ensures Check(hash, m, contents, false).value.entries == contents.entries
  {
    hide Describe, Validate, Agrees, EntryNormal, EnvelopeAcceptable;
  }

  /**
   * Before the pin moves, the manifest if there is one, every cross-check and every single record have been verified.
   */
  lemma OpenedIsVerified(
    lib: Library, pin: Option<VaultRevision>, s: Snapshot, vaultKey: seq<byte>,
    checks: seq<CrossCheck>) returns (m: Manifest)
    requires OpenedSnapshot(lib, pin, s, vaultKey, checks).Ok?
    ensures s.sealed.Some? ==> Vouched(lib.crypto, s, vaultKey, m)
    ensures s.sealed.Some? ==>
      SealedDigest(lib.crypto, s.sealed.value).Ok?
      && OpenedSnapshot(lib, pin, s, vaultKey, checks).value.pin.manifestDigest
        == Some(SealedDigest(lib.crypto, s.sealed.value).value)
    ensures forall i :: 0 <= i < |s.contents.entries| ==>
      var e := s.contents.entries[i];
      e.vaultKeyVersion == s.header.vaultKeyVersion
      && DecryptEntry(lib.crypto, e, vaultKey, s.header.vaultId, e.id, s.header.vaultKeyVersion).Ok?
    ensures forall i :: 0 <= i < |checks| ==>
      CrossChecked(lib.crypto, s.header.vaultId, s.header.vaultKeyVersion, checks[i]) == Ok(vaultKey)
  {
    hide Check, Decode, DecryptEntry, CrossChecked, SealedDigest, DecryptedEntries, AssertFreshSnapshot, Canonical;
    m := Manifest(s.header, [], []);
    if s.sealed.Some? {
      OpenedIsCanonical(lib.crypto, s.sealed.value, vaultKey, Claimed(s));
      m := OpenManifest(lib.crypto, s.sealed.value, vaultKey, Claimed(s)).value.manifest;
      CheckedKeepsEntries(lib.crypto.hash, m, s.contents);
    }
    VerifiedIsUnmixed(lib.crypto, s.header.vaultId, vaultKey, s.header.vaultKeyVersion, s.contents.entries);
  }

  // ---- The way in: fetch, find the envelope, unwrap, open ----

  function FetchedFresh(c: Crypto, pin: Option<VaultRevision>, vaultId: seq<byte>, s: Snapshot): Result<Action> {
    if s.header.vaultId != vaultId then Err(Other)
    else if s.sealed.Some? then
      var digest :- SealedDigest(c, s.sealed.value);
      AssertFreshSnapshot(pin, PinOf(s.header, Some(digest)))
    else AssertFreshSnapshot(pin, PinOf(s.header, None))
  }

  function FirstOfKind(vs: seq<KeyEnvelope>, kind: EnvelopeType): (r: Option<KeyEnvelope>)
    ensures r.Some? ==> r.value in vs && r.value.kind == kind
    ensures r.None? ==> forall v :: v in vs ==> v.kind != kind
  {
    if vs == [] then None else if vs[0].kind == kind then Some(vs[0]) else FirstOfKind(vs[1..], kind)
  }

  /** The wrapping key that a typed recovery key yields, or the error of reading it. */
  type TypedKit = Result<seq<byte>>

  datatype Way = ByPassword(password: seq<byte>) | ByRecoveryKey(typed: TypedKit)

  function KindFor(way: Way): EnvelopeType {
    match way case ByPassword(_) => Master case ByRecoveryKey(_) => Recovery
  }

  function MasterKeyFor(lib: Library, password: seq<byte>, v: KeyEnvelope): Result<seq<byte>> {
    if v.kind != Master || v.kdf.None? then Err(Protocol)
    else match lib.deriveMaster(password, v.kdf.value) case None => Err(Protocol) case Some(key) => Ok(key)
  }

  function WrappingKeyFor(lib: Library, way: Way, v: KeyEnvelope): Result<seq<byte>> {
    match way
    case ByPassword(password) => MasterKeyFor(lib, password, v)
    case ByRecoveryKey(typed) => typed
  }

  /** The vault key behind one envelope of a snapshot, with the pair used for the cross-check. */
  function Unwrapped(lib: Library, vaultId: seq<byte>, s: Snapshot, way: Way): Result<(seq<byte>, CrossCheck)> {
    match FirstOfKind(s.contents.envelopes, KindFor(way))
    case None => Err(Other)
    case Some(v) =>
      var wrappingKey :- WrappingKeyFor(lib, way, v);
      var vaultKey :- UnwrapVaultKey(
        lib.crypto, v, wrappingKey, Expected(vaultId, KindFor(way), s.header.vaultKeyVersion, None, None));
      Ok((vaultKey, CrossCheck(v, wrappingKey, None, None)))
  }

  function Unlocked(lib: Library, pin: Option<VaultRevision>, vaultId: seq<byte>, s: Snapshot, way: Way)
    : Result<(seq<byte>, Opened)>
  {
    var _ :- FetchedFresh(lib.crypto, pin, vaultId, s);
    var (vaultKey, check) :- Unwrapped(lib, vaultId, s, way);
    var o :- OpenedSnapshot(lib, pin, s, vaultKey, [check]);
    Ok((vaultKey, o))
  }

  // ---- What a commit sends ----

  /** One fresh nonce per record, and one for the manifest. */
  datatype Nonces = Nonces(entry: nat -> seq<byte>, manifest: seq<byte>, envelope: nat -> seq<byte>)

  function SealEntries(lib: Library, nonces: Nonces, vaultKey: seq<byte>, vaultId: seq<byte>, vaultKeyVersion: int,
      entries: seq<VaultEntry>)
    : (r: Result<seq<EncryptedEntry>>)
    ensures r.Ok? ==> |r.value| == |entries|
    ensures r.Ok? ==> forall i :: 0 <= i < |entries| ==>
      EncryptEntry(lib.crypto, nonces.entry(i), vaultKey, vaultId, entries[i].id, lib.writeEntry(entries[i]),
        vaultKeyVersion, ENTRY_SCHEMA_VERSION) == Ok(r.value[i])
  {
    if entries == [] then Ok([])
    else
      var i := |entries| - 1;
      var before :- SealEntries(lib, nonces, vaultKey, vaultId, vaultKeyVersion, entries[..i]);
      var e :- EncryptEntry(lib.crypto, nonces.entry(i), vaultKey, vaultId, entries[i].id, lib.writeEntry(entries[i]),
        vaultKeyVersion, ENTRY_SCHEMA_VERSION);
      Ok(before + [e])
  }

  function NextHeader(view: View, vaultKeyVersion: int): Header {
    Header(view.vaultId, view.revision + 1, vaultKeyVersion, CRYPTO_PROTOCOL_VERSION)
  }

  function CommitPayload(
    lib: Library, nonces: Nonces, view: View, entries: seq<VaultEntry>, envelopes: seq<KeyEnvelope>,
    vaultKey: seq<byte>, vaultKeyVersion: int): Result<Payload>
  {
    var sealedEntries :- SealEntries(lib, nonces, vaultKey, view.vaultId, vaultKeyVersion, entries);
    var header, contents := NextHeader(view, vaultKeyVersion), Contents(sealedEntries, envelopes);
    var m :- Build(lib.crypto.hash, header, contents, false);
    var sealed :- SealManifest(lib.crypto, nonces.manifest, vaultKey, m);
    Ok(Payload(Some(view.revision), header, contents, Some(sealed)))
  }

  /** Anything may come back; only Stored carries a snapshot. */
  datatype Reply = Stored(s: Snapshot) | RevisionConflict(current: int) | Refused

  function Committed(lib: Library, pin: seq<byte> -> Option<VaultRevision>, payload: Result<Payload>,
      vaultKey: seq<byte>, reply: Reply)
    : Result<Opened>
  {
    if payload.Err? then Err(payload.error)
    else
      match reply
      case Stored(s) => OpenedSnapshot(lib, pin(s.header.vaultId), s, vaultKey, [])
      case RevisionConflict(_) => Err(Conflict)
      case Refused => Err(Other)
  }

  // ---- Hard revocation: the next key generation and who gets an envelope for it ----

  datatype RotationCoins = RotationCoins(vaultKey: seq<byte>, salt: seq<byte>, nonces: Nonces)

  datatype LocalDevice = LocalDevice(deviceKey: seq<byte>, deviceKeyVersion: int)

  predicate Entitled(view: View, deviceId: seq<byte>) {
    exists v :: v in view.envelopes && v.kind == Device && v.deviceId == Some(deviceId)
  }

  /** Confirms that an envelope of the unlocked vault holds the key in use. */
  function Confirmed(lib: Library, view: View, vaultKey: seq<byte>, v: KeyEnvelope,
      wrappingKey: seq<byte>): Result<()> {
    var found :- UnwrapVaultKey(lib.crypto, v, wrappingKey,
      Expected(view.vaultId, v.kind, view.vaultKeyVersion, None, None));
    if found == vaultKey then Ok(()) else Err(Other)
  }

  datatype RotationKeys = RotationKeys(kdf: Kdf, masterKey: seq<byte>, recovery: Option<seq<byte>>)

  function RotationEnvelopes(
    lib: Library, coins: RotationCoins, view: View, keys: RotationKeys, currentId: seq<byte>,
    local: Option<LocalDevice>)
    : Result<seq<KeyEnvelope>>
  {
    var generation := view.vaultKeyVersion + 1;
    var master :- WrapVaultKey(lib.crypto, coins.nonces.envelope(0), coins.vaultKey, keys.masterKey,
      view.vaultId, Master, CRYPTO_PROTOCOL_VERSION, generation, None, None, Some(keys.kdf.(salt := coins.salt)));
    var second: seq<KeyEnvelope> :-
      if keys.recovery.None? then Ok([])
      else
        var v :- WrapVaultKey(lib.crypto, coins.nonces.envelope(1), coins.vaultKey, keys.recovery.value,
          view.vaultId, Recovery, CRYPTO_PROTOCOL_VERSION, generation, None, None, None);
        Ok([v]);
    var third: seq<KeyEnvelope> :-
      if local.None? then Ok([])
      else
        var v :- WrapVaultKey(lib.crypto, coins.nonces.envelope(2), coins.vaultKey, local.value.deviceKey,
          view.vaultId, Device, CRYPTO_PROTOCOL_VERSION, generation, Some(currentId),
          Some(local.value.deviceKeyVersion), None);
        Ok([v]);
    Ok([master] + second + third)
  }

  /** The local device key that is wrapped again: never the target's, never one whose device lost its envelope. */
  function KeptDevice(view: View, target: seq<byte>, currentId: seq<byte>,
      local: Option<LocalDevice>): Option<LocalDevice> {
    if target != currentId && Entitled(view, currentId) then local else None
  }

  /** The password opens the vault key in use; returns the cost parameters to keep. */
  function ConfirmedMaster(lib: Library, view: View, vaultKey: seq<byte>, password: seq<byte>): Result<KeyEnvelope> {
    var master := FirstOfKind(view.envelopes, Master);
    if master.None? || master.value.kdf.None? then Err(Other)
    else
      var masterKey :- MasterKeyFor(lib, password, master.value);
      var _ :- Confirmed(lib, view, vaultKey, master.value, masterKey);
      Ok(master.value)
  }

  /** The next master key: same password and costs, fresh salt. */
  function NextMasterKey(lib: Library, password: seq<byte>, kdf: Kdf, salt: seq<byte>): Result<seq<byte>> {
    match lib.deriveMaster(password, kdf.(salt := salt)) case None => Err(Protocol) case Some(key) => Ok(key)
  }

  /** The checks before anything is minted: password and kit must both open the key in use. */
  function CheckedKeys(
    lib: Library, view: View, vaultKey: seq<byte>, password: seq<byte>, recovery: Option<TypedKit>)
    : Result<(Kdf, Option<seq<byte>>)>
  {
    var master :- ConfirmedMaster(lib, view, vaultKey, password);
    if master.kdf.None? then Err(Other)
    else
      var kit := FirstOfKind(view.envelopes, Recovery);
      if kit.None? then Ok((master.kdf.value, None))
      else if recovery.None? then Err(Other)
      else
        var wrappingKey :- recovery.value;
        var _ :- Confirmed(lib, view, vaultKey, kit.value, wrappingKey);
        Ok((master.kdf.value, Some(wrappingKey)))
  }

  function ConfirmedKeys(
    lib: Library, coins: RotationCoins, view: View, vaultKey: seq<byte>, password: seq<byte>,
    recovery: Option<TypedKit>)
    : (r: Result<RotationKeys>)
    ensures r.Ok? ==> (r.value.recovery.Some? <==> FirstOfKind(view.envelopes, Recovery).Some?)
    ensures r.Ok? && r.value.recovery.Some? ==> recovery == Some(Ok(r.value.recovery.value))
    ensures r.Ok? ==>
      var kdf := r.value.kdf.(salt := coins.salt);
      lib.deriveMaster(password, kdf).Some? && r.value.masterKey == lib.deriveMaster(password, kdf).value
  {
    var (kdf, kit) :- CheckedKeys(lib, view, vaultKey, password, recovery);
    var masterKey2 :- NextMasterKey(lib, password, kdf, coins.salt);
    Ok(RotationKeys(kdf, masterKey2, kit))
  }

  /** The rotation for one device id and the device key this browser could read without a ceremony. */
  function RotationPayload(
    lib: Library, coins: RotationCoins, view: View, vaultKey: seq<byte>, target: seq<byte>, currentId: seq<byte>,
    password: seq<byte>, recovery: Option<TypedKit>, local: Option<LocalDevice>): Result<Payload>
  {
    var keys :- ConfirmedKeys(lib, coins, view, vaultKey, password, recovery);
    var envelopes :- RotationEnvelopes(lib, coins, view, keys, currentId, KeptDevice(view, target, currentId, local));
    CommitPayload(lib, coins.nonces, view, view.entries, envelopes, coins.vaultKey, view.vaultKeyVersion + 1)
  }

  /**
   * What else may throw in the browser: the draws from the random source after that of the vault key, deviceId() and
   * tryLocalDeviceKey, which read local storage.
   */
  datatype Browser = Browser(random: nat -> bool, deviceId: Result<seq<byte>>, local: Result<Option<LocalDevice>>)

  function Drawn(browser: Browser, i: nat): Result<()> {
    if browser.random(i) then Ok(()) else Err(Other)
  }

  /** The device id, and the device key if this device is to keep its entitlement. */
  function ReadBrowser(view: View, target: seq<byte>, browser: Browser): Result<(seq<byte>, Option<LocalDevice>)> {
    var currentId :- browser.deviceId;
    if target == currentId || !Entitled(view, currentId) then Ok((currentId, None))
    else
      var local :- browser.local;
      Ok((currentId, local))
  }

  /** What hardRevokeDevice sends. */
  function HardRevokePayload(
    lib: Library, coins: RotationCoins, view: View, vaultKey: seq<byte>, target: seq<byte>, password: seq<byte>,
    recovery: Option<TypedKit>, browser: Browser): Result<Payload>
  {
    var (kdf, _) :- CheckedKeys(lib, view, vaultKey, password, recovery);
    var _ :- Drawn(browser, 0);
    var _ :- NextMasterKey(lib, password, kdf, coins.salt);
    var (currentId, local) :- ReadBrowser(view, target, browser);
    RotationPayload(lib, coins, view, vaultKey, target, currentId, password, recovery, local)
  }

  /** What may throw after the new key is minted and before the block that wipes it on failure. */
  predicate Unguarded(
    lib: Library, coins: RotationCoins, view: View, vaultKey: seq<byte>, target: seq<byte>, password: seq<byte>,
    recovery: Option<TypedKit>, browser: Browser)
  {
    var checked := CheckedKeys(lib, view, vaultKey, password, recovery);
    checked.Ok?
    && (Drawn(browser, 0).Err? || NextMasterKey(lib, password, checked.value.0, coins.salt).Err?
        || ReadBrowser(view, target, browser).Err?)
  }

  /** What goes out is a rotation for this device, with its own key only if the browser gave it up. */
  lemma HardRevokeIsARotation(
    lib: Library, coins: RotationCoins, view: View, vaultKey: seq<byte>, target: seq<byte>, password: seq<byte>,
    recovery: Option<TypedKit>, browser: Browser, p: Payload) returns (currentId: seq<byte>, local: Option<LocalDevice>)
    requires HardRevokePayload(lib, coins, view, vaultKey, target, password, recovery, browser) == Ok(p)
    ensures browser.deviceId == Ok(currentId) && (local.Some? ==> browser.local == Ok(local))
    ensures RotationPayload(lib, coins, view, vaultKey, target, currentId, password, recovery, local) == Ok(p)
    ensures !Unguarded(lib, coins, view, vaultKey, target, password, recovery, browser)
  {
    hide RotationEnvelopes, CommitPayload, CheckedKeys, NextMasterKey, Entitled;
    var read := ReadBrowser(view, target, browser).value;
    currentId, local := read.0, read.1;
  }

  /** There is such an input: the password opens the vault, and then local storage is blocked. */
  lemma UnguardedIsReachable(lib: Library, coins: RotationCoins, vaultKey: seq<byte>, masterKey: Digest)
    returns (blocked: Library, view: View, browser: Browser)
    requires IsKey(vaultKey)
    ensures Unguarded(blocked, coins, view, vaultKey, [], [], None, browser)
  {
    var kdf := Kdf("argon2id", 0x13, 64 * 1024, 3, 1, 32, seq(16, _ => 0));
    var envelope := KeyEnvelope(1, Master, 1, Some(kdf), None, None, "AES-256-GCM", seq(NONCE_BYTES, _ => 0),
      seq(KEY_BYTES, _ => 0), seq(TAG_BYTES, _ => 0));
    blocked := lib.(
      crypto := lib.crypto.(open := (_, _, _) => Some(vaultKey)), deriveMaster := (_, _) => Some(masterKey));
    view := View([65], 1, 1, [envelope], []);
    browser := Browser(_ => true, Err(Other), Ok(None));
    assert ResolveFields([65], Master, 1, 1, None, None, Some(kdf), false).Ok?;
    assert UnwrapVaultKey(blocked.crypto, envelope, masterKey, Expected([65], Master, 1, None, None)) == Ok(vaultKey);
    assert FirstOfKind(view.envelopes, Recovery).None?;
  }

  predicate IsFor(v: KeyEnvelope, kind: EnvelopeType, generation: int, deviceId: Option<seq<byte>>) {
    v.kind == kind && v.vaultKeyVersion == generation && v.deviceId == deviceId
  }

  /** Master always, then recovery if there was one, then at most this device: nothing else. */
  predicate RotationShape(vs: seq<KeyEnvelope>, generation: int, withKit: bool, withDevice: bool,
      currentId: seq<byte>) {
    && |vs| == 1 + (if withKit then 1 else 0) + (if withDevice then 1 else 0)
    && IsFor(vs[0], Master, generation, None)
    && (withKit ==> IsFor(vs[1], Recovery, generation, None))
    && (withDevice ==> IsFor(vs[|vs| - 1], Device, generation, Some(currentId)))
  }

  lemma RotationHasShape(
    lib: Library, coins: RotationCoins, view: View, keys: RotationKeys, currentId: seq<byte>,
    local: Option<LocalDevice>,
    vs: seq<KeyEnvelope>)
    requires RotationEnvelopes(lib, coins, view, keys, currentId, local) == Ok(vs)
    ensures RotationShape(vs, view.vaultKeyVersion + 1, keys.recovery.Some?, local.Some?, currentId)
  {
  }

  lemma ShapeMembers(vs: seq<KeyEnvelope>, generation: int, withKit: bool, withDevice: bool, currentId: seq<byte>)
    requires RotationShape(vs, generation, withKit, withDevice, currentId)
    ensures forall v :: v in vs ==>
      v.vaultKeyVersion == generation && (v.kind == Device ==> v.deviceId == Some(currentId))
    ensures exists v :: v in vs && v.kind == Master
    ensures (exists v :: v in vs && v.kind == Recovery) <==> withKit
    ensures (exists v :: v in vs && v.kind == Device) <==> withDevice
  {
    assert vs[0] in vs && (withKit ==> vs[1] in vs) && (withDevice ==> vs[|vs| - 1] in vs);
  }

  lemma PayloadIsNextRevision(
    lib: Library, nonces: Nonces, view: View, entries: seq<VaultEntry>, envelopes: seq<KeyEnvelope>,
    vaultKey: seq<byte>, vaultKeyVersion: int, p: Payload)
    requires CommitPayload(lib, nonces, view, entries, envelopes, vaultKey, vaultKeyVersion) == Ok(p)
    ensures p.expectedRevision == Some(view.revision) && p.header == NextHeader(view, vaultKeyVersion)
    ensures p.contents.envelopes == envelopes && p.sealed.Some?
    ensures SealEntries(lib, nonces, vaultKey, view.vaultId, vaultKeyVersion, entries) == Ok(p.contents.entries)
  {
  }

  lemma RotationIsACommit(
    lib: Library, coins: RotationCoins, view: View, vaultKey: seq<byte>, target: seq<byte>, currentId: seq<byte>,
    password: seq<byte>, recovery: Option<TypedKit>, local: Option<LocalDevice>, p: Payload)
    returns (keys: RotationKeys, vs: seq<KeyEnvelope>)
    requires RotationPayload(lib, coins, view, vaultKey, target, currentId, password, recovery, local) == Ok(p)
    ensures ConfirmedKeys(lib, coins, view, vaultKey, password, recovery) == Ok(keys)
    ensures keys.recovery.Some? <==> FirstOfKind(view.envelopes, Recovery).Some?
    ensures RotationEnvelopes(lib, coins, view, keys, currentId, KeptDevice(view, target, currentId, local)) == Ok(vs)
    ensures CommitPayload(lib, coins.nonces, view, view.entries, vs, coins.vaultKey, view.vaultKeyVersion + 1) == Ok(p)
  {
    hide ConfirmedKeys, RotationEnvelopes, CommitPayload;
    keys := ConfirmedKeys(lib, coins, view, vaultKey, password, recovery).value;
    vs := RotationEnvelopes(lib, coins, view, keys, currentId, KeptDevice(view, target, currentId, local)).value;
  }

  /** The revoked device is left out, the generation goes up, and everyone else who should get the key does. */
  lemma RotationLeavesOutTheTarget(
    lib: Library, coins: RotationCoins, view: View, vaultKey: seq<byte>, target: seq<byte>, currentId: seq<byte>,
    password: seq<byte>, recovery: Option<TypedKit>, local: Option<LocalDevice>, p: Payload)
    requires RotationPayload(lib, coins, view, vaultKey, target, currentId, password, recovery, local) == Ok(p)
    ensures p.expectedRevision == Some(view.revision) && p.header == NextHeader(view, view.vaultKeyVersion + 1)
    ensures forall v :: v in p.contents.envelopes ==>
      v.vaultKeyVersion == view.vaultKeyVersion + 1
      && (v.kind == Device ==> v.deviceId == Some(currentId) != Some(target))
    ensures exists v :: v in p.contents.envelopes && v.kind == Master
    ensures (exists v :: v in p.contents.envelopes && v.kind == Recovery)
      <==> FirstOfKind(view.envelopes, Recovery).Some?
    ensures (exists v :: v in p.contents.envelopes && v.kind == Device)
      <==> target != currentId && Entitled(view, currentId) && local.Some?
  {
    var keys, vs := RotationIsACommit(lib, coins, view, vaultKey, target, currentId, password, recovery, local, p);
    var kept := KeptDevice(view, target, currentId, local);
    RotationHasShape(lib, coins, view, keys, currentId, kept, vs);
    ShapeMembers(vs, view.vaultKeyVersion + 1, keys.recovery.Some?, kept.Some?, currentId);
    PayloadIsNextRevision(lib, coins.nonces, view, view.entries, vs, coins.vaultKey, view.vaultKeyVersion + 1, p);
  }
}
