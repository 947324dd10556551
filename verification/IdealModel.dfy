/** The ideal hypotheses can be met: for any boxes that differ there is a cipher that opens them as they ask. */
module IdealModel {
  import opened Common
  import opened Bytes
  import opened ManifestModel
  import opened ManifestCodec
  import opened SnapshotCheck
  import opened Envelope
  import opened DeviceKeys
  import opened SealedManifests
  import opened Sessions
  import opened HeadRecoveries
  import opened CommitRoundTrips
  import opened RecoveryKit
  import opened KitRotations

  datatype Secret = Secret(key: seq<byte>, aad: seq<byte>, plaintext: seq<byte>)

  type Opener = (seq<byte>, Box, seq<byte>) -> Option<seq<byte>>

  /** A cipher that knows what is in some boxes, and does with all others what it did before. */
  function TableOpen(open: Opener, table: map<Box, Secret>): Opener {
    (k, box, a) =>
      if box !in table then open(k, box, a)
      else if table[box].key == k && table[box].aad == a then Some(table[box].plaintext)
      else None
  }

  lemma TableIsIdeal(c: Crypto, table: map<Box, Secret>, box: Box)
    requires box in table
    ensures OpensOnlyAs(c.(open := TableOpen(c.open, table)), box, table[box].key, table[box].aad, table[box].plaintext)
    ensures forall keys :: OneKey(c.(open := TableOpen(c.open, table)), box, keys)
  {
  }

  function WithOpen(lib: Library, open: Opener): Library {
    lib.(crypto := lib.crypto.(open := open))
  }

  lemma {:induction false} SealingIgnoresOpen(
    lib: Library, open: Opener, nonces: Nonces, vaultKey: seq<byte>,
    vaultId: seq<byte>,
    vaultKeyVersion: int, entries: seq<VaultEntry>)
    ensures SealEntries(WithOpen(lib, open), nonces, vaultKey, vaultId, vaultKeyVersion, entries)
      == SealEntries(lib, nonces, vaultKey, vaultId, vaultKeyVersion, entries)
  {
    if entries != [] {
      SealingIgnoresOpen(lib, open, nonces, vaultKey, vaultId, vaultKeyVersion, entries[..|entries| - 1]);
    }
  }

  lemma PayloadIgnoresOpen(
    lib: Library, open: Opener, nonces: Nonces, view: View,
    entries: seq<VaultEntry>,
    envelopes: seq<KeyEnvelope>, vaultKey: seq<byte>, vaultKeyVersion: int)
    ensures CommitPayload(WithOpen(lib, open), nonces, view, entries, envelopes, vaultKey, vaultKeyVersion)
      == CommitPayload(lib, nonces, view, entries, envelopes, vaultKey, vaultKeyVersion)
  {
    hide SealEntries, Build, Encode, Validate;
    SealingIgnoresOpen(lib, open, nonces, vaultKey, view.vaultId, vaultKeyVersion, entries);
  }

  function EntryBox(e: EncryptedEntry): Box {
    Box(e.nonce, e.ciphertext, e.tag)
  }

  /** The boxes have the sizes of AES-GCM, and no two records share one. */
  predicate BoxesDistinct(p: Payload) {
    && p.sealed.Some? && |p.sealed.value.box.nonce| == NONCE_BYTES && |p.sealed.value.box.tag| == TAG_BYTES
    && |p.sealed.value.box.ciphertext| <= U32_MAX
    && (forall e :: e in p.contents.entries ==>
          EntryNormal(e) && |e.ciphertext| <= U32_MAX && EntryBox(e) != p.sealed.value.box)
    && (forall i, j :: 0 <= i < j < |p.contents.entries| ==>
        EntryBox(p.contents.entries[i]) != EntryBox(p.contents.entries[j]))
  }

  function PayloadBoxes(p: Payload): set<Box>
    requires p.sealed.Some?
  {
    {p.sealed.value.box} + set e | e in p.contents.entries :: EntryBox(e)
  }

  /** Entry i of the payload, as the cipher has to remember it. */
  function SecretOf(lib: Library, p: Payload, vaultKey: seq<byte>, entries: seq<VaultEntry>, i: nat): Secret
    requires i < |p.contents.entries| == |entries| && EntryNormal(p.contents.entries[i]) && IsId(p.header.vaultId)
  {
    Secret(vaultKey, EntryAad(p.header.vaultId, p.contents.entries[i]), lib.writeEntry(entries[i]))
  }

  lemma TableOfEntries(
    lib: Library, p: Payload, vaultKey: seq<byte>, entries: seq<VaultEntry>, n: nat) returns (table: map<Box, Secret>)
    requires BoxesDistinct(p) && n <= |p.contents.entries| == |entries| && IsId(p.header.vaultId)
    ensures forall i :: 0 <= i < n ==>
      EntryBox(p.contents.entries[i]) in table
      && table[EntryBox(p.contents.entries[i])] == SecretOf(lib, p, vaultKey, entries, i)
    ensures forall b :: b in table ==> exists i :: 0 <= i < n && b == EntryBox(p.contents.entries[i])
  {
    hide EntryNormal, EntryAad, IsId;
    if n == 0 {
      table := map[];
    } else {
      var before := TableOfEntries(lib, p, vaultKey, entries, n - 1);
      table := before[EntryBox(p.contents.entries[n - 1]) := SecretOf(lib, p, vaultKey, entries, n - 1)];
    }
  }

  predicate Remembers(lib: Library, table: map<Box, Secret>, p: Payload, m: Manifest, vaultKey: seq<byte>,
      entries: seq<VaultEntry>)
    requires BoxesDistinct(p) && |p.contents.entries| == |entries| && IsId(p.header.vaultId) && HeaderOk(m.header)
      && Encode(m).Ok?
  {
    && p.sealed.value.box in table
    && table[p.sealed.value.box] == Secret(vaultKey, ManifestAad(m.header), Encode(m).value)
    && forall i :: 0 <= i < |entries| ==>
      EntryBox(p.contents.entries[i]) in table
      && table[EntryBox(p.contents.entries[i])] == SecretOf(lib, p, vaultKey, entries, i)
  }

  lemma TableOfPayload(lib: Library, p: Payload, m: Manifest, vaultKey: seq<byte>, entries: seq<VaultEntry>)
    returns (table: map<Box, Secret>)
    requires BoxesDistinct(p) && |p.contents.entries| == |entries| && IsId(p.header.vaultId) && HeaderOk(m.header)
      && Encode(m).Ok?
    ensures Remembers(lib, table, p, m, vaultKey, entries)
    ensures table.Keys <= PayloadBoxes(p)
  {
    hide Encode, EntryAad, ManifestAad, EntryNormal, IsId, HeaderOk;
    var front := TableOfEntries(lib, p, vaultKey, entries, |entries|);
    var box := p.sealed.value.box;
    assert forall i :: 0 <= i < |entries| ==> p.contents.entries[i] in p.contents.entries;
    table := front[box := Secret(vaultKey, ManifestAad(m.header), Encode(m).value)];
  }

  lemma RememberedIsIdeal(
    lib: Library, table: map<Box, Secret>, p: Payload, m: Manifest, vaultKey: seq<byte>, entries: seq<VaultEntry>)
    requires BoxesDistinct(p) && |p.contents.entries| == |entries| && IsId(p.header.vaultId) && HeaderOk(m.header)
      && Encode(m).Ok?
    requires Remembers(lib, table, p, m, vaultKey, entries)
    ensures IdealPayload(WithOpen(lib, TableOpen(lib.crypto.open, table)), p, m, vaultKey, entries)
  {
    hide Encode, EntryAad, ManifestAad, EntryNormal, IsId, HeaderOk;
    forall i | 0 <= i < |entries|
      ensures IdealEntry(
        WithOpen(lib, TableOpen(lib.crypto.open, table)).crypto, p.contents.entries[i], vaultKey, p.header.vaultId,
        lib.writeEntry(entries[i]))
    {
      assert p.contents.entries[i] in p.contents.entries;
    }
  }

  /** So CommitRoundTrips.CommittedReadsBack speaks about every payload whose boxes differ. */
  lemma IdealLibraryExists(
    lib: Library, nonces: Nonces, view: View, entries: seq<VaultEntry>, envelopes: seq<KeyEnvelope>,
    vaultKey: seq<byte>, vaultKeyVersion: int, p: Payload, m: Manifest) returns (ideal: Library)
    requires CommitPayload(lib, nonces, view, entries, envelopes, vaultKey, vaultKeyVersion) == Ok(p)
    requires Build(lib.crypto.hash, p.header, p.contents, false) == Ok(m) && Encode(m).Ok? && BoxesDistinct(p)
    ensures ideal == WithOpen(lib, ideal.crypto.open)
    ensures CommitPayload(ideal, nonces, view, entries, envelopes, vaultKey, vaultKeyVersion) == Ok(p)
    ensures IdealPayload(ideal, p, m, vaultKey, entries)
  {
    hide CommitPayload, Build, Encode, SealEntries, BoxesDistinct, Remembers, IdealPayload, Canonical, Check,
      Normalize, IsId;
    PayloadIsNextRevision(lib, nonces, view, entries, envelopes, vaultKey, vaultKeyVersion, p);
    OwnBuildChecks(lib.crypto.hash, p.header, p.contents, m);
    CanonicalHeader(m);
    var table := TableOfPayload(lib, p, m, vaultKey, entries);
    RememberedIsIdeal(lib, table, p, m, vaultKey, entries);
    PayloadIgnoresOpen(lib, TableOpen(lib.crypto.open, table), nonces, view, entries, envelopes, vaultKey,
      vaultKeyVersion);
    ideal := WithOpen(lib, TableOpen(lib.crypto.open, table));
  }

  lemma CanonicalHeader(m: Manifest)
    requires Canonical(m)
    ensures HeaderOk(m.header) && IsId(m.header.vaultId)
  {
  }

  // ---- The boxes of a rotation ----

  /** The new boxes have the right sizes and differ, from each other and from those of the old envelopes. */
  predicate RotationBoxesDistinct(view: View, p: Payload, n: nat) {
    && BoxesDistinct(p) && 1 <= n <= 2 && n <= |p.contents.envelopes|
    && (forall i :: 0 <= i < n ==>
          var v := p.contents.envelopes[i];
          && |v.nonce| == NONCE_BYTES && |v.tag| == TAG_BYTES && |v.ciphertext| == KEY_BYTES
          && BoxOf(v) !in PayloadBoxes(p))
    && (n == 2 ==> BoxOf(p.contents.envelopes[0]) != BoxOf(p.contents.envelopes[1]))
    && (forall v :: v in view.envelopes ==>
          BoxOf(v) !in PayloadBoxes(p) && forall i :: 0 <= i < n ==> BoxOf(v) != BoxOf(p.contents.envelopes[i]))
  }

  lemma OldEnvelopeOpensAsBefore(c: Crypto, table: map<Box, Secret>, v: KeyEnvelope, key: seq<byte>, want: Expected)
    requires BoxOf(v) !in table
    ensures UnwrapVaultKey(c.(open := TableOpen(c.open, table)), v, key, want) == UnwrapVaultKey(c, v, key, want)
  {
    hide ResolveFields, IsId;
  }

  lemma ConfirmationIgnoresTable(
    lib: Library, table: map<Box, Secret>, coins: RotationCoins, view: View, vaultKey: seq<byte>, password: seq<byte>,
    recovery: Option<TypedKit>)
    requires forall v :: v in view.envelopes ==> BoxOf(v) !in table
    ensures ConfirmedKeys(WithOpen(lib, TableOpen(lib.crypto.open, table)), coins, view, vaultKey, password, recovery)
      == ConfirmedKeys(lib, coins, view, vaultKey, password, recovery)
  {
    hide UnwrapVaultKey, FirstOfKind, BoxOf;
    forall v, key | v in view.envelopes
      ensures Confirmed(WithOpen(lib, TableOpen(lib.crypto.open, table)), view, vaultKey, v, key)
        == Confirmed(lib, view, vaultKey, v, key)
    {
      OldEnvelopeOpensAsBefore(
        lib.crypto, table, v, key, Expected(view.vaultId, v.kind, view.vaultKeyVersion, None, None));
    }
  }

  lemma RotationIgnoresTable(
    lib: Library, table: map<Box, Secret>, coins: RotationCoins, view: View, vaultKey: seq<byte>, target: seq<byte>,
    currentId: seq<byte>, password: seq<byte>, recovery: Option<TypedKit>, local: Option<LocalDevice>)
    requires forall v :: v in view.envelopes ==> BoxOf(v) !in table
    ensures RotationPayload(WithOpen(lib, TableOpen(lib.crypto.open, table)), coins, view, vaultKey, target, currentId,
              password, recovery, local)
      == RotationPayload(lib, coins, view, vaultKey, target, currentId, password, recovery, local)
  {
    hide ConfirmedKeys, CommitPayload, KeptDevice, ResolveFields, EnvelopeAad;
    ConfirmationIgnoresTable(lib, table, coins, view, vaultKey, password, recovery);
    var keys := ConfirmedKeys(lib, coins, view, vaultKey, password, recovery);
    if keys.Ok? {
      var vs := RotationEnvelopes(lib, coins, view, keys.value, currentId, KeptDevice(view, target, currentId, local));
      WrappingIgnoresOpen(lib, TableOpen(lib.crypto.open, table), coins, view, keys.value, currentId,
        KeptDevice(view, target, currentId, local));
      if vs.Ok? {
        PayloadIgnoresOpen(lib, TableOpen(lib.crypto.open, table), coins.nonces, view, view.entries, vs.value,
          coins.vaultKey, view.vaultKeyVersion + 1);
      }
    }
  }

  lemma WrappingIgnoresOpen(
    lib: Library, open: Opener, coins: RotationCoins, view: View, keys: RotationKeys, currentId: seq<byte>,
    local: Option<LocalDevice>)
    ensures RotationEnvelopes(WithOpen(lib, open), coins, view, keys, currentId, local)
      == RotationEnvelopes(lib, coins, view, keys, currentId, local)
  {
    hide ResolveFields;
  }

  lemma RotatedFieldsOk(
    lib: Library, coins: RotationCoins, view: View, keys: RotationKeys, currentId: seq<byte>,
    local: Option<LocalDevice>, vs: seq<KeyEnvelope>)
    requires RotationEnvelopes(lib, coins, view, keys, currentId, local) == Ok(vs)
    ensures FieldsOk(RotatedFields(view, Master, Some(keys.kdf.(salt := coins.salt))))
    ensures FieldsOk(RotatedFields(view, Recovery, None))
  {
    hide EnvelopeAad, IsId;
  }

  /** So CommitRoundTrips.RotatedVaultReopens speaks about every rotation whose boxes differ. */
  lemma IdealRotationExists(
    lib: Library, coins: RotationCoins, view: View, vaultKey: seq<byte>, target: seq<byte>, currentId: seq<byte>,
    password: seq<byte>, recovery: Option<TypedKit>, local: Option<LocalDevice>, p: Payload, m: Manifest,
    keys: RotationKeys) returns (ideal: Library)
    requires RotationPayload(lib, coins, view, vaultKey, target, currentId, password, recovery, local) == Ok(p)
    requires ConfirmedKeys(lib, coins, view, vaultKey, password, recovery) == Ok(keys)
    requires Build(lib.crypto.hash, p.header, p.contents, false) == Ok(m) && Encode(m).Ok?
    requires RotationBoxesDistinct(view, p, if keys.recovery.Some? then 2 else 1)
    ensures ideal == WithOpen(lib, ideal.crypto.open)
    ensures RotationPayload(ideal, coins, view, vaultKey, target, currentId, password, recovery, local) == Ok(p)
    ensures ConfirmedKeys(ideal, coins, view, vaultKey, password, recovery) == Ok(keys)
    ensures IdealRotation(ideal, coins, view, keys, p.contents.envelopes)
    ensures IdealPayload(ideal, p, m, coins.vaultKey, view.entries)
  {
    hide RotationPayload, ConfirmedKeys, RotationEnvelopes, CommitPayload, Build, Encode, SealEntries, BoxesDistinct,
      Canonical, Check, Normalize, IsId, FieldsOk, EnvelopeAad, Remembers, IdealPayload, PayloadBoxes, HeaderOk;
    var again, vs := RotationIsACommit(lib, coins, view, vaultKey, target, currentId, password, recovery, local, p);
    PayloadIsNextRevision(lib, coins.nonces, view, view.entries, vs, coins.vaultKey, view.vaultKeyVersion + 1, p);
    RotatedFieldsOk(lib, coins, view, keys, currentId, KeptDevice(view, target, currentId, local), vs);
    OwnBuildChecks(lib.crypto.hash, p.header, p.contents, m);
    CanonicalHeader(m);
    var master := RotatedFields(view, Master, Some(keys.kdf.(salt := coins.salt)));
    var kit := RotatedFields(view, Recovery, None);
    var known := TableOfPayload(lib, p, m, coins.vaultKey, view.entries);
    var table := known[BoxOf(vs[0]) := Secret(keys.masterKey, EnvelopeAad(lib.crypto, master), coins.vaultKey)];
    if keys.recovery.Some? {
      table := table[BoxOf(vs[1]) := Secret(keys.recovery.value, EnvelopeAad(lib.crypto, kit), coins.vaultKey)];
    }
    RememberedStays(lib, known, table, p, m, coins.vaultKey, view.entries);
    RememberedIsIdeal(lib, table, p, m, coins.vaultKey, view.entries);
    RotationIgnoresTable(lib, table, coins, view, vaultKey, target, currentId, password, recovery, local);
    ConfirmationIgnoresTable(lib, table, coins, view, vaultKey, password, recovery);
    ideal := WithOpen(lib, TableOpen(lib.crypto.open, table));
    SameAad(lib.crypto, ideal.crypto, master);
    SameAad(lib.crypto, ideal.crypto, kit);
  }

  lemma SameAad(c: Crypto, d: Crypto, f: EnvelopeFields)
    requires c.hash == d.hash && FieldsOk(f)
    ensures EnvelopeAad(c, f) == EnvelopeAad(d, f)
  {
  }

  lemma RememberedStays(
    lib: Library, table: map<Box, Secret>, larger: map<Box, Secret>, p: Payload, m: Manifest, vaultKey: seq<byte>,
    entries: seq<VaultEntry>)
    requires BoxesDistinct(p) && |p.contents.entries| == |entries| && IsId(p.header.vaultId) && HeaderOk(m.header)
    requires Encode(m).Ok? && Remembers(lib, table, p, m, vaultKey, entries)
    requires forall b :: b in table ==> b in larger && larger[b] == table[b]
    ensures Remembers(lib, larger, p, m, vaultKey, entries)
  {
    hide Encode, EntryAad, ManifestAad, EntryNormal, IsId, HeaderOk;
  }

  // ---- The boxes of a device binding ----

  lemma BindingFields(
    p: Primitives, coins: Coins, dwk: seq<byte>, vaultKey: seq<byte>, id: Identity, b: DeviceBinding)
    requires Bind(p, coins, dwk, vaultKey, id, CRYPTO_PROTOCOL_VERSION) == Ok(b)
    ensures ExpectationsOk(id)
  {
    hide EnvelopeAad, DeviceKeyAad, IsId;
  }

  /** So DeviceKeys.UnlockExactlyForTheBoundIdentity speaks about every binding whose two boxes differ. */
  lemma IdealBindingExists(
    p: Primitives, coins: Coins, dwk: seq<byte>, vaultKey: seq<byte>, id: Identity, b: DeviceBinding)
    returns (ideal: Primitives)
    requires Bind(p, coins, dwk, vaultKey, id, CRYPTO_PROTOCOL_VERSION) == Ok(b)
    requires b.deviceKeyEnvelope.box != BoxOf(b.deviceEnvelope)
    requires forall box :: box in {b.deviceKeyEnvelope.box, BoxOf(b.deviceEnvelope)} ==>
      |box.nonce| == NONCE_BYTES && |box.tag| == TAG_BYTES && |box.ciphertext| == KEY_BYTES
    ensures ideal == p.(crypto := p.crypto.(open := ideal.crypto.open))
    ensures Bind(ideal, coins, dwk, vaultKey, id, CRYPTO_PROTOCOL_VERSION) == Ok(b)
    ensures IdealBoxes(ideal, coins, b, dwk, vaultKey, id)
  {
    hide EnvelopeAad, DeviceKeyAad, ResolveFields, ExpectationsOk, FieldsOk;
    BindingFields(p, coins, dwk, vaultKey, id, b);
    var inner, outer := b.deviceKeyEnvelope.box, BoxOf(b.deviceEnvelope);
    var table := map[
      inner := Secret(dwk, InnerAad(id), coins.deviceKey),
      outer := Secret(coins.deviceKey, EnvelopeAad(p.crypto, DeviceFields(id)), vaultKey)];
    ideal := p.(crypto := p.crypto.(open := TableOpen(p.crypto.open, table)));
    BindingIgnoresOpen(p, TableOpen(p.crypto.open, table), coins, dwk, vaultKey, id);
    TableIsIdeal(p.crypto, table, inner);
    TableIsIdeal(p.crypto, table, outer);
    SameAad(p.crypto, ideal.crypto, DeviceFields(id));
    assert inner in {inner, outer} && outer in {inner, outer};
  }

  function InnerAad(id: Identity): seq<byte>
    requires ExpectationsOk(id)
  {
    DeviceKeyAad(id.vaultId, id.deviceId, id.credentialId, id.deviceKeyVersion)
  }

  lemma BindingIgnoresOpen(
    p: Primitives, open: Opener, coins: Coins, dwk: seq<byte>, vaultKey: seq<byte>, id: Identity)
    ensures Bind(p.(crypto := p.crypto.(open := open)), coins, dwk, vaultKey, id, CRYPTO_PROTOCOL_VERSION)
      == Bind(p, coins, dwk, vaultKey, id, CRYPTO_PROTOCOL_VERSION)
  {
    hide ResolveFields, IsId;
  }

  // ---- The box of a kit ----

  lemma ConfirmedIgnoresTable(
    lib: Library, table: map<Box, Secret>, view: View, vaultKey: seq<byte>, v: KeyEnvelope, key: seq<byte>)
    requires BoxOf(v) !in table
    ensures Confirmed(WithOpen(lib, TableOpen(lib.crypto.open, table)), view, vaultKey, v, key)
      == Confirmed(lib, view, vaultKey, v, key)
  {
    hide UnwrapVaultKey;
    OldEnvelopeOpensAsBefore(
      lib.crypto, table, v, key, Expected(view.vaultId, v.kind, view.vaultKeyVersion, None, None));
  }

  /** The table of one kit envelope, as the ideal cipher of a replacement. */
  lemma KitTable(
    lib: Library, hkdf: Hkdf, nonce: seq<byte>, reason: Reason, vaultKey: seq<byte>, newKey: seq<byte>,
    vaultId: seq<byte>, generation: int, previous: Option<int>, previousKey: Option<seq<byte>>, kit: KeyEnvelope,
    otherKey: seq<byte>) returns (table: map<Box, Secret>)
    requires WrapRecoveryEnvelope(Prims(lib, hkdf), nonce, reason, vaultKey, newKey, vaultId, generation, previous,
               previousKey) == Ok(kit)
    requires |kit.nonce| == NONCE_BYTES && |kit.tag| == TAG_BYTES && |kit.ciphertext| == KEY_BYTES
    requires IsId(vaultId) && IsRecoveryKey(otherKey)
    requires DistinctKits(Prims(lib, hkdf), newKey, vaultId, otherKey, vaultId)
    ensures table.Keys == {BoxOf(kit)}
    ensures IdealKit(WithOpen(lib, TableOpen(lib.crypto.open, table)), hkdf, kit, newKey, otherKey, vaultId, generation,
              vaultKey)
  {
    hide EnvelopeAad, ResolveFields, IsId, ReasonOk, RwkInfo;
    var wrap := DeriveRecoveryWrappingKey(Prims(lib, hkdf), newKey, vaultId).value;
    table := map[BoxOf(kit) := Secret(wrap, EnvelopeAad(lib.crypto, KitFields(vaultId, generation)), vaultKey)];
    TableIsIdeal(lib.crypto, table, BoxOf(kit));
    SameAad(lib.crypto, WithOpen(lib, TableOpen(lib.crypto.open, table)).crypto, KitFields(vaultId, generation));
  }

  lemma WrappedKitIgnoresOpen(
    lib: Library, open: Opener, hkdf: Hkdf, nonce: seq<byte>, reason: Reason, vaultKey: seq<byte>, newKey: seq<byte>,
    vaultId: seq<byte>, generation: int, previous: Option<int>, previousKey: Option<seq<byte>>)
    ensures WrapRecoveryEnvelope(Prims(WithOpen(lib, open), hkdf), nonce, reason, vaultKey, newKey, vaultId, generation,
              previous, previousKey)
      == WrapRecoveryEnvelope(Prims(lib, hkdf), nonce, reason, vaultKey, newKey, vaultId, generation, previous,
           previousKey)
  {
    hide ResolveFields, IsId, ReasonOk;
  }

  /** A kit envelope behaves ideally for some cipher. */
  lemma IdealKitExists(
    lib: Library, hkdf: Hkdf, nonce: seq<byte>, reason: Reason, vaultKey: seq<byte>, newKey: seq<byte>,
    vaultId: seq<byte>, generation: int, previous: Option<int>, previousKey: Option<seq<byte>>, kit: KeyEnvelope,
    otherKey: seq<byte>) returns (ideal: Library)
    requires WrapRecoveryEnvelope(Prims(lib, hkdf), nonce, reason, vaultKey, newKey, vaultId, generation, previous,
               previousKey) == Ok(kit)
    requires |kit.nonce| == NONCE_BYTES && |kit.tag| == TAG_BYTES && |kit.ciphertext| == KEY_BYTES
    requires IsId(vaultId) && IsRecoveryKey(otherKey)
    requires DistinctKits(Prims(lib, hkdf), newKey, vaultId, otherKey, vaultId)
    ensures ideal == WithOpen(lib, ideal.crypto.open)
    ensures WrapRecoveryEnvelope(Prims(ideal, hkdf), nonce, reason, vaultKey, newKey, vaultId, generation, previous,
              previousKey) == Ok(kit)
    ensures IdealKit(ideal, hkdf, kit, newKey, otherKey, vaultId, generation, vaultKey)
  {
    hide WrapRecoveryEnvelope, IdealKit, DistinctKits, IsRecoveryKey;
    var table := KitTable(
      lib, hkdf, nonce, reason, vaultKey, newKey, vaultId, generation, previous, previousKey, kit, otherKey);
    ideal := WithOpen(lib, TableOpen(lib.crypto.open, table));
    WrappedKitIgnoresOpen(lib, ideal.crypto.open, hkdf, nonce, reason, vaultKey, newKey, vaultId, generation, previous,
      previousKey);
  }

  /** So KitRotations.TrustedReplacementSwapsTheKit speaks about every replacement with a new box. */
  lemma IdealReplacementExists(
    lib: Library, hkdf: Hkdf, nonces: Nonces, view: View, vaultKey: seq<byte>, oldKey: seq<byte>, newKey: seq<byte>,
    p: Payload, kit: KeyEnvelope) returns (ideal: Library)
    requires TrustedPayload(lib, hkdf, nonces, view, vaultKey, oldKey, newKey) == Ok(p)
    requires NewKit(lib, hkdf, nonces, view, vaultKey, oldKey, newKey) == Ok(kit)
    requires |kit.nonce| == NONCE_BYTES && |kit.tag| == TAG_BYTES && |kit.ciphertext| == KEY_BYTES
    requires IsId(view.vaultId) && IsRecoveryKey(oldKey)
    requires DistinctKits(Prims(lib, hkdf), newKey, view.vaultId, oldKey, view.vaultId)
    requires forall v :: v in view.envelopes ==> BoxOf(v) != BoxOf(kit)
    ensures ideal == WithOpen(lib, ideal.crypto.open)
    ensures TrustedPayload(ideal, hkdf, nonces, view, vaultKey, oldKey, newKey) == Ok(p)
    ensures NewKit(ideal, hkdf, nonces, view, vaultKey, oldKey, newKey) == Ok(kit)
    ensures IdealKit(ideal, hkdf, kit, newKey, oldKey, view.vaultId, view.vaultKeyVersion, vaultKey)
  {
    hide CommitPayload, Confirmed, WrapRecoveryEnvelope, IdealKit, Replaced, IsId, RwkInfo, IsRecoveryKey;
    var nonce, generation := nonces.envelope(0), view.vaultKeyVersion;
    var table := KitTable(lib, hkdf, nonce, TrustedReplacement, vaultKey, newKey, view.vaultId, generation,
      Some(generation), Some(oldKey), kit, oldKey);
    var open := TableOpen(lib.crypto.open, table);
    ideal := WithOpen(lib, open);
    var current := FirstOfKind(view.envelopes, Recovery).value;
    ConfirmedIgnoresTable(lib, table, view, vaultKey, current,
      DeriveRecoveryWrappingKey(Prims(lib, hkdf), oldKey, view.vaultId).value);
    WrappedKitIgnoresOpen(lib, open, hkdf, nonce, TrustedReplacement, vaultKey, newKey, view.vaultId, generation,
      Some(generation), Some(oldKey));
    PayloadIgnoresOpen(lib, open, nonces, view, view.entries, Replaced(view.envelopes, kit), vaultKey, generation);
  }

  lemma StolenEnvelopesIgnoreOpen(
    lib: Library, open: Opener, hkdf: Hkdf, coins: RotationCoins, view: View, kdf: Kdf, masterKey: seq<byte>,
    newKey: seq<byte>, previousKey: Option<seq<byte>>, currentId: seq<byte>, kept: Option<LocalDevice>)
    ensures StolenKitEnvelopes(WithOpen(lib, open), hkdf, coins, view, kdf, masterKey, newKey, previousKey, currentId,
              kept)
      == StolenKitEnvelopes(lib, hkdf, coins, view, kdf, masterKey, newKey, previousKey, currentId, kept)
  {
    hide ResolveFields, WrapRecoveryEnvelope;
    WrappedKitIgnoresOpen(lib, open, hkdf, coins.nonces.envelope(1), CompromisedRotation, coins.vaultKey, newKey,
      view.vaultId, view.vaultKeyVersion + 1, Some(view.vaultKeyVersion), previousKey);
  }

  lemma ConfirmedMasterIgnoresTable(
    lib: Library, table: map<Box, Secret>, view: View, vaultKey: seq<byte>, password: seq<byte>)
    requires forall v :: v in view.envelopes ==> BoxOf(v) !in table
    ensures ConfirmedMaster(WithOpen(lib, TableOpen(lib.crypto.open, table)), view, vaultKey, password)
      == ConfirmedMaster(lib, view, vaultKey, password)
  {
    hide Confirmed, FirstOfKind, BoxOf;
    var master := FirstOfKind(view.envelopes, Master);
    if master.Some? && MasterKeyFor(lib, password, master.value).Ok? {
      ConfirmedIgnoresTable(lib, table, view, vaultKey, master.value, MasterKeyFor(lib, password, master.value).value);
    }
  }

  lemma StolenPayloadIgnoresTable(
    lib: Library, table: map<Box, Secret>, hkdf: Hkdf, coins: RotationCoins, view: View, vaultKey: seq<byte>,
    password: seq<byte>, newKey: seq<byte>, previousKey: Option<seq<byte>>, currentId: seq<byte>,
    local: Option<LocalDevice>)
    requires forall v :: v in view.envelopes ==> BoxOf(v) !in table
    ensures StolenKitPayload(WithOpen(lib, TableOpen(lib.crypto.open, table)), hkdf, coins, view, vaultKey, password,
              newKey, previousKey, currentId, local)
      == StolenKitPayload(lib, hkdf, coins, view, vaultKey, password, newKey, previousKey, currentId, local)
  {
    hide ConfirmedMaster, StolenKitEnvelopes, CommitPayload, Entitled, BoxOf;
    var open := TableOpen(lib.crypto.open, table);
    ConfirmedMasterIgnoresTable(lib, table, view, vaultKey, password);
    var master := ConfirmedMaster(lib, view, vaultKey, password);
    if master.Ok? && master.value.kdf.Some? {
      var kdf, kept := master.value.kdf.value, if Entitled(view, currentId) then local else None;
      var masterKey := NextMasterKey(lib, password, kdf, coins.salt);
      if masterKey.Ok? {
        StolenEnvelopesIgnoreOpen(
          lib, open, hkdf, coins, view, kdf, masterKey.value, newKey, previousKey, currentId, kept);
        var vs := StolenKitEnvelopes(
          lib, hkdf, coins, view, kdf, masterKey.value, newKey, previousKey, currentId, kept);
        if vs.Ok? {
          PayloadIgnoresOpen(
            lib, open, coins.nonces, view, view.entries, vs.value, coins.vaultKey, view.vaultKeyVersion + 1);
        }
      }
    }
  }

  /** And KitRotations.StolenKitIsLockedOut about every rotation whose kit has a new box. */
  lemma IdealStolenKitExists(
    lib: Library, hkdf: Hkdf, coins: RotationCoins, view: View, vaultKey: seq<byte>, password: seq<byte>,
    newKey: seq<byte>, previousKey: Option<seq<byte>>, currentId: seq<byte>, local: Option<LocalDevice>, p: Payload,
    kit: KeyEnvelope, stolen: seq<byte>) returns (ideal: Library)
    requires StolenKitPayload(lib, hkdf, coins, view, vaultKey, password, newKey, previousKey, currentId, local)
      == Ok(p)
    requires FirstOfKind(p.contents.envelopes, Recovery) == Some(kit)
    requires |kit.nonce| == NONCE_BYTES && |kit.tag| == TAG_BYTES && |kit.ciphertext| == KEY_BYTES
    requires IsId(view.vaultId) && IsRecoveryKey(stolen)
    requires DistinctKits(Prims(lib, hkdf), newKey, view.vaultId, stolen, view.vaultId)
    requires forall v :: v in view.envelopes ==> BoxOf(v) != BoxOf(kit)
    ensures ideal == WithOpen(lib, ideal.crypto.open)
    ensures StolenKitPayload(ideal, hkdf, coins, view, vaultKey, password, newKey, previousKey, currentId, local)
      == Ok(p)
    ensures IdealKit(ideal, hkdf, kit, newKey, stolen, view.vaultId, view.vaultKeyVersion + 1, coins.vaultKey)
  {
    hide StolenKitPayload, StolenKitEnvelopes, CommitPayload, IdealKit, Entitled, FirstOfKind, IsId, IsRecoveryKey,
      WrapRecoveryEnvelope, DistinctKits, BoxOf;
    var kdf, masterKey, vs := StolenKitIsACommit(
      lib, hkdf, coins, view, vaultKey, password, newKey, previousKey, currentId, local, p);
    var kept := if Entitled(view, currentId) then local else None;
    PayloadIsNextRevision(lib, coins.nonces, view, view.entries, vs, coins.vaultKey, view.vaultKeyVersion + 1, p);
    StolenKitShape(lib, hkdf, coins, view, kdf, masterKey, newKey, previousKey, currentId, kept, vs);
    SecondIsTheKit(vs, view.vaultKeyVersion + 1, kept.Some?, currentId);
    var table := KitTable(lib, hkdf, coins.nonces.envelope(1), CompromisedRotation, coins.vaultKey, newKey,
      view.vaultId, view.vaultKeyVersion + 1, Some(view.vaultKeyVersion), previousKey, kit, stolen);
    StolenPayloadIgnoresTable(
      lib, table, hkdf, coins, view, vaultKey, password, newKey, previousKey, currentId, local);
    ideal := WithOpen(lib, TableOpen(lib.crypto.open, table));
  }
}
