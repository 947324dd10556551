/** buildManifest and assertSnapshotMatchesManifest: a snapshot is exactly what its manifest describes. */
module SnapshotCheck {
  import opened Common
  import opened Bytes
  import opened Framing
  import opened Sorting
  import opened ManifestModel

  const NONCE_BYTES := 12
  const TAG_BYTES := 16
  const KEY_BYTES := 32

  datatype Kdf = Kdf(
    algorithm: string, version: int, memory: int, iterations: int, parallelism: int, hashLen: int, salt: seq<byte>)

  datatype EncryptedEntry = EncryptedEntry(
    id: seq<byte>, schemaVersion: int, cryptoVersion: int, vaultKeyVersion: int,
    nonce: seq<byte>, ciphertext: seq<byte>, tag: seq<byte>)

  datatype KeyEnvelope = KeyEnvelope(
    version: int, kind: EnvelopeType, vaultKeyVersion: int, kdf: Option<Kdf>,
    deviceId: Option<seq<byte>>, deviceKeyVersion: Option<int>, encryption: string,
    nonce: seq<byte>, ciphertext: seq<byte>, tag: seq<byte>)

  datatype Contents = Contents(entries: seq<EncryptedEntry>, envelopes: seq<KeyEnvelope>)

  // ---- Normalization: every field checked, records copied ----

  predicate KdfOk(k: Kdf, allowTestProfile: bool) {
    && k.algorithm == "argon2id" && k.version == 0x13 && k.hashLen == 32
    && 1 <= k.memory <= 512 * 1024 && 1 <= k.iterations <= 16 && 1 <= k.parallelism <= 16
    && (allowTestProfile || (k.memory >= 32 * 1024 && k.iterations >= 3))
    && (|k.salt| == 16 || |k.salt| == 32)
  }

  predicate EntryNormal(e: EncryptedEntry) {
    && IsId(e.id) && IsVersion(e.schemaVersion) && IsVersion(e.cryptoVersion) && IsVersion(e.vaultKeyVersion)
    && |e.nonce| == NONCE_BYTES && |e.tag| == TAG_BYTES
  }

  predicate EnvelopeAcceptable(v: KeyEnvelope, allowTestProfile: bool) {
    && IsVersion(v.version) && IsVersion(v.vaultKeyVersion) && v.encryption == "AES-256-GCM"
    && |v.nonce| == NONCE_BYTES && |v.ciphertext| == KEY_BYTES && |v.tag| == TAG_BYTES
    && (if v.kind == Master then v.kdf.Some? && KdfOk(v.kdf.value, allowTestProfile) else v.kdf.None?)
    && (if v.kind == Device
        then v.deviceId.Some? && IsId(v.deviceId.value) && v.deviceKeyVersion.Some?
             && IsVersion(v.deviceKeyVersion.value)
        else (v.deviceId.None? || v.deviceId == Some([])) && v.deviceKeyVersion.None?)
  }

  function NormalizeEnvelope(v: KeyEnvelope): KeyEnvelope {
    if v.kind == Device then v else v.(deviceId := None)
  }

  predicate EnvelopeNormal(v: KeyEnvelope, allowTestProfile: bool) {
    EnvelopeAcceptable(v, allowTestProfile) && (v.kind != Device ==> v.deviceId.None?)
  }

  function NormalizeEnvelopes(vs: seq<KeyEnvelope>): seq<KeyEnvelope> {
    seq(|vs|, i requires 0 <= i < |vs| => NormalizeEnvelope(vs[i]))
  }

  function Normalize(c: Contents, allowTestProfile: bool): Result<Contents> {
    if |c.entries| <= ENTRIES_MAX && |c.envelopes| <= ENVELOPES_MAX
       && (forall e :: e in c.entries ==> EntryNormal(e))
       && (forall v :: v in c.envelopes ==> EnvelopeAcceptable(v, allowTestProfile))
    then Ok(Contents(c.entries, NormalizeEnvelopes(c.envelopes)))
    else Err(Protocol)
  }

  // ---- Digests ----

  function EntryPreimageFields(heading: seq<byte>, e: EncryptedEntry): seq<seq<byte>>
    requires EntryNormal(e)
  {
    [heading, e.id] + Numbers([e.schemaVersion, e.cryptoVersion, e.vaultKeyVersion]) + [e.nonce, e.ciphertext, e.tag]
  }

  function KdfPreimageFields(heading: seq<byte>, k: Kdf): seq<seq<byte>>
    requires KdfOk(k, true)
  {
    [heading, Ascii("argon2id")]
    + Numbers([k.version, k.memory, k.iterations, k.parallelism, k.hashLen]) + [k.salt]
  }

  function EnvelopePreimageFields(heading: seq<byte>, kdfDigest: seq<byte>, v: KeyEnvelope): seq<seq<byte>>
    requires EnvelopeNormal(v, true)
  {
    [heading, TypeName(v.kind), if v.deviceId.Some? then v.deviceId.value else []]
    + Numbers([v.version, v.vaultKeyVersion, if v.deviceKeyVersion.Some? then v.deviceKeyVersion.value else 0])
    + [kdfDigest, v.nonce, v.ciphertext, v.tag]
  }

  const ENTRY_LABEL := Ascii("4allpass-entry-digest-v1")
  const ENVELOPE_LABEL := Ascii("4allpass-envelope-digest-v1")
  const KDF_LABEL := Ascii("4allpass-kdf-params-v1")

  predicate Hashable(e: EncryptedEntry) {
    EntryNormal(e) && |e.ciphertext| <= U32_MAX
  }

  function EntryPreimage(e: EncryptedEntry): seq<byte>
    requires Hashable(e)
  {
    EntryFieldsFit(ENTRY_LABEL, e);
    Framed(Long, EntryPreimageFields(ENTRY_LABEL, e))
  }

  function KdfPreimage(k: Kdf): seq<byte>
    requires KdfOk(k, true)
  {
    KdfFieldsFit(KDF_LABEL, k);
    Framed(Long, KdfPreimageFields(KDF_LABEL, k))
  }

  function KdfDigest(hash: seq<byte> -> Digest, kdf: Option<Kdf>): seq<byte>
    requires kdf.Some? ==> KdfOk(kdf.value, true)
  {
    if kdf.Some? then hash(KdfPreimage(kdf.value)) else []
  }

  function EnvelopePreimage(hash: seq<byte> -> Digest, v: KeyEnvelope): seq<byte>
    requires EnvelopeNormal(v, true)
  {
    var kdfDigest := KdfDigest(hash, v.kdf);
    EnvelopeFieldsFit(ENVELOPE_LABEL, kdfDigest, v);
    Framed(Long, EnvelopePreimageFields(ENVELOPE_LABEL, kdfDigest, v))
  }

  lemma EntryFieldsFit(heading: seq<byte>, e: EncryptedEntry)
    requires Hashable(e) && |heading| <= U32_MAX
    ensures Fits(Long, EntryPreimageFields(heading, e))
  {
  }

  lemma KdfFieldsFit(heading: seq<byte>, k: Kdf)
    requires KdfOk(k, true) && |heading| <= U32_MAX
    ensures Fits(Long, KdfPreimageFields(heading, k))
  {
  }

  lemma EnvelopeFieldsFit(heading: seq<byte>, kdfDigest: seq<byte>, v: KeyEnvelope)
    requires EnvelopeNormal(v, true) && |heading| <= U32_MAX && |kdfDigest| <= 32
    ensures Fits(Long, EnvelopePreimageFields(heading, kdfDigest, v))
  {
    TypeNamesPlain(v.kind);
  }

  // ---- Preimages determine records ----

  lemma EntryFieldsInjective(heading: seq<byte>, a: EncryptedEntry, b: EncryptedEntry)
    requires EntryNormal(a) && EntryNormal(b)
    requires EntryPreimageFields(heading, a) == EntryPreimageFields(heading, b)
    ensures a == b
  {
    var na := [a.schemaVersion, a.cryptoVersion, a.vaultKeyVersion];
    var nb := [b.schemaVersion, b.cryptoVersion, b.vaultKeyVersion];
    var fa, fb := EntryPreimageFields(heading, a), EntryPreimageFields(heading, b);
    SplitFields([heading, a.id], Numbers(na), [a.nonce, a.ciphertext, a.tag]);
    SplitFields([heading, b.id], Numbers(nb), [b.nonce, b.ciphertext, b.tag]);
    ReadInvertsNumbers(na);
    ReadInvertsNumbers(nb);
    assert na[0] == nb[0] && na[1] == nb[1] && na[2] == nb[2];
  }

  lemma KdfFieldsInjective(heading: seq<byte>, a: Kdf, b: Kdf)
    requires KdfOk(a, true) && KdfOk(b, true)
    requires KdfPreimageFields(heading, a) == KdfPreimageFields(heading, b)
    ensures a == b
  {
    var na := [a.version, a.memory, a.iterations, a.parallelism, a.hashLen];
    var nb := [b.version, b.memory, b.iterations, b.parallelism, b.hashLen];
    SplitFields([heading, Ascii("argon2id")], Numbers(na), [a.salt]);
    SplitFields([heading, Ascii("argon2id")], Numbers(nb), [b.salt]);
    ReadInvertsNumbers(na);
    ReadInvertsNumbers(nb);
    assert na[1] == nb[1] && na[2] == nb[2] && na[3] == nb[3];
  }

  /** Up to the KDF block, which the preimage holds only by digest. */
  lemma EnvelopeFieldsInjective(heading: seq<byte>, da: seq<byte>, db: seq<byte>, a: KeyEnvelope, b: KeyEnvelope)
    requires EnvelopeNormal(a, true) && EnvelopeNormal(b, true)
    requires EnvelopePreimageFields(heading, da, a) == EnvelopePreimageFields(heading, db, b)
    ensures da == db && a == b.(kdf := a.kdf)
  {
    var na := [a.version, a.vaultKeyVersion, if a.deviceKeyVersion.Some? then a.deviceKeyVersion.value else 0];
    var nb := [b.version, b.vaultKeyVersion, if b.deviceKeyVersion.Some? then b.deviceKeyVersion.value else 0];
    var ha := [heading, TypeName(a.kind), if a.deviceId.Some? then a.deviceId.value else []];
    var hb := [heading, TypeName(b.kind), if b.deviceId.Some? then b.deviceId.value else []];
    var ta, tb := [da, a.nonce, a.ciphertext, a.tag], [db, b.nonce, b.ciphertext, b.tag];
    SplitFields(ha, Numbers(na), ta);
    SplitFields(hb, Numbers(nb), tb);
    ReadInvertsNumbers(na);
    ReadInvertsNumbers(nb);
    assert na[0] == nb[0] && na[1] == nb[1] && na[2] == nb[2];
    assert ha[1] == hb[1] && ha[2] == hb[2];
    assert ta[0] == tb[0] && ta[1] == tb[1] && ta[2] == tb[2] && ta[3] == tb[3];
    TypeNamesDiffer(a.kind);
    TypeNamesDiffer(b.kind);
  }

  lemma SplitFields(a: Record, b: Record, c: Record)
    ensures var f := a + b + c;
      f[..|a|] == a && f[|a|..|a| + |b|] == b && f[|a| + |b|..] == c
  {
  }

  predicate ContentsNormal(n: Contents) {
    (forall e :: e in n.entries ==> EntryNormal(e)) && (forall v :: v in n.envelopes ==> EnvelopeNormal(v, true))
  }

  /** Everything that is hashed while the contents are described. */
  ghost function Preimages(hash: seq<byte> -> Digest, n: Contents): set<seq<byte>>
    requires ContentsNormal(n)
  {
    (set e | e in n.entries && Hashable(e) :: EntryPreimage(e))
    + (set v | v in n.envelopes :: EnvelopePreimage(hash, v))
    + (set v | v in n.envelopes && v.kdf.Some? :: KdfPreimage(v.kdf.value))
  }

  lemma EntryDigestInjective(hash: seq<byte> -> Digest, inputs: set<seq<byte>>, a: EncryptedEntry, b: EncryptedEntry)
    requires Hashable(a) && Hashable(b) && CollisionFree(hash, inputs)
    requires EntryPreimage(a) in inputs && EntryPreimage(b) in inputs
    requires hash(EntryPreimage(a)) == hash(EntryPreimage(b))
    ensures a == b
  {
    EntryFieldsFit(ENTRY_LABEL, a);
    EntryFieldsFit(ENTRY_LABEL, b);
    FramedInjective(Long, EntryPreimageFields(ENTRY_LABEL, a), EntryPreimageFields(ENTRY_LABEL, b));
    EntryFieldsInjective(ENTRY_LABEL, a, b);
  }

  lemma EnvelopeDigestInjective(hash: seq<byte> -> Digest, inputs: set<seq<byte>>, a: KeyEnvelope, b: KeyEnvelope)
    requires EnvelopeNormal(a, true) && EnvelopeNormal(b, true) && CollisionFree(hash, inputs)
    requires EnvelopePreimage(hash, a) in inputs && EnvelopePreimage(hash, b) in inputs
    requires a.kdf.Some? ==> KdfPreimage(a.kdf.value) in inputs
    requires b.kdf.Some? ==> KdfPreimage(b.kdf.value) in inputs
    requires hash(EnvelopePreimage(hash, a)) == hash(EnvelopePreimage(hash, b))
    ensures a == b
  {
    var da, db := KdfDigest(hash, a.kdf), KdfDigest(hash, b.kdf);
    EnvelopeFieldsFit(ENVELOPE_LABEL, da, a);
    EnvelopeFieldsFit(ENVELOPE_LABEL, db, b);
    FramedInjective(Long, EnvelopePreimageFields(ENVELOPE_LABEL, da, a), EnvelopePreimageFields(ENVELOPE_LABEL, db, b));
    EnvelopeFieldsInjective(ENVELOPE_LABEL, da, db, a, b);
    if a.kdf.Some? {
      KdfFieldsFit(KDF_LABEL, a.kdf.value);
      KdfFieldsFit(KDF_LABEL, b.kdf.value);
      FramedInjective(Long, KdfPreimageFields(KDF_LABEL, a.kdf.value), KdfPreimageFields(KDF_LABEL, b.kdf.value));
      KdfFieldsInjective(KDF_LABEL, a.kdf.value, b.kdf.value);
    }
  }

  // ---- describeSnapshot, buildManifest, assertSnapshotMatchesManifest ----

  function DescribeEntry(hash: seq<byte> -> Digest, vaultKeyVersion: int, e: EncryptedEntry): Result<EntryRef>
    requires EntryNormal(e)
  {
    if e.vaultKeyVersion != vaultKeyVersion then Err(Integrity)
    else if !Hashable(e) then Err(Protocol)
    else Ok(EntryRef(e.id, e.schemaVersion, e.cryptoVersion, e.vaultKeyVersion, hash(EntryPreimage(e))))
  }

  function DescribeEntries(hash: seq<byte> -> Digest, vaultKeyVersion: int,
      es: seq<EncryptedEntry>): Result<seq<EntryRef>>
    requires forall e :: e in es ==> EntryNormal(e)
  {
    if es == [] then Ok([])
    else
      var first :- DescribeEntry(hash, vaultKeyVersion, es[0]);
      var others :- DescribeEntries(hash, vaultKeyVersion, es[1..]);
      Ok([first] + others)
  }

  function DescribeEnvelope(hash: seq<byte> -> Digest, vaultKeyVersion: int, v: KeyEnvelope): Result<EnvelopeRef>
    requires EnvelopeNormal(v, true)
  {
    if v.vaultKeyVersion != vaultKeyVersion then Err(Integrity)
    else Ok(EnvelopeRef(
      v.kind, if v.deviceId.Some? then v.deviceId.value else [], v.vaultKeyVersion,
      if v.deviceKeyVersion.Some? then v.deviceKeyVersion.value else 0, hash(EnvelopePreimage(hash, v))))
  }

  function DescribeEnvelopes(hash: seq<byte> -> Digest, vaultKeyVersion: int,
      vs: seq<KeyEnvelope>): Result<seq<EnvelopeRef>>
    requires forall v :: v in vs ==> EnvelopeNormal(v, true)
  {
    if vs == [] then Ok([])
    else
      var first :- DescribeEnvelope(hash, vaultKeyVersion, vs[0]);
      var others :- DescribeEnvelopes(hash, vaultKeyVersion, vs[1..]);
      Ok([first] + others)
  }

  function Describe(hash: seq<byte> -> Digest, header: Header, n: Contents): Result<Manifest>
    requires ContentsNormal(n)
  {
    var entries :- DescribeEntries(hash, header.vaultKeyVersion, n.entries);
    var envelopes :- DescribeEnvelopes(hash, header.vaultKeyVersion, n.envelopes);
    Validate(Manifest(header, entries, envelopes))
  }

  lemma NormalizedIsNormal(c: Contents, allowTestProfile: bool)
    requires Normalize(c, allowTestProfile).Ok?
    ensures ContentsNormal(Normalize(c, allowTestProfile).value)
  {
    var n := Normalize(c, allowTestProfile).value;
    forall v | v in n.envelopes ensures EnvelopeNormal(v, true) {
      var i :| 0 <= i < |n.envelopes| && n.envelopes[i] == v;
      assert c.envelopes[i] in c.envelopes;
    }
  }

  function Build(hash: seq<byte> -> Digest, header: Header, c: Contents, allowTestProfile: bool): Result<Manifest> {
    if !HeaderOk(header) then Err(Protocol)
    else
      var n :- Normalize(c, allowTestProfile);
      NormalizedIsNormal(c, allowTestProfile);
      Describe(hash, header, n)
  }

  predicate EntryAgrees(want: EntryRef, got: EntryRef) {
    && want.id == got.id && want.digest == got.digest
    && want.schemaVersion == got.schemaVersion && want.cryptoVersion == got.cryptoVersion
  }

  predicate EnvelopeAgrees(want: EnvelopeRef, got: EnvelopeRef) {
    && want.kind == got.kind && want.deviceId == got.deviceId && want.digest == got.digest
    && want.deviceKeyVersion == got.deviceKeyVersion
  }

  predicate Agrees(expected: Manifest, observed: Manifest) {
    && |observed.entries| == |expected.entries| && |observed.envelopes| == |expected.envelopes|
    && (forall i :: 0 <= i < |expected.entries| ==> EntryAgrees(expected.entries[i], observed.entries[i]))
    && (forall i :: 0 <= i < |expected.envelopes| ==> EnvelopeAgrees(expected.envelopes[i], observed.envelopes[i]))
  }

  function Check(hash: seq<byte> -> Digest, m: Manifest, c: Contents, allowTestProfile: bool): Result<Contents> {
    var expected :- Validate(m);
    match Normalize(c, allowTestProfile)
    case Err(_) => Err(Integrity)
    case Ok(n) =>
      NormalizedIsNormal(c, allowTestProfile);
      match Describe(hash, expected.header, n)
      case Err(_) => Err(Integrity)
      case Ok(observed) => if Agrees(expected, observed) then Ok(n) else Err(Integrity)
  }

  /** The two comparison loops. */
  method CompareReferences(expected: Manifest, observed: Manifest) returns (agree: bool)
    ensures agree == Agrees(expected, observed)
  {
    if |observed.entries| != |expected.entries| || |observed.envelopes| != |expected.envelopes| {
      return false;
    }
    for i := 0 to |expected.entries|
      invariant forall j :: 0 <= j < i ==> EntryAgrees(expected.entries[j], observed.entries[j])
    {
      if !EntryAgrees(expected.entries[i], observed.entries[i]) {
        return false;
      }
    }
    for i := 0 to |expected.envelopes|
      invariant forall j :: 0 <= j < i ==> EnvelopeAgrees(expected.envelopes[j], observed.envelopes[j])
    {
      if !EnvelopeAgrees(expected.envelopes[i], observed.envelopes[i]) {
        return false;
      }
    }
    return true;
  }

  method AssertSnapshotMatchesManifest(hash: seq<byte> -> Digest, m: Manifest, c: Contents, allowTestProfile: bool)
    returns (r: Result<Contents>)
    ensures r == Check(hash, m, c, allowTestProfile)
  {
    var expected := ValidateManifest(m);
    if expected.Err? {
      return Err(expected.error);
    }
    var normalized := Normalize(c, allowTestProfile);
    if normalized.Err? {
      return Err(Integrity);
    }
    NormalizedIsNormal(c, allowTestProfile);
    var observed := Describe(hash, expected.value.header, normalized.value);
    if observed.Err? {
      return Err(Integrity);
    }
    var agree := CompareReferences(expected.value, observed.value);
    return if agree then normalized else Err(Integrity);
  }

  // ---- A snapshot passes exactly when it is a rearrangement of the one described ----

  predicate Rearranged(a: Contents, b: Contents) {
    multiset(a.entries) == multiset(b.entries) && multiset(a.envelopes) == multiset(b.envelopes)
  }

  /** Images with the same elements come from lists with the same elements. */
  lemma {:induction false} SameSources<S, T>(a: seq<S>, b: seq<S>, fa: seq<T>, fb: seq<T>)
    requires |a| == |fa| && |b| == |fb| && multiset(fa) == multiset(fb)
    requires forall i, j :: 0 <= i < |a| && 0 <= j < |b| && fa[i] == fb[j] ==> a[i] == b[j]
    ensures multiset(a) == multiset(b)
    decreases |fb|
  {
    SameMembers(fa, fb);
    if fb != [] {
      var i := RemoveFirst(fa, fb);
      var others, imagesOfOthers := a[..i] + a[i + 1..], fa[..i] + fa[i + 1..];
      SameSources(others, b[1..], imagesOfOthers, fb[1..]);
      assert multiset(a) == multiset(others) + multiset{a[i]} by {
        assert a == a[..i] + [a[i]] + a[i + 1..];
      }
      assert multiset(b) == multiset{b[0]} + multiset(b[1..]) by {
        assert b == [b[0]] + b[1..];
      }
    }
  }

  lemma {:induction false} DescribedEntries(hash: seq<byte> -> Digest, vaultKeyVersion: int, es: seq<EncryptedEntry>)
    requires forall e :: e in es ==> EntryNormal(e)
    ensures DescribeEntries(hash, vaultKeyVersion, es).Ok?
      <==> forall i :: 0 <= i < |es| ==> DescribeEntry(hash, vaultKeyVersion, es[i]).Ok?
    ensures DescribeEntries(hash, vaultKeyVersion, es).Ok? ==>
      var refs := DescribeEntries(hash, vaultKeyVersion, es).value;
      |refs| == |es| && forall i :: 0 <= i < |es| ==> Ok(refs[i]) == DescribeEntry(hash, vaultKeyVersion, es[i])
  {
    if es != [] {
      DescribedEntries(hash, vaultKeyVersion, es[1..]);
      assert forall i :: 1 <= i < |es| ==> es[i] == es[1..][i - 1];
      if DescribeEntry(hash, vaultKeyVersion, es[0]).Ok?
         && forall i :: 1 <= i < |es| ==> DescribeEntry(hash, vaultKeyVersion, es[i]).Ok? {
        assert DescribeEntries(hash, vaultKeyVersion, es[1..]).Ok?;
      }
    }
  }

  lemma {:induction false} DescribedEnvelopes(hash: seq<byte> -> Digest, vaultKeyVersion: int, vs: seq<KeyEnvelope>)
    requires forall v :: v in vs ==> EnvelopeNormal(v, true)
    ensures DescribeEnvelopes(hash, vaultKeyVersion, vs).Ok?
      <==> forall i :: 0 <= i < |vs| ==> DescribeEnvelope(hash, vaultKeyVersion, vs[i]).Ok?
    ensures DescribeEnvelopes(hash, vaultKeyVersion, vs).Ok? ==>
      var refs := DescribeEnvelopes(hash, vaultKeyVersion, vs).value;
      |refs| == |vs| && forall i :: 0 <= i < |vs| ==> Ok(refs[i]) == DescribeEnvelope(hash, vaultKeyVersion, vs[i])
  {
    if vs != [] {
      DescribedEnvelopes(hash, vaultKeyVersion, vs[1..]);
      assert forall i :: 1 <= i < |vs| ==> vs[i] == vs[1..][i - 1];
      if DescribeEnvelope(hash, vaultKeyVersion, vs[0]).Ok?
         && forall i :: 1 <= i < |vs| ==> DescribeEnvelope(hash, vaultKeyVersion, vs[i]).Ok? {
        assert DescribeEnvelopes(hash, vaultKeyVersion, vs[1..]).Ok?;
      }
    }
  }

  lemma DescribedIsExact(hash: seq<byte> -> Digest, header: Header, n: Contents)
    requires ContentsNormal(n) && Describe(hash, header, n).Ok?
    ensures DescribeEntries(hash, header.vaultKeyVersion, n.entries).Ok?
    ensures DescribeEnvelopes(hash, header.vaultKeyVersion, n.envelopes).Ok?
    ensures var d := Describe(hash, header, n).value;
      && Canonical(d) && d.header == header
      && multiset(d.entries) == multiset(DescribeEntries(hash, header.vaultKeyVersion, n.entries).value)
      && multiset(d.envelopes) == multiset(DescribeEnvelopes(hash, header.vaultKeyVersion, n.envelopes).value)
  {
    var entries := DescribeEntries(hash, header.vaultKeyVersion, n.entries).value;
    var envelopes := DescribeEnvelopes(hash, header.vaultKeyVersion, n.envelopes).value;
    ValidateExact(Manifest(header, entries, envelopes));
  }

  /** Rearranged contents have the same description. */
  lemma DescribeIgnoresOrder(hash: seq<byte> -> Digest, header: Header, a: Contents, b: Contents)
    requires ContentsNormal(a) && ContentsNormal(b) && Rearranged(a, b) && Describe(hash, header, a).Ok?
    ensures Describe(hash, header, b) == Describe(hash, header, a)
  {
    hide DescribeEntry, DescribeEnvelope, DescribeEntries, DescribeEnvelopes, EntryNormal, EnvelopeNormal, Validate,
      Sound, Canonical;
    var vkv := header.vaultKeyVersion;
    DescribedIsExact(hash, header, a);
    SameMembers(a.entries, b.entries);
    SameMembers(a.envelopes, b.envelopes);
    DescribedEntries(hash, vkv, a.entries);
    DescribedEntries(hash, vkv, b.entries);
    DescribedEnvelopes(hash, vkv, a.envelopes);
    DescribedEnvelopes(hash, vkv, b.envelopes);
    forall i | 0 <= i < |b.entries| ensures DescribeEntry(hash, vkv, b.entries[i]).Ok? {
      assert b.entries[i] in a.entries;
    }
    forall i | 0 <= i < |b.envelopes| ensures DescribeEnvelope(hash, vkv, b.envelopes[i]).Ok? {
      assert b.envelopes[i] in a.envelopes;
    }
    var ra, rb := DescribeEntries(hash, vkv, a.entries).value, DescribeEntries(hash, vkv, b.entries).value;
    var va, vb := DescribeEnvelopes(hash, vkv, a.envelopes).value, DescribeEnvelopes(hash, vkv, b.envelopes).value;
    SameSources(ra, rb, a.entries, b.entries);
    SameSources(va, vb, a.envelopes, b.envelopes);
    ValidateExact(Manifest(header, ra, va));
    ValidateIgnoresOrder(Manifest(header, ra, va), Manifest(header, rb, vb));
  }

  lemma RefsDetermineEntries(
    hash: seq<byte> -> Digest, vkv: int, inputs: set<seq<byte>>, a: seq<EncryptedEntry>, b: seq<EncryptedEntry>)
    requires forall e :: e in a || e in b ==> EntryNormal(e) && (Hashable(e) ==> EntryPreimage(e) in inputs)
    requires CollisionFree(hash, inputs)
    requires DescribeEntries(hash, vkv, a).Ok? && DescribeEntries(hash, vkv, b).Ok?
    requires multiset(DescribeEntries(hash, vkv, a).value) == multiset(DescribeEntries(hash, vkv, b).value)
    ensures multiset(a) == multiset(b)
  {
    DescribedEntries(hash, vkv, a);
    DescribedEntries(hash, vkv, b);
    var ra, rb := DescribeEntries(hash, vkv, a).value, DescribeEntries(hash, vkv, b).value;
    forall i, j | 0 <= i < |a| && 0 <= j < |b| && ra[i] == rb[j] ensures a[i] == b[j] {
      assert DescribeEntry(hash, vkv, a[i]) == Ok(ra[i]) && DescribeEntry(hash, vkv, b[j]) == Ok(rb[j]);
      EntryDigestInjective(hash, inputs, a[i], b[j]);
    }
    SameSources(a, b, ra, rb);
  }

  predicate AllHashed(hash: seq<byte> -> Digest, inputs: set<seq<byte>>, v: KeyEnvelope)
    requires EnvelopeNormal(v, true)
  {
    EnvelopePreimage(hash, v) in inputs && (v.kdf.Some? ==> KdfPreimage(v.kdf.value) in inputs)
  }

  lemma RefsDetermineEnvelopes(
    hash: seq<byte> -> Digest, vkv: int, inputs: set<seq<byte>>, a: seq<KeyEnvelope>, b: seq<KeyEnvelope>)
    requires forall v :: v in a || v in b ==> EnvelopeNormal(v, true) && AllHashed(hash, inputs, v)
    requires CollisionFree(hash, inputs)
    requires DescribeEnvelopes(hash, vkv, a).Ok? && DescribeEnvelopes(hash, vkv, b).Ok?
    requires multiset(DescribeEnvelopes(hash, vkv, a).value) == multiset(DescribeEnvelopes(hash, vkv, b).value)
    ensures multiset(a) == multiset(b)
  {
    DescribedEnvelopes(hash, vkv, a);
    DescribedEnvelopes(hash, vkv, b);
    var ra, rb := DescribeEnvelopes(hash, vkv, a).value, DescribeEnvelopes(hash, vkv, b).value;
    forall i, j | 0 <= i < |a| && 0 <= j < |b| && ra[i] == rb[j] ensures a[i] == b[j] {
      assert DescribeEnvelope(hash, vkv, a[i]) == Ok(ra[i]) && DescribeEnvelope(hash, vkv, b[j]) == Ok(rb[j]);
      EnvelopeDigestInjective(hash, inputs, a[i], b[j]);
    }
    SameSources(a, b, ra, rb);
  }

  /** Contents with the same description are rearrangements, as far as the hash tells the inputs apart. */
  lemma DescriptionDeterminesContents(hash: seq<byte> -> Digest, header: Header, a: Contents, b: Contents)
    requires ContentsNormal(a) && ContentsNormal(b)
    requires CollisionFree(hash, Preimages(hash, a) + Preimages(hash, b))
    requires Describe(hash, header, a).Ok? && Describe(hash, header, a) == Describe(hash, header, b)
    ensures Rearranged(a, b)
  {
    hide DescribeEntry, DescribeEnvelope, DescribeEntries, DescribeEnvelopes, Validate, Describe;
    var vkv, inputs := header.vaultKeyVersion, Preimages(hash, a) + Preimages(hash, b);
    DescribedIsExact(hash, header, a);
    DescribedIsExact(hash, header, b);
    RefsDetermineEntries(hash, vkv, inputs, a.entries, b.entries);
    RefsDetermineEnvelopes(hash, vkv, inputs, a.envelopes, b.envelopes);
  }

  /** Two canonical manifests of one header whose references agree are equal. */
  lemma AgreeingManifestsAreEqual(a: Manifest, b: Manifest)
    requires Canonical(a) && Canonical(b) && a.header == b.header
    ensures Agrees(a, b) <==> a == b
  {
    if Agrees(a, b) {
      forall i | 0 <= i < |a.entries| ensures a.entries[i] == b.entries[i] {
        assert EntryAgrees(a.entries[i], b.entries[i]);
        assert EntryOk(a.header.vaultKeyVersion, a.entries[i]) && EntryOk(b.header.vaultKeyVersion, b.entries[i]);
      }
      forall i | 0 <= i < |a.envelopes| ensures a.envelopes[i] == b.envelopes[i] {
        assert EnvelopeAgrees(a.envelopes[i], b.envelopes[i]);
        assert EnvelopeOk(a.header.vaultKeyVersion, a.envelopes[i])
          && EnvelopeOk(b.header.vaultKeyVersion, b.envelopes[i]);
      }
    }
  }

  /** What the client hashes while it describes contents c. */
  ghost function HashedInputs(hash: seq<byte> -> Digest, c: Contents, allowTestProfile: bool): set<seq<byte>> {
    if Normalize(c, allowTestProfile).Err? then {}
    else
      NormalizedIsNormal(c, allowTestProfile);
      Preimages(hash, Normalize(c, allowTestProfile).value)
  }

  /**
   * Against the manifest built from c1, contents c2 pass exactly when their records are c1's records:
   * none dropped, injected, duplicated or substituted. What is returned is c2's own copy in c2's order.
   */
  lemma CheckAcceptsExactlyRearrangements(
    hash: seq<byte> -> Digest, header: Header, c1: Contents, c2: Contents, allowTestProfile: bool)
    requires Build(hash, header, c1, allowTestProfile).Ok?
    requires CollisionFree(hash, HashedInputs(hash, c1, allowTestProfile) + HashedInputs(hash, c2, allowTestProfile))
    ensures var n1, n2 := Normalize(c1, allowTestProfile), Normalize(c2, allowTestProfile);
      var checked := Check(hash, Build(hash, header, c1, allowTestProfile).value, c2, allowTestProfile);
      && (checked.Ok? <==> n2.Ok? && Rearranged(n1.value, n2.value))
      && (checked.Ok? ==> checked == n2)
  {
    var m := Build(hash, header, c1, allowTestProfile).value;
    var n1 := Normalize(c1, allowTestProfile).value;
    NormalizedIsNormal(c1, allowTestProfile);
    DescribedIsExact(hash, header, n1);
    ValidateCanonical(m);
    if Normalize(c2, allowTestProfile).Ok? {
      var n2 := Normalize(c2, allowTestProfile).value;
      NormalizedIsNormal(c2, allowTestProfile);
      if Describe(hash, header, n2).Ok? {
        DescribedIsExact(hash, header, n2);
        AgreeingManifestsAreEqual(m, Describe(hash, header, n2).value);
      }
      if Rearranged(n1, n2) {
        DescribeIgnoresOrder(hash, header, n1, n2);
      }
      if Check(hash, m, c2, allowTestProfile).Ok? {
        DescriptionDeterminesContents(hash, header, n1, n2);
      }
    }
  }
}
