/** Sealing a manifest under the vault key, and opening what a server claims to be one. */
module SealedManifests {
  import opened Common
  import opened Bytes
  import opened Framing
  import opened ManifestModel
  import opened ManifestCodec
  import opened SnapshotCheck
  import opened Envelope

  datatype SealedManifest = SealedManifest(version: int, encryption: string, box: Box)

  /** A snapshot as a server offers it: nothing about it is trusted. */
  datatype Snapshot = Snapshot(header: Header, contents: Contents, sealed: Option<SealedManifest>)

  /** What a client asks the server to store. */
  datatype Payload = Payload(
    expectedRevision: Option<int>, header: Header, contents: Contents, sealed: Option<SealedManifest>)

  const MANIFEST_AAD_LABEL := Ascii("4allpass-manifest-v1")
  const SEALED_LABEL := Ascii("4allpass-sealed-manifest-digest-v1")

  function HeaderAadFields(h: Header): Record
    requires HeaderOk(h)
  {
    [h.vaultId] + Numbers([h.cryptoProtocolVersion, h.revision, h.vaultKeyVersion])
  }

  lemma HeaderAadFits(heading: seq<byte>, h: Header)
    requires HeaderOk(h) && |heading| <= 100
    ensures Fits(Short, [heading] + HeaderAadFields(h))
  {
  }

  function ManifestAad(h: Header): seq<byte>
    requires HeaderOk(h)
  {
    HeaderAadFits(MANIFEST_AAD_LABEL, h);
    EncodeAad(MANIFEST_AAD_LABEL, HeaderAadFields(h))
  }

  /** The AAD is a statement about all four header fields. */
  lemma ManifestAadInjective(a: Header, b: Header)
    requires HeaderOk(a) && HeaderOk(b) && ManifestAad(a) == ManifestAad(b)
    ensures a == b
  {
    var na := [a.cryptoProtocolVersion, a.revision, a.vaultKeyVersion];
    var nb := [b.cryptoProtocolVersion, b.revision, b.vaultKeyVersion];
    HeaderAadFits(MANIFEST_AAD_LABEL, a);
    HeaderAadFits(MANIFEST_AAD_LABEL, b);
    AadInjective(MANIFEST_AAD_LABEL, HeaderAadFields(a), HeaderAadFields(b));
    SplitFields([a.vaultId], Numbers(na), []);
    SplitFields([b.vaultId], Numbers(nb), []);
    assert HeaderAadFields(a) == [a.vaultId] + Numbers(na) + [];
    assert HeaderAadFields(b) == [b.vaultId] + Numbers(nb) + [];
    ReadInvertsNumbers(na);
    ReadInvertsNumbers(nb);
    assert na[0] == nb[0] && na[1] == nb[1] && na[2] == nb[2];
    assert HeaderAadFields(a)[0] == a.vaultId && HeaderAadFields(b)[0] == b.vaultId;
  }

  // ---- sealedManifestDigest ----

  predicate Digestible(s: SealedManifest) {
    0 <= s.version <= U32_MAX
    && |s.box.nonce| <= U32_MAX && |s.box.ciphertext| <= U32_MAX && |s.box.tag| <= U32_MAX
  }

  function SealedFields(heading: seq<byte>, s: SealedManifest): Record
    requires Digestible(s)
  {
    [heading] + Numbers([s.version]) + [s.box.nonce, s.box.ciphertext, s.box.tag]
  }

  lemma SealedFieldsFit(heading: seq<byte>, s: SealedManifest)
    requires Digestible(s) && |heading| <= U32_MAX
    ensures Fits(Long, SealedFields(heading, s))
  {
  }

  function SealedPreimage(s: SealedManifest): seq<byte>
    requires Digestible(s)
  {
    SealedFieldsFit(SEALED_LABEL, s);
    Framed(Long, SealedFields(SEALED_LABEL, s))
  }

  function SealedDigest(c: Crypto, s: SealedManifest): Result<Digest> {
    if Digestible(s) then Ok(c.hash(SealedPreimage(s))) else Err(Protocol)
  }

  lemma SealedFieldsInjective(heading: seq<byte>, a: SealedManifest, b: SealedManifest)
    requires Digestible(a) && Digestible(b) && SealedFields(heading, a) == SealedFields(heading, b)
    ensures a.version == b.version && a.box == b.box
  {
    var ta, tb := [a.box.nonce, a.box.ciphertext, a.box.tag], [b.box.nonce, b.box.ciphertext, b.box.tag];
    SplitFields([heading], Numbers([a.version]), ta);
    SplitFields([heading], Numbers([b.version]), tb);
    ReadInvertsNumbers([a.version]);
    ReadInvertsNumbers([b.version]);
    assert [a.version][0] == [b.version][0];
    assert ta[0] == tb[0] && ta[1] == tb[1] && ta[2] == tb[2];
  }

  /** A pinned digest stands for one sealed blob. */
  lemma SealedDigestInjective(c: Crypto, a: SealedManifest, b: SealedManifest)
    requires SealedDigest(c, a).Ok? && SealedDigest(c, a) == SealedDigest(c, b)
    requires CollisionFree(c.hash, {SealedPreimage(a), SealedPreimage(b)})
    ensures a.version == b.version && a.box == b.box
  {
    SealedFieldsFit(SEALED_LABEL, a);
    SealedFieldsFit(SEALED_LABEL, b);
    FramedInjective(Long, SealedFields(SEALED_LABEL, a), SealedFields(SEALED_LABEL, b));
    SealedFieldsInjective(SEALED_LABEL, a, b);
  }

  // ---- sealManifest and openManifest ----

  function SealManifest(c: Crypto, nonce: seq<byte>, vaultKey: seq<byte>, m: Manifest): Result<SealedManifest> {
    if !IsKey(vaultKey) then Err(Protocol)
    else
      ValidateExact(m);
      var v :- Validate(m);
      var body :- Encode(v);
      Ok(SealedManifest(v.header.cryptoProtocolVersion, "AES-256-GCM",
        c.seal(vaultKey, nonce, ManifestAad(v.header), body)))
  }

  datatype Opening = Opening(manifest: Manifest, digest: Digest)

  function OpenManifest(c: Crypto, s: SealedManifest, vaultKey: seq<byte>, claimed: Header): Result<Opening> {
    if s.encryption != "AES-256-GCM" || !IsKey(vaultKey) then Err(Protocol)
    else if |s.box.nonce| != NONCE_BYTES || |s.box.tag| != TAG_BYTES then Err(AuthFailure)
    else if s.version != CRYPTO_PROTOCOL_VERSION || !HeaderOk(claimed) then Err(Protocol)
    else
      match c.open(vaultKey, s.box, ManifestAad(claimed))
      case None => Err(AuthFailure)
      case Some(body) =>
        var m :- Decode(body);
        if m.header != claimed then Err(Integrity)
        else
          var digest :- SealedDigest(c, s);
          Ok(Opening(m, digest))
  }

  /** The box of a sealed manifest behaves ideally. */
  ghost predicate IdealSeal(c: Crypto, s: SealedManifest, vaultKey: seq<byte>, m: Manifest)
    requires Encode(m).Ok? && HeaderOk(m.header)
  {
    && |s.box.nonce| == NONCE_BYTES && |s.box.tag| == TAG_BYTES && |s.box.ciphertext| <= U32_MAX
    && OpensOnlyAs(c, s.box, vaultKey, ManifestAad(m.header), Encode(m).value)
  }

  /**
   * A sealed manifest opens for the key and the four header fields it was sealed for and no others,
   * and then yields the canonical manifest; any other claim about the same blob is refused.
   */
  lemma SealedOpensExactlyAsSealed(
    c: Crypto, nonce: seq<byte>, vaultKey: seq<byte>, m: Manifest, s: SealedManifest, key: seq<byte>, claimed: Header)
    requires SealManifest(c, nonce, vaultKey, m) == Ok(s)
    requires Validate(m).Ok? && HeaderOk(m.header) && Encode(Validate(m).value).Ok? && !CarriesBom(m)
    requires Validate(m).value.header == m.header && IdealSeal(c, s, vaultKey, Validate(m).value)
    ensures OpenManifest(c, s, key, claimed).Ok? <==> key == vaultKey && claimed == m.header
    ensures OpenManifest(c, s, key, claimed).Ok? ==> Ok(OpenManifest(c, s, key, claimed).value.manifest) == Validate(m)
  {
    hide Decode, Encode, ManifestAad, Sound, CarriesBom;
    var v := Validate(m).value;
    ValidateExact(m);
    ValidateCanonical(v);
    BomIgnoresOrder(m, v);
    DecodeInvertsEncode(v);
    if HeaderOk(claimed) && ManifestAad(claimed) == ManifestAad(m.header) {
      ManifestAadInjective(claimed, m.header);
    }
  }

  // ---- verifySnapshotManifest ----

  datatype Verified = Verified(manifest: Manifest, digest: Digest, contents: Contents)

  function VerifySnapshotManifest(c: Crypto, s: SealedManifest, contents: Contents, vaultKey: seq<byte>,
      claimed: Header)
    : Result<Verified>
  {
    var opening :- OpenManifest(c, s, vaultKey, claimed);
    var n :- Check(c.hash, opening.manifest, contents, false);
    Ok(Verified(opening.manifest, opening.digest, n))
  }

  /** Two snapshots that both match one manifest hold the same records. */
  lemma OneManifestOneSnapshot(hash: seq<byte> -> Digest, m: Manifest, a: Contents, b: Contents)
    requires Canonical(m) && Check(hash, m, a, false).Ok? && Check(hash, m, b, false).Ok?
    requires CollisionFree(hash, HashedInputs(hash, a, false) + HashedInputs(hash, b, false))
    ensures Rearranged(Check(hash, m, a, false).value, Check(hash, m, b, false).value)
  {
    var na, nb := Normalize(a, false).value, Normalize(b, false).value;
    ValidateCanonical(m);
    NormalizedIsNormal(a, false);
    NormalizedIsNormal(b, false);
    DescribedIsExact(hash, m.header, na);
    DescribedIsExact(hash, m.header, nb);
    AgreeingManifestsAreEqual(m, Describe(hash, m.header, na).value);
    AgreeingManifestsAreEqual(m, Describe(hash, m.header, nb).value);
    DescriptionDeterminesContents(hash, m.header, na, nb);
  }

  lemma DecodedIsCanonical(b: seq<byte>)
    requires Decode(b).Ok?
    ensures Canonical(Decode(b).value)
  {
    var raw := ParseRaw(b).value;
    PrintInvertsParse(b);
    ValidateExact(FromRaw(raw));
  }

  /** Whatever opened is canonical, is about the claimed header, and carries the digest of its own blob. */
  lemma OpenedIsCanonical(c: Crypto, s: SealedManifest, vaultKey: seq<byte>, claimed: Header)
    requires OpenManifest(c, s, vaultKey, claimed).Ok?
    ensures var o := OpenManifest(c, s, vaultKey, claimed).value;
      Canonical(o.manifest) && o.manifest.header == claimed && SealedDigest(c, s) == Ok(o.digest)
  {
    DecodedIsCanonical(c.open(vaultKey, s.box, ManifestAad(claimed)).value);
  }

  lemma OneBoxOneManifest(c: Crypto, s: SealedManifest, t: SealedManifest, vaultKey: seq<byte>, claimed: Header)
    requires OpenManifest(c, s, vaultKey, claimed).Ok? && OpenManifest(c, t, vaultKey, claimed).Ok? && s.box == t.box
    ensures OpenManifest(c, s, vaultKey, claimed).value.manifest == OpenManifest(c, t, vaultKey, claimed).value.manifest
  {
  }

  /** Same claim, same key, same digest: the same records, whatever bytes the server sent around them. */
  lemma OneDigestOneSnapshot(
    c: Crypto, s: SealedManifest, t: SealedManifest, a: Contents, b: Contents, vaultKey: seq<byte>, claimed: Header,
    va: Verified, vb: Verified)
    requires VerifySnapshotManifest(c, s, a, vaultKey, claimed) == Ok(va)
    requires VerifySnapshotManifest(c, t, b, vaultKey, claimed) == Ok(vb)
    requires va.digest == vb.digest
    requires Digestible(s) && Digestible(t) && CollisionFree(c.hash, {SealedPreimage(s), SealedPreimage(t)})
    requires CollisionFree(c.hash, HashedInputs(c.hash, a, false) + HashedInputs(c.hash, b, false))
    ensures va.manifest == vb.manifest && Rearranged(va.contents, vb.contents)
  {
    OpenedIsCanonical(c, s, vaultKey, claimed);
    OpenedIsCanonical(c, t, vaultKey, claimed);
    SealedDigestInjective(c, s, t);
    OneBoxOneManifest(c, s, t, vaultKey, claimed);
    OneManifestOneSnapshot(c.hash, va.manifest, a, b);
  }
}
