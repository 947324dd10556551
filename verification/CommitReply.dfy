/** What it means that a commit succeeded: the reply may be any snapshot that opens. */
module CommitReplies {
  import opened Common
  import opened Bytes
  import opened ManifestModel
  import opened ManifestCodec
  import opened SnapshotCheck
  import opened Envelope
  import opened SealedManifests
  import opened Revision
  import opened Sessions
  import opened HeadRecoveries
  import opened CommitRoundTrips

  /**
   * The reply is not compared with the request: a server that sends back the snapshot already open is believed, and
   * whatever was to be committed is lost without an error.
   */
  lemma ReplayIsTakenForSuccess(
    lib: Library, pin: Option<VaultRevision>, s: Snapshot, vaultKey: seq<byte>, checks: seq<CrossCheck>, o: Opened,
    pins: seq<byte> -> Option<VaultRevision>, p: Payload)
    requires OpenedSnapshot(lib, pin, s, vaultKey, checks) == Ok(o)
    requires pins(s.header.vaultId) == Some(o.pin)
    ensures Committed(lib, pins, Ok(p), vaultKey, Stored(s)) == Ok(o)
  {
    hide VerifySnapshotManifest, RevisionOk, AssertFreshSnapshot, DecryptedEntries, CrossChecked, ReadEntries;
    OpenedFollows(lib, pin, s, vaultKey, checks);
    FreshMeansFollows(Some(o.pin), o.pin);
  }

  /** The reply claims to be the revision that was sent. */
  predicate Answers(s: Snapshot, h: Header) {
    s.header.vaultId == h.vaultId && s.header.revision == h.revision && s.header.vaultKeyVersion == h.vaultKeyVersion
  }

  /**
   * Comparing the header would not be enough: of two commits built from one view under one key, by two devices or by
   * one that tries again, the one that won is taken for the success of the other, whose entries are lost.
   */
  lemma RivalIsTakenForSuccess(
    lib: Library, nonces: Nonces, view: View, entries: seq<VaultEntry>, envelopes: seq<KeyEnvelope>,
    vaultKey: seq<byte>, vaultKeyVersion: int, p: Payload, rivalNonces: Nonces, rivalEntries: seq<VaultEntry>,
    rivalEnvelopes: seq<KeyEnvelope>, rival: Payload, m: Manifest, pins: seq<byte> -> Option<VaultRevision>)
    requires CommitPayload(lib, nonces, view, entries, envelopes, vaultKey, vaultKeyVersion) == Ok(p)
    requires CommitPayload(lib, rivalNonces, view, rivalEntries, rivalEnvelopes, vaultKey, vaultKeyVersion) == Ok(rival)
    requires Build(lib.crypto.hash, rival.header, rival.contents, false) == Ok(m) && !CarriesBom(m)
    requires IdealPayload(lib, rival, m, vaultKey, rivalEntries) && Readable(lib, rivalEntries)
    requires PinBelow(pins(view.vaultId), rival.header)
    ensures Answers(Offered(rival), p.header)
    ensures var r := Committed(lib, pins, Ok(p), vaultKey, Stored(Offered(rival)));
      && r.Ok? && r.value.view.entries == lib.arrange(rivalEntries).value
      && SealedDigest(lib.crypto, rival.sealed.value).Ok?
      && r.value.pin.manifestDigest == Some(SealedDigest(lib.crypto, rival.sealed.value).value)
  {
    hide CommitPayload, OpenedSnapshot, Build, CarriesBom, IdealPayload, Readable, PinBelow, SealedDigest;
    PayloadIsNextRevision(lib, nonces, view, entries, envelopes, vaultKey, vaultKeyVersion, p);
    PayloadIsNextRevision(lib, rivalNonces, view, rivalEntries, rivalEnvelopes, vaultKey, vaultKeyVersion, rival);
    CommittedReadsBack(lib, rivalNonces, view, rivalEntries, rivalEnvelopes, vaultKey, vaultKeyVersion, rival, m,
      pins(view.vaultId), []);
  }

  /** The two blobs, if they can be hashed, do not collide. */
  ghost predicate ToldApart(c: Crypto, a: SealedManifest, b: SealedManifest) {
    Digestible(a) && Digestible(b) ==> CollisionFree(c.hash, {SealedPreimage(a), SealedPreimage(b)})
  }

  lemma SealedShape(
    lib: Library, nonces: Nonces, view: View, entries: seq<VaultEntry>, envelopes: seq<KeyEnvelope>,
    vaultKey: seq<byte>, vaultKeyVersion: int, p: Payload)
    requires CommitPayload(lib, nonces, view, entries, envelopes, vaultKey, vaultKeyVersion) == Ok(p)
    ensures p.sealed.Some? && p.sealed.value.encryption == "AES-256-GCM"
    ensures p.sealed.value.version == CRYPTO_PROTOCOL_VERSION
  {
    hide SealEntries, Build, Encode, ManifestAad, FirstEntryFault, FirstEnvelopeFault;
    var header, contents := NextHeader(view, vaultKeyVersion), p.contents;
    var m := Build(lib.crypto.hash, header, contents, false).value;
    ValidateExact(m);
  }

  lemma OpenedShape(c: Crypto, s: SealedManifest, contents: Contents, vaultKey: seq<byte>, claimed: Header, v: Verified)
    requires VerifySnapshotManifest(c, s, contents, vaultKey, claimed) == Ok(v)
    ensures s.encryption == "AES-256-GCM" && s.version == CRYPTO_PROTOCOL_VERSION && SealedDigest(c, s) == Ok(v.digest)
  {
    hide Check, Decode;
    OpenedIsCanonical(c, s, vaultKey, claimed);
  }

  /**
   * What a success is worth: the pin stands for the sent manifest if and only if the reply carries that very manifest,
   * which the client could compare at once. Racing commits, retries and replays are all included.
   */
  lemma SuccessIsOursIfItReturnsOurSeal(
    lib: Library, nonces: Nonces, view: View, entries: seq<VaultEntry>, envelopes: seq<KeyEnvelope>,
    vaultKey: seq<byte>, vaultKeyVersion: int, p: Payload, pins: seq<byte> -> Option<VaultRevision>, s: Snapshot,
    o: Opened)
    requires CommitPayload(lib, nonces, view, entries, envelopes, vaultKey, vaultKeyVersion) == Ok(p)
    requires Committed(lib, pins, Ok(p), vaultKey, Stored(s)) == Ok(o)
    requires s.sealed.Some? && p.sealed.Some? ==> ToldApart(lib.crypto, s.sealed.value, p.sealed.value)
    ensures p.sealed.Some?
    ensures s.sealed == p.sealed
      <==> o.pin.manifestDigest.Some? && SealedDigest(lib.crypto, p.sealed.value) == Ok(o.pin.manifestDigest.value)
  {
    hide CommitPayload, VerifySnapshotManifest, ShownEntries, AssertFreshSnapshot, SealedPreimage;
    SealedShape(lib, nonces, view, entries, envelopes, vaultKey, vaultKeyVersion, p);
    if s.sealed.Some? {
      var v := VerifySnapshotManifest(lib.crypto, s.sealed.value, s.contents, vaultKey, Claimed(s)).value;
      OpenedShape(lib.crypto, s.sealed.value, s.contents, vaultKey, Claimed(s), v);
      if SealedDigest(lib.crypto, p.sealed.value) == Ok(v.digest) {
        SealedDigestInjective(lib.crypto, s.sealed.value, p.sealed.value);
      }
    }
  }

  /** No other box was sealed as a manifest for this header under this key: no rival, no earlier attempt. */
  ghost predicate OnlySealFor(c: Crypto, vaultKey: seq<byte>, h: Header, sealed: SealedManifest)
    requires HeaderOk(h)
  {
    forall box :: c.open(vaultKey, box, ManifestAad(h)).Some? ==> box == sealed.box
  }

  lemma OwnSeal(
    lib: Library, nonces: Nonces, view: View, entries: seq<VaultEntry>, envelopes: seq<KeyEnvelope>,
    vaultKey: seq<byte>, vaultKeyVersion: int, p: Payload, m: Manifest)
    requires CommitPayload(lib, nonces, view, entries, envelopes, vaultKey, vaultKeyVersion) == Ok(p)
    requires Build(lib.crypto.hash, p.header, p.contents, false) == Ok(m) && !CarriesBom(m)
    requires IdealPayload(lib, p, m, vaultKey, entries)
    ensures m.header == p.header && HeaderOk(p.header) && Digestible(p.sealed.value)
    ensures p.sealed.value.version == CRYPTO_PROTOCOL_VERSION
    ensures VerifySnapshotManifest(lib.crypto, p.sealed.value, p.contents, vaultKey, p.header).Ok?
    ensures var v := VerifySnapshotManifest(lib.crypto, p.sealed.value, p.contents, vaultKey, p.header).value;
      Ok(v.contents) == Normalize(p.contents, false) && SealedDigest(lib.crypto, p.sealed.value) == Ok(v.digest)
  {
    hide SealEntries, VerifySnapshotManifest, IdealEntry, Build, CarriesBom, Encode, Normalize, Check;
    OwnManifestVerifies(lib.crypto, nonces.manifest, p.header, p.contents, vaultKey, m, p.sealed.value);
    OwnBuildChecks(lib.crypto.hash, p.header, p.contents, m);
    ValidateCanonical(m);
  }

  /** A digest that was pinned on a reply and is that of the sent manifest: the reply is about the sent header. */
  lemma SameDigestSameHeader(
    c: Crypto, s: Snapshot, sealed: SealedManifest, vaultKey: seq<byte>, m: Manifest, v: Verified)
    requires s.sealed.Some? && VerifySnapshotManifest(c, s.sealed.value, s.contents, vaultKey, Claimed(s)) == Ok(v)
    requires HeaderOk(m.header) && Encode(m).Ok? && IdealSeal(c, sealed, vaultKey, m) && Digestible(sealed)
    requires SealedDigest(c, sealed) == Ok(v.digest)
    requires Digestible(s.sealed.value)
    requires CollisionFree(c.hash, {SealedPreimage(s.sealed.value), SealedPreimage(sealed)})
    ensures Claimed(s) == m.header
  {
    hide Check, Encode, SealedDigest, SealedPreimage, ManifestAad, Digestible, HeaderOk;
    VerifiedSeal(c, s.sealed.value, s.contents, vaultKey, Claimed(s), v);
    SealedDigestInjective(c, s.sealed.value, sealed);
    ManifestAadInjective(Claimed(s), m.header);
  }

  lemma SameHeaderSameDigest(
    c: Crypto, s: Snapshot, sealed: SealedManifest, vaultKey: seq<byte>, h: Header, v: Verified)
    requires s.sealed.Some? && VerifySnapshotManifest(c, s.sealed.value, s.contents, vaultKey, Claimed(s)) == Ok(v)
    requires HeaderOk(h) && OnlySealFor(c, vaultKey, h, sealed) && sealed.version == CRYPTO_PROTOCOL_VERSION
    requires Claimed(s) == h
    ensures SealedDigest(c, sealed) == Ok(v.digest)
  {
    hide Check, Decode, ManifestAad;
    VerifiedSeal(c, s.sealed.value, s.contents, vaultKey, Claimed(s), v);
  }

  /**
   * A success with the sent manifest claims the sent header. The other way round that holds only without rivals: if no
   * other manifest was ever sealed for this header.
   */
  lemma SuccessIsOursIfItAnswers(
    lib: Library, nonces: Nonces, view: View, entries: seq<VaultEntry>, envelopes: seq<KeyEnvelope>,
    vaultKey: seq<byte>, vaultKeyVersion: int, p: Payload, m: Manifest, pins: seq<byte> -> Option<VaultRevision>,
    s: Snapshot, o: Opened)
    requires CommitPayload(lib, nonces, view, entries, envelopes, vaultKey, vaultKeyVersion) == Ok(p)
    requires Build(lib.crypto.hash, p.header, p.contents, false) == Ok(m) && !CarriesBom(m)
    requires IdealPayload(lib, p, m, vaultKey, entries)
    requires Committed(lib, pins, Ok(p), vaultKey, Stored(s)) == Ok(o)
    requires s.sealed.Some? ==> ToldApart(lib.crypto, s.sealed.value, p.sealed.value)
    ensures SealedDigest(lib.crypto, p.sealed.value).Ok? && HeaderOk(p.header)
    ensures o.pin.manifestDigest == Some(SealedDigest(lib.crypto, p.sealed.value).value) ==>
      s.sealed.Some? && Answers(s, p.header)
    ensures OnlySealFor(lib.crypto, vaultKey, p.header, p.sealed.value) && s.sealed.Some? && Answers(s, p.header) ==>
      o.pin.manifestDigest == Some(SealedDigest(lib.crypto, p.sealed.value).value)
  {
    hide CommitPayload, VerifySnapshotManifest, ShownEntries, AssertFreshSnapshot, Build, CarriesBom, Encode,
      Digestible, SealedPreimage, SealedDigest, IdealSeal, IdealEntry, OnlySealFor, HeaderOk;
    PayloadIsNextRevision(lib, nonces, view, entries, envelopes, vaultKey, vaultKeyVersion, p);
    OwnSeal(lib, nonces, view, entries, envelopes, vaultKey, vaultKeyVersion, p, m);
    OpenedFollows(lib, pins(s.header.vaultId), s, vaultKey, []);
    if s.sealed.Some? {
      var v := VerifySnapshotManifest(lib.crypto, s.sealed.value, s.contents, vaultKey, Claimed(s)).value;
      VerifiedIsDigestible(lib.crypto, s.sealed.value, s.contents, vaultKey, Claimed(s), v);
      if Answers(s, p.header) && OnlySealFor(lib.crypto, vaultKey, p.header, p.sealed.value) {
        assert Claimed(s) == p.header by {
          HeaderVersion(p.header);
        }
        SameHeaderSameDigest(lib.crypto, s, p.sealed.value, vaultKey, p.header, v);
      }
      if o.pin.manifestDigest == Some(SealedDigest(lib.crypto, p.sealed.value).value) {
        SameDigestSameHeader(lib.crypto, s, p.sealed.value, vaultKey, m, v);
      }
    }
  }

  lemma VerifiedIsDigestible(
    c: Crypto, s: SealedManifest, contents: Contents, vaultKey: seq<byte>, claimed: Header, v: Verified)
    requires VerifySnapshotManifest(c, s, contents, vaultKey, claimed) == Ok(v)
    ensures Digestible(s)
  {
    hide Check, Decode;
    OpenedIsCanonical(c, s, vaultKey, claimed);
  }

  lemma HeaderVersion(h: Header)
    requires HeaderOk(h)
    ensures h.cryptoProtocolVersion == CRYPTO_PROTOCOL_VERSION
  {
  }

  /** A reply that carries the sent manifest shows exactly the entries and envelopes that were sent, one revision on. */
  lemma OwnSealShowsWhatWasSent(
    lib: Library, nonces: Nonces, view: View, entries: seq<VaultEntry>, envelopes: seq<KeyEnvelope>,
    vaultKey: seq<byte>, vaultKeyVersion: int, p: Payload, m: Manifest, pins: seq<byte> -> Option<VaultRevision>,
    s: Snapshot, o: Opened)
    requires CommitPayload(lib, nonces, view, entries, envelopes, vaultKey, vaultKeyVersion) == Ok(p)
    requires Build(lib.crypto.hash, p.header, p.contents, false) == Ok(m) && !CarriesBom(m)
    requires IdealPayload(lib, p, m, vaultKey, entries) && Readable(lib, entries) && Permutes(lib.arrange)
    requires Committed(lib, pins, Ok(p), vaultKey, Stored(s)) == Ok(o) && s.sealed == p.sealed
    requires CollisionFree(lib.crypto.hash,
      HashedInputs(lib.crypto.hash, s.contents, false) + HashedInputs(lib.crypto.hash, p.contents, false))
    ensures o.view.vaultId == view.vaultId && o.view.revision == view.revision + 1
    ensures o.view.vaultKeyVersion == vaultKeyVersion
    ensures multiset(o.view.entries) == multiset(entries)
    ensures multiset(o.view.envelopes) == multiset(NormalizeEnvelopes(envelopes))
  {
    hide CommitPayload, VerifySnapshotManifest, ShownEntries, AssertFreshSnapshot, Build, CarriesBom, Encode,
      Digestible, SealedPreimage, SealedDigest, IdealSeal, IdealEntry, HeaderOk, SealEntries, HashedInputs, Normalize;
    PayloadIsNextRevision(lib, nonces, view, entries, envelopes, vaultKey, vaultKeyVersion, p);
    OwnSeal(lib, nonces, view, entries, envelopes, vaultKey, vaultKeyVersion, p, m);
    var v := VerifySnapshotManifest(lib.crypto, s.sealed.value, s.contents, vaultKey, Claimed(s)).value;
    var w := VerifySnapshotManifest(lib.crypto, p.sealed.value, p.contents, vaultKey, p.header).value;
    VerifiedSeal(lib.crypto, s.sealed.value, s.contents, vaultKey, Claimed(s), v);
    SameDigestSameHeader(lib.crypto, s, p.sealed.value, vaultKey, m, v);
    OneDigestOneSnapshot(
      lib.crypto, s.sealed.value, p.sealed.value, s.contents, p.contents, vaultKey, p.header, v, w);
    NormalizedParts(p.contents, w.contents);
    SealedEntriesShow(lib, nonces, vaultKey, view.vaultId, vaultKeyVersion, entries, p.contents.entries, []);
    ShownIgnoresOrder(lib, view.vaultId, vaultKey, vaultKeyVersion, v.contents.entries, p.contents.entries,
      o.view.entries, lib.arrange(entries).value);
  }

  /** The same for a reply that only pins the sent digest. */
  lemma AnsweredSuccessShowsWhatWasSent(
    lib: Library, nonces: Nonces, view: View, entries: seq<VaultEntry>, envelopes: seq<KeyEnvelope>,
    vaultKey: seq<byte>, vaultKeyVersion: int, p: Payload, m: Manifest, pins: seq<byte> -> Option<VaultRevision>,
    s: Snapshot, o: Opened)
    requires CommitPayload(lib, nonces, view, entries, envelopes, vaultKey, vaultKeyVersion) == Ok(p)
    requires Build(lib.crypto.hash, p.header, p.contents, false) == Ok(m) && !CarriesBom(m)
    requires IdealPayload(lib, p, m, vaultKey, entries) && Readable(lib, entries) && Permutes(lib.arrange)
    requires Committed(lib, pins, Ok(p), vaultKey, Stored(s)) == Ok(o)
    requires o.pin.manifestDigest.Some? && SealedDigest(lib.crypto, p.sealed.value) == Ok(o.pin.manifestDigest.value)
    requires s.sealed.Some? ==> ToldApart(lib.crypto, s.sealed.value, p.sealed.value)
    requires CollisionFree(lib.crypto.hash,
      HashedInputs(lib.crypto.hash, s.contents, false) + HashedInputs(lib.crypto.hash, p.contents, false))
    ensures o.view.vaultId == view.vaultId && o.view.revision == view.revision + 1
    ensures o.view.vaultKeyVersion == vaultKeyVersion
    ensures multiset(o.view.entries) == multiset(entries)
    ensures multiset(o.view.envelopes) == multiset(NormalizeEnvelopes(envelopes))
  {
    hide CommitPayload, Committed, Build, CarriesBom, IdealPayload, Readable, SealedDigest, HashedInputs, ToldApart;
    SealedShape(lib, nonces, view, entries, envelopes, vaultKey, vaultKeyVersion, p);
    SuccessIsOursIfItReturnsOurSeal(
      lib, nonces, view, entries, envelopes, vaultKey, vaultKeyVersion, p, pins, s, o);
    OwnSealShowsWhatWasSent(lib, nonces, view, entries, envelopes, vaultKey, vaultKeyVersion, p, m, pins, s, o);
  }

  lemma NormalizedParts(c: Contents, n: Contents)
    requires Normalize(c, false) == Ok(n)
    ensures n == Contents(c.entries, NormalizeEnvelopes(c.envelopes))
  {
    hide EntryNormal, EnvelopeAcceptable, NormalizeEnvelopes;
  }
}
