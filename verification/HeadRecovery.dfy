/** Reading superseded revisions, finding one that still opens, and putting it back as a new head. */
module HeadRecoveries {
  import opened Common
  import opened Bytes
  import opened ManifestModel
  import opened SnapshotCheck
  import opened ManifestCodec
  import opened Envelope
  import opened SealedManifests
  import opened Sessions
  import opened Clients

  datatype Selection = Selection(vaultId: seq<byte>, revision: int, vaultKeyVersion: int, digest: Option<seq<byte>>)

  datatype Historic = Historic(entries: seq<VaultEntry>, envelopes: seq<KeyEnvelope>, digest: Option<seq<byte>>)

  /** openHistoricSnapshot: the same verification as a live opening, but no pin is read or written. */
  function OpenedHistoric(lib: Library, s: Snapshot, vaultId: seq<byte>, vaultKeyVersion: int, vaultKey: seq<byte>)
    : Result<Historic>
  {
    if s.header.vaultId != vaultId then Err(Integrity)
    else if s.header.vaultKeyVersion != vaultKeyVersion then Err(Other)
    else
      var (accepted, records) :- Authenticated(lib.crypto, None, s, vaultKey);
      var shown :- ShownEntries(lib, vaultId, vaultKey, vaultKeyVersion, records.entries, []);
      Ok(Historic(shown, records.envelopes, accepted.manifestDigest))
  }

  function OfferedDigest(c: Crypto, s: Snapshot): Result<Option<seq<byte>>> {
    if s.sealed.None? then Ok(None)
    else
      var digest :- SealedDigest(c, s.sealed.value);
      Ok(Some(digest))
  }

  function AssertSelection(c: Crypto, s: Snapshot, selected: Selection, vaultId: seq<byte>): Result<()> {
    var digest :- OfferedDigest(c, s);
    if selected == Selection(vaultId, s.header.revision, s.header.vaultKeyVersion, digest)
       && s.header.vaultId == vaultId
    then Ok(()) else Err(Integrity)
  }

  // ---- findRecoverableRevision ----

  datatype Recoverable = Recoverable(selection: Selection, entries: seq<VaultEntry>, brokenRevision: int)

  datatype Candidate = Candidate(vaultKey: seq<byte>, opening: Historic)

  /** One revision, opened with the vault key of its own master envelope. */
  function OpenedByPassword(lib: Library, s: Snapshot, vaultId: seq<byte>, password: seq<byte>): Result<Candidate> {
    var (vaultKey, _) :- Unwrapped(lib, vaultId, s, ByPassword(password));
    var opening :- OpenedHistoric(lib, s, vaultId, s.header.vaultKeyVersion, vaultKey);
    Ok(Candidate(vaultKey, opening))
  }

  function RecoveredFrom(lib: Library, vaultId: seq<byte>, password: seq<byte>, broken: int, row: int,
      served: Option<Snapshot>)
    : Option<Recoverable>
  {
    if row > broken || served.None? then None
    else
      var s := served.value;
      if s.header.vaultId != vaultId || s.header.revision != row then None
      else
        match OpenedByPassword(lib, s, vaultId, password)
        case Err(_) => None
        case Ok(c) =>
          Some(Recoverable(
            Selection(vaultId, row, s.header.vaultKeyVersion, c.opening.digest), c.opening.entries, broken))
  }

  predicate NoneBefore(
    lib: Library, vaultId: seq<byte>, password: seq<byte>, broken: int, rows: seq<int>, fetch: int -> Option<Snapshot>,
    n: nat)
    requires n <= |rows|
  {
    forall j :: 0 <= j < n ==> RecoveredFrom(lib, vaultId, password, broken, rows[j], fetch(rows[j])).None?
  }

  predicate FirstAt(
    lib: Library, vaultId: seq<byte>, password: seq<byte>, broken: int, rows: seq<int>, fetch: int -> Option<Snapshot>,
    k: nat, r: Option<Recoverable>)
    requires k < |rows|
  {
    r == RecoveredFrom(lib, vaultId, password, broken, rows[k], fetch(rows[k]))
    && NoneBefore(lib, vaultId, password, broken, rows, fetch, k)
  }

  /** The first listed revision that opens; `fetch` is whatever the server answers for each. */
  method FindRecoverableRevision(
    lib: Library, vaultId: seq<byte>, password: seq<byte>, active: Option<int>, rows: seq<int>,
    fetch: int -> Option<Snapshot>)
    returns (r: Option<Recoverable>)
    ensures r.None? <==> active.None? || NoneBefore(lib, vaultId, password, active.value, rows, fetch, |rows|)
    ensures r.Some? ==> exists k: nat :: k < |rows| && FirstAt(lib, vaultId, password, active.value, rows, fetch, k, r)
  {
    hide RecoveredFrom;
    if active.None? {
      return None;
    }
    for i := 0 to |rows|
      invariant NoneBefore(lib, vaultId, password, active.value, rows, fetch, i)
    {
      r := RecoveredFrom(lib, vaultId, password, active.value, rows[i], fetch(rows[i]));
      if r.Some? {
        assert FirstAt(lib, vaultId, password, active.value, rows, fetch, i, r);
        return;
      }
    }
    r := None;
  }

  // ---- restoreRecoveredRevision ----

  datatype Staged = Staged(vaultKey: seq<byte>, view: View, entries: seq<VaultEntry>)

  /** The vault that a restore commits from: the old content on top of the broken head. */
  function StagedFor(lib: Library, vaultId: seq<byte>, password: seq<byte>, recovery: Recoverable,
      s: Snapshot): Result<Staged> {
    var _ :- AssertSelection(lib.crypto, s, recovery.selection, vaultId);
    var c :- OpenedByPassword(lib, s, vaultId, password);
    Ok(Staged(c.vaultKey,
      View(vaultId, recovery.brokenRevision, s.header.vaultKeyVersion, c.opening.envelopes, []), c.opening.entries))
  }

  function RestorePayload(lib: Library, nonces: Nonces, staged: Result<Staged>): Result<Payload> {
    var v :- staged;
    CommitPayload(lib, nonces, v.view, v.entries, v.view.envelopes, v.vaultKey, v.view.vaultKeyVersion)
  }

  method RestoreRecoveredRevision(
    client: Client, lib: Library, nonces: Nonces, vaultId: seq<byte>, password: seq<byte>, recovery: Recoverable,
    s: Snapshot, reply: Reply)
    returns (sent: Option<Payload>, r: Result<UnlockedVault>)
    requires client.Valid()
    modifies client
    ensures client.Valid()
    ensures var staged := StagedFor(lib, vaultId, password, recovery, s);
      var payload := RestorePayload(lib, nonces, staged);
      && sent == (if payload.Ok? then Some(payload.value) else None)
      && (payload.Err? ==> r == Err(payload.error) && client.pins == old(client.pins))
      && (payload.Ok? ==>
            match Committed(lib, id => PinIn(old(client.pins), id), payload, staged.value.vaultKey, reply)
            case Err(e) => r == Err(e) && client.pins == old(client.pins)
            case Ok(o) =>
              && r.Ok? && r.value.vaultKey[..] == staged.value.vaultKey && r.value.Shown() == o.view
              && client.pins == old(client.pins)[o.pin.vaultId := o.pin])
  {
    hide StagedFor, CommitPayload, Committed;
    var staged := StagedFor(lib, vaultId, password, recovery, s);
    if staged.Err? {
      return None, Err(staged.error);
    }
    var v := staged.value;
    var vaultKey := new byte[|v.vaultKey|](i requires 0 <= i < |v.vaultKey| => v.vaultKey[i]);
    assert vaultKey[..] == v.vaultKey;
    var vault := new UnlockedVault(v.view, vaultKey);
    sent, r := client.CommitSnapshot(lib, nonces, vault, v.entries, v.view.envelopes, vaultKey, v.view.vaultKeyVersion,
      reply);
    if sent.None? {
      PayloadFailed(lib, id => PinIn(old(client.pins), id), RestorePayload(lib, nonces, staged).error, vaultKey[..],
        reply);
    }
  }

  /** Forward only: a restore asks for the revision right above the broken head, in the old key generation. */
  lemma RestoreGoesForward(
    lib: Library, nonces: Nonces, vaultId: seq<byte>, password: seq<byte>, recovery: Recoverable, s: Snapshot,
    p: Payload)
    requires RestorePayload(lib, nonces, StagedFor(lib, vaultId, password, recovery, s)) == Ok(p)
    ensures p.expectedRevision == Some(recovery.brokenRevision) && p.header.revision == recovery.brokenRevision + 1
    ensures p.header.vaultId == vaultId && p.header.vaultKeyVersion == recovery.selection.vaultKeyVersion
    ensures p.sealed.Some?
  {
    hide CommitPayload, OpenedByPassword, SealedDigest;
    var v := StagedFor(lib, vaultId, password, recovery, s).value;
    PayloadIsNextRevision(lib, nonces, v.view, v.entries, v.view.envelopes, v.vaultKey, v.view.vaultKeyVersion, p);
  }

  // ---- What is restored is what was shown ----

  /** No two of these keys open the box. */
  ghost predicate OneKey(c: Crypto, box: Box, keys: set<seq<byte>>) {
    forall k, l, a, b :: k in keys && l in keys && c.open(k, box, a).Some? && c.open(l, box, b).Some? ==> k == l
  }

  ghost predicate Permutes(arrange: seq<VaultEntry> -> Option<seq<VaultEntry>>) {
    forall es :: arrange(es).Some? ==> multiset(arrange(es).value) == multiset(es)
  }

  lemma {:induction false} ReadPointwise(lib: Library, plain: seq<Plain>)
    requires ReadEntries(lib, plain).Some?
    ensures var r := ReadEntries(lib, plain).value;
      |r| == |plain| && forall i :: 0 <= i < |r| ==> Some(r[i]) == lib.readEntry(plain[i].id, plain[i].plaintext)
  {
    if plain != [] {
      ReadPointwise(lib, plain[1..]);
      assert forall i :: 1 <= i < |plain| ==> plain[i] == plain[1..][i - 1];
    }
  }

  /** Records in another order show the same entries, up to order. */
  lemma ShownIgnoresOrder(
    lib: Library, vaultId: seq<byte>, vaultKey: seq<byte>, vaultKeyVersion: int, a: seq<EncryptedEntry>,
    b: seq<EncryptedEntry>,
    ra: seq<VaultEntry>, rb: seq<VaultEntry>)
    requires Permutes(lib.arrange) && multiset(a) == multiset(b)
    requires ShownEntries(lib, vaultId, vaultKey, vaultKeyVersion, a, []) == Ok(ra)
    requires ShownEntries(lib, vaultId, vaultKey, vaultKeyVersion, b, []) == Ok(rb)
    ensures multiset(ra) == multiset(rb)
  {
    hide DecryptEntry, ReadEntries, DecryptedEntries;
    VerifiedIsUnmixed(lib.crypto, vaultId, vaultKey, vaultKeyVersion, a);
    VerifiedIsUnmixed(lib.crypto, vaultId, vaultKey, vaultKeyVersion, b);
    var pa := DecryptedEntries(lib.crypto, vaultId, vaultKey, vaultKeyVersion, a).value;
    var pb := DecryptedEntries(lib.crypto, vaultId, vaultKey, vaultKeyVersion, b).value;
    ReadPointwise(lib, pa);
    ReadPointwise(lib, pb);
    SameSources(ReadEntries(lib, pa).value, ReadEntries(lib, pb).value, a, b);
  }

  /**
   * Between showing a revision and restoring it the server may answer differently;
   * if the restore goes through, it re-commits the entries that were shown.
   */
  lemma RestoredIsWhatWasShown(
    lib: Library, vaultId: seq<byte>, password: seq<byte>, broken: int, row: int, shown: Snapshot, s: Snapshot,
    recovery: Recoverable, staged: Staged)
    requires RecoveredFrom(lib, vaultId, password, broken, row, Some(shown)) == Some(recovery)
    requires StagedFor(lib, vaultId, password, recovery, s) == Ok(staged)
    requires shown.sealed.Some? && s.sealed.Some? && Permutes(lib.arrange)
    requires OpenedByPassword(lib, shown, vaultId, password).Ok? && OneKey(lib.crypto, s.sealed.value.box,
               {OpenedByPassword(lib, shown, vaultId, password).value.vaultKey, staged.vaultKey})
    requires Digestible(shown.sealed.value) && Digestible(s.sealed.value)
    requires CollisionFree(lib.crypto.hash, {SealedPreimage(shown.sealed.value), SealedPreimage(s.sealed.value)})
    requires CollisionFree(lib.crypto.hash,
      HashedInputs(lib.crypto.hash, shown.contents, false) + HashedInputs(lib.crypto.hash, s.contents, false))
    ensures multiset(staged.entries) == multiset(recovery.entries)
    ensures staged.view.revision == recovery.brokenRevision
  {
    hide Unwrapped, VerifySnapshotManifest, ShownEntries, SealedDigest, Digestible;
    var ka, kb := OpenedByPassword(lib, shown, vaultId, password).value.vaultKey, staged.vaultKey;
    var va := VerifySnapshotManifest(lib.crypto, shown.sealed.value, shown.contents, ka, Claimed(shown)).value;
    var vb := VerifySnapshotManifest(lib.crypto, s.sealed.value, s.contents, kb, Claimed(s)).value;
    VerifiedSeal(lib.crypto, shown.sealed.value, shown.contents, ka, Claimed(shown), va);
    VerifiedSeal(lib.crypto, s.sealed.value, s.contents, kb, Claimed(s), vb);
    SealedDigestInjective(lib.crypto, shown.sealed.value, s.sealed.value);
    assert ka == kb;
    OneDigestOneSnapshot(
      lib.crypto, shown.sealed.value, s.sealed.value, shown.contents, s.contents, ka, Claimed(shown), va, vb);
    ShownIgnoresOrder(lib, vaultId, ka, shown.header.vaultKeyVersion, va.contents.entries, vb.contents.entries,
      recovery.entries, staged.entries);
  }

  /**
   * For a revision from before manifests the selection pins down no content: the restore takes any answer with the
   * same header and no manifest that opens, and puts back what that one shows.
   */
  lemma OldRevisionsMayBeSwapped(
    lib: Library, vaultId: seq<byte>, password: seq<byte>, broken: int, row: int, shown: Snapshot, s: Snapshot,
    recovery: Recoverable)
    requires RecoveredFrom(lib, vaultId, password, broken, row, Some(shown)) == Some(recovery) && shown.sealed.None?
    ensures StagedFor(lib, vaultId, password, recovery, s).Ok?
      <==> s.sealed.None? && s.header.vaultId == vaultId && s.header.revision == row
           && s.header.vaultKeyVersion == shown.header.vaultKeyVersion
           && OpenedByPassword(lib, s, vaultId, password).Ok?
    ensures StagedFor(lib, vaultId, password, recovery, s).Ok? ==>
      StagedFor(lib, vaultId, password, recovery, s).value.entries
      == OpenedByPassword(lib, s, vaultId, password).value.opening.entries
  {
    hide Unwrapped, VerifySnapshotManifest, ShownEntries, SealedDigest;
  }

  lemma VerifiedSeal(c: Crypto, s: SealedManifest, contents: Contents, vaultKey: seq<byte>, claimed: Header,
      v: Verified)
    requires VerifySnapshotManifest(c, s, contents, vaultKey, claimed) == Ok(v)
    ensures SealedDigest(c, s) == Ok(v.digest) && HeaderOk(claimed)
      && c.open(vaultKey, s.box, ManifestAad(claimed)).Some?
    ensures v.manifest.header == claimed
  {
    hide Check, Decode;
    OpenedIsCanonical(c, s, vaultKey, claimed);
  }
}
