/** The freshness rule: what a pinned revision lets a client accept next. */
module Revision {
  import opened Common
  import opened Bytes
  import opened ManifestModel

  datatype VaultRevision = VaultRevision(
    vaultId: seq<byte>, revision: int, vaultKeyVersion: int, cryptoProtocolVersion: int,
    manifestDigest: Option<seq<byte>>)

  datatype Action = FirstSeen | Same | Advance | Rotation
  datatype Refusal = RolledBack | Downgrade | Mismatch
  datatype Decision = Accept(action: Action) | Reject(refusal: Refusal, error: Error)

  predicate RevisionOk(s: VaultRevision) {
    && IsId(s.vaultId) && IsVersion(s.revision) && IsVersion(s.vaultKeyVersion)
    && s.cryptoProtocolVersion == CRYPTO_PROTOCOL_VERSION
    && (s.manifestDigest.Some? ==> |s.manifestDigest.value| == DIGEST_BYTES)
  }

  /** evaluateRevision; Err stands for the ProtocolError on malformed input. */
  function EvaluateRevision(lastSeen: Option<VaultRevision>, incoming: VaultRevision): Result<Decision> {
    if !RevisionOk(incoming) then Err(Protocol)
    else if lastSeen.None? then Ok(Accept(FirstSeen))
    else
      var seen := lastSeen.value;
      if !RevisionOk(seen) then Err(Protocol)
      else if incoming.vaultId != seen.vaultId then Ok(Reject(Mismatch, Integrity))
      else if incoming.cryptoProtocolVersion < seen.cryptoProtocolVersion then Ok(Reject(Downgrade, Integrity))
      else if incoming.revision < seen.revision then Ok(Reject(RolledBack, Rollback))
      else if incoming.vaultKeyVersion < seen.vaultKeyVersion then Ok(Reject(Downgrade, Integrity))
      else if seen.manifestDigest.Some? && incoming.manifestDigest.None? then Ok(Reject(Mismatch, Integrity))
      else if incoming.revision == seen.revision then
        if incoming.vaultKeyVersion != seen.vaultKeyVersion then Ok(Reject(Mismatch, Integrity))
        else if seen.manifestDigest.Some? && seen.manifestDigest != incoming.manifestDigest
        then Ok(Reject(Mismatch, Integrity))
        else Ok(Accept(Same))
      else if incoming.vaultKeyVersion > seen.vaultKeyVersion then Ok(Accept(Rotation))
      else Ok(Accept(Advance))
  }

  function AssertFreshSnapshot(lastSeen: Option<VaultRevision>, incoming: VaultRevision): Result<Action> {
    var decision :- EvaluateRevision(lastSeen, incoming);
    match decision
    case Accept(action) => Ok(action)
    case Reject(_, error) => Err(error)
  }

  /** `later` keeps everything a client that pinned `earlier` relies on. */
  ghost predicate Follows(earlier: Option<VaultRevision>, later: Option<VaultRevision>) {
    earlier.Some? ==>
      && later.Some?
      && later.value.vaultId == earlier.value.vaultId
      && earlier.value.revision <= later.value.revision
      && earlier.value.vaultKeyVersion <= later.value.vaultKeyVersion
      && (earlier.value.manifestDigest.Some? ==> later.value.manifestDigest.Some?)
      && (earlier.value.revision == later.value.revision ==>
            && earlier.value.vaultKeyVersion == later.value.vaultKeyVersion
            && (earlier.value.manifestDigest.Some? ==> later.value.manifestDigest == earlier.value.manifestDigest))
  }

  /** The nest of tests accepts exactly the well-formed followers, and names the step it took. */
  lemma FreshMeansFollows(lastSeen: Option<VaultRevision>, incoming: VaultRevision)
    ensures AssertFreshSnapshot(lastSeen, incoming).Ok?
      <==> RevisionOk(incoming) && (lastSeen.Some? ==> RevisionOk(lastSeen.value)) && Follows(lastSeen, Some(incoming))
    ensures AssertFreshSnapshot(lastSeen, incoming) == Ok(Rotation) ==>
      lastSeen.Some? && lastSeen.value.revision < incoming.revision
      && lastSeen.value.vaultKeyVersion < incoming.vaultKeyVersion
    ensures AssertFreshSnapshot(lastSeen, incoming) == Err(Rollback) ==>
      lastSeen.Some? && incoming.revision < lastSeen.value.revision
  {
  }

  lemma FollowsTransitive(a: Option<VaultRevision>, b: Option<VaultRevision>, c: Option<VaultRevision>)
    requires Follows(a, b) && Follows(b, c)
    ensures Follows(a, c)
  {
  }
}
