/** The client's methods, which move the pin and hand vault keys over, proved against Session's functions. */
module Clients {
  import opened Common
  import opened Bytes
  import opened SnapshotCheck
  import opened SealedManifests
  import opened Revision
  import opened Sessions
  import opened DeviceKeys
  import opened DeviceBuffers

  type Pins = map<seq<byte>, VaultRevision>

  function PinIn(pins: Pins, vaultId: seq<byte>): Option<VaultRevision> {
    if vaultId in pins then Some(pins[vaultId]) else None
  }

  // ---- Runs: what any sequence of openings does to the pins ----

  /** Some snapshot, key and cross-checks handed to openSnapshot: by an unlock, a commit's reply or a rotation's. */
  datatype Attempt = Attempt(s: Snapshot, vaultKey: seq<byte>, checks: seq<CrossCheck>)

  function Outcome(lib: Library, pins: Pins, a: Attempt): Result<Opened> {
    OpenedSnapshot(lib, PinIn(pins, a.s.header.vaultId), a.s, a.vaultKey, a.checks)
  }

  function AfterAttempt(lib: Library, pins: Pins, a: Attempt): Pins {
    match Outcome(lib, pins, a)
    case Err(_) => pins
    case Ok(o) => pins[a.s.header.vaultId := o.pin]
  }

  function AfterRun(lib: Library, pins: Pins, run: seq<Attempt>): Pins {
    if run == [] then pins else AfterAttempt(lib, AfterRun(lib, pins, run[..|run| - 1]), run[|run| - 1])
  }

  predicate PinsOk(pins: Pins) {
    forall id :: id in pins ==> pins[id].vaultId == id && RevisionOk(pins[id])
  }

  lemma AttemptAdvances(lib: Library, pins: Pins, a: Attempt, vaultId: seq<byte>)
    requires PinsOk(pins)
    ensures PinsOk(AfterAttempt(lib, pins, a))
    ensures Follows(PinIn(pins, vaultId), PinIn(AfterAttempt(lib, pins, a), vaultId))
  {
    hide OpenedSnapshot, RevisionOk;
    if Outcome(lib, pins, a).Ok? {
      OpenedFollows(lib, PinIn(pins, a.s.header.vaultId), a.s, a.vaultKey, a.checks);
    }
  }

  /** No run lowers a pinned revision or key generation, changes a digest at one revision, or drops one. */
  lemma {:induction false} RunsOnlyAdvance(lib: Library, pins: Pins, run: seq<Attempt>, vaultId: seq<byte>)
    requires PinsOk(pins)
    ensures PinsOk(AfterRun(lib, pins, run))
    ensures Follows(PinIn(pins, vaultId), PinIn(AfterRun(lib, pins, run), vaultId))
  {
    hide AfterAttempt, RevisionOk;
    if run != [] {
      var before := AfterRun(lib, pins, run[..|run| - 1]);
      RunsOnlyAdvance(lib, pins, run[..|run| - 1], vaultId);
      AttemptAdvances(lib, before, run[|run| - 1], vaultId);
      FollowsTransitive(PinIn(pins, vaultId), PinIn(before, vaultId), PinIn(AfterRun(lib, pins, run), vaultId));
    }
  }

  /** Attempt k of the run, made with the pins the earlier ones left. */
  function OutcomeAt(lib: Library, pins: Pins, run: seq<Attempt>, k: nat): Result<Opened>
    requires k < |run|
  {
    Outcome(lib, AfterRun(lib, pins, run[..k]), run[k])
  }

  lemma {:induction false} RunSplits(lib: Library, pins: Pins, run: seq<Attempt>, k: nat)
    requires k <= |run|
    ensures AfterRun(lib, pins, run) == AfterRun(lib, AfterRun(lib, pins, run[..k]), run[k..])
  {
    hide AfterAttempt;
    if k == |run| {
      assert run[..k] == run && run[k..] == [];
    } else {
      RunSplits(lib, pins, run[..|run| - 1], k);
      assert run[..|run| - 1][..k] == run[..k];
      assert run[k..][..|run[k..]| - 1] == run[..|run| - 1][k..];
      assert run[k..][|run[k..]| - 1] == run[|run| - 1];
    }
  }

  /** A pin that moved is that of a snapshot whose manifest, if any, and every record were verified. */
  lemma {:induction false} PinsAreVerified(lib: Library, pins: Pins, run: seq<Attempt>, vaultId: seq<byte>)
    ensures PinIn(AfterRun(lib, pins, run), vaultId) == PinIn(pins, vaultId)
      || exists k: nat :: k < |run| && run[k].s.header.vaultId == vaultId && OutcomeAt(lib, pins, run, k).Ok?
           && PinIn(AfterRun(lib, pins, run), vaultId) == Some(OutcomeAt(lib, pins, run, k).value.pin)
  {
    hide Outcome;
    if run != [] {
      var n := |run| - 1;
      PinsAreVerified(lib, pins, run[..n], vaultId);
      if OutcomeAt(lib, pins, run, n).Ok? && run[n].s.header.vaultId == vaultId {
      } else if PinIn(AfterRun(lib, pins, run), vaultId) != PinIn(pins, vaultId) {
        var k: nat :| k < n && run[..n][k].s.header.vaultId == vaultId && OutcomeAt(lib, pins, run[..n], k).Ok?
          && PinIn(AfterRun(lib, pins, run[..n]), vaultId) == Some(OutcomeAt(lib, pins, run[..n], k).value.pin);
        assert run[..n][..k] == run[..k];
        assert OutcomeAt(lib, pins, run, k).Ok?;
      }
    }
  }

  /** Within one run a vault shows one state per revision: a later opening of it carries the pinned digest. */
  lemma RunsNeverFork(lib: Library, pins: Pins, run: seq<Attempt>, i: nat, j: nat)
    requires PinsOk(pins) && i < j < |run|
    requires OutcomeAt(lib, pins, run, i).Ok? && OutcomeAt(lib, pins, run, j).Ok?
    requires run[i].s.header.vaultId == run[j].s.header.vaultId
    ensures var a, b := OutcomeAt(lib, pins, run, i).value.pin, OutcomeAt(lib, pins, run, j).value.pin;
      && a.revision <= b.revision && a.vaultKeyVersion <= b.vaultKeyVersion
      && (a.manifestDigest.Some? ==> b.manifestDigest.Some?)
      && (a.revision == b.revision && a.manifestDigest.Some? ==> a.manifestDigest == b.manifestDigest)
      && (a.revision == b.revision ==> a.vaultKeyVersion == b.vaultKeyVersion)
  {
    hide OpenedSnapshot, AfterRun, RevisionOk;
    var id := run[i].s.header.vaultId;
    var p, q := AfterRun(lib, pins, run[..i + 1]), AfterRun(lib, pins, run[..j]);
    RunsOnlyAdvance(lib, pins, run[..i], id);
    RunsOnlyAdvance(lib, pins, run[..i + 1], id);
    LastAttempt(lib, pins, run, i);
    assert run[..j][..i + 1] == run[..i + 1];
    RunSplits(lib, pins, run[..j], i + 1);
    RunsOnlyAdvance(lib, p, run[..j][i + 1..], id);
    OpenedFollows(lib, PinIn(q, id), run[j].s, run[j].vaultKey, run[j].checks);
    FollowsTransitive(PinIn(p, id), PinIn(q, id), Some(OutcomeAt(lib, pins, run, j).value.pin));
  }

  lemma LastAttempt(lib: Library, pins: Pins, run: seq<Attempt>, i: nat)
    requires i < |run| && OutcomeAt(lib, pins, run, i).Ok?
    ensures PinIn(AfterRun(lib, pins, run[..i + 1]), run[i].s.header.vaultId)
      == Some(OutcomeAt(lib, pins, run, i).value.pin)
  {
    hide Outcome;
    assert run[..i + 1][..i] == run[..i];
  }

  /** The unlocked vault owns the buffer of its key; `lock` wipes it in place. */
  class UnlockedVault {
    const vaultId: seq<byte>
    const revision: int
    const vaultKeyVersion: int
    const envelopes: seq<KeyEnvelope>
    const vaultKey: array<byte>
    var entries: seq<VaultEntry>

    constructor (view: View, vaultKey: array<byte>)
      ensures this.vaultKey == vaultKey && Shown() == view
    {
      this.vaultId, this.revision, this.vaultKeyVersion := view.vaultId, view.revision, view.vaultKeyVersion;
      this.envelopes, this.entries := view.envelopes, view.entries;
      this.vaultKey := vaultKey;
    }

    function Shown(): View
      reads this
    {
      View(vaultId, revision, vaultKeyVersion, envelopes, entries)
    }
  }

  function Wiped(wipe: VaultEntry -> VaultEntry, es: seq<VaultEntry>): seq<VaultEntry> {
    seq(|es|, i requires 0 <= i < |es| => wipe(es[i]))
  }

  /** Zeroizes the key and blanks the secret fields of every entry. */
  method Lock(v: UnlockedVault, wipe: VaultEntry -> VaultEntry)
    modifies v, v.vaultKey
    ensures AllZero(v.vaultKey[..])
    ensures v.entries == Wiped(wipe, old(v.entries))
  {
    Zeroize(v.vaultKey);
    var before := v.entries;
    for i := 0 to |before|
      invariant |v.entries| == |before| && AllZero(v.vaultKey[..])
      invariant forall j :: 0 <= j < i ==> v.entries[j] == wipe(before[j])
      invariant forall j :: i <= j < |before| ==> v.entries[j] == before[j]
    {
      v.entries := v.entries[i := wipe(v.entries[i])];
    }
  }

  class Client {
    /** The browser's local storage of pins. */
    var pins: Pins

    constructor ()
      ensures pins == map[]
    {
      pins := map[];
    }

    predicate Valid()
      reads this
    {
      PinsOk(pins)
    }

    function LoadPin(vaultId: seq<byte>): Option<VaultRevision>
      reads this
    {
      PinIn(pins, vaultId)
    }

    /** Decrypt, verify, decode, sort, and only then move the pin. */
    method OpenSnapshot(lib: Library, s: Snapshot, vaultKey: array<byte>, checks: seq<CrossCheck>)
      returns (r: Result<UnlockedVault>)
      requires Valid()
      modifies this
      ensures Valid()
      ensures match OpenedSnapshot(lib, old(LoadPin(s.header.vaultId)), s, vaultKey[..], checks)
              case Err(e) => r == Err(e) && pins == old(pins)
              case Ok(o) =>
                && r.Ok? && fresh(r.value) && r.value.vaultKey == vaultKey && r.value.Shown() == o.view
                && pins == old(pins)[s.header.vaultId := o.pin]
      ensures pins == AfterAttempt(lib, old(pins), Attempt(s, vaultKey[..], checks))
    {
      hide Authenticated, ShownEntries, VerifiedEntries, AssertFreshSnapshot;
      var pin := LoadPin(s.header.vaultId);
      var authenticated := Authenticated(lib.crypto, pin, s, vaultKey[..]);
      if authenticated.Err? {
        return Err(authenticated.error);
      }
      var (accepted, records) := authenticated.value;
      var shown := ShownEntries(lib, s.header.vaultId, vaultKey[..], accepted.vaultKeyVersion, records.entries, checks);
      if shown.Err? {
        return Err(shown.error);
      }
      var freshness := AssertFreshSnapshot(LoadPin(s.header.vaultId), accepted);
      if freshness.Err? {
        return Err(freshness.error);
      }
      OpenedFollows(lib, pin, s, vaultKey[..], checks);
      pins := pins[accepted.vaultId := accepted];
      var vault := new UnlockedVault(
        View(s.header.vaultId, accepted.revision, accepted.vaultKeyVersion, records.envelopes, shown.value), vaultKey);
      return Ok(vault);
    }

    /**
     * unlockWithMasterPassword and unlockWithRecoveryKey: the pin is checked before any key is touched, and moved last.
     */
    method Unlock(lib: Library, vaultId: seq<byte>, s: Snapshot, way: Way) returns (r: Result<UnlockedVault>)
      requires Valid()
      modifies this
      ensures Valid()
      ensures match Unlocked(lib, old(LoadPin(vaultId)), vaultId, s, way)
              case Err(e) => r == Err(e) && pins == old(pins)
              case Ok((key, o)) =>
                && r.Ok? && fresh(r.value) && fresh(r.value.vaultKey) && r.value.vaultKey[..] == key
                && r.value.Shown() == o.view && pins == old(pins)[vaultId := o.pin]
      ensures pins == old(pins) || exists a :: pins == AfterAttempt(lib, old(pins), a)
    {
      hide OpenedSnapshot, Unwrapped, AssertFreshSnapshot, SealedDigest;
      var fetched := FetchedFresh(lib.crypto, LoadPin(vaultId), vaultId, s);
      if fetched.Err? {
        return Err(fetched.error);
      }
      var unwrapped := Unwrapped(lib, vaultId, s, way);
      if unwrapped.Err? {
        return Err(unwrapped.error);
      }
      var (key, check) := unwrapped.value;
      var vaultKey := new byte[|key|](i requires 0 <= i < |key| => key[i]);
      assert vaultKey[..] == key;
      r := OpenSnapshot(lib, s, vaultKey, [check]);
    }

    /**
     * commitSnapshot: one request, built from the unlocked vault, for exactly the next revision.
     * A refusal, a lost race or a reply that does not verify leaves vault, key and pins as they were.
     */
    method CommitSnapshot(
      lib: Library, nonces: Nonces, vault: UnlockedVault, entries: seq<VaultEntry>, envelopes: seq<KeyEnvelope>,
      vaultKey: array<byte>, vaultKeyVersion: int, reply: Reply)
      returns (sent: Option<Payload>, r: Result<UnlockedVault>)
      requires Valid()
      modifies this
      ensures Valid()
      ensures vault.Shown() == old(vault.Shown()) && vault.vaultKey[..] == old(vault.vaultKey[..])
      ensures var payload := CommitPayload(lib, nonces, vault.Shown(), entries, envelopes, vaultKey[..],
        vaultKeyVersion);
        && sent == (if payload.Ok? then Some(payload.value) else None)
        && match Committed(lib, id => PinIn(old(pins), id), payload, vaultKey[..], reply)
           case Err(e) => r == Err(e) && pins == old(pins)
           case Ok(o) =>
             && r.Ok? && fresh(r.value) && r.value.vaultKey == vaultKey && r.value.Shown() == o.view
             && pins == old(pins)[o.pin.vaultId := o.pin]
      ensures pins == old(pins) || exists a :: pins == AfterAttempt(lib, old(pins), a)
    {
      hide CommitPayload, OpenedSnapshot;
      var payload := CommitPayload(lib, nonces, vault.Shown(), entries, envelopes, vaultKey[..], vaultKeyVersion);
      if payload.Err? {
        return None, Err(payload.error);
      }
      sent := Some(payload.value);
      match reply
      case Stored(s) =>
        if OpenedSnapshot(lib, LoadPin(s.header.vaultId), s, vaultKey[..], []).Ok? {
          OpenedFollows(lib, LoadPin(s.header.vaultId), s, vaultKey[..], []);
        }
        r := OpenSnapshot(lib, s, vaultKey, []);
      case RevisionConflict(_) => r := Err(Conflict);
      case Refused => r := Err(Other);
    }

    /**
     * hardRevokeDevice: mint a key, commit under it, and only then give up the old one.
     * On failure nothing else changed, but the minted key is wiped only from the `try` on; revoking this device locks
     * both vaults.
     */
    method HardRevoke(
      mem: SecretMemory, lib: Library, wipe: VaultEntry -> VaultEntry, coins: RotationCoins, vault: UnlockedVault,
      target: seq<byte>, password: seq<byte>, recovery: Option<TypedKit>, browser: Browser, reply: Reply)
      returns (sent: Option<Payload>, r: Result<Receipt>)
      requires Valid()
      modifies this, mem, vault, vault.vaultKey
      ensures Valid()
      ensures var payload := HardRevokePayload(lib, coins, old(vault.Shown()), old(vault.vaultKey[..]), target,
                               password, recovery, browser);
        && sent == (if payload.Ok? then Some(payload.value) else None)
        && match Committed(lib, id => PinIn(old(pins), id), payload, coins.vaultKey, reply)
           case Err(e) =>
             && r == Err(e) && pins == old(pins)
             && vault.Shown() == old(vault.Shown()) && vault.vaultKey[..] == old(vault.vaultKey[..])
             && (LeftWiped(mem) <==> AllZero(coins.vaultKey) || !Unguarded(
                   lib, coins, old(vault.Shown()), old(vault.vaultKey[..]), target, password, recovery, browser))
           case Ok(o) =>
             && r.Ok? && fresh(r.value.vault) && fresh(r.value.vault.vaultKey) && browser.deviceId.Ok?
             && r.value.target == target && r.value.selfRevoked == (target == browser.deviceId.value)
             && pins == old(pins)[o.pin.vaultId := o.pin] && AllZero(vault.vaultKey[..])
             && vault.entries == (if r.value.selfRevoked then Wiped(wipe, old(vault.entries)) else old(vault.entries))
             && (if r.value.selfRevoked
                 then AllZero(r.value.vault.vaultKey[..]) && r.value.vault.entries == Wiped(wipe, o.view.entries)
                 else r.value.vault.vaultKey[..] == coins.vaultKey && r.value.vault.Shown() == o.view)
      ensures pins == old(pins) || exists a :: pins == AfterAttempt(lib, old(pins), a)
    {
      hide CheckedKeys, NextMasterKey, RotationEnvelopes, CommitPayload, Committed, AfterAttempt, Entitled, RevisionOk,
        AllZero;
      var checked := CheckedKeys(lib, vault.Shown(), vault.vaultKey[..], password, recovery);
      if checked.Err? {
        PayloadFailed(lib, id => PinIn(old(pins), id), checked.error, coins.vaultKey, reply);
        return None, Err(checked.error);
      }
      var (kdf, kit) := checked.value;
      var vaultKey2 := mem.Allocate(coins.vaultKey);
      var salt := Drawn(browser, 0);
      if salt.Err? {
        PayloadFailed(lib, id => PinIn(old(pins), id), salt.error, coins.vaultKey, reply);
        return None, Err(salt.error);
      }
      var masterKey2 := NextMasterKey(lib, password, kdf, coins.salt);
      if masterKey2.Err? {
        PayloadFailed(lib, id => PinIn(old(pins), id), masterKey2.error, coins.vaultKey, reply);
        return None, Err(masterKey2.error);
      }
      var read := ReadBrowser(vault.Shown(), target, browser);
      if read.Err? {
        PayloadFailed(lib, id => PinIn(old(pins), id), read.error, coins.vaultKey, reply);
        return None, Err(read.error);
      }
      var (currentId, local) := read.value;
      // try
      var envelopes := RotationEnvelopes(
        lib, coins, vault.Shown(), RotationKeys(kdf, masterKey2.value, kit), currentId, local);
      var updated: Result<UnlockedVault>;
      if envelopes.Err? {
        PayloadFailed(lib, id => PinIn(old(pins), id), envelopes.error, coins.vaultKey, reply);
        sent, updated := None, Err(envelopes.error);
      } else {
        sent, updated := CommitSnapshot(
          lib, coins.nonces, vault, vault.entries, envelopes.value, vaultKey2, vault.vaultKeyVersion + 1, reply);
      }
      if updated.Err? {
        // finally
        Zeroize(vaultKey2);
        return sent, Err(updated.error);
      }
      Zeroize(vault.vaultKey);
      if target == currentId {
        Lock(vault, wipe);
        Lock(updated.value, wipe);
      }
      return sent, Ok(Receipt(updated.value, target, target == currentId));
    }
  }

  datatype Receipt = Receipt(vault: UnlockedVault, target: seq<byte>, selfRevoked: bool)

  lemma PayloadFailed(
    lib: Library, pin: seq<byte> -> Option<VaultRevision>, error: Error, vaultKey: seq<byte>, reply: Reply)
    ensures Committed(lib, pin, Err(error), vaultKey, reply) == Err(error)
  {
  }
}
