/** Replacing the printed recovery key, with the buffers of the vault keys and whatever the browser may fail at. */
module KitHandovers {
  import opened Common
  import opened Bytes
  import opened ManifestModel
  import opened SnapshotCheck
  import opened Envelope
  import opened DeviceKeys
  import opened DeviceBuffers
  import opened SealedManifests
  import opened Sessions
  import opened Clients
  import opened RecoveryKit
  import opened KitRotations

  datatype NewPrint = NewPrint(vault: UnlockedVault, recoveryKey: string)

  lemma WrappedKitIsAKey(
    p: Primitives, nonce: seq<byte>, reason: Reason, vaultKey: seq<byte>, recoveryKey: seq<byte>, vaultId: seq<byte>,
    generation: int, previous: Option<int>, previousKey: Option<seq<byte>>)
    requires WrapRecoveryEnvelope(p, nonce, reason, vaultKey, recoveryKey, vaultId, generation, previous,
               previousKey).Ok?
    ensures IsRecoveryKey(recoveryKey)
  {
    hide WrapVaultKey, ReasonOk, IsRecoveryKey, RwkSalt, RwkInfo;
  }

  // ---- replaceTrustedRecoveryKey ----

  /** `typed` is what reading the old print gave. */
  function TrustedSent(
    lib: Library, hkdf: Hkdf, nonces: Nonces, view: View, vaultKey: seq<byte>, typed: Result<seq<byte>>,
    newKey: seq<byte>)
    : Result<Payload>
  {
    if FirstOfKind(view.envelopes, Recovery).None? then Err(Other)
    else
      var oldKey :- typed;
      TrustedPayload(lib, hkdf, nonces, view, vaultKey, oldKey, newKey)
  }

  /** The vault key stays, and so does the unlocked vault; the new one shares its buffer. */
  method ReplaceTrustedRecoveryKey(
    client: Client, lib: Library, hkdf: Hkdf, other: char -> string, nonces: Nonces, vault: UnlockedVault,
    oldText: string, newKey: seq<byte>, reply: Reply)
    returns (sent: Option<Payload>, r: Result<NewPrint>)
    requires client.Valid()
    modifies client
    ensures client.Valid()
    ensures vault.Shown() == old(vault.Shown()) && vault.vaultKey[..] == old(vault.vaultKey[..])
    ensures var payload := TrustedSent(lib, hkdf, nonces, vault.Shown(), vault.vaultKey[..],
                             ReadText(other, lib.crypto.hash, oldText), newKey);
      && sent == (if payload.Ok? then Some(payload.value) else None)
      && match Committed(lib, id => PinIn(old(client.pins), id), payload, vault.vaultKey[..], reply)
         case Err(e) => r == Err(e) && client.pins == old(client.pins)
         case Ok(o) =>
           && r.Ok? && fresh(r.value.vault) && r.value.vault.vaultKey == vault.vaultKey
           && r.value.vault.Shown() == o.view
           && IsRecoveryKey(newKey) && r.value.recoveryKey == Kit(lib.crypto.hash, newKey)
           && client.pins == old(client.pins)[o.pin.vaultId := o.pin]
    ensures client.pins == old(client.pins) || exists a :: client.pins == AfterAttempt(lib, old(client.pins), a)
  {
    hide NewKit, CommitPayload, Committed, ReadText, Kit, IsRecoveryKey, AfterAttempt, Replaced;
    ghost var typed := ReadText(other, lib.crypto.hash, oldText);
    if FirstOfKind(vault.envelopes, Recovery).None? {
      PayloadFailed(lib, id => PinIn(old(client.pins), id), Other, vault.vaultKey[..], reply);
      return None, Err(Other);
    }
    var oldKey := ParseRecoveryKey(other, lib.crypto.hash, oldText);
    if oldKey.Err? {
      PayloadFailed(lib, id => PinIn(old(client.pins), id), oldKey.error, vault.vaultKey[..], reply);
      return None, Err(oldKey.error);
    }
    var kit := NewKit(lib, hkdf, nonces, vault.Shown(), vault.vaultKey[..], oldKey.value, newKey);
    if kit.Err? {
      PayloadFailed(lib, id => PinIn(old(client.pins), id), kit.error, vault.vaultKey[..], reply);
      return None, Err(kit.error);
    }
    NewKitIsAKey(lib, hkdf, nonces, vault.Shown(), vault.vaultKey[..], oldKey.value, newKey);
    var updated: Result<UnlockedVault>;
    sent, updated := client.CommitSnapshot(
      lib, nonces, vault, vault.entries, Replaced(vault.envelopes, kit.value), vault.vaultKey, vault.vaultKeyVersion,
      reply);
    if updated.Err? {
      return sent, Err(updated.error);
    }
    var text := FormatRecoveryKey(lib.crypto.hash, newKey);
    r := Ok(NewPrint(updated.value, text.value));
  }

  lemma NewKitIsAKey(
    lib: Library, hkdf: Hkdf, nonces: Nonces, view: View, vaultKey: seq<byte>, oldKey: seq<byte>, newKey: seq<byte>)
    requires NewKit(lib, hkdf, nonces, view, vaultKey, oldKey, newKey).Ok?
    ensures IsRecoveryKey(newKey)
  {
    hide WrapRecoveryEnvelope, Confirmed, IsRecoveryKey;
    WrappedKitIsAKey(Prims(lib, hkdf), nonces.envelope(0), TrustedReplacement, vaultKey, newKey, view.vaultId,
      view.vaultKeyVersion, Some(view.vaultKeyVersion), Some(oldKey));
  }

  // ---- rotateCompromisedRecovery ----

  /** The previous print, if its text was given. */
  ghost function ReadPrevious(lib: Library, other: char -> string, text: string): Result<Option<seq<byte>>> {
    if text == "" then Ok(None)
    else
      var key :- ReadText(other, lib.crypto.hash, text);
      Ok(Some(key))
  }

  /** The device id, and the device key if this device is enrolled. */
  function ReadOwnDevice(view: View, browser: Browser): Result<(seq<byte>, Option<LocalDevice>)> {
    var currentId :- browser.deviceId;
    if !Entitled(view, currentId) then Ok((currentId, None))
    else
      var local :- browser.local;
      Ok((currentId, local))
  }

  /** The checks before anything is minted. */
  function KitChecked(
    lib: Library, view: View, vaultKey: seq<byte>, password: seq<byte>, previous: Result<Option<seq<byte>>>)
    : Result<(Kdf, Option<seq<byte>>)>
  {
    var master :- ConfirmedMaster(lib, view, vaultKey, password);
    var previousKey :- previous;
    if master.kdf.None? then Err(Other) else Ok((master.kdf.value, previousKey))
  }

  datatype Ready = Ready(masterKey: seq<byte>, currentId: seq<byte>, local: Option<LocalDevice>)

  /** Everything between the minting of the vault key and the `try`: salt, master key, print, device. */
  function MadeReady(lib: Library, coins: RotationCoins, view: View, password: seq<byte>, kdf: Kdf, browser: Browser)
    : Result<Ready>
  {
    var _ :- Drawn(browser, 0);
    var masterKey2 :- NextMasterKey(lib, password, kdf, coins.salt);
    var _ :- Drawn(browser, 1);
    var (currentId, local) :- ReadOwnDevice(view, browser);
    Ok(Ready(masterKey2, currentId, local))
  }

  function StolenKitSent(
    lib: Library, hkdf: Hkdf, coins: RotationCoins, view: View, vaultKey: seq<byte>, password: seq<byte>,
    newKey: seq<byte>, previous: Result<Option<seq<byte>>>, browser: Browser): Result<Payload>
  {
    var (kdf, previousKey) :- KitChecked(lib, view, vaultKey, password, previous);
    var ready :- MadeReady(lib, coins, view, password, kdf, browser);
    StolenKitPayload(lib, hkdf, coins, view, vaultKey, password, newKey, previousKey, ready.currentId, ready.local)
  }

  /** It throws after the new vault key is minted and before the block that wipes it on failure. */
  predicate KitUnguarded(
    lib: Library, coins: RotationCoins, view: View, vaultKey: seq<byte>, password: seq<byte>,
    previous: Result<Option<seq<byte>>>, browser: Browser)
  {
    var checked := KitChecked(lib, view, vaultKey, password, previous);
    checked.Ok? && MadeReady(lib, coins, view, password, checked.value.0, browser).Err?
  }

  method ParsePrevious(lib: Library, other: char -> string, text: string) returns (r: Result<Option<seq<byte>>>)
    ensures r == ReadPrevious(lib, other, text)
  {
    hide ReadText;
    if text == "" {
      return Ok(None);
    }
    var parsed := ParseRecoveryKey(other, lib.crypto.hash, text);
    if parsed.Err? {
      return Err(parsed.error);
    }
    return Ok(Some(parsed.value));
  }

  lemma SentInSteps(
    lib: Library, hkdf: Hkdf, coins: RotationCoins, view: View, vaultKey: seq<byte>, password: seq<byte>,
    newKey: seq<byte>, previous: Result<Option<seq<byte>>>, browser: Browser, kdf: Kdf,
    previousKey: Option<seq<byte>>, ready: Ready)
    requires KitChecked(lib, view, vaultKey, password, previous) == Ok((kdf, previousKey))
    requires MadeReady(lib, coins, view, password, kdf, browser) == Ok(ready)
    ensures StolenKitSent(lib, hkdf, coins, view, vaultKey, password, newKey, previous, browser)
      == (match StolenKitEnvelopes(lib, hkdf, coins, view, kdf, ready.masterKey, newKey, previousKey, ready.currentId,
                  ready.local)
          case Err(e) => Err(e)
          case Ok(vs) =>
            CommitPayload(lib, coins.nonces, view, view.entries, vs, coins.vaultKey, view.vaultKeyVersion + 1))
  {
    hide ConfirmedMaster, NextMasterKey, StolenKitEnvelopes, CommitPayload, Entitled;
  }

  /**
   * Mint a vault key and a print, commit under them, and only then give up the old key. As in a hard revocation, the
   * minted key is wiped only from the `try` on.
   */
  method RotateCompromisedRecovery(
    client: Client, mem: SecretMemory, lib: Library, hkdf: Hkdf, other: char -> string, coins: RotationCoins,
    vault: UnlockedVault, password: seq<byte>, previousText: string, newKey: seq<byte>, browser: Browser, reply: Reply)
    returns (sent: Option<Payload>, r: Result<NewPrint>)
    requires client.Valid()
    modifies client, mem, vault.vaultKey
    ensures client.Valid() && vault.Shown() == old(vault.Shown())
    ensures var previous := ReadPrevious(lib, other, previousText);
      var payload := StolenKitSent(lib, hkdf, coins, old(vault.Shown()), old(vault.vaultKey[..]), password, newKey,
                       previous, browser);
      && sent == (if payload.Ok? then Some(payload.value) else None)
      && match Committed(lib, id => PinIn(old(client.pins), id), payload, coins.vaultKey, reply)
         case Err(e) =>
           && r == Err(e) && client.pins == old(client.pins) && vault.vaultKey[..] == old(vault.vaultKey[..])
           && (LeftWiped(mem) <==> AllZero(coins.vaultKey) || !KitUnguarded(
                 lib, coins, old(vault.Shown()), old(vault.vaultKey[..]), password, previous, browser))
         case Ok(o) =>
           && r.Ok? && fresh(r.value.vault) && fresh(r.value.vault.vaultKey) && AllZero(vault.vaultKey[..])
           && r.value.vault.vaultKey[..] == coins.vaultKey && r.value.vault.Shown() == o.view
           && IsRecoveryKey(newKey) && r.value.recoveryKey == Kit(lib.crypto.hash, newKey)
           && client.pins == old(client.pins)[o.pin.vaultId := o.pin]
    ensures client.pins == old(client.pins) || exists a :: client.pins == AfterAttempt(lib, old(client.pins), a)
  {
    hide KitChecked, MadeReady, StolenKitEnvelopes, CommitPayload, Committed, ReadPrevious, Kit, IsRecoveryKey,
      AfterAttempt, AllZero, PinsOk, StolenKitPayload;
    var previous := ParsePrevious(lib, other, previousText);
    var checked := KitChecked(lib, vault.Shown(), vault.vaultKey[..], password, previous);
    if checked.Err? {
      PayloadFailed(lib, id => PinIn(old(client.pins), id), checked.error, coins.vaultKey, reply);
      return None, Err(checked.error);
    }
    var (kdf, previousKey) := checked.value;
    var vaultKey2 := mem.Allocate(coins.vaultKey);
    var made := MadeReady(lib, coins, vault.Shown(), password, kdf, browser);
    if made.Err? {
      PayloadFailed(lib, id => PinIn(old(client.pins), id), made.error, coins.vaultKey, reply);
      return None, Err(made.error);
    }
    var ready := made.value;
    SentInSteps(lib, hkdf, coins, vault.Shown(), vault.vaultKey[..], password, newKey, previous, browser, kdf,
      previousKey, ready);
    // try
    var envelopes := StolenKitEnvelopes(
      lib, hkdf, coins, vault.Shown(), kdf, ready.masterKey, newKey, previousKey, ready.currentId, ready.local);
    var updated: Result<UnlockedVault>;
    if envelopes.Err? {
      PayloadFailed(lib, id => PinIn(old(client.pins), id), envelopes.error, coins.vaultKey, reply);
      sent, updated := None, Err(envelopes.error);
    } else {
      sent, updated := client.CommitSnapshot(
        lib, coins.nonces, vault, vault.entries, envelopes.value, vaultKey2, vault.vaultKeyVersion + 1, reply);
    }
    if updated.Err? {
      // finally
      Zeroize(vaultKey2);
      return sent, Err(updated.error);
    }
    StolenKitIsAKey(lib, hkdf, coins, vault.Shown(), kdf, ready.masterKey, newKey, previousKey, ready.currentId,
      ready.local);
    Zeroize(vault.vaultKey);
    var text := FormatRecoveryKey(lib.crypto.hash, newKey);
    r := Ok(NewPrint(updated.value, text.value));
  }

  lemma StolenKitIsAKey(
    lib: Library, hkdf: Hkdf, coins: RotationCoins, view: View, kdf: Kdf, masterKey: seq<byte>, newKey: seq<byte>,
    previousKey: Option<seq<byte>>, currentId: seq<byte>, kept: Option<LocalDevice>)
    requires StolenKitEnvelopes(lib, hkdf, coins, view, kdf, masterKey, newKey, previousKey, currentId, kept).Ok?
    ensures IsRecoveryKey(newKey)
  {
    hide StolenKitEnvelopes, WrapRecoveryEnvelope, IsRecoveryKey;
    var vs := StolenKitEnvelopes(lib, hkdf, coins, view, kdf, masterKey, newKey, previousKey, currentId, kept).value;
    StolenKitShape(lib, hkdf, coins, view, kdf, masterKey, newKey, previousKey, currentId, kept, vs);
    WrappedKitIsAKey(Prims(lib, hkdf), coins.nonces.envelope(1), CompromisedRotation, coins.vaultKey, newKey,
      view.vaultId, view.vaultKeyVersion + 1, Some(view.vaultKeyVersion), previousKey);
  }

  /** What goes out is a rotation for a stolen kit, as KitRotations.StolenKitIsLockedOut describes it. */
  lemma SentIsAStolenKitRotation(
    lib: Library, hkdf: Hkdf, coins: RotationCoins, view: View, vaultKey: seq<byte>, password: seq<byte>,
    newKey: seq<byte>, previous: Result<Option<seq<byte>>>, browser: Browser, p: Payload)
    returns (previousKey: Option<seq<byte>>, currentId: seq<byte>, local: Option<LocalDevice>)
    requires StolenKitSent(lib, hkdf, coins, view, vaultKey, password, newKey, previous, browser) == Ok(p)
    ensures previous == Ok(previousKey) && browser.deviceId == Ok(currentId)
    ensures local.Some? ==> browser.local == Ok(local)
    ensures StolenKitPayload(lib, hkdf, coins, view, vaultKey, password, newKey, previousKey, currentId, local) == Ok(p)
    ensures !KitUnguarded(lib, coins, view, vaultKey, password, previous, browser)
  {
    hide StolenKitPayload, ConfirmedMaster, NextMasterKey, Entitled;
    var checked := KitChecked(lib, view, vaultKey, password, previous).value;
    var ready := MadeReady(lib, coins, view, password, checked.0, browser).value;
    previousKey, currentId, local := checked.1, ready.currentId, ready.local;
  }

  /** There is such an input: the password opens the vault, and then local storage is blocked. */
  lemma KitUnguardedIsReachable(lib: Library, coins: RotationCoins, vaultKey: seq<byte>, masterKey: Digest)
    returns (blocked: Library, view: View, browser: Browser)
    requires IsKey(vaultKey)
    ensures KitUnguarded(blocked, coins, view, vaultKey, [], Ok(None), browser)
  {
    hide CheckedKeys;
    blocked, view, browser := UnguardedIsReachable(lib, coins, vaultKey, masterKey);
    CheckedIsConfirmed(blocked, view, vaultKey, [], None);
    assert Unguarded(blocked, coins, view, vaultKey, [], [], None, browser);
  }

  lemma CheckedIsConfirmed(
    lib: Library, view: View, vaultKey: seq<byte>, password: seq<byte>, recovery: Option<TypedKit>)
    requires CheckedKeys(lib, view, vaultKey, password, recovery).Ok?
    ensures ConfirmedMaster(lib, view, vaultKey, password).Ok?
    ensures ConfirmedMaster(lib, view, vaultKey, password).value.kdf
      == Some(CheckedKeys(lib, view, vaultKey, password, recovery).value.0)
  {
    hide ConfirmedMaster, Confirmed;
  }
}
