/** Unlocking with a typed recovery key: from the text to the entries. */
module KitUnlocks {
  import opened Common
  import opened Bytes
  import opened SealedManifests
  import opened Revision
  import opened Sessions
  import opened Clients
  import opened RecoveryKit
  import opened KitRotations

  /** The wrapping key behind a typed text. */
  ghost function TypedKey(lib: Library, hkdf: Hkdf, other: char -> string, vaultId: seq<byte>, text: string): TypedKit {
    var key :- ReadText(other, lib.crypto.hash, text);
    DeriveRecoveryWrappingKey(Prims(lib, hkdf), key, vaultId)
  }

  /** unlockWithRecoveryKey; reading the text has no effects, so it may come before the checks on the snapshot. */
  method UnlockWithRecoveryKey(
    client: Client, lib: Library, hkdf: Hkdf, other: char -> string, vaultId: seq<byte>, s: Snapshot, text: string)
    returns (r: Result<UnlockedVault>)
    requires client.Valid()
    modifies client
    ensures client.Valid()
    ensures match Unlocked(lib, old(client.LoadPin(vaultId)), vaultId, s,
                    ByRecoveryKey(TypedKey(lib, hkdf, other, vaultId, text)))
            case Err(e) => r == Err(e) && client.pins == old(client.pins)
            case Ok((key, o)) =>
              && r.Ok? && r.value.vaultKey[..] == key && r.value.Shown() == o.view
              && client.pins == old(client.pins)[vaultId := o.pin]
  {
    hide Unlocked;
    var typed: TypedKit;
    var parsed := ParseRecoveryKey(other, lib.crypto.hash, text);
    if parsed.Err? {
      typed := Err(parsed.error);
    } else {
      typed := DeriveRecoveryWrappingKey(Prims(lib, hkdf), parsed.value, vaultId);
    }
    r := client.Unlock(lib, vaultId, s, ByRecoveryKey(typed));
  }

  /** Any sloppy copy of the printed kit unlocks exactly what the key itself unlocks. */
  lemma CopiedKitUnlocks(
    lib: Library, hkdf: Hkdf, other: char -> string, vaultId: seq<byte>, key: seq<byte>, slips: seq<Slip>,
    pin: Option<VaultRevision>, s: Snapshot)
    requires IsRecoveryKey(key) && AreSlips(other, Kit(lib.crypto.hash, key), slips) && KeepsSpace(other)
    ensures Unlocked(lib, pin, vaultId, s,
              ByRecoveryKey(TypedKey(lib, hkdf, other, vaultId,
                AllSlipped(other, Kit(lib.crypto.hash, key), slips))))
      == Unlocked(lib, pin, vaultId, s, ByRecoveryKey(DeriveRecoveryWrappingKey(Prims(lib, hkdf), key, vaultId)))
  {
    hide Unlocked, ReadText, AllSlipped, AreSlips, Kit, KeepsSpace, DeriveRecoveryWrappingKey, Spells, Verdict,
      Checksum;
    SloppyCopyReadsBack(other, lib.crypto.hash, key, slips, key + Checksum(lib.crypto.hash, key));
  }
}
