# 4allpass: a verified model of its protocol core

4allpass keeps a vault of sealed entries on a server that is not trusted. The client seals every entry and every key
envelope, describes them in a manifest, seals the manifest under the vault key and publishes all of it as the next
revision; it pins what it has verified and refuses to go back. This project models that core in Dafny and proves what
the repository relies on it for. Run `dafny verify dfyconfig.toml` to check everything.

The files, in the order in which they build on each other:

| files | what they hold |
|---|---|
| `Common`, `Bytes`, `Utf8`, `Framing`, `Sorting` | results, byte strings and their order, `TextDecoder`'s view of UTF-8, length-prefixed framing, sorting by key |
| `ManifestModel`, `ManifestCodec`, `ManifestWire` | the manifest, its canonical form, its encoding as functions, and the loops and the `FrameReader` that compute it |
| `SnapshotCheck`, `SealedManifest` | a snapshot is exactly what a manifest describes; the manifest is sealed for exactly one header |
| `Envelope`, `DeviceKeys`, `DeviceBuffers`, `Base32`, `RecoveryKit` | key envelopes, sealed entries, the device path on real buffers, the printed recovery key |
| `Revision`, `Session`, `Client`, `KitRotation`, `KitUnlock`, `KitHandover`, `HeadRecovery` | the pin, unlocking, committing and replacing kits against a server that may answer anything, history |
| `CommitRoundTrip`, `CommitReply`, `IdealModel` | the way from a commit back to its entries, what a reply to a commit proves, and that the hypotheses about the cipher can be met |
| `Server`, `Rotation` | the snapshot table under concurrent writers; who can read what after a key rotation |
| `CsvRecords`, `DerReader`, `PngPixels` | the three byte- and character-level readers |
| `SessionStore`, `Executor`, `ExecutorOverlap`, `EventLog` | login sessions and rate limits, the one-shot executor, its callbacks when they overlap, the hash-chained event log |

## How the cryptography is modelled

AES-GCM, SHA-256, HKDF, Argon2id, HMAC, zlib and JSON are parameters: arbitrary functions. A lemma that needs one of
them to behave says so in its `requires`:

- a box opens under its own key and associated data only (`OpensOnlyAs`, and `IdealSeal`, `IdealEntry`, `IdealEnvelope`,
  `IdealBoxes`, `IdealKit`, `IdealPayload`, `IdealRotation` built from it), two given keys do not open one box (`OneKey`);
- a hash has no collisions on a finite set of preimages (`CollisionFree`, `ToldApart`, and `Separates` for the event
  log), a key derivation tells two identities apart (`DistinctDerivations`, `DistinctKits`);
- the JSON of entries reads back and their sorting keeps them (`Readable`, `Permutes`); JSON lines read back, cut short
  or glued together they do not (`EventLog.Lawful`); white space has no case (`KeepsSpace`).

That these can be met is proved where it is not plain: `IdealModel.IdealLibraryExists`, `IdealRotationExists`,
`IdealBindingExists`, `IdealKitExists`, `IdealReplacementExists` and `IdealStolenKitExists` give a cipher for every
payload, rotation, device binding and kit whose boxes differ (a cipher in which `OneKey` holds for each of those boxes,
by `IdealModel.TableIsIdeal`), and `EventLog.LawfulJsonExists` a format. One hypothesis is about other clients, not
about the cipher: `OnlySealFor`, that no rival commit was sealed for a header; only the last clause of
`CommitReplies.SuccessIsOursIfItAnswers` uses it. Results about what a client refuses (`Clients.RunsOnlyAdvance`,
`Clients.PinsAreVerified`) assume nothing. `Rotation` uses symbolic keys instead, with an explicit attacker who takes
apart, opens, derives and seals for as long as he likes. Random choices (nonces, fresh keys, identifiers) and clocks are
inputs. A string is represented by its UTF-8 bytes in the crypto library and by characters elsewhere; ill-formed bytes
stand for a JavaScript string with a lone surrogate.

## Where the code does not do what its comments or documentation say

- `decodeManifest` promises that no two byte strings decode to one manifest (packages/crypto/src/manifest.ts:470-472).
  `TextDecoder` drops a leading byte order mark, so every manifest that can be decoded at all has two encodings, one of
  them with a mark before its content label (`ManifestCodec.EveryManifestHasTwoEncodings`,
  `ManifestCodec.NothingDecodesUniquely`). `ManifestCodec.EncodeInvertsDecode` and `ManifestCodec.DecodeInvertsEncode`
  give the exact condition for the round trips: no string field starts with a mark.
- `base32Decode` checks that padding bits are zero, which its comment calls the canonical form
  (packages/crypto/src/recovery.ts:81-84). For byte counts of remainder 0, 1 or 3 modulo 5 a superfluous final `0` is
  accepted as well; `Base32.CanonicalLengths` shows that canonicity holds exactly for remainders 2 and 4. The 34 bytes
  of the kit have remainder 4.
- `der_octet_encoding` writes the length as one octet (src-tauri/src/firefox_logins.rs:104-115). It reads back exactly up
  to 255 octets; `DerReader.OctetsReadBack` says what it reads as beyond that.
- `parse_der` reads an INTEGER as an unsigned number in a 64-bit accumulator, where section 8.3 of ITU-T X.690 has two's
  complement: `80` reads as 128 and not as -128 (`DerReader.NegativeIntegers`). `DerReader.IntegerIsExact` gives the
  exact range of the unsigned reading, `DerReader.IntegerIsStandard` the exact condition for the standard's.
- `_last_hash` skips lines that are not JSON, but other exceptions reach `emit_from_decide`, which turns them into
  silence: bytes that are not UTF-8, a JSON value that is not an object, an integer that is too long, nesting that is too
  deep, a last hash that cannot be printed. `EventLog.EmitsUnlessSilenced` gives the exact condition. From then on no
  decision writes anything (`EventLog.SilenceLasts`), and no append undoes a complete line that raises
  (`EventLog.RaisingLineStays`).
- `emit_from_decide` returns an event that is not in the log when it was appended to the remains of a torn line;
  `EventLog.ReturnedIsLogged` says exactly when it is.
- `hardRevokeDevice` and `rotateCompromisedRecovery` wipe the vault key they minted when they fail
  (frontend/src/lib/vault-session.ts:1030, frontend/src/lib/vault-session.ts:1193), but not when drawing the salt or the
  new print, deriving the new master key, `deviceId()` or `tryLocalDeviceKey` throws: these run between the minting and
  the `try`. `Clients.Client.HardRevoke` and `KitHandovers.RotateCompromisedRecovery` state the exact condition;
  `Sessions.UnguardedIsReachable` and `KitHandovers.KitUnguardedIsReachable` give such inputs.
- `commitSnapshot` takes any snapshot that opens for its own commit: the reply is not compared with what was sent. A
  replayed head counts as success (`CommitReplies.ReplayIsTakenForSuccess`), and so does a rival commit for the same
  revision, which even carries the sent vault, revision and generation (`CommitReplies.RivalIsTakenForSuccess`). A
  success pins the manifest that was sent if and only if the reply carries that very manifest
  (`CommitReplies.SuccessIsOursIfItReturnsOurSeal`), which the client could compare at once, and then it shows what was
  sent (`CommitReplies.OwnSealShowsWhatWasSent`).
- The executor's `callback_attempted` is read and set without a lock. One use of the transport is certain exactly as long
  as no two callbacks overlap there (`ExecutorOverlaps.OnlyOverlapsAdmitTwo`, `ExecutorOverlaps.OverlapUsesTwice`), and
  between the check of the grant and the use anything may happen (`ExecutorOverlaps.CheckIsNotUse`).
- `hit_rate_limit` forgets calls of the last window after the clock was set back or a shorter window was asked for;
  `SessionStore.CountsTheWindow` gives the exact condition.

## Model

| member | source | states |
|---|---|---|
| `Bytes.CompareUtf8` | packages/crypto/src/encoding/bytes.ts:59-68 | the comparison loop decides the lexicographic order of bytes, all three outcomes |
| `Utf8.DecodeIsIdentity` | packages/crypto/src/manifest.ts:389-397 | strict decoding gives well-formed bytes back exactly if no byte order mark leads them |
| `Framing.FramedInjective` | packages/crypto/src/encoding/framing.ts:16-37 | no two field lists have the same framing, with 4-byte or 2-byte prefixes |
| `Sorting.SortedIsUnique` | packages/crypto/src/manifest.ts:110-130 | records with distinct keys have one strictly ascending arrangement: what canonical order rests on |
| `ManifestModel.ValidateManifest` | packages/crypto/src/manifest.ts:279-335 | sorting and one scan with a set of seen keys computes the specified verdict, with the error of the first failing check |
| `ManifestModel.ValidateExact` | packages/crypto/src/manifest.ts:279-335 | accepted are exactly the manifests of one key generation with well-formed, mutually distinct references, in any order; returned is the canonical arrangement of the same references |
| `ManifestModel.ValidateIgnoresOrder` | packages/crypto/src/manifest.ts:279-335 | whether a manifest is accepted, and what is returned, does not depend on the order of its references |
| `ManifestCodec.DecodeInvertsEncode` | packages/crypto/src/manifest.ts:337-482 | decode(encode(m)) is the validated m if and only if no string of m starts with a byte order mark |
| `ManifestCodec.EncodeInvertsDecode` | packages/crypto/src/manifest.ts:337-482 | encode(decode(b)) is b if and only if no string field of the accepted b starts with a byte order mark |
| `ManifestCodec.DecodeIsInjective` | packages/crypto/src/manifest.ts:470-482 | among inputs without such a mark no two byte strings decode to one manifest |
| `ManifestCodec.EveryManifestHasTwoEncodings` | packages/crypto/src/manifest.ts:470-482 | without that condition the promise fails, for every canonical manifest, marks in its own strings included |
| `ManifestCodec.NothingDecodesUniquely` | packages/crypto/src/manifest.ts:470-482 | for every accepted input there is another that decodes alike |
| `ManifestCodec.DecodedAsRead` | packages/crypto/src/manifest.ts:427-482 | a message is accepted exactly if its records are canonical under the right label, and is returned as read, never re-sorted |
| `ManifestWire.EncodeManifest` | packages/crypto/src/manifest.ts:337-367 | the pushing loops write the specified encoding |
| `ManifestWire.FrameReader.ReadField` | packages/crypto/src/manifest.ts:369-388 | a field comes off at the offset, which advances past it; a cut-short field is an error from which no parse of the message recovers |
| `ManifestWire.DecodeManifest` | packages/crypto/src/manifest.ts:369-482 | the reader with its moving offset computes the specified decoding, every malformed input refused alike |
| `SnapshotCheck.EntryDigestInjective` | packages/crypto/src/encoding/digest.ts:32-45 | equal digests mean equal entries, all seven fields |
| `SnapshotCheck.EnvelopeDigestInjective` | packages/crypto/src/encoding/digest.ts:16-63 | equal digests mean equal envelopes, key derivation parameters included |
| `SnapshotCheck.DescribeIgnoresOrder` | packages/crypto/src/manifest.ts:237-277 | rearranged contents have the same description |
| `SnapshotCheck.DescriptionDeterminesContents` | packages/crypto/src/manifest.ts:237-277 | contents with one description hold the same records |
| `SnapshotCheck.AssertSnapshotMatchesManifest` | packages/crypto/src/manifest.ts:600-658 | normalization, description and the two comparison loops compute the specified check |
| `SnapshotCheck.CheckAcceptsExactlyRearrangements` | packages/crypto/src/manifest.ts:205-235 | against the manifest built from c1, contents c2 pass exactly if their normalized records are c1's up to order; returned are c2's own, in c2's order |
| `SealedManifests.ManifestAadInjective` | packages/crypto/src/encoding/aad.ts:125-133 | the associated data is a statement about vault, revision and both versions |
| `SealedManifests.SealedDigestInjective` | packages/crypto/src/encoding/digest.ts:66-76 | a pinned digest stands for one sealed blob |
| `SealedManifests.SealedOpensExactlyAsSealed` | packages/crypto/src/manifest.ts:484-593 | a sealed manifest opens for the key and the four header fields it was sealed for and for no other claim, and yields the canonical manifest |
| `SealedManifests.OneDigestOneSnapshot` | packages/crypto/src/manifest.ts:666-678 | two snapshots verified for one header with one digest hold the same records |
| `Envelope.AadInjective` | packages/crypto/src/encoding/aad.ts:25-38 | associated data of one purpose determines its fields |
| `Envelope.EnvelopeOpensExactlyAsWrapped` | packages/crypto/src/envelope.ts:65-220 | a wrapped vault key opens with its wrapping key for its vault, kind, generation and, on device envelopes, device and device-key generation; otherwise it is refused |
| `Envelope.EntryOpensExactlyAsSealed` | packages/crypto/src/entry.ts:34-121 | a sealed entry opens for its key, vault, slot and generation, and nowhere else |
| `DeviceKeys.OpenEnvelopesExact` | packages/crypto/src/device.ts:160-207 | the two envelopes of a binding open for its wrapping key and its five identity fields only |
| `DeviceKeys.UnlockExactlyForTheBoundIdentity` | packages/crypto/src/device.ts:83-465 | after a binding, unlocking returns the vault key exactly if PRF output, relying party, vault, device, credential and both generations match |
| `DeviceBuffers.Zeroize` | packages/crypto/src/memory.ts:2-7 | every byte of the buffer is zero |
| `DeviceBuffers.BindDeviceWithPrfOutput` | packages/crypto/src/device.ts:289-314 | the specified binding or error, and on every exit the PRF output and every key buffer made on the way are all zero |
| `DeviceBuffers.BindDeviceWithWrappingKey` | packages/crypto/src/device.ts:321-349 | the same for a local wrapping key |
| `DeviceBuffers.OpenDeviceEnvelopes` | packages/crypto/src/device.ts:389-415 | the device key buffer is zero on every exit |
| `DeviceBuffers.UnwrapVaultKeyWithPrfOutput` | packages/crypto/src/device.ts:425-446 | the specified vault key or error, and on every exit PRF output, wrapping key and device key are all zero |
| `DeviceBuffers.UnwrapVaultKeyWithDeviceWrappingKey` | packages/crypto/src/device.ts:453-465 | the same for a local wrapping key |
| `Base32.EncodeSymbols` | packages/crypto/src/recovery.ts:39-55 | the loop over the unmasked 32-bit accumulator writes the bits of the bytes in groups of five, for inputs of any length |
| `Base32.DecodeSymbols` | packages/crypto/src/recovery.ts:57-85 | the loop returns the bytes whose bits the symbols spell with fewer than eight zero bits to spare, and fails exactly if there are none of the expected length |
| `Base32.EncodedDecodes` | packages/crypto/src/recovery.ts:39-85 | decoding inverts encoding |
| `Base32.SpellingsOf` | packages/crypto/src/recovery.ts:57-85 | the accepted texts of some bytes are their encoding and, if the padding leaves room, that with one more zero |
| `Base32.CanonicalLengths` | packages/crypto/src/recovery.ts:81-84 | each byte string has one text exactly if its length is 2 or 4 modulo 5 |
| `RecoveryKit.FormatRecoveryKey` | packages/crypto/src/recovery.ts:106-114 | all-zero and wrong-length keys are refused, otherwise key and checksum are spelled in joined groups |
| `RecoveryKit.GroupLayout` | packages/crypto/src/recovery.ts:106-114 | dashes stand at every sixth place and nowhere else, and none at the end |
| `RecoveryKit.ParseRecoveryKey` | packages/crypto/src/recovery.ts:121-133 | the verdict on the bytes a text spells: checksum mismatch, all-zero key, or the key; a text that spells none is malformed |
| `RecoveryKit.KitReadsBack` | packages/crypto/src/recovery.ts:106-133 | parse(format(k)) is k for every non-zero key |
| `RecoveryKit.SloppyCopyReadsBack` | packages/crypto/src/recovery.ts:22-133 | so it is after any number of added separators, Unicode white space included, and of characters replaced by ones that read alike (other case, O, I, L), and no text spells two keys |
| `RecoveryKit.AsciiLookalikes` | packages/crypto/src/recovery.ts:22-37 | among ASCII characters, reading alike is having the same symbol in upper case |
| `RecoveryKit.KitOpensItsEnvelopeOnly` | packages/crypto/src/recovery.ts:143-224 | a kit's envelope opens with that kit for its vault and generation only; a compromised rotation uses the next generation and another key |
| `Revision.FreshMeansFollows` | packages/crypto/src/revision.ts:62-145 | the nest of freshness tests accepts exactly the well-formed states that keep vault, revision, generation and digest of the pin |
| `Sessions.VerifySnapshot` | packages/crypto/src/snapshot.ts:101-148 | the two loops compute the specified verdict: one bad cross-check or entry rejects the snapshot |
| `Sessions.VerifiedIsUnmixed` | packages/crypto/src/snapshot.ts:101-148 | verification succeeds exactly if each entry decrypts under the one key in the one generation, and returns their plaintexts in order |
| `Sessions.OpenedIsVerified` | frontend/src/lib/vault-session.ts:287-358 | an opening succeeds only after the manifest, if any, was opened for this very header and matched the records, every cross-check gave the same key and every entry decrypted; the pin gets the digest of that blob |
| `Sessions.OpenedFollows` | frontend/src/lib/vault-session.ts:287-358 | the new pin is well formed, of the same vault and follows the old one |
| `Sessions.RotationLeavesOutTheTarget` | frontend/src/lib/vault-session.ts:1050-1198 | a hard revocation sends the next revision in the next generation with a master envelope, a recovery envelope exactly if there was one, and a device envelope exactly for a retained, entitled device other than the target |
| `Sessions.HardRevokeIsARotation` | frontend/src/lib/vault-session.ts:1116-1131 | what hardRevokeDevice sends is such a rotation for this browser's device id, with the device key only if local storage gave it up |
| `Sessions.UnguardedIsReachable` | frontend/src/lib/vault-session.ts:1117-1134 | there are inputs on which the code fails between minting the key and guarding it |
| `KitRotations.TrustedReplacementSwapsTheKit` | frontend/src/lib/vault-session.ts:914-956 | the next revision in the same generation; only recovery envelopes change, the new print opens each and the old one none |
| `KitRotations.StolenKitIsLockedOut` | frontend/src/lib/vault-session.ts:962-1033 | the next revision in the next generation, with a master and a recovery envelope; the new print opens it, a stolen one does not |
| `KitHandovers.ReplaceTrustedRecoveryKey` | frontend/src/lib/vault-session.ts:914-956 | from the typed old print to the new printed text: what is sent and returned; the vault key and its buffer stay, failures change nothing |
| `KitHandovers.RotateCompromisedRecovery` | frontend/src/lib/vault-session.ts:962-1033 | on success the old key buffer is zero and the new one handed over with the new printed text; on failure vault, key and pins are unchanged, and the minted buffer is wiped exactly if the failure was not between its minting and the `try` (or the key was zero) |
| `KitHandovers.SentIsAStolenKitRotation` | frontend/src/lib/vault-session.ts:971-984 | what it sends is a rotation for a stolen kit, for this browser's device id |
| `KitHandovers.KitUnguardedIsReachable` | frontend/src/lib/vault-session.ts:971-987 | there are inputs on which it fails between minting the key and guarding it |
| `Clients.Client.OpenSnapshot` | frontend/src/lib/vault-session.ts:287-358 | the result of the specified opening; the pin moves on success and only then |
| `Clients.Client.Unlock` | frontend/src/lib/vault-session.ts:563-605 | password and recovery unlock: freshness first, then the envelope, then the opening; failures leave every pin |
| `KitUnlocks.UnlockWithRecoveryKey` | frontend/src/lib/vault-session.ts:585-605 | the recovery unlock from the typed text on |
| `KitUnlocks.CopiedKitUnlocks` | frontend/src/lib/vault-session.ts:585-605 | any sloppy copy of the printed kit unlocks exactly what its key unlocks |
| `Clients.Client.CommitSnapshot` | frontend/src/lib/vault-session.ts:680-735 | what is sent; on a lost race, a refusal or an unverifiable reply the pins, the unlocked vault and its key buffer are unchanged |
| `Clients.Client.HardRevoke` | frontend/src/lib/vault-session.ts:1050-1198 | on success the old key buffer is zero and the new one handed over, both locked if this device was the target; on failure vault, key and pins are unchanged, and the minted buffer is wiped exactly if the failure was not between its minting and the `try` (or the key was zero) |
| `Clients.Lock` | frontend/src/lib/vault-session.ts:1200-1206 | the key buffer is zero and every entry wiped |
| `Clients.RunsOnlyAdvance` | frontend/src/lib/revision-pin.ts:22-60 | no run of openings lowers a pinned revision or generation, changes a digest at one revision, or drops one |
| `Clients.PinsAreVerified` | frontend/src/lib/vault-session.ts:287-358 | after any run a pin is the initial one or that of a snapshot whose opening succeeded |
| `Clients.RunsNeverFork` | frontend/src/lib/vault-session.ts:287-358 | of two openings of a vault in one run the later has no lower revision or generation; at one revision they agree in the generation, and in the digest if the earlier one had one |
| `HeadRecoveries.FindRecoverableRevision` | frontend/src/lib/vault-session.ts:415-455 | the first listed revision not above the head that opens with the password, or none if none does |
| `HeadRecoveries.RestoreRecoveredRevision` | frontend/src/lib/vault-session.ts:463-499 | what is sent and returned; pins move only with a verified reply |
| `HeadRecoveries.RestoreGoesForward` | frontend/src/lib/vault-session.ts:463-499 | a restore asks for the revision right above the broken head |
| `HeadRecoveries.RestoredIsWhatWasShown` | frontend/src/lib/historic-snapshot.ts:38-88 | if the server answers differently the second time, the selection check still makes the restored entries the ones that were shown |
| `HeadRecoveries.OldRevisionsMayBeSwapped` | frontend/src/lib/historic-snapshot.ts:38-88 | for a revision without a manifest it accepts exactly the answers with the same header and no manifest that open, and restores what these show |
| `CommitRoundTrips.CommittedReadsBack` | frontend/src/lib/vault-session.ts:680-735 | what a client commits opens again: same entries, envelopes, next revision, and a pin for exactly this manifest |
| `CommitReplies.ReplayIsTakenForSuccess` | frontend/src/lib/vault-session.ts:712-727 | a reply that replays the snapshot already open is accepted as the success of any commit |
| `CommitReplies.RivalIsTakenForSuccess` | frontend/src/lib/vault-session.ts:712-727 | so is the snapshot of a rival commit from the same view under the same key, though it claims the sent vault, revision and generation: the rival's entries are shown |
| `CommitReplies.SuccessIsOursIfItReturnsOurSeal` | frontend/src/lib/vault-session.ts:712-727 | an accepted reply leaves the pin on the digest of the sent manifest if and only if it carries that very sealed manifest |
| `CommitReplies.OwnSealShowsWhatWasSent` | frontend/src/lib/vault-session.ts:712-727 | and then it shows exactly the sent entries and envelopes, at the next revision |
| `CommitReplies.SuccessIsOursIfItAnswers` | frontend/src/lib/vault-session.ts:712-727 | claiming the sent vault, revision and generation is necessary for that, and enough only if nobody sealed another manifest for them |
| `CommitReplies.AnsweredSuccessShowsWhatWasSent` | frontend/src/lib/vault-session.ts:712-727 | a success that pins the digest of the sent manifest shows exactly what was sent |
| `IdealModel.IdealLibraryExists` | packages/crypto/src/aead/aes-gcm.ts:75-124 | for every payload whose boxes differ there is a cipher that seals it alike and opens each box exactly as the ideal hypotheses say |
| `IdealModel.IdealRotationExists` | packages/crypto/src/aead/aes-gcm.ts:75-124 | the same for a whole rotation, its envelopes included, with the old envelopes opening as before |
| `IdealModel.IdealBindingExists` | packages/crypto/src/aead/aes-gcm.ts:75-124 | the same for the two boxes of a device binding |
| `IdealModel.IdealKitExists` | packages/crypto/src/aead/aes-gcm.ts:75-124 | the same for the envelope of a kit |
| `IdealModel.IdealReplacementExists` | packages/crypto/src/aead/aes-gcm.ts:75-124 | the same for a whole trusted replacement, what is sent included |
| `IdealModel.IdealStolenKitExists` | packages/crypto/src/aead/aes-gcm.ts:75-124 | the same for a whole rotation for a stolen kit |
| `CommitRoundTrips.RaceIsDetected` | backend/app/services/snapshots.py:226-233 | the server reports a lost race to a client exactly if its vault is not at the current revision, and otherwise refuses only a lower generation or a revoked device |
| `CommitRoundTrips.RotatedVaultReopens` | frontend/src/lib/vault-session.ts:1128-1178 | after a hard revocation the master password and the recovery key open the new snapshot with the new vault key and show the old entries |
| `CommitRoundTrips.RetainedDeviceReopens` | frontend/src/lib/vault-session.ts:1156-1168 | so does the device that was kept, with its old device key |
| `Server.EveryRunKeepsTheChain` | backend/app/services/snapshots.py:195-290 | in every interleaving, with the row lock or on the unique constraint alone: revisions 1..N once each, the pointer on N, generations never falling, a master envelope in every row, a manifest in every row above 1, well-shaped envelopes; a refusal changes none of it (`RefusalsChangeNothing`) |
| `Server.HistoryIsLinear` | backend/app/services/snapshots.py:221-290 | no lost update: the head is the replay of the accepted edits, one per revision, each the edit of exactly one stored transaction |
| `Server.StoredRowsNeverChange` | backend/app/services/snapshots.py:258-283 | no run changes or removes a stored row |
| `Server.UniqueConstraintNeverFires` | backend/app/services/snapshots.py:195-271 | under the row lock the unique constraint is never the one to refuse |
| `Server.RevokedDevicesStayOut` | backend/app/services/snapshots.py:242-256 | while a device stays revoked, no transaction begun since stores an envelope for it |
| `Server.ListingCountsDown` | backend/app/services/snapshots.py:166-192 | a listing of all rows, newest first, is N, N-1, ..., 1 |
| `Server.SnapshotTable.CommitSnapshot` | backend/app/services/snapshots.py:221-290 | alone: the first failing check decides and stores nothing, otherwise exactly this row is added and becomes the head |
| `Rotation.OnlySafeTermsFollow` | frontend/src/lib/vault-session.ts:1035-1049 | whatever an attacker computes from safe terms is safe |
| `Rotation.RotationCutsOff` | frontend/src/lib/vault-session.ts:962-1198 | after a hard revocation or a compromised-kit rotation, all old vault keys, all device keys but the retained one, a stolen kit and every snapshot ever stored, also by later commits, yield neither the vault key in use nor anything minted since |
| `Rotation.RotationKeepsReaders` | frontend/src/lib/vault-session.ts:962-1198 | password, kit (if not the stolen one) and retained device key open the new key and every entry, and the entries are the old ones |
| `Rotation.EntitledMeansSpared` | frontend/src/lib/vault-session.ts:962-1198 | those entitled by a rotation are exactly those whose way in it leaves standing |
| `Rotation.SparedReadersReadOn` | frontend/src/lib/vault-session.ts:858-1198 | over any run, rotations included, a secret whose way in every commit left standing opens the vault key in use and every entry of the head |
| `Rotation.SoftRevocationKeepsOldReaders` | frontend/src/lib/vault-session.ts:858-872 | after a soft revocation the old vault key still opens all later entries |
| `CsvRecords.Records` | frontend/src/lib/csv-records.ts:11-51 | the loop with its one-character look-ahead computes the specified reading |
| `CsvRecords.PresentationIsRead` | frontend/src/lib/csv-records.ts:11-51 | any mixture of bare and quoted cells, LF, CR and CRLF, blank lines and a missing last line ending reads as its records |
| `CsvRecords.AcceptsExactlyTheGrammar` | frontend/src/lib/csv-records.ts:11-51 | a text reads as some records if and only if it is a presentation of them |
| `CsvRecords.ReadingInvertsWriting` | frontend/src/lib/csv-records.ts:11-51 | quoted printing of any non-empty records with any line endings reads back |
| `CsvRecords.RereadingIsStable` | frontend/src/lib/csv-records.ts:11-51 | printing what was read and reading it again changes nothing |
| `DerReader.ReadLen` | src-tauri/src/firefox_logins.rs:25-42 | the length loop computes the specified big-endian length |
| `DerReader.ParseDer` | src-tauri/src/firefox_logins.rs:44-81 | the recursive reader with its loop over children computes the specified parse, and terminates |
| `DerReader.AcceptsExactlyTheEncodings` | src-tauri/src/firefox_logins.rs:44-81 | accepted with rest r is exactly a definite-length encoding, minimal or not, followed by r, and the result is its tree: header and body consumed, children filling their parent |
| `DerReader.IntegerIsExact` | src-tauri/src/firefox_logins.rs:71-77 | an INTEGER reads as its unsigned value exactly below 2^63, which covers seven octets |
| `DerReader.IntegerIsStandard` | src-tauri/src/firefox_logins.rs:71-77 | it reads as its two's complement value exactly if it has at most seven octets and is not negative, or has eight or more and fits into 64 bits |
| `DerReader.NegativeIntegers` | src-tauri/src/firefox_logins.rs:71-77 | the octet 80 reads as 128 instead of -128, while eight octets FF read as -1 |
| `DerReader.OctetEncoding` | src-tauri/src/firefox_logins.rs:104-115 | the pushes produce the specified bytes |
| `DerReader.OctetsReadBack` | src-tauri/src/firefox_logins.rs:104-115 | the encoding reads back exactly up to 255 octets; beyond, as the first of them modulo 256, with the others left over |
| `PngPixels.PaethIsNearest` | scripts/sync-approved-icons.py:65-67 | the predictor is the nearest neighbour, ties to the left one, then to the one above (section 6 of RFC 2083) |
| `PngPixels.UnfilterRow` | scripts/sync-approved-icons.py:53-70 | the in-place loop restores a row from its filtered bytes and the row above |
| `PngPixels.UnfilterInvertsFilter` | scripts/sync-approved-icons.py:53-70 | undoing a filter gives the row back, for each filter, width and channel count |
| `PngPixels.FilterInvertsUnfilter` | scripts/sync-approved-icons.py:53-70 | and filtering a restored row gives the line back |
| `PngPixels.FilteringIsUndone` | scripts/sync-approved-icons.py:48-76 | scan lines decode to rows if and only if they are those rows under some choice of the five filters per row |
| `PngPixels.RgbIsOpaqueRgba` | scripts/sync-approved-icons.py:71-76 | RGB rows give the pixels of their RGBA form with alpha 255 |
| `PngPixels.AlphaAt` | scripts/sync-approved-icons.py:73-76 | pixel k is the three bytes of pixel k, then 255 |
| `PngPixels.RgbaPixels` | scripts/sync-approved-icons.py:36-78 | chunk walk, size check, row loop and pixel loop compute the specified picture or fail |
| `PngPixels.ImageReadsBack` | scripts/sync-approved-icons.py:36-78 | whatever the size, colour type, filters and chunk layout, the pixels that were written are read |
| `SessionStore.GoneStaysGone` | backend/app/core/sessions.py:57-118 | a session that was logged out, expired or revoked stays gone until put again |
| `SessionStore.MemorySessionStore.PutSession` | backend/app/core/sessions.py:72-78 | the session map changes at one key, and the index keeps naming the stored sessions |
| `SessionStore.MemorySessionStore.GetSession` | backend/app/core/sessions.py:80-88 | an unexpired session or nothing; an expired one is removed from map and index |
| `SessionStore.MemorySessionStore.DeleteSession` | backend/app/core/sessions.py:90-99 | the session leaves map and index, with its bucket if that empties |
| `SessionStore.MemorySessionStore.Revoke` | backend/app/core/sessions.py:101-118 | in whatever order the bucket is walked: exactly the sessions of that user and device except the kept one go (`RevocationIsExact`), their number is returned, and the index agrees |
| `SessionStore.MemorySessionStore.HitRateLimit` | backend/app/core/sessions.py:120-125 | true exactly if more than limit calls of the bucket survive every later pruning; on a clock that does not go back with one window length, exactly if the whole history has more than limit calls in the last window |
| `SessionStore.OneMoreHit` | backend/app/core/sessions.py:120-125 | pruning the list and appending the call leaves exactly the calls that no later call pruned |
| `SessionStore.CountsTheWindow` | backend/app/core/sessions.py:120-125 | the pruned list never counts more than the last window of the whole history, and as much exactly if no call of that window was pruned before |
| `SessionStore.SteadyIsExact` | backend/app/core/sessions.py:120-125 | with a clock that does not go back and one window length it counts as much |
| `SessionStore.ClockBackForgets` | backend/app/core/sessions.py:120-125 | with a clock that was set back it may count less |
| `SessionStore.ShorterWindowForgets` | backend/app/core/sessions.py:120-125 | so it may after a call with a shorter window |
| `Executor.AcceptedMeansUsable` | protected_executor/contracts.py:133-222 | a grant passes exactly if it is well formed, matches every binding field, is active and within a lifetime of at most a day |
| `Executor.ProjectReply` | protected_executor/core.py:126-148 | accepted are exactly the replies with the two fields once each, in range |
| `Executor.EveryScriptIsDisciplined` | protected_executor/core.py:83-104 | whatever the gate does with callbacks one after another, in any order and number: at most one use of the transport, for the entry grant and while usable; a result only from its validated reply |
| `ExecutorOverlaps.UsesAreAdmitted` | protected_executor/core.py:83-100 | in every interleaving of the steps of overlapping callbacks, each that got past the test uses the transport at most once, for the entry grant and after a check found it usable |
| `ExecutorOverlaps.DeliveredIsAReply` | protected_executor/core.py:93-100 | what is delivered is the validated reply to a use by a callback past the test, the last one to finish |
| `ExecutorOverlaps.OnlyOverlapsAdmitTwo` | protected_executor/core.py:85-87 | more than one callback gets past the test if and only if one reads the flag while another is between reading and setting it |
| `ExecutorOverlaps.WithoutOverlapOnce` | protected_executor/core.py:85-87 | without such an overlap the transport is used at most once |
| `ExecutorOverlaps.OverlapUsesTwice` | protected_executor/core.py:85-94 | with one it can be used twice, for every grant that is good on entry |
| `ExecutorOverlaps.CheckIsNotUse` | protected_executor/core.py:89-94 | between check and use the grant may be exchanged and its time run out |
| `Executor.HonestGateDelivers` | protected_executor/core.py:83-124 | an undisturbed gate that calls back once delivers the projected reply |
| `Executor.Execution.Send` | protected_executor/core.py:83-104 | the callback moves the execution state as specified |
| `Executor.Execute` | protected_executor/core.py:69-124 | delivered_unverified only after exactly one validated reply, nothing sent for a grant refused on entry, and a raising gate always yields a rejection |
| `EventLog.ReadLastHash` | backend/app/authority_emit.py:69-82 | the loop finds the hash of the last object line; blank lines and JSONDecodeErrors are skipped, any other exception ends it |
| `EventLog.Log.EmitFromDecide` | backend/app/authority_emit.py:85-140 | the specified event or none, and the file grows by exactly what the disk took of its line |
| `EventLog.EmitsUnlessSilenced` | backend/app/authority_emit.py:69-140 | a known decision gets its event exactly if the file is UTF-8, no line of it raises and its last hash can be printed |
| `EventLog.RaisingLineStays` | backend/app/authority_emit.py:73-81 | one complete line that raises makes the file unreadable, whatever is appended |
| `EventLog.BadByteSilences` | backend/app/authority_emit.py:73-74 | so does one byte that is not UTF-8 |
| `EventLog.SilenceLasts` | backend/app/authority_emit.py:101-140 | from an unreadable file on, no decision changes the file again |
| `EventLog.ReturnedIsLogged` | backend/app/authority_emit.py:136-138 | a returned event is the next one in the log if and only if nothing but white space stood on the last line; otherwise it and that line are lost |
| `EventLog.NewlineMeansBlank` | backend/app/authority_emit.py:136-137 | nothing stands there exactly if the file is empty or ends in a line break |
| `EventLog.EveryRunIsAChain` | backend/app/authority_emit.py:85-140 | every single-writer run, with lines torn anywhere and anything scribbled in between short of an object, keeps the events in the file one hash chain from a first without predecessor |
| `EventLog.RunsFromNothing` | backend/app/authority_emit.py:70-71 | in particular every run that starts without a file |
| `EventLog.LawfulJsonExists` | backend/app/authority_emit.py:58-62 | the assumptions about JSON can be met |
| `EventLog.LastHashFixesHistory` | backend/app/authority_emit.py:58-82 | two chains with one last hash are the same events |

## Left out

- Internals of AES-GCM, Argon2id, HKDF, SHA-256, HMAC and zlib: parameters, see above.
- WebAuthn ceremonies, challenge calls, IndexedDB, Redis, the offline cache: input and output; `unlockWithDevice` is
  covered by the device path and by `Clients.Client.OpenSnapshot`, not as one function.
- createVault, enableDeviceUnlockForVault and the soft revokeDevice of vault-session.ts appear as commits in `Rotation`,
  not as functions of their own.
- JSON and base64 of the wire formats, Unicode NFC, toUpperCase outside ASCII, localeCompare: parameters of the functions
  that use them, or decoded values to start from. Wrong JavaScript types are not modelled.
- Wiping of temporary buffers outside the device path: only the hand-over of vault keys is followed there.
- Proxies and getters that answer differently on each read: the model's records are values.
- Sessions.VerifySnapshot: all underlying failures are one integrity error, as in the source; their causes are not kept.
- HeadRecoveries.RestoredIsWhatWasShown: the blob must not open under two of the vault keys at hand, which AES-GCM alone does not promise.
- Rotation.RotationCutsOff: plaintexts of earlier entries must not contain the secrets of the entitled (a password saved in its own vault is known to its old readers).
- Server.EveryRunKeepsTheChain: one vault; base64 errors and every other failure are covered by the step that aborts anywhere.
- Executor.Execute: callbacks one after another (`ExecutorOverlaps` has the overlapping ones and the steps in between); the capability's seal and Python's type tests.
- DerReader.ParseDer: the native stack, which deeply nested input can exhaust (src-tauri/src/firefox_logins.rs:56-64).
- EventLog.EveryRunIsAChain: one writer; two processes that append at once are not modelled.
- ico_bytes, the icon mappings, packaging and release scripts: file plumbing.
- Browser-password decryption beyond the DER reader, the access broker, autofill, import classification, TOTP display,
  the user interface: outside the core or single-branch.
