# Chatee OMEMO bookkeeping, stores and codecs in Dafny

This project models the parts of the Chatee XMPP client library that keep
state: the OMEMO device registry, the Signal key and session store, the
assembly of OMEMO bundles, the sending and receiving rules of the OMEMO
manager, the HTTP file-upload codecs, and the message and contact stores.
The wire format is the legacy `eu.siacs.conversations.axolotl` flavour of
XEP-0384 (OMEMO Encryption).

Each module follows one source file:

| module | file |
|---|---|
| `OmemoDeviceModel` | `Storage/Models/OmemoDeviceDBModel.swift` |
| `OmemoStorage` | `Storage/OmemoStorage.swift` |
| `SignalProtocol`, `SignalRecords` | the Signal library's values and the Realm rows of the Signal store |
| `SignalStorage` | `Storage/SignalStorage.swift` |
| `Signal` | `Managers/SignalManager.swift` |
| `OmemoExtension` | `Extensions/Omemo+Extension.swift` |
| `OmemoRules` | the pure rules inside `Managers/OmemoManager.swift` |
| `Omemo` | `Managers/OmemoManager.swift`, the class and its handlers |
| `FileTransfer` | the private extensions of `Managers/FileTransferManager.swift` |
| `MessageStorage` | `Storage/MessageStorage.swift` and `Storage/Models/MessageDBModel.swift` |
| `ContactStorage` | `Storage/ContactStorage.swift` and `Storage/Models/ContactDBModel.swift` |
| `Entities` | the public entities (`ChateeContact`, `ChateeMessageStatus`, `ChateeContactSubscription`) |
| `Wrappers`, `Text`, `Sequences`, `KeyedTable`, `Ordering` | `Option`/`Result`, lower-casing and substring replacement, `compactMap`, a Realm table kept in insertion order, sorting |

How things are modelled:

- **Realm tables** become maps keyed by their primary key. Each store is a
  `class` whose methods change those maps. The prekey and
  signed-prekey tables also keep their insertion order (`KeyedTable.Table`),
  because `first` and `last` depend on it. Dates are integers.
- **Foreign code** becomes values passed in as parameters:
  - `SignalKeyHelper`, `SignalCodec` (deserialisation) and `SessionCipher`
    (encrypt, decrypt and `processPreKeyBundle`) stand for SignalProtocolObjC;
  - `Platform` stands for AES-GCM, UTF-8, JSON and URL parsing.
- **Randomness** is a parameter: the key/iv draw of a send pass, the prekey index
  chosen from a fetched bundle, and the key helper an attempt obtains. A key
  helper that could not be created is `None`.
- **Callbacks** pending in `outstandingXMPPStanzaResponseBlocks` and
  `deviceIdFetchCallbacks` are integer ids. Calling one appends an `Invocation`
  to a log.
- **Outgoing XMPP stanzas** are returned as values, not sent.

Source and stated intent disagree in several places; the model follows the source:

- The retry ceiling of `encryptAndSendMessage` allows three send passes, not four.
- `storeDevices` with an empty list hard-deletes the jid's devices.
- No query filters on trust level. Removed devices are still returned and
  still get key entries.
- Sessions are keyed by device id alone (`OmemoStorage.swift` keys devices the same way).
- `processKeyData` tries only the first key entry addressed to this device. A failure
  of that entry ends the call.
- File messages are recognised and then dropped (`saveFileMessage` has its body commented out).
- `storeDeviceIds` only stores this account's own list.
- `currentMaxPreKeyId` returns the id of the last stored prekey, not the largest.
- `generateOutgoingBundle` generates prekeys starting at id 1, although its doc comment says "0 to 99".
- `deviceListUpdate` removes a pending `deviceIdFetchCallbacks` entry without calling it
  when the jid also has an initial-fetch registration.
- A forwarded copy of the account's own message sent to itself is saved as `receivedUnread`
  (`saveMessage` rewrites the status when sender and room coincide).
- `dataFromHex` is documented to ignore non-hex characters, but in the code a separator
  splits a digit pair (`"a b"` decodes to two bytes).

## Model

| member | source | states |
|---|---|---|
| OmemoDeviceModel.TrustRaw | Chatee/Sources/Private/Storage/Models/OmemoDeviceDBModel.swift:32-43 | the raw value of every trust level lies in 0..4 (untrustedNew 0 … removed 4) |
| OmemoDeviceModel.TrustFromRaw | Chatee/Sources/Private/Storage/Models/OmemoDeviceDBModel.swift:32-43 | a raw value decodes exactly when it is in 0..4, and to the level whose raw value it is |
| OmemoDeviceModel.TrustRawRoundTrip | Chatee/Sources/Private/Storage/Models/OmemoDeviceDBModel.swift:32-43 | decoding the raw value of a level gives back that level |
| OmemoDeviceModel.DeviceRecord.TrustLevelType | Chatee/Sources/Private/Storage/Models/OmemoDeviceDBModel.swift:17-20 | the getter returns the level of a stored value in 0..4 and `untrustedNew` for any other value |
| OmemoDeviceModel.DeviceRecord.WithTrustLevelType | Chatee/Sources/Private/Storage/Models/OmemoDeviceDBModel.swift:21-23 | the setter keeps the record's id and owner |
| OmemoDeviceModel.NewDeviceIsUntrustedNew | Chatee/Sources/Private/Storage/Models/OmemoDeviceDBModel.swift:13-20 | a fresh record reads as `untrustedNew` |
| OmemoDeviceModel.TrustSetGet | Chatee/Sources/Private/Storage/Models/OmemoDeviceDBModel.swift:17-24 | setting a level and reading it back gives the same level |
| OmemoDeviceModel.TofuDevice | Chatee/Sources/Private/Storage/OmemoStorage.swift:73-89 | the record `addDevice` creates has the given id and owner and reads as `trustedTofu` |
| OmemoStorage.OmemoStorageManager.GetDevicesForJid | Chatee/Sources/Private/Storage/OmemoStorage.swift:44-53 | returns each device id owned by the jid exactly once, whatever its trust level |
| OmemoStorage.OmemoStorageManager.GetDevicesForThisAccount | Chatee/Sources/Private/Storage/OmemoStorage.swift:95-99 | returns each device id owned by the account's bare jid exactly once |
| OmemoStorage.OmemoStorageManager.CheckIfDeviceIsStored | Chatee/Sources/Private/Storage/OmemoStorage.swift:55-62 | true exactly when some jid owns the id |
| OmemoStorage.OmemoStorageManager.CheckIfDevicesAreStored | Chatee/Sources/Private/Storage/OmemoStorage.swift:64-71 | true exactly when the jid owns at least one device, removed ones included |
| OmemoStorage.OmemoStorageManager.FetchUserForDeviceId | Chatee/Sources/Private/Storage/OmemoStorage.swift:188-197 | returns the one owner of a stored id, and nothing for an unknown id |
| OmemoStorage.OmemoStorageManager.AddDevice | Chatee/Sources/Private/Storage/OmemoStorage.swift:73-89 | an id already stored under any jid leaves the table unchanged; otherwise exactly one `trustedTofu` record for the jid is added |
| OmemoStorage.OmemoStorageManager.RemoveDevice | Chatee/Sources/Private/Storage/OmemoStorage.swift:175-186 | the record of the id is deleted and nothing else changes |
| OmemoStorage.OmemoStorageManager.StoreDevices | Chatee/Sources/Private/Storage/OmemoStorage.swift:106-160 | the loops over the two set differences leave exactly the table the reconciliation rule describes, and the table stays keyed by id |
| OmemoStorage.OmemoStorageManager.StoreThisUserDevices | Chatee/Sources/Private/Storage/OmemoStorage.swift:166-168 | reconciles the account's own bare jid |
| OmemoStorage.OmemoStorageManager.StoreContactDevices | Chatee/Sources/Private/Storage/OmemoStorage.swift:170-173 | reconciles the contact's jid |
| OmemoStorage.MarkRemovedStep | Chatee/Sources/Private/Storage/OmemoStorage.swift:131-140 | marking one more id as removed is one record update |
| OmemoStorage.InsertTofuStep | Chatee/Sources/Private/Storage/OmemoStorage.swift:142-157 | inserting one more new id is one `trustedTofu` upsert |
| OmemoStorage.StoreDevicesKeepsWellKeyed | Chatee/Sources/Private/Storage/OmemoStorage.swift:106-160 | every stored record's id stays equal to its key |
| OmemoStorage.StoreEmptyListDeletes | Chatee/Sources/Private/Storage/OmemoStorage.swift:121-125 | an empty list deletes every device of the jid and leaves all other records as they were |
| OmemoStorage.StoreBySetDifference | Chatee/Sources/Private/Storage/OmemoStorage.swift:126-158 | with a non-empty list, stored-but-absent ids become `removed`, new ids become `trustedTofu`, ids in both are untouched, other ids keep their record |
| OmemoStorage.StoreKeepsOldAndNewIds | Chatee/Sources/Private/Storage/OmemoStorage.swift:126-158 | after a non-empty store the jid owns its old ids together with the incoming ones |
| OmemoStorage.StoreIdempotent | Chatee/Sources/Private/Storage/OmemoStorage.swift:114-158 | storing the same non-empty list twice changes nothing the second time |
| OmemoStorage.RemovedStaysRemoved | Chatee/Sources/Private/Storage/OmemoStorage.swift:114-129 | a removed id of the jid that reappears in the list stays `removed` |
| OmemoStorage.OtherJidsUnchangedExceptReowned | Chatee/Sources/Private/Storage/OmemoStorage.swift:142-157 | another jid's record is unchanged unless its id is incoming, in which case it is re-owned as `trustedTofu` |
| OmemoStorage.QueriesIgnoreTrust | Chatee/Sources/Private/Storage/OmemoStorage.swift:44-71 | changing a record's trust level changes neither per-jid queries nor the owner lookup |
| OmemoStorage.OneOwnerPerDevice | Chatee/Sources/Private/Storage/OmemoStorage.swift:188-197 | the owner lookup and per-jid membership agree, and no id has two owners |
| SignalStorage.LookupSession | Chatee/Sources/Private/Storage/SignalStorage.swift:143-150 | a session is found exactly when its device id is stored; the name plays no part |
| SignalStorage.PutSession | Chatee/Sources/Private/Storage/SignalStorage.swift:152-169 | storing adds exactly the address's device id to the keys |
| SignalStorage.StoredSessionIsFound | Chatee/Sources/Private/Storage/SignalStorage.swift:143-169 | after storing, a lookup with the same device id returns the stored bytes and any other lookup is unchanged |
| SignalStorage.SessionsCollideOnDeviceId | Chatee/Sources/Private/Storage/SignalStorage.swift:143-192 | storing for (alice, d) and then (bob, d) leaves one record, visible under both names and owned by bob |
| SignalStorage.IdentityAfter | Chatee/Sources/Private/Storage/SignalStorage.swift:112-136 | an existing identity is kept; otherwise one is created from the key helper, or none when there is no helper |
| SignalStorage.RegistrationIdOf | Chatee/Sources/Private/Storage/SignalStorage.swift:335-349 | the registration id is 0 when there is no identity |
| SignalStorage.IdentityIsCreatedOnce | Chatee/Sources/Private/Storage/SignalStorage.swift:319-349 | once created, every later get-or-create returns the same identity and registration id |
| SignalStorage.NoHelperNoIdentity | Chatee/Sources/Private/Storage/SignalStorage.swift:335-349 | when no attempt has a key helper, there is never an identity and the registration id stays 0 |
| SignalStorage.SerializedPrefix | Chatee/Sources/Private/Storage/SignalStorage.swift:90-110 | the keys written are the longest prefix that can be serialised; the loop stops at the first that cannot |
| SignalStorage.PutPreKeys | Chatee/Sources/Private/Storage/SignalStorage.swift:90-110 | writing keys in order keeps the table well-formed |
| SignalStorage.PutPreKeysLoads | Chatee/Sources/Private/Storage/SignalStorage.swift:213-237 | after the writes each written id loads its data and every other id loads what it loaded before |
| SignalStorage.SignalStorageManager.SessionRecordFor | Chatee/Sources/Private/Storage/SignalStorage.swift:143-150 | the lookup by device id |
| SignalStorage.SignalStorageManager.StoreSessionRecord | Chatee/Sources/Private/Storage/SignalStorage.swift:152-169 | overwrites the record of the device id and nothing else |
| SignalStorage.SignalStorageManager.SessionRecordExists | Chatee/Sources/Private/Storage/SignalStorage.swift:171-173 | true exactly when the lookup finds a record |
| SignalStorage.SignalStorageManager.DeleteSessionRecord | Chatee/Sources/Private/Storage/SignalStorage.swift:175-192 | returns false and changes nothing for an absent id; afterwards no session exists for the id |
| SignalStorage.SignalStorageManager.LoadPreKey | Chatee/Sources/Private/Storage/SignalStorage.swift:213-219 | returns the stored data of the id, or nothing |
| SignalStorage.SignalStorageManager.StorePreKey | Chatee/Sources/Private/Storage/SignalStorage.swift:221-237 | upserts the id, so a second store overwrites |
| SignalStorage.SignalStorageManager.ContainsPreKey | Chatee/Sources/Private/Storage/SignalStorage.swift:239-241 | true exactly when the id is stored |
| SignalStorage.SignalStorageManager.DeletePreKey | Chatee/Sources/Private/Storage/SignalStorage.swift:243-259 | returns false and changes nothing for an absent id, otherwise deletes it |
| SignalStorage.SignalStorageManager.FetchAllPreKeys | Chatee/Sources/Private/Storage/SignalStorage.swift:69-75 | all stored prekeys in table order |
| SignalStorage.SignalStorageManager.CurrentMaxPreKeyId | Chatee/Sources/Private/Storage/SignalStorage.swift:77-88 | nothing exactly when no prekey is stored; otherwise a stored id, the maximum when ids were stored in increasing order |
| SignalStorage.SignalStorageManager.StoreSignalPreKeys | Chatee/Sources/Private/Storage/SignalStorage.swift:90-110 | the loop writes the serialisable prefix in order and reports true |
| SignalStorage.SignalStorageManager.LoadSignedPreKey | Chatee/Sources/Private/Storage/SignalStorage.swift:266-272 | ignores the requested id and returns the first stored signed prekey |
| SignalStorage.SignalStorageManager.StoreSignedPreKey | Chatee/Sources/Private/Storage/SignalStorage.swift:274-290 | upserts the signed prekey under its id |
| SignalStorage.SignalStorageManager.ContainsSignedPreKey | Chatee/Sources/Private/Storage/SignalStorage.swift:292-294 | true exactly when any signed prekey is stored, whatever id is asked for |
| SignalStorage.SignalStorageManager.RemoveSignedPreKey | Chatee/Sources/Private/Storage/SignalStorage.swift:296-312 | returns whether the id was stored and deletes it |
| SignalStorage.SignalStorageManager.GenerateNewIdentity | Chatee/Sources/Private/Storage/SignalStorage.swift:112-136 | keeps an existing identity, stores a new one from the helper otherwise, and returns nothing without a helper |
| SignalStorage.SignalStorageManager.GetIdentityKeyPair | Chatee/Sources/Private/Storage/SignalStorage.swift:319-333 | get-or-create: returns the key pair of the identity that exists afterwards |
| SignalStorage.SignalStorageManager.GetLocalRegistrationId | Chatee/Sources/Private/Storage/SignalStorage.swift:335-349 | get-or-create: returns that identity's registration id, or 0; with an identity stored the store is left untouched |
| SignalStorage.SignalStorageManager.SaveIdentity | Chatee/Sources/Private/Storage/SignalStorage.swift:352-354 | the stub always reports success |
| SignalStorage.SignalStorageManager.IsTrustedIdentity | Chatee/Sources/Private/Storage/SignalStorage.swift:356-358 | the stub trusts every identity |
| SignalStorage.SignalStorageManager.FetchThisUserExistingBundle | Chatee/Sources/Private/Storage/SignalStorage.swift:50-62 | fails with not-found when no signed prekey or identity is stored; otherwise the result is the records conversion of the identity, the first signed prekey row and all prekey rows, so it succeeds exactly when those are accepted (`RecordsAccepted`), and its signed prekey is that row converted; a bundle carries the identity's registration id and public key and the usable stored prekeys |
| Signal.Address | Chatee/Sources/Private/Managers/SignalManager.swift:141-146 | an address keeps the device id and has no ASCII upper-case letter in its name |
| Signal.AddressIgnoresCase | Chatee/Sources/Private/Managers/SignalManager.swift:126-172 | names that differ only in ASCII letter case give the same address |
| Signal.EncryptToAddress | Chatee/Sources/Private/Managers/SignalManager.swift:141-146 | encrypts under the address whose name is ASCII-lower-cased |
| Signal.DecryptFromAddress | Chatee/Sources/Private/Managers/SignalManager.swift:148-154 | decrypts under the address whose name is ASCII-lower-cased |
| Signal.CipherIgnoresCase | Chatee/Sources/Private/Managers/SignalManager.swift:141-154 | encrypting or decrypting for a name upper-cased in ASCII gives the same result |
| Signal.ConsumeIncomingBundle | Chatee/Sources/Private/Managers/SignalManager.swift:126-133 | fails when the bundle cannot be converted; succeeds exactly when the session builder accepts the chosen prekey bundle at the ASCII-lower-cased address |
| Signal.GeneratedSignedPreKey | Chatee/Sources/Private/Managers/SignalManager.swift:80-89 | nothing without a key helper; with one, a key is returned exactly when the helper generates one that is serialisable, and it is the helper's |
| Signal.ChosenSignedPreKey | Chatee/Sources/Private/Managers/SignalManager.swift:106-115 | a stored signed prekey is decoded and reused; a stored key that decodes is chosen exactly when it serialises, and otherwise the error is `keyGeneration`; only when none is stored is one generated, failing with `keyGeneration` |
| Signal.RequestedPreKeys | Chatee/Sources/Private/Managers/SignalManager.swift:70-78 | nothing without a key helper, otherwise what the helper generates |
| Signal.OutgoingBundle | Chatee/Sources/Private/Managers/SignalManager.swift:109-121 | fails when the signed prekey or the prekeys are missing; with both present it is the Signal-keys conversion of them, so it succeeds exactly when both are present and `SignalKeysAccepted` holds; a bundle has the given device id, the identity's public key, the converted signed prekey and the converted prekeys |
| Signal.StoredSignedPreKeyIsReused | Chatee/Sources/Private/Managers/SignalManager.swift:106-107 | with a stored signed prekey the bundle does not depend on the key helper and carries the stored key |
| Signal.NoKeysNoBundle | Chatee/Sources/Private/Managers/SignalManager.swift:109-115 | without a key helper and a stored signed prekey the result is `keyGeneration` |
| Signal.SignalManager.constructor | Chatee/Sources/Private/Managers/SignalManager.swift:38-48 | starts with an empty store |
| Signal.SignalManager.GeneratePreKeys | Chatee/Sources/Private/Managers/SignalManager.swift:70-78 | returns the generated keys, and nothing only when generation fails; the serialisable prefix is written to the store |
| Signal.SignalManager.GenerateRandomSignedPreKey | Chatee/Sources/Private/Managers/SignalManager.swift:80-89 | creates the identity if needed, generates a signed prekey for it and stores it; nothing without a key helper |
| Signal.SignalManager.GenerateOutgoingBundle | Chatee/Sources/Private/Managers/SignalManager.swift:98-122 | the bundle uses the local registration id, reuses or generates the signed prekey, requests prekeys from id 1, stores the keys and leaves sessions alone |
| Signal.SignalManager.SessionRecordExistsForUsername | Chatee/Sources/Private/Managers/SignalManager.swift:162-166 | true exactly when a session for the device id is stored |
| Signal.SignalManager.RemoveSessionRecordForUsername | Chatee/Sources/Private/Managers/SignalManager.swift:168-172 | deletes the session of the device id and reports whether there was one |
| OmemoExtension.OmemoPreKeyOf | Chatee/Sources/Private/Extensions/Omemo+Extension.swift:13-21 | a key converts exactly when it has a key pair, keeping its id and public key |
| OmemoExtension.PreKeysFromSignal | Chatee/Sources/Private/Extensions/Omemo+Extension.swift:13-21 | the append loop builds the converted list |
| OmemoExtension.PreKeysFromSignalKeepsKeys | Chatee/Sources/Private/Extensions/Omemo+Extension.swift:13-21 | the output is never longer than the input, every output comes from an input, every input with a key pair is in the output, and nothing is dropped exactly when all have key pairs |
| OmemoExtension.PreKeysFromSignalKeepsOrder | Chatee/Sources/Private/Extensions/Omemo+Extension.swift:13-21 | converting a concatenation concatenates the conversions, so input order is kept |
| OmemoExtension.SignedPreKeyFromSignal | Chatee/Sources/Private/Extensions/Omemo+Extension.swift:34-40 | fails with `invalid` exactly when there is no key pair, otherwise keeps id, public key and signature |
| OmemoExtension.SignedPreKeyFromRecord | Chatee/Sources/Private/Extensions/Omemo+Extension.swift:25-33 | succeeds exactly when the stored data decodes and has a key pair; otherwise it fails, with a Signal failure when it does not decode; a success has the DB id as OMEMO id |
| OmemoExtension.CopyBundle | Chatee/Sources/Private/Extensions/Omemo+Extension.swift:46-50 | keeps device id, identity key and signed prekey, and replaces the prekeys exactly |
| OmemoExtension.CopyBundleRestores | Chatee/Sources/Private/Extensions/Omemo+Extension.swift:46-50 | copying back the original prekeys restores the bundle |
| OmemoExtension.SignalBundle | Chatee/Sources/Private/Extensions/Omemo+Extension.swift:53-59 | needs an index into the bundle's own prekeys; the result has registration id 0 and the bundle's device id, identity key, signed prekey and one of its prekeys |
| OmemoExtension.BundleFromSignal | Chatee/Sources/Private/Extensions/Omemo+Extension.swift:61-74 | succeeds exactly when the signed prekey and the first prekey have key pairs and the codec accepts the Signal bundle built from them (`SignalKeysAccepted`); fails with `invalid` when a key pair or the prekeys are missing and with a Signal failure when the bundle is refused; a success has the identity's public key |
| OmemoExtension.FirstOmemoPreKey | Chatee/Sources/Private/Extensions/Omemo+Extension.swift:61-74 | a first key with a key pair is the first converted key |
| OmemoExtension.StoredPreKey | Chatee/Sources/Private/Extensions/Omemo+Extension.swift:79-93 | a stored row converts exactly when its data is non-empty and decodes to a key with a key pair |
| OmemoExtension.CollectStoredPreKeys | Chatee/Sources/Private/Extensions/Omemo+Extension.swift:79-93 | the append loop builds the converted rows |
| OmemoExtension.StoredPreKeysAreUsable | Chatee/Sources/Private/Extensions/Omemo+Extension.swift:79-93 | every converted key comes from a usable row, and removing an unusable row changes nothing |
| OmemoExtension.BundleFromRecords | Chatee/Sources/Private/Extensions/Omemo+Extension.swift:76-107 | succeeds exactly when the signed prekey row converts, the first prekey row is usable and the codec accepts the bundle built from them (`RecordsAccepted`); fails with `invalid` when the first stored row is unusable, even if later ones are usable, and with a Signal failure when the bundle is refused; the device id is the identity's registration id |
| OmemoRules.SplitKeyMaterialAsWritten | Chatee/Sources/Private/Managers/OmemoManager.swift:357-374 | the split as written traps exactly for a legacy key with a payload shorter than one block |
| OmemoRules.ShortLegacyPayloadTraps | Chatee/Sources/Private/Managers/OmemoManager.swift:371-374 | a 16-byte key with a 1-byte payload passes the guard and traps |
| OmemoRules.SplitKeyMaterial | Chatee/Sources/Private/Managers/OmemoManager.swift:357-374 | a key of at least 32 bytes gives key = bytes 0..16 and tag = the rest with the whole payload as body; otherwise the tag is the last 16 payload bytes, and there is no split when the payload is too short |
| OmemoRules.SplitAgreesWhereNoTrap | Chatee/Sources/Private/Managers/OmemoManager.swift:357-374 | the corrected split agrees with the code wherever the code does not trap |
| OmemoRules.SplitRecoversSentKeyAndTag | Chatee/Sources/Private/Managers/OmemoManager.swift:359-362 | a sent 16-byte key followed by a 16-byte tag is split back into that key and tag |
| OmemoRules.SplitRecoversLegacyTag | Chatee/Sources/Private/Managers/OmemoManager.swift:371-374 | a legacy payload of ciphertext followed by its tag is split back into both |
| OmemoRules.RoomIdAndStatus | Chatee/Sources/Private/Managers/OmemoManager.swift:389-390 | the room is the to-jid unless that is the account, then the from-jid; the status is `sent` exactly when the room is the account |
| OmemoRules.RoomRuleCases | Chatee/Sources/Private/Managers/OmemoManager.swift:389-390 | an incoming message and an own carbon both go to the contact's room as `receivedUnread`; a note to self is `sent` |
| OmemoRules.SentOnlyToSelf | Chatee/Sources/Private/Managers/OmemoManager.swift:389-390 | the status is `sent` exactly when both jids are the account |
| OmemoRules.FirstEntryFor | Chatee/Sources/Private/Managers/OmemoManager.swift:326-351 | finds the first key entry addressed to the device, and none exactly when no entry is |
| OmemoRules.LaterEntriesIgnored | Chatee/Sources/Private/Managers/OmemoManager.swift:326-351 | entries after the first addressed one never change the choice |
| OmemoRules.InboundKey | Chatee/Sources/Private/Managers/OmemoManager.swift:326-351 | no entry when none is addressed to the device; otherwise the outcome of decrypting the first such entry under the ASCII-lower-cased address |
| OmemoRules.KeyDataForDevice | Chatee/Sources/Private/Managers/OmemoManager.swift:508-518 | an entry exists exactly when the device has an owner and encryption for it succeeds, and it records the ciphertext and whether it is a prekey message |
| OmemoRules.KeyDataForKeepsReachable | Chatee/Sources/Private/Managers/OmemoManager.swift:232-258 | the assembled list holds exactly the entries of the reachable listed devices |
| OmemoRules.SendPass | Chatee/Sources/Private/Managers/OmemoManager.swift:200-293 | a pass without text, key or iv is abandoned; a sent pass carries the AES ciphertext, the iv, and own entries followed by a non-empty list of contact entries encrypted for the key followed by the tag |
| OmemoRules.RetryExactlyWithoutContacts | Chatee/Sources/Private/Managers/OmemoManager.swift:232-244 | an encrypted pass retries exactly when no contact entry was built, whatever own entries exist |
| OmemoRules.SentEntriesAreForOtherDevices | Chatee/Sources/Private/Managers/OmemoManager.swift:253-258 | every sent entry is for a contact device or an own device other than this one |
| OmemoRules.PassesLeft | Chatee/Sources/Private/Managers/OmemoManager.swift:176-181 | no pass is left at the ceiling, and three are left for a first call |
| OmemoRules.TopUpStart | Chatee/Sources/Private/Managers/OmemoManager.swift:750-754 | a top-up starts at 0 without stored prekeys and above the current id otherwise |
| OmemoRules.KeysToGenerate | Chatee/Sources/Private/Managers/OmemoManager.swift:746 | keys are generated exactly when fewer than 100 exist, and then fill the pool to 100 |
| OmemoRules.ToppedUp | Chatee/Sources/Private/Managers/OmemoManager.swift:756-763 | the result keeps the bundle's fields and its prekeys first, followed by the converted new ones |
| OmemoRules.TopUpStartsAboveStoredIds | Chatee/Sources/Private/Managers/OmemoManager.swift:750-754 | when ids were stored in increasing order the new ids lie above every stored one |
| OmemoRules.CallAndRemove | Chatee/Sources/Private/Managers/OmemoManager.swift:525-531 | the key is removed and its callback returned exactly when it was pending |
| OmemoRules.CallAndRemoveIsOneShot | Chatee/Sources/Private/Managers/OmemoManager.swift:525-531 | a second call for the same key finds nothing |
| OmemoRules.DevicesNeedingBundle | Chatee/Sources/Private/Managers/OmemoManager.swift:106-110 | bundles are fetched for exactly the jid's devices other than this one that have no session |
| OmemoRules.BareJid | Chatee/Sources/Private/Managers/OmemoManager.swift:386-387 | the bare jid is the prefix before any resource and contains no `/` |
| OmemoRules.BareJidIdempotent | Chatee/Sources/Private/Managers/OmemoManager.swift:386-387 | taking the bare jid twice changes nothing |
| OmemoRules.AddedDevicesSpec | Chatee/Sources/Private/Managers/OmemoManager.swift:74-78 | exactly the fetched ids other than this one that are not yet stored are added as `trustedTofu`; stored records stay as they were |
| OmemoRules.DecryptBody | Chatee/Sources/Private/Managers/OmemoManager.swift:357-384 | no split, an AES failure, or text that decodes from the AES plaintext and is non-empty; conversely, when the split, the decryption and the UTF-8 decoding all succeed with a non-empty text, the result is that text |
| Omemo.OmemoManager.constructor | Chatee/Sources/Private/Managers/OmemoManager.swift:40-59 | fresh stores and no pending callbacks |
| Omemo.OmemoManager.CallAndRemoveOutstandingBundleBlock | Chatee/Sources/Private/Managers/OmemoManager.swift:525-531 | removes the pending bundle callback and invokes it once with the result |
| Omemo.OmemoManager.CallAndRemoveOutstandingDeviceIdFetch | Chatee/Sources/Private/Managers/OmemoManager.swift:534-540 | removes the pending device-id callback and invokes it once with the result |
| Omemo.OmemoManager.AwaitBundle | Chatee/Sources/Private/Managers/OmemoManager.swift:113-126 | registers a bundle callback under the element id |
| Omemo.OmemoManager.AwaitDeviceIds | Chatee/Sources/Private/Managers/OmemoManager.swift:141-158 | registers a device-id callback under the jid |
| Omemo.OmemoManager.FetchDevices | Chatee/Sources/Private/Managers/OmemoManager.swift:69-83 | registers the initial device-id fetch of the jid |
| Omemo.OmemoManager.CheckIfDevicesExistsFor | Chatee/Sources/Private/Managers/OmemoManager.swift:85-87 | true exactly when the bare jid owns a device |
| Omemo.OmemoManager.AddFetchedDevices | Chatee/Sources/Private/Managers/OmemoManager.swift:74-78 | the loop adds each fetched id other than this one, as `addDevice` does |
| Omemo.OmemoManager.DeviceListUpdate | Chatee/Sources/Private/Managers/OmemoManager.swift:555-566 | with a pending fetch the ids are added under the bare jid, reading the registration id (and so creating the identity) only when there is an id to compare; the device-id callback is removed, and invoked with success only when there was no initial-fetch registration; the bundle callback of the element id is invoked with success and removed |
| Omemo.OmemoManager.FailedToFetchDeviceIds | Chatee/Sources/Private/Managers/OmemoManager.swift:568-580 | the pending device-id callback and the bundle callback of the element id are each invoked once with failure and removed |
| Omemo.OmemoManager.StoreDeviceIds | Chatee/Sources/Private/Managers/OmemoManager.swift:689-701 | the account's own list is reconciled; a contact's list is not; the callback is invoked with success |
| Omemo.OmemoManager.FetchDeviceIds | Chatee/Sources/Private/Managers/OmemoManager.swift:703-708 | returns the devices of the bare jid, each once |
| Omemo.OmemoManager.EncryptPayloadWithSignalForDevice | Chatee/Sources/Private/Managers/OmemoManager.swift:508-518 | builds the key entry for one device as the stored-owner rule requires |
| Omemo.OmemoManager.EncryptAndSendMessage | Chatee/Sources/Private/Managers/OmemoManager.swift:175-304 | at most the passes left run, and none at the ceiling; completes true exactly when a stanza is sent; a sent stanza goes to the message's jid and is exactly the send outcome of its last pass over the recipient's and the account's stored devices; the message row is the one the first pass saved, or the row already stored, marked `sent` when the stanza went out |
| Omemo.OmemoManager.SendOnePass | Chatee/Sources/Private/Managers/OmemoManager.swift:175-258 | saves the outgoing row unless the id is stored, creates the identity if needed, and gives the send outcome over the recipient's and the account's stored devices |
| Omemo.OmemoManager.FinishSend | Chatee/Sources/Private/Managers/OmemoManager.swift:261-270 | a sending pass emits exactly the stanza of its outcome, to the message's jid under the message id, and marks the stored row `sent`, leaving the rest of that row and the other rows as they were; with no stored row the table is unchanged |
| Omemo.SentPassReachesEveryDevice | Chatee/Sources/Private/Managers/OmemoManager.swift:240-276 | a sent stanza carries the GCM ciphertext under the drawn key and iv and exactly one Signal-encrypted key ‖ tag entry for every reachable device of the recipient and every reachable other device of the account, and no other entry |
| Omemo.OutgoingRow | Chatee/Sources/Private/Managers/OmemoManager.swift:188-190 | the row under the message id: an existing row is kept, a new one has the text, the bare recipient as room, the account as sender and the date; a sent message reads `sent` |
| Omemo.OmemoManager.ProcessKeyData | Chatee/Sources/Private/Managers/OmemoManager.swift:306-406 | reads the registration id (creating the identity) only for an unstored sender device or a non-empty payload; adds an unknown sender device other than this one, then follows the first addressed entry: a duplicate is ignored, another failure deletes the sender's session, a bad key or payload is dropped, a file message is ignored, and text is saved as `saveMessage` saves it, in the room and with the status of the room rule; only a save changes the message and room tables |
| Omemo.OmemoManager.UnlockMessageKey | Chatee/Sources/Private/Managers/OmemoManager.swift:319-351 | decrypts only the first entry for this device; a duplicate-message error leaves the sessions alone, any other error deletes the sender device's session and reports whether it existed; nothing else in the Signal store changes |
| Omemo.OmemoManager.HandleBody | Chatee/Sources/Private/Managers/OmemoManager.swift:353-400 | a bad key split, a failed decryption and an unreadable body are reported as such, a message missing its id or a jid is dropped, a file message is ignored, and a text is saved as `saveMessage` saves it (an already stored id leaves both tables as they were, a new one gets its row and its room link), with the room and status of the room rule; only a save changes the message and room tables |
| Omemo.OmemoManager.ReceivedKeyData | Chatee/Sources/Private/Managers/OmemoManager.swift:658-664 | a message is incoming when its sender is not the account; the identity is created only for an unstored sender device or a non-empty payload; without a payload nothing is decrypted |
| Omemo.OmemoManager.ReceivedForwardedKeyData | Chatee/Sources/Private/Managers/OmemoManager.swift:667-678 | a forwarded message is skipped exactly when it has no id or its id is already stored, and then nothing changes |
| Omemo.OmemoManager.TopUpBundle | Chatee/Sources/Private/Managers/OmemoManager.swift:746-763 | generates the missing keys from one past the last stored id and appends them after the bundle's keys; the prekey table gains the serialisable prefix of the generated keys, and is unchanged when nothing is generated |
| Omemo.OmemoManager.FetchMyBundle | Chatee/Sources/Private/Managers/OmemoManager.swift:710-766 | uses the existing bundle when there is one, otherwise tries at most 50 generations; a result belongs to the local identity and is the found bundle topped up to 100 prekeys with the keys requested from one past the last stored id; the prekey table after finding the bundle gains the serialisable prefix of those keys |
| Omemo.OmemoManager.FindOrGenerateBundle | Chatee/Sources/Private/Managers/OmemoManager.swift:711-742 | the stored bundle leaves the store untouched; otherwise at most 50 generations run, and a generated bundle belongs to the local identity |
| Omemo.OmemoManager.FetchedBundle | Chatee/Sources/Private/Managers/OmemoManager.swift:590-628 | the registration id is read (creating the identity) only for a bundle from the account's own jid; this device's own bundle leaves the callbacks alone and, when a stored bundle exists, is republished exactly when its identity key differs; any other bundle, a contact's or another own device's, with no prekeys fails its callback and otherwise is consumed with a drawn prekey and answers the callback with the outcome |
| Omemo.OmemoManager.RecheckOwnBundle | Chatee/Sources/Private/Managers/OmemoManager.swift:594-603 | the bundle of `fetchMyBundle` is returned for republishing only with an identity key other than the fetched one, and, with a stored bundle, exactly then |
| Omemo.OmemoManager.InitBundlePublish | Chatee/Sources/Private/Managers/OmemoManager.swift:61-67 | publishes the local bundle together with a device list of only this device |
| Omemo.OmemoManager.IsSessionValid | Chatee/Sources/Private/Managers/OmemoManager.swift:768-770 | true exactly when a session for the device id is stored |
| Omemo.OmemoManager.FailedToFetchBundle | Chatee/Sources/Private/Managers/OmemoManager.swift:629-637 | the pending bundle callback is invoked with failure and removed |
| FileTransfer.HexValue | Chatee/Sources/Private/Managers/FileTransferManager.swift:300-316 | a hex digit of either case has a value below 16 |
| FileTransfer.HexDigit | Chatee/Sources/Private/Managers/FileTransferManager.swift:287-289 | emits a lower-case digit of the given value |
| FileTransfer.HexByte | Chatee/Sources/Private/Managers/FileTransferManager.swift:287-289 | two lower-case digits that encode the byte |
| FileTransfer.HexString | Chatee/Sources/Private/Managers/FileTransferManager.swift:287-289 | two lower-case hex digits per byte, 2n characters in all |
| FileTransfer.HexDecode | Chatee/Sources/Private/Managers/FileTransferManager.swift:300-316 | the decoded data is never longer than the string |
| FileTransfer.DataFromHex | Chatee/Sources/Private/Managers/FileTransferManager.swift:300-316 | the match loop returns the decoded bytes, and nothing when none were decoded |
| FileTransfer.HexByteDecodes | Chatee/Sources/Private/Managers/FileTransferManager.swift:287-316 | the two digits of a byte decode to that byte |
| FileTransfer.HexRoundTrip | Chatee/Sources/Private/Managers/FileTransferManager.swift:287-316 | decoding the hex string of some data gives back the data |
| FileTransfer.FromHexOfHexString | Chatee/Sources/Private/Managers/FileTransferManager.swift:287-316 | `dataFromHex` of `hexString` of non-empty data gives back the data, and nothing for empty data |
| FileTransfer.HexDecodeEmptyIff | Chatee/Sources/Private/Managers/FileTransferManager.swift:300-316 | decoding yields nothing exactly when the string has no hex digit |
| FileTransfer.HexDecodeIgnoresCase | Chatee/Sources/Private/Managers/FileTransferManager.swift:300-309 | upper-casing the ASCII letters of the string does not change the decoded bytes |
| FileTransfer.SeparatorSplitsDigitPairs | Chatee/Sources/Private/Managers/FileTransferManager.swift:294-316 | a space between two digits yields two bytes instead of one, unlike the doc comment |
| FileTransfer.AnchorData | Chatee/Sources/Private/Managers/FileTransferManager.swift:250-258 | the fragment decoded from hex, and nothing without a fragment |
| FileTransfer.AesGcmKey | Chatee/Sources/Private/Managers/FileTransferManager.swift:260-282 | succeeds exactly for 44 or 48 decoded bytes; the iv is the first 12 or 16 bytes and the key the 32 after it |
| FileTransfer.UploadFragmentRoundTrip | Chatee/Sources/Private/Managers/FileTransferManager.swift:74-82 | the fragment written on upload gives back the key and 12-byte iv |
| FileTransfer.LegacyFragmentRoundTrip | Chatee/Sources/Private/Managers/FileTransferManager.swift:260-282 | a fragment with a 16-byte iv gives back the key and iv |
| FileTransfer.SplitDownload | Chatee/Sources/Private/Managers/FileTransferManager.swift:192-196 | splits off the last 16 bytes as the tag exactly when the data is longer than 16 bytes |
| FileTransfer.DownloadInputs | Chatee/Sources/Private/Managers/FileTransferManager.swift:188-217 | decryption inputs exist exactly when the fragment gives a key and the data has a tag, and they are the fragment's key and IV, the data before its last 16 bytes and those 16 bytes |
| FileTransfer.UploadBodyRoundTrip | Chatee/Sources/Private/Managers/FileTransferManager.swift:89 | download splits the uploaded ciphertext followed by its tag back into both parts, when the ciphertext is non-empty |
| FileTransfer.ForwardedHeaders | Chatee/Sources/Private/Managers/FileTransferManager.swift:133-147 | only `authorization`, `cookie` and `expires` are kept, after newlines are removed from the name and its ASCII letters lower-cased |
| FileTransfer.GetHeaders | Chatee/Sources/Private/Managers/FileTransferManager.swift:133-147 | the loop builds the forwarded headers |
| FileTransfer.ForwardedHeadersAre | Chatee/Sources/Private/Managers/FileTransferManager.swift:133-147 | a header is forwarded exactly when its cleaned name (no newlines, ASCII letters lower-cased) is allowed and present; its value is that of the last such header, without newlines |
| FileTransfer.ForwardedValuesHaveNoNewline | Chatee/Sources/Private/Managers/FileTransferManager.swift:133-147 | no forwarded value contains a newline |
| FileTransfer.HttpFromAes | Chatee/Sources/Private/Managers/FileTransferManager.swift:243-247 | the rewrite with every "aesgcm" replaced by "https" is returned when it parses, and then contains no "aesgcm"; otherwise the original URL |
| FileTransfer.RewriteLeavesNoAesgcm | Chatee/Sources/Private/Managers/FileTransferManager.swift:243-247 | no "aesgcm" remains after the replacement |
| FileTransfer.RewritePrefixWithoutH | Chatee/Sources/Private/Managers/FileTransferManager.swift:243-247 | a prefix of the rewrite without an `h` was copied unchanged from the original |
| FileTransfer.AesgcmSchemeBecomesHttps | Chatee/Sources/Private/Managers/FileTransferManager.swift:243-247 | an `aesgcm://` scheme becomes `https://`, and further occurrences are replaced as well |
| FileTransfer.HttpFromAesKeepsPlainUrls | Chatee/Sources/Private/Managers/FileTransferManager.swift:243-247 | a URL without `aesgcm` is returned unchanged |
| MessageStorage.MessageRecord.StatusType | Chatee/Sources/Private/Storage/Models/MessageDBModel.swift:23-26 | a known raw status decodes to its status, any other to `outgoing` |
| MessageStorage.MessageRecord.WithStatusType | Chatee/Sources/Private/Storage/Models/MessageDBModel.swift:27-29 | the setter changes no other field |
| MessageStorage.NewMessageIsOutgoing | Chatee/Sources/Private/Storage/Models/MessageDBModel.swift:22 | a fresh record reads as `outgoing` |
| MessageStorage.UnknownStatusReadsOutgoing | Chatee/Sources/Private/Storage/Models/MessageDBModel.swift:23-26 | an unknown raw status reads as `outgoing` |
| MessageStorage.StatusSetGet | Chatee/Sources/Private/Storage/Models/MessageDBModel.swift:23-30 | setting a status and reading it back gives the same status |
| MessageStorage.StoredStatus | Chatee/Sources/Private/Storage/MessageStorage.swift:226 | the given status when sender and room differ, `receivedUnread` when they coincide |
| MessageStorage.ConvertMessage | Chatee/Sources/Public/Entities/ChateeMessage.swift:19-22 | the public message keeps id, sender, text, timestamp and decoded status, and carries the room's name |
| MessageStorage.FirstRoomWhere | Chatee/Sources/Private/Storage/MessageStorage.swift:92-100 | a filter on a property the room table does not declare fails; a filter on `jid` finds the room by its key |
| MessageStorage.MessageStorageManager.CheckIfMessageExists | Chatee/Sources/Private/Storage/MessageStorage.swift:345-355 | true exactly for stored ids |
| MessageStorage.MessageStorageManager.SaveMessage | Chatee/Sources/Private/Storage/MessageStorage.swift:211-256 | a stored id changes nothing and gets no completion; otherwise the message is stored with the status rule, a missing room is created, and the id is appended to the room |
| MessageStorage.MessageStorageManager.MarkMessageAs | Chatee/Sources/Private/Storage/MessageStorage.swift:301-321 | changes only the status, or reports `noMessageWithId` |
| MessageStorage.MessageStorageManager.ChangeArchivedMessageTimestamp | Chatee/Sources/Private/Storage/MessageStorage.swift:323-343 | changes only the timestamp, or reports `noMessageWithId` |
| MessageStorage.MessageStorageManager.GetRoomID | Chatee/Sources/Private/Storage/MessageStorage.swift:133-155 | reports the jid; a missing room is created with members [account, other] and no error, an existing one comes with `noRoomWithId` |
| MessageStorage.MessageStorageManager.RemoveRoom | Chatee/Sources/Private/Storage/MessageStorage.swift:189-209 | deletes the room and unlinks its messages, or reports `noRoomWithId` |
| MessageStorage.MessageStorageManager.RoomMessages | Chatee/Sources/Private/Storage/MessageStorage.swift:103-105 | the room's messages converted in list order |
| MessageStorage.MessageStorageManager.LoadRoom | Chatee/Sources/Private/Storage/MessageStorage.swift:92-110 | `noRoomWithId` for a missing room; otherwise at most the 70 latest of the room's messages, in ascending timestamp order |
| MessageStorage.LatestPage | Chatee/Sources/Private/Storage/MessageStorage.swift:100-101 | at most the 70 latest of the messages, in ascending timestamp order, drawn from the input; every message left out is no later than any message kept |
| MessageStorage.MessageStorageManager.LoadRoomAsWritten | Chatee/Sources/Private/Storage/MessageStorage.swift:96 | the filter on `id` fails for every room id |
| MessageStorage.MessageStorageManager.LoadOutgoingMessages | Chatee/Sources/Private/Storage/MessageStorage.swift:112-130 | exactly the `outgoing` messages that have a room, each once, addressed to the room's jid |
| MessageStorage.MessageStorageManager.Latest | Chatee/Sources/Private/Storage/MessageStorage.swift:76 | the message with the greatest timestamp |
| MessageStorage.MessageStorageManager.LoadRecent | Chatee/Sources/Private/Storage/MessageStorage.swift:59-90 | one entry per room with a message, newest last message first |
| MessageStorage.MessageStorageManager.RecentEntryFor | Chatee/Sources/Private/Storage/MessageStorage.swift:76-83 | the entry of a room pairs a contact built from the contact table (subscription `both`) with a message of the room that no other message of the room is later than |
| MessageStorage.MessageStorageManager.CollectRecent | Chatee/Sources/Private/Storage/MessageStorage.swift:74-84 | the append loop collects one entry per room with a message |
| MessageStorage.SavedMessageListedOnce | Chatee/Sources/Private/Storage/MessageStorage.swift:228-253 | a newly saved id appears in its room's list exactly once |
| ContactStorage.ContactRecord.SubscriptionType | Chatee/Sources/Private/Storage/Models/ContactDBModel.swift:18-21 | a known raw subscription decodes to its value, any other to `.none` |
| ContactStorage.ContactRecord.WithSubscriptionType | Chatee/Sources/Private/Storage/Models/ContactDBModel.swift:22-24 | the setter keeps jid, name and avatar |
| ContactStorage.NewRecordReadsNone | Chatee/Sources/Private/Storage/Models/ContactDBModel.swift:17-21 | a fresh record reads as `.none` |
| ContactStorage.UnknownRawReadsNone | Chatee/Sources/Private/Storage/Models/ContactDBModel.swift:18-21 | an unknown raw subscription reads as `.none` |
| ContactStorage.SubscriptionSetGet | Chatee/Sources/Private/Storage/Models/ContactDBModel.swift:18-25 | setting a subscription and reading it back gives the same value |
| ContactStorage.BareRecordNeverListed | Chatee/Sources/Private/Storage/ContactStorage.swift:193-207 | the bare record `saveAvatar` creates has no subscription and is listed under none |
| ContactStorage.ContactStorageManager.AddContact | Chatee/Sources/Private/Storage/ContactStorage.swift:51-79 | writes only for a new jid or a changed subscription, then replacing name, avatar and subscription; otherwise nothing changes and there is no completion |
| ContactStorage.ContactStorageManager.RemoveContact | Chatee/Sources/Private/Storage/ContactStorage.swift:81-104 | deletes the record, or reports `noContactWithJid` and changes nothing |
| ContactStorage.ContactStorageManager.LoadContacts | Chatee/Sources/Private/Storage/ContactStorage.swift:106-126 | exactly the contacts with the requested subscription, each once |
| ContactStorage.ContactStorageManager.AcceptSubscription | Chatee/Sources/Private/Storage/ContactStorage.swift:132-159 | the subscription becomes `both` keeping name and avatar, or `noContactWithJid` |
| ContactStorage.ContactStorageManager.RejectSubscription | Chatee/Sources/Private/Storage/ContactStorage.swift:161-184 | deletes the record, or reports (false, `noContactWithJid`) |
| ContactStorage.ContactStorageManager.SaveAvatar | Chatee/Sources/Private/Storage/ContactStorage.swift:186-210 | updates only the avatar; an unknown jid gets a bare record without the avatar |
| ContactStorage.ContactStorageManager.GetName | Chatee/Sources/Private/Storage/ContactStorage.swift:212-220 | the stored name, or nothing without a record |
| ContactStorage.ContactStorageManager.GetAvatar | Chatee/Sources/Private/Storage/ContactStorage.swift:222-230 | the stored avatar, or nothing without a record |
| Entities.StatusFromRaw | Chatee/Sources/Public/Entities/ChateeMessageStatus.swift:10-18 | decodes exactly the raw values of the message statuses |
| Entities.StatusRawRoundTrip | Chatee/Sources/Public/Entities/ChateeMessageStatus.swift:10-18 | every status survives encoding and decoding |
| Entities.SubscriptionFromRaw | Chatee/Sources/Public/Entities/ChateeContactSubscription.swift:10-17 | decodes exactly the raw values of the subscriptions |
| Entities.SubscriptionRawRoundTrip | Chatee/Sources/Public/Entities/ChateeContactSubscription.swift:10-17 | every subscription survives encoding and decoding |
| Entities.NewContact | Chatee/Sources/Public/Entities/ChateeContact.swift:10-18 | a new contact is offline and has the given fields |
| Entities.PredicatesFromRaw | Chatee/Sources/Public/Entities/ChateeContact.swift:20-26 | for a contact decoded from a stored raw subscription, subscribed exactly when the raw value is `both` or `to`, pending exactly when it is `requestSent` |
| Entities.SubscribedIsNotPending | Chatee/Sources/Public/Entities/ChateeContact.swift:20-26 | no contact is both subscribed and pending |
| KeyedTable.LastCanBeBelowMax | Chatee/Sources/Private/Storage/SignalStorage.swift:82-88 | the last stored id need not be the largest |

## Left out

- Concurrency is left out: dispatch queues, `DispatchGroup` joins and completion timing.
  `prepareSession` is not modelled as a whole. Its device filter is
  `OmemoRules.DevicesNeedingBundle`, and its callback registrations are
  `AwaitBundle` and `AwaitDeviceIds`.
- Realm write failures are left out (writes always commit), and so are `try!` crashes on
  opening a Realm.
- GenerateOutgoingBundle: a signature failure at the `try!` (`SignalManager.swift:117`) crashes
  the app; the model returns the error instead.
- SignalStorage.SignalStorageManager.CurrentMaxPreKeyId: the maximum is promised only when ids
  were stored in increasing order, because the code returns the last record.
- Omemo.OmemoManager.ReceivedKeyData: the contract states only the identity and the no-payload
  case. Everything else is `ProcessKeyData`'s contract.
- Session records that the Signal library writes through the store during encryption and
  decryption are left out: `SessionCipher` is an opaque value, and only the deletions the
  manager makes itself are modelled.
- The UInt32 and Int32 conversions of device ids are not modelled; ids are unbounded integers.
- `allDeviceIds`, `deleteAllSessionRecords`, the sender-key stubs, `getGroupRoomID`,
  `appendGroupRoomUsers`, `getMessage`, `getLastMessageTimestamp` and `refreshContacts` (an empty
  TODO) are left out. They are outside the modelled core or do nothing.
- AES-GCM, random bytes, UTF-8, JSON and URL parsing are parameters (`Platform`), not definitions.
- The upload and download network I/O and `saveFile` are left out. Only their byte framing is
  modelled.
- Signal.Address: case folding is ASCII only. Swift's `lowercased()` also folds other
  letters (`"É"` to `"é"`, the Kelvin sign to `"k"`); such names are kept as they are here.
- Signal.AddressIgnoresCase: holds for ASCII letter case only, for the reason given for `Address`.
- Signal.CipherIgnoresCase: holds for ASCII letter case only, for the reason given for `Address`.
- FileTransfer.ForwardedHeaders: header names are lower-cased for ASCII letters only; Swift's
  `lowercased()` folds every Unicode letter.
- FileTransfer.GetHeaders: the same ASCII-only lower-casing as `ForwardedHeaders`.
- FileTransfer.ForwardedHeadersAre: the same ASCII-only lower-casing as `ForwardedHeaders`.
- FileTransfer.HexDecode: the regular expression is run over the whole string. `dataFromHex`
  passes a range of `characters.count` grapheme clusters, which NSRegularExpression reads
  as UTF-16 units. For a string with characters outside the Basic Multilingual Plane or with
  combining marks (`"😀ab"`), that range ends early and drops trailing digits. The model
  does not capture this.
- FileTransfer.DataFromHex: the same whole-string scan as `HexDecode`.
- FileTransfer.HexDecodeIgnoresCase: holds for the model's whole-string scan, for ASCII letter case.
- Omemo.OmemoManager.FetchMyBundle: when the bundle had to be generated, the top-up start is
  stated as `TopUpBundle` reads it after generation. It is not stated in terms of the prekey
  table before the call. It equals `TopUpStart` of the old table only when the stored bundle was used.
- Omemo.OmemoManager.FailedToFetchBundle: a nil element id is a no-op. In the source,
  `failedToFetchBundleForDeviceId` force-unwraps it (`OmemoManager.swift:635`) and crashes;
  `failedToRemoveDeviceIds` (`OmemoManager.swift:647-655`) is what treats nil as nothing to do.
- Omemo.OmemoManager.FetchedBundle: the element id is a plain string. The source's
  `elementId!` (`OmemoManager.swift:610`, `625`) crashes on nil, and that crash is not modelled.
- KeyedTable.Table: the stored order is insertion order, which Realm does not promise for
  unsorted results. `LoadSignedPreKey`, `CurrentMaxPreKeyId`, `FetchAllPreKeys` and
  `TopUpStartsAboveStoredIds` rest on that order; on Realm another order is possible.
- SignalStorage.SignalStorageManager.GetIdentityKeyPair: the `requires identity.Some? ||
  keyHelper.Some?` stands for the crash of `generateNewIdentity()!` (`SignalStorage.swift:323`)
  when no identity is stored and none can be generated. The same requires appears on the members
  that reach it: `GenerateRandomSignedPreKey`, `GenerateOutgoingBundle`, `FetchMyBundle`,
  `FindOrGenerateBundle`, `InitBundlePublish` and `FetchedBundle` (for an own bundle). The crash
  itself is not modelled.
- OmemoRules.BareJid: only strips the resource. The source builds `XMPPJID(string:)!.bare`
  (`OmemoManager.swift:188`), whose stringprep folds the case of node and domain and whose
  force-unwrap crashes on a jid that does not parse. Neither is modelled: jids differing
  only in case are distinct here, and every string has a bare jid.
- SignalStorage.IdentityAfter: the key helper always yields an identity key pair. The source's
  `generateIdentityKeyPair()!` (`SignalStorage.swift:121`) crashes when it returns nil, and that
  crash is not modelled.
- Omemo.OmemoManager.SendOnePass: the registration id is read (creating the identity) on every
  pass. The source reads it only in the own-device filter (`OmemoManager.swift:253-255`),
  for each stored device of the account once some contact entry was built, and in
  `prepareSession`, which is not modelled. So in the source a pass that builds no contact entry,
  or finds no device of the account, creates no identity there.
- Delegate notifications that only log or forward (published bundle, encryption errors) are
  left out. A republished bundle is returned as a value.

## Findings

| source | as written | input that shows it | evidently intended | confidence | as-written member | corrected member |
|---|---|---|---|---|---|---|
| Chatee/Sources/Private/Managers/OmemoManager.swift:315 | the guard only requires a non-empty payload, but the legacy split takes the last 16 payload bytes as the tag | a 16-byte decrypted key with a 1-byte payload traps on the subrange | drop a legacy message shorter than one tag | not executed | OmemoRules.ShortLegacyPayloadTraps | OmemoRules.SplitKeyMaterial |
| Chatee/Sources/Private/Storage/MessageStorage.swift:96 | the room lookup filters on `id`, which the room model does not declare | any room id, since Realm rejects the predicate | look up the room by `jid`, its primary key | not executed | MessageStorage.MessageStorageManager.LoadRoomAsWritten | MessageStorage.MessageStorageManager.LoadRoom |
