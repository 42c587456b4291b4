/**
 * The value-level rules of `OmemoManager`: how a decrypted OMEMO key is
 * split into AES key and authentication tag, which room and status an
 * inbound message gets, which key entry is tried, how the key-data list of
 * an outgoing message is assembled, the retry ceiling, the prekey-pool
 * top-up and the one-shot callback tables.
 */
module OmemoRules {
  import opened Wrappers
  import opened Text
  import opened Sequences
  import opened SignalProtocol
  import opened OmemoExtension
  import KeyedTable
  import OmemoStorage
  import OmemoDeviceModel
  import Entities
  import Signal

  /** The AES-GCM block length; key and tag are this long. */
  const AesGcmBlockLength := 16

  /** A send is attempted only while `noOfAttempts` is below this. */
  const AttemptCeiling := 4

  /** The number of prekeys the account keeps published. */
  const PreKeyPoolSize := 100

  /** How many times `fetchMyBundle` tries to generate a bundle. */
  const MaxBundleTries := 50

  // ------------------------------------------------------------ key and tag

  /** The AES key, the authentication tag and the ciphertext of one message. */
  datatype KeyMaterial = KeyMaterial(key: Bytes, tag: Bytes, body: Bytes)

  /** The key/tag split as the source writes it, where a range with its ends reversed traps. */
  datatype SplitAsWritten = Split(material: KeyMaterial) | Trap

  /**
   * The split of `processKeyData` as written: a decrypted key of 32 bytes
   * or more carries the tag after its first 16 bytes; otherwise the tag is
   * the last 16 bytes of the payload (the legacy `siacs` format), which
   * traps when the payload is shorter than 16 bytes. The source's guard
   * only ensures a non-empty payload.
   */
  function SplitKeyMaterialAsWritten(key: Bytes, payload: Bytes): (r: SplitAsWritten)
    requires |payload| > 0
    ensures r.Trap? <==> |key| < 2 * AesGcmBlockLength && |payload| < AesGcmBlockLength
  {
    if |key| >= 2 * AesGcmBlockLength then
      Split(KeyMaterial(key[..AesGcmBlockLength], key[AesGcmBlockLength..], payload))
    else if |payload| < AesGcmBlockLength then Trap
    else
      var n := |payload| - AesGcmBlockLength;
      Split(KeyMaterial(key, payload[n..], payload[..n]))
  }

  /** A one-byte payload with a 16-byte key traps the receiver. */
  lemma ShortLegacyPayloadTraps()
    ensures SplitKeyMaterialAsWritten(seq(16, _ => 0 as byte), [7 as byte]) == Trap
  {
  }

  /**
   * The split with the legacy branch guarded: None, so that the message is
   * dropped, when there is no tag to be found.
   */
  function SplitKeyMaterial(key: Bytes, payload: Bytes): (r: Option<KeyMaterial>)
    ensures |key| >= 2 * AesGcmBlockLength ==>
      r == Some(KeyMaterial(key[..AesGcmBlockLength], key[AesGcmBlockLength..], payload))
    ensures r.None? <==> |key| < 2 * AesGcmBlockLength && |payload| < AesGcmBlockLength
    ensures r.Some? ==> |r.value.tag| >= AesGcmBlockLength
    ensures r.Some? && |key| < 2 * AesGcmBlockLength ==>
      r.value.key == key && |r.value.tag| == AesGcmBlockLength && r.value.body + r.value.tag == payload
  {
    if |key| >= 2 * AesGcmBlockLength then
      Some(KeyMaterial(key[..AesGcmBlockLength], key[AesGcmBlockLength..], payload))
    else if |payload| < AesGcmBlockLength then None
    else
      var n := |payload| - AesGcmBlockLength;
      assert payload[..n] + payload[n..] == payload;
      Some(KeyMaterial(key, payload[n..], payload[..n]))
  }

  /** Wherever the written split does not trap, the guarded split gives the same result. */
  lemma SplitAgreesWhereNoTrap(key: Bytes, payload: Bytes)
    requires |payload| > 0
    ensures SplitKeyMaterialAsWritten(key, payload).Split? ==>
      SplitKeyMaterial(key, payload) == Some(SplitKeyMaterialAsWritten(key, payload).material)
    ensures SplitKeyMaterialAsWritten(key, payload).Trap? ==> SplitKeyMaterial(key, payload).None?
  {
  }

  /**
   * Round trip of the current format: the sender puts the 16-byte AES key
   * followed by the 16-byte tag into the Signal message and sends the bare
   * GCM ciphertext; the receiver recovers all three.
   */
  lemma SplitRecoversSentKeyAndTag(key: Bytes, tag: Bytes, ciphertext: Bytes)
    requires |key| == AesGcmBlockLength && |tag| == AesGcmBlockLength
    ensures SplitKeyMaterial(key + tag, ciphertext) == Some(KeyMaterial(key, tag, ciphertext))
  {
    assert (key + tag)[..AesGcmBlockLength] == key;
    assert (key + tag)[AesGcmBlockLength..] == tag;
  }

  /** Round trip of the legacy format: a short key, and the tag appended to the ciphertext. */
  lemma SplitRecoversLegacyTag(key: Bytes, tag: Bytes, ciphertext: Bytes)
    requires |key| < 2 * AesGcmBlockLength && |tag| == AesGcmBlockLength
    ensures SplitKeyMaterial(key, ciphertext + tag) == Some(KeyMaterial(key, tag, ciphertext))
  {
    var payload := ciphertext + tag;
    assert payload[..|ciphertext|] == ciphertext;
    assert payload[|ciphertext|..] == tag;
  }

  // ------------------------------------------------------------ room and status

  /**
   * The room of an inbound message is its recipient, unless that is this
   * account, in which case it is the sender; the status is `sent` exactly
   * when the room is this account's own.
   */
  function RoomIdAndStatus(userBareJid: string, toJid: string, fromJid: string): (r: (string, Entities.MessageStatus))
    ensures r.0 == toJid || r.0 == fromJid
    ensures toJid != userBareJid ==> r.0 == toJid
    ensures r.1 == Entities.Sent || r.1 == Entities.ReceivedUnread
    ensures r.1 == Entities.Sent <==> r.0 == userBareJid
  {
    var roomID := if userBareJid != toJid then toJid else fromJid;
    (roomID, if roomID != userBareJid then Entities.ReceivedUnread else Entities.Sent)
  }

  /**
   * A message is filed as `sent` only when it goes from this account to
   * itself; a message from a contact lands in the contact's room, and a
   * copy of this account's own message to a contact lands in the contact's
   * room as `receivedUnread`.
   */
  lemma RoomRuleCases(userBareJid: string, contact: string)
    requires contact != userBareJid
    ensures RoomIdAndStatus(userBareJid, userBareJid, contact) == (contact, Entities.ReceivedUnread)
    ensures RoomIdAndStatus(userBareJid, contact, userBareJid) == (contact, Entities.ReceivedUnread)
    ensures RoomIdAndStatus(userBareJid, userBareJid, userBareJid) == (userBareJid, Entities.Sent)
  {
  }

  /** `sent` exactly when both ends are this account. */
  lemma SentOnlyToSelf(userBareJid: string, toJid: string, fromJid: string)
    ensures RoomIdAndStatus(userBareJid, toJid, fromJid).1 == Entities.Sent <==> toJid == userBareJid && fromJid == userBareJid
  {
  }

  // ------------------------------------------------------------ inbound key selection

  /** Whether some entry of `keyData` is addressed to device `rid`. */
  predicate AddressedTo(keyData: seq<OmemoKeyData>, rid: int)
  {
    exists i :: 0 <= i < |keyData| && keyData[i].deviceId == rid
  }

  /** The position of the first key entry for device `rid`: the only one `processKeyData` ever tries. */
  function FirstEntryFor(keyData: seq<OmemoKeyData>, rid: int): (r: Option<nat>)
    ensures r.None? <==> !AddressedTo(keyData, rid)
    ensures r.Some? ==> r.value < |keyData| && keyData[r.value].deviceId == rid
    ensures r.Some? ==> forall j :: 0 <= j < r.value ==> keyData[j].deviceId != rid
  {
    if |keyData| == 0 then None
    else if keyData[0].deviceId == rid then Some(0)
    else
      match FirstEntryFor(keyData[1..], rid)
      case None => None
      case Some(i) =>
        assert keyData[1..][i] == keyData[i + 1];
        Some(i + 1)
  }

  /** Entries after the first one for `rid` are never looked at. */
  lemma {:induction false} LaterEntriesIgnored(a: seq<OmemoKeyData>, b: seq<OmemoKeyData>, rid: int)
    requires AddressedTo(a, rid)
    ensures FirstEntryFor(a + b, rid) == FirstEntryFor(a, rid)
  {
    var i := FirstEntryFor(a, rid).value;
    var j := FirstEntryFor(a + b, rid);
    assert (a + b)[i] == a[i];
    assert j.Some?;
  }

  /** What the first key entry for this device yields: nothing to try, the AES key, or a Signal error. */
  datatype KeyOutcome = NoEntry | Key(key: Bytes) | KeyFailure(error: SignalError)

  /**
   * Decrypting the first entry for `rid` from the sender's address (a
   * success ends the loop, an error returns from it).
   */
  function InboundKey(cipher: SessionCipher, keyData: seq<OmemoKeyData>, rid: int, addressJid: string,
                      senderDeviceId: int): (r: KeyOutcome)
    ensures r.NoEntry? <==> !AddressedTo(keyData, rid)
    ensures !r.NoEntry? ==>
      var e := keyData[FirstEntryFor(keyData, rid).value];
      match Signal.DecryptFromAddress(cipher, e.data, addressJid, senderDeviceId)
      case Success(k) => r == Key(k)
      case Failure(err) => r == KeyFailure(err)
  {
    match FirstEntryFor(keyData, rid)
    case None => NoEntry
    case Some(i) =>
      match Signal.DecryptFromAddress(cipher, keyData[i].data, addressJid, senderDeviceId)
      case Success(k) => Key(k)
      case Failure(err) => KeyFailure(err)
  }

  // ------------------------------------------------------------ outgoing key data

  /**
   * `encryptPayloadWithSignalForDevice`: None when the device has no owner
   * or Signal encryption throws; otherwise the ciphertext for the device,
   * flagged as a prekey message exactly when Signal says so.
   */
  function KeyDataForDevice(devices: OmemoStorage.DeviceTable, cipher: SessionCipher, payload: Bytes, deviceId: int): (r: Option<OmemoKeyData>)
    ensures r.Some? <==>
      OmemoStorage.OwnerOf(devices, deviceId).Some? &&
      Signal.EncryptToAddress(cipher, payload, OmemoStorage.OwnerOf(devices, deviceId).value, deviceId).Success?
    ensures r.Some? ==>
      var ct := Signal.EncryptToAddress(cipher, payload, OmemoStorage.OwnerOf(devices, deviceId).value, deviceId).value;
      r.value == OmemoKeyData(deviceId, ct.data, ct.kind == PreKeyMessage)
  {
    match OmemoStorage.OwnerOf(devices, deviceId)
    case None => None
    case Some(user) =>
      match Signal.EncryptToAddress(cipher, payload, user, deviceId)
      case Failure(_) => None
      case Success(ct) => Some(OmemoKeyData(deviceId, ct.data, ct.kind == PreKeyMessage))
  }

  function KeyDataForDeviceOf(devices: OmemoStorage.DeviceTable, cipher: SessionCipher, payload: Bytes): int -> Option<OmemoKeyData>
  {
    deviceId => KeyDataForDevice(devices, cipher, payload, deviceId)
  }

  /** `devices.map(encryptClosure).compactMap { $0 }`. */
  function KeyDataFor(devices: OmemoStorage.DeviceTable, cipher: SessionCipher, payload: Bytes, ids: seq<int>): seq<OmemoKeyData>
  {
    FilterMap(ids, KeyDataForDeviceOf(devices, cipher, payload))
  }

  /** A device the key can be encrypted to, and that is owned. */
  predicate Reachable(devices: OmemoStorage.DeviceTable, cipher: SessionCipher, payload: Bytes, deviceId: int)
  {
    KeyDataForDevice(devices, cipher, payload, deviceId).Some?
  }

  /**
   * Key-data assembly keeps exactly the reachable devices: every entry is
   * for a listed, reachable device and carries its ciphertext, and every
   * listed reachable device has an entry.
   */
  lemma {:induction false} KeyDataForKeepsReachable(devices: OmemoStorage.DeviceTable, cipher: SessionCipher, payload: Bytes, ids: seq<int>)
    ensures forall j :: 0 <= j < |KeyDataFor(devices, cipher, payload, ids)| ==>
      var e := KeyDataFor(devices, cipher, payload, ids)[j];
      e.deviceId in ids && Reachable(devices, cipher, payload, e.deviceId) &&
      KeyDataForDevice(devices, cipher, payload, e.deviceId) == Some(e)
    ensures forall i :: 0 <= i < |ids| && Reachable(devices, cipher, payload, ids[i]) ==>
      KeyDataForDevice(devices, cipher, payload, ids[i]).value in KeyDataFor(devices, cipher, payload, ids)
  {
    var f := KeyDataForDeviceOf(devices, cipher, payload);
    var r := KeyDataFor(devices, cipher, payload, ids);
    forall j | 0 <= j < |r|
      ensures r[j].deviceId in ids && Reachable(devices, cipher, payload, r[j].deviceId) &&
              KeyDataForDevice(devices, cipher, payload, r[j].deviceId) == Some(r[j])
    {
      FilterMapFrom(ids, f, j);
      var i :| 0 <= i < |ids| && f(ids[i]) == Some(r[j]);
      assert KeyDataForDevice(devices, cipher, payload, ids[i]) == Some(r[j]);
    }
    forall i | 0 <= i < |ids| && Reachable(devices, cipher, payload, ids[i])
      ensures KeyDataForDevice(devices, cipher, payload, ids[i]).value in r
    {
      assert f(ids[i]) == KeyDataForDevice(devices, cipher, payload, ids[i]);
      FilterMapKeeps(ids, f, i);
    }
  }

  // ------------------------------------------------------------ one send pass

  /** The output of `SignalHelper.encryptData`. */
  datatype GcmOutput = GcmOutput(data: Bytes, authTag: Bytes)

  /**
   * The foreign calls of a send or receive: AES-GCM (None, or a failure,
   * when it throws; decryption may also return nil), UTF-8 conversion, and
   * whether a message text is a file-transfer JSON with a `url` field.
   */
  datatype Platform = Platform(
    aesEncrypt: (Bytes, Bytes, Bytes) -> Option<GcmOutput>,
    aesDecrypt: (Bytes, Bytes, Bytes, Bytes) -> Option<Option<Bytes>>,
    utf8Encode: string -> Option<Bytes>,
    utf8Decode: Bytes -> Option<string>,
    hasFileUrl: string -> bool)

  /** The random IV and key `SignalHelper` draws for one pass (nil when the draw fails). */
  datatype PassDraw = PassDraw(iv: Option<Bytes>, key: Option<Bytes>)

  /** What one pass of `encryptAndSendMessage` does after the sessions are prepared. */
  datatype PassOutcome =
    | Abandon
    | Retry
    | Send(keyData: seq<OmemoKeyData>, iv: Bytes, payload: Bytes)

  /**
   * One pass: give up silently when there is no text or a random draw
   * fails; retry when payload encryption throws or no contact device can be
   * reached; otherwise send the entries for this account's other devices
   * followed by the contact's, with the GCM ciphertext as payload and
   * key ‖ tag as the Signal-encrypted secret.
   */
  function SendPass(text: Option<string>, draw: PassDraw, platform: Platform, devices: OmemoStorage.DeviceTable,
                    cipher: SessionCipher, contactDevices: seq<int>, ownDevices: seq<int>, rid: int): (r: PassOutcome)
    ensures text.None? || draw.iv.None? || draw.key.None? ==> r == Abandon
    ensures r.Send? ==> text.Some? && draw.iv.Some? && draw.key.Some? && platform.utf8Encode(text.value).Some?
    ensures r.Send? ==> platform.aesEncrypt(platform.utf8Encode(text.value).value, draw.key.value, draw.iv.value).Some?
    ensures r.Send? ==> |r.keyData| > 0 && r.iv == draw.iv.value
    ensures r.Send? ==>
      var gcm := platform.aesEncrypt(platform.utf8Encode(text.value).value, draw.key.value, draw.iv.value).value;
      var secret := draw.key.value + gcm.authTag;
      r.payload == gcm.data &&
      r.keyData == KeyDataFor(devices, cipher, secret, KeyedTable.Without(ownDevices, rid)) +
                   KeyDataFor(devices, cipher, secret, contactDevices) &&
      |KeyDataFor(devices, cipher, secret, contactDevices)| > 0
  {
    if text.None? || draw.iv.None? || draw.key.None? then Abandon
    else match platform.utf8Encode(text.value)
      case None => Abandon
      case Some(body) =>
        match platform.aesEncrypt(body, draw.key.value, draw.iv.value)
        case None => Retry
        case Some(gcm) =>
          var secret := draw.key.value + gcm.authTag;
          var contactsKeyData := KeyDataFor(devices, cipher, secret, contactDevices);
          if |contactsKeyData| == 0 then Retry
          else
            var ownKeyData := KeyDataFor(devices, cipher, secret, KeyedTable.Without(ownDevices, rid));
            var keyData := ownKeyData + contactsKeyData;
            if |keyData| > 0 then Send(keyData, draw.iv.value, gcm.data) else Retry
  }

  /**
   * No contact device reachable means a retry, however many of this
   * account's own devices could be reached; a pass that encrypts to a
   * contact device always sends (the second retry branch of the source is
   * dead).
   */
  lemma RetryExactlyWithoutContacts(text: Option<string>, draw: PassDraw, platform: Platform, devices: OmemoStorage.DeviceTable,
                                    cipher: SessionCipher, contactDevices: seq<int>, ownDevices: seq<int>, rid: int)
    requires text.Some? && draw.iv.Some? && draw.key.Some? && platform.utf8Encode(text.value).Some?
    requires platform.aesEncrypt(platform.utf8Encode(text.value).value, draw.key.value, draw.iv.value).Some?
    ensures var gcm := platform.aesEncrypt(platform.utf8Encode(text.value).value, draw.key.value, draw.iv.value).value;
      var secret := draw.key.value + gcm.authTag;
      SendPass(text, draw, platform, devices, cipher, contactDevices, ownDevices, rid).Retry? <==>
        |KeyDataFor(devices, cipher, secret, contactDevices)| == 0
  {
  }

  /** The sent list never holds an entry for this device from the own-device list, and every entry is for a listed device. */
  lemma {:induction false} SentEntriesAreForOtherDevices(text: Option<string>, draw: PassDraw, platform: Platform,
                                                         devices: OmemoStorage.DeviceTable, cipher: SessionCipher,
                                                         contactDevices: seq<int>, ownDevices: seq<int>, rid: int)
    requires SendPass(text, draw, platform, devices, cipher, contactDevices, ownDevices, rid).Send?
    ensures var r := SendPass(text, draw, platform, devices, cipher, contactDevices, ownDevices, rid);
      forall j :: 0 <= j < |r.keyData| ==>
        (r.keyData[j].deviceId in ownDevices && r.keyData[j].deviceId != rid) || r.keyData[j].deviceId in contactDevices
  {
    var r := SendPass(text, draw, platform, devices, cipher, contactDevices, ownDevices, rid);
    var gcm := platform.aesEncrypt(platform.utf8Encode(text.value).value, draw.key.value, draw.iv.value).value;
    var secret := draw.key.value + gcm.authTag;
    var own := KeyedTable.Without(ownDevices, rid);
    KeyDataForKeepsReachable(devices, cipher, secret, own);
    KeyDataForKeepsReachable(devices, cipher, secret, contactDevices);
    var a := KeyDataFor(devices, cipher, secret, own);
    forall j | 0 <= j < |r.keyData|
      ensures (r.keyData[j].deviceId in ownDevices && r.keyData[j].deviceId != rid) || r.keyData[j].deviceId in contactDevices
    {
      if j < |a| {
        assert r.keyData[j] == a[j];
      } else {
        assert r.keyData[j] == KeyDataFor(devices, cipher, secret, contactDevices)[j - |a|];
      }
    }
  }

  /** How many send passes a call with `noOfAttempts` may still run. */
  function PassesLeft(noOfAttempts: int): (n: nat)
    ensures noOfAttempts >= AttemptCeiling ==> n == 0
    ensures noOfAttempts == 1 ==> n == 3
  {
    if noOfAttempts >= AttemptCeiling then 0 else AttemptCeiling - noOfAttempts
  }

  // ------------------------------------------------------------ bundle top-up

  /** The first prekey id of a top-up: one past the current maximum, or 0 when none is stored. */
  function TopUpStart(maxId: Option<int>): (start: int)
    ensures maxId.None? ==> start == 0
    ensures maxId.Some? ==> start > maxId.value
  {
    if maxId.Some? then maxId.value + 1 else 0
  }

  /** How many prekeys `fetchMyBundle` generates for a bundle with `count` of them. */
  function KeysToGenerate(count: int): (n: int)
    ensures n > 0 <==> count < PreKeyPoolSize
    ensures n > 0 ==> count + n == PreKeyPoolSize
  {
    PreKeyPoolSize - count
  }

  /**
   * The published bundle: the fetched or generated one, its prekeys
   * followed by those converted from the top-up (when one was made and
   * generation succeeded).
   */
  function ToppedUp(bundle: OmemoBundle, generated: Option<seq<SignalPreKey>>): (r: OmemoBundle)
    ensures r.deviceId == bundle.deviceId && r.identityKey == bundle.identityKey && r.signedPreKey == bundle.signedPreKey
    ensures |bundle.preKeys| <= |r.preKeys| && r.preKeys[..|bundle.preKeys|] == bundle.preKeys
    ensures generated.None? ==> r == bundle
    ensures generated.Some? ==> r.preKeys[|bundle.preKeys|..] == OmemoPreKeysOf(generated.value)
  {
    var preKeys := if generated.Some? then bundle.preKeys + OmemoPreKeysOf(generated.value) else bundle.preKeys;
    assert preKeys[..|bundle.preKeys|] == bundle.preKeys;
    CopyBundle(bundle, preKeys)
  }

  /**
   * When the prekey ids were stored in increasing order, a top-up that
   * numbers its keys from `TopUpStart` overwrites no stored prekey.
   */
  lemma TopUpStartsAboveStoredIds<V>(t: KeyedTable.Table<V>)
    requires t.Valid() && KeyedTable.Increasing(t.order)
    ensures forall k :: k in t.rows ==> k < TopUpStart(t.Last())
  {
    if t.Last().Some? {
      KeyedTable.LastIsMaxWhenIncreasing(t);
    }
  }

  // ------------------------------------------------------------ one-shot callbacks

  /**
   * `callAndRemoveOutstanding…`: the callback registered under `key`, if
   * any, is returned to be invoked, and is removed.
   */
  function CallAndRemove<K>(pending: map<K, int>, key: K): (r: (map<K, int>, Option<int>))
    ensures r.0 == pending - {key}
    ensures r.1.Some? <==> key in pending
    ensures r.1.Some? ==> r.1.value == pending[key]
  {
    if key in pending then (pending - {key}, Some(pending[key])) else (pending, None)
  }

  /** A callback runs at most once: a second call for the same key invokes nothing and changes nothing. */
  lemma CallAndRemoveIsOneShot<K>(pending: map<K, int>, key: K)
    ensures var once := CallAndRemove(pending, key).0;
      CallAndRemove(once, key) == (once, None)
  {
    var once := CallAndRemove(pending, key).0;
    assert once - {key} == once;
  }

  /**
   * The devices `prepareSession` fetches bundles for: those other than this
   * device that have no session yet.
   */
  function DevicesNeedingBundle(devices: seq<int>, rid: int, sessions: set<int>): (r: seq<int>)
    ensures forall x :: x in r <==> x in devices && x != rid && x !in sessions
    ensures |r| <= |devices|
  {
    if |devices| == 0 then []
    else
      var rest := DevicesNeedingBundle(devices[1..], rid, sessions);
      assert forall x :: x in devices[1..] ==> x in devices;
      if devices[0] != rid && devices[0] !in sessions then [devices[0]] + rest else rest
  }

  // ------------------------------------------------------------ jids

  /** `XMPPJID.bare`: the jid without its resource part. */
  function BareJid(jid: string): (r: string)
    ensures '/' !in r && |r| <= |jid| && r == jid[..|r|]
    ensures '/' !in jid ==> r == jid
  {
    if |jid| == 0 || jid[0] == '/' then ""
    else
      var rest := BareJid(jid[1..]);
      assert jid[1..][..|rest|] == jid[1..|rest| + 1];
      [jid[0]] + rest
  }

  /** A bare jid is its own bare jid. */
  lemma BareJidIdempotent(jid: string)
    ensures BareJid(BareJid(jid)) == BareJid(jid)
  {
  }

  // ------------------------------------------------------------ fetched device lists

  /**
   * The device table after the device-list callback of `fetchDevices`: every
   * fetched id other than this device's own is passed to `addDevice`.
   */
  function AddedDevices(t: OmemoStorage.DeviceTable, ids: seq<int>, jid: string, rid: int): OmemoStorage.DeviceTable
    decreases |ids|
  {
    if |ids| == 0 then t
    else
      var prev := AddedDevices(t, ids[..|ids| - 1], jid, rid);
      var id := ids[|ids| - 1];
      if id == rid || id in prev then prev else prev[id := OmemoDeviceModel.TofuDevice(id, jid)]
  }

  /**
   * Adding a fetched list keeps every stored row as it was (whoever owns
   * it), skips this device's own id, and adds one trusted-on-first-use row
   * owned by `jid` for each other new id.
   */
  lemma {:induction false} AddedDevicesSpec(t: OmemoStorage.DeviceTable, ids: seq<int>, jid: string, rid: int)
    ensures forall k :: k in AddedDevices(t, ids, jid, rid) <==> k in t || (k in ids && k != rid)
    ensures forall k :: k in t ==> AddedDevices(t, ids, jid, rid)[k] == t[k]
    ensures forall k :: k !in t && k in ids && k != rid ==> AddedDevices(t, ids, jid, rid)[k] == OmemoDeviceModel.TofuDevice(k, jid)
    ensures rid !in t ==> rid !in AddedDevices(t, ids, jid, rid)
    ensures OmemoStorage.WellKeyed(t) ==> OmemoStorage.WellKeyed(AddedDevices(t, ids, jid, rid))
    decreases |ids|
  {
    if |ids| > 0 {
      var init := ids[..|ids| - 1];
      AddedDevicesSpec(t, init, jid, rid);
      assert forall k :: k in ids <==> k in init || k == ids[|ids| - 1];
    }
  }

  // ------------------------------------------------------------ inbound body

  /** What the payload of an inbound message decrypts to. */
  datatype BodyOutcome = NoTag | AesFailure | Unreadable | Text(text: string)

  /**
   * Splitting the decrypted key material (with the guarded split), AES-GCM
   * decryption of the body, and UTF-8 decoding; an empty text is unreadable.
   */
  function DecryptBody(platform: Platform, aesKey: Bytes, payload: Bytes, iv: Bytes): (r: BodyOutcome)
    ensures r.NoTag? <==> SplitKeyMaterial(aesKey, payload).None?
    ensures r.AesFailure? <==>
      SplitKeyMaterial(aesKey, payload).Some? &&
      var m := SplitKeyMaterial(aesKey, payload).value; platform.aesDecrypt(m.body, m.key, iv, m.tag).None?
    ensures r.Text? ==>
      var m := SplitKeyMaterial(aesKey, payload).value;
      var plain := platform.aesDecrypt(m.body, m.key, iv, m.tag);
      plain.Some? && plain.value.Some? && platform.utf8Decode(plain.value.value) == Some(r.text) && |r.text| > 0
    ensures SplitKeyMaterial(aesKey, payload).Some? ==>
      var m := SplitKeyMaterial(aesKey, payload).value;
      var plain := platform.aesDecrypt(m.body, m.key, iv, m.tag);
      plain.Some? && plain.value.Some? && platform.utf8Decode(plain.value.value).Some? &&
      |platform.utf8Decode(plain.value.value).value| > 0 ==>
        r == Text(platform.utf8Decode(plain.value.value).value)
  {
    match SplitKeyMaterial(aesKey, payload)
    case None => NoTag
    case Some(m) =>
      match platform.aesDecrypt(m.body, m.key, iv, m.tag)
      case None => AesFailure
      case Some(None) => Unreadable
      case Some(Some(plain)) =>
        match platform.utf8Decode(plain)
        case None => Unreadable
        case Some(text) => if |text| > 0 then Text(text) else Unreadable
  }
}
