/**
 * `OmemoManager`: sends and receives OMEMO messages over the device
 * registry, the Signal store and the message store, publishes this
 * account's bundle, and keeps the one-shot callback tables the OMEMO module
 * answers into. XMPP sends are returned as values; callbacks are recorded
 * by an id and logged when invoked.
 */
module Omemo {
  import opened Wrappers
  import opened Text
  import opened SignalProtocol
  import opened OmemoExtension
  import opened OmemoRules
  import KeyedTable
  import OmemoStorage
  import SignalStorage
  import SignalRecords
  import Signal
  import Entities
  import MessageStorage

  /** What `sendKeyData(_:iv:to:payload:elementId:)` hands to the OMEMO module. */
  datatype KeyDataStanza = KeyDataStanza(keyData: seq<OmemoKeyData>, iv: Bytes, to: string, payload: Bytes, elementId: string)

  /** The parts of an inbound `XMPPMessage` that `processKeyData` reads. */
  datatype InboundMessage = InboundMessage(elementId: Option<string>, to: Option<string>, from: Option<string>)

  /** Where `processKeyData` stopped. */
  datatype ReceiveOutcome =
    | NoPayload
    | NoKey
    | DuplicateIgnored
    | SessionReset(deleted: bool)
    | BadKeyMaterial
    | DecryptionError
    | Dropped
    | FileMessageIgnored
    | Saved(completion: Option<Entities.ChateeMessage>)

  /** One invocation of a registered callback: its id and the success flag it was given. */
  datatype Invocation = Invocation(callback: int, success: bool)

  /** `ids` lists exactly the stored devices of `jid`, in some order. */
  ghost predicate ListsDevices(ids: seq<int>, devices: OmemoStorage.DeviceTable, jid: string)
  {
    forall d :: d in ids <==> d in OmemoStorage.DevicesOf(devices, jid)
  }

  /**
   * `outcome` is what a send pass with the draw `draw` gives, for the stored
   * devices of the recipient `toJid` and of the account `me` (listed in
   * whatever order the store gives them) and this device `rid`.
   */
  ghost predicate PassOutcomeFor(outcome: PassOutcome, text: Option<string>, draw: PassDraw, platform: Platform,
                                 devices: OmemoStorage.DeviceTable, cipher: SessionCipher, toJid: string, me: string, rid: int)
  {
    exists contactDevices: seq<int>, ownDevices: seq<int> ::
      ListsDevices(contactDevices, devices, toJid) && ListsDevices(ownDevices, devices, me) &&
      SendPass(text, draw, platform, devices, cipher, contactDevices, ownDevices, rid) == outcome
  }

  /**
   * A sent stanza carries the GCM ciphertext of the text under the drawn key
   * and iv, and one entry for every reachable device of the recipient and
   * every reachable other device of this account, each entry being that
   * device's Signal encryption of key ‖ tag; there is no other entry.
   */
  lemma SentPassReachesEveryDevice(keyData: seq<OmemoKeyData>, iv: Bytes, payload: Bytes, text: Option<string>, draw: PassDraw,
                                     platform: Platform, devices: OmemoStorage.DeviceTable, cipher: SessionCipher,
                                     toJid: string, me: string, rid: int)
    requires PassOutcomeFor(Send(keyData, iv, payload), text, draw, platform, devices, cipher, toJid, me, rid)
    ensures text.Some? && draw.key.Some? && draw.iv.Some? && platform.utf8Encode(text.value).Some?
    ensures platform.aesEncrypt(platform.utf8Encode(text.value).value, draw.key.value, draw.iv.value).Some?
    ensures var gcm := platform.aesEncrypt(platform.utf8Encode(text.value).value, draw.key.value, draw.iv.value).value;
      var secret := draw.key.value + gcm.authTag;
      iv == draw.iv.value && payload == gcm.data &&
      (forall d :: d in OmemoStorage.DevicesOf(devices, toJid) && Reachable(devices, cipher, secret, d) ==>
         KeyDataForDevice(devices, cipher, secret, d).value in keyData) &&
      (forall d :: d in OmemoStorage.DevicesOf(devices, me) && d != rid && Reachable(devices, cipher, secret, d) ==>
         KeyDataForDevice(devices, cipher, secret, d).value in keyData) &&
      (forall j :: 0 <= j < |keyData| ==>
         KeyDataForDevice(devices, cipher, secret, keyData[j].deviceId) == Some(keyData[j]) &&
         (keyData[j].deviceId in OmemoStorage.DevicesOf(devices, toJid) ||
          (keyData[j].deviceId in OmemoStorage.DevicesOf(devices, me) && keyData[j].deviceId != rid)))
  {
    var contactDevices: seq<int>, ownDevices: seq<int> :|
      ListsDevices(contactDevices, devices, toJid) && ListsDevices(ownDevices, devices, me) &&
      SendPass(text, draw, platform, devices, cipher, contactDevices, ownDevices, rid) == Send(keyData, iv, payload);
    var gcm := platform.aesEncrypt(platform.utf8Encode(text.value).value, draw.key.value, draw.iv.value).value;
    var secret := draw.key.value + gcm.authTag;
    var own := KeyedTable.Without(ownDevices, rid);
    KeyDataForKeepsReachable(devices, cipher, secret, own);
    KeyDataForKeepsReachable(devices, cipher, secret, contactDevices);
    var a := KeyDataFor(devices, cipher, secret, own);
    var b := KeyDataFor(devices, cipher, secret, contactDevices);
    assert keyData == a + b;
    forall d | d in OmemoStorage.DevicesOf(devices, toJid) && Reachable(devices, cipher, secret, d)
      ensures KeyDataForDevice(devices, cipher, secret, d).value in keyData
    {
      var i :| 0 <= i < |contactDevices| && contactDevices[i] == d;
    }
    forall d | d in OmemoStorage.DevicesOf(devices, me) && d != rid && Reachable(devices, cipher, secret, d)
      ensures KeyDataForDevice(devices, cipher, secret, d).value in keyData
    {
      assert d in own;
      var i :| 0 <= i < |own| && own[i] == d;
    }
    forall j | 0 <= j < |keyData|
      ensures KeyDataForDevice(devices, cipher, secret, keyData[j].deviceId) == Some(keyData[j]) &&
              (keyData[j].deviceId in OmemoStorage.DevicesOf(devices, toJid) ||
               (keyData[j].deviceId in OmemoStorage.DevicesOf(devices, me) && keyData[j].deviceId != rid))
    {
      if j < |a| {
        assert keyData[j] == a[j];
      } else {
        assert keyData[j] == b[j - |a|];
      }
    }
  }

  /**
   * The row `encryptAndSendMessage` leaves under the message id: the row
   * stored before, or else the outgoing row its first pass saves; its
   * status becomes `sent` when the message went out.
   */
  function OutgoingRow(before: map<string, MessageStorage.MessageRecord>, message: Entities.OutgoingMessage, me: string,
                       date: Entities.Date, delivered: bool): (row: MessageStorage.MessageRecord)
    ensures message.remoteMessageId !in before ==>
      row.id == message.remoteMessageId && row.room == Some(BareJid(message.toJid)) && row.senderID == me &&
      row.text == (if message.messageText.Some? then message.messageText.value else "") && row.timestamp == date
    ensures message.remoteMessageId in before ==>
      row == before[message.remoteMessageId].(status := row.status)
    ensures delivered ==> row.status == Entities.StatusRaw(Entities.Sent)
    ensures !delivered && message.remoteMessageId in before ==> row == before[message.remoteMessageId]
  {
    var id := message.remoteMessageId;
    var destination := BareJid(message.toJid);
    var text := if message.messageText.Some? then message.messageText.value else "";
    var row := if id in before then before[id]
      else MessageStorage.MessageRecord(id, Some(destination), me, text, None, date,
                                        Entities.StatusRaw(MessageStorage.StoredStatus(Entities.Outgoing, me, destination)));
    if delivered then row.(status := Entities.StatusRaw(Entities.Sent)) else row
  }

  /** A later pass finds the row the first pass saved and leaves it, up to the `sent` mark. */
  lemma OutgoingRowAgain(before: map<string, MessageStorage.MessageRecord>, message: Entities.OutgoingMessage, me: string,
                         date: Entities.Date, delivered: bool)
    ensures var id := message.remoteMessageId;
      var mid := before[id := OutgoingRow(before, message, me, date, false)];
      mid[id := OutgoingRow(mid, message, me, date, delivered)] == before[id := OutgoingRow(before, message, me, date, delivered)]
  {
    var id := message.remoteMessageId;
    var mid := before[id := OutgoingRow(before, message, me, date, false)];
    assert OutgoingRow(mid, message, me, date, delivered) == OutgoingRow(before, message, me, date, delivered);
  }

  /** Marking the saved row `sent` gives the row of a delivered message. */
  lemma OutgoingRowMarked(before: map<string, MessageStorage.MessageRecord>, message: Entities.OutgoingMessage, me: string,
                          date: Entities.Date)
    ensures var id := message.remoteMessageId;
      var mid := before[id := OutgoingRow(before, message, me, date, false)];
      mid[id := mid[id].(status := Entities.StatusRaw(Entities.Sent))] == before[id := OutgoingRow(before, message, me, date, true)]
  {
  }

  /**
   * What `processKeyData` reports once the body has been decrypted into
   * `body`, for the account `me`, with the message and room tables `before`
   * and `after` the call: a split or decryption failure and an unreadable body
   * are reported as such; a body missing its id, sender or recipient is
   * dropped; a text with a file URL is ignored; any other text is saved as
   * `saveMessage` saves it, with no media path, in the room of the room rule,
   * from the bare sender, with the status of the room rule and the date `date`.
   */
  ghost predicate BodyHandled(outcome: ReceiveOutcome, body: BodyOutcome, message: InboundMessage, platform: Platform, me: string,
                              date: Entities.Date,
                              before: map<string, MessageStorage.MessageRecord>, roomsBefore: map<string, MessageStorage.RoomRecord>,
                              after: map<string, MessageStorage.MessageRecord>, roomsAfter: map<string, MessageStorage.RoomRecord>)
  {
    match body
    case NoTag => outcome == BadKeyMaterial
    case AesFailure => outcome == DecryptionError
    case Unreadable => outcome == Dropped
    case Text(t) =>
      if message.elementId.None? || message.to.None? || message.from.None? then outcome == Dropped
      else if platform.hasFileUrl(t) then outcome == FileMessageIgnored
      else
        var fromJid := BareJid(message.from.value);
        var rs := RoomIdAndStatus(me, BareJid(message.to.value), fromJid);
        outcome.Saved? &&
        MessageStorage.Saves(before, roomsBefore, after, roomsAfter, outcome.completion,
                             message.elementId.value, t, None, rs.0, fromJid, rs.1, date)
  }

  /**
   * The prekey table after the top-up of `fetchMyBundle` asked the helper for
   * `requested`: generated keys are written as `generatePreKeys` writes them,
   * up to the first one that does not serialise; nothing is written otherwise.
   */
  ghost function TopUpTable(table: KeyedTable.Table<Bytes>, requested: Option<seq<SignalPreKey>>): KeyedTable.Table<Bytes>
    requires table.Valid()
  {
    if requested.Some? then SignalStorage.PutPreKeys(table, requested.value[..SignalStorage.SerializedPrefix(requested.value)])
    else table
  }

  class OmemoManager {
    const userBareJid: string
    const omemoStorage: OmemoStorage.OmemoStorageManager
    const signalManager: Signal.SignalManager
    const messageStorage: MessageStorage.MessageStorageManager

    /** `outstandingXMPPStanzaResponseBlocks`: bundle-fetch callbacks by element id. */
    var outstandingBundleBlocks: map<string, int>
    var bundleBlockInvocations: seq<Invocation>
    /** `initDeviceIdFetchCallbacks`: the jids `fetchDevices` asked about. */
    var initDeviceIdFetchCallbacks: set<string>
    /** `deviceIdFetchCallbacks`: device-list callbacks of `prepareSession`, by jid. */
    var deviceIdFetchCallbacks: map<string, int>
    var deviceIdFetchInvocations: seq<Invocation>

    ghost predicate Valid()
      reads this, omemoStorage, signalManager, signalManager.storage, messageStorage
    {
      omemoStorage.Valid() && signalManager.Valid() && messageStorage.Valid() &&
      omemoStorage.userBareJid == userBareJid && messageStorage.userBareJid == userBareJid
    }

    constructor (userBareJid: string)
      ensures Valid() && this.userBareJid == userBareJid
      ensures fresh(omemoStorage) && fresh(signalManager) && fresh(signalManager.storage) && fresh(messageStorage)
      ensures outstandingBundleBlocks == map[] && deviceIdFetchCallbacks == map[] && initDeviceIdFetchCallbacks == {}
    {
      this.userBareJid := userBareJid;
      omemoStorage := new OmemoStorage.OmemoStorageManager(userBareJid);
      signalManager := new Signal.SignalManager();
      messageStorage := new MessageStorage.MessageStorageManager(userBareJid);
      outstandingBundleBlocks := map[];
      bundleBlockInvocations := [];
      initDeviceIdFetchCallbacks := {};
      deviceIdFetchCallbacks := map[];
      deviceIdFetchInvocations := [];
    }

    // ---------------------------------------------------------- callbacks

    /** `callAndRemoveOutstandingBundleBlock(_:success:)`. */
    method CallAndRemoveOutstandingBundleBlock(elementId: string, success: bool)
      modifies this
      ensures (outstandingBundleBlocks, CallAndRemove(old(outstandingBundleBlocks), elementId).1) ==
              CallAndRemove(old(outstandingBundleBlocks), elementId)
      ensures bundleBlockInvocations == old(bundleBlockInvocations) +
        (if elementId in old(outstandingBundleBlocks) then [Invocation(old(outstandingBundleBlocks)[elementId], success)] else [])
      ensures initDeviceIdFetchCallbacks == old(initDeviceIdFetchCallbacks) && deviceIdFetchCallbacks == old(deviceIdFetchCallbacks)
      ensures deviceIdFetchInvocations == old(deviceIdFetchInvocations)
    {
      var (rest, block) := CallAndRemove(outstandingBundleBlocks, elementId);
      if block.None? {
        return;
      }
      bundleBlockInvocations := bundleBlockInvocations + [Invocation(block.value, success)];
      outstandingBundleBlocks := rest;
    }

    /**
     * `callAndRemoveOutstandingDeviceIdFetch(_:success:)`: the callback is
     * invoked with an empty list, which adds no device, and removed.
     */
    method CallAndRemoveOutstandingDeviceIdFetch(jid: string, success: bool)
      modifies this
      ensures (deviceIdFetchCallbacks, CallAndRemove(old(deviceIdFetchCallbacks), jid).1) == CallAndRemove(old(deviceIdFetchCallbacks), jid)
      ensures deviceIdFetchInvocations == old(deviceIdFetchInvocations) +
        (if jid in old(deviceIdFetchCallbacks) then [Invocation(old(deviceIdFetchCallbacks)[jid], success)] else [])
      ensures outstandingBundleBlocks == old(outstandingBundleBlocks) && bundleBlockInvocations == old(bundleBlockInvocations)
      ensures initDeviceIdFetchCallbacks == old(initDeviceIdFetchCallbacks)
    {
      var (rest, block) := CallAndRemove(deviceIdFetchCallbacks, jid);
      if block.None? {
        return;
      }
      deviceIdFetchInvocations := deviceIdFetchInvocations + [Invocation(block.value, success)];
      deviceIdFetchCallbacks := rest;
    }

    /** The registration `prepareSession` makes for each bundle it requests. */
    method AwaitBundle(elementId: string, callback: int)
      modifies this
      ensures outstandingBundleBlocks == old(outstandingBundleBlocks)[elementId := callback]
      ensures bundleBlockInvocations == old(bundleBlockInvocations)
      ensures deviceIdFetchCallbacks == old(deviceIdFetchCallbacks) && initDeviceIdFetchCallbacks == old(initDeviceIdFetchCallbacks)
      ensures deviceIdFetchInvocations == old(deviceIdFetchInvocations)
    {
      outstandingBundleBlocks := outstandingBundleBlocks[elementId := callback];
    }

    /** The registration `prepareSession` makes when it must fetch a device list first. */
    method AwaitDeviceIds(jid: string, callback: int)
      modifies this
      ensures deviceIdFetchCallbacks == old(deviceIdFetchCallbacks)[jid := callback]
      ensures deviceIdFetchInvocations == old(deviceIdFetchInvocations)
      ensures outstandingBundleBlocks == old(outstandingBundleBlocks) && initDeviceIdFetchCallbacks == old(initDeviceIdFetchCallbacks)
      ensures bundleBlockInvocations == old(bundleBlockInvocations)
    {
      deviceIdFetchCallbacks := deviceIdFetchCallbacks[jid := callback];
    }

    // ---------------------------------------------------------- device lists

    /** `fetchDevices(forJid:)`: registers the callback that stores the fetched list (the request itself is I/O). */
    method FetchDevices(jid: string)
      modifies this
      ensures initDeviceIdFetchCallbacks == old(initDeviceIdFetchCallbacks) + {jid}
      ensures outstandingBundleBlocks == old(outstandingBundleBlocks) && deviceIdFetchCallbacks == old(deviceIdFetchCallbacks)
      ensures bundleBlockInvocations == old(bundleBlockInvocations) && deviceIdFetchInvocations == old(deviceIdFetchInvocations)
    {
      initDeviceIdFetchCallbacks := initDeviceIdFetchCallbacks + {jid};
    }

    /** `checkIfDevicesExistsFor(forJid:)`. */
    function CheckIfDevicesExistsFor(jid: string): (r: bool)
      reads omemoStorage
      ensures r <==> OmemoStorage.DevicesOf(omemoStorage.devices, BareJid(jid)) != {}
    {
      omemoStorage.CheckIfDevicesAreStored(BareJid(jid))
    }

    /** The body of the device-list callbacks: `addDevice` for every fetched id other than this device's. */
    method AddFetchedDevices(deviceIds: seq<int>, jid: string, rid: int)
      requires Valid()
      modifies omemoStorage
      ensures Valid()
      ensures omemoStorage.devices == AddedDevices(old(omemoStorage.devices), deviceIds, jid, rid)
    {
      var i := 0;
      while i < |deviceIds|
        invariant 0 <= i <= |deviceIds|
        invariant Valid()
        invariant omemoStorage.devices == AddedDevices(old(omemoStorage.devices), deviceIds[..i], jid, rid)
      {
        assert deviceIds[..i + 1][..i] == deviceIds[..i];
        if rid != deviceIds[i] {
          omemoStorage.AddDevice(jid, deviceIds[i]);
        }
        i := i + 1;
      }
      assert deviceIds[..|deviceIds|] == deviceIds;
    }

    /**
     * `omemo(_:deviceListUpdate:from:incomingElement:)`: runs the
     * `fetchDevices` callback for the jid, which adds the devices and then
     * clears the `prepareSession` callback of the same jid before that one
     * is looked up; then runs the `prepareSession` callback, if one is
     * still there; then answers the bundle block of the element id with
     * success. The callbacks read this device's registration id, which may
     * create the identity, only when they have an id to compare.
     */
    method DeviceListUpdate(deviceIds: seq<int>, fromJid: string, elementId: Option<string>, storageKeyHelper: Option<SignalKeyHelper>)
      requires Valid()
      modifies this, omemoStorage, signalManager.storage
      ensures Valid()
      ensures signalManager.storage.identity ==
        if (fromJid in old(initDeviceIdFetchCallbacks) || fromJid in old(deviceIdFetchCallbacks)) && |deviceIds| > 0
        then SignalStorage.IdentityAfter(old(signalManager.storage.identity), storageKeyHelper)
        else old(signalManager.storage.identity)
      ensures var rid := SignalStorage.RegistrationIdOf(signalManager.storage.identity);
        omemoStorage.devices ==
          if fromJid in old(initDeviceIdFetchCallbacks) || fromJid in old(deviceIdFetchCallbacks)
          then AddedDevices(old(omemoStorage.devices), deviceIds, BareJid(fromJid), rid)
          else old(omemoStorage.devices)
      ensures deviceIdFetchCallbacks == old(deviceIdFetchCallbacks) - {fromJid}
      ensures fromJid in old(initDeviceIdFetchCallbacks) ==> deviceIdFetchInvocations == old(deviceIdFetchInvocations)
      ensures fromJid !in old(initDeviceIdFetchCallbacks) ==>
        deviceIdFetchInvocations == old(deviceIdFetchInvocations) +
          (if fromJid in old(deviceIdFetchCallbacks) then [Invocation(old(deviceIdFetchCallbacks)[fromJid], true)] else [])
      ensures initDeviceIdFetchCallbacks == old(initDeviceIdFetchCallbacks)
      ensures elementId.None? ==>
        outstandingBundleBlocks == old(outstandingBundleBlocks) && bundleBlockInvocations == old(bundleBlockInvocations)
      ensures elementId.Some? ==>
        outstandingBundleBlocks == old(outstandingBundleBlocks) - {elementId.value} &&
        bundleBlockInvocations == old(bundleBlockInvocations) +
          (if elementId.value in old(outstandingBundleBlocks) then [Invocation(old(outstandingBundleBlocks)[elementId.value], true)] else [])
      ensures signalManager.storage.preKeys == old(signalManager.storage.preKeys)
      ensures signalManager.storage.sessions == old(signalManager.storage.sessions)
    {
      if (fromJid in initDeviceIdFetchCallbacks || fromJid in deviceIdFetchCallbacks) && |deviceIds| > 0 {
        var rid := signalManager.storage.GetLocalRegistrationId(storageKeyHelper);
        AddFetchedDevices(deviceIds, BareJid(fromJid), rid);
      }
      if fromJid in initDeviceIdFetchCallbacks {
        deviceIdFetchCallbacks := deviceIdFetchCallbacks - {fromJid};
      } else if fromJid in deviceIdFetchCallbacks {
        deviceIdFetchInvocations := deviceIdFetchInvocations + [Invocation(deviceIdFetchCallbacks[fromJid], true)];
        deviceIdFetchCallbacks := deviceIdFetchCallbacks - {fromJid};
      }
      if elementId.Some? {
        CallAndRemoveOutstandingBundleBlock(elementId.value, true);
      }
    }

    /** `omemo(_:failedToFetchDeviceIdsFor:…)`: both pending callbacks are answered with failure. */
    method FailedToFetchDeviceIds(fromJid: string, outgoingElementId: Option<string>)
      modifies this
      ensures deviceIdFetchCallbacks == old(deviceIdFetchCallbacks) - {fromJid}
      ensures deviceIdFetchInvocations == old(deviceIdFetchInvocations) +
        (if fromJid in old(deviceIdFetchCallbacks) then [Invocation(old(deviceIdFetchCallbacks)[fromJid], false)] else [])
      ensures outgoingElementId.None? ==>
        outstandingBundleBlocks == old(outstandingBundleBlocks) && bundleBlockInvocations == old(bundleBlockInvocations)
      ensures outgoingElementId.Some? ==>
        outstandingBundleBlocks == old(outstandingBundleBlocks) - {outgoingElementId.value} &&
        bundleBlockInvocations == old(bundleBlockInvocations) +
          (if outgoingElementId.value in old(outstandingBundleBlocks)
           then [Invocation(old(outstandingBundleBlocks)[outgoingElementId.value], false)] else [])
      ensures initDeviceIdFetchCallbacks == old(initDeviceIdFetchCallbacks)
    {
      CallAndRemoveOutstandingDeviceIdFetch(fromJid, false);
      if outgoingElementId.Some? {
        CallAndRemoveOutstandingBundleBlock(outgoingElementId.value, false);
      }
    }

    /** `storeDeviceIds(_:for:)`: only this account's own list is reconciled; every list answers the pending fetch. */
    method StoreDeviceIds(deviceIds: seq<int>, jid: string)
      requires Valid()
      modifies this, omemoStorage
      ensures Valid()
      ensures omemoStorage.devices ==
        if BareJid(jid) == userBareJid then OmemoStorage.StoreDevicesResult(old(omemoStorage.devices), deviceIds, userBareJid)
        else old(omemoStorage.devices)
      ensures deviceIdFetchCallbacks == old(deviceIdFetchCallbacks) - {jid}
      ensures deviceIdFetchInvocations == old(deviceIdFetchInvocations) +
        (if jid in old(deviceIdFetchCallbacks) then [Invocation(old(deviceIdFetchCallbacks)[jid], true)] else [])
      ensures outstandingBundleBlocks == old(outstandingBundleBlocks)
    {
      if BareJid(jid) == userBareJid {
        omemoStorage.StoreThisUserDevices(deviceIds);
      }
      CallAndRemoveOutstandingDeviceIdFetch(jid, true);
    }

    /** `fetchDeviceIds(for:)`: the stored devices of the jid, for this account as for a contact. */
    method FetchDeviceIds(jid: string) returns (ids: seq<int>)
      requires Valid()
      ensures forall i :: 0 <= i < |ids| ==> ids[i] in OmemoStorage.DevicesOf(omemoStorage.devices, BareJid(jid))
      ensures forall k :: k in OmemoStorage.DevicesOf(omemoStorage.devices, BareJid(jid)) ==> k in ids
      ensures forall i, j :: 0 <= i < j < |ids| ==> ids[i] != ids[j]
    {
      if BareJid(jid) == userBareJid {
        ids := omemoStorage.GetDevicesForThisAccount();
      } else {
        ids := omemoStorage.GetDevicesForJid(BareJid(jid));
      }
    }

    // ---------------------------------------------------------- sending

    /** `encryptPayloadWithSignalForDevice(_:payload:)`. */
    function EncryptPayloadWithSignalForDevice(cipher: SessionCipher, deviceId: int, payload: Bytes): (r: Option<OmemoKeyData>)
      reads omemoStorage
      ensures r == KeyDataForDevice(omemoStorage.devices, cipher, payload, deviceId)
    {
      match omemoStorage.FetchUserForDeviceId(deviceId)
      case None => None
      case Some(user) =>
        match Signal.EncryptToAddress(cipher, payload, user, deviceId)
        case Failure(_) => None
        case Success(ct) => Some(OmemoKeyData(deviceId, ct.data, ct.kind == PreKeyMessage))
    }

    /**
     * `encryptAndSendMessage(_:noOfAttempts:completion:)`. The message is
     * saved as outgoing on every pass; a pass either gives up without a
     * completion, retries with `noOfAttempts + 1`, or sends and completes
     * with success; a call at the ceiling completes with failure. Pass `n`
     * uses the random draws `draws(n)`. The ghost results name the attempt,
     * its draw, the device table and the registration id a sent stanza was
     * built from.
     */
    method EncryptAndSendMessage(message: Entities.OutgoingMessage, noOfAttempts: int, draws: int -> PassDraw, platform: Platform,
                                 cipher: SessionCipher, storageKeyHelper: Option<SignalKeyHelper>, date: Entities.Date)
      returns (completion: Option<bool>, sent: Option<KeyDataStanza>, passes: nat, ghost drawn: PassDraw,
               ghost devices: OmemoStorage.DeviceTable, ghost rid: int, ghost lastAttempt: int)
      requires Valid()
      modifies messageStorage, signalManager.storage
      ensures Valid()
      ensures passes <= PassesLeft(noOfAttempts)
      ensures noOfAttempts >= AttemptCeiling ==>
        completion == Some(false) && sent.None? && passes == 0 &&
        messageStorage.messages == old(messageStorage.messages) && signalManager.storage.identity == old(signalManager.storage.identity)
      ensures noOfAttempts < AttemptCeiling ==>
        passes > 0 &&
        messageStorage.messages ==
          old(messageStorage.messages)[message.remoteMessageId :=
            OutgoingRow(old(messageStorage.messages), message, userBareJid, date, sent.Some?)]
      ensures noOfAttempts < AttemptCeiling ==>
        signalManager.storage.identity == SignalStorage.IdentityAfter(old(signalManager.storage.identity), storageKeyHelper)
      ensures completion == Some(true) <==> sent.Some?
      ensures sent.Some? ==>
        |sent.value.keyData| > 0 && sent.value.to == message.toJid && sent.value.elementId == message.remoteMessageId
      ensures sent.Some? ==> lastAttempt == noOfAttempts + passes - 1 && drawn == draws(lastAttempt)
      ensures devices == omemoStorage.devices && rid == SignalStorage.RegistrationIdOf(signalManager.storage.identity)
      ensures sent.Some? ==>
        PassOutcomeFor(Send(sent.value.keyData, sent.value.iv, sent.value.payload), message.messageText,
                       drawn, platform, devices, cipher, BareJid(message.toJid), userBareJid, rid)
      ensures signalManager.storage.preKeys == old(signalManager.storage.preKeys)
      ensures signalManager.storage.signedPreKeys == old(signalManager.storage.signedPreKeys)
      ensures signalManager.storage.sessions == old(signalManager.storage.sessions)
      decreases AttemptCeiling - noOfAttempts
    {
      if noOfAttempts >= AttemptCeiling {
        return Some(false), None, 0, draws(noOfAttempts), omemoStorage.devices,
          SignalStorage.RegistrationIdOf(signalManager.storage.identity), noOfAttempts;
      }
      lastAttempt := noOfAttempts;
      var outcome;
      var draw := draws(noOfAttempts);
      drawn := draw;
      outcome, devices, rid := SendOnePass(message, draw, platform, cipher, storageKeyHelper, date);
      if outcome.Abandon? {
        return None, None, 1, drawn, devices, rid, lastAttempt;
      } else if outcome.Retry? {
        var more: nat;
        completion, sent, more, drawn, devices, rid, lastAttempt :=
          EncryptAndSendMessage(message, noOfAttempts + 1, draws, platform, cipher, storageKeyHelper, date);
        passes := 1 + more;
        OutgoingRowAgain(old(messageStorage.messages), message, userBareJid, date, sent.Some?);
      } else {
        sent := FinishSend(outcome, message, date);
        completion := Some(true);
        OutgoingRowMarked(old(messageStorage.messages), message, userBareJid, date);
        passes := 1;
      }
    }

    /** The end of a sending pass: the stanza is emitted and the message marked `sent`. */
    method FinishSend(outcome: PassOutcome, message: Entities.OutgoingMessage, date: Entities.Date)
      returns (sent: Option<KeyDataStanza>)
      requires Valid() && outcome.Send?
      modifies messageStorage
      ensures Valid()
      ensures sent == Some(KeyDataStanza(outcome.keyData, outcome.iv, message.toJid, outcome.payload, message.remoteMessageId))
      ensures message.remoteMessageId in old(messageStorage.messages) ==>
        messageStorage.messages ==
          old(messageStorage.messages)[message.remoteMessageId :=
            old(messageStorage.messages)[message.remoteMessageId].(status := Entities.StatusRaw(Entities.Sent))]
      ensures message.remoteMessageId !in old(messageStorage.messages) ==>
        messageStorage.messages == old(messageStorage.messages)
    {
      sent := Some(KeyDataStanza(outcome.keyData, outcome.iv, message.toJid, outcome.payload, message.remoteMessageId));
      var _, _ := messageStorage.MarkMessageAs(Entities.Sent, message.remoteMessageId, date);
    }

    /**
     * One pass of `encryptAndSendMessage` below the ceiling: the message is
     * saved as outgoing, and the pass outcome is computed over the devices
     * of the recipient and of this account.
     */
    method SendOnePass(message: Entities.OutgoingMessage, draw: PassDraw, platform: Platform, cipher: SessionCipher,
                       storageKeyHelper: Option<SignalKeyHelper>, date: Entities.Date)
      returns (outcome: PassOutcome, ghost devices: OmemoStorage.DeviceTable, ghost rid: int)
      requires Valid()
      modifies messageStorage, signalManager.storage
      ensures Valid()
      ensures messageStorage.messages ==
        old(messageStorage.messages)[message.remoteMessageId :=
          OutgoingRow(old(messageStorage.messages), message, userBareJid, date, false)]
      ensures signalManager.storage.identity == SignalStorage.IdentityAfter(old(signalManager.storage.identity), storageKeyHelper)
      ensures devices == omemoStorage.devices && rid == SignalStorage.RegistrationIdOf(signalManager.storage.identity)
      ensures PassOutcomeFor(outcome, message.messageText, draw, platform, devices, cipher, BareJid(message.toJid), userBareJid, rid)
      ensures outcome.Send? ==> |outcome.keyData| > 0
      ensures signalManager.storage.preKeys == old(signalManager.storage.preKeys)
      ensures signalManager.storage.signedPreKeys == old(signalManager.storage.signedPreKeys)
      ensures signalManager.storage.sessions == old(signalManager.storage.sessions)
    {
      var destination := BareJid(message.toJid);
      var text := if message.messageText.Some? then message.messageText.value else "";
      var _ := messageStorage.SaveMessage(message.remoteMessageId, text, None, destination, userBareJid, Entities.Outgoing, date);
      if message.remoteMessageId in old(messageStorage.messages) {
        assert messageStorage.messages == old(messageStorage.messages)[message.remoteMessageId := old(messageStorage.messages)[message.remoteMessageId]];
      }
      var registrationId := signalManager.storage.GetLocalRegistrationId(storageKeyHelper);
      var contactDevices := omemoStorage.GetDevicesForJid(destination);
      var ownDevices := omemoStorage.GetDevicesForThisAccount();
      outcome := SendPass(message.messageText, draw, platform, omemoStorage.devices, cipher, contactDevices, ownDevices, registrationId);
      devices, rid := omemoStorage.devices, registrationId;
      assert ListsDevices(contactDevices, omemoStorage.devices, destination);
      assert ListsDevices(ownDevices, omemoStorage.devices, userBareJid);
    }

    // ---------------------------------------------------------- receiving

    /**
     * `processKeyData(_:iv:senderDeviceId:forJID:payload:…)`. An unknown
     * sender device (not this one) is added first. Only the first key entry
     * for this device is tried: a duplicate-message error returns with the
     * sessions untouched, any other error deletes the sender device's
     * session and returns. The decrypted key is split with the guarded
     * split, the body decrypted, and a text message saved in the room the
     * room rule picks; file messages are not saved.
     */
    method ProcessKeyData(keyData: seq<OmemoKeyData>, iv: Bytes, senderDeviceId: int, forJid: string, payload: Option<Bytes>,
                          isIncoming: bool, message: InboundMessage, platform: Platform, cipher: SessionCipher,
                          storageKeyHelper: Option<SignalKeyHelper>, date: Entities.Date) returns (outcome: ReceiveOutcome)
      requires Valid()
      modifies omemoStorage, signalManager.storage, messageStorage
      ensures Valid()
      ensures signalManager.storage.identity ==
        if senderDeviceId !in old(omemoStorage.devices) || (payload.Some? && |payload.value| > 0)
        then SignalStorage.IdentityAfter(old(signalManager.storage.identity), storageKeyHelper)
        else old(signalManager.storage.identity)
      ensures var rid := SignalStorage.RegistrationIdOf(signalManager.storage.identity);
        omemoStorage.devices ==
          if senderDeviceId in old(omemoStorage.devices) || senderDeviceId == rid then old(omemoStorage.devices)
          else old(omemoStorage.devices)[senderDeviceId := OmemoDeviceModel.TofuDevice(senderDeviceId, forJid)]
      ensures payload.None? || |payload.value| == 0 ==> outcome == NoPayload
      ensures payload.Some? && |payload.value| > 0 ==>
        var rid := SignalStorage.RegistrationIdOf(signalManager.storage.identity);
        var addressJid := if isIncoming then forJid else userBareJid;
        match InboundKey(cipher, keyData, rid, addressJid, senderDeviceId)
        case NoEntry => outcome == NoKey
        case KeyFailure(err) =>
          if err == DuplicateMessage then outcome == DuplicateIgnored
          else outcome == SessionReset(senderDeviceId in old(signalManager.storage.sessions))
        case Key(k) =>
          BodyHandled(outcome, DecryptBody(platform, k, payload.value, iv), message, platform, userBareJid, date,
                      old(messageStorage.messages), old(messageStorage.rooms), messageStorage.messages, messageStorage.rooms)
      ensures signalManager.storage.sessions ==
        if outcome.SessionReset? then old(signalManager.storage.sessions) - {senderDeviceId} else old(signalManager.storage.sessions)
      ensures !outcome.Saved? ==> messageStorage.messages == old(messageStorage.messages) && messageStorage.rooms == old(messageStorage.rooms)
      ensures signalManager.storage.preKeys == old(signalManager.storage.preKeys)
      ensures signalManager.storage.signedPreKeys == old(signalManager.storage.signedPreKeys)
    {
      if !omemoStorage.CheckIfDeviceIsStored(senderDeviceId) {
        var ownId := signalManager.storage.GetLocalRegistrationId(storageKeyHelper);
        if ownId != senderDeviceId {
          omemoStorage.AddDevice(forJid, senderDeviceId);
        }
      }
      if payload.None? || |payload.value| == 0 {
        return NoPayload;
      }
      var rid := signalManager.storage.GetLocalRegistrationId(storageKeyHelper);
      var encryptedPayload := payload.value;
      var addressJid := if isIncoming then forJid else userBareJid;

      var found, deleted := UnlockMessageKey(keyData, rid, addressJid, senderDeviceId, cipher);
      match found
      case NoEntry =>
        return NoKey;
      case KeyFailure(err) =>
        if err == DuplicateMessage {
          return DuplicateIgnored;
        }
        return SessionReset(deleted);
      case Key(aesKey) =>
        outcome := HandleBody(aesKey, encryptedPayload, iv, message, platform, date);
    }

    /**
     * The key loop of `processKeyData`: only the first entry for `rid` is
     * decrypted from the sender's address. A duplicate-message error leaves
     * the sessions as they are; any other error deletes the sender device's
     * session, reporting whether there was one.
     */
    method UnlockMessageKey(keyData: seq<OmemoKeyData>, rid: int, addressJid: string, senderDeviceId: int, cipher: SessionCipher)
      returns (found: KeyOutcome, deleted: bool)
      requires Valid()
      modifies signalManager.storage
      ensures Valid()
      ensures found == InboundKey(cipher, keyData, rid, addressJid, senderDeviceId)
      ensures signalManager.storage.sessions ==
        if found.KeyFailure? && found.error != DuplicateMessage then old(signalManager.storage.sessions) - {senderDeviceId}
        else old(signalManager.storage.sessions)
      ensures found.KeyFailure? && found.error != DuplicateMessage ==> deleted == (senderDeviceId in old(signalManager.storage.sessions))
      ensures signalManager.storage.identity == old(signalManager.storage.identity)
      ensures signalManager.storage.preKeys == old(signalManager.storage.preKeys)
      ensures signalManager.storage.signedPreKeys == old(signalManager.storage.signedPreKeys)
    {
      deleted := false;
      var i := 0;
      while i < |keyData|
        invariant 0 <= i <= |keyData|
        invariant forall j :: 0 <= j < i ==> keyData[j].deviceId != rid
      {
        if keyData[i].deviceId == rid {
          assert FirstEntryFor(keyData, rid) == Some(i) by {
            var f := FirstEntryFor(keyData, rid);
            assert AddressedTo(keyData, rid);
            assert f.Some? && keyData[f.value].deviceId == rid;
            assert !(f.value < i) && !(f.value > i);
          }
          var decrypted := Signal.DecryptFromAddress(cipher, keyData[i].data, addressJid, senderDeviceId);
          if decrypted.Success? {
            return Key(decrypted.value), false;
          }
          found := KeyFailure(decrypted.error);
          if decrypted.error == DuplicateMessage {
            return;
          }
          var buddyAddress := SignalAddress(addressJid, senderDeviceId);
          if signalManager.storage.SessionRecordExists(buddyAddress) {
            deleted := signalManager.storage.DeleteSessionRecord(buddyAddress);
          } else {
            assert signalManager.storage.sessions == signalManager.storage.sessions - {senderDeviceId};
          }
          return;
        }
        i := i + 1;
      }
      assert !AddressedTo(keyData, rid);
      found := NoEntry;
    }

    /**
     * The part of `processKeyData` after the message key is found: the key is
     * split, the body decrypted, and a text message without a file URL saved
     * in the room the room rule picks.
     */
    method HandleBody(aesKey: Bytes, encryptedPayload: Bytes, iv: Bytes, message: InboundMessage, platform: Platform,
                      date: Entities.Date) returns (outcome: ReceiveOutcome)
      requires Valid()
      modifies messageStorage
      ensures Valid()
      ensures BodyHandled(outcome, DecryptBody(platform, aesKey, encryptedPayload, iv), message, platform, userBareJid, date,
                          old(messageStorage.messages), old(messageStorage.rooms), messageStorage.messages, messageStorage.rooms)
      ensures !outcome.Saved? ==> messageStorage.messages == old(messageStorage.messages) && messageStorage.rooms == old(messageStorage.rooms)
    {
      match DecryptBody(platform, aesKey, encryptedPayload, iv)
      case NoTag =>
        return BadKeyMaterial;
      case AesFailure =>
        return DecryptionError;
      case Unreadable =>
        return Dropped;
      case Text(messageString) =>
        if message.elementId.None? || message.to.None? || message.from.None? {
          return Dropped;
        }
        var messageID := message.elementId.value;
        var toJid := BareJid(message.to.value);
        var fromJid := BareJid(message.from.value);
        var (roomID, status) := RoomIdAndStatus(userBareJid, toJid, fromJid);
        if platform.hasFileUrl(messageString) {
          return FileMessageIgnored;
        }
        var saved := messageStorage.SaveMessage(messageID, messageString, None, roomID, fromJid, status, date);
        outcome := Saved(saved);
    }

    /** `omemo(_:receivedKeyData:…)`: inbound when the sender is not this account. */
    method ReceivedKeyData(keyData: seq<OmemoKeyData>, iv: Bytes, senderDeviceId: int, fromJid: string, payload: Option<Bytes>,
                           message: InboundMessage, platform: Platform, cipher: SessionCipher,
                           storageKeyHelper: Option<SignalKeyHelper>, date: Entities.Date) returns (outcome: ReceiveOutcome)
      requires Valid()
      modifies omemoStorage, signalManager.storage, messageStorage
      ensures Valid()
      ensures signalManager.storage.identity ==
        if senderDeviceId !in old(omemoStorage.devices) || (payload.Some? && |payload.value| > 0)
        then SignalStorage.IdentityAfter(old(signalManager.storage.identity), storageKeyHelper)
        else old(signalManager.storage.identity)
      ensures payload.None? ==> outcome == NoPayload
    {
      outcome := ProcessKeyData(keyData, iv, senderDeviceId, BareJid(fromJid), payload, BareJid(fromJid) != userBareJid, message,
                                platform, cipher, storageKeyHelper, date);
    }

    /** `omemo(_:receivedForwardedKeyData:…)`: a forwarded message is processed only when its id is not stored yet. */
    method ReceivedForwardedKeyData(keyData: seq<OmemoKeyData>, iv: Bytes, senderDeviceId: int, forJid: string, payload: Option<Bytes>,
                                    isIncoming: bool, forwardedMessage: InboundMessage, platform: Platform, cipher: SessionCipher,
                                    storageKeyHelper: Option<SignalKeyHelper>, date: Entities.Date) returns (outcome: Option<ReceiveOutcome>)
      requires Valid()
      modifies omemoStorage, signalManager.storage, messageStorage
      ensures Valid()
      ensures outcome.None? <==>
        forwardedMessage.elementId.None? || forwardedMessage.elementId.value in old(messageStorage.messages)
      ensures outcome.None? ==>
        messageStorage.messages == old(messageStorage.messages) &&
        omemoStorage.devices == old(omemoStorage.devices) && signalManager.storage.sessions == old(signalManager.storage.sessions)
    {
      if forwardedMessage.elementId.None? || messageStorage.CheckIfMessageExists(forwardedMessage.elementId.value) {
        return None;
      }
      var r := ProcessKeyData(keyData, iv, senderDeviceId, BareJid(forJid), payload, isIncoming, forwardedMessage,
                              platform, cipher, storageKeyHelper, date);
      outcome := Some(r);
    }

    // ---------------------------------------------------------- this account's bundle

    /**
     * The prekey top-up of `fetchMyBundle`: when the bundle has fewer than
     * 100 prekeys, the missing number is generated from one past the last
     * stored prekey id (0 when none is stored) and appended.
     */
    method TopUpBundle(bundle: OmemoBundle, keyHelper: Option<SignalKeyHelper>) returns (r: OmemoBundle, start: Option<int>)
      requires Valid()
      modifies signalManager.storage
      ensures Valid()
      ensures KeysToGenerate(|bundle.preKeys|) <= 0 ==> start.None? && r == bundle
      ensures KeysToGenerate(|bundle.preKeys|) > 0 ==> start == Some(TopUpStart(old(signalManager.storage.CurrentMaxPreKeyId())))
      ensures r == ToppedUp(bundle, if start.Some? then Signal.RequestedPreKeys(keyHelper, start.value, KeysToGenerate(|bundle.preKeys|)) else None)
      ensures signalManager.storage.preKeys ==
        TopUpTable(old(signalManager.storage.preKeys),
                   if start.Some? then Signal.RequestedPreKeys(keyHelper, start.value, KeysToGenerate(|bundle.preKeys|)) else None)
      ensures signalManager.storage.identity == old(signalManager.storage.identity)
      ensures signalManager.storage.signedPreKeys == old(signalManager.storage.signedPreKeys)
      ensures signalManager.storage.sessions == old(signalManager.storage.sessions)
    {
      var keysToGenerate := KeysToGenerate(|bundle.preKeys|);
      if keysToGenerate <= 0 {
        assert ToppedUp(bundle, None) == bundle;
        return bundle, None;
      }
      var s := TopUpStart(signalManager.storage.CurrentMaxPreKeyId());
      var newPreKeys := signalManager.GeneratePreKeys(keyHelper, s, keysToGenerate);
      var preKeys := bundle.preKeys;
      if newPreKeys.Some? {
        var omemoKeys := PreKeysFromSignal(newPreKeys.value);
        preKeys := preKeys + omemoKeys;
      }
      r := CopyBundle(bundle, preKeys);
      start := Some(s);
    }

    /**
     * `fetchMyBundle()`: the bundle stored for this account, or else up to
     * 50 attempts to generate one (attempt `n` with key helper
     * `keyHelpers(n)`), topped up to 100 prekeys; nil when every attempt
     * fails. The bundle always carries this account's identity key and its
     * registration id as device id. `foundTable` (ghost) is the prekey table
     * once the bundle is found, before the top-up writes to it.
     */
    method FetchMyBundle(codec: SignalCodec, keyHelpers: int -> Option<SignalKeyHelper>, storageKeyHelper: Option<SignalKeyHelper>,
                         topUpKeyHelper: Option<SignalKeyHelper>)
      returns (r: Option<OmemoBundle>, found: Option<OmemoBundle>, tries: nat, topUpStart: Option<int>,
               ghost foundTable: KeyedTable.Table<Bytes>)
      requires Valid()
      requires signalManager.storage.identity.Some? || storageKeyHelper.Some?
      modifies signalManager.storage
      ensures Valid()
      ensures tries <= MaxBundleTries
      ensures old(signalManager.storage.FetchThisUserExistingBundle(codec)).Success? ==>
        tries == 0 && found == Some(old(signalManager.storage.FetchThisUserExistingBundle(codec)).value)
      ensures found.None? ==> tries == MaxBundleTries && r.None?
      ensures signalManager.storage.identity == SignalStorage.IdentityAfter(old(signalManager.storage.identity), storageKeyHelper)
      ensures found.Some? ==>
        r.Some? &&
        found.value.deviceId == signalManager.storage.identity.value.registrationId &&
        found.value.identityKey == signalManager.storage.identity.value.publicKey
      ensures r.Some? ==>
        r.value.deviceId == found.value.deviceId && r.value.identityKey == found.value.identityKey &&
        r.value.signedPreKey == found.value.signedPreKey &&
        |found.value.preKeys| <= |r.value.preKeys| && r.value.preKeys[..|found.value.preKeys|] == found.value.preKeys
      ensures r.Some? && |found.value.preKeys| >= PreKeyPoolSize ==> r == found
      ensures r.Some? ==>
        (topUpStart.Some? <==> KeysToGenerate(|found.value.preKeys|) > 0) &&
        r.value == ToppedUp(found.value,
                            if topUpStart.Some? then Signal.RequestedPreKeys(topUpKeyHelper, topUpStart.value, KeysToGenerate(|found.value.preKeys|))
                            else None)
      ensures r.None? ==> topUpStart.None?
      ensures tries == 0 && topUpStart.Some? ==> topUpStart == Some(TopUpStart(old(signalManager.storage.CurrentMaxPreKeyId())))
      ensures foundTable.Valid() && (tries == 0 ==> foundTable == old(signalManager.storage.preKeys))
      ensures signalManager.storage.preKeys ==
        TopUpTable(foundTable,
                   if topUpStart.Some? then Signal.RequestedPreKeys(topUpKeyHelper, topUpStart.value, KeysToGenerate(|found.value.preKeys|))
                   else None)
      ensures signalManager.storage.sessions == old(signalManager.storage.sessions)
    {
      found, tries := FindOrGenerateBundle(codec, keyHelpers, storageKeyHelper);
      foundTable := signalManager.storage.preKeys;
      if found.None? {
        return None, None, tries, None, foundTable;
      }
      var published;
      published, topUpStart := TopUpBundle(found.value, topUpKeyHelper);
      r := Some(published);
    }

    /**
     * The first half of `fetchMyBundle`: the stored bundle, or else up to 50
     * attempts to generate one (attempt `n` with key helper `keyHelpers(n)`).
     */
    method FindOrGenerateBundle(codec: SignalCodec, keyHelpers: int -> Option<SignalKeyHelper>, storageKeyHelper: Option<SignalKeyHelper>)
      returns (found: Option<OmemoBundle>, tries: nat)
      requires Valid()
      requires signalManager.storage.identity.Some? || storageKeyHelper.Some?
      modifies signalManager.storage
      ensures Valid()
      ensures tries <= MaxBundleTries
      ensures old(signalManager.storage.FetchThisUserExistingBundle(codec)).Success? ==>
        tries == 0 && found == Some(old(signalManager.storage.FetchThisUserExistingBundle(codec)).value)
      ensures found.None? ==> tries == MaxBundleTries
      ensures tries == 0 ==> unchanged(signalManager.storage)
      ensures signalManager.storage.identity.Some? || storageKeyHelper.Some?
      ensures tries > 0 ==>
        signalManager.storage.identity == SignalStorage.IdentityAfter(old(signalManager.storage.identity), storageKeyHelper)
      ensures found.Some? ==>
        signalManager.storage.identity.Some? &&
        found.value.deviceId == signalManager.storage.identity.value.registrationId &&
        found.value.identityKey == signalManager.storage.identity.value.publicKey
      ensures signalManager.storage.sessions == old(signalManager.storage.sessions)
    {
      var existing := signalManager.storage.FetchThisUserExistingBundle(codec);
      found := if existing.Success? then Some(existing.value) else None;
      tries := 0;
      while found.None? && tries < MaxBundleTries
        invariant Valid()
        invariant tries <= MaxBundleTries
        invariant existing.Success? ==> tries == 0 && found == Some(existing.value)
        invariant signalManager.storage.identity.Some? || storageKeyHelper.Some?
        invariant tries == 0 ==> unchanged(signalManager.storage)
        invariant tries > 0 ==>
          signalManager.storage.identity == SignalStorage.IdentityAfter(old(signalManager.storage.identity), storageKeyHelper)
        invariant found.Some? ==>
          signalManager.storage.identity.Some? &&
          found.value.deviceId == signalManager.storage.identity.value.registrationId &&
          found.value.identityKey == signalManager.storage.identity.value.publicKey
        invariant signalManager.storage.sessions == old(signalManager.storage.sessions)
        decreases MaxBundleTries - tries
      {
        tries := tries + 1;
        var generated := signalManager.GenerateOutgoingBundle(PreKeyPoolSize, keyHelpers(tries), storageKeyHelper, codec);
        if generated.Success? {
          found := Some(generated.value);
        }
      }
    }

    /**
     * Whether a fetched bundle is this device's own: it comes from this
     * account's jid and carries this device's registration id. Any other
     * bundle, including one of this account's other devices, is consumed.
     */
    ghost predicate OwnDeviceBundle(bundle: OmemoBundle, fromJid: string, identity: Option<SignalRecords.IdentityRecord>)
    {
      BareJid(fromJid) == userBareJid && bundle.deviceId == SignalStorage.RegistrationIdOf(identity)
    }

    /**
     * `omemo(_:fetchedBundle:from:…)`. This device's own bundle is compared
     * with the bundle of `fetchMyBundle`, which is returned for republishing
     * when the identity keys differ; the pending blocks are left alone. Any
     * other bundle (a contact's, or one of this account's other devices)
     * without prekeys fails its pending block; otherwise it is consumed with
     * the prekey at `draw` modulo the count, and the block is answered with
     * the outcome.
     */
    method FetchedBundle(bundle: OmemoBundle, fromJid: string, outgoingElementId: string, draw: nat, cipher: SessionCipher,
                         codec: SignalCodec, keyHelpers: int -> Option<SignalKeyHelper>, storageKeyHelper: Option<SignalKeyHelper>,
                         topUpKeyHelper: Option<SignalKeyHelper>) returns (republish: Option<OmemoBundle>)
      requires Valid()
      requires BareJid(fromJid) == userBareJid &&
               bundle.deviceId == SignalStorage.RegistrationIdOf(SignalStorage.IdentityAfter(signalManager.storage.identity, storageKeyHelper)) ==>
               signalManager.storage.identity.Some? || storageKeyHelper.Some?
      modifies this, signalManager.storage
      ensures Valid()
      ensures signalManager.storage.identity ==
        if BareJid(fromJid) == userBareJid then SignalStorage.IdentityAfter(old(signalManager.storage.identity), storageKeyHelper)
        else old(signalManager.storage.identity)
      ensures republish.Some? ==> republish.value.identityKey != bundle.identityKey
      ensures republish.Some? ==>
        BareJid(fromJid) == userBareJid && signalManager.storage.identity.Some? &&
        republish.value.identityKey == signalManager.storage.identity.value.publicKey
      ensures OwnDeviceBundle(bundle, fromJid, signalManager.storage.identity) ==>
        outstandingBundleBlocks == old(outstandingBundleBlocks) && bundleBlockInvocations == old(bundleBlockInvocations) &&
        deviceIdFetchCallbacks == old(deviceIdFetchCallbacks)
      ensures OwnDeviceBundle(bundle, fromJid, signalManager.storage.identity) &&
              old(signalManager.storage.FetchThisUserExistingBundle(codec)).Success? ==>
        (republish.Some? <==> old(signalManager.storage.FetchThisUserExistingBundle(codec)).value.identityKey != bundle.identityKey)
      ensures !OwnDeviceBundle(bundle, fromJid, signalManager.storage.identity) ==>
        outstandingBundleBlocks == old(outstandingBundleBlocks) - {outgoingElementId} && republish.None? &&
        deviceIdFetchCallbacks == old(deviceIdFetchCallbacks)
      ensures !OwnDeviceBundle(bundle, fromJid, signalManager.storage.identity) && |bundle.preKeys| == 0 ==>
        bundleBlockInvocations == old(bundleBlockInvocations) +
          (if outgoingElementId in old(outstandingBundleBlocks) then [Invocation(old(outstandingBundleBlocks)[outgoingElementId], false)] else [])
      ensures !OwnDeviceBundle(bundle, fromJid, signalManager.storage.identity) && |bundle.preKeys| > 0 ==>
        var success := Signal.ConsumeIncomingBundle(cipher, codec, BareJid(fromJid), bundle, draw % |bundle.preKeys|).None?;
        bundleBlockInvocations == old(bundleBlockInvocations) +
          (if outgoingElementId in old(outstandingBundleBlocks) then [Invocation(old(outstandingBundleBlocks)[outgoingElementId], success)] else [])
    {
      var from := BareJid(fromJid);
      if from == userBareJid {
        var rid := signalManager.storage.GetLocalRegistrationId(storageKeyHelper);
        if bundle.deviceId == rid {
          republish := RecheckOwnBundle(bundle, codec, keyHelpers, storageKeyHelper, topUpKeyHelper);
          return;
        }
      }
      // A bundle of one of this account's other devices is consumed like a contact's.
      if |bundle.preKeys| == 0 {
        CallAndRemoveOutstandingBundleBlock(outgoingElementId, false);
        return None;
      }
      var consumed := Signal.ConsumeIncomingBundle(cipher, codec, from, bundle, draw % |bundle.preKeys|);
      CallAndRemoveOutstandingBundleBlock(outgoingElementId, consumed.None?);
      republish := None;
    }

    /**
     * The own-bundle branch of `fetchedBundle`: the bundle of `fetchMyBundle`
     * is returned for republishing when its identity key differs from the
     * fetched one.
     */
    method RecheckOwnBundle(bundle: OmemoBundle, codec: SignalCodec, keyHelpers: int -> Option<SignalKeyHelper>,
                            storageKeyHelper: Option<SignalKeyHelper>, topUpKeyHelper: Option<SignalKeyHelper>)
      returns (republish: Option<OmemoBundle>)
      requires Valid()
      requires signalManager.storage.identity.Some? || storageKeyHelper.Some?
      modifies signalManager.storage
      ensures Valid()
      ensures signalManager.storage.identity == SignalStorage.IdentityAfter(old(signalManager.storage.identity), storageKeyHelper)
      ensures republish.Some? ==>
        republish.value.identityKey != bundle.identityKey && signalManager.storage.identity.Some? &&
        republish.value.identityKey == signalManager.storage.identity.value.publicKey
      ensures old(signalManager.storage.FetchThisUserExistingBundle(codec)).Success? ==>
        (republish.Some? <==> old(signalManager.storage.FetchThisUserExistingBundle(codec)).value.identityKey != bundle.identityKey)
    {
      var mine, found, _, _, _ := FetchMyBundle(codec, keyHelpers, storageKeyHelper, topUpKeyHelper);
      if mine.Some? && mine.value.identityKey != bundle.identityKey {
        return mine;
      }
      return None;
    }

    /**
     * `initBundlePublish(omemoModule:)`: the bundle of `fetchMyBundle`, when
     * there is one, is published together with the one-entry device list of
     * its device id.
     */
    method InitBundlePublish(codec: SignalCodec, keyHelpers: int -> Option<SignalKeyHelper>, storageKeyHelper: Option<SignalKeyHelper>,
                             topUpKeyHelper: Option<SignalKeyHelper>) returns (published: Option<(OmemoBundle, seq<int>)>)
      requires Valid()
      requires signalManager.storage.identity.Some? || storageKeyHelper.Some?
      modifies signalManager.storage
      ensures Valid()
      ensures signalManager.storage.identity == SignalStorage.IdentityAfter(old(signalManager.storage.identity), storageKeyHelper)
      ensures published.Some? ==>
        published.value.1 == [published.value.0.deviceId] &&
        published.value.0.deviceId == signalManager.storage.identity.value.registrationId &&
        published.value.0.identityKey == signalManager.storage.identity.value.publicKey
    {
      var mine, _, _, _, _ := FetchMyBundle(codec, keyHelpers, storageKeyHelper, topUpKeyHelper);
      if mine.None? {
        return None;
      }
      published := Some((mine.value, [mine.value.deviceId]));
    }

    /** `isSessionValid(_:deviceId:)`: whether a session is stored for the device, under any name. */
    function IsSessionValid(jid: string, deviceId: int): (r: bool)
      reads signalManager, signalManager.storage
      ensures r <==> deviceId in signalManager.storage.sessions
    {
      signalManager.SessionRecordExistsForUsername(BareJid(jid), deviceId)
    }

    /** `omemo(_:failedToFetchBundleForDeviceId:…)` and `omemo(_:failedToRemoveDeviceIds:…)`: the pending block fails. */
    method FailedToFetchBundle(outgoingElementId: Option<string>)
      modifies this
      ensures outgoingElementId.None? ==> outstandingBundleBlocks == old(outstandingBundleBlocks)
      ensures outgoingElementId.Some? ==> outstandingBundleBlocks == old(outstandingBundleBlocks) - {outgoingElementId.value}
      ensures outgoingElementId.Some? ==>
        bundleBlockInvocations == old(bundleBlockInvocations) +
          (if outgoingElementId.value in old(outstandingBundleBlocks)
           then [Invocation(old(outstandingBundleBlocks)[outgoingElementId.value], false)] else [])
      ensures deviceIdFetchCallbacks == old(deviceIdFetchCallbacks)
    {
      if outgoingElementId.Some? {
        CallAndRemoveOutstandingBundleBlock(outgoingElementId.value, false);
      }
    }
  }
}
