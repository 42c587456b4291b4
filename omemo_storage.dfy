/**
 * `OmemoStorageManager`: the OMEMO device table, keyed by device id alone,
 * each row naming the owning bare jid and a trust level.
 */
module OmemoStorage {
  import opened Wrappers
  import opened OmemoDeviceModel
  import opened Ordering

  /** The device table: primary key `id` to row. */
  type DeviceTable = map<int, DeviceRecord>

  /** Every row is stored under its own id. */
  predicate WellKeyed(t: DeviceTable)
  {
    forall k :: k in t ==> t[k].id == k
  }

  /** The ids the query `userJid = '<jid>'` finds, whatever their trust level. */
  function DevicesOf(t: DeviceTable, jid: string): set<int>
  {
    set k | k in t && t[k].userJid == jid
  }

  /** The owner a primary-key lookup finds for a device id. */
  function OwnerOf(t: DeviceTable, id: int): Option<string>
  {
    if id in t then Some(t[id].userJid) else None
  }

  /** The rows of `ids` that are stored, with their trust level set to `.removed`. */
  function MarkRemoved(t: DeviceTable, ids: set<int>): DeviceTable
  {
    map k | k in t :: if k in ids then t[k].WithTrustLevelType(Removed) else t[k]
  }

  /** Upserts a trusted-on-first-use row owned by `jid` for every id of `ids`. */
  function InsertTofu(t: DeviceTable, ids: set<int>, jid: string): DeviceTable
  {
    map k | k in t.Keys + ids :: if k in ids then TofuDevice(k, jid) else t[k]
  }

  /**
   * The table after `storeDevices(deviceIds, jid)`: an empty list deletes
   * every row of `jid`; a list whose id set differs from the stored one marks
   * the stored ids that are missing from it as removed and upserts the new
   * ones as trusted on first use; an equal set changes nothing.
   */
  function StoreDevicesResult(t: DeviceTable, deviceIds: seq<int>, jid: string): DeviceTable
  {
    var stored := DevicesOf(t, jid);
    var incoming := set x | x in deviceIds;
    if |deviceIds| == 0 then t - stored
    else if stored != incoming then InsertTofu(MarkRemoved(t, stored - incoming), incoming - stored, jid)
    else t
  }

  // ------------------------------------------------------------ the store

  class OmemoStorageManager {
    /** The bare jid of this account. */
    const userBareJid: string
    var devices: DeviceTable

    ghost predicate Valid()
      reads this
    {
      WellKeyed(devices)
    }

    constructor (userBareJid: string)
      ensures Valid() && this.userBareJid == userBareJid && devices == map[]
    {
      this.userBareJid := userBareJid;
      devices := map[];
    }

    /** `getDevicesForJID`: every id owned by `jid`, in the table's (unspecified) order. */
    method GetDevicesForJid(jid: string) returns (ids: seq<int>)
      ensures forall i :: 0 <= i < |ids| ==> ids[i] in DevicesOf(devices, jid)
      ensures forall k :: k in DevicesOf(devices, jid) ==> k in ids
      ensures forall i, j :: 0 <= i < j < |ids| ==> ids[i] != ids[j]
    {
      ids := [];
      var rest := DevicesOf(devices, jid);
      while rest != {}
        invariant rest <= DevicesOf(devices, jid)
        invariant forall i :: 0 <= i < |ids| ==> ids[i] in DevicesOf(devices, jid) && ids[i] !in rest
        invariant forall k :: k in DevicesOf(devices, jid) && k !in rest ==> k in ids
        invariant forall i, j :: 0 <= i < j < |ids| ==> ids[i] != ids[j]
        decreases rest
      {
        NonEmptyHasElement(rest);
        var k :| k in rest;
        ids := ids + [k];
        rest := rest - {k};
      }
    }

    /** `getDevicesForThisAccount`: the devices of this account's own jid. */
    method GetDevicesForThisAccount() returns (ids: seq<int>)
      ensures forall i :: 0 <= i < |ids| ==> ids[i] in DevicesOf(devices, userBareJid)
      ensures forall k :: k in DevicesOf(devices, userBareJid) ==> k in ids
      ensures forall i, j :: 0 <= i < j < |ids| ==> ids[i] != ids[j]
    {
      ids := GetDevicesForJid(userBareJid);
    }

    /** `checkIfDeviceIsStored`: a primary-key lookup. */
    function CheckIfDeviceIsStored(id: int): (r: bool)
      reads this
      ensures r <==> OwnerOf(devices, id).Some?
    {
      id in devices
    }

    /** `checkIfDevicesAreStored`: whether the query for `jid` has a first row. */
    function CheckIfDevicesAreStored(jid: string): (r: bool)
      reads this
      ensures r <==> DevicesOf(devices, jid) != {}
    {
      var found := exists k :: k in devices && devices[k].userJid == jid;
      if found then
        var k :| k in devices && devices[k].userJid == jid;
        assert k in DevicesOf(devices, jid);
        true
      else
        assert DevicesOf(devices, jid) == {} by {
          if DevicesOf(devices, jid) != {} {
            NonEmptyHasElement(DevicesOf(devices, jid));
            assert false;
          }
        }
        false
    }

    /** `fetchUserForDeviceId`: the owner of a device, or nil. */
    function FetchUserForDeviceId(id: int): (r: Option<string>)
      reads this
      ensures r.Some? <==> id in devices
      ensures r.Some? ==> id in DevicesOf(devices, r.value)
    {
      if id in devices then Some(devices[id].userJid) else None
    }

    /**
     * `addDevice`: does nothing when the id is stored, under any jid;
     * otherwise adds one trusted-on-first-use row for `jid`.
     */
    method AddDevice(jid: string, id: int)
      requires Valid()
      modifies this
      ensures Valid()
      ensures id in old(devices) ==> devices == old(devices)
      ensures id !in old(devices) ==> devices == old(devices)[id := TofuDevice(id, jid)]
    {
      if CheckIfDeviceIsStored(id) {
        return;
      }
      devices := devices[id := TofuDevice(id, jid)];
    }

    /** `removeDevice`: deletes the row of a device, if there is one. */
    method RemoveDevice(id: int)
      requires Valid()
      modifies this
      ensures Valid()
      ensures devices == old(devices) - {id}
    {
      if id in devices {
        devices := devices - {id};
      }
    }

    /** `storeDevices`: reconciles the rows of `jid` with a fetched device list. */
    method StoreDevices(deviceIds: seq<int>, jid: string)
      requires Valid()
      modifies this
      ensures Valid()
      ensures devices == StoreDevicesResult(old(devices), deviceIds, jid)
    {
      var t0 := devices;
      var stored := DevicesOf(devices, jid);
      var incoming := set x | x in deviceIds;
      if |deviceIds| == 0 {
        var rest := stored;
        while rest != {}
          invariant rest <= stored
          invariant Valid()
          invariant devices == t0 - (stored - rest)
          decreases rest
        {
          NonEmptyHasElement(rest);
          var k :| k in rest;
          RemoveDevice(k);
          rest := rest - {k};
        }
      } else if stored != incoming {
        var toRemove := stored - incoming;
        var toAdd := incoming - stored;
        var rest := toRemove;
        while rest != {}
          invariant rest <= toRemove
          invariant devices == MarkRemoved(t0, toRemove - rest)
          decreases rest
        {
          NonEmptyHasElement(rest);
          var k :| k in rest;
          if k in devices {
            MarkRemovedStep(t0, toRemove - rest, k);
            devices := devices[k := devices[k].WithTrustLevelType(Removed)];
          }
          assert toRemove - (rest - {k}) == (toRemove - rest) + {k};
          rest := rest - {k};
        }
        var t1 := devices;
        rest := toAdd;
        while rest != {}
          invariant rest <= toAdd
          invariant devices == InsertTofu(t1, toAdd - rest, jid)
          decreases rest
        {
          NonEmptyHasElement(rest);
          var k :| k in rest;
          InsertTofuStep(t1, toAdd - rest, k, jid);
          devices := devices[k := TofuDevice(k, jid)];
          assert toAdd - (rest - {k}) == (toAdd - rest) + {k};
          rest := rest - {k};
        }
        assert toAdd - rest == toAdd;
        StoreDevicesKeepsWellKeyed(t0, deviceIds, jid);
      }
    }

    /** `storeThisUserDevices`: `storeDevices` for this account's own jid. */
    method StoreThisUserDevices(deviceIds: seq<int>)
      requires Valid()
      modifies this
      ensures Valid()
      ensures devices == StoreDevicesResult(old(devices), deviceIds, userBareJid)
    {
      StoreDevices(deviceIds, userBareJid);
    }

    /** `storeContactDevices`: `storeDevices` for a contact's jid (the completion is a return). */
    method StoreContactDevices(deviceIds: seq<int>, contactJid: string)
      requires Valid()
      modifies this
      ensures Valid()
      ensures devices == StoreDevicesResult(old(devices), deviceIds, contactJid)
    {
      StoreDevices(deviceIds, contactJid);
    }
  }

  // ---------------------------------------------------- loop step lemmas

  lemma MarkRemovedStep(t: DeviceTable, done: set<int>, k: int)
    requires k in t && k !in done
    ensures MarkRemoved(t, done + {k}) == MarkRemoved(t, done)[k := MarkRemoved(t, done)[k].WithTrustLevelType(Removed)]
  {
  }

  lemma InsertTofuStep(t: DeviceTable, done: set<int>, k: int, jid: string)
    ensures InsertTofu(t, done + {k}, jid) == InsertTofu(t, done, jid)[k := TofuDevice(k, jid)]
  {
  }

  // ------------------------------------------------------------- properties

  /** `storeDevices` keeps every row under its own id. */
  lemma StoreDevicesKeepsWellKeyed(t: DeviceTable, deviceIds: seq<int>, jid: string)
    requires WellKeyed(t)
    ensures WellKeyed(StoreDevicesResult(t, deviceIds, jid))
  {
  }

  /** An empty device list deletes every row of `jid` outright and leaves the other rows as they were. */
  lemma StoreEmptyListDeletes(t: DeviceTable, jid: string)
    ensures DevicesOf(StoreDevicesResult(t, [], jid), jid) == {}
    ensures forall k :: k in StoreDevicesResult(t, [], jid) <==> k in t && t[k].userJid != jid
    ensures forall k :: k in StoreDevicesResult(t, [], jid) ==> StoreDevicesResult(t, [], jid)[k] == t[k]
  {
  }

  /**
   * A non-empty device list works by set difference: a stored id missing from
   * the list is marked removed, a listed id not stored for `jid` gets a
   * trusted-on-first-use row owned by `jid`, an id in both is untouched, and
   * any other row stays as it was.
   */
  lemma StoreBySetDifference(t: DeviceTable, deviceIds: seq<int>, jid: string, k: int)
    requires |deviceIds| > 0
    ensures var r := StoreDevicesResult(t, deviceIds, jid);
      var stored := DevicesOf(t, jid);
      (k in stored && k !in deviceIds ==> k in r && r[k] == t[k].WithTrustLevelType(Removed)) &&
      (k !in stored && k in deviceIds ==> k in r && r[k] == TofuDevice(k, jid)) &&
      (k in stored && k in deviceIds ==> k in r && r[k] == t[k]) &&
      (k !in stored && k !in deviceIds ==> (k in r <==> k in t) && (k in t ==> r[k] == t[k]))
  {
    var stored := DevicesOf(t, jid);
    var incoming := set x | x in deviceIds;
    assert k in incoming <==> k in deviceIds;
    if stored == incoming {
      assert StoreDevicesResult(t, deviceIds, jid) == t;
    }
  }

  /** After a non-empty list, the query for `jid` finds the ids stored before together with the listed ones. */
  lemma StoreKeepsOldAndNewIds(t: DeviceTable, deviceIds: seq<int>, jid: string)
    requires |deviceIds| > 0
    ensures DevicesOf(StoreDevicesResult(t, deviceIds, jid), jid) == DevicesOf(t, jid) + (set x | x in deviceIds)
  {
    var r := StoreDevicesResult(t, deviceIds, jid);
    var expected := DevicesOf(t, jid) + (set x | x in deviceIds);
    forall k ensures k in DevicesOf(r, jid) <==> k in expected {
      StoreBySetDifference(t, deviceIds, jid, k);
    }
  }

  /** Storing the same non-empty list twice: the second call changes nothing. */
  lemma StoreIdempotent(t: DeviceTable, deviceIds: seq<int>, jid: string)
    requires |deviceIds| > 0
    ensures StoreDevicesResult(StoreDevicesResult(t, deviceIds, jid), deviceIds, jid) == StoreDevicesResult(t, deviceIds, jid)
  {
    var r := StoreDevicesResult(t, deviceIds, jid);
    var r2 := StoreDevicesResult(r, deviceIds, jid);
    StoreKeepsOldAndNewIds(t, deviceIds, jid);
    forall k | k in r
      ensures k in r2 && r2[k] == r[k]
    {
      StoreBySetDifference(t, deviceIds, jid, k);
      StoreBySetDifference(r, deviceIds, jid, k);
      if k in DevicesOf(r, jid) && k !in deviceIds {
        TrustSetGet(t[k], Removed);
      }
    }
    forall k | k in r2
      ensures k in r
    {
      StoreBySetDifference(r, deviceIds, jid, k);
    }
  }

  /** A removed device of `jid` that is listed again stays removed: it counts as stored. */
  lemma RemovedStaysRemoved(t: DeviceTable, deviceIds: seq<int>, jid: string, k: int)
    requires k in t && t[k].userJid == jid && t[k].TrustLevelType() == Removed
    requires k in deviceIds
    ensures k in StoreDevicesResult(t, deviceIds, jid)
    ensures StoreDevicesResult(t, deviceIds, jid)[k].TrustLevelType() == Removed
  {
    assert k in DevicesOf(t, jid);
    StoreBySetDifference(t, deviceIds, jid, k);
  }

  /**
   * Rows of other jids are untouched, except that a listed id owned by
   * another jid is taken over by `jid` as trusted on first use.
   */
  lemma OtherJidsUnchangedExceptReowned(t: DeviceTable, deviceIds: seq<int>, jid: string, k: int)
    requires k in t && t[k].userJid != jid
    ensures k in StoreDevicesResult(t, deviceIds, jid)
    ensures |deviceIds| > 0 && k in deviceIds ==> StoreDevicesResult(t, deviceIds, jid)[k] == TofuDevice(k, jid)
    ensures !(|deviceIds| > 0 && k in deviceIds) ==> StoreDevicesResult(t, deviceIds, jid)[k] == t[k]
  {
    if |deviceIds| > 0 {
      StoreBySetDifference(t, deviceIds, jid, k);
    }
  }

  /** Queries ignore the trust level: changing a row's level does not change what they find. */
  lemma QueriesIgnoreTrust(t: DeviceTable, k: int, level: TrustLevel, jid: string)
    requires k in t
    ensures DevicesOf(t[k := t[k].WithTrustLevelType(level)], jid) == DevicesOf(t, jid)
    ensures OwnerOf(t[k := t[k].WithTrustLevelType(level)], k) == OwnerOf(t, k)
  {
  }

  /** Keyed by id alone: each id has at most one owner, the one the lookup reports. */
  lemma OneOwnerPerDevice(t: DeviceTable, id: int, jid: string, other: string)
    ensures OwnerOf(t, id) == Some(jid) <==> id in DevicesOf(t, jid)
    ensures id in DevicesOf(t, jid) && id in DevicesOf(t, other) ==> jid == other
  {
  }
}
