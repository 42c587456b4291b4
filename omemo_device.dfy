/** `OmemoDeviceDBModel`: one row of the OMEMO device table and its trust levels. */
module OmemoDeviceModel {
  import opened Wrappers

  /** `OmemoTrustLevel`, an `Int`-backed enumeration. */
  datatype TrustLevel = UntrustedNew | Untrusted | TrustedTofu | TrustedUser | Removed

  /** The raw value Swift assigns to each case: its position, starting at 0. */
  function TrustRaw(t: TrustLevel): (r: int)
    ensures 0 <= r <= 4
  {
    match t
    case UntrustedNew => 0
    case Untrusted => 1
    case TrustedTofu => 2
    case TrustedUser => 3
    case Removed => 4
  }

  /** `OmemoTrustLevel(rawValue:)`. */
  function TrustFromRaw(raw: int): (r: Option<TrustLevel>)
    ensures r.Some? <==> 0 <= raw <= 4
    ensures r.Some? ==> TrustRaw(r.value) == raw
  {
    if raw == 0 then Some(UntrustedNew)
    else if raw == 1 then Some(Untrusted)
    else if raw == 2 then Some(TrustedTofu)
    else if raw == 3 then Some(TrustedUser)
    else if raw == 4 then Some(Removed)
    else None
  }

  /** Distinct levels have distinct raw values, and each survives the round trip. */
  lemma TrustRawRoundTrip(t: TrustLevel)
    ensures TrustFromRaw(TrustRaw(t)) == Some(t)
  {
  }

  /** A row of the device table; `trustLevel` is the stored raw integer. */
  datatype DeviceRecord = DeviceRecord(id: int, userJid: string, trustLevel: int)
  {
    /** The `trustLevelType` getter: raw values outside 0..4 read as `.untrustedNew`. */
    function TrustLevelType(): (t: TrustLevel)
      ensures 0 <= trustLevel <= 4 ==> TrustRaw(t) == trustLevel
      ensures !(0 <= trustLevel <= 4) ==> t == UntrustedNew
    {
      match TrustFromRaw(trustLevel)
      case Some(t) => t
      case None => UntrustedNew
    }

    /** The `trustLevelType` setter: stores the raw value of the new level. */
    function WithTrustLevelType(t: TrustLevel): (r: DeviceRecord)
      ensures r.id == id && r.userJid == userJid
    {
      this.(trustLevel := TrustRaw(t))
    }
  }

  /** `OmemoDeviceDBModel()`: id 0, empty jid, raw trust level 0. */
  const NewDeviceRecord := DeviceRecord(0, "", 0)

  /** A fresh row reads as `.untrustedNew`. */
  lemma NewDeviceIsUntrustedNew()
    ensures NewDeviceRecord.TrustLevelType() == UntrustedNew
  {
  }

  /** Setting `trustLevelType` and reading it back gives the level set. */
  lemma TrustSetGet(d: DeviceRecord, t: TrustLevel)
    ensures d.WithTrustLevelType(t).TrustLevelType() == t
  {
    TrustRawRoundTrip(t);
  }

  /** The row `addDevice` and `storeDevices` write for a device they (re)insert. */
  function TofuDevice(id: int, jid: string): (d: DeviceRecord)
    ensures d.id == id && d.userJid == jid && d.TrustLevelType() == TrustedTofu
  {
    NewDeviceRecord.(id := id, userJid := jid).WithTrustLevelType(TrustedTofu)
  }
}
