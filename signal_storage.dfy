/**
 * `SignalStorageManager`: the identity, prekey, signed-prekey and session
 * tables the Signal library reads and writes through its store protocols,
 * and the account bundle read back from them.
 */
module SignalStorage {
  import opened Wrappers
  import opened Text
  import opened KeyedTable
  import opened SignalProtocol
  import opened SignalRecords
  import opened OmemoExtension

  // ------------------------------------------------------------ sessions

  /** The session table: primary key `deviceId`. */
  type SessionTable = map<int, SessionRecord>

  /** Every session row is stored under its own device id. */
  predicate SessionsKeyed(t: SessionTable)
  {
    forall k :: k in t ==> t[k].deviceId == k
  }

  /** `sessionRecord(for:)`: a primary-key lookup by the address's device id alone. */
  function LookupSession(t: SessionTable, address: SignalAddress): (r: Option<Bytes>)
    ensures r.Some? <==> address.deviceId in t
  {
    if address.deviceId in t then Some(t[address.deviceId].sessionData) else None
  }

  /** `storeSessionRecord(_:for:)`: an upsert keyed by the device id, recording the address's name. */
  function PutSession(t: SessionTable, address: SignalAddress, data: Bytes): (r: SessionTable)
    requires SessionsKeyed(t)
    ensures SessionsKeyed(r) && r.Keys == t.Keys + {address.deviceId}
  {
    t[address.deviceId := SessionRecord(address.name, data, address.deviceId)]
  }

  /** A stored session is found again under any address with the same device id. */
  lemma StoredSessionIsFound(t: SessionTable, address: SignalAddress, data: Bytes, other: SignalAddress)
    requires SessionsKeyed(t)
    ensures LookupSession(PutSession(t, address, data), other) ==
      if other.deviceId == address.deviceId then Some(data) else LookupSession(t, other)
  {
  }

  /**
   * Two peers that share a device id share one session: storing for
   * (alice, d) and then for (bob, d) leaves one row for d, and both names
   * find bob's record.
   */
  lemma SessionsCollideOnDeviceId(t: SessionTable, alice: string, bob: string, d: int, x: Bytes, y: Bytes)
    requires SessionsKeyed(t)
    ensures var r := PutSession(PutSession(t, SignalAddress(alice, d), x), SignalAddress(bob, d), y);
      r.Keys == t.Keys + {d} &&
      LookupSession(r, SignalAddress(alice, d)) == Some(y) &&
      LookupSession(r, SignalAddress(bob, d)) == Some(y) &&
      r[d].name == bob
  {
  }

  // ------------------------------------------------------------ identity

  /**
   * The identity row after a get-or-create: `generateNewIdentity` needs a
   * key helper (nil without a Signal context), returns a stored identity
   * unchanged, and otherwise stores one made from the helper's key pair and
   * registration id.
   */
  function IdentityAfter(identity: Option<IdentityRecord>, keyHelper: Option<SignalKeyHelper>): (r: Option<IdentityRecord>)
    ensures identity.Some? ==> r == identity
    ensures identity.None? && keyHelper.None? ==> r.None?
    ensures identity.None? && keyHelper.Some? ==>
      r == Some(IdentityRecord(keyHelper.value.identityKeyPair.privateKey, keyHelper.value.identityKeyPair.publicKey,
                               keyHelper.value.registrationId))
  {
    if identity.Some? then identity
    else match keyHelper
      case None => None
      case Some(h) => Some(IdentityRecord(h.identityKeyPair.privateKey, h.identityKeyPair.publicKey, h.registrationId))
  }

  /** `getLocalRegistrationId()`: the identity's registration id, or 0 when there is none and none can be made. */
  function RegistrationIdOf(identity: Option<IdentityRecord>): (r: int)
    ensures identity.None? ==> r == 0
  {
    if identity.Some? then identity.value.registrationId else 0
  }

  /**
   * Get-or-create is idempotent: once an identity exists, later calls with
   * any key helper keep it, so every later registration id is the same and
   * at most one identity is ever created.
   */
  lemma {:induction false} IdentityIsCreatedOnce(identity: Option<IdentityRecord>, first: Option<SignalKeyHelper>,
                                                 later: seq<Option<SignalKeyHelper>>)
    requires IdentityAfter(identity, first).Some?
    ensures IdentityAfterAll(IdentityAfter(identity, first), later) == IdentityAfter(identity, first)
    ensures RegistrationIdOf(IdentityAfterAll(IdentityAfter(identity, first), later)) == RegistrationIdOf(IdentityAfter(identity, first))
    decreases |later|
  {
    if |later| > 0 {
      IdentityIsCreatedOnce(identity, first, later[..|later| - 1]);
    }
  }

  /** The identity after a run of get-or-create calls. */
  function IdentityAfterAll(identity: Option<IdentityRecord>, keyHelpers: seq<Option<SignalKeyHelper>>): Option<IdentityRecord>
  {
    if |keyHelpers| == 0 then identity
    else IdentityAfter(IdentityAfterAll(identity, keyHelpers[..|keyHelpers| - 1]), keyHelpers[|keyHelpers| - 1])
  }

  /** Without a key helper no identity appears, and the registration id stays 0. */
  lemma {:induction false} NoHelperNoIdentity(keyHelpers: seq<Option<SignalKeyHelper>>)
    requires forall i :: 0 <= i < |keyHelpers| ==> keyHelpers[i].None?
    ensures IdentityAfterAll(None, keyHelpers).None?
    ensures RegistrationIdOf(IdentityAfterAll(None, keyHelpers)) == 0
    decreases |keyHelpers|
  {
    if |keyHelpers| > 0 {
      NoHelperNoIdentity(keyHelpers[..|keyHelpers| - 1]);
    }
  }

  /** The Signal key pair of a stored identity. */
  function KeyPairOf(identity: IdentityRecord): SignalIdentityKeyPair
  {
    SignalIdentityKeyPair(identity.publicKey, identity.privateKey)
  }

  // ------------------------------------------------------------ prekeys

  /** How many leading prekeys of `storeSignalPreKeys` have serialised data; the loop stops at the first that has none. */
  function SerializedPrefix(pks: seq<SignalPreKey>): (n: nat)
    ensures n <= |pks|
    ensures forall i :: 0 <= i < n ==> pks[i].serializedData.Some?
    ensures n < |pks| ==> pks[n].serializedData.None?
  {
    if |pks| == 0 || pks[0].serializedData.None? then 0
    else 1 + SerializedPrefix(pks[1..])
  }

  /** The prekey table after `storePreKey` for each of `pks`, in order. */
  function PutPreKeys(t: Table<Bytes>, pks: seq<SignalPreKey>): (r: Table<Bytes>)
    requires t.Valid()
    requires forall i :: 0 <= i < |pks| ==> pks[i].serializedData.Some?
    ensures r.Valid()
  {
    if |pks| == 0 then t
    else
      var last := pks[|pks| - 1];
      PutPreKeys(t, pks[..|pks| - 1]).Put(last.preKeyId, last.serializedData.value)
  }

  /**
   * After storing prekeys with distinct ids, each id holds its own key's
   * data, every other id keeps its row, and only new ids were added.
   */
  lemma {:induction false} PutPreKeysLoads(t: Table<Bytes>, pks: seq<SignalPreKey>, k: int)
    requires t.Valid()
    requires forall i :: 0 <= i < |pks| ==> pks[i].serializedData.Some?
    requires forall i, j :: 0 <= i < j < |pks| ==> pks[i].preKeyId != pks[j].preKeyId
    ensures forall i :: 0 <= i < |pks| && pks[i].preKeyId == k ==> PutPreKeys(t, pks).Get(k) == pks[i].serializedData
    ensures (forall i :: 0 <= i < |pks| ==> pks[i].preKeyId != k) ==> PutPreKeys(t, pks).Get(k) == t.Get(k)
    decreases |pks|
  {
    if |pks| > 0 {
      var init, last := pks[..|pks| - 1], pks[|pks| - 1];
      assert forall i :: 0 <= i < |init| ==> init[i] == pks[i];
      PutPreKeysLoads(t, init, k);
      var before := PutPreKeys(t, init);
      assert PutPreKeys(t, pks) == before.Put(last.preKeyId, last.serializedData.value);
      PutThenGet(before, last.preKeyId, last.serializedData.value, k);
      if last.preKeyId != k {
        assert forall i :: 0 <= i < |pks| && pks[i].preKeyId == k ==> i < |init|;
      }
    }
  }

  // ------------------------------------------------------------ the store

  class SignalStorageManager {
    var identity: Option<IdentityRecord>
    var preKeys: Table<Bytes>
    var signedPreKeys: Table<Bytes>
    var sessions: SessionTable

    ghost predicate Valid()
      reads this
    {
      preKeys.Valid() && signedPreKeys.Valid() && SessionsKeyed(sessions)
    }

    constructor ()
      ensures Valid() && identity.None? && preKeys == EmptyTable() && signedPreKeys == EmptyTable() && sessions == map[]
    {
      identity := None;
      preKeys := EmptyTable();
      signedPreKeys := EmptyTable();
      sessions := map[];
    }

    // ---------------------------------------------------------- sessions

    /** `sessionRecord(for:)`. */
    function SessionRecordFor(address: SignalAddress): (r: Option<Bytes>)
      reads this
      ensures r == LookupSession(sessions, address)
    {
      LookupSession(sessions, address)
    }

    /** `storeSessionRecord(_:for:)`: always reports success (write failures are not modelled). */
    method StoreSessionRecord(recordData: Bytes, address: SignalAddress) returns (ok: bool)
      requires Valid()
      modifies this
      ensures Valid() && ok
      ensures sessions == PutSession(old(sessions), address, recordData)
      ensures identity == old(identity) && preKeys == old(preKeys) && signedPreKeys == old(signedPreKeys)
    {
      sessions := PutSession(sessions, address, recordData);
      ok := true;
    }

    /** `sessionRecordExists(for:)`: exactly when a lookup by device id finds a row. */
    function SessionRecordExists(address: SignalAddress): (r: bool)
      reads this
      ensures r <==> address.deviceId in sessions
    {
      SessionRecordFor(address) != None
    }

    /** `deleteSessionRecord(for:)`: false, with nothing changed, when no row has the device id. */
    method DeleteSessionRecord(address: SignalAddress) returns (ok: bool)
      requires Valid()
      modifies this
      ensures Valid()
      ensures ok <==> address.deviceId in old(sessions)
      ensures sessions == old(sessions) - {address.deviceId}
      ensures !SessionRecordExists(address)
      ensures identity == old(identity) && preKeys == old(preKeys) && signedPreKeys == old(signedPreKeys)
    {
      if address.deviceId !in sessions {
        assert sessions == sessions - {address.deviceId};
        return false;
      }
      sessions := sessions - {address.deviceId};
      ok := true;
    }

    // ---------------------------------------------------------- prekeys

    /** `loadPreKey(withId:)`. */
    function LoadPreKey(preKeyId: int): (r: Option<Bytes>)
      reads this
      ensures r.Some? <==> preKeyId in preKeys.rows
      ensures r.Some? ==> r.value == preKeys.rows[preKeyId]
    {
      preKeys.Get(preKeyId)
    }

    /** `storePreKey(_:preKeyId:)`: an upsert by id (`update: .all`); always reports success. */
    method StorePreKey(preKey: Bytes, preKeyId: int) returns (ok: bool)
      requires Valid()
      modifies this
      ensures Valid() && ok
      ensures preKeys == old(preKeys).Put(preKeyId, preKey)
      ensures identity == old(identity) && signedPreKeys == old(signedPreKeys) && sessions == old(sessions)
    {
      preKeys := preKeys.Put(preKeyId, preKey);
      ok := true;
    }

    /** `containsPreKey(withId:)`. */
    function ContainsPreKey(preKeyId: int): (r: bool)
      reads this
      ensures r <==> preKeyId in preKeys.rows
    {
      LoadPreKey(preKeyId) != None
    }

    /** `deletePreKey(withId:)`: false, with nothing changed, for an id that is not stored. */
    method DeletePreKey(preKeyId: int) returns (ok: bool)
      requires Valid()
      modifies this
      ensures Valid()
      ensures ok <==> preKeyId in old(preKeys).rows
      ensures preKeys == old(preKeys).Delete(preKeyId)
      ensures !ok ==> preKeys == old(preKeys)
      ensures identity == old(identity) && signedPreKeys == old(signedPreKeys) && sessions == old(sessions)
    {
      if preKeyId !in preKeys.rows {
        DeleteAbsent(preKeys, preKeyId);
        return false;
      }
      preKeys := preKeys.Delete(preKeyId);
      ok := true;
    }

    /** `fetchAllPreKeys()`: every prekey row, in table order. */
    function FetchAllPreKeys(): (r: seq<PreKeyRecord>)
      requires Valid()
      reads this
      ensures |r| == |preKeys.order|
      ensures forall i :: 0 <= i < |r| ==> r[i] == PreKeyRecord(preKeys.order[i], preKeys.rows[preKeys.order[i]])
    {
      seq(|preKeys.order|, i requires 0 <= i < |preKeys.order| && Valid() reads this =>
        PreKeyRecord(preKeys.order[i], preKeys.rows[preKeys.order[i]]))
    }

    /**
     * `currentMaxPreKeyId()`: the id of the last prekey row, nil exactly
     * when no prekey is stored. Its documentation promises the maximum; the
     * two agree when ids were stored in increasing order (see
     * `KeyedTable.LastIsMaxWhenIncreasing` and `KeyedTable.LastCanBeBelowMax`).
     */
    function CurrentMaxPreKeyId(): (r: Option<int>)
      requires Valid()
      reads this
      ensures r.None? <==> forall k :: k !in preKeys.rows
      ensures r.Some? ==> r.value in preKeys.rows
      ensures r.Some? && Increasing(preKeys.order) ==> forall k :: k in preKeys.rows ==> k <= r.value
    {
      var last := preKeys.Last();
      if last.Some? && Increasing(preKeys.order) then
        LastIsMaxWhenIncreasing(preKeys);
        last
      else
        last
    }

    /**
     * `storeSignalPreKeys(_:)`: stores the keys in order and stops at the
     * first key without serialised data, yet always returns true.
     */
    method StoreSignalPreKeys(pks: seq<SignalPreKey>) returns (ok: bool)
      requires Valid()
      modifies this
      ensures Valid() && ok
      ensures preKeys == PutPreKeys(old(preKeys), pks[..SerializedPrefix(pks)])
      ensures identity == old(identity) && signedPreKeys == old(signedPreKeys) && sessions == old(sessions)
    {
      if |pks| == 0 {
        return true;
      }
      var t0 := preKeys;
      var n := SerializedPrefix(pks);
      var success := false;
      var i := 0;
      while i < |pks|
        invariant 0 <= i <= n
        invariant Valid()
        invariant preKeys == PutPreKeys(t0, pks[..i])
        invariant identity == old(identity) && signedPreKeys == old(signedPreKeys) && sessions == old(sessions)
        decreases |pks| - i
      {
        var preKey := pks[i];
        if preKey.serializedData.Some? {
          success := StorePreKey(preKey.serializedData.value, preKey.preKeyId);
          assert pks[..i + 1][..i] == pks[..i];
        } else {
          success := false;
        }
        if !success {
          break;
        }
        i := i + 1;
      }
      assert i == n;
      ok := true;
    }

    // ---------------------------------------------------------- signed prekeys

    /** `loadSignedPreKey(withId:)`: the data of the first signed-prekey row, whatever id is asked for. */
    function LoadSignedPreKey(signedPreKeyId: int): (r: Option<Bytes>)
      requires Valid()
      reads this
      ensures r.None? <==> forall k :: k !in signedPreKeys.rows
      ensures r.Some? ==> r.value == signedPreKeys.rows[signedPreKeys.order[0]]
    {
      match signedPreKeys.First()
      case None => None
      case Some(k) => Some(signedPreKeys.rows[k])
    }

    /** `storeSignedPreKey(_:signedPreKeyId:)`: an upsert by id; always reports success. */
    method StoreSignedPreKey(signedPreKey: Bytes, signedPreKeyId: int) returns (ok: bool)
      requires Valid()
      modifies this
      ensures Valid() && ok
      ensures signedPreKeys == old(signedPreKeys).Put(signedPreKeyId, signedPreKey)
      ensures identity == old(identity) && preKeys == old(preKeys) && sessions == old(sessions)
    {
      signedPreKeys := signedPreKeys.Put(signedPreKeyId, signedPreKey);
      ok := true;
    }

    /** `containsSignedPreKey(withId:)`: whether any signed prekey is stored, whatever id is asked for. */
    function ContainsSignedPreKey(signedPreKeyId: int): (r: bool)
      requires Valid()
      reads this
      ensures r <==> exists k :: k in signedPreKeys.rows
    {
      LoadSignedPreKey(signedPreKeyId) != None
    }

    /** `removeSignedPreKey(withId:)`: a delete by primary key; false for an id that is not stored. */
    method RemoveSignedPreKey(signedPreKeyId: int) returns (ok: bool)
      requires Valid()
      modifies this
      ensures Valid()
      ensures ok <==> signedPreKeyId in old(signedPreKeys).rows
      ensures signedPreKeys == old(signedPreKeys).Delete(signedPreKeyId)
      ensures identity == old(identity) && preKeys == old(preKeys) && sessions == old(sessions)
    {
      if signedPreKeyId !in signedPreKeys.rows {
        DeleteAbsent(signedPreKeys, signedPreKeyId);
        return false;
      }
      signedPreKeys := signedPreKeys.Delete(signedPreKeyId);
      ok := true;
    }

    // ---------------------------------------------------------- identity

    /** `generateNewIdentity()`: nil without a key helper, even when an identity is stored. */
    method GenerateNewIdentity(keyHelper: Option<SignalKeyHelper>) returns (r: Option<IdentityRecord>)
      requires Valid()
      modifies this
      ensures Valid()
      ensures identity == IdentityAfter(old(identity), keyHelper)
      ensures r == if keyHelper.None? then None else identity
      ensures preKeys == old(preKeys) && signedPreKeys == old(signedPreKeys) && sessions == old(sessions)
    {
      if keyHelper.None? {
        return None;
      }
      if identity.Some? {
        return identity;
      }
      var keyPair := keyHelper.value.identityKeyPair;
      identity := Some(IdentityRecord(keyPair.privateKey, keyPair.publicKey, keyHelper.value.registrationId));
      r := identity;
    }

    /**
     * `getIdentityKeyPair()`: the stored identity, created first when there
     * is none; the source force-unwraps the creation, so a caller without a
     * stored identity must have a key helper.
     */
    method GetIdentityKeyPair(keyHelper: Option<SignalKeyHelper>) returns (keyPair: SignalIdentityKeyPair)
      requires Valid()
      requires identity.Some? || keyHelper.Some?
      modifies this
      ensures Valid()
      ensures identity == IdentityAfter(old(identity), keyHelper) && identity.Some?
      ensures keyPair == KeyPairOf(identity.value)
      ensures preKeys == old(preKeys) && signedPreKeys == old(signedPreKeys) && sessions == old(sessions)
    {
      if identity.None? {
        var newIdentity := GenerateNewIdentity(keyHelper);
        return KeyPairOf(newIdentity.value);
      }
      keyPair := KeyPairOf(identity.value);
    }

    /** `getLocalRegistrationId()`: the identity's registration id, creating the identity if possible, else 0. */
    method GetLocalRegistrationId(keyHelper: Option<SignalKeyHelper>) returns (registrationId: int)
      requires Valid()
      modifies this
      ensures Valid()
      ensures identity == IdentityAfter(old(identity), keyHelper)
      ensures registrationId == RegistrationIdOf(identity)
      ensures preKeys == old(preKeys) && signedPreKeys == old(signedPreKeys) && sessions == old(sessions)
      ensures old(identity).Some? ==> unchanged(this)
    {
      if identity.None? {
        var newIdentity := GenerateNewIdentity(keyHelper);
        if newIdentity.Some? {
          return newIdentity.value.registrationId;
        }
        return 0;
      }
      registrationId := identity.value.registrationId;
    }

    /** `saveIdentity(_:identityKey:)`: a stub that stores nothing and reports success. */
    function SaveIdentity(address: SignalAddress, identityKey: Option<Bytes>): (r: bool)
      ensures r
    {
      true
    }

    /** `isTrustedIdentity(_:identityKey:)`: a stub that trusts every identity key. */
    function IsTrustedIdentity(address: SignalAddress, identityKey: Bytes): (r: bool)
      ensures r
    {
      true
    }

    // ---------------------------------------------------------- bundle

    /**
     * `fetchThisUserExistingBundle()`: `notFound` without a signed prekey or
     * an identity; otherwise the database bundle built from the identity,
     * the first signed-prekey row and every prekey row.
     */
    function FetchThisUserExistingBundle(codec: SignalCodec): (r: Result<OmemoBundle, BundleError>)
      requires Valid()
      reads this
      ensures (forall k :: k !in signedPreKeys.rows) || identity.None? ==> r == Failure(NotFound)
      ensures r.Success? ==> identity.Some? && r.value.deviceId == identity.value.registrationId
      ensures r.Success? ==> r.value.identityKey == identity.value.publicKey
      ensures r.Success? ==> r.value.preKeys == StoredPreKeysOf(FetchAllPreKeys(), codec)
      ensures signedPreKeys.First().Some? && identity.Some? ==>
        var k := signedPreKeys.First().value;
        var row := SignedPreKeyRecord(k, signedPreKeys.rows[k]);
        (r.Success? <==> RecordsAccepted(identity.value, row, FetchAllPreKeys(), codec)) &&
        (r.Success? ==> SignedPreKeyFromRecord(row, codec) == Success(r.value.signedPreKey))
      ensures r.Success? <==>
        signedPreKeys.First().Some? && identity.Some? &&
        RecordsAccepted(identity.value, SignedPreKeyRecord(signedPreKeys.First().value, signedPreKeys.rows[signedPreKeys.First().value]),
                        FetchAllPreKeys(), codec)
    {
      match signedPreKeys.First()
      case None => Failure(NotFound)
      case Some(k) =>
        if identity.None? then Failure(NotFound)
        else BundleFromRecords(identity.value, SignedPreKeyRecord(k, signedPreKeys.rows[k]), FetchAllPreKeys(), codec)
    }
  }
}
