/**
 * `SignalManager`: bundle generation over the Signal store, and the
 * address construction (lowercased names) in front of the session cipher.
 */
module Signal {
  import opened Wrappers
  import opened Text
  import opened KeyedTable
  import opened SignalProtocol
  import opened SignalRecords
  import opened OmemoExtension
  import opened SignalStorage

  // ------------------------------------------------------------ addresses

  /** `SignalAddress(name: name.lowercased(), deviceId:)`, the one way every address is built. */
  function Address(name: string, deviceId: int): (r: SignalAddress)
    ensures r.deviceId == deviceId && |r.name| == |name|
    ensures forall i :: 0 <= i < |r.name| ==> !IsAsciiUpper(r.name[i])
  {
    SignalAddress(Lower(name), deviceId)
  }

  /** Names that differ only in ASCII case give the same address. */
  lemma AddressIgnoresCase(name: string, deviceId: int)
    ensures Address(Upper(name), deviceId) == Address(name, deviceId)
    ensures Address(Lower(name), deviceId) == Address(name, deviceId)
  {
    assert Lower(Upper(name)) == Lower(name) by {
      forall i | 0 <= i < |name| ensures LowerChar(UpperChar(name[i])) == LowerChar(name[i]) {
        LowerOfUpper(name[i]);
      }
    }
    assert Lower(Lower(name)) == Lower(name);
  }

  lemma LowerOfUpper(c: char)
    ensures LowerChar(UpperChar(c)) == LowerChar(c)
  {
    if IsAsciiLower(c) {
      assert UpperChar(c) as int == c as int - 32;
    }
  }

  /** `encryptToAddress(_:name:deviceId:)`: the cipher's result for the lowercased address. */
  function EncryptToAddress(cipher: SessionCipher, data: Bytes, name: string, deviceId: int): (r: Result<SignalCiphertext, SignalError>)
    ensures r == cipher.encrypt(SignalAddress(Lower(name), deviceId), data)
  {
    cipher.encrypt(Address(name, deviceId), data)
  }

  /** `decryptFromAddress(_:name:deviceId:)`: the cipher's result for the lowercased address. */
  function DecryptFromAddress(cipher: SessionCipher, data: Bytes, name: string, deviceId: int): (r: Result<Bytes, SignalError>)
    ensures r == cipher.decrypt(SignalAddress(Lower(name), deviceId), data)
  {
    cipher.decrypt(Address(name, deviceId), data)
  }

  /** Encryption and decryption do not depend on the letter case of the peer's name. */
  lemma CipherIgnoresCase(cipher: SessionCipher, data: Bytes, name: string, deviceId: int)
    ensures EncryptToAddress(cipher, data, Upper(name), deviceId) == EncryptToAddress(cipher, data, name, deviceId)
    ensures DecryptFromAddress(cipher, data, Upper(name), deviceId) == DecryptFromAddress(cipher, data, name, deviceId)
  {
    AddressIgnoresCase(name, deviceId);
  }

  /** Why consuming a bundle failed: the bundle was rejected, or the session builder threw. */
  datatype ConsumeError = BundleRejected(BundleError) | SessionRejected(SignalError)

  /**
   * `consumeIncomingBundle(_:bundle:)`: builds the Signal bundle from the
   * prekey at `index` (the source draws it at random from the bundle's own
   * list) and processes it for the lowercased address; None is success.
   */
  function ConsumeIncomingBundle(cipher: SessionCipher, codec: SignalCodec, name: string, bundle: OmemoBundle, index: int): (r: Option<ConsumeError>)
    requires 0 <= index < |bundle.preKeys|
    ensures SignalBundle(bundle, index, codec).Failure? ==> r == Some(BundleRejected(SignalFailure))
    ensures r.None? <==>
      SignalBundle(bundle, index, codec).Success? &&
      cipher.processPreKeyBundle(SignalAddress(Lower(name), bundle.deviceId), SignalBundle(bundle, index, codec).value).None?
  {
    match SignalBundle(bundle, index, codec)
    case Failure(e) => Some(BundleRejected(e))
    case Success(pb) =>
      match cipher.processPreKeyBundle(Address(name, bundle.deviceId), pb)
      case None => None
      case Some(err) => Some(SessionRejected(err))
  }

  // ------------------------------------------------------------ key generation

  /** `generateRandomSignedPreKey()` without its store: a signed prekey with a fresh id, or nil. */
  function GeneratedSignedPreKey(keyHelper: Option<SignalKeyHelper>, identity: SignalIdentityKeyPair): (r: Option<SignalSignedPreKey>)
    ensures keyHelper.None? ==> r.None?
    ensures r.Some? ==> r.value.serializedData.Some?
    ensures r.Some? ==> Some(r.value) == keyHelper.value.signedPreKey(identity, keyHelper.value.registrationId)
    ensures keyHelper.Some? ==>
      var spk := keyHelper.value.signedPreKey(identity, keyHelper.value.registrationId);
      (r.Some? <==> spk.Some? && spk.value.serializedData.Some?)
  {
    if keyHelper.None? then None
    else
      var spk := keyHelper.value.signedPreKey(identity, keyHelper.value.registrationId);
      if spk.Some? && spk.value.serializedData.Some? then spk else None
  }

  /**
   * The signed prekey `generateOutgoingBundle` uses: the stored one when
   * there is one (a deserialisation failure is thrown), otherwise a
   * generated one; `keyGeneration` when it, or its serialisation, is
   * unavailable.
   */
  function ChosenSignedPreKey(stored: Option<Bytes>, keyHelper: Option<SignalKeyHelper>, identity: SignalIdentityKeyPair,
                              codec: SignalCodec): (r: Result<SignalSignedPreKey, BundleError>)
    ensures r.Success? ==> r.value.serializedData.Some?
    ensures stored.Some? && codec.signedPreKey(stored.value).None? ==> r == Failure(SignalFailure)
    ensures stored.Some? && r.Success? ==> Some(r.value) == codec.signedPreKey(stored.value)
    ensures stored.Some? && codec.signedPreKey(stored.value).Some? ==>
      (r.Success? <==> codec.signedPreKey(stored.value).value.serializedData.Some?) &&
      (r.Failure? ==> r.error == KeyGeneration)
    ensures stored.None? ==> (r.Success? <==> GeneratedSignedPreKey(keyHelper, identity).Some?)
    ensures stored.None? && r.Failure? ==> r.error == KeyGeneration
  {
    match stored
    case Some(data) =>
      (match codec.signedPreKey(data)
       case None => Failure(SignalFailure)
       case Some(spk) => if spk.serializedData.Some? then Success(spk) else Failure(KeyGeneration))
    case None =>
      match GeneratedSignedPreKey(keyHelper, identity)
      case None => Failure(KeyGeneration)
      case Some(spk) => Success(spk)
  }

  /** The prekeys `generatePreKeys(start, count:)` hands back: nil only when the key helper fails. */
  function RequestedPreKeys(keyHelper: Option<SignalKeyHelper>, start: int, count: int): (r: Option<seq<SignalPreKey>>)
    ensures keyHelper.None? ==> r.None?
    ensures keyHelper.Some? ==> r == keyHelper.value.preKeys(start, count)
  {
    if keyHelper.None? then None else keyHelper.value.preKeys(start, count)
  }

  /** The bundle `generateOutgoingBundle` returns, given its signed prekey and the prekeys from id 1. */
  function OutgoingBundle(deviceId: int, identity: SignalIdentityKeyPair, signed: Result<SignalSignedPreKey, BundleError>,
                          preKeys: Option<seq<SignalPreKey>>, codec: SignalCodec): (r: Result<OmemoBundle, BundleError>)
    ensures signed.Failure? ==> r == Failure(signed.error)
    ensures signed.Success? && preKeys.None? ==> r == Failure(KeyGeneration)
    ensures r.Success? ==> signed.Success? && preKeys.Some?
    ensures r.Success? ==> r.value.deviceId == deviceId && r.value.identityKey == identity.publicKey
    ensures r.Success? ==> SignedPreKeyFromSignal(signed.value) == Success(r.value.signedPreKey)
    ensures r.Success? ==> r.value.preKeys == OmemoPreKeysOf(preKeys.value)
    ensures signed.Success? && preKeys.Some? ==> r == BundleFromSignal(deviceId, identity, signed.value, preKeys.value, codec)
    ensures r.Success? <==> signed.Success? && preKeys.Some? && SignalKeysAccepted(deviceId, identity, signed.value, preKeys.value, codec)
  {
    match signed
    case Failure(e) => Failure(e)
    case Success(spk) =>
      if preKeys.None? then Failure(KeyGeneration)
      else BundleFromSignal(deviceId, identity, spk, preKeys.value, codec)
  }

  /**
   * A stored signed prekey is never regenerated: whatever the key helper
   * would produce, the bundle carries the stored key's conversion.
   */
  lemma StoredSignedPreKeyIsReused(deviceId: int, identity: SignalIdentityKeyPair, data: Bytes, h1: Option<SignalKeyHelper>,
                                   h2: Option<SignalKeyHelper>, preKeys: Option<seq<SignalPreKey>>, codec: SignalCodec)
    ensures OutgoingBundle(deviceId, identity, ChosenSignedPreKey(Some(data), h1, identity, codec), preKeys, codec) ==
            OutgoingBundle(deviceId, identity, ChosenSignedPreKey(Some(data), h2, identity, codec), preKeys, codec)
    ensures var r := OutgoingBundle(deviceId, identity, ChosenSignedPreKey(Some(data), h1, identity, codec), preKeys, codec);
      r.Success? ==> codec.signedPreKey(data).Some? && SignedPreKeyFromSignal(codec.signedPreKey(data).value) == Success(r.value.signedPreKey)
  {
    var c1 := ChosenSignedPreKey(Some(data), h1, identity, codec);
    assert c1 == ChosenSignedPreKey(Some(data), None, identity, codec);
  }

  /** Without a stored signed prekey and without a key helper, the bundle fails with `keyGeneration`. */
  lemma NoKeysNoBundle(deviceId: int, identity: SignalIdentityKeyPair, count: int, codec: SignalCodec)
    ensures OutgoingBundle(deviceId, identity, ChosenSignedPreKey(None, None, identity, codec), RequestedPreKeys(None, 1, count), codec) ==
            Failure(KeyGeneration)
  {
  }

  class SignalManager {
    const storage: SignalStorageManager

    ghost predicate Valid()
      reads this, storage
    {
      storage.Valid()
    }

    constructor ()
      ensures Valid() && fresh(storage)
      ensures storage.identity.None? && storage.sessions == map[]
    {
      storage := new SignalStorageManager();
    }

    /**
     * `generatePreKeys(_:count:)`: the helper's prekeys, stored as
     * `storeSignalPreKeys` stores them; since that always reports true, the
     * result is nil only when generation fails.
     */
    method GeneratePreKeys(keyHelper: Option<SignalKeyHelper>, start: int, count: int) returns (r: Option<seq<SignalPreKey>>)
      requires Valid()
      modifies storage
      ensures Valid()
      ensures r == RequestedPreKeys(keyHelper, start, count)
      ensures storage.preKeys ==
        if r.Some? then PutPreKeys(old(storage.preKeys), r.value[..SerializedPrefix(r.value)]) else old(storage.preKeys)
      ensures storage.identity == old(storage.identity) && storage.signedPreKeys == old(storage.signedPreKeys)
      ensures storage.sessions == old(storage.sessions)
    {
      if keyHelper.None? {
        return None;
      }
      var preKeys := keyHelper.value.preKeys(start, count);
      if preKeys.None? {
        return None;
      }
      var stored := storage.StoreSignalPreKeys(preKeys.value);
      if stored {
        return preKeys;
      }
      r := None;
    }

    /**
     * `generateRandomSignedPreKey()`: a signed prekey under a fresh id for
     * the account's identity (created when missing), stored before it is
     * returned.
     */
    method GenerateRandomSignedPreKey(keyHelper: Option<SignalKeyHelper>, storageKeyHelper: Option<SignalKeyHelper>)
      returns (r: Option<SignalSignedPreKey>)
      requires Valid()
      requires keyHelper.None? || storage.identity.Some? || storageKeyHelper.Some?
      modifies storage
      ensures Valid()
      ensures keyHelper.None? ==> r.None? && storage.identity == old(storage.identity)
      ensures keyHelper.Some? ==> storage.identity == IdentityAfter(old(storage.identity), storageKeyHelper) && storage.identity.Some?
      ensures keyHelper.Some? ==> r == GeneratedSignedPreKey(keyHelper, KeyPairOf(storage.identity.value))
      ensures storage.signedPreKeys ==
        if r.Some? then old(storage.signedPreKeys).Put(r.value.preKeyId, r.value.serializedData.value) else old(storage.signedPreKeys)
      ensures storage.preKeys == old(storage.preKeys) && storage.sessions == old(storage.sessions)
    {
      if keyHelper.None? {
        return None;
      }
      var identityKeyPair := storage.GetIdentityKeyPair(storageKeyHelper);
      var signedPreKey := keyHelper.value.signedPreKey(identityKeyPair, keyHelper.value.registrationId);
      if signedPreKey.None? || signedPreKey.value.serializedData.None? {
        return None;
      }
      var stored := storage.StoreSignedPreKey(signedPreKey.value.serializedData.value, signedPreKey.value.preKeyId);
      if stored {
        return signedPreKey;
      }
      r := None;
    }

    /**
     * `generateOutgoingBundle(_:)`: the account's bundle. The identity is
     * fetched or created first and its registration id is the device id;
     * the stored signed prekey is reused, and a new one generated only when
     * none is stored; prekeys are requested from id 1; the signed prekey is
     * stored again before the bundle is returned.
     */
    method GenerateOutgoingBundle(preKeyCount: int, keyHelper: Option<SignalKeyHelper>, storageKeyHelper: Option<SignalKeyHelper>,
                                  codec: SignalCodec) returns (r: Result<OmemoBundle, BundleError>)
      requires Valid()
      requires storage.identity.Some? || storageKeyHelper.Some?
      modifies storage
      ensures Valid()
      ensures storage.identity == IdentityAfter(old(storage.identity), storageKeyHelper) && storage.identity.Some?
      ensures var identity := KeyPairOf(storage.identity.value);
        var signed := ChosenSignedPreKey(old(storage.LoadSignedPreKey(0)), keyHelper, identity, codec);
        var preKeys := if signed.Success? then RequestedPreKeys(keyHelper, 1, preKeyCount) else None;
        r == OutgoingBundle(storage.identity.value.registrationId, identity, signed, preKeys, codec) &&
        storage.preKeys ==
          (if preKeys.Some? then PutPreKeys(old(storage.preKeys), preKeys.value[..SerializedPrefix(preKeys.value)])
           else old(storage.preKeys)) &&
        storage.signedPreKeys ==
          (if signed.Success? && (old(storage.LoadSignedPreKey(0)).None? || r.Success?)
           then old(storage.signedPreKeys).Put(signed.value.preKeyId, signed.value.serializedData.value)
           else old(storage.signedPreKeys))
      ensures storage.sessions == old(storage.sessions)
    {
      var identityKeyPair := storage.GetIdentityKeyPair(storageKeyHelper);
      var deviceId := storage.GetLocalRegistrationId(storageKeyHelper);
      var storedData := storage.LoadSignedPreKey(0);
      ghost var signed := ChosenSignedPreKey(storedData, keyHelper, identityKeyPair, codec);
      ghost var signedTable := storage.signedPreKeys;

      var signalSignedPreKey: Option<SignalSignedPreKey>;
      if storedData.Some? {
        signalSignedPreKey := codec.signedPreKey(storedData.value);
        if signalSignedPreKey.None? {
          return Failure(SignalFailure);
        }
      } else {
        signalSignedPreKey := GenerateRandomSignedPreKey(keyHelper, storageKeyHelper);
      }
      if signalSignedPreKey.None? || signalSignedPreKey.value.serializedData.None? {
        return Failure(KeyGeneration);
      }
      var signedPreKey := signalSignedPreKey.value;
      var signedPreKeyData := signedPreKey.serializedData.value;
      assert signed == Success(signedPreKey);

      var preKeys := GeneratePreKeys(keyHelper, 1, preKeyCount);
      if preKeys.None? {
        return Failure(KeyGeneration);
      }

      r := BundleFromSignal(deviceId, identityKeyPair, signedPreKey, preKeys.value, codec);
      if r.Failure? {
        return;
      }
      var _ := storage.StoreSignedPreKey(signedPreKeyData, signedPreKey.preKeyId);
      if storedData.None? {
        PutOverwrites(signedTable, signedPreKey.preKeyId, signedPreKeyData, signedPreKeyData);
      }
    }

    /** `sessionRecordExistsForUsername(_:deviceId:)`: decided by the device id alone. */
    function SessionRecordExistsForUsername(username: string, deviceId: int): (r: bool)
      reads this, storage
      ensures r <==> deviceId in storage.sessions
    {
      storage.SessionRecordExists(Address(username, deviceId))
    }

    /** `removeSessionRecordForUsername(_:deviceId:)`: removes the device's session, whoever it was stored for. */
    method RemoveSessionRecordForUsername(username: string, deviceId: int) returns (ok: bool)
      requires Valid()
      modifies storage
      ensures Valid()
      ensures ok <==> deviceId in old(storage.sessions)
      ensures storage.sessions == old(storage.sessions) - {deviceId}
      ensures storage.identity == old(storage.identity) && storage.preKeys == old(storage.preKeys)
      ensures storage.signedPreKeys == old(storage.signedPreKeys)
    {
      ok := storage.DeleteSessionRecord(Address(username, deviceId));
    }
  }
}
