/**
 * The OMEMO values of XMPPFramework and the conversions the app adds to
 * them: prekeys and signed prekeys from Signal keys or database rows, a
 * bundle copy with new prekeys, the Signal bundle built from one prekey,
 * and the two validating bundle initialisers.
 */
module OmemoExtension {
  import opened Wrappers
  import opened Text
  import opened Sequences
  import opened SignalProtocol
  import opened SignalRecords

  datatype OmemoPreKey = OmemoPreKey(preKeyId: int, publicKey: Bytes)

  datatype OmemoSignedPreKey = OmemoSignedPreKey(preKeyId: int, publicKey: Bytes, signature: Bytes)

  datatype OmemoBundle = OmemoBundle(
    deviceId: int,
    identityKey: Bytes,
    signedPreKey: OmemoSignedPreKey,
    preKeys: seq<OmemoPreKey>)

  /** One `<key rid=…>` entry of an OMEMO message. */
  datatype OmemoKeyData = OmemoKeyData(deviceId: int, data: Bytes, isPreKey: bool)

  /** `OMEMOBundleError`, plus the errors the Signal library throws. */
  datatype BundleError = NotFound | Invalid | KeyGeneration | SignalFailure

  // ------------------------------------------------------ prekeys

  /** One step of `preKeysFromSignal`: a prekey with a public key becomes an OMEMO prekey. */
  function OmemoPreKeyOf(p: SignalPreKey): (r: Option<OmemoPreKey>)
    ensures r.Some? <==> p.keyPair.Some?
    ensures r.Some? ==> r.value.preKeyId == p.preKeyId && r.value.publicKey == p.keyPair.value.publicKey
  {
    match p.keyPair
    case Some(kp) => Some(OmemoPreKey(p.preKeyId, kp.publicKey))
    case None => None
  }

  /** What `preKeysFromSignal` returns. */
  function OmemoPreKeysOf(pks: seq<SignalPreKey>): seq<OmemoPreKey>
  {
    FilterMap(pks, OmemoPreKeyOf)
  }

  /** `OMEMOPreKey.preKeysFromSignal`: the `forEach` that appends every prekey with a public key. */
  method PreKeysFromSignal(pks: seq<SignalPreKey>) returns (omemoPreKeys: seq<OmemoPreKey>)
    ensures omemoPreKeys == OmemoPreKeysOf(pks)
  {
    omemoPreKeys := [];
    for i := 0 to |pks|
      invariant omemoPreKeys == FilterMap(pks[..i], OmemoPreKeyOf)
    {
      assert pks[..i + 1][..i] == pks[..i];
      match pks[i].keyPair {
        case None =>
        case Some(kp) =>
          omemoPreKeys := omemoPreKeys + [OmemoPreKey(pks[i].preKeyId, kp.publicKey)];
      }
    }
    assert pks[..|pks|] == pks;
  }

  /** `o` carries the id and public key of one of the prekeys `pks`. */
  ghost predicate ConvertedFrom(o: OmemoPreKey, pks: seq<SignalPreKey>)
  {
    exists i :: 0 <= i < |pks| && pks[i].keyPair.Some? && o == OmemoPreKey(pks[i].preKeyId, pks[i].keyPair.value.publicKey)
  }

  /**
   * `preKeysFromSignal` is never longer than its input, every result keeps
   * the id and public key of an input prekey, every input prekey with a
   * public key is kept, and nothing is dropped when all have one.
   */
  lemma PreKeysFromSignalKeepsKeys(pks: seq<SignalPreKey>)
    ensures |OmemoPreKeysOf(pks)| <= |pks|
    ensures forall j :: 0 <= j < |OmemoPreKeysOf(pks)| ==> ConvertedFrom(OmemoPreKeysOf(pks)[j], pks)
    ensures forall i :: 0 <= i < |pks| && pks[i].keyPair.Some? ==>
      OmemoPreKey(pks[i].preKeyId, pks[i].keyPair.value.publicKey) in OmemoPreKeysOf(pks)
    ensures |OmemoPreKeysOf(pks)| == |pks| <==> forall i :: 0 <= i < |pks| ==> pks[i].keyPair.Some?
  {
    forall j | 0 <= j < |OmemoPreKeysOf(pks)|
      ensures ConvertedFrom(OmemoPreKeysOf(pks)[j], pks)
    {
      FilterMapFrom(pks, OmemoPreKeyOf, j);
    }
    forall i | 0 <= i < |pks| && pks[i].keyPair.Some?
      ensures OmemoPreKey(pks[i].preKeyId, pks[i].keyPair.value.publicKey) in OmemoPreKeysOf(pks)
    {
      FilterMapKeeps(pks, OmemoPreKeyOf, i);
    }
    FilterMapTotal(pks, OmemoPreKeyOf);
  }

  /** `preKeysFromSignal` keeps the input order: a concatenation converts part by part. */
  lemma PreKeysFromSignalKeepsOrder(a: seq<SignalPreKey>, b: seq<SignalPreKey>)
    ensures OmemoPreKeysOf(a + b) == OmemoPreKeysOf(a) + OmemoPreKeysOf(b)
  {
    FilterMapAppend(a, b, OmemoPreKeyOf);
  }

  // ------------------------------------------------------ signed prekeys

  /** `OMEMOSignedPreKey(signedPreKey: SignalSignedPreKey)`: needs a public key. */
  function SignedPreKeyFromSignal(spk: SignalSignedPreKey): (r: Result<OmemoSignedPreKey, BundleError>)
    ensures r.Failure? <==> spk.keyPair.None?
    ensures r.Failure? ==> r.error == Invalid
    ensures r.Success? ==> r.value.preKeyId == spk.preKeyId && r.value.signature == spk.signature
    ensures r.Success? ==> r.value.publicKey == spk.keyPair.value.publicKey
  {
    match spk.keyPair
    case None => Failure(Invalid)
    case Some(kp) => Success(OmemoSignedPreKey(spk.preKeyId, kp.publicKey, spk.signature))
  }

  /**
   * `OMEMOSignedPreKey(signedPreKey: SignedPreKeyDBModel)`: the row's data is
   * deserialised (a throw propagates), a public key is required, and the id
   * is the row's stored `keyId`, not the deserialised one.
   */
  function SignedPreKeyFromRecord(row: SignedPreKeyRecord, codec: SignalCodec): (r: Result<OmemoSignedPreKey, BundleError>)
    ensures r.Success? <==> codec.signedPreKey(row.keyData).Some? && codec.signedPreKey(row.keyData).value.keyPair.Some?
    ensures codec.signedPreKey(row.keyData).None? ==> r == Failure(SignalFailure)
    ensures codec.signedPreKey(row.keyData).Some? && codec.signedPreKey(row.keyData).value.keyPair.None? ==>
      r == Failure(Invalid)
    ensures r.Success? ==>
      var spk := codec.signedPreKey(row.keyData).value;
      codec.signedPreKey(row.keyData).Some? && spk.keyPair.Some? &&
      r.value == OmemoSignedPreKey(row.keyId, spk.keyPair.value.publicKey, spk.signature)
  {
    match codec.signedPreKey(row.keyData)
    case None => Failure(SignalFailure)
    case Some(spk) =>
      match spk.keyPair
      case None => Failure(Invalid)
      case Some(kp) => Success(OmemoSignedPreKey(row.keyId, kp.publicKey, spk.signature))
  }

  // ------------------------------------------------------ bundles

  /** `copyBundle(newPreKeys:)`: the same device, identity and signed prekey, with the given prekeys. */
  function CopyBundle(b: OmemoBundle, newPreKeys: seq<OmemoPreKey>): (r: OmemoBundle)
    ensures r.deviceId == b.deviceId && r.identityKey == b.identityKey && r.signedPreKey == b.signedPreKey
    ensures r.preKeys == newPreKeys
  {
    OmemoBundle(b.deviceId, b.identityKey, b.signedPreKey, newPreKeys)
  }

  /** Copying a copy back with the original prekeys gives the original bundle. */
  lemma CopyBundleRestores(b: OmemoBundle, newPreKeys: seq<OmemoPreKey>)
    ensures CopyBundle(CopyBundle(b, newPreKeys), b.preKeys) == b
  {
  }

  /** The `SignalPreKeyBundle` arguments for a bundle and one of its prekeys, with registration id 0. */
  function PreKeyBundleFor(deviceId: int, preKey: OmemoPreKey, signed: OmemoSignedPreKey, identityKey: Bytes): SignalPreKeyBundle
  {
    SignalPreKeyBundle(0, deviceId, preKey.preKeyId, preKey.publicKey, signed.preKeyId, signed.publicKey,
                       signed.signature, identityKey)
  }

  /**
   * `signalBundle()`: a Signal bundle for the prekey at `index`, which the
   * source draws with `arc4random_uniform(count)`; an empty prekey list
   * would trap on the subscript.
   */
  function SignalBundle(b: OmemoBundle, index: int, codec: SignalCodec): (r: Result<SignalPreKeyBundle, BundleError>)
    requires 0 <= index < |b.preKeys|
    ensures r.Success? <==> codec.acceptsBundle(PreKeyBundleFor(b.deviceId, b.preKeys[index], b.signedPreKey, b.identityKey))
    ensures r.Failure? ==> r.error == SignalFailure
    ensures r.Success? ==>
      var pb := r.value;
      pb.registrationId == 0 && pb.deviceId == b.deviceId && pb.identityKey == b.identityKey &&
      OmemoPreKey(pb.preKeyId, pb.preKeyPublic) in b.preKeys &&
      pb.signedPreKeyId == b.signedPreKey.preKeyId && pb.signedPreKeyPublic == b.signedPreKey.publicKey &&
      pb.signature == b.signedPreKey.signature
  {
    var pb := PreKeyBundleFor(b.deviceId, b.preKeys[index], b.signedPreKey, b.identityKey);
    if codec.acceptsBundle(pb) then Success(pb) else Failure(SignalFailure)
  }

  /**
   * Whether the Signal bundle built from a signed prekey and the first of a
   * list of prekeys, both with a public key, is accepted.
   */
  predicate SignalKeysAccepted(deviceId: int, identity: SignalIdentityKeyPair, signed: SignalSignedPreKey,
                               preKeys: seq<SignalPreKey>, codec: SignalCodec)
  {
    signed.keyPair.Some? && |preKeys| > 0 && preKeys[0].keyPair.Some? &&
    codec.acceptsBundle(PreKeyBundleFor(deviceId, OmemoPreKey(preKeys[0].preKeyId, preKeys[0].keyPair.value.publicKey),
                                        SignedPreKeyFromSignal(signed).value, identity.publicKey))
  }

  /**
   * `OMEMOBundle(deviceId:identity:signedPreKey:preKeys:)`: converts the
   * signed prekey, requires the first prekey to have a public key and the
   * Signal bundle built from it to be accepted, and keeps every prekey with
   * a public key.
   */
  function BundleFromSignal(deviceId: int, identity: SignalIdentityKeyPair, signed: SignalSignedPreKey,
                            preKeys: seq<SignalPreKey>, codec: SignalCodec): (r: Result<OmemoBundle, BundleError>)
    ensures signed.keyPair.None? ==> r == Failure(Invalid)
    ensures signed.keyPair.Some? && (|preKeys| == 0 || preKeys[0].keyPair.None?) ==> r == Failure(Invalid)
    ensures r.Success? <==> SignalKeysAccepted(deviceId, identity, signed, preKeys, codec)
    ensures r.Failure? && signed.keyPair.Some? && |preKeys| > 0 && preKeys[0].keyPair.Some? ==> r.error == SignalFailure
    ensures r.Success? ==>
      r.value.deviceId == deviceId && r.value.identityKey == identity.publicKey &&
      SignedPreKeyFromSignal(signed) == Success(r.value.signedPreKey) &&
      r.value.preKeys == OmemoPreKeysOf(preKeys)
    ensures r.Success? ==> |preKeys| > 0 && |r.value.preKeys| > 0 && r.value.preKeys[0] == OmemoPreKey(preKeys[0].preKeyId, preKeys[0].keyPair.value.publicKey)
  {
    match SignedPreKeyFromSignal(signed)
    case Failure(e) => Failure(e)
    case Success(omemoSigned) =>
      if |preKeys| > 0 && preKeys[0].keyPair.Some? then
        var first := OmemoPreKey(preKeys[0].preKeyId, preKeys[0].keyPair.value.publicKey);
        if codec.acceptsBundle(PreKeyBundleFor(deviceId, first, omemoSigned, identity.publicKey)) then
          FirstOmemoPreKey(preKeys);
          Success(OmemoBundle(deviceId, identity.publicKey, omemoSigned, OmemoPreKeysOf(preKeys)))
        else Failure(SignalFailure)
      else Failure(Invalid)
  }

  lemma FirstOmemoPreKey(preKeys: seq<SignalPreKey>)
    requires |preKeys| > 0 && preKeys[0].keyPair.Some?
    ensures |OmemoPreKeysOf(preKeys)| > 0
    ensures OmemoPreKeysOf(preKeys)[0] == OmemoPreKey(preKeys[0].preKeyId, preKeys[0].keyPair.value.publicKey)
  {
    FilterMapAppend([preKeys[0]], preKeys[1..], OmemoPreKeyOf);
    assert [preKeys[0]] + preKeys[1..] == preKeys;
    assert [preKeys[0]][..0] == [];
  }

  /** One step of the database initialiser's `forEach`: skip empty or undecodable rows and keys without a public key. */
  function StoredPreKey(codec: SignalCodec, row: PreKeyRecord): (r: Option<OmemoPreKey>)
    ensures r.Some? <==> UsableRow(codec, row)
    ensures r.Some? ==> r.value == OmemoPreKey(row.keyId, codec.preKey(row.keyData).value.keyPair.value.publicKey)
  {
    if |row.keyData| == 0 then None
    else match codec.preKey(row.keyData)
      case None => None
      case Some(p) =>
        match p.keyPair
        case None => None
        case Some(kp) => Some(OmemoPreKey(row.keyId, kp.publicKey))
  }

  /** A stored prekey row with data that decodes to a key with a public key. */
  predicate UsableRow(codec: SignalCodec, row: PreKeyRecord)
  {
    |row.keyData| > 0 && codec.preKey(row.keyData).Some? && codec.preKey(row.keyData).value.keyPair.Some?
  }

  function StoredPreKeyOf(codec: SignalCodec): PreKeyRecord -> Option<OmemoPreKey>
  {
    (row: PreKeyRecord) => StoredPreKey(codec, row)
  }

  /** The prekeys the database initialiser collects from the stored rows. */
  function StoredPreKeysOf(rows: seq<PreKeyRecord>, codec: SignalCodec): seq<OmemoPreKey>
  {
    FilterMap(rows, StoredPreKeyOf(codec))
  }

  /** The `forEach` of `OMEMOBundle(identity:signedPreKey:preKeys:)` that collects the usable stored prekeys. */
  method CollectStoredPreKeys(rows: seq<PreKeyRecord>, codec: SignalCodec) returns (omemoPreKeys: seq<OmemoPreKey>)
    ensures omemoPreKeys == StoredPreKeysOf(rows, codec)
  {
    omemoPreKeys := [];
    for i := 0 to |rows|
      invariant omemoPreKeys == FilterMap(rows[..i], StoredPreKeyOf(codec))
    {
      assert rows[..i + 1][..i] == rows[..i];
      var keyData := rows[i].keyData;
      if |keyData| == 0 {
        continue;
      }
      match codec.preKey(keyData) {
        case None =>
        case Some(p) =>
          match p.keyPair {
            case None =>
            case Some(kp) =>
              omemoPreKeys := omemoPreKeys + [OmemoPreKey(rows[i].keyId, kp.publicKey)];
          }
      }
    }
    assert rows[..|rows|] == rows;
  }

  /**
   * Every prekey the database initialiser keeps comes from a stored row with
   * non-empty data that decodes to a key with a public key, under the row's
   * id; removing an unusable row changes nothing.
   */
  lemma StoredPreKeysAreUsable(rows: seq<PreKeyRecord>, codec: SignalCodec)
    ensures forall j :: 0 <= j < |StoredPreKeysOf(rows, codec)| ==> FromUsableRow(StoredPreKeysOf(rows, codec)[j], rows, codec)
    ensures forall i :: 0 <= i < |rows| && !UsableRow(codec, rows[i]) ==> |StoredPreKeysOf(rows[..i] + rows[i + 1..], codec)| == |StoredPreKeysOf(rows, codec)|
  {
    forall j | 0 <= j < |StoredPreKeysOf(rows, codec)|
      ensures FromUsableRow(StoredPreKeysOf(rows, codec)[j], rows, codec)
    {
      FilterMapFrom(rows, StoredPreKeyOf(codec), j);
      var i :| 0 <= i < |rows| && StoredPreKeyOf(codec)(rows[i]) == Some(StoredPreKeysOf(rows, codec)[j]);
      assert StoredPreKey(codec, rows[i]).Some?;
    }
    forall i | 0 <= i < |rows| && !UsableRow(codec, rows[i])
      ensures |StoredPreKeysOf(rows[..i] + rows[i + 1..], codec)| == |StoredPreKeysOf(rows, codec)|
    {
      assert rows == rows[..i] + [rows[i]] + rows[i + 1..];
      FilterMapAppend(rows[..i] + [rows[i]], rows[i + 1..], StoredPreKeyOf(codec));
      FilterMapAppend(rows[..i], [rows[i]], StoredPreKeyOf(codec));
      FilterMapAppend(rows[..i], rows[i + 1..], StoredPreKeyOf(codec));
      assert [rows[i]][..0] == [];
    }
  }

  /** `o` is the prekey of a usable stored row, under that row's id. */
  ghost predicate FromUsableRow(o: OmemoPreKey, rows: seq<PreKeyRecord>, codec: SignalCodec)
  {
    exists i :: 0 <= i < |rows| && UsableRow(codec, rows[i]) && o == StoredPreKey(codec, rows[i]).value
  }

  /** Whether the first stored prekey row passes the initialiser's check that it is usable. */
  predicate FirstRowUsable(rows: seq<PreKeyRecord>, codec: SignalCodec)
  {
    |rows| > 0 && UsableRow(codec, rows[0])
  }

  /**
   * Whether the signed prekey row converts, the first prekey row is usable
   * and the Signal bundle built from the two is accepted.
   */
  predicate RecordsAccepted(identity: IdentityRecord, signed: SignedPreKeyRecord, rows: seq<PreKeyRecord>, codec: SignalCodec)
  {
    SignedPreKeyFromRecord(signed, codec).Success? && FirstRowUsable(rows, codec) &&
    codec.acceptsBundle(PreKeyBundleFor(identity.registrationId, StoredPreKey(codec, rows[0]).value,
                                        SignedPreKeyFromRecord(signed, codec).value, identity.publicKey))
  }

  /**
   * `OMEMOBundle(identity:signedPreKey:preKeys:)`: the signed prekey row is
   * converted (its errors propagate); the first prekey row must be usable and
   * the Signal bundle built from it accepted, otherwise `invalid` is thrown
   * even when later rows are usable; the device id is the identity's
   * registration id.
   */
  function BundleFromRecords(identity: IdentityRecord, signed: SignedPreKeyRecord, rows: seq<PreKeyRecord>,
                             codec: SignalCodec): (r: Result<OmemoBundle, BundleError>)
    ensures SignedPreKeyFromRecord(signed, codec).Failure? ==> r == Failure(SignedPreKeyFromRecord(signed, codec).error)
    ensures SignedPreKeyFromRecord(signed, codec).Success? && !FirstRowUsable(rows, codec) ==> r == Failure(Invalid)
    ensures r.Success? <==> RecordsAccepted(identity, signed, rows, codec)
    ensures r.Failure? && SignedPreKeyFromRecord(signed, codec).Success? && FirstRowUsable(rows, codec) ==> r.error == SignalFailure
    ensures r.Success? ==>
      FirstRowUsable(rows, codec) &&
      r.value.deviceId == identity.registrationId && r.value.identityKey == identity.publicKey &&
      SignedPreKeyFromRecord(signed, codec) == Success(r.value.signedPreKey) &&
      r.value.preKeys == StoredPreKeysOf(rows, codec)
  {
    match SignedPreKeyFromRecord(signed, codec)
    case Failure(e) => Failure(e)
    case Success(omemoSigned) =>
      if FirstRowUsable(rows, codec) then
        var first := StoredPreKey(codec, rows[0]).value;
        if codec.acceptsBundle(PreKeyBundleFor(identity.registrationId, first, omemoSigned, identity.publicKey)) then
          Success(OmemoBundle(identity.registrationId, identity.publicKey, omemoSigned, StoredPreKeysOf(rows, codec)))
        else Failure(SignalFailure)
      else Failure(Invalid)
  }
}
