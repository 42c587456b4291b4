/**
 * The values of SignalProtocolObjC that the core handles. The library's
 * generators, deserialisers, bundle validation and session ciphers are
 * outside the model: they are passed in as functions, one value per call,
 * so that randomness and the library's own state become inputs.
 */
module SignalProtocol {
  import opened Wrappers
  import opened Text

  datatype KeyPair = KeyPair(publicKey: Bytes, privateKey: Bytes)

  /** `SignalPreKey`: its id, its key pair (if any) and its serialisation (nil when that fails). */
  datatype SignalPreKey = SignalPreKey(preKeyId: int, keyPair: Option<KeyPair>, serializedData: Option<Bytes>)

  /** `SignalSignedPreKey`. */
  datatype SignalSignedPreKey = SignalSignedPreKey(
    preKeyId: int,
    keyPair: Option<KeyPair>,
    signature: Bytes,
    serializedData: Option<Bytes>)

  /** `SignalIdentityKeyPair`. */
  datatype SignalIdentityKeyPair = SignalIdentityKeyPair(publicKey: Bytes, privateKey: Bytes)

  /** `SignalAddress`: a name and a device id. */
  datatype SignalAddress = SignalAddress(name: string, deviceId: int)

  datatype CiphertextType = PreKeyMessage | WhisperMessage | UnknownCiphertext

  /** `SignalCiphertext`. */
  datatype SignalCiphertext = SignalCiphertext(data: Bytes, kind: CiphertextType)

  /** The errors of the session cipher that the core tells apart. */
  datatype SignalError = DuplicateMessage | OtherSignalError

  /** The arguments of `SignalPreKeyBundle(registrationId:deviceId:…)`. */
  datatype SignalPreKeyBundle = SignalPreKeyBundle(
    registrationId: int,
    deviceId: int,
    preKeyId: int,
    preKeyPublic: Bytes,
    signedPreKeyId: int,
    signedPreKeyPublic: Bytes,
    signature: Bytes,
    identityKey: Bytes)

  /**
   * What `SignalKeyHelper` returns during one operation: a fresh identity
   * key pair, a fresh registration id, prekeys for a (start, count) request
   * and a signed prekey for an (identity, id) request; nil is failure.
   */
  datatype SignalKeyHelper = SignalKeyHelper(
    identityKeyPair: KeyPair,
    registrationId: int,
    preKeys: (int, int) -> Option<seq<SignalPreKey>>,
    signedPreKey: (SignalIdentityKeyPair, int) -> Option<SignalSignedPreKey>)

  /**
   * The throwing constructors: `SignalPreKey(serializedData:)`,
   * `SignalSignedPreKey(serializedData:)` (nil is a throw) and the checks
   * of `SignalPreKeyBundle(…)` (false is a throw).
   */
  datatype SignalCodec = SignalCodec(
    preKey: Bytes -> Option<SignalPreKey>,
    signedPreKey: Bytes -> Option<SignalSignedPreKey>,
    acceptsBundle: SignalPreKeyBundle -> bool)

  /**
   * `SignalSessionCipher.encryptData`, `decryptCiphertext` and
   * `SignalSessionBuilder.processPreKeyBundle` for an address; the session
   * records the library writes through the store are not modelled.
   */
  datatype SessionCipher = SessionCipher(
    encrypt: (SignalAddress, Bytes) -> Result<SignalCiphertext, SignalError>,
    decrypt: (SignalAddress, Bytes) -> Result<Bytes, SignalError>,
    processPreKeyBundle: (SignalAddress, SignalPreKeyBundle) -> Option<SignalError>)
}
