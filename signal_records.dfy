/**
 * The Realm rows of the Signal store: `PreKeyDBModel`, `SignedPreKeyDBModel`,
 * `SignalIdentityDBModel` and `SessionDBModel`.
 */
module SignalRecords {
  import opened Text

  /** A prekey row; primary key `keyId`. */
  datatype PreKeyRecord = PreKeyRecord(keyId: int, keyData: Bytes)

  /** A signed-prekey row; primary key `keyId`. */
  datatype SignedPreKeyRecord = SignedPreKeyRecord(keyId: int, keyData: Bytes)

  /** The identity row; primary key `registrationId`. */
  datatype IdentityRecord = IdentityRecord(privateKey: Bytes, publicKey: Bytes, registrationId: int)

  /** A session row; primary key `deviceId`, the name is stored but not part of the key. */
  datatype SessionRecord = SessionRecord(name: string, sessionData: Bytes, deviceId: int)
}
