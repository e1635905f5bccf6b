/** The records a keyset handle works on: keysets, their keys and key data,
    the encrypted envelope, and the redacted metadata view of a keyset. */
module KeysetModel {

  newtype uint8 = x: int | 0 <= x < 0x100
  newtype uint32 = x: int | 0 <= x < 0x1_0000_0000

  type Bytes = seq<uint8>

  /** How a key's material may be used. Only `AsymmetricPrivate` is
      interpreted by the handle; `UnknownMaterial` is the protobuf default. */
  datatype KeyMaterialType =
    | UnknownMaterial
    | Symmetric
    | AsymmetricPrivate
    | AsymmetricPublic

  /** A key's status; copied verbatim, never interpreted. */
  datatype KeyStatusType = UnknownStatus | Enabled | Disabled | Destroyed

  /** How ciphertexts of a key are prefixed; copied verbatim, never interpreted. */
  datatype OutputPrefixType = UnknownPrefix | Tink | Legacy | Raw | Crunchy

  /** Key material: the algorithm family's type URL, the opaque serialized
      key, and what kind of material it is. */
  datatype KeyData = KeyData(typeUrl: string, value: Bytes, keyMaterialType: KeyMaterialType)

  /** One entry of a keyset. */
  datatype Key = Key(keyData: KeyData, status: KeyStatusType, keyId: uint32, outputPrefixType: OutputPrefixType)

  /** An ordered sequence of keys and the id of the primary one. The id is
      not required to name one of the keys. */
  datatype Keyset = Keyset(primaryKeyId: uint32, keys: seq<Key>)

  /** Metadata of one key: everything except the key material itself. */
  datatype KeyInfo = KeyInfo(typeUrl: string, status: KeyStatusType, keyId: uint32, outputPrefixType: OutputPrefixType)

  /** Metadata of a keyset, safe to log. */
  datatype KeysetInfo = KeysetInfo(primaryKeyId: uint32, keyInfo: seq<KeyInfo>)

  /** A serialized keyset encrypted under a master key, with the metadata of
      the plaintext keyset it holds. */
  datatype EncryptedKeyset = EncryptedKeyset(encryptedKeyset: Bytes, keysetInfo: KeysetInfo)

  /** A keyset holds enough key material to be wrapped by a handle. */
  predicate Sufficient(ks: Keyset) {
    |ks.keys| > 0
  }

  /** An encrypted keyset holds enough material to be worth decrypting. */
  predicate EnvelopeSufficient(ek: EncryptedKeyset) {
    |ek.encryptedKeyset| > 0
  }

  function KeyInfoOf(k: Key): (r: KeyInfo) {
    KeyInfo(k.keyData.typeUrl, k.status, k.keyId, k.outputPrefixType)
  }

  /** The redacted view of a keyset: one entry per key, in order, holding
      its type URL, status, id and output prefix, and the primary key id. */
  function Info(ks: Keyset): (r: KeysetInfo)
    ensures r.primaryKeyId == ks.primaryKeyId
    ensures |r.keyInfo| == |ks.keys|
    ensures forall i :: 0 <= i < |ks.keys| ==>
              && r.keyInfo[i].keyId == ks.keys[i].keyId
              && r.keyInfo[i].status == ks.keys[i].status
              && r.keyInfo[i].outputPrefixType == ks.keys[i].outputPrefixType
              && r.keyInfo[i].typeUrl == ks.keys[i].keyData.typeUrl
  {
    KeysetInfo(ks.primaryKeyId, seq(|ks.keys|, i requires 0 <= i < |ks.keys| => KeyInfoOf(ks.keys[i])))
  }

  /** Two keysets that differ at most in key material values: same primary
      id, same number of keys, and per position everything but
      `keyData.value` agrees. */
  ghost predicate SameUpToKeyMaterial(a: Keyset, b: Keyset) {
    && a.primaryKeyId == b.primaryKeyId
    && |a.keys| == |b.keys|
    && forall i :: 0 <= i < |a.keys| ==>
         && a.keys[i].keyId == b.keys[i].keyId
         && a.keys[i].status == b.keys[i].status
         && a.keys[i].outputPrefixType == b.keys[i].outputPrefixType
         && a.keys[i].keyData.typeUrl == b.keys[i].keyData.typeUrl
  }

  /** The metadata view carries no key material: keysets that differ only
      in their key material have the same metadata. */
  lemma InfoIgnoresKeyMaterial(a: Keyset, b: Keyset)
    requires SameUpToKeyMaterial(a, b)
    ensures Info(a) == Info(b)
  {
  }
}
