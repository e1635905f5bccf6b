/** The capabilities a keyset handle uses but does not implement: the master
    key (an authenticated cipher), the protobuf codec of keysets, and the
    primitive registry. Each is an injected value of total functions, so the
    model assumes nothing about them beyond what a lemma states as a
    hypothesis. */
module Collaborators {
  import opened Wrappers
  import opened KeysetModel

  /** The external state in which a master-key call is made: a remote key
      service's state, a clock. Two calls with the same arguments may be
      made in different moments and need not agree. */
  type Moment = nat

  /** An authenticated cipher: `encrypt(plaintext, associatedData, at)` and
      `decrypt(ciphertext, associatedData, at)`; a failure carries the
      cipher's own message. */
  datatype MasterKey = MasterKey(
    encrypt: (Bytes, Bytes, Moment) -> Result<Bytes, string>,
    decrypt: (Bytes, Bytes, Moment) -> Result<Bytes, string>)

  /** The keyset wire format: `serialize` always succeeds, `parse` fails
      (`None`) on bytes that are not a keyset. Nothing relates the two. */
  datatype Codec = Codec(serialize: Keyset -> Bytes, parse: Bytes -> Option<Keyset>)

  /** The primitive registry: `getPublicKeyData(typeUrl, privateValue)`
      derives the public counterpart of private key material, and
      `getPrimitive(keyData)` fails when no working primitive can be built
      from the key data. */
  datatype Registry = Registry(
    getPublicKeyData: (string, Bytes) -> Result<KeyData, string>,
    getPrimitive: KeyData -> Outcome<string>)

  /** The associated data used for every master-key call on a keyset: none. */
  const NoAssociatedData: Bytes := []

  /** The master key's decryption does not depend on the moment of the call. */
  ghost predicate DecryptDeterministic(mk: MasterKey) {
    forall c, ad, m1, m2 :: mk.decrypt(c, ad, m1) == mk.decrypt(c, ad, m2)
  }

  /** Every ciphertext the master key produces is non-empty, as with any
      authenticated cipher, whose output carries at least its tag. */
  ghost predicate CiphertextsNonEmpty(mk: MasterKey) {
    forall p, ad, m :: mk.encrypt(p, ad, m).Success? ==> |mk.encrypt(p, ad, m).value| > 0
  }

  /** Decrypting `ct` with empty associated data at moment `at` succeeds
      and the plaintext parses to exactly `ks`. */
  ghost predicate Recovers(mk: MasterKey, codec: Codec, ct: Bytes, at: Moment, ks: Keyset) {
    && mk.decrypt(ct, NoAssociatedData, at).Success?
    && codec.parse(mk.decrypt(ct, NoAssociatedData, at).value) == Some(ks)
  }
}
