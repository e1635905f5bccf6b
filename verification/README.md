# Keyset handle lifecycle (Tink, Java)

A Dafny model of Tink's `KeysetHandle`. A keyset handle is the only way
callers hold a keyset, meaning an ordered list of keys plus a primary key
id. The model covers four parts:

- the emptiness checks that gate every way of building a handle;
- the self-verifying envelope encryption: serialize, encrypt with empty
  associated data, then decrypt, parse and compare against the original
  before the ciphertext is trusted;
- decryption followed by the parse and emptiness checks;
- derivation of a public-key-only handle from a handle of private keys.

Layout:

- `wrappers.dfy` (module `Wrappers`): `Option`, `Result` and `Outcome`.
  `None` stands for Java `null`. `Failure`/`Fail` stand for a thrown
  exception.
- `keyset_model.dfy` (module `KeysetModel`): the records `KeyData`, `Key`,
  `Keyset`, `EncryptedKeyset` and `KeysetInfo`. It also holds the
  sufficiency predicates and the redacted metadata view `Info`.
- `collaborators.dfy` (module `Collaborators`): the code the handle calls
  but does not implement. Each is passed in as a value of total functions:
  - the master key (`MasterKey`, an AEAD);
  - the protobuf codec (`Codec`: `serialize`, and `parse` that may fail);
  - the primitive registry (`Registry`: `getPublicKeyData`,
    `getPrimitive`).

  Nothing is assumed about these beyond what a lemma states as a
  hypothesis. In particular, `parse(serialize(k)) == k` is never assumed.
  Each master-key call takes a `Moment`, the outside state at the time of
  the call. So "decryption is deterministic" is an explicit hypothesis
  (`DecryptDeterministic`) rather than something built into the model.
- `keyset_handle.dfy` (module `KeysetHandle`): the handle's operations.
  The handle's own errors are `EmptyKeyset` ("empty keyset"),
  `CannotEncrypt` ("cannot encrypt keyset"), `CorruptedKeyMaterial`
  ("invalid keyset, corrupted key material") and `NonPrivateKey` ("The
  keyset contains a non-private key"). Errors from the master key, the
  registry and the reader are passed on unchanged, wrapped in a variant
  that names where they came from.
- `keyset_handle_properties.dfy` (module `KeysetHandleProperties`): lemmas
  that relate several operations.

Three behaviours of the code worth noting:

- During encryption's self-check, a failing decryption is passed on as the
  master key's own error, not as "cannot encrypt keyset". A plaintext that
  does not parse is reported as "invalid keyset, corrupted key material".
  Only a keyset that parses but differs from the original gives "cannot
  encrypt keyset".
- A decrypted keyset with no keys fails with "empty keyset", the same
  error the other emptiness checks raise.
- Public-view derivation does not check that the registry's derived key
  data is tagged `ASYMMETRIC_PUBLIC`. It only requires that the registry
  can build a primitive from it.

## Model

| member | source | states |
|---|---|---|
| KeysetHandle.AssertEnoughKeyMaterial | java/src/main/java/com/google/crypto/tink/KeysetHandle.java:199-203 | Fails with "empty keyset" exactly when the keyset is null or has no keys, and passes otherwise |
| KeysetHandle.AssertEnoughEncryptedKeyMaterial | java/src/main/java/com/google/crypto/tink/KeysetHandle.java:210-215 | Fails with "empty keyset" exactly when the encrypted keyset is null or its ciphertext is empty, and passes otherwise |
| KeysetHandle.FromKeyset | java/src/main/java/com/google/crypto/tink/KeysetHandle.java:47-58 | Succeeds exactly on a non-null keyset with keys, and the handle's `getKeyset` returns that same keyset; otherwise fails with "empty keyset" |
| KeysetHandle.GetKeyset | java/src/main/java/com/google/crypto/tink/KeysetHandle.java:56-58 | Returns the keyset the handle wraps, so the handle is determined by it. A handle built by this module yields a keyset with keys |
| KeysetModel.Info | java/src/main/java/com/google/crypto/tink/KeysetHandle.java:89-91 | The metadata view has the keyset's primary key id and one entry per key, in order, with that key's id, status, output prefix and type URL; it holds no key material |
| KeysetHandle.Encrypt | java/src/main/java/com/google/crypto/tink/KeysetHandle.java:114-132 | Returns a result exactly when the master key encrypts the serialized keyset and decrypting that ciphertext (empty associated data) parses back to a keyset equal to the input. The result holds that very ciphertext with the plaintext keyset's metadata. An encrypt or decrypt failure is passed on unchanged; a parse failure gives "corrupted key material"; a different keyset gives "cannot encrypt keyset" |
| KeysetHandle.Decrypt | java/src/main/java/com/google/crypto/tink/KeysetHandle.java:137-148 | A result is a non-empty keyset that the ciphertext decrypts and parses to. A ciphertext that recovers a keyset yields it, or "empty keyset" when it has no keys. A decrypt failure is passed on; a plaintext that does not parse gives "corrupted key material" |
| KeysetHandle.FromKeysetReader | java/src/main/java/com/google/crypto/tink/KeysetHandle.java:67-72 | A read failure is passed on. A null or empty envelope fails with "empty keyset". Otherwise the outcome is that of decryption, wrapped in a handle. Every resulting handle is non-empty and wraps the keyset the ciphertext recovers |
| KeysetHandle.Validate | java/src/main/java/com/google/crypto/tink/KeysetHandle.java:181-184 | Passes exactly when the registry can build a primitive from the key data, and otherwise carries the registry's error |
| KeysetHandle.CreatePublicKeyData | java/src/main/java/com/google/crypto/tink/KeysetHandle.java:170-179 | Non-private key data fails with "non-private key". The call succeeds exactly when the data is private, the registry derives public key data, and that public data validates. On success it returns the registry's derived key data. A failure of `getPublicKeyData` or of `getPrimitive` on the derived data is passed on with the registry's own message |
| KeysetHandle.DerivePublicKeys | java/src/main/java/com/google/crypto/tink/KeysetHandle.java:158-165 | Succeeds exactly when every key has a derivable public counterpart. The result then has the same length and order, and each key changes only its key data, to the derived public data. A failure is the error of the first key that fails |
| KeysetHandle.GetPublicKeysetHandle | java/src/main/java/com/google/crypto/tink/KeysetHandle.java:154-168 | All or nothing. Any non-private key makes it fail, and a "non-private key" failure implies such a key exists. A success is a public view of the source: same primary key id, same keys in order with the same id, status and prefix, and registry-derived, validated key data. A failure carries the error of the first key without a public counterpart. A non-empty source gives a non-empty result |
| KeysetModel.InfoIgnoresKeyMaterial | java/src/main/java/com/google/crypto/tink/KeysetHandle.java:86-91 | A handle's metadata does not depend on key material: keysets that differ only in key values have equal metadata |
| KeysetHandleProperties.EncryptThenDecrypt | java/src/main/java/com/google/crypto/tink/KeysetHandle.java:114-148 | If encryption of a non-empty keyset succeeds and the master key's decryption is deterministic, a later decryption of the result returns the same keyset |
| KeysetHandleProperties.EncryptThenLoad | java/src/main/java/com/google/crypto/tink/KeysetHandle.java:67-148 | Under the same hypotheses, and if the cipher never yields an empty ciphertext, loading the encrypted keyset through the reader path gives a handle of the original keyset. Its metadata equals the metadata stored in the envelope |
| KeysetHandleProperties.RoundTripNeedsDeterministicDecrypt | java/src/main/java/com/google/crypto/tink/KeysetHandle.java:114-148 | Without deterministic decryption the round trip can fail: some master key passes the self-check and a later decryption still fails |
| KeysetHandleProperties.EncryptSucceedsWhenFaithful | java/src/main/java/com/google/crypto/tink/KeysetHandle.java:114-131 | With a master key and codec that invert each other on the keyset, encryption succeeds and returns the cipher's ciphertext and the keyset's metadata |
| KeysetHandleProperties.EmptyEnvelopeNeverReachesMasterKey | java/src/main/java/com/google/crypto/tink/KeysetHandle.java:67-72 | A null or empty envelope fails with "empty keyset" whatever the master key and codec are, so neither is consulted |
| KeysetHandleProperties.HandlesAreNonEmpty | java/src/main/java/com/google/crypto/tink/KeysetHandle.java:47-168 | Every handle built by `fromKeyset`, `fromKeysetReader` or `getPublicKeysetHandle` (from a non-empty handle) wraps a keyset with keys |
| KeysetHandleProperties.PublicViewUnique | java/src/main/java/com/google/crypto/tink/KeysetHandle.java:158-167 | A keyset has at most one public view under a given registry |
| KeysetHandleProperties.PublicViewComplete | java/src/main/java/com/google/crypto/tink/KeysetHandle.java:154-179 | Whenever a public view of a handle's keyset exists, public-view derivation succeeds and returns exactly that view |
| KeysetHandleProperties.PublicViewKeepsMetadata | java/src/main/java/com/google/crypto/tink/KeysetHandle.java:158-166 | The public handle's metadata keeps the primary key id, the number of keys, and each key's id, status and output prefix |

## Left out

- `generateNew` (lines 79-84): it delegates to `KeysetManager.rotate`. `KeysetManager` is not part of this model.
- `write` and `writeEncrypted` (lines 96-109): they only hand the keyset, or the result of `encrypt`, to a `KeysetWriter`. That is I/O.
- `toString` (lines 189-192): it prints the metadata view.
- `KeysetReader.readEncrypted`: this is I/O. `FromKeysetReader` takes the read's outcome as a parameter: an I/O failure, a null, or an encrypted keyset.
- `Util.getKeysetInfo` is not part of this model. `KeysetModel.Info` projects, per key, its type URL, status, id and output prefix, plus the primary key id.
- The protobuf definitions of the records are not part of this model. Key material types are unknown, symmetric, asymmetric private and asymmetric public. Statuses are unknown, enabled, disabled and destroyed. Output prefixes are unknown, Tink, legacy, raw and crunchy. Protobuf wire encoding is the injected `Codec`.
- The AEAD master key, registry internals and primitive construction are injected as uninterpreted total functions. The registry is passed in explicitly instead of being the global `Registry.INSTANCE`.
- KeysetHandle.GetPublicKeysetHandle: omits the `keyset == null` branch ("cleartext keyset is not available", lines 155-157). A `Handle` always holds a keyset, since every constructor path in the source wraps a non-null keyset.
