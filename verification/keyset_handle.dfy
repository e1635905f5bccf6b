/** The keyset handle: construction from a plaintext or encrypted keyset,
    self-verifying envelope encryption, decryption with validation, and
    derivation of a public-only handle. Every operation either returns its
    whole result or fails; nothing partial is ever produced. */
module KeysetHandle {
  import opened Wrappers
  import opened KeysetModel
  import opened Collaborators

  /** Why an operation failed. The first four are raised by the handle
      itself, with the message given beside each; the last three carry a
      collaborator's failure unchanged. */
  datatype Error =
    | EmptyKeyset              // "empty keyset"
    | CannotEncrypt            // "cannot encrypt keyset"
    | CorruptedKeyMaterial     // "invalid keyset, corrupted key material"
    | NonPrivateKey            // "The keyset contains a non-private key"
    | MasterKeyFailure(cause: string)
    | RegistryFailure(cause: string)
    | ReadFailure(cause: string)

  /** A handle wraps exactly one keyset and never changes it. */
  datatype Handle = Handle(keyset: Keyset)

  /** The invariant every handle built by this module satisfies. */
  predicate Wellformed(h: Handle) {
    Sufficient(h.keyset)
  }

  /** Fails with "empty keyset" on a null keyset or one without keys, and
      passes otherwise. */
  function AssertEnoughKeyMaterial(ks: Option<Keyset>): (r: Outcome<Error>)
    ensures r.Pass? <==> ks.Some? && Sufficient(ks.value)
    ensures r.Fail? ==> r.error == EmptyKeyset
  {
    if ks.None? || |ks.value.keys| <= 0 then Fail(EmptyKeyset) else Pass
  }

  /** Fails with "empty keyset" on a null encrypted keyset or one whose
      ciphertext is empty, and passes otherwise. */
  function AssertEnoughEncryptedKeyMaterial(ek: Option<EncryptedKeyset>): (r: Outcome<Error>)
    ensures r.Pass? <==> ek.Some? && EnvelopeSufficient(ek.value)
    ensures r.Fail? ==> r.error == EmptyKeyset
  {
    if ek.None? || |ek.value.encryptedKeyset| == 0 then Fail(EmptyKeyset) else Pass
  }

  /** Wraps a keyset after checking that it has keys. */
  function FromKeyset(ks: Option<Keyset>): (r: Result<Handle, Error>)
    ensures r.Success? <==> ks.Some? && Sufficient(ks.value)
    ensures r.Success? ==> GetKeyset(r.value) == ks.value && Wellformed(r.value)
    ensures r.Failure? ==> r.error == EmptyKeyset
  {
    match AssertEnoughKeyMaterial(ks)
    case Fail(e) => Failure(e)
    case Pass => Success(Handle(ks.value))
  }

  /** The keyset a handle wraps: the handle is exactly that keyset, and a
      handle built by this module yields one with keys. */
  function GetKeyset(h: Handle): (r: Keyset)
    ensures Handle(r) == h
    ensures Wellformed(h) ==> Sufficient(r)
  {
    h.keyset
  }

  /** The metadata of the wrapped keyset. */
  function GetKeysetInfo(h: Handle): (r: KeysetInfo)
    ensures r == Info(GetKeyset(h))
  {
    Info(h.keyset)
  }

  /** Encrypts `ks` under `mk` with empty associated data, then decrypts the
      ciphertext again (at moment `atVerify`), parses it and compares it with
      `ks`; the ciphertext is returned only if that comparison holds. The
      master key's own failures are passed on unchanged. */
  function Encrypt(ks: Keyset, mk: MasterKey, codec: Codec, atEncrypt: Moment, atVerify: Moment)
    : (r: Result<EncryptedKeyset, Error>)
    // the result is exactly the verified ciphertext, with the plaintext's metadata
    ensures r.Success? ==>
              && mk.encrypt(codec.serialize(ks), NoAssociatedData, atEncrypt) == Success(r.value.encryptedKeyset)
              && Recovers(mk, codec, r.value.encryptedKeyset, atVerify, ks)
              && r.value.keysetInfo == Info(ks)
    // and it is produced whenever the verification holds
    ensures mk.encrypt(codec.serialize(ks), NoAssociatedData, atEncrypt).Success? &&
            Recovers(mk, codec, mk.encrypt(codec.serialize(ks), NoAssociatedData, atEncrypt).value, atVerify, ks)
            ==> r.Success?
    // a failing encryption is passed on
    ensures mk.encrypt(codec.serialize(ks), NoAssociatedData, atEncrypt).Failure? ==>
              r == Failure(MasterKeyFailure(mk.encrypt(codec.serialize(ks), NoAssociatedData, atEncrypt).error))
    // a failing verification decryption is passed on
    ensures mk.encrypt(codec.serialize(ks), NoAssociatedData, atEncrypt).Success? &&
            mk.decrypt(mk.encrypt(codec.serialize(ks), NoAssociatedData, atEncrypt).value, NoAssociatedData, atVerify).Failure? ==>
              r == Failure(MasterKeyFailure(
                     mk.decrypt(mk.encrypt(codec.serialize(ks), NoAssociatedData, atEncrypt).value, NoAssociatedData, atVerify).error))
    // a verification plaintext that does not parse
    ensures r == Failure(CorruptedKeyMaterial) <==>
              && mk.encrypt(codec.serialize(ks), NoAssociatedData, atEncrypt).Success?
              && mk.decrypt(mk.encrypt(codec.serialize(ks), NoAssociatedData, atEncrypt).value, NoAssociatedData, atVerify).Success?
              && codec.parse(mk.decrypt(mk.encrypt(codec.serialize(ks), NoAssociatedData, atEncrypt).value, NoAssociatedData, atVerify).value).None?
    // a verification plaintext that parses to a different keyset
    ensures r == Failure(CannotEncrypt) <==>
              && mk.encrypt(codec.serialize(ks), NoAssociatedData, atEncrypt).Success?
              && mk.decrypt(mk.encrypt(codec.serialize(ks), NoAssociatedData, atEncrypt).value, NoAssociatedData, atVerify).Success?
              && codec.parse(mk.decrypt(mk.encrypt(codec.serialize(ks), NoAssociatedData, atEncrypt).value, NoAssociatedData, atVerify).value).Some?
              && codec.parse(mk.decrypt(mk.encrypt(codec.serialize(ks), NoAssociatedData, atEncrypt).value, NoAssociatedData, atVerify).value).value != ks
  {
    match mk.encrypt(codec.serialize(ks), NoAssociatedData, atEncrypt)
    case Failure(c) => Failure(MasterKeyFailure(c))
    case Success(ct) =>
      match mk.decrypt(ct, NoAssociatedData, atVerify)
      case Failure(c) => Failure(MasterKeyFailure(c))
      case Success(pt) =>
        match codec.parse(pt)
        case None => Failure(CorruptedKeyMaterial)
        case Some(ks2) =>
          if ks2 != ks then Failure(CannotEncrypt)
          else Success(EncryptedKeyset(ct, Info(ks)))
  }

  /** Decrypts an encrypted keyset with empty associated data, parses the
      plaintext and checks that the keyset has keys. */
  function Decrypt(ek: EncryptedKeyset, mk: MasterKey, codec: Codec, at: Moment): (r: Result<Keyset, Error>)
    // a result is a non-empty keyset the ciphertext decrypts to
    ensures r.Success? ==> Recovers(mk, codec, ek.encryptedKeyset, at, r.value) && Sufficient(r.value)
    // a ciphertext that decrypts to a keyset yields it, unless it is empty
    ensures forall ks :: Recovers(mk, codec, ek.encryptedKeyset, at, ks) ==>
              r == if Sufficient(ks) then Success(ks) else Failure(EmptyKeyset)
    // a failing decryption is passed on
    ensures mk.decrypt(ek.encryptedKeyset, NoAssociatedData, at).Failure? ==>
              r == Failure(MasterKeyFailure(mk.decrypt(ek.encryptedKeyset, NoAssociatedData, at).error))
    // a plaintext that does not parse
    ensures r == Failure(CorruptedKeyMaterial) <==>
              mk.decrypt(ek.encryptedKeyset, NoAssociatedData, at).Success? &&
              codec.parse(mk.decrypt(ek.encryptedKeyset, NoAssociatedData, at).value).None?
  {
    match mk.decrypt(ek.encryptedKeyset, NoAssociatedData, at)
    case Failure(c) => Failure(MasterKeyFailure(c))
    case Success(pt) =>
      match codec.parse(pt)
      case None => Failure(CorruptedKeyMaterial)
      case Some(ks) =>
        match AssertEnoughKeyMaterial(Some(ks))
        case Fail(e) => Failure(e)
        case Pass => Success(ks)
  }

  /** Builds a handle from what a reader returned: a read failure, a
      (possibly null) encrypted keyset. The envelope is checked for
      emptiness before the master key is used. */
  function FromKeysetReader(read: Result<Option<EncryptedKeyset>, string>, mk: MasterKey, codec: Codec, at: Moment)
    : (r: Result<Handle, Error>)
    ensures r.Success? ==> Wellformed(r.value)
    ensures r.Success? ==>
              && read.Success? && read.value.Some?
              && EnvelopeSufficient(read.value.value)
              && Recovers(mk, codec, read.value.value.encryptedKeyset, at, r.value.keyset)
    ensures read.Failure? ==> r == Failure(ReadFailure(read.error))
    ensures read.Success? && (read.value.None? || !EnvelopeSufficient(read.value.value)) ==>
              r == Failure(EmptyKeyset)
    ensures read.Success? && read.value.Some? && EnvelopeSufficient(read.value.value) ==>
              r == match Decrypt(read.value.value, mk, codec, at)
                   case Success(ks) => Success(Handle(ks))
                   case Failure(e) => Failure(e)
  {
    match read
    case Failure(c) => Failure(ReadFailure(c))
    case Success(ek) =>
      match AssertEnoughEncryptedKeyMaterial(ek)
      case Fail(e) => Failure(e)
      case Pass =>
        match Decrypt(ek.value, mk, codec, at)
        case Failure(e) => Failure(e)
        case Success(ks) => Success(Handle(ks))
  }

  /** Passes exactly when the registry can build a primitive from the key
      data; the registry's failure is passed on. */
  function Validate(kd: KeyData, reg: Registry): (r: Outcome<Error>)
    ensures r.Pass? <==> reg.getPrimitive(kd).Pass?
    ensures r.Fail? ==> r.error == RegistryFailure(reg.getPrimitive(kd).error)
  {
    match reg.getPrimitive(kd)
    case Fail(c) => Fail(RegistryFailure(c))
    case Pass => Pass
  }

  /** The public counterpart of private key data, by the registry: it
      exists when the key data is private, the registry derives public key
      data from it, and that derived key data builds a primitive. */
  ghost predicate PublicDerivable(reg: Registry, kd: KeyData) {
    && kd.keyMaterialType == AsymmetricPrivate
    && reg.getPublicKeyData(kd.typeUrl, kd.value).Success?
    && reg.getPrimitive(reg.getPublicKeyData(kd.typeUrl, kd.value).value).Pass?
  }

  /** Derives and validates the public key data of private key data. */
  function CreatePublicKeyData(kd: KeyData, reg: Registry): (r: Result<KeyData, Error>)
    ensures kd.keyMaterialType != AsymmetricPrivate ==> r == Failure(NonPrivateKey)
    ensures r.Success? <==> PublicDerivable(reg, kd)
    ensures r.Success? ==> Success(r.value) == reg.getPublicKeyData(kd.typeUrl, kd.value)
    ensures r.Failure? && r.error != NonPrivateKey ==> r.error.RegistryFailure?
    // a failing derivation is passed on
    ensures kd.keyMaterialType == AsymmetricPrivate && reg.getPublicKeyData(kd.typeUrl, kd.value).Failure? ==>
              r == Failure(RegistryFailure(reg.getPublicKeyData(kd.typeUrl, kd.value).error))
    // a derived key data that builds no primitive is passed on
    ensures kd.keyMaterialType == AsymmetricPrivate && reg.getPublicKeyData(kd.typeUrl, kd.value).Success? &&
            reg.getPrimitive(reg.getPublicKeyData(kd.typeUrl, kd.value).value).Fail? ==>
              r == Failure(RegistryFailure(reg.getPrimitive(reg.getPublicKeyData(kd.typeUrl, kd.value).value).error))
  {
    if kd.keyMaterialType != AsymmetricPrivate then Failure(NonPrivateKey)
    else
      match reg.getPublicKeyData(kd.typeUrl, kd.value)
      case Failure(c) => Failure(RegistryFailure(c))
      case Success(pub) =>
        match Validate(pub, reg)
        case Fail(e) => Failure(e)
        case Pass => Success(pub)
  }

  /** Replaces the key data of every key, in order, by its public
      counterpart; the first key that has none decides the failure. */
  function DerivePublicKeys(keys: seq<Key>, reg: Registry): (r: Result<seq<Key>, Error>)
    ensures r.Success? <==> forall i :: 0 <= i < |keys| ==> PublicDerivable(reg, keys[i].keyData)
    ensures r.Success? ==>
              && |r.value| == |keys|
              && forall i :: 0 <= i < |keys| ==>
                   && CreatePublicKeyData(keys[i].keyData, reg).Success?
                   && r.value[i] == keys[i].(keyData := CreatePublicKeyData(keys[i].keyData, reg).value)
    ensures r.Failure? ==>
              exists i :: 0 <= i < |keys| &&
                CreatePublicKeyData(keys[i].keyData, reg) == Failure(r.error) &&
                forall j :: 0 <= j < i ==> CreatePublicKeyData(keys[j].keyData, reg).Success?
  {
    if |keys| == 0 then Success([])
    else
      match CreatePublicKeyData(keys[0].keyData, reg)
      case Failure(e) => Failure(e)
      case Success(kd) =>
        match DerivePublicKeys(keys[1..], reg)
        case Failure(e) => Failure(e)
        case Success(rest) => Success([keys[0].(keyData := kd)] + rest)
  }

  /** `dst` is a public view of `src`: same primary key id, same number of
      keys in the same order, each with the same id, status and output
      prefix, every source key private, and every destination key data the
      registry's validated public counterpart of the source key data. */
  ghost predicate IsPublicViewOf(reg: Registry, src: Keyset, dst: Keyset) {
    && dst.primaryKeyId == src.primaryKeyId
    && |dst.keys| == |src.keys|
    && forall i :: 0 <= i < |src.keys| ==>
         && src.keys[i].keyData.keyMaterialType == AsymmetricPrivate
         && dst.keys[i].keyId == src.keys[i].keyId
         && dst.keys[i].status == src.keys[i].status
         && dst.keys[i].outputPrefixType == src.keys[i].outputPrefixType
         && reg.getPublicKeyData(src.keys[i].keyData.typeUrl, src.keys[i].keyData.value) == Success(dst.keys[i].keyData)
         && reg.getPrimitive(dst.keys[i].keyData).Pass?
  }

  /** A handle of the public keys of a handle of private keys. */
  function GetPublicKeysetHandle(h: Handle, reg: Registry): (r: Result<Handle, Error>)
    ensures r.Success? ==> IsPublicViewOf(reg, h.keyset, r.value.keyset)
    ensures r.Success? <==> forall i :: 0 <= i < |h.keyset.keys| ==> PublicDerivable(reg, h.keyset.keys[i].keyData)
    ensures (exists i :: 0 <= i < |h.keyset.keys| && h.keyset.keys[i].keyData.keyMaterialType != AsymmetricPrivate)
              ==> r.Failure?
    ensures r == Failure(NonPrivateKey) ==>
              exists i :: 0 <= i < |h.keyset.keys| && h.keyset.keys[i].keyData.keyMaterialType != AsymmetricPrivate
    // a failure is that of the first key without a public counterpart
    ensures r.Failure? ==>
              exists i :: 0 <= i < |h.keyset.keys| &&
                CreatePublicKeyData(h.keyset.keys[i].keyData, reg) == Failure(r.error) &&
                forall j :: 0 <= j < i ==> PublicDerivable(reg, h.keyset.keys[j].keyData)
    ensures Wellformed(h) && r.Success? ==> Wellformed(r.value)
  {
    match DerivePublicKeys(h.keyset.keys, reg)
    case Failure(e) => Failure(e)
    case Success(keys) => Success(Handle(Keyset(h.keyset.primaryKeyId, keys)))
  }
}
