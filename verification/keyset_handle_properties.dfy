/** Properties that relate several keyset-handle operations: the envelope
    round trip, the emptiness gate in front of the master key, and the
    public view as a unique, completely characterised derivation. */
module KeysetHandleProperties {
  import opened Wrappers
  import opened KeysetModel
  import opened Collaborators
  import opened KeysetHandle

  /** A ciphertext that passed encryption's self-check decrypts back to the
      same keyset later, provided the master key's decryption does not
      depend on the moment of the call. */
  lemma EncryptThenDecrypt(ks: Keyset, mk: MasterKey, codec: Codec, atEncrypt: Moment, atVerify: Moment, at: Moment)
    requires Sufficient(ks)
    requires DecryptDeterministic(mk)
    requires Encrypt(ks, mk, codec, atEncrypt, atVerify).Success?
    ensures Decrypt(Encrypt(ks, mk, codec, atEncrypt, atVerify).value, mk, codec, at) == Success(ks)
  {
  }

  /** The same round trip through the reader entry point: a handle loaded
      from a self-checked encrypted keyset wraps the original keyset and
      has the original's metadata. The reader's emptiness gate needs the
      ciphertext to be non-empty, which every authenticated cipher gives. */
  lemma EncryptThenLoad(ks: Keyset, mk: MasterKey, codec: Codec, atEncrypt: Moment, atVerify: Moment, at: Moment)
    requires Sufficient(ks)
    requires DecryptDeterministic(mk)
    requires CiphertextsNonEmpty(mk)
    requires Encrypt(ks, mk, codec, atEncrypt, atVerify).Success?
    ensures FromKeysetReader(Success(Some(Encrypt(ks, mk, codec, atEncrypt, atVerify).value)), mk, codec, at)
            == Success(Handle(ks))
    ensures GetKeysetInfo(Handle(ks)) == Encrypt(ks, mk, codec, atEncrypt, atVerify).value.keysetInfo
  {
  }

  /** Without the determinism hypothesis the round trip can fail: a master
      key that decrypts only at moment 0 passes encryption's self-check at
      moment 0 and then fails to decrypt at moment 1. */
  lemma RoundTripNeedsDeterministicDecrypt()
    ensures exists ks: Keyset, mk: MasterKey, codec: Codec ::
              && Sufficient(ks)
              && Encrypt(ks, mk, codec, 0, 0).Success?
              && Decrypt(Encrypt(ks, mk, codec, 0, 0).value, mk, codec, 1).Failure?
  {
    var ks := Keyset(1, [Key(KeyData("k", [], Symmetric), Enabled, 1, Tink)]);
    var codec := Codec(k => [], b => Some(ks));
    var mk := MasterKey(
      (p: Bytes, ad: Bytes, m: Moment) => Success([1]),
      (c: Bytes, ad: Bytes, m: Moment) => if m == 0 then Success(c) else Failure("unavailable"));
    assert Encrypt(ks, mk, codec, 0, 0) == Success(EncryptedKeyset([1], Info(ks)));
    assert Decrypt(EncryptedKeyset([1], Info(ks)), mk, codec, 1) == Failure(MasterKeyFailure("unavailable"));
  }

  /** With a master key and codec that are faithful on this keyset,
      encryption succeeds and returns the cipher's ciphertext. */
  lemma EncryptSucceedsWhenFaithful(ks: Keyset, mk: MasterKey, codec: Codec, atEncrypt: Moment, atVerify: Moment, ct: Bytes)
    requires mk.encrypt(codec.serialize(ks), NoAssociatedData, atEncrypt) == Success(ct)
    requires mk.decrypt(ct, NoAssociatedData, atVerify) == Success(codec.serialize(ks))
    requires codec.parse(codec.serialize(ks)) == Some(ks)
    ensures Encrypt(ks, mk, codec, atEncrypt, atVerify) == Success(EncryptedKeyset(ct, Info(ks)))
  {
  }

  /** An empty or missing envelope is rejected before the master key or the
      codec is consulted: the outcome is the same whatever they are. */
  lemma EmptyEnvelopeNeverReachesMasterKey(
    ek: Option<EncryptedKeyset>, mk1: MasterKey, mk2: MasterKey, codec1: Codec, codec2: Codec, at1: Moment, at2: Moment)
    requires ek.None? || !EnvelopeSufficient(ek.value)
    ensures FromKeysetReader(Success(ek), mk1, codec1, at1) == FromKeysetReader(Success(ek), mk2, codec2, at2)
    ensures FromKeysetReader(Success(ek), mk1, codec1, at1) == Failure(EmptyKeyset)
  {
  }

  /** Every handle the module builds wraps a non-empty keyset. */
  lemma HandlesAreNonEmpty(
    ks: Option<Keyset>, read: Result<Option<EncryptedKeyset>, string>, mk: MasterKey, codec: Codec, at: Moment,
    h: Handle, reg: Registry)
    requires Wellformed(h)
    ensures FromKeyset(ks).Success? ==> Sufficient(FromKeyset(ks).value.keyset)
    ensures FromKeysetReader(read, mk, codec, at).Success? ==> Sufficient(FromKeysetReader(read, mk, codec, at).value.keyset)
    ensures GetPublicKeysetHandle(h, reg).Success? ==> Sufficient(GetPublicKeysetHandle(h, reg).value.keyset)
  {
  }

  /** A keyset has at most one public view. */
  lemma PublicViewUnique(reg: Registry, src: Keyset, d1: Keyset, d2: Keyset)
    requires IsPublicViewOf(reg, src, d1)
    requires IsPublicViewOf(reg, src, d2)
    ensures d1 == d2
  {
  }

  /** Whenever a public view of a handle's keyset exists, public-view
      derivation succeeds and returns exactly it. */
  lemma PublicViewComplete(reg: Registry, h: Handle, dst: Keyset)
    requires IsPublicViewOf(reg, h.keyset, dst)
    ensures GetPublicKeysetHandle(h, reg) == Success(Handle(dst))
  {
    forall i | 0 <= i < |h.keyset.keys|
      ensures PublicDerivable(reg, h.keyset.keys[i].keyData)
    {
    }
    PublicViewUnique(reg, h.keyset, GetPublicKeysetHandle(h, reg).value.keyset, dst);
  }

  /** The public view keeps the primary key id and, per key, its id,
      status and output prefix; only the key data changes. */
  lemma PublicViewKeepsMetadata(reg: Registry, h: Handle)
    requires GetPublicKeysetHandle(h, reg).Success?
    ensures var before, after := GetKeysetInfo(h), GetKeysetInfo(GetPublicKeysetHandle(h, reg).value);
            && after.primaryKeyId == before.primaryKeyId
            && |after.keyInfo| == |before.keyInfo|
            && forall i :: 0 <= i < |before.keyInfo| ==>
                 && after.keyInfo[i].keyId == before.keyInfo[i].keyId
                 && after.keyInfo[i].status == before.keyInfo[i].status
                 && after.keyInfo[i].outputPrefixType == before.keyInfo[i].outputPrefixType
  {
  }
}
