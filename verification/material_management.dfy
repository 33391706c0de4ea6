/** The material-management collaborator as the cloning operation sees it.
    The real classes live in a package that is not part of this model; every
    contract below is an ASSUMPTION about them, kept to what the clone needs:
    each setter assigns its one slot or appends to its sequence, and each
    trace-taking setter appends the entry that authorised it. */
module MaterialManagement {

  datatype Option<T> = None | Some(value: T)

  /** The execution family of a suite or a material class. */
  datatype Family = Node | WebCrypto

  /** Encryption material and decryption material are distinct classes. */
  datatype Role = Encryption | Decryption

  /** The concrete class of a material object: one of the four classes
      {Node, WebCrypto} x {Encryption, Decryption}. */
  datatype Variant = Variant(family: Family, role: Role)

  /** An algorithm suite: immutable, owned by the suite registry and shared
      by reference. Only the two facts the clone reads are modelled: whether
      it is a Node suite and its signature curve, absent for suites that do
      not sign. */
  class AlgorithmSuite {
    const family: Family
    const signatureCurve: Option<string>

    constructor (family: Family, signatureCurve: Option<string>)
      ensures this.family == family && this.signatureCurve == signatureCurve
    {
      this.family := family;
      this.signatureCurve := signatureCurve;
    }

    /** The curve tested as a JavaScript condition: an absent curve and the
        empty string are both false. */
    predicate HasSignatureCurve() {
      match signatureCurve
      case None => false
      case Some(c) => c != ""
    }
  }

  /** Opaque key objects, compared by identity. */
  class SignatureKey {}
  class VerificationKey {}
  class CryptoKeyHandle {}

  /** A set of keyring trace flags (a bit mask in the library). */
  type Flags = bv32

  type EncryptionContext = map<string, string>

  /** Records which provider authorised one mutation of a material. */
  datatype TraceEntry = TraceEntry(keyNamespace: string, keyName: string, flags: Flags)

  datatype EncryptedDataKey = EncryptedDataKey(providerId: string, providerInfo: string, ciphertext: seq<bv8>)

  /** The observable contents of a material object at one moment, with the
      data key buffer read out as its bytes. */
  datatype MaterialState = MaterialState(
    variant: Variant,
    suite: AlgorithmSuite,
    context: EncryptionContext,
    dataKey: Option<seq<bv8>>,
    trace: seq<TraceEntry>,
    edks: seq<EncryptedDataKey>,
    cryptoKey: Option<CryptoKeyHandle>,
    signatureKey: Option<SignatureKey>,
    verificationKey: Option<VerificationKey>)

  /** The library's `isEncryptionMaterial`: the material is an instance of
      one of the two encryption classes. */
  predicate IsEncryptionMaterial(v: Variant)
    ensures IsEncryptionMaterial(v) <==> v == Variant(Node, Encryption) || v == Variant(WebCrypto, Encryption)
  {
    assert v == Variant(v.family, v.role) && (v.family == Node || v.family == WebCrypto);
    v.role == Encryption
  }

  /** The library's `isDecryptionMaterial`: the material is an instance of
      one of the two decryption classes, so never also encryption material. */
  predicate IsDecryptionMaterial(v: Variant)
    ensures IsDecryptionMaterial(v) <==> v == Variant(Node, Decryption) || v == Variant(WebCrypto, Decryption)
    ensures IsDecryptionMaterial(v) <==> !IsEncryptionMaterial(v)
  {
    assert v == Variant(v.family, v.role) && (v.family == Node || v.family == WebCrypto);
    v.role == Decryption
  }

  /** What the library's classes maintain: setting the data key appends a
      trace entry, so a material with a data key has a non-empty trace; a
      slot that a class does not have stays empty. */
  predicate WellFormed(s: MaterialState) {
    && (s.dataKey.Some? ==> |s.trace| > 0)
    && (s.variant.family == Node ==> s.cryptoKey.None?)
    && (s.variant.role == Decryption ==> s.edks == [] && s.signatureKey.None?)
    && (s.variant.role == Encryption ==> s.verificationKey.None?)
  }

  /** One material object of any of the four classes; `variant` is its class. */
  class Material {
    const variant: Variant
    const suite: AlgorithmSuite
    const encryptionContext: EncryptionContext
    var dataKey: Option<array<bv8>>
    var keyringTrace: seq<TraceEntry>
    var encryptedDataKeys: seq<EncryptedDataKey>
    var cryptoKey: Option<CryptoKeyHandle>
    var signatureKey: Option<SignatureKey>
    var verificationKey: Option<VerificationKey>

    function State(): MaterialState
      reads this, if dataKey.Some? then {dataKey.value} else {}
    {
      MaterialState(variant, suite, encryptionContext,
        if dataKey.Some? then Some(dataKey.value[..]) else None,
        keyringTrace, encryptedDataKeys, cryptoKey, signatureKey, verificationKey)
    }

    ghost predicate Valid()
      reads this, if dataKey.Some? then {dataKey.value} else {}
    {
      WellFormed(State())
    }

    /** A new, empty material of class `variant`. */
    constructor (suite: AlgorithmSuite, encryptionContext: EncryptionContext, variant: Variant)
      ensures this.variant == variant && this.suite == suite && this.encryptionContext == encryptionContext
      ensures dataKey.None? && keyringTrace == [] && encryptedDataKeys == []
      ensures cryptoKey.None? && signatureKey.None? && verificationKey.None?
      ensures Valid()
    {
      this.variant := variant;
      this.suite := suite;
      this.encryptionContext := encryptionContext;
      dataKey := None;
      keyringTrace := [];
      encryptedDataKeys := [];
      cryptoKey := None;
      signatureKey := None;
      verificationKey := None;
    }

    /** Assumed: the data key is set at most once, keeps the given buffer and
        appends the authorising trace entry. */
    method SetUnencryptedDataKey(key: array<bv8>, trace: TraceEntry)
      requires dataKey.None?
      modifies this
      ensures dataKey == Some(key) && keyringTrace == old(keyringTrace) + [trace]
      ensures encryptedDataKeys == old(encryptedDataKeys) && cryptoKey == old(cryptoKey)
      ensures signatureKey == old(signatureKey) && verificationKey == old(verificationKey)
    {
      dataKey := Some(key);
      keyringTrace := keyringTrace + [trace];
    }

    /** Assumed: only WebCrypto classes have this setter; the handle is set at
        most once and its trace entry is appended. */
    method SetCryptoKey(key: CryptoKeyHandle, trace: TraceEntry)
      requires variant.family == WebCrypto && cryptoKey.None?
      modifies this
      ensures cryptoKey == Some(key) && keyringTrace == old(keyringTrace) + [trace]
      ensures dataKey == old(dataKey) && encryptedDataKeys == old(encryptedDataKeys)
      ensures signatureKey == old(signatureKey) && verificationKey == old(verificationKey)
    {
      cryptoKey := Some(key);
      keyringTrace := keyringTrace + [trace];
    }

    /** Assumed: an encryption material appends the EDK and a trace entry that
        names the EDK's provider with the given flags. */
    method AddEncryptedDataKey(edk: EncryptedDataKey, flags: Flags)
      requires variant.role == Encryption
      modifies this
      ensures encryptedDataKeys == old(encryptedDataKeys) + [edk]
      ensures keyringTrace == old(keyringTrace) + [TraceEntry(edk.providerId, edk.providerInfo, flags)]
      ensures dataKey == old(dataKey) && cryptoKey == old(cryptoKey)
      ensures signatureKey == old(signatureKey) && verificationKey == old(verificationKey)
    {
      encryptedDataKeys := encryptedDataKeys + [edk];
      keyringTrace := keyringTrace + [TraceEntry(edk.providerId, edk.providerInfo, flags)];
    }

    /** Assumed: an encryption material whose suite signs takes a signature
        key at most once. */
    method SetSignatureKey(key: SignatureKey)
      requires variant.role == Encryption && suite.HasSignatureCurve() && signatureKey.None?
      modifies this
      ensures signatureKey == Some(key)
      ensures dataKey == old(dataKey) && keyringTrace == old(keyringTrace)
      ensures encryptedDataKeys == old(encryptedDataKeys) && cryptoKey == old(cryptoKey)
      ensures verificationKey == old(verificationKey)
    {
      signatureKey := Some(key);
    }

    /** Assumed: a decryption material whose suite signs takes a verification
        key at most once. */
    method SetVerificationKey(key: VerificationKey)
      requires variant.role == Decryption && suite.HasSignatureCurve() && verificationKey.None?
      modifies this
      ensures verificationKey == Some(key)
      ensures dataKey == old(dataKey) && keyringTrace == old(keyringTrace)
      ensures encryptedDataKeys == old(encryptedDataKeys) && cryptoKey == old(cryptoKey)
      ensures signatureKey == old(signatureKey)
    {
      verificationKey := Some(key);
    }
  }
}
