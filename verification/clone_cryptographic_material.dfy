/** Cloning of in-flight encryption or decryption material: a new material of
    the same class over the same suite and encryption context, holding a copy
    of the data key in its own buffer, the source's crypto key handle, its
    EDKs re-added with the flags of the trace entries that authorised them,
    and its signature or verification key where the suite signs. */
module CloneCryptographicMaterial {
  import opened MaterialManagement

  datatype CloneError =
    /** The source has no unencrypted data key; its accessor throws. */
    | UnsetDataKey
    /** The clone is a Node material and so has no crypto key setter to
        receive the source's handle; the call raises a TypeError. */
    | CryptoKeyUnsupported
    /** 'Malformed Encrypted Data Key': an EDK with no trace entry naming it. */
    | MalformedEncryptedDataKey
    /** 'Material mismatch': source and clone are not both encryption or both
        decryption material. */
    | MaterialMismatch

  datatype Result<T> = Success(value: T) | Failure(error: CloneError)

  /** The class of the clone: the family comes from the suite; the clone is
      encryption material exactly when the source is the encryption class of
      that family, so an encryption source of the other family gets a
      decryption class. */
  function CloneVariant(suiteFamily: Family, source: Variant): (v: Variant)
    ensures v.family == suiteFamily
    ensures IsEncryptionMaterial(v) <==> source == Variant(suiteFamily, Encryption)
    ensures source.family == suiteFamily ==> v == source
  {
    assert source == Variant(source.family, source.role) && (source.role == Encryption || source.role == Decryption);
    if source == Variant(suiteFamily, Encryption) then Variant(suiteFamily, Encryption)
    else Variant(suiteFamily, Decryption)
  }

  /** The test the keyring trace's `find` applies: the entry names the
      provider that produced the EDK. */
  predicate Authorizes(entry: TraceEntry, edk: EncryptedDataKey) {
    entry.keyName == edk.providerInfo && entry.keyNamespace == edk.providerId
  }

  /** The position of the first trace entry that authorises `edk`, as the
      keyring trace's `find` picks it. */
  function FindIndex(trace: seq<TraceEntry>, edk: EncryptedDataKey): (r: Option<nat>)
    ensures r.Some? ==> r.value < |trace| && Authorizes(trace[r.value], edk)
    ensures r.Some? ==> forall j :: 0 <= j < r.value ==> !Authorizes(trace[j], edk)
    ensures r.None? ==> forall j :: 0 <= j < |trace| ==> !Authorizes(trace[j], edk)
  {
    if trace == [] then None
    else if Authorizes(trace[0], edk) then Some(0)
    else match FindIndex(trace[1..], edk)
      case None => None
      case Some(k) => Some(k + 1)
  }

  /** The trace entries that authorised `edks`, one per EDK in order, or the
      malformed-key error when some EDK has none. */
  function ReconcileEdks(trace: seq<TraceEntry>, edks: seq<EncryptedDataKey>): (r: Result<seq<TraceEntry>>)
    ensures r.Success? <==> forall i :: 0 <= i < |edks| ==> FindIndex(trace, edks[i]).Some?
    ensures r.Failure? ==> r.error == MalformedEncryptedDataKey
    ensures r.Success? ==> |r.value| == |edks|
    ensures r.Success? ==> forall i :: 0 <= i < |edks| ==> r.value[i] == trace[FindIndex(trace, edks[i]).value]
  {
    if edks == [] then Success([])
    else
      var init := edks[..|edks| - 1];
      match ReconcileEdks(trace, init)
      case Failure(e) => Failure(e)
      case Success(entries) =>
        match FindIndex(trace, edks[|edks| - 1])
        case None => Failure(MalformedEncryptedDataKey)
        case Some(k) => Success(entries + [trace[k]])
  }

  /** The trace a clone has once its keys are installed: the source's first
      entry for the data key, then, under the assumed `setCryptoKey`
      contract, the clone's own first entry again for the crypto key handle
      when there is one. */
  function KeyTrace(first: TraceEntry, cryptoKey: Option<CryptoKeyHandle>): seq<TraceEntry> {
    if cryptoKey.Some? then [first, first] else [first]
  }

  /** What cloning a material in state `s` produces. */
  function CloneSpec(s: MaterialState): (r: Result<MaterialState>)
    requires WellFormed(s)
    ensures r.Success? ==> WellFormed(r.value)
  {
    if s.dataKey.None? then Failure(UnsetDataKey)
    else
      var v := CloneVariant(s.suite.family, s.variant);
      if s.cryptoKey.Some? && v.family == Node then Failure(CryptoKeyUnsupported)
      else
        var keyTrace := KeyTrace(s.trace[0], s.cryptoKey);
        var withKeys := MaterialState(v, s.suite, s.context, s.dataKey, keyTrace, [], s.cryptoKey, None, None);
        var signs := s.suite.HasSignatureCurve();
        if IsEncryptionMaterial(s.variant) && IsEncryptionMaterial(v) then
          match ReconcileEdks(s.trace, s.edks)
          case Failure(e) => Failure(e)
          case Success(entries) =>
            Success(withKeys.(trace := keyTrace + entries, edks := s.edks,
                              signatureKey := if signs then s.signatureKey else None))
        else if IsDecryptionMaterial(s.variant) && IsDecryptionMaterial(v) then
          Success(withKeys.(verificationKey := if signs then s.verificationKey else None))
        else
          Failure(MaterialMismatch)
  }

  /** Re-adds `edks` to `clone` in order, each with the flags of the first
      entry of `trace` that authorises it; stops with false at the first EDK
      that no entry authorises. */
  method AddAuthorizedEdks(clone: Material, trace: seq<TraceEntry>, edks: seq<EncryptedDataKey>) returns (ok: bool)
    requires IsEncryptionMaterial(clone.variant)
    modifies clone
    ensures ok <==> ReconcileEdks(trace, edks).Success?
    ensures ok ==> clone.encryptedDataKeys == old(clone.encryptedDataKeys) + edks
    ensures ok ==> clone.keyringTrace == old(clone.keyringTrace) + ReconcileEdks(trace, edks).value
    ensures clone.dataKey == old(clone.dataKey) && clone.cryptoKey == old(clone.cryptoKey)
    ensures clone.signatureKey == old(clone.signatureKey) && clone.verificationKey == old(clone.verificationKey)
  {
    var i := 0;
    while i < |edks|
      invariant 0 <= i <= |edks|
      invariant ReconcileEdks(trace, edks[..i]).Success?
      invariant clone.encryptedDataKeys == old(clone.encryptedDataKeys) + edks[..i]
      invariant clone.keyringTrace == old(clone.keyringTrace) + ReconcileEdks(trace, edks[..i]).value
      invariant clone.dataKey == old(clone.dataKey) && clone.cryptoKey == old(clone.cryptoKey)
      invariant clone.signatureKey == old(clone.signatureKey) && clone.verificationKey == old(clone.verificationKey)
    {
      var edk := edks[i];
      var found := FindIndex(trace, edk);
      if found.None? {
        assert edks[i] == edk;
        return false;
      }
      clone.AddEncryptedDataKey(edk, trace[found.value].flags);
      assert edks[..i + 1][..i] == edks[..i];
      i := i + 1;
    }
    assert edks[..i] == edks;
    return true;
  }

  /** Clones `source`. On success the clone is a new object with a new data
      key buffer and its state is the one CloneSpec describes; on failure no
      clone is returned. */
  method CloneMaterial(source: Material) returns (r: Result<Material>)
    requires source.Valid()
    ensures r.Failure? <==> CloneSpec(source.State()).Failure?
    ensures r.Failure? ==> CloneSpec(source.State()) == Failure(r.error)
    ensures r.Success? ==> fresh(r.value) && r.value.Valid()
    ensures r.Success? ==> r.value.dataKey.Some? && fresh(r.value.dataKey.value)
    ensures r.Success? ==> r.value.State() == CloneSpec(source.State()).value
  {
    ghost var s := source.State();
    var suite := source.suite;
    var encryptionContext := source.encryptionContext;
    var clone := new Material(suite, encryptionContext, CloneVariant(suite.family, source.variant));

    if source.dataKey.None? {
      return Failure(UnsetDataKey);
    }
    var key := source.dataKey.value;
    var udk := new bv8[key.Length](i reads key requires 0 <= i < key.Length => key[i]);
    assert udk[..] == key[..];
    clone.SetUnencryptedDataKey(udk, source.keyringTrace[0]);
    if source.cryptoKey.Some? {
      if clone.variant.family == Node {
        return Failure(CryptoKeyUnsupported);
      }
      clone.SetCryptoKey(source.cryptoKey.value, clone.keyringTrace[0]);
    }
    assert clone.State() == MaterialState(CloneVariant(suite.family, source.variant), suite, encryptionContext,
      s.dataKey, KeyTrace(s.trace[0], s.cryptoKey), [], s.cryptoKey, None, None);

    if IsEncryptionMaterial(source.variant) && IsEncryptionMaterial(clone.variant) {
      var ok := AddAuthorizedEdks(clone, source.keyringTrace, source.encryptedDataKeys);
      if !ok {
        return Failure(MalformedEncryptedDataKey);
      }
      if source.suite.HasSignatureCurve() && source.signatureKey.Some? {
        clone.SetSignatureKey(source.signatureKey.value);
      }
      assert clone.State() == CloneSpec(s).value;
    } else if IsDecryptionMaterial(source.variant) && IsDecryptionMaterial(clone.variant) {
      if source.suite.HasSignatureCurve() && source.verificationKey.Some? {
        clone.SetVerificationKey(source.verificationKey.value);
      }
      assert clone.State() == CloneSpec(s).value;
    } else {
      return Failure(MaterialMismatch);
    }
    return Success(clone);
  }
}
