/** What cloning promises, proved about CloneSpec (and so, through
    CloneMaterial's postcondition, about every clone the method returns). */
module CloneProperties {
  import opened MaterialManagement
  import opened CloneCryptographicMaterial

  /** The material's class belongs to the family of its own suite. */
  predicate SameFamilyAsSuite(s: MaterialState) {
    s.variant.family == s.suite.family
  }

  /** Some trace entry names the provider of `edk`. */
  predicate HasAuthorizingEntry(trace: seq<TraceEntry>, edk: EncryptedDataKey) {
    exists j :: 0 <= j < |trace| && Authorizes(trace[j], edk)
  }

  lemma FindIndexFindsAuthorizingEntry(trace: seq<TraceEntry>, edk: EncryptedDataKey)
    ensures FindIndex(trace, edk).Some? <==> HasAuthorizingEntry(trace, edk)
  {
  }

  /** `find` looks only at the provider's name and namespace, so two EDKs of
      the same provider are authorised by the same entry. */
  lemma FindIndexDependsOnProvider(trace: seq<TraceEntry>, e1: EncryptedDataKey, e2: EncryptedDataKey)
    requires e1.providerId == e2.providerId && e1.providerInfo == e2.providerInfo
    ensures FindIndex(trace, e1) == FindIndex(trace, e2)
  {
  }

  /** The clone keeps the source's role, takes its family from the suite, and
      so has exactly the source's class whenever the source's class matches
      its suite; suite and encryption context are the source's own. */
  lemma CloneKeepsClassSuiteAndContext(s: MaterialState)
    requires WellFormed(s) && CloneSpec(s).Success?
    ensures var c := CloneSpec(s).value;
      && c.variant.role == s.variant.role
      && c.variant.family == s.suite.family
      && (SameFamilyAsSuite(s) ==> c.variant == s.variant)
      && c.suite == s.suite && c.context == s.context
  {
  }

  /** The clone's data key holds the source's bytes and was installed under
      the source's first trace entry. */
  lemma CloneCopiesDataKey(s: MaterialState)
    requires WellFormed(s) && CloneSpec(s).Success?
    ensures var c := CloneSpec(s).value;
      c.dataKey == s.dataKey && |c.trace| > 0 && c.trace[0] == s.trace[0]
  {
  }

  /** The crypto key handle is carried over exactly. The call passes the
      clone's own first trace entry; that it then appears a second time in
      the trace follows from the assumed `setCryptoKey` contract. */
  lemma CloneCarriesCryptoKey(s: MaterialState)
    requires WellFormed(s) && CloneSpec(s).Success?
    ensures var c := CloneSpec(s).value;
      && c.cryptoKey == s.cryptoKey
      && (c.cryptoKey.Some? ==> |c.trace| > 1 && c.trace[1] == c.trace[0])
      && (c.cryptoKey.Some? ==> c.variant.family == WebCrypto)
  {
  }

  /** For encryption material the clone's EDKs are the source's, in order,
      and the trace entry recorded for the i-th one is the first source entry
      that names its provider, flags included. */
  lemma CloneReconcilesEdks(s: MaterialState)
    requires WellFormed(s) && CloneSpec(s).Success? && s.variant.role == Encryption
    ensures var c := CloneSpec(s).value;
      && c.edks == s.edks
      && |c.trace| == |KeyTrace(s.trace[0], s.cryptoKey)| + |s.edks|
      && forall i :: 0 <= i < |s.edks| ==>
           && FindIndex(s.trace, s.edks[i]).Some?
           && c.trace[|c.trace| - |s.edks| + i] == s.trace[FindIndex(s.trace, s.edks[i]).value]
           && c.trace[|c.trace| - |s.edks| + i]
              == TraceEntry(s.edks[i].providerId, s.edks[i].providerInfo, c.trace[|c.trace| - |s.edks| + i].flags)
  {
  }

  /** The clone's trace invents no provenance: every entry in it is an
      entry of the source's trace. */
  lemma CloneTraceComesFromSource(s: MaterialState)
    requires WellFormed(s) && CloneSpec(s).Success?
    ensures forall k :: 0 <= k < |CloneSpec(s).value.trace| ==> CloneSpec(s).value.trace[k] in s.trace
  {
  }

  /** An EDK that no trace entry names makes encryption material fail to
      clone with the malformed-key error. */
  lemma UnauthorizedEdkFailsClone(s: MaterialState, i: nat)
    requires WellFormed(s) && s.dataKey.Some? && s.variant == Variant(s.suite.family, Encryption)
    requires i < |s.edks| && !HasAuthorizingEntry(s.trace, s.edks[i])
    ensures CloneSpec(s) == Failure(MalformedEncryptedDataKey)
  {
  }

  /** The malformed-key error is raised only for such an EDK. */
  lemma MalformedMeansUnauthorizedEdk(s: MaterialState)
    requires WellFormed(s) && CloneSpec(s) == Failure(MalformedEncryptedDataKey)
    ensures s.variant.role == Encryption
    ensures exists i :: 0 <= i < |s.edks| && !HasAuthorizingEntry(s.trace, s.edks[i])
  {
  }

  /** Signature and verification keys are carried over exactly when the
      suite names a signature curve and the source has one; otherwise the
      clone has none. */
  lemma CloneCarriesSigningKeys(s: MaterialState)
    requires WellFormed(s) && CloneSpec(s).Success?
    ensures var c := CloneSpec(s).value;
      && (c.signatureKey.Some? <==> s.suite.HasSignatureCurve() && s.signatureKey.Some?)
      && (c.signatureKey.Some? ==> c.signatureKey == s.signatureKey)
      && (c.verificationKey.Some? <==> s.suite.HasSignatureCurve() && s.verificationKey.Some?)
      && (c.verificationKey.Some? ==> c.verificationKey == s.verificationKey)
  {
  }

  /** Which failure a clone ends in, in the order the steps meet them. */
  lemma CloneFailures(s: MaterialState)
    requires WellFormed(s)
    ensures CloneSpec(s) == Failure(UnsetDataKey) <==> s.dataKey.None?
    ensures CloneSpec(s) == Failure(CryptoKeyUnsupported)
        <==> s.dataKey.Some? && s.cryptoKey.Some? && s.suite.family == Node
    ensures CloneSpec(s) == Failure(MaterialMismatch)
        <==> && s.dataKey.Some? && !(s.cryptoKey.Some? && s.suite.family == Node)
             && s.variant.role == Encryption && !SameFamilyAsSuite(s)
    ensures CloneSpec(s) == Failure(MalformedEncryptedDataKey)
        <==> && s.dataKey.Some? && !(s.cryptoKey.Some? && s.suite.family == Node)
             && s.variant == Variant(s.suite.family, Encryption)
             && exists i :: 0 <= i < |s.edks| && !HasAuthorizingEntry(s.trace, s.edks[i])
  {
  }

  /** A material whose class matches its suite, that has a data key and whose
      EDKs are all named in its trace, clones successfully into its own class. */
  lemma WellFormedSourceClones(s: MaterialState)
    requires WellFormed(s) && SameFamilyAsSuite(s) && s.dataKey.Some?
    requires s.variant.role == Encryption ==> forall i :: 0 <= i < |s.edks| ==> HasAuthorizingEntry(s.trace, s.edks[i])
    ensures CloneSpec(s).Success? && CloneSpec(s).value.variant == s.variant
  {
  }

  /** Looking the EDKs up again in a clone's trace finds the same entries:
      the key entries in front all equal the source's first entry, and each
      reconciled entry names the provider of its own EDK. */
  lemma {:induction false} ReconcileAgainstCloneTrace(trace: seq<TraceEntry>, prefix: seq<TraceEntry>, edks: seq<EncryptedDataKey>)
    requires |trace| > 0 && ReconcileEdks(trace, edks).Success?
    requires |prefix| > 0 && forall k :: 0 <= k < |prefix| ==> prefix[k] == trace[0]
    ensures ReconcileEdks(prefix + ReconcileEdks(trace, edks).value, edks) == ReconcileEdks(trace, edks)
  {
    var entries := ReconcileEdks(trace, edks).value;
    var t := prefix + entries;
    forall i | 0 <= i < |edks|
      ensures FindIndex(t, edks[i]).Some? && t[FindIndex(t, edks[i]).value] == entries[i]
    {
      var k := FindIndex(trace, edks[i]).value;
      assert t[|prefix| + i] == entries[i] == trace[k];
      var m := FindIndex(t, edks[i]);
      assert Authorizes(t[|prefix| + i], edks[i]);
      assert m.Some?;
      if Authorizes(trace[0], edks[i]) {
        assert k == 0;
        assert Authorizes(t[0], edks[i]);
        assert m.value == 0;
      } else {
        assert forall x :: 0 <= x < |prefix| ==> t[x] == trace[0];
        assert m.value >= |prefix|;
        var j := m.value - |prefix|;
        assert t[m.value] == entries[j];
        FindIndexDependsOnProvider(trace, edks[i], edks[j]);
      }
    }
    var r := ReconcileEdks(t, edks);
    assert r.Success?;
    assert r.value == entries;
  }

  /** The suite's curve is tested for truthiness, so a suite whose curve is
      the empty string carries no signing key over to the clone. */
  lemma EmptyCurveCarriesNoSigningKey(s: MaterialState)
    requires WellFormed(s) && CloneSpec(s).Success? && s.suite.signatureCurve == Some("")
    ensures CloneSpec(s).value.signatureKey.None? && CloneSpec(s).value.verificationKey.None?
  {
  }

  /** Cloning a clone gives back the clone: the operation reproduces every
      part of the state it copies. */
  lemma CloneOfCloneIsIdentical(s: MaterialState)
    requires WellFormed(s) && CloneSpec(s).Success?
    ensures WellFormed(CloneSpec(s).value)
    ensures CloneSpec(CloneSpec(s).value) == CloneSpec(s)
  {
    var c := CloneSpec(s).value;
    if c.variant.role == Encryption {
      var keyTrace := KeyTrace(s.trace[0], s.cryptoKey);
      ReconcileAgainstCloneTrace(s.trace, keyTrace, s.edks);
    }
  }

  /** A Node encryption material over a suite without signatures, with one
      EDK named by its only trace entry, clones to one EDK recorded with
      that entry's flags, after the data key entry. */
  lemma SingleEdkScenario(suite: AlgorithmSuite, key: seq<bv8>, flags: Flags, ciphertext: seq<bv8>)
    requires suite.family == Node && !suite.HasSignatureCurve()
    ensures
      var entry := TraceEntry("p", "n", flags);
      var edk := EncryptedDataKey("p", "n", ciphertext);
      var s := MaterialState(Variant(Node, Encryption), suite, map["a" := "b"], Some(key),
                             [entry], [edk], None, None, None);
      && WellFormed(s)
      && CloneSpec(s) == Success(s.(trace := [entry, entry]))
  {
    var entry := TraceEntry("p", "n", flags);
    var edk := EncryptedDataKey("p", "n", ciphertext);
    var s := MaterialState(Variant(Node, Encryption), suite, map["a" := "b"], Some(key),
                           [entry], [edk], None, None, None);
    assert FindIndex([entry], edk) == Some(0);
    assert ReconcileEdks([entry], [edk]).value == [entry];
    assert CloneVariant(Node, s.variant) == s.variant;
    assert CloneSpec(s).value.trace == [entry, entry];
    assert CloneSpec(s) == Success(s.(trace := [entry, entry]));
  }

  /** The clone's trace is rebuilt rather than copied: when the provider
      that set the data key also produced the EDK, the EDK is recorded with
      the data-key entry's flags. */
  lemma RebuiltTraceScenario(suite: AlgorithmSuite, key: seq<bv8>, ciphertext: seq<bv8>)
    requires suite.family == Node
    ensures
      var s := MaterialState(Variant(Node, Encryption), suite, map[], Some(key),
                             [TraceEntry("p", "n", 1), TraceEntry("p", "n", 2)],
                             [EncryptedDataKey("p", "n", ciphertext)], None, None, None);
      && WellFormed(s)
      && CloneSpec(s).Success?
      && CloneSpec(s).value.trace == [TraceEntry("p", "n", 1), TraceEntry("p", "n", 1)]
      && CloneSpec(s).value.trace != s.trace
  {
    var trace := [TraceEntry("p", "n", 1), TraceEntry("p", "n", 2)];
    var edk := EncryptedDataKey("p", "n", ciphertext);
    assert FindIndex(trace, edk) == Some(0);
    assert ReconcileEdks(trace, [edk]).value == [trace[0]];
  }

  /** An EDK whose provider no trace entry names stops the clone. */
  lemma UnmatchedEdkScenario(suite: AlgorithmSuite, key: seq<bv8>, flags: Flags, ciphertext: seq<bv8>)
    requires suite.family == Node
    ensures
      var s := MaterialState(Variant(Node, Encryption), suite, map[], Some(key),
                             [TraceEntry("p", "n", flags)], [EncryptedDataKey("x", "y", ciphertext)],
                             None, None, None);
      && WellFormed(s)
      && CloneSpec(s) == Failure(MalformedEncryptedDataKey)
  {
    var edk := EncryptedDataKey("x", "y", ciphertext);
    assert FindIndex([TraceEntry("p", "n", flags)], edk) == None;
  }

  /** The clone's data key lives in its own buffer: overwriting it leaves the
      source untouched. */
  method OverwriteCloneKey(source: Material) returns (r: Result<Material>)
    requires source.Valid()
    ensures source.State() == old(source.State())
    ensures r.Success? ==> r.value.dataKey.Some? && forall i :: 0 <= i < r.value.dataKey.value.Length ==> r.value.dataKey.value[i] == 0
  {
    r := CloneMaterial(source);
    if r.Success? {
      var buffer := r.value.dataKey.value;
      forall i | 0 <= i < buffer.Length {
        buffer[i] := 0;
      }
    }
  }
}
