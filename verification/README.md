# Cloning cryptographic material

A Dafny model of `cloneMaterial` from the AWS Encryption SDK for JavaScript
(`modules/cache-material`). Encryption or decryption *material* is the
record that carries a data key through one envelope-encryption operation:
the algorithm suite, the encryption context, the unencrypted data key, the
keyring trace (which provider authorised each change, with which flags),
the encrypted data keys (EDKs), an optional WebCrypto key handle and an
optional signature or verification key. `cloneMaterial` builds an
independent copy of such a record.

The project has three files:

- `material_management.dfy` (module `MaterialManagement`): the four material
  classes as one `Material` class whose `variant` is its concrete class
  ({Node, WebCrypto} x {Encryption, Decryption}), the algorithm suite as an
  immutable class shared by reference, and the setters the clone calls. These
  belong to the material-management package, which is not part of this model,
  so their contracts are **assumptions**, kept minimal: each setter fills its
  one-shot slot or appends to its sequence; `setUnencryptedDataKey` and
  `setCryptoKey` append the trace entry they are given; `addEncryptedDataKey`
  appends the EDK and the entry `{providerId, providerInfo, flags}`.
  `WellFormed` states what the classes are assumed to maintain: a material
  with a data key has a non-empty trace, Node materials hold no crypto key,
  decryption materials hold no EDKs and no signature key, and encryption
  materials hold no verification key. `MaterialState` is the value a
  material holds at one moment, with the data key buffer read out as bytes.
- `clone_cryptographic_material.dfy` (module `CloneCryptographicMaterial`):
  the operation. `CloneSpec` says on values what a clone is. `FindIndex` is
  the keyring trace's `find`, and `ReconcileEdks` is the EDK pass. The
  imperative `CloneMaterial` allocates the clone, copies the key bytes into
  a new array and calls the setters step by step. Its postcondition ties the
  clone's state to `CloneSpec` and says that the clone and its key buffer are
  newly allocated. `AddAuthorizedEdks` is the `forEach` loop.
- `clone_properties.dfy` (module `CloneProperties`): what cloning promises,
  proved about `CloneSpec`.

The errors are `UnsetDataKey` (the source's data-key accessor throws),
`MalformedEncryptedDataKey`, `MaterialMismatch` and `CryptoKeyUnsupported`.
The last one is the `TypeError` raised when the clone is a Node material,
which has no `setCryptoKey`, but the source holds a crypto key. On every
error `CloneMaterial` returns no object, as the source never returns its
local `clone` after a throw.

Behaviour of the code worth noting:

- The crypto key handle is carried over from any source that holds one. The
  check at lines 42-46 casts the source but tests `hasCryptoKey` on whatever
  material it is given.
- The EDK lookup at line 51 is `find`, so it takes the *first* trace entry
  that names the EDK's provider, even when several do.
- A material's class is not assumed to belong to its suite's family. So
  `Material mismatch` can happen: an encryption material whose suite is of
  the other family gets a decryption clone.
- The clone's keyring trace is rebuilt, not copied. It holds the source's
  first entry (for the data key), and then, for each EDK, the first source
  entry naming its provider. When a crypto key handle is carried over, the
  code passes the clone's own first entry to `setCryptoKey` (lines 44-45);
  the model's trace holds that entry a second time only because the
  assumed `setCryptoKey` contract appends the entry it is given. When the provider that set the data key also produced an EDK,
  that EDK is recorded with the data-key entry's flags. So the clone's trace
  generally differs from the source's: a source trace
  `[("p","n",1), ("p","n",2)]` with one `("p","n")` EDK gives the clone
  trace `[("p","n",1), ("p","n",1)]`. `RebuiltTraceScenario` proves this
  example; `CloneReconcilesEdks` and `CloneTraceComesFromSource` state what
  does hold.

## Model

| member | source | states |
|---|---|---|
| CloneCryptographicMaterial.CloneMaterial | modules/cache-material/src/clone_cryptographic_material.ts:29-68 | fails exactly when `CloneSpec` fails, with the same error and no clone; on success the clone and its data-key buffer are newly allocated, the clone is well formed, and its state is `CloneSpec` of the source's state |
| CloneCryptographicMaterial.AddAuthorizedEdks | modules/cache-material/src/clone_cryptographic_material.ts:49-54 | succeeds iff every EDK has an authorising trace entry; then the EDKs are appended in order and the trace grows by the reconciled entries; nothing else on the clone changes |
| CloneCryptographicMaterial.FindIndex | modules/cache-material/src/clone_cryptographic_material.ts:51 | returns the position of the first entry with `keyName == providerInfo` and `keyNamespace == providerId`, or none when no entry matches |
| CloneCryptographicMaterial.ReconcileEdks | modules/cache-material/src/clone_cryptographic_material.ts:49-54 | succeeds iff every EDK is matched; then it gives one entry per EDK, in order, each the first matching trace entry; otherwise the error is 'Malformed Encrypted Data Key' |
| CloneCryptographicMaterial.CloneSpec | modules/cache-material/src/clone_cryptographic_material.ts:29-68 | the value-level clone that `CloneMaterial` is proved against; every successful clone satisfies the material invariant `WellFormed` (its other properties are the `CloneProperties` lemmas) |
| CloneCryptographicMaterial.CloneVariant | modules/cache-material/src/clone_cryptographic_material.ts:32-38 | the clone's class has the suite's family, and it is encryption material exactly when the source is the encryption class of that family (an encryption source of the other family gets a decryption class, lines 33 and 36); so it is the source's own class when the source's class has the suite's family |
| CloneCryptographicMaterial.Authorizes | modules/cache-material/src/clone_cryptographic_material.ts:51 | a definition with no contract of its own: the test at line 51; `FindIndex`'s contract and `CloneReconcilesEdks` state its meaning |
| CloneCryptographicMaterial.KeyTrace | modules/cache-material/src/clone_cryptographic_material.ts:41-45 | a definition with no contract of its own: the trace after lines 41-45, the second entry coming from the assumed `setCryptoKey` contract; `CloneCopiesDataKey` and `CloneCarriesCryptoKey` state it |
| MaterialManagement.AlgorithmSuite.HasSignatureCurve | modules/cache-material/src/clone_cryptographic_material.ts:56-60 | a definition with no contract of its own: the truthiness test on `suite.signatureCurve`, false for an absent curve and for the empty string; `CloneCarriesSigningKeys` and `EmptyCurveCarriesNoSigningKey` state its effect |
| MaterialManagement.IsEncryptionMaterial | modules/cache-material/src/clone_cryptographic_material.ts:48 | assumed: holds exactly for the Node and WebCrypto encryption classes |
| MaterialManagement.IsDecryptionMaterial | modules/cache-material/src/clone_cryptographic_material.ts:59 | assumed: holds exactly for the Node and WebCrypto decryption classes, so never together with `IsEncryptionMaterial` |
| CloneProperties.CloneKeepsClassSuiteAndContext | modules/cache-material/src/clone_cryptographic_material.ts:30-38 | a clone has the source's role and the suite's family, so it has the source's own class when that class matches the suite; it shares the source's suite object and encryption context |
| CloneProperties.CloneCopiesDataKey | modules/cache-material/src/clone_cryptographic_material.ts:40-41 | the clone's data key has the source's bytes and is installed under the source's trace entry at position 0 |
| CloneProperties.CloneCarriesCryptoKey | modules/cache-material/src/clone_cryptographic_material.ts:42-46 | the clone holds the source's crypto key handle, or none when the source has none, and a handle only on a WebCrypto clone; the call passes the clone's trace entry at position 0, and that this entry then appears again at position 1 follows from the assumed `setCryptoKey` contract |
| CloneProperties.CloneReconcilesEdks | modules/cache-material/src/clone_cryptographic_material.ts:48-54 | for encryption material, the clone's EDKs are the source's in order; the trace entry recorded for each is the first source entry naming its provider, with that entry's flags |
| CloneProperties.CloneTraceComesFromSource | modules/cache-material/src/clone_cryptographic_material.ts:41-53 | every entry of the clone's keyring trace is an entry of the source's trace |
| CloneProperties.UnauthorizedEdkFailsClone | modules/cache-material/src/clone_cryptographic_material.ts:51-52 | an EDK that no trace entry names makes the clone fail with 'Malformed Encrypted Data Key' |
| CloneProperties.MalformedMeansUnauthorizedEdk | modules/cache-material/src/clone_cryptographic_material.ts:48-52 | that error arises only for encryption material with such an EDK |
| CloneProperties.CloneCarriesSigningKeys | modules/cache-material/src/clone_cryptographic_material.ts:56-62 | the signature key and the verification key are each copied iff the suite's signature curve is truthy and the source has the key; otherwise the clone has none |
| CloneProperties.EmptyCurveCarriesNoSigningKey | modules/cache-material/src/clone_cryptographic_material.ts:56-60 | a suite whose signature curve is the empty string (falsy) gives a clone with neither a signature nor a verification key |
| CloneProperties.CloneFailures | modules/cache-material/src/clone_cryptographic_material.ts:40-65 | exact conditions for each error, in order: no data key; a crypto key with a Node suite; mismatch iff encryption material whose class is not of its suite's family; malformed iff a matched encryption material has an unnamed EDK |
| CloneProperties.WellFormedSourceClones | modules/cache-material/src/clone_cryptographic_material.ts:29-68 | a source whose class matches its suite, that has a data key and whose EDKs are all named in its trace, clones successfully into its own class |
| CloneProperties.CloneOfCloneIsIdentical | modules/cache-material/src/clone_cryptographic_material.ts:29-68 | cloning a clone reproduces that clone exactly, trace and EDK flags included |
| CloneProperties.FindIndexFindsAuthorizingEntry | modules/cache-material/src/clone_cryptographic_material.ts:51-52 | the lookup finds something iff some trace entry names the EDK's provider |
| CloneProperties.FindIndexDependsOnProvider | modules/cache-material/src/clone_cryptographic_material.ts:51 | two EDKs with the same provider id and info are matched by the same entry |
| CloneProperties.ReconcileAgainstCloneTrace | modules/cache-material/src/clone_cryptographic_material.ts:49-54 | repeating the EDK lookup in a clone's trace finds the entries the source's trace gave |
| CloneProperties.SingleEdkScenario | modules/cache-material/src/clone_cryptographic_material.ts:48-58 | Node encryption material whose suite does not sign and one EDK named by its only trace entry clones to that EDK, with the trace [data-key entry, entry with the same flags] |
| CloneProperties.RebuiltTraceScenario | modules/cache-material/src/clone_cryptographic_material.ts:41-53 | a source trace [("p","n",1), ("p","n",2)] with one ("p","n") EDK clones with the trace [("p","n",1), ("p","n",1)], which differs from the source's |
| CloneProperties.UnmatchedEdkScenario | modules/cache-material/src/clone_cryptographic_material.ts:49-52 | an EDK from provider ('x', 'y') with only a ('p', 'n') trace entry makes the clone fail as malformed |
| CloneProperties.OverwriteCloneKey | modules/cache-material/src/clone_cryptographic_material.ts:40-41 | overwriting the clone's key buffer leaves the source's state unchanged |
| MaterialManagement.Material.constructor | modules/cache-material/src/clone_cryptographic_material.ts:32-38 | assumed: a new material of the chosen class over the given suite and context is empty, and so satisfies the material invariant `WellFormed` |
| MaterialManagement.Material.SetUnencryptedDataKey | modules/cache-material/src/clone_cryptographic_material.ts:41 | assumed: sets the one-shot data key to the given buffer and appends the given trace entry |
| MaterialManagement.Material.SetCryptoKey | modules/cache-material/src/clone_cryptographic_material.ts:44-45 | assumed: exists on WebCrypto classes only; sets the one-shot handle and appends the given trace entry, even when a data key is already set (the source of the second trace entry in `KeyTrace` and `CloneCarriesCryptoKey`) |
| MaterialManagement.Material.AddEncryptedDataKey | modules/cache-material/src/clone_cryptographic_material.ts:53 | assumed: appends the EDK and a trace entry naming its provider with the given flags |
| MaterialManagement.Material.SetSignatureKey | modules/cache-material/src/clone_cryptographic_material.ts:57 | assumed: encryption material with a signing suite takes a signature key once |
| MaterialManagement.Material.SetVerificationKey | modules/cache-material/src/clone_cryptographic_material.ts:61 | assumed: decryption material with a signing suite takes a verification key once |

## Left out

- The material-management package (`@aws-crypto/material-management`) is not part of this model. Its setters' own checks are not modelled: data-key length, required trace flags, key types, and throwing on a second set. Their contracts above are assumptions. The setters' one-shot rule is a precondition instead of a throw, and the clone always meets it.
- `isEncryptionMaterial` and `isDecryptionMaterial` are modelled on the material's class (`IsEncryptionMaterial`, `IsDecryptionMaterial`); their library definitions are not part of this model. `instanceof NodeAlgorithmSuite` is modelled as the suite's family.
- `getUnencryptedDataKey` is modelled only as failing with `UnsetDataKey` when no key was set. Its other checks belong to the library and are not modelled.
- Algorithm suites carry only their family and their optional signature curve, whose only use is its truthiness (`HasSignatureCurve`). All other parameters and all cryptography are left out.
- Whether `setCryptoKey` records its trace entry once a data key is already set is the package's behaviour and is not shown by the code modelled here. The model assumes it appends the entry; if the package records nothing in that case, a clone carrying a crypto key has one entry fewer in front of its EDK entries, and the second-entry clause of `CloneCarriesCryptoKey` does not hold.
- Crypto key handles, signature keys and verification keys are opaque objects compared by identity.
- TypeScript generics and casts are left out. "Same class out as in" is stated as `CloneKeepsClassSuiteAndContext` and `WellFormedSourceClones`.
- Concurrency and changes to the source during cloning are left out. The operation is synchronous and has no suspension points.
- Zeroing of key buffers belongs to the library. Independence of the buffers is stated through freshness and `OverwriteCloneKey`.
- Object identity of trace entries and EDKs is not modelled. `TraceEntry` and `EncryptedDataKey` are values. The code hands the source's own entry object (line 41) and the source's own EDK objects (line 53) to the clone's setters. Unless the library copies them, source and clone share those objects. The model cannot express that sharing, and promises only equal values.
