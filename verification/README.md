# Verified model of a layered MTProto library

This project models four parts of a Go implementation of Telegram's MTProto and proves
properties of them with Dafny 4.11. `dafny verify dfyconfig.toml` checks everything.

**The multi-layer schema compiler** (`gen/`). One canonical TL schema is compared with older
"layer" schemas; generated codecs translate canonical Go values to and from each layer.
`Schema`, `Shapes` and `Obligations` model definitions, their shape digests and their
comparison; `StaticDirty` and `DirectBytes` the decision which families keep the canonical
bytes, `DirectShortcut` when the generated code may then skip the layered codec; `LayerCodec` is
the meaning of the generated encoders and decoders, `LayerEncoder` the encoders as they run on a
buffer, `LayerRewrite` and `LayerFates` the values they write, leave out or refuse,
`LayerRoundTrip`, `LayerNormal` and `LayerPresence` what survives a trip, `LayerReturn` what can be
written again after it was decoded, `WireSize` the minimum sizes used to refuse impossible vectors;
`SparseClosure` prunes the converters that generated code cannot reach; `GraphDigest` hashes
reachable subgraphs and `GraphCoverage` says what they contain; `Ordering` lists names and keys in
order; `RpcFreeze` admits wrapped RPC requests.

**The key exchange and message cipher** (`exchange/`, `crypto/`). `ExchangeWire` holds the TL
messages and plaintext envelopes, `Exchange` the steps of client and server, `ExchangeRuns` all
their interleavings over ordered channels, `ExchangeFlows` and `ExchangeClientFlow` the two
`Run` methods, `ExchangePrograms` the two programs against each other, `ExchangeCompletion` when
both finish, `ExchangeGuards` what either has checked whoever its peer is; `RsaPad`,
`HashedAnswer` and `MessageCipher` the envelopes. SHA-1, SHA-256 and
AES-IGE are function parameters known only by their laws (`Crypto.Lawful`: digest sizes,
decryption inverts encryption on whole blocks), an RSA key pair by `RsaPad.KeyPair`. Modular
exponentiation, exclusive or, reversal, big-endian conversion and padding are concrete.

**Arithmetic with state** (`crypto/`). `Factorize` is the randomised splitting of pq; `DHCache`
and `DHCacheRuns` the bounded cache of validated Diffie-Hellman parameters, alone and under
every interleaving of concurrent callers.

**Binary formats** (`bin/`, `fileid/`). `Bin` is TL serialisation with its mutable buffer,
`Values` Go values and flag words, `Rle`, `FileId` and `FileIdLayout` the Bot API `file_id`.

Code that updates state is modelled by methods over mutable objects (`Bin.Buffer`,
`SparseClosure.ReferenceSet`, `SparseClosure.CodecModel`, `GraphDigest.Hasher`, `DHCache.Cache`,
`Crypto.RandomSource`, `ExchangeFlows.Conn`), each proved against a specification function;
the theorems are about those functions. Random sources are finite byte or number sequences and
fail when they run out, clocks and message identifiers are parameters, map iteration order is an
arbitrary choice.

Six properties one might expect are false of the code; the model keeps the code and states
exactly when they hold.

- A family classified retag is not always byte-equal inside: self edges are skipped, so a
  recursive constructor with a new identifier is still retagged. The bytes inside agree exactly
  when the value holds no boxed object of its own family (`DirectBytes.RetagBodyExact`,
  `DirectBytes.RetagSelfReferenceCounterexample`).
- The canonical method that direct families use instead of the layered encoder keeps flag bits
  that no field owns, the layered encoder clears them; and it writes an object whose constructor
  the layer counts to another class, which the layered encoder refuses. For values within the
  limits the two agree exactly when every object in the value belongs in the layer to the class it
  stands for and none has such a bit, whatever methods return (`DirectShortcut.DirectShortcutExact`,
  `DirectShortcut.StrayBitDiffers`, `DirectShortcut.MovedClassDiffers`).
- What a layer has decoded can not always be written again: an optional vector of class values that
  arrives empty becomes a nil slice under a set bit, which the encoder refuses as malformed. A
  decoded value is written again, and comes back as it was, exactly when it holds no such vector
  (`LayerReturn.DecodedReturns`, `LayerReturn.EmptyVectorStays`).
- A client does not survive every server it knows a key of: pq = 0 or 1 makes the factorisation
  divide by zero as soon as it has drawn the number it reduces, and nothing else does
  (`ExchangeClientFlow.ZeroDivisionExact`, `Factorize.DecomposePQ`).
- A failed vector restores the buffer exactly when it was refused before its header or its
  elements are not primitives; a primitive vector with an oversized string keeps its header and
  earlier elements (`LayerEncoder.EncodeValue`, `LayerEncoder.OversizedStringLeavesHeader`,
  `LayerEncoder.OversizedStringExists`).
- `rleDecode` inverts `rleEncode`, and `DecodeFileID` inverts `EncodeFileID` on well-formed values,
  exactly when there are no 256 zeros in a row, because the run counter is one byte (`Rle.RoundTrip`,
  `FileId.RoundTrip`, `Rle.LongRunIsLost`, `FileId.ZeroReferenceIsLost`).

Where code and documentation disagree the model follows the code: `DecomposePQ` returns p <= q,
not p < q (a square gives equal factors); the Diffie-Hellman check accepts 2^2047 itself; an
exchange answer whose data cannot be guessed is reported as empty data, not as an error, and the
TL decoder rejects it afterwards.

## Model

| member | source | states |
|---|---|---|
| Bin.BytesRoundTrip | bin/bytes.go:8-54 | a TL byte string followed by anything decodes to itself and leaves exactly what followed, if and only if it has at most 2^24-1 bytes |
| Bin.BytesLaidOut | bin/bytes.go:8-27 | one length byte up to 253, otherwise 254 and three length bytes, then the payload and zeros up to the next word |
| Bin.IdentifierBytes | bin/bin.go:15-25 | the bytes of the identifiers of vector, boolTrue and boolFalse |
| Bin.BytesAligned | bin/bytes.go:8-27 | a TL byte string takes a whole number of words, at least one, and at most seven bytes more than its payload |
| Bin.SignedRoundTrip | bin/decode.go:57-67 | a signed word in range is read back with nothing else consumed |
| Bin.FromLEInverse | bin/encode.go:86-108 | the word format is a bijection between bytes and numbers of that width |
| Bin.VectorHeaderRoundTrip | bin/decode.go:111-127 | a vector header is read back as its length |
| Bin.Buffer.PutBytes | bin/bytes.go:8-27 | appends exactly the TL form of the payload |
| Bin.Buffer.PutBytesChecked | bin/encode.go:42-49 | refuses exactly payloads beyond 2^24-1 bytes and then leaves the buffer alone |
| Bin.Buffer.Bytes | bin/decode.go:144-154 | returns the payload or fails without consuming, as the reader function says |
| Bin.Buffer.VectorHeader | bin/decode.go:111-127 | consumes the identifier even when the length is then refused |
| Values.FlagsRoundTrip | bin/fields.go:21-49 | all 32 presence bits survive a flags word |
| Shapes.BodyStreamsEqualIffSameBody | gen/semantic/shape.go:94-117 | two definitions hash the same body bytes if and only if base flag, generic parameters and ordered fields agree |
| Shapes.TypeCancel | gen/semantic/shape.go:78-87 | the bytes of a type reference of any nesting determine the type and where it ends |
| Shapes.KindsNumbered | gen/semantic/shape.go:78-87 | a type begins with the number of its kind |
| StaticDirty.Analyze | gen/layer_static_model.go:420-496 | marks as nested the least set with every dynamic parent (once anything changed) and every family with another dirty or nested dependency, on any cyclic schema |
| StaticDirty.Propagate | gen/layer_static_model.go:471-495 | the worklist ends with a set closed under reverse edges and contained in every closed set |
| StaticDirty.CollectType | gen/layer_static_model.go:518-563 | collects exactly the families a type refers to and reports dynamic types |
| StaticDirty.AnalysisUnique | gen/layer_static_model.go:428-495 | two analyses of the same schemas agree, whatever the visiting order |
| DirectBytes.DirectKeepsBytes | gen/layer_wire_model.go:666-710 | every value of a direct family, boxed or bare and at any nesting, has the same bytes under the layer as under the canonical schema |
| DirectBytes.RetagBodyExact | gen/layer_wire_model.go:704-708 | the body of a retagged value keeps its bytes if and only if it holds no boxed object of its own family, in particular whenever the family does not depend on itself |
| DirectBytes.RetagSelfReferenceCounterexample | gen/layer_static_model.go:456-458 | a recursive constructor with a new identifier is classified retag and does change its body |
| DirectShortcut.ActionExact | gen/layer_wire_model.go:662-710 | a family gets a mechanical action if and only if the layer has a mechanical codec for it, is left to a policy if and only if it is present on both sides and the comparison leaves a decision about its body, and is otherwise named by the side it is missing from; direct and retag are exactly the unchanged bodies that contain nothing changed, told apart by the identifier |
| DirectShortcut.DirectShortcutExact | gen/layer_sparse_codec_model.go:73-95 | the canonical method of a direct family writes every value within the limits; the layered encoder writes or fails as every object in the value does or does not belong in the layer to the class it stands for; the two outcomes are equal if and only if all belong and no object has a flag bit set that no field owns |
| DirectShortcut.ValueMatches | gen/layer_codec_model.go:2024-2110 | layered and canonical encoder write equally many bytes for every value whose reachable families keep body and identifier and whose objects belong to their classes, the same ones exactly when it is tidy |
| DirectShortcut.CanonicalWrites | gen/layer_sparse_codec_model.go:73-95 | the canonical encoder writes every value within the limits, at any nesting |
| DirectShortcut.StrayBitDiffers | gen/layer_sparse_codec_model.go:73-95 | a struct with a set bit that no field owns is written differently although its family is direct |
| DirectShortcut.MovedClassDiffers | gen/layer_codec_model.go:2540-2559 | a struct that holds a constructor which the layer counts to another class is direct and written canonically, and refused by the layered encoder |
| DirectShortcut.UnchangedLayerIsDirect | gen/layer_wire_model.go:696-710 | in a layer whose schema is the canonical one every family is classified direct |
| Obligations.CompareDefinitions | gen/layer_obligations.go:245-321 | reports exactly the specified obligations, and none if and only if value fields correspond by name with equal type, optionality and presence-only status and share flag bits alike |
| Obligations.SilentIffCorresponds | gen/layer_obligations.go:396-451 | no obligation in either direction means one-to-one correspondence although bit numbers may differ |
| Obligations.BodySilentIffSameFields | gen/layer_conversion.go:61-72 | a family has no body obligation if and only if its value fields correspond, whatever happened to a method's result |
| Obligations.FindFieldAliases | gen/layer_obligations.go:485-541 | finds exactly the positions where two fields that nothing else is named like have one type and equal optionality and presence-only status |
| Obligations.RenamedIsMechanical | gen/layer_obligations.go:396-451 | no renamed field is reported as incompatible or required in either direction |
| Obligations.ReplacedIsMechanical | gen/layer_obligations.go:396-451 | nor is a field that takes over a flag slot |
| Obligations.RequiredIsMandatory | gen/layer_obligations.go:396-451 | only unconditional fields are reported as required |
| Obligations.GroupReportedIffApart | gen/layer_obligations.go:560-624 | a target flag group is reported if and only if two of its fields are read from sources that are not equally present |
| Obligations.FindFieldReplacements | gen/layer_obligations.go:179-243 | pairs exactly the slots with one free field on each side |
| Obligations.CompareGroups | gen/layer_obligations.go:560-624 | reports exactly the target flag groups whose members have different presence in the source |
| Obligations.UnpairedFields | gen/layer_obligations.go:328-394 | reports exactly the value fields without namesake or partner |
| Obligations.PairingIsInjection | gen/layer_obligations.go:179-243 | aliases and replacements together are one-to-one and never touch a field with a namesake |
| Obligations.BuildFieldMappings | gen/layer_conversion.go:264-293 | maps every profile field to the canonical position of its partner or namesake |
| Obligations.MappingIsInjection | gen/layer_conversion.go:264-293 | no two profile value fields are converted with the same canonical field |
| Obligations.EveryFieldIsAccountedFor | gen/layer_obligations.go:328-394 | a value field is converted, or has its own projection or discard obligation, never both |
| LayerRewrite.PlacedExact | gen/layer_codec_model.go:1298-1649 | if every family the type can reach is present without body obligations, the layered encoder writes a value within the limits, at any nesting, if and only if every object in it belongs in the layer to the class it stands for, and fails otherwise; nothing is dropped |
| LayerFates.FateExact | gen/layer_codec_model.go:1298-1649 | in every valid layer every value, well formed or not, is written, left out or refused by the encoder as the canonical definitions, the classes of both schemas and the families of the layer say: unknown constructors are left out unless they are updates, a field takes its group with it or tears it, and the first body that is not written decides |
| LayerRewrite.KeptClassesPlace | gen/layer_codec_model.go:2443-2497 | every value within the limits is such a value where the reachable constructors keep their class, whatever methods return |
| LayerRewrite.RewriteSucceeds | gen/layer_codec_model.go:1298-1649 | with both hypotheses the layered encoder writes every value within the limits |
| LayerRewrite.RawIsRaised | gen/layer_codec_model.go:2650-2681 | the presence test of a profile group asks whether the canonical group is raised, wherever its bit now is |
| LayerRewrite.FinalIsRaised | gen/layer_codec_model.go:1548-1610 | when everything written was encoded a profile flag is set exactly when its canonical group is raised |
| LayerRewrite.NoPartialGroups | gen/layer_codec_model.go:1548-1610 | and no shared bit is left half present |
| LayerRoundTrip.RoundTrip | gen/layer_codec_model.go:1298-1875 | decoding what the layer's encoder wrote gives the normal form of the value and leaves exactly what followed, or a limit error exactly when the written value exceeds a limit; this also holds where elements were dropped |
| LayerRoundTrip.GroupsAgree | gen/layer_codec_model.go:1548-1610 | a profile flag group is set on the wire exactly when the canonical group it corresponds to survives |
| LayerRoundTrip.AssignIsNorm | gen/layer_codec_model.go:1651-1875 | assigning decoded fields and flag bits to a zero struct gives the normal form |
| LayerNormal.RewrittenValueComesBack | gen/layer_codec_model.go:1298-1875 | if every family the type can reach is present without body obligations, a value within the limits is written if and only if its objects belong to their classes in the layer, and then comes back as its flag normalisation under the canonical schema, whatever the layer |
| LayerNormal.NormalRoundTrip | gen/layer_codec_model.go:1298-1875 | and within the decode limits it is written and comes back unchanged if and only if moreover its flag words are exact, empty slices are nil and unset groups are zero |
| LayerNormal.MovedPairComesBack | gen/layer_codec_model.go:1298-1875 | a family whose optional field changed its flags word, its bit and its place meets these hypotheses, and all its 32-bit values come back unchanged |
| LayerPresence.TripShows | gen/layer_codec_model.go:1298-1875 | of every placed value within the limits, at any nesting, each primitive that was there to be seen comes back with its bytes, every element comes back, and a flag bit is set exactly where it was set or a field of its group has a byte, an element or a value to show |
| LayerPresence.OptionalComesBack | gen/layer_codec_model.go:2650-2681 | an optional number with a byte that is not zero comes back with its value and its bit, negative or not, whether its bit was set or not; zero bytes alone set no bit; floating point apart from the sign of zero |
| LayerPresence.BarePairGainsItsBit | gen/layer_codec_model.go:2650-2681 | for instance a pair written with a clear bit and any number but zero under it |
| LayerPresence.ShowsExact | gen/layer_codec_model.go:2650-2681 | the generated zero test finds a value zero exactly when it has nothing to show |
| LayerReturn.DecodedReturns | gen/layer_codec_model.go:1651-1875 | whatever bytes are decoded within 64 levels, the value is exact; it can be written again if and only if no object in it has a set bit over an empty vector of class values, and then comes back as it was |
| LayerReturn.DecodedIsSound | gen/layer_codec_model.go:2112-2210 | whatever the bytes, a decoded value has its type: constructors of its class in the layer, words without stray bits, zero fields under clear bits, sizes within the limits |
| LayerReturn.EmptyVectorStays | gen/layer_codec_model.go:1140-1166 | a struct with an optional vector of class values is decoded from its bit and an empty vector, and the result is refused by the encoder |
| LayerNormal.NormIsClear | gen/layer_codec_model.go:2650-2681 | if nothing is dropped, what survives does not depend on the layer's bits and field order |
| LayerNormal.ClearIffExact | gen/layer_codec_model.go:2650-2681 | the values that are their own normal form, described by their canonical definitions |
| LayerNormal.ClearIsExact | gen/layer_codec_model.go:2650-2681 | a second trip changes nothing |
| LayerNormal.RewriteDropsNothing | gen/layer_codec_model.go:2091-2105 | of such a value no element and no field is dropped at any depth |
| LayerNormal.EncodedValueComesBack | gen/layer_codec_model.go:1298-1875 | the round trip for every valid pair of schemas and everything that was written, dropped parts included |
| LayerEncoder.EncodeValue | gen/layer_codec_model.go:2024-2110 | the streaming encoder ends as the codec's meaning says, only appends, appends exactly those bytes on success, and a failed vector restores the buffer if and only if it was refused before its header or its elements are not primitives |
| LayerEncoder.EncodeItems | gen/layer_codec_model.go:2091-2105 | old contents, header with the number of kept elements, and exactly their encodings in order; on an error the buffer is restored |
| LayerEncoder.EncodePrimitives | gen/layer_codec_model.go:2079-2090 | a failed primitive vector leaves its header and the elements before the first bad one |
| LayerEncoder.OversizedStringLeavesHeader | gen/layer_codec_model.go:2079-2090 | every vector of byte strings with one beyond 2^24-1 bytes fails and is not restored |
| LayerEncoder.OversizedStringExists | gen/layer_codec_model.go:2079-2090 | for instance a vector of one string of 2^24 zeros |
| LayerEncoder.EncodeBare | gen/layer_codec_model.go:1298-1649 | encoding optional nested fields aside, checking groups and streaming the rest writes exactly the body of the constructor |
| LayerEncoder.SamePresence | gen/layer_codec_model.go:1530-1610 | the final flag bits depend only on the outcomes of the prepared fields |
| LayerEncoder.EncodeAtomic | gen/_template/layer_codec.tmpl:194-205 | any error leaves the caller's buffer exactly as it was |
| WireSize.EncodingSize | gen/layer_rpc_field.go:373-407 | every encoding is a whole number of words and at least the compiler's minimum for its type |
| WireSize.MinimumAttained | gen/layer_rpc_field.go:373-407 | every primitive and every vector has a value of exactly the minimum size |
| WireSize.MinimumOfEmpty | gen/layer_rpc_field.go:373-407 | so has every class or bare type with a constructor without fields |
| WireSize.NumberBytes | gen/layer_codec_model.go:2225-2252 | int, long and double, under all their names, are words of 4 and 8 bytes |
| WireSize.BlockBytes | gen/layer_codec_model.go:2225-2252 | int128 and int256 are written as they are, byte strings with their length, nil as the empty one |
| WireSize.BoolBytes | gen/layer_codec_model.go:2225-2252 | a bool is the identifier of its constructor |
| WireSize.VectorSize | gen/layer_rpc_field.go:366-371 | a vector with n kept elements takes at least its header plus n element minima |
| WireSize.DecodingConsumes | gen/layer_rpc_field.go:373-407 | no successful decode consumes less than the minimum of its type |
| WireSize.ItemsConsume | gen/layer_rpc_field.go:366-407 | n decoded elements consume at least n element minima, so refusing a shorter input rejects nothing decodable |
| SparseClosure.Prune | gen/layer_sparse_codec_model.go:242-377 | succeeds if and only if no reachable converter is absent, dynamic or direct without operation; keeps exactly the reachable converters, wires in their order and declarations in the order of their names; on failure the model is unchanged |
| SparseClosure.PrunableExact | gen/layer_sparse_codec_model.go:268-358 | a model can be pruned if and only if everything reached is declared in it, preflight functions aside, nothing reached and no root text is dynamic, and every reached direct wire is encoded or decoded by something reached |
| SparseClosure.RootsAreKept | gen/layer_sparse_codec_model.go:271-282 | root wires, the encoders of root families and everything root texts mention are kept |
| SparseClosure.KeptForAReason | gen/layer_sparse_codec_model.go:283-340 | nothing else is kept: a kept converter is a root or is called by a kept one |
| SparseClosure.CallsExact | gen/layer_sparse_codec_model.go:294-303 | wires call what their profile bodies mention, direct and profile-only wires call nothing |
| SparseClosure.DeclarationTableExact | gen/layer_sparse_codec_model.go:250-270 | a name stands for its last declaration that is not a preflight function |
| SparseClosure.KeptOrderUnique | gen/layer_sparse_codec_model.go:359-374 | the stored declarations do not depend on the order in which names were found |
| SparseClosure.Select | gen/layer_sparse_codec_model.go:268-358 | the same on values: kept wires in order with their used operations, and the reachable class and family names |
| SparseClosure.Close | gen/layer_sparse_codec_model.go:283-340 | the repeat-until-no-progress loop ends in the reachable set for any visiting order |
| SparseClosure.ReferenceSet.Collect | gen/layer_sparse_codec_model.go:216-240 | adds exactly what a text mentions |
| SparseClosure.ClosureIsReachable | gen/layer_sparse_codec_model.go:283-340 | a closed set of reachable converters is the reachable set, so the result does not depend on map order |
| SparseClosure.KeptReferencesResolve | gen/layer_sparse_codec_model.go:242-377 | every reference from a kept converter resolves to a kept converter |
| GraphDigest.Search | gen/layer_execution_plan.go:491-523 | visits exactly the definitions reachable from the roots, terminates on cycles, and fails if and only if a root is absent |
| GraphDigest.Digest | gen/layer_execution_plan.go:491-557 | hashes one record per reachable definition, in key order |
| GraphDigest.StreamInjective | gen/layer_execution_plan.go:220-243 | the length-prefixed stream parses in one way only |
| GraphDigest.StreamsEqualIffSubgraphsEqual | gen/layer_execution_plan.go:488-557 | two digests are taken of the same bytes if and only if the reachable subgraphs agree in keys, identifiers, shapes and edges |
| Ordering.Sort | gen/layer_static_model.go:565-572 | lists a set in ascending order whatever order it is visited in |
| Ordering.ListingUnique | gen/layer_static_model.go:565-572 | there is only one such listing |
| GraphDigest.CollectType | gen/layer_execution_plan.go:559-593 | collects exactly the dependencies of a type present in the schema |
| GraphCoverage.DigestCoversValues | gen/layer_execution_plan.go:491-593 | every object inside a value of a digested definition, through vectors, classes, bare constructors and dynamic fields, belongs to a digested definition |
| GraphCoverage.EdgesAreConstructors | gen/layer_execution_plan.go:559-593 | a static edge leads exactly to the constructors the innermost type of a field can hold, except that a type which names a constructor in place of a class leads to that constructor, which it can not hold |
| GraphDigest.RecordsOrdered | gen/layer_static_model.go:565-572 | types come before methods, and names ascend within either |
| RpcFreeze.FreezeCallExact | gen/layer_rpc_model.go:775-839 | a request is frozen if and only if every link of its chain is admitted in the layer in force there within 256 wrappers; the call carries the layer of the last selecting wrapper and one binding per wrapper, innermost first, all with the innermost result |
| RpcFreeze.RejectionExact | gen/layer_rpc_model.go:775-839 | a request is rejected with a reason if and only if that is why the first link of its chain that is not an admitted wrapper fails |
| RpcFreeze.ProfilesStaySupported | gen/layer_rpc_model.go:800-806 | only configured layers are ever in force |
| RpcFreeze.ProfileSupported | gen/layer_rpc_model.go:841-844 | the binary search finds a layer exactly when it is configured |
| RpcFreeze.RunFreezeCall | gen/layer_rpc_model.go:775-839 | the recursion with its searches and appended bindings succeeds exactly on admitted chains and returns the call they describe |
| RpcFreeze.ClassifyObligations | gen/layer_rpc_model.go:618-650 | the action and hook depend only on which resolutions and hooks occur, not on their order |
| RpcFreeze.BuildWrapper | gen/layer_rpc_model.go:688-747 | a wrapper is planned only with exactly one query field for its result slot, and only invokeWithLayer selects a layer, from an unconditional int before the query |
| Factorize.SquarePlus | crypto/pq.go:76-95 | the shift-add loop computes (x*x + v) mod pq with both accumulators below pq |
| Factorize.ShiftedOneWraps | crypto/pq.go:69 | the bound of a walk is a power of two in 64-bit arithmetic, negative and zero included |
| Factorize.DecomposePQ | crypto/pq.go:28-122 | a result is a proper factorisation in order, for a product of two primes those primes; it runs out of numbers exactly when no walk meets a proper divisor, always on primes; it divides by zero exactly for pq below two |
| Factorize.PrimeFactorsUnique | crypto/pq.go:27-28 | a product of two primes splits in only one way |
| DHCache.Cache.Validate | crypto/check_dh.go:53-79 | accepts exactly approved keys, admits only new ones, and keeps the ring recent, distinct and approved |
| DHCache.Cache.Check | crypto/check_dh.go:99-117 | the cached check accepts exactly the pairs the uncached one does |
| DHCache.AcceptsExact | crypto/check_gp.go:17-48 | accepted are exactly p with 2^2047 <= p < 2^2048, p and (p-1)/2 prime, and a residue listed for the generator |
| DHCache.GeneratorsMultiply | crypto/check_gp.go:17-48 | the listed residues multiply as residue symbols do: 6 is listed exactly when 2 and 3 both are or neither is |
| DHCache.KeyExact | crypto/check_dh.go:35-42 | a key holds the whole prime, so equal keys mean equal parameters |
| DHCache.AdmitKeepsGood | crypto/check_dh.go:71-78 | after an admission the ring holds the most recent min(n, 16) keys with next at the oldest once full |
| DHCacheRuns.CacheIsTransparent | crypto/check_dh.go:44-79 | in every interleaving of callers, lock operations, scans and writes, a returned caller was accepted exactly when the uncached check accepts, and the ring is good whenever no writer is inside |
| DHCacheRuns.NeverStuck | crypto/check_dh.go:53-79 | while a caller has not returned some caller can take a step |
| DHCacheRuns.CheckIsForUnseen | crypto/check_dh.go:53-79 | in every interleaving the expensive check only runs for a key that is not among the last sixteen admissions |
| DHCacheRuns.OneProofPerBurst | crypto/check_dh.go:21-25 | however many callers present one pair, its successful check is the only one until sixteen other keys have been admitted after it |
| Crypto.SharedSecret | exchange/client_flow.go:203-238 | (g^a)^b = (g^b)^a mod p |
| Crypto.SecretIsPower | exchange/client_flow.go:203-238 | (g^a mod p)^b mod p = g^(ab) mod p |
| Crypto.ReverseBytes | crypto/rsa_pad.go:18-22 | reverses the slice in place and nothing else |
| Crypto.XorInverse | crypto/rsa_pad.go:87-92 | exclusive or with the same mask twice gives the original |
| Crypto.XorBytewise | crypto/rsa_pad.go:87-92 | every bit of the result is set exactly where the bits of the operands differ |
| BigEndian.FromBEInverse | crypto/rsa.go:40-53 | fixed-width big-endian conversion is a bijection |
| RsaPad.Seal | crypto/rsa_pad.go:34-118 | refuses more than 144 bytes, and otherwise returns the block of the first temporary key whose value is below the modulus |
| RsaPad.SealOfExact | crypto/rsa_pad.go:34-118 | the sealed data as a function of the random stream is the block of the first fitting key, and nothing only when none fits |
| RsaPad.ServerReads | crypto/rsa_pad.go:34-161 | whatever the client seals, the server opens to 192 bytes that begin with the data |
| RsaPad.OpenExact | crypto/rsa_pad.go:121-161 | a decrypted block is accepted if and only if it was sealed under some temporary key, and opens to what was sealed |
| RsaPad.DecodePad | crypto/rsa_pad.go:121-161 | the in-place decoder computes that opening |
| HashedAnswer.Guess | crypto/data_with_hash.go:10-32 | returns the longest of the sixteen candidates whose digest matches, or nothing when none does |
| HashedAnswer.GuessInverts | crypto/data_with_hash.go:10-55 | the guess extends the data by some of its padding with the same digest, and is the data itself if and only if no extension collides |
| HashedAnswer.AnswerRoundTrip | crypto/exchange.go:15-56 | decrypting an encrypted answer gives the answer followed by some of its padding |
| HashedAnswer.NoncesKeepTheirWidth | crypto/temp_keys.go:31-35 | leading zeros of nonces survive the trip through numbers |
| HashedAnswer.TempKeysLaidOut | crypto/temp_keys.go:30-47 | the temporary key is SHA1(new + server) and twelve bytes of SHA1(server + new), the IV its other eight, SHA1(new + new) and four bytes of the new nonce, both nonces at full width |
| HashedAnswer.NonceHashLaidOut | crypto/exchange.go:59-67 | the proof is SHA1 of the new nonce, a one and the first eight bytes of the key's digest, without its first four bytes |
| HashedAnswer.KeyIdIdentifies | crypto/key.go:28-35 | the identifier is the last eight bytes of the key's digest |
| HashedAnswer.SaltBytes | crypto/salt.go:11-17 | the salt's bytes are the exclusive or of the nonces' first eight, and together with the server nonce give the new nonce's first eight back |
| MessageCipher.DecryptInvertsEncrypt | crypto/cipher_encrypt.go:23-78 | for opposite sides with one key every message of whole words comes back with all header fields, length and bytes, and any other length is refused |
| MessageCipher.DecryptExact | crypto/cipher_decrypt.go:12-77 | a side accepts a frame if and only if the other side sealed it with the same key, with a length that is a multiple of four and at most 1024 bytes of padding |
| MessageCipher.SealedLaidOut | crypto/keys.go:23-110 | which bytes of the authorisation key and of the digests make up message key, AES key and IV on each side, as section "Defining AES Key and Initialization Vector" of the MTProto 2.0 description says |
| MessageCipher.CountPadding | crypto/cipher_encrypt.go:23-30 | padding is 12 to 267 bytes and aligns to 16 |
| MessageCipher.PaddingIsLeast | crypto/cipher_encrypt.go:23-30 | without the random blocks no shorter padding of at least 12 bytes would align |
| MessageCipher.PaddingSteps | crypto/cipher_encrypt.go:23-30 | the random byte adds one of sixteen numbers of blocks |
| MessageCipher.EncodeWithoutCopy | crypto/encrypted_message_data.go:36-55 | the back-patched length equals the length of the message |
| MessageCipher.Encrypt | crypto/cipher_encrypt.go:33-78 | the buffer holds exactly the sealed envelope, and it fails only when randomness runs out |
| MessageCipher.DecryptFromBuffer | crypto/cipher_decrypt.go:12-77 | performs the receiver's checks in order |
| ExchangeWire.FramedRoundTrip | proto/unencrypted_message.go:18-66 | every exchange message in a plaintext envelope is read back whole |
| ExchangeWire.RequestBytes | exchange/client_flow.go:18-304 | the bytes of the identifiers of requests and inner data |
| ExchangeWire.AnswerBytes | exchange/server_flow.go:120-309 | the bytes of the identifiers of answers |
| Exchange.ReadDataExact | exchange/proto.go:59-102 | a frame is read as data if and only if it begins with an envelope of that data under an identifier a client or a server response may have |
| Exchange.CheckRangeExact | crypto/dh.go:12-42 | the generator is strictly between 1 and p - 1 and both public values are more than 2^1984 away from 0 and p |
| ExchangeRuns.BothSidesAgree | exchange/client_flow.go:171-291 | in every run over ordered channels in which both sides succeed they hold the same key, identifier and salt: in an earlier state they had exponents a and b and nonces with key = g^(ab) mod p in 256 bytes, the identifier ends the key's SHA-1 digest, and the salt's bytes are the exclusive or of the nonces' first eight |
| ExchangeRuns.KeyWasMade | exchange/server_flow.go:265-308 | whenever the server has finished its key is that power of both exponents |
| ExchangeRuns.OnlyLocalFailures | exchange/server_flow.go:120-309 | no run fails on decoding, a nonce, a hash or a key size, only on a side's own randomness, keys or checks or on a pq below two from the server's generator; a finished client implies a finished server |
| ExchangeRuns.NeverStuck | exchange/proto.go:59-102 | until the end exactly one message is in flight and its receiver waits for it |
| ExchangeRuns.ExchangeCompletes | exchange/client_flow.go:18-304 | when both sides have randomness, a shared key and data centre and acceptable numbers, seven steps take both to the end with the key of the exponents chosen, its identifier and the salt of the nonces chosen |
| ExchangeRuns.ResPQOutcome | exchange/client_flow.go:31-144 | after the first answer the client stops if and only if it lacks the key, pq exceeds 2^63, the factorisation fails or randomness is missing; otherwise it sends inner data the server opens to its new nonce |
| ExchangeRuns.SecondOutcome | exchange/server_flow.go:166-263 | the server answers the sealed data with a group the client reads if and only if the data centres agree and it has its numbers and padding |
| ExchangeRuns.ServerDHOutcome | exchange/client_flow.go:162-236 | the client answers the group with a public value the server reads if and only if it accepts the group and both public values and has randomness |
| ExchangeRuns.StepKeepsInv | exchange/server_flow.go:120-309 | every step of either side keeps the description of what is in flight |
| ExchangeFlows.RepeatsKeepNonceAndPq | exchange/server_flow.go:148-179 | however often a peer repeats req_pq, every answer repeats the first server nonce and pq and echoes the nonce it answers |
| ExchangeFlows.ServerRun | exchange/server_flow.go:120-309 | the server program sends and returns exactly what its steps say for the frames it received, with the nonce and padding its random stream delivers, the numbers of its generator and the identifiers and times of its clock |
| ExchangeFlows.HandleReq | exchange/server_flow.go:128-161 | the first step with the next sixteen random bytes as nonce and the generator's pq, and nothing drawn unless the request is read |
| ExchangeFlows.HandleSecond | exchange/server_flow.go:163-263 | the second step with the generator's prime and exponent and the stream as padding, of which exactly the padding is used |
| ExchangeFlows.HandleClientDH | exchange/server_flow.go:265-308 | decrypting the public value, the key, its hash and the salt make up the last step |
| ExchangeClientFlow.ClientRun | exchange/client_flow.go:18-304 | the client program follows its steps for the nonces, exponent, padding and session its random stream delivers, the factors its numbers give and the data RSA_PAD makes of the stream |
| ExchangeClientFlow.HandleResPQ | exchange/client_flow.go:31-144 | key selection, proof of work, new nonce and sealing as functions of the numbers and the stream, and what is left of the stream |
| ExchangeClientFlow.HandleServerDH | exchange/client_flow.go:145-236 | the next 256 random bytes are the exponent and the following ones the padding of the public value |
| ExchangeClientFlow.ZeroDivisionExact | crypto/pq.go:58-65 | the client divides by zero if and only if the answer is for its nonce and a key it has, pq is below two and the numbers last |
| ExchangeClientFlow.HandleGen | exchange/client_flow.go:237-304 | the nonces, the key and its hash are checked before a session is drawn, which succeeds exactly when eight bytes are left |
| ExchangePrograms.ProgramsFormRun | exchange/proto.go:26-102 | two programs that receive only what the other sent, in order, perform a run of the protocol, so all results about runs hold for them |
| ExchangePrograms.ProgramsAgree | exchange/client_flow.go:237-291 | if the client program succeeds so has the server program, with the same 256-byte key, identifier and salt, and a failure has a local reason or a pq below two |
| ExchangeCompletion.ProgramsComplete | exchange/client_flow.go:18-304 | with long enough random streams, a shared key and data centre, acceptable numbers and every frame delivered, both programs finish with g^(ab) mod p for the exponent of the server's generator and the 256 bytes of the client's stream behind the sealed data, the end of its digest and the exclusive or of the nonces drawn |
| ExchangeCompletion.SealChoice | exchange/client_flow.go:60-130 | reading the server's first answer the client chooses the nonce its stream delivers and the sealed data, and leaves the stream behind them |
| ExchangeGuards.FinishedClientChecked | exchange/client_flow.go:18-304 | a client program that finishes, whoever its peer is and whatever it sent, has in three turns seen its nonces again in every message, a fingerprint of one of its keys, a safe prime with a listed generator, public values in range, and the hash of its new nonce with the key it returns |
| ExchangeGuards.FinishedServerChecked | exchange/server_flow.go:120-309 | a server program that finishes has, whatever arrived, opened data sealed for its key that names no other data centre, and made its key from a public value encrypted for the nonce in it |
| Rle.RoundTrip | fileid/rle.go:5-39 | decoding inverts encoding if and only if there are no 256 zeros in a row |
| Rle.RleEncode | fileid/rle.go:5-24 | the loop with its one-byte counter computes the specified encoding |
| Rle.RleDecode | fileid/rle.go:26-39 | the loop with its pending byte computes the specified decoding |
| Rle.LongRunIsLost | fileid/rle.go:6-9 | 256 zeros do not survive |
| FileId.RoundTrip | fileid/file_id.go:27-131 | a file_id comes back unchanged if and only if it is well formed and its serialisation has no 256 zeros in a row |
| FileId.ZerosInReferenceAreLost | fileid/file_id.go:100-131 | no file_id whose reference holds 256 zeros in a row comes back |
| FileId.ZeroReferenceIsLost | fileid/rle.go:6-9 | for instance a document with a reference of 300 zeros |
| FileId.SourceRoundTrip | fileid/photo_size_source.go:113-288 | each of the ten photo source variants is read back from its current form |
| FileId.SourceConsumes | fileid/photo_size_source.go:113-243 | in every sub-version a decoded source took at least the bytes of its current form |
| FileIdLayout.IdLaidOut | fileid/file_id.go:100-131 | type with its two flags, data centre, reference, then the URL or identifier, hash, photo source and sub-version 34, then version 4 |
| FileIdLayout.SourceIsLaidOut | fileid/photo_size_source.go:245-288 | the fields of each photo source variant in order |
| FileIdLayout.EarlySourceRead | fileid/photo_size_source.go:113-145 | before sub-version 22 a source is volume, secret and local identifier |
| FileIdLayout.MiddleSourceRead | fileid/photo_size_source.go:113-243 | from sub-version 22 to 31 the variant stands between a volume and a local identifier; the volume only stays where the variant has none, the local identifier overrides it |
| FileId.PutFileID | fileid/file_id.go:100-131 | appends exactly the serialisation; a URL ends it early |
| FileId.Pack | fileid/encode.go:10-20 | serialising, adding the version and run-length encoding compose into the encoding the round trip is about |
| FileId.Unpack | fileid/decode.go:18-45 | decoding with its version check composes into the inverse |
| FileId.TakeFileID | fileid/file_id.go:27-98 | the field-by-field reader computes the specified decoding |

## Left out

- Policy hooks, adapters, projections and aliases of the generated codecs: arbitrary user code; families with body obligations have no mechanical codec in the model.
- Historical constructors, generic slots and the layer switch of `invokeWithLayer` inside values: one layer is fixed in the codec results, and layer selection is modelled in `RpcFreeze` only.
- LayerRewrite.PlacedExact: a value with an explicit flag on a nil interface field is outside the limits, as the encoder rejects it as malformed.
- The numbers of the server's `ServerRNG` are parameters and may come from any implementation whose `GA` returns an exponent a together with g^a mod p.
- Generated decoders are modelled as functions on the remaining bytes, not as methods on a buffer; their decode limits are part of the model.
- Generated source text: `SparseClosure` takes the converters a text mentions as given, not the regular expressions that find them.
- Obligation digests, their sorting and the application of a policy file to obligations.
- `payloadWireShape`: wire shape digests are opaque byte strings in `GraphDigest`.
- GraphDigest.StreamsEqualIffSubgraphsEqual: names are byte strings and lengths fit 64 bits, as they do for every Go value; it speaks of the hashed bytes, since hashes can collide.
- The admission field plans of `gen/layer_rpc_field.go` beyond the minimum sizes.
- Factorize.DecomposePQ: termination with an endless random source is not claimed; its 64-bit numbers come from a stream of their own.
- The number-theoretic meaning of `CheckGP` and the primality test: the residue table is modelled, primality is a parameter.
- Internals of SHA-1, SHA-256, AES, IGE and RSA key generation, and the older KDF and hashed RSA variants.
- ExchangeRuns.BothSidesAgree: assumes lawful primitives, a matching RSA key pair, 32-bit configuration values, fingerprints that identify the server's key among the client's, and numbers of at most 2^20 bytes.
- Exchange answers: nil and empty encrypted answers are identified; both end in a decode error.
- Transport, timeouts, logging, protocol error frames and session expiry times.
- The base64 text form of a file_id, and the conversions of a photo source to input peers and sticker sets.
- JSON key storage, generated registries and getters, constants of TDLib peer identifiers.
