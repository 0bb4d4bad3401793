# Verified models of the storage-scanner, codec, authority, airtime and ABI oracles

The repository keeps Python and C reference models ("oracles") of an embedded runtime: a
read-only storage scanner, its record codec, a wire frame codec, a publisher of large vector
documents, LoRa time-on-air arithmetic and an ABI drift catalogue. This project models those
oracles in Dafny and proves what they are for, for every input and every run.

Two kinds of members stand side by side. Where the source changes things step by step there is
an imperative member (a class with fields, a method with loops) proved equal to a function of its
inputs or old state; the laws are then lemmas about that function. SHA-256 is a function parameter
`h` throughout; where a law needs two digests to differ it names the two preimages (`Collide`,
`Distinguishes`). An uncaught Python exception is a value (`Crash`, `Halted`, `Broken`, `Raises`,
`None`), never a precondition.

| file | subject |
|---|---|
| `Octets`, `Catalog`, `Records` | byte strings, profile keys, the NLR1 envelope, RAW16, composite keys |
| `SessionMachine` | the session machine of both generators' `run_case`, as a function of its state |
| `ScannerObject`, `Verdict` | the same machine as an object updated in place; a scan as a program |
| `TraceLaws`, `SessionLaws`, `Isolation`, `Reconcile`, `Adoption`, `Extension`, `StatusLaws` | laws of every run, and the status it ends with |
| `CrossRow`, `CrossRowLaws`, `Builders`, `Layouts` | the twenty peer modes on real records, what an adopted scan says of them, that built records meet their plans, and that bodies laid out field by field are read back |
| `CrossRowDuties`, `CrossRowSpec` | the specification of adoption: the profile, every row on its own, and the duties of each mode, in stored bytes and records |
| `Witness`, `PublicationWitness` | snapshots that are adopted, a misfiled delivery, a row on which the structure gate raises; a document that is published |
| `Crc32c`, `CrcKernel`, `CrcVectors`, `ControlFrame` | CRC32C (section 12.1 of RFC 3720), what it cannot see, its known values, and the NCG1 frame |
| `Json`, `JsonReader` | canonical JSON text in UTF-8 and in ASCII, and the reader that inverts both |
| `Partition`, `PartitionLaws`, `Authority`, `Manifests`, `ReaderLaws`, `Publication`, `AuthorityStore` | the sharded authority: cutting, streaming digests, reading back, what the reader refuses, crash-consistent publication |
| `Airtime` | LoRa time on air |
| `AbiText`, `AbiWords`, `AbiComments`, `AbiTables`, `AbiCatalog` | text normalisation and the bounded catalogue tables |
| `AbiTypes`, `AbiTypeLaws`, `AbiTypeRuns`, `AbiTypeRoom` | normalising types: which ones are left alone, which are settled at once, the buffer |

What was found false of the code, with its exact condition:

* A rollback interrupted by a crash does not leave a state "a later identical publication can
  reuse": whatever happens afterwards, the publication is refused if and only if some file had been
  deleted (`InterruptedRollbackBlocks`). A crash before the manifest is replaced stays repeatable
  (`CrashBeforePublishIsRepeatable`). A document already visible can be published again only under
  the same cut into shards (`RepublishedIff`).
* The family 6 structure gate raises instead of returning a verdict, exactly on the scheduler rows
  of `GateRaisesIff`. Rebuilding a peer key raises in Mode 17 only, exactly on the secondaries of
  `PlanRaisesIff`, and comparing a peer exactly where it looks into a body that does not parse
  (`ComparisonRaisesIff`). A scan that reaches such a row does not return (`ScanStopsAtRow`, with a
  snapshot in `Witness.GateRaisesOnARow`).
* A delivery and its scheduler row name each other exactly when the delivery is stored under the
  composite key of its own raw key (`DeliveryLeadsBackIff`); one that is not is adopted all the same
  (`Witness.MisfiledDeliveryIsAdopted`).
* Mode 18 compares an index entry by the attempt's identity only: an attempt stored under its own key
  is led back to exactly when the entry's transaction is the attempt's owner (`AttemptLeadsBackIff`).
* Patching the old peer digest back restores the value exactly when the value carried a valid seal
  (`PatchBack`).
* A four-byte burst in an accepted frame goes undetected in exactly two windows: over the last
  payload byte and three bytes of the frame CRC, and over the last two payload bytes and two bytes
  of it (`UndetectedBurstIff`). Every such burst is detected exactly when the payload is empty.
* Normalising a type is not idempotent: `char const*const*` is stored in a form that changes when
  it is normalised again (`TypeNormalisingIsNotIdempotent`). Exactly the types of `TypeNormal`, a
  condition on the text alone, are left alone (`TypeNormalIff`). A type that fits its buffer is
  settled by normalising it once exactly when no qualifier in it stands directly before a star
  behind which a word follows that is no qualifier, and it does not end with two qualifiers
  (`SettledIff`); a type of less than 256 characters always fits (`RoomyStaysInBuffer`).
* A catalogue can be merged with an equal one exactly when the text of each of its typedefs is
  such a type (`CatalogSelfMergeIff`, `SettledTypesMerge`, `QualifiedTypedefCannotBeMerged`).
* A qualifier at the end of a type is dropped, so `char *` and `char * const` are stored alike and
  the drift comparison cannot tell them apart (`TrailingIsNotSeen`).
* The rebuilding of a type stays inside its buffer exactly when its result fits it (`InBufferIff`);
  then the loop in the buffer computes the normal form (`NormalizeType`).
* The name of an opaque structure typedef is taken from a declaration, not from an identifier
  buffer; one that does not fit its 96-byte field is not found again (`AddKeepsUniqueIff`,
  `LongNameIsAddedTwice`). All other names fit (`ReadIdentifier`, `FilledIsBuilt`).

## Model

| member | source | states |
|---|---|---|
| Verdict.ScanSnapshot | tools/domain_scan_crossrow_vector_gen.py:2420-3053 | the scanner object, run over a snapshot with any pauses, adopts it if and only if it is sound in the mode: profile rows, every row on its own, and every duty of the mode, all stated on stored bytes |
| CrossRowSpec.AdoptedIffSound | tools/domain_scan_crossrow_vector_gen.py:1412-2170 | for each of the twenty modes, a fault-free scan adopts exactly the snapshots that are sound in it, the specification naming no plan and no check of the machine |
| CrossRowSpec.StateOfEveryAnchor | tools/domain_scan_crossrow_vector_gen.py:1450-1451 | Mode 4 spelled out: in an adopted snapshot each anchor's transaction has its state row, pinned to the anchor |
| CrossRowSpec.GateAcceptsIff | tools/domain_scan_crossrow_vector_gen.py:2040-2170 | the structure gate accepts a family 6 row iff it is well formed: framing, subtype, digests and the fields of the five checked kinds |
| CrossRowSpec.ProfileIff | tools/domain_scan_crossrow_vector_gen.py:2502-2531 | the profile is exact iff its seventeen rows are there, sealed, of version 1 and within their sizes, and a complete binding is the one asked for |
| CrossRowSpec.FramingIff | tools/domain_scan_crossrow_vector_gen.py:374-403 | a value is current, or of a later version, iff it is a sealed domain record of that version within 4096 bytes, byte for byte |
| CrossRowSpec.EnvelopeIs | tools/domain_scan_crossrow_vector_gen.py:1043-1053 | where a current record keeps its subtype, its peer's digest and its body |
| CrossRowSpec.KeyIs | tools/domain_scan_crossrow_vector_gen.py:423-425 | the bytes of a domain key |
| CrossRowDuties.ServiceIff | tools/domain_scan_crossrow_vector_gen.py:1436-1445 | Modes 1 and 2: a service's plan is met iff its quota, or its reservation, is there and pinned to it |
| CrossRowDuties.AnchorIff | tools/domain_scan_crossrow_vector_gen.py:1446-1498 | Modes 3 to 10: an anchor's plan is met iff its sequence, state, idempotency, reservation, scheduler, event, storage or cancel row is as the mode asks, present or absent by family |
| CrossRowDuties.DeliveryIff | tools/domain_scan_crossrow_vector_gen.py:1499-1536 | Modes 11 to 14, likewise for a delivery |
| CrossRowDuties.IngressIff | tools/domain_scan_crossrow_vector_gen.py:1537-1575 | Modes 15 and 16, likewise for an ordered ingress row by its binding |
| CrossRowDuties.SecondaryIff | tools/domain_scan_crossrow_vector_gen.py:1692-1897 | Mode 17: a secondary's plan is met iff the primary its body names is there, holds that identity and is pinned |
| CrossRowDuties.AttemptIff | tools/domain_scan_crossrow_vector_gen.py:1579-1607 | Mode 18: an attempt's plan is met iff its index entry is there for a local owner and not there for a remote one |
| CrossRowDuties.IndexIff | tools/domain_scan_crossrow_vector_gen.py:1608-1620 | Mode 18: an index entry's plan is met iff the attempt it names is there and names it |
| CrossRowDuties.CallbackIff | tools/domain_scan_crossrow_vector_gen.py:1622-1645 | Mode 19: met iff the callback reservation is there exactly while the token is active |
| CrossRowDuties.ResultIff | tools/domain_scan_crossrow_vector_gen.py:1668-1688 | Mode 20: met iff the retention basis of a result is there exactly when it is terminal |
| CrossRowLaws.ScanDecidesConsistency | tools/domain_scan_crossrow_vector_gen.py:2628-2811 | a fault-free mode-m run is adopted iff profile EXACT, rows ascending and within bounds, no future material, every family 6 row well formed and meeting its rebuilt peer |
| CrossRowLaws.ConsistentIsRelational | tools/domain_scan_crossrow_vector_gen.py:2692-2811 | the machine's notion of a good row is the session-free one on records and lookups |
| Adoption.AdoptedIffConsistent | tools/domain_scan_composition_vector_gen.py:461-931 | for any record classification and peer plan: adopted iff consistent, with or without peer checks, for any split of a sufficient budget |
| Adoption.WalkDecides | tools/domain_scan_composition_vector_gen.py:662-742 | a walk with budget to spare ends clean iff every remaining row is good |
| Adoption.FinalizeDecides | tools/domain_scan_crossrow_vector_gen.py:3018-3029 | finalizing without faults gives a clean verdict iff the walk was exhausted, matching and saw nothing future |
| CrossRowLaws.RowOfConsistent | tools/domain_scan_crossrow_vector_gen.py:2040-2170 | in an adopted snapshot every family 6 row is structured and its peer plan is met |
| CrossRowLaws.AnchorLeadsBack | tools/domain_scan_crossrow_vector_gen.py:1464-1472 | Mode 7: the scheduler row an anchor leads to is there, and the reverse rebuild returns exactly the anchor's key |
| CrossRowLaws.IngressLeadsBack | tools/domain_scan_crossrow_vector_gen.py:1542-1552 | Mode 16 new delivery: the scheduler row an ingress row leads to is there and leads back to it |
| CrossRowLaws.DeliveryLeadsBackIff | tools/domain_scan_crossrow_vector_gen.py:1515-1522 | Mode 13: the scheduler row leads back to the delivery iff the delivery key is the composite of its raw key |
| CrossRowLaws.CallbackReservedIffActive | tools/domain_scan_crossrow_vector_gen.py:1622-1645 | Mode 19: a callback reservation is present iff the result cache row is active |
| CrossRowLaws.TransactionRetainedIffTerminal | tools/domain_scan_crossrow_vector_gen.py:1647-1667 | Mode 20: a transaction's retention basis is present iff the transaction is terminal |
| CrossRowLaws.ResultRetainedIffTerminal | tools/domain_scan_crossrow_vector_gen.py:1668-1688 | Mode 20: a result's retention basis is present iff its state is terminal |
| CrossRowLaws.AttemptLeadsBackIff | tools/domain_scan_crossrow_vector_gen.py:1579-1620 | Mode 18: a local attempt's index entry is there, and the attempt, stored under its own key, is led back to iff the entry's transaction is its owner |
| CrossRowLaws.SecondaryIsPinned | tools/domain_scan_crossrow_vector_gen.py:1692-1897 | Mode 17: every record with a primary carries the digest of the primary that is stored |
| CrossRowLaws.GateRaisesIff | tools/domain_scan_crossrow_vector_gen.py:2040-2170 | the structure gate raises on a row iff it is a current scheduler record with a known owner kind, a non-zero sequence and a subject that cannot be that owner's identity |
| CrossRowLaws.PlanRaisesIff | tools/domain_scan_crossrow_vector_gen.py:1692-1897 | rebuilding a peer key raises iff the mode is 17 and the secondary names its primary by an identity of another length than that primary's key holds |
| CrossRowLaws.ComparisonRaisesIff | tools/domain_scan_crossrow_vector_gen.py:2318-2417 | comparing a peer raises iff digest and framing let it begin and the body it looks into does not parse |
| CrossRowLaws.ScanStopsAtRow | tools/domain_scan_crossrow_vector_gen.py:2628-2811 | a scan of a matching profile never returns once its budget reaches the first row on which the gate, the plan or the comparison raises, when all rows before it are good |
| Witness.GateRaisesOnARow | tools/domain_scan_crossrow_vector_gen.py:2154-2168 | a stored row on which the gate raises, and a snapshot whose scan does not return |
| Witness.ProfileAloneIsAdopted | tools/domain_scan_crossrow_vector_gen.py:2502-2531 | the seventeen profile rows alone are adopted in every mode |
| Witness.MisfiledDeliveryIsAdopted | tools/domain_scan_crossrow_vector_gen.py:1515-1522 | a snapshot with a delivery under another identity is adopted in Mode 13 and its scheduler row does not lead back |
| CrossRowLaws.CompositionDecides | tools/domain_scan_composition_vector_gen.py:461-931 | the composition scan adopts iff the profile is exact, rows are in order and within bounds, and none is of a future root |
| Builders.SchedBodyReadsBack | tools/domain_scan_crossrow_vector_gen.py:1919-1943 | a built scheduler body parses back to the owner and subject it was built from and carries its primary's key digest |
| Builders.SchedBodyPassesGate | tools/domain_scan_crossrow_vector_gen.py:2154-2168 | the structure gate accepts a built scheduler body iff its sequence is not zero |
| Builders.BuiltSchedulerIsMetIff | tools/domain_scan_crossrow_vector_gen.py:2318-2417 | a sealed scheduler record pinned to the source row meets a plan with a declared owner iff it was built for that owner |
| Builders.ResBodyReadsBack | tools/domain_scan_crossrow_vector_gen.py:1945-1972 | a built reservation body parses back to its owner |
| Builders.ResBodyPassesGate | tools/domain_scan_crossrow_vector_gen.py:2137-2152 | the structure gate accepts a built reservation iff it is not a callback one or its owner is an 80-byte delivery key with a non-zero token |
| Layouts.AnchorReadsBack | tools/domain_scan_crossrow_vector_gen.py:1111-1142 | an anchor body laid out field by field parses to its fields |
| Layouts.DeliveryReadsBack | tools/domain_scan_crossrow_vector_gen.py:1149-1170 | likewise a delivery body |
| Layouts.IngressReadsBack | tools/domain_scan_crossrow_vector_gen.py:1172-1203 | likewise an ordered ingress body |
| Layouts.ResultReadsBack | tools/domain_scan_crossrow_vector_gen.py:1247-1275 | likewise a result cache body |
| Layouts.IdemReadsBack | tools/domain_scan_crossrow_vector_gen.py:1240-1245 | likewise an idempotency body |
| Layouts.EvmapReadsBack | tools/domain_scan_crossrow_vector_gen.py:1342-1347 | likewise an event map body |
| Layouts.AttemptReadsBack | tools/domain_scan_crossrow_vector_gen.py:1277-1286 | likewise an attempt body |
| Layouts.OwnedReadsBack | tools/domain_scan_crossrow_vector_gen.py:1223-1227 | likewise the bodies that begin with an owner |
| Layouts.SchedReadsBack | tools/domain_scan_crossrow_vector_gen.py:1229-1238 | likewise a scheduler body |
| Layouts.ReplyReadsBack | tools/domain_scan_crossrow_vector_gen.py:1325-1329 | likewise a reply body |
| TraceLaws.EveryTraceIsInGrammar | tools/domain_scan_composition_vector_gen.py:598-632 | whatever the faults and call order, every port trace is a prefix of the session grammar, and live phases are exactly the traces inside a walk |
| TraceLaws.StepCoherent | tools/domain_scan_composition_vector_gen.py:779-884 | one call keeps the phase invariant; the first failure is never overwritten and is what finalize and abort return |
| TraceLaws.RunCoherent | tools/domain_scan_composition_vector_gen.py:779-884 | every reachable state satisfies the phase, fence, reopen, close-count and peer-count invariant |
| TraceLaws.CleanupCoherent | tools/domain_scan_crossrow_vector_gen.py:2562-2594 | cleanup closes iterator, transaction and fence once, in order, and keeps the first failure |
| TraceLaws.WalkCoherent | tools/domain_scan_crossrow_vector_gen.py:2692-2811 | a walk ends open, exhausted or failed, and failed exactly with the status it returns |
| TraceLaws.BeginCoherent | tools/domain_scan_crossrow_vector_gen.py:2884-2972 | opening leaves an open session or a closed one, never a half-open one |
| TraceLaws.LiveHandle | tools/domain_scan_composition_vector_gen.py:662-677 | the check for a dead transaction or iterator never fires without drift |
| TraceLaws.PeerEffect | tools/domain_scan_crossrow_vector_gen.py:2628-2690 | a peer check is one counted get per applicable row and changes nothing else but the fence |
| TraceLaws.ProfileGetEffect | tools/domain_scan_composition_vector_gen.py:569-596 | a profile get is one event and retains exactly the looked-up value within its capacity |
| SessionLaws.BudgetFusion | tools/domain_scan_composition_vector_gen.py:662-742 | advance(a) then advance(b) leaves the machine and status of advance(a+b), faults and failures included |
| SessionLaws.WalkFusion | tools/domain_scan_composition_vector_gen.py:684-742 | walking a rows and then b is walking a+b, unless the first walk ended |
| SessionLaws.SplitAnywhere | tools/domain_scan_composition_vector_gen.py:662-742 | splitting a budget inside any run does not change where the run ends |
| Isolation.SessionIsolation | tools/domain_scan_composition_vector_gen.py:634-660 | after any finished fault-free run, session_init and calls S give the statuses and session-local state of S on a fresh machine, and append its trace |
| Isolation.AdoptionAfterSessions | tools/domain_scan_composition_vector_gen.py:785-806 | adoption survives earlier sessions exactly as long as none closed the storage handle |
| Isolation.PeerWithoutFaults | tools/domain_scan_crossrow_vector_gen.py:2628-2690 | without faults a peer evaluation depends on the snapshot only |
| Reconcile.ReconciliationNeverFails | tools/domain_scan_composition_vector_gen.py:678-710 | in every reachable open session the duplicate-bit, retained-value and end-mask checks cannot fire and the family count is the number of seen bits |
| Reconcile.CatalogRowAgrees | tools/domain_scan_composition_vector_gen.py:512-521 | a catalog row in order has an unseen bit and the retained value |
| Reconcile.EndMaskAgrees | tools/domain_scan_composition_vector_gen.py:678-690 | at the end of the rows the seen set is the present set |
| Reconcile.RunReconciles | tools/domain_scan_composition_vector_gen.py:678-710 | every run keeps retained values, seen bits and position consistent with the snapshot |
| Extension.PeersAreConservative | tools/domain_scan_crossrow_vector_gen.py:2884-2972 | an adopted fault-free cross-row run is adopted without peer checks too, with equal statuses, counters and masks; its trace is the other's less one peer get per applicable row |
| Extension.FailureStays | tools/domain_scan_crossrow_vector_gen.py:2471-2474 | a first failure is never forgotten inside a session |
| StatusLaws.ScanEndsWith | tools/domain_scan_composition_vector_gen.py:779-884 | the last status of any fault-free scan that returns: ok, unsupported for rows or profiles of another version or binding, corrupt otherwise, and invalid when it could not be opened |
| StatusLaws.OtherBindingIsUnsupported | tools/domain_scan_crossrow_vector_gen.py:2502-2531 | under another binding a scan always returns, unsupported when the rows are in place and corrupt when not |
| StatusLaws.OpeningReportsPort | tools/domain_scan_composition_vector_gen.py:569-596 | when the first get of a session fails, opening returns the port code's status and closes the session |
| StatusLaws.PortStatusIs | tools/domain_scan_crossrow_vector_gen.py:2303-2315 | which port codes give which status, every code covered |
| StatusLaws.PeerReportsPort | tools/domain_scan_crossrow_vector_gen.py:2640-2665 | a failing peer get stops the walk with the code's status; an unknown code is corruption and fences |
| StatusLaws.RollbackReportsPort | tools/domain_scan_crossrow_vector_gen.py:2562-2594 | a failing rollback is reported when nothing failed before, and always closes the storage handle |
| StatusLaws.IteratorFaultIsCorrupt | tools/domain_scan_crossrow_vector_gen.py:2884-2972 | an iterator that cannot be opened leaves a closed, corrupt session |
| StatusLaws.WrongPhase | tools/domain_scan_crossrow_vector_gen.py:2848-3006 | each call in a phase it is not for changes nothing and returns invalid state |
| StatusLaws.WrongArgument | tools/domain_scan_crossrow_vector_gen.py:2848-3006 | each argument out of range is refused in the right phase and leaves the session as it is |
| StatusLaws.CorruptCalls | tools/domain_scan_crossrow_vector_gen.py:2848-3006 | a note, or a call on a drifted handle, fails the session as corrupt and keeps the first failure |
| StatusLaws.AbortStatus | tools/domain_scan_crossrow_vector_gen.py:2996-3002 | abort closes and returns the first failure, or ok |
| StatusLaws.SessionStartsAnew | tools/domain_scan_composition_vector_gen.py:634-660 | a session starts anew from idle and closed machines only, and forgets all but the totals |
| ScannerObject.Scanner.TakeFault | tools/domain_scan_crossrow_vector_gen.py:2487-2495 | consumes the first unused armed fault, as the machine does |
| ScannerObject.Scanner.LookUp | tools/domain_scan_crossrow_vector_gen.py:2496-2501 | the loop finds the value of the first row with the key |
| ScannerObject.Scanner.DoProfileGets | tools/domain_scan_crossrow_vector_gen.py:2533-2560 | the seventeen gets leave the object in the machine's state with the machine's gate |
| ScannerObject.Scanner.DoCleanup | tools/domain_scan_crossrow_vector_gen.py:2562-2594 | the object ends as the machine's cleanup ends |
| ScannerObject.Scanner.DoBegin | tools/domain_scan_crossrow_vector_gen.py:2884-2972 | both begin calls, in place |
| ScannerObject.Scanner.EvaluatePeer | tools/domain_scan_crossrow_vector_gen.py:2628-2690 | the peer evaluation, in place |
| ScannerObject.Scanner.VisitRow | tools/domain_scan_crossrow_vector_gen.py:2717-2811 | one row, in place: same signal and same state as the machine's tick |
| ScannerObject.Scanner.AdvanceRows | tools/domain_scan_crossrow_vector_gen.py:2692-2811 | the budgeted loop ends in the state of the machine's walk |
| ScannerObject.Scanner.GetKey | tools/domain_scan_crossrow_vector_gen.py:2813-2838 | the exact get, in place |
| ScannerObject.Scanner.FinalizeSession | tools/domain_scan_crossrow_vector_gen.py:2982-2995 | finalize, in place |
| ScannerObject.Scanner.AbortSession | tools/domain_scan_crossrow_vector_gen.py:2996-3002 | abort, in place |
| ScannerObject.Scanner.Perform | tools/domain_scan_crossrow_vector_gen.py:2848-3006 | every call does to the fields what the machine's step does to its state |
| ScannerObject.Scanner.RunCalls | tools/domain_scan_crossrow_vector_gen.py:2848-3006 | a whole run of the object is the machine's run |
| Records.Raw16RoundTrip | tools/domain_scan_crossrow_vector_gen.py:1012-1021 | parsing inverts building at any position |
| Records.Raw16PrefixFree | tools/domain_scan_crossrow_vector_gen.py:427-431 | RAW16 strings are prefix-free, so concatenations split in one way |
| Records.KeyRoundTrip | tools/domain_scan_crossrow_vector_gen.py:1056-1063 | parsing a built key returns family, subtype, kind and identity |
| Records.KeyOfParsed | tools/domain_scan_crossrow_vector_gen.py:423-425 | a parsed key is the key built from its parts |
| Records.CompositeInjective | tools/domain_scan_crossrow_vector_gen.py:419-421 | equal composites come from equal subtype and material, or from a digest collision of those two preimages |
| Records.PairKeyInjective | tools/domain_scan_crossrow_vector_gen.py:1065-1072 | composite keys over two RAW16 strings determine both strings, up to such a collision |
| Records.EnvelopeRoundTrip | tools/domain_scan_crossrow_vector_gen.py:348-366 | extracting inverts encoding; framing is current iff the record is a version 1 domain record within 4096 bytes |
| Records.PatchIsLocal | tools/domain_scan_crossrow_vector_gen.py:406-417 | patching changes the peer digest and the seal only |
| Records.PatchBack | tools/domain_scan_crossrow_vector_gen.py:406-417 | patching the old digest back gives the old value iff it was sealed |
| Octets.BeRoundTrip | tools/domain_scan_crossrow_vector_gen.py:304-314 | a number within the width is read back from its big-endian string |
| Catalog.CatalogKeyOfId | tools/domain_scan_composition_vector_gen.py:204-214 | each profile identity is named by exactly one key |
| Crc32c.Compute | tools/control_frame_vector_gen.py:48-59 | the nested bit loops compute the code whose values CheckValue and ZerosAreSeen give |
| Crc32c.StateInjective | tools/control_frame_vector_gen.py:48-59 | distinct register states stay distinct over equal data |
| Crc32c.BurstChangesCrc | tools/control_frame_vector_gen.py:48-59 | any change within four consecutive bytes of any string changes its CRC |
| CrcKernel.CodesAgreeIff | tools/control_frame_vector_gen.py:48-59 | two strings with different last bytes have codes with the same last bytes iff the register's image of the difference is clear there |
| CrcKernel.ThreeAreSeen | tools/control_frame_vector_gen.py:48-59 | any change of the last three bytes shows in the last three bytes of the code |
| CrcKernel.HiddenChanges | tools/control_frame_vector_gen.py:48-59 | any last byte, and any last two bytes, can be changed without showing in as many last bytes of the code |
| CrcVectors.CheckValue | tools/control_frame_vector_gen.py:370-372 | the code of the digits 1 to 9 is E3069283 |
| CrcVectors.ZerosAreSeen | tools/control_frame_vector_gen.py:48-59 | the empty string has the code zero, a zero byte has 527D5351, and a zero byte in front of any string changes its code |
| ControlFrame.AcceptedIffEncoded | tools/control_frame_vector_gen.py:88-119 | the decoder accepts exactly the encodings of version 1, known type, zero flags, payload up to 1024 |
| ControlFrame.DecodeEncoded | tools/control_frame_vector_gen.py:62-119 | the verdict on any encoded frame as a function of version, type and flags, in order of the checks |
| ControlFrame.EncodeDecoded | tools/control_frame_vector_gen.py:62-119 | every accepted byte string re-encodes to itself |
| ControlFrame.FieldsRoundTrip | tools/control_frame_vector_gen.py:62-85 | the fields come back, reduced to their wire widths |
| ControlFrame.FrameIsSelfDelimiting | tools/control_frame_vector_gen.py:88-119 | every proper prefix is truncated, every extension has a bad length |
| ControlFrame.StreamSplitsUniquely | tools/control_frame_vector_gen.py:88-119 | a concatenation of accepted frames splits into frames in one way |
| ControlFrame.ByteChangeIsDetected | tools/control_frame_vector_gen.py:88-119 | no change of a single byte anywhere is accepted |
| ControlFrame.ByteChangeVerdict | tools/control_frame_vector_gen.py:88-119 | which verdict each single changed byte gives, by its place |
| ControlFrame.AcceptedBytes | tools/control_frame_vector_gen.py:88-119 | the accepted frames, byte by byte |
| ControlFrame.FieldsOnTheWire | tools/control_frame_vector_gen.py:62-85 | where an encoded frame keeps each field |
| ControlFrame.UndetectedBurstIff | tools/control_frame_vector_gen.py:88-119 | at each offset: some burst of four consecutive bytes of an accepted frame is accepted iff the window is one of the two blind ones over the end of the payload |
| ControlFrame.EveryBurstDetectedIff | tools/control_frame_vector_gen.py:88-119 | every four-byte burst anywhere is detected iff the payload is empty |
| Json.SortKeysOfSameKeys | tools/domain_scan_crossrow_d3s4_authority.py:85-90 | sorted key order depends on the set of keys only |
| Json.SortedHolds | tools/domain_scan_crossrow_d3s4_authority.py:85-90 | sorting moves entries and keeps what each key holds |
| Json.BeforeIff | tools/domain_scan_crossrow_d3s4_authority.py:85-90 | keys are ordered by the first code point in which they differ |
| JsonReader.ValueReads | tools/domain_scan_crossrow_d3s4_authority.py:78-90 | any value written in UTF-8, or in ASCII, reads back as itself, whatever delimits it |
| JsonReader.DumpInjective | tools/domain_scan_crossrow_d3s4_authority.py:78-90 | equal texts come from equal values |
| Partition.SizeIsLength | tools/domain_scan_crossrow_d3s4_authority.py:534-540 | the predicted shard size is the length of the canonical shard file |
| Partition.SliceMonotone | tools/domain_scan_crossrow_d3s4_authority.py:534-540 | a slice inside another is no larger, although its start may need more digits |
| Partition.GrowSlice | tools/domain_scan_crossrow_d3s4_authority.py:546-561 | the running payload gives the same stop as re-measuring every candidate |
| Partition.CutVectors | tools/domain_scan_crossrow_d3s4_authority.py:520-564 | the nested loops compute the specified cut or its failure |
| PartitionLaws.CutCovers | tools/domain_scan_crossrow_d3s4_authority.py:542-564 | slices are contiguous, non-empty, cover 0..n, stay inside a stage, under the cap and, beyond one vector, under the target |
| PartitionLaws.CutFailsIff | tools/domain_scan_crossrow_d3s4_authority.py:555-558 | cutting fails iff some vector cannot fit the hard cap alone |
| PartitionLaws.StageCutIsShortest | tools/domain_scan_crossrow_d3s4_authority.py:542-564 | when every vector fits the target alone, no contiguous cut of a stage into fitting slices is shorter |
| PartitionLaws.StagesAndNumbers | tools/domain_scan_crossrow_d3s4_authority.py:510-564 | every slice lies within the stage its place names, with boundaries at 94, 144 and 283, and is numbered from nought within it |
| Authority.StreamObject | tools/domain_scan_crossrow_d3s4_authority.py:358-403 | the bytes fed piece by piece are the serialisation of the whole object |
| Authority.FeedContent | tools/domain_scan_crossrow_d3s4_authority.py:92-113 | the content digest is fed the stable text of the document without its own digest |
| Authority.FeedCanonical | tools/domain_scan_crossrow_d3s4_authority.py:590-592 | the canonical digest is fed the document's canonical bytes |
| Authority.PiecesAreDocument | tools/domain_scan_crossrow_d3s4_authority.py:464-467 | reassembling in the recorded key order gives the document |
| Authority.PiecesAreSorted | tools/domain_scan_crossrow_d3s4_authority.py:92-113 | over sorted keys the pieces are the recursively sorted document |
| Manifests.SemanticPins | tools/domain_scan_crossrow_d3s4_authority.py:140-157 | the loop computes the order text and collects the projections of the negative vectors; the text is that of their whole list, keys sorted, in ASCII |
| Manifests.JoinedIsText | tools/domain_scan_crossrow_d3s4_authority.py:331-347 | the projections fed one by one between commas are the text of the list dumped whole |
| Manifests.PinFeed.Feed | tools/domain_scan_crossrow_d3s4_authority.py:324-341 | the running digests after one more vector are those of the longer list |
| Manifests.IterateVectors | tools/domain_scan_crossrow_d3s4_authority.py:275-356 | shard by shard with running digests: exactly what is yielded before a refusal, and the reader accepts what the whole-list checks accept |
| Manifests.YieldedIsGathered | tools/domain_scan_crossrow_d3s4_authority.py:286-345 | a reader whose shards are all in order has yielded exactly the vectors the shards hold |
| Manifests.StagedReadsBack | tools/domain_scan_crossrow_d3s4_authority.py:427-476 | what is staged for a document of the expanded format loads back as that document, keys in order, from any store holding the staged files |
| ReaderLaws.TamperingIsRefused | tools/domain_scan_crossrow_d3s4_authority.py:275-345 | for the staged manifest of a document and any store, every shard yielded from has the staged bytes or collides with them, and without a collision what is yielded begins the document |
| ReaderLaws.YieldedFromListed | tools/domain_scan_crossrow_d3s4_authority.py:286-345 | for any manifest and store, what is yielded comes from the first shards, which have the digests, lengths, places, counts and identities listed and follow one another |
| ReaderLaws.LoadedIsPinned | tools/domain_scan_crossrow_d3s4_authority.py:427-476 | an accepted document has exactly the keys, counts and digests its manifest pins |
| ReaderLaws.OneDocumentPerManifest | tools/domain_scan_crossrow_d3s4_authority.py:427-476 | two stores read under one manifest give the same document, or two canonical texts collide |
| ReaderLaws.StagedLoadsOrFails | tools/domain_scan_crossrow_d3s4_authority.py:427-476 | a staged manifest loads as its document or not at all, where no file is confused with the staged one |
| ReaderLaws.ShardBytesInjective | tools/domain_scan_crossrow_d3s4_authority.py:534-540 | equal shard files hold equal shards |
| ReaderLaws.ProjectionSays | tools/domain_scan_crossrow_d3s4_authority.py:122-137 | the seven fields by which a negative vector is pinned, and where each comes from |
| ReaderLaws.NegativesAreThose | tools/domain_scan_crossrow_d3s4_authority.py:143-148 | the negatives are the vectors marked as not positive, in their order |
| ReaderLaws.NegativeTextReads | tools/domain_scan_crossrow_d3s4_authority.py:149-151 | the negative digest is fed ASCII that reads back as the list of projections, keys sorted |
| ReaderLaws.OrderIsLines | tools/domain_scan_crossrow_d3s4_authority.py:143-146 | the order digest is fed one line a vector, each with its own number |
| ReaderLaws.HexSays | tools/domain_scan_crossrow_d3s4_authority.py:109-113 | a digest is written in lower-case hexadecimal, two digits a byte |
| Publication.PreparedIff | tools/domain_scan_crossrow_d3s4_authority.py:584-678 | exactly the self-describing, cuttable documents of the expanded format with vectors pass staging and its read-back |
| Publication.StepKeeps | tools/domain_scan_crossrow_d3s4_authority.py:680-725 | every step, exception and crash keeps every published generation whole and leaves the generation being undone unnamed |
| Publication.EveryPublicationSurvives | tools/domain_scan_crossrow_d3s4_authority.py:567-582 | after any events, every manifest ever visible loads as exactly the document published under it |
| Publication.VisibleManifestsRead | tools/domain_scan_crossrow_d3s4_authority.py:706-709 | what is visible under a name was published under it and loads |
| Publication.NamedFilesNeverChange | tools/domain_scan_crossrow_d3s4_authority.py:713-725 | no later step, rollback included, removes or changes a file an ever-visible manifest names |
| Publication.RepublishedIff | tools/domain_scan_crossrow_d3s4_authority.py:681-702 | a visible document can be installed again iff it was cut into the same shards |
| Publication.CrashBeforePublishIsRepeatable | tools/domain_scan_crossrow_d3s4_authority.py:713-717 | after a crash between installing and publishing, and whatever happens later, the publication can be repeated to visibility |
| Publication.InterruptedRollbackBlocks | tools/domain_scan_crossrow_d3s4_authority.py:713-723 | after a rollback stopped by a crash, and whatever happens later, the identical publication is accepted iff no file of the generation was deleted |
| Publication.RetryMeets | tools/domain_scan_crossrow_d3s4_authority.py:681-702 | a retry succeeds iff the generation directory is absent or whole |
| Publication.StemOfSuffixed | tools/domain_scan_crossrow_d3s4_authority.py:617-619 | the suffix of a manifest's name does not reach the name of its directory |
| PublicationWitness.SmallIsPrepared | tools/domain_scan_crossrow_d3s4_authority.py:584-678 | there is a document that is prepared under every name and target |
| PublicationWitness.SmallIsPublished | tools/domain_scan_crossrow_d3s4_authority.py:567-582 | from an empty store its publication becomes visible and loads as that document |
| PublicationWitness.SmallRollback | tools/domain_scan_crossrow_d3s4_authority.py:713-723 | a rollback of it interrupted behind one deletion blocks every later retry, and one interrupted before any blocks none |
| AuthorityStore.StageShards | tools/domain_scan_crossrow_d3s4_authority.py:631-661 | the loop writes exactly the shard files and entries of the cut |
| AuthorityStore.BuildTree | tools/domain_scan_crossrow_d3s4_authority.py:584-676 | the staged tree, built with streaming digests, is the specified one |
| AuthorityStore.Store.InstallGeneration | tools/domain_scan_crossrow_d3s4_authority.py:680-702 | renames an absent generation in, or accepts a present one iff names and digests agree |
| AuthorityStore.Store.RemoveTree | tools/domain_scan_crossrow_d3s4_authority.py:718-722 | removes exactly the generation's files |
| AuthorityStore.Store.Rollback | tools/domain_scan_crossrow_d3s4_authority.py:713-723 | a completed rollback leaves the disk exactly as before the run |
| AuthorityStore.Store.WriteSharded | tools/domain_scan_crossrow_d3s4_authority.py:567-725 | one publication is a run of the step machine: it succeeds iff staging passes and the generation is absent or the same, and an exception before the manifest is replaced changes nothing |
| Airtime.StatusIff | tools/airtime_r3_oracle.py:124-163 | the status of every input, OK against OVERFLOW included; the two automatic rules never disagree into an exception |
| Airtime.FormsAgree | tools/airtime_r3_oracle.py:78-89 | the fraction and the whole-number form of the automatic rule agree |
| Airtime.ValidComputes | tools/airtime_r3_oracle.py:92-122 | neither overflow branch of the numerator is ever taken on a valid input |
| Airtime.ReportIsTimeOnAir | tools/airtime_r3_oracle.py:92-122 | every valid input reports the published time on air: preamble, 4.25 or 6.25 symbols, 8 and the fewest code words that carry the payload, each symbol of two to the spreading factor chips; and when the optimisation counts |
| Airtime.ReportIsExact | tools/airtime_r3_oracle.py:160-182 | microseconds and symbol time are exact ceilings, and milliseconds are the ceiling of the reported microseconds |
| Airtime.NumeratorIncreases | tools/airtime_r3_oracle.py:92-122 | the numerator strictly increases with the spreading factor under every optimisation setting |
| Airtime.NumeratorBound | tools/airtime_r3_oracle.py:305-311 | the numerator is at most 270152704 and its microsecond product is below 2^63 |
| Airtime.LongestFrame | tools/airtime_r3_oracle.py:304-311 | the bound is attained, overflows 32 bits of microseconds, and is 34581760 ms |
| Airtime.OptimisationNeverShortens | tools/airtime_r3_oracle.py:103-110 | the optimisation changes nothing at SF5 and SF6 and never shortens a frame |
| Airtime.LighterNumerator | tools/airtime_r3_oracle.py:92-122 | the numerator is monotone in payload, preamble, coding rate, CRC, explicit header, spreading factor and optimisation, and antitone in bandwidth |
| Airtime.LighterIsAccepted | tools/airtime_r3_oracle.py:160-182 | a frame no heavier than an accepted one is accepted, and takes no longer in us or ms |
| AbiText.CollapseSpaces | tools/abi_drift_schema.c:101-126 | the bounded buffer holds the squeezed text, cut to its size, without trailing spaces |
| AbiText.TrimInPlace | tools/abi_drift_schema.c:78-99 | the buffer holds its own text trimmed at both ends |
| AbiText.NormalizeValue | tools/abi_drift_schema.c:189-195 | the result is the normal form of the input |
| AbiText.NormalIff | tools/abi_drift_schema.c:189-195 | exactly the normal texts are fixed, so normalising is idempotent |
| AbiWords.NormalizedJoins | tools/abi_drift_schema.c:101-126 | normalising a text that fits gives its words joined by single blanks |
| AbiComments.StripComments | tools/abi_drift_schema.c:291-330 | the in-place pass leaves the stripped text |
| AbiComments.StrippedIff | tools/abi_drift_schema.c:291-330 | exactly the texts without a comment opener are fixed, so a removed comment never forms a new one |
| AbiComments.LineCommentLeaves | tools/abi_drift_schema.c:299-306 | behind a text without comments a line comment goes and its line feed stays; without a line feed the rest goes |
| AbiComments.BlockCommentLeaves | tools/abi_drift_schema.c:307-316 | behind a text without comments a block comment goes whole; one that is not closed takes the rest |
| AbiComments.FirstComment | tools/abi_drift_schema.c:291-330 | every text with a comment has a first one, with a text before it to which these two apply |
| AbiTables.OfferMeans | tools/abi_drift_schema.c:799-833 | the linear search answers present, conflict and overflow exactly as the map does |
| AbiTables.AddKeepsUniqueIff | tools/abi_drift_schema.c:835-869 | adding a typedef keeps names unique iff the shortened name is not taken |
| AbiTables.StoredIs | tools/abi_drift_schema.c:835-869 | a name of up to 95 characters is held whole, of a longer one the first 95 |
| AbiTables.LongNameIsAddedTwice | tools/abi_drift_schema.c:1192-1200 | an opaque structure typedef whose name does not fit its field is stored twice |
| AbiTables.MergeIsUnion | tools/abi_drift_schema.c:1334-1399 | merging a table succeeds iff no name has two meanings and all names fit; the result is the union with the map as it is offered |
| AbiTables.SelfMergeIff | tools/abi_drift_schema.c:1334-1399 | a table merges with a copy of itself iff every item normalises to itself; then no row changes |
| AbiTables.MergeAppends | tools/abi_drift_schema.c:1334-1399 | merging only appends and keeps names unique, failed or not |
| AbiTables.MergeOrderIrrelevant | tools/abi_drift_schema.c:1334-1399 | two merges succeed together in either order and give the same map |
| AbiTables.MatchesIff | tools/abi_drift_schema.c:1401-1443 | the comparison passes iff the two tables are the same map |
| AbiCatalog.Table.Find | tools/abi_drift_schema.c:544-556 | the loop returns the first index of the name, or -1 |
| AbiCatalog.Table.Add | tools/abi_drift_schema.c:799-833 | the array after adding, and the answer |
| AbiCatalog.Table.Compare | tools/abi_drift_schema.c:1480-1604 | the two loops decide the comparison |
| AbiTypes.ReadIdentifier | tools/abi_drift_schema.c:621-642 | reads the whole identifier and returns a name that fits the buffer |
| AbiTypes.TypeNormalisingIsNotIdempotent | tools/abi_drift_schema.c:128-187 | the witness: a type whose normal form changes when normalised again |
| AbiTypeLaws.TypeNormalIff | tools/abi_drift_schema.c:128-187 | for every text: normalising leaves it alone iff it is a type in normal form, and what is stored is stable iff it is one |
| AbiTypeLaws.StoredIsShaped | tools/abi_drift_schema.c:153-166 | whatever is stored has single blanks, none at the end, and a blank before every star |
| AbiTypeRuns.SettledIff | tools/abi_drift_schema.c:128-187 | for every type that fits: normalising twice is normalising once iff no qualifier is glued across a star to a word and the type does not end with two |
| AbiTypeRuns.FreeIsRebuilt | tools/abi_drift_schema.c:145-182 | what fits the buffer is rebuilt as without bounds |
| AbiWords.PlainTypeKeepsInk | tools/abi_drift_schema.c:145-182 | a type without qualifiers keeps all its characters but blanks, in order |
| AbiTypeRoom.InBufferIff | tools/abi_drift_schema.c:168-182 | every qualifier is written inside the buffer iff the result fits it |
| AbiTypeRoom.RoomyStaysInBuffer | tools/abi_drift_schema.c:139-182 | a type whose unbounded rebuilding fits never leaves the buffer, and one of less than half the buffer's size fits |
| AbiTypeRoom.Rebuild | tools/abi_drift_schema.c:139-182 | the loop over the bounded buffer computes the rebuilt text and stays inside the buffer |
| AbiTypeRoom.NormalizeType | tools/abi_drift_schema.c:128-187 | the result is the normal form of the type |
| AbiTypeRoom.TrailingIsNotSeen | tools/abi_drift_schema.c:145-152 | a normal text without a qualifier at its end has the same normal form with one |
| AbiCatalog.AddMacro | tools/abi_drift_schema.c:799-833 | a macro is added in normal form |
| AbiCatalog.AddTypedef | tools/abi_drift_schema.c:835-869 | a typedef is added with its type normalised |
| AbiCatalog.FilledIsBuilt | tools/abi_drift_schema.c:799-988 | a catalogue filled by any additions with names that fit has no name twice, respects its bounds, and holds macros and signatures in normal form |
| AbiCatalog.AddSignature | tools/abi_drift_schema.c:914-988 | a callback or function is added with its signature in normal form |
| AbiCatalog.Catalog.Merge | tools/abi_drift_schema.c:1334-1399 | the catalogue after merging, table by table, stopping at the first refusal |
| AbiCatalog.Catalog.Compare | tools/abi_drift_schema.c:1606-1629 | the verdict over all tables |
| AbiCatalog.CatalogMergeIff | tools/abi_drift_schema.c:1334-1399 | merging succeeds iff what is offered agrees with what is there and fits; the result is the union, and can be merged again in every case |
| AbiCatalog.CatalogOrderIrrelevant | tools/abi_drift_schema.c:1334-1399 | the order of two merges does not matter |
| AbiCatalog.CatalogSelfMergeIff | tools/abi_drift_schema.c:1334-1399 | a catalogue merges with an equal one iff the text of every typedef is a type in normal form |
| AbiCatalog.SettledTypesMerge | tools/abi_drift_schema.c:1334-1399 | a catalogue filled with types that fit, glue no qualifier and do not end with two merges with an equal one and stays as it is |
| AbiCatalog.QualifiedTypedefCannotBeMerged | tools/abi_drift_schema.c:1348-1361 | a catalogue with one typedef of a pointer to a constant pointer cannot be merged with itself |
| AbiCatalog.CatalogMatchIff | tools/abi_drift_schema.c:1606-1629 | the drift comparison passes iff the catalogues are the same maps |

## Left out

- File reading, subprocesses, argument parsing, temporary directories, JSON text that is not canonical, C fixture emission: input and output.
- SHA-256 internals, pinned digests and counts, vector inventories, mutation lists: constants and finite checks.
- `original_authority`, `mutation_calls` and the labels in the port trace's text: bookkeeping that no verdict reads; a get in the trace carries its purpose instead of its key.
- Unknown and forbidden call names: rejected before a run starts.
- Service identity bodies, party and target details: records carry the fields the peer rebuild uses, with parse failure as a value.
- `encode_binding` of the candidate: the binding is a byte string parameter; EXACT is taken as the code computes it, comparing only values of at least 183 bytes.
- `apply_mutation` and the other builders of single vectors: no law depends on them.
- The library CRC that the generators call when present: the bitwise loop is the model.
- Path safety checks and the fixed-authority pins of the reader and writer: guards over constants.
- JSON numbers other than integers, and strings with unpaired surrogates: not values of the model.
- Publication.EveryPublicationSurvives: one writer, no asynchronous interrupt between a rename and the flag assignment after it, as the source claims no more; equal digests of compared files are taken to mean equal files.
- AbiTypeRoom.NormalizeType: demands that every qualifier is written inside the 512-character buffer; past its end the source's behaviour is undefined.
- AbiCatalog.AddTypedef: stores the normal form as a value; it is what the source stores for the types NormalizeType takes.
- AbiTypeRuns.SettledIff: stated for types that fit the buffer; one that is cut there is decided on its stored text by TypeNormalIff.
- AbiCatalog.Table.Compare: struct fields are compared as one value instead of field by field, and the reports written for each difference are not modelled.
- `domain_scan_dsd1_composition_vector_gen.py`, `domain_scan_d3s2_semantic_oracle.py` and the text gates: fixed traces and one-branch predicates.
