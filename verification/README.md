# NARF kernel core: a Dafny model

NARF is a capability-based kernel. This project models the parts of it in which
many small steps have to add up to one guarantee, and proves those guarantees
for every input, every run or every interleaving.

**Cancelling submissions** (`Submissions`, `CancelRegistry`, `PendingCancels`,
`SerialRuns`, `Dispatchers`, `Interleavings`). Submissions pass a capability gate,
enter a chain log, use up pending cancels, and register a token that a parallel
cancel can set. `SerialRuns` and `Dispatchers` characterise one dispatcher;
`Interleavings` lets any number of operations and cancellers take their locked
steps in any order.

**GPE wake leases** (`GpeBlocks`, `GpeLeases`, `GpeOutcomes`, `GpeRegisters`,
`GpeController`, `GpeHandlers`). A general-purpose event (GPE) has a status bit and
an enable bit in bytes it shares with seven others. Wake leases and run-time enables
rewrite those bytes. `GpeLeases` and `GpeOutcomes` hold for hardware that answers any
read with anything; `GpeRegisters` says what registers that store what is written
will contain.
`GpeHandlers` is the table that maps event numbers to AML methods and native
handlers.

**AML field access** (`Bits`, `FieldBytes`, `FieldAccess`). A bit field is read and
written byte by byte; the simple form it refines is one little-endian integer.

**Firmware tables** (`Bytes`, `Utf8Text`, `Pmtt`, `Smbios`, `Hmat`, `HmatParser`,
`HmatEncoding`, `HmatAnswers`). Parsers for the PMTT, SMBIOS and HMAT tables, with
encoders they invert, and bounds on arbitrary bytes.

**I/O APIC routing** (`IoApicRoutes`, `MmioWindows`, `IoApic`, `IoApicCalls`,
`IoApicBank`, `IoApicAnswers`). Redirection entries behind a select/window register
pair, reached through windows that every access looks up and maps on first use.
Which mapping requests fail is an input, so a request may fail and a later one
succeed.
`IoApicCalls.CallEffect` says, from the state before it, what each call does under
all outcomes. When mappings succeed and the chips are page-aligned, calls refine a
map from global system interrupt (GSI) to route.

**Digest binding** (`Binding`). Two packaging scripts splice a digest into a PE/COFF
loader after a marker.

State that the kernel updates in place is a class whose methods are tied to
functions on values; the theorems are about those functions. What lies outside
(capability lookup, bridges to file and CPU operations, register contents, mapping
failures, hash functions, scheduling) is an input. Integers are unbounded, so every
saturation, truncation and overflow check is written out.

Where code and comments disagree the model follows the code:

- `LINKED` is documented as making the next submission part of the chain
  (`abi/src/lib.rs:439-441`); `enter` makes the flagged submission itself join the
  chain of the one before (`abi/src/lib.rs:993-1000`).
- An SMBIOS structure without strings is documented as ending in a single NUL
  (`acpi/src/smbios.rs:214-216`); the iterator wants two, or one that ends the
  buffer (`acpi/src/smbios.rs:218-222`).
- `route_gsi_to_vector` is documented as returning true on success
  (`acpi/src/ioapic.rs:265-266`). A chip whose probe gets no window reads version 0
  and seems to end at its first GSI (`acpi/src/ioapic.rs:104-109`); the router then
  answers true for that GSI, and its two writes ask for a window again
  (`acpi/src/ioapic.rs:151-152`). It stores both words, the low word alone or
  neither. `IoApicCalls.AnswersTrueIff` and `IoApicCalls.RoutedWords` say exactly
  when, from the state before the call; `IoApicCalls.RouteCanMissWords` gives inputs.
- An I/O APIC window is documented as that of its base (`acpi/src/ioapic.rs:193-195`).
  The code keeps the page-aligned start of the mapping (`acpi/src/ioapic.rs:212-214`,
  `memory/src/x86_64/ioremap.rs:89-106`), so the window reaches the base exactly for a
  page-aligned base (`MmioWindows.ReachesBaseIffAligned`). Of two chips in one page,
  routing the second rewrites the first (`IoApicCalls.UnalignedRouteRewritesOther`).
- `install_aml_handlers` is documented as returning the handlers installed
  (`aml/src/gpe.rs:57`); it counts new entries only (`aml/src/gpe.rs:127-136`), which
  is why a second install returns 0.

## Model

| member | source | states |
|---|---|---|
| `Submissions.FirstRefusal` | abi/src/lib.rs:853-867 | The gate passes a submission exactly when every presented capability resolves for a bound dispatcher; a refusal is CapRevoked, Busy or Forbidden |
| `Submissions.ValidateSubmissionCaps` | abi/src/lib.rs:853-867 | The slot loop answers with the first refusal in slot order |
| `CancelRegistry.LookupIsFirstMatch` | abi/src/lib.rs:953-957 | A tag lookup answers with the earliest log entry of that tag, and with none exactly when there is no entry |
| `CancelRegistry.ConsumeRemovesOnlyTag` | abi/src/lib.rs:1024-1035 | Using up a tag by swap-remove takes out that tag and no other, and creates no duplicate |
| `CancelRegistry.RequestKeepsNoDuplicates` | abi/src/lib.rs:1008-1018 | A request adds no duplicate pending tag and no duplicate marked chain |
| `PendingCancels.Pending.EnterInflight` | abi/src/lib.rs:930-939 | The new token is appended to the in-flight list, already set exactly when its tag is pending or its chain is marked |
| `PendingCancels.Pending.ExitInflight` | abi/src/lib.rs:942-947 | Swap-removes the first in-flight token of the tag and no other |
| `PendingCancels.Pending.SignalInflight` | abi/src/lib.rs:951-974 | Sets exactly the tokens whose tag is the target or is logged in the target's chain, and clears none |
| `PendingCancels.Pending.Enter` | abi/src/lib.rs:988-1003 | A cancel leaves no trace and gets chain 0; everything else inherits or starts a chain and is logged under it |
| `PendingCancels.Pending.Request` | abi/src/lib.rs:1008-1018 | Remembers the tag once and marks the chain of the earliest log entry of the target, if there is one |
| `PendingCancels.Pending.Consume` | abi/src/lib.rs:1024-1035 | Hits exactly when the tag was pending or the chain marked; uses up the tag and keeps the mark |
| `SerialRuns.AllocatorCountsChains` | abi/src/lib.rs:993-1000 | After every run the chain allocator is the saturating count of the chains started |
| `SerialRuns.SharedChain` | abi/src/lib.rs:993-1000 | Two submissions have one chain id exactly when everything entered between them is LINKED, or the allocator had saturated |
| `SerialRuns.LogRisesFromOne` | abi/src/lib.rs:993-1002 | Logged chain ids start at 1 and rise by 0 or 1 |
| `SerialRuns.NeverDuplicates` | abi/src/lib.rs:1008-1035 | In every run the pending tags and the marked chains hold no duplicate |
| `SerialRuns.TagsArePending` | abi/src/lib.rs:1008-1035 | A tag is pending exactly when a cancel named it and nothing with that tag entered since |
| `SerialRuns.ChainsAreMarked` | abi/src/lib.rs:1013-1017 | A chain is marked exactly when some cancel found its target logged in it |
| `SerialRuns.ShortCircuitedIffCancelled` | abi/src/lib.rs:1123-1140 | In every run, with repeated tags and a saturated allocator too, a submission is short-circuited exactly when an unspent cancel named its tag or a cancel found an entry of its chain |
| `SerialRuns.ShortCircuitedIffNamed` | abi/src/lib.rs:1123-1140 | With distinct tags and no saturation: exactly when an earlier cancel named it or an already entered member of its LINKED chain |
| `SerialRuns.CancelsAreConserved` | abi/src/lib.rs:1008-1035 | For each tag, repeated or not: cancels = tag-side short-circuits + one if still pending + cancels that found it pending already |
| `Dispatchers.Reply` | abi/src/lib.rs:1112-1306 | A completion carries its submission's tag and is never Pending |
| `Dispatchers.SerialCancellation` | abi/src/lib.rs:1112-1140 | The completion of a cancelled submission is Cancelled if CANCELLABLE and CancelRequested otherwise; of every other submission it is that of its body with an unset token |
| `Dispatchers.CancelStatusMeans` | abi/src/lib.rs:1112-1306 | A completion reports a cancel exactly when its submission passed the gate and was cancelled before, or its file or CPU bridge reported a cancel |
| `Dispatchers.MoveMeans` | abi/src/lib.rs:853-867 | What the cancel protocol sees of a submission: nothing if a capability fails, the first operand of a cancel, or its tag and bit 1 of its flags |
| `Dispatchers.StatusMeans` | abi/src/lib.rs:1112-1306 | In every run exactly which submissions complete as Ok, InvalidOp, Unsupported, Cancelled and CancelRequested, from the cancels that reached them, the op and what its transfer or bridge answered; none as Pending or Closed |
| `Dispatchers.RefusalMeans` | abi/src/lib.rs:827-1306 | In every run exactly which submissions complete as CapRevoked, Busy and Forbidden: by the first failing capability, by a refused transfer, or by a CPU bridge |
| `Dispatchers.PayloadMeans` | abi/src/lib.rs:1112-1306 | In every run the payload is the installed slot or the file value in position 0, the whole CPU result, or zeros, and exactly when each |
| `Dispatchers.Dispatcher.DispatchOne` | abi/src/lib.rs:1112-1306 | On every path: one protocol step, the completion it calls for, an empty in-flight list; a gate failure leaves the registry as it was |
| `Dispatchers.Dispatcher.Turn` | abi/src/lib.rs:1088-1108 | Registry and completion queue stay the functions of the dispatched submissions they are in every run |
| `Dispatchers.Dispatcher.Run` | abi/src/lib.rs:1087-1110 | The loop dispatches exactly the submissions up to the first completion it cannot post, and only appends completions |
| `Dispatchers.Dispatcher.CompletionsFollowSubmissions` | abi/src/lib.rs:1087-1110 | Completion tags are a prefix of the submission tags, in order, missing at most the last; none is Pending |
| `Interleavings.Reachable` | abi/src/lib.rs:930-1035 | Invariant of every interleaving: log, tokens, pending requests and delivered signals match what each operation and canceller has done |
| `Interleavings.NoCancelLost` | abi/src/lib.rs:930-1035 | If both steps of a cancel finish before the operation it names exits, the operation is short-circuited or exits with its token set |
| `Interleavings.RequestMarksChain` | abi/src/lib.rs:1008-1018 | A request finds exactly the chain of the operation it names, if that has entered |
| `Interleavings.NoCancelLostInChain` | abi/src/lib.rs:930-1035 | The same for every operation in the chain of a member entered before the request, entered later ones included |
| `Interleavings.NoSpuriousCancel` | abi/src/lib.rs:930-1035 | The converse: whatever is short-circuited or has its token set was named, or its chain was, by a cancel that made its request |
| `GpeBlocks.RegisterBlock` | acpi/src/gpe_wake.rs:100-122 | A number has a block exactly when one usable block covers it and the other does not |
| `GpeBlocks.FindRegisterBlock` | acpi/src/gpe_wake.rs:100-122 | The candidate loop finds that block, and none for a number both cover |
| `GpeBlocks.PortsInBlock` | acpi/src/gpe_wake.rs:144-152 | The 16-bit casts lose nothing; status ports lie in the lower half of the block and enable ports in the upper |
| `GpeBlocks.CellsDistinct` | acpi/src/gpe_wake.rs:144-152 | Different supported numbers never share a status or an enable bit |
| `GpeOutcomes.BlockIsTheOne` | acpi/src/gpe_wake.rs:100-140 | A declared block is used exactly for the events it has and the other has not: byte-wide ports up to 0xFFFF, eight events per status byte |
| `GpeOutcomes.ClaimAnswers` | acpi/src/gpe_wake.rs:172-185 | A claim is unsupported, busy or granted exactly as the declared blocks and the slot say |
| `GpeOutcomes.ClaimLeaves` | acpi/src/gpe_wake.rs:144-199 | Whatever is read: the enable byte `address + byteCount / 2 + d / 8` has 2^(d mod 8) on, d counted from the block's first event; the status byte `address + d / 8` has it off unless the enable bit was on; no other byte changes |
| `GpeOutcomes.ReleaseLeaves` | acpi/src/gpe_wake.rs:232-262 | A release of a held lease sets or clears 2^(d mod 8) of that enable byte as the remembered run-time enable says, and no other byte |
| `GpeOutcomes.ReleaseAnswers` | acpi/src/gpe_wake.rs:232-271 | A release is stale, a failed readback or successful exactly as the lease, the slot and the byte read back say; without a held lease it changes nothing |
| `GpeOutcomes.EnableLeaves` | acpi/src/gpe_wake.rs:276-295 | A run-time enable sets 2^(d mod 8) of the enable byte and no other bit |
| `GpeLeases.ArmArmsOne` | acpi/src/gpe_wake.rs:192-202 | Arming and disarming change one GPE of the two armed words |
| `GpeLeases.ClaimKeepsLinear` | acpi/src/gpe_wake.rs:172-214 | A claim keeps the lease invariant whatever the registers answer |
| `GpeLeases.ReleaseKeepsLinear` | acpi/src/gpe_wake.rs:232-271 | A release keeps it too, on failure and on repetition |
| `GpeLeases.LeaseLinearity` | acpi/src/gpe_wake.rs:172-295 | Over every run on any hardware: one unreleased token per claimed slot, armed exactly when that token reports enabled, prepare calls = complete calls + live leases |
| `GpeLeases.ClaimRefusedIffLeased` | acpi/src/gpe_wake.rs:176-181 | A supported claim is Busy exactly when an unreleased token holds the number, and a refusal changes nothing |
| `GpeRegisters.BitsInBytes` | acpi/src/gpe_wake.rs:144-152 | The bit used for event n is bit n - baseGsi of the little-endian integer of the block's enable or status half |
| `GpeRegisters.StoreEnable` | acpi/src/gpe_wake.rs:189-199 | Rewriting one enable bit of a shared byte changes no other GPE's enable or status bit |
| `GpeRegisters.AcknowledgeStatus` | acpi/src/gpe_wake.rs:193-197 | The write-1-to-clear acknowledgement clears one status bit and no other |
| `GpeRegisters.EnableBitsAccurate` | acpi/src/gpe_wake.rs:172-295 | Over every run on storing registers: bit n - baseGsi of the enable half, as one integer, is on exactly when it was initially, when n was ever enabled at run time, or when n is leased now |
| `GpeRegisters.PendingStatusSurvives` | acpi/src/gpe_wake.rs:193-197 | No step of any run clears bit n - baseGsi of the status half while n is enabled at run time |
| `GpeRegisters.FaithfulLeasesSucceed` | acpi/src/gpe_wake.rs:198-203 | On storing registers a granted claim is armed and the release of a live lease succeeds |
| `GpeController.Controller.Claim` | acpi/src/gpe_wake.rs:172-214 | The in-place claim is the claim step, error cases included, and hands out one fresh token on success |
| `GpeController.Controller.Release` | acpi/src/gpe_wake.rs:232-271 | The in-place release is the release step of that token; no token is created or lost |
| `GpeController.Controller.EnableRuntime` | acpi/src/gpe_wake.rs:276-295 | The in-place run-time enable is the enable step, for numbers beyond the lease table too |
| `GpeController.Controller.AnyArmed` | acpi/src/gpe_wake.rs:306-309 | True exactly when some armed GPE is among the given bits |
| `GpeHandlers.EventNumberOfName` | aml/src/gpe.rs:65-123 | Every method under `\_GPE` whose name ends in `_Lxx` or `_Exx`, each letter in either case, is recognised by its number |
| `GpeHandlers.NameOfEventNumber` | aml/src/gpe.rs:65-123 | Nothing else is recognised |
| `GpeHandlers.PutEntry` | aml/src/gpe.rs:125-136 | Registering touches the entry of one number and adds one only for a new number |
| `GpeHandlers.InstallEntry` | aml/src/gpe.rs:58-140 | An install leaves, for each number, the last matching method's path and the native handler it found |
| `GpeHandlers.SecondInstall` | aml/src/gpe.rs:58-140 | A second install over the same namespace changes nothing |
| `GpeHandlers.RunIsAsked` | aml/src/gpe.rs:58-156 | After every sequence of installs and registrations: at most one entry per number, with the last path installed and the last native handler registered |
| `GpeHandlers.HandlerTable.InstallAml` | aml/src/gpe.rs:58-140 | The node loop performs one install and returns the number of new entries; repeated at once it returns 0 and changes nothing |
| `GpeHandlers.HandlerTable.RegisterNative` | aml/src/gpe.rs:145-156 | Performs one registration |
| `GpeHandlers.HandlerTable.Dispatch` | aml/src/gpe.rs:162-178 | Calls the native handler last registered for the number, then evaluates the path last installed for it, and nothing else |
| `FieldBytes.BitOfWrite` | aml/src/oregion_checked.rs:108-125 | Every bit of the store after a write: the value's inside the field, the update rule's in touched bytes, unchanged elsewhere |
| `FieldBytes.ReadIsArithmetic` | aml/src/oregion_checked.rs:95-103 | The byte loop reads (store / 2^start) mod 2^width of the little-endian integer |
| `FieldBytes.WriteIsReplace` | aml/src/oregion_checked.rs:108-125 | The byte loop replaces one bit range of that integer, after the update rule has filled the touched bytes |
| `FieldBytes.ReplaceIsArithmetic` | aml/src/oregion_checked.rs:108-125 | Replacing a bit range in remainders, quotients and powers of two |
| `FieldBytes.WriteThenRead` | aml/src/oregion_checked.rs:95-125 | Reading back gives the value mod 2^width |
| `FieldBytes.WriteKeepsOthers` | aml/src/oregion_checked.rs:108-125 | A Preserve write leaves every disjoint field as it was |
| `FieldBytes.WritesCommute` | aml/src/oregion_checked.rs:108-125 | Writes to disjoint Preserve fields commute |
| `FieldAccess.PlacedInsideRegion` | aml/src/oregion_checked.rs:22-49 | Accepted exactly when the field lies in its region and its bytes in their address space; the bytes accessed stay in the region and the port and controller casts are lossless |
| `FieldAccess.ResolveMeans` | aml/src/oregion_checked.rs:8-50 | Every refusal and every acceptance, exactly: the first field of the path, its width, its access rules, the first region of its path, and whether it fits |
| `FieldAccess.AcceptedPlace` | aml/src/oregion_checked.rs:8-50 | An accepted access goes to the first field and region of their paths |
| `FieldAccess.DeclaredRead` | aml/src/oregion_checked.rs:95-103 | On the declaration: the value read is (store / 2^(8 offset + bit offset)) mod 2^length |
| `FieldAccess.DeclaredWrite` | aml/src/oregion_checked.rs:108-125 | On the declaration, for every prefix of the bytes written: the field's bits are the value's; a touched bit outside it is kept under update rule 0, one under 1, zero under 2; every other bit is kept |
| `FieldAccess.Platform.ReadableIff` | aml/src/oregion_checked.rs:52-71 | A read succeeds exactly when no byte it touches faults; ports never do |
| `FieldAccess.Platform.WritableIff` | aml/src/oregion_checked.rs:73-125 | A write succeeds exactly when no byte it touches faults, where only a Preserve byte covered in part has to be read |
| `FieldAccess.Platform.ReadFieldChecked` | aml/src/oregion_checked.rs:95-103 | The checked read returns the field of the little-endian store, or fails as validation or the first unreachable byte does |
| `FieldAccess.Platform.WriteFieldChecked` | aml/src/oregion_checked.rs:108-125 | A write that fails at byte k has written exactly the bytes before k and nothing else; a refused one has written nothing |
| `Pmtt.Walk` | acpi/src/lib.rs:1501-1571 | On arbitrary bytes the recursion ends and 12 times the structures decoded is at most the bytes given |
| `Pmtt.WalkInside` | acpi/src/lib.rs:1501-1571 | A walk depends on nothing outside the bytes it was given |
| `Pmtt.CountersSummarise` | acpi/src/lib.rs:1501-1571 | The structures decoded are the increase in sockets, controllers and DIMMs together |
| `Pmtt.DimmsSummarise` | acpi/src/lib.rs:1550-1565 | The table holds the first 32 DIMMs in the order met |
| `Pmtt.PmttTables.ParseChildren` | acpi/src/lib.rs:1501-1571 | The in-place walk records exactly the structures of the walk and returns how many there are |
| `Pmtt.ForestRoundTrip` | acpi/src/lib.rs:1501-1571 | Walking an encoded forest gives it in pre-order, DIMMs tagged with the nearest enclosing socket and controller |
| `Pmtt.TableRoundTrip` | acpi/src/lib.rs:1494-1571 | Parsing an encoded forest gives its exact counts and first 32 DIMMs, tagged 0xFFFF where no parent encloses them |
| `Smbios.Step` | acpi/src/smbios.rs:199-254 | On arbitrary bytes every yielded structure advances the position by at least 6 |
| `Smbios.StepIff` | acpi/src/smbios.rs:199-254 | On arbitrary bytes a structure is yielded exactly after a header that fits, when a double NUL follows it or a single NUL that ends the buffer |
| `Smbios.StepYields` | acpi/src/smbios.rs:199-254 | On arbitrary bytes it is then the structure they describe: its strings are the pieces between NULs up to the first double NUL, and the position moves past that |
| `Smbios.StepAtEnd` | acpi/src/smbios.rs:218-222 | A structure closed by the last byte has no strings, and the position passes the end by one |
| `Smbios.Iterate` | acpi/src/smbios.rs:199-254 | Iteration ends, after at most one structure per six bytes |
| `Smbios.StructIter.Next` | acpi/src/smbios.rs:199-254 | The in-place step yields that structure and position, and stays put when it yields none |
| `Smbios.StructIter.Collect` | acpi/src/smbios.rs:196-255 | Draining the iterator yields exactly what the steps do |
| `Smbios.StepRoundTrip` | acpi/src/smbios.rs:199-254 | An encoded structure is yielded and skipped exactly |
| `Smbios.ListYielded` | acpi/src/smbios.rs:199-254 | An encoded list closed by an end-of-table record is yielded, strings that are not UTF-8 becoming empty |
| `Smbios.TableRoundTrip` | acpi/src/smbios.rs:199-254 | With UTF-8 strings, ASCII among them, it is yielded unchanged |
| `Utf8Text.EncodedIsUtf8` | acpi/src/smbios.rs:235-237 | What encoding Unicode scalar values as UTF-8 gives passes the check, so such strings are never replaced |
| `Utf8Text.Utf8IsEncoded` | acpi/src/smbios.rs:235-237 | Nothing else passes: bytes kept are the encoding of some text |
| `Utf8Text.AsciiIsUtf8` | acpi/src/smbios.rs:235-237 | ASCII strings pass |
| `Hmat.MatrixCell` | acpi/src/lib.rs:1290-1319 | Cell (i, j) pairs initiator i and target j with the value at position i * n + j |
| `Hmat.ParseAgrees` | acpi/src/lib.rs:1228-1336 | Every parse that does not overflow leaves each record pointing at its own cells, or at those that fitted in the 256-entry table |
| `Hmat.WindowIsFitted` | acpi/src/lib.rs:1367-1369 | The slice a lookup scans for a record is exactly those cells |
| `Hmat.WindowsDisjoint` | acpi/src/lib.rs:1367-1369 | Slices of different records never overlap |
| `Hmat.LookupReadsMatrices` | acpi/src/lib.rs:1361-1376 | The lookup in the flat table equals the lookup in the matrices: saturated base unit times the first matching cell |
| `Hmat.WrappedTest` | acpi/src/lib.rs:1278-1284 | Without overflow checks the size test is exact unless the end overflows 64 bits; then the first target lies outside every structure |
| `Hmat.WrappedTestCanPass` | acpi/src/lib.rs:1278-1284 | With 2^32 - 2 initiators and targets the wrapped end is 24, so the test passes |
| `HmatParser.HmatTables.ParseBody` | acpi/src/lib.rs:1228-1336 | The in-place decode loop builds exactly the tables of the parse, and reports its overflow |
| `HmatParser.HmatTables.Value` | acpi/src/lib.rs:1361-1376 | The in-place lookup answers from the matrices |
| `HmatEncoding.MatrixRoundTrip` | acpi/src/lib.rs:1290-1319 | Decoding an encoded rectangular matrix gives its pairs in row-major order |
| `HmatEncoding.TableRoundTrip` | acpi/src/lib.rs:1228-1336 | Parsing any encoded list of attributes, localities and unknown structures builds exactly the expected tables, of 16 attributes, 8 records and 256 pairs; the data type byte gives the kind and the low four bits of the flags the hierarchy |
| `HmatAnswers.MatrixHasCell` | acpi/src/lib.rs:1361-1376 | A matrix of distinct initiators and targets answers each pair with its cell |
| `HmatAnswers.EncodedLookup` | acpi/src/lib.rs:1228-1376 | Parsing encoded structures and looking up a pair of the first locality for its kind and hierarchy, if that fits, gives its value times the base unit, saturated |
| `HmatAnswers.EncodedMiss` | acpi/src/lib.rs:1228-1376 | A kind and hierarchy no encoded structure is for has no value |
| `IoApicRoutes.ProgrammedMeans` | acpi/src/ioapic.rs:138-141 | The two words programmed mean the requested vector, destination, flag bits and mask |
| `IoApicRoutes.HighIsShifted` | acpi/src/ioapic.rs:141 | The high word programmed is the destination shifted into its top byte |
| `IoApicRoutes.MaskedMeans` | acpi/src/ioapic.rs:319-321 | Masking and unmasking change the mask and nothing else of the route |
| `IoApicRoutes.LowWordOfRoute` | acpi/src/ioapic.rs:345-351 | The low word reported is determined by the route |
| `MmioWindows.ResolveReaches` | acpi/src/ioapic.rs:196-220 | A lookup finds a window exactly when the base is known, or a slot is free and the mapping succeeds; the window reaches the page of the base |
| `MmioWindows.ReachesBaseIffAligned` | acpi/src/ioapic.rs:212-214 | The window found reaches the base itself exactly for a page-aligned base |
| `MmioWindows.UnalignedBaseMissed` | acpi/src/ioapic.rs:212-214 | The windows of 0xFEC0_0000 and 0xFEC0_0400 reach the same registers |
| `MmioWindows.StableWindows` | acpi/src/ioapic.rs:196-220 | Over every run of lookups, failed mappings included, a window once found is found ever after, no base is mapped twice and at most eight slots are used |
| `MmioWindows.ReadyServes` | acpi/src/ioapic.rs:196-220 | For at most eight nonzero bases whose mappings succeed, every lookup finds a window and the table never overflows |
| `MmioWindows.ReadyRun` | acpi/src/ioapic.rs:196-220 | The same over every run of lookups, in at most one slot per base |
| `MmioWindows.GrantedIsFound` | acpi/src/ioapic.rs:196-220 | Which first lookups of a list find a window is counted from the cache before the list, the requests that fail and the eight slots |
| `MmioWindows.AccessIsCounted` | acpi/src/ioapic.rs:223-248 | So is which of the two accesses after a first lookup get a window |
| `MmioWindows.Windows.Base` | acpi/src/ioapic.rs:196-220 | The slot loop performs the lookup, with 0 for a failed mapping, a full table or base 0; a failure is not remembered |
| `IoApic.MaxEntryIsMasked` | acpi/src/ioapic.rs:104-105 | The last entry a chip announces is its shifted and masked version register |
| `IoApic.WrappedRangeIsEmpty` | acpi/src/ioapic.rs:109 | A range whose 32-bit end wraps around covers no GSI |
| `IoApic.StoredRoutes` | acpi/src/ioapic.rs:125-155 | Storing an entry of the owning chip updates one GSI of the routing map and no other |
| `IoApicCalls.SearchStops` | acpi/src/ioapic.rs:282-291 | The search stops at the first chip that seems to cover the GSI, judged before the call, having looked up each chip to it once |
| `IoApicCalls.CallEffect` | acpi/src/ioapic.rs:279-355 | Every call under all mapping outcomes, decided before it: it acts on that chip, at the page of its base, with the accesses that get a window, or refuses and changes no register |
| `IoApicCalls.AnswersTrueIff` | acpi/src/ioapic.rs:279-327 | A route or mask call answers true exactly when some chip seems to cover the GSI |
| `IoApicCalls.RoutedWords` | acpi/src/ioapic.rs:125-155 | A route call that answers true leaves the wanted entry if both writes get a window, the wanted low word with the old high word if only the second does, and the old entry otherwise |
| `IoApicCalls.UnmappedSeemsAtBase` | acpi/src/ioapic.rs:104-109 | That its two accesses do not both get a window happens for the first GSI of a chip only |
| `IoApicCalls.RouteCanMissWords` | acpi/src/ioapic.rs:279-293 | With the probe and first write refused a window, routing answers true and stores the low word alone, or nothing |
| `IoApicCalls.CallRefines` | acpi/src/ioapic.rs:279-355 | With mappings that succeed and distinct page-aligned chips a route, mask, unmask or read call changes and reports what the map from GSI to route does |
| `IoApicCalls.CallKeepsReady` | acpi/src/ioapic.rs:196-220 | Such a call leaves the cache able to serve the next |
| `IoApicCalls.UnalignedRouteRewritesOther` | acpi/src/ioapic.rs:279-293 | Of two chips in one page, routing the second rewrites the entry of the first |
| `IoApicBank.IoApics.ReadRegister` | acpi/src/ioapic.rs:223-234 | Select and read return the register at the page of the base, or 0 without a window |
| `IoApicBank.IoApics.WriteRegister` | acpi/src/ioapic.rs:237-248 | Select and write change one register at the page of the base, or nothing without a window |
| `IoApicBank.IoApics.Probe` | acpi/src/ioapic.rs:97-111 | The handle ends at the last GSI of the version read, in 32 bits |
| `IoApicBank.IoApics.ProgramEntry` | acpi/src/ioapic.rs:125-155 | Refuses exactly the GSIs outside the range of the handle and otherwise makes the two writes, high word first, each with its own lookup |
| `IoApicBank.IoApics.Mask` | acpi/src/ioapic.rs:162-174 | Reads and rewrites the low word of exactly the entries inside the range of the handle, each access with its own lookup |
| `IoApicBank.IoApics.RouteGsi` | acpi/src/ioapic.rs:279-293 | The in-place search and two writes are the route call, retried mappings included |
| `IoApicBank.IoApics.SetGsiMasked` | acpi/src/ioapic.rs:308-327 | The in-place search, read and write are the mask call |
| `IoApicBank.IoApics.GsiRoute` | acpi/src/ioapic.rs:335-355 | The in-place search and two reads are the read call |
| `IoApicBank.IoApics.Run` | acpi/src/ioapic.rs:279-355 | With mappings that succeed and distinct page-aligned chips any sequence of route, mask, unmask and read calls behaves as the map from GSI to route |
| `IoApicAnswers.RoutesAreAnnounced` | acpi/src/ioapic.rs:97-111 | The routing map has exactly the GSIs from a chip's base up to that plus (version >> 16) & 0xFF, in 32 bits |
| `IoApicAnswers.AnnouncedIsServed` | acpi/src/ioapic.rs:279-355 | With mappings that succeed, a route or mask call answers true, and a read call finds a route, exactly for those GSIs |
| `IoApicAnswers.RoutedRegisters` | acpi/src/ioapic.rs:125-155 | Routing leaves the vector and bits 12 to 16 of the flags in register 0x10 + 2 n of the first chip that announces the GSI, the destination in the top byte of the next, and all other registers as they were |
| `IoApicAnswers.MaskedRegisters` | acpi/src/ioapic.rs:308-327 | Masking gives bit 16 of register 0x10 + 2 n and changes nothing else |
| `IoApicAnswers.ReadRegisters` | acpi/src/ioapic.rs:335-355 | Reading reports the low byte of the first word, the top byte of the second, and the first word |
| `Binding.BindSucceeds` | packaging/bind-limine-config.py:30-44 | Binding succeeds exactly on loaders of the machine with one marker followed by the digest or the placeholder |
| `Binding.ProfilesAre` | packaging/bind-limine-config.py:14-16 | Marker, placeholder and machine of the two scripts, in their own words |
| `Binding.MachineMeans` | packaging/bind-limine-config.py:19-28 | How far an image gets as a PE/COFF image, byte by byte, and its machine |
| `Binding.BindRefusals` | packaging/bind-limine-config.py:19-44 | Every refusal, exactly: the first of the header, machine, marker, room and placeholder tests that fails |
| `Binding.PlaceholderMissesHeader` | packaging/bind-limine-config.py:19-44 | The placeholder of an accepted loader touches neither the DOS header nor the PE signature and machine |
| `Binding.BindChangesDigestOnly` | packaging/bind-limine-config.py:30-44 | A success keeps the length, the machine and every byte but the digest's |
| `Binding.SpliceSingle` | packaging/bind-limine-config.py:33-44 | The marker stays the only one exactly when none lies in the digest and the bytes after it |
| `Binding.RebindIsIdentity` | packaging/bind-aarch64-uefi.py:30-44 | Rebinding is the identity exactly when no marker lies there; otherwise it is refused for a second marker |
| `Binding.OtherDigestRefused` | packaging/bind-limine-config.py:40-44 | Another digest is refused unless the first was the placeholder |
| `Binding.LimineBinding` | packaging/bind-limine-config.py:19-44 | For all lowercase hex digests: only the 128 digest bytes change, one marker, same machine, rebinding is the identity, another digest is refused unless the first was all zeros |
| `Binding.Aarch64Binding` | packaging/bind-aarch64-uefi.py:19-44 | For all 64-byte digests: only the digest bytes change, same machine, and the exact condition under which rebinding is the identity |
| `Binding.RebindCanFail` | packaging/bind-aarch64-uefi.py:30-44 | A loader and a digest that bind once and are then refused |
| `Binding.BoundForever` | packaging/bind-limine-config.py:30-44 | Once bound to a digest other than the placeholder, every further run of binds keeps the loader or is refused |

## Left out

- IoApicBank.IoApics.Probe: a GSI range that passes 32 bits wraps, as in the release profile (`Cargo.toml:223`); the panic of the development profile is not modelled.
- IoApicBank.IoApics.ProgramEntry: computes register indices without 32-bit wrap-around, because the handles a probe gives span at most 256 entries.
- IoApicCalls.CallEffect: is stated for distinct reported bases; the calls themselves are defined for repeated ones too.
- HmatParser.HmatTables.ParseBody: an overflow of the 64-bit matrix size ends the parse with an overflow outcome, as the development profile does; for the release profile (`Cargo.toml:223`) only the wrapped size test and the read it lets through are stated (`Hmat.WrappedTest`).
- Interleavings.NoCancelLost: takes each locked registry method as one atomic step; the lock itself and memory ordering are not modelled.
- Rings, tracing, RCU and the scheduler behind the dispatcher: a run is the sequence of submissions received, with the outcome of each completion post as an input.
- File, CPU and capability-transfer operations: their answers are inputs; only the completion they lead to is modelled.
- `request_inflight_cancel` and other diagnostic accessors: they would only add easy members.
- Volatile access, fences, port I/O and embedded-controller transactions: registers and regions are stores that may refuse or misreport an access.
- Finding the tables by RSDP, checksums and table headers: the parsers start at the structures.
- AML evaluation and the legacy operation-region accessors: only plain checked fields are modelled, and dispatching an event ends at naming the method to evaluate.
- The BLAKE2b hash and the atomic file replacement of the packaging scripts: the digest is an input and the result is the bytes to be written.
