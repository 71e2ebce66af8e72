// Routing calls on the I/O APICs: what each does under arbitrary mapping
// outcomes, and how they refine a map from GSI to route.

module IoApicCalls {
  import opened Words
  import opened IoApicRoutes
  import opened MmioWindows
  import opened IoApic

  // What reading a route reports: vector, destination and the whole low word.
  datatype Reading = Reading(vector: nat, destination: nat, low: nat)

  function ReadingOf(r: Route): Reading {
    Reading(r.vector, r.destination, LowWord(r))
  }

  datatype Call =
    | Route(gsi: u32, vector: u8, destination: u8, flags: u32)
    | SetMask(gsi: u32, masked: bool)
    | Read(gsi: u32)

  datatype Answer = Done(ok: bool) | Found(reading: Option<Reading>)

  // The abstract router: a map from GSI to route.
  function After(table: RouteMap, call: Call): RouteMap {
    if call.gsi !in table then table
    else match call
      case Route(gsi, vector, destination, flags) => table[gsi := Programmed(vector, destination, flags)]
      case SetMask(gsi, masked) => table[gsi := table[gsi].(masked := masked)]
      case Read(_) => table
  }

  function AnswerOf(table: RouteMap, call: Call): Answer {
    match call
    case Read(gsi) => Found(if gsi in table then Some(ReadingOf(table[gsi])) else None)
    case _ => Done(call.gsi in table)
  }

  function AfterAll(table: RouteMap, calls: seq<Call>): RouteMap {
    if calls == [] then table else After(AfterAll(table, calls[..|calls| - 1]), calls[|calls| - 1])
  }

  function AnswersOf(table: RouteMap, calls: seq<Call>): seq<Answer> {
    if calls == [] then []
    else
      var before := calls[..|calls| - 1];
      AnswersOf(table, before) + [AnswerOf(AfterAll(table, before), calls[|calls| - 1])]
  }

  // ---- Register accesses ----

  // What lies outside the router: the mapper, and what a read without a chip
  // behind it gives.
  datatype Env = Env(mapper: Mapper, floating: u32)

  // The window cache and the registers of the chips.
  datatype State = State(cache: Cache, files: RegisterFiles)

  // Every access looks its window up afresh. It goes to the page of the base.
  function ReadAt(env: Env, s: State, base: u64, index: nat): (State, u32) {
    var (d, w) := Resolve(env.mapper, s.cache, base);
    (State(d, s.files), if w == 0 then 0 else Fetch(s.files, env.floating, Target(env.mapper, w), index))
  }

  function WriteAt(env: Env, s: State, base: u64, index: nat, value: u32): State {
    var (d, w) := Resolve(env.mapper, s.cache, base);
    State(d, if w == 0 then s.files else Store(s.files, Target(env.mapper, w), index, value))
  }

  function Probe(env: Env, s: State, io: Reported): (State, Handle) {
    var (t, version) := ReadAt(env, s, io.address, IDX_IOAPICVER);
    (t, Handle(io.address, io.gsiBase, RangeEnd(io, version)))
  }

  predicate InRange(h: Handle, gsi: int) {
    h.gsiBase <= gsi <= h.gsiEnd
  }

  // Programs both words of an entry, the high word first.
  function ProgramAt(env: Env, s: State, base: u64, index: nat, entry: RedirectionEntry): State {
    WriteAt(env, WriteAt(env, s, base, index + 1, entry.high), base, index, entry.low)
  }

  // Reads the low word and writes it back with its mask bit set or cleared.
  function MaskAt(env: Env, s: State, base: u64, index: nat, masked: bool): State {
    var (t, low) := ReadAt(env, s, base, index);
    MaskedLowFits(low, masked);
    WriteAt(env, t, base, index, MaskedLow(low, masked))
  }

  function RouteFrom(env: Env, s: State, base: u64, index: nat): (State, Reading) {
    var (t, low) := ReadAt(env, s, base, index);
    var (u, high) := ReadAt(env, t, base, index + 1);
    (u, Reading(VectorOf(low), DestinationOf(high), low))
  }

  // A search for the chip of a GSI: the state after it and the chip found, or
  // the list length.
  datatype Sought = Sought(state: State, owner: nat)

  function Search(env: Env, s: State, ios: seq<Reported>, i: nat, gsi: int): (r: Sought)
    requires i <= |ios|
    ensures i <= r.owner <= |ios| && r.state.files == s.files
    ensures r.owner < |ios| ==> ios[r.owner].gsiBase <= gsi
    decreases |ios| - i
  {
    if i == |ios| then Sought(s, i)
    else
      var (t, h) := Probe(env, s, ios[i]);
      if InRange(h, gsi) then Sought(t, i) else Search(env, t, ios, i + 1, gsi)
  }

  // A call on the chip found, at its low-word register.
  function ActOn(env: Env, s: State, base: u64, index: nat, call: Call): (State, Answer) {
    match call
    case Route(_, vector, destination, flags) =>
      (ProgramAt(env, s, base, index, ProgrammedEntry(vector, destination, flags)), Done(true))
    case SetMask(_, masked) => (MaskAt(env, s, base, index, masked), Done(true))
    case Read(_) =>
      var (t, reading) := RouteFrom(env, s, base, index);
      (t, Found(Some(reading)))
  }

  function Refusal(call: Call): Answer {
    if call.Read? then Found(None) else Done(false)
  }

  // A whole call: search, then act on the chip found.
  function Act(env: Env, s: State, ios: seq<Reported>, call: Call): (State, Answer) {
    var r := Search(env, s, ios, 0, call.gsi);
    if r.owner == |ios| then (r.state, Refusal(call))
    else ActOn(env, r.state, ios[r.owner].address, LowIndex(ios[r.owner], call.gsi), call)
  }

  // ---- Calls under arbitrary mapping outcomes ----

  // The registers after two accesses that write an entry.
  function EntryStored(
    files: RegisterFiles, at: u64, index: nat, entry: RedirectionEntry, access: Access): RegisterFiles
  {
    match access
    case Both => Store(Store(files, at, index + 1, entry.high), at, index, entry.low)
    case SecondOnly => Store(files, at, index, entry.low)
    case Neither => files
  }

  // The registers after a read and a write of the low word: without a window for
  // the read, the write starts from 0.
  function MaskStored(
    files: RegisterFiles, floating: u32, at: u64, index: nat, masked: bool, access: Access): RegisterFiles
  {
    var low := if access.Both? then Fetch(files, floating, at, index) else 0;
    MaskedLowFits(low, masked);
    if access.Neither? then files else Store(files, at, index, MaskedLow(low, masked))
  }

  function ReadingThrough(files: RegisterFiles, floating: u32, at: u64, index: nat, access: Access): Reading {
    var low := if access.Both? then Fetch(files, floating, at, index) else 0;
    var high := if access.Neither? then 0 else Fetch(files, floating, at, index + 1);
    Reading(VectorOf(low), DestinationOf(high), low)
  }

  // What a call does and answers, given which of its two accesses get a window.
  function Effect(
    env: Env, files: RegisterFiles, at: u64, index: nat, call: Call, access: Access): (RegisterFiles, Answer)
  {
    match call
    case Route(_, vector, destination, flags) =>
      (EntryStored(files, at, index, ProgrammedEntry(vector, destination, flags), access), Done(true))
    case SetMask(_, masked) => (MaskStored(files, env.floating, at, index, masked, access), Done(true))
    case Read(_) => (files, Found(Some(ReadingThrough(files, env.floating, at, index, access))))
  }

  lemma WindowReaches(m: Mapper, c: Cache, base: u64)
    requires WellFormed(m, c)
    ensures var (d, w) := Resolve(m, c, base); WellFormed(m, d) && (w != 0 ==> Target(m, w) == Page(base))
    ensures Resolve(m, c, base).1 != 0 ==> Resolve(m, Resolve(m, c, base).0, base) == Resolve(m, c, base)
  {
    ResolveKeepsWellFormed(m, c, base);
    ResolveReaches(m, c, base);
    if Finds(m, c, base) {
      ResolveAgain(m, c, base);
    }
  }

  // Both accesses of a call go to the page of the base, if they get a window.
  lemma ActOnEffect(env: Env, s: State, base: u64, index: nat, call: Call)
    requires WellFormed(env.mapper, s.cache)
    ensures var (c, access) := Twice(env.mapper, s.cache, base);
      var (files, answer) := Effect(env, s.files, Page(base), index, call, access);
      ActOn(env, s, base, index, call) == (State(c, files), answer)
  {
    var d := Resolve(env.mapper, s.cache, base).0;
    WindowReaches(env.mapper, s.cache, base);
    WindowReaches(env.mapper, d, base);
  }

  ghost function Addresses(ios: seq<Reported>): (bases: seq<u64>)
    ensures |bases| == |ios| && forall i :: 0 <= i < |ios| ==> bases[i] == ios[i].address
  {
    seq(|ios|, i requires 0 <= i < |ios| => ios[i].address)
  }

  // Chip k seems to cover the GSI, judged before the call: one without a window
  // on its probe seems to end at its first GSI.
  ghost predicate Seems(env: Env, s: State, ios: seq<Reported>, k: nat, gsi: int)
    requires k < |ios|
  {
    && ios[k].gsiBase <= gsi
    && gsi <= if Granted(env.mapper, s.cache, Addresses(ios), k)
              then RangeEnd(ios[k], Fetch(s.files, env.floating, Page(ios[k].address), IDX_IOAPICVER))
              else ios[k].gsiBase
  }

  // No chip before k seems to.
  ghost predicate NoneSeems(env: Env, s: State, ios: seq<Reported>, k: nat, gsi: int)
    requires k <= |ios|
  {
    k == 0 || (NoneSeems(env, s, ios, k - 1, gsi) && !Seems(env, s, ios, k - 1, gsi))
  }

  // Chip k is the first that does, or there is none and k is the list length.
  ghost predicate FirstSeeming(env: Env, s: State, ios: seq<Reported>, k: nat, gsi: int)
    requires k <= |ios|
  {
    (k < |ios| ==> Seems(env, s, ios, k, gsi)) && NoneSeems(env, s, ios, k, gsi)
  }

  // The state after the first k chips were probed.
  ghost function Probed(env: Env, s: State, ios: seq<Reported>, k: nat): State
    requires k <= |ios|
  {
    State(AfterFirst(env.mapper, s.cache, Addresses(ios), k), s.files)
  }

  lemma ProbeSeems(env: Env, s: State, ios: seq<Reported>, k: nat, gsi: int)
    requires WellFormed(env.mapper, s.cache) && DistinctChips(ios) && k < |ios|
    ensures var (t, h) := Probe(env, Probed(env, s, ios, k), ios[k]);
      t == Probed(env, s, ios, k + 1) && (InRange(h, gsi) <==> Seems(env, s, ios, k, gsi))
  {
    GrantedIsFound(env.mapper, s.cache, Addresses(ios), k);
    ResolveReaches(env.mapper, Probed(env, s, ios, k).cache, ios[k].address);
  }

  lemma SearchSeems(env: Env, s: State, ios: seq<Reported>, i: nat, gsi: int)
    requires WellFormed(env.mapper, s.cache) && DistinctChips(ios) && i < |ios|
    ensures Search(env, Probed(env, s, ios, i), ios, i, gsi) ==
      if Seems(env, s, ios, i, gsi) then Sought(Probed(env, s, ios, i + 1), i)
      else Search(env, Probed(env, s, ios, i + 1), ios, i + 1, gsi)
  {
    ProbeSeems(env, s, ios, i, gsi);
  }

  lemma SearchSkips(env: Env, s: State, ios: seq<Reported>, i: nat, gsi: int)
    requires WellFormed(env.mapper, s.cache) && DistinctChips(ios) && i < |ios| && !Seems(env, s, ios, i, gsi)
    ensures Search(env, Probed(env, s, ios, i), ios, i, gsi) == Search(env, Probed(env, s, ios, i + 1), ios, i + 1, gsi)
  {
    SearchSeems(env, s, ios, i, gsi);
  }

  // The search passes every chip that does not seem to cover the GSI.
  lemma {:induction false} SearchPasses(env: Env, s: State, ios: seq<Reported>, k: nat, gsi: int)
    requires WellFormed(env.mapper, s.cache) && DistinctChips(ios)
    requires k <= |ios| && NoneSeems(env, s, ios, k, gsi)
    ensures Search(env, s, ios, 0, gsi) == Search(env, Probed(env, s, ios, k), ios, k, gsi)
  {
    if k == 0 {
      assert Probed(env, s, ios, k) == s;
    } else {
      calc {
        Search(env, s, ios, 0, gsi);
        { SearchPasses(env, s, ios, k - 1, gsi); }
        Search(env, Probed(env, s, ios, k - 1), ios, k - 1, gsi);
        { SearchSkips(env, s, ios, k - 1, gsi); }
        Search(env, Probed(env, s, ios, k), ios, k, gsi);
      }
    }
  }

  // It stops at the first that does, with that chip probed.
  lemma SearchStops(env: Env, s: State, ios: seq<Reported>, k: nat, gsi: int)
    requires WellFormed(env.mapper, s.cache) && DistinctChips(ios)
    requires k <= |ios| && FirstSeeming(env, s, ios, k, gsi)
    ensures Search(env, s, ios, 0, gsi) ==
      if k < |ios| then Sought(Probed(env, s, ios, k + 1), k) else Sought(Probed(env, s, ios, k), k)
  {
    SearchPasses(env, s, ios, k, gsi);
    if k < |ios| {
      SearchSeems(env, s, ios, k, gsi);
    }
  }

  // Every call, on any cache and with any mapping outcomes, decided from the
  // state before it: it acts on the first chip that seems to cover the GSI, at
  // the page of its base, with the accesses that get a window; without such a
  // chip it refuses and changes no register.
  lemma CallEffect(env: Env, s: State, ios: seq<Reported>, call: Call, k: nat)
    requires WellFormed(env.mapper, s.cache) && DistinctChips(ios)
    requires k <= |ios| && FirstSeeming(env, s, ios, k, call.gsi)
    ensures var (t, answer) := Act(env, s, ios, call);
      (t.files, answer) ==
      if k == |ios| then (s.files, Refusal(call))
      else
        Effect(env, s.files, Page(ios[k].address), LowIndex(ios[k], call.gsi), call,
               AccessAfter(env.mapper, s.cache, Addresses(ios), k))
  {
    SearchStops(env, s, ios, k, call.gsi);
    if k < |ios| {
      var bases := Addresses(ios);
      var c := AfterFirst(env.mapper, s.cache, bases, k + 1);
      UsageIsCounted(env.mapper, s.cache, bases, k, k);
      ResolveKeepsWellFormed(env.mapper, AfterFirst(env.mapper, s.cache, bases, k), bases[k]);
      ActOnEffect(env, State(c, s.files), ios[k].address, LowIndex(ios[k], call.gsi), call);
      AccessIsCounted(env.mapper, s.cache, bases, k);
    }
  }

  // There always is such a chip, or the end of the list.
  lemma FirstSeemingExists(env: Env, s: State, ios: seq<Reported>, gsi: int) returns (k: nat)
    ensures k <= |ios| && FirstSeeming(env, s, ios, k, gsi)
  {
    k := 0;
    while k < |ios| && !Seems(env, s, ios, k, gsi)
      invariant k <= |ios| && NoneSeems(env, s, ios, k, gsi)
    {
      k := k + 1;
    }
  }

  // So whether a route or mask call answers true is known before it.
  lemma AnswersTrueIff(env: Env, s: State, ios: seq<Reported>, call: Call)
    requires WellFormed(env.mapper, s.cache) && DistinctChips(ios) && !call.Read?
    ensures Act(env, s, ios, call).1 == Done(true) <==>
      exists k :: 0 <= k < |ios| && FirstSeeming(env, s, ios, k, call.gsi)
  {
    var k := FirstSeemingExists(env, s, ios, call.gsi);
    CallEffect(env, s, ios, call, k);
    if j :| 0 <= j < |ios| && FirstSeeming(env, s, ios, j, call.gsi) {
      CallEffect(env, s, ios, call, j);
    }
  }

  // A chip whose accesses do not both get a window is acted on for its first GSI
  // only.
  lemma UnmappedSeemsAtBase(env: Env, s: State, ios: seq<Reported>, k: nat, gsi: int)
    requires k < |ios| && Seems(env, s, ios, k, gsi)
    requires AccessAfter(env.mapper, s.cache, Addresses(ios), k) != Both
    ensures gsi == ios[k].gsiBase && !Granted(env.mapper, s.cache, Addresses(ios), k)
  {
  }

  // The two words of an entry.
  function WordsAt(files: RegisterFiles, at: u64, index: nat): RedirectionEntry
    requires at in files && index + 1 < |files[at]|
  {
    RedirectionEntry(files[at][index], files[at][index + 1])
  }

  lemma StoredWords(files: RegisterFiles, at: u64, index: nat, entry: RedirectionEntry, access: Access)
    requires at in files && index + 1 < |files[at]|
    ensures var after := EntryStored(files, at, index, entry, access);
      && at in after && |after[at]| == |files[at]|
      && (forall other :: other in files && other != at ==> other in after && after[other] == files[other])
      && WordsAt(after, at, index) ==
         match access
         case Both => entry
         case SecondOnly => RedirectionEntry(entry.low, files[at][index + 1])
         case Neither => WordsAt(files, at, index)
  {
  }

  // Routing answers true whenever some chip seems to cover the GSI. It leaves the
  // wanted entry on the chip if both its accesses get a window, the wanted low
  // word with the old high word if only the second does, and the old entry
  // otherwise.
  lemma RoutedWords(env: Env, s: State, ios: seq<Reported>, call: Call, k: nat)
    requires WellFormed(env.mapper, s.cache) && DistinctChips(ios) && AllPresent(s.files, ios) && AllAligned(ios)
    requires call.Route? && k < |ios| && FirstSeeming(env, s, ios, k, call.gsi)
    ensures var (t, answer) := Act(env, s, ios, call);
      var at, index := ios[k].address, LowIndex(ios[k], call.gsi);
      && answer == Done(true)
      && 0 <= index < REGISTERS - 1 && at in t.files && |t.files[at]| == REGISTERS
      && var wanted := ProgrammedEntry(call.vector, call.destination, call.flags);
         WordsAt(t.files, at, index) ==
         match AccessAfter(env.mapper, s.cache, Addresses(ios), k)
         case Both => wanted
         case SecondOnly => RedirectionEntry(wanted.low, s.files[at][index + 1])
         case Neither => WordsAt(s.files, at, index)
  {
    var access := AccessAfter(env.mapper, s.cache, Addresses(ios), k);
    var wanted := ProgrammedEntry(call.vector, call.destination, call.flags);
    CallEffect(env, s, ios, call, k);
    assert Page(ios[k].address) == ios[k].address;
    StoredWords(s.files, ios[k].address, LowIndex(ios[k], call.gsi), wanted, access);
  }

  ghost predicate AllAligned(ios: seq<Reported>) {
    forall i :: 0 <= i < |ios| ==> ios[i].address % PAGE_SIZE == 0
  }

  // A mapper for one chip at its usual place.
  function OneChip(refused: set<nat>): Mapper {
    Mapper(refused, map[0xFEC0_0000 := 0x1000], map[0x1000 := 0xFEC0_0000])
  }

  // Routing the first GSI of a chip can answer true and program nothing, or the
  // low word alone: when the probe and the first write, or those and the second
  // write, are refused a window.
  lemma RouteCanMissWords(files: RegisterFiles, floating: u32, call: Call, refused: set<nat>)
    requires call.Route? && call.gsi == 0 && AllPresent(files, [Reported(0xFEC0_0000, 0)])
    requires 0 in refused && 1 in refused
    ensures var wanted := ProgrammedEntry(call.vector, call.destination, call.flags);
      var (t, answer) :=
        Act(Env(OneChip(refused), floating), State(Cache([], 0), files), [Reported(0xFEC0_0000, 0)], call);
      && Honest(OneChip(refused)) && answer == Done(true)
      && t.files == if 2 in refused then files else SetRegister(files, 0xFEC0_0000, 0x10, wanted.low)
  {
    var ios := [Reported(0xFEC0_0000, 0)];
    var env, s := Env(OneChip(refused), floating), State(Cache([], 0), files);
    assert !Granted(env.mapper, s.cache, Addresses(ios), 0);
    CallEffect(env, s, ios, call, 0);
  }

  // ---- Calls with mappings that succeed ----

  ghost function AddressSet(ios: seq<Reported>): set<u64> {
    set i | 0 <= i < |ios| :: ios[i].address
  }

  lemma {:induction false} ProbedReady(m: Mapper, c: Cache, ios: seq<Reported>, k: nat)
    requires k <= |ios| && Ready(m, c, AddressSet(ios))
    ensures Ready(m, AfterFirst(m, c, Addresses(ios), k), AddressSet(ios))
  {
    if k > 0 {
      ProbedReady(m, c, ios, k - 1);
      ReadyServes(m, AfterFirst(m, c, Addresses(ios), k - 1), AddressSet(ios), ios[k - 1].address);
    }
  }

  lemma GrantedWhenReady(m: Mapper, c: Cache, ios: seq<Reported>, k: nat)
    requires k < |ios| && DistinctChips(ios) && Ready(m, c, AddressSet(ios))
    ensures Granted(m, c, Addresses(ios), k)
  {
    ProbedReady(m, c, ios, k);
    ReadyServes(m, AfterFirst(m, c, Addresses(ios), k), AddressSet(ios), ios[k].address);
    GrantedIsFound(m, c, Addresses(ios), k);
  }

  // The chips are distinct, page-aligned and at the addresses reported.
  ghost predicate Routable(files: RegisterFiles, ios: seq<Reported>) {
    AllPresent(files, ios) && DistinctChips(ios) && AllAligned(ios)
  }

  lemma SeemsIsCovers(env: Env, s: State, ios: seq<Reported>, k: nat, gsi: int)
    requires Routable(s.files, ios) && k < |ios| && Ready(env.mapper, s.cache, AddressSet(ios))
    ensures Seems(env, s, ios, k, gsi) <==> Covers(s.files, ios[k], gsi)
  {
    GrantedWhenReady(env.mapper, s.cache, ios, k);
  }

  lemma {:induction false} OwnerFrom(env: Env, s: State, ios: seq<Reported>, i: nat, gsi: int)
    requires Routable(s.files, ios) && i <= |ios| && Ready(env.mapper, s.cache, AddressSet(ios))
    requires NoneSeems(env, s, ios, i, gsi)
    ensures FirstSeeming(env, s, ios, Owner(s.files, ios, i, gsi), gsi)
    decreases |ios| - i
  {
    if i < |ios| {
      SeemsIsCovers(env, s, ios, i, gsi);
      if !Covers(s.files, ios[i], gsi) {
        OwnerFrom(env, s, ios, i + 1, gsi);
      }
    }
  }

  // Writing the low word alone stores the entry with its high word kept.
  lemma StoredLow(files: RegisterFiles, io: Reported, gsi: int, low: u32)
    requires Present(files, io) && Covers(files, io, gsi)
    ensures SetRegister(files, io.address, LowIndex(io, gsi), low)
         == Stored(files, io, gsi, EntryIn(files, io, gsi).(low := low))
  {
    var at := LowIndex(io, gsi);
    assert SetRegister(files, io.address, at + 1, files[io.address][at + 1]) == files by {
      assert files[io.address][at + 1 := files[io.address][at + 1]] == files[io.address];
    }
  }

  // With both accesses, on a chip at its own page: what each call stores or
  // reports of a covered entry.
  lemma BothStored(files: RegisterFiles, io: Reported, gsi: int, entry: RedirectionEntry)
    requires Present(files, io) && Covers(files, io, gsi)
    ensures EntryStored(files, io.address, LowIndex(io, gsi), entry, Both) == Stored(files, io, gsi, entry)
  {
  }

  lemma BothMasked(files: RegisterFiles, floating: u32, io: Reported, gsi: int, masked: bool)
    requires Present(files, io) && Covers(files, io, gsi)
    ensures MaskStored(files, floating, io.address, LowIndex(io, gsi), masked, Both)
         == Stored(files, io, gsi, MaskedEntry(EntryIn(files, io, gsi), masked))
  {
    StoredLow(files, io, gsi, MaskedEntry(EntryIn(files, io, gsi), masked).low);
  }

  lemma BothRead(files: RegisterFiles, floating: u32, io: Reported, gsi: int)
    requires Present(files, io) && Covers(files, io, gsi)
    ensures ReadingThrough(files, floating, io.address, LowIndex(io, gsi), Both)
         == ReadingOf(Meaning(EntryIn(files, io, gsi)))
  {
    var entry := EntryIn(files, io, gsi);
    LowWordOfRoute(entry.low, entry.high);
  }

  // So the call does to the routes what it does to the map.
  lemma EffectRefines(env: Env, files: RegisterFiles, ios: seq<Reported>, k: nat, call: Call)
    requires Routable(files, ios) && k == Owner(files, ios, 0, call.gsi) < |ios|
    ensures var (after, answer) := Effect(env, files, ios[k].address, LowIndex(ios[k], call.gsi), call, Both);
      && AllPresent(after, ios)
      && Routes(after, ios) == After(Routes(files, ios), call)
      && answer == AnswerOf(Routes(files, ios), call)
  {
    match call
    case Route(gsi, vector, destination, flags) =>
      BothStored(files, ios[k], gsi, ProgrammedEntry(vector, destination, flags));
      StoredRoutes(files, ios, gsi, ProgrammedEntry(vector, destination, flags));
      ProgrammedMeans(vector, destination, flags);
    case SetMask(gsi, masked) =>
      BothMasked(files, env.floating, ios[k], gsi, masked);
      StoredRoutes(files, ios, gsi, MaskedEntry(EntryIn(files, ios[k], gsi), masked));
      MaskedMeans(EntryIn(files, ios[k], gsi), masked);
    case Read(gsi) =>
      BothRead(files, env.floating, ios[k], gsi);
  }

  lemma ReadyEffect(env: Env, s: State, ios: seq<Reported>, call: Call, k: nat)
    requires Routable(s.files, ios) && Ready(env.mapper, s.cache, AddressSet(ios))
    requires k == Owner(s.files, ios, 0, call.gsi)
    ensures var (t, answer) := Act(env, s, ios, call);
      (t.files, answer) ==
      if k == |ios| then (s.files, Refusal(call))
      else Effect(env, s.files, ios[k].address, LowIndex(ios[k], call.gsi), call, Both)
  {
    OwnerFrom(env, s, ios, 0, call.gsi);
    CallEffect(env, s, ios, call, k);
    if k < |ios| {
      GrantedWhenReady(env.mapper, s.cache, ios, k);
      assert Page(ios[k].address) == ios[k].address;
    }
  }

  // With mappings that succeed and page-aligned chips, a call behaves as the map.
  lemma CallRefines(env: Env, s: State, ios: seq<Reported>, call: Call)
    requires Routable(s.files, ios) && Ready(env.mapper, s.cache, AddressSet(ios))
    ensures var (t, answer) := Act(env, s, ios, call);
      && Routable(t.files, ios)
      && Routes(t.files, ios) == After(Routes(s.files, ios), call)
      && answer == AnswerOf(Routes(s.files, ios), call)
  {
    var k := Owner(s.files, ios, 0, call.gsi);
    ReadyEffect(env, s, ios, call, k);
    if k < |ios| {
      EffectRefines(env, s.files, ios, k, call);
    }
  }

  lemma SearchKeepsReady(env: Env, s: State, ios: seq<Reported>, gsi: int)
    requires DistinctChips(ios) && Ready(env.mapper, s.cache, AddressSet(ios))
    ensures Ready(env.mapper, Search(env, s, ios, 0, gsi).state.cache, AddressSet(ios))
  {
    var k := FirstSeemingExists(env, s, ios, gsi);
    SearchStops(env, s, ios, k, gsi);
    ProbedReady(env.mapper, s.cache, ios, if k < |ios| then k + 1 else k);
  }

  lemma ActOnKeepsReady(env: Env, s: State, base: u64, index: nat, call: Call, bases: set<u64>)
    requires Ready(env.mapper, s.cache, bases) && base in bases
    ensures Ready(env.mapper, ActOn(env, s, base, index, call).0.cache, bases)
  {
    ReadyServes(env.mapper, s.cache, bases, base);
    ReadyServes(env.mapper, Resolve(env.mapper, s.cache, base).0, bases, base);
    ActOnEffect(env, s, base, index, call);
  }

  // And the cache stays ready for the next call.
  lemma CallKeepsReady(env: Env, s: State, ios: seq<Reported>, call: Call)
    requires DistinctChips(ios) && Ready(env.mapper, s.cache, AddressSet(ios))
    ensures Ready(env.mapper, Act(env, s, ios, call).0.cache, AddressSet(ios))
  {
    var r := Search(env, s, ios, 0, call.gsi);
    SearchKeepsReady(env, s, ios, call.gsi);
    if r.owner < |ios| {
      var io := ios[r.owner];
      ActOnKeepsReady(env, r.state, io.address, LowIndex(io, call.gsi), call, AddressSet(ios));
    }
  }

  // Alignment matters: of two chips in one page, routing the second rewrites the
  // entry of the first.
  lemma UnalignedRouteRewritesOther(env: Env, s: State, ios: seq<Reported>, call: Call)
    requires ios == [Reported(0xFEC0_0000, 0), Reported(0xFEC0_0400, 24)]
    requires AllPresent(s.files, ios) && Ready(env.mapper, s.cache, AddressSet(ios))
    requires call.Route? && call.gsi == 24 && Last(s.files, ios[0]) == 23
    ensures var (t, answer) := Act(env, s, ios, call);
      && answer == Done(true)
      && t.files == Stored(s.files, ios[0], 0, ProgrammedEntry(call.vector, call.destination, call.flags))
  {
    GrantedWhenReady(env.mapper, s.cache, ios, 0);
    GrantedWhenReady(env.mapper, s.cache, ios, 1);
    SecondSeems(s.files, env.floating, ios);
    assert NoneSeems(env, s, ios, 0, 24) && NoneSeems(env, s, ios, 1, 24);
    CallEffect(env, s, ios, call, 1);
    BothStored(s.files, ios[0], 0, ProgrammedEntry(call.vector, call.destination, call.flags));
  }

  lemma SecondSeems(files: RegisterFiles, floating: u32, ios: seq<Reported>)
    requires ios == [Reported(0xFEC0_0000, 0), Reported(0xFEC0_0400, 24)]
    requires AllPresent(files, ios) && Last(files, ios[0]) == 23
    ensures RangeEnd(ios[1], Fetch(files, floating, 0xFEC0_0000, IDX_IOAPICVER)) == 47
  {
  }
}
