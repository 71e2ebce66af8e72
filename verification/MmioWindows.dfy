// The table of uncached register windows: each I/O APIC is mapped on first use
// and its window is remembered in one of eight slots.

module MmioWindows {
  import opened Words

  const MAX_IOAPICS := 8
  const PAGE_SIZE := 0x1000

  // The first byte of the page of an address.
  function Page(address: u64): u64 {
    address - address % PAGE_SIZE
  }

  // The mapper, as an input: which requests fail, counted over the run, the
  // window each base is given, and the physical page each window reaches. A
  // request may fail and a later one for the same base succeed; one for a base
  // without a window always fails.
  datatype Mapper = Mapper(refused: set<nat>, place: map<u64, u64>, reach: map<u64, u64>)

  // Windows are nonzero and reach the page of their base. They start at that
  // page, not at the base.
  ghost predicate Honest(m: Mapper) {
    forall base :: base in m.place ==> m.place[base] != 0 && Target(m, m.place[base]) == Page(base)
  }

  // The n-th request is granted, should it be for this base.
  predicate Grants(m: Mapper, n: nat, base: u64) {
    n !in m.refused && base in m.place
  }

  function Target(m: Mapper, window: u64): u64 {
    if window in m.reach then m.reach[window] else 0
  }

  datatype Entry = Entry(phys: u64, window: u64)

  // The filled slots, and how many requests the mapper has answered.
  datatype Cache = Cache(entries: seq<Entry>, asked: nat)

  // The window remembered for a base, 0 if there is none.
  function Remembered(entries: seq<Entry>, base: u64): u64 {
    if entries == [] then 0
    else if entries[0].phys == base then entries[0].window
    else Remembered(entries[1..], base)
  }

  predicate Knows(entries: seq<Entry>, base: u64) {
    entries != [] && (entries[0].phys == base || Knows(entries[1..], base))
  }

  // One request to the mapper, for the first empty slot.
  function Request(m: Mapper, c: Cache, base: u64): (Cache, u64) {
    if Grants(m, c.asked, base) then (Cache(c.entries + [Entry(base, m.place[base])], c.asked + 1), m.place[base])
    else (Cache(c.entries, c.asked + 1), 0)
  }

  // One lookup: the cache afterwards and the window, 0 if there is none.
  function Resolve(m: Mapper, c: Cache, base: u64): (Cache, u64) {
    if base == 0 then (c, 0)
    else if Knows(c.entries, base) then (c, Remembered(c.entries, base))
    else if |c.entries| >= MAX_IOAPICS then (c, 0)
    else Request(m, c, base)
  }

  // A lookup in this cache finds a window.
  predicate Finds(m: Mapper, c: Cache, base: u64) {
    base != 0 && (Knows(c.entries, base) || (|c.entries| < 8 && Grants(m, c.asked, base)))
  }

  ghost predicate Distinct(entries: seq<Entry>) {
    forall i, j :: 0 <= i < j < |entries| ==> entries[i].phys != entries[j].phys
  }

  predicate ReachesPage(m: Mapper, base: u64, window: u64) {
    base != 0 && window != 0 && Target(m, window) == Page(base)
  }

  // Every slot holds a live window of the page of its own base.
  ghost predicate WellFormed(m: Mapper, c: Cache) {
    && Honest(m)
    && |c.entries| <= MAX_IOAPICS
    && Distinct(c.entries)
    && (forall i :: 0 <= i < |c.entries| ==> ReachesPage(m, c.entries[i].phys, c.entries[i].window))
  }

  lemma {:induction false} RememberedAt(entries: seq<Entry>, i: nat)
    requires Distinct(entries) && i < |entries|
    ensures Remembered(entries, entries[i].phys) == entries[i].window
  {
    if i > 0 {
      assert entries[0].phys != entries[i].phys;
      RememberedAt(entries[1..], i - 1);
    }
  }

  lemma {:induction false} KnownSlot(entries: seq<Entry>, base: u64) returns (i: nat)
    requires Knows(entries, base)
    ensures i < |entries| && entries[i].phys == base
  {
    if entries[0].phys == base {
      i := 0;
    } else {
      i := KnownSlot(entries[1..], base);
      i := i + 1;
    }
  }

  lemma {:induction false} SlotIsKnown(entries: seq<Entry>, i: nat)
    requires i < |entries|
    ensures Knows(entries, entries[i].phys)
  {
    if i > 0 {
      SlotIsKnown(entries[1..], i - 1);
    }
  }

  lemma {:induction false} KnowsAppend(entries: seq<Entry>, e: Entry, base: u64)
    ensures Knows(entries + [e], base) <==> Knows(entries, base) || e.phys == base
  {
    if entries != [] {
      assert (entries + [e])[1..] == entries[1..] + [e];
      KnowsAppend(entries[1..], e, base);
    }
  }

  lemma {:induction false} RememberedAppend(entries: seq<Entry>, e: Entry, base: u64)
    ensures Remembered(entries + [e], base) ==
      if Knows(entries, base) then Remembered(entries, base) else if e.phys == base then e.window else 0
  {
    if entries != [] {
      assert (entries + [e])[1..] == entries[1..] + [e];
      RememberedAppend(entries[1..], e, base);
    }
  }

  lemma AppendDistinct(entries: seq<Entry>, e: Entry)
    requires Distinct(entries) && !Knows(entries, e.phys)
    ensures Distinct(entries + [e])
  {
    forall i | 0 <= i < |entries|
      ensures entries[i].phys != e.phys
    {
      SlotIsKnown(entries, i);
    }
  }

  lemma ResolveKeepsWellFormed(m: Mapper, c: Cache, base: u64)
    requires WellFormed(m, c)
    ensures WellFormed(m, Resolve(m, c, base).0)
  {
    if base != 0 && !Knows(c.entries, base) && Grants(m, c.asked, base) {
      AppendDistinct(c.entries, Entry(base, m.place[base]));
    }
  }

  // A window is found exactly when the base is known, or there is a slot and the
  // mapper grants one; it is remembered and reaches the page of the base.
  lemma ResolveReaches(m: Mapper, c: Cache, base: u64)
    requires WellFormed(m, c)
    ensures var (d, w) := Resolve(m, c, base);
      && (w != 0 <==> Finds(m, c, base))
      && (w != 0 <==> Knows(d.entries, base) && base != 0)
      && (w != 0 ==> Remembered(d.entries, base) == w && ReachesPage(m, base, w))
  {
    if Knows(c.entries, base) {
      var i := KnownSlot(c.entries, base);
      RememberedAt(c.entries, i);
    } else if base != 0 && Grants(m, c.asked, base) {
      KnowsAppend(c.entries, Entry(base, m.place[base]), base);
      RememberedAppend(c.entries, Entry(base, m.place[base]), base);
    }
  }

  // So the window found reaches the base itself exactly for a page-aligned base.
  lemma ReachesBaseIffAligned(m: Mapper, c: Cache, base: u64)
    requires WellFormed(m, c) && Finds(m, c, base)
    ensures Target(m, Resolve(m, c, base).1) == base <==> base % PAGE_SIZE == 0
  {
    ResolveReaches(m, c, base);
  }

  // The windows of two bases in one page reach the same registers.
  lemma UnalignedBaseMissed(m: Mapper, c: Cache, d: Cache)
    requires WellFormed(m, c) && Finds(m, c, 0xFEC0_0000) && WellFormed(m, d) && Finds(m, d, 0xFEC0_0400)
    ensures Target(m, Resolve(m, d, 0xFEC0_0400).1) == 0xFEC0_0000 == Target(m, Resolve(m, c, 0xFEC0_0000).1)
  {
    ResolveReaches(m, c, 0xFEC0_0000);
    ResolveReaches(m, d, 0xFEC0_0400);
  }

  // What a cache remembers, every later cache remembers.
  lemma ResolveRemembers(m: Mapper, c: Cache, base: u64, known: u64)
    requires WellFormed(m, c) && Knows(c.entries, known)
    ensures var d := Resolve(m, c, base).0;
      Knows(d.entries, known) && Remembered(d.entries, known) == Remembered(c.entries, known)
  {
    if Grants(m, c.asked, base) {
      KnowsAppend(c.entries, Entry(base, m.place[base]), known);
      RememberedAppend(c.entries, Entry(base, m.place[base]), known);
    }
  }

  // A lookup after a successful one finds the same and asks for nothing.
  lemma ResolveAgain(m: Mapper, c: Cache, base: u64)
    requires WellFormed(m, c) && Finds(m, c, base)
    ensures Resolve(m, Resolve(m, c, base).0, base) == Resolve(m, c, base)
  {
    ResolveReaches(m, c, base);
  }

  // ---- Runs of lookups ----

  // The windows found by a sequence of lookups, and the cache after it.
  function ResolveAll(m: Mapper, c: Cache, bases: seq<u64>): (Cache, seq<u64>)
    decreases |bases|
  {
    if bases == [] then (c, [])
    else
      var (d, w) := Resolve(m, c, bases[0]);
      var (last, ws) := ResolveAll(m, d, bases[1..]);
      (last, [w] + ws)
  }

  lemma {:induction false} RunKeepsKnown(m: Mapper, c: Cache, sought: seq<u64>, known: u64)
    requires WellFormed(m, c)
    ensures WellFormed(m, ResolveAll(m, c, sought).0) && |ResolveAll(m, c, sought).1| == |sought|
    ensures Knows(c.entries, known) ==>
      var d := ResolveAll(m, c, sought).0;
      Knows(d.entries, known) && Remembered(d.entries, known) == Remembered(c.entries, known)
    decreases |sought|
  {
    if sought != [] {
      ResolveKeepsWellFormed(m, c, sought[0]);
      RunKeepsKnown(m, Resolve(m, c, sought[0]).0, sought[1..], known);
      if Knows(c.entries, known) {
        ResolveRemembers(m, c, sought[0], known);
      }
    }
  }

  // A window found in a run is the one the last cache remembers.
  lemma {:induction false} RunFinds(m: Mapper, c: Cache, sought: seq<u64>, i: nat)
    requires WellFormed(m, c) && i < |sought|
    ensures var (d, ws) := ResolveAll(m, c, sought);
      |ws| == |sought| && (ws[i] != 0 ==>
        Knows(d.entries, sought[i]) && Remembered(d.entries, sought[i]) == ws[i] && ReachesPage(m, sought[i], ws[i]))
    decreases |sought|
  {
    var d := Resolve(m, c, sought[0]).0;
    ResolveKeepsWellFormed(m, c, sought[0]);
    ResolveReaches(m, c, sought[0]);
    RunKeepsKnown(m, d, sought[1..], sought[0]);
    if i > 0 {
      RunFinds(m, d, sought[1..], i - 1);
    }
  }

  // Once a run has found the window of a base, it finds no other for it: every
  // earlier and later lookup gives that window or, before it is mapped, none.
  // No base is mapped twice and no more than eight slots are used.
  lemma StableWindows(m: Mapper, c: Cache, sought: seq<u64>, i: nat, j: nat)
    requires WellFormed(m, c) && i <= j < |sought| && sought[i] == sought[j]
    ensures var (d, ws) := ResolveAll(m, c, sought);
      && |ws| == |sought|
      && (ws[i] != 0 ==> ws[j] == ws[i] && ReachesPage(m, sought[i], ws[i]))
      && Distinct(d.entries) && |d.entries| <= 8
  {
    RunKeepsKnown(m, c, sought, 0);
    RunFinds(m, c, sought, i);
    RunFinds(m, c, sought, j);
    if ResolveAll(m, c, sought).1[i] != 0 {
      StaysFound(m, c, sought, i, j);
    }
  }

  lemma {:induction false} StaysFound(m: Mapper, c: Cache, sought: seq<u64>, i: nat, j: nat)
    requires WellFormed(m, c) && i <= j < |sought| && sought[i] == sought[j]
    requires |ResolveAll(m, c, sought).1| == |sought| && ResolveAll(m, c, sought).1[i] != 0
    ensures ResolveAll(m, c, sought).1[j] != 0
    decreases |sought|
  {
    var d := Resolve(m, c, sought[0]).0;
    ResolveKeepsWellFormed(m, c, sought[0]);
    RunKeepsKnown(m, d, sought[1..], 0);
    if i > 0 {
      StaysFound(m, d, sought[1..], i - 1, j - 1);
    } else if j > 0 {
      ResolveReaches(m, c, sought[0]);
      KnownIsFound(m, d, sought[1..], j - 1);
    }
  }

  lemma {:induction false} KnownIsFound(m: Mapper, c: Cache, sought: seq<u64>, j: nat)
    requires WellFormed(m, c) && j < |sought| && sought[j] != 0 && Knows(c.entries, sought[j])
    ensures |ResolveAll(m, c, sought).1| == |sought| && ResolveAll(m, c, sought).1[j] != 0
    decreases |sought|
  {
    var d := Resolve(m, c, sought[0]).0;
    ResolveKeepsWellFormed(m, c, sought[0]);
    RunKeepsKnown(m, d, sought[1..], 0);
    if j == 0 {
      ResolveReaches(m, c, sought[0]);
    } else {
      ResolveRemembers(m, c, sought[0], sought[j]);
      KnownIsFound(m, d, sought[1..], j - 1);
    }
  }

  // ---- Mappings that succeed ----

  ghost predicate Within(c: Cache, bases: set<u64>) {
    forall i :: 0 <= i < |c.entries| ==> c.entries[i].phys in bases
  }

  ghost function Bases(entries: seq<Entry>): set<u64> {
    if entries == [] then {} else {entries[0].phys} + Bases(entries[1..])
  }

  lemma {:induction false} BasesAre(entries: seq<Entry>, base: u64)
    ensures base in Bases(entries) <==> Knows(entries, base)
  {
    if entries != [] {
      BasesAre(entries[1..], base);
    }
  }

  lemma NotKnownAgain(entries: seq<Entry>)
    requires Distinct(entries) && entries != []
    ensures !Knows(entries[1..], entries[0].phys)
  {
    if Knows(entries[1..], entries[0].phys) {
      var i := KnownSlot(entries[1..], entries[0].phys);
      assert false;
    }
  }

  lemma {:induction false} BasesCount(entries: seq<Entry>)
    requires Distinct(entries)
    ensures |Bases(entries)| == |entries|
  {
    if entries != [] {
      BasesCount(entries[1..]);
      BasesAre(entries[1..], entries[0].phys);
      NotKnownAgain(entries);
    }
  }

  lemma SubsetCount(a: set<u64>, b: set<u64>)
    requires a <= b
    ensures |a| <= |b|
  {
    assert b == a + (b - a);
  }

  // A base of a known set that is not mapped yet leaves a slot for it.
  lemma RoomLeft(m: Mapper, c: Cache, bases: set<u64>, base: u64)
    requires WellFormed(m, c) && Within(c, bases) && base in bases && !Knows(c.entries, base)
    ensures |c.entries| < |bases|
  {
    forall b | b in Bases(c.entries)
      ensures b in bases - {base}
    {
      BasesAre(c.entries, b);
      var i := KnownSlot(c.entries, b);
    }
    BasesCount(c.entries);
    SubsetCount(Bases(c.entries), bases - {base});
  }

  // At most eight nonzero bases, whose mappings succeed from now on.
  ghost predicate Ready(m: Mapper, c: Cache, bases: set<u64>) {
    && WellFormed(m, c) && Within(c, bases)
    && 0 !in bases && |bases| <= 8
    && bases <= m.place.Keys && forall n :: n in m.refused ==> n < c.asked
  }

  // Then the table never overflows: every lookup finds a window, and the cache
  // stays ready.
  lemma ReadyServes(m: Mapper, c: Cache, bases: set<u64>, base: u64)
    requires Ready(m, c, bases) && base in bases
    ensures Finds(m, c, base) && Ready(m, Resolve(m, c, base).0, bases)
  {
    if !Knows(c.entries, base) {
      RoomLeft(m, c, bases, base);
    }
    ResolveKeepsWellFormed(m, c, base);
  }

  ghost predicate AllWithin(sought: seq<u64>, bases: set<u64>) {
    forall i :: 0 <= i < |sought| ==> sought[i] in bases
  }

  // So every lookup of every run finds a window, in one slot per base.
  lemma {:induction false} ReadyRun(m: Mapper, c: Cache, bases: set<u64>, sought: seq<u64>, i: nat)
    requires Ready(m, c, bases) && AllWithin(sought, bases) && i < |sought|
    ensures var (d, ws) := ResolveAll(m, c, sought);
      Ready(m, d, bases) && |ws| == |sought| && ws[i] != 0 && |d.entries| <= |bases|
    decreases |sought|
  {
    var d := Resolve(m, c, sought[0]).0;
    ReadyServes(m, c, bases, sought[0]);
    ResolveReaches(m, c, sought[0]);
    if |sought| == 1 {
      ReadyCount(m, d, bases);
      assert sought[1..] == [];
    } else {
      ReadyRun(m, d, bases, sought[1..], if i == 0 then 0 else i - 1);
    }
  }

  lemma ReadyCount(m: Mapper, c: Cache, bases: set<u64>)
    requires Ready(m, c, bases)
    ensures |c.entries| <= |bases|
  {
    forall b | b in Bases(c.entries)
      ensures b in bases
    {
      BasesAre(c.entries, b);
      var i := KnownSlot(c.entries, b);
    }
    BasesCount(c.entries);
    SubsetCount(Bases(c.entries), bases);
  }

  // ---- Which of a list of first lookups succeed ----

  ghost predicate NoRepeats(bases: seq<u64>) {
    forall i, j :: 0 <= i < j < |bases| ==> bases[i] != bases[j]
  }

  // Requests made and slots filled.
  datatype Usage = Usage(asked: nat, filled: nat)

  // The usage after a lookup of a base that is known in c or nowhere: it costs a
  // request if the base is nonzero and unknown and finds a slot free, and a slot
  // if that request is granted.
  function NextUsage(m: Mapper, c: Cache, u: Usage, base: u64): Usage {
    if base == 0 || Knows(c.entries, base) || u.filled >= MAX_IOAPICS then u
    else Usage(u.asked + 1, if Grants(m, u.asked, base) then u.filled + 1 else u.filled)
  }

  // The usage before base k of a list is looked up, counted from the cache
  // before the first.
  function UsageBefore(m: Mapper, c: Cache, bases: seq<u64>, k: nat): Usage
    requires k <= |bases|
  {
    if k == 0 then Usage(c.asked, |c.entries|)
    else NextUsage(m, c, UsageBefore(m, c, bases, k - 1), bases[k - 1])
  }

  // Base k gets a window on its first lookup.
  predicate Granted(m: Mapper, c: Cache, bases: seq<u64>, k: nat)
    requires k < |bases|
  {
    var u := UsageBefore(m, c, bases, k);
    && bases[k] != 0
    && (Knows(c.entries, bases[k]) || (u.filled < MAX_IOAPICS && Grants(m, u.asked, bases[k])))
  }

  // The cache after the first k bases of a list were looked up once each.
  function AfterFirst(m: Mapper, c: Cache, bases: seq<u64>, k: nat): Cache
    requires k <= |bases|
  {
    if k == 0 then c else Resolve(m, AfterFirst(m, c, bases, k - 1), bases[k - 1]).0
  }

  lemma UsageStep(m: Mapper, c: Cache, d: Cache, u: Usage, base: u64)
    requires WellFormed(m, d) && Knows(d.entries, base) == Knows(c.entries, base)
    requires d.asked == u.asked && |d.entries| == u.filled
    ensures var e, v := Resolve(m, d, base).0, NextUsage(m, c, u, base);
      WellFormed(m, e) && e.asked == v.asked && |e.entries| == v.filled
  {
    ResolveKeepsWellFormed(m, d, base);
  }

  lemma {:induction false} UsageIsCounted(m: Mapper, c: Cache, bases: seq<u64>, k: nat, j: nat)
    requires WellFormed(m, c) && NoRepeats(bases) && k <= j < |bases|
    ensures var d, u := AfterFirst(m, c, bases, k), UsageBefore(m, c, bases, k);
      && WellFormed(m, d) && d.asked == u.asked && |d.entries| == u.filled
      && (Knows(d.entries, bases[j]) <==> Knows(c.entries, bases[j]))
  {
    if k > 0 {
      var before := AfterFirst(m, c, bases, k - 1);
      UsageIsCounted(m, c, bases, k - 1, k - 1);
      UsageIsCounted(m, c, bases, k - 1, j);
      UsageStep(m, c, before, UsageBefore(m, c, bases, k - 1), bases[k - 1]);
      OthersUnknown(m, before, bases[k - 1], bases[j]);
    }
  }

  lemma OthersUnknown(m: Mapper, c: Cache, base: u64, other: u64)
    requires base != other
    ensures Knows(Resolve(m, c, base).0.entries, other) <==> Knows(c.entries, other)
  {
    if Grants(m, c.asked, base) {
      KnowsAppend(c.entries, Entry(base, m.place[base]), other);
    }
  }

  // The count decides, before the first lookup, which lookups find a window.
  lemma GrantedIsFound(m: Mapper, c: Cache, bases: seq<u64>, k: nat)
    requires WellFormed(m, c) && NoRepeats(bases) && k < |bases|
    ensures WellFormed(m, AfterFirst(m, c, bases, k))
    ensures Granted(m, c, bases, k) <==> Finds(m, AfterFirst(m, c, bases, k), bases[k])
  {
    UsageIsCounted(m, c, bases, k, k);
  }

  // ---- Two accesses after a first lookup ----

  // Which of two successive accesses to a base get a window. Once one does, so
  // does the next.
  datatype Access = Both | SecondOnly | Neither

  function Twice(m: Mapper, c: Cache, base: u64): (Cache, Access) {
    var (d, first) := Resolve(m, c, base);
    var (e, second) := Resolve(m, d, base);
    (e, if first != 0 then Both else if second != 0 then SecondOnly else Neither)
  }

  // The same, decided before the first lookup of the list: a failed request is
  // repeated by each access as long as there is a slot.
  function AccessAfter(m: Mapper, c: Cache, bases: seq<u64>, k: nat): Access
    requires k < |bases|
  {
    var u := UsageBefore(m, c, bases, k);
    if Granted(m, c, bases, k) then Both
    else if bases[k] == 0 || u.filled >= MAX_IOAPICS then Neither
    else if Grants(m, u.asked + 1, bases[k]) then Both
    else if Grants(m, u.asked + 2, bases[k]) then SecondOnly
    else Neither
  }

  lemma AccessIsCounted(m: Mapper, c: Cache, bases: seq<u64>, k: nat)
    requires WellFormed(m, c) && NoRepeats(bases) && k < |bases|
    ensures Twice(m, AfterFirst(m, c, bases, k + 1), bases[k]).1 == AccessAfter(m, c, bases, k)
  {
    var d := AfterFirst(m, c, bases, k);
    UsageIsCounted(m, c, bases, k, k);
    TwiceAfter(m, d, bases[k]);
  }

  lemma TwiceAfter(m: Mapper, c: Cache, base: u64)
    requires WellFormed(m, c)
    ensures Twice(m, Resolve(m, c, base).0, base).1 ==
      if Finds(m, c, base) then Both
      else if base == 0 || |c.entries| >= MAX_IOAPICS then Neither
      else if Grants(m, c.asked + 1, base) then Both
      else if Grants(m, c.asked + 2, base) then SecondOnly
      else Neither
  {
    ResolveReaches(m, c, base);
    if Finds(m, c, base) {
      ResolveAgain(m, c, base);
    }
  }

  // ---- The slots ----

  // The two slot arrays, in front of the mapper.
  class Windows {
    const mapper: Mapper
    const phys: array<u64>
    const virt: array<u64>
    var asked: nat
    ghost var entries: seq<Entry>

    ghost function Contents(): Cache
      reads this
    {
      Cache(entries, asked)
    }

    ghost predicate SlotsHold()
      reads this, phys, virt
    {
      && phys != virt && phys.Length == MAX_IOAPICS && virt.Length == MAX_IOAPICS
      && |entries| <= MAX_IOAPICS
      && (forall i :: 0 <= i < |entries| ==> phys[i] == entries[i].phys && virt[i] == entries[i].window)
      && (forall i :: |entries| <= i < MAX_IOAPICS ==> phys[i] == 0 && virt[i] == 0)
    }

    ghost predicate Valid()
      reads this, phys, virt
    {
      SlotsHold() && WellFormed(mapper, Contents())
    }

    constructor (mapper: Mapper)
      requires Honest(mapper)
      ensures Valid() && Contents() == Cache([], 0) && this.mapper == mapper
      ensures fresh(phys) && fresh(virt)
    {
      this.mapper := mapper;
      phys := new u64[MAX_IOAPICS](_ => 0);
      virt := new u64[MAX_IOAPICS](_ => 0);
      asked := 0;
      entries := [];
    }

    // The window of a base, mapped on first use; 0 if the mapping fails or the
    // table is full.
    method Base(base: u64) returns (window: u64)
      requires Valid()
      modifies this, phys, virt
      ensures Valid()
      ensures (Contents(), window) == Resolve(mapper, old(Contents()), base)
    {
      ResolveKeepsWellFormed(mapper, Contents(), base);
      if Knows(entries, base) {
        ghost var known := KnownSlot(entries, base);
      }
      var slot := 0;
      while slot < MAX_IOAPICS
        invariant 0 <= slot <= MAX_IOAPICS
        invariant slot <= |entries| && SlotsHold() && Contents() == old(Contents())
        invariant forall i :: 0 <= i < slot ==> entries[i].phys != base
      {
        var p := phys[slot];
        if p == base {
          window := virt[slot];
          if slot < |entries| {
            RememberedAt(entries, slot);
            SlotIsKnown(entries, slot);
          }
          return;
        }
        if p == 0 {
          window := Fill(slot, base);
          return;
        }
        slot := slot + 1;
      }
      window := 0;
    }

    // Maps the base into the first empty slot, if the mapper grants a window.
    method Fill(slot: nat, base: u64) returns (window: u64)
      requires SlotsHold() && slot == |entries| < MAX_IOAPICS
      modifies this, phys, virt
      ensures SlotsHold() && (Contents(), window) == Request(mapper, old(Contents()), base)
    {
      var granted := Grants(mapper, asked, base);
      asked := asked + 1;
      if !granted {
        return 0;
      }
      window := mapper.place[base];
      virt[slot] := window;
      phys[slot] := base;
      entries := entries + [Entry(base, window)];
    }
  }
}
