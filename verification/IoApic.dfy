// I/O APIC routing: redirection entries behind a select/window register pair,
// reached through lazily mapped windows, refine a map from Global System
// Interrupt (GSI) to route.

module IoApic {
  import opened Words
  import opened Bits
  import opened IoApicRoutes

  const IDX_IOAPICVER: nat := 0x01
  const IDX_IOREDTBL_BASE: nat := 0x10
  // Two words for each of at most 256 entries follow the header registers.
  const REGISTERS: nat := 0x210

  // An I/O APIC reported by the MADT.
  datatype Reported = Reported(address: u32, gsiBase: u32)

  datatype Handle = Handle(base: u64, gsiBase: u32, gsiEnd: u32)

  // One chip: the selected index and the registers behind the window.
  datatype Chip = Chip(select: nat, regs: seq<u32>)

  type RegisterFiles = map<u64, seq<u32>>
  type RouteMap = map<int, Route>

  // The largest redirection entry a version register announces: its third byte.
  function MaxEntry(version: u32): u8 {
    version / 0x1_0000 % 0x100
  }

  // It is what shifting and masking the register give.
  lemma MaxEntryIsMasked(version: u32)
    ensures MaxEntry(version) == And(Shr(version, 16), 0xFF)
  {
    MaskedIsPow2();
    Widths();
    LowIsMod(version, 16);
    LowIsMod(Shr(version, 16), 8);
    AndOnesIsLow(Shr(version, 16), 8);
  }

  predicate Present(files: RegisterFiles, io: Reported) {
    io.address in files && |files[io.address]| == REGISTERS
  }

  // The last GSI of a chip with a given version register, in 32 bits.
  function RangeEnd(io: Reported, version: u32): u32 {
    var end := io.gsiBase + MaxEntry(version);
    if end <= U32_MAX then end else end - 0x1_0000_0000
  }

  function Last(files: RegisterFiles, io: Reported): u32
    requires Present(files, io)
  {
    RangeEnd(io, files[io.address][IDX_IOAPICVER])
  }

  predicate Covers(files: RegisterFiles, io: Reported, gsi: int)
    requires Present(files, io)
  {
    io.gsiBase <= gsi <= Last(files, io)
  }

  // A range that passes the last 32-bit GSI covers nothing.
  lemma WrappedRangeIsEmpty(files: RegisterFiles, io: Reported, gsi: int)
    requires Present(files, io) && io.gsiBase + MaxEntry(files[io.address][IDX_IOAPICVER]) > U32_MAX
    ensures !Covers(files, io, gsi)
  {
  }

  // The register holding the low word of an entry.
  function LowIndex(io: Reported, gsi: int): int {
    IDX_IOREDTBL_BASE + 2 * (gsi - io.gsiBase)
  }

  function EntryIn(files: RegisterFiles, io: Reported, gsi: int): RedirectionEntry
    requires Present(files, io) && Covers(files, io, gsi)
  {
    RedirectionEntry(files[io.address][LowIndex(io, gsi)], files[io.address][LowIndex(io, gsi) + 1])
  }

  predicate AllPresent(files: RegisterFiles, ios: seq<Reported>) {
    forall i :: 0 <= i < |ios| ==> Present(files, ios[i])
  }

  // The first reported chip from i on that covers a GSI, or the list length.
  function Owner(files: RegisterFiles, ios: seq<Reported>, i: nat, gsi: int): (k: nat)
    requires AllPresent(files, ios) && i <= |ios|
    ensures i <= k <= |ios| && (k < |ios| ==> Covers(files, ios[k], gsi))
    decreases |ios| - i
  {
    if i == |ios| || Covers(files, ios[i], gsi) then i else Owner(files, ios, i + 1, gsi)
  }

  predicate Routed(files: RegisterFiles, ios: seq<Reported>, gsi: int)
    requires AllPresent(files, ios)
  {
    Owner(files, ios, 0, gsi) < |ios|
  }

  function EntryAt(files: RegisterFiles, ios: seq<Reported>, gsi: int): RedirectionEntry
    requires AllPresent(files, ios) && Routed(files, ios, gsi)
  {
    EntryIn(files, ios[Owner(files, ios, 0, gsi)], gsi)
  }

  // The abstract routing table.
  ghost function Routes(files: RegisterFiles, ios: seq<Reported>): RouteMap
    requires AllPresent(files, ios)
  {
    map gsi | 0 <= gsi < 0x1_0000_0000 && Routed(files, ios, gsi) :: Meaning(EntryAt(files, ios, gsi))
  }

  ghost predicate DistinctChips(ios: seq<Reported>) {
    forall i, j :: 0 <= i < j < |ios| ==> ios[i].address != ios[j].address
  }

  // Writing redirection words of one chip changes no range.
  lemma {:induction false} OwnerUnchanged(
    files: RegisterFiles, other: RegisterFiles, ios: seq<Reported>, i: nat, gsi: int)
    requires AllPresent(files, ios) && AllPresent(other, ios) && i <= |ios|
    requires SameVersions(files, other, ios)
    ensures Owner(other, ios, i, gsi) == Owner(files, ios, i, gsi)
    decreases |ios| - i
  {
    if i < |ios| {
      OwnerUnchanged(files, other, ios, i + 1, gsi);
    }
  }

  ghost predicate SameVersions(files: RegisterFiles, other: RegisterFiles, ios: seq<Reported>)
    requires AllPresent(files, ios) && AllPresent(other, ios)
  {
    forall i :: 0 <= i < |ios| ==>
      other[ios[i].address][IDX_IOAPICVER] == files[ios[i].address][IDX_IOAPICVER]
  }

  function SetRegister(files: RegisterFiles, base: u64, index: nat, value: u32): RegisterFiles
    requires base in files && index < |files[base]|
  {
    var regs: seq<u32> := files[base][index := value];
    files[base := regs]
  }

  // What a register access at a physical address reads and changes. Without a
  // chip there a read floats and a write is lost.
  function Fetch(files: RegisterFiles, floating: u32, at: u64, index: nat): u32 {
    if at in files && index < |files[at]| then files[at][index] else floating
  }

  function Store(files: RegisterFiles, at: u64, index: nat, value: u32): RegisterFiles {
    if at in files && index < |files[at]| then SetRegister(files, at, index, value) else files
  }

  // The register files after one entry of a chip was given two words.
  function Stored(files: RegisterFiles, io: Reported, gsi: int, entry: RedirectionEntry): RegisterFiles
    requires Present(files, io) && Covers(files, io, gsi)
  {
    var half := SetRegister(files, io.address, LowIndex(io, gsi) + 1, entry.high);
    SetRegister(half, io.address, LowIndex(io, gsi), entry.low)
  }

  lemma StoredVersions(files: RegisterFiles, ios: seq<Reported>, io: Reported, gsi: int, entry: RedirectionEntry)
    requires AllPresent(files, ios) && Present(files, io) && Covers(files, io, gsi)
    ensures var other := Stored(files, io, gsi, entry);
      AllPresent(other, ios) && SameVersions(files, other, ios)
  {
  }

  lemma StoredEntry(files: RegisterFiles, io: Reported, jo: Reported, gsi: int, g: int, entry: RedirectionEntry)
    requires Present(files, io) && Present(files, jo) && Covers(files, io, gsi) && Covers(files, jo, g)
    requires jo.address == io.address || g == gsi ==> jo == io
    ensures var other := Stored(files, io, gsi, entry);
      && Present(other, jo) && Covers(other, jo, g)
      && EntryIn(other, jo, g) == if g == gsi then entry else EntryIn(files, jo, g)
  {
  }

  lemma StoredEntryAt(
    files: RegisterFiles, other: RegisterFiles, ios: seq<Reported>, k: nat, gsi: int, g: int, entry: RedirectionEntry)
    requires AllPresent(files, ios) && DistinctChips(ios)
    requires k == Owner(files, ios, 0, gsi) < |ios|
    requires other == Stored(files, ios[k], gsi, entry)
    requires AllPresent(other, ios) && SameVersions(files, other, ios)
    ensures Routed(other, ios, g) <==> Routed(files, ios, g)
    ensures Routed(files, ios, g) ==>
      EntryAt(other, ios, g) == if g == gsi then entry else EntryAt(files, ios, g)
  {
    var j := Owner(files, ios, 0, g);
    OwnerUnchanged(files, other, ios, 0, g);
    if j < |ios| {
      StoredEntry(files, ios[k], ios[j], gsi, g, entry);
    }
  }

  // Storing an entry of the owning chip updates that GSI of the table and no
  // other.
  lemma StoredRoutes(files: RegisterFiles, ios: seq<Reported>, gsi: u32, entry: RedirectionEntry)
    requires AllPresent(files, ios) && DistinctChips(ios) && Routed(files, ios, gsi)
    ensures var other := Stored(files, ios[Owner(files, ios, 0, gsi)], gsi, entry);
      AllPresent(other, ios) && Routes(other, ios) == Routes(files, ios)[gsi := Meaning(entry)]
  {
    var k := Owner(files, ios, 0, gsi);
    var other := Stored(files, ios[k], gsi, entry);
    StoredVersions(files, ios, ios[k], gsi, entry);
    forall g: int
      ensures Routed(other, ios, g) <==> Routed(files, ios, g)
      ensures Routed(files, ios, g) ==>
        EntryAt(other, ios, g) == if g == gsi then entry else EntryAt(files, ios, g)
    {
      StoredEntryAt(files, other, ios, k, gsi, g, entry);
    }
  }
}
