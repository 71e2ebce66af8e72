// The I/O APICs of the machine as the router drives them: window slots, select
// registers and register files updated in place. Each operation is tied to the
// call of the same kind.

module IoApicBank {
  import opened Words
  import opened IoApicRoutes
  import opened MmioWindows
  import opened IoApic
  import opened IoApicCalls
  import Spec = IoApicCalls

  class IoApics {
    const ios: seq<Reported>
    const windows: Windows
    const floating: u32
    var chips: map<u64, Chip>
    ghost var files: RegisterFiles

    ghost function Environment(): Env
    {
      Env(windows.mapper, floating)
    }

    ghost function View(): State
      reads this, windows
    {
      State(windows.Contents(), files)
    }

    // The ghost register files are those of the chips.
    ghost predicate Valid()
      reads this, windows, windows.phys, windows.virt
    {
      && windows.Valid()
      && chips.Keys == files.Keys
      && forall at :: at in chips ==> chips[at].regs == files[at]
    }

    constructor (ios: seq<Reported>, chips: map<u64, Chip>, floating: u32, windows: Windows)
      requires windows.Valid()
      ensures Valid() && this.ios == ios && this.windows == windows && this.chips == chips && this.floating == floating
    {
      this.ios := ios;
      this.windows := windows;
      this.floating := floating;
      this.chips := chips;
      this.files := map at | at in chips :: chips[at].regs;
    }

    // Selects a register and reads it through the window; 0 without a window.
    method ReadRegister(base: u64, index: nat) returns (value: u32)
      requires Valid()
      modifies this`chips, windows, windows.phys, windows.virt
      ensures Valid() && (View(), value) == ReadAt(Environment(), old(View()), base, index)
    {
      var window := windows.Base(base);
      if window == 0 {
        return 0;
      }
      var at := Target(windows.mapper, window);
      if at !in chips {
        return floating;
      }
      var chip := chips[at].(select := index);
      chips := chips[at := chip];
      value := if chip.select < |chip.regs| then chip.regs[chip.select] else floating;
    }

    // Selects a register and writes it through the window; nothing without one.
    method WriteRegister(base: u64, index: nat, value: u32)
      requires Valid()
      modifies this, windows, windows.phys, windows.virt
      ensures Valid() && View() == WriteAt(Environment(), old(View()), base, index, value)
    {
      var window := windows.Base(base);
      if window == 0 {
        return;
      }
      var at := Target(windows.mapper, window);
      if at !in chips {
        return;
      }
      var chip := chips[at].(select := index);
      if chip.select < |chip.regs| {
        var regs: seq<u32> := chip.regs[chip.select := value];
        chip := chip.(regs := regs);
      }
      chips := chips[at := chip];
      files := Store(files, at, index, value);
    }

    method Probe(io: Reported) returns (h: Handle)
      requires Valid()
      modifies this`chips, windows, windows.phys, windows.virt
      ensures Valid() && (View(), h) == Spec.Probe(Environment(), old(View()), io)
    {
      var version := ReadRegister(io.address, IDX_IOAPICVER);
      h := Handle(io.address, io.gsiBase, RangeEnd(io, version));
    }

    // Programs an entry of the chip of a handle; refuses a GSI out of its range.
    method ProgramEntry(h: Handle, gsi: u32, vector: u8, destination: u8, flags: u32) returns (ok: bool)
      requires Valid()
      modifies this, windows, windows.phys, windows.virt
      ensures Valid() && ok == InRange(h, gsi)
      ensures View() == if !ok then old(View())
        else ProgramAt(Environment(), old(View()), h.base, IDX_IOREDTBL_BASE + 2 * (gsi - h.gsiBase),
                       ProgrammedEntry(vector, destination, flags))
    {
      if gsi < h.gsiBase || gsi > h.gsiEnd {
        return false;
      }
      var index := IDX_IOREDTBL_BASE + 2 * (gsi - h.gsiBase);
      var entry := ProgrammedEntry(vector, destination, flags);
      WriteRegister(h.base, index + 1, entry.high);
      WriteRegister(h.base, index, entry.low);
      ok := true;
    }

    // Reads the low word and writes it back with its mask bit set or cleared.
    method RewriteMask(base: u64, index: nat, masked: bool)
      requires Valid()
      modifies this, windows, windows.phys, windows.virt
      ensures Valid() && View() == MaskAt(Environment(), old(View()), base, index, masked)
    {
      var low := ReadRegister(base, index);
      MaskedLowFits(low, masked);
      WriteRegister(base, index, MaskedLow(low, masked));
    }

    // Masks an entry of the chip of a handle, if the GSI is in its range.
    method Mask(h: Handle, gsi: u32)
      requires Valid()
      modifies this, windows, windows.phys, windows.virt
      ensures Valid()
      ensures View() == if !InRange(h, gsi) then old(View())
        else MaskAt(Environment(), old(View()), h.base, IDX_IOREDTBL_BASE + 2 * (gsi - h.gsiBase), true)
    {
      if gsi < h.gsiBase || gsi > h.gsiEnd {
        return;
      }
      RewriteMask(h.base, IDX_IOREDTBL_BASE + 2 * (gsi - h.gsiBase), true);
    }

    // Probes the reported chips in turn until one seems to cover the GSI.
    method FindOwner(gsi: u32) returns (i: nat, h: Option<Handle>)
      requires Valid()
      modifies this`chips, windows, windows.phys, windows.virt
      ensures Valid() && Sought(View(), i) == old(Seek(gsi))
      ensures h.None? <==> i == |ios|
      ensures h.Some? ==> InRange(h.value, gsi) && h.value.base == ios[i].address && h.value.gsiBase == ios[i].gsiBase
    {
      i := 0;
      while i < |ios|
        invariant i <= |ios| && Valid()
        invariant Search(Environment(), View(), ios, i, gsi) == old(Seek(gsi))
      {
        var probed := Probe(ios[i]);
        if gsi >= probed.gsiBase && gsi <= probed.gsiEnd {
          return i, Some(probed);
        }
        i := i + 1;
      }
      h := None;
    }

    // Where the search for a GSI ends.
    ghost function Seek(gsi: int): Sought
      reads this, windows
    {
      Search(Environment(), View(), ios, 0, gsi)
    }

    // Routes a GSI to a vector on the chip the search finds.
    method RouteGsi(gsi: u32, vector: u8, destination: u8, flags: u32) returns (ok: bool)
      requires Valid()
      modifies this, windows, windows.phys, windows.virt
      ensures Valid() && ok == (old(Seek(gsi)).owner < |ios|)
      ensures var r := old(Seek(gsi));
        View() == if !ok then r.state
        else ProgramAt(Environment(), r.state, ios[r.owner].address, LowIndex(ios[r.owner], gsi),
                       ProgrammedEntry(vector, destination, flags))
    {
      var i, h := FindOwner(gsi);
      ghost var found := View();
      if h == None {
        return false;
      }
      ok := ProgramEntry(h.value, gsi, vector, destination, flags);
      assert View() == ProgramAt(Environment(), found, h.value.base, IDX_IOREDTBL_BASE + 2 * (gsi - h.value.gsiBase),
                                 ProgrammedEntry(vector, destination, flags));
    }

    // Sets or clears the mask of a GSI on the chip the search finds.
    method SetGsiMasked(gsi: u32, masked: bool) returns (ok: bool)
      requires Valid()
      modifies this, windows, windows.phys, windows.virt
      ensures Valid() && ok == (old(Seek(gsi)).owner < |ios|)
      ensures var r := old(Seek(gsi));
        View() == if !ok then r.state
        else MaskAt(Environment(), r.state, ios[r.owner].address, LowIndex(ios[r.owner], gsi), masked)
    {
      var i, h := FindOwner(gsi);
      ghost var found := View();
      if h == None {
        return false;
      }
      var index := IDX_IOREDTBL_BASE + 2 * (gsi - h.value.gsiBase);
      RewriteMask(h.value.base, index, masked);
      assert View() == MaskAt(Environment(), found, h.value.base, index, masked);
      ok := true;
    }

    // Reads the route of an entry.
    method ReadEntry(base: u64, index: nat) returns (r: Reading)
      requires Valid()
      modifies this`chips, windows, windows.phys, windows.virt
      ensures Valid() && (View(), r) == RouteFrom(Environment(), old(View()), base, index)
    {
      var low := ReadRegister(base, index);
      var high := ReadRegister(base, index + 1);
      r := Reading(VectorOf(low), DestinationOf(high), low);
    }

    // Reads the route of a GSI without changing it.
    method GsiRoute(gsi: u32) returns (reading: Option<Reading>)
      requires Valid()
      modifies this`chips, windows, windows.phys, windows.virt
      ensures Valid() && (reading.Some? <==> old(Seek(gsi)).owner < |ios|)
      ensures var r := old(Seek(gsi));
        if reading == None then View() == r.state
        else
          (View(), reading.value) ==
          RouteFrom(Environment(), r.state, ios[r.owner].address, LowIndex(ios[r.owner], gsi))
    {
      var i, h := FindOwner(gsi);
      ghost var found := View();
      if h == None {
        return None;
      }
      var index := IDX_IOREDTBL_BASE + 2 * (gsi - h.value.gsiBase);
      var r := ReadEntry(h.value.base, index);
      assert (View(), r) == RouteFrom(Environment(), found, h.value.base, index);
      reading := Some(r);
    }

    method Perform(call: Call) returns (answer: Answer)
      requires Valid()
      modifies this, windows, windows.phys, windows.virt
      ensures Valid() && (View(), answer) == Act(Environment(), old(View()), ios, call)
    {
      match call
      case Route(gsi, vector, destination, flags) =>
        var ok := RouteGsi(gsi, vector, destination, flags);
        answer := Done(ok);
      case SetMask(gsi, masked) =>
        var ok := SetGsiMasked(gsi, masked);
        answer := Done(ok);
      case Read(gsi) =>
        var reading := GsiRoute(gsi);
        answer := Found(reading);
    }

    // With mappings that succeed and page-aligned chips, any sequence of route,
    // mask, unmask and read calls behaves as the map.
    method Run(calls: seq<Call>) returns (answers: seq<Answer>)
      requires Valid() && Routable(files, ios) && Ready(windows.mapper, windows.Contents(), AddressSet(ios))
      modifies this, windows, windows.phys, windows.virt
      ensures Valid() && Routable(files, ios) && Ready(windows.mapper, windows.Contents(), AddressSet(ios))
      ensures Routes(files, ios) == AfterAll(Routes(old(files), ios), calls)
      ensures answers == AnswersOf(Routes(old(files), ios), calls)
    {
      answers := [];
      var k := 0;
      while k < |calls|
        invariant 0 <= k <= |calls| && Valid() && Routable(files, ios)
        invariant Ready(windows.mapper, windows.Contents(), AddressSet(ios))
        invariant Routes(files, ios) == AfterAll(Routes(old(files), ios), calls[..k])
        invariant answers == AnswersOf(Routes(old(files), ios), calls[..k])
      {
        CallRefines(Environment(), View(), ios, calls[k]);
        CallKeepsReady(Environment(), View(), ios, calls[k]);
        var answer := Perform(calls[k]);
        assert calls[..k + 1][..k] == calls[..k];
        answers := answers + [answer];
        k := k + 1;
      }
      assert calls[..k] == calls;
    }
  }
}
