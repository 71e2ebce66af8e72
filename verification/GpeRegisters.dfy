// What the enable and status registers hold, over every run of leases and
// runtime enables on registers that store what is written to them.

module GpeRegisters {
  import opened Words
  import opened Bits
  import opened GpeBlocks
  import opened GpeLeases
  import FieldBytes

  // The enable half and the status half of a block, each read as one
  // little-endian integer.
  function EnableWord(m: Machine, b: Block): nat
    requires Shaped(m) && BytePortsValid(b)
  {
    FieldBytes.LittleEndian(m.regs[b.address + b.byteCount / 2..b.address + b.byteCount])
  }

  function StatusWord(m: Machine, b: Block): nat
    requires Shaped(m) && BytePortsValid(b)
  {
    FieldBytes.LittleEndian(m.regs[b.address..b.address + b.byteCount / 2])
  }

  // GPE n is bit n - baseGsi of its block's integers.
  predicate EnableBit(fw: Firmware, m: Machine, n: u32)
    requires Shaped(m) && Supported(fw, n)
  {
    var b := RegisterBlock(fw, n).value;
    Bit(EnableWord(m, b), n - b.baseGsi)
  }

  predicate StatusBit(fw: Firmware, m: Machine, n: u32)
    requires Shaped(m) && Supported(fw, n)
  {
    var b := RegisterBlock(fw, n).value;
    Bit(StatusWord(m, b), n - b.baseGsi)
  }

  lemma BitOfSlice(s: seq<u8>, lo: nat, hi: nat, d: nat)
    requires lo <= hi <= |s| && d < 8 * (hi - lo)
    ensures Bit(FieldBytes.LittleEndian(s[lo..hi]), d) <==> Bit(s[lo + d / 8], d % 8)
  {
    FieldBytes.BitOfLittleEndian(s[lo..hi], d);
  }

  lemma EnableWordBit(m: Machine, b: Block, n: u32)
    requires Shaped(m) && Covers(Some(b), n)
    ensures Bit(EnableWord(m, b), n - b.baseGsi) <==> Bit(m.regs[EnablePort(b, n)], BitIndex(b, n))
  {
    PortsInBlock(b, n);
    BitOfSlice(m.regs, b.address + b.byteCount / 2, b.address + b.byteCount, n - b.baseGsi);
  }

  lemma StatusWordBit(m: Machine, b: Block, n: u32)
    requires Shaped(m) && Covers(Some(b), n)
    ensures Bit(StatusWord(m, b), n - b.baseGsi) <==> Bit(m.regs[StatusPort(b, n)], BitIndex(b, n))
  {
    PortsInBlock(b, n);
    BitOfSlice(m.regs, b.address, b.address + b.byteCount / 2, n - b.baseGsi);
  }

  // The byte and the bit in it that the register accesses use.
  lemma BitsInBytes(fw: Firmware, m: Machine, n: u32)
    requires Shaped(m) && Supported(fw, n)
    ensures var b := RegisterBlock(fw, n).value;
            && (EnableBit(fw, m, n) <==> Bit(m.regs[EnablePort(b, n)], BitIndex(b, n)))
            && (StatusBit(fw, m, n) <==> Bit(m.regs[StatusPort(b, n)], BitIndex(b, n)))
  {
    EnableWordBit(m, RegisterBlock(fw, n).value, n);
    StatusWordBit(m, RegisterBlock(fw, n).value, n);
  }

  lemma SameRegisters(fw: Firmware, m: Machine, m': Machine, n: u32)
    requires Shaped(m) && Shaped(m') && m.regs == m'.regs && Supported(fw, n)
    ensures EnableBit(fw, m, n) <==> EnableBit(fw, m', n)
    ensures StatusBit(fw, m, n) <==> StatusBit(fw, m', n)
  {
  }

  // Setting or clearing one bit of a byte leaves the other bits alone.
  lemma OneBitDiffers(x: u8, k: nat)
    requires k < 8
    ensures forall j: nat :: Bit(SetByteBit(x, k), j) <==> j == k || Bit(x, j)
    ensures forall j: nat :: Bit(ClearBit(x, k), j) <==> j != k && Bit(x, j)
  {
    forall j: nat
      ensures Bit(SetByteBit(x, k), j) <==> j == k || Bit(x, j)
      ensures Bit(ClearBit(x, k), j) <==> j != k && Bit(x, j)
    {
      SetBitBits(x, k, j);
      ClearBitBits(x, k, j);
    }
  }

  // Storing an enable byte that differs from the old one at most in the bit of
  // n touches the enable bit of n only.
  lemma StoreEnable(fw: Firmware, m: Machine, n: u32, value: u8, j: u32)
    requires PortsDisjoint(fw) && Shaped(m) && Supported(fw, n) && Supported(fw, j)
    requires var b := RegisterBlock(fw, n).value;
             forall k: nat :: k != BitIndex(b, n) ==> (Bit(value, k) <==> Bit(m.regs[EnablePort(b, n)], k))
    ensures var b := RegisterBlock(fw, n).value;
            var m' := WritePort(fw, m, EnablePort(b, n), value);
            && (EnableBit(fw, m', j) <==> if j == n then Bit(value, BitIndex(b, n)) else EnableBit(fw, m, j))
            && (StatusBit(fw, m', j) <==> StatusBit(fw, m, j))
  {
    PortKinds(fw, n);
    PortKinds(fw, j);
    BitsInBytes(fw, m, j);
    BitsInBytes(fw, WritePort(fw, m, EnablePort(RegisterBlock(fw, n).value, n), value), j);
    if j != n {
      CellsDistinct(fw, n, j);
    }
  }

  // Writing the bit of n to its status byte clears that status bit only.
  lemma AcknowledgeStatus(fw: Firmware, m: Machine, n: u32, j: u32)
    requires PortsDisjoint(fw) && Shaped(m) && Supported(fw, n) && Supported(fw, j)
    ensures var b := RegisterBlock(fw, n).value;
            var m' := WritePort(fw, m, StatusPort(b, n), ByteMask(BitIndex(b, n)));
            && (EnableBit(fw, m', j) <==> EnableBit(fw, m, j))
            && (StatusBit(fw, m', j) <==> j != n && StatusBit(fw, m, j))
  {
    var b := RegisterBlock(fw, n).value;
    PortKinds(fw, n);
    PortKinds(fw, j);
    BitsInBytes(fw, m, j);
    BitsInBytes(fw, WritePort(fw, m, StatusPort(b, n), ByteMask(BitIndex(b, n))), j);
    ClearBitBits(m.regs[StatusPort(b, n)], BitIndex(b, n), BitIndex(RegisterBlock(fw, j).value, j));
    if j != n {
      CellsDistinct(fw, n, j);
    }
  }

  lemma RaiseKeepsEnables(fw: Firmware, m: Machine, port: u16, k: nat, j: u32)
    requires PortsDisjoint(fw) && Shaped(m) && Supported(fw, j) && k < 8
    ensures EnableBit(fw, Raise(fw, m, port, k), j) <==> EnableBit(fw, m, j)
    ensures StatusBit(fw, m, j) ==> StatusBit(fw, Raise(fw, m, port, k), j)
  {
    PortKinds(fw, j);
    BitsInBytes(fw, m, j);
    BitsInBytes(fw, Raise(fw, m, port, k), j);
    SetBitBits(m.regs[port], k, BitIndex(RegisterBlock(fw, j).value, j));
  }

  // Reads answer with the stored byte, and the FADT is not reparsed.
  predicate Faithful(s: Step) {
    match s
    case ClaimStep(_, g1, g2) => g1.None? && g2.None?
    case ReleaseStep(_, g1, g2) => g1.None? && g2.None?
    case EnableStep(_, g) => g.None?
    case RaiseStep(_, _) => true
    case ReparseStep(_) => false
  }

  function Enabled(steps: seq<Step>): set<u32> {
    if steps == [] then {}
    else
      var s := steps[|steps| - 1];
      Enabled(steps[..|steps| - 1]) + if s.EnableStep? then {s.number} else {}
  }

  predicate Leased(m: Machine, n: u32)
    requires Shaped(m)
  {
    n < MAX_GPES && m.slots[n].claimed
  }

  // GPE n is wanted at run time: on before the run, or enabled during it.
  predicate Wanted(w: World, enabled: set<u32>, n: u32)
    requires Shaped(w.m) && Supported(w.fw, n)
  {
    EnableBit(w.fw, w.m, n) || n in enabled
  }

  // The enable bit of a GPE is on exactly when it is wanted or leased, and a
  // leased slot remembers whether it is wanted.
  ghost predicate Accurate(w: World, enabled: set<u32>, m: Machine, n: u32)
    requires Shaped(w.m) && Shaped(m) && Supported(w.fw, n)
  {
    && (EnableBit(w.fw, m, n) <==> Wanted(w, enabled, n) || Leased(m, n))
    && (Leased(m, n) ==> (m.slots[n].runtimeEnabled <==> Wanted(w, enabled, n)))
  }

  // What one step does to one GPE.
  lemma AccurateStep(w: World, enabled: set<u32>, m: Machine, s: Step, n: u32)
    requires PortsDisjoint(w.fw) && Shaped(w.m) && Linear(m) && Faithful(s)
    requires forall j :: Supported(w.fw, j) ==> Accurate(w, enabled, m, j)
    requires Supported(w.fw, n)
    ensures var m' := Act(World(w.fw, m), s).m;
            && Accurate(w, if s.EnableStep? then enabled + {s.number} else enabled, m', n)
            && (StatusBit(w.fw, m, n) && Wanted(w, enabled, n) ==> StatusBit(w.fw, m', n))
  {
    match s
    case ClaimStep(number, _, _) => ClaimAccurate(w, enabled, m, number, n);
    case ReleaseStep(i, _, _) =>
      if i < |m.leases| {
        ReleaseAccurate(w, enabled, m, i, n);
      }
    case EnableStep(number, _) => EnableAccurate(w, enabled, m, number, n);
    case RaiseStep(port, k) =>
      if k < 8 {
        RaiseKeepsEnables(w.fw, m, port, k, n);
      }
  }

  lemma EnableAccurate(w: World, enabled: set<u32>, m: Machine, number: u32, n: u32)
    requires PortsDisjoint(w.fw) && Shaped(w.m) && Shaped(m)
    requires Supported(w.fw, n) && Accurate(w, enabled, m, n)
    ensures var m' := EnableRuntime(w.fw, m, number, None);
            && Accurate(w, enabled + {number}, m', n)
            && (StatusBit(w.fw, m, n) ==> StatusBit(w.fw, m', n))
  {
    if Supported(w.fw, number) {
      var b := RegisterBlock(w.fw, number).value;
      var value := SetByteBit(m.regs[EnablePort(b, number)], BitIndex(b, number));
      OneBitDiffers(m.regs[EnablePort(b, number)], BitIndex(b, number));
      StoreEnable(w.fw, m, number, value, n);
      SameRegisters(w.fw, WritePort(w.fw, m, EnablePort(b, number), value), EnableRuntime(w.fw, m, number, None), n);
    }
  }

  lemma ClaimAccurate(w: World, enabled: set<u32>, m: Machine, number: u32, n: u32)
    requires PortsDisjoint(w.fw) && Shaped(w.m) && Shaped(m)
    requires Supported(w.fw, number) ==> Accurate(w, enabled, m, number)
    requires Supported(w.fw, n) && Accurate(w, enabled, m, n)
    ensures var m' := Claim(w.fw, m, number, None, None).0;
            && Accurate(w, enabled, m', n)
            && (StatusBit(w.fw, m, n) && Wanted(w, enabled, n) ==> StatusBit(w.fw, m', n))
  {
    var (m', error) := Claim(w.fw, m, number, None, None);
    if error.None? {
      var b := RegisterBlock(w.fw, number).value;
      BitsInBytes(w.fw, m, number);
      ClaimedRegisters(w.fw, m, number, n);
      SameRegisters(w.fw, ClaimRegisters(w.fw, m, number, b, None), m', n);
      assert m'.slots == m.slots[number := Slot(true, EnableBit(w.fw, m, number))];
    }
  }

  lemma ClaimedRegisters(fw: Firmware, m: Machine, number: u32, n: u32)
    requires PortsDisjoint(fw) && Shaped(m) && Supported(fw, number) && Supported(fw, n)
    ensures var m' := ClaimRegisters(fw, m, number, RegisterBlock(fw, number).value, None);
            && (EnableBit(fw, m', n) <==> n == number || EnableBit(fw, m, n))
            && (StatusBit(fw, m', n) <==> StatusBit(fw, m, n) && (n == number ==> EnableBit(fw, m, n)))
  {
    var b := RegisterBlock(fw, number).value;
    var k, port := BitIndex(b, number), EnablePort(b, number);
    var m1 := if Bit(m.regs[port], k) then m else WritePort(fw, m, StatusPort(b, number), ByteMask(k));
    AcknowledgeStatus(fw, m, number, n);
    PortsInBlock(b, number);
    assert m1.regs[port] == m.regs[port];
    OneBitDiffers(m.regs[port], k);
    BitsInBytes(fw, m, number);
    StoreEnable(fw, m1, number, SetByteBit(m.regs[port], k), n);
  }

  lemma ReleasedRegisters(fw: Firmware, m: Machine, number: u32, keep: bool, n: u32)
    requires PortsDisjoint(fw) && Shaped(m) && Supported(fw, number) && Supported(fw, n)
    ensures var m' := ReleaseRegisters(fw, m, number, RegisterBlock(fw, number).value, keep, None);
            && (EnableBit(fw, m', n) <==> if n == number then keep else EnableBit(fw, m, n))
            && (StatusBit(fw, m', n) <==> StatusBit(fw, m, n))
  {
    var b := RegisterBlock(fw, number).value;
    var k, port := BitIndex(b, number), EnablePort(b, number);
    OneBitDiffers(m.regs[port], k);
    StoreEnable(fw, m, number, if keep then SetByteBit(m.regs[port], k) else ClearBit(m.regs[port], k), n);
  }

  // A release on such registers reads back what it wrote.
  lemma ReleaseShape(fw: Firmware, m: Machine, i: nat)
    requires PortsDisjoint(fw) && Shaped(m) && i < |m.leases| && m.leases[i].active
    requires BlockOf(fw, m.leases[i].number) == Some(m.leases[i].block)
    requires m.slots[m.leases[i].number].claimed
    ensures var (m', error), number := Release(fw, m, i, None, None), m.leases[i].number;
            var keep := m.slots[number].runtimeEnabled;
            && error.None?
            && m'.slots == m.slots[number := Slot(false, keep)]
            && m'.regs == ReleaseRegisters(fw, m, number, m.leases[i].block, keep, None).regs
  {
    var number, b := m.leases[i].number, m.leases[i].block;
    PortKinds(fw, number);
    OneBitDiffers(m.regs[EnablePort(b, number)], BitIndex(b, number));
  }

  lemma ReleaseAccurate(w: World, enabled: set<u32>, m: Machine, i: nat, n: u32)
    requires PortsDisjoint(w.fw) && Shaped(w.m) && Linear(m) && i < |m.leases|
    requires Supported(w.fw, m.leases[i].number) ==> Accurate(w, enabled, m, m.leases[i].number)
    requires Supported(w.fw, n) && Accurate(w, enabled, m, n)
    ensures var m' := Release(w.fw, m, i, None, None).0;
            && Accurate(w, enabled, m', n)
            && (StatusBit(w.fw, m, n) ==> StatusBit(w.fw, m', n))
  {
    var lease, m' := m.leases[i], Release(w.fw, m, i, None, None).0;
    if lease.active && BlockOf(w.fw, lease.number) == Some(lease.block) {
      var keep := m.slots[lease.number].runtimeEnabled;
      ReleaseShape(w.fw, m, i);
      ReleasedRegisters(w.fw, m, lease.number, keep, n);
      SameRegisters(w.fw, ReleaseRegisters(w.fw, m, lease.number, lease.block, keep, None), m', n);
      assert Leased(m, lease.number);
    } else {
      assert m' == m;
    }
  }

  // Every run: each enable bit is on exactly when its GPE was on at the start,
  // was enabled at run time during the run, or is leased now.
  lemma {:induction false} EnableBitsAccurate(w: World, steps: seq<Step>)
    requires PortsDisjoint(w.fw) && Initial(w.m)
    requires forall i :: 0 <= i < |steps| ==> Faithful(steps[i])
    ensures Execute(w, steps).fw == w.fw
    ensures forall n :: Supported(w.fw, n) ==> Accurate(w, Enabled(steps), Execute(w, steps).m, n)
  {
    if steps != [] {
      var k := |steps| - 1;
      var before := Execute(w, steps[..k]);
      assert forall i :: 0 <= i < k ==> steps[..k][i] == steps[i];
      EnableBitsAccurate(w, steps[..k]);
      LeaseLinearity(w, steps[..k]);
      forall n | Supported(w.fw, n)
        ensures Accurate(w, Enabled(steps), Execute(w, steps).m, n)
      {
        AccurateStep(w, Enabled(steps[..k]), before.m, steps[k], n);
      }
    }
  }

  // No step of any run clears the pending status bit of a GPE that is wanted
  // at run time.
  lemma PendingStatusSurvives(w: World, steps: seq<Step>, n: u32)
    requires PortsDisjoint(w.fw) && Initial(w.m) && steps != []
    requires forall i :: 0 <= i < |steps| ==> Faithful(steps[i])
    requires Supported(w.fw, n) && Wanted(w, Enabled(steps[..|steps| - 1]), n)
    requires StatusBit(w.fw, Execute(w, steps[..|steps| - 1]).m, n)
    ensures StatusBit(w.fw, Execute(w, steps).m, n)
  {
    var k := |steps| - 1;
    assert forall i :: 0 <= i < k ==> steps[..k][i] == steps[i];
    EnableBitsAccurate(w, steps[..k]);
    LeaseLinearity(w, steps[..k]);
    AccurateStep(w, Enabled(steps[..k]), Execute(w, steps[..k]).m, steps[k], n);
  }

  lemma ClaimTakes(fw: Firmware, m: Machine, number: u32, b: Block)
    requires PortsDisjoint(fw) && Shaped(m) && RegisterBlock(fw, number) == Some(b)
    ensures Took(fw, m, number, b, None, None)
  {
    PortKinds(fw, number);
    OneBitDiffers(m.regs[EnablePort(b, number)], BitIndex(b, number));
  }

  // On such registers every successful claim arms its GPE, and a release of a
  // live lease always succeeds.
  lemma FaithfulLeasesSucceed(fw: Firmware, m: Machine, number: u32, i: nat)
    requires PortsDisjoint(fw) && Linear(m)
    ensures Claim(fw, m, number, None, None).1.None? ==> Armed(Claim(fw, m, number, None, None).0, number)
    ensures i < |m.leases| && (m.leases[i].active ==> BlockOf(fw, m.leases[i].number) == Some(m.leases[i].block)) ==>
              Release(fw, m, i, None, None).1.None?
  {
    if BlockOf(fw, number).Some? {
      ClaimTakes(fw, m, number, RegisterBlock(fw, number).value);
      ArmArmsOne(m, number, number);
    }
    if i < |m.leases| && m.leases[i].active && BlockOf(fw, m.leases[i].number) == Some(m.leases[i].block) {
      ReleaseShape(fw, m, i);
    }
  }
}
