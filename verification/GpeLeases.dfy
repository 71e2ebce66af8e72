// Wake leases on fixed GPEs as a state machine. Every locked operation is one
// step. A register read may be overridden by a glitch, so a run with arbitrary
// glitches is a run on hardware that answers anything.

module GpeLeases {
  import opened Words
  import opened Bits
  import opened GpeBlocks

  const MAX_GPES: nat := 128
  const PORTS: nat := 0x1_0000

  datatype Slot = Slot(claimed: bool, runtimeEnabled: bool)

  // A wake token. Its owner keeps it until a release succeeds.
  datatype Lease = Lease(number: u32, block: Block, active: bool, enabled: bool) {
    predicate ReportsEnabled() {
      active && enabled
    }
  }

  // `prepared` and `completed` count the calls of the claim and release hooks.
  datatype Machine = Machine(
    regs: seq<u8>,
    slots: seq<Slot>,
    armed: seq<u64>,
    leases: seq<Lease>,
    prepared: nat,
    completed: nat)

  predicate Shaped(m: Machine) {
    |m.regs| == PORTS && |m.slots| == MAX_GPES && |m.armed| == 2
  }

  datatype Error = Unsupported | Busy | Stale | Readback

  type Glitch = Option<u8>

  function ReadPort(m: Machine, port: u16, glitch: Glitch): u8
    requires Shaped(m)
  {
    if glitch.Some? then glitch.value else m.regs[port]
  }

  // Status bytes are write-1-to-clear; every other byte stores what is written.
  function WritePort(fw: Firmware, m: Machine, port: u16, value: u8): (m': Machine)
    requires Shaped(m)
    ensures Shaped(m')
  {
    AndNotShrinks(m.regs[port], value);
    m.(regs := m.regs[port := if IsStatusPort(fw, port) then AndNot(m.regs[port], value) else value])
  }

  function SetByteBit(x: u8, k: nat): u8
    requires k < 8
  {
    Widths();
    SetBit(x, k, 8)
  }

  function SetWordBit(x: u64, k: nat): u64
    requires k < 64
  {
    Widths();
    SetBit(x, k, 64)
  }

  // 1 << k, in a byte.
  function ByteMask(k: nat): u8
    requires k < 8
  {
    Widths();
    Pow2Increases(k, 8);
    Pow2(k)
  }

  predicate Armed(m: Machine, number: nat)
    requires Shaped(m)
  {
    number < MAX_GPES && Bit(m.armed[number / 64], number % 64)
  }

  function Arm(m: Machine, number: nat): (m': Machine)
    requires Shaped(m) && number < MAX_GPES
    ensures Shaped(m')
  {
    m.(armed := m.armed[number / 64 := SetWordBit(m.armed[number / 64], number % 64)])
  }

  function Disarm(m: Machine, number: nat): (m': Machine)
    requires Shaped(m) && number < MAX_GPES
    ensures Shaped(m')
  {
    m.(armed := m.armed[number / 64 := ClearBit(m.armed[number / 64], number % 64)])
  }

  lemma ArmArmsOne(m: Machine, number: nat, n: nat)
    requires Shaped(m) && number < MAX_GPES
    ensures Armed(Arm(m, number), n) <==> n == number || Armed(m, n)
    ensures Armed(Disarm(m, number), n) <==> n != number && Armed(m, n)
  {
    SetBitBits(m.armed[number / 64], number % 64, n % 64);
    ClearBitBits(m.armed[number / 64], number % 64, n % 64);
  }

  function BlockOf(fw: Firmware, number: u32): Option<Block> {
    if number < MAX_GPES then RegisterBlock(fw, number) else None
  }

  // The register part of a claim, after the slot is taken.
  function ClaimRegisters(fw: Firmware, m: Machine, number: u32, b: Block, g1: Glitch): (m': Machine)
    requires Shaped(m) && Covers(Some(b), number)
    ensures Shaped(m')
  {
    var k := BitIndex(b, number);
    var was := ReadPort(m, EnablePort(b, number), g1);
    var m1 := if Bit(was, k) then m else WritePort(fw, m, StatusPort(b, number), ByteMask(k));
    WritePort(fw, m1, EnablePort(b, number), SetByteBit(was, k))
  }

  // Whether the enable register, read back after a claim, shows the bit.
  predicate Took(fw: Firmware, m: Machine, number: u32, b: Block, g1: Glitch, g2: Glitch)
    requires Shaped(m) && Covers(Some(b), number)
  {
    Bit(ReadPort(ClaimRegisters(fw, m, number, b, g1), EnablePort(b, number), g2), BitIndex(b, number))
  }

  // A claim of a free slot. A failed readback keeps the lease but disarms it.
  function Take(fw: Firmware, m: Machine, number: u32, b: Block, g1: Glitch, g2: Glitch): (m': Machine)
    requires Shaped(m) && Covers(Some(b), number) && number < MAX_GPES
    ensures Shaped(m')
  {
    var slot := Slot(true, Bit(ReadPort(m, EnablePort(b, number), g1), BitIndex(b, number)));
    var m1 := SetSlot(ClaimRegisters(fw, m, number, b, g1), number, slot);
    var m2 := if Took(fw, m, number, b, g1, g2) then Arm(m1, number) else Disarm(Arm(m1, number), number);
    Issue(m2, Lease(number, b, true, Took(fw, m, number, b, g1, g2)))
  }

  function Claim(fw: Firmware, m: Machine, number: u32, g1: Glitch, g2: Glitch): (r: (Machine, Option<Error>))
    requires Shaped(m)
    ensures Shaped(r.0)
  {
    var b := BlockOf(fw, number);
    if b.None? then (m, Some(Unsupported))
    else if m.slots[number].claimed then (m, Some(Busy))
    else (Take(fw, m, number, b.value, g1, g2), None)
  }

  // The register part of a release: the runtime enable comes back.
  function ReleaseRegisters(fw: Firmware, m: Machine, number: u32, b: Block, keep: bool, g1: Glitch): (m': Machine)
    requires Shaped(m) && Covers(Some(b), number)
    ensures Shaped(m')
  {
    var k, port := BitIndex(b, number), EnablePort(b, number);
    var was := ReadPort(m, port, g1);
    WritePort(fw, m, port, if keep then SetByteBit(was, k) else ClearBit(was, k))
  }

  function SetSlot(m: Machine, number: nat, slot: Slot): (m': Machine)
    requires Shaped(m) && number < MAX_GPES
    ensures Shaped(m')
  {
    m.(slots := m.slots[number := slot])
  }

  // Handing out a lease goes with the prepare hook, retiring one with the
  // complete hook.
  function Issue(m: Machine, lease: Lease): (m': Machine)
    requires Shaped(m)
    ensures Shaped(m')
  {
    m.(leases := m.leases + [lease], prepared := m.prepared + 1)
  }

  function Retire(m: Machine, i: nat): (m': Machine)
    requires Shaped(m) && i < |m.leases|
    ensures Shaped(m')
  {
    m.(leases := m.leases[i := m.leases[i].(active := false, enabled := false)], completed := m.completed + 1)
  }

  // A release of a lease whose slot is held. A failed readback keeps the lease.
  function GiveBack(fw: Firmware, m: Machine, i: nat, b: Block, g1: Glitch, g2: Glitch): (r: (Machine, Option<Error>))
    requires Shaped(m) && i < |m.leases| && Covers(Some(b), m.leases[i].number) && m.leases[i].number < MAX_GPES
    ensures Shaped(r.0)
  {
    var number := m.leases[i].number;
    var keep := m.slots[number].runtimeEnabled;
    var m1 := ReleaseRegisters(fw, m, number, b, keep, g1);
    if Bit(ReadPort(m1, EnablePort(b, number), g2), BitIndex(b, number)) != keep then (m1, Some(Readback))
    else (Retire(Disarm(SetSlot(m1, number, Slot(false, keep)), number), i), None)
  }

  function Release(fw: Firmware, m: Machine, i: nat, g1: Glitch, g2: Glitch): (r: (Machine, Option<Error>))
    requires Shaped(m) && i < |m.leases|
    ensures Shaped(r.0)
  {
    var lease := m.leases[i];
    var b := BlockOf(fw, lease.number);
    if !lease.active then (m, None)
    else if b.None? || b.value != lease.block || !m.slots[lease.number].claimed then (m, Some(Stale))
    else GiveBack(fw, m, i, b.value, g1, g2)
  }

  function EnableRuntime(fw: Firmware, m: Machine, number: u32, g: Glitch): (m': Machine)
    requires Shaped(m)
    ensures Shaped(m')
  {
    var b := RegisterBlock(fw, number);
    if b.None? then m
    else
      var m1 :=
        if number < MAX_GPES then m.(slots := m.slots[number := m.slots[number].(runtimeEnabled := true)]) else m;
      var port := EnablePort(b.value, number);
      WritePort(fw, m1, port, SetByteBit(ReadPort(m, port, g), BitIndex(b.value, number)))
  }

  // Hardware raising one status bit.
  function Raise(fw: Firmware, m: Machine, port: u16, k: nat): (m': Machine)
    requires Shaped(m) && k < 8
    ensures Shaped(m')
  {
    if IsStatusPort(fw, port) then m.(regs := m.regs[port := SetByteBit(m.regs[port], k)]) else m
  }

  datatype Step =
    | ClaimStep(number: u32, g1: Glitch, g2: Glitch)
    | ReleaseStep(lease: nat, g1: Glitch, g2: Glitch)
    | EnableStep(number: u32, g: Glitch)
    | RaiseStep(port: u16, k: nat)
    | ReparseStep(fw: Firmware)

  datatype World = World(fw: Firmware, m: Machine)

  function Act(w: World, s: Step): (w': World)
    requires Shaped(w.m)
    ensures Shaped(w'.m)
  {
    match s
    case ClaimStep(number, g1, g2) => w.(m := Claim(w.fw, w.m, number, g1, g2).0)
    case ReleaseStep(i, g1, g2) => if i < |w.m.leases| then w.(m := Release(w.fw, w.m, i, g1, g2).0) else w
    case EnableStep(number, g) => w.(m := EnableRuntime(w.fw, w.m, number, g))
    case RaiseStep(port, k) => if k < 8 then w.(m := Raise(w.fw, w.m, port, k)) else w
    case ReparseStep(fw) => w.(fw := fw)
  }

  function Execute(w: World, steps: seq<Step>): (w': World)
    requires Shaped(w.m)
    ensures Shaped(w'.m)
  {
    if steps == [] then w else Act(Execute(w, steps[..|steps| - 1]), steps[|steps| - 1])
  }

  // Nothing claimed, armed or leased yet; the registers hold anything.
  ghost predicate Initial(m: Machine) {
    && Shaped(m)
    && (forall n :: 0 <= n < MAX_GPES ==> m.slots[n] == Slot(false, false))
    && m.armed == [0, 0] && m.leases == [] && m.prepared == 0 && m.completed == 0
  }

  // ---------------------------------------------------------------------
  // Lease linearity, whatever the hardware answers
  // ---------------------------------------------------------------------

  function Live(leases: seq<Lease>): nat {
    if leases == [] then 0
    else Live(leases[..|leases| - 1]) + FromBit(leases[|leases| - 1].active)
  }

  lemma {:induction false} LiveAfterRelease(leases: seq<Lease>, i: nat, retired: Lease)
    requires i < |leases| && leases[i].active && !retired.active
    ensures Live(leases[i := retired]) == Live(leases) - 1
  {
    var n := |leases| - 1;
    var next := leases[i := retired];
    if i == n {
      assert next[..n] == leases[..n];
    } else {
      assert next[..n] == leases[..n][i := retired];
      LiveAfterRelease(leases[..n], i, retired);
    }
  }

  // Every claimed slot has exactly one unreleased lease, a GPE is armed exactly
  // when that lease reports enabled, and the hooks balance.
  ghost predicate Linear(m: Machine) {
    && Shaped(m)
    && (forall i :: 0 <= i < |m.leases| && m.leases[i].active ==>
          && m.leases[i].number < MAX_GPES && m.slots[m.leases[i].number].claimed
          && (Armed(m, m.leases[i].number) <==> m.leases[i].ReportsEnabled()))
    && (forall i, j :: 0 <= i < j < |m.leases| && m.leases[i].active && m.leases[j].active ==>
          m.leases[i].number != m.leases[j].number)
    && (forall n :: 0 <= n < MAX_GPES && m.slots[n].claimed ==> HasLease(m, n))
    && (forall n :: 0 <= n < MAX_GPES && !m.slots[n].claimed ==> !Armed(m, n))
    && m.prepared == m.completed + Live(m.leases)
  }

  ghost predicate HasLease(m: Machine, n: nat) {
    exists i :: 0 <= i < |m.leases| && m.leases[i].active && m.leases[i].number == n
  }

  lemma LeasesAfterClaim(m: Machine, m': Machine, lease: Lease)
    requires Linear(m) && Shaped(m') && lease.active && lease.number < MAX_GPES
    requires !m.slots[lease.number].claimed
    requires m'.leases == m.leases + [lease]
    requires exists slot: Slot :: slot.claimed && m'.slots == m.slots[lease.number := slot]
    requires forall n: nat ::
               Armed(m', n) <==> (n == lease.number && lease.enabled) || (n != lease.number && Armed(m, n))
    requires m'.prepared == m.prepared + 1 && m'.completed == m.completed
    ensures Linear(m')
  {
    assert m'.leases[..|m.leases|] == m.leases;
    forall n | 0 <= n < MAX_GPES && m'.slots[n].claimed
      ensures HasLease(m', n)
    {
      if n == lease.number {
        assert m'.leases[|m.leases|].number == n;
      } else {
        var i :| 0 <= i < |m.leases| && m.leases[i].active && m.leases[i].number == n;
        assert m'.leases[i] == m.leases[i];
      }
    }
  }

  lemma TakeShape(fw: Firmware, m: Machine, number: u32, b: Block, g1: Glitch, g2: Glitch)
    requires Shaped(m) && Covers(Some(b), number) && number < MAX_GPES
    ensures var m' := Take(fw, m, number, b, g1, g2);
            && m'.leases == m.leases + [Lease(number, b, true, Took(fw, m, number, b, g1, g2))]
            && (exists slot: Slot :: slot.claimed && m'.slots == m.slots[number := slot])
            && m'.armed ==
               (if Took(fw, m, number, b, g1, g2) then Arm(m, number) else Disarm(Arm(m, number), number)).armed
            && m'.prepared == m.prepared + 1 && m'.completed == m.completed
  {
    var slot := Slot(true, Bit(ReadPort(m, EnablePort(b, number), g1), BitIndex(b, number)));
    assert Take(fw, m, number, b, g1, g2).slots == m.slots[number := slot];
  }

  lemma ClaimKeepsLinear(fw: Firmware, m: Machine, number: u32, g1: Glitch, g2: Glitch)
    requires Linear(m)
    ensures Linear(Claim(fw, m, number, g1, g2).0)
  {
    var (m', error) := Claim(fw, m, number, g1, g2);
    if error.None? {
      var b := RegisterBlock(fw, number).value;
      var lease := Lease(number, b, true, Took(fw, m, number, b, g1, g2));
      TakeShape(fw, m, number, b, g1, g2);
      forall n: nat
        ensures Armed(m', n) <==> (n == number && lease.enabled) || (n != number && Armed(m, n))
      {
        ArmArmsOne(m, number, n);
        ArmArmsOne(Arm(m, number), number, n);
      }
      LeasesAfterClaim(m, m', lease);
    }
  }

  lemma LeasesAfterRelease(m: Machine, m': Machine, i: nat, retired: Lease)
    requires Linear(m) && Shaped(m') && i < |m.leases| && m.leases[i].active && !retired.active
    requires m'.leases == m.leases[i := retired]
    requires exists slot: Slot :: !slot.claimed && m'.slots == m.slots[m.leases[i].number := slot]
    requires forall n: nat :: Armed(m', n) <==> n != m.leases[i].number && Armed(m, n)
    requires m'.prepared == m.prepared && m'.completed == m.completed + 1
    ensures Linear(m')
  {
    LiveAfterRelease(m.leases, i, retired);
    forall n | 0 <= n < MAX_GPES && m'.slots[n].claimed
      ensures HasLease(m', n)
    {
      var j :| 0 <= j < |m.leases| && m.leases[j].active && m.leases[j].number == n;
      assert m'.leases[j] == m.leases[j];
    }
  }

  lemma ReleaseKeepsLinear(fw: Firmware, m: Machine, i: nat, g1: Glitch, g2: Glitch)
    requires Linear(m) && i < |m.leases|
    ensures Linear(Release(fw, m, i, g1, g2).0)
  {
    var (m', error) := Release(fw, m, i, g1, g2);
    if error.None? && m.leases[i].active {
      var number := m.leases[i].number;
      var slot := m'.slots[number];
      assert m'.slots == m.slots[number := slot];
      assert m'.armed == Disarm(m, number).armed;
      forall n: nat
        ensures Armed(m', n) <==> n != number && Armed(m, n)
      {
        ArmArmsOne(m, number, n);
      }
      LeasesAfterRelease(m, m', i, m'.leases[i]);
    } else {
      RegistersOnly(m, m');
    }
  }

  // Linearity does not depend on registers or on remembered runtime enables.
  lemma RegistersOnly(m: Machine, m': Machine)
    requires Linear(m) && Shaped(m')
    requires m'.armed == m.armed && m'.leases == m.leases
    requires m'.prepared == m.prepared && m'.completed == m.completed
    requires forall n :: 0 <= n < MAX_GPES ==> m'.slots[n].claimed == m.slots[n].claimed
    ensures Linear(m')
  {
    forall n | 0 <= n < MAX_GPES && m'.slots[n].claimed
      ensures HasLease(m', n)
    {
      assert HasLease(m, n);
    }
  }

  lemma {:induction false} LeaseLinearity(w: World, steps: seq<Step>)
    requires Initial(w.m)
    ensures Linear(Execute(w, steps).m)
  {
    if steps == [] {
      BitOfZeroWord(w.m);
    } else {
      var before, s := Execute(w, steps[..|steps| - 1]), steps[|steps| - 1];
      LeaseLinearity(w, steps[..|steps| - 1]);
      match s
      case ClaimStep(number, g1, g2) => ClaimKeepsLinear(before.fw, before.m, number, g1, g2);
      case ReleaseStep(i, g1, g2) =>
        if i < |before.m.leases| {
          ReleaseKeepsLinear(before.fw, before.m, i, g1, g2);
        }
      case _ => RegistersOnly(before.m, Act(before, s).m);
    }
  }

  lemma BitOfZeroWord(m: Machine)
    requires Initial(m)
    ensures forall n: nat :: !Armed(m, n)
  {
    forall k: nat
      ensures !Bit(0, k)
    {
      BitOfZero(k);
    }
  }

  // In a linear state a claim of a supported GPE is refused exactly when an
  // unreleased lease holds it, and a refused claim changes nothing.
  lemma ClaimRefusedIffLeased(fw: Firmware, m: Machine, number: u32, g1: Glitch, g2: Glitch)
    requires Linear(m) && BlockOf(fw, number).Some?
    ensures Claim(fw, m, number, g1, g2).1 == (if HasLease(m, number) then Some(Busy) else None)
    ensures Claim(fw, m, number, g1, g2).1.Some? ==> Claim(fw, m, number, g1, g2).0 == m
  {
  }
}
