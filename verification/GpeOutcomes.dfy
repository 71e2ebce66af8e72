// What each GPE operation answers and which bytes it leaves, on registers that
// answer anything, in terms of the declared blocks.

module GpeOutcomes {
  import opened Words
  import opened Bits
  import opened GpeBlocks
  import opened GpeLeases

  // A declared block has the event: byte-wide I/O ports from a nonzero port up
  // to the last, half of them status bytes, and eight events per status byte.
  predicate Serves(b: Option<Block>, n: u32) {
    && b.Some?
    && b.value.addressSpace == 1 && b.value.bitOffset == 0 && b.value.accessSize in {0, 1}
    && b.value.byteCount >= 2 && b.value.byteCount % 2 == 0
    && 1 <= b.value.address <= 0xFFFF - (b.value.byteCount - 1)
    && b.value.baseGsi <= n && (n - b.value.baseGsi) / 8 < b.value.byteCount / 2
  }

  lemma CoversIffServes(b: Option<Block>, n: u32)
    ensures Covers(b, n) <==> Serves(b, n)
  {
    if b.Some? {
      var half := b.value.byteCount / 2;
      assert b.value.byteCount % 2 == 0 ==> b.value.byteCount * 4 == 8 * half;
    }
  }

  // A block is used for the events it alone has.
  lemma BlockIsTheOne(fw: Firmware, n: u32, b: Block)
    ensures RegisterBlock(fw, n) == Some(b) <==>
              || (fw.gpe0 == Some(b) && Serves(fw.gpe0, n) && !Serves(fw.gpe1, n))
              || (fw.gpe1 == Some(b) && Serves(fw.gpe1, n) && !Serves(fw.gpe0, n))
    ensures RegisterBlock(fw, n) == None <==> (Serves(fw.gpe0, n) <==> Serves(fw.gpe1, n))
  {
    CoversIffServes(fw.gpe0, n);
    CoversIffServes(fw.gpe1, n);
  }

  // What a claim answers.
  lemma ClaimAnswers(fw: Firmware, m: Machine, n: u32, g1: Glitch, g2: Glitch)
    requires Shaped(m)
    ensures var error := Claim(fw, m, n, g1, g2).1;
            var unsupported := n >= 128 || (Serves(fw.gpe0, n) <==> Serves(fw.gpe1, n));
            && (error == Some(Unsupported) <==> unsupported)
            && (error == Some(Busy) <==> !unsupported && m.slots[n].claimed)
            && (error == None <==> !unsupported && !m.slots[n].claimed)
  {
    CoversIffServes(fw.gpe0, n);
    CoversIffServes(fw.gpe1, n);
  }

  // x with the bit of weight p, a power of two, on or off.
  function With(x: nat, p: nat): nat
    requires p > 0
  {
    if (x / p) % 2 == 1 then x else x + p
  }

  function Without(x: nat, p: nat): int
    requires p > 0
  {
    if (x / p) % 2 == 1 then x - p else x
  }

  lemma ByteWith(x: u8, k: nat)
    requires k < 8
    ensures SetByteBit(x, k) == With(x, Pow2(k))
    ensures AndNot(x, ByteMask(k)) == ClearBit(x, k) == Without(x, Pow2(k))
  {
    BitIsParity(x, k);
    SetBitIsSum(x, k);
    ClearBitIsDifference(x, k);
  }

  lemma ClaimedBytes(fw: Firmware, m: Machine, b: Block, n: u32, g1: Glitch)
    requires PortsDisjoint(fw) && Shaped(m) && RegisterBlock(fw, n) == Some(b)
    ensures var s, e, p := StatusPort(b, n), EnablePort(b, n), Pow2(BitIndex(b, n));
            var was := ReadPort(m, e, g1);
            var regs := ClaimRegisters(fw, m, n, b, g1).regs;
            && regs[e] == With(was, p)
            && regs[s] == (if (was / p) % 2 == 1 then m.regs[s] else Without(m.regs[s], p))
            && forall q :: 0 <= q < PORTS && q != s && q != e ==> regs[q] == m.regs[q]
  {
    var k, was := BitIndex(b, n), ReadPort(m, EnablePort(b, n), g1);
    PortKinds(fw, n);
    BitIsParity(was, k);
    ByteWith(was, k);
    ByteWith(m.regs[StatusPort(b, n)], k);
  }

  // A claim sets its bit in the enable byte, in whatever it read there. It
  // clears its status bit unless the enable bit was on already.
  lemma ClaimLeaves(fw: Firmware, m: Machine, b: Block, n: u32, g1: Glitch, g2: Glitch)
    requires PortsDisjoint(fw) && Shaped(m) && n < 128 && RegisterBlock(fw, n) == Some(b) && !m.slots[n].claimed
    ensures var d := n - b.baseGsi;
            var s, e, p := b.address + d / 8, b.address + b.byteCount / 2 + d / 8, Pow2(d % 8);
            var was := if g1.Some? then g1.value else m.regs[e];
            var regs := Claim(fw, m, n, g1, g2).0.regs;
            && regs[e] == With(was, p)
            && regs[s] == (if (was / p) % 2 == 1 then m.regs[s] else Without(m.regs[s], p))
            && forall q :: 0 <= q < PORTS && q != s && q != e ==> regs[q] == m.regs[q]
  {
    PortsInBlock(b, n);
    ClaimedBytes(fw, m, b, n, g1);
    assert Claim(fw, m, n, g1, g2).0.regs == ClaimRegisters(fw, m, n, b, g1).regs;
  }

  lemma ReleasedByte(fw: Firmware, m: Machine, b: Block, n: u32, keep: bool, g1: Glitch)
    requires PortsDisjoint(fw) && Shaped(m) && RegisterBlock(fw, n) == Some(b)
    ensures var e, p := EnablePort(b, n), Pow2(BitIndex(b, n));
            var was := ReadPort(m, e, g1);
            var regs := ReleaseRegisters(fw, m, n, b, keep, g1).regs;
            && regs[e] == (if keep then With(was, p) else Without(was, p))
            && forall q :: 0 <= q < PORTS && q != e ==> regs[q] == m.regs[q]
  {
    PortKinds(fw, n);
    ByteWith(ReadPort(m, EnablePort(b, n), g1), BitIndex(b, n));
  }

  // A release of a held lease puts the remembered run-time enable back.
  lemma ReleaseLeaves(fw: Firmware, m: Machine, i: nat, g1: Glitch, g2: Glitch)
    requires PortsDisjoint(fw) && Shaped(m) && i < |m.leases| && m.leases[i].active && m.leases[i].number < 128
    requires RegisterBlock(fw, m.leases[i].number) == Some(m.leases[i].block) && m.slots[m.leases[i].number].claimed
    ensures var n, b := m.leases[i].number, m.leases[i].block;
            var d := n - b.baseGsi;
            var e, p := b.address + b.byteCount / 2 + d / 8, Pow2(d % 8);
            var was := if g1.Some? then g1.value else m.regs[e];
            var regs := Release(fw, m, i, g1, g2).0.regs;
            && regs[e] == (if m.slots[n].runtimeEnabled then With(was, p) else Without(was, p))
            && forall q :: 0 <= q < PORTS && q != e ==> regs[q] == m.regs[q]
  {
    var n, b := m.leases[i].number, m.leases[i].block;
    PortsInBlock(b, n);
    ReleasedByte(fw, m, b, n, m.slots[n].runtimeEnabled, g1);
    assert Release(fw, m, i, g1, g2).0.regs ==
             ReleaseRegisters(fw, m, n, b, m.slots[n].runtimeEnabled, g1).regs;
  }

  // A run-time enable sets its bit in the enable byte, for any GPE number.
  lemma EnableLeaves(fw: Firmware, m: Machine, b: Block, n: u32, g: Glitch)
    requires PortsDisjoint(fw) && Shaped(m) && RegisterBlock(fw, n) == Some(b)
    ensures var d := n - b.baseGsi;
            var e, p := b.address + b.byteCount / 2 + d / 8, Pow2(d % 8);
            var was := if g.Some? then g.value else m.regs[e];
            var regs := EnableRuntime(fw, m, n, g).regs;
            && regs[e] == With(was, p)
            && forall q :: 0 <= q < PORTS && q != e ==> regs[q] == m.regs[q]
  {
    PortsInBlock(b, n);
    PortKinds(fw, n);
    ByteWith(ReadPort(m, EnablePort(b, n), g), BitIndex(b, n));
  }

  // The lease is live and still describes a claimed event of its block.
  predicate Held(fw: Firmware, m: Machine, i: nat)
    requires Shaped(m) && i < |m.leases|
  {
    var lease := m.leases[i];
    lease.active && lease.number < 128 && RegisterBlock(fw, lease.number) == Some(lease.block)
    && m.slots[lease.number].claimed
  }

  // What a release answers. A released lease succeeds again without effect.
  lemma ReleaseAnswers(fw: Firmware, m: Machine, i: nat, g1: Glitch, g2: Glitch)
    requires Shaped(m) && i < |m.leases|
    ensures var (m', error) := Release(fw, m, i, g1, g2);
            && (error == Some(Stale) <==> m.leases[i].active && !Held(fw, m, i))
            && (error == Some(Readback) <==> Held(fw, m, i) && !ReadsBack(fw, m, i, g1, g2))
            && (error == None <==> !m.leases[i].active || (Held(fw, m, i) && ReadsBack(fw, m, i, g1, g2)))
            && (!Held(fw, m, i) ==> m' == m)
  {
    if Held(fw, m, i) {
      PortsInBlock(m.leases[i].block, m.leases[i].number);
      BitIsParity(Back(fw, m, i, g1, g2), BitIndex(m.leases[i].block, m.leases[i].number));
    }
  }

  // The enable byte read back, and whether its bit is the remembered one.
  function Back(fw: Firmware, m: Machine, i: nat, g1: Glitch, g2: Glitch): u8
    requires Shaped(m) && i < |m.leases| && Held(fw, m, i)
  {
    var n, b := m.leases[i].number, m.leases[i].block;
    if g2.Some? then g2.value
    else Release(fw, m, i, g1, g2).0.regs[b.address + b.byteCount / 2 + (n - b.baseGsi) / 8]
  }

  predicate ReadsBack(fw: Firmware, m: Machine, i: nat, g1: Glitch, g2: Glitch)
    requires Shaped(m) && i < |m.leases| && Held(fw, m, i)
  {
    var n, b := m.leases[i].number, m.leases[i].block;
    (Back(fw, m, i, g1, g2) / Pow2((n - b.baseGsi) % 8)) % 2 == FromBit(m.slots[n].runtimeEnabled)
  }
}
