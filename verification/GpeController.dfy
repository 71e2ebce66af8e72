// The lock-protected lease controller: slot table, armed words and register
// bytes updated in place, and the token objects their owners keep. Each
// operation is tied to the step of the same name.

module GpeController {
  import opened Words
  import opened Bits
  import opened GpeBlocks
  import opened GpeLeases
  import Spec = GpeLeases

  class WakeGpe {
    const number: u32
    const block: Block
    var active: bool
    var enabled: bool

    constructor (number: u32, block: Block, enabled: bool)
      ensures this.number == number && this.block == block && active && this.enabled == enabled
    {
      this.number, this.block, this.active, this.enabled := number, block, true, enabled;
    }
  }

  class Controller {
    const fw: Firmware
    const regs: array<u8>
    const slots: array<Slot>
    const armed: array<u64>
    ghost var issued: seq<WakeGpe>
    ghost var leases: seq<Lease>
    ghost var prepared: nat
    ghost var completed: nat

    // The lease records mirror the tokens handed out, in order.
    ghost predicate Valid()
      reads this, regs, slots, armed, issued
    {
      && regs.Length == PORTS && slots.Length == MAX_GPES && armed.Length == 2
      && |leases| == |issued|
      && (forall i, j :: 0 <= i < j < |issued| ==> issued[i] != issued[j])
      && (forall i :: 0 <= i < |issued| ==>
            leases[i] == Lease(issued[i].number, issued[i].block, issued[i].active, issued[i].enabled))
    }

    ghost function View(): (m: Machine)
      requires Valid()
      reads this, regs, slots, armed, issued
      ensures Shaped(m)
    {
      Machine(regs[..], slots[..], armed[..], leases, prepared, completed)
    }

    constructor (fw: Firmware, initial: seq<u8>)
      requires |initial| == PORTS
      ensures Valid() && Initial(View()) && View().regs == initial && this.fw == fw
      ensures fresh(regs) && fresh(slots) && fresh(armed)
    {
      this.fw := fw;
      regs := new u8[PORTS](i requires 0 <= i < PORTS => initial[i]);
      slots := new Slot[MAX_GPES](_ => Slot(false, false));
      armed := new u64[2](_ => 0);
      issued, leases, prepared, completed := [], [], 0, 0;
      new;
      assert regs[..] == initial;
      assert armed[..] == [0, 0];
    }

    method ReadPort(port: u16, glitch: Glitch) returns (value: u8)
      requires Valid()
      ensures value == Spec.ReadPort(View(), port, glitch)
    {
      value := if glitch.Some? then glitch.value else regs[port];
    }

    method WritePort(port: u16, value: u8)
      requires Valid()
      modifies regs
      ensures Valid() && View() == Spec.WritePort(fw, old(View()), port, value)
    {
      AndNotShrinks(regs[port], value);
      regs[port] := if IsStatusPort(fw, port) then AndNot(regs[port], value) else value;
    }

    method Arm(number: nat)
      requires Valid() && number < MAX_GPES
      modifies armed
      ensures Valid() && View() == Spec.Arm(old(View()), number)
    {
      armed[number / 64] := SetWordBit(armed[number / 64], number % 64);
    }

    method Disarm(number: nat)
      requires Valid() && number < MAX_GPES
      modifies armed
      ensures Valid() && View() == Spec.Disarm(old(View()), number)
    {
      armed[number / 64] := ClearBit(armed[number / 64], number % 64);
    }

    // Preserve a pending shared status; clear a stale one; set the enable bit.
    method ClaimRegisters(number: u32, b: Block, g1: Glitch) returns (was: u8)
      requires Valid() && Covers(Some(b), number)
      modifies regs
      ensures Valid() && View() == Spec.ClaimRegisters(fw, old(View()), number, b, g1)
      ensures was == Spec.ReadPort(old(View()), EnablePort(b, number), g1)
    {
      var port, k := EnablePort(b, number), BitIndex(b, number);
      was := ReadPort(port, g1);
      if !Bit(was, k) {
        WritePort(StatusPort(b, number), ByteMask(k));
      }
      WritePort(port, SetByteBit(was, k));
    }

    method Claim(number: u32, g1: Glitch, g2: Glitch) returns (token: WakeGpe?, error: Option<Error>)
      requires Valid()
      modifies this, regs, slots, armed
      ensures Valid()
      ensures (View(), error) == Spec.Claim(fw, old(View()), number, g1, g2)
      ensures error.None? ==> token != null && fresh(token) && issued == old(issued) + [token]
      ensures error.Some? ==> issued == old(issued)
    {
      var b := None;
      if number < MAX_GPES {
        b := FindRegisterBlock(fw, number);
      }
      if b.None? {
        return null, Some(Unsupported);
      }
      if slots[number].claimed {
        return null, Some(Busy);
      }
      token := Take(number, b.value, g1, g2);
      error := None;
    }

    method ReleaseRegisters(number: u32, b: Block, keep: bool, g1: Glitch)
      requires Valid() && Covers(Some(b), number)
      modifies regs
      ensures Valid() && View() == Spec.ReleaseRegisters(fw, old(View()), number, b, keep, g1)
    {
      var port, k := EnablePort(b, number), BitIndex(b, number);
      var was := ReadPort(port, g1);
      WritePort(port, if keep then SetByteBit(was, k) else ClearBit(was, k));
    }

    method SetSlot(number: nat, slot: Slot)
      requires Valid() && number < MAX_GPES
      modifies slots
      ensures Valid() && View() == Spec.SetSlot(old(View()), number, slot)
    {
      slots[number] := slot;
    }

    method Issue(number: u32, b: Block, enabled: bool) returns (token: WakeGpe)
      requires Valid()
      modifies this`issued, this`leases, this`prepared
      ensures Valid() && fresh(token) && issued == old(issued) + [token]
      ensures View() == Spec.Issue(old(View()), Lease(number, b, true, enabled))
    {
      token := new WakeGpe(number, b, enabled);
      issued, leases := issued + [token], leases + [Lease(number, b, true, enabled)];
      prepared := prepared + 1;
    }

    method Retire(token: WakeGpe)
      requires Valid() && token in issued
      modifies this`leases, this`completed, token
      ensures Valid() && View() == Spec.Retire(old(View()), IndexOf(token))
    {
      ghost var i := IndexOf(token);
      token.active, token.enabled := false, false;
      leases := leases[i := leases[i].(active := false, enabled := false)];
      completed := completed + 1;
    }

    method Take(number: u32, b: Block, g1: Glitch, g2: Glitch) returns (token: WakeGpe)
      requires Valid() && Covers(Some(b), number) && number < MAX_GPES
      modifies this, regs, slots, armed
      ensures Valid() && fresh(token) && issued == old(issued) + [token]
      ensures View() == Spec.Take(fw, old(View()), number, b, g1, g2)
    {
      var k, port := BitIndex(b, number), EnablePort(b, number);
      var was := ClaimRegisters(number, b, g1);
      var back := ReadPort(port, g2);
      SetSlot(number, Slot(true, Bit(was, k)));
      Arm(number);
      if !Bit(back, k) {
        Disarm(number);
      }
      token := Issue(number, b, Bit(back, k));
    }

    ghost function IndexOf(token: WakeGpe): (i: nat)
      reads this
      requires token in issued
      ensures i < |issued| && issued[i] == token
    {
      var i :| 0 <= i < |issued| && issued[i] == token;
      i
    }

    method GiveBack(token: WakeGpe, b: Block, g1: Glitch, g2: Glitch) returns (error: Option<Error>)
      requires Valid() && token in issued && Covers(Some(b), token.number) && token.number < MAX_GPES
      modifies this, regs, slots, armed, token
      ensures Valid() && issued == old(issued)
      ensures (View(), error) == Spec.GiveBack(fw, old(View()), old(IndexOf(token)), b, g1, g2)
    {
      var port, k := EnablePort(b, token.number), BitIndex(b, token.number);
      var keep := slots[token.number].runtimeEnabled;
      ReleaseRegisters(token.number, b, keep, g1);
      var back := ReadPort(port, g2);
      if Bit(back, k) != keep {
        return Some(Readback);
      }
      SetSlot(token.number, Slot(false, keep));
      Disarm(token.number);
      Retire(token);
      return None;
    }

    method Release(token: WakeGpe, g1: Glitch, g2: Glitch) returns (error: Option<Error>)
      requires Valid() && token in issued
      modifies this, regs, slots, armed, token
      ensures Valid() && issued == old(issued)
      ensures (View(), error) == Spec.Release(fw, old(View()), old(IndexOf(token)), g1, g2)
    {
      if !token.active {
        return None;
      }
      var b := None;
      if token.number < MAX_GPES {
        b := FindRegisterBlock(fw, token.number);
      }
      if b.None? || b.value != token.block || !slots[token.number].claimed {
        return Some(Stale);
      }
      error := GiveBack(token, b.value, g1, g2);
    }

    method EnableRuntime(number: u32, g: Glitch)
      requires Valid()
      modifies regs, slots
      ensures Valid() && View() == Spec.EnableRuntime(fw, old(View()), number, g)
    {
      var b := FindRegisterBlock(fw, number);
      if b.None? {
        return;
      }
      if number < MAX_GPES {
        slots[number] := slots[number].(runtimeEnabled := true);
      }
      var port := EnablePort(b.value, number);
      var was := ReadPort(port, g);
      WritePort(port, SetByteBit(was, BitIndex(b.value, number)));
    }

    // Whether any recorded GPE bit is armed: one intersection per word.
    method AnyArmed(bits: seq<u64>) returns (any: bool)
      requires Valid() && |bits| == 2
      ensures any <==> exists n: nat :: Armed(View(), n) && Bit(bits[n / 64], n % 64)
    {
      any := And(armed[0], bits[0]) != 0 || And(armed[1], bits[1]) != 0;
      CommonBit(armed[0], bits[0]);
      CommonBit(armed[1], bits[1]);
      ghost var m := View();
      if any {
        ghost var i := if And(armed[0], bits[0]) != 0 then 0 else 1;
        ghost var k: nat :| k < 64 && Bit(armed[i], k) && Bit(bits[i], k);
        ghost var n: nat := 64 * i + k;
        assert n / 64 == i && n % 64 == k;
        assert Armed(m, n) && Bit(bits[n / 64], n % 64);
      }
    }
  }

  // Two words intersect exactly when they share a bit.
  lemma CommonBit(x: u64, y: u64)
    ensures And(x, y) != 0 <==> exists k: nat :: k < 64 && Bit(x, k) && Bit(y, k)
  {
    if And(x, y) != 0 {
      var k := SomeBit(And(x, y));
      BitOfAnd(x, y, k);
      if k >= 64 {
        Widths();
        HighBitsClear(x, 64, k);
      }
    } else {
      forall k: nat
        ensures !(Bit(x, k) && Bit(y, k))
      {
        BitOfAnd(x, y, k);
        BitOfZero(k);
      }
    }
  }
}
