// Redirection entries of an I/O APIC (section 3.2.4 of the Intel 82093AA
// datasheet): the two register words of an entry and the route they stand for.

module IoApicRoutes {
  import opened Words
  import opened Bits

  const MASK_BIT: nat := 16
  const MASKED: nat := 0x1_0000
  const FLAG_BITS: nat := 0x1_F000

  // A route: vector, destination, every other low-word bit but the mask, mask.
  datatype Route = Route(vector: nat, destination: nat, mode: nat, masked: bool)

  // The vector and mask of a low word, the destination of a high word: bits 0 to
  // 7 and 16, and 24 to 31.
  function VectorOf(low: nat): nat {
    low % 0x100
  }

  predicate MaskOf(low: nat) {
    low / MASKED % 2 == 1
  }

  function DestinationOf(high: nat): nat {
    high / 0x100_0000 % 0x100
  }

  // The low-word bits that are neither vector nor mask.
  function Mode(low: nat): nat {
    AndNot(low, MASKED + 0xFF)
  }

  function RouteOf(low: nat, high: nat): Route {
    Route(VectorOf(low), DestinationOf(high), Mode(low), MaskOf(low))
  }

  // The low word of a route.
  function LowWord(r: Route): nat {
    Or(Or(r.vector, r.mode), if r.masked then MASKED else 0)
  }

  // What programming an entry writes: polarity, trigger and mask come from the
  // flags (bits 12 to 16), delivery and destination modes are zero.
  function ProgrammedLow(vector: u8, flags: u32): nat {
    Or(Or(vector, And(flags, FLAG_BITS)), And(flags, MASKED))
  }

  function ProgrammedHigh(destination: u8): nat {
    destination * 0x100_0000
  }

  function Programmed(vector: u8, destination: u8, flags: u32): Route {
    Route(vector, destination, And(flags, 0xF000), MaskOf(flags))
  }

  function MaskedLow(low: nat, masked: bool): nat {
    if masked then Or(low, MASKED) else AndNot(low, MASKED)
  }

  lemma {:induction false} MaskedIsPow2()
    ensures MASKED == Pow2(MASK_BIT)
  {
    Pow2Plus8(8);
    Widths();
  }

  lemma BitOfMasked(k: nat)
    ensures Bit(MASKED, k) <==> k == MASK_BIT
  {
    MaskedIsPow2();
    BitOfPow2(MASK_BIT, k);
  }

  lemma VectorIsLow(low: nat)
    ensures VectorOf(low) == Low(low, 8)
  {
    Widths();
    LowIsMod(low, 8);
  }

  lemma MaskIsBit(low: nat)
    ensures MaskOf(low) <==> Bit(low, MASK_BIT)
  {
    MaskedIsPow2();
    LowIsMod(low, MASK_BIT);
    BitOfShr(low, MASK_BIT, 0);
  }

  // Shifting a byte into the top of a word is the multiplication.
  lemma HighIsShifted(destination: u8)
    ensures ProgrammedHigh(destination) == Shl(destination, 24)
  {
    CapacityIsPow2(3);
    ShlIsMul(destination, 24);
  }

  lemma BitOfRest(k: nat)
    ensures Bit(MASKED + 0xFF, k) <==> k < 8 || k == MASK_BIT
  {
    Widths();
    MaskedIsPow2();
    ShlIsMul(Pow2(8), 8);
    BitOfJoin(0xFF, Pow2(8), 8, k);
    BitOfOnes(8, k);
    if k >= 8 {
      BitOfPow2(8, k - 8);
    }
  }

  lemma OnesShifted(n: nat)
    requires n == 4 || n == 5
    ensures Shl(Ones(n), 12) == if n == 4 then 0xF000 else FLAG_BITS
  {
    ShlIsMul(Ones(n), 12);
    Pow2Plus8(4);
    assert Pow2(4) == 16;
  }

  lemma BitOfFlags(n: nat, k: nat)
    requires n == 4 || n == 5
    ensures Bit(if n == 4 then 0xF000 else FLAG_BITS, k) <==> 12 <= k < 12 + n
  {
    OnesShifted(n);
    BitOfShl(Ones(n), 12, k);
    if k >= 12 {
      BitOfOnes(n, k - 12);
    }
  }

  lemma BitOfMode(low: nat, k: nat)
    ensures Bit(Mode(low), k) <==> k >= 8 && k != MASK_BIT && Bit(low, k)
  {
    BitOfAndNot(low, MASKED + 0xFF, k);
    BitOfRest(k);
  }

  // The low word is exactly what the vector, mode and mask bits say.
  lemma LowWordOfRoute(low: nat, high: nat)
    ensures LowWord(RouteOf(low, high)) == low
  {
    var r := RouteOf(low, high);
    VectorIsLow(low);
    MaskIsBit(low);
    forall k: nat
      ensures Bit(LowWord(r), k) <==> Bit(low, k)
    {
      BitOfOr(Or(r.vector, r.mode), if r.masked then MASKED else 0, k);
      BitOfOr(r.vector, r.mode, k);
      BitOfLow(low, 8, k);
      BitOfMode(low, k);
      BitOfMasked(k);
      BitOfZero(k);
    }
    SameBits(LowWord(r), low);
  }

  lemma BitOfProgrammedLow(vector: u8, flags: u32, k: nat)
    ensures Bit(ProgrammedLow(vector, flags), k) <==> Bit(vector, k) || (12 <= k <= 16 && Bit(flags, k))
  {
    BitOfOr(Or(vector, And(flags, FLAG_BITS)), And(flags, MASKED), k);
    BitOfOr(vector, And(flags, FLAG_BITS), k);
    BitOfAnd(flags, FLAG_BITS, k);
    BitOfAnd(flags, MASKED, k);
    BitOfFlags(5, k);
    BitOfMasked(k);
  }

  lemma ByteBits(x: u8, k: nat)
    requires k >= 8
    ensures !Bit(x, k)
  {
    Widths();
    HighBitsClear(x, 8, k);
  }

  lemma BitOfProgrammedMode(vector: u8, flags: u32, k: nat)
    ensures Bit(Mode(ProgrammedLow(vector, flags)), k) <==> Bit(And(flags, 0xF000), k)
  {
    BitOfMode(ProgrammedLow(vector, flags), k);
    BitOfProgrammedLow(vector, flags, k);
    BitOfAnd(flags, 0xF000, k);
    BitOfFlags(4, k);
    if k >= 8 {
      ByteBits(vector, k);
    }
  }

  lemma ProgrammedMode(vector: u8, flags: u32)
    ensures Mode(ProgrammedLow(vector, flags)) == And(flags, 0xF000)
  {
    forall k: nat
      ensures Bit(Mode(ProgrammedLow(vector, flags)), k) <==> Bit(And(flags, 0xF000), k)
    {
      BitOfProgrammedMode(vector, flags, k);
    }
    SameBits(Mode(ProgrammedLow(vector, flags)), And(flags, 0xF000));
  }

  lemma ProgrammedVector(vector: u8, flags: u32)
    ensures Low(ProgrammedLow(vector, flags), 8) == vector
  {
    forall k: nat
      ensures Bit(Low(ProgrammedLow(vector, flags), 8), k) <==> Bit(vector, k)
    {
      BitOfLow(ProgrammedLow(vector, flags), 8, k);
      BitOfProgrammedLow(vector, flags, k);
      if k >= 8 {
        ByteBits(vector, k);
      }
    }
    SameBits(Low(ProgrammedLow(vector, flags), 8), vector);
  }

  // Programming an entry installs the requested route.
  lemma ProgrammedRoute(vector: u8, destination: u8, flags: u32)
    ensures RouteOf(ProgrammedLow(vector, flags), ProgrammedHigh(destination)) == Programmed(vector, destination, flags)
  {
    VectorIsLow(ProgrammedLow(vector, flags));
    ProgrammedVector(vector, flags);
    ProgrammedMode(vector, flags);
    MaskIsBit(ProgrammedLow(vector, flags));
    MaskIsBit(flags);
    BitOfProgrammedLow(vector, flags, MASK_BIT);
    ByteBits(vector, MASK_BIT);
  }

  lemma BitOfMaskedLow(low: nat, masked: bool, k: nat)
    ensures Bit(MaskedLow(low, masked), k) <==> if k == MASK_BIT then masked else Bit(low, k)
  {
    MaskedIsPow2();
    SetBitBits(low, MASK_BIT, k);
    BitOfAndNot(low, MASKED, k);
    BitOfMasked(k);
  }

  // Masking and unmasking change the mask bit only.
  lemma MaskedRoute(low: nat, high: nat, masked: bool)
    ensures RouteOf(MaskedLow(low, masked), high) == RouteOf(low, high).(masked := masked)
  {
    var next := MaskedLow(low, masked);
    forall k: nat
      ensures Bit(next, k) <==> if k == MASK_BIT then masked else Bit(low, k)
    {
      BitOfMaskedLow(low, masked, k);
    }
    forall k: nat
      ensures Bit(Mode(next), k) <==> Bit(Mode(low), k)
      ensures Bit(Low(next, 8), k) <==> Bit(Low(low, 8), k)
    {
      BitOfMode(next, k);
      BitOfMode(low, k);
      BitOfLow(next, 8, k);
      BitOfLow(low, 8, k);
    }
    SameBits(Mode(next), Mode(low));
    SameBits(Low(next, 8), Low(low, 8));
    VectorIsLow(next);
    VectorIsLow(low);
    MaskIsBit(next);
  }

  lemma ProgrammedLowFits(vector: u8, flags: u32)
    ensures ProgrammedLow(vector, flags) < 0x1_0000_0000
  {
    CapacityIsPow2(4);
    AndShrinks(flags, FLAG_BITS);
    AndShrinks(flags, MASKED);
    OrFits(vector, And(flags, FLAG_BITS), 32);
    OrFits(Or(vector, And(flags, FLAG_BITS)), And(flags, MASKED), 32);
  }

  lemma MaskedLowFits(low: u32, masked: bool)
    ensures MaskedLow(low, masked) < 0x1_0000_0000
  {
    CapacityIsPow2(4);
    OrFits(low, MASKED, 32);
    AndNotShrinks(low, MASKED);
  }

  // The low and high words of an entry.
  datatype RedirectionEntry = RedirectionEntry(low: u32, high: u32)

  function Meaning(entry: RedirectionEntry): Route {
    RouteOf(entry.low, entry.high)
  }

  function ProgrammedEntry(vector: u8, destination: u8, flags: u32): RedirectionEntry {
    ProgrammedLowFits(vector, flags);
    RedirectionEntry(ProgrammedLow(vector, flags), ProgrammedHigh(destination))
  }

  // The words programmed mean the requested route.
  lemma ProgrammedMeans(vector: u8, destination: u8, flags: u32)
    ensures Meaning(ProgrammedEntry(vector, destination, flags)) == Programmed(vector, destination, flags)
  {
    ProgrammedRoute(vector, destination, flags);
  }

  function MaskedEntry(entry: RedirectionEntry, masked: bool): RedirectionEntry {
    MaskedLowFits(entry.low, masked);
    entry.(low := MaskedLow(entry.low, masked))
  }

  // Masking and unmasking an entry change the mask of its route only.
  lemma MaskedMeans(entry: RedirectionEntry, masked: bool)
    ensures Meaning(MaskedEntry(entry, masked)) == Meaning(entry).(masked := masked)
  {
    MaskedRoute(entry.low, entry.high, masked);
  }
}
