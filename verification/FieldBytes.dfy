// Bit fields in byte stores: the byte-wise read and write of a field, and the
// little-endian integer they stand for.

module FieldBytes {
  import opened Words
  import opened Bits

  // A store read as one little-endian integer.
  function LittleEndian(s: seq<u8>): nat {
    if s == [] then 0 else s[0] + 0x100 * LittleEndian(s[1..])
  }

  lemma ShiftedByte(x: nat)
    ensures Shl(x, 8) == 0x100 * x
  {
    Widths();
    ShlIsMul(x, 8);
  }

  lemma ByteFits(b: u8)
    ensures b < Pow2(8)
  {
    Widths();
  }

  lemma {:induction false} BitOfLittleEndian(s: seq<u8>, p: nat)
    ensures Bit(LittleEndian(s), p) <==> p < 8 * |s| && Bit(s[p / 8], p % 8)
  {
    if s == [] {
      BitOfZero(p);
    } else {
      ByteFits(s[0]);
      ShiftedByte(LittleEndian(s[1..]));
      BitOfJoin(s[0], LittleEndian(s[1..]), 8, p);
      if p >= 8 {
        BitOfLittleEndian(s[1..], p - 8);
        assert (p - 8) / 8 == p / 8 - 1 && (p - 8) % 8 == p % 8;
      }
    }
  }

  // Stores of one length with the same bits are the same.
  lemma SameStores(s: seq<u8>, t: seq<u8>)
    requires |s| == |t|
    requires forall p: nat :: p < 8 * |s| ==> (StoreBit(s, p) <==> StoreBit(t, p))
    ensures s == t
  {
    forall i | 0 <= i < |s|
      ensures s[i] == t[i]
    {
      forall k: nat
        ensures Bit(s[i], k) <==> Bit(t[i], k)
      {
        if k < 8 {
          var p: nat := 8 * i + k;
          assert p / 8 == i && p % 8 == k;
          assert StoreBit(s, p) <==> StoreBit(t, p);
        } else {
          ByteFits(s[i]);
          ByteFits(t[i]);
          HighBitsClear(s[i], 8, k);
          HighBitsClear(t[i], 8, k);
        }
      }
      SameBits(s[i], t[i]);
    }
  }

  datatype Rule = Preserve | WriteAsOnes | WriteAsZeros

  // A field: its first byte, the bit it starts at in that byte, its width.
  datatype Field = Field(address: nat, shift: nat, width: nat, rule: Rule) {
    predicate Valid() {
      shift < 8 && 0 < width <= 64
    }

    // The bytes the field touches, and its first bit in the store.
    function Bytes(): nat {
      (shift + width + 7) / 8
    }

    function Start(): nat {
      8 * address + shift
    }

    predicate Has(p: nat) {
      Start() <= p < Start() + width
    }

    predicate Touches(p: nat) {
      8 * address <= p < 8 * (address + Bytes())
    }

    predicate In(s: seq<u8>) {
      Valid() && address + Bytes() <= |s|
    }
  }

  // The bits of byte i of the field that belong to it.
  function ByteMask(f: Field, i: nat): (r: u8) {
    Shr(Shl(Ones(f.width), f.shift), 8 * i) % 0x100
  }

  function ValueByte(f: Field, value: u64, i: nat): (r: u8) {
    Shr(Shl(value, f.shift), 8 * i) % 0x100
  }

  predicate NeedsRead(f: Field, i: nat) {
    ByteMask(f, i) != 255 && f.rule.Preserve?
  }

  // The byte the update rule starts from. A byte wholly inside the field
  // starts from zero, whatever the rule.
  function Background(f: Field, was: u8, i: nat): u8 {
    if ByteMask(f, i) == 255 then 0
    else
      match f.rule
      case Preserve => was
      case WriteAsOnes => 255
      case WriteAsZeros => 0
  }

  // The background with the field's bits of this byte put in.
  function Merge(f: Field, value: u64, from: u8, i: nat): u8 {
    var mask, bits := ByteMask(f, i), ValueByte(f, value, i);
    Widths();
    AndNotShrinks(from, mask);
    AndShrinks(bits, mask);
    OrFits(AndNot(from, mask), And(bits, mask), 8);
    Or(AndNot(from, mask), And(bits, mask))
  }

  function NextByte(f: Field, value: u64, was: u8, i: nat): u8 {
    Merge(f, value, Background(f, was, i), i)
  }

  lemma BitOfByte(x: nat, k: nat)
    ensures Bit(x % 0x100, k) <==> k < 8 && Bit(x, k)
  {
    Widths();
    LowIsMod(x, 8);
    BitOfLow(x, 8, k);
  }

  lemma BitOfByteMask(f: Field, i: nat, k: nat)
    ensures Bit(ByteMask(f, i), k) <==> k < 8 && f.shift <= 8 * i + k < f.shift + f.width
  {
    BitOfByte(Shr(Shl(Ones(f.width), f.shift), 8 * i), k);
    BitOfShr(Shl(Ones(f.width), f.shift), 8 * i, k);
    BitOfShl(Ones(f.width), f.shift, 8 * i + k);
    if f.shift <= 8 * i + k {
      BitOfOnes(f.width, 8 * i + k - f.shift);
    }
  }

  // A byte is read first exactly when a Preserve field covers part of it only.
  lemma NeedsReadIff(f: Field, i: nat)
    ensures NeedsRead(f, i) <==> f.rule.Preserve? && (8 * i < f.shift || f.shift + f.width < 8 * i + 8)
  {
    Widths();
    if f.shift <= 8 * i && 8 * i + 8 <= f.shift + f.width {
      forall k: nat
        ensures Bit(ByteMask(f, i), k) <==> Bit(Ones(8), k)
      {
        BitOfByteMask(f, i, k);
        BitOfOnes(8, k);
      }
      SameBits(ByteMask(f, i), Ones(8));
    } else {
      var k := if 8 * i < f.shift then 0 else 7;
      BitOfByteMask(f, i, k);
      BitOfOnes(8, k);
    }
  }

  lemma BitOfValueByte(f: Field, value: u64, i: nat, k: nat)
    ensures Bit(ValueByte(f, value, i), k) <==>
              k < 8 && f.shift <= 8 * i + k && Bit(value, 8 * i + k - f.shift)
  {
    BitOfByte(Shr(Shl(value, f.shift), 8 * i), k);
    BitOfShr(Shl(value, f.shift), 8 * i, k);
    BitOfShl(value, f.shift, 8 * i + k);
  }

  // What the update rule leaves in a touched bit outside the field.
  predicate Rest(rule: Rule, was: bool) {
    match rule
    case Preserve => was
    case WriteAsOnes => true
    case WriteAsZeros => false
  }

  lemma BitOfNextByte(f: Field, value: u64, was: u8, i: nat, k: nat)
    requires k < 8
    ensures Bit(NextByte(f, value, was, i), k) <==>
              if f.shift <= 8 * i + k < f.shift + f.width then Bit(value, 8 * i + k - f.shift)
              else Rest(f.rule, Bit(was, k))
  {
    var mask, from, bits := ByteMask(f, i), Background(f, was, i), ValueByte(f, value, i);
    BitOfOr(AndNot(from, mask), And(bits, mask), k);
    BitOfAndNot(from, mask, k);
    BitOfAnd(bits, mask, k);
    BitOfByteMask(f, i, k);
    BitOfValueByte(f, value, i, k);
    Widths();
    BitOfOnes(8, k);
  }

  // ---------------------------------------------------------------------
  // Reading and writing a field of a store
  // ---------------------------------------------------------------------

  predicate StoreBit(s: seq<u8>, p: nat)
    requires p < 8 * |s|
  {
    Bit(s[p / 8], p % 8)
  }

  function ReadField(s: seq<u8>, f: Field): nat
    requires f.In(s)
  {
    Low(Shr(LittleEndian(s[f.address..f.address + f.Bytes()]), f.shift), f.width)
  }

  // The store after the first n bytes of the field have been written.
  function WritePrefix(s: seq<u8>, f: Field, value: u64, n: nat): (t: seq<u8>)
    ensures |t| == |s|
    ensures forall j :: 0 <= j < |s| ==>
              t[j] == if f.address <= j < f.address + n then NextByte(f, value, s[j], j - f.address) else s[j]
  {
    seq(|s|, j requires 0 <= j < |s| =>
          if f.address <= j < f.address + n then NextByte(f, value, s[j], j - f.address) else s[j])
  }

  lemma WritePrefixStep(s: seq<u8>, f: Field, value: u64, i: nat)
    requires f.address + i < |s|
    ensures WritePrefix(s, f, value, i + 1) ==
              WritePrefix(s, f, value, i)[f.address + i := NextByte(f, value, s[f.address + i], i)]
  {
  }

  function WriteField(s: seq<u8>, f: Field, value: u64): (t: seq<u8>)
    requires f.In(s)
  {
    WritePrefix(s, f, value, f.Bytes())
  }

  lemma BitOfRead(s: seq<u8>, f: Field, k: nat)
    requires f.In(s)
    ensures Bit(ReadField(s, f), k) <==> k < f.width && StoreBit(s, f.Start() + k)
  {
    var w := s[f.address..f.address + f.Bytes()];
    BitOfLow(Shr(LittleEndian(w), f.shift), f.width, k);
    BitOfShr(LittleEndian(w), f.shift, k);
    BitOfLittleEndian(w, f.shift + k);
    if k < f.width {
      assert (f.Start() + k) / 8 == f.address + (f.shift + k) / 8;
      assert (f.Start() + k) % 8 == (f.shift + k) % 8;
    }
  }

  // Every bit of the store after the first n bytes of a write.
  lemma BitOfPrefix(s: seq<u8>, f: Field, value: u64, n: nat, p: nat)
    requires f.In(s) && p < 8 * |s| && n <= f.Bytes()
    ensures StoreBit(WritePrefix(s, f, value, n), p) <==>
              if p < 8 * f.address || p >= 8 * (f.address + n) then StoreBit(s, p)
              else if f.Has(p) then Bit(value, p - f.Start())
              else Rest(f.rule, StoreBit(s, p))
  {
    if 8 * f.address <= p < 8 * (f.address + n) {
      var i: nat := p / 8 - f.address;
      assert 8 * i + p % 8 == p - 8 * f.address;
      BitOfNextByte(f, value, s[p / 8], i, p % 8);
    }
  }

  // Every bit of the store after a write.
  lemma BitOfWrite(s: seq<u8>, f: Field, value: u64, p: nat)
    requires f.In(s) && p < 8 * |s|
    ensures StoreBit(WriteField(s, f, value), p) <==>
              if f.Has(p) then Bit(value, p - f.Start())
              else if f.Touches(p) then Rest(f.rule, StoreBit(s, p))
              else StoreBit(s, p)
  {
    BitOfPrefix(s, f, value, f.Bytes(), p);
  }

  // ---------------------------------------------------------------------
  // The same on integers
  // ---------------------------------------------------------------------

  // x with `width` bits from bit `start` on replaced by those of v.
  function Replace(x: nat, start: nat, width: nat, v: nat): nat {
    Low(x, start) + Shl(Low(v, width) + Shl(Shr(x, start + width), width), start)
  }

  // The same with remainders, quotients and powers of two.
  lemma {:induction false} ReplaceIsArithmetic(x: nat, start: nat, width: nat, v: nat)
    ensures Replace(x, start, width, v) ==
              x % Pow2(start) + (v % Pow2(width)) * Pow2(start) + (x / Pow2(start + width)) * Pow2(start + width)
  {
    var top := Shr(x, start + width);
    LowIsMod(x, start);
    LowIsMod(v, width);
    LowIsMod(x, start + width);
    ShlIsMul(Low(v, width), start);
    ShlIsMul(top, start + width);
    ShlSum(Low(v, width), Shl(top, width), start);
    ShlShl(top, width, start);
  }

  lemma {:induction false} BitOfReplace(x: nat, start: nat, width: nat, v: nat, p: nat)
    ensures Bit(Replace(x, start, width, v), p) <==>
              if start <= p < start + width then Bit(v, p - start) else Bit(x, p)
  {
    var top := Shr(x, start + width);
    var mid := Low(v, width) + Shl(top, width);
    LowFits(x, start);
    LowFits(v, width);
    BitOfJoin(Low(x, start), mid, start, p);
    if p < start {
      BitOfLow(x, start, p);
    } else {
      BitOfJoin(Low(v, width), top, width, p - start);
      BitOfLow(v, width, p - start);
      if p >= start + width {
        BitOfShr(x, start + width, p - start - width);
      }
    }
  }

  // The integer a write starts from: unchanged under Preserve, otherwise with
  // all touched bytes filled with ones or zeros.
  function Prepared(x: nat, f: Field): nat {
    match f.rule
    case Preserve => x
    case WriteAsOnes => Replace(x, 8 * f.address, 8 * f.Bytes(), Ones(8 * f.Bytes()))
    case WriteAsZeros => Replace(x, 8 * f.address, 8 * f.Bytes(), 0)
  }

  lemma BitOfPrepared(x: nat, f: Field, p: nat)
    ensures Bit(Prepared(x, f), p) <==> if f.Touches(p) then Rest(f.rule, Bit(x, p)) else Bit(x, p)
  {
    if !f.rule.Preserve? {
      var fill := if f.rule.WriteAsOnes? then Ones(8 * f.Bytes()) else 0;
      BitOfReplace(x, 8 * f.address, 8 * f.Bytes(), fill, p);
      if f.Touches(p) {
        BitOfOnes(8 * f.Bytes(), p - 8 * f.address);
        BitOfZero(p - 8 * f.address);
      }
    }
  }

  // A field read is a shift and a remainder of the whole store.
  lemma {:induction false} ReadIsArithmetic(s: seq<u8>, f: Field)
    requires f.In(s)
    ensures ReadField(s, f) == (LittleEndian(s) / Pow2(f.Start())) % Pow2(f.width)
  {
    var x := LittleEndian(s);
    LowIsMod(x, f.Start());
    LowIsMod(Shr(x, f.Start()), f.width);
    forall k: nat
      ensures Bit(ReadField(s, f), k) <==> Bit(Low(Shr(x, f.Start()), f.width), k)
    {
      BitOfRead(s, f, k);
      BitOfLow(Shr(x, f.Start()), f.width, k);
      BitOfShr(x, f.Start(), k);
      BitOfLittleEndian(s, f.Start() + k);
    }
    SameBits(ReadField(s, f), Low(Shr(x, f.Start()), f.width));
  }

  // A field write replaces one bit range of the whole store.
  lemma {:induction false} WriteIsReplace(s: seq<u8>, f: Field, value: u64)
    requires f.In(s)
    ensures LittleEndian(WriteField(s, f, value)) ==
              Replace(Prepared(LittleEndian(s), f), f.Start(), f.width, value)
  {
    var x, t := LittleEndian(s), WriteField(s, f, value);
    var y := Replace(Prepared(x, f), f.Start(), f.width, value);
    forall p: nat
      ensures Bit(LittleEndian(t), p) <==> Bit(y, p)
    {
      BitOfLittleEndian(t, p);
      BitOfLittleEndian(s, p);
      BitOfReplace(Prepared(x, f), f.Start(), f.width, value, p);
      BitOfPrepared(x, f, p);
      if p < 8 * |s| {
        BitOfWrite(s, f, value, p);
      }
    }
    SameBits(LittleEndian(t), y);
  }

  // Reading a field just written gives the value, cut to the field's width.
  lemma WriteThenRead(s: seq<u8>, f: Field, value: u64)
    requires f.In(s)
    ensures ReadField(WriteField(s, f, value), f) == value % Pow2(f.width)
  {
    var t := WriteField(s, f, value);
    LowIsMod(value, f.width);
    forall k: nat
      ensures Bit(ReadField(t, f), k) <==> Bit(Low(value, f.width), k)
    {
      BitOfRead(t, f, k);
      BitOfLow(value, f.width, k);
      if k < f.width {
        BitOfWrite(s, f, value, f.Start() + k);
      }
    }
    SameBits(ReadField(t, f), Low(value, f.width));
  }

  predicate Disjoint(f: Field, g: Field) {
    f.Start() + f.width <= g.Start() || g.Start() + g.width <= f.Start()
  }

  // A Preserve write leaves every bit outside its field as it was.
  lemma PreserveKeepsBit(s: seq<u8>, f: Field, value: u64, p: nat)
    requires f.In(s) && f.rule.Preserve? && p < 8 * |s| && !f.Has(p)
    ensures StoreBit(WriteField(s, f, value), p) <==> StoreBit(s, p)
  {
    BitOfWrite(s, f, value, p);
  }

  // A field is read from its own bits.
  lemma SameField(s: seq<u8>, t: seq<u8>, g: Field)
    requires |s| == |t| && g.In(s)
    requires forall p: nat :: g.Has(p) ==> (StoreBit(s, p) <==> StoreBit(t, p))
    ensures ReadField(s, g) == ReadField(t, g)
  {
    forall k: nat
      ensures Bit(ReadField(s, g), k) <==> Bit(ReadField(t, g), k)
    {
      BitOfRead(s, g, k);
      BitOfRead(t, g, k);
      if k < g.width {
        assert g.Has(g.Start() + k);
      }
    }
    SameBits(ReadField(s, g), ReadField(t, g));
  }

  // Writing a Preserve field leaves every disjoint field as it was.
  lemma WriteKeepsOthers(s: seq<u8>, f: Field, g: Field, value: u64)
    requires f.In(s) && g.In(s) && f.rule.Preserve? && Disjoint(f, g)
    ensures ReadField(WriteField(s, f, value), g) == ReadField(s, g)
  {
    forall p: nat | g.Has(p)
      ensures StoreBit(s, p) <==> StoreBit(WriteField(s, f, value), p)
    {
      PreserveKeepsBit(s, f, value, p);
    }
    SameField(s, WriteField(s, f, value), g);
  }

  // A bit after two disjoint Preserve writes, the second to g.
  lemma BitOfTwoWrites(s: seq<u8>, f: Field, v: u64, g: Field, u: u64, p: nat)
    requires f.In(s) && g.In(s) && f.rule.Preserve? && g.rule.Preserve? && Disjoint(f, g) && p < 8 * |s|
    ensures StoreBit(WriteField(WriteField(s, f, v), g, u), p) <==>
              if f.Has(p) then Bit(v, p - f.Start())
              else if g.Has(p) then Bit(u, p - g.Start())
              else StoreBit(s, p)
  {
    var a := WriteField(s, f, v);
    BitOfWrite(s, f, v, p);
    if g.Has(p) {
      BitOfWrite(a, g, u, p);
    } else {
      PreserveKeepsBit(a, g, u, p);
    }
  }

  // Writes to disjoint Preserve fields commute.
  lemma WritesCommute(s: seq<u8>, f: Field, v: u64, g: Field, u: u64)
    requires f.In(s) && g.In(s) && f.rule.Preserve? && g.rule.Preserve? && Disjoint(f, g)
    ensures WriteField(WriteField(s, f, v), g, u) == WriteField(WriteField(s, g, u), f, v)
  {
    var a, b := WriteField(WriteField(s, f, v), g, u), WriteField(WriteField(s, g, u), f, v);
    forall p: nat | p < 8 * |s|
      ensures StoreBit(a, p) <==> StoreBit(b, p)
    {
      BitOfTwoWrites(s, f, v, g, u, p);
      BitOfTwoWrites(s, g, u, f, v, p);
    }
    SameStores(a, b);
  }

  // ---------------------------------------------------------------------
  // What the byte loops compute
  // ---------------------------------------------------------------------

  lemma {:induction false} LittleEndianFits(s: seq<u8>)
    ensures LittleEndian(s) < Pow2(8 * |s|)
  {
    if s != [] {
      LittleEndianFits(s[1..]);
      Pow2Plus8(8 * |s[1..]|);
    }
  }

  lemma {:induction false} LittleEndianSum(s: seq<u8>, b: u8)
    ensures LittleEndian(s + [b]) == LittleEndian(s) + Shl(b, 8 * |s|)
  {
    if s == [] {
      assert s + [b] == [b];
      assert LittleEndian([b][1..]) == 0;
    } else {
      var rest := s[1..];
      assert (s + [b])[1..] == rest + [b];
      LittleEndianSum(rest, b);
      ShlShl(b, 8 * |rest|, 8);
      ShiftedByte(Shl(b, 8 * |rest|));
    }
  }

  // Appending a byte is shifting it in above the others.
  lemma LittleEndianAppend(s: seq<u8>, b: u8)
    ensures LittleEndian(s + [b]) == Or(LittleEndian(s), Shl(b, 8 * |s|))
  {
    LittleEndianFits(s);
    LittleEndianSum(s, b);
    OrIsJoin(LittleEndian(s), b, 8 * |s|);
  }
}
