// Fixed-FADT GPE register blocks: which block owns a GPE number, and which
// status byte, enable byte and bit it has there.

module GpeBlocks {
  import opened Words

  datatype Block = Block(
    address: u64,
    byteCount: u8,
    baseGsi: u32,
    addressSpace: u8,
    bitOffset: u8,
    accessSize: u8)

  // The two blocks the FADT may declare.
  datatype Firmware = Firmware(gpe0: Option<Block>, gpe1: Option<Block>)

  predicate BytePortsValid(b: Block) {
    && b.addressSpace == 1
    && b.bitOffset == 0
    && (b.accessSize == 0 || b.accessSize == 1)
    && b.byteCount != 0
    && b.byteCount % 2 == 0
    && b.address != 0
    && b.address + b.byteCount <= 0x1_0000
  }

  // The block is usable and the GPE number is one of its eight per status byte.
  predicate Covers(b: Option<Block>, number: u32) {
    && b.Some? && BytePortsValid(b.value)
    && b.value.baseGsi <= number < b.value.baseGsi + b.value.byteCount * 4
  }

  // The unique usable block that covers a number. A number both blocks cover
  // has no unique route, so it has no block.
  function RegisterBlock(fw: Firmware, number: u32): (r: Option<Block>)
    ensures r.Some? <==> (Covers(fw.gpe0, number) <==> !Covers(fw.gpe1, number))
    ensures r.Some? ==> Covers(r, number) && (r == fw.gpe0 || r == fw.gpe1)
  {
    if Covers(fw.gpe0, number) then
      if Covers(fw.gpe1, number) then None else fw.gpe0
    else if Covers(fw.gpe1, number) then fw.gpe1
    else None
  }

  method FindRegisterBlock(fw: Firmware, number: u32) returns (found: Option<Block>)
    ensures found == RegisterBlock(fw, number)
  {
    found := None;
    var candidates := [fw.gpe0, fw.gpe1];
    var i := 0;
    while i < 2
      invariant 0 <= i <= 2
      invariant i == 1 ==> found == if Covers(fw.gpe0, number) then fw.gpe0 else None
      invariant i == 0 ==> found == None
      invariant i == 2 ==> found == RegisterBlock(fw, number)
    {
      var b := candidates[i];
      if b.Some? && BytePortsValid(b.value) {
        var count := b.value.byteCount * 4;
        if number >= b.value.baseGsi && number - b.value.baseGsi < count {
          if found.Some? {
            return None;
          }
          found := b;
        }
      }
      i := i + 1;
    }
  }

  function Truncate16(x: nat): u16 {
    x % 0x1_0000
  }

  function StatusPort(b: Block, number: u32): u16
    requires Covers(Some(b), number)
  {
    Truncate16(b.address + (number - b.baseGsi) / 8)
  }

  function EnablePort(b: Block, number: u32): u16
    requires Covers(Some(b), number)
  {
    Truncate16(b.address + (number - b.baseGsi) / 8 + b.byteCount / 2)
  }

  function BitIndex(b: Block, number: u32): (k: nat)
    requires Covers(Some(b), number)
    ensures k < 8
  {
    (number - b.baseGsi) % 8
  }

  // The status half of a block's ports; the enable half follows it.
  predicate InStatusHalf(b: Option<Block>, port: int) {
    b.Some? && BytePortsValid(b.value) && b.value.address <= port < b.value.address + b.value.byteCount / 2
  }

  // No truncation ever takes effect, and each port lies in its own half.
  lemma PortsInBlock(b: Block, number: u32)
    requires Covers(Some(b), number)
    ensures StatusPort(b, number) == b.address + (number - b.baseGsi) / 8
    ensures EnablePort(b, number) == b.address + (number - b.baseGsi) / 8 + b.byteCount / 2
    ensures InStatusHalf(Some(b), StatusPort(b, number))
    ensures b.address + b.byteCount / 2 <= EnablePort(b, number) < b.address + b.byteCount
  {
  }

  // The usable blocks share no port.
  predicate PortsDisjoint(fw: Firmware) {
    fw.gpe0.Some? && BytePortsValid(fw.gpe0.value) && fw.gpe1.Some? && BytePortsValid(fw.gpe1.value) ==>
      || fw.gpe0.value.address + fw.gpe0.value.byteCount <= fw.gpe1.value.address
      || fw.gpe1.value.address + fw.gpe1.value.byteCount <= fw.gpe0.value.address
  }

  predicate Supported(fw: Firmware, number: u32) {
    RegisterBlock(fw, number).Some?
  }

  predicate IsStatusPort(fw: Firmware, port: int) {
    InStatusHalf(fw.gpe0, port) || InStatusHalf(fw.gpe1, port)
  }

  lemma DistinctInBlock(b: Block, m: u32, n: u32)
    requires Covers(Some(b), m) && Covers(Some(b), n) && m != n
    ensures EnablePort(b, m) == EnablePort(b, n) || StatusPort(b, m) == StatusPort(b, n) ==>
              BitIndex(b, m) != BitIndex(b, n)
  {
    PortsInBlock(b, m);
    PortsInBlock(b, n);
  }

  // Status bytes and enable bytes are told apart by their ports.
  lemma PortKinds(fw: Firmware, n: u32)
    requires PortsDisjoint(fw) && Supported(fw, n)
    ensures var b := RegisterBlock(fw, n).value;
            IsStatusPort(fw, StatusPort(b, n)) && !IsStatusPort(fw, EnablePort(b, n))
  {
    PortsInBlock(RegisterBlock(fw, n).value, n);
  }

  // Different supported numbers have different status and enable bits.
  lemma CellsDistinct(fw: Firmware, m: u32, n: u32)
    requires PortsDisjoint(fw) && Supported(fw, m) && Supported(fw, n) && m != n
    ensures var a, b := RegisterBlock(fw, m).value, RegisterBlock(fw, n).value;
            EnablePort(a, m) == EnablePort(b, n) || StatusPort(a, m) == StatusPort(b, n) ==>
              BitIndex(a, m) != BitIndex(b, n)
  {
    var a, b := RegisterBlock(fw, m).value, RegisterBlock(fw, n).value;
    if a == b {
      DistinctInBlock(a, m, n);
    } else {
      PortsInBlock(a, m);
      PortsInBlock(b, n);
      assert InStatusHalf(Some(a), StatusPort(a, m)) && InStatusHalf(Some(b), StatusPort(b, n));
      assert a.address + a.byteCount <= b.address || b.address + b.byteCount <= a.address;
    }
  }
}
