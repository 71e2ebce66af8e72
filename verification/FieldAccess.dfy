// Strict AML field access: validation of a declared field against its region,
// and the byte loops that read and write it on memory, ports or the embedded
// controller.

module FieldAccess {
  import opened Words
  import opened Bits
  import opened FieldBytes

  datatype Space =
    | SystemMemory | SystemIO | PciConfig | EmbeddedCtl | SmBus | SystemCmos
    | PciBarTarget | Ipmi | GeneralPurposeIO | GenericSerialBus | Pcc | Other(id: u8)

  datatype Region = Region(path: string, space: Space, offset: u64, length: u64)

  datatype FieldInfo = FieldInfo(
    path: string,
    regionPath: string,
    bitOffset: u64,
    bitLength: u64,
    accessKind: u8,
    updateRule: u8,
    lockRule: bool,
    indexed: bool,
    banked: bool)

  datatype AccessError = NoField | NoRegion | Unsupported | TooWide

  datatype Result<T> = Success(value: T) | Failure(error: AccessError)

  // A validated access: the region and the bit field inside its address space.
  datatype Access = Access(region: Region, field: Field)

  function FindField(fields: seq<FieldInfo>, path: string): Option<FieldInfo> {
    if fields == [] then None
    else if fields[0].path == path then Some(fields[0])
    else FindField(fields[1..], path)
  }

  function FindRegion(regions: seq<Region>, path: string): Option<Region> {
    if regions == [] then None
    else if regions[0].path == path then Some(regions[0])
    else FindRegion(regions[1..], path)
  }

  function RuleOf(updateRule: u8): Rule {
    if updateRule == 0 then Preserve else if updateRule == 1 then WriteAsOnes else WriteAsZeros
  }

  // 64-bit addition and multiplication that report overflow.
  function CheckedAdd(a: u64, b: u64): Option<u64> {
    if a + b <= U64_MAX then Some(a + b) else None
  }

  function CheckedMul(a: u64, b: u64): Option<u64> {
    if a * b <= U64_MAX then Some(a * b) else None
  }

  predicate Plain(f: FieldInfo) {
    && !f.lockRule && (f.accessKind == 0 || f.accessKind == 1) && f.updateRule <= 2
    && !f.indexed && !f.banked
  }

  // Where a space's addresses end, on a machine with or without x86 ports.
  function Limit(x86: bool, space: Space): Option<nat> {
    match space
    case SystemMemory => Some(U64_MAX)
    case SystemIO => if x86 then Some(0x1_0000) else None
    case EmbeddedCtl => if x86 then Some(256) else None
    case _ => None
  }

  // Port numbers are cast to 16 bits and controller offsets to 8.
  function Cast(space: Space, address: nat): nat {
    match space
    case SystemIO => address % 0x1_0000
    case EmbeddedCtl => address % 0x100
    case _ => address
  }

  function Place(x86: bool, f: FieldInfo, region: Region): Result<Access>
    requires 0 < f.bitLength <= 64 && Plain(f)
  {
    var end := CheckedAdd(f.bitOffset, f.bitLength);
    var bits := CheckedMul(region.length, 8);
    if end.None? || region.length == 0 || bits.None? || end.value > bits.value then Failure(Unsupported)
    else
      var address := CheckedAdd(region.offset, f.bitOffset / 8);
      if address.None? then Failure(Unsupported)
      else
        var field := Field(address.value, f.bitOffset % 8, f.bitLength, RuleOf(f.updateRule));
        var stop := CheckedAdd(address.value, field.Bytes());
        var limit := Limit(x86, region.space);
        if stop.None? || limit.None? || stop.value > limit.value then Failure(Unsupported)
        else Success(Access(region, field))
  }

  function Resolve(x86: bool, fields: seq<FieldInfo>, regions: seq<Region>, path: string): Result<Access> {
    var f := FindField(fields, path);
    if f.None? then Failure(NoField)
    else if f.value.bitLength == 0 || f.value.bitLength > 64 then Failure(TooWide)
    else if !Plain(f.value) then Failure(Unsupported)
    else
      var region := FindRegion(regions, f.value.regionPath);
      if region.None? then Failure(NoRegion) else Place(x86, f.value, region.value)
  }

  // An access is accepted exactly when the field lies inside its region and
  // the region's bytes inside their address space; it then covers exactly the
  // field's bits and touches no byte outside the region.
  lemma PlacedInsideRegion(x86: bool, f: FieldInfo, region: Region)
    requires 0 < f.bitLength <= 64 && Plain(f)
    ensures Place(x86, f, region).Success? <==>
              && f.bitOffset + f.bitLength <= 8 * region.length <= U64_MAX
              && Limit(x86, region.space).Some?
              && region.offset + (f.bitOffset + f.bitLength + 7) / 8 <= Limit(x86, region.space).value
    ensures Place(x86, f, region).Success? ==>
              var a := Place(x86, f, region).value;
              && a.field.Valid() && 1 <= a.field.Bytes() <= 9
              && region.offset <= a.field.address
              && a.field.address + a.field.Bytes() <= region.offset + region.length
              && a.field.Start() == 8 * region.offset + f.bitOffset && a.field.width == f.bitLength
              && (forall j :: a.field.address <= j < a.field.address + a.field.Bytes() ==> Cast(region.space, j) == j)
  {
    var whole, rest := f.bitOffset / 8, f.bitOffset % 8;
    assert (f.bitOffset + f.bitLength + 7) / 8 == whole + (rest + f.bitLength + 7) / 8;
  }

  // ---------------------------------------------------------------------
  // The whole access, on the declared fields and regions
  // ---------------------------------------------------------------------

  // The entry a path names is the first one declared with it.
  ghost predicate NamesField(fields: seq<FieldInfo>, path: string, i: nat) {
    i < |fields| && fields[i].path == path && forall j :: 0 <= j < i ==> fields[j].path != path
  }

  ghost predicate NamesRegion(regions: seq<Region>, path: string, k: nat) {
    k < |regions| && regions[k].path == path && forall j :: 0 <= j < k ==> regions[j].path != path
  }

  lemma {:induction false} FieldIsFirst(fields: seq<FieldInfo>, path: string, i: nat)
    ensures NamesField(fields, path, i) ==> FindField(fields, path) == Some(fields[i])
    ensures (forall j :: 0 <= j < |fields| ==> fields[j].path != path) <==> FindField(fields, path).None?
  {
    if fields != [] && fields[0].path != path {
      FieldIsFirst(fields[1..], path, if i > 0 then i - 1 else 0);
      assert NamesField(fields, path, i) ==> NamesField(fields[1..], path, i - 1);
      assert forall j :: 0 < j < |fields| ==> fields[j] == fields[1..][j - 1];
    }
  }

  lemma {:induction false} RegionIsFirst(regions: seq<Region>, path: string, k: nat)
    ensures NamesRegion(regions, path, k) ==> FindRegion(regions, path) == Some(regions[k])
    ensures (forall j :: 0 <= j < |regions| ==> regions[j].path != path) <==> FindRegion(regions, path).None?
  {
    if regions != [] && regions[0].path != path {
      RegionIsFirst(regions[1..], path, if k > 0 then k - 1 else 0);
      assert NamesRegion(regions, path, k) ==> NamesRegion(regions[1..], path, k - 1);
      assert forall j :: 0 < j < |regions| ==> regions[j] == regions[1..][j - 1];
    }
  }

  // One past the last address of a space that has accesses at all.
  ghost predicate AddressesEndAt(x86: bool, space: Space, end: nat) {
    || (space.SystemMemory? && end == 0xFFFF_FFFF_FFFF_FFFF)
    || (x86 && space.SystemIO? && end == 0x1_0000)
    || (x86 && space.EmbeddedCtl? && end == 0x100)
  }

  // The access kinds and rules the strict path takes.
  predicate IsPlain(f: FieldInfo) {
    !f.lockRule && f.accessKind in {0, 1} && f.updateRule in {0, 1, 2} && !f.indexed && !f.banked
  }

  // The field lies in its region, and the region's bytes up to the field's last
  // in their address space.
  ghost predicate Fits(x86: bool, f: FieldInfo, region: Region) {
    && f.bitOffset + f.bitLength <= 8 * region.length <= 0xFFFF_FFFF_FFFF_FFFF
    && exists end: nat ::
         && AddressesEndAt(x86, region.space, end)
         && region.offset + (f.bitOffset + f.bitLength + 7) / 8 <= end
  }

  lemma FitsIffPlaced(x86: bool, f: FieldInfo, region: Region)
    requires 0 < f.bitLength <= 64 && Plain(f)
    ensures Fits(x86, f, region) <==> Place(x86, f, region).Success?
    ensures Place(x86, f, region).Failure? ==> Place(x86, f, region).error == Unsupported
  {
    PlacedInsideRegion(x86, f, region);
    var limit := Limit(x86, region.space);
    assert forall end: nat :: AddressesEndAt(x86, region.space, end) <==> limit == Some(end);
    if limit.Some? {
      assert AddressesEndAt(x86, region.space, limit.value);
    }
  }

  // What a path resolves to, and every reason for a refusal.
  lemma ResolveMeans(x86: bool, fields: seq<FieldInfo>, regions: seq<Region>, path: string, i: nat, k: nat)
    ensures Resolve(x86, fields, regions, path) == Failure(NoField) <==>
              forall j :: 0 <= j < |fields| ==> fields[j].path != path
    ensures NamesField(fields, path, i) ==>
              var f, r := fields[i], Resolve(x86, fields, regions, path);
              var wide := f.bitLength == 0 || f.bitLength > 64;
              && (r == Failure(TooWide) <==> wide)
              && (!wide && !IsPlain(f) ==> r == Failure(Unsupported))
              && (r == Failure(NoRegion) <==>
                    !wide && IsPlain(f) && forall j :: 0 <= j < |regions| ==> regions[j].path != f.regionPath)
              && (!wide && IsPlain(f) && NamesRegion(regions, f.regionPath, k) ==>
                    && (r.Success? <==> Fits(x86, f, regions[k]))
                    && (r.Failure? ==> r.error == Unsupported)
                    && (r.Success? ==> r.value.region == regions[k]))
  {
    FieldIsFirst(fields, path, i);
    if NamesField(fields, path, i) && 0 < fields[i].bitLength <= 64 && Plain(fields[i]) {
      RegionIsFirst(regions, fields[i].regionPath, k);
      var region := FindRegion(regions, fields[i].regionPath);
      if region.Some? {
        FitsIffPlaced(x86, fields[i], region.value);
      }
    }
  }

  // The declared field i over region k is accepted.
  ghost predicate Accepts(x86: bool, fields: seq<FieldInfo>, regions: seq<Region>, path: string, i: nat, k: nat) {
    && NamesField(fields, path, i) && NamesRegion(regions, fields[i].regionPath, k)
    && 0 < fields[i].bitLength <= 64 && IsPlain(fields[i]) && Fits(x86, fields[i], regions[k])
  }

  // The bit field a declaration stands for in its region's address space.
  function Declared(f: FieldInfo, region: Region): Field {
    Field(region.offset + f.bitOffset / 8, f.bitOffset % 8, f.bitLength, RuleOf(f.updateRule))
  }

  // An accepted access goes to the first field and region of their paths.
  lemma AcceptedPlace(x86: bool, fields: seq<FieldInfo>, regions: seq<Region>, path: string, i: nat, k: nat)
    requires Accepts(x86, fields, regions, path, i, k)
    ensures Resolve(x86, fields, regions, path) == Success(Access(regions[k], Declared(fields[i], regions[k])))
  {
    FieldIsFirst(fields, path, i);
    RegionIsFirst(regions, fields[i].regionPath, k);
    FitsIffPlaced(x86, fields[i], regions[k]);
  }

  lemma DeclaredBytes(f: FieldInfo, region: Region)
    ensures var g := Declared(f, region);
            && g.address + g.Bytes() == region.offset + (f.bitOffset + f.bitLength + 7) / 8
            && g.Start() == 8 * region.offset + f.bitOffset
  {
    assert (f.bitOffset + f.bitLength + 7) / 8 == f.bitOffset / 8 + (f.bitOffset % 8 + f.bitLength + 7) / 8;
  }

  // A read, on the declaration: a quotient and a remainder of the whole store.
  lemma DeclaredRead(f: FieldInfo, region: Region, s: seq<u8>)
    requires 0 < f.bitLength <= 64 && region.offset + (f.bitOffset + f.bitLength + 7) / 8 <= |s|
    ensures Declared(f, region).In(s)
    ensures ReadField(s, Declared(f, region)) ==
              (LittleEndian(s) / Pow2(8 * region.offset + f.bitOffset)) % Pow2(f.bitLength)
  {
    DeclaredBytes(f, region);
    ReadIsArithmetic(s, Declared(f, region));
  }

  // A write, on the declaration: every bit of the store after the first n bytes
  // have been written. A touched bit outside the field is kept under update
  // rule 0, one under rule 1 and zero under rule 2.
  lemma DeclaredWrite(f: FieldInfo, region: Region, s: seq<u8>, value: u64, n: nat, p: nat)
    requires 0 < f.bitLength <= 64 && f.updateRule <= 2
    requires region.offset + (f.bitOffset + f.bitLength + 7) / 8 <= |s| && p < 8 * |s|
    requires region.offset + f.bitOffset / 8 + n <= region.offset + (f.bitOffset + f.bitLength + 7) / 8
    ensures var lo, start := region.offset + f.bitOffset / 8, 8 * region.offset + f.bitOffset;
            StoreBit(WritePrefix(s, Declared(f, region), value, n), p) <==>
              if p < 8 * lo || p >= 8 * (lo + n) then StoreBit(s, p)
              else if start <= p < start + f.bitLength then Bit(value, p - start)
              else match f.updateRule
                   case 0 => StoreBit(s, p)
                   case 1 => true
                   case _ => false
  {
    DeclaredBytes(f, region);
    BitOfPrefix(s, Declared(f, region), value, n, p);
  }

  // Byte q of the store holds bits outside the field.
  predicate PartlyCovered(f: Field, q: nat) {
    8 * q < f.Start() || f.Start() + f.width < 8 * (q + 1)
  }

  ghost function Window(s: seq<u8>, from: nat, n: nat): seq<u8> {
    if from + n <= |s| then s[from..from + n] else []
  }

  // The bytes behind the three spaces. Memory ends where mappings do; memory
  // and controller accesses may fail at any address, port accesses never do.
  class Platform {
    const memory: array<u8>
    const ports: array<u8>
    const ec: array<u8>

    predicate Valid() {
      ports.Length == 0x1_0000 && ec.Length == 0x100 && memory != ports && memory != ec && ports != ec
    }

    function StoreOf(space: Space): array<u8> {
      match space
      case SystemIO => ports
      case EmbeddedCtl => ec
      case _ => memory
    }

    predicate Reaches(space: Space, address: nat, faults: set<nat>) {
      space.SystemIO? || (address !in faults && (space.EmbeddedCtl? || address < memory.Length))
    }

    // An accepted address of one of the three spaces.
    predicate Legal(space: Space, address: nat) {
      match space
      case SystemMemory => true
      case SystemIO => address < 0x1_0000
      case EmbeddedCtl => address < 0x100
      case _ => false
    }

    method ReadByte(space: Space, address: nat, faults: set<nat>) returns (r: Result<u8>)
      requires Valid() && Legal(space, address)
      ensures r == if Reaches(space, address, faults) then Success(StoreOf(space)[address]) else Failure(Unsupported)
    {
      if !Reaches(space, address, faults) {
        return Failure(Unsupported);
      }
      return Success(StoreOf(space)[Cast(space, address)]);
    }

    method WriteByte(space: Space, address: nat, value: u8, faults: set<nat>) returns (ok: bool)
      requires Valid() && Legal(space, address)
      modifies StoreOf(space)
      ensures ok == Reaches(space, address, faults)
      ensures StoreOf(space)[..] == if ok then old(StoreOf(space)[..])[address := value] else old(StoreOf(space)[..])
    {
      ok := Reaches(space, address, faults);
      if ok {
        StoreOf(space)[Cast(space, address)] := value;
      }
    }

    // How many bytes of the field, from byte i on, can be read.
    function Readable(a: Access, faults: set<nat>, i: nat): (n: nat)
      requires i <= a.field.Bytes()
      ensures i <= n <= a.field.Bytes()
      decreases a.field.Bytes() - i
    {
      if i == a.field.Bytes() || !Reaches(a.region.space, a.field.address + i, faults) then i
      else Readable(a, faults, i + 1)
    }

    method ReadFieldChecked(x86: bool, fields: seq<FieldInfo>, regions: seq<Region>, path: string, faults: set<nat>)
      returns (r: Result<nat>)
      requires Valid()
      ensures Resolve(x86, fields, regions, path).Failure? ==>
                r == Failure(Resolve(x86, fields, regions, path).error)
      ensures Resolve(x86, fields, regions, path).Success? ==>
                var a := Resolve(x86, fields, regions, path).value;
                if Readable(a, faults, 0) < a.field.Bytes() then r == Failure(Unsupported)
                else a.field.In(StoreOf(a.region.space)[..])
                     && r == Success(ReadField(StoreOf(a.region.space)[..], a.field))
    {
      var resolved := Resolve(x86, fields, regions, path);
      if resolved.Failure? {
        return Failure(resolved.error);
      }
      ResolvedIsLegal(x86, fields, regions, path);
      r := ReadResolved(resolved.value, faults);
    }

    method ReadResolved(a: Access, faults: set<nat>) returns (r: Result<nat>)
      requires Valid() && a.field.Valid()
      requires forall j :: a.field.address <= j < a.field.address + a.field.Bytes() ==> Legal(a.region.space, j)
      ensures if Readable(a, faults, 0) < a.field.Bytes() then r == Failure(Unsupported)
              else a.field.In(StoreOf(a.region.space)[..])
                   && r == Success(ReadField(StoreOf(a.region.space)[..], a.field))
    {
      var space, f, bytes := a.region.space, a.field, a.field.Bytes();
      ghost var store := StoreOf(space)[..];
      var raw, i := 0, 0;
      while i < bytes
        invariant 0 <= i <= bytes
        invariant i > 0 ==> f.address + i <= |store|
        invariant Readable(a, faults, 0) == Readable(a, faults, i)
        invariant raw == LittleEndian(Window(store, f.address, i))
      {
        var b := ReadByte(space, f.address + i, faults);
        if b.Failure? {
          return Failure(b.error);
        }
        LittleEndianAppend(Window(store, f.address, i), b.value);
        assert Window(store, f.address, i) + [b.value] == Window(store, f.address, i + 1);
        raw := Or(raw, Shl(b.value, 8 * i));
        i := i + 1;
      }
      AndOnesIsLow(Shr(raw, f.shift), f.width);
      return Success(And(Shr(raw, f.shift), Ones(f.width)));
    }

    lemma ResolvedIsLegal(x86: bool, fields: seq<FieldInfo>, regions: seq<Region>, path: string)
      requires Resolve(x86, fields, regions, path).Success?
      ensures var a := Resolve(x86, fields, regions, path).value;
              && a.field.Valid()
              && forall j :: a.field.address <= j < a.field.address + a.field.Bytes() ==> Legal(a.region.space, j)
    {
      var f := FindField(fields, path).value;
      PlacedInsideRegion(x86, f, FindRegion(regions, f.regionPath).value);
    }

    // A read succeeds exactly when no touched byte faults; ports never do.
    lemma {:induction false} ReadableIff(a: Access, faults: set<nat>, i: nat)
      requires i <= a.field.Bytes()
      ensures Readable(a, faults, i) == a.field.Bytes() <==>
                || a.region.space.SystemIO?
                || forall q :: a.field.address + i <= q < a.field.address + a.field.Bytes() ==>
                     q !in faults && (a.region.space.EmbeddedCtl? || q < memory.Length)
      decreases a.field.Bytes() - i
    {
      if i < a.field.Bytes() {
        var first := a.field.address + i;
        if Reaches(a.region.space, first, faults) {
          ReadableIff(a, faults, i + 1);
          assert Readable(a, faults, i) == Readable(a, faults, i + 1);
        } else {
          assert first in faults || first >= memory.Length;
        }
      }
    }

    // How many bytes of the field, from byte i on, can be written: a byte the
    // field only partly covers is read first under Preserve.
    function Writable(a: Access, readFaults: set<nat>, writeFaults: set<nat>, i: nat): (n: nat)
      requires i <= a.field.Bytes()
      ensures i <= n <= a.field.Bytes()
      decreases a.field.Bytes() - i
    {
      if i == a.field.Bytes()
         || (NeedsRead(a.field, i) && !Reaches(a.region.space, a.field.address + i, readFaults))
         || !Reaches(a.region.space, a.field.address + i, writeFaults)
      then i
      else Writable(a, readFaults, writeFaults, i + 1)
    }

    // Byte q can be written: a port always; otherwise if it is there, does not
    // fault on writing and, when bits of it have to be kept, nor on reading.
    predicate Stores(a: Access, readFaults: set<nat>, writeFaults: set<nat>, q: nat) {
      || a.region.space.SystemIO?
      || (&& q !in writeFaults
          && (a.region.space.EmbeddedCtl? || q < memory.Length)
          && (PartlyCovered(a.field, q) && a.field.rule.Preserve? ==> q !in readFaults))
    }

    lemma StoresIff(a: Access, readFaults: set<nat>, writeFaults: set<nat>, i: nat)
      requires i < a.field.Bytes()
      ensures Stores(a, readFaults, writeFaults, a.field.address + i) <==> Writable(a, readFaults, writeFaults, i) != i
    {
      NeedsReadIff(a.field, i);
    }

    // A write succeeds exactly when every touched byte can be written.
    lemma {:induction false} WritableIff(a: Access, readFaults: set<nat>, writeFaults: set<nat>, i: nat)
      requires i <= a.field.Bytes()
      ensures Writable(a, readFaults, writeFaults, i) == a.field.Bytes() <==>
                forall q :: a.field.address + i <= q < a.field.address + a.field.Bytes() ==>
                  Stores(a, readFaults, writeFaults, q)
      decreases a.field.Bytes() - i
    {
      if i < a.field.Bytes() {
        StoresIff(a, readFaults, writeFaults, i);
        if Stores(a, readFaults, writeFaults, a.field.address + i) {
          WritableIff(a, readFaults, writeFaults, i + 1);
          assert Writable(a, readFaults, writeFaults, i) == Writable(a, readFaults, writeFaults, i + 1);
        }
      }
    }

    // A write that fails at some byte has written exactly the bytes before it.
    method WriteFieldChecked(x86: bool, fields: seq<FieldInfo>, regions: seq<Region>, path: string, value: u64,
                             readFaults: set<nat>, writeFaults: set<nat>)
      returns (r: Result<()>)
      requires Valid()
      modifies memory, ports, ec
      ensures Resolve(x86, fields, regions, path).Failure? ==>
                && r == Failure(Resolve(x86, fields, regions, path).error)
                && memory[..] == old(memory[..]) && ports[..] == old(ports[..]) && ec[..] == old(ec[..])
      ensures Resolve(x86, fields, regions, path).Success? ==>
                var a := Resolve(x86, fields, regions, path).value;
                var n := Writable(a, readFaults, writeFaults, 0);
                && r == (if n == a.field.Bytes() then Success(()) else Failure(Unsupported))
                && StoreOf(a.region.space)[..] == WritePrefix(old(StoreOf(a.region.space)[..]), a.field, value, n)
                && (StoreOf(a.region.space) != memory ==> memory[..] == old(memory[..]))
                && (StoreOf(a.region.space) != ports ==> ports[..] == old(ports[..]))
                && (StoreOf(a.region.space) != ec ==> ec[..] == old(ec[..]))
    {
      var resolved := Resolve(x86, fields, regions, path);
      if resolved.Failure? {
        return Failure(resolved.error);
      }
      ResolvedIsLegal(x86, fields, regions, path);
      r := WriteResolved(resolved.value, value, readFaults, writeFaults);
    }

    // The byte the update rule starts from, read only when it is needed.
    method ReadBackground(a: Access, i: nat, faults: set<nat>) returns (r: Result<u8>)
      requires Valid() && Legal(a.region.space, a.field.address + i)
      ensures r.Failure? <==> NeedsRead(a.field, i) && !Reaches(a.region.space, a.field.address + i, faults)
      ensures r.Failure? ==> r.error.Unsupported?
      ensures r.Success? && a.field.address + i < StoreOf(a.region.space).Length ==>
                r.value == Background(a.field, StoreOf(a.region.space)[a.field.address + i], i)
    {
      if ByteMask(a.field, i) == 255 {
        return Success(0);
      }
      match a.field.rule
      case Preserve => r := ReadByte(a.region.space, a.field.address + i, faults);
      case WriteAsOnes => r := Success(255);
      case WriteAsZeros => r := Success(0);
    }

    method WriteResolved(a: Access, value: u64, readFaults: set<nat>, writeFaults: set<nat>) returns (r: Result<()>)
      requires Valid()
      requires forall j :: a.field.address <= j < a.field.address + a.field.Bytes() ==> Legal(a.region.space, j)
      modifies StoreOf(a.region.space)
      ensures var n := Writable(a, readFaults, writeFaults, 0);
              && r == (if n == a.field.Bytes() then Success(()) else Failure(Unsupported))
              && StoreOf(a.region.space)[..] == WritePrefix(old(StoreOf(a.region.space)[..]), a.field, value, n)
    {
      var space, f, bytes := a.region.space, a.field, a.field.Bytes();
      var i := 0;
      ghost var was := StoreOf(space)[..];
      while i < bytes
        invariant 0 <= i <= bytes
        invariant Writable(a, readFaults, writeFaults, 0) == Writable(a, readFaults, writeFaults, i)
        invariant StoreOf(space)[..] == WritePrefix(was, f, value, i)
      {
        var from := ReadBackground(a, i, readFaults);
        if from.Failure? {
          return Failure(from.error);
        }
        var ok := WriteByte(space, f.address + i, Merge(f, value, from.value, i), writeFaults);
        if !ok {
          return Failure(Unsupported);
        }
        WritePrefixStep(was, f, value, i);
        i := i + 1;
      }
      return Success(());
    }
  }
}
