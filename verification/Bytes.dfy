// Little-endian integers in byte tables.

module Bytes {
  import opened Words

  function U16At(b: seq<u8>, i: nat): u16
    requires i + 2 <= |b|
  {
    b[i] as int + 0x100 * b[i + 1] as int
  }

  function U32At(b: seq<u8>, i: nat): u32
    requires i + 4 <= |b|
  {
    U16At(b, i) as int + 0x1_0000 * U16At(b, i + 2) as int
  }

  function U64At(b: seq<u8>, i: nat): u64
    requires i + 8 <= |b|
  {
    U32At(b, i) as int + 0x1_0000_0000 * U32At(b, i + 4) as int
  }

  function Le16(x: u16): (b: seq<u8>)
    ensures |b| == 2
  {
    [x % 0x100, x / 0x100]
  }

  function Le32(x: u32): (b: seq<u8>)
    ensures |b| == 4
  {
    Le16(x % 0x1_0000) + Le16(x / 0x1_0000)
  }

  function Le64(x: u64): (b: seq<u8>)
    ensures |b| == 8
  {
    Le32(x % 0x1_0000_0000) + Le32(x / 0x1_0000_0000)
  }

  // The bytes of `part` stand in b from position `at` on.
  predicate Holds(b: seq<u8>, at: nat, part: seq<u8>)
    decreases part
  {
    at + |part| <= |b| && (part == [] || (b[at] == part[0] && Holds(b, at + 1, part[1..])))
  }

  lemma {:induction false} HoldsAt(b: seq<u8>, at: nat, part: seq<u8>, i: nat)
    requires Holds(b, at, part) && i < |part|
    ensures at + i < |b| && b[at + i] == part[i]
    decreases i
  {
    if i > 0 {
      HoldsAt(b, at + 1, part[1..], i - 1);
    }
  }

  lemma {:induction false} HoldsSlice(b: seq<u8>, at: nat, part: seq<u8>)
    ensures Holds(b, at, part) <==> at + |part| <= |b| && b[at..at + |part|] == part
    decreases part
  {
    if part != [] {
      HoldsSlice(b, at + 1, part[1..]);
      if at + |part| <= |b| {
        assert b[at..at + |part|] == [b[at]] + b[at + 1..at + |part|];
        assert part == [part[0]] + part[1..];
      }
    }
  }

  lemma {:induction false} HoldsSplit(b: seq<u8>, at: nat, x: seq<u8>, y: seq<u8>)
    requires Holds(b, at, x + y)
    ensures Holds(b, at, x) && Holds(b, at + |x|, y)
    decreases x
  {
    if x == [] {
      assert x + y == y;
    } else {
      assert (x + y)[1..] == x[1..] + y;
      HoldsSplit(b, at + 1, x[1..], y);
    }
  }

  lemma HoldsSplit3(b: seq<u8>, at: nat, x: seq<u8>, y: seq<u8>, z: seq<u8>)
    requires Holds(b, at, x + (y + z))
    ensures Holds(b, at, x) && Holds(b, at + |x|, y) && Holds(b, at + |x| + |y|, z)
  {
    HoldsSplit(b, at, x, y + z);
    HoldsSplit(b, at + |x|, y, z);
  }

  lemma HoldsLe16(b: seq<u8>, at: nat, x: u16)
    requires Holds(b, at, Le16(x))
    ensures at + 2 <= |b| && U16At(b, at) == x
  {
    HoldsAt(b, at, Le16(x), 0);
    HoldsAt(b, at, Le16(x), 1);
  }

  lemma HoldsLe32(b: seq<u8>, at: nat, x: u32)
    requires Holds(b, at, Le32(x))
    ensures at + 4 <= |b| && U32At(b, at) == x
  {
    HoldsSplit(b, at, Le16(x % 0x1_0000), Le16(x / 0x1_0000));
    HoldsLe16(b, at, x % 0x1_0000);
    HoldsLe16(b, at + 2, x / 0x1_0000);
  }

  lemma HoldsLe64(b: seq<u8>, at: nat, x: u64)
    requires Holds(b, at, Le64(x))
    ensures at + 8 <= |b| && U64At(b, at) == x
  {
    HoldsSplit(b, at, Le32(x % 0x1_0000_0000), Le32(x / 0x1_0000_0000));
    HoldsLe32(b, at, x % 0x1_0000_0000);
    HoldsLe32(b, at + 4, x / 0x1_0000_0000);
  }

  // Reading an integer and what follows it.
  lemma TakeLe16(b: seq<u8>, at: nat, x: u16, rest: seq<u8>)
    requires Holds(b, at, Le16(x) + rest)
    ensures at + 2 <= |b| && U16At(b, at) == x && Holds(b, at + 2, rest)
  {
    HoldsSplit(b, at, Le16(x), rest);
    HoldsLe16(b, at, x);
  }

  lemma TakeLe32(b: seq<u8>, at: nat, x: u32, rest: seq<u8>)
    requires Holds(b, at, Le32(x) + rest)
    ensures at + 4 <= |b| && U32At(b, at) == x && Holds(b, at + 4, rest)
  {
    HoldsSplit(b, at, Le32(x), rest);
    HoldsLe32(b, at, x);
  }

  lemma TakeLe64(b: seq<u8>, at: nat, x: u64, rest: seq<u8>)
    requires Holds(b, at, Le64(x) + rest)
    ensures at + 8 <= |b| && U64At(b, at) == x && Holds(b, at + 8, rest)
  {
    HoldsSplit(b, at, Le64(x), rest);
    HoldsLe64(b, at, x);
  }
}
