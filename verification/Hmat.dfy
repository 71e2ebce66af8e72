// The Heterogeneous Memory Attribute Table: latency and bandwidth matrices
// decoded into one flat pair table, and the lookup that scans a record's slice
// of it.

module Hmat {
  import opened Words
  import opened Bytes

  const MAX_ATTRS: nat := 16
  const MAX_RECORDS: nat := 8
  const MAX_PAIRS: nat := 256

  datatype Kind =
    | AccessLatency | ReadLatency | WriteLatency
    | AccessBandwidth | ReadBandwidth | WriteBandwidth
    | Other(code: u8)

  function KindOf(code: u8): Kind {
    match code
    case 0 => AccessLatency
    case 1 => ReadLatency
    case 2 => WriteLatency
    case 3 => AccessBandwidth
    case 4 => ReadBandwidth
    case 5 => WriteBandwidth
    case _ => Other(code)
  }

  datatype Attr = Attr(processor: u32, memory: u32, flags: u16)

  datatype Pair = Pair(initiator: u32, target: u32, value: u16)

  // `offset` is where the record's pairs start in the pair table.
  datatype Record = Record(kind: Kind, hierarchy: u8, initiators: u32, targets: u32, baseUnit: u64, offset: nat)

  // The tables. `sources` keeps, per record, all the cells of its matrix.
  datatype Tables = Tables(attrs: seq<Attr>, records: seq<Record>, pairs: seq<Pair>, sources: seq<seq<Pair>>)

  const EMPTY := Tables([], [], [], [])

  // ---------------------------------------------------------------------
  // Decoding a matrix
  // ---------------------------------------------------------------------

  function CellAt(body: seq<u8>, initiator: nat, target: nat, value: nat): Pair
    requires initiator + 4 <= |body| && target + 4 <= |body| && value + 2 <= |body|
  {
    Pair(U32At(body, initiator), U32At(body, target), U16At(body, value))
  }

  // n cells of one row: one initiator, successive targets and values.
  function DecodeRow(body: seq<u8>, initiator: nat, target: nat, value: nat, n: nat): (cells: seq<Pair>)
    requires initiator + 4 <= |body| && target + 4 * n <= |body| && value + 2 * n <= |body|
    ensures |cells| == n
    decreases n
  {
    if n == 0 then []
    else [CellAt(body, initiator, target, value)] + DecodeRow(body, initiator, target + 4, value + 2, n - 1)
  }

  // m times n, row by row.
  function Area(m: nat, n: nat): nat {
    if m == 0 then 0 else n + Area(m - 1, n)
  }

  lemma {:induction false} AreaIsProduct(m: nat, n: nat)
    ensures Area(m, n) == m * n
  {
    if m > 0 {
      AreaIsProduct(m - 1, n);
      assert (m - 1) * n + n == m * n;
    }
  }

  // m initiators, n targets and m times n values lie inside the table.
  predicate Fits(body: seq<u8>, initiator: nat, target: nat, value: nat, m: nat, n: nat) {
    initiator + 4 * m <= |body| && target + 4 * n <= |body| && value + 2 * Area(m, n) <= |body|
  }

  // m rows of n cells, in row-major order.
  function DecodeRows(body: seq<u8>, initiator: nat, target: nat, value: nat, m: nat, n: nat): (cells: seq<Pair>)
    requires Fits(body, initiator, target, value, m, n)
    ensures |cells| == Area(m, n)
    decreases m
  {
    if m == 0 then []
    else
      DecodeRow(body, initiator, target, value, n)
      + DecodeRows(body, initiator + 4, target, value + 2 * n, m - 1, n)
  }

  lemma {:induction false} RowCell(
    body: seq<u8>, initiator: nat, target: nat, value: nat, n: nat, j: nat, b: nat, v: nat)
    requires initiator + 4 <= |body| && target + 4 * n <= |body| && value + 2 * n <= |body| && j < n
    requires b == target + 4 * j && v == value + 2 * j
    ensures DecodeRow(body, initiator, target, value, n)[j] == CellAt(body, initiator, b, v)
    decreases n
  {
    if j > 0 {
      RowCell(body, initiator, target + 4, value + 2, n - 1, j - 1, b, v);
    }
  }

  // The position of cell j of row i in a matrix of n columns.
  function CellIndex(i: nat, j: nat, n: nat): nat {
    if i == 0 then j else n + CellIndex(i - 1, j, n)
  }

  lemma {:induction false} CellIndexIsRowMajor(i: nat, j: nat, n: nat)
    ensures CellIndex(i, j, n) == i * n + j
  {
    if i > 0 {
      CellIndexIsRowMajor(i - 1, j, n);
      assert (i - 1) * n + n == i * n;
    }
  }

  lemma RowsUnfold(body: seq<u8>, initiator: nat, target: nat, value: nat, m: nat, n: nat)
    requires Fits(body, initiator, target, value, m, n) && m > 0
    ensures value + 2 * n <= |body| && Fits(body, initiator + 4, target, value + 2 * n, m - 1, n)
    ensures DecodeRows(body, initiator, target, value, m, n) ==
              DecodeRow(body, initiator, target, value, n)
              + DecodeRows(body, initiator + 4, target, value + 2 * n, m - 1, n)
  {
  }

  lemma {:induction false} CellInside(i: nat, j: nat, m: nat, n: nat)
    requires i < m && j < n
    ensures CellIndex(i, j, n) < Area(m, n)
  {
    if i > 0 {
      CellInside(i - 1, j, m - 1, n);
    }
  }

  lemma FirstRowCell(body: seq<u8>, initiator: nat, target: nat, value: nat, m: nat, n: nat, j: nat)
    requires Fits(body, initiator, target, value, m, n) && m > 0 && j < n
    ensures j < Area(m, n) && value + 2 * n <= |body|
    ensures DecodeRows(body, initiator, target, value, m, n)[j] == DecodeRow(body, initiator, target, value, n)[j]
  {
    CellInside(0, j, m, n);
    RowsUnfold(body, initiator, target, value, m, n);
  }

  lemma LaterRowCell(body: seq<u8>, initiator: nat, target: nat, value: nat, m: nat, n: nat, p: nat)
    requires Fits(body, initiator, target, value, m, n) && m > 0 && p < Area(m - 1, n)
    ensures n + p < Area(m, n) && Fits(body, initiator + 4, target, value + 2 * n, m - 1, n)
    ensures DecodeRows(body, initiator, target, value, m, n)[n + p] ==
              DecodeRows(body, initiator + 4, target, value + 2 * n, m - 1, n)[p]
  {
    RowsUnfold(body, initiator, target, value, m, n);
  }

  lemma {:induction false} CellPlaced(
    body: seq<u8>, initiator: nat, target: nat, value: nat, m: nat, n: nat, i: nat, j: nat, a: nat, b: nat, v: nat)
    requires Fits(body, initiator, target, value, m, n) && i < m && j < n
    requires a == initiator + 4 * i && b == target + 4 * j && v == value + 2 * CellIndex(i, j, n)
    ensures CellIndex(i, j, n) < Area(m, n) && v + 2 <= |body|
    ensures DecodeRows(body, initiator, target, value, m, n)[CellIndex(i, j, n)] == CellAt(body, a, b, v)
    decreases i
  {
    if i == 0 {
      FirstRowCell(body, initiator, target, value, m, n, j);
      RowCell(body, initiator, target, value, n, j, b, v);
    } else {
      CellInside(i - 1, j, m - 1, n);
      LaterRowCell(body, initiator, target, value, m, n, CellIndex(i - 1, j, n));
      CellPlaced(body, initiator + 4, target, value + 2 * n, m - 1, n, i - 1, j, a, b, v);
    }
  }

  // Cell j of row i pairs initiator i and target j with the value at position
  // i * n + j of the matrix.
  lemma MatrixCell(body: seq<u8>, initiator: nat, target: nat, value: nat, m: nat, n: nat, i: nat, j: nat)
    requires Fits(body, initiator, target, value, m, n) && i < m && j < n
    ensures var p, cells := i * n + j, DecodeRows(body, initiator, target, value, m, n);
            0 <= p < |cells| && value + 2 * p + 2 <= |body|
            && cells[p] == CellAt(body, initiator + 4 * i, target + 4 * j, value + 2 * p)
  {
    var p := CellIndex(i, j, n);
    CellIndexIsRowMajor(i, j, n);
    CellPlaced(body, initiator, target, value, m, n, i, j, initiator + 4 * i, target + 4 * j, value + 2 * p);
  }

  // Cells pushed one by one until the pair table is full.
  function Fill(pairs: seq<Pair>, cells: seq<Pair>): (r: seq<Pair>)
    ensures |pairs| <= MAX_PAIRS ==> |r| <= MAX_PAIRS
    decreases |cells|
  {
    if cells == [] || |pairs| >= MAX_PAIRS then pairs else Fill(pairs + [cells[0]], cells[1..])
  }

  // That is as many of the cells as still fit.
  lemma {:induction false} FillAppends(pairs: seq<Pair>, cells: seq<Pair>)
    requires |pairs| <= MAX_PAIRS
    ensures Fill(pairs, cells) == pairs + cells[..Min(|cells|, MAX_PAIRS - |pairs|)]
    decreases |cells|
  {
    if cells != [] && |pairs| < MAX_PAIRS {
      FillAppends(pairs + [cells[0]], cells[1..]);
      var k := Min(|cells|, MAX_PAIRS - |pairs|);
      assert cells[..k] == [cells[0]] + cells[1..][..k - 1];
    }
  }

  lemma FillStep(pairs: seq<Pair>, cell: Pair, rest: seq<Pair>)
    requires |pairs| < MAX_PAIRS
    ensures Fill(pairs, [cell] + rest) == Fill(pairs + [cell], rest)
  {
    assert ([cell] + rest)[1..] == rest;
  }

  lemma {:induction false} FillTwice(pairs: seq<Pair>, a: seq<Pair>, b: seq<Pair>)
    requires |pairs| <= MAX_PAIRS
    ensures Fill(Fill(pairs, a), b) == Fill(pairs, a + b)
    decreases |a|
  {
    if a == [] {
      assert a + b == b;
    } else if |pairs| < MAX_PAIRS {
      assert (a + b)[1..] == a[1..] + b;
      FillTwice(pairs + [a[0]], a[1..], b);
    }
  }

  // Filling with a matrix is filling with its first row, then with the rest.
  lemma FillRows(pairs: seq<Pair>, body: seq<u8>, initiator: nat, target: nat, value: nat, m: nat, n: nat)
    requires |pairs| <= MAX_PAIRS && Fits(body, initiator, target, value, m, n) && m > 0
    ensures value + 2 * n <= |body| && Fits(body, initiator + 4, target, value + 2 * n, m - 1, n)
    ensures Fill(pairs, DecodeRows(body, initiator, target, value, m, n)) ==
              Fill(Fill(pairs, DecodeRow(body, initiator, target, value, n)),
                   DecodeRows(body, initiator + 4, target, value + 2 * n, m - 1, n))
  {
    RowsUnfold(body, initiator, target, value, m, n);
    FillTwice(pairs, DecodeRow(body, initiator, target, value, n),
              DecodeRows(body, initiator + 4, target, value + 2 * n, m - 1, n));
  }

  lemma FillFull(pairs: seq<Pair>, rest: seq<Pair>)
    requires |pairs| == MAX_PAIRS
    ensures Fill(pairs, rest) == pairs
  {
  }

  // Filling row by row.
  function FillAll(pairs: seq<Pair>, body: seq<u8>, initiator: nat, target: nat, value: nat, m: nat, n: nat): seq<Pair>
    requires |pairs| <= MAX_PAIRS && Fits(body, initiator, target, value, m, n)
    decreases m
  {
    if m == 0 then pairs
    else
      FillRows(pairs, body, initiator, target, value, m, n);
      var next := Fill(pairs, DecodeRow(body, initiator, target, value, n));
      FillAll(next, body, initiator + 4, target, value + 2 * n, m - 1, n)
  }

  lemma FillAllStep(
    pairs: seq<Pair>, body: seq<u8>, initiator: nat, target: nat, value: nat, m: nat, n: nat, next: seq<Pair>)
    requires |pairs| <= MAX_PAIRS && Fits(body, initiator, target, value, m, n) && m > 0 && |next| <= MAX_PAIRS
    requires value + 2 * n <= |body| && Fits(body, initiator + 4, target, value + 2 * n, m - 1, n)
    requires next == Fill(pairs, DecodeRow(body, initiator, target, value, n))
    ensures FillAll(pairs, body, initiator, target, value, m, n) ==
              FillAll(next, body, initiator + 4, target, value + 2 * n, m - 1, n)
  {
  }

  lemma {:induction false} FillAllIsFill(
    pairs: seq<Pair>, body: seq<u8>, initiator: nat, target: nat, value: nat, m: nat, n: nat)
    requires |pairs| <= MAX_PAIRS && Fits(body, initiator, target, value, m, n)
    ensures FillAll(pairs, body, initiator, target, value, m, n) ==
              Fill(pairs, DecodeRows(body, initiator, target, value, m, n))
    decreases m
  {
    if m > 0 {
      FillRows(pairs, body, initiator, target, value, m, n);
      var next := Fill(pairs, DecodeRow(body, initiator, target, value, n));
      FillAllIsFill(next, body, initiator + 4, target, value + 2 * n, m - 1, n);
      FillAllStep(pairs, body, initiator, target, value, m, n, next);
    }
  }

  lemma FillAllFull(pairs: seq<Pair>, body: seq<u8>, initiator: nat, target: nat, value: nat, m: nat, n: nat)
    requires |pairs| == MAX_PAIRS && Fits(body, initiator, target, value, m, n)
    ensures FillAll(pairs, body, initiator, target, value, m, n) == pairs
  {
    FillAllIsFill(pairs, body, initiator, target, value, m, n);
    FillFull(pairs, DecodeRows(body, initiator, target, value, m, n));
  }

  // ---------------------------------------------------------------------
  // Parsing the structures
  // ---------------------------------------------------------------------

  // The byte offsets of a locality structure are computed in 64-bit words.
  function MatrixEnd(initiators: u32, targets: u32): nat {
    32 + 4 * initiators + 4 * targets + 2 * Area(initiators, targets)
  }

  // Without overflow checks the end wraps around, and the size test is made on
  // the wrapped end.
  function WrappedEnd(initiators: u32, targets: u32): u64 {
    MatrixEnd(initiators, targets) % 0x1_0000_0000_0000_0000
  }

  lemma MulAtMost(a: nat, b: nat, c: nat, d: nat)
    requires a <= c && b <= d
    ensures a * b <= c * d
  {
    assert a * b <= c * b <= c * d;
  }

  // The wrapped test is the exact one unless the end overflows. Then the first
  // target lies outside every structure, whose length has 32 bits: with room in
  // both tables the decoder reads out of bounds.
  lemma WrappedTest(m: u32, n: u32)
    ensures WrappedEnd(m, n) == MatrixEnd(m, n) <==> MatrixEnd(m, n) <= U64_MAX
    ensures MatrixEnd(m, n) > U64_MAX ==> 32 + 4 * m > U32_MAX
  {
    AreaIsProduct(m, n);
    if 32 + 4 * m <= U32_MAX {
      MulAtMost(m, n, 0x4000_0000, 0x1_0000_0000);
    }
  }

  // Such a test passes for a structure of 32 bytes.
  lemma WrappedTestCanPass()
    ensures WrappedEnd(0xFFFF_FFFE, 0xFFFF_FFFE) == 24 && MatrixEnd(0xFFFF_FFFE, 0xFFFF_FFFE) > U64_MAX
  {
    AreaIsProduct(0xFFFF_FFFE, 0xFFFF_FFFE);
  }

  datatype Outcome = Done(tables: Tables, count: nat) | Overflow

  function AddAttr(t: Tables, body: seq<u8>, cur: nat): Tables
    requires cur + 40 <= |body|
  {
    t.(attrs := t.attrs + [Attr(U32At(body, cur + 12), U32At(body, cur + 16), U16At(body, cur + 8))])
  }

  // The matrix of the locality structure at cur, with m initiators and n targets.
  function MatrixAt(body: seq<u8>, cur: nat, m: u32, n: u32): (cells: seq<Pair>)
    requires cur + MatrixEnd(m, n) <= |body|
    ensures |cells| == Area(m, n)
  {
    DecodeRows(body, cur + 32, cur + 32 + 4 * m, cur + 32 + 4 * m + 4 * n, m, n)
  }

  function RecordAt(body: seq<u8>, cur: nat, m: u32, n: u32, offset: nat): Record
    requires cur + 32 <= |body|
  {
    Record(KindOf(body[cur + 9]), body[cur + 8] % 16, m, n, U64At(body, cur + 24), offset)
  }

  function AddRecord(t: Tables, body: seq<u8>, cur: nat, m: u32, n: u32): Tables
    requires cur + 32 <= |body| && cur + MatrixEnd(m, n) <= |body|
  {
    Tables(t.attrs, t.records + [RecordAt(body, cur, m, n, |t.pairs|)], Fill(t.pairs, MatrixAt(body, cur, m, n)),
           t.sources + [MatrixAt(body, cur, m, n)])
  }

  // What one turn of the decode loop does: stop, overflow, or go on past a
  // structure that was or was not recorded.
  datatype Turn = Stop | TooLarge | Next(len: nat, tables: Tables, recorded: bool)

  function TurnAt(body: seq<u8>, cur: nat, t: Tables): (turn: Turn)
    ensures turn.Next? ==> 8 <= turn.len && cur + turn.len <= |body|
  {
    if cur + 8 > |body| then Stop
    else
      var kind, len := U16At(body, cur), U32At(body, cur + 4);
      if len < 8 || cur + len > |body| then Stop
      else if kind == 0 && len >= 40 then
        if |t.attrs| < MAX_ATTRS then Next(len, AddAttr(t, body, cur), true) else Next(len, t, false)
      else if kind == 1 && len >= 32 then
        var m, n := U32At(body, cur + 12), U32At(body, cur + 16);
        var end := MatrixEnd(m, n);
        if end > U64_MAX then TooLarge
        else if end > len then Stop
        else if |t.records| >= MAX_RECORDS then Next(len, t, false)
        else Next(len, AddRecord(t, body, cur, m, n), true)
      else Next(len, t, false)
  }

  function Parse(body: seq<u8>, cur: nat, t: Tables, count: nat): Outcome
    decreases |body| - cur
  {
    match TurnAt(body, cur, t)
    case Stop => Done(t, count)
    case TooLarge => Overflow
    case Next(len, t', recorded) => Parse(body, cur + len, t', if recorded then count + 1 else count)
  }

  // ---------------------------------------------------------------------
  // Index agreement
  // ---------------------------------------------------------------------

  // Where record k starts, counted from the matrices alone: everything before
  // it, as far as the pair table reaches.
  function Offset(sources: seq<seq<Pair>>, k: nat): (r: nat)
    requires k <= |sources|
    ensures r <= MAX_PAIRS
  {
    if k == 0 then 0 else Min(MAX_PAIRS, Offset(sources, k - 1) + |sources[k - 1]|)
  }

  // The cells of record k that fitted in the pair table.
  function Fitted(sources: seq<seq<Pair>>, k: nat): (cells: seq<Pair>)
    requires k < |sources|
  {
    sources[k][..Min(|sources[k]|, MAX_PAIRS - Offset(sources, k))]
  }

  // The slice the lookup scans for a record.
  function Window(t: Tables, r: Record): seq<Pair>
    requires r.offset <= |t.pairs|
  {
    t.pairs[r.offset..r.offset + Min(Area(r.initiators, r.targets), |t.pairs| - r.offset)]
  }

  lemma {:induction false} OffsetOfPrefix(sources: seq<seq<Pair>>, more: seq<Pair>, k: nat)
    requires k <= |sources|
    ensures Offset(sources + [more], k) == Offset(sources, k)
  {
    if k > 0 {
      OffsetOfPrefix(sources, more, k - 1);
    }
  }

  // Each record starts where its matrix does, and its fitted cells stand there.
  ghost predicate Placed(t: Tables, k: nat)
    requires k < |t.records| == |t.sources|
  {
    && t.records[k].offset == Offset(t.sources, k)
    && Area(t.records[k].initiators, t.records[k].targets) == |t.sources[k]|
    && Offset(t.sources, k) + |Fitted(t.sources, k)| <= |t.pairs|
    && t.pairs[Offset(t.sources, k)..Offset(t.sources, k) + |Fitted(t.sources, k)|] == Fitted(t.sources, k)
  }

  ghost predicate Agrees(t: Tables) {
    && |t.records| == |t.sources|
    && |t.pairs| == Offset(t.sources, |t.sources|)
    && forall k :: 0 <= k < |t.records| ==> Placed(t, k)
  }

  lemma OldPlacedAfterAdd(t: Tables, body: seq<u8>, cur: nat, m: u32, n: u32, k: nat)
    requires Agrees(t) && cur + 32 <= |body| && cur + MatrixEnd(m, n) <= |body| && k < |t.records|
    ensures Placed(AddRecord(t, body, cur, m, n), k)
  {
    var t', cells := AddRecord(t, body, cur, m, n), MatrixAt(body, cur, m, n);
    OffsetOfPrefix(t.sources, cells, k);
    FillAppends(t.pairs, cells);
    assert Placed(t, k);
    assert Fitted(t'.sources, k) == Fitted(t.sources, k);
    var at := Offset(t.sources, k);
    var end := at + |Fitted(t.sources, k)|;
    assert t'.pairs[at..end] == t.pairs[at..end];
  }

  lemma NewPlacedAfterAdd(t: Tables, body: seq<u8>, cur: nat, m: u32, n: u32)
    requires Agrees(t) && cur + 32 <= |body| && cur + MatrixEnd(m, n) <= |body|
    ensures Placed(AddRecord(t, body, cur, m, n), |t.records|)
  {
    var t', cells, k := AddRecord(t, body, cur, m, n), MatrixAt(body, cur, m, n), |t.records|;
    OffsetOfPrefix(t.sources, cells, k);
    FillAppends(t.pairs, cells);
    assert Fitted(t'.sources, k) == cells[..Min(|cells|, MAX_PAIRS - |t.pairs|)];
  }

  lemma AddKeepsAgreement(t: Tables, body: seq<u8>, cur: nat, m: u32, n: u32)
    requires Agrees(t) && cur + 32 <= |body| && cur + MatrixEnd(m, n) <= |body|
    ensures Agrees(AddRecord(t, body, cur, m, n))
  {
    var t' := AddRecord(t, body, cur, m, n);
    FillAppends(t.pairs, MatrixAt(body, cur, m, n));
    OffsetOfPrefix(t.sources, MatrixAt(body, cur, m, n), |t.sources|);
    forall k | 0 <= k < |t'.records|
      ensures Placed(t', k)
    {
      if k < |t.records| {
        OldPlacedAfterAdd(t, body, cur, m, n, k);
      } else {
        NewPlacedAfterAdd(t, body, cur, m, n);
      }
    }
  }

  lemma AttrKeepsAgreement(t: Tables, body: seq<u8>, cur: nat)
    requires Agrees(t) && cur + 40 <= |body|
    ensures Agrees(AddAttr(t, body, cur))
  {
    var t' := AddAttr(t, body, cur);
    forall k | 0 <= k < |t'.records|
      ensures Placed(t', k)
    {
      assert Placed(t, k);
    }
  }

  lemma TurnKeepsAgreement(body: seq<u8>, cur: nat, t: Tables)
    requires Agrees(t)
    ensures TurnAt(body, cur, t).Next? ==> Agrees(TurnAt(body, cur, t).tables)
  {
    if cur + 8 <= |body| {
      var kind, len := U16At(body, cur), U32At(body, cur + 4);
      if 8 <= len && cur + len <= |body| {
        if kind == 0 && len >= 40 {
          AttrKeepsAgreement(t, body, cur);
        } else if kind == 1 && len >= 32 {
          var m, n := U32At(body, cur + 12), U32At(body, cur + 16);
          if MatrixEnd(m, n) <= len {
            AddKeepsAgreement(t, body, cur, m, n);
          }
        }
      }
    }
  }

  // Every parse that finishes leaves records and pairs in agreement.
  lemma {:induction false} ParseAgrees(body: seq<u8>, cur: nat, t: Tables, count: nat)
    requires Agrees(t)
    ensures Parse(body, cur, t, count).Done? ==> Agrees(Parse(body, cur, t, count).tables)
    decreases |body| - cur
  {
    TurnKeepsAgreement(body, cur, t);
    match TurnAt(body, cur, t)
    case Stop =>
    case TooLarge =>
    case Next(len, t', recorded) => ParseAgrees(body, cur + len, t', if recorded then count + 1 else count);
  }

  // The slice scanned for a record is exactly its fitted cells.
  lemma WindowIsFitted(t: Tables, k: nat)
    requires Agrees(t) && k < |t.records|
    ensures t.records[k].offset <= |t.pairs| && Window(t, t.records[k]) == Fitted(t.sources, k)
  {
    assert Placed(t, k);
    OffsetsRise(t.sources, k + 1, |t.sources|);
  }

  lemma {:induction false} OffsetsRise(sources: seq<seq<Pair>>, j: nat, k: nat)
    requires j <= k <= |sources|
    ensures Offset(sources, j) <= Offset(sources, k)
    decreases k
  {
    if j < k {
      OffsetsRise(sources, j, k - 1);
    }
  }

  // Slices of different records never overlap.
  lemma WindowsDisjoint(t: Tables, j: nat, k: nat)
    requires Agrees(t) && j < k < |t.records|
    ensures t.records[j].offset + |Fitted(t.sources, j)| <= t.records[k].offset
  {
    assert Placed(t, j) && Placed(t, k);
    OffsetsRise(t.sources, j + 1, k);
  }

  // ---------------------------------------------------------------------
  // Lookup
  // ---------------------------------------------------------------------

  function FirstValue(cells: seq<Pair>, initiator: u32, target: u32): Option<u16> {
    if cells == [] then None
    else if cells[0].initiator == initiator && cells[0].target == target then Some(cells[0].value)
    else FirstValue(cells[1..], initiator, target)
  }

  function SaturatingMul(a: u64, b: u16): u64 {
    assert a * b >= 0;
    Min(a * b, U64_MAX)
  }

  predicate Bounded(t: Tables) {
    forall k :: 0 <= k < |t.records| ==> t.records[k].offset <= |t.pairs|
  }

  // The lookup from record k on: the first record of the wanted kind and
  // hierarchy whose slice has the pair.
  function Lookup(t: Tables, kind: Kind, hierarchy: u8, initiator: u32, target: u32, k: nat): Option<u64>
    requires Bounded(t) && k <= |t.records|
    decreases |t.records| - k
  {
    if k == |t.records| then None
    else
      var r := t.records[k];
      var found := FirstValue(Window(t, r), initiator, target);
      if r.kind == kind && r.hierarchy == hierarchy && found.Some? then Some(SaturatingMul(r.baseUnit, found.value))
      else Lookup(t, kind, hierarchy, initiator, target, k + 1)
  }

  // The same on the matrices themselves, without the flat table.
  function MatrixLookup(t: Tables, kind: Kind, hierarchy: u8, initiator: u32, target: u32, k: nat): Option<u64>
    requires |t.records| == |t.sources| && k <= |t.records|
    decreases |t.records| - k
  {
    if k == |t.records| then None
    else
      var r := t.records[k];
      var found := FirstValue(Fitted(t.sources, k), initiator, target);
      if r.kind == kind && r.hierarchy == hierarchy && found.Some? then Some(SaturatingMul(r.baseUnit, found.value))
      else MatrixLookup(t, kind, hierarchy, initiator, target, k + 1)
  }

  lemma {:induction false} LookupReadsMatrices(
    t: Tables, kind: Kind, hierarchy: u8, initiator: u32, target: u32, k: nat)
    requires Agrees(t) && k <= |t.records|
    ensures Bounded(t)
    ensures Lookup(t, kind, hierarchy, initiator, target, k) == MatrixLookup(t, kind, hierarchy, initiator, target, k)
    decreases |t.records| - k
  {
    forall j | 0 <= j < |t.records|
      ensures t.records[j].offset <= |t.pairs|
    {
      WindowIsFitted(t, j);
    }
    if k < |t.records| {
      WindowIsFitted(t, k);
      LookupReadsMatrices(t, kind, hierarchy, initiator, target, k + 1);
    }
  }
}
