// From encoded latency and bandwidth matrices to the answers of the lookup.

module HmatAnswers {
  import opened Words
  import opened Bytes
  import opened Hmat
  import opened HmatEncoding

  predicate AllDistinct(xs: seq<u32>) {
    xs == [] || (xs[0] !in xs[1..] && AllDistinct(xs[1..]))
  }

  lemma {:induction false} FirstValueAppend(a: seq<Pair>, b: seq<Pair>, initiator: u32, target: u32)
    ensures FirstValue(a + b, initiator, target) ==
      if FirstValue(a, initiator, target).Some? then FirstValue(a, initiator, target)
      else FirstValue(b, initiator, target)
  {
    if a == [] {
      assert a + b == b;
    } else {
      assert (a + b)[1..] == a[1..] + b;
      FirstValueAppend(a[1..], b, initiator, target);
    }
  }

  // A row of distinct targets holds each once.
  lemma {:induction false} RowHasTarget(initiator: u32, targets: seq<u32>, row: seq<u16>, j: nat)
    requires |row| == |targets| && j < |targets| && AllDistinct(targets)
    ensures FirstValue(RowPairs(initiator, targets, row), initiator, targets[j]) == Some(row[j])
    decreases j
  {
    if j > 0 {
      assert targets[j] == targets[1..][j - 1];
      RowHasTarget(initiator, targets[1..], row[1..], j - 1);
    }
  }

  lemma {:induction false} RowOfOther(initiator: u32, targets: seq<u32>, row: seq<u16>, other: u32, target: u32)
    requires |row| == |targets| && other != initiator
    ensures FirstValue(RowPairs(initiator, targets, row), other, target) == None
    decreases row
  {
    if row != [] {
      RowOfOther(initiator, targets[1..], row[1..], other, target);
    }
  }

  lemma {:induction false} RowLength(initiators: seq<u32>, targets: seq<u32>, rows: seq<seq<u16>>, i: nat)
    requires Rectangular(initiators, targets, rows) && i < |rows|
    ensures |rows[i]| == |targets|
    decreases i
  {
    if i > 0 {
      RowLength(initiators[1..], targets, rows[1..], i - 1);
    }
  }

  // A matrix of distinct initiators and targets answers with its cells.
  lemma {:induction false} MatrixHasCell(
    initiators: seq<u32>, targets: seq<u32>, rows: seq<seq<u16>>, i: nat, j: nat)
    requires Rectangular(initiators, targets, rows) && i < |initiators| && j < |targets|
    requires AllDistinct(initiators) && AllDistinct(targets)
    ensures |rows[i]| == |targets|
    ensures FirstValue(RowMajor(initiators, targets, rows), initiators[i], targets[j]) == Some(rows[i][j])
    decreases i
  {
    RowLength(initiators, targets, rows, i);
    FirstValueAppend(RowPairs(initiators[0], targets, rows[0]), RowMajor(initiators[1..], targets, rows[1..]),
                     initiators[i], targets[j]);
    if i == 0 {
      RowHasTarget(initiators[0], targets, rows[0], j);
    } else {
      assert initiators[i] == initiators[1..][i - 1];
      RowOfOther(initiators[0], targets, rows[0], initiators[i], targets[j]);
      MatrixHasCell(initiators[1..], targets, rows[1..], i - 1, j);
    }
  }

  lemma {:induction false} RowPairsSize(initiator: u32, targets: seq<u32>, row: seq<u16>)
    requires |row| == |targets|
    ensures |RowPairs(initiator, targets, row)| == |targets|
    decreases row
  {
    if row != [] {
      RowPairsSize(initiator, targets[1..], row[1..]);
    }
  }

  lemma {:induction false} RowMajorSize(initiators: seq<u32>, targets: seq<u32>, rows: seq<seq<u16>>)
    requires Rectangular(initiators, targets, rows)
    ensures |RowMajor(initiators, targets, rows)| == Area(|initiators|, |targets|)
    decreases rows
  {
    if rows != [] {
      RowPairsSize(initiators[0], targets, rows[0]);
      RowMajorSize(initiators[1..], targets, rows[1..]);
    }
  }

  // How many of the first q structures are localities, and how many cells those
  // have.
  function Localities(items: seq<Item>, q: nat): nat
    requires q <= |items|
  {
    if q == 0 then 0 else (if items[0].LocalityItem? then 1 else 0) + Localities(items[1..], q - 1)
  }

  function CellsOf(item: Item): nat {
    if item.LocalityItem? then Area(|item.locality.initiators|, |item.locality.targets|) else 0
  }

  function CellCount(items: seq<Item>, q: nat): nat
    requires q <= |items|
  {
    if q == 0 then 0 else CellsOf(items[0]) + CellCount(items[1..], q - 1)
  }

  predicate IsFor(item: Item, kind: Kind, hierarchy: u8) {
    item.LocalityItem? && item.locality.kind == kind && item.locality.hierarchy == hierarchy
  }

  // Structure q is the first for a kind and hierarchy.
  predicate FirstFor(items: seq<Item>, q: nat, kind: Kind, hierarchy: u8)
    requires q < |items|
  {
    if q == 0 then IsFor(items[0], kind, hierarchy)
    else !IsFor(items[0], kind, hierarchy) && FirstFor(items[1..], q - 1, kind, hierarchy)
  }

  ghost predicate NoneFor(records: seq<Record>, k: nat, kind: Kind, hierarchy: u8)
    requires k <= |records|
  {
    forall j :: 0 <= j < k ==> !(records[j].kind == kind && records[j].hierarchy == hierarchy)
  }

  // The tables have the record of a locality at k, with its matrix, all of which
  // fits, and no record for its kind and hierarchy before it.
  ghost predicate HasLocality(t: Tables, k: nat, l: Locality) {
    && k < |t.records| && k < |t.sources| && Rectangular(l.initiators, l.targets, l.rows)
    && t.records[k].kind == l.kind && t.records[k].hierarchy == l.hierarchy
    && t.records[k].baseUnit == l.baseUnit
    && t.sources[k] == RowMajor(l.initiators, l.targets, l.rows)
    && t.records[k].offset + |t.sources[k]| <= MAX_PAIRS
    && NoneFor(t.records, k, l.kind, l.hierarchy)
  }

  lemma {:induction false} MoreKeepsLocality(t: Tables, count: nat, items: seq<Item>, k: nat, l: Locality)
    requires AllEncodable(items) && HasLocality(t, k, l) && |t.records| == |t.sources|
    ensures ExpectAll(t, count, items).Done? && HasLocality(ExpectAll(t, count, items).tables, k, l)
    decreases items
  {
    if items != [] {
      MoreKeepsLocality(Expect(t, items[0]), if Counted(t, items[0]) then count + 1 else count, items[1..], k, l);
    }
  }

  lemma ExpectRoom(t: Tables, item: Item)
    requires Encodable(item) && |t.records| == |t.sources|
    requires item.LocalityItem? ==> |t.records| < MAX_RECORDS && |t.pairs| + CellsOf(item) <= MAX_PAIRS
    ensures var u := Expect(t, item);
      && |u.records| == |u.sources| == |t.records| + (if item.LocalityItem? then 1 else 0)
      && |u.pairs| == |t.pairs| + CellsOf(item)
  {
    if item.LocalityItem? {
      var l := item.locality;
      RowMajorSize(l.initiators, l.targets, l.rows);
    }
  }

  // A locality that is the first for its kind and hierarchy, and fits, is found
  // in the expected tables.
  lemma {:induction false} LocalityFound(t: Tables, count: nat, items: seq<Item>, q: nat, l: Locality)
    returns (k: nat)
    requires AllEncodable(items) && q < |items| && items[q] == LocalityItem(l)
    requires FirstFor(items, q, l.kind, l.hierarchy)
    requires |t.records| == |t.sources| && NoneFor(t.records, |t.records|, l.kind, l.hierarchy)
    requires |t.records| + Localities(items, q) < MAX_RECORDS && |t.pairs| + CellCount(items, q + 1) <= MAX_PAIRS
    ensures ExpectAll(t, count, items).Done? && HasLocality(ExpectAll(t, count, items).tables, k, l)
    decreases items
  {
    var u := Expect(t, items[0]);
    var more := if Counted(t, items[0]) then count + 1 else count;
    ExpectRoom(t, items[0]);
    if q == 0 {
      k := |t.records|;
      RowMajorSize(l.initiators, l.targets, l.rows);
      MoreKeepsLocality(u, more, items[1..], k, l);
    } else {
      k := LocalityFound(u, more, items[1..], q - 1, l);
    }
  }

  lemma {:induction false} MatrixLookupFrom(
    t: Tables, kind: Kind, hierarchy: u8, initiator: u32, target: u32, k: nat, i: nat)
    requires |t.records| == |t.sources| && i <= k <= |t.records| && NoneFor(t.records, k, kind, hierarchy)
    ensures MatrixLookup(t, kind, hierarchy, initiator, target, i)
         == MatrixLookup(t, kind, hierarchy, initiator, target, k)
    decreases k - i
  {
    if i < k {
      MatrixLookupFrom(t, kind, hierarchy, initiator, target, k, i + 1);
    }
  }

  // The lookup answers a pair of such a locality with its value times the base
  // unit, saturated.
  lemma LookupOfLocality(t: Tables, k: nat, l: Locality, i: nat, j: nat)
    requires Agrees(t) && HasLocality(t, k, l)
    requires AllDistinct(l.initiators) && AllDistinct(l.targets) && i < |l.initiators| && j < |l.targets|
    ensures Bounded(t) && |l.rows[i]| == |l.targets|
    ensures Lookup(t, l.kind, l.hierarchy, l.initiators[i], l.targets[j], 0)
         == Some(Min(l.baseUnit * l.rows[i][j], U64_MAX))
  {
    var initiator, target := l.initiators[i], l.targets[j];
    MatrixHasCell(l.initiators, l.targets, l.rows, i, j);
    LookupReadsMatrices(t, l.kind, l.hierarchy, initiator, target, 0);
    MatrixLookupFrom(t, l.kind, l.hierarchy, initiator, target, k, 0);
    assert Placed(t, k);
    assert Fitted(t.sources, k) == t.sources[k];
  }

  // Parsing encoded structures and looking a pair up in the first locality for
  // its kind and hierarchy, if that fits, gives the value of the matrix.
  lemma EncodedLookup(body: seq<u8>, at: nat, items: seq<Item>, q: nat, l: Locality, i: nat, j: nat)
    requires Encoded(body, at, items)
    requires q < |items| && items[q] == LocalityItem(l) && FirstFor(items, q, l.kind, l.hierarchy)
    requires Localities(items, q) < 8 && CellCount(items, q + 1) <= 256
    requires AllDistinct(l.initiators) && AllDistinct(l.targets) && i < |l.initiators| && j < |l.targets|
    ensures Parse(body, at, EMPTY, 0).Done? && |l.rows| == |l.initiators| && |l.rows[i]| == |l.targets|
    ensures var t := Parse(body, at, EMPTY, 0).tables;
      && Bounded(t)
      && Lookup(t, l.kind, l.hierarchy, l.initiators[i], l.targets[j], 0)
         == Some(Min(l.baseUnit * l.rows[i][j], U64_MAX))
  {
    HmatEncoding.TableRoundTrip(body, at, items, EMPTY, 0);
    var k := LocalityFound(EMPTY, 0, items, q, l);
    ParseAgrees(body, at, EMPTY, 0);
    LookupOfLocality(Parse(body, at, EMPTY, 0).tables, k, l, i, j);
  }

  predicate NoItemFor(items: seq<Item>, kind: Kind, hierarchy: u8) {
    items == [] || (!IsFor(items[0], kind, hierarchy) && NoItemFor(items[1..], kind, hierarchy))
  }

  lemma {:induction false} NoRecordExpected(t: Tables, count: nat, items: seq<Item>, kind: Kind, hierarchy: u8)
    requires AllEncodable(items) && NoItemFor(items, kind, hierarchy)
    requires |t.records| == |t.sources| && NoneFor(t.records, |t.records|, kind, hierarchy)
    ensures ExpectAll(t, count, items).Done?
    ensures var u := ExpectAll(t, count, items).tables;
            |u.records| == |u.sources| && NoneFor(u.records, |u.records|, kind, hierarchy)
    decreases items
  {
    if items != [] {
      var more := if Counted(t, items[0]) then count + 1 else count;
      NoRecordExpected(Expect(t, items[0]), more, items[1..], kind, hierarchy);
    }
  }

  // A kind and hierarchy no structure is for has no values.
  lemma EncodedMiss(
    body: seq<u8>, at: nat, items: seq<Item>, kind: Kind, hierarchy: u8, initiator: u32, target: u32)
    requires Encoded(body, at, items) && NoItemFor(items, kind, hierarchy)
    ensures Parse(body, at, EMPTY, 0).Done?
    ensures var t := Parse(body, at, EMPTY, 0).tables;
            Bounded(t) && Lookup(t, kind, hierarchy, initiator, target, 0) == None
  {
    HmatEncoding.TableRoundTrip(body, at, items, EMPTY, 0);
    NoRecordExpected(EMPTY, 0, items, kind, hierarchy);
    ParseAgrees(body, at, EMPTY, 0);
    var t := Parse(body, at, EMPTY, 0).tables;
    LookupReadsMatrices(t, kind, hierarchy, initiator, target, 0);
    MatrixLookupFrom(t, kind, hierarchy, initiator, target, |t.records|, 0);
  }
}
