// The HMAT tables in fixed arrays, filled and searched in place.

module HmatParser {
  import opened Words
  import opened Bytes
  import opened Hmat
  import Spec = Hmat

  class HmatTables {
    const attrs: array<Attr>
    var nAttrs: nat
    const records: array<Record>
    var nRecords: nat
    const pairs: array<Pair>
    var nPairs: nat
    ghost var sources: seq<seq<Pair>>

    ghost predicate Valid()
      reads this
    {
      && attrs.Length == MAX_ATTRS && records.Length == MAX_RECORDS && pairs.Length == MAX_PAIRS
      && nAttrs <= MAX_ATTRS && nRecords <= MAX_RECORDS && nPairs <= MAX_PAIRS
    }

    ghost function View(): Tables
      requires Valid()
      reads this, attrs, records, pairs
    {
      Tables(attrs[..nAttrs], records[..nRecords], pairs[..nPairs], sources)
    }

    constructor ()
      ensures Valid() && View() == EMPTY && fresh(attrs) && fresh(records) && fresh(pairs)
    {
      attrs := new Attr[MAX_ATTRS](_ => Attr(0, 0, 0));
      records := new Record[MAX_RECORDS](_ => Record(Other(0xFF), 0, 0, 0, 0, 0));
      pairs := new Pair[MAX_PAIRS](_ => Pair(0, 0, 0));
      nAttrs, nRecords, nPairs, sources := 0, 0, 0, [];
    }

    method Push(cell: Pair)
      requires Valid() && nPairs < MAX_PAIRS
      modifies this`nPairs, pairs
      ensures Valid() && pairs[..nPairs] == old(pairs[..nPairs]) + [cell]
    {
      pairs[nPairs] := cell;
      nPairs := nPairs + 1;
    }

    // One row of a matrix; full when the pair table has no room left.
    method DecodeRowInto(body: seq<u8>, initiator: nat, targets: nat, values: nat, n: nat) returns (full: bool)
      requires Valid() && initiator + 4 <= |body| && targets + 4 * n <= |body| && values + 2 * n <= |body|
      modifies this`nPairs, pairs
      ensures Valid()
      ensures pairs[..nPairs] == Fill(old(pairs[..nPairs]), DecodeRow(body, initiator, targets, values, n))
      ensures full ==> nPairs == MAX_PAIRS
    {
      ghost var all := Fill(pairs[..nPairs], DecodeRow(body, initiator, targets, values, n));
      var left: nat, target: nat, value: nat := n, targets, values;
      while left > 0
        invariant Valid() && target + 4 * left <= |body| && value + 2 * left <= |body|
        invariant Fill(pairs[..nPairs], DecodeRow(body, initiator, target, value, left)) == all
      {
        if nPairs >= MAX_PAIRS {
          FillFull(pairs[..nPairs], DecodeRow(body, initiator, target, value, left));
          return true;
        }
        FillStep(pairs[..nPairs], CellAt(body, initiator, target, value),
                 DecodeRow(body, initiator, target + 4, value + 2, left - 1));
        Push(CellAt(body, initiator, target, value));
        left, target, value := left - 1, target + 4, value + 2;
      }
      return false;
    }

    // The whole matrix, row by row, until it ends or the table is full. The
    // values of row i start 2 * n bytes after those of row i - 1.
    method DecodeRowsInto(body: seq<u8>, initiators: nat, targets: nat, values: nat, m: nat, n: nat)
      requires Valid() && Fits(body, initiators, targets, values, m, n)
      modifies this`nPairs, pairs
      ensures Valid()
      ensures pairs[..nPairs] == Fill(old(pairs[..nPairs]), DecodeRows(body, initiators, targets, values, m, n))
    {
      ghost var all := FillAll(pairs[..nPairs], body, initiators, targets, values, m, n);
      FillAllIsFill(pairs[..nPairs], body, initiators, targets, values, m, n);
      var left: nat, initiator: nat, value: nat := m, initiators, values;
      while left > 0
        invariant Valid() && Fits(body, initiator, targets, value, left, n)
        invariant FillAll(pairs[..nPairs], body, initiator, targets, value, left, n) == all
      {
        var full := DecodeRowInto(body, initiator, targets, value, n);
        left, initiator, value := left - 1, initiator + 4, value + 2 * n;
        if full {
          FillAllFull(pairs[..nPairs], body, initiator, targets, value, left, n);
          return;
        }
      }
    }

    method DecodeMatrixInto(body: seq<u8>, cur: nat, m: u32, n: u32)
      requires Valid() && cur + MatrixEnd(m, n) <= |body|
      modifies this`nPairs, pairs
      ensures Valid()
      ensures pairs[..nPairs] == Fill(old(pairs[..nPairs]), MatrixAt(body, cur, m, n))
    {
      DecodeRowsInto(body, cur + 32, cur + 32 + 4 * m, cur + 32 + 4 * m + 4 * n, m, n);
    }

    method AddRecord(body: seq<u8>, cur: nat, m: u32, n: u32)
      requires Valid() && nRecords < MAX_RECORDS && cur + 32 <= |body| && cur + MatrixEnd(m, n) <= |body|
      modifies this, records, pairs
      ensures Valid() && View() == Spec.AddRecord(old(View()), body, cur, m, n)
    {
      var offset := nPairs;
      DecodeMatrixInto(body, cur, m, n);
      records[nRecords] := RecordAt(body, cur, m, n, offset);
      nRecords := nRecords + 1;
      sources := sources + [MatrixAt(body, cur, m, n)];
    }

    method AddAttr(body: seq<u8>, cur: nat)
      requires Valid() && nAttrs < MAX_ATTRS && cur + 40 <= |body|
      modifies this, attrs
      ensures Valid() && View() == Spec.AddAttr(old(View()), body, cur)
    {
      attrs[nAttrs] := Attr(U32At(body, cur + 12), U32At(body, cur + 16), U16At(body, cur + 8));
      nAttrs := nAttrs + 1;
    }

    // The decode loop over the structures from `start` on.
    method ParseBody(body: seq<u8>, start: nat) returns (overflow: bool, count: nat)
      requires Valid()
      modifies this, attrs, records, pairs
      ensures Valid()
      ensures overflow <==> Parse(body, start, old(View()), 0).Overflow?
      ensures !overflow ==> Parse(body, start, old(View()), 0) == Done(View(), count)
      ensures !overflow && old(Agrees(View())) ==> Agrees(View())
    {
      if Agrees(View()) {
        ParseAgrees(body, start, View(), 0);
      }
      var cur := start;
      count := 0;
      ghost var result := Parse(body, start, View(), 0);
      while cur + 8 <= |body|
        invariant Valid()
        invariant Parse(body, cur, View(), count) == result
        decreases |body| - cur
      {
        var kind, len := U16At(body, cur), U32At(body, cur + 4);
        if len < 8 || cur + len > |body| {
          break;
        }
        if kind == 0 && len >= 40 {
          if nAttrs < MAX_ATTRS {
            AddAttr(body, cur);
            count := count + 1;
          }
        } else if kind == 1 && len >= 32 {
          var m, n := U32At(body, cur + 12), U32At(body, cur + 16);
          if MatrixEnd(m, n) > U64_MAX {
            return true, count;
          }
          if MatrixEnd(m, n) > len {
            break;
          }
          if nRecords < MAX_RECORDS {
            AddRecord(body, cur, m, n);
            count := count + 1;
          }
        }
        cur := cur + len;
      }
      return false, count;
    }

    // Scan one record's slice for a pair.
    method FindInWindow(r: Record, initiator: u32, target: u32) returns (found: Option<u16>)
      requires Valid() && r.offset <= nPairs
      ensures found == FirstValue(Window(View(), r), initiator, target)
    {
      AreaIsProduct(r.initiators, r.targets);
      var n := Min(r.initiators * r.targets, nPairs - r.offset);
      ghost var w := Window(View(), r);
      var i := 0;
      while i < n
        invariant 0 <= i <= n == |w|
        invariant FirstValue(w, initiator, target) == FirstValue(w[i..], initiator, target)
      {
        var p := pairs[r.offset + i];
        assert p == w[i];
        if p.initiator == initiator && p.target == target {
          return Some(p.value);
        }
        i := i + 1;
      }
      return None;
    }

    method Value(kind: Kind, hierarchy: u8, initiator: u32, target: u32) returns (value: Option<u64>)
      requires Valid() && Agrees(View())
      ensures value == MatrixLookup(View(), kind, hierarchy, initiator, target, 0)
    {
      ghost var t := View();
      LookupReadsMatrices(t, kind, hierarchy, initiator, target, 0);
      var k := 0;
      while k < nRecords
        invariant 0 <= k <= nRecords
        invariant Lookup(t, kind, hierarchy, initiator, target, 0) == Lookup(t, kind, hierarchy, initiator, target, k)
      {
        var r := records[k];
        assert r == t.records[k];
        if r.kind == kind && r.hierarchy == hierarchy {
          var found := FindInWindow(r, initiator, target);
          if found.Some? {
            return Some(SaturatingMul(r.baseUnit, found.value));
          }
        }
        k := k + 1;
      }
      return None;
    }
  }
}
