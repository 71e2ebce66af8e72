// The SMBIOS structure table (section 6.1 of DMTF DSP0134): formatted
// structures followed by sets of NUL-terminated strings.

module Smbios {
  import opened Words
  import opened Bytes
  import opened Utf8Text

  const END_OF_TABLE: u8 := 127

  // A yielded structure; its header length is four more than the formatted
  // part. Strings are kept as their UTF-8 bytes.
  datatype Structure = Structure(typ: u8, handle: u16, formatted: seq<u8>, strings: seq<seq<u8>>)

  // Bytes that are not UTF-8 become the empty string.
  function Decode(b: seq<u8>): seq<u8> {
    if Utf8(b) then b else []
  }

  function DecodeAll(strings: seq<seq<u8>>): seq<seq<u8>> {
    if strings == [] then [] else [Decode(strings[0])] + DecodeAll(strings[1..])
  }

  // The first NUL from p on, or the end of the buffer.
  function NulFrom(buf: seq<u8>, p: nat): (e: nat)
    requires p <= |buf|
    ensures p <= e <= |buf|
    decreases |buf| - p
  {
    if p == |buf| || buf[p] == 0 then p else NulFrom(buf, p + 1)
  }

  // It is the only NUL position with no NUL before it.
  lemma {:induction false} NulFromIsFirst(buf: seq<u8>, p: nat, e: nat)
    requires p <= e < |buf| && buf[e] == 0 && forall i :: p <= i < e ==> buf[i] != 0
    ensures NulFrom(buf, p) == e
    decreases e - p
  {
    if p < e {
      NulFromIsFirst(buf, p + 1, e);
    }
  }

  datatype Strings = Truncated | Found(strings: seq<seq<u8>>, next: nat)

  // The raw strings of the set at p, and the position after its closing NUL.
  function ScanStrings(buf: seq<u8>, p: nat): (r: Strings)
    ensures r.Found? ==> p + 2 <= r.next <= |buf|
    decreases |buf| - p
  {
    if p >= |buf| then Truncated
    else
      var e := NulFrom(buf, p);
      if e == |buf| then Truncated
      else
        var s := buf[p..e];
        if e + 1 < |buf| && buf[e + 1] == 0 then Found([s], e + 2)
        else
          Prepend([s], ScanStrings(buf, e + 1))
  }

  function Prepend(strings: seq<seq<u8>>, r: Strings): Strings {
    if r.Truncated? then Truncated else Found(strings + r.strings, r.next)
  }

  lemma PrependTwice(a: seq<seq<u8>>, b: seq<seq<u8>>, r: Strings)
    ensures Prepend(a, Prepend(b, r)) == Prepend(a + b, r)
  {
    if r.Found? {
      assert a + (b + r.strings) == a + b + r.strings;
    }
  }

  predicate NoStrings(buf: seq<u8>, p: nat) {
    p < |buf| && buf[p] == 0 && (p + 2 > |buf| || buf[p + 1] == 0)
  }

  // A lone pair of NULs is an empty set, as is a NUL that ends the buffer.
  function StringSetAt(buf: seq<u8>, p: nat): (r: Strings)
    ensures r.Found? ==> p + 2 <= r.next <= |buf| + 1
  {
    if NoStrings(buf, p) then Found([], p + 2) else ScanStrings(buf, p)
  }

  // One step of the iterator: the structure at pos and the next position. Every
  // structure takes at least six bytes; the last may end one byte past the
  // buffer, when its closing NUL is missing.
  function Step(buf: seq<u8>, pos: nat): (r: Option<(Structure, nat)>)
    ensures r.Some? ==> pos + 6 <= r.value.1 <= |buf| + 1
  {
    if pos + 4 > |buf| || buf[pos] == END_OF_TABLE then None
    else
      var length := buf[pos + 1];
      if length < 4 || pos + length > |buf| then None
      else
        var p := pos + length;
        var scanned := StringSetAt(buf, p);
        if scanned.Truncated? then None
        else Some((Structure(buf[pos], U16At(buf, pos + 2), buf[pos + 4..p], DecodeAll(scanned.strings)), scanned.next))
  }

  // Everything the iterator yields from pos on.
  function Iterate(buf: seq<u8>, pos: nat): (all: seq<Structure>)
    ensures pos <= |buf| ==> 6 * |all| <= |buf| + 1 - pos
    ensures pos > |buf| ==> all == []
    decreases |buf| + 1 - pos
  {
    var step := Step(buf, pos);
    if step.None? then [] else [step.value.0] + Iterate(buf, step.value.1)
  }

  // ---- What a step does on arbitrary bytes ----

  predicate DoubleNul(buf: seq<u8>, k: nat) {
    k + 1 < |buf| && buf[k] == 0 && buf[k + 1] == 0
  }

  // The first double NUL from p on is at e.
  ghost predicate ClosedAt(buf: seq<u8>, p: nat, e: nat) {
    p <= e && DoubleNul(buf, e) && forall k :: p <= k < e ==> !DoubleNul(buf, k)
  }

  predicate NulFree(b: seq<u8>) {
    0 !in b
  }

  // Strings with a NUL between them.
  function Joined(strings: seq<seq<u8>>): seq<u8> {
    if strings == [] then []
    else if |strings| == 1 then strings[0]
    else strings[0] + [0] + Joined(strings[1..])
  }

  // The raw strings are the pieces between the NULs; an empty region has none.
  predicate Pieces(raw: seq<seq<u8>>, region: seq<u8>) {
    if region == [] then raw == [] else raw != [] && Joined(raw) == region && AllNulFree(raw)
  }

  predicate AllNulFree(raw: seq<seq<u8>>) {
    raw == [] || (NulFree(raw[0]) && AllNulFree(raw[1..]))
  }

  lemma {:induction false} NulFromMeans(buf: seq<u8>, p: nat)
    requires p <= |buf|
    ensures NulFree(buf[p..NulFrom(buf, p)])
    ensures NulFrom(buf, p) < |buf| ==> buf[NulFrom(buf, p)] == 0
    decreases |buf| - p
  {
    if p < |buf| && buf[p] != 0 {
      NulFromMeans(buf, p + 1);
      assert buf[p..NulFrom(buf, p)] == [buf[p]] + buf[p + 1..NulFrom(buf, p)];
    }
  }

  lemma NulFromBefore(buf: seq<u8>, p: nat, e: nat)
    requires p <= e < |buf| && buf[e] == 0
    ensures NulFrom(buf, p) <= e
  {
    NulFromMeans(buf, p);
  }

  // A scan ends at the first double NUL, and its strings are the pieces before.
  lemma {:induction false} ScanMeans(buf: seq<u8>, p: nat, e: nat)
    requires ClosedAt(buf, p, e)
    ensures var r := ScanStrings(buf, p);
            r.Found? && r.next == e + 2 && r.strings != [] && Joined(r.strings) == buf[p..e] && AllNulFree(r.strings)
    decreases e - p
  {
    var n := NulFrom(buf, p);
    NulFromMeans(buf, p);
    NulFromBefore(buf, p, e);
    if n < e {
      assert !DoubleNul(buf, n);
      ScanMeans(buf, n + 1, e);
      var rest := ScanStrings(buf, n + 1).strings;
      assert ([buf[p..n]] + rest)[1..] == rest;
      assert buf[p..e] == buf[p..n] + [0] + buf[n + 1..e];
    } else {
      assert DoubleNul(buf, n);
    }
  }

  // Without one it finds the buffer truncated.
  lemma {:induction false} ScanTruncated(buf: seq<u8>, p: nat)
    requires forall k :: p <= k ==> !DoubleNul(buf, k)
    ensures ScanStrings(buf, p).Truncated?
    decreases |buf| - p
  {
    if p < |buf| {
      var n := NulFrom(buf, p);
      NulFromMeans(buf, p);
      if n < |buf| {
        assert !DoubleNul(buf, n);
        ScanTruncated(buf, n + 1);
      }
    }
  }

  lemma FirstDoubleNul(buf: seq<u8>, p: nat, k: nat) returns (e: nat)
    requires p <= k && DoubleNul(buf, k)
    ensures ClosedAt(buf, p, e)
  {
    e := p;
    while !DoubleNul(buf, e)
      invariant p <= e <= k && forall j :: p <= j < e ==> !DoubleNul(buf, j)
      decreases k - e
    {
      e := e + 1;
    }
  }

  // The header at pos is one: room for it and its formatted part, and no end
  // of table.
  predicate HasHeader(buf: seq<u8>, pos: nat) {
    pos + 4 <= |buf| && buf[pos] != 127 && 4 <= buf[pos + 1] && pos + buf[pos + 1] <= |buf|
  }

  // A structure is yielded exactly after a header, when its string set is closed
  // by a double NUL or is a single NUL that ends the buffer.
  lemma StepIff(buf: seq<u8>, pos: nat)
    ensures Step(buf, pos).Some? <==>
              && HasHeader(buf, pos)
              && var p := pos + buf[pos + 1];
                 (p + 1 == |buf| && buf[p] == 0) || exists k :: p <= k && DoubleNul(buf, k)
  {
    if HasHeader(buf, pos) {
      var p := pos + buf[pos + 1];
      if k :| p <= k && DoubleNul(buf, k) {
        var e := FirstDoubleNul(buf, p, k);
        ScanMeans(buf, p, e);
      } else {
        ScanTruncated(buf, p);
        assert p + 1 < |buf| ==> !DoubleNul(buf, p);
      }
    }
  }

  // And then it is the structure the bytes describe, its strings the pieces up
  // to the first double NUL, which is skipped.
  lemma StepYields(buf: seq<u8>, pos: nat, e: nat) returns (raw: seq<seq<u8>>)
    requires HasHeader(buf, pos) && ClosedAt(buf, pos + buf[pos + 1], e)
    ensures var p := pos + buf[pos + 1];
            && Pieces(raw, buf[p..e])
            && Step(buf, pos) ==
               Some((Structure(buf[pos], buf[pos + 2] as int + 0x100 * buf[pos + 3] as int, buf[pos + 4..p],
                               DecodeAll(raw)), e + 2))
  {
    var p := pos + buf[pos + 1];
    ScanMeans(buf, p, e);
    raw := if e == p then [] else ScanStrings(buf, p).strings;
    assert e == p <==> NoStrings(buf, p) by {
      assert DoubleNul(buf, p) <==> NoStrings(buf, p);
    }
  }

  // A NUL that ends the buffer stands for no strings.
  lemma StepAtEnd(buf: seq<u8>, pos: nat)
    requires HasHeader(buf, pos) && pos + buf[pos + 1] + 1 == |buf| && buf[|buf| - 1] == 0
    ensures Step(buf, pos) ==
              Some((Structure(buf[pos], buf[pos + 2] as int + 0x100 * buf[pos + 3] as int,
                              buf[pos + 4..|buf| - 1], []), |buf| + 1))
  {
  }

  class StructIter {
    const buf: seq<u8>
    var pos: nat

    constructor (buf: seq<u8>)
      ensures this.buf == buf && pos == 0
    {
      this.buf := buf;
      pos := 0;
    }

    method FindNul(from: nat) returns (p: nat)
      requires from <= |buf|
      ensures p == NulFrom(buf, from)
    {
      p := from;
      while p < |buf| && buf[p] != 0
        invariant from <= p <= |buf|
        invariant NulFrom(buf, from) == NulFrom(buf, p)
      {
        p := p + 1;
      }
    }

    method ReadStrings(start: nat) returns (r: Strings)
      ensures r == ScanStrings(buf, start)
    {
      var p := start;
      var strings: seq<seq<u8>> := [];
      while true
        invariant start <= p
        invariant ScanStrings(buf, start) == Prepend(strings, ScanStrings(buf, p))
        decreases |buf| - p
      {
        if p >= |buf| {
          return Truncated;
        }
        var from := p;
        p := FindNul(from);
        if p == |buf| {
          return Truncated;
        }
        var s := buf[from..p];
        PrependTwice(strings, [s], ScanStrings(buf, p + 1));
        strings := strings + [s];
        p := p + 1;
        if p < |buf| && buf[p] == 0 {
          return Found(strings, p + 1);
        }
      }
    }

    method Next() returns (item: Option<Structure>)
      modifies this
      ensures item.None? <==> Step(buf, old(pos)).None?
      ensures item.None? ==> pos == old(pos)
      ensures item.Some? ==> Step(buf, old(pos)) == Some((item.value, pos))
    {
      if pos + 4 > |buf| || buf[pos] == END_OF_TABLE {
        return None;
      }
      var length := buf[pos + 1];
      if length < 4 || pos + length > |buf| {
        return None;
      }
      var p := pos + length;
      var scanned := Found([], p + 2);
      if !NoStrings(buf, p) {
        scanned := ReadStrings(p);
      }
      if scanned.Truncated? {
        return None;
      }
      item := Some(Structure(buf[pos], U16At(buf, pos + 2), buf[pos + 4..p], DecodeAll(scanned.strings)));
      pos := scanned.next;
    }

    // Drain the iterator; it always stops.
    method Collect() returns (all: seq<Structure>)
      modifies this
      ensures all == Iterate(buf, old(pos))
    {
      all := [];
      ghost var start := pos;
      var item := Next();
      while item.Some?
        invariant all + (if item.Some? then [item.value] + Iterate(buf, pos) else []) == Iterate(buf, start)
        decreases item.Some?, |buf| + 1 - pos
      {
        all := all + [item.value];
        item := Next();
      }
    }
  }

  // ---------------------------------------------------------------------
  // Round trip
  // ---------------------------------------------------------------------

  function Terminated(strings: seq<seq<u8>>): seq<u8> {
    if strings == [] then [] else strings[0] + [0] + Terminated(strings[1..])
  }

  function StringSet(strings: seq<seq<u8>>): seq<u8> {
    (if strings == [] then [0] else Terminated(strings)) + [0]
  }

  // Nonempty strings without NULs.
  predicate Clean(strings: seq<seq<u8>>) {
    || strings == []
    || (strings[0] != [] && 0 !in strings[0] && Clean(strings[1..]))
  }

  function Decoded(s: Structure): Structure {
    s.(strings := DecodeAll(s.strings))
  }

  function DecodedAll(all: seq<Structure>): seq<Structure> {
    if all == [] then [] else [Decoded(all[0])] + DecodedAll(all[1..])
  }

  lemma {:induction false} DecodeKeepsUtf8(strings: seq<seq<u8>>)
    requires forall i :: 0 <= i < |strings| ==> Utf8(strings[i])
    ensures DecodeAll(strings) == strings
  {
    if strings != [] {
      DecodeKeepsUtf8(strings[1..]);
    }
  }

  lemma {:induction false} DecodedIsSame(all: seq<Structure>)
    requires forall i, j :: 0 <= i < |all| && 0 <= j < |all[i].strings| ==> Utf8(all[i].strings[j])
    ensures DecodedAll(all) == all
  {
    if all != [] {
      DecodeKeepsUtf8(all[0].strings);
      DecodedIsSame(all[1..]);
    }
  }

  predicate Encodable(s: Structure) {
    s.typ != 127 && |s.formatted| <= 251 && Clean(s.strings)
  }

  function Header(s: Structure): (h: seq<u8>)
    ensures |h| == 4
  {
    [s.typ, (4 + |s.formatted|) % 0x100, s.handle % 0x100, s.handle / 0x100]
  }

  function Encode(s: Structure): seq<u8> {
    Header(s) + (s.formatted + StringSet(s.strings))
  }

  predicate AllEncodable(all: seq<Structure>) {
    all == [] || (Encodable(all[0]) && AllEncodable(all[1..]))
  }

  function EncodeAll(all: seq<Structure>): seq<u8> {
    if all == [] then [] else Encode(all[0]) + EncodeAll(all[1..])
  }

  lemma {:induction false} NulAfter(buf: seq<u8>, p: nat, s: seq<u8>)
    requires Holds(buf, p, s + [0]) && 0 !in s
    ensures p + |s| < |buf| && NulFrom(buf, p) == p + |s| && buf[p..p + |s|] == s
  {
    HoldsSplit(buf, p, s, [0]);
    HoldsAt(buf, p + |s|, [0], 0);
    HoldsSlice(buf, p, s);
    forall i | p <= i < p + |s|
      ensures buf[i] != 0
    {
      HoldsAt(buf, p, s, i - p);
    }
    NulFromIsFirst(buf, p, p + |s|);
  }

  // The first string of a set, and what follows it.
  lemma FirstString(buf: seq<u8>, p: nat, strings: seq<seq<u8>>)
    requires strings != [] && Holds(buf, p, Terminated(strings) + [0])
    requires Clean(strings)
    ensures var s, rest := strings[0], strings[1..];
            && p + |s| + 1 < |buf| && NulFrom(buf, p) == p + |s| && buf[p..p + |s|] == s
            && Holds(buf, p + |s| + 1, Terminated(rest) + [0])
            && (buf[p + |s| + 1] == 0 <==> rest == [])
  {
    var s, rest := strings[0], strings[1..];
    var tail := Terminated(rest) + [0];
    assert Terminated(strings) + [0] == (s + [0]) + tail;
    HoldsSplit(buf, p, s + [0], tail);
    NulAfter(buf, p, s);
    HoldsAt(buf, p + |s| + 1, tail, 0);
    if rest != [] {
      assert tail[0] == rest[0][0];
      assert rest[0][0] in rest[0];
    }
  }

  lemma {:induction false} StringsRoundTrip(buf: seq<u8>, p: nat, strings: seq<seq<u8>>)
    requires strings != [] && Holds(buf, p, Terminated(strings) + [0])
    requires Clean(strings)
    ensures ScanStrings(buf, p) == Found(strings, p + |Terminated(strings)| + 1)
    decreases strings
  {
    var s, rest := strings[0], strings[1..];
    FirstString(buf, p, strings);
    if rest == [] {
      assert strings == [s];
    } else {
      StringsRoundTrip(buf, p + |s| + 1, rest);
      assert strings == [s] + rest;
    }
  }

  lemma StringSetRoundTrip(buf: seq<u8>, p: nat, strings: seq<seq<u8>>)
    requires Clean(strings) && Holds(buf, p, StringSet(strings))
    ensures StringSetAt(buf, p) == Found(strings, p + |StringSet(strings)|)
  {
    var closing := StringSet(strings);
    HoldsAt(buf, p, closing, 0);
    if strings == [] {
      HoldsAt(buf, p, closing, 1);
    } else {
      assert closing[0] == strings[0][0];
      assert strings[0][0] in strings[0];
      StringsRoundTrip(buf, p, strings);
    }
  }

  lemma HeaderRoundTrip(buf: seq<u8>, pos: nat, s: Structure)
    requires Encodable(s) && Holds(buf, pos, Header(s))
    ensures pos + 4 <= |buf| && buf[pos] == s.typ && buf[pos + 1] == 4 + |s.formatted|
    ensures U16At(buf, pos + 2) == s.handle
  {
    var h := Header(s);
    HoldsAt(buf, pos, h, 0);
    HoldsAt(buf, pos, h, 1);
    HoldsAt(buf, pos, h, 2);
    HoldsAt(buf, pos, h, 3);
  }

  lemma StepFrom(buf: seq<u8>, pos: nat, s: Structure, next: nat)
    requires s.typ != 127 && pos + 4 + |s.formatted| <= |buf|
    requires buf[pos] == s.typ && buf[pos + 1] == 4 + |s.formatted| && U16At(buf, pos + 2) == s.handle
    requires buf[pos + 4..pos + 4 + |s.formatted|] == s.formatted
    requires StringSetAt(buf, pos + 4 + |s.formatted|) == Found(s.strings, next)
    ensures Step(buf, pos) == Some((Decoded(s), next))
  {
  }

  lemma PartsOf(buf: seq<u8>, pos: nat, s: Structure)
    requires Holds(buf, pos, Encode(s))
    ensures |Encode(s)| == 4 + |s.formatted| + |StringSet(s.strings)|
    ensures Holds(buf, pos, Header(s)) && Holds(buf, pos + 4 + |s.formatted|, StringSet(s.strings))
    ensures buf[pos + 4..pos + 4 + |s.formatted|] == s.formatted
  {
    HoldsSplit(buf, pos, Header(s), s.formatted + StringSet(s.strings));
    HoldsSplit(buf, pos + 4, s.formatted, StringSet(s.strings));
    HoldsSlice(buf, pos + 4, s.formatted);
  }

  lemma HeaderAt(buf: seq<u8>, pos: nat, s: Structure)
    requires Encodable(s) && Holds(buf, pos, Encode(s))
    ensures pos + 4 + |s.formatted| <= |buf|
    ensures buf[pos] == s.typ && buf[pos + 1] == 4 + |s.formatted| && U16At(buf, pos + 2) == s.handle
    ensures buf[pos + 4..pos + 4 + |s.formatted|] == s.formatted
  {
    PartsOf(buf, pos, s);
    HeaderRoundTrip(buf, pos, s);
  }

  lemma StringsAt(buf: seq<u8>, pos: nat, s: Structure)
    requires Encodable(s) && Holds(buf, pos, Encode(s))
    ensures StringSetAt(buf, pos + 4 + |s.formatted|) == Found(s.strings, pos + |Encode(s)|)
  {
    PartsOf(buf, pos, s);
    StringSetRoundTrip(buf, pos + 4 + |s.formatted|, s.strings);
  }

  // The structure encoded at pos is yielded, and the iterator moves past it.
  lemma StepRoundTrip(buf: seq<u8>, pos: nat, s: Structure)
    requires Encodable(s) && Holds(buf, pos, Encode(s))
    ensures Step(buf, pos) == Some((Decoded(s), pos + |Encode(s)|))
  {
    HeaderAt(buf, pos, s);
    StringsAt(buf, pos, s);
    StepFrom(buf, pos, s, pos + |Encode(s)|);
  }

  lemma StopsAtEnd(buf: seq<u8>, pos: nat)
    requires pos < |buf| && buf[pos] == 127
    ensures Iterate(buf, pos) == []
  {
  }

  // The encoded list stands at pos, closed by an end-of-table type byte.
  predicate TableAt(buf: seq<u8>, pos: nat, all: seq<Structure>) {
    var end := pos + |EncodeAll(all)|;
    Holds(buf, pos, EncodeAll(all)) && end < |buf| && buf[end] == 127
  }

  lemma TableTail(buf: seq<u8>, pos: nat, all: seq<Structure>)
    requires all != [] && TableAt(buf, pos, all)
    ensures TableAt(buf, pos + |Encode(all[0])|, all[1..]) && Holds(buf, pos, Encode(all[0]))
  {
    HoldsSplit(buf, pos, Encode(all[0]), EncodeAll(all[1..]));
  }

  lemma IterateStep(buf: seq<u8>, pos: nat, s: Structure, next: nat)
    requires Step(buf, pos) == Some((s, next))
    ensures Iterate(buf, pos) == [s] + Iterate(buf, next)
  {
  }

  lemma FirstYielded(buf: seq<u8>, pos: nat, all: seq<Structure>)
    requires all != [] && Encodable(all[0]) && TableAt(buf, pos, all)
    ensures Iterate(buf, pos) == [Decoded(all[0])] + Iterate(buf, pos + |Encode(all[0])|)
  {
    TableTail(buf, pos, all);
    StepRoundTrip(buf, pos, all[0]);
    IterateStep(buf, pos, Decoded(all[0]), pos + |Encode(all[0])|);
  }

  lemma YieldedStep(buf: seq<u8>, pos: nat, all: seq<Structure>)
    requires all != [] && Encodable(all[0]) && TableAt(buf, pos, all)
    requires Iterate(buf, pos + |Encode(all[0])|) == DecodedAll(all[1..])
    ensures Iterate(buf, pos) == DecodedAll(all)
  {
    FirstYielded(buf, pos, all);
  }

  // Iterating an encoded list, closed by an end-of-table type byte and
  // followed by anything, yields the list with its strings decoded.
  lemma {:induction false} ListYielded(buf: seq<u8>, pos: nat, all: seq<Structure>)
    requires AllEncodable(all) && TableAt(buf, pos, all)
    ensures Iterate(buf, pos) == DecodedAll(all)
    decreases all
  {
    if all == [] {
      StopsAtEnd(buf, pos);
    } else {
      TableTail(buf, pos, all);
      ListYielded(buf, pos + |Encode(all[0])|, all[1..]);
      YieldedStep(buf, pos, all);
    }
  }

  // When every string is well-formed UTF-8, that is the list itself.
  lemma TableRoundTrip(buf: seq<u8>, pos: nat, all: seq<Structure>)
    requires AllEncodable(all) && TableAt(buf, pos, all)
    requires forall i, j :: 0 <= i < |all| && 0 <= j < |all[i].strings| ==> Utf8(all[i].strings[j])
    ensures Iterate(buf, pos) == all
  {
    ListYielded(buf, pos, all);
    DecodedIsSame(all);
  }
}
