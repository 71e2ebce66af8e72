// The Platform Memory Topology Table: a recursive walk over nested sockets,
// memory controllers and DIMMs, flattened into counters and a DIMM table.

module Pmtt {
  import opened Words
  import opened Bytes

  const MAX_DIMMS: nat := 32
  const NO_PARENT: u16 := 0xFFFF

  datatype Dimm = Dimm(handle: u32, socket: u16, controller: u16, flags: u16)

  // What a decoded structure contributes.
  datatype Item = SocketItem | ControllerItem | DimmItem(dimm: Dimm)

  // The structures decoded from cur up to end, in pre-order. Anything
  // malformed ends the walk of its siblings; anything unknown is skipped.
  function Walk(body: seq<u8>, cur: nat, end: nat, socket: u16, controller: u16): (items: seq<Item>)
    requires end <= |body|
    ensures cur <= end ==> 12 * |items| <= end - cur
    ensures cur > end ==> items == []
    decreases end - cur
  {
    if cur + 8 > end then []
    else
      var len := U16At(body, cur + 2);
      if len < 8 || cur + len > end then []
      else Structure(body, cur, len, socket, controller) + Walk(body, cur + len, end, socket, controller)
  }

  // One structure of the given length, with its children.
  function Structure(body: seq<u8>, cur: nat, len: nat, socket: u16, controller: u16): (items: seq<Item>)
    requires 8 <= len && cur + len <= |body|
    ensures 12 * |items| <= len
    decreases len, 0
  {
    if len < 12 then []
    else if body[cur] == 0 then
      [SocketItem] + Walk(body, cur + 12, cur + len, U16At(body, cur + 8), controller)
    else if body[cur] == 1 then
      [ControllerItem] + Walk(body, cur + 12, cur + len, socket, U16At(body, cur + 8))
    else if body[cur] == 2 then
      [DimmItem(Dimm(U32At(body, cur + 8), socket, controller, U16At(body, cur + 4)))]
    else []
  }

  ghost predicate SameBytes(body: seq<u8>, other: seq<u8>, cur: nat, end: nat) {
    end <= |body| && end <= |other| && forall p :: cur <= p < end ==> body[p] == other[p]
  }

  lemma WalkStep(body: seq<u8>, cur: nat, len: nat, end: nat, socket: u16, controller: u16)
    requires cur + 8 <= cur + len <= end <= |body| && U16At(body, cur + 2) == len
    ensures Walk(body, cur, end, socket, controller) ==
              Structure(body, cur, len, socket, controller) + Walk(body, cur + len, end, socket, controller)
  {
  }

  // A walk depends on nothing outside the bytes it was given.
  lemma {:induction false} WalkInside(
    body: seq<u8>, other: seq<u8>, cur: nat, end: nat, socket: u16, controller: u16)
    requires SameBytes(body, other, cur, end)
    ensures Walk(body, cur, end, socket, controller) == Walk(other, cur, end, socket, controller)
    decreases end - cur, 1
  {
    if cur + 8 <= end {
      var len := U16At(body, cur + 2);
      assert U16At(other, cur + 2) == len;
      if 8 <= len && cur + len <= end {
        calc {
          Walk(body, cur, end, socket, controller);
          { WalkStep(body, cur, len, end, socket, controller); }
          Structure(body, cur, len, socket, controller) + Walk(body, cur + len, end, socket, controller);
          { StructureInside(body, other, cur, len, socket, controller); }
          Structure(other, cur, len, socket, controller) + Walk(body, cur + len, end, socket, controller);
          { WalkInside(body, other, cur + len, end, socket, controller); }
          Structure(other, cur, len, socket, controller) + Walk(other, cur + len, end, socket, controller);
          { WalkStep(other, cur, len, end, socket, controller); }
          Walk(other, cur, end, socket, controller);
        }
      }
    }
  }

  lemma {:induction false} StructureInside(
    body: seq<u8>, other: seq<u8>, cur: nat, len: nat, socket: u16, controller: u16)
    requires 8 <= len && SameBytes(body, other, cur, cur + len)
    ensures Structure(body, cur, len, socket, controller) == Structure(other, cur, len, socket, controller)
    decreases len, 0
  {
    if len >= 12 {
      WalkInside(body, other, cur + 12, cur + len, U16At(body, cur + 8), controller);
      WalkInside(body, other, cur + 12, cur + len, socket, U16At(body, cur + 8));
    }
  }

  // The tables as values: three counters and the recorded DIMMs.
  datatype Tables = Tables(sockets: nat, controllers: nat, dimmCount: nat, dimms: seq<Dimm>)

  const EMPTY := Tables(0, 0, 0, [])

  function Record(t: Tables, item: Item): Tables {
    match item
    case SocketItem => t.(sockets := t.sockets + 1)
    case ControllerItem => t.(controllers := t.controllers + 1)
    case DimmItem(dimm) =>
      t.(dimmCount := t.dimmCount + 1, dimms := if |t.dimms| < MAX_DIMMS then t.dimms + [dimm] else t.dimms)
  }

  function RecordAll(t: Tables, items: seq<Item>): Tables
    decreases items
  {
    if items == [] then t else RecordAll(Record(t, items[0]), items[1..])
  }

  lemma RecordAllCons(t: Tables, item: Item, rest: seq<Item>)
    ensures RecordAll(t, [item] + rest) == RecordAll(Record(t, item), rest)
  {
    assert ([item] + rest)[1..] == rest;
  }

  lemma {:induction false} RecordAllAppend(t: Tables, a: seq<Item>, b: seq<Item>)
    ensures RecordAll(t, a + b) == RecordAll(RecordAll(t, a), b)
    decreases a
  {
    if a == [] {
      assert a + b == b;
    } else {
      assert (a + b)[1..] == a[1..] + b;
      RecordAllAppend(Record(t, a[0]), a[1..], b);
    }
  }

  // ---------------------------------------------------------------------
  // What the tables hold
  // ---------------------------------------------------------------------

  function Sockets(items: seq<Item>): nat {
    if items == [] then 0 else (if items[0].SocketItem? then 1 else 0) + Sockets(items[1..])
  }

  function Controllers(items: seq<Item>): nat {
    if items == [] then 0 else (if items[0].ControllerItem? then 1 else 0) + Controllers(items[1..])
  }

  function Dimms(items: seq<Item>): seq<Dimm> {
    if items == [] then [] else (if items[0].DimmItem? then [items[0].dimm] else []) + Dimms(items[1..])
  }

  function FirstDimms(dimms: seq<Dimm>): seq<Dimm> {
    dimms[..Min(32, |dimms|)]
  }

  lemma {:induction false} CountersSummarise(t: Tables, items: seq<Item>)
    ensures var r := RecordAll(t, items);
            && r.sockets == t.sockets + Sockets(items)
            && r.controllers == t.controllers + Controllers(items)
            && r.dimmCount == t.dimmCount + |Dimms(items)|
    ensures |items| == Sockets(items) + Controllers(items) + |Dimms(items)|
    decreases items
  {
    if items != [] {
      CountersSummarise(Record(t, items[0]), items[1..]);
    }
  }

  lemma AddToTable(dimms: seq<Dimm>, dimm: Dimm, rest: seq<Dimm>)
    requires |dimms| <= MAX_DIMMS
    ensures FirstDimms(dimms + ([dimm] + rest)) ==
              FirstDimms((if |dimms| < MAX_DIMMS then dimms + [dimm] else dimms) + rest)
  {
    if |dimms| < MAX_DIMMS {
      assert dimms + ([dimm] + rest) == dimms + [dimm] + rest;
    } else {
      assert FirstDimms(dimms + ([dimm] + rest)) == dimms == FirstDimms(dimms + rest);
    }
  }

  lemma {:induction false} DimmsSummarise(t: Tables, items: seq<Item>)
    requires |t.dimms| <= MAX_DIMMS
    ensures RecordAll(t, items).dimms == FirstDimms(t.dimms + Dimms(items))
    decreases items
  {
    if items == [] {
      assert t.dimms + Dimms(items) == t.dimms;
    } else {
      DimmsSummarise(Record(t, items[0]), items[1..]);
      if items[0].DimmItem? {
        AddToTable(t.dimms, items[0].dimm, Dimms(items[1..]));
      } else {
        assert Dimms(items) == Dimms(items[1..]);
      }
    }
  }

  // Exact counts, and the first 32 DIMMs in order.
  lemma TablesSummarise(items: seq<Item>)
    ensures RecordAll(EMPTY, items) ==
              Tables(Sockets(items), Controllers(items), |Dimms(items)|, FirstDimms(Dimms(items)))
  {
    CountersSummarise(EMPTY, items);
    DimmsSummarise(EMPTY, items);
    assert [] + Dimms(items) == Dimms(items);
  }

  class PmttTables {
    var sockets: nat
    var controllers: nat
    var dimmCount: nat
    const dimms: array<Dimm>
    var dimmsLen: nat

    ghost predicate Valid()
      reads this
    {
      dimms.Length == MAX_DIMMS && dimmsLen <= MAX_DIMMS
    }

    ghost function View(): Tables
      requires Valid()
      reads this, dimms
    {
      Tables(sockets, controllers, dimmCount, dimms[..dimmsLen])
    }

    constructor ()
      ensures Valid() && View() == EMPTY && fresh(dimms)
    {
      sockets, controllers, dimmCount, dimmsLen := 0, 0, 0, 0;
      dimms := new Dimm[MAX_DIMMS](_ => Dimm(0, 0, 0, 0));
    }

    method AddDimm(dimm: Dimm)
      requires Valid()
      modifies this, dimms
      ensures Valid() && View() == Record(old(View()), DimmItem(dimm))
    {
      if dimmsLen < MAX_DIMMS {
        dimms[dimmsLen] := dimm;
        dimmsLen := dimmsLen + 1;
      }
      dimmCount := dimmCount + 1;
    }

    // Walk the siblings from cur up to end, recursing into children. Returns
    // the number of structures decoded.
    method ParseChildren(body: seq<u8>, start: nat, end: nat, socket: u16, controller: u16) returns (count: nat)
      requires Valid() && end <= |body|
      modifies this, dimms
      ensures Valid()
      ensures View() == RecordAll(old(View()), Walk(body, start, end, socket, controller))
      ensures count == |Walk(body, start, end, socket, controller)|
      decreases end - start
    {
      count := 0;
      var cur := start;
      ghost var before := View();
      ghost var items := Walk(body, start, end, socket, controller);
      while cur + 8 <= end
        invariant Valid() && start <= cur
        invariant RecordAll(View(), Walk(body, cur, end, socket, controller)) == RecordAll(before, items)
        invariant count + |Walk(body, cur, end, socket, controller)| == |items|
        decreases end - cur
      {
        var len := U16At(body, cur + 2);
        if len < 8 || cur + len > end {
          break;
        }
        RecordAllAppend(View(), Structure(body, cur, len, socket, controller),
                        Walk(body, cur + len, end, socket, controller));
        var n := ParseStructure(body, cur, len, socket, controller);
        count := count + n;
        cur := cur + len;
      }
    }

    method ParseStructure(body: seq<u8>, cur: nat, len: nat, socket: u16, controller: u16) returns (count: nat)
      requires Valid() && 8 <= len && cur + len <= |body|
      modifies this, dimms
      ensures Valid()
      ensures View() == RecordAll(old(View()), Structure(body, cur, len, socket, controller))
      ensures count == |Structure(body, cur, len, socket, controller)|
      decreases len, 0
    {
      if len < 12 {
        return 0;
      }
      match body[cur]
      case 0 => count := ParseSocket(body, cur, len, controller);
      case 1 => count := ParseController(body, cur, len, socket);
      case 2 =>
        var dimm := Dimm(U32At(body, cur + 8), socket, controller, U16At(body, cur + 4));
        RecordAllCons(View(), DimmItem(dimm), []);
        AddDimm(dimm);
        count := 1;
      case _ =>
        count := 0;
    }

    method ParseSocket(body: seq<u8>, cur: nat, len: nat, controller: u16) returns (count: nat)
      requires Valid() && 12 <= len && cur + len <= |body|
      modifies this, dimms
      ensures Valid()
      ensures var items := [SocketItem] + Walk(body, cur + 12, cur + len, U16At(body, cur + 8), controller);
              View() == RecordAll(old(View()), items) && count == |items|
      decreases len - 1
    {
      RecordAllCons(View(), SocketItem, Walk(body, cur + 12, cur + len, U16At(body, cur + 8), controller));
      sockets := sockets + 1;
      count := ParseChildren(body, cur + 12, cur + len, U16At(body, cur + 8), controller);
      count := count + 1;
    }

    method ParseController(body: seq<u8>, cur: nat, len: nat, socket: u16) returns (count: nat)
      requires Valid() && 12 <= len && cur + len <= |body|
      modifies this, dimms
      ensures Valid()
      ensures var items := [ControllerItem] + Walk(body, cur + 12, cur + len, socket, U16At(body, cur + 8));
              View() == RecordAll(old(View()), items) && count == |items|
      decreases len - 1
    {
      RecordAllCons(View(), ControllerItem, Walk(body, cur + 12, cur + len, socket, U16At(body, cur + 8)));
      controllers := controllers + 1;
      count := ParseChildren(body, cur + 12, cur + len, socket, U16At(body, cur + 8));
      count := count + 1;
    }
  }

  // ---------------------------------------------------------------------
  // Round trip
  // ---------------------------------------------------------------------

  // A topology as firmware describes it. `Vendor` stands for the structure
  // types the walk does not know.
  datatype Node =
    | SocketNode(id: u16, flags: u16, children: seq<Node>)
    | ControllerNode(id: u16, flags: u16, children: seq<Node>)
    | DimmNode(handle: u32, flags: u16)
    | Vendor(kind: u8, flags: u16, payload: seq<u8>)

  function Kind(n: Node): u8 {
    match n
    case SocketNode(_, _, _) => 0
    case ControllerNode(_, _, _) => 1
    case DimmNode(_, _) => 2
    case Vendor(kind, _, _) => kind
  }

  // Kind, reserved, 16-bit length, flags, reserved. The length is only right
  // when the structure is shorter than 64 KiB.
  function Header(kind: u8, len: nat, flags: u16): (h: seq<u8>)
    ensures |h| == 8
  {
    [kind, 0, len % 0x100, len / 0x100 % 0x100, flags % 0x100, flags / 0x100, 0, 0]
  }

  function Id(id: u16): (b: seq<u8>)
    ensures |b| == 4
  {
    [id % 0x100, id / 0x100, 0, 0]
  }

  // Everything after the eight header bytes.
  function Payload(n: Node): seq<u8>
    decreases n, 0
  {
    match n
    case SocketNode(id, _, children) => Id(id) + EncodeAll(children)
    case ControllerNode(id, _, children) => Id(id) + EncodeAll(children)
    case DimmNode(handle, _) => Le32(handle)
    case Vendor(_, _, payload) => payload
  }

  function Encode(n: Node): seq<u8>
    decreases n, 1
  {
    Header(Kind(n), 8 + |Payload(n)|, n.flags) + Payload(n)
  }

  function EncodeAll(nodes: seq<Node>): seq<u8>
    decreases nodes, 2
  {
    if nodes == [] then [] else Encode(nodes[0]) + EncodeAll(nodes[1..])
  }

  // The structures in pre-order, each DIMM tagged with the nearest enclosing
  // socket and controller.
  function Flatten(n: Node, socket: u16, controller: u16): seq<Item>
    decreases n, 1
  {
    match n
    case SocketNode(id, _, children) => [SocketItem] + FlattenAll(children, id, controller)
    case ControllerNode(id, _, children) => [ControllerItem] + FlattenAll(children, socket, id)
    case DimmNode(handle, flags) => [DimmItem(Dimm(handle, socket, controller, flags))]
    case Vendor(_, _, _) => []
  }

  function FlattenAll(nodes: seq<Node>, socket: u16, controller: u16): seq<Item>
    decreases nodes, 2
  {
    if nodes == [] then []
    else Flatten(nodes[0], socket, controller) + FlattenAll(nodes[1..], socket, controller)
  }

  // Every structure fits its length field, and vendor kinds are unknown ones.
  predicate Encodable(n: Node)
    decreases n, 1
  {
    && |Encode(n)| < 0x1_0000
    && match n
       case SocketNode(_, _, children) => AllEncodable(children)
       case ControllerNode(_, _, children) => AllEncodable(children)
       case DimmNode(_, _) => true
       case Vendor(kind, _, _) => kind > 2
  }

  predicate AllEncodable(nodes: seq<Node>)
    decreases nodes, 2
  {
    nodes == [] || (Encodable(nodes[0]) && AllEncodable(nodes[1..]))
  }

  lemma HoldsHeader(body: seq<u8>, at: nat, kind: u8, len: nat, flags: u16)
    requires Holds(body, at, Header(kind, len, flags)) && len < 0x1_0000
    ensures at + 8 <= |body| && body[at] == kind
    ensures U16At(body, at + 2) == len && U16At(body, at + 4) == flags
  {
    var h := Header(kind, len, flags);
    HoldsAt(body, at, h, 0);
    HoldsAt(body, at, h, 2);
    HoldsAt(body, at, h, 3);
    HoldsAt(body, at, h, 4);
    HoldsAt(body, at, h, 5);
    HoldsAt(body, at, h, 7);
  }

  lemma HoldsId(body: seq<u8>, at: nat, id: u16)
    requires Holds(body, at, Id(id))
    ensures at + 4 <= |body| && U16At(body, at) == id
  {
    HoldsAt(body, at, Id(id), 0);
    HoldsAt(body, at, Id(id), 1);
    HoldsAt(body, at, Id(id), 3);
  }

  lemma HeaderOf(body: seq<u8>, at: nat, n: Node)
    requires |Encode(n)| < 0x1_0000 && Holds(body, at, Encode(n))
    ensures at + 8 <= |body| && body[at] == Kind(n)
    ensures U16At(body, at + 2) == |Encode(n)| == 8 + |Payload(n)| && U16At(body, at + 4) == n.flags
    ensures Holds(body, at + 8, Payload(n))
  {
    HoldsSplit(body, at, Header(Kind(n), 8 + |Payload(n)|, n.flags), Payload(n));
    HoldsHeader(body, at, Kind(n), 8 + |Payload(n)|, n.flags);
  }

  lemma {:induction false} StructureRoundTrip(body: seq<u8>, at: nat, n: Node, socket: u16, controller: u16)
    requires Encodable(n) && Holds(body, at, Encode(n))
    ensures |Encode(n)| >= 8
    ensures Structure(body, at, |Encode(n)|, socket, controller) == Flatten(n, socket, controller)
    decreases n, 1
  {
    HeaderOf(body, at, n);
    match n
    case SocketNode(id, _, children) => ChildrenRoundTrip(body, at, id, children, id, controller);
    case ControllerNode(id, _, children) => ChildrenRoundTrip(body, at, id, children, socket, id);
    case DimmNode(handle, _) => HoldsLe32(body, at + 8, handle);
    case Vendor(_, _, _) =>
  }

  lemma {:induction false} ChildrenRoundTrip(
    body: seq<u8>, at: nat, id: u16, children: seq<Node>, socket: u16, controller: u16)
    requires AllEncodable(children) && Holds(body, at + 8, Id(id) + EncodeAll(children))
    ensures at + 12 + |EncodeAll(children)| <= |body| && U16At(body, at + 8) == id
    ensures Walk(body, at + 12, at + 12 + |EncodeAll(children)|, socket, controller) ==
              FlattenAll(children, socket, controller)
    decreases children, 3
  {
    HoldsSplit(body, at + 8, Id(id), EncodeAll(children));
    HoldsId(body, at + 8, id);
    ForestRoundTrip(body, at + 12, children, socket, controller);
  }

  lemma {:induction false} FirstRoundTrip(body: seq<u8>, at: nat, n: Node, end: nat, socket: u16, controller: u16)
    requires Encodable(n) && Holds(body, at, Encode(n)) && at + |Encode(n)| <= end <= |body|
    ensures Walk(body, at, end, socket, controller) ==
              Flatten(n, socket, controller) + Walk(body, at + |Encode(n)|, end, socket, controller)
    decreases n, 2
  {
    HeaderOf(body, at, n);
    StructureRoundTrip(body, at, n, socket, controller);
    WalkStep(body, at, |Encode(n)|, end, socket, controller);
  }

  lemma {:induction false} ForestRoundTrip(body: seq<u8>, at: nat, nodes: seq<Node>, socket: u16, controller: u16)
    requires AllEncodable(nodes) && Holds(body, at, EncodeAll(nodes))
    ensures Walk(body, at, at + |EncodeAll(nodes)|, socket, controller) == FlattenAll(nodes, socket, controller)
    decreases nodes, 2
  {
    if nodes != [] {
      var next, end := at + |Encode(nodes[0])|, at + |EncodeAll(nodes)|;
      HoldsSplit(body, at, Encode(nodes[0]), EncodeAll(nodes[1..]));
      FirstRoundTrip(body, at, nodes[0], end, socket, controller);
      ForestRoundTrip(body, next, nodes[1..], socket, controller);
      assert next + |EncodeAll(nodes[1..])| == end;
      calc {
        Walk(body, at, end, socket, controller);
        Flatten(nodes[0], socket, controller) + Walk(body, next, end, socket, controller);
        Flatten(nodes[0], socket, controller) + FlattenAll(nodes[1..], socket, controller);
        FlattenAll(nodes, socket, controller);
      }
    }
  }

  // Parsing a table whose structures encode a forest gives the forest's counts
  // and its first 32 DIMMs.
  lemma TableRoundTrip(header: seq<u8>, nodes: seq<Node>)
    requires AllEncodable(nodes)
    ensures var body := header + EncodeAll(nodes);
            var items := FlattenAll(nodes, 0xFFFF, 0xFFFF);
            && Walk(body, |header|, |body|, NO_PARENT, NO_PARENT) == items
            && RecordAll(EMPTY, items) ==
               Tables(Sockets(items), Controllers(items), |Dimms(items)|, FirstDimms(Dimms(items)))
  {
    var body := header + EncodeAll(nodes);
    HoldsSlice(body, |header|, EncodeAll(nodes));
    ForestRoundTrip(body, |header|, nodes, NO_PARENT, NO_PARENT);
    TablesSummarise(FlattenAll(nodes, 0xFFFF, 0xFFFF));
  }
}
