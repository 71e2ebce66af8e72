// The table of general-purpose event handlers: AML methods found in the
// namespace and native handlers registered by drivers, one entry per number.

module GpeHandlers {
  import opened Words

  type Path = seq<u8>

  // A namespace node.
  datatype Node = Node(isMethod: bool, path: Path)

  // A handler entry; native handlers are named by a code address.
  datatype Handler = Handler(number: u32, path: Option<Path>, native: Option<u64>)

  // What dispatching an event does.
  datatype Effect = CallNative(handler: u64, number: u32) | Evaluate(path: Path)

  // "\_GPE."
  const GPE_PREFIX: Path := [0x5C, 0x5F, 0x47, 0x50, 0x45, 0x2E]

  function HexValue(c: u8): Option<nat> {
    if 0x30 <= c <= 0x39 then Some(c - 0x30)
    else if 0x61 <= c <= 0x66 then Some(c - 0x61 + 10)
    else if 0x41 <= c <= 0x46 then Some(c - 0x41 + 10)
    else None
  }

  // The number of a segment `_Lxx` or `_Exx`, in either case.
  function SegmentNumber(seg: seq<u8>): (r: Option<u32>)
    requires |seg| == 4
  {
    var hi, lo := HexValue(seg[2]), HexValue(seg[3]);
    if seg[0] != 0x5F then None
    else if seg[1] !in [0x4C, 0x6C, 0x45, 0x65] then None
    else if hi == None || lo == None then None
    else Some(0x10 * hi.value + lo.value)
  }

  // The number of an event method directly under \_GPE; a longer name is
  // judged by its last four bytes.
  function EventNumber(node: Node): Option<u32> {
    if !node.isMethod || !(GPE_PREFIX <= node.path) then None
    else
      var suffix := node.path[|GPE_PREFIX|..];
      if 0x2E in suffix || |suffix| < 4 then None else SegmentNumber(suffix[|suffix| - 4..])
  }

  function HexDigit(d: nat, upper: bool): u8
    requires d < 16
  {
    if d < 10 then 0x30 + d else if upper then 0x41 + d - 10 else 0x61 + d - 10
  }

  lemma HexRoundTrip(d: nat, upper: bool)
    requires d < 16
    ensures HexValue(HexDigit(d, upper)) == Some(d) && HexDigit(d, upper) != 0x2E
  {
  }

  // Only the digits in either case have a value.
  lemma HexIsDigit(c: u8, d: nat) returns (upper: bool)
    requires HexValue(c) == Some(d)
    ensures d < 16 && c == HexDigit(d, upper)
  {
    upper := c <= 0x46;
  }

  // The last segment of a method's name, each digit in its own case.
  function EventName(trigger: u8, hi: nat, lo: nat, upperHigh: bool, upperLow: bool): (name: seq<u8>)
    requires hi < 16 && lo < 16
    ensures |name| == 4
  {
    [0x5F, trigger, HexDigit(hi, upperHigh), HexDigit(lo, upperLow)]
  }

  // The path of a node right under \_GPE: a backslash, "_GPE", a dot, its name.
  function UnderGpe(name: seq<u8>): Path {
    [0x5C, 0x5F, 0x47, 0x50, 0x45, 0x2E] + name
  }

  // Every level or edge method, each letter in either case and after any stem
  // without a dot, is recognised by its number.
  lemma EventNumberOfName(stem: seq<u8>, trigger: u8, hi: nat, lo: nat, upperHigh: bool, upperLow: bool)
    requires 0x2E !in stem && trigger in [0x4C, 0x6C, 0x45, 0x65] && hi < 16 && lo < 16
    ensures EventNumber(Node(true, UnderGpe(stem + EventName(trigger, hi, lo, upperHigh, upperLow))))
         == Some(0x10 * hi + lo)
  {
    var name := EventName(trigger, hi, lo, upperHigh, upperLow);
    HexRoundTrip(hi, upperHigh);
    HexRoundTrip(lo, upperLow);
    assert SegmentNumber(name) == Some(0x10 * hi + lo);
    assert UnderGpe(stem + name)[6..] == stem + name;
    assert (stem + name)[|stem|..] == name;
  }

  // And nothing else is recognised.
  lemma NameOfEventNumber(node: Node, number: u32)
    returns (stem: seq<u8>, trigger: u8, hi: nat, lo: nat, upperHigh: bool, upperLow: bool)
    requires EventNumber(node) == Some(number)
    ensures 0x2E !in stem && trigger in [0x4C, 0x6C, 0x45, 0x65] && hi < 16 && lo < 16
    ensures node == Node(true, UnderGpe(stem + EventName(trigger, hi, lo, upperHigh, upperLow)))
    ensures number == 0x10 * hi + lo
  {
    var name := node.path[6..];
    var seg := name[|name| - 4..];
    stem, trigger := name[..|name| - 4], seg[1];
    hi, lo := HexValue(seg[2]).value, HexValue(seg[3]).value;
    upperHigh := HexIsDigit(seg[2], hi);
    upperLow := HexIsDigit(seg[3], lo);
    assert seg == EventName(trigger, hi, lo, upperHigh, upperLow);
    assert name == stem + seg;
  }

  // ---- The table ----

  // The first entry of a number, or the table's length.
  function IndexOf(table: seq<Handler>, number: u32): (i: nat)
    ensures i <= |table| && (i < |table| ==> table[i].number == number)
  {
    if table == [] || table[0].number == number then 0 else 1 + IndexOf(table[1..], number)
  }

  // The entry of a number, empty if there is none.
  function Entry(table: seq<Handler>, number: u32): (h: Handler)
    ensures h.number == number
  {
    var i := IndexOf(table, number);
    if i < |table| then table[i] else Handler(number, None, None)
  }

  function Put(table: seq<Handler>, h: Handler): seq<Handler> {
    var i := IndexOf(table, h.number);
    if i < |table| then table[i := h] else table + [h]
  }

  function SetPath(table: seq<Handler>, number: u32, path: Path): seq<Handler> {
    Put(table, Entry(table, number).(path := Some(path)))
  }

  function SetNative(table: seq<Handler>, number: u32, native: u64): seq<Handler> {
    Put(table, Entry(table, number).(native := Some(native)))
  }

  function InstallNode(table: seq<Handler>, node: Node): seq<Handler> {
    match EventNumber(node)
    case None => table
    case Some(number) => SetPath(table, number, node.path)
  }

  // One install over the namespace: the table afterwards.
  function Install(table: seq<Handler>, nodes: seq<Node>): seq<Handler> {
    if nodes == [] then table
    else InstallNode(Install(table, nodes[..|nodes| - 1]), nodes[|nodes| - 1])
  }

  function Effects(h: Handler): seq<Effect> {
    (if h.native.Some? then [CallNative(h.native.value, h.number)] else [])
    + (if h.path.Some? then [Evaluate(h.path.value)] else [])
  }

  ghost predicate Distinct(table: seq<Handler>) {
    forall i, j :: 0 <= i < j < |table| ==> table[i].number != table[j].number
  }

  ghost predicate SameNumbers(a: seq<Handler>, b: seq<Handler>) {
    |a| == |b| && forall i :: 0 <= i < |a| ==> a[i].number == b[i].number
  }

  predicate Has(table: seq<Handler>, number: u32) {
    IndexOf(table, number) < |table|
  }

  lemma {:induction false} IndexIsFirst(table: seq<Handler>, number: u32, i: nat)
    requires i < |table| && table[i].number == number
    ensures IndexOf(table, number) <= i
  {
    if table[0].number != number {
      IndexIsFirst(table[1..], number, i - 1);
    }
  }

  lemma {:induction false} IndexByNumbers(a: seq<Handler>, b: seq<Handler>, number: u32)
    requires SameNumbers(a, b)
    ensures IndexOf(a, number) == IndexOf(b, number)
  {
    if a != [] && a[0].number != number {
      IndexByNumbers(a[1..], b[1..], number);
    }
  }

  lemma {:induction false} IndexAppend(table: seq<Handler>, h: Handler, number: u32)
    ensures IndexOf(table + [h], number) ==
      if Has(table, number) then IndexOf(table, number) else if h.number == number then |table| else |table| + 1
  {
    if table != [] {
      assert (table + [h])[1..] == table[1..] + [h];
      if table[0].number != number {
        IndexAppend(table[1..], h, number);
      }
    }
  }

  // Putting an entry changes that number and no other, keeps the order of the
  // numbers, and adds an entry only for a new number.
  lemma PutEntry(table: seq<Handler>, h: Handler, number: u32)
    ensures Entry(Put(table, h), number) == if number == h.number then h else Entry(table, number)
    ensures Has(Put(table, h), number) <==> number == h.number || Has(table, number)
  {
    var i := IndexOf(table, h.number);
    if i < |table| {
      IndexByNumbers(table[i := h], table, number);
    } else {
      IndexAppend(table, h, number);
    }
  }

  lemma PutDistinct(table: seq<Handler>, h: Handler)
    requires Distinct(table)
    ensures Distinct(Put(table, h))
  {
    if !Has(table, h.number) {
      forall i | 0 <= i < |table|
        ensures table[i].number != h.number
      {
        if table[i].number == h.number {
          IndexIsFirst(table, h.number, i);
        }
      }
    }
  }

  // ---- Runs ----

  // The last path an install gives a number.
  function LastPath(nodes: seq<Node>, number: u32): Option<Path> {
    if nodes == [] then None
    else if EventNumber(nodes[|nodes| - 1]) == Some(number) then Some(nodes[|nodes| - 1].path)
    else LastPath(nodes[..|nodes| - 1], number)
  }

  function Newer<T>(last: Option<T>, before: Option<T>): Option<T> {
    if last.Some? then last else before
  }

  // An install leaves the last matching method's path and every native handler.
  lemma {:induction false} InstallEntry(table: seq<Handler>, nodes: seq<Node>, number: u32)
    ensures var h := Entry(table, number);
      Entry(Install(table, nodes), number) == h.(path := Newer(LastPath(nodes, number), h.path))
    ensures Has(Install(table, nodes), number) <==> Has(table, number) || LastPath(nodes, number).Some?
  {
    if nodes != [] {
      var before, node := nodes[..|nodes| - 1], nodes[|nodes| - 1];
      InstallEntry(table, before, number);
      var t := Install(table, before);
      if EventNumber(node).Some? {
        var n := EventNumber(node).value;
        PutEntry(t, Entry(t, n).(path := Some(node.path)), number);
      }
    }
  }

  lemma {:induction false} InstallDistinct(table: seq<Handler>, nodes: seq<Node>)
    requires Distinct(table)
    ensures Distinct(Install(table, nodes))
  {
    if nodes != [] {
      var before, node := nodes[..|nodes| - 1], nodes[|nodes| - 1];
      InstallDistinct(table, before);
      var t := Install(table, before);
      if EventNumber(node).Some? {
        PutDistinct(t, Entry(t, EventNumber(node).value).(path := Some(node.path)));
      }
    }
  }

  // Every event method of the namespace has an entry.
  ghost predicate Covers(table: seq<Handler>, nodes: seq<Node>) {
    forall number: u32 :: LastPath(nodes, number).Some? ==> Has(table, number)
  }

  // Installing over a table that has all the numbers moves no entry.
  lemma {:induction false} InstallKeepsNumbers(table: seq<Handler>, nodes: seq<Node>)
    requires Covers(table, nodes)
    ensures SameNumbers(Install(table, nodes), table)
  {
    if nodes != [] {
      var before, node := nodes[..|nodes| - 1], nodes[|nodes| - 1];
      assert forall number: u32 :: LastPath(before, number).Some? ==> LastPath(nodes, number).Some?;
      InstallKeepsNumbers(table, before);
      if EventNumber(node).Some? {
        var n := EventNumber(node).value;
        assert LastPath(nodes, n).Some?;
        IndexByNumbers(Install(table, before), table, n);
      }
    }
  }

  lemma SameEntries(a: seq<Handler>, b: seq<Handler>)
    requires Distinct(a) && SameNumbers(a, b)
    requires forall number: u32 :: Entry(a, number) == Entry(b, number)
    ensures a == b
  {
    forall i | 0 <= i < |a|
      ensures a[i] == b[i]
    {
      IndexIsFirst(a, a[i].number, i);
      IndexByNumbers(a, b, a[i].number);
      assert Entry(a, a[i].number) == Entry(b, a[i].number);
    }
  }

  // A second install over the same namespace changes nothing, so it counts no
  // new entry.
  lemma SecondInstall(table: seq<Handler>, nodes: seq<Node>)
    requires Distinct(table)
    ensures Install(Install(table, nodes), nodes) == Install(table, nodes)
  {
    var once := Install(table, nodes);
    var twice := Install(once, nodes);
    InstallDistinct(table, nodes);
    forall number: u32
      ensures LastPath(nodes, number).Some? ==> Has(once, number)
      ensures Entry(twice, number) == Entry(once, number)
    {
      InstallEntry(table, nodes, number);
      InstallEntry(once, nodes, number);
    }
    InstallKeepsNumbers(once, nodes);
    IndexesDistinct(twice, once);
    SameEntries(twice, once);
  }

  lemma IndexesDistinct(a: seq<Handler>, b: seq<Handler>)
    requires Distinct(b) && SameNumbers(a, b)
    ensures Distinct(a)
  {
  }

  datatype Op = InstallAml(nodes: seq<Node>) | RegisterNative(number: u32, native: u64)

  function Apply(table: seq<Handler>, op: Op): seq<Handler> {
    match op
    case InstallAml(nodes) => Install(table, nodes)
    case RegisterNative(number, native) => SetNative(table, number, native)
  }

  function Run(ops: seq<Op>): seq<Handler> {
    if ops == [] then [] else Apply(Run(ops[..|ops| - 1]), ops[|ops| - 1])
  }

  // What the operations last asked for, read off the history alone.
  function Asked(ops: seq<Op>, number: u32): (h: Handler)
    ensures h.number == number
  {
    if ops == [] then Handler(number, None, None)
    else
      var h := Asked(ops[..|ops| - 1], number);
      match ops[|ops| - 1]
      case InstallAml(nodes) => h.(path := Newer(LastPath(nodes, number), h.path))
      case RegisterNative(n, native) => if n == number then h.(native := Some(native)) else h
  }

  // After every sequence of installs and registrations each number has at most
  // one entry, holding the last path installed and the last native handler
  // registered for it: none is ever dropped.
  lemma {:induction false} RunIsAsked(ops: seq<Op>, number: u32)
    ensures Distinct(Run(ops))
    ensures Entry(Run(ops), number) == Asked(ops, number)
  {
    if ops != [] {
      var before, op := ops[..|ops| - 1], ops[|ops| - 1];
      RunIsAsked(before, number);
      var t := Run(before);
      match op
      case InstallAml(nodes) =>
        InstallEntry(t, nodes, number);
        InstallDistinct(t, nodes);
      case RegisterNative(n, native) =>
        var h := Entry(t, n).(native := Some(native));
        PutEntry(t, h, number);
        PutDistinct(t, h);
    }
  }

  // The last operation installed this namespace.
  predicate JustInstalled(ops: seq<Op>, nodes: seq<Node>) {
    ops != [] && ops[|ops| - 1] == InstallAml(nodes)
  }

  // Installing it again changes nothing.
  lemma ReinstallChangesNothing(ops: seq<Op>, nodes: seq<Node>)
    requires JustInstalled(ops, nodes)
    ensures Install(Run(ops), nodes) == Run(ops)
  {
    var before := ops[..|ops| - 1];
    RunIsAsked(before, 0);
    SecondInstall(Run(before), nodes);
  }

  // ---- The registry ----

  class HandlerTable {
    var handlers: seq<Handler>
    // Every install and registration so far.
    ghost var history: seq<Op>

    ghost predicate Valid()
      reads this
    {
      handlers == Run(history)
    }

    constructor ()
      ensures Valid() && history == []
    {
      handlers := [];
      history := [];
    }

    // The position of a number's entry, or the table's length.
    method PositionOf(number: u32) returns (i: nat)
      ensures i == IndexOf(handlers, number)
    {
      i := 0;
      while i < |handlers|
        invariant i <= |handlers| && i + IndexOf(handlers[i..], number) == IndexOf(handlers, number)
      {
        if handlers[i].number == number {
          return;
        }
        assert handlers[i..][1..] == handlers[i + 1..];
        i := i + 1;
      }
    }

    // Installs the path of one event method; whether the entry is new.
    method InstallPath(number: u32, path: Path) returns (added: bool)
      modifies this`handlers
      ensures handlers == SetPath(old(handlers), number, path)
      ensures added == !Has(old(handlers), number)
    {
      var i := PositionOf(number);
      added := i == |handlers|;
      if added {
        handlers := handlers + [Handler(number, Some(path), None)];
      } else {
        handlers := handlers[i := handlers[i].(path := Some(path))];
      }
    }

    // Installs every event method of the namespace; the number of new entries.
    method InstallAml(nodes: seq<Node>) returns (count: nat)
      requires Valid()
      modifies this
      ensures Valid() && history == old(history) + [Op.InstallAml(nodes)]
      ensures count == |handlers| - |old(handlers)|
      ensures JustInstalled(old(history), nodes) ==> count == 0 && handlers == old(handlers)
    {
      if JustInstalled(history, nodes) {
        ReinstallChangesNothing(history, nodes);
      }
      count := 0;
      var k := 0;
      while k < |nodes|
        invariant 0 <= k <= |nodes| && history == old(history)
        invariant handlers == Install(old(handlers), nodes[..k])
        invariant count == |handlers| - |old(handlers)|
      {
        assert nodes[..k + 1][..k] == nodes[..k];
        var number := EventNumber(nodes[k]);
        if number.Some? {
          var added := InstallPath(number.value, nodes[k].path);
          count := if added then count + 1 else count;
        }
        k := k + 1;
      }
      assert nodes[..k] == nodes;
      Record(Op.InstallAml(nodes));
    }

    // Appends to the history.
    ghost method Record(op: Op)
      requires handlers == Apply(Run(history), op)
      modifies this`history
      ensures Valid() && history == old(history) + [op]
    {
      history := history + [op];
      assert history[..|history| - 1] == old(history);
    }

    // Registers a native handler.
    method RegisterNative(number: u32, native: u64)
      requires Valid()
      modifies this
      ensures Valid() && history == old(history) + [Op.RegisterNative(number, native)]
    {
      var i := PositionOf(number);
      if i < |handlers| {
        handlers := handlers[i := handlers[i].(native := Some(native))];
      } else {
        handlers := handlers + [Handler(number, None, Some(native))];
      }
      Record(Op.RegisterNative(number, native));
    }

    // Dispatches an event: the native handler last registered for it, then the
    // AML method last installed for it.
    method Dispatch(number: u32) returns (effects: seq<Effect>)
      requires Valid()
      ensures effects == Effects(Asked(history, number))
    {
      RunIsAsked(history, number);
      effects := [];
      var i := PositionOf(number);
      if i == |handlers| {
        return;
      }
      if handlers[i].native.Some? {
        effects := effects + [CallNative(handlers[i].native.value, number)];
      }
      if handlers[i].path.Some? {
        effects := effects + [Evaluate(handlers[i].path.value)];
      }
    }
  }
}
