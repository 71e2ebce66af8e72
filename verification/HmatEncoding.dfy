// Encoding HMAT structures, and the round trip from a list of structures to
// the parsed tables.

module HmatEncoding {
  import opened Words
  import opened Bytes
  import opened Hmat

  type Nibble = x: int | 0 <= x < 16

  // A locality structure: one row of values per initiator, one value per target.
  // The hierarchy shares its byte with bits the parser has to ignore.
  datatype Locality = Locality(
    kind: Kind,
    hierarchy: Nibble,
    upper: Nibble,
    baseUnit: u64,
    initiators: seq<u32>,
    targets: seq<u32>,
    rows: seq<seq<u16>>)

  // The data type byte of a kind.
  function CodeOf(kind: Kind): u8 {
    match kind
    case AccessLatency => 0
    case ReadLatency => 1
    case WriteLatency => 2
    case AccessBandwidth => 3
    case ReadBandwidth => 4
    case WriteBandwidth => 5
    case Other(code) => code
  }

  // The codes up to 5 have a kind of their own.
  predicate Proper(kind: Kind) {
    kind.Other? ==> kind.code > 5
  }

  lemma KindRoundTrip(kind: Kind)
    requires Proper(kind)
    ensures KindOf(CodeOf(kind)) == kind
  {
  }

  function RowPairs(initiator: u32, targets: seq<u32>, row: seq<u16>): seq<Pair>
    requires |row| == |targets|
  {
    if row == [] then []
    else [Pair(initiator, targets[0], row[0])] + RowPairs(initiator, targets[1..], row[1..])
  }

  predicate Rectangular(initiators: seq<u32>, targets: seq<u32>, rows: seq<seq<u16>>) {
    && |rows| == |initiators|
    && (rows == [] || (|rows[0]| == |targets| && Rectangular(initiators[1..], targets, rows[1..])))
  }

  // The matrix as pairs, row by row.
  function RowMajor(initiators: seq<u32>, targets: seq<u32>, rows: seq<seq<u16>>): seq<Pair>
    requires Rectangular(initiators, targets, rows)
  {
    if rows == [] then []
    else RowPairs(initiators[0], targets, rows[0]) + RowMajor(initiators[1..], targets, rows[1..])
  }

  function Words32(xs: seq<u32>): (b: seq<u8>)
    ensures |b| == 4 * |xs|
  {
    if xs == [] then [] else Le32(xs[0]) + Words32(xs[1..])
  }

  function Words16(xs: seq<u16>): (b: seq<u8>)
    ensures |b| == 2 * |xs|
  {
    if xs == [] then [] else Le16(xs[0]) + Words16(xs[1..])
  }

  function Matrix(rows: seq<seq<u16>>): seq<u8> {
    if rows == [] then [] else Words16(rows[0]) + Matrix(rows[1..])
  }

  lemma {:induction false} MatrixSize(initiators: seq<u32>, targets: seq<u32>, rows: seq<seq<u16>>)
    requires Rectangular(initiators, targets, rows)
    ensures |Matrix(rows)| == 2 * Area(|initiators|, |targets|)
    decreases rows
  {
    if rows != [] {
      MatrixSize(initiators[1..], targets, rows[1..]);
    }
  }

  lemma {:induction false} RowRoundTrip(body: seq<u8>, at: nat, initiator: u32, target: nat, value: nat,
                                        targets: seq<u32>, row: seq<u16>)
    requires at + 4 <= |body| && U32At(body, at) == initiator && |row| == |targets|
    requires Holds(body, target, Words32(targets)) && Holds(body, value, Words16(row))
    ensures DecodeRow(body, at, target, value, |targets|) == RowPairs(initiator, targets, row)
    decreases row
  {
    if row != [] {
      HoldsSplit(body, target, Le32(targets[0]), Words32(targets[1..]));
      HoldsSplit(body, value, Le16(row[0]), Words16(row[1..]));
      HoldsLe32(body, target, targets[0]);
      HoldsLe16(body, value, row[0]);
      RowRoundTrip(body, at, initiator, target + 4, value + 2, targets[1..], row[1..]);
    }
  }

  lemma MatrixFits(body: seq<u8>, at: nat, target: nat, value: nat,
                   initiators: seq<u32>, targets: seq<u32>, rows: seq<seq<u16>>)
    requires Rectangular(initiators, targets, rows)
    requires Holds(body, at, Words32(initiators)) && Holds(body, target, Words32(targets))
    requires Holds(body, value, Matrix(rows))
    ensures Fits(body, at, target, value, |initiators|, |targets|)
  {
    MatrixSize(initiators, targets, rows);
  }

  lemma FirstRowRoundTrip(body: seq<u8>, at: nat, target: nat, value: nat,
                          initiators: seq<u32>, targets: seq<u32>, rows: seq<seq<u16>>)
    requires rows != [] && |initiators| > 0 && |rows[0]| == |targets|
    requires Holds(body, at, Words32(initiators)) && Holds(body, target, Words32(targets))
    requires Holds(body, value, Matrix(rows))
    ensures Holds(body, at + 4, Words32(initiators[1..])) && Holds(body, value + 2 * |targets|, Matrix(rows[1..]))
    ensures DecodeRow(body, at, target, value, |targets|) == RowPairs(initiators[0], targets, rows[0])
  {
    HoldsSplit(body, at, Le32(initiators[0]), Words32(initiators[1..]));
    HoldsSplit(body, value, Words16(rows[0]), Matrix(rows[1..]));
    HoldsLe32(body, at, initiators[0]);
    RowRoundTrip(body, at, initiators[0], target, value, targets, rows[0]);
  }

  lemma {:induction false} MatrixRoundTrip(body: seq<u8>, at: nat, target: nat, value: nat,
                                           initiators: seq<u32>, targets: seq<u32>, rows: seq<seq<u16>>)
    requires Rectangular(initiators, targets, rows)
    requires Holds(body, at, Words32(initiators)) && Holds(body, target, Words32(targets))
    requires Holds(body, value, Matrix(rows))
    ensures Fits(body, at, target, value, |initiators|, |targets|)
    ensures DecodeRows(body, at, target, value, |initiators|, |targets|) == RowMajor(initiators, targets, rows)
    decreases rows
  {
    var m, n := |initiators|, |targets|;
    MatrixFits(body, at, target, value, initiators, targets, rows);
    if rows != [] {
      RowsUnfold(body, at, target, value, m, n);
      FirstRowRoundTrip(body, at, target, value, initiators, targets, rows);
      MatrixRoundTrip(body, at + 4, target, value + 2 * n, initiators[1..], targets, rows[1..]);
    }
  }

  // A structure of the table; `Unknown` stands for the types that are skipped.
  datatype Item =
    | AttrItem(attr: Attr)
    | LocalityItem(locality: Locality)
    | Unknown(kind: u16, payload: seq<u8>)

  const PADDING: seq<u8> := [0, 0, 0, 0, 0, 0, 0, 0, 0, 0, 0, 0, 0, 0, 0, 0, 0, 0, 0, 0]

  function AttrPayload(a: Attr): (b: seq<u8>)
    ensures |b| == 32
  {
    Le16(a.flags) + ([0, 0] + (Le32(a.processor) + (Le32(a.memory) + PADDING)))
  }

  function MatrixPart(l: Locality): seq<u8> {
    Words32(l.initiators) + (Words32(l.targets) + Matrix(l.rows))
  }

  function LocalityPayload(l: Locality): seq<u8>
    requires SizedLocality(l)
  {
    [16 * l.upper + l.hierarchy, CodeOf(l.kind), 0, 0]
    + (Le32(|l.initiators|) + (Le32(|l.targets|) + ([0, 0, 0, 0] + (Le64(l.baseUnit) + MatrixPart(l)))))
  }

  function KindCode(item: Item): u16 {
    match item
    case AttrItem(_) => 0
    case LocalityItem(_) => 1
    case Unknown(kind, _) => kind
  }

  // A rectangular matrix whose structure fits the 32-bit length field.
  predicate SizedLocality(l: Locality) {
    && |l.initiators| <= U32_MAX && |l.targets| <= U32_MAX
    && MatrixEnd(|l.initiators|, |l.targets|) <= U32_MAX
    && Rectangular(l.initiators, l.targets, l.rows)
  }

  predicate Encodable(item: Item) {
    match item
    case AttrItem(_) => true
    case LocalityItem(l) => Proper(l.kind) && SizedLocality(l)
    case Unknown(kind, payload) => kind > 1 && 8 + |payload| <= U32_MAX
  }

  function Length(item: Item): (n: u32)
    requires Encodable(item)
    ensures n >= 8
  {
    match item
    case AttrItem(_) => 40
    case LocalityItem(l) => MatrixEnd(|l.initiators|, |l.targets|)
    case Unknown(_, payload) => 8 + |payload|
  }

  function Payload(item: Item): seq<u8>
    requires Encodable(item)
  {
    match item
    case AttrItem(a) => AttrPayload(a)
    case LocalityItem(l) => LocalityPayload(l)
    case Unknown(_, payload) => payload
  }

  lemma PayloadLength(item: Item)
    requires Encodable(item)
    ensures 8 + |Payload(item)| == Length(item)
  {
    if item.LocalityItem? {
      MatrixSize(item.locality.initiators, item.locality.targets, item.locality.rows);
    }
  }

  function Encode(item: Item): (b: seq<u8>)
    requires Encodable(item)
    ensures |b| == Length(item)
  {
    PayloadLength(item);
    Le16(KindCode(item)) + ([0, 0] + (Le32(Length(item)) + Payload(item)))
  }

  predicate AllEncodable(items: seq<Item>) {
    items == [] || (Encodable(items[0]) && AllEncodable(items[1..]))
  }

  function EncodeAll(items: seq<Item>): seq<u8>
    requires AllEncodable(items)
  {
    if items == [] then [] else Encode(items[0]) + EncodeAll(items[1..])
  }

  // As many of the cells as the 256 places of the pair table still take.
  function Appended(pairs: seq<Pair>, cells: seq<Pair>): seq<Pair> {
    if |pairs| >= 256 then pairs else pairs + cells[..Min(|cells|, 256 - |pairs|)]
  }

  lemma FillIsAppended(pairs: seq<Pair>, cells: seq<Pair>)
    ensures Fill(pairs, cells) == Appended(pairs, cells)
  {
    if |pairs| <= 256 {
      FillAppends(pairs, cells);
    }
  }

  // What parsing a structure should do to the tables: 16 attributes and 8
  // records are kept, and the pairs that fit.
  function Expect(t: Tables, item: Item): Tables
    requires Encodable(item)
  {
    match item
    case AttrItem(a) => if |t.attrs| < 16 then t.(attrs := t.attrs + [a]) else t
    case LocalityItem(l) =>
      if |t.records| < 8 then
        var cells := RowMajor(l.initiators, l.targets, l.rows);
        var r := Record(l.kind, l.hierarchy, |l.initiators|, |l.targets|, l.baseUnit, |t.pairs|);
        Tables(t.attrs, t.records + [r], Appended(t.pairs, cells), t.sources + [cells])
      else t
    case Unknown(_, _) => t
  }

  predicate Counted(t: Tables, item: Item) {
    (item.AttrItem? && |t.attrs| < 16) || (item.LocalityItem? && |t.records| < 8)
  }

  function ExpectAll(t: Tables, count: nat, items: seq<Item>): Outcome
    requires AllEncodable(items)
    decreases items
  {
    if items == [] then Done(t, count)
    else ExpectAll(Expect(t, items[0]), if Counted(t, items[0]) then count + 1 else count, items[1..])
  }

  // The eight common header bytes, before any payload.
  lemma CommonHeaderAt(body: seq<u8>, at: nat, kind: u16, len: u32, payload: seq<u8>)
    requires Holds(body, at, Le16(kind) + ([0, 0] + (Le32(len) + payload)))
    ensures at + 8 <= |body| && U16At(body, at) == kind && U32At(body, at + 4) == len
    ensures Holds(body, at + 8, payload)
  {
    TakeLe16(body, at, kind, [0, 0] + (Le32(len) + payload));
    HoldsSplit(body, at + 2, [0, 0], Le32(len) + payload);
    TakeLe32(body, at + 4, len, payload);
  }

  lemma HeaderAt(body: seq<u8>, at: nat, item: Item)
    requires Encodable(item) && Holds(body, at, Encode(item))
    ensures at + 8 <= |body| && U16At(body, at) == KindCode(item) && U32At(body, at + 4) == Length(item)
    ensures Holds(body, at + 8, Payload(item))
  {
    CommonHeaderAt(body, at, KindCode(item), Length(item), Payload(item));
  }

  lemma AttrAt(body: seq<u8>, at: nat, a: Attr)
    requires Holds(body, at + 8, AttrPayload(a))
    ensures at + 40 <= |body| && U16At(body, at + 8) == a.flags
    ensures U32At(body, at + 12) == a.processor && U32At(body, at + 16) == a.memory
  {
    TakeLe16(body, at + 8, a.flags, [0, 0] + (Le32(a.processor) + (Le32(a.memory) + PADDING)));
    HoldsSplit(body, at + 10, [0, 0], Le32(a.processor) + (Le32(a.memory) + PADDING));
    TakeLe32(body, at + 12, a.processor, Le32(a.memory) + PADDING);
    TakeLe32(body, at + 16, a.memory, PADDING);
  }

  lemma FlagsAt(body: seq<u8>, at: nat, flags: u8, code: u8, rest: seq<u8>)
    requires Holds(body, at, [flags, code, 0, 0] + rest)
    ensures at + 4 <= |body| && body[at] == flags && body[at + 1] == code
    ensures Holds(body, at + 4, rest)
  {
    HoldsSplit(body, at, [flags, code, 0, 0], rest);
    HoldsAt(body, at, [flags, code, 0, 0], 0);
    HoldsAt(body, at, [flags, code, 0, 0], 1);
  }

  lemma CountsAt(body: seq<u8>, at: nat, m: u32, n: u32, rest: seq<u8>)
    requires Holds(body, at, Le32(m) + (Le32(n) + ([0, 0, 0, 0] + rest)))
    ensures at + 12 <= |body| && U32At(body, at) == m && U32At(body, at + 4) == n
    ensures Holds(body, at + 12, rest)
  {
    TakeLe32(body, at, m, Le32(n) + ([0, 0, 0, 0] + rest));
    TakeLe32(body, at + 4, n, [0, 0, 0, 0] + rest);
    HoldsSplit(body, at + 8, [0, 0, 0, 0], rest);
  }

  lemma FieldsAt(body: seq<u8>, at: nat, flags: u8, code: u8, m: u32, n: u32, unit: u64, matrix: seq<u8>)
    requires Holds(body, at, [flags, code, 0, 0] + (Le32(m) + (Le32(n) + ([0, 0, 0, 0] + (Le64(unit) + matrix)))))
    ensures at + 24 <= |body| && body[at] == flags && body[at + 1] == code
    ensures U32At(body, at + 4) == m && U32At(body, at + 8) == n && U64At(body, at + 16) == unit
    ensures Holds(body, at + 24, matrix)
  {
    FlagsAt(body, at, flags, code, Le32(m) + (Le32(n) + ([0, 0, 0, 0] + (Le64(unit) + matrix))));
    CountsAt(body, at + 4, m, n, Le64(unit) + matrix);
    TakeLe64(body, at + 16, unit, matrix);
  }

  lemma LocalityHeaderAt(body: seq<u8>, at: nat, l: Locality)
    requires SizedLocality(l) && Holds(body, at + 8, LocalityPayload(l))
    ensures at + 32 <= |body| && body[at + 8] == 16 * l.upper + l.hierarchy && body[at + 9] == CodeOf(l.kind)
    ensures U32At(body, at + 12) == |l.initiators| && U32At(body, at + 16) == |l.targets|
    ensures U64At(body, at + 24) == l.baseUnit
    ensures Holds(body, at + 32, MatrixPart(l))
  {
    FieldsAt(body, at + 8, 16 * l.upper + l.hierarchy, CodeOf(l.kind), |l.initiators|, |l.targets|, l.baseUnit,
             MatrixPart(l));
  }

  lemma MatrixPlacedAt(body: seq<u8>, at: nat, l: Locality)
    requires SizedLocality(l) && Holds(body, at + 32, Words32(l.initiators))
    requires Holds(body, at + 32 + 4 * |l.initiators|, Words32(l.targets))
    requires Holds(body, at + 32 + 4 * |l.initiators| + 4 * |l.targets|, Matrix(l.rows))
    ensures at + MatrixEnd(|l.initiators|, |l.targets|) <= |body|
    ensures MatrixAt(body, at, |l.initiators|, |l.targets|) == RowMajor(l.initiators, l.targets, l.rows)
  {
    var target := at + 32 + 4 * |l.initiators|;
    MatrixRoundTrip(body, at + 32, target, target + 4 * |l.targets|, l.initiators, l.targets, l.rows);
  }

  lemma LocalityMatrixAt(body: seq<u8>, at: nat, l: Locality)
    requires SizedLocality(l) && Holds(body, at + 32, MatrixPart(l))
    ensures at + MatrixEnd(|l.initiators|, |l.targets|) <= |body|
    ensures MatrixAt(body, at, |l.initiators|, |l.targets|) == RowMajor(l.initiators, l.targets, l.rows)
  {
    HoldsSplit3(body, at + 32, Words32(l.initiators), Words32(l.targets), Matrix(l.rows));
    MatrixPlacedAt(body, at, l);
  }

  lemma AttrRoundTrip(body: seq<u8>, at: nat, a: Attr, t: Tables)
    requires Holds(body, at, Encode(AttrItem(a)))
    ensures TurnAt(body, at, t) == Next(40, Expect(t, AttrItem(a)), Counted(t, AttrItem(a)))
  {
    HeaderAt(body, at, AttrItem(a));
    AttrAt(body, at, a);
  }

  lemma TurnOfRecord(body: seq<u8>, at: nat, len: u32, m: u32, n: u32, t: Tables)
    requires at + 32 <= at + len <= |body| && U16At(body, at) == 1 && U32At(body, at + 4) == len
    requires U32At(body, at + 12) == m && U32At(body, at + 16) == n && MatrixEnd(m, n) <= len
    ensures TurnAt(body, at, t) ==
              if |t.records| < MAX_RECORDS then Next(len, AddRecord(t, body, at, m, n), true) else Next(len, t, false)
  {
  }

  // What the parser reads of an encoded locality structure: its header, the
  // record made of it, and its matrix.
  lemma LocalityFieldsAt(body: seq<u8>, at: nat, l: Locality)
    requires Encodable(LocalityItem(l)) && Holds(body, at, Encode(LocalityItem(l)))
    ensures at + 32 <= |body| && U16At(body, at) == 1 && U32At(body, at + 4) == Length(LocalityItem(l))
    ensures body[at + 8] == 16 * l.upper + l.hierarchy && body[at + 9] == CodeOf(l.kind)
    ensures U64At(body, at + 24) == l.baseUnit
    ensures U32At(body, at + 12) == |l.initiators| && U32At(body, at + 16) == |l.targets|
    ensures Holds(body, at + 32, MatrixPart(l))
  {
    HeaderAt(body, at, LocalityItem(l));
    LocalityHeaderAt(body, at, l);
  }

  lemma LocalityCellsAt(body: seq<u8>, at: nat, l: Locality)
    requires Encodable(LocalityItem(l)) && Holds(body, at, Encode(LocalityItem(l)))
    ensures at + MatrixEnd(|l.initiators|, |l.targets|) <= |body|
    ensures MatrixAt(body, at, |l.initiators|, |l.targets|) == RowMajor(l.initiators, l.targets, l.rows)
  {
    LocalityFieldsAt(body, at, l);
    LocalityMatrixAt(body, at, l);
  }

  lemma LocalityCountsAt(body: seq<u8>, at: nat, l: Locality)
    requires Encodable(LocalityItem(l)) && Holds(body, at, Encode(LocalityItem(l)))
    ensures at + 32 <= |body| && U16At(body, at) == 1 && U32At(body, at + 4) == Length(LocalityItem(l))
    ensures U32At(body, at + 12) == |l.initiators| && U32At(body, at + 16) == |l.targets|
    ensures at + MatrixEnd(|l.initiators|, |l.targets|) <= |body|
  {
    LocalityFieldsAt(body, at, l);
    LocalityCellsAt(body, at, l);
  }

  lemma RecordFromFields(body: seq<u8>, at: nat, l: Locality, m: u32, n: u32, offset: nat)
    requires at + 32 <= |body| && body[at + 8] == 16 * l.upper + l.hierarchy
    requires body[at + 9] == CodeOf(l.kind) && Proper(l.kind)
    requires U64At(body, at + 24) == l.baseUnit
    ensures RecordAt(body, at, m, n, offset) == Record(l.kind, l.hierarchy, m, n, l.baseUnit, offset)
  {
    KindRoundTrip(l.kind);
  }

  lemma LocalityRecordAt(body: seq<u8>, at: nat, l: Locality, offset: nat)
    requires Encodable(LocalityItem(l)) && Holds(body, at, Encode(LocalityItem(l)))
    ensures at + 32 <= |body|
    ensures RecordAt(body, at, |l.initiators|, |l.targets|, offset) ==
              Record(l.kind, l.hierarchy, |l.initiators|, |l.targets|, l.baseUnit, offset)
  {
    LocalityFieldsAt(body, at, l);
    RecordFromFields(body, at, l, |l.initiators|, |l.targets|, offset);
  }

  lemma LocalityExpected(body: seq<u8>, at: nat, l: Locality, t: Tables)
    requires Encodable(LocalityItem(l)) && Holds(body, at, Encode(LocalityItem(l)))
    requires |t.records| < MAX_RECORDS
    ensures at + 32 <= |body| && at + MatrixEnd(|l.initiators|, |l.targets|) <= |body|
    ensures AddRecord(t, body, at, |l.initiators|, |l.targets|) == Expect(t, LocalityItem(l))
  {
    LocalityRecordAt(body, at, l, |t.pairs|);
    LocalityCellsAt(body, at, l);
    FillIsAppended(t.pairs, RowMajor(l.initiators, l.targets, l.rows));
  }

  lemma LocalityRoundTrip(body: seq<u8>, at: nat, l: Locality, t: Tables)
    requires Encodable(LocalityItem(l)) && Holds(body, at, Encode(LocalityItem(l)))
    ensures TurnAt(body, at, t) ==
              Next(Length(LocalityItem(l)), Expect(t, LocalityItem(l)), Counted(t, LocalityItem(l)))
  {
    LocalityCountsAt(body, at, l);
    TurnOfRecord(body, at, Length(LocalityItem(l)), |l.initiators|, |l.targets|, t);
    if |t.records| < MAX_RECORDS {
      LocalityExpected(body, at, l, t);
    }
  }

  // One turn of the loop past one encoded structure.
  lemma ItemRoundTrip(body: seq<u8>, at: nat, item: Item, t: Tables)
    requires Encodable(item) && Holds(body, at, Encode(item))
    ensures TurnAt(body, at, t) == Next(Length(item), Expect(t, item), Counted(t, item))
  {
    match item
    case AttrItem(a) => AttrRoundTrip(body, at, a, t);
    case LocalityItem(l) => LocalityRoundTrip(body, at, l, t);
    case Unknown(_, _) => HeaderAt(body, at, item);
  }

  lemma ParseTurn(body: seq<u8>, cur: nat, t: Tables, count: nat, len: nat, t': Tables, recorded: bool)
    requires TurnAt(body, cur, t) == Next(len, t', recorded)
    ensures Parse(body, cur, t, count) == Parse(body, cur + len, t', if recorded then count + 1 else count)
  {
  }

  // The body ends with the encoded structures, from `at` on.
  ghost predicate Encoded(body: seq<u8>, at: nat, items: seq<Item>) {
    AllEncodable(items) && Holds(body, at, EncodeAll(items)) && |body| == at + |EncodeAll(items)|
  }

  lemma EncodeAllSplit(body: seq<u8>, at: nat, items: seq<Item>)
    requires items != [] && AllEncodable(items) && Holds(body, at, EncodeAll(items))
    ensures Holds(body, at, Encode(items[0])) && Holds(body, at + Length(items[0]), EncodeAll(items[1..]))
    ensures |EncodeAll(items)| == Length(items[0]) + |EncodeAll(items[1..])|
  {
    HoldsSplit(body, at, Encode(items[0]), EncodeAll(items[1..]));
  }

  // Parsing past the first structure, and what is then still expected.
  lemma FirstParsed(body: seq<u8>, at: nat, items: seq<Item>, t: Tables, count: nat)
    returns (next: Tables, more: nat, pos: nat)
    requires items != [] && Encoded(body, at, items)
    ensures Encoded(body, pos, items[1..])
    ensures Parse(body, at, t, count) == Parse(body, pos, next, more)
    ensures AllEncodable(items) && ExpectAll(t, count, items) == ExpectAll(next, more, items[1..])
  {
    var item := items[0];
    pos := at + Length(item);
    next, more := Expect(t, item), if Counted(t, item) then count + 1 else count;
    EncodeAllSplit(body, at, items);
    ItemRoundTrip(body, at, item, t);
    ParseTurn(body, at, t, count, Length(item), next, Counted(t, item));
  }

  lemma ParsedEnd(body: seq<u8>, t: Tables, count: nat)
    ensures Parse(body, |body|, t, count) == Done(t, count)
  {
  }

  // Parsing an encoded list of structures builds exactly the expected tables.
  lemma {:induction false} TableRoundTrip(body: seq<u8>, at: nat, items: seq<Item>, t: Tables, count: nat)
    requires Encoded(body, at, items)
    ensures Parse(body, at, t, count) == ExpectAll(t, count, items)
    decreases items
  {
    if items == [] {
      ParsedEnd(body, t, count);
    } else {
      var next, more, pos := FirstParsed(body, at, items, t, count);
      TableRoundTrip(body, pos, items[1..], next, more);
    }
  }
}
