/** srsRAN reports to metric rows: the rules the Rust collector
    (ran/collector/src/normalise.rs) and the Python package
    (ran/py/src/mec_cast_ran/normalise.py) share, and the places where the two
    differ. A report is taken after JSON typing; a JSON object is its keys in
    the order sent, which Python keeps and Rust's map sorts. */
module RanNormalise {
  import opened Base
  import opened Sorting
  import opened Text

  datatype Lang = Rust | Python

  /** A field's value: a number, a nested object's numbers, an array (`None`
      marks an element that is not a number), or anything else. */
  datatype Value = Num(n: real) | Sub(order: seq<string>, numbers: map<string, real>)
                 | Arr(items: seq<Option<real>>) | Other

  datatype Obj = Obj(order: seq<string>, fields: map<string, Value>)

  datatype Ue = Ue(pci: Option<int>, rnti: Option<int>, index: Option<int>, obj: Obj)

  datatype CellEvent = CellEvent(kind: string, rnti: Option<int>)

  datatype Cell = Cell(ts: Option<int>, pci: Option<int>, metrics: Obj, events: seq<CellEvent>, ues: seq<Ue>)

  datatype LegacyCell = LegacyCell(pci: Option<int>, metrics: Obj)

  /** One OCUDU RLC message; `rx` is the uplink, `tx` the downlink. */
  datatype Rlc = Rlc(ueId: Option<int>, drbId: Option<int>, rx: Option<Obj>, tx: Option<Obj>)

  datatype Mac = Mac(pci: Option<int>, obj: Obj)

  datatype Report = Report(
    ts: int, cells: seq<Cell>, legacyCell: Option<LegacyCell>, legacyUes: seq<Ue>,
    rlc: seq<Rlc>, macDl: seq<Mac>, macUl: seq<Mac>)

  datatype Row = Row(gnbTsNs: int, cell: string, ue: string, metric: string, value: real, unit: string)

  datatype Name = Name(suffix: string, unit: string, scale: real)

  /** The catalogue of canonical names: the four tables both sides carry. */
  datatype Catalogue = Catalogue(ue: map<string, Name>, cell: map<string, Name>,
                                 rlc: map<string, Name>, mac: map<string, Name>)

  /** DU UE index -> (cell, RNTI). */
  type UeIndex = map<int, (string, string)>

  const IDENTITY := {"rnti", "pci", "ue", "timestamp"}
  const LATENCY_SUMS := {"sum_sdu_latency_us", "sum_pdu_latency_ns"}

  // ----- Sequences built by a loop over another sequence -----

  function FlatMap<A, B>(f: A -> seq<B>, s: seq<A>): seq<B> {
    if s == [] then [] else FlatMap(f, s[..|s| - 1]) + f(s[|s| - 1])
  }

  lemma {:induction false} FlatMapSplit<A, B>(f: A -> seq<B>, a: seq<A>, b: seq<A>)
    ensures FlatMap(f, a + b) == FlatMap(f, a) + FlatMap(f, b)
  {
    if b == [] {
      assert a + b == a;
    } else {
      assert (a + b)[..|a + b| - 1] == a + b[..|b| - 1];
      FlatMapSplit(f, a, b[..|b| - 1]);
    }
  }

  lemma FlatMapRemove<A, B>(f: A -> seq<B>, b: seq<A>, x: A) returns (rest: seq<A>)
    requires x in b
    ensures multiset(rest) == multiset(b) - multiset{x}
    ensures multiset(FlatMap(f, b)) == multiset(FlatMap(f, rest)) + multiset(f(x))
  {
    var i :| 0 <= i < |b| && b[i] == x;
    var l, r := b[..i], b[i + 1..];
    assert b == l + [x] + r;
    FlatMapSplit(f, l + [x], r);
    assert (l + [x])[..|l|] == l;
    FlatMapSplit(f, l, r);
    rest := l + r;
    assert multiset(l + [x] + r) == multiset(l) + multiset{x} + multiset(r);
  }

  /** The order of the input decides only the order of the output. */
  lemma {:induction false} FlatMapPermutation<A, B>(f: A -> seq<B>, a: seq<A>, b: seq<A>)
    requires multiset(a) == multiset(b)
    ensures multiset(FlatMap(f, a)) == multiset(FlatMap(f, b))
  {
    if a == [] {
      assert |multiset(b)| == 0;
    } else {
      WithoutLast(a);
      var rest := FlatMapRemove(f, b, a[|a| - 1]);
      FlatMapPermutation(f, a[..|a| - 1], rest);
    }
  }

  lemma {:induction false} FlatMapPointwise<A, B>(f: A -> seq<B>, g: A -> seq<B>, s: seq<A>)
    requires forall x :: x in s ==> multiset(f(x)) == multiset(g(x))
    ensures multiset(FlatMap(f, s)) == multiset(FlatMap(g, s))
  {
    if s != [] {
      FlatMapPointwise(f, g, s[..|s| - 1]);
    }
  }

  // ----- The shared rules -----

  /** The order in which a language walks an object's keys. */
  function Walk(lang: Lang, keys: seq<string>): seq<string> {
    if lang.Rust? then Sort(StringLe, keys) else keys
  }

  function IntString(v: Option<int>): string {
    if v.Some? then Decimal(v.value) else ""
  }

  function OrElse(s: string, default: string): string {
    if s == "" then default else s
  }

  /** Where a row belongs. */
  datatype Place = Place(ts: int, cell: string, ue: string)

  function Put(p: Place, metric: string, value: real, unit: string): Row {
    Row(p.ts, p.cell, p.ue, metric, value, unit)
  }

  function NameOf(table: map<string, Name>, scope: string, key: string): Name {
    if key in table then table[key] else Name(scope + "raw." + key, "", 1.0)
  }

  function AllNumbers(items: seq<Option<real>>): bool {
    forall i :: 0 <= i < |items| ==> items[i].Some?
  }

  function SumOf(items: seq<Option<real>>): real {
    if items == [] then 0.0
    else SumOf(items[..|items| - 1]) + (if items[|items| - 1].Some? then items[|items| - 1].value else 0.0)
  }

  function Scaled(n: real, scale: real): real { n * scale }

  function Mean(items: seq<Option<real>>): real
    requires items != []
  {
    SumOf(items) / |items| as real
  }

  function SubRow(p: Place, name: Name, numbers: map<string, real>): string -> seq<Row> {
    (k: string) =>
      if k in numbers then [Put(p, name.suffix + "_" + k, Scaled(numbers[k], name.scale), name.unit)] else []
  }

  /** The rows of one field of a UE or cell object. */
  function FieldRows(lang: Lang, table: map<string, Name>, scope: string, p: Place, obj: Obj): string -> seq<Row> {
    (key: string) =>
      if key in IDENTITY || key !in obj.fields then []
      else
        var name := NameOf(table, scope, key);
        match obj.fields[key]
        case Num(n) => [Put(p, name.suffix, Scaled(n, name.scale), name.unit)]
        case Sub(order, numbers) => FlatMap(SubRow(p, name, numbers), Walk(lang, order))
        case Arr(items) =>
          if items != [] && AllNumbers(items)
          then [Put(p, name.suffix + "_mean", Scaled(Mean(items), name.scale), name.unit)] else []
        case Other => []
  }

  function ObjectRows(lang: Lang, table: map<string, Name>, scope: string, p: Place, obj: Obj): seq<Row> {
    FlatMap(FieldRows(lang, table, scope, p, obj), Walk(lang, obj.order))
  }

  function UeRows(lang: Lang, cat: Catalogue, default: string, t: int): Ue -> seq<Row> {
    (ue: Ue) =>
      ObjectRows(lang, cat.ue, "ue.", Place(t, OrElse(IntString(ue.pci), default), IntString(ue.rnti)), ue.obj)
  }

  function EventRow(t: int, cell: string): CellEvent -> seq<Row> {
    (ev: CellEvent) => [Put(Place(t, cell, IntString(ev.rnti)), "event." + ev.kind, 1.0, "count")]
  }

  /** A cell's own timestamp, else the report's. Python's `or` also falls back
      when the cell's timestamp is 0. */
  function CellTime(lang: Lang, c: Cell, ts: int): int {
    if c.ts.Some? && (lang.Rust? || c.ts.value != 0) then c.ts.value else ts
  }

  /** A cell's rows, all at time `t`. */
  function CellRowsAt(lang: Lang, cat: Catalogue, t: int, c: Cell): seq<Row> {
    var cell := IntString(c.pci);
    ObjectRows(lang, cat.cell, "cell.", Place(t, cell, ""), c.metrics)
    + FlatMap(EventRow(t, cell), c.events)
    + FlatMap(UeRows(lang, cat, cell, t), c.ues)
  }

  function CellRows(lang: Lang, cat: Catalogue, ts: int): Cell -> seq<Row> {
    (c: Cell) => CellRowsAt(lang, cat, CellTime(lang, c, ts), c)
  }

  function LegacyDefault(r: Report): string {
    if r.legacyCell.Some? then IntString(r.legacyCell.value.pci) else ""
  }

  function LegacyRows(lang: Lang, cat: Catalogue, r: Report): seq<Row> {
    (if r.legacyCell.Some?
     then ObjectRows(lang, cat.cell, "cell.", Place(r.ts, LegacyDefault(r), ""), r.legacyCell.value.metrics) else [])
    + FlatMap(UeRows(lang, cat, LegacyDefault(r), r.ts), r.legacyUes)
  }

  function Number(obj: Obj, key: string): Option<real> {
    if key in obj.fields && obj.fields[key].Num? then Some(obj.fields[key].n) else None
  }

  /** When a latency sum is divided by its count: Rust asks for a positive
      count, Python for a true one. */
  predicate Averaged(lang: Lang, total: Option<real>, count: Option<real>) {
    total.Some? && count.Some? && (if lang.Rust? then 0.0 < count.value else count.value != 0.0)
  }

  function Average(lang: Lang, p: Place, metric: string,
                   total: Option<real>, scale: real, count: Option<real>): seq<Row>
  {
    if Averaged(lang, total, count) then [Put(p, metric, Scaled(total.value, scale) / count.value, "ns")] else []
  }

  function RlcFieldRows(table: map<string, Name>, p: Place, prefix: string, block: Obj): string -> seq<Row> {
    (key: string) =>
      if key in LATENCY_SUMS then []
      else match Number(block, key)
        case None => []
        case Some(n) =>
          var name := NameOf(table, "", key);
          [Put(p, prefix + name.suffix, n, name.unit)]
  }

  function BlockRows(lang: Lang, table: map<string, Name>, p: Place, prefix: string, block: Obj): seq<Row> {
    FlatMap(RlcFieldRows(table, p, prefix, block), Walk(lang, block.order))
    + Average(lang, p, prefix + "sdu_latency_avg_ns",
        Number(block, "sum_sdu_latency_us"), 1000.0, Number(block, "num_sdus"))
    + Average(lang, p, prefix + "pdu_latency_avg_ns",
        Number(block, "sum_pdu_latency_ns"), 1.0, Number(block, "num_pdus"))
  }

  /** Whom an RLC message is about, by what the index knows. */
  function Owner(known: Option<(string, string)>, ueId: int): (string, string) {
    if known.Some? then known.value else ("", "du-ue:" + Decimal(ueId))
  }

  function LookupUe(index: UeIndex, ueId: int): Option<(string, string)> {
    if ueId in index then Some(index[ueId]) else None
  }

  /** Where a message's rows belong. */
  function MessagePlace(index: UeIndex, ts: int, ueId: int): Place {
    var owner := Owner(LookupUe(index, ueId), ueId);
    Place(ts, owner.0, owner.1)
  }

  function Bearer(m: Rlc): string {
    "ue.rlc.drb" + Decimal(if m.drbId.Some? then m.drbId.value else 0)
  }

  /** One side of a message, if it has it. */
  function SideRows(lang: Lang, table: map<string, Name>, p: Place, prefix: string, side: Option<Obj>): seq<Row> {
    if side.Some? then BlockRows(lang, table, p, prefix, side.value) else []
  }

  function RlcRows(lang: Lang, table: map<string, Name>, index: UeIndex, ts: int): Rlc -> seq<Row> {
    (m: Rlc) =>
      if m.ueId.None? then []
      else
        var p := MessagePlace(index, ts, m.ueId.value);
        SideRows(lang, table, p, Bearer(m) + ".ul_", m.rx) + SideRows(lang, table, p, Bearer(m) + ".dl_", m.tx)
  }

  function MacFieldRows(table: map<string, Name>, p: Place, direction: string, obj: Obj): string -> seq<Row> {
    (key: string) =>
      match Number(obj, key)
      case None => []
      case Some(n) =>
        if key in IDENTITY then []
        else
          var name := NameOf(table, "", key);
          [Put(p, "cell.mac." + direction + "_" + name.suffix, Scaled(n, name.scale), name.unit)]
  }

  function MacRows(lang: Lang, table: map<string, Name>, direction: string, ts: int): Mac -> seq<Row> {
    (e: Mac) => FlatMap(MacFieldRows(table, Place(ts, IntString(e.pci), ""), direction, e.obj), Walk(lang, e.obj.order))
  }

  /** Everything a report says, in the order the loops say it. */
  function ReportRows(lang: Lang, cat: Catalogue, r: Report, index: UeIndex): seq<Row> {
    FlatMap(CellRows(lang, cat, r.ts), r.cells)
    + LegacyRows(lang, cat, r)
    + FlatMap(RlcRows(lang, cat.rlc, index, r.ts), r.rlc)
    + FlatMap(MacRows(lang, cat.mac, "dl", r.ts), r.macDl)
    + FlatMap(MacRows(lang, cat.mac, "ul", r.ts), r.macUl)
  }

  /** Rows in (cell, ue, metric) order. */
  predicate RowLe(a: Row, b: Row) {
    if a.cell != b.cell then StringLe(a.cell, b.cell)
    else if a.ue != b.ue then StringLe(a.ue, b.ue)
    else StringLe(a.metric, b.metric)
  }

  // ----- Learning DU UE index -> (cell, RNTI) -----

  /** One scheduler entry that names a DU index. */
  datatype Entry = Entry(ueId: int, cell: string, rnti: string)

  /** A UE teaches the index when it has both an index and an RNTI. */
  predicate Teaches(ue: Ue) { ue.index.Some? && ue.rnti.Some? }

  function Taught(default: string): Ue -> seq<Entry> {
    (ue: Ue) =>
      if Teaches(ue) then [Entry(ue.index.value, OrElse(IntString(ue.pci), default), IntString(ue.rnti))] else []
  }

  function CellEntries(): Cell -> seq<Entry> {
    (c: Cell) => FlatMap(Taught(IntString(c.pci)), c.ues)
  }

  /** In the old layout Rust falls back to "", Python to the report's cell. */
  function LegacyFallback(lang: Lang, r: Report): string {
    if lang.Rust? then "" else LegacyDefault(r)
  }

  function ReportEntries(lang: Lang, r: Report): seq<Entry> {
    FlatMap(CellEntries(), r.cells) + FlatMap(Taught(LegacyFallback(lang, r)), r.legacyUes)
  }

  function Learn(index: UeIndex, entries: seq<Entry>): UeIndex {
    if entries == [] then index
    else
      var e := entries[|entries| - 1];
      Learn(index, entries[..|entries| - 1])[e.ueId := (e.cell, e.rnti)]
  }

  lemma {:induction false} LearnSplit(index: UeIndex, a: seq<Entry>, b: seq<Entry>)
    ensures Learn(index, a + b) == Learn(Learn(index, a), b)
  {
    if b == [] {
      assert a + b == a;
    } else {
      assert (a + b)[..|a + b| - 1] == a + b[..|b| - 1];
      LearnSplit(index, a, b[..|b| - 1]);
    }
  }

  /** The last of the entries that names `ueId`. */
  function Latest(entries: seq<Entry>, ueId: int): Option<(string, string)> {
    if entries == [] then None
    else
      var e := entries[|entries| - 1];
      if e.ueId == ueId then Some((e.cell, e.rnti)) else Latest(entries[..|entries| - 1], ueId)
  }

  lemma {:induction false} LearntIsLatest(entries: seq<Entry>, ueId: int)
    ensures LookupUe(Learn(map[], entries), ueId) == Latest(entries, ueId)
  {
    if entries != [] {
      LearntIsLatest(entries[..|entries| - 1], ueId);
    }
  }

  // ----- A stream of reports -----

  function StreamEntries(lang: Lang, rs: seq<Report>): seq<Entry> {
    if rs == [] then [] else StreamEntries(lang, rs[..|rs| - 1]) + ReportEntries(lang, rs[|rs| - 1])
  }

  /** The index carried across the stream, after its last report. */
  function StreamIndex(lang: Lang, rs: seq<Report>): UeIndex {
    if rs == [] then map[] else Learn(StreamIndex(lang, rs[..|rs| - 1]), ReportEntries(lang, rs[|rs| - 1]))
  }

  lemma {:induction false} StreamIndexIsLatest(lang: Lang, rs: seq<Report>)
    ensures StreamIndex(lang, rs) == Learn(map[], StreamEntries(lang, rs))
  {
    if rs != [] {
      StreamIndexIsLatest(lang, rs[..|rs| - 1]);
      LearnSplit(map[], StreamEntries(lang, rs[..|rs| - 1]), ReportEntries(lang, rs[|rs| - 1]));
    }
  }

  /** What the normaliser returns for the last report of a stream. */
  function Normalised(lang: Lang, cat: Catalogue, rs: seq<Report>): seq<Row>
    requires rs != []
  {
    Sort(RowLe, ReportRows(lang, cat, rs[|rs| - 1], StreamIndex(lang, rs)))
  }

  // ----- RLC rows name the right UE -----

  lemma {:induction false} InFlatMap<A, B>(f: A -> seq<B>, s: seq<A>, y: B)
    requires y in FlatMap(f, s)
    ensures exists x :: x in s && y in f(x)
  {
    if y !in f(s[|s| - 1]) {
      InFlatMap(f, s[..|s| - 1], y);
    }
  }

  lemma SideRowsPlaced(lang: Lang, table: map<string, Name>, p: Place, prefix: string, side: Option<Obj>, row: Row)
    requires row in SideRows(lang, table, p, prefix, side)
    ensures row.cell == p.cell && row.ue == p.ue && row.gnbTsNs == p.ts
  {
    var keys, f := Walk(lang, side.value.order), RlcFieldRows(table, p, prefix, side.value);
    if row in FlatMap(f, keys) {
      InFlatMap(f, keys, row);
    }
  }

  lemma MessageRowsPlaced(lang: Lang, table: map<string, Name>, index: UeIndex, ts: int, m: Rlc, row: Row)
    requires m.ueId.Some? && row in RlcRows(lang, table, index, ts)(m)
    ensures var p := MessagePlace(index, ts, m.ueId.value);
      row.cell == p.cell && row.ue == p.ue && row.gnbTsNs == p.ts
  {
    var p := MessagePlace(index, ts, m.ueId.value);
    if row in SideRows(lang, table, p, Bearer(m) + ".ul_", m.rx) {
      SideRowsPlaced(lang, table, p, Bearer(m) + ".ul_", m.rx, row);
    } else {
      SideRowsPlaced(lang, table, p, Bearer(m) + ".dl_", m.tx, row);
    }
  }

  /** Every row of an RLC message carries the cell and RNTI of the latest
      scheduler entry that named its DU index, in this report or any before it,
      else `du-ue:<index>`. */
  lemma RlcRowsNameTheLatest(lang: Lang, cat: Catalogue, rs: seq<Report>, m: Rlc, row: Row)
    requires rs != [] && m in rs[|rs| - 1].rlc
    requires row in RlcRows(lang, cat.rlc, StreamIndex(lang, rs), rs[|rs| - 1].ts)(m)
    ensures m.ueId.Some?
    ensures (row.cell, row.ue) == Owner(Latest(StreamEntries(lang, rs), m.ueId.value), m.ueId.value)
  {
    var id := m.ueId.value;
    StreamIndexIsLatest(lang, rs);
    LearntIsLatest(StreamEntries(lang, rs), id);
    MessageRowsPlaced(lang, cat.rlc, StreamIndex(lang, rs), rs[|rs| - 1].ts, m, row);
  }
}
