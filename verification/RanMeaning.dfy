/** What each row of a normalised report says, in terms of the report alone:
    which measurement it holds, of which cell and UE, at what time, under which
    name and unit, and how many rows there are. */
module RanMeaning {
  import opened Base
  import opened Sorting
  import opened Text
  import opened RanNormalise
  import opened RanAgreement

  // ----- What a row may say -----

  /** A measurement under its canonical name, or its raw one without a unit. */
  ghost predicate Named(table: map<string, Name>, scope: string, key: string,
                        metric: string, tail: string, value: real, n: real, unit: string)
  {
    if key in table then
      metric == table[key].suffix + tail && value == n * table[key].scale && unit == table[key].unit
    else
      metric == scope + "raw." + key + tail && value == n && unit == ""
  }

  /** A number says itself, an object each of its numbers, a list of numbers
      their mean, anything else nothing. */
  ghost predicate ValueSays(table: map<string, Name>, scope: string, key: string, v: Value, row: Row) {
    match v
    case Num(n) => Named(table, scope, key, row.metric, "", row.value, n, row.unit)
    case Sub(order, numbers) =>
      exists k :: k in order && k in numbers
        && Named(table, scope, key, row.metric, "_" + k, row.value, numbers[k], row.unit)
    case Arr(items) =>
      && items != [] && (forall i :: 0 <= i < |items| ==> items[i].Some?)
      && exists mean: real :: IsMeanOf(mean, items)
           && Named(table, scope, key, row.metric, "_mean", row.value, mean, row.unit)
    case Other => false
  }

  ghost predicate IsMeanOf(mean: real, items: seq<Option<real>>) {
    mean * |items| as real == SumOf(items)
  }

  /** A field that measures something, under a key that is no identity. */
  ghost predicate FieldSays(table: map<string, Name>, scope: string, obj: Obj, key: string, row: Row) {
    && key in obj.order && key in obj.fields
    && key != "rnti" && key != "pci" && key != "ue" && key != "timestamp"
    && ValueSays(table, scope, key, obj.fields[key], row)
  }

  ghost predicate ObjectSays(table: map<string, Name>, scope: string, obj: Obj, row: Row) {
    exists key :: FieldSays(table, scope, obj, key, row)
  }

  /** A decimal number, or `default` in its absence. */
  ghost predicate Written(v: Option<int>, default: string, text: string) {
    if v.Some? then text == Decimal(v.value) else text == default
  }

  ghost predicate UeSays(cat: Catalogue, default: string, t: int, ue: Ue, row: Row) {
    && row.gnbTsNs == t && Written(ue.pci, default, row.cell) && Written(ue.rnti, "", row.ue)
    && ObjectSays(cat.ue, "ue.", ue.obj, row)
  }

  ghost predicate EventSays(pci: Option<int>, t: int, ev: CellEvent, row: Row) {
    && row.gnbTsNs == t && Written(pci, "", row.cell) && Written(ev.rnti, "", row.ue)
    && row.metric == "event." + ev.kind && row.value == 1.0 && row.unit == "count"
  }

  ghost predicate MetricsSay(cat: Catalogue, pci: Option<int>, t: int, metrics: Obj, row: Row) {
    && row.gnbTsNs == t && Written(pci, "", row.cell) && row.ue == ""
    && ObjectSays(cat.cell, "cell.", metrics, row)
  }

  /** A cell's rows carry its own time if it has one; for Python, one that is
      not 0. */
  ghost predicate TimeOf(lang: Lang, c: Cell, ts: int, t: int) {
    t == (if c.ts.Some? && (lang == Rust || c.ts.value != 0) then c.ts.value else ts)
  }

  ghost predicate CellSays(lang: Lang, cat: Catalogue, ts: int, c: Cell, row: Row) {
    exists t, default :: TimeOf(lang, c, ts, t) && Written(c.pci, "", default) && CellSaysAt(cat, c, t, default, row)
  }

  /** Its metrics, its events and its UEs; these are in the cell unless they
      name another. */
  ghost predicate CellSaysAt(cat: Catalogue, c: Cell, t: int, default: string, row: Row) {
    || MetricsSay(cat, c.pci, t, c.metrics, row)
    || (exists ev :: ev in c.events && EventSays(c.pci, t, ev, row))
    || (exists ue :: ue in c.ues && UeSays(cat, default, t, ue, row))
  }

  ghost predicate LegacySays(cat: Catalogue, r: Report, row: Row) {
    || (r.legacyCell.Some? && MetricsSay(cat, r.legacyCell.value.pci, r.ts, r.legacyCell.value.metrics, row))
    || exists ue, default :: ue in r.legacyUes && UeSays(cat, default, r.ts, ue, row)
         && Written(if r.legacyCell.Some? then r.legacyCell.value.pci else None, "", default)
  }

  /** A counter of one side of a message; latency sums are none. */
  ghost predicate CounterSays(table: map<string, Name>, prefix: string, block: Obj, key: string, row: Row) {
    && key in block.order && key in block.fields && block.fields[key].Num?
    && key != "sum_sdu_latency_us" && key != "sum_pdu_latency_ns"
    && row.value == block.fields[key].n
    && (if key in table then row.metric == prefix + table[key].suffix && row.unit == table[key].unit
        else row.metric == prefix + "raw." + key && row.unit == "")
  }

  /** A latency sum over its count, in nanoseconds. */
  ghost predicate AverageSays(lang: Lang, block: Obj, total: string, count: string, scale: real,
                              metric: string, row: Row)
  {
    && total in block.fields && block.fields[total].Num? && count in block.fields && block.fields[count].Num?
    && (if lang == Rust then block.fields[count].n > 0.0 else block.fields[count].n != 0.0)
    && row.value * block.fields[count].n == block.fields[total].n * scale
    && row.metric == metric && row.unit == "ns"
  }

  ghost predicate SideSays(lang: Lang, table: map<string, Name>, prefix: string, side: Option<Obj>, row: Row) {
    && side.Some?
    && (|| (exists key :: CounterSays(table, prefix, side.value, key, row))
        || AverageSays(lang, side.value, "sum_sdu_latency_us", "num_sdus", 1000.0, prefix + "sdu_latency_avg_ns", row)
        || AverageSays(lang, side.value, "sum_pdu_latency_ns", "num_pdus", 1.0, prefix + "pdu_latency_avg_ns", row))
  }

  /** An RLC message speaks of the UE the index names, or of an unnamed one, and
      of one bearer: what the gNB received is uplink, what it sent downlink. */
  ghost predicate RlcSays(lang: Lang, cat: Catalogue, index: UeIndex, ts: int, m: Rlc, row: Row) {
    && m.ueId.Some? && row.gnbTsNs == ts
    && (if m.ueId.value in index then row.cell == index[m.ueId.value].0 && row.ue == index[m.ueId.value].1
        else row.cell == "" && row.ue == "du-ue:" + Decimal(m.ueId.value))
    && exists drb :: Written(m.drbId, Decimal(0), drb)
         && (|| SideSays(lang, cat.rlc, "ue.rlc.drb" + drb + ".ul_", m.rx, row)
             || SideSays(lang, cat.rlc, "ue.rlc.drb" + drb + ".dl_", m.tx, row))
  }

  ghost predicate MacFieldSays(table: map<string, Name>, direction: string, obj: Obj, key: string, row: Row) {
    && key in obj.order && key in obj.fields && obj.fields[key].Num?
    && key != "rnti" && key != "pci" && key != "ue" && key != "timestamp"
    && (if key in table then
          && row.metric == "cell.mac." + direction + "_" + table[key].suffix
          && row.value == obj.fields[key].n * table[key].scale && row.unit == table[key].unit
        else
          && row.metric == "cell.mac." + direction + "_" + ("raw." + key)
          && row.value == obj.fields[key].n && row.unit == "")
  }

  ghost predicate MacSays(cat: Catalogue, direction: string, ts: int, e: Mac, row: Row) {
    && row.gnbTsNs == ts && Written(e.pci, "", row.cell) && row.ue == ""
    && exists key :: MacFieldSays(cat.mac, direction, e.obj, key, row)
  }

  /** Everything a report says, and nothing else. */
  ghost predicate ReportSays(lang: Lang, cat: Catalogue, r: Report, index: UeIndex, row: Row) {
    || (exists c :: c in r.cells && CellSays(lang, cat, r.ts, c, row))
    || LegacySays(cat, r, row)
    || (exists m :: m in r.rlc && RlcSays(lang, cat, index, r.ts, m, row))
    || (exists e :: e in r.macDl && MacSays(cat, "dl", r.ts, e, row))
    || (exists e :: e in r.macUl && MacSays(cat, "ul", r.ts, e, row))
  }

  // ----- The rows are what the report says -----

  lemma {:induction false} FlatMapMembers<A, B>(f: A -> seq<B>, s: seq<A>, y: B)
    ensures y in FlatMap(f, s) <==> exists x :: x in s && y in f(x)
  {
    if s != [] {
      var most, last := s[..|s| - 1], s[|s| - 1];
      FlatMapMembers(f, most, y);
      assert s == most + [last];
      if x :| x in s && y in f(x) {
        assert x in most || x == last;
      }
    }
  }

  lemma WalkMembers(lang: Lang, keys: seq<string>, key: string)
    ensures key in Walk(lang, keys) <==> key in keys
  {
    StringOrder();
    SortSorts(StringLe, keys);
    assert key in keys <==> key in multiset(keys);
    assert key in Sort(StringLe, keys) <==> key in multiset(Sort(StringLe, keys));
  }

  lemma NamedBy(table: map<string, Name>, scope: string, key: string, metric: string, tail: string,
                value: real, n: real, unit: string)
    ensures Named(table, scope, key, metric, tail, value, n, unit) <==>
      var name := NameOf(table, scope, key);
      metric == name.suffix + tail && value == Scaled(n, name.scale) && unit == name.unit
  {
  }

  lemma MeanIs(items: seq<Option<real>>, mean: real)
    requires items != []
    ensures IsMeanOf(mean, items) <==> mean == Mean(items)
  {
    QuotientTimes(SumOf(items), |items| as real, mean);
  }

  lemma QuotientTimes(total: real, count: real, q: real)
    requires count != 0.0
    ensures q * count == total <==> q == total / count
  {
  }

  /** `row` belongs at `p`. */
  ghost predicate At(row: Row, p: Place) {
    row.gnbTsNs == p.ts && row.cell == p.cell && row.ue == p.ue
  }

  lemma PutIs(p: Place, metric: string, value: real, unit: string, row: Row)
    ensures row == Put(p, metric, value, unit) <==>
      At(row, p) && row.metric == metric && row.value == value && row.unit == unit
  {
  }

  lemma FieldRowsSay(lang: Lang, table: map<string, Name>, scope: string, p: Place, obj: Obj, key: string, row: Row)
    requires key in obj.order
    ensures row in FieldRows(lang, table, scope, p, obj)(key) <==>
      At(row, p) && FieldSays(table, scope, obj, key, row)
  {
    if key !in IDENTITY && key in obj.fields {
      match obj.fields[key]
      case Num(n) => NamedBy(table, scope, key, row.metric, "", row.value, n, row.unit);
        assert NameOf(table, scope, key).suffix + "" == NameOf(table, scope, key).suffix;
      case Sub(order, numbers) => SubRowsSay(lang, table, scope, p, key, order, numbers, row);
      case Arr(items) =>
        if items != [] && AllNumbers(items) {
          ListSays(table, scope, p, key, items, row);
        }
      case Other =>
    }
  }

  lemma SubRowsSay(lang: Lang, table: map<string, Name>, scope: string, p: Place, key: string,
                   order: seq<string>, numbers: map<string, real>, row: Row)
    ensures row in FlatMap(SubRow(p, NameOf(table, scope, key), numbers), Walk(lang, order)) <==>
      At(row, p) && ValueSays(table, scope, key, Sub(order, numbers), row)
  {
    var name := NameOf(table, scope, key);
    var f, keys := SubRow(p, name, numbers), Walk(lang, order);
    FlatMapMembers(f, keys, row);
    forall k
      ensures k in keys <==> k in order
      ensures k in numbers ==>
        (row in f(k) <==> At(row, p) && Named(table, scope, key, row.metric, "_" + k, row.value, numbers[k], row.unit))
    {
      WalkMembers(lang, order, k);
      if k in numbers {
        NamedBy(table, scope, key, row.metric, "_" + k, row.value, numbers[k], row.unit);
        assert name.suffix + "_" + k == name.suffix + ("_" + k);
      }
    }
    if row in FlatMap(f, keys) {
      var k :| k in keys && row in f(k);
      assert k in order && k in numbers;
    }
    if At(row, p) && ValueSays(table, scope, key, Sub(order, numbers), row) {
      var k :| k in order && k in numbers
        && Named(table, scope, key, row.metric, "_" + k, row.value, numbers[k], row.unit);
      assert k in keys && row in f(k);
    }
  }

  lemma ListSays(table: map<string, Name>, scope: string, p: Place, key: string, items: seq<Option<real>>, row: Row)
    requires items != [] && AllNumbers(items)
    ensures var name := NameOf(table, scope, key);
      row == Put(p, name.suffix + "_mean", Scaled(Mean(items), name.scale), name.unit) <==>
      At(row, p) && ValueSays(table, scope, key, Arr(items), row)
  {
    NamedBy(table, scope, key, row.metric, "_mean", row.value, Mean(items), row.unit);
    MeanIs(items, Mean(items));
    if mean: real :| IsMeanOf(mean, items) && Named(table, scope, key, row.metric, "_mean", row.value, mean, row.unit) {
      MeanIs(items, mean);
    }
  }

  lemma ObjectRowsSay(lang: Lang, table: map<string, Name>, scope: string, p: Place, obj: Obj, row: Row)
    ensures row in ObjectRows(lang, table, scope, p, obj) <==> At(row, p) && ObjectSays(table, scope, obj, row)
  {
    var f, keys := FieldRows(lang, table, scope, p, obj), Walk(lang, obj.order);
    FlatMapMembers(f, keys, row);
    if row in FlatMap(f, keys) {
      var key :| key in keys && row in f(key);
      WalkMembers(lang, obj.order, key);
      FieldRowsSay(lang, table, scope, p, obj, key, row);
    }
    if At(row, p) && ObjectSays(table, scope, obj, row) {
      var key :| FieldSays(table, scope, obj, key, row);
      WalkMembers(lang, obj.order, key);
      FieldRowsSay(lang, table, scope, p, obj, key, row);
    }
  }

  lemma UeRowsSay(lang: Lang, cat: Catalogue, default: string, t: int, ues: seq<Ue>, row: Row)
    ensures row in FlatMap(UeRows(lang, cat, default, t), ues) <==>
      exists ue :: ue in ues && UeSays(cat, default, t, ue, row)
  {
    var f := UeRows(lang, cat, default, t);
    FlatMapMembers(f, ues, row);
    forall ue ensures row in f(ue) <==> UeSays(cat, default, t, ue, row) {
      var p := Place(t, OrElse(IntString(ue.pci), default), IntString(ue.rnti));
      ObjectRowsSay(lang, cat.ue, "ue.", p, ue.obj, row);
    }
  }

  lemma EventRowsSay(pci: Option<int>, t: int, events: seq<CellEvent>, row: Row)
    ensures row in FlatMap(EventRow(t, IntString(pci)), events) <==>
      exists ev :: ev in events && EventSays(pci, t, ev, row)
  {
    var f := EventRow(t, IntString(pci));
    FlatMapMembers(f, events, row);
    assert forall ev :: row in f(ev) <==> EventSays(pci, t, ev, row);
  }

  lemma MetricRowsSay(lang: Lang, cat: Catalogue, pci: Option<int>, t: int, metrics: Obj, row: Row)
    ensures row in ObjectRows(lang, cat.cell, "cell.", Place(t, IntString(pci), ""), metrics) <==>
      MetricsSay(cat, pci, t, metrics, row)
  {
    ObjectRowsSay(lang, cat.cell, "cell.", Place(t, IntString(pci), ""), metrics, row);
  }

  lemma CellRowsSay(lang: Lang, cat: Catalogue, ts: int, c: Cell, row: Row)
    ensures row in CellRows(lang, cat, ts)(c) <==> CellSays(lang, cat, ts, c, row)
  {
    var t, cell := CellTime(lang, c, ts), IntString(c.pci);
    CellRowsSayAt(lang, cat, t, c, row);
    assert TimeOf(lang, c, ts, t) && Written(c.pci, "", cell);
  }

  lemma CellRowsSayAt(lang: Lang, cat: Catalogue, t: int, c: Cell, row: Row)
    ensures row in CellRowsAt(lang, cat, t, c) <==> CellSaysAt(cat, c, t, IntString(c.pci), row)
  {
    MetricRowsSay(lang, cat, c.pci, t, c.metrics, row);
    EventRowsSay(c.pci, t, c.events, row);
    UeRowsSay(lang, cat, IntString(c.pci), t, c.ues, row);
  }

  lemma LegacyRowsSay(lang: Lang, cat: Catalogue, r: Report, row: Row)
    ensures row in LegacyRows(lang, cat, r) <==> LegacySays(cat, r, row)
  {
    if r.legacyCell.Some? {
      MetricRowsSay(lang, cat, r.legacyCell.value.pci, r.ts, r.legacyCell.value.metrics, row);
    }
    UeRowsSay(lang, cat, LegacyDefault(r), r.ts, r.legacyUes, row);
    assert Written(if r.legacyCell.Some? then r.legacyCell.value.pci else None, "", LegacyDefault(r));
  }

  lemma CounterRowsSay(table: map<string, Name>, p: Place, prefix: string, block: Obj, key: string, row: Row)
    requires key in block.order
    ensures row in RlcFieldRows(table, p, prefix, block)(key) <==>
      At(row, p) && CounterSays(table, prefix, block, key, row)
  {
    assert prefix + ("" + "raw." + key) == prefix + "raw." + key;
  }

  lemma AverageSaid(lang: Lang, p: Place, block: Obj, total: string, count: string, scale: real,
                    metric: string, row: Row)
    ensures row in Average(lang, p, metric, Number(block, total), scale, Number(block, count)) <==>
      At(row, p) && AverageSays(lang, block, total, count, scale, metric, row)
  {
    if Averaged(lang, Number(block, total), Number(block, count)) {
      QuotientTimes(Scaled(block.fields[total].n, scale), block.fields[count].n, row.value);
    }
  }

  lemma CountersSay(lang: Lang, table: map<string, Name>, p: Place, prefix: string, block: Obj, row: Row)
    ensures row in FlatMap(RlcFieldRows(table, p, prefix, block), Walk(lang, block.order)) <==>
      At(row, p) && exists key :: CounterSays(table, prefix, block, key, row)
  {
    var f, keys := RlcFieldRows(table, p, prefix, block), Walk(lang, block.order);
    FlatMapMembers(f, keys, row);
    if row in FlatMap(f, keys) {
      var key :| key in keys && row in f(key);
      WalkMembers(lang, block.order, key);
      CounterRowsSay(table, p, prefix, block, key, row);
    }
    if key :| At(row, p) && CounterSays(table, prefix, block, key, row) {
      WalkMembers(lang, block.order, key);
      CounterRowsSay(table, p, prefix, block, key, row);
    }
  }

  lemma SideRowsSay(lang: Lang, table: map<string, Name>, p: Place, prefix: string, side: Option<Obj>, row: Row)
    ensures row in SideRows(lang, table, p, prefix, side) <==> At(row, p) && SideSays(lang, table, prefix, side, row)
  {
    if side.Some? {
      CountersSay(lang, table, p, prefix, side.value, row);
      AverageSaid(lang, p, side.value, "sum_sdu_latency_us", "num_sdus", 1000.0, prefix + "sdu_latency_avg_ns", row);
      AverageSaid(lang, p, side.value, "sum_pdu_latency_ns", "num_pdus", 1.0, prefix + "pdu_latency_avg_ns", row);
    }
  }

  lemma MessageRowsSay(lang: Lang, cat: Catalogue, index: UeIndex, ts: int, m: Rlc, row: Row)
    ensures row in RlcRows(lang, cat.rlc, index, ts)(m) <==> RlcSays(lang, cat, index, ts, m, row)
  {
    if m.ueId.Some? {
      var p := MessagePlace(index, ts, m.ueId.value);
      var drb := Decimal(if m.drbId.Some? then m.drbId.value else 0);
      SideRowsSay(lang, cat.rlc, p, "ue.rlc.drb" + drb + ".ul_", m.rx, row);
      SideRowsSay(lang, cat.rlc, p, "ue.rlc.drb" + drb + ".dl_", m.tx, row);
      assert Written(m.drbId, Decimal(0), drb);
    }
  }

  lemma MacFieldRowsSay(table: map<string, Name>, p: Place, direction: string, obj: Obj, key: string, row: Row)
    requires key in obj.order
    ensures row in MacFieldRows(table, p, direction, obj)(key) <==>
      At(row, p) && MacFieldSays(table, direction, obj, key, row)
  {
    var name := NameOf(table, "", key);
    assert key !in table ==> name.suffix == "raw." + key by {
      assert "" + "raw." == "raw.";
    }
    if key in obj.fields && obj.fields[key].Num? && key !in IDENTITY {
      var n := obj.fields[key].n;
      PutIs(p, "cell.mac." + direction + "_" + name.suffix, Scaled(n, name.scale), name.unit, row);
      assert MacFieldRows(table, p, direction, obj)(key)
        == [Put(p, "cell.mac." + direction + "_" + name.suffix, Scaled(n, name.scale), name.unit)];
    }
  }

  lemma MacRowsSay(lang: Lang, cat: Catalogue, direction: string, ts: int, e: Mac, row: Row)
    ensures row in MacRows(lang, cat.mac, direction, ts)(e) <==> MacSays(cat, direction, ts, e, row)
  {
    var p := Place(ts, IntString(e.pci), "");
    var f, keys := MacFieldRows(cat.mac, p, direction, e.obj), Walk(lang, e.obj.order);
    FlatMapMembers(f, keys, row);
    if row in FlatMap(f, keys) {
      var key :| key in keys && row in f(key);
      WalkMembers(lang, e.obj.order, key);
      MacFieldRowsSay(cat.mac, p, direction, e.obj, key, row);
    }
    if key :| At(row, p) && MacFieldSays(cat.mac, direction, e.obj, key, row) {
      WalkMembers(lang, e.obj.order, key);
      MacFieldRowsSay(cat.mac, p, direction, e.obj, key, row);
    }
  }

  lemma CellsSay(lang: Lang, cat: Catalogue, r: Report, row: Row)
    ensures row in FlatMap(CellRows(lang, cat, r.ts), r.cells) <==>
      exists c :: c in r.cells && CellSays(lang, cat, r.ts, c, row)
  {
    FlatMapMembers(CellRows(lang, cat, r.ts), r.cells, row);
    forall c ensures row in CellRows(lang, cat, r.ts)(c) <==> CellSays(lang, cat, r.ts, c, row) {
      CellRowsSay(lang, cat, r.ts, c, row);
    }
  }

  lemma MessagesSay(lang: Lang, cat: Catalogue, r: Report, index: UeIndex, row: Row)
    ensures row in FlatMap(RlcRows(lang, cat.rlc, index, r.ts), r.rlc) <==>
      exists m :: m in r.rlc && RlcSays(lang, cat, index, r.ts, m, row)
  {
    FlatMapMembers(RlcRows(lang, cat.rlc, index, r.ts), r.rlc, row);
    forall m ensures row in RlcRows(lang, cat.rlc, index, r.ts)(m) <==> RlcSays(lang, cat, index, r.ts, m, row) {
      MessageRowsSay(lang, cat, index, r.ts, m, row);
    }
  }

  lemma MacsSay(lang: Lang, cat: Catalogue, direction: string, ts: int, es: seq<Mac>, row: Row)
    ensures row in FlatMap(MacRows(lang, cat.mac, direction, ts), es) <==>
      exists e :: e in es && MacSays(cat, direction, ts, e, row)
  {
    FlatMapMembers(MacRows(lang, cat.mac, direction, ts), es, row);
    forall e ensures row in MacRows(lang, cat.mac, direction, ts)(e) <==> MacSays(cat, direction, ts, e, row) {
      MacRowsSay(lang, cat, direction, ts, e, row);
    }
  }

  /** A row is in the output exactly when the report says it. */
  lemma RowsMean(lang: Lang, cat: Catalogue, r: Report, index: UeIndex, row: Row)
    ensures row in ReportRows(lang, cat, r, index) <==> ReportSays(lang, cat, r, index, row)
  {
    CellsSay(lang, cat, r, row);
    LegacyRowsSay(lang, cat, r, row);
    MessagesSay(lang, cat, r, index, row);
    MacsSay(lang, cat, "dl", r.ts, r.macDl, row);
    MacsSay(lang, cat, "ul", r.ts, r.macUl, row);
  }

  /** And so of the sorted output. */
  lemma OutputMeans(lang: Lang, cat: Catalogue, r: Report, index: UeIndex)
    ensures forall row :: row in Sort(RowLe, ReportRows(lang, cat, r, index)) <==> ReportSays(lang, cat, r, index, row)
  {
    var rows := ReportRows(lang, cat, r, index);
    RowOrder();
    SortSorts(RowLe, rows);
    forall row ensures row in Sort(RowLe, rows) <==> ReportSays(lang, cat, r, index, row) {
      RowsMean(lang, cat, r, index, row);
      assert row in Sort(RowLe, rows) <==> row in multiset(Sort(RowLe, rows));
      assert row in rows <==> row in multiset(rows);
    }
  }

  // ----- How many rows -----

  function SumOver<A>(f: A -> nat, s: seq<A>): nat {
    if s == [] then 0 else SumOver(f, s[..|s| - 1]) + f(s[|s| - 1])
  }

  function KnownIn(numbers: map<string, real>): string -> bool {
    k => k in numbers
  }

  /** How many rows a field's value is good for. */
  function ValueSize(v: Value): nat {
    match v
    case Num(_) => 1
    case Sub(order, numbers) => CountIf(KnownIn(numbers), order)
    case Arr(items) => if items != [] && AllNumbers(items) then 1 else 0
    case Other => 0
  }

  function FieldSize(obj: Obj): string -> nat {
    key => if key in {"rnti", "pci", "ue", "timestamp"} || key !in obj.fields then 0 else ValueSize(obj.fields[key])
  }

  function ObjectSize(obj: Obj): nat {
    SumOver(FieldSize(obj), obj.order)
  }

  function UeSize(): Ue -> nat {
    (ue: Ue) => ObjectSize(ue.obj)
  }

  function CellSize(): Cell -> nat {
    (c: Cell) => ObjectSize(c.metrics) + |c.events| + SumOver(UeSize(), c.ues)
  }

  function CounterSize(block: Obj): string -> nat {
    key =>
      if key in {"sum_sdu_latency_us", "sum_pdu_latency_ns"} || key !in block.fields || !block.fields[key].Num?
      then 0 else 1
  }

  /** One, where a latency sum has a count to be divided by. */
  function AverageSize(lang: Lang, block: Obj, total: string, count: string): nat {
    if Averaged(lang, Number(block, total), Number(block, count)) then 1 else 0
  }

  function SideSize(lang: Lang, side: Option<Obj>): nat {
    if side.None? then 0
    else
      SumOver(CounterSize(side.value), side.value.order)
      + AverageSize(lang, side.value, "sum_sdu_latency_us", "num_sdus")
      + AverageSize(lang, side.value, "sum_pdu_latency_ns", "num_pdus")
  }

  function MessageSize(lang: Lang): Rlc -> nat {
    (m: Rlc) => if m.ueId.None? then 0 else SideSize(lang, m.rx) + SideSize(lang, m.tx)
  }

  function MacFieldSize(obj: Obj): string -> nat {
    key =>
      if key in {"rnti", "pci", "ue", "timestamp"} || key !in obj.fields || !obj.fields[key].Num? then 0 else 1
  }

  function MacSize(): Mac -> nat {
    (e: Mac) => SumOver(MacFieldSize(e.obj), e.obj.order)
  }

  /** Every measurement once, and every event. */
  function ReportSize(lang: Lang, r: Report): nat {
    SumOver(CellSize(), r.cells)
    + (if r.legacyCell.Some? then ObjectSize(r.legacyCell.value.metrics) else 0) + SumOver(UeSize(), r.legacyUes)
    + SumOver(MessageSize(lang), r.rlc) + SumOver(MacSize(), r.macDl) + SumOver(MacSize(), r.macUl)
  }

  lemma {:induction false} FlatMapSize<A, B>(f: A -> seq<B>, g: A -> nat, s: seq<A>)
    requires forall x :: x in s ==> |f(x)| == g(x)
    ensures |FlatMap(f, s)| == SumOver(g, s)
  {
    if s != [] {
      FlatMapSize(f, g, s[..|s| - 1]);
    }
  }

  lemma WalkedSize<B>(lang: Lang, f: string -> seq<B>, g: string -> nat, keys: seq<string>)
    requires forall x :: x in keys ==> |f(x)| == g(x)
    ensures |FlatMap(f, Walk(lang, keys))| == SumOver(g, keys)
  {
    StringOrder();
    SortSorts(StringLe, keys);
    FlatMapPermutation(f, Walk(lang, keys), keys);
    SameSize(FlatMap(f, Walk(lang, keys)), FlatMap(f, keys));
    FlatMapSize(f, g, keys);
  }

  lemma {:induction false} SubRowsSize(p: Place, name: Name, numbers: map<string, real>, order: seq<string>)
    ensures |FlatMap(SubRow(p, name, numbers), order)| == CountIf(KnownIn(numbers), order)
  {
    if order != [] {
      SubRowsSize(p, name, numbers, order[..|order| - 1]);
    }
  }

  lemma FieldRowsSize(lang: Lang, table: map<string, Name>, scope: string, p: Place, obj: Obj, key: string)
    ensures |FieldRows(lang, table, scope, p, obj)(key)| == FieldSize(obj)(key)
  {
    if key !in IDENTITY && key in obj.fields && obj.fields[key].Sub? {
      var order, f := obj.fields[key].order, SubRow(p, NameOf(table, scope, key), obj.fields[key].numbers);
      StringOrder();
      SortSorts(StringLe, order);
      FlatMapPermutation(f, Walk(lang, order), order);
      SameSize(FlatMap(f, Walk(lang, order)), FlatMap(f, order));
      SubRowsSize(p, NameOf(table, scope, key), obj.fields[key].numbers, order);
    }
  }

  lemma ObjectRowsSize(lang: Lang, table: map<string, Name>, scope: string, p: Place, obj: Obj)
    ensures |ObjectRows(lang, table, scope, p, obj)| == ObjectSize(obj)
  {
    forall key | key in obj.order ensures |FieldRows(lang, table, scope, p, obj)(key)| == FieldSize(obj)(key) {
      FieldRowsSize(lang, table, scope, p, obj, key);
    }
    WalkedSize(lang, FieldRows(lang, table, scope, p, obj), FieldSize(obj), obj.order);
  }

  lemma UesSize(lang: Lang, cat: Catalogue, default: string, t: int, ues: seq<Ue>)
    ensures |FlatMap(UeRows(lang, cat, default, t), ues)| == SumOver(UeSize(), ues)
  {
    forall ue | ue in ues ensures |UeRows(lang, cat, default, t)(ue)| == UeSize()(ue) {
      ObjectRowsSize(lang, cat.ue, "ue.", Place(t, OrElse(IntString(ue.pci), default), IntString(ue.rnti)), ue.obj);
    }
    FlatMapSize(UeRows(lang, cat, default, t), UeSize(), ues);
  }

  lemma {:induction false} EventsSize(t: int, cell: string, events: seq<CellEvent>)
    ensures |FlatMap(EventRow(t, cell), events)| == |events|
  {
    if events != [] {
      EventsSize(t, cell, events[..|events| - 1]);
    }
  }

  lemma CellsSize(lang: Lang, cat: Catalogue, ts: int, cells: seq<Cell>)
    ensures |FlatMap(CellRows(lang, cat, ts), cells)| == SumOver(CellSize(), cells)
  {
    forall c | c in cells ensures |CellRows(lang, cat, ts)(c)| == CellSize()(c) {
      var t, cell := CellTime(lang, c, ts), IntString(c.pci);
      ObjectRowsSize(lang, cat.cell, "cell.", Place(t, cell, ""), c.metrics);
      EventsSize(t, cell, c.events);
      UesSize(lang, cat, cell, t, c.ues);
    }
    FlatMapSize(CellRows(lang, cat, ts), CellSize(), cells);
  }

  lemma LegacySize(lang: Lang, cat: Catalogue, r: Report)
    ensures |LegacyRows(lang, cat, r)|
         == (if r.legacyCell.Some? then ObjectSize(r.legacyCell.value.metrics) else 0) + SumOver(UeSize(), r.legacyUes)
  {
    if r.legacyCell.Some? {
      ObjectRowsSize(lang, cat.cell, "cell.", Place(r.ts, LegacyDefault(r), ""), r.legacyCell.value.metrics);
    }
    UesSize(lang, cat, LegacyDefault(r), r.ts, r.legacyUes);
  }

  lemma SideRowsSize(lang: Lang, table: map<string, Name>, p: Place, prefix: string, side: Option<Obj>)
    ensures |SideRows(lang, table, p, prefix, side)| == SideSize(lang, side)
  {
    if side.Some? {
      WalkedSize(lang, RlcFieldRows(table, p, prefix, side.value), CounterSize(side.value), side.value.order);
    }
  }

  lemma MessagesSize(lang: Lang, table: map<string, Name>, index: UeIndex, ts: int, ms: seq<Rlc>)
    ensures |FlatMap(RlcRows(lang, table, index, ts), ms)| == SumOver(MessageSize(lang), ms)
  {
    forall m | m in ms ensures |RlcRows(lang, table, index, ts)(m)| == MessageSize(lang)(m) {
      if m.ueId.Some? {
        var p := MessagePlace(index, ts, m.ueId.value);
        SideRowsSize(lang, table, p, Bearer(m) + ".ul_", m.rx);
        SideRowsSize(lang, table, p, Bearer(m) + ".dl_", m.tx);
      }
    }
    FlatMapSize(RlcRows(lang, table, index, ts), MessageSize(lang), ms);
  }

  lemma MacsSize(lang: Lang, table: map<string, Name>, direction: string, ts: int, es: seq<Mac>)
    ensures |FlatMap(MacRows(lang, table, direction, ts), es)| == SumOver(MacSize(), es)
  {
    forall e | e in es ensures |MacRows(lang, table, direction, ts)(e)| == MacSize()(e) {
      var p := Place(ts, IntString(e.pci), "");
      WalkedSize(lang, MacFieldRows(table, p, direction, e.obj), MacFieldSize(e.obj), e.obj.order);
    }
    FlatMapSize(MacRows(lang, table, direction, ts), MacSize(), es);
  }

  /** No measurement gives two rows. */
  lemma OutputSize(lang: Lang, cat: Catalogue, r: Report, index: UeIndex)
    ensures |Sort(RowLe, ReportRows(lang, cat, r, index))| == ReportSize(lang, r)
  {
    RowOrder();
    SortSorts(RowLe, ReportRows(lang, cat, r, index));
    CellsSize(lang, cat, r.ts, r.cells);
    LegacySize(lang, cat, r);
    MessagesSize(lang, cat.rlc, index, r.ts, r.rlc);
    MacsSize(lang, cat.mac, "dl", r.ts, r.macDl);
    MacsSize(lang, cat.mac, "ul", r.ts, r.macUl);
  }

  // ----- What a report teaches -----

  /** A scheduler UE with both names teaches the index; in the old layout Rust
      knows no cell to fall back to, Python the report's. */
  ghost predicate Teaching(ue: Ue, default: string, e: Entry) {
    && ue.index == Some(e.ueId) && ue.rnti.Some? && e.rnti == Decimal(ue.rnti.value) && Written(ue.pci, default, e.cell)
  }

  ghost predicate TaughtBy(lang: Lang, r: Report, e: Entry) {
    || (exists c, ue, default ::
          c in r.cells && ue in c.ues && Written(c.pci, "", default) && Teaching(ue, default, e))
    || (exists ue, default :: ue in r.legacyUes && Teaching(ue, default, e)
          && Written(if lang == Python && r.legacyCell.Some? then r.legacyCell.value.pci else None, "", default))
  }

  lemma UesTeach(default: string, ues: seq<Ue>, e: Entry)
    ensures e in FlatMap(Taught(default), ues) <==> exists ue :: ue in ues && Teaching(ue, default, e)
  {
    FlatMapMembers(Taught(default), ues, e);
    assert forall ue :: e in Taught(default)(ue) <==> Teaching(ue, default, e);
  }

  lemma CellsTeach(cells: seq<Cell>, e: Entry)
    ensures e in FlatMap(CellEntries(), cells) <==>
      exists c, ue, default :: c in cells && ue in c.ues && Written(c.pci, "", default) && Teaching(ue, default, e)
  {
    FlatMapMembers(CellEntries(), cells, e);
    if e in FlatMap(CellEntries(), cells) {
      var c :| c in cells && e in CellEntries()(c);
      UesTeach(IntString(c.pci), c.ues, e);
      assert Written(c.pci, "", IntString(c.pci));
    }
    if c, ue, default :| c in cells && ue in c.ues && Written(c.pci, "", default) && Teaching(ue, default, e) {
      UesTeach(IntString(c.pci), c.ues, e);
      assert e in CellEntries()(c);
    }
  }

  /** A report's entries are what its scheduler UEs teach. */
  lemma EntriesMean(lang: Lang, r: Report, e: Entry)
    ensures e in ReportEntries(lang, r) <==> TaughtBy(lang, r, e)
  {
    CellsTeach(r.cells, e);
    UesTeach(LegacyFallback(lang, r), r.legacyUes, e);
    var pci := if lang == Python && r.legacyCell.Some? then r.legacyCell.value.pci else None;
    assert Written(pci, "", LegacyFallback(lang, r));
    assert forall default :: Written(pci, "", default) ==> default == LegacyFallback(lang, r);
  }
}
