/** Where the two normalisers agree, and exactly where they do not. */
module RanAgreement {
  import opened Base
  import opened Sorting
  import opened Text
  import opened RanNormalise

  // ----- The same rows, up to order -----

  lemma WalkPermutes(keys: seq<string>)
    ensures multiset(Walk(Rust, keys)) == multiset(Walk(Python, keys))
  {
    StringOrder();
    SortSorts(StringLe, keys);
  }

  lemma FieldRowsAgree(table: map<string, Name>, scope: string, p: Place, obj: Obj, key: string)
    ensures multiset(FieldRows(Rust, table, scope, p, obj)(key))
         == multiset(FieldRows(Python, table, scope, p, obj)(key))
  {
    if key !in IDENTITY && key in obj.fields && obj.fields[key].Sub? {
      var order := obj.fields[key].order;
      WalkPermutes(order);
      FlatMapPermutation(SubRow(p, NameOf(table, scope, key), obj.fields[key].numbers),
        Walk(Rust, order), Walk(Python, order));
    }
  }

  lemma ObjectRowsAgree(table: map<string, Name>, scope: string, p: Place, obj: Obj)
    ensures multiset(ObjectRows(Rust, table, scope, p, obj)) == multiset(ObjectRows(Python, table, scope, p, obj))
  {
    var f, g := FieldRows(Rust, table, scope, p, obj), FieldRows(Python, table, scope, p, obj);
    WalkPermutes(obj.order);
    FlatMapPermutation(f, Walk(Rust, obj.order), Walk(Python, obj.order));
    forall key | key in Walk(Python, obj.order) ensures multiset(f(key)) == multiset(g(key)) {
      FieldRowsAgree(table, scope, p, obj, key);
    }
    FlatMapPointwise(f, g, Walk(Python, obj.order));
  }

  lemma UesAgree(cat: Catalogue, default: string, t: int, ues: seq<Ue>)
    ensures multiset(FlatMap(UeRows(Rust, cat, default, t), ues))
         == multiset(FlatMap(UeRows(Python, cat, default, t), ues))
  {
    var f, g := UeRows(Rust, cat, default, t), UeRows(Python, cat, default, t);
    forall ue | ue in ues ensures multiset(f(ue)) == multiset(g(ue)) {
      ObjectRowsAgree(cat.ue, "ue.", Place(t, OrElse(IntString(ue.pci), default), IntString(ue.rnti)), ue.obj);
    }
    FlatMapPointwise(f, g, ues);
  }

  /** A cell timestamp of exactly 0 is Python's cue to use the report's. */
  predicate TimesAgree(c: Cell, ts: int) {
    c.ts == Some(0) ==> ts == 0
  }

  lemma CellTimeAgrees(c: Cell, ts: int)
    ensures CellTime(Rust, c, ts) == CellTime(Python, c, ts) <==> TimesAgree(c, ts)
  {
  }

  lemma CellRowsAgreeAt(cat: Catalogue, t: int, c: Cell)
    ensures multiset(CellRowsAt(Rust, cat, t, c)) == multiset(CellRowsAt(Python, cat, t, c))
  {
    var cell := IntString(c.pci);
    ObjectRowsAgree(cat.cell, "cell.", Place(t, cell, ""), c.metrics);
    UesAgree(cat, cell, t, c.ues);
  }

  lemma CellAgrees(cat: Catalogue, ts: int, c: Cell)
    requires TimesAgree(c, ts)
    ensures multiset(CellRows(Rust, cat, ts)(c)) == multiset(CellRows(Python, cat, ts)(c))
  {
    CellTimeAgrees(c, ts);
    CellRowsAgreeAt(cat, CellTime(Rust, c, ts), c);
  }

  lemma LegacyAgrees(cat: Catalogue, r: Report)
    ensures multiset(LegacyRows(Rust, cat, r)) == multiset(LegacyRows(Python, cat, r))
  {
    if r.legacyCell.Some? {
      ObjectRowsAgree(cat.cell, "cell.", Place(r.ts, LegacyDefault(r), ""), r.legacyCell.value.metrics);
    }
    UesAgree(cat, LegacyDefault(r), r.ts, r.legacyUes);
  }

  /** No latency sum is paired with a negative count. */
  predicate CountsAgree(block: Obj) {
    && !(Averaged(Python, Number(block, "sum_sdu_latency_us"), Number(block, "num_sdus"))
         && Number(block, "num_sdus").value < 0.0)
    && !(Averaged(Python, Number(block, "sum_pdu_latency_ns"), Number(block, "num_pdus"))
         && Number(block, "num_pdus").value < 0.0)
  }

  /** Two blocks of one RLC message agree exactly when neither of their
      averages would be over a negative count. */
  lemma BlockAgreesExactly(table: map<string, Name>, p: Place, prefix: string, block: Obj)
    ensures multiset(BlockRows(Rust, table, p, prefix, block)) == multiset(BlockRows(Python, table, p, prefix, block))
      <==> CountsAgree(block)
  {
    var f := RlcFieldRows(table, p, prefix, block);
    WalkPermutes(block.order);
    FlatMapPermutation(f, Walk(Rust, block.order), Walk(Python, block.order));
    var sums, sdus := Number(block, "sum_sdu_latency_us"), Number(block, "num_sdus");
    var sums', pdus := Number(block, "sum_pdu_latency_ns"), Number(block, "num_pdus");
    AverageCount(p, prefix + "sdu_latency_avg_ns", sums, 1000.0, sdus);
    AverageCount(p, prefix + "pdu_latency_avg_ns", sums', 1.0, pdus);
    SameOrFewer(FlatMap(f, Walk(Rust, block.order)), FlatMap(f, Walk(Python, block.order)),
      Average(Rust, p, prefix + "sdu_latency_avg_ns", sums, 1000.0, sdus),
      Average(Python, p, prefix + "sdu_latency_avg_ns", sums, 1000.0, sdus),
      Average(Rust, p, prefix + "pdu_latency_avg_ns", sums', 1.0, pdus),
      Average(Python, p, prefix + "pdu_latency_avg_ns", sums', 1.0, pdus));
  }

  lemma AverageCount(p: Place, metric: string, total: Option<real>, scale: real, count: Option<real>)
    ensures var x, y := Average(Rust, p, metric, total, scale, count), Average(Python, p, metric, total, scale, count);
      |x| <= |y| && (x == y <==> !(Averaged(Python, total, count) && count.value < 0.0)) && (|x| == |y| ==> x == y)
  {
  }

  lemma SameOrFewer(a: seq<Row>, b: seq<Row>, x: seq<Row>, y: seq<Row>, u: seq<Row>, v: seq<Row>)
    requires multiset(a) == multiset(b)
    requires |x| <= |y| && (|x| == |y| ==> x == y) && |u| <= |v| && (|u| == |v| ==> u == v)
    ensures multiset(a + x + u) == multiset(b + y + v) <==> x == y && u == v
  {
    assert |a| == |multiset(a)| == |multiset(b)| == |b|;
    if multiset(a + x + u) == multiset(b + y + v) {
      assert |a + x + u| == |multiset(a + x + u)| == |multiset(b + y + v)| == |b + y + v|;
    }
  }

  predicate MessageAgrees(m: Rlc) {
    (m.rx.Some? ==> CountsAgree(m.rx.value)) && (m.tx.Some? ==> CountsAgree(m.tx.value))
  }

  lemma MessageRowsAgree(table: map<string, Name>, index: UeIndex, ts: int, m: Rlc)
    requires MessageAgrees(m)
    ensures multiset(RlcRows(Rust, table, index, ts)(m)) == multiset(RlcRows(Python, table, index, ts)(m))
  {
    if m.ueId.Some? {
      var p := MessagePlace(index, ts, m.ueId.value);
      if m.rx.Some? {
        BlockAgreesExactly(table, p, Bearer(m) + ".ul_", m.rx.value);
      }
      if m.tx.Some? {
        BlockAgreesExactly(table, p, Bearer(m) + ".dl_", m.tx.value);
      }
    }
  }

  lemma MacAgrees(table: map<string, Name>, direction: string, ts: int, es: seq<Mac>)
    ensures multiset(FlatMap(MacRows(Rust, table, direction, ts), es))
         == multiset(FlatMap(MacRows(Python, table, direction, ts), es))
  {
    var f, g := MacRows(Rust, table, direction, ts), MacRows(Python, table, direction, ts);
    forall e | e in es ensures multiset(f(e)) == multiset(g(e)) {
      WalkPermutes(e.obj.order);
      FlatMapPermutation(MacFieldRows(table, Place(ts, IntString(e.pci), ""), direction, e.obj),
        Walk(Rust, e.obj.order), Walk(Python, e.obj.order));
    }
    FlatMapPointwise(f, g, es);
  }

  // ----- The same index -----

  /** The last of the UEs that would teach the index about `ueId`. */
  function LastTeacher(ues: seq<Ue>, ueId: int): Option<Ue> {
    if ues == [] then None
    else
      var ue := ues[|ues| - 1];
      if Teaches(ue) && ue.index.value == ueId then Some(ue) else LastTeacher(ues[..|ues| - 1], ueId)
  }

  lemma {:induction false} LatestSplit(a: seq<Entry>, b: seq<Entry>, ueId: int)
    ensures Latest(a + b, ueId) == if Latest(b, ueId).Some? then Latest(b, ueId) else Latest(a, ueId)
  {
    if b == [] {
      assert a + b == a;
    } else {
      assert (a + b)[..|a + b| - 1] == a + b[..|b| - 1];
      LatestSplit(a, b[..|b| - 1], ueId);
    }
  }

  lemma {:induction false} LatestTaught(ues: seq<Ue>, default: string, ueId: int)
    ensures Latest(FlatMap(Taught(default), ues), ueId)
         == match LastTeacher(ues, ueId)
            case None => None
            case Some(ue) => Some((OrElse(IntString(ue.pci), default), IntString(ue.rnti)))
  {
    if ues != [] {
      LatestTaught(ues[..|ues| - 1], default, ueId);
      LatestSplit(FlatMap(Taught(default), ues[..|ues| - 1]), Taught(default)(ues[|ues| - 1]), ueId);
    }
  }

  lemma {:induction false} LookupLearnt(index: UeIndex, entries: seq<Entry>, ueId: int)
    ensures LookupUe(Learn(index, entries), ueId)
         == if Latest(entries, ueId).Some? then Latest(entries, ueId) else LookupUe(index, ueId)
  {
    if entries != [] {
      LookupLearnt(index, entries[..|entries| - 1], ueId);
    }
  }

  /** The last UE of a report's old layout to teach `ueId` is left to the
      fallback on which the languages differ: it has no `pci`, and its cell
      has one. */
  predicate Contested(r: Report, ueId: int) {
    var ue := LastTeacher(r.legacyUes, ueId);
    ue.Some? && ue.value.pci.None? && LegacyDefault(r) != ""
  }

  ghost predicate LegacyNamed(r: Report) {
    forall ueId :: !Contested(r, ueId)
  }

  lemma LookupAfter(lang: Lang, index: UeIndex, r: Report, ueId: int)
    ensures LookupUe(Learn(index, ReportEntries(lang, r)), ueId)
         == match LastTeacher(r.legacyUes, ueId)
            case Some(ue) => Some((OrElse(IntString(ue.pci), LegacyFallback(lang, r)), IntString(ue.rnti)))
            case None =>
              var fromCells := Latest(FlatMap(CellEntries(), r.cells), ueId);
              if fromCells.Some? then fromCells else LookupUe(index, ueId)
  {
    LookupLearnt(index, ReportEntries(lang, r), ueId);
    LatestSplit(FlatMap(CellEntries(), r.cells), FlatMap(Taught(LegacyFallback(lang, r)), r.legacyUes), ueId);
    LatestTaught(r.legacyUes, LegacyFallback(lang, r), ueId);
  }

  /** From one index, the two-pass Rust learner and the one-pass Python learner
      reach the same index exactly when no legacy UE is left to the fallback
      on which they differ. */
  lemma LearnersAgreeExactly(index: UeIndex, r: Report)
    ensures Learn(index, ReportEntries(Rust, r)) == Learn(index, ReportEntries(Python, r)) <==> LegacyNamed(r)
  {
    var a, b := Learn(index, ReportEntries(Rust, r)), Learn(index, ReportEntries(Python, r));
    if LegacyNamed(r) {
      forall ueId ensures LookupUe(a, ueId) == LookupUe(b, ueId) {
        assert !Contested(r, ueId);
        LookupAfter(Rust, index, r, ueId);
        LookupAfter(Python, index, r, ueId);
      }
      LookupsDecide(a, b);
    } else {
      var ueId :| Contested(r, ueId);
      LookupAfter(Rust, index, r, ueId);
      LookupAfter(Python, index, r, ueId);
      assert LookupUe(a, ueId) != LookupUe(b, ueId);
    }
  }

  lemma LookupsDecide(a: UeIndex, b: UeIndex)
    requires forall ueId :: LookupUe(a, ueId) == LookupUe(b, ueId)
    ensures a == b
  {
    forall k ensures k in a <==> k in b {
      assert LookupUe(a, k) == LookupUe(b, k);
    }
    forall k | k in a ensures a[k] == b[k] {
      assert LookupUe(a, k) == LookupUe(b, k);
    }
  }

  // ----- The output's order -----

  lemma RowOrder()
    ensures TotalPreorder(RowLe)
  {
    forall a: Row, b: Row ensures RowLe(a, b) || RowLe(b, a) {
      StringLeTotal(a.cell, b.cell);
      StringLeTotal(a.ue, b.ue);
      StringLeTotal(a.metric, b.metric);
    }
    forall a: Row, b: Row, c: Row | RowLe(a, b) && RowLe(b, c) ensures RowLe(a, c) {
      RowLeTransitive(a, b, c);
    }
  }

  /** The output goes by cell, within a cell by UE, and within a UE by metric. */
  lemma RowOrderMeans(a: Row, b: Row)
    ensures RowLe(a, b) <==>
      && StringLe(a.cell, b.cell)
      && (a.cell == b.cell ==> StringLe(a.ue, b.ue) && (a.ue == b.ue ==> StringLe(a.metric, b.metric)))
  {
    StringLeTotal(a.cell, b.cell);
    StringLeTotal(a.ue, b.ue);
    StringLeTotal(a.cell, a.cell);
    StringLeTotal(a.ue, a.ue);
  }

  lemma RowLeTransitive(a: Row, b: Row, c: Row)
    requires RowLe(a, b) && RowLe(b, c)
    ensures RowLe(a, c)
  {
    if a.cell == b.cell == c.cell {
      if a.ue == b.ue == c.ue {
        StringLeTransitive(a.metric, b.metric, c.metric);
      } else {
        ThroughDistinct(a.ue, b.ue, c.ue);
      }
    } else {
      ThroughDistinct(a.cell, b.cell, c.cell);
    }
  }

  /** Two steps in string order, one of them strict. */
  lemma ThroughDistinct(a: string, b: string, c: string)
    requires (a == b || StringLe(a, b)) && (b == c || StringLe(b, c)) && (a != b || b != c)
    ensures a != c && StringLe(a, c)
  {
    StringLeTotal(a, b);
    StringLeTotal(b, c);
    StringLeTransitive(a, b, c);
  }

  /** No two rows of the output are for the same cell, UE and metric. */
  ghost predicate DistinctKeys(rows: seq<Row>) {
    forall a, b :: a in rows && b in rows && a.cell == b.cell && a.ue == b.ue && a.metric == b.metric ==> a == b
  }

  lemma RowLeBothWays(a: Row, b: Row)
    requires RowLe(a, b) && RowLe(b, a)
    ensures a.cell == b.cell && a.ue == b.ue && a.metric == b.metric
  {
    StringLeTotal(a.cell, b.cell);
    StringLeTotal(a.ue, b.ue);
    StringLeTotal(a.metric, b.metric);
  }

  lemma DistinctRowsSortAlike(a: seq<Row>, b: seq<Row>)
    requires Sorted(RowLe, a) && Sorted(RowLe, b) && multiset(a) == multiset(b) && DistinctKeys(a)
    ensures a == b
  {
    RowOrder();
    forall x, y | x in a && y in a && RowLe(x, y) && RowLe(y, x) ensures x == y {
      RowLeBothWays(x, y);
    }
    SortedIsUnique(RowLe, a, b);
  }

  /** Sorting keeps the rows, and two sorted outputs of the same rows are the
      same list unless a key repeats. */
  lemma SortedOutputs(a: seq<Row>, b: seq<Row>)
    ensures var x, y := Sort(RowLe, a), Sort(RowLe, b);
      && Sorted(RowLe, x) && Sorted(RowLe, y) && multiset(x) == multiset(a) && multiset(y) == multiset(b)
      && (multiset(x) == multiset(y) && DistinctKeys(x) ==> x == y)
  {
    RowOrder();
    SortSorts(RowLe, a);
    SortSorts(RowLe, b);
    var x, y := Sort(RowLe, a), Sort(RowLe, b);
    if multiset(x) == multiset(y) && DistinctKeys(x) {
      DistinctRowsSortAlike(x, y);
    }
  }
}
