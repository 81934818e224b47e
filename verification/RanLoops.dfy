/** The normalisers' loops: rows are pushed and the index is updated as each
    language does it, Rust in two passes over the scheduler's UEs and Python in
    one, and both come to what module RanNormalise says of the report. */
module RanLoops {
  import opened Base
  import opened Sorting
  import opened RanNormalise
  import opened RanMeaning

  lemma FlatMapNext<A, B>(f: A -> seq<B>, s: seq<A>, i: nat)
    requires i < |s|
    ensures FlatMap(f, s[..i + 1]) == FlatMap(f, s[..i]) + f(s[i])
  {
    assert s[..i + 1][..i] == s[..i];
  }

  lemma LearnNext(index: UeIndex, before: seq<Entry>, more: seq<Entry>, now: UeIndex)
    requires now == Learn(index, before)
    ensures Learn(now, more) == Learn(index, before + more)
  {
    LearnSplit(index, before, more);
  }

  lemma LearnOne(index: UeIndex, default: string, ue: Ue)
    ensures Learn(index, Taught(default)(ue))
         == if Teaches(ue)
            then index[ue.index.value := (OrElse(IntString(ue.pci), default), IntString(ue.rnti))]
            else index
  {
    if Teaches(ue) {
      var e := Entry(ue.index.value, OrElse(IntString(ue.pci), default), IntString(ue.rnti));
      assert [e][..0] == [];
    }
  }

  /** Rust's `learn`. */
  method LearnUes(ues: seq<Ue>, default: string, index: UeIndex) returns (learnt: UeIndex)
    ensures learnt == Learn(index, FlatMap(Taught(default), ues))
  {
    learnt := index;
    for i := 0 to |ues|
      invariant learnt == Learn(index, FlatMap(Taught(default), ues[..i]))
    {
      FlatMapNext(Taught(default), ues, i);
      LearnNext(index, FlatMap(Taught(default), ues[..i]), Taught(default)(ues[i]), learnt);
      LearnOne(learnt, default, ues[i]);
      if Teaches(ues[i]) {
        learnt := learnt[ues[i].index.value := (OrElse(IntString(ues[i].pci), default), IntString(ues[i].rnti))];
      }
    }
    assert ues[..|ues|] == ues;
  }

  /** Python's `ue_rows`: each UE teaches, then gives its rows. */
  method UeRowsLearning(cat: Catalogue, ues: seq<Ue>, rowDefault: string, t: int, index: UeIndex)
    returns (rows: seq<Row>, learnt: UeIndex)
    ensures rows == FlatMap(UeRows(Python, cat, rowDefault, t), ues)
    ensures learnt == Learn(index, FlatMap(Taught(rowDefault), ues))
  {
    rows, learnt := [], index;
    for i := 0 to |ues|
      invariant rows == FlatMap(UeRows(Python, cat, rowDefault, t), ues[..i])
      invariant learnt == Learn(index, FlatMap(Taught(rowDefault), ues[..i]))
    {
      FlatMapNext(Taught(rowDefault), ues, i);
      FlatMapNext(UeRows(Python, cat, rowDefault, t), ues, i);
      LearnNext(index, FlatMap(Taught(rowDefault), ues[..i]), Taught(rowDefault)(ues[i]), learnt);
      LearnOne(learnt, rowDefault, ues[i]);
      if Teaches(ues[i]) {
        learnt := learnt[ues[i].index.value := (OrElse(IntString(ues[i].pci), rowDefault), IntString(ues[i].rnti))];
      }
      rows := rows + UeRows(Python, cat, rowDefault, t)(ues[i]);
    }
    assert ues[..|ues|] == ues;
  }

  /** Python's loop over the cells, rows and index together. */
  method CellsLearning(cat: Catalogue, ts: int, cells: seq<Cell>, index: UeIndex)
    returns (rows: seq<Row>, learnt: UeIndex)
    ensures rows == FlatMap(CellRows(Python, cat, ts), cells)
    ensures learnt == Learn(index, FlatMap(CellEntries(), cells))
  {
    rows, learnt := [], index;
    for i := 0 to |cells|
      invariant rows == FlatMap(CellRows(Python, cat, ts), cells[..i])
      invariant learnt == Learn(index, FlatMap(CellEntries(), cells[..i]))
    {
      var c := cells[i];
      var t, cell := CellTime(Python, c, ts), IntString(c.pci);
      FlatMapNext(CellRows(Python, cat, ts), cells, i);
      FlatMapNext(CellEntries(), cells, i);
      LearnNext(index, FlatMap(CellEntries(), cells[..i]), CellEntries()(c), learnt);
      var ueRows, more := UeRowsLearning(cat, c.ues, cell, t, learnt);
      rows := rows + (ObjectRows(Python, cat.cell, "cell.", Place(t, cell, ""), c.metrics)
        + FlatMap(EventRow(t, cell), c.events) + ueRows);
      learnt := more;
    }
    assert cells[..|cells|] == cells;
  }

  /** Rust's second pass over the cells. */
  method LearnCells(cells: seq<Cell>, index: UeIndex) returns (learnt: UeIndex)
    ensures learnt == Learn(index, FlatMap(CellEntries(), cells))
  {
    learnt := index;
    for i := 0 to |cells|
      invariant learnt == Learn(index, FlatMap(CellEntries(), cells[..i]))
    {
      FlatMapNext(CellEntries(), cells, i);
      LearnNext(index, FlatMap(CellEntries(), cells[..i]), CellEntries()(cells[i]), learnt);
      learnt := LearnUes(cells[i].ues, IntString(cells[i].pci), learnt);
    }
    assert cells[..|cells|] == cells;
  }

  /** `normalise_json_with`: all scheduler rows, then the index, then RLC. */
  method NormaliseRust(cat: Catalogue, r: Report, index: UeIndex) returns (rows: seq<Row>, learnt: UeIndex)
    ensures learnt == Learn(index, ReportEntries(Rust, r))
    ensures rows == Sort(RowLe, ReportRows(Rust, cat, r, learnt))
    ensures forall row :: row in rows <==> ReportSays(Rust, cat, r, learnt, row)
    ensures |rows| == ReportSize(Rust, r)
  {
    rows := FlatMap(CellRows(Rust, cat, r.ts), r.cells);
    rows := rows + LegacyRows(Rust, cat, r);
    learnt := LearnCells(r.cells, index);
    LearnNext(index, FlatMap(CellEntries(), r.cells), FlatMap(Taught(""), r.legacyUes), learnt);
    learnt := LearnUes(r.legacyUes, "", learnt);
    rows := rows + FlatMap(RlcRows(Rust, cat.rlc, learnt, r.ts), r.rlc);
    rows := rows + FlatMap(MacRows(Rust, cat.mac, "dl", r.ts), r.macDl);
    rows := rows + FlatMap(MacRows(Rust, cat.mac, "ul", r.ts), r.macUl);
    rows := Sort(RowLe, rows);
    OutputMeans(Rust, cat, r, learnt);
    OutputSize(Rust, cat, r, learnt);
  }

  /** `normalise_json`: rows and index in one pass, then RLC. */
  method NormalisePython(cat: Catalogue, r: Report, index: UeIndex) returns (rows: seq<Row>, learnt: UeIndex)
    ensures learnt == Learn(index, ReportEntries(Python, r))
    ensures rows == Sort(RowLe, ReportRows(Python, cat, r, learnt))
    ensures forall row :: row in rows <==> ReportSays(Python, cat, r, learnt, row)
    ensures |rows| == ReportSize(Python, r)
  {
    rows, learnt := CellsLearning(cat, r.ts, r.cells, index);
    var default := LegacyDefault(r);
    LearnNext(index, FlatMap(CellEntries(), r.cells), FlatMap(Taught(default), r.legacyUes), learnt);
    var legacyCell := if r.legacyCell.Some?
      then ObjectRows(Python, cat.cell, "cell.", Place(r.ts, default, ""), r.legacyCell.value.metrics) else [];
    var ueRows, more := UeRowsLearning(cat, r.legacyUes, default, r.ts, learnt);
    rows, learnt := rows + (legacyCell + ueRows), more;
    rows := rows + FlatMap(RlcRows(Python, cat.rlc, learnt, r.ts), r.rlc);
    rows := rows + FlatMap(MacRows(Python, cat.mac, "dl", r.ts), r.macDl);
    rows := rows + FlatMap(MacRows(Python, cat.mac, "ul", r.ts), r.macUl);
    rows := Sort(RowLe, rows);
    OutputMeans(Python, cat, r, learnt);
    OutputSize(Python, cat, r, learnt);
  }
}
