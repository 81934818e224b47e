/** Exactly when the two normalisers return the same rows: for one report under
    two indices, and over a stream of reports. Rows are told apart by counting
    them: all of them, those at time 0, and those of no cell. */
module RanDifference {
  import opened Base
  import opened Sorting
  import opened Text
  import opened RanNormalise
  import opened RanAgreement

  // ----- Counting rows -----

  function Every(): Row -> bool {
    (row: Row) => true
  }

  function AtZero(): Row -> bool {
    (row: Row) => row.gnbTsNs == 0
  }

  function OfNoCell(): Row -> bool {
    (row: Row) => row.cell == ""
  }

  lemma CountEvery(rows: seq<Row>)
    ensures CountIf(Every(), rows) == |rows|
  {
    CountAll(Every(), rows);
  }

  ghost predicate AllAt(rows: seq<Row>, t: int) {
    forall row :: row in rows ==> row.gnbTsNs == t
  }

  ghost predicate AllOf(rows: seq<Row>, cell: string) {
    forall row :: row in rows ==> row.cell == cell
  }

  lemma CountAtZero(rows: seq<Row>, t: int)
    requires AllAt(rows, t)
    ensures CountIf(AtZero(), rows) == if t == 0 then |rows| else 0
  {
    if t == 0 {
      CountAll(AtZero(), rows);
    } else {
      CountNone(AtZero(), rows);
    }
  }

  lemma CountOfNoCell(rows: seq<Row>, cell: string)
    requires AllOf(rows, cell)
    ensures CountIf(OfNoCell(), rows) == if cell == "" then |rows| else 0
  {
    if cell == "" {
      CountAll(OfNoCell(), rows);
    } else {
      CountNone(OfNoCell(), rows);
    }
  }

  /** Where one loop never counts more than another, equal totals mean equal
      counts all along. */
  lemma {:induction false} FlatMapCounts<A, B>(p: B -> bool, f: A -> seq<B>, g: A -> seq<B>, s: seq<A>)
    requires forall x :: x in s ==> CountIf(p, f(x)) <= CountIf(p, g(x))
    ensures CountIf(p, FlatMap(f, s)) <= CountIf(p, FlatMap(g, s))
    ensures CountIf(p, FlatMap(f, s)) == CountIf(p, FlatMap(g, s))
      ==> forall x :: x in s ==> CountIf(p, f(x)) == CountIf(p, g(x))
  {
    if s != [] {
      var most, last := s[..|s| - 1], s[|s| - 1];
      FlatMapCounts(p, f, g, most);
      CountSplit(p, FlatMap(f, most), f(last));
      CountSplit(p, FlatMap(g, most), g(last));
      assert forall x :: x in s <==> x in most || x == last by { assert s == most + [last]; }
    }
  }

  lemma {:induction false} FlatMapLengths<A, B>(f: A -> seq<B>, g: A -> seq<B>, s: seq<A>)
    requires forall x :: x in s ==> |f(x)| == |g(x)|
    ensures |FlatMap(f, s)| == |FlatMap(g, s)|
  {
    if s != [] {
      FlatMapLengths(f, g, s[..|s| - 1]);
    }
  }

  // ----- How many rows there are does not depend on where they belong -----

  lemma ObjectRowsLength(lang: Lang, table: map<string, Name>, scope: string, p: Place, q: Place, obj: Obj)
    ensures |ObjectRows(lang, table, scope, p, obj)| == |ObjectRows(lang, table, scope, q, obj)|
  {
    var f, g := FieldRows(lang, table, scope, p, obj), FieldRows(lang, table, scope, q, obj);
    forall key | key in Walk(lang, obj.order) ensures |f(key)| == |g(key)| {
      if key !in IDENTITY && key in obj.fields && obj.fields[key].Sub? {
        var name, sub := NameOf(table, scope, key), obj.fields[key];
        FlatMapLengths(SubRow(p, name, sub.numbers), SubRow(q, name, sub.numbers), Walk(lang, sub.order));
      }
    }
    FlatMapLengths(f, g, Walk(lang, obj.order));
  }

  lemma UeRowsLength(lang: Lang, cat: Catalogue, default: string, t: int, u: int, ues: seq<Ue>)
    ensures |FlatMap(UeRows(lang, cat, default, t), ues)| == |FlatMap(UeRows(lang, cat, default, u), ues)|
  {
    var f, g := UeRows(lang, cat, default, t), UeRows(lang, cat, default, u);
    forall ue | ue in ues ensures |f(ue)| == |g(ue)| {
      var cell, rnti := OrElse(IntString(ue.pci), default), IntString(ue.rnti);
      ObjectRowsLength(lang, cat.ue, "ue.", Place(t, cell, rnti), Place(u, cell, rnti), ue.obj);
    }
    FlatMapLengths(f, g, ues);
  }

  lemma CellRowsLength(cat: Catalogue, t: int, u: int, c: Cell)
    ensures |CellRowsAt(Rust, cat, t, c)| == |CellRowsAt(Python, cat, u, c)|
  {
    var cell := IntString(c.pci);
    CellRowsAgreeAt(cat, t, c);
    SameSize(CellRowsAt(Rust, cat, t, c), CellRowsAt(Python, cat, t, c));
    ObjectRowsLength(Python, cat.cell, "cell.", Place(t, cell, ""), Place(u, cell, ""), c.metrics);
    FlatMapLengths(EventRow(t, cell), EventRow(u, cell), c.events);
    UeRowsLength(Python, cat, cell, t, u, c.ues);
  }

  lemma SideRowsLength(lang: Lang, table: map<string, Name>, p: Place, q: Place, prefix: string, side: Option<Obj>)
    ensures |SideRows(lang, table, p, prefix, side)| == |SideRows(lang, table, q, prefix, side)|
  {
    if side.Some? {
      FlatMapLengths(RlcFieldRows(table, p, prefix, side.value), RlcFieldRows(table, q, prefix, side.value),
        Walk(lang, side.value.order));
    }
  }

  /** A block gives Rust as many rows as Python exactly when no average would be
      over a negative count, and never more. */
  lemma BlockRowsCount(table: map<string, Name>, p: Place, prefix: string, block: Obj)
    ensures |BlockRows(Rust, table, p, prefix, block)| <= |BlockRows(Python, table, p, prefix, block)|
    ensures |BlockRows(Rust, table, p, prefix, block)| == |BlockRows(Python, table, p, prefix, block)|
      <==> CountsAgree(block)
  {
    var f := RlcFieldRows(table, p, prefix, block);
    WalkPermutes(block.order);
    FlatMapPermutation(f, Walk(Rust, block.order), Walk(Python, block.order));
    SameSize(FlatMap(f, Walk(Rust, block.order)), FlatMap(f, Walk(Python, block.order)));
  }

  function SideFits(side: Option<Obj>): bool {
    side.Some? ==> CountsAgree(side.value)
  }

  lemma SideRowsCount(table: map<string, Name>, p: Place, prefix: string, side: Option<Obj>)
    ensures |SideRows(Rust, table, p, prefix, side)| <= |SideRows(Python, table, p, prefix, side)|
    ensures |SideRows(Rust, table, p, prefix, side)| == |SideRows(Python, table, p, prefix, side)| <==> SideFits(side)
  {
    if side.Some? {
      BlockRowsCount(table, p, prefix, side.value);
    }
  }

  // ----- RLC messages -----

  /** What an index knows of the UE a message is about, if it is about one. */
  function Knows(index: UeIndex, m: Rlc): Option<(string, string)> {
    if m.ueId.Some? then LookupUe(index, m.ueId.value) else None
  }

  function MessageFits(m: Rlc): bool {
    m.ueId.Some? ==> MessageAgrees(m)
  }

  /** Whether a message has a row at all, whoever it is about. */
  function Speaks(cat: Catalogue, m: Rlc): bool {
    RlcRows(Python, cat.rlc, map[], 0)(m) != []
  }

  lemma MessageRowsLength(lang: Lang, table: map<string, Name>, i: UeIndex, j: UeIndex, ts: int, us: int, m: Rlc)
    ensures |RlcRows(lang, table, i, ts)(m)| == |RlcRows(lang, table, j, us)(m)|
  {
    if m.ueId.Some? {
      var p, q := MessagePlace(i, ts, m.ueId.value), MessagePlace(j, us, m.ueId.value);
      SideRowsLength(lang, table, p, q, Bearer(m) + ".ul_", m.rx);
      SideRowsLength(lang, table, p, q, Bearer(m) + ".dl_", m.tx);
    }
  }

  lemma MessageRowsCount(table: map<string, Name>, i: UeIndex, j: UeIndex, ts: int, m: Rlc)
    ensures |RlcRows(Rust, table, i, ts)(m)| <= |RlcRows(Python, table, j, ts)(m)|
    ensures |RlcRows(Rust, table, i, ts)(m)| == |RlcRows(Python, table, j, ts)(m)| <==> MessageFits(m)
  {
    MessageRowsLength(Python, table, i, j, ts, ts, m);
    if m.ueId.Some? {
      var p := MessagePlace(i, ts, m.ueId.value);
      SideRowsCount(table, p, Bearer(m) + ".ul_", m.rx);
      SideRowsCount(table, p, Bearer(m) + ".dl_", m.tx);
    }
  }

  lemma MessageRowsAt(lang: Lang, table: map<string, Name>, index: UeIndex, ts: int, m: Rlc)
    requires m.ueId.Some?
    ensures AllAt(RlcRows(lang, table, index, ts)(m), ts)
    ensures AllOf(RlcRows(lang, table, index, ts)(m), Owner(Knows(index, m), m.ueId.value).0)
  {
    forall row: Row | row in RlcRows(lang, table, index, ts)(m)
      ensures row.gnbTsNs == ts && row.cell == Owner(Knows(index, m), m.ueId.value).0
    {
      MessageRowsPlaced(lang, table, index, ts, m, row);
    }
  }

  /** How two indices may differ: one names no cell where the other names one. */
  ghost predicate Fallback(a: Option<(string, string)>, b: Option<(string, string)>) {
    a.Some? && b.Some? && a.value.0 == "" && b.value.0 != "" && a.value.1 == b.value.1
  }

  ghost predicate DifferByFallback(i: UeIndex, j: UeIndex) {
    forall ueId :: LookupUe(i, ueId) == LookupUe(j, ueId) || Fallback(LookupUe(i, ueId), LookupUe(j, ueId))
  }

  /** The indices agree wherever a message with rows asks them. */
  ghost predicate OwnersAgree(cat: Catalogue, ms: seq<Rlc>, i: UeIndex, j: UeIndex) {
    forall m :: m in ms && Speaks(cat, m) ==> Knows(i, m) == Knows(j, m)
  }

  lemma MessageAgreesExactly(cat: Catalogue, i: UeIndex, j: UeIndex, ts: int, m: Rlc)
    requires MessageFits(m) && (Speaks(cat, m) ==> Knows(i, m) == Knows(j, m))
    ensures multiset(RlcRows(Rust, cat.rlc, i, ts)(m)) == multiset(RlcRows(Python, cat.rlc, j, ts)(m))
  {
    MessageRowsLength(Python, cat.rlc, map[], j, 0, ts, m);
    MessageRowsCount(cat.rlc, i, j, ts, m);
    if Speaks(cat, m) {
      assert m.ueId.Some?;
      MessageRowsAgree(cat.rlc, i, ts, m);
      assert RlcRows(Python, cat.rlc, i, ts)(m) == RlcRows(Python, cat.rlc, j, ts)(m);
    }
  }

  lemma MessagesAgreeUnder(cat: Catalogue, i: UeIndex, j: UeIndex, ts: int, ms: seq<Rlc>)
    requires forall m :: m in ms ==> MessageFits(m)
    requires OwnersAgree(cat, ms, i, j)
    ensures multiset(FlatMap(RlcRows(Rust, cat.rlc, i, ts), ms))
         == multiset(FlatMap(RlcRows(Python, cat.rlc, j, ts), ms))
  {
    var f, g := RlcRows(Rust, cat.rlc, i, ts), RlcRows(Python, cat.rlc, j, ts);
    forall m | m in ms ensures multiset(f(m)) == multiset(g(m)) {
      MessageAgreesExactly(cat, i, j, ts, m);
    }
    FlatMapPointwise(f, g, ms);
  }

  /** Equal totals leave no message over a negative count. */
  lemma MessagesMustFit(table: map<string, Name>, i: UeIndex, j: UeIndex, ts: int, ms: seq<Rlc>)
    ensures |FlatMap(RlcRows(Rust, table, i, ts), ms)| <= |FlatMap(RlcRows(Python, table, j, ts), ms)|
    ensures |FlatMap(RlcRows(Rust, table, i, ts), ms)| == |FlatMap(RlcRows(Python, table, j, ts), ms)|
      ==> forall m :: m in ms ==> MessageFits(m)
  {
    var f, g := RlcRows(Rust, table, i, ts), RlcRows(Python, table, j, ts);
    forall m | m in ms
      ensures CountIf(Every(), f(m)) <= CountIf(Every(), g(m))
      ensures CountIf(Every(), f(m)) == CountIf(Every(), g(m)) <==> MessageFits(m)
    {
      MessageRowsCount(table, i, j, ts, m);
      CountEvery(f(m));
      CountEvery(g(m));
    }
    FlatMapCounts(Every(), f, g, ms);
    CountEvery(FlatMap(f, ms));
    CountEvery(FlatMap(g, ms));
  }

  lemma MessagesAtTime(lang: Lang, table: map<string, Name>, index: UeIndex, ts: int, ms: seq<Rlc>)
    ensures AllAt(FlatMap(RlcRows(lang, table, index, ts), ms), ts)
  {
    var f := RlcRows(lang, table, index, ts);
    forall row: Row | row in FlatMap(f, ms) ensures row.gnbTsNs == ts {
      InFlatMap(f, ms, row);
      var m :| m in ms && row in f(m);
      MessageRowsAt(lang, table, index, ts, m);
    }
  }

  /** One message under two indices: Python never has more rows of no cell, and
      as many only if the indices agree about it or it has no rows. */
  lemma MessageOwnerCount(cat: Catalogue, i: UeIndex, j: UeIndex, ts: int, m: Rlc)
    requires MessageFits(m) && DifferByFallback(i, j)
    ensures var a, b := RlcRows(Rust, cat.rlc, i, ts)(m), RlcRows(Python, cat.rlc, j, ts)(m);
      && CountIf(OfNoCell(), b) <= CountIf(OfNoCell(), a)
      && (CountIf(OfNoCell(), b) == CountIf(OfNoCell(), a) && Speaks(cat, m) ==> Knows(i, m) == Knows(j, m))
  {
    MessageRowsLength(Python, cat.rlc, map[], j, 0, ts, m);
    MessageRowsCount(cat.rlc, i, j, ts, m);
    if m.ueId.Some? {
      var id := m.ueId.value;
      assert Knows(i, m) == LookupUe(i, id) && Knows(j, m) == LookupUe(j, id);
      MessageRowsAt(Rust, cat.rlc, i, ts, m);
      MessageRowsAt(Python, cat.rlc, j, ts, m);
      CountOfNoCell(RlcRows(Rust, cat.rlc, i, ts)(m), Owner(Knows(i, m), id).0);
      CountOfNoCell(RlcRows(Python, cat.rlc, j, ts)(m), Owner(Knows(j, m), id).0);
    }
  }

  lemma OwnersMustAgree(cat: Catalogue, i: UeIndex, j: UeIndex, ts: int, ms: seq<Rlc>)
    requires DifferByFallback(i, j) && forall m :: m in ms ==> MessageFits(m)
    requires CountIf(OfNoCell(), FlatMap(RlcRows(Rust, cat.rlc, i, ts), ms))
          == CountIf(OfNoCell(), FlatMap(RlcRows(Python, cat.rlc, j, ts), ms))
    ensures OwnersAgree(cat, ms, i, j)
  {
    var f, g := RlcRows(Rust, cat.rlc, i, ts), RlcRows(Python, cat.rlc, j, ts);
    forall m | m in ms ensures CountIf(OfNoCell(), g(m)) <= CountIf(OfNoCell(), f(m)) {
      MessageOwnerCount(cat, i, j, ts, m);
    }
    FlatMapCounts(OfNoCell(), g, f, ms);
    forall m | m in ms && Speaks(cat, m) ensures Knows(i, m) == Knows(j, m) {
      MessageOwnerCount(cat, i, j, ts, m);
    }
  }

  // ----- Cells -----

  /** A cell the languages agree on: the same time, or nothing to say. */
  function CellFits(cat: Catalogue, ts: int, c: Cell): bool {
    TimesAgree(c, ts) || CellRowsAt(Python, cat, ts, c) == []
  }

  lemma ObjectRowsAt(lang: Lang, table: map<string, Name>, scope: string, p: Place, obj: Obj)
    ensures AllAt(ObjectRows(lang, table, scope, p, obj), p.ts)
  {
    var f := FieldRows(lang, table, scope, p, obj);
    forall row: Row | row in ObjectRows(lang, table, scope, p, obj) ensures row.gnbTsNs == p.ts {
      InFlatMap(f, Walk(lang, obj.order), row);
      var key :| key in Walk(lang, obj.order) && row in f(key);
      if obj.fields[key].Sub? {
        var sub := obj.fields[key];
        InFlatMap(SubRow(p, NameOf(table, scope, key), sub.numbers), Walk(lang, sub.order), row);
      }
    }
  }

  lemma CellRowsTimed(lang: Lang, cat: Catalogue, t: int, c: Cell)
    ensures AllAt(CellRowsAt(lang, cat, t, c), t)
  {
    var cell := IntString(c.pci);
    ObjectRowsAt(lang, cat.cell, "cell.", Place(t, cell, ""), c.metrics);
    forall row: Row | row in FlatMap(EventRow(t, cell), c.events) ensures row.gnbTsNs == t {
      InFlatMap(EventRow(t, cell), c.events, row);
    }
    forall row: Row | row in FlatMap(UeRows(lang, cat, cell, t), c.ues) ensures row.gnbTsNs == t {
      InFlatMap(UeRows(lang, cat, cell, t), c.ues, row);
      var ue :| ue in c.ues && row in UeRows(lang, cat, cell, t)(ue);
      ObjectRowsAt(lang, cat.ue, "ue.", Place(t, OrElse(IntString(ue.pci), cell), IntString(ue.rnti)), ue.obj);
    }
  }

  lemma CellsAgreeWhereFit(cat: Catalogue, ts: int, cells: seq<Cell>)
    requires forall c :: c in cells ==> CellFits(cat, ts, c)
    ensures multiset(FlatMap(CellRows(Rust, cat, ts), cells)) == multiset(FlatMap(CellRows(Python, cat, ts), cells))
  {
    var f, g := CellRows(Rust, cat, ts), CellRows(Python, cat, ts);
    forall c | c in cells ensures multiset(f(c)) == multiset(g(c)) {
      if TimesAgree(c, ts) {
        CellAgrees(cat, ts, c);
      } else {
        CellRowsLength(cat, CellTime(Rust, c, ts), ts, c);
      }
    }
    FlatMapPointwise(f, g, cells);
  }

  lemma CellsLength(cat: Catalogue, ts: int, cells: seq<Cell>)
    ensures |FlatMap(CellRows(Rust, cat, ts), cells)| == |FlatMap(CellRows(Python, cat, ts), cells)|
  {
    var f, g := CellRows(Rust, cat, ts), CellRows(Python, cat, ts);
    forall c | c in cells ensures |f(c)| == |g(c)| {
      CellRowsLength(cat, CellTime(Rust, c, ts), CellTime(Python, c, ts), c);
    }
    FlatMapLengths(f, g, cells);
  }

  /** One cell: Rust never has fewer rows at time 0, and as many only if the
      cell fits. */
  lemma CellTimeCount(cat: Catalogue, ts: int, c: Cell)
    requires ts != 0
    ensures var a, b := CellRows(Rust, cat, ts)(c), CellRows(Python, cat, ts)(c);
      && CountIf(AtZero(), b) <= CountIf(AtZero(), a)
      && (CountIf(AtZero(), b) == CountIf(AtZero(), a) ==> CellFits(cat, ts, c))
  {
    var t, u := CellTime(Rust, c, ts), CellTime(Python, c, ts);
    CellRowsTimed(Rust, cat, t, c);
    CellRowsTimed(Python, cat, u, c);
    CountAtZero(CellRowsAt(Rust, cat, t, c), t);
    CountAtZero(CellRowsAt(Python, cat, u, c), u);
    CellRowsLength(cat, t, u, c);
  }

  lemma CellsMustFit(cat: Catalogue, ts: int, cells: seq<Cell>)
    requires CountIf(AtZero(), FlatMap(CellRows(Rust, cat, ts), cells))
          == CountIf(AtZero(), FlatMap(CellRows(Python, cat, ts), cells))
    ensures forall c :: c in cells ==> CellFits(cat, ts, c)
  {
    if ts != 0 {
      var f, g := CellRows(Rust, cat, ts), CellRows(Python, cat, ts);
      forall c | c in cells ensures CountIf(AtZero(), g(c)) <= CountIf(AtZero(), f(c)) {
        CellTimeCount(cat, ts, c);
      }
      FlatMapCounts(AtZero(), g, f, cells);
      forall c | c in cells ensures CellFits(cat, ts, c) {
        CellTimeCount(cat, ts, c);
      }
    }
  }

  // ----- A report -----

  /** Reports on which the languages agree, the index apart. */
  ghost predicate Fits(cat: Catalogue, r: Report) {
    && (forall c :: c in r.cells ==> CellFits(cat, r.ts, c))
    && (forall m :: m in r.rlc ==> MessageFits(m))
  }

  lemma CountFive<T>(p: T -> bool, a: seq<T>, b: seq<T>, c: seq<T>, d: seq<T>, e: seq<T>)
    ensures CountIf(p, a + b + c + d + e)
         == CountIf(p, a) + CountIf(p, b) + CountIf(p, c) + CountIf(p, d) + CountIf(p, e)
  {
    CountSplit(p, a + b + c + d, e);
    CountSplit(p, a + b + c, d);
    CountSplit(p, a + b, c);
    CountSplit(p, a, b);
  }

  /** Counting by `p` in the cell rows and the RLC rows of a report. */
  function CountParts(p: Row -> bool, lang: Lang, cat: Catalogue, r: Report, index: UeIndex): nat {
    CountIf(p, FlatMap(CellRows(lang, cat, r.ts), r.cells))
    + CountIf(p, FlatMap(RlcRows(lang, cat.rlc, index, r.ts), r.rlc))
  }

  /** The same in the rows on which the languages never differ. */
  function CountOthers(p: Row -> bool, lang: Lang, cat: Catalogue, r: Report): nat {
    CountIf(p, LegacyRows(lang, cat, r))
    + CountIf(p, FlatMap(MacRows(lang, cat.mac, "dl", r.ts), r.macDl))
    + CountIf(p, FlatMap(MacRows(lang, cat.mac, "ul", r.ts), r.macUl))
  }

  lemma CountReport(p: Row -> bool, lang: Lang, cat: Catalogue, r: Report, index: UeIndex)
    ensures CountIf(p, ReportRows(lang, cat, r, index))
         == CountParts(p, lang, cat, r, index) + CountOthers(p, lang, cat, r)
  {
    CountFive(p, FlatMap(CellRows(lang, cat, r.ts), r.cells), LegacyRows(lang, cat, r),
      FlatMap(RlcRows(lang, cat.rlc, index, r.ts), r.rlc), FlatMap(MacRows(lang, cat.mac, "dl", r.ts), r.macDl),
      FlatMap(MacRows(lang, cat.mac, "ul", r.ts), r.macUl));
  }

  lemma OthersAgree(p: Row -> bool, cat: Catalogue, r: Report)
    ensures CountOthers(p, Rust, cat, r) == CountOthers(p, Python, cat, r)
  {
    LegacyAgrees(cat, r);
    CountOfPermutation(p, LegacyRows(Rust, cat, r), LegacyRows(Python, cat, r));
    MacAgrees(cat.mac, "dl", r.ts, r.macDl);
    CountOfPermutation(p, FlatMap(MacRows(Rust, cat.mac, "dl", r.ts), r.macDl),
      FlatMap(MacRows(Python, cat.mac, "dl", r.ts), r.macDl));
    MacAgrees(cat.mac, "ul", r.ts, r.macUl);
    CountOfPermutation(p, FlatMap(MacRows(Rust, cat.mac, "ul", r.ts), r.macUl),
      FlatMap(MacRows(Python, cat.mac, "ul", r.ts), r.macUl));
  }

  lemma PartsBalance(p: Row -> bool, cat: Catalogue, r: Report, i: UeIndex, j: UeIndex)
    requires multiset(ReportRows(Rust, cat, r, i)) == multiset(ReportRows(Python, cat, r, j))
    ensures CountParts(p, Rust, cat, r, i) == CountParts(p, Python, cat, r, j)
  {
    CountOfPermutation(p, ReportRows(Rust, cat, r, i), ReportRows(Python, cat, r, j));
    CountReport(p, Rust, cat, r, i);
    CountReport(p, Python, cat, r, j);
    OthersAgree(p, cat, r);
  }

  lemma BalancedMustFit(cat: Catalogue, r: Report, i: UeIndex, j: UeIndex)
    requires DifferByFallback(i, j)
    requires CountParts(Every(), Rust, cat, r, i) == CountParts(Every(), Python, cat, r, j)
    requires CountParts(AtZero(), Rust, cat, r, i) == CountParts(AtZero(), Python, cat, r, j)
    requires CountParts(OfNoCell(), Rust, cat, r, i) == CountParts(OfNoCell(), Python, cat, r, j)
    ensures Fits(cat, r) && OwnersAgree(cat, r.rlc, i, j)
  {
    var a, a' := FlatMap(CellRows(Rust, cat, r.ts), r.cells), FlatMap(CellRows(Python, cat, r.ts), r.cells);
    var c, c' := FlatMap(RlcRows(Rust, cat.rlc, i, r.ts), r.rlc), FlatMap(RlcRows(Python, cat.rlc, j, r.ts), r.rlc);
    CountEvery(a);
    CountEvery(a');
    CountEvery(c);
    CountEvery(c');
    CellsLength(cat, r.ts, r.cells);
    MessagesMustFit(cat.rlc, i, j, r.ts, r.rlc);
    MessagesAtTime(Rust, cat.rlc, i, r.ts, r.rlc);
    MessagesAtTime(Python, cat.rlc, j, r.ts, r.rlc);
    CountAtZero(c, r.ts);
    CountAtZero(c', r.ts);
    CellsMustFit(cat, r.ts, r.cells);
    CellsAgreeWhereFit(cat, r.ts, r.cells);
    CountOfPermutation(OfNoCell(), a, a');
    OwnersMustAgree(cat, i, j, r.ts, r.rlc);
  }

  /** From indices that differ by the fallback alone, the languages emit the
      same rows exactly when the report fits and no message with rows is about
      a UE on whom the indices differ. */
  lemma ReportRowsAgreeExactly(cat: Catalogue, r: Report, i: UeIndex, j: UeIndex)
    requires DifferByFallback(i, j)
    ensures multiset(ReportRows(Rust, cat, r, i)) == multiset(ReportRows(Python, cat, r, j))
      <==> Fits(cat, r) && OwnersAgree(cat, r.rlc, i, j)
  {
    if multiset(ReportRows(Rust, cat, r, i)) == multiset(ReportRows(Python, cat, r, j)) {
      PartsBalance(Every(), cat, r, i, j);
      PartsBalance(AtZero(), cat, r, i, j);
      PartsBalance(OfNoCell(), cat, r, i, j);
      BalancedMustFit(cat, r, i, j);
    }
    if Fits(cat, r) && OwnersAgree(cat, r.rlc, i, j) {
      CellsAgreeWhereFit(cat, r.ts, r.cells);
      LegacyAgrees(cat, r);
      MessagesAgreeUnder(cat, i, j, r.ts, r.rlc);
      MacAgrees(cat.mac, "dl", r.ts, r.macDl);
      MacAgrees(cat.mac, "ul", r.ts, r.macUl);
    }
  }

  // ----- A stream -----

  predicate TeachesOf(r: Report, ueId: int) {
    LastTeacher(r.legacyUes, ueId).Some? || Latest(FlatMap(CellEntries(), r.cells), ueId).Some?
  }

  /** The last report of the stream to teach `ueId` left it to the fallback. */
  predicate LeftToFallback(rs: seq<Report>, ueId: int) {
    rs != []
    && var r := rs[|rs| - 1];
       Contested(r, ueId) || (!TeachesOf(r, ueId) && LeftToFallback(rs[..|rs| - 1], ueId))
  }

  /** One report, from indices that differ about `ueId` or not. */
  lemma ReportLookups(i: UeIndex, j: UeIndex, r: Report, ueId: int)
    ensures var a := LookupUe(Learn(i, ReportEntries(Rust, r)), ueId);
      var b := LookupUe(Learn(j, ReportEntries(Python, r)), ueId);
      && (Contested(r, ueId) ==> Fallback(a, b))
      && (!Contested(r, ueId) && TeachesOf(r, ueId) ==> a == b)
      && (!Contested(r, ueId) && !TeachesOf(r, ueId) ==> a == LookupUe(i, ueId) && b == LookupUe(j, ueId))
  {
    LookupAfter(Rust, i, r, ueId);
    LookupAfter(Python, j, r, ueId);
  }

  lemma {:induction false} StreamLookups(rs: seq<Report>, ueId: int)
    ensures var a, b := LookupUe(StreamIndex(Rust, rs), ueId), LookupUe(StreamIndex(Python, rs), ueId);
      if LeftToFallback(rs, ueId) then Fallback(a, b) else a == b
  {
    if rs != [] {
      var most := rs[..|rs| - 1];
      StreamLookups(most, ueId);
      ReportLookups(StreamIndex(Rust, most), StreamIndex(Python, most), rs[|rs| - 1], ueId);
    }
  }

  ghost predicate NoneLeft(rs: seq<Report>) {
    forall ueId {:trigger LeftToFallback(rs, ueId)} :: !LeftToFallback(rs, ueId)
  }

  /** The two learners carry the same index exactly when no UE is left to the
      fallback. */
  lemma StreamIndicesAgreeExactly(rs: seq<Report>)
    ensures StreamIndex(Rust, rs) == StreamIndex(Python, rs) <==> NoneLeft(rs)
  {
    if NoneLeft(rs) {
      NoneLeftAgree(rs, StreamIndex(Rust, rs), StreamIndex(Python, rs));
    } else {
      var ueId :| LeftToFallback(rs, ueId);
      StreamLookups(rs, ueId);
    }
  }

  lemma NoneLeftAgree(rs: seq<Report>, a: UeIndex, b: UeIndex)
    requires NoneLeft(rs) && a == StreamIndex(Rust, rs) && b == StreamIndex(Python, rs)
    ensures a == b
  {
    forall ueId ensures LookupUe(a, ueId) == LookupUe(b, ueId) {
      assert !LeftToFallback(rs, ueId);
      StreamLookups(rs, ueId);
    }
    LookupsDecide(a, b);
  }

  /** No message with rows is about a UE left to the fallback. */
  ghost predicate OwnersTaught(cat: Catalogue, rs: seq<Report>, ms: seq<Rlc>) {
    forall m :: m in ms && Speaks(cat, m) && m.ueId.Some? ==> !LeftToFallback(rs, m.ueId.value)
  }

  lemma OwnersOfStream(cat: Catalogue, rs: seq<Report>, ms: seq<Rlc>)
    ensures DifferByFallback(StreamIndex(Rust, rs), StreamIndex(Python, rs))
    ensures OwnersAgree(cat, ms, StreamIndex(Rust, rs), StreamIndex(Python, rs)) <==> OwnersTaught(cat, rs, ms)
  {
    var i, j := StreamIndex(Rust, rs), StreamIndex(Python, rs);
    forall ueId
      ensures LookupUe(i, ueId) == LookupUe(j, ueId) || Fallback(LookupUe(i, ueId), LookupUe(j, ueId))
      ensures LookupUe(i, ueId) == LookupUe(j, ueId) <==> !LeftToFallback(rs, ueId)
    {
      StreamLookups(rs, ueId);
    }
    forall m: Rlc ensures m.ueId.Some? ==> (Knows(i, m) == Knows(j, m) <==> !LeftToFallback(rs, m.ueId.value)) {}
  }

  /** Over any stream the two normalisers return, for its last report, sorted
      permutations of the same rows exactly when that report fits and no
      message with rows is about a UE left to the fallback; and then the very
      same list when no key repeats. */
  lemma NormalisersAgreeExactly(cat: Catalogue, rs: seq<Report>)
    requires rs != []
    ensures var x, y, last := Normalised(Rust, cat, rs), Normalised(Python, cat, rs), rs[|rs| - 1];
      && Sorted(RowLe, x) && Sorted(RowLe, y)
      && multiset(x) == multiset(ReportRows(Rust, cat, last, StreamIndex(Rust, rs)))
      && multiset(y) == multiset(ReportRows(Python, cat, last, StreamIndex(Python, rs)))
      && (multiset(x) == multiset(y) <==> Fits(cat, last) && OwnersTaught(cat, rs, last.rlc))
      && (multiset(x) == multiset(y) && DistinctKeys(x) ==> x == y)
  {
    var last, i, j := rs[|rs| - 1], StreamIndex(Rust, rs), StreamIndex(Python, rs);
    SortedOutputs(ReportRows(Rust, cat, last, i), ReportRows(Python, cat, last, j));
    OwnersOfStream(cat, rs, last.rlc);
    ReportRowsAgreeExactly(cat, last, i, j);
  }
}
