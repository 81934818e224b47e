/** A media run's frames joined across its sites, and with WebRTC's state as
    of their capture (tools/media_join.py). */
module MediaJoin {
  import opened Base
  import opened Sorting
  import opened Recorder

  // ----- As-of lookup -----

  datatype Direction = In | Out

  datatype Node = SenderNode | RelayNode | ReceiverNode

  /** One video row of webrtc.csv; the rates derived from consecutive rows are
      among its fields. */
  datatype StatRow = StatRow(tsNs: int, direction: Direction, peer: string, fields: map<string, string>)

  ghost predicate InTimeOrder(rows: seq<StatRow>) {
    forall i, j :: 0 <= i < j < |rows| ==> rows[i].tsNs <= rows[j].tsNs
  }

  function Keys(rows: seq<StatRow>): (keys: seq<int>)
    ensures |keys| == |rows| && forall i :: 0 <= i < |rows| ==> keys[i] == rows[i].tsNs
  {
    seq(|rows|, i requires 0 <= i < |rows| => rows[i].tsNs)
  }

  /** `bisect.bisect_right` on `keys[lo..hi]`. */
  function BisectRight(keys: seq<int>, t: int, lo: nat, hi: nat): (r: nat)
    requires lo <= hi <= |keys|
    requires forall i, j :: 0 <= i < j < |keys| ==> keys[i] <= keys[j]
    requires forall i :: 0 <= i < lo ==> keys[i] <= t
    requires forall i :: hi <= i < |keys| ==> t < keys[i]
    ensures r <= |keys|
    ensures forall i :: 0 <= i < |keys| ==> (keys[i] <= t <==> i < r)
    decreases hi - lo
  {
    if lo == hi then lo
    else
      var mid := (lo + hi) / 2;
      if t < keys[mid] then BisectRight(keys, t, lo, mid) else BisectRight(keys, t, mid + 1, hi)
  }

  /** The row `as_of` picks, by its place. */
  function Pick(rows: seq<StatRow>, t: int, maxAge: int): (r: Option<nat>)
    requires InTimeOrder(rows)
    ensures r.Some? ==> r.value < |rows|
  {
    var after := BisectRight(Keys(rows), t, 0, |rows|);
    if after == 0 || t - rows[after - 1].tsNs > maxAge then None else Some(after - 1)
  }

  function AsOf(rows: seq<StatRow>, t: int, maxAge: int): Option<StatRow>
    requires InTimeOrder(rows)
  {
    var k := Pick(rows, t, maxAge);
    if k.Some? then Some(rows[k.value]) else None
  }

  /** The later of two rows known by `t`; the second one, of two at one time. */
  function Newer(best: Option<StatRow>, row: StatRow, t: int): Option<StatRow> {
    if row.tsNs <= t && (best.None? || best.value.tsNs <= row.tsNs) then Some(row) else best
  }

  /** A plain scan: the last row with the greatest time not after `t`. */
  function Latest(rows: seq<StatRow>, t: int): Option<StatRow> {
    if rows == [] then None else Newer(Latest(rows[..|rows| - 1], t), rows[|rows| - 1], t)
  }

  function LatestWithin(rows: seq<StatRow>, t: int, maxAge: int): Option<StatRow> {
    var r := Latest(rows, t);
    if r.Some? && t - r.value.tsNs <= maxAge then r else None
  }

  lemma {:induction false} LatestIsGreatest(rows: seq<StatRow>, t: int)
    ensures match Latest(rows, t)
      case None => forall i :: 0 <= i < |rows| ==> t < rows[i].tsNs
      case Some(r) =>
        && r in rows && r.tsNs <= t
        && forall i :: 0 <= i < |rows| && rows[i].tsNs <= t ==> rows[i].tsNs <= r.tsNs
  {
    if rows != [] {
      LatestIsGreatest(rows[..|rows| - 1], t);
      assert forall i :: 0 <= i < |rows| - 1 ==> rows[i] == rows[..|rows| - 1][i];
    }
  }

  /** And of several at that time, the last in the list. */
  lemma {:induction false} LatestIsLast(rows: seq<StatRow>, t: int)
    ensures Latest(rows, t).Some? ==>
      exists i :: 0 <= i < |rows| && rows[i] == Latest(rows, t).value && NoneAfter(rows, i, t)
  {
    if rows != [] {
      var n, most := |rows| - 1, rows[..|rows| - 1];
      LatestIsLast(most, t);
      LatestIsGreatest(most, t);
      if Latest(rows, t).Some? {
        if Latest(rows, t) == Newer(None, rows[n], t) && Latest(rows, t) != Latest(most, t) {
          assert NoneAfter(rows, n, t);
        } else if rows[n].tsNs <= t && Latest(most, t).value.tsNs <= rows[n].tsNs {
          assert NoneAfter(rows, n, t);
        } else {
          var i :| 0 <= i < |most| && most[i] == Latest(most, t).value && NoneAfter(most, i, t);
          assert NoneAfter(rows, i, t) by {
            assert forall j :: i < j < n ==> rows[j] == most[j];
          }
        }
      }
    }
  }

  ghost predicate NoneAfter(rows: seq<StatRow>, i: int, t: int)
    requires 0 <= i < |rows|
  {
    forall j :: i < j < |rows| && rows[j].tsNs <= t ==> rows[j].tsNs < rows[i].tsNs
  }

  lemma {:induction false} LatestOfSorted(rows: seq<StatRow>, t: int, after: nat)
    requires InTimeOrder(rows) && after <= |rows|
    requires forall i :: 0 <= i < |rows| ==> (rows[i].tsNs <= t <==> i < after)
    ensures Latest(rows, t) == if after == 0 then None else Some(rows[after - 1])
  {
    if rows != [] {
      var most := rows[..|rows| - 1];
      LatestOfSorted(most, t, Min(after, |most|));
      assert after == |rows| && after > 1 ==> rows[after - 2].tsNs <= rows[after - 1].tsNs;
    }
  }

  /** The bisection answers as the scan does. */
  lemma AsOfIsScan(rows: seq<StatRow>, t: int, maxAge: int)
    requires InTimeOrder(rows)
    ensures AsOf(rows, t, maxAge) == LatestWithin(rows, t, maxAge)
  {
    LatestOfSorted(rows, t, BisectRight(Keys(rows), t, 0, |rows|));
  }

  /** A cell is blank exactly when no row falls in the age allowed. */
  lemma BlankExactly(rows: seq<StatRow>, t: int, maxAge: int)
    requires InTimeOrder(rows)
    ensures AsOf(rows, t, maxAge).None? <==> !exists i :: 0 <= i < |rows| && t - maxAge <= rows[i].tsNs <= t
  {
    AsOfIsScan(rows, t, maxAge);
    LatestIsGreatest(rows, t);
  }

  /** Asked later, a series answers with the same row or a later one. */
  lemma NeverGoesBack(rows: seq<StatRow>, t: int, u: int, maxAge: int)
    requires InTimeOrder(rows) && t <= u
    requires Pick(rows, t, maxAge).Some? && Pick(rows, u, maxAge).Some?
    ensures Pick(rows, t, maxAge).value <= Pick(rows, u, maxAge).value
  {
    var k := Pick(rows, t, maxAge).value;
    assert Keys(rows)[k] <= u;
  }

  // ----- Series -----

  predicate TimeLe(a: StatRow, b: StatRow) { a.tsNs <= b.tsNs }

  /** The peer whose stream stands for a direction: that of its first row. */
  function FirstPeer(rows: seq<StatRow>, d: Direction): Option<string> {
    if rows == [] then None
    else if rows[0].direction == d then Some(rows[0].peer)
    else FirstPeer(rows[1..], d)
  }

  function OfStream(d: Direction, peer: string): StatRow -> bool {
    (r: StatRow) => r.direction == d && r.peer == peer
  }

  /** One node's series for a direction: one stream's rows, in time order. */
  function SeriesOf(rows: seq<StatRow>, d: Direction): Option<seq<StatRow>> {
    var first := FirstPeer(rows, d);
    if first.None? then None else Some(Sort(TimeLe, Where(OfStream(d, first.value), rows)))
  }

  /** A series holds the rows of one stream, that of the direction's first row. */
  lemma SeriesMeans(rows: seq<StatRow>, d: Direction, r: StatRow)
    ensures SeriesOf(rows, d).Some? <==> exists i :: IsFirstOf(rows, d, i)
    ensures forall i :: IsFirstOf(rows, d, i) ==>
      (r in SeriesOf(rows, d).value <==> r in rows && r.direction == d && r.peer == rows[i].peer)
  {
    FirstPeerMeans(rows, d);
    if i :| IsFirstOf(rows, d, i) {
      var p := OfStream(d, rows[i].peer);
      WhereMembers(p, rows, r);
      SortSorts(TimeLe, Where(p, rows));
      assert r in Where(p, rows) <==> r in multiset(Where(p, rows));
      assert r in Sort(TimeLe, Where(p, rows)) <==> r in multiset(Sort(TimeLe, Where(p, rows)));
    }
  }

  ghost predicate IsFirstOf(rows: seq<StatRow>, d: Direction, i: int) {
    0 <= i < |rows| && rows[i].direction == d && forall j :: 0 <= j < i ==> rows[j].direction != d
  }

  lemma {:induction false} FirstPeerMeans(rows: seq<StatRow>, d: Direction)
    ensures FirstPeer(rows, d).Some? <==> exists i :: IsFirstOf(rows, d, i)
    ensures forall i :: IsFirstOf(rows, d, i) ==> FirstPeer(rows, d) == Some(rows[i].peer)
  {
    if rows != [] {
      var rest := rows[1..];
      FirstPeerMeans(rest, d);
      if rows[0].direction == d {
        assert IsFirstOf(rows, d, 0);
      } else {
        forall i ensures IsFirstOf(rows, d, i) <==> IsFirstOf(rest, d, i - 1) {
          assert IsFirstOf(rest, d, i - 1) ==> forall j :: 0 < j < i ==> rows[j] == rest[j - 1];
          assert IsFirstOf(rows, d, i) ==> forall j :: 0 <= j < i - 1 ==> rest[j] == rows[j + 1];
        }
        if i :| IsFirstOf(rest, d, i) {
          assert IsFirstOf(rows, d, i + 1);
        }
      }
    }
  }

  lemma {:induction false} WhereMembers(p: StatRow -> bool, rows: seq<StatRow>, r: StatRow)
    ensures r in Where(p, rows) <==> r in rows && p(r)
  {
    if rows != [] {
      WhereMembers(p, rows[..|rows| - 1], r);
      assert rows == rows[..|rows| - 1] + [rows[|rows| - 1]];
    }
  }

  lemma {:induction false} LatestOfInserted(rows: seq<StatRow>, x: StatRow, t: int)
    ensures Latest(Insert(TimeLe, rows, x), t) == Newer(Latest(rows, t), x, t)
  {
    if rows == [] || TimeLe(rows[|rows| - 1], x) {
      assert (rows + [x])[..|rows|] == rows;
    } else {
      var most, last := rows[..|rows| - 1], rows[|rows| - 1];
      LatestOfInserted(most, x, t);
      var r := Insert(TimeLe, most, x);
      assert (r + [last])[..|r|] == r;
    }
  }

  lemma {:induction false} LatestOfSort(rows: seq<StatRow>, t: int)
    ensures Latest(Sort(TimeLe, rows), t) == Latest(rows, t)
  {
    if rows != [] {
      LatestOfSort(rows[..|rows| - 1], t);
      LatestOfInserted(Sort(TimeLe, rows[..|rows| - 1]), rows[|rows| - 1], t);
    }
  }

  lemma SortedInTime(rows: seq<StatRow>)
    ensures InTimeOrder(Sort(TimeLe, rows))
  {
    SortSorts(TimeLe, rows);
    var s := Sort(TimeLe, rows);
    forall i, j | 0 <= i < j < |s| ensures s[i].tsNs <= s[j].tsNs {
      assert TimeLe(s[i], s[j]);
    }
  }

  /** Sorting and bisecting a stream answers as scanning its rows in the order
      of the file, whatever that order is. */
  lemma SeriesAnswersAsFile(rows: seq<StatRow>, d: Direction, t: int, maxAge: int)
    requires SeriesOf(rows, d).Some?
    ensures FirstPeer(rows, d).Some? && InTimeOrder(SeriesOf(rows, d).value)
    ensures AsOf(SeriesOf(rows, d).value, t, maxAge)
      == LatestWithin(Where(OfStream(d, FirstPeer(rows, d).value), rows), t, maxAge)
  {
    var stream := Where(OfStream(d, FirstPeer(rows, d).value), rows);
    SortedInTime(stream);
    AsOfIsScan(Sort(TimeLe, stream), t, maxAge);
    LatestOfSort(stream, t);
  }

  // ----- The default age -----

  predicate IntLe(a: int, b: int) { a <= b }

  function Gaps(keys: seq<int>): (gaps: seq<int>)
    ensures forall i :: 0 <= i < |gaps| ==> gaps[i] > 0
  {
    if |keys| < 2 then []
    else
      var n := |keys|;
      Gaps(keys[..n - 1]) + (if keys[n - 2] < keys[n - 1] then [keys[n - 1] - keys[n - 2]] else [])
  }

  /** `int(statistics.median(gaps))` of positive gaps. */
  function Median(gaps: seq<int>): int
    requires gaps != []
  {
    SortSorts(IntLe, gaps);
    Middle(Sort(IntLe, gaps))
  }

  /** The middle element, or the middle of the two middle ones. */
  function Middle(s: seq<int>): int
    requires s != []
  {
    if |s| % 2 == 1 then s[|s| / 2] else (s[|s| / 2 - 1] + s[|s| / 2]) / 2
  }

  function PeriodNs(rows: seq<StatRow>): int {
    var gaps := Gaps(Keys(rows));
    if gaps == [] then 1_000_000_000 else Median(gaps)
  }

  /** The gaps are the steps forward in time from one row to the next. */
  lemma {:induction false} GapsMean(keys: seq<int>, g: int)
    ensures g in Gaps(keys) <==> exists i :: 0 <= i < |keys| - 1 && keys[i] < keys[i + 1] && g == keys[i + 1] - keys[i]
  {
    if |keys| >= 2 {
      var most, n := keys[..|keys| - 1], |keys|;
      GapsMean(most, g);
      if i :| 0 <= i < |keys| - 1 && keys[i] < keys[i + 1] && g == keys[i + 1] - keys[i] {
        assert i < n - 2 ==> most[i] == keys[i] && most[i + 1] == keys[i + 1];
      }
    }
  }

  function NoMore(v: int): int -> bool { x => x <= v }

  function NoLess(v: int): int -> bool { x => v <= x }

  /** At least half of the gaps are no longer than the median, and at least half
      no shorter. */
  lemma MedianIsMiddle(gaps: seq<int>)
    requires gaps != []
    ensures 2 * CountIf(NoMore(Median(gaps)), gaps) >= |gaps|
    ensures 2 * CountIf(NoLess(Median(gaps)), gaps) >= |gaps|
  {
    var s, m := Sort(IntLe, gaps), Median(gaps);
    SortSorts(IntLe, gaps);
    MiddleCounts(s);
    CountOfPermutation(NoMore(m), s, gaps);
    CountOfPermutation(NoLess(m), s, gaps);
  }

  lemma MiddleCounts(s: seq<int>)
    requires s != [] && Sorted(IntLe, s)
    ensures 2 * CountIf(NoMore(Middle(s)), s) >= |s|
    ensures 2 * CountIf(NoLess(Middle(s)), s) >= |s|
  {
    forall i, j | 0 <= i < j < |s| ensures s[i] <= s[j] {
      assert IntLe(s[i], s[j]);
    }
    var h := |s| / 2;
    AtMostInFront(s, if |s| % 2 == 1 then h + 1 else h, Middle(s));
    AtLeastBehind(s, h, Middle(s));
  }

  lemma AtMostInFront(s: seq<int>, k: nat, m: int)
    requires 0 < k <= |s| && s[k - 1] <= m && forall i, j :: 0 <= i < j < |s| ==> s[i] <= s[j]
    ensures CountIf(NoMore(m), s) >= k
  {
    assert s == s[..k] + s[k..];
    CountAll(NoMore(m), s[..k]);
    CountSplit(NoMore(m), s[..k], s[k..]);
  }

  lemma AtLeastBehind(s: seq<int>, k: nat, m: int)
    requires k < |s| && m <= s[k] && forall i, j :: 0 <= i < j < |s| ==> s[i] <= s[j]
    ensures CountIf(NoLess(m), s) >= |s| - k
  {
    assert s == s[..k] + s[k..];
    CountAll(NoLess(m), s[k..]);
    CountSplit(NoLess(m), s[..k], s[k..]);
  }

  /** Unless told otherwise a row may be two such periods old, or two seconds
      where time never moves. */
  lemma PeriodMeans(rows: seq<StatRow>)
    ensures Gaps(Keys(rows)) == [] ==> PeriodNs(rows) == 1_000_000_000
    ensures Gaps(Keys(rows)) != [] ==> PeriodNs(rows) == Median(Gaps(Keys(rows)))
  {
  }

  // ----- State columns -----

  datatype Column = Column(name: string, node: Node, direction: Direction, field: string)

  const SENT_RATES := [
    Column("send_bwe_bps", SenderNode, Out, "bwe_bps"),
    Column("send_target_bps", SenderNode, Out, "target_bps"),
    Column("send_bitrate_bps", SenderNode, Out, "bitrate_bps")]
  const SENT_PICTURE := [
    Column("send_fps", SenderNode, Out, "fps"),
    Column("send_height", SenderNode, Out, "height"),
    Column("send_quality_limitation", SenderNode, Out, "quality_limitation")]
  const UPLINK := [
    Column("uplink_jitter_ms", RelayNode, In, "jitter_ms"),
    Column("uplink_loss_fraction", RelayNode, In, "loss_fraction"),
    Column("uplink_rtt_ms", RelayNode, In, "rtt_ms")]
  const DOWNLINK := [
    Column("downlink_jitter_ms", ReceiverNode, In, "jitter_ms"),
    Column("downlink_lost_per_s", ReceiverNode, In, "lost_per_s")]
  const RECEIVED := [
    Column("recv_bitrate_bps", ReceiverNode, In, "bitrate_bps"),
    Column("recv_jitter_buffer_ms", ReceiverNode, In, "jitter_buffer_ms"),
    Column("recv_freezes", ReceiverNode, In, "freezes")]
  const REQUESTS := [
    Column("recv_nacks", ReceiverNode, In, "nacks"),
    Column("recv_plis", ReceiverNode, In, "plis")]
  const STATE := SENT_RATES + SENT_PICTURE + UPLINK + DOWNLINK + RECEIVED + REQUESTS

  /** A column is named after the leg it tells of and the field it shows: what
      is sent at the sender, the uplink as the relay receives it, the downlink
      and what is received at the receiver. */
  ghost predicate Fits(c: Column) {
    || IsColumn(c, "send_", SenderNode, Out)
    || IsColumn(c, "uplink_", RelayNode, In)
    || IsColumn(c, "downlink_", ReceiverNode, In)
    || IsColumn(c, "recv_", ReceiverNode, In)
  }

  ghost predicate IsColumn(c: Column, leg: string, node: Node, direction: Direction) {
    c.name == leg + c.field && c.node == node && c.direction == direction
  }

  lemma SentRatesFit(j: nat)
    requires j < |SENT_RATES|
    ensures |SENT_RATES| == 3 && IsColumn(SENT_RATES[j], "send_", SenderNode, Out)
  {
  }

  lemma SentPictureFits(j: nat)
    requires j < |SENT_PICTURE|
    ensures |SENT_PICTURE| == 3 && IsColumn(SENT_PICTURE[j], "send_", SenderNode, Out)
  {
  }

  lemma UplinkFits(j: nat)
    requires j < |UPLINK|
    ensures |UPLINK| == 3 && IsColumn(UPLINK[j], "uplink_", RelayNode, In)
  {
  }

  lemma DownlinkFits(j: nat)
    requires j < |DOWNLINK|
    ensures |DOWNLINK| == 2 && IsColumn(DOWNLINK[j], "downlink_", ReceiverNode, In)
  {
  }

  lemma ReceivedFits(j: nat)
    requires j < |RECEIVED|
    ensures |RECEIVED| == 3 && IsColumn(RECEIVED[j], "recv_", ReceiverNode, In)
  {
  }

  lemma RequestsFit(j: nat)
    requires j < |REQUESTS|
    ensures |REQUESTS| == 2 && IsColumn(REQUESTS[j], "recv_", ReceiverNode, In)
  {
  }

  lemma ColumnsMean(c: Column)
    requires c in STATE
    ensures Fits(c)
  {
    if j :| 0 <= j < |SENT_RATES| && SENT_RATES[j] == c {
      SentRatesFit(j);
    } else if j :| 0 <= j < |SENT_PICTURE| && SENT_PICTURE[j] == c {
      SentPictureFits(j);
    } else if j :| 0 <= j < |UPLINK| && UPLINK[j] == c {
      UplinkFits(j);
    } else if j :| 0 <= j < |DOWNLINK| && DOWNLINK[j] == c {
      DownlinkFits(j);
    } else if j :| 0 <= j < |RECEIVED| && RECEIVED[j] == c {
      ReceivedFits(j);
    } else if j :| 0 <= j < |REQUESTS| && REQUESTS[j] == c {
      RequestsFit(j);
    }
  }

  function Get(r: StatRow, field: string): string {
    if field in r.fields then r.fields[field] else ""
  }

  /** A frame's cell, by scanning the series. */
  function Cell(series: map<(Node, Direction), seq<StatRow>>, c: Column, t: int, maxAge: Option<int>): string {
    if (c.node, c.direction) !in series then ""
    else
      var rows := series[(c.node, c.direction)];
      var age := if maxAge.Some? then maxAge.value else 2 * PeriodNs(rows);
      var row := LatestWithin(rows, t, age);
      if row.Some? then Get(row.value, c.field) else ""
  }

  /** Row `i` is the last one known by `t`. */
  ghost predicate IsNewest(rows: seq<StatRow>, i: int, t: int) {
    && 0 <= i < |rows| && rows[i].tsNs <= t && NoneAfter(rows, i, t)
    && forall j :: 0 <= j < i && rows[j].tsNs <= t ==> rows[j].tsNs <= rows[i].tsNs
  }

  /** A cell shows its field of the newest row, unless that is older than the
      age allowed, twice the series' period if none is given. */
  lemma CellMeans(series: map<(Node, Direction), seq<StatRow>>, c: Column, t: int, maxAge: Option<int>)
    ensures (c.node, c.direction) !in series ==> Cell(series, c, t, maxAge) == ""
    ensures (c.node, c.direction) in series ==>
      var rows := series[(c.node, c.direction)];
      var age := if maxAge.Some? then maxAge.value else PeriodNs(rows) + PeriodNs(rows);
      && ((forall i :: 0 <= i < |rows| ==> !(t - age <= rows[i].tsNs <= t)) ==> Cell(series, c, t, maxAge) == "")
      && (forall i :: IsNewest(rows, i, t) && t - rows[i].tsNs <= age ==>
            Cell(series, c, t, maxAge) == if c.field in rows[i].fields then rows[i].fields[c.field] else "")
  {
    if (c.node, c.direction) in series {
      var rows := series[(c.node, c.direction)];
      LatestIsGreatest(rows, t);
      forall i | IsNewest(rows, i, t) ensures Latest(rows, t) == Some(rows[i]) {
        NewestIsLatest(rows, i, t);
      }
    }
  }

  lemma {:induction false} NewestIsLatest(rows: seq<StatRow>, i: int, t: int)
    requires IsNewest(rows, i, t)
    ensures Latest(rows, t) == Some(rows[i])
  {
    LatestIsGreatest(rows, t);
    LatestIsLast(rows, t);
    var k :| 0 <= k < |rows| && rows[k] == Latest(rows, t).value && NoneAfter(rows, k, t);
    assert rows[i].tsNs == rows[k].tsNs;
  }

  ghost predicate AllInTimeOrder(series: map<(Node, Direction), seq<StatRow>>) {
    forall k :: k in series ==> InTimeOrder(series[k])
  }

  method AttachState(frames: seq<JoinedFrame>, series: map<(Node, Direction), seq<StatRow>>, maxAge: Option<int>)
      returns (table: seq<seq<string>>)
    requires AllInTimeOrder(series)
    ensures |table| == |frames|
    ensures forall i :: 0 <= i < |frames| ==> |table[i]| == |STATE|
    ensures forall i, j :: 0 <= i < |frames| && 0 <= j < |STATE| ==>
      table[i][j] == Cell(series, STATE[j], frames[i].captureNs, maxAge)
  {
    table := [];
    for i := 0 to |frames|
      invariant |table| == i
      invariant forall k :: 0 <= k < i ==> |table[k]| == |STATE|
      invariant forall k, j :: 0 <= k < i && 0 <= j < |STATE| ==>
        table[k][j] == Cell(series, STATE[j], frames[k].captureNs, maxAge)
    {
      var cells := AttachFrame(frames[i].captureNs, series, STATE, maxAge);
      table := table + [cells];
    }
  }

  /** One frame's pass over the columns. */
  method AttachFrame(t: int, series: map<(Node, Direction), seq<StatRow>>, columns: seq<Column>, maxAge: Option<int>)
      returns (cells: seq<string>)
    requires AllInTimeOrder(series)
    ensures |cells| == |columns|
    ensures forall j :: 0 <= j < |columns| ==> cells[j] == Cell(series, columns[j], t, maxAge)
  {
    cells := [];
    for j := 0 to |columns|
      invariant |cells| == j
      invariant forall k :: 0 <= k < j ==> cells[k] == Cell(series, columns[k], t, maxAge)
    {
      var c := columns[j];
      var cell := "";
      if (c.node, c.direction) in series {
        var rows := series[(c.node, c.direction)];
        var age := if maxAge.Some? then maxAge.value else 2 * PeriodNs(rows);
        AsOfIsScan(rows, t, age);
        var row := AsOf(rows, t, age);
        if row.Some? {
          cell := Get(row.value, c.field);
        }
      }
      cells := cells + [cell];
    }
  }

  // ----- Frames across sites -----

  /** A site's frames by sequence number; `order` is the dictionary's own. */
  datatype Frames = Frames(order: seq<int>, rows: map<int, Row>)

  function SeqOf(r: Row): int { r.sample.envelope.seqNo }

  function LoadFrames(file: seq<Row>): Frames {
    if file == [] then Frames([], map[])
    else
      var d, r := LoadFrames(file[..|file| - 1]), file[|file| - 1];
      if r.sample.kind != FrameSample then d
      else Frames(if SeqOf(r) in d.rows then d.order else d.order + [SeqOf(r)], d.rows[SeqOf(r) := r])
  }

  ghost predicate Loaded(d: Frames) {
    && (forall i :: 0 <= i < |d.order| ==> d.order[i] in d.rows && SeqOf(d.rows[d.order[i]]) == d.order[i])
    && (forall k :: k in d.rows ==> k in d.order)
    && (forall i, j :: 0 <= i < j < |d.order| ==> d.order[i] != d.order[j])
  }

  function FrameOf(k: int): Row -> bool {
    (r: Row) => r.sample.kind == FrameSample && SeqOf(r) == k
  }

  /** A site's frames: one entry a sequence number, its last frame row. */
  lemma {:induction false} LoadKeepsLast(file: seq<Row>, k: int)
    ensures Loaded(LoadFrames(file))
    ensures var frames := Where(FrameOf(k), file);
      && (k in LoadFrames(file).rows <==> frames != [])
      && (frames != [] ==> LoadFrames(file).rows[k] == frames[|frames| - 1])
  {
    if file != [] {
      LoadKeepsLast(file[..|file| - 1], k);
    }
  }

  /** Row `i` is the first frame of its number. */
  ghost predicate IsFirst(file: seq<Row>, k: int, i: int) {
    && 0 <= i < |file| && FrameOf(k)(file[i])
    && forall j :: 0 <= j < i ==> !FrameOf(k)(file[j])
  }

  ghost predicate Appears(file: seq<Row>, k: int) {
    exists i :: IsFirst(file, k, i)
  }

  ghost predicate InFileOrder(file: seq<Row>, k: int, l: int) {
    exists a, b :: IsFirst(file, k, a) && IsFirst(file, l, b) && a < b
  }

  ghost predicate InOrder(file: seq<Row>, order: seq<int>) {
    && (forall i :: 0 <= i < |order| ==> Appears(file, order[i]))
    && (forall i, j :: 0 <= i < j < |order| ==> InFileOrder(file, order[i], order[j]))
  }

  /** They are listed as they first appear. */
  lemma {:induction false} LoadKeepsOrder(file: seq<Row>)
    ensures InOrder(file, LoadFrames(file).order)
  {
    if file != [] {
      var most, n := file[..|file| - 1], |file| - 1;
      LoadKeepsOrder(most);
      OrderStays(file, n, LoadFrames(most).order);
      var d, r := LoadFrames(most), file[n];
      if r.sample.kind == FrameSample && SeqOf(r) !in d.rows {
        FirstOfItsNumber(file, n);
        OrderGrows(file, n, d.order);
      }
    }
  }

  lemma FirstStays(file: seq<Row>, n: nat, k: int, i: int)
    requires n < |file| && IsFirst(file[..n], k, i)
    ensures IsFirst(file, k, i)
  {
    assert forall j :: 0 <= j < n ==> file[..n][j] == file[j];
  }

  /** A longer file changes nothing about those already there. */
  lemma OrderStays(file: seq<Row>, n: nat, order: seq<int>)
    requires n < |file| && InOrder(file[..n], order)
    ensures InOrder(file, order)
  {
    forall i | 0 <= i < |order| ensures Appears(file, order[i]) {
      assert Appears(file[..n], order[i]);
      var a :| IsFirst(file[..n], order[i], a);
      FirstStays(file, n, order[i], a);
    }
    forall i, j | 0 <= i < j < |order| ensures InFileOrder(file, order[i], order[j]) {
      assert InFileOrder(file[..n], order[i], order[j]);
      var a, b :| IsFirst(file[..n], order[i], a) && IsFirst(file[..n], order[j], b) && a < b;
      FirstStays(file, n, order[i], a);
      FirstStays(file, n, order[j], b);
    }
  }

  /** The number of the last row, if new, comes last. */
  lemma OrderGrows(file: seq<Row>, n: nat, order: seq<int>)
    requires n + 1 == |file| && InOrder(file[..n], order) && InOrder(file, order)
    requires IsFirst(file, SeqOf(file[n]), n)
    ensures InOrder(file, order + [SeqOf(file[n])])
  {
    var k := SeqOf(file[n]);
    forall i | 0 <= i < |order| ensures InFileOrder(file, order[i], k) {
      assert Appears(file[..n], order[i]);
      var a :| IsFirst(file[..n], order[i], a);
      FirstStays(file, n, order[i], a);
    }
  }

  lemma FirstOfItsNumber(file: seq<Row>, n: nat)
    requires n + 1 == |file| && file[n].sample.kind == FrameSample
    requires SeqOf(file[n]) !in LoadFrames(file[..n]).rows
    ensures IsFirst(file, SeqOf(file[n]), n)
  {
    var k, most := SeqOf(file[n]), file[..n];
    LoadKeepsLast(most, k);
    forall j | 0 <= j < n ensures !FrameOf(k)(file[j]) {
      NoneWhere(FrameOf(k), most, j);
      assert most[j] == file[j];
    }
  }

  lemma {:induction false} NoneWhere(p: Row -> bool, s: seq<Row>, j: nat)
    requires Where(p, s) == [] && j < |s|
    ensures !p(s[j])
  {
    if j < |s| - 1 {
      NoneWhere(p, s[..|s| - 1], j);
    }
  }

  datatype JoinedFrame = JoinedFrame(
    seqNo: int, captureNs: int, uplink: int, relay: int, downlink: int, receiver: int, e2e: int)

  datatype JoinError = BlankDelay

  /** One frame's legs; a blank delay is no integer. */
  function Legs(relay: Row, receiver: Row): Option<JoinedFrame> {
    if relay.network.None? || relay.processing.None? || receiver.processing.None? || receiver.e2e.None? then None
    else
      var v := receiver.sample.envelope;
      Some(JoinedFrame(v.seqNo, v.captureNs, relay.network.value, relay.processing.value,
        v.recvNs - relay.sample.envelope.processDoneNs, receiver.processing.value, receiver.e2e.value))
  }

  predicate CaptureLe(a: JoinedFrame, b: JoinedFrame) { a.captureNs <= b.captureNs }

  function Both(relay: Frames): int -> bool {
    k => k in relay.rows
  }

  /** The frames both sites saw, in the receiver's order. */
  function Common(relay: Frames, receiver: Frames): seq<int> {
    Where(Both(relay), receiver.order)
  }

  ghost predicate LegsAre(relay: Frames, receiver: Frames, keys: seq<int>, out: seq<JoinedFrame>) {
    && |out| == |keys|
    && forall i :: 0 <= i < |keys| ==>
         && keys[i] in relay.rows && keys[i] in receiver.rows
         && Legs(relay.rows[keys[i]], receiver.rows[keys[i]]) == Some(out[i])
  }

  method JoinFrames(relay: Frames, receiver: Frames) returns (r: Result<seq<JoinedFrame>, JoinError>)
    requires Loaded(receiver)
    ensures r.Err? <==> exists k :: k in relay.rows && k in receiver.rows && Legs(relay.rows[k], receiver.rows[k]).None?
    ensures r.Ok? ==> exists out ::
      LegsAre(relay, receiver, Common(relay, receiver), out) && r.value == Sort(CaptureLe, out)
  {
    var out: seq<JoinedFrame> := [];
    for i := 0 to |receiver.order|
      invariant LegsAre(relay, receiver, Where(Both(relay), receiver.order[..i]), out)
      invariant forall k :: 0 <= k < i && receiver.order[k] in relay.rows ==>
        Legs(relay.rows[receiver.order[k]], receiver.rows[receiver.order[k]]).Some?
    {
      var k := receiver.order[i];
      assert receiver.order[..i + 1][..i] == receiver.order[..i];
      if k in relay.rows {
        var legs := Legs(relay.rows[k], receiver.rows[k]);
        if legs.None? {
          return Err(BlankDelay);
        }
        out := out + [legs.value];
      }
    }
    assert receiver.order[..|receiver.order|] == receiver.order;
    r := Ok(Sort(CaptureLe, out));
  }

  /** The joined table holds each frame both sites saw exactly once. */
  lemma EachCommonFrameOnce(relay: Frames, receiver: Frames, out: seq<JoinedFrame>)
    requires Loaded(receiver) && LegsAre(relay, receiver, Common(relay, receiver), out)
    ensures forall k :: (k in relay.rows && k in receiver.rows) <==> exists i :: 0 <= i < |out| && out[i].seqNo == k
    ensures forall i, j :: 0 <= i < j < |out| ==> out[i].seqNo != out[j].seqNo
  {
    var keys := Common(relay, receiver);
    WhereIsSubsequence(Both(relay), receiver.order);
    assert forall i :: 0 <= i < |out| ==> keys[i] in receiver.order && out[i].seqNo == keys[i];
    forall k | k in relay.rows && k in receiver.rows ensures exists i :: 0 <= i < |out| && out[i].seqNo == k {
      assert Both(relay)(k) && k in receiver.order;
      var i :| 0 <= i < |keys| && keys[i] == k;
      assert out[i].seqNo == k;
    }
  }

  /** The table is in capture order, frames captured together in the
      receiver's, and sorting it lost none. */
  lemma TableInCaptureOrder(out: seq<JoinedFrame>, t: int)
    ensures Sorted(CaptureLe, Sort(CaptureLe, out)) && multiset(Sort(CaptureLe, out)) == multiset(out)
    ensures var f := Sort(CaptureLe, out);
      forall i, j :: 0 <= i < j < |f| ==> f[i].captureNs <= f[j].captureNs
    ensures Where(CapturedAt(t), Sort(CaptureLe, out)) == Where(CapturedAt(t), out)
  {
    SortSorts(CaptureLe, out);
    SortStable(CaptureLe, CapturedAt(t), out);
    var f := Sort(CaptureLe, out);
    forall i, j | 0 <= i < j < |f| ensures f[i].captureNs <= f[j].captureNs {
      assert CaptureLe(f[i], f[j]);
    }
  }

  /** Down a column of the joined table the row chosen never goes backwards. */
  lemma ColumnNeverGoesBack(rows: seq<StatRow>, out: seq<JoinedFrame>, p: nat, q: nat, maxAge: int)
    requires InTimeOrder(rows) && p < q < |Sort(CaptureLe, out)|
    ensures var f := Sort(CaptureLe, out);
      var a, b := Pick(rows, f[p].captureNs, maxAge), Pick(rows, f[q].captureNs, maxAge);
      a.Some? && b.Some? ==> a.value <= b.value
  {
    var f := Sort(CaptureLe, out);
    TableInCaptureOrder(out, 0);
    assert CaptureLe(f[p], f[q]);
    if Pick(rows, f[p].captureNs, maxAge).Some? && Pick(rows, f[q].captureNs, maxAge).Some? {
      NeverGoesBack(rows, f[p].captureNs, f[q].captureNs, maxAge);
    }
  }

  function CapturedAt(t: int): JoinedFrame -> bool {
    (f: JoinedFrame) => f.captureNs == t
  }

  lemma {:induction false} WhereIsSubsequence(p: int -> bool, s: seq<int>)
    requires forall i, j :: 0 <= i < j < |s| ==> s[i] != s[j]
    ensures forall x :: x in Where(p, s) <==> x in s && p(x)
    ensures forall i, j :: 0 <= i < j < |Where(p, s)| ==> Where(p, s)[i] != Where(p, s)[j]
  {
    if s != [] {
      var most := s[..|s| - 1];
      WhereIsSubsequence(p, most);
      assert s == most + [s[|s| - 1]];
      assert s[|s| - 1] !in most;
    }
  }

  /** A frame's legs are blank exactly when one of the stamps they span was
      never taken; the receiver's send stamp and the relay's capture are not
      among them. */
  lemma BlankLegs(a: Sample, b: Sample)
    ensures Legs(RowOf(a), RowOf(b)).None? <==>
      || a.envelope.sendNs == 0 || a.envelope.recvNs == 0 || a.envelope.processDoneNs == 0
      || b.envelope.recvNs == 0 || b.envelope.processDoneNs == 0 || b.envelope.captureNs == 0
  {
  }

  /** Each leg by the stamps it lies between. */
  lemma LegsMean(a: Sample, b: Sample)
    requires Legs(RowOf(a), RowOf(b)).Some?
    ensures var f := Legs(RowOf(a), RowOf(b)).value;
      && f.seqNo == b.envelope.seqNo && f.captureNs == b.envelope.captureNs
      && DelayIs(Some(f.uplink), a.envelope.sendNs, a.envelope.recvNs)
      && DelayIs(Some(f.relay), a.envelope.recvNs, a.envelope.processDoneNs)
      && f.downlink == b.envelope.recvNs - a.envelope.processDoneNs
      && DelayIs(Some(f.receiver), b.envelope.recvNs, b.envelope.processDoneNs)
      && DelayIs(Some(f.e2e), b.envelope.captureNs, b.envelope.processDoneNs)
  {
    DelaysMean(a);
    DelaysMean(b);
  }

  /** A 64-bit difference is the true one, give or take whole turns; between
      stamps after 1970, exactly. */
  function Turns(from: i64, to: i64): (q: int)
    ensures SubI64(to, from) == to - from + q * TWO_64
    ensures from >= 0 && to >= 0 ==> q == 0
  {
    var d := to as int - from as int;
    if d < I64_MIN then 1 else if I64_MAX < d then -1 else 0
  }

  /** The four legs leave no gap between the send and the picture: they add up
      to the frame's whole way from the sender, and with the sender's own delay
      to glass-to-glass; modulo 2^64 always, and exactly where no stamp lies
      before 1970. */
  lemma LegsTelescope(a: Sample, b: Sample)
    requires Legs(RowOf(a), RowOf(b)).Some? && a.envelope.sendNs == b.envelope.sendNs
    ensures exists q, p ::
      && TravelIs(Legs(RowOf(a), RowOf(b)).value, b, q) && EndToEndIs(Legs(RowOf(a), RowOf(b)).value, b, p)
      && (AfterEpoch(a) && AfterEpoch(b) ==> q == 0 && p == 0)
  {
    var e, v := a.envelope, b.envelope;
    var up, at := Turns(e.sendNs, e.recvNs), Turns(e.recvNs, e.processDoneNs);
    var last, all := Turns(v.recvNs, v.processDoneNs), Turns(v.captureNs, v.processDoneNs);
    var own := Turns(v.captureNs, v.sendNs);
    var f := Legs(RowOf(a), RowOf(b)).value;
    assert Delay(Sender, b) == Some(SubI64(v.sendNs, v.captureNs));
    assert TravelIs(f, b, up + at + last);
    assert EndToEndIs(f, b, all - own - up - at - last);
  }

  ghost predicate AfterEpoch(s: Sample) {
    var e := s.envelope;
    e.captureNs >= 0 && e.sendNs >= 0 && e.recvNs >= 0 && e.processDoneNs >= 0
  }

  function Travel(f: JoinedFrame): int { f.uplink + f.relay + f.downlink + f.receiver }

  ghost predicate TravelIs(f: JoinedFrame, b: Sample, turns: int) {
    Travel(f) == b.envelope.processDoneNs - b.envelope.sendNs + turns * TWO_64
  }

  ghost predicate EndToEndIs(f: JoinedFrame, b: Sample, turns: int) {
    Delay(Sender, b).Some? && f.e2e == Delay(Sender, b).value + Travel(f) + turns * TWO_64
  }
}
