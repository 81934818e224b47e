/** The writer's side of the recorder (telemetry/src/recorder.rs): what one
    drained sample does to the CSV, the four delay statistics and the negative
    counter, and what one snapshot reports. */
module Recorder {
  import opened Base
  import opened Envelope
  import opened Sorting
  import opened DelayStatistics

  datatype SampleKind = FrameSample | PacketSample | EventSample

  datatype Sample = Sample(envelope: TimingEnvelope, kind: SampleKind, site: byte, payloadBytes: u32, auxNs: i64)

  datatype Metric = Network | EndToEnd | Processing | Sender

  /** `b - a`, unless either stamp is still zero. */
  function Derived(a: i64, b: i64): Option<i64> {
    if a != 0 && b != 0 then Some(SubI64(b, a)) else None
  }

  function Delay(m: Metric, s: Sample): Option<i64> {
    var e := s.envelope;
    match m
    case Network => Derived(e.sendNs, e.recvNs)
    case EndToEnd => Derived(e.captureNs, e.processDoneNs)
    case Processing => Derived(e.recvNs, e.processDoneNs)
    case Sender => Derived(e.captureNs, e.sendNs)
  }

  /** What each delay measures: the way from the sender, the way from the
      camera, the handling on arrival, and the sender's own; defined exactly when
      both ends were stamped, and their true distance whenever that fits. */
  lemma DelaysMean(s: Sample)
    ensures var e := s.envelope;
      && DelayIs(Delay(Network, s), e.sendNs, e.recvNs)
      && DelayIs(Delay(EndToEnd, s), e.captureNs, e.processDoneNs)
      && DelayIs(Delay(Processing, s), e.recvNs, e.processDoneNs)
      && DelayIs(Delay(Sender, s), e.captureNs, e.sendNs)
  {
  }

  ghost predicate DelayIs(d: Option<i64>, from: i64, to: i64) {
    && (d.Some? <==> from != 0 && to != 0)
    && (d.Some? && I64_MIN <= to - from <= I64_MAX ==> d.value == to - from)
  }

  /** A fully stamped frame's end-to-end delay is what the sender, the network
      and the receiver spent, stamps after 1970. */
  lemma DelaysAddUp(s: Sample)
    requires var e := s.envelope;
      e.captureNs > 0 && e.sendNs > 0 && e.recvNs > 0 && e.processDoneNs > 0
    ensures Delay(EndToEnd, s).value
         == Delay(Sender, s).value + Delay(Network, s).value + Delay(Processing, s).value
  {
  }

  /** Every defined delay of metric `m`, in the order written. */
  function Defined(m: Metric, written: seq<Sample>): seq<int> {
    if written == [] then []
    else
      var d := Delay(m, written[|written| - 1]);
      Defined(m, written[..|written| - 1]) + (if d.Some? then [d.value] else [])
  }

  function NonNegative(values: seq<int>): seq<int> {
    if values == [] then []
    else
      var v := values[|values| - 1];
      NonNegative(values[..|values| - 1]) + (if 0 <= v then [v] else [])
  }

  /** What a metric's statistics must have seen. */
  function Kept(m: Metric, written: seq<Sample>): seq<int> {
    NonNegative(Defined(m, written))
  }

  /** Defined delays of metric `m` that the statistics left out. */
  function LeftOut(m: Metric, written: seq<Sample>): int {
    |Defined(m, written)| - |Kept(m, written)|
  }

  function LeftOutInAll(written: seq<Sample>): int {
    LeftOut(Network, written) + LeftOut(EndToEnd, written) + LeftOut(Processing, written) + LeftOut(Sender, written)
  }

  predicate Recordable(d: Option<i64>) { d.Some? && 0 <= d.value }

  function Appended(d: Option<i64>): seq<int> { if Recordable(d) then [d.value] else [] }

  function NegativeOf(d: Option<i64>): nat { if d.Some? && d.value < 0 then 1 else 0 }

  lemma KeptStep(m: Metric, written: seq<Sample>, s: Sample)
    ensures var d := Delay(m, s);
      && Kept(m, written + [s]) == Kept(m, written) + Appended(d)
      && LeftOut(m, written + [s]) == LeftOut(m, written) + NegativeOf(d)
  {
    var d := Delay(m, s);
    assert (written + [s])[..|written|] == written;
    if d.Some? {
      var defined := Defined(m, written);
      assert (defined + [d.value])[..|defined|] == defined;
    } else {
      assert Defined(m, written + [s]) == Defined(m, written);
    }
  }

  function HasNegative(m: Metric): Sample -> bool {
    (s: Sample) => Delay(m, s).Some? && Delay(m, s).value < 0
  }

  function HasDelay(m: Metric): Sample -> bool {
    (s: Sample) => Delay(m, s).Some? && Delay(m, s).value >= 0
  }

  /** Kept is one value for each sample whose delay is not negative, zero
      included; left out is one for each whose delay is. */
  lemma {:induction false} KeptMeans(m: Metric, written: seq<Sample>)
    ensures LeftOut(m, written) == CountIf(HasNegative(m), written)
    ensures |Kept(m, written)| == CountIf(HasDelay(m), written)
    ensures forall v :: v in Kept(m, written) <==> exists s :: s in written && HasDelay(m)(s) && Delay(m, s).value == v
  {
    if written != [] {
      var most, last := written[..|written| - 1], written[|written| - 1];
      assert written == most + [last];
      KeptMeans(m, most);
      KeptStep(m, most, last);
      assert forall s :: s in written <==> s in most || s == last;
    }
  }

  /** What the statistics have seen, the negative counter, and the first and
      last sequence number. */
  datatype Tally = Tally(network: seq<int>, e2e: seq<int>, processing: seq<int>, sender: seq<int>,
                         negative: int, seqFirst: Option<int>, seqLast: Option<int>)

  function SeqFirst(written: seq<Sample>): Option<int> {
    if written == [] then None else Some(written[0].envelope.seqNo)
  }

  function SeqLast(written: seq<Sample>): Option<int> {
    if written == [] then None else Some(written[|written| - 1].envelope.seqNo)
  }

  /** The tally as statements about the samples written. */
  function TallyOf(written: seq<Sample>): Tally {
    Tally(Kept(Network, written), Kept(EndToEnd, written), Kept(Processing, written), Kept(Sender, written),
      LeftOutInAll(written), SeqFirst(written), SeqLast(written))
  }

  /** A proof that wants the tally of `written` in the open says so. */
  ghost predicate OpenTally(written: seq<Sample>) { true }

  ghost predicate Tallied(written: seq<Sample>, t: Tally) {
    forall w {:trigger OpenTally(w)} :: w == written && OpenTally(w) ==> t == TallyOf(w)
  }

  function TallyNext(t: Tally, row: Row): Tally {
    var seqNo := row.sample.envelope.seqNo;
    Tally(t.network + Appended(row.network), t.e2e + Appended(row.e2e),
      t.processing + Appended(row.processing), t.sender + Appended(row.sender),
      t.negative + NegativeOf(row.network) + NegativeOf(row.e2e) + NegativeOf(row.processing) + NegativeOf(row.sender),
      if t.seqFirst.None? then Some(seqNo) else t.seqFirst, Some(seqNo))
  }

  lemma TallyStep(written: seq<Sample>, s: Sample, t: Tally)
    requires Tallied(written, t)
    ensures Tallied(written + [s], TallyNext(t, RowOf(s)))
  {
    assert OpenTally(written);
    KeptStep(Network, written, s);
    KeptStep(EndToEnd, written, s);
    KeptStep(Processing, written, s);
    KeptStep(Sender, written, s);
  }

  /** One line of samples.csv. */
  datatype Row = Row(
    sample: Sample, network: Option<i64>, e2e: Option<i64>, processing: Option<i64>, sender: Option<i64>)

  function RowOf(s: Sample): Row {
    Row(s, Delay(Network, s), Delay(EndToEnd, s), Delay(Processing, s), Delay(Sender, s))
  }

  /** A snapshot's own accounting. */
  datatype Report = Report(rows: nat, droppedTotal: nat, droppedDelta: int)

  datatype Metrics = Metrics(
    network: Option<StatsSnapshot>, e2e: Option<StatsSnapshot>,
    processing: Option<StatsSnapshot>, sender: Option<StatsSnapshot>)

  predicate AllOrdered(m: Metrics) {
    && (m.network.Some? ==> Ordered(m.network.value)) && (m.e2e.Some? ==> Ordered(m.e2e.value))
    && (m.processing.Some? ==> Ordered(m.processing.value)) && (m.sender.Some? ==> Ordered(m.sender.value))
  }

  ghost predicate Distinct(a: DelayStats, b: DelayStats, c: DelayStats, d: DelayStats) {
    && a != b && a != c && a != d && b != c && b != d && c != d
    && a.ring != b.ring && a.ring != c.ring && a.ring != d.ring
    && b.ring != c.ring && b.ring != d.ring && c.ring != d.ring
  }

  /** `stats.record(v)` when the delay is defined and non-negative. */
  method RecordDelay(stats: DelayStats, d: Option<i64>)
    requires stats.Valid()
    modifies stats, stats.ring
    ensures stats.Valid()
    ensures stats.history == old(stats.history) + Appended(d)
  {
    if Recordable(d) {
      stats.Record(d.value);
    }
  }

  method NewFour(window: nat) returns (a: DelayStats, b: DelayStats, c: DelayStats, d: DelayStats)
    ensures fresh({a, b, c, d, a.ring, b.ring, c.ring, d.ring}) && Distinct(a, b, c, d)
    ensures a.Valid() && b.Valid() && c.Valid() && d.Valid()
    ensures a.history == b.history == c.history == d.history == []
    ensures a.ring.Length == b.ring.Length == c.ring.Length == d.ring.Length == Max(window, 1)
  {
    a := new DelayStats.WithWindow(window);
    b := new DelayStats.WithWindow(window);
    c := new DelayStats.WithWindow(window);
    d := new DelayStats.WithWindow(window);
  }

  method RecordFour(a: DelayStats, b: DelayStats, c: DelayStats, d: DelayStats,
                    da: Option<i64>, db: Option<i64>, dc: Option<i64>, dd: Option<i64>)
    requires Distinct(a, b, c, d)
    requires a.Valid() && b.Valid() && c.Valid() && d.Valid()
    modifies a, b, c, d, a.ring, b.ring, c.ring, d.ring
    ensures a.Valid() && b.Valid() && c.Valid() && d.Valid()
    ensures a.history == old(a.history) + Appended(da) && b.history == old(b.history) + Appended(db)
    ensures c.history == old(c.history) + Appended(dc) && d.history == old(d.history) + Appended(dd)
  {
    RecordDelay(a, da);
    RecordDelay(b, db);
    RecordDelay(c, dc);
    RecordDelay(d, dd);
  }

  class WriterState {
    const network: DelayStats
    const e2e: DelayStats
    const processing: DelayStats
    const sender: DelayStats
    const window: nat
    var csv: seq<Row>
    var negative: nat
    var rowsWritten: nat
    var snapshotsBuilt: nat
    var droppedAtLastSnapshot: nat
    var seqFirst: Option<int>
    var seqLast: Option<int>
    /** Every sample handed to `WriteSample`, in order. */
    ghost var written: seq<Sample>

    ghost function Repr(): set<object> {
      {this, network, e2e, processing, sender, network.ring, e2e.ring, processing.ring, sender.ring}
    }

    ghost predicate Separate() {
      && Distinct(network, e2e, processing, sender)
      && 0 < window
      && network.ring.Length == e2e.ring.Length == processing.ring.Length == sender.ring.Length == window
    }

    ghost function CurrentTally(): Tally
      reads Repr()
    {
      Tally(network.history, e2e.history, processing.history, sender.history, negative, seqFirst, seqLast)
    }

    ghost predicate Valid()
      reads Repr()
    {
      && StatsValid()
      && Tallied(written, CurrentTally())
      && rowsWritten == |written|
    }

    constructor (statsWindow: nat, existing: seq<Row>)
      ensures Valid() && fresh(Repr())
      ensures written == [] && csv == existing && window == Max(statsWindow, 1)
      ensures snapshotsBuilt == 0 && droppedAtLastSnapshot == 0
    {
      var a, b, c, d := NewFour(statsWindow);
      network, e2e, processing, sender := a, b, c, d;
      window := Max(statsWindow, 1);
      csv := existing;
      negative, rowsWritten, snapshotsBuilt, droppedAtLastSnapshot := 0, 0, 0, 0;
      seqFirst, seqLast := None, None;
      written := [];
    }

    ghost predicate StatsValid()
      reads Repr()
    {
      Separate() && network.Valid() && e2e.Valid() && processing.Valid() && sender.Valid()
    }

    /** Counts the negative delays and records the others. */
    method RecordDelays(dNetwork: Option<i64>, dE2e: Option<i64>, dProcessing: Option<i64>, dSender: Option<i64>)
      requires StatsValid()
      modifies this`negative, Repr() - {this}
      ensures StatsValid()
      ensures network.history == old(network.history) + Appended(dNetwork)
      ensures e2e.history == old(e2e.history) + Appended(dE2e)
      ensures processing.history == old(processing.history) + Appended(dProcessing)
      ensures sender.history == old(sender.history) + Appended(dSender)
      ensures negative == old(negative) + NegativeOf(dNetwork) + NegativeOf(dE2e)
        + NegativeOf(dProcessing) + NegativeOf(dSender)
    {
      negative := negative + NegativeOf(dNetwork) + NegativeOf(dE2e) + NegativeOf(dProcessing) + NegativeOf(dSender);
      RecordFour(network, e2e, processing, sender, dNetwork, dE2e, dProcessing, dSender);
    }

    method WriteSample(s: Sample)
      requires Valid()
      modifies Repr()
      ensures Valid()
      ensures written == old(written) + [s] && csv == old(csv) + [RowOf(s)]
      ensures snapshotsBuilt == old(snapshotsBuilt) && droppedAtLastSnapshot == old(droppedAtLastSnapshot)
    {
      TallyStep(written, s, CurrentTally());
      WriteRow(RowOf(s));
    }

    method WriteRow(row: Row)
      requires Valid() && Tallied(written + [row.sample], TallyNext(CurrentTally(), row))
      modifies Repr()
      ensures Valid()
      ensures written == old(written) + [row.sample] && csv == old(csv) + [row]
      ensures snapshotsBuilt == old(snapshotsBuilt) && droppedAtLastSnapshot == old(droppedAtLastSnapshot)
    {
      ghost var next := TallyNext(CurrentTally(), row);
      RecordDelays(row.network, row.e2e, row.processing, row.sender);
      seqFirst := if seqFirst.None? then Some(row.sample.envelope.seqNo) else seqFirst;
      seqLast := Some(row.sample.envelope.seqNo);
      csv := csv + [row];
      rowsWritten := rowsWritten + 1;
      written := written + [row.sample];
      assert CurrentTally() == next;
    }

    /** The counters of one snapshot, given the drop counter's value. */
    method TakeReport(droppedTotal: nat) returns (r: Report)
      requires Valid() && droppedAtLastSnapshot <= droppedTotal
      modifies this`snapshotsBuilt, this`droppedAtLastSnapshot
      ensures Valid()
      ensures r == Report(|written|, droppedTotal, droppedTotal - old(droppedAtLastSnapshot))
      ensures snapshotsBuilt == old(snapshotsBuilt) + 1 && droppedAtLastSnapshot == droppedTotal
    {
      snapshotsBuilt := snapshotsBuilt + 1;
      r := Report(rowsWritten, droppedTotal, droppedTotal - droppedAtLastSnapshot);
      droppedAtLastSnapshot := droppedTotal;
    }

    /** The four metrics of one snapshot: each the one summary of what that
        metric kept. */
    method TakeMetrics() returns (m: Metrics)
      requires Valid()
      ensures Describes(m.network, Kept(Network, written), window)
      ensures Describes(m.e2e, Kept(EndToEnd, written), window)
      ensures Describes(m.processing, Kept(Processing, written), window)
      ensures Describes(m.sender, Kept(Sender, written), window)
      ensures AllOrdered(m)
    {
      assert OpenTally(written);
      var n := network.Snapshot();
      var e := e2e.Snapshot();
      var p := processing.Snapshot();
      var s := sender.Snapshot();
      m := Metrics(n, e, p, s);
    }
  }
}
