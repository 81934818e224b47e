/** The recorder as a whole (telemetry/src/recorder.rs): one producer, a
    bounded ring, a writer thread, a bounded snapshot channel and an uploader,
    interleaved in every order. Each step is one thread's next access to what
    the threads share: the ring, the drop counter, the stop flag, the channel. */
module Pipeline {
  import opened Base
  import opened Recorder

  const CHANNEL_CAPACITY := 64

  /** Where the writer thread is in its loop. */
  datatype Pc = Drain | LoadStop | Decide | Emit | Send(body: Report) | Check | Done

  datatype State = State(
    // configuration
    capacity: nat, uploading: bool,
    // shared
    ring: seq<Sample>, dropped: nat, stop: bool, channel: seq<Report>,
    // the writer's own
    pc: Pc, stopping: bool, written: seq<Sample>, lastDropped: nat, snapshotsDropped: nat,
    // the uploader's own
    posted: nat, failed: nat, uploaderDone: bool,
    // history, read by no step
    attempts: nat, late: nat, accepted: seq<Sample>, afterDone: seq<Sample>,
    reports: seq<Report>, sent: seq<Report>, taken: seq<Report>)

  datatype Event =
    | Push(sample: Sample)
    | SetStop
    | Writer(due: bool)
    | Upload(ok: bool)

  function Init(queueCapacity: nat, uploading: bool): State {
    State(Max(queueCapacity, 1), uploading, [], 0, false, [], Drain, false, [], 0, 0, 0, 0, false,
      0, 0, [], [], [], [], [])
  }

  /** `try_record`: a full ring drops and counts. */
  function PushStep(s: State, x: Sample): State {
    var late := s.late + (if s.stop then 1 else 0);
    if |s.ring| < s.capacity then
      s.(attempts := s.attempts + 1, late := late, ring := s.ring + [x], accepted := s.accepted + [x],
         afterDone := if s.pc.Done? then s.afterDone + [x] else s.afterDone)
    else s.(attempts := s.attempts + 1, late := late, dropped := s.dropped + 1)
  }

  function NextReport(s: State): Report {
    Report(|s.written|, s.dropped, s.dropped - s.lastDropped)
  }

  /** The writer's next step; `due` is what the clock says to `snapshot_due`. */
  function WriterStep(s: State, due: bool): State {
    match s.pc
    case Drain =>
      if s.ring != [] then s.(ring := s.ring[1..], written := s.written + [s.ring[0]])
      else s.(pc := LoadStop)
    case LoadStop => s.(stopping := s.stop, pc := Decide)
    case Decide => s.(pc := if due || (s.stopping && s.written != []) then Emit else Check)
    case Emit =>
      var r := NextReport(s);
      s.(reports := s.reports + [r], lastDropped := s.dropped, pc := if s.uploading then Send(r) else Check)
    case Send(r) =>
      if |s.channel| < CHANNEL_CAPACITY then s.(channel := s.channel + [r], sent := s.sent + [r], pc := Check)
      else s.(snapshotsDropped := s.snapshotsDropped + 1, pc := Check)
    case Check => s.(pc := if s.stopping && s.ring == [] then Done else Drain)
    case Done => s
  }

  /** The uploader takes the next body; it ends once the writer is gone and the
      channel is empty. */
  function UploadStep(s: State, ok: bool): State {
    if s.channel != [] then
      var channel, taken := s.channel[1..], s.taken + [s.channel[0]];
      if ok then s.(channel := channel, taken := taken, posted := s.posted + 1)
      else s.(channel := channel, taken := taken, failed := s.failed + 1)
    else if s.uploading && s.pc.Done? then s.(uploaderDone := true)
    else s
  }

  function Step(s: State, e: Event): State {
    match e
    case Push(x) => PushStep(s, x)
    case SetStop => s.(stop := true)
    case Writer(due) => WriterStep(s, due)
    case Upload(ok) => UploadStep(s, ok)
  }

  function Run(s: State, es: seq<Event>): State {
    if es == [] then s else Step(Run(s, es[..|es| - 1]), es[|es| - 1])
  }

  // ----- What every step keeps -----

  function SumDeltas(rs: seq<Report>): int {
    if rs == [] then 0 else SumDeltas(rs[..|rs| - 1]) + rs[|rs| - 1].droppedDelta
  }

  /** No sample is lost, reordered or counted twice. */
  ghost predicate SamplesConserved(s: State) {
    && s.accepted == s.written + s.ring
    && |s.ring| <= s.capacity
    && |s.accepted| + s.dropped == s.attempts
    && (s.pc.Done? ==> s.stopping && s.ring == s.afterDone)
    && (!s.pc.Done? ==> s.afterDone == [])
    && |s.afterDone| <= s.late
    && (s.stopping ==> s.stop)
  }

  /** Reports never go backwards, and their deltas add up to what was seen. */
  ghost predicate DropsReported(s: State) {
    && s.lastDropped <= s.dropped
    && SumDeltas(s.reports) == s.lastDropped
    && (forall i :: 0 <= i < |s.reports| ==> 0 <= s.reports[i].droppedDelta)
    && (s.reports != [] ==> s.reports[|s.reports| - 1].droppedTotal == s.lastDropped)
  }

  /** Past its last decision a stopping writer has reported everything. */
  ghost predicate LastReportComplete(s: State) {
    s.stopping && s.written != [] && (s.pc.Send? || s.pc.Check? || s.pc.Done?) ==>
      && s.reports != []
      && s.reports[|s.reports| - 1].rows == |s.written|
      && (s.late == 0 ==> s.lastDropped == s.dropped)
  }

  /** Every body built is dropped, queued, or taken, in order. */
  ghost predicate BodiesConserved(s: State) {
    && s.sent == s.taken + s.channel
    && |s.channel| <= CHANNEL_CAPACITY
    && |s.taken| == s.posted + s.failed
    && (s.uploading ==> |s.reports| == |s.sent| + s.snapshotsDropped + (if s.pc.Send? then 1 else 0))
    && (!s.uploading ==> s.sent == [] && s.snapshotsDropped == 0 && !s.pc.Send?)
    && (s.pc.Send? ==> s.reports != [] && s.pc.body == s.reports[|s.reports| - 1])
    && (s.uploaderDone ==> s.uploading && s.pc.Done? && s.channel == [])
  }

  ghost predicate Inv(s: State) {
    1 <= s.capacity && SamplesConserved(s) && DropsReported(s) && LastReportComplete(s) && BodiesConserved(s)
  }

  lemma PushConserves(s: State, x: Sample)
    requires SamplesConserved(s)
    ensures SamplesConserved(PushStep(s, x))
  {
    assert s.accepted + [x] == s.written + (s.ring + [x]);
  }

  /** A push touches neither reports nor bodies. */
  lemma PushReports(s: State, x: Sample)
    requires DropsReported(s) && LastReportComplete(s) && SamplesConserved(s)
    ensures DropsReported(PushStep(s, x)) && LastReportComplete(PushStep(s, x))
  {
  }

  lemma PushBodies(s: State, x: Sample)
    requires BodiesConserved(s)
    ensures BodiesConserved(PushStep(s, x))
  {
  }

  lemma PushKeeps(s: State, x: Sample)
    requires Inv(s)
    ensures Inv(PushStep(s, x))
  {
    PushConserves(s, x);
    PushReports(s, x);
    PushBodies(s, x);
  }

  lemma DrainKeeps(s: State, due: bool)
    requires Inv(s) && s.pc.Drain?
    ensures Inv(WriterStep(s, due))
  {
    if s.ring != [] {
      assert s.written + s.ring == (s.written + [s.ring[0]]) + s.ring[1..];
    }
  }

  lemma EmitReports(s: State, due: bool)
    requires DropsReported(s) && s.pc.Emit?
    ensures DropsReported(WriterStep(s, due)) && LastReportComplete(WriterStep(s, due))
  {
    var rs := s.reports + [NextReport(s)];
    assert rs[..|rs| - 1] == s.reports;
  }

  lemma EmitKeeps(s: State, due: bool)
    requires Inv(s) && s.pc.Emit?
    ensures Inv(WriterStep(s, due))
  {
    EmitReports(s, due);
  }

  lemma SendKeeps(s: State, due: bool)
    requires Inv(s) && s.pc.Send?
    ensures Inv(WriterStep(s, due))
  {
    assert s.sent + [s.pc.body] == s.taken + (s.channel + [s.pc.body]);
  }

  lemma WriterKeeps(s: State, due: bool)
    requires Inv(s)
    ensures Inv(WriterStep(s, due))
  {
    match s.pc
    case Drain => DrainKeeps(s, due);
    case Emit => EmitKeeps(s, due);
    case Send(_) => SendKeeps(s, due);
    case _ =>
  }

  lemma UploadKeeps(s: State, ok: bool)
    requires Inv(s)
    ensures Inv(UploadStep(s, ok))
  {
    if s.channel != [] {
      assert s.taken + s.channel == (s.taken + [s.channel[0]]) + s.channel[1..];
    }
  }

  lemma StepKeeps(s: State, e: Event)
    requires Inv(s)
    ensures Inv(Step(s, e))
  {
    match e
    case Push(x) => PushKeeps(s, x);
    case SetStop =>
    case Writer(due) => WriterKeeps(s, due);
    case Upload(ok) => UploadKeeps(s, ok);
  }

  /** The invariant holds after every interleaving, from the empty recorder. */
  lemma EveryInterleaving(queueCapacity: nat, uploading: bool, es: seq<Event>)
    ensures Inv(Run(Init(queueCapacity, uploading), es))
  {
    RunKeeps(Init(queueCapacity, uploading), es);
  }

  /** Some interleaving leads to `s`. */
  ghost predicate Reachable(s: State) {
    exists queueCapacity: nat, uploading, es :: s == Run(Init(queueCapacity, uploading), es)
  }

  lemma ReachableInv(s: State)
    requires Reachable(s)
    ensures Inv(s)
  {
    var queueCapacity: nat, uploading, es :| s == Run(Init(queueCapacity, uploading), es);
    EveryInterleaving(queueCapacity, uploading, es);
  }

  lemma ReachStep(s: State, e: Event)
    requires Reachable(s)
    ensures Reachable(Step(s, e))
  {
    var queueCapacity: nat, uploading, es :| s == Run(Init(queueCapacity, uploading), es);
    assert (es + [e])[..|es|] == es;
    assert Step(s, e) == Run(Init(queueCapacity, uploading), es + [e]);
  }

  lemma ReachPush(s: State, x: Sample)
    requires Reachable(s)
    ensures Reachable(PushStep(s, x))
  {
    ReachStep(s, Push(x));
  }

  lemma ReachStop(s: State)
    requires Reachable(s)
    ensures Reachable(s.(stop := true))
  {
    ReachStep(s, SetStop);
  }

  lemma ReachWriter(s: State, due: bool)
    requires Reachable(s)
    ensures Reachable(WriterStep(s, due))
  {
    ReachStep(s, Writer(due));
  }

  lemma ReachUpload(s: State, ok: bool)
    requires Reachable(s)
    ensures Reachable(UploadStep(s, ok))
  {
    ReachStep(s, Upload(ok));
  }

  lemma ReachInit(queueCapacity: nat, uploading: bool)
    ensures Reachable(Init(queueCapacity, uploading))
  {
    assert Init(queueCapacity, uploading) == Run(Init(queueCapacity, uploading), []);
  }

  // ----- Shutdown -----

  datatype RecorderReport = RecorderReport(
    samplesWritten: nat, samplesDropped: nat, snapshotsBuilt: nat,
    snapshotsPosted: nat, snapshotsDropped: nat, postFailures: nat)

  /** Both threads have been joined. */
  ghost predicate Joined(s: State) {
    s.pc.Done? && (s.uploading ==> s.uploaderDone)
  }

  function FinalReport(s: State): RecorderReport {
    RecorderReport(|s.written|, s.dropped, |s.reports|, s.posted, s.snapshotsDropped, s.failed)
  }

  /** `written + dropped == produced` holds exactly when no push was accepted
      after the writer's last look at the ring, and always when the producer
      was quiet before the stop; what is missing is precisely those samples. */
  lemma ShutdownAccountsForSamples(s: State)
    requires Inv(s) && Joined(s)
    ensures var r := FinalReport(s);
      && r.samplesWritten + r.samplesDropped + |s.afterDone| == s.attempts
      && (r.samplesWritten + r.samplesDropped == s.attempts <==> s.afterDone == [])
      && (s.late == 0 ==> s.written == s.accepted && r.samplesWritten + r.samplesDropped == s.attempts)
  {
    assert s.late == 0 ==> s.written + s.ring == s.written;
  }

  /** Four steps of the writer. */
  function FourSteps(s: State): State {
    WriterStep(WriterStep(WriterStep(WriterStep(s, false), false), false), false)
  }

  lemma ReachFourSteps(s: State)
    requires Reachable(s)
    ensures Reachable(FourSteps(s))
  {
    var s1 := WriterStep(s, false);
    var s2 := WriterStep(s1, false);
    ReachWriter(s, false);
    ReachWriter(s1, false);
    ReachWriter(s2, false);
    ReachWriter(WriterStep(s2, false), false);
  }

  /** And samples do go missing: stop is set, the writer finds an empty ring and
      ends, and a sample pushed then is accepted, and neither written nor
      dropped. */
  lemma LateSampleIsLost(x: Sample)
    ensures var s := Step(FourSteps(Step(Init(1, false), SetStop)), Push(x));
      && Reachable(s) && Joined(s) && s.attempts == 1 && s.accepted == s.afterDone == [x]
      && FinalReport(s).samplesWritten + FinalReport(s).samplesDropped == 0
  {
    var s0 := Init(1, false);
    var s1 := s0.(stop := true);
    ReachInit(1, false);
    ReachStop(s0);
    ReachFourSteps(s1);
    EmptyRingEnds(s1);
    ReachPush(FourSteps(s1), x);
  }

  lemma EmptyRingEnds(s: State)
    requires s.stop && s.pc.Drain? && s.ring == [] && s.written == []
    ensures FourSteps(s) == s.(stopping := true, pc := Done)
  {
    var s1 := s.(pc := LoadStop);
    var s2 := s1.(stopping := true, pc := Decide);
    assert WriterStep(s, false) == s1 && WriterStep(s1, false) == s2;
    assert WriterStep(s2, false) == s2.(pc := Check);
  }

  /** Every snapshot built was dropped, posted or failed; the ones the uploader
      took are those sent, in order; and with a quiet producer the last one
      built reports every row and every drop. */
  lemma ShutdownAccountsForSnapshots(s: State)
    requires Inv(s) && Joined(s)
    ensures var r := FinalReport(s);
      && (s.uploading ==> r.snapshotsBuilt == r.snapshotsDropped + r.snapshotsPosted + r.postFailures)
      && (!s.uploading ==> r.snapshotsDropped == r.snapshotsPosted == r.postFailures == 0)
      && s.taken == s.sent
      && (s.late == 0 && s.written != [] ==>
            && s.reports != []
            && s.reports[|s.reports| - 1].rows == r.samplesWritten
            && s.reports[|s.reports| - 1].droppedTotal == SumDeltas(s.reports) == r.samplesDropped)
  {
    assert s.uploading ==> s.taken + s.channel == s.taken;
  }

  // ----- What is counted -----

  /** How many events of `es`, run from `s`, are of a kind. */
  function Happenings(kind: (State, Event) -> bool, s: State, es: seq<Event>): nat {
    if es == [] then 0
    else
      var most := es[..|es| - 1];
      Happenings(kind, s, most) + (if kind(Run(s, most), es[|es| - 1]) then 1 else 0)
  }

  predicate Attempts(s: State, e: Event) { e.Push? }

  predicate FindsRingFull(s: State, e: Event) { e.Push? && |s.ring| == s.capacity }

  predicate PopsSample(s: State, e: Event) { e.Writer? && s.pc == Drain && s.ring != [] }

  /** A snapshot falls due by the clock, or at the stop with rows written. */
  predicate FallsDue(s: State, e: Event) {
    e.Writer? && s.pc == Decide && (e.due || (s.stopping && |s.written| > 0))
  }

  predicate FindsChannelFull(s: State, e: Event) { e.Writer? && s.pc.Send? && |s.channel| == 64 }

  predicate Posts(s: State, e: Event) { e == Upload(true) && s.channel != [] }

  predicate Fails(s: State, e: Event) { e == Upload(false) && s.channel != [] }

  /** The recorder's counters, as numbers of happenings. */
  ghost predicate Counted(s: State, s0: State, es: seq<Event>) {
    && s.attempts == Happenings(Attempts, s0, es)
    && s.dropped == Happenings(FindsRingFull, s0, es)
    && |s.written| == Happenings(PopsSample, s0, es)
    && |s.reports| + (if s.pc.Emit? then 1 else 0) == Happenings(FallsDue, s0, es)
    && s.snapshotsDropped == Happenings(FindsChannelFull, s0, es)
    && s.posted == Happenings(Posts, s0, es)
    && s.failed == Happenings(Fails, s0, es)
  }

  function One(happens: bool): nat { if happens then 1 else 0 }

  /** What one event adds to them. */
  ghost predicate CountedStep(s: State, t: State, e: Event) {
    && t.attempts == s.attempts + One(Attempts(s, e))
    && t.dropped == s.dropped + One(FindsRingFull(s, e))
    && |t.written| == |s.written| + One(PopsSample(s, e))
    && |t.reports| + One(t.pc.Emit?) == |s.reports| + One(s.pc.Emit?) + One(FallsDue(s, e))
    && t.snapshotsDropped == s.snapshotsDropped + One(FindsChannelFull(s, e))
    && t.posted == s.posted + One(Posts(s, e))
    && t.failed == s.failed + One(Fails(s, e))
  }

  lemma PushCounts(s: State, x: Sample)
    requires Inv(s)
    ensures CountedStep(s, PushStep(s, x), Push(x))
  {
  }

  lemma WriterCounts(s: State, due: bool)
    requires Inv(s)
    ensures CountedStep(s, WriterStep(s, due), Writer(due))
  {
    match s.pc
    case Drain => DrainCounts(s, due);
    case Send(_) => SendCounts(s, due);
    case _ =>
  }

  lemma DrainCounts(s: State, due: bool)
    requires Inv(s) && s.pc == Drain
    ensures CountedStep(s, WriterStep(s, due), Writer(due))
  {
  }

  lemma SendCounts(s: State, due: bool)
    requires Inv(s) && s.pc.Send?
    ensures CountedStep(s, WriterStep(s, due), Writer(due))
  {
  }

  lemma UploadCounts(s: State, ok: bool)
    requires Inv(s)
    ensures CountedStep(s, UploadStep(s, ok), Upload(ok))
  {
  }

  lemma EventCounts(s: State, e: Event)
    requires Inv(s)
    ensures CountedStep(s, Step(s, e), e)
  {
    match e
    case Push(x) => PushCounts(s, x);
    case SetStop =>
    case Writer(due) => WriterCounts(s, due);
    case Upload(ok) => UploadCounts(s, ok);
  }

  /** After every interleaving each counter is the number of times what it
      counts happened. */
  lemma {:induction false} EveryCount(queueCapacity: nat, uploading: bool, es: seq<Event>)
    ensures Counted(Run(Init(queueCapacity, uploading), es), Init(queueCapacity, uploading), es)
    ensures Run(Init(queueCapacity, uploading), es).capacity == (if queueCapacity == 0 then 1 else queueCapacity)
  {
    if es != [] {
      var s0, most := Init(queueCapacity, uploading), es[..|es| - 1];
      EveryCount(queueCapacity, uploading, most);
      EveryInterleaving(queueCapacity, uploading, most);
      EventCounts(Run(s0, most), es[|es| - 1]);
      CapacityKept(Run(s0, most), es[|es| - 1]);
    }
  }

  lemma CapacityKept(s: State, e: Event)
    ensures Step(s, e).capacity == s.capacity
  {
  }

  /** So the report of a shutdown says what happened. */
  lemma ShutdownReports(queueCapacity: nat, uploading: bool, es: seq<Event>)
    requires Joined(Run(Init(queueCapacity, uploading), es))
    ensures var s0 := Init(queueCapacity, uploading);
      var r := FinalReport(Run(s0, es));
      && r.samplesWritten == Happenings(PopsSample, s0, es)
      && r.samplesDropped == Happenings(FindsRingFull, s0, es)
      && r.snapshotsBuilt == Happenings(FallsDue, s0, es)
      && r.snapshotsPosted == Happenings(Posts, s0, es)
      && r.snapshotsDropped == Happenings(FindsChannelFull, s0, es)
      && r.postFailures == Happenings(Fails, s0, es)
  {
    EveryCount(queueCapacity, uploading, es);
  }

  // ----- Termination -----

  /** Writer steps left, at most, once stop is set and nothing more is pushed. */
  function StepsLeft(s: State): nat {
    var round := |s.ring| + 7;
    var again := if s.stopping && s.ring == [] then 0 else round;
    match s.pc
    case Drain => round
    case LoadStop => 5 + (if s.ring == [] then 0 else round)
    case Decide => 4 + again
    case Emit => 3 + again
    case Send(_) => 2 + again
    case Check => 1 + again
    case Done => 0
  }

  lemma WriterAdvances(s: State, due: bool)
    requires s.stop && !s.pc.Done?
    ensures StepsLeft(WriterStep(s, due)) < StepsLeft(s)
  {
  }

  function WriterSteps(es: seq<Event>): nat {
    if es == [] then 0 else WriterSteps(es[..|es| - 1]) + (if es[|es| - 1].Writer? then 1 else 0)
  }

  ghost predicate Quiet(es: seq<Event>) {
    forall i :: 0 <= i < |es| ==> !es[i].Push?
  }

  /** One step after the stop, of which the writer took `mine`. */
  ghost predicate Closer(s: State, t: State, mine: nat) {
    && t.stop && t.afterDone == s.afterDone
    && (s.pc.Done? ==> t.pc.Done?)
    && (!s.pc.Done? ==> StepsLeft(t) + mine <= StepsLeft(s))
  }

  lemma QuietWriter(s: State, due: bool)
    requires s.stop
    ensures Closer(s, WriterStep(s, due), 1)
  {
    if !s.pc.Done? {
      WriterAdvances(s, due);
    }
  }

  lemma QuietUpload(s: State, ok: bool)
    requires s.stop
    ensures Closer(s, UploadStep(s, ok), 0)
  {
  }

  lemma QuietStep(s: State, e: Event)
    requires s.stop && !e.Push?
    ensures Closer(s, Step(s, e), if e.Writer? then 1 else 0)
  {
    match e
    case Writer(due) => QuietWriter(s, due);
    case Upload(ok) => QuietUpload(s, ok);
    case SetStop =>
  }

  lemma {:induction false} QuietRun(s: State, es: seq<Event>)
    requires s.stop && Quiet(es)
    ensures var t := Run(s, es);
      t.stop && t.afterDone == s.afterDone && (t.pc.Done? || StepsLeft(t) + WriterSteps(es) <= StepsLeft(s))
  {
    if es != [] {
      QuietRun(s, es[..|es| - 1]);
      QuietStep(Run(s, es[..|es| - 1]), es[|es| - 1]);
    }
  }

  lemma {:induction false} RunKeeps(s: State, es: seq<Event>)
    requires Inv(s)
    ensures Inv(Run(s, es))
  {
    if es != [] {
      RunKeeps(s, es[..|es| - 1]);
      StepKeeps(Run(s, es[..|es| - 1]), es[|es| - 1]);
    }
  }

  /** Once stop is set and the producer is quiet, the writer ends within a
      bounded number of its own steps, whatever the other threads do between
      them, with nothing left in the ring. */
  lemma WriterTerminates(s: State, es: seq<Event>)
    requires Inv(s) && s.stop && !s.pc.Done?
    requires Quiet(es) && StepsLeft(s) <= WriterSteps(es)
    ensures Run(s, es).pc.Done? && Run(s, es).ring == []
  {
    QuietRun(s, es);
    RunKeeps(s, es);
    EndedQuietly(Run(s, es));
  }

  lemma EndedQuietly(s: State)
    requires Inv(s) && s.afterDone == [] && (s.pc.Done? || StepsLeft(s) == 0)
    ensures s.pc.Done? && s.ring == []
  {
  }

  function UploadSteps(es: seq<Event>): nat {
    if es == [] then 0 else UploadSteps(es[..|es| - 1]) + (if es[|es| - 1].Upload? then 1 else 0)
  }

  /** Once the writer is gone the uploader empties the channel and ends. */
  lemma {:induction false} UploaderTerminates(s: State, es: seq<Event>)
    requires s.uploading && s.pc.Done?
    ensures var t := Run(s, es);
      t.uploading && t.pc.Done? && (t.uploaderDone || |t.channel| + UploadSteps(es) <= |s.channel|)
  {
    if es != [] {
      UploaderTerminates(s, es[..|es| - 1]);
    }
  }
}
