/** The run store (services/admin/src/mec_cast_admin/store.py): a manifest a
    run and a journal replayed over them at startup, and when a restart forgets
    what a manifest says. */
module RunJournal {
  import opened Base
  import opened RunStates
  import opened Orchestrator

  // ----- The journal is never ahead -----

  /** `t` is `s` or comes after it in a run's life. */
  predicate Follows(s: RunState, t: RunState) {
    Progress(s) <= Progress(t) && (Terminal(s) && Terminal(t) && Progress(s) == Progress(t) ==> s == t)
  }

  /** The journal is never ahead: a run's last journalled state is one its
      manifest has reached or passed, and so has the run in memory. */
  ghost predicate JournalBehind(w: World) {
    && w.runs.Keys == w.manifest.Keys
    && forall id :: id in w.journal ==>
         && id in w.runs
         && Follows(w.journal[id], w.manifest[id].state)
         && Follows(w.journal[id], w.runs[id].state)
  }

  /** Journalled states only move along. */
  ghost predicate JournalGrows(j: map<RunId, RunState>, k: map<RunId, RunState>) {
    forall id :: id in j ==> id in k && Follows(j[id], k[id])
  }

  lemma JudgedProgress(w: World, cfg: Settings, id: RunId, nodes: seq<Node>, now: real,
                       elapsedS: Option<real>, freeGb: Option<real>)
    requires JournalBehind(w)
    ensures JournalBehind(SuperviseStep(w, cfg, id, nodes, now, elapsedS, freeGb))
    ensures JournalGrows(w.journal, SuperviseStep(w, cfg, id, nodes, now, elapsedS, freeGb).journal)
  {
    if id in w.runs {
      if MustStop(cfg, w.runs[id].state, elapsedS, freeGb) {
        ActKeepsJournalBehind(w, cfg, id, StopRun, now, freeGb);
      } else {
        JudgeMoves(w, cfg, id, nodes, now);
      }
    }
  }

  lemma ActKeepsJournalBehind(w: World, cfg: Settings, id: RunId, a: Action, now: real, freeGb: Option<real>)
    requires JournalBehind(w)
    ensures JournalBehind(ActStep(w, cfg, id, a, now, freeGb).world)
    ensures JournalGrows(w.journal, ActStep(w, cfg, id, a, now, freeGb).world.journal)
  {
    var v := ActStep(w, cfg, id, a, now, freeGb).world;
    ActMoves(w, cfg, id, a, now, freeGb);
    if v != w {
      ActFiles(w, cfg, id, a, now, freeGb);
      AdvanceKeepsJournalBehind(w, v, id);
    }
  }

  predicate Removes(w: World, id: RunId, a: Action) {
    a == RemoveRun && id in w.runs && !w.runs[id].removed && Advance(w.runs[id].state, Remove).Ok?
  }

  ghost predicate SameFiles(w: World, v: World) {
    v.manifest == w.manifest && v.journal == w.journal
  }

  /** Only a removal writes: the moved run's manifest and its journal line. */
  lemma ActFiles(w: World, cfg: Settings, id: RunId, a: Action, now: real, freeGb: Option<real>)
    ensures var v := ActStep(w, cfg, id, a, now, freeGb).world;
      if Removes(w, id, a) then id in v.runs && FilesOf(w, v, id) else SameFiles(w, v)
  {
  }

  /** The moved run's manifest and journal line, and nothing else. */
  ghost predicate FilesOf(w: World, v: World, id: RunId)
    requires id in v.runs
  {
    v.manifest == w.manifest[id := v.runs[id]] && v.journal == w.journal[id := v.runs[id].state]
  }

  lemma AdvanceKeepsJournalBehind(w: World, v: World, id: RunId)
    requires JournalBehind(w) && Moved(w, v, id) && (SameFiles(w, v) || FilesOf(w, v, id))
    ensures JournalBehind(v) && JournalGrows(w.journal, v.journal)
  {
  }

  lemma RestartKeepsJournalBehind(w: World)
    requires JournalBehind(w)
    ensures JournalBehind(RestartStep(w))
  {
  }

  /** A journal line that never made it leaves the journal further behind. */
  lemma TornKeepsJournalBehind(w: World, v: World)
    requires JournalBehind(w) && JournalBehind(v) && JournalGrows(w.journal, v.journal)
    ensures JournalBehind(RestartStep(v.(journal := w.journal)))
  {
  }

  lemma PersistKeepsJournalBehind(w: World, id: RunId)
    requires JournalBehind(w) && id in w.runs
    ensures JournalBehind(Persist(w, id)) && JournalGrows(w.journal, Persist(w, id).journal)
  {
  }

  lemma FilesKeepJournalBehind(w: World, cfg: Settings, e: Event)
    requires JournalBehind(w) && (e.Create? || e.FinishAct? || e.Report? || e.Save?)
    ensures JournalBehind(Step(w, cfg, e))
    ensures JournalGrows(w.journal, Step(w, cfg, e).journal)
  {
    if e.FinishAct? && e.id in w.runs {
      PersistKeepsJournalBehind(w, e.id);
    }
  }

  lemma StepKeepsJournalBehind(w: World, cfg: Settings, e: Event)
    requires JournalBehind(w)
    ensures JournalBehind(Step(w, cfg, e))
    ensures JournalGrows(w.journal, Step(w, cfg, e).journal)
  {
    match e
    case Act(id, a, now, freeGb) => ActKeepsJournalBehind(w, cfg, id, a, now, freeGb);
    case Supervise(id, nodes, now, elapsedS, freeGb) => JudgedProgress(w, cfg, id, nodes, now, elapsedS, freeGb);
    case Restart => RestartKeepsJournalBehind(w);
    case DieWriting(during) =>
      StepKeepsJournalBehind(w, cfg, during);
      TornKeepsJournalBehind(w, Step(w, cfg, during));
    case _ => FilesKeepJournalBehind(w, cfg, e);
  }

  /** A replay of the journal therefore never tells a manifest anything new: no
      transition is ever recorded in the journal alone. */
  lemma {:induction false} ReplayOnlyTakesBack(cfg: Settings, es: seq<Event>)
    ensures JournalBehind(RunEvents(Stored(map[], map[]), cfg, es))
  {
    if es != [] {
      ReplayOnlyTakesBack(cfg, es[..|es| - 1]);
      StepKeepsJournalBehind(RunEvents(Stored(map[], map[]), cfg, es[..|es| - 1]), cfg, es[|es| - 1]);
    }
  }

  // ----- When a restart forgets what a manifest says -----

  /** What a new process makes of a stored state. */
  function Verdict(s: RunState): RunState {
    if OccupiesSlot(s) then Failed else s
  }

  /** The journal's word, if it has one, leads to the verdict `s` leads to. */
  predicate JournalSays(journal: map<RunId, RunState>, id: RunId, s: RunState) {
    id in journal ==> Verdict(journal[id]) == Verdict(s)
  }

  predicate FilesAgree(w: World, id: RunId) {
    id in w.manifest ==> JournalSays(w.journal, id, w.manifest[id].state)
  }

  /** A restart goes by the manifest exactly when the two files agree. */
  lemma RestartByManifest(w: World, id: RunId)
    requires id in w.manifest
    ensures RestartStep(w).runs[id].state == Verdict(w.manifest[id].state) <==> FilesAgree(w, id)
  {
  }

  /** Transitions a restart forgets when the journal `j` missed them: a draft
      that went on, a run that held its slot and then stopped or was removed,
      and an ended run that was removed. */
  predicate Forgotten(j: RunState, m: RunState) {
    || (j.Draft? && !m.Draft?)
    || (OccupiesSlot(j) && (m.Stopped? || m.Removed?))
    || ((j.Stopped? || j.Failed?) && m.Removed?)
  }

  /** With the manifest further on, those are exactly the transitions that
      change what a restart makes of the run. */
  lemma ForgottenTransitions(j: RunState, m: RunState)
    requires Follows(j, m)
    ensures Verdict(j) != Verdict(m) <==> Forgotten(j, m)
  {
  }

  /** What one event does to a run's two files: nothing, both to one verdict,
      or the manifest to another one than the journal's. */
  datatype FilesEffect = Untouched | Together | Apart

  /** The steps that write the run's manifest and then its journal line. */
  ghost predicate PersistsRun(w: World, cfg: Settings, e: Event, id: RunId) {
    match e
    case Create(run, r) => run == id && id !in w.runs && CreateRefusal(cfg, r).None?
    case Act(run, a, now, freeGb) =>
      run == id && Removes(w, id, a)
    case FinishAct(run) => run == id && id in w.runs
    case Supervise(run, nodes, now, elapsedS, freeGb) =>
      && run == id && id in w.runs && !MustStop(cfg, w.runs[id].state, elapsedS, freeGb)
      && Judged(w, cfg, id, nodes, now) != w.runs[id].state
    case _ => false
  }

  /** The steps that write the run's manifest and no journal line. */
  predicate SavesAlone(w: World, e: Event, id: RunId) {
    (e.Report? || e.Save?) && e.id == id && id in w.runs
  }

  /** What the disk holds when the process dies in `during`. */
  ghost function Torn(w: World, cfg: Settings, during: Event): World {
    Step(w, cfg, during).(journal := w.journal)
  }

  /** After a restart: a run that held a slot is failed, and its manifest says
      so again; any other keeps what its files said. */
  predicate Refailed(w: World, id: RunId) {
    id in w.manifest && FailedByRestart(w, id)
  }

  /** The events that write the run's manifest. */
  ghost predicate WritesManifest(w: World, cfg: Settings, e: Event, id: RunId) {
    match e
    case Restart => Refailed(w, id)
    case DieWriting(during) => WritesManifest(w, cfg, during, id) || Refailed(Torn(w, cfg, during), id)
    case _ => PersistsRun(w, cfg, e, id) || SavesAlone(w, e, id)
  }

  /** A report or a save parts the files only while memory is ahead of the
      journal: a start, or the second stop, still being sent, or a start refused
      for disk space. A death between the two writes parts them when the lost line would
      have changed the verdict. */
  ghost function EffectOf(w: World, cfg: Settings, e: Event, id: RunId): FilesEffect {
    match e
    case Restart => if Refailed(w, id) then Together else Untouched
    case DieWriting(during) =>
      var torn := Torn(w, cfg, during);
      if Refailed(torn, id) then Together
      else if !WritesManifest(w, cfg, during, id) then Untouched
      else if FilesAgree(torn, id) then Together
      else Apart
    case _ =>
      if PersistsRun(w, cfg, e, id) then Together
      else if !SavesAlone(w, e, id) then Untouched
      else if JournalSays(w.journal, id, w.runs[id].state) then Together
      else Apart
  }

  /** A run's files, as one event leaves them. */
  ghost predicate FilesWritten(w: World, v: World, cfg: Settings, e: Event, id: RunId) {
    if PersistsRun(w, cfg, e, id) then
      id in v.manifest && id in v.journal && v.journal[id] == v.manifest[id].state
    else if SavesAlone(w, e, id) then
      && id in v.manifest && v.manifest[id].state == w.runs[id].state && v.journal == w.journal
    else
      && (id in v.manifest <==> id in w.manifest) && (id in w.manifest ==> v.manifest[id] == w.manifest[id])
      && (id in v.journal <==> id in w.journal) && (id in w.journal ==> v.journal[id] == w.journal[id])
  }

  lemma ActWrites(w: World, cfg: Settings, e: Event, id: RunId)
    requires e.Act?
    ensures FilesWritten(w, Step(w, cfg, e), cfg, e, id)
  {
    ActFiles(w, cfg, e.id, e.action, e.now, e.freeGb);
  }

  lemma PassWrites(w: World, cfg: Settings, e: Event, id: RunId)
    requires e.Supervise?
    ensures FilesWritten(w, Step(w, cfg, e), cfg, e, id)
  {
    if e.id in w.runs && MustStop(cfg, w.runs[e.id].state, e.elapsedS, e.freeGb) {
      ActFiles(w, cfg, e.id, StopRun, e.now, e.freeGb);
    }
  }

  lemma StepWrites(w: World, cfg: Settings, e: Event, id: RunId)
    requires !EndsProcess(e)
    ensures FilesWritten(w, Step(w, cfg, e), cfg, e, id)
  {
    match e
    case Act(_, _, _, _) => ActWrites(w, cfg, e, id);
    case Supervise(_, _, _, _, _) => PassWrites(w, cfg, e, id);
    case _ =>
  }

  lemma RestartAgrees(w: World, id: RunId)
    ensures FilesAgree(RestartStep(w), id) <==> Refailed(w, id) || FilesAgree(w, id)
  {
  }

  lemma ManifestLeftAlone(w: World, cfg: Settings, e: Event, id: RunId)
    requires !WritesManifest(w, cfg, e, id)
    ensures var v := Step(w, cfg, e);
      (id in v.manifest <==> id in w.manifest) && (id in w.manifest ==> v.manifest[id] == w.manifest[id])
  {
    match e
    case Restart =>
    case DieWriting(during) => ManifestLeftAlone(w, cfg, during, id);
    case _ => StepWrites(w, cfg, e, id);
  }

  lemma TornAgrees(w: World, cfg: Settings, during: Event, id: RunId)
    requires !WritesManifest(w, cfg, during, id)
    ensures FilesAgree(Torn(w, cfg, during), id) <==> FilesAgree(w, id)
  {
    ManifestLeftAlone(w, cfg, during, id);
  }

  /** One event's effect decides whether the files agree after it. */
  lemma StepAgreesExactly(w: World, cfg: Settings, e: Event, id: RunId)
    ensures FilesAgree(Step(w, cfg, e), id) <==>
      EffectOf(w, cfg, e, id) == Together || (EffectOf(w, cfg, e, id) == Untouched && FilesAgree(w, id))
  {
    match e
    case Restart => RestartAgrees(w, id);
    case DieWriting(during) =>
      RestartAgrees(Torn(w, cfg, during), id);
      if !WritesManifest(w, cfg, during, id) {
        TornAgrees(w, cfg, during, id);
      }
    case _ => StepWrites(w, cfg, e, id);
  }

  ghost function Effects(w: World, cfg: Settings, es: seq<Event>, id: RunId): seq<FilesEffect> {
    if es == [] then []
    else
      var most := es[..|es| - 1];
      Effects(w, cfg, most, id) + [EffectOf(RunEvents(w, cfg, most), cfg, es[|es| - 1], id)]
  }

  /** The files were parted and not brought together since. */
  ghost predicate LeftApart(effects: seq<FilesEffect>) {
    exists i :: 0 <= i < |effects| && effects[i] == Apart && NoneTogether(effects, i + 1)
  }

  ghost predicate NoneTogether(effects: seq<FilesEffect>, from: nat) {
    forall j :: from <= j < |effects| ==> effects[j] != Together
  }

  lemma LeftApartStep(most: seq<FilesEffect>, last: FilesEffect)
    ensures LeftApart(most + [last]) <==> last == Apart || (last == Untouched && LeftApart(most))
  {
    var all, n := most + [last], |most|;
    assert all[n] == last && forall j :: 0 <= j < n ==> all[j] == most[j];
    if LeftApart(all) {
      var i :| 0 <= i <= n && all[i] == Apart && NoneTogether(all, i + 1);
      assert i < n ==> most[i] == Apart && NoneTogether(most, i + 1);
    }
    if last == Apart {
      assert all[n] == Apart && NoneTogether(all, n + 1);
    } else if last == Untouched && LeftApart(most) {
      var i :| 0 <= i < n && most[i] == Apart && NoneTogether(most, i + 1);
      assert all[i] == Apart && NoneTogether(all, i + 1);
    }
  }

  lemma {:induction false} RunAgreesExactly(w: World, cfg: Settings, es: seq<Event>, id: RunId)
    requires FilesAgree(w, id)
    ensures FilesAgree(RunEvents(w, cfg, es), id) <==> !LeftApart(Effects(w, cfg, es, id))
  {
    if es != [] {
      var most, last := es[..|es| - 1], es[|es| - 1];
      RunAgreesExactly(w, cfg, most, id);
      StepAgreesExactly(RunEvents(w, cfg, most), cfg, last, id);
      LeftApartStep(Effects(w, cfg, most, id), EffectOf(RunEvents(w, cfg, most), cfg, last, id));
    }
  }

  /** After any run of events, from an empty store: a restart goes by a run's
      manifest exactly when no event parted its files for good, and otherwise
      by the journal, which forgets one of three transitions. */
  lemma RestartForgetsExactly(cfg: Settings, es: seq<Event>, id: RunId)
    requires id in RunEvents(Stored(map[], map[]), cfg, es).manifest
    ensures var w := RunEvents(Stored(map[], map[]), cfg, es);
      var m, after := w.manifest[id].state, RestartStep(w).runs[id].state;
      if LeftApart(Effects(Stored(map[], map[]), cfg, es, id))
      then id in w.journal && Forgotten(w.journal[id], m) && after == Verdict(w.journal[id]) != Verdict(m)
      else after == Verdict(m)
  {
    var w := RunEvents(Stored(map[], map[]), cfg, es);
    RestartByManifest(w, id);
    RunAgreesExactly(Stored(map[], map[]), cfg, es, id);
    ReplayOnlyTakesBack(cfg, es);
    if id in w.journal {
      ForgottenTransitions(w.journal[id], w.manifest[id].state);
    }
  }

  /** A death between the two writes of a step, where the files agreed before
      it: the new process goes by the manifest that was written exactly when
      the journal has no line for the run or the write did not change the
      verdict. */
  lemma TornWriteForgetsExactly(w: World, cfg: Settings, during: Event, id: RunId)
    requires id in w.manifest && FilesAgree(w, id) && id in Step(w, cfg, during).manifest
    ensures var written := Step(w, cfg, during).manifest[id].state;
      (RestartStep(Torn(w, cfg, during)).runs[id].state == Verdict(written))
      <==> (id !in w.journal || Verdict(written) == Verdict(w.manifest[id].state))
  {
    RestartByManifest(Torn(w, cfg, during), id);
  }

  /** The torn write happens: a draft is removed, the process dies before the
      journal line, and the run comes back as the draft it was, still hidden. */
  lemma TornRemovalForgotten(w: World, cfg: Settings, id: RunId, now: real, freeGb: Option<real>)
    requires id in w.runs && w.runs[id].state.Draft? && !w.runs[id].removed
    requires id in w.journal && w.journal[id].Draft?
    ensures var e := Act(id, RemoveRun, now, freeGb);
      var v := Step(w, cfg, DieWriting(e));
      && Step(w, cfg, e).manifest[id].state == Removed && EffectOf(w, cfg, DieWriting(e), id) == Apart
      && id in v.runs && v.runs[id] == w.runs[id].(removed := true)
  {
    assert Advance(Draft, EventOf(RemoveRun)) == Ok(Removed);
  }

  /** And no torn write is needed: a report that arrives while a start is still
      being sent saves the manifest as starting, a restart then reads the
      journal, and the run is a draft again. */
  lemma ReportDuringStartForgotten(w: World, cfg: Settings, id: RunId, now: real, freeGb: Option<real>, node: string)
    requires id in w.runs && w.runs[id].state == Draft && id in w.journal && w.journal[id] == Draft
    requires ActStep(w, cfg, id, StartRun, now, freeGb).refusal.None?
    ensures var started := Step(w, cfg, Act(id, StartRun, now, freeGb));
      var v := Step(started, cfg, Report(id, node));
      && EffectOf(started, cfg, Report(id, node), id) == Apart
      && v.manifest[id].state == Starting && RestartStep(v).runs[id].state == Draft
  {
  }
}
