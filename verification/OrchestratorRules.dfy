/** The rules of the control plane in the terms of its documentation: what an
    action, a supervise pass, a creation and a restart do to a run, state by
    state and number by number. */
module OrchestratorRules {
  import opened Base
  import opened RunStates
  import opened Orchestrator

  // ----- The states -----

  /** Where event `e` takes a run in state `s`, if it is legal there. */
  ghost predicate LeadsTo(s: RunState, e: RunEvent, t: RunState) {
    match e
    case Start => s == Draft && t == Starting
    case Stop =>
      || ((s == Starting || s == Running || s == Degraded) && t == Stopping)
      || (s == Stopping && t == Stopped)
    case Remove => (s == Draft || s == Stopped || s == Failed) && t == Removed
    case QuorumMet => s == Starting && t == Running
    case ParticipantLost => (s == Running || s == Degraded) && t == Degraded
    case ParticipantRecovered => s == Degraded && t == Running
    case AllOffline =>
      || ((s == Starting || s == Running || s == Degraded) && t == Failed)
      || (s == Stopping && t == Stopped)
    case ReportsComplete => s == Stopping && t == Stopped
    case StartTimeout => s == Starting && t == Failed
    case StopTimeout => s == Stopping && t == Stopped
  }

  /** The table is that relation; what holds a slot is what can be stopped. */
  lemma TableMeans(s: RunState, e: RunEvent)
    ensures forall t :: Advance(s, e) == Ok(t) <==> LeadsTo(s, e, t)
    ensures Advance(s, e).Err? ==> Advance(s, e).error == TransitionError(s, e)
    ensures OccupiesSlot(s) <==> exists t :: LeadsTo(s, Stop, t)
    ensures Terminal(s) <==> !OccupiesSlot(s) && s != Draft
  {
    if OccupiesSlot(s) {
      assert LeadsTo(s, Stop, if s == Stopping then Stopped else Stopping);
    }
  }

  /** How far along: past starting, past stopping. */
  lemma ProgressMeans(s: RunState)
    ensures Progress(Starting) < Progress(s) <==> s != Draft && s != Starting
    ensures Progress(Stopping) <= Progress(s) <==> s == Stopping || Terminal(s)
    ensures Progress(Stopping) < Progress(s) <==> Terminal(s)
  {
  }

  // ----- Creation -----

  /** A created run is a draft in the zone asked for, the default one if none,
      for the profile asked for; it is on disk and in the journal. */
  lemma CreateMakes(w: World, cfg: Settings, id: RunId, r: Request)
    requires id !in w.runs
    ensures var out := CreateStep(w, cfg, id, r);
      if out.refusal.Some? then out.world == w
      else
        && id in out.world.runs
        && var run := out.world.runs[id];
           && run.zone == (if r.zone == "" then "default" else r.zone)
           && run.profile == (if r.profile == "" then "robotics" else r.profile)
           && run.state == Draft && !run.removed && run.reports == {}
           && out.world == w.(runs := w.runs[id := run], manifest := w.manifest[id := run],
                              journal := w.journal[id := Draft])
  {
  }

  /** Each refusal, with its cause; the first that applies is the one given. */
  lemma CreateRefuses(cfg: Settings, r: Request)
    ensures var why := CreateRefusal(cfg, r);
      var declared := cfg.topology == [] || exists n :: n in cfg.topology && n.zone == r.zone;
      var known := r.profile == "" || r.profile == "robotics" || r.profile == "media";
      && (why == Some(UnknownZone) <==> !declared)
      && (why == Some(UnknownProfile) <==> declared && !known)
      && (why == Some(UnknownUe) <==>
            declared && known && r.policyUe.Some? && forall n :: n in cfg.topology ==> n.id != r.policyUe.value)
      && (forall n :: declared && known && r.policyUe.Some? && NodeNamed(cfg.topology, r.policyUe.value, n) ==>
            UeVerdict(n, if r.zone == "" then "default" else r.zone, why))
  {
    ZonesDeclared(cfg, r.zone);
    if r.policyUe.Some? {
      FindNone(cfg.topology, r.policyUe.value);
      FindIsFirst(cfg.topology, r.policyUe.value);
    }
  }

  /** What is said of the node a policy names as its UE. */
  ghost predicate UeVerdict(n: DeclaredNode, zone: string, why: Option<Refusal>) {
    && (why == Some(UeNotClient) <==> n.role != "client")
    && (why == Some(UeElsewhere) <==> n.role == "client" && n.zone != zone)
    && (why == Some(UeWithoutId) <==> n.role == "client" && n.zone == zone && n.e2UeId.None?)
    && (why.None? <==> n.role == "client" && n.zone == zone && n.e2UeId.Some?)
  }

  lemma ZonesDeclared(cfg: Settings, zone: string)
    ensures ZoneDeclared(cfg, zone) <==> cfg.topology == [] || exists n :: n in cfg.topology && n.zone == zone
  {
    if n :| n in cfg.topology && n.zone == zone {
      var i :| 0 <= i < |cfg.topology| && cfg.topology[i] == n;
      assert cfg.topology[i].zone == zone;
    }
  }

  lemma {:induction false} FindNone(topology: seq<DeclaredNode>, id: string)
    ensures Find(topology, id).None? <==> forall n :: n in topology ==> n.id != id
  {
    if topology != [] {
      FindNone(topology[1..], id);
      assert forall n :: n in topology <==> n == topology[0] || n in topology[1..];
    }
  }

  // ----- Actions -----

  /** The zone is taken by another run. */
  ghost predicate ZoneTaken(w: World, id: RunId) {
    exists other :: other in w.runs && other != id && id in w.runs && w.runs[other].zone == w.runs[id].zone
      && (w.runs[other].state == Starting || w.runs[other].state == Running
          || w.runs[other].state == Degraded || w.runs[other].state == Stopping)
  }

  lemma BlockedMeans(w: World, id: RunId)
    requires id in w.runs
    ensures Blocked(w, id, w.runs[id].zone) <==> ZoneTaken(w, id)
  {
    if other :| other != id && HoldsSlot(w, other, w.runs[id].zone) {
      assert w.runs[other].zone == w.runs[id].zone;
    }
    if ZoneTaken(w, id) {
      var other :| other in w.runs && other != id && w.runs[other].zone == w.runs[id].zone
        && (w.runs[other].state == Starting || w.runs[other].state == Running
            || w.runs[other].state == Degraded || w.runs[other].state == Stopping);
      assert HoldsSlot(w, other, w.runs[id].zone);
    }
  }

  /** Every refusal, with its exact cause. */
  lemma ActRefuses(w: World, cfg: Settings, id: RunId, a: Action, now: real, freeGb: Option<real>)
    ensures var why := ActStep(w, cfg, id, a, now, freeGb).refusal;
      var there := id in w.runs && !w.runs[id].removed;
      var taken := a == StartRun && ZoneTaken(w, id);
      var legal := id in w.runs && exists t :: LeadsTo(w.runs[id].state, EventFor(a), t);
      var low := cfg.minFreeGbStart != 0.0 && freeGb.Some? && freeGb.value < cfg.minFreeGbStart;
      && (why == Some(NoRun) <==> !there)
      && (why == Some(ZoneBusy) <==> there && taken)
      && (why.Some? && why.value.IllegalTransition? <==> there && !taken && !legal)
      && (why == Some(LowDisk) <==> there && !taken && legal && a == StartRun && low)
      && (why.None? <==> there && !taken && legal && !(a == StartRun && low))
  {
    if id in w.runs {
      BlockedMeans(w, id);
      TableMeans(w.runs[id].state, EventFor(a));
      var moved := Advance(w.runs[id].state, EventFor(a));
      assert moved.Ok? ==> LeadsTo(w.runs[id].state, EventFor(a), moved.value);
    }
  }

  function EventFor(a: Action): RunEvent {
    if a == StartRun then Start else if a == StopRun then Stop else Remove
  }

  /** What an accepted action leaves: a start the start clock, a stop the stop
      clock unless it runs already, a removal both files; the run in its next
      state, and everything else as it was. */
  lemma ActDoes(w: World, cfg: Settings, id: RunId, a: Action, now: real, freeGb: Option<real>)
    requires ActStep(w, cfg, id, a, now, freeGb).refusal.None?
    ensures var v := ActStep(w, cfg, id, a, now, freeGb).world;
      && id in w.runs && id in v.runs
      && LeadsTo(w.runs[id].state, EventFor(a), v.runs[id].state)
      && v.runs[id] == w.runs[id].(state := v.runs[id].state, removed := a == RemoveRun)
      && v.runs == w.runs[id := v.runs[id]]
      && v.startingSince == (if a == StartRun then w.startingSince[id := now] else w.startingSince)
      && v.stoppingSince == (if a == StopRun && id !in w.stoppingSince then w.stoppingSince[id := now]
                             else w.stoppingSince)
      && v.manifest == (if a == RemoveRun then w.manifest[id := v.runs[id]] else w.manifest)
      && v.journal == (if a == RemoveRun then w.journal[id := Removed] else w.journal)
  {
    TableMeans(w.runs[id].state, EventFor(a));
  }

  /** A start refused for disk space moves the state and nothing else. */
  lemma LowDiskDoes(w: World, cfg: Settings, id: RunId, now: real, freeGb: Option<real>)
    requires ActStep(w, cfg, id, StartRun, now, freeGb).refusal == Some(LowDisk)
    ensures id in w.runs
    ensures ActStep(w, cfg, id, StartRun, now, freeGb).world
         == w.(runs := w.runs[id := w.runs[id].(state := Starting)])
  {
  }

  // ----- A supervise pass -----

  /** The roles some node of the run is online and running in. */
  function RolesRunning(nodes: seq<Node>): set<string> {
    set i | 0 <= i < |nodes| && nodes[i].online && nodes[i].running :: nodes[i].role
  }

  lemma QuorumMeans(cfg: Settings, profile: string, nodes: seq<Node>)
    ensures HasQuorum(cfg, profile, nodes) <==> RolesFor(cfg, profile) <= RolesRunning(nodes)
    ensures RolesFor(cfg, profile) == if profile in cfg.requiredRoles then cfg.requiredRoles[profile] else {}
  {
  }

  lemma OnlineMeans(nodes: seq<Node>)
    ensures AnyOnline(nodes) <==> exists n :: n in nodes && n.online
  {
    if n :| n in nodes && n.online {
      var i :| 0 <= i < |nodes| && nodes[i] == n;
      assert nodes[i].online;
    }
  }

  /** A watchdog's limits; one that is 0 is off. */
  ghost predicate OverLimit(cfg: Settings, elapsedS: Option<real>, freeGb: Option<real>) {
    || (cfg.maxRunDurationS != 0.0 && elapsedS.Some? && elapsedS.value > cfg.maxRunDurationS)
    || (cfg.minFreeGbAbort != 0.0 && freeGb.Some? && freeGb.value < cfg.minFreeGbAbort)
  }

  /** Where a pass leaves a run, by what it sees. */
  ghost predicate PassLeads(cfg: Settings, run: Run, nodes: seq<Node>, now: real, startedAt: Option<real>,
                            stopAt: Option<real>, over: bool, t: RunState)
  {
    var online := exists n :: n in nodes && n.online;
    var quorum := RolesFor(cfg, run.profile) <= RolesRunning(nodes);
    var late := startedAt.Some? && now - startedAt.value > cfg.startTimeoutS;
    var overdue := stopAt.Some? && now - stopAt.value > cfg.stopTimeoutS;
    var complete := forall n :: n in nodes ==> n.id in run.reports;
    match run.state
    case Starting =>
      if quorum && online then t == Running
      else if quorum || late || (nodes != [] && !online) then t == Failed
      else t == Starting
    case Running => t == (if over then Stopping else if !online then Failed else if quorum then Running else Degraded)
    case Degraded => t == (if over then Stopping else if !online then Failed else if quorum then Running else Degraded)
    case Stopping => t == (if !online || overdue || complete then Stopped else Stopping)
    case _ => t == run.state
  }

  /** The judgement alone, watchdogs apart. A stop clock that is missing starts
      now and is not overdue, the timeout being no negative number. */
  lemma JudgedMeans(w: World, cfg: Settings, id: RunId, nodes: seq<Node>, now: real)
    requires id in w.runs && cfg.stopTimeoutS >= 0.0
    ensures PassLeads(cfg, w.runs[id], nodes, now, Lookup(w.startingSince, id), Lookup(w.stoppingSince, id), false,
      Judged(w, cfg, id, nodes, now))
    ensures Lookup(w.startingSince, id) == if id in w.startingSince then Some(w.startingSince[id]) else None
  {
    QuorumMeans(cfg, w.runs[id].profile, nodes);
    OnlineMeans(nodes);
    ReportedMeans(w.runs[id], nodes);
  }

  lemma ReportedMeans(run: Run, nodes: seq<Node>)
    ensures AllReported(run, nodes) <==> forall n :: n in nodes ==> n.id in run.reports
  {
    if AllReported(run, nodes) {
      forall n | n in nodes ensures n.id in run.reports {
        var i :| 0 <= i < |nodes| && nodes[i] == n;
      }
    }
  }

  /** A whole pass, watchdogs first: the run in the state its rules give and
      otherwise as it was, and so every other run. */
  lemma PassDoes(w: World, cfg: Settings, id: RunId, nodes: seq<Node>, now: real,
                 elapsedS: Option<real>, freeGb: Option<real>)
    requires id in w.runs && Inv(w) && cfg.stopTimeoutS >= 0.0
    ensures var v := SuperviseStep(w, cfg, id, nodes, now, elapsedS, freeGb);
      && id in v.runs && v.runs == w.runs[id := w.runs[id].(state := v.runs[id].state)]
      && PassLeads(cfg, w.runs[id], nodes, now, Lookup(w.startingSince, id), Lookup(w.stoppingSince, id),
           OverLimit(cfg, elapsedS, freeGb), v.runs[id].state)
  {
    if MustStop(cfg, w.runs[id].state, elapsedS, freeGb) {
      WatchdogStops(w, cfg, id, now, freeGb);
    } else {
      JudgedMeans(w, cfg, id, nodes, now);
    }
  }

  lemma WatchdogStops(w: World, cfg: Settings, id: RunId, now: real, freeGb: Option<real>)
    requires id in w.runs && Inv(w) && (w.runs[id].state == Running || w.runs[id].state == Degraded)
    ensures ActStep(w, cfg, id, StopRun, now, freeGb).world.runs == w.runs[id := w.runs[id].(state := Stopping)]
  {
  }

  /** What a pass saves, and what it does to the clocks: the start clock goes
      with a quorum or with its timeout; the stop clock is kept while the run is
      stopping, started if it was missing and somebody is online. */
  lemma PassKeepsBooks(w: World, cfg: Settings, id: RunId, nodes: seq<Node>, now: real)
    requires id in w.runs
    ensures var v := PassWorld(w, cfg, id, nodes, now);
      var moved := v.runs[id].state != w.runs[id].state;
      var joined := RolesFor(cfg, w.runs[id].profile) <= RolesRunning(nodes);
      var late := id in w.startingSince && now - w.startingSince[id] > cfg.startTimeoutS;
      && v.manifest == (if moved then w.manifest[id := v.runs[id]] else w.manifest)
      && v.journal == (if moved then w.journal[id := v.runs[id].state] else w.journal)
      && v.startingSince == (if w.runs[id].state == Starting && (joined || late) then w.startingSince - {id}
                             else w.startingSince)
      && (v.runs[id].state == Stopping ==>
            v.stoppingSince == if id in w.stoppingSince then w.stoppingSince else w.stoppingSince[id := now])
      && (v.runs[id].state != Stopping ==> v.stoppingSince == w.stoppingSince - {id})
  {
    QuorumMeans(cfg, w.runs[id].profile, nodes);
    JudgeMoves(w, cfg, id, nodes, now);
  }

  // ----- Files -----

  /** The events that only write: the rest of an action, a report, a save. */
  lemma FileEventsDo(w: World, cfg: Settings, id: RunId, node: string)
    requires id in w.runs
    ensures Step(w, cfg, FinishAct(id))
         == w.(manifest := w.manifest[id := w.runs[id]], journal := w.journal[id := w.runs[id].state])
    ensures Step(w, cfg, Save(id)) == w.(manifest := w.manifest[id := w.runs[id]])
    ensures var run := w.runs[id].(reports := w.runs[id].reports + {node});
      Step(w, cfg, Report(id, node)) == w.(runs := w.runs[id := run], manifest := w.manifest[id := run])
  {
  }

  /** A new process takes the journal's word for a run's state, the manifest's
      if there is none, and fails a run that was under way, on disk too; it has
      no clocks. */
  lemma RestartDoes(w: World, id: RunId)
    requires id in w.manifest
    ensures var v := RestartStep(w);
      var said := if id in w.journal then w.journal[id] else w.manifest[id].state;
      var underWay := said == Starting || said == Running || said == Degraded || said == Stopping;
      && v.runs.Keys == w.manifest.Keys && v.journal == w.journal
      && v.startingSince == map[] && v.stoppingSince == map[]
      && v.runs[id] == w.manifest[id].(state := if underWay then Failed else said)
      && v.manifest[id] == (if underWay then v.runs[id] else w.manifest[id])
  {
  }
}
