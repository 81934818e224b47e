/** The orchestrator object itself: its dictionaries, updated in place by the
    code between two awaits, move exactly as the steps of module Orchestrator
    say. */
module OrchestratorProcess {
  import opened Base
  import opened RunStates
  import opened Orchestrator

  /** `start`: every stored run with the journal's word for its state, those
      that would hold a slot failed and saved again. */
  method FailMidFlight(manifest: map<RunId, Run>, journal: map<RunId, RunState>)
    returns (runs: map<RunId, Run>, saved: map<RunId, Run>)
    ensures runs == RestartStep(Stored(manifest, journal)).runs
    ensures saved == RestartStep(Stored(manifest, journal)).manifest
  {
    var todo := manifest.Keys;
    runs, saved := map[], manifest;
    ghost var w := Stored(manifest, journal);
    while todo != {}
      invariant todo <= manifest.Keys
      invariant runs.Keys == manifest.Keys - todo && saved.Keys == manifest.Keys
      invariant forall id :: id in runs ==> runs[id] == Reloaded(w, id)
      invariant forall id :: id in manifest ==>
        saved[id] == if id in runs && FailedByRestart(w, id) then runs[id] else manifest[id]
    {
      var id :| id in todo;
      var run := manifest[id].(state := if id in journal then journal[id] else manifest[id].state);
      if OccupiesSlot(run.state) {
        run := run.(state := Failed);
        saved := saved[id := run];
      }
      runs := runs[id := run];
      todo := todo - {id};
    }
  }

  class OrchestratorService {
    const cfg: Settings
    var runs: map<RunId, Run>
    var startingSince: map<RunId, real>
    var stoppingSince: map<RunId, real>
    /** The run store: one manifest a run, and the journal's last word. */
    var manifest: map<RunId, Run>
    var journal: map<RunId, RunState>

    ghost function Current(): World
      reads this
    {
      World(runs, startingSince, stoppingSince, manifest, journal)
    }

    ghost predicate Valid()
      reads this
    {
      Inv(Current())
    }

    /** `start` in a new process: load every manifest, fail what was mid-flight. */
    constructor (cfg: Settings, manifest: map<RunId, Run>, journal: map<RunId, RunState>)
      ensures Valid() && this.cfg == cfg
      ensures Current() == RestartStep(Stored(manifest, journal))
    {
      var loaded, saved := FailMidFlight(manifest, journal);
      this.cfg, this.journal := cfg, journal;
      startingSince, stoppingSince := map[], map[];
      runs, this.manifest := loaded, saved;
      RestartKeeps(Stored(manifest, journal));
    }

    /** `active_run_in`: some run holding the zone, if any does. */
    method ActiveRunIn(zone: string) returns (active: Option<RunId>)
      ensures active.Some? ==> HoldsSlot(Current(), active.value, zone)
      ensures active.None? ==> forall id :: !HoldsSlot(Current(), id, zone)
    {
      var todo := runs.Keys;
      while todo != {}
        invariant todo <= runs.Keys
        invariant forall id :: id in runs.Keys - todo ==> !HoldsSlot(Current(), id, zone)
      {
        var id :| id in todo;
        if OccupiesSlot(runs[id].state) && runs[id].zone == zone {
          return Some(id);
        }
        todo := todo - {id};
      }
      return None;
    }

    method CreateRun(id: RunId, request: Request) returns (refusal: Option<Refusal>)
      requires Valid() && id !in runs
      modifies this
      ensures Valid()
      ensures Outcome(Current(), refusal) == CreateStep(old(Current()), cfg, id, request)
    {
      refusal := CreateRefusal(cfg, request);
      if refusal.Some? {
        return;
      }
      CreateKeeps(Current(), cfg, id, request);
      runs := runs[id := Run(ZoneOr(request.zone), ProfileOr(request.profile), Draft, false, {})];
      PersistRun(id);
      return None;
    }

    /** `_persist` */
    method PersistRun(id: RunId)
      requires id in runs
      modifies this`manifest, this`journal
      ensures Current() == Persist(old(Current()), id)
    {
      manifest := manifest[id := runs[id]];
      journal := journal[id := runs[id].state];
    }

    /** `act`, up to its first await. */
    method Act(id: RunId, action: Action, now: real, freeGb: Option<real>) returns (refusal: Option<Refusal>)
      requires Valid()
      modifies this
      ensures Valid()
      ensures Outcome(Current(), refusal) == ActStep(old(Current()), cfg, id, action, now, freeGb)
    {
      ActKeeps(Current(), cfg, id, action, now, freeGb);
      if id !in runs || runs[id].removed {
        return Some(NoRun);
      }
      if action == StartRun {
        var blocking := ActiveRunIn(runs[id].zone);
        assert Blocked(Current(), id, runs[id].zone) <==> blocking.Some? && blocking.value != id;
        if blocking.Some? && blocking.value != id {
          return Some(ZoneBusy);
        }
      }
      match Advance(runs[id].state, EventOf(action)) {
        case Err(e) => return Some(IllegalTransition(e));
        case Ok(next) => runs := runs[id := runs[id].(state := next)];
      }
      match action {
        case StartRun =>
          if LowHeadroom(cfg, freeGb) {
            return Some(LowDisk);
          }
          startingSince := startingSince[id := now];
        case StopRun =>
          if id !in stoppingSince {
            stoppingSince := stoppingSince[id := now];
          }
        case RemoveRun =>
          runs := runs[id := runs[id].(removed := true)];
          PersistRun(id);
      }
      return None;
    }

    /** `_supervise_run`, up to its first await. */
    method SuperviseRun(id: RunId, nodes: seq<Node>, now: real, elapsedS: Option<real>, freeGb: Option<real>)
      requires Valid() && id in runs
      modifies this
      ensures Valid()
      ensures Current() == SuperviseStep(old(Current()), cfg, id, nodes, now, elapsedS, freeGb)
    {
      SuperviseKeeps(Current(), cfg, id, nodes, now, elapsedS, freeGb);
      if MustStop(cfg, runs[id].state, elapsedS, freeGb) {
        var _ := Act(id, StopRun, now, freeGb);
        return;
      }
      var before := runs[id].state;
      Reassess(id, nodes, now);
      if runs[id].state != before {
        PersistRun(id);
      }
    }

    /** The quorum, liveness and report rules of one pass. */
    method Reassess(id: RunId, nodes: seq<Node>, now: real)
      requires id in runs
      modifies this`runs, this`startingSince, this`stoppingSince
      ensures Current() == JudgedWorld(old(Current()), cfg, id, nodes, now)
    {
      var run, startedAt := runs[id], Lookup(startingSince, id);
      if run.state.Starting? && (HasQuorum(cfg, run.profile, nodes)
          || (startedAt.Some? && now - startedAt.value > cfg.startTimeoutS)) {
        startingSince := startingSince - {id};
      }
      if run.state.Stopping? && AnyOnline(nodes) && id !in stoppingSince {
        stoppingSince := stoppingSince[id := now];
      }
      var s := Judge(cfg, run, nodes, startedAt, if id in stoppingSince then stoppingSince[id] else now, now);
      if !s.Stopping? {
        stoppingSince := stoppingSince - {id};
      }
      runs := runs[id := run.(state := s)];
    }

    /** A node's recorder report, from a status or a goodbye. */
    method OnReport(id: RunId, node: string)
      requires Valid() && id in runs
      modifies this
      ensures Valid() && Current() == Step(old(Current()), cfg, Report(id, node))
    {
      StepKeeps(Current(), cfg, Report(id, node));
      runs := runs[id := runs[id].(reports := runs[id].reports + {node})];
      manifest := manifest[id := runs[id]];
    }
  }
}
