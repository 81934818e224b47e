/** Run orchestration (services/admin/src/mec_cast_admin/orchestrator.py): the
    code between two awaits is one atomic step, and steps of any tasks may
    follow one another in any order.

    What the registry, the clock and the disk say enters each step as an
    argument, so every answer they could give is covered. */
module Orchestrator {
  import opened Base
  import opened RunStates

  type RunId = string

  datatype Run = Run(zone: string, profile: string, state: RunState, removed: bool, reports: set<string>)

  /** A registry record that names the run: what quorum and liveness see. */
  datatype Node = Node(id: string, role: string, online: bool, running: bool)

  /** One node of the declared topology. */
  datatype DeclaredNode = DeclaredNode(id: string, role: string, zone: string, e2UeId: Option<int>)

  /** `requiredRoles` names, for each profile, the roles its quorum needs. */
  datatype Settings = Settings(
    topology: seq<DeclaredNode>, requiredRoles: map<string, set<string>>,
    startTimeoutS: real, stopTimeoutS: real, maxRunDurationS: real,
    minFreeGbStart: real, minFreeGbAbort: real)

  /** `runs` and the two clocks live in the process; `manifest` and the last
      state the journal names for each run survive it. */
  datatype World = World(
    runs: map<RunId, Run>, startingSince: map<RunId, real>, stoppingSince: map<RunId, real>,
    manifest: map<RunId, Run>, journal: map<RunId, RunState>)

  datatype Refusal =
    | NoRun | ZoneBusy | IllegalTransition(error: TransitionError) | LowDisk
    | UnknownZone | UnknownProfile | UnknownUe | UeNotClient | UeElsewhere | UeWithoutId

  datatype Outcome = Outcome(world: World, refusal: Option<Refusal>)

  /** Before a process has loaded anything: only what is on disk, whatever
      that is. */
  function Stored(manifest: map<RunId, Run>, journal: map<RunId, RunState>): World {
    World(map[], map[], map[], manifest, journal)
  }

  // ----- The steps -----

  function SetState(w: World, id: RunId, s: RunState): World
    requires id in w.runs
  {
    w.(runs := w.runs[id := w.runs[id].(state := s)])
  }

  /** Manifest, then journal line. */
  function Persist(w: World, id: RunId): World
    requires id in w.runs
  {
    w.(manifest := w.manifest[id := w.runs[id]], journal := w.journal[id := w.runs[id].state])
  }

  ghost predicate HoldsSlot(w: World, id: RunId, zone: string) {
    id in w.runs && OccupiesSlot(w.runs[id].state) && w.runs[id].zone == zone
  }

  /** Another run holds the zone. */
  ghost predicate Blocked(w: World, id: RunId, zone: string) {
    exists other :: other != id && HoldsSlot(w, other, zone)
  }

  predicate LowHeadroom(cfg: Settings, freeGb: Option<real>) {
    cfg.minFreeGbStart != 0.0 && freeGb.Some? && freeGb.value < cfg.minFreeGbStart
  }

  const DEFAULT_ZONE := "default"

  /** A run created for no zone in particular goes to the default one. */
  function ZoneOr(zone: string): string {
    if zone == "" then DEFAULT_ZONE else zone
  }

  const PROFILES := {"robotics", "media"}
  const DEFAULT_PROFILE := "robotics"

  function ProfileOr(profile: string): string {
    if profile == "" then DEFAULT_PROFILE else profile
  }

  /** What an operator asks for: a zone, a profile, and the client node a RAN
      policy names as its UE, if it names one. */
  datatype Request = Request(zone: string, profile: string, policyUe: Option<string>)

  /** The first declared node of that name. */
  function Find(topology: seq<DeclaredNode>, id: string): Option<DeclaredNode> {
    if topology == [] then None
    else if topology[0].id == id then Some(topology[0])
    else Find(topology[1..], id)
  }

  /** Why a policy's UE cannot be resolved in the run's zone. */
  function PolicyRefusal(cfg: Settings, r: Request): Option<Refusal> {
    if r.policyUe.None? then None
    else match Find(cfg.topology, r.policyUe.value)
      case None => Some(UnknownUe)
      case Some(n) =>
        if n.role != "client" then Some(UeNotClient)
        else if n.zone != ZoneOr(r.zone) then Some(UeElsewhere)
        else if n.e2UeId.None? then Some(UeWithoutId)
        else None
  }

  predicate ZoneDeclared(cfg: Settings, zone: string) {
    cfg.topology == [] || exists i :: 0 <= i < |cfg.topology| && cfg.topology[i].zone == zone
  }

  function CreateRefusal(cfg: Settings, r: Request): Option<Refusal> {
    if !ZoneDeclared(cfg, r.zone) then Some(UnknownZone)
    else if ProfileOr(r.profile) !in PROFILES then Some(UnknownProfile)
    else PolicyRefusal(cfg, r)
  }

  /** A run is created exactly in a declared zone (any, if none is declared),
      for a known profile, with a policy whose UE is a client of that zone with
      a known identity. */
  lemma CreateAccepts(cfg: Settings, r: Request)
    ensures CreateRefusal(cfg, r).None? <==>
      && ZoneDeclared(cfg, r.zone)
      && (r.profile == "" || r.profile == "robotics" || r.profile == "media")
      && (r.policyUe.Some? ==> exists n :: ClientNamed(cfg.topology, r.policyUe.value, ZoneOr(r.zone), n))
  {
    if r.policyUe.Some? {
      FindIsFirst(cfg.topology, r.policyUe.value);
      var found := Find(cfg.topology, r.policyUe.value);
      assert found.Some? ==> NodeNamed(cfg.topology, r.policyUe.value, found.value);
      assert PolicyRefusal(cfg, r).None? ==>
        ClientNamed(cfg.topology, r.policyUe.value, ZoneOr(r.zone), found.value);
    }
  }

  ghost predicate ClientNamed(topology: seq<DeclaredNode>, id: string, zone: string, n: DeclaredNode) {
    NodeNamed(topology, id, n) && n.role == "client" && n.zone == zone && n.e2UeId.Some?
  }

  /** `n` is the first node declared under that name. */
  ghost predicate NodeNamed(topology: seq<DeclaredNode>, id: string, n: DeclaredNode) {
    exists i :: 0 <= i < |topology| && topology[i] == n && n.id == id
      && forall j :: 0 <= j < i ==> topology[j].id != id
  }

  lemma {:induction false} FindIsFirst(topology: seq<DeclaredNode>, id: string)
    ensures forall n :: NodeNamed(topology, id, n) <==> Find(topology, id) == Some(n)
  {
    if topology != [] {
      var rest := topology[1..];
      FindIsFirst(rest, id);
      forall n ensures NodeNamed(topology, id, n) <==> Find(topology, id) == Some(n) {
        if topology[0].id != id && NodeNamed(rest, id, n) {
          var i :| 0 <= i < |rest| && rest[i] == n && n.id == id && forall j :: 0 <= j < i ==> rest[j].id != id;
          assert topology[i + 1] == n && forall j :: 0 < j < i + 1 ==> topology[j] == rest[j - 1];
        }
        if topology[0].id != id && NodeNamed(topology, id, n) {
          var i :| 0 <= i < |topology| && topology[i] == n && forall j :: 0 <= j < i ==> topology[j].id != id;
          assert rest[i - 1] == n && forall j :: 0 <= j < i - 1 ==> rest[j] == topology[j + 1];
        }
        if topology[0].id == id && n == topology[0] {
          assert topology[0] == n && n.id == id;
        }
      }
    }
  }

  function CreateStep(w: World, cfg: Settings, id: RunId, r: Request): Outcome
    requires id !in w.runs
  {
    var refusal := CreateRefusal(cfg, r);
    if refusal.Some? then Outcome(w, refusal)
    else
      var run := Run(ZoneOr(r.zone), ProfileOr(r.profile), Draft, false, {});
      Outcome(Persist(w.(runs := w.runs[id := run]), id), None)
  }

  function SetDefault(m: map<RunId, real>, id: RunId, now: real): map<RunId, real> {
    if id in m then m else m[id := now]
  }

  /** `act` up to its first await (to its end, for a removal). */
  ghost function ActStep(w: World, cfg: Settings, id: RunId, a: Action, now: real, freeGb: Option<real>): Outcome {
    if id !in w.runs || w.runs[id].removed then Outcome(w, Some(NoRun))
    else if a == StartRun && Blocked(w, id, w.runs[id].zone) then Outcome(w, Some(ZoneBusy))
    else match Advance(w.runs[id].state, EventOf(a))
      case Err(e) => Outcome(w, Some(IllegalTransition(e)))
      case Ok(next) =>
        var moved := SetState(w, id, next);
        match a
        case StartRun =>
          // The state has moved by the time the disk is looked at.
          if LowHeadroom(cfg, freeGb) then Outcome(moved, Some(LowDisk))
          else Outcome(moved.(startingSince := moved.startingSince[id := now]), None)
        case StopRun =>
          Outcome(moved.(stoppingSince := SetDefault(moved.stoppingSince, id, now)), None)
        case RemoveRun =>
          Outcome(Persist(moved.(runs := moved.runs[id := moved.runs[id].(removed := true)]), id), None)
  }

  function RolesFor(cfg: Settings, profile: string): set<string> {
    if profile in cfg.requiredRoles then cfg.requiredRoles[profile] else {}
  }

  predicate HasQuorum(cfg: Settings, profile: string, nodes: seq<Node>) {
    forall role :: role in RolesFor(cfg, profile) ==>
      exists i :: 0 <= i < |nodes| && nodes[i].online && nodes[i].running && nodes[i].role == role
  }

  predicate AnyOnline(nodes: seq<Node>) {
    exists i :: 0 <= i < |nodes| && nodes[i].online
  }

  predicate AllReported(run: Run, nodes: seq<Node>) {
    forall i :: 0 <= i < |nodes| ==> nodes[i].id in run.reports
  }

  /** The quorum and timeout rules; every transition they ask for is legal. */
  function JudgeQuorum(cfg: Settings, s: RunState, quorum: bool, online: bool,
                       startedAt: Option<real>, since: real, now: real): RunState
  {
    match s
    case Starting =>
      if quorum then Advance(s, QuorumMet).value
      else if startedAt.Some? && now - startedAt.value > cfg.startTimeoutS then Advance(s, StartTimeout).value
      else s
    case Running => if !quorum then Advance(s, ParticipantLost).value else s
    case Degraded => if quorum then Advance(s, ParticipantRecovered).value else s
    case Stopping =>
      if !online then Advance(s, ReportsComplete).value
      else if now - since > cfg.stopTimeoutS then Advance(s, StopTimeout).value
      else s
    case _ => s
  }

  /** The three judgements of one supervise pass, in order. */
  function Judge(cfg: Settings, run: Run, nodes: seq<Node>, startedAt: Option<real>, since: real, now: real): RunState {
    var online := AnyOnline(nodes);
    var s1 := JudgeQuorum(cfg, run.state, HasQuorum(cfg, run.profile, nodes), online, startedAt, since, now);
    var notYetJoined := s1.Starting? && nodes == [];
    var s2 := if (s1.Starting? || s1.Running? || s1.Degraded?) && !online && !notYetJoined
              then Advance(s1, AllOffline).value else s1;
    if s2.Stopping? && AllReported(run, nodes) then Advance(s2, ReportsComplete).value else s2
  }

  /** A watchdog fires: recorded too long, or the disk is nearly full. */
  predicate MustStop(cfg: Settings, s: RunState, elapsedS: Option<real>, freeGb: Option<real>) {
    && (s.Running? || s.Degraded?)
    && (|| (cfg.maxRunDurationS != 0.0 && elapsedS.Some? && elapsedS.value > cfg.maxRunDurationS)
        || (cfg.minFreeGbAbort != 0.0 && freeGb.Some? && freeGb.value < cfg.minFreeGbAbort))
  }

  function Lookup(m: map<RunId, real>, id: RunId): Option<real> {
    if id in m then Some(m[id]) else None
  }

  /** The stop clocks a pass looks at: a stopping run without one gets one. */
  function Seeded(w: World, id: RunId, nodes: seq<Node>, now: real): map<RunId, real>
    requires id in w.runs
  {
    if w.runs[id].state.Stopping? && AnyOnline(nodes) then SetDefault(w.stoppingSince, id, now) else w.stoppingSince
  }

  /** The state a pass leaves the run in, watchdogs apart. */
  function Judged(w: World, cfg: Settings, id: RunId, nodes: seq<Node>, now: real): RunState
    requires id in w.runs
  {
    var seeded := Seeded(w, id, nodes, now);
    Judge(cfg, w.runs[id], nodes, Lookup(w.startingSince, id), if id in seeded then seeded[id] else now, now)
  }

  /** The start clock is dropped by quorum and by the timeout, not by the
      all-offline rule. */
  predicate DropsStartClock(w: World, cfg: Settings, id: RunId, nodes: seq<Node>, now: real)
    requires id in w.runs
  {
    && w.runs[id].state.Starting?
    && (|| HasQuorum(cfg, w.runs[id].profile, nodes)
        || (id in w.startingSince && now - w.startingSince[id] > cfg.startTimeoutS))
  }

  function JudgedWorld(w: World, cfg: Settings, id: RunId, nodes: seq<Node>, now: real): World
    requires id in w.runs
  {
    var s := Judged(w, cfg, id, nodes, now);
    World(w.runs[id := w.runs[id].(state := s)],
      if DropsStartClock(w, cfg, id, nodes, now) then w.startingSince - {id} else w.startingSince,
      if s.Stopping? then Seeded(w, id, nodes, now) else Seeded(w, id, nodes, now) - {id},
      w.manifest, w.journal)
  }

  /** `_supervise_run` up to its first await. The run comes from a list made
      before earlier awaits, so it may be in any state by now. */
  ghost function SuperviseStep(w: World, cfg: Settings, id: RunId, nodes: seq<Node>, now: real,
                               elapsedS: Option<real>, freeGb: Option<real>): World
  {
    if id !in w.runs then w
    else if MustStop(cfg, w.runs[id].state, elapsedS, freeGb) then ActStep(w, cfg, id, StopRun, now, freeGb).world
    else PassWorld(w, cfg, id, nodes, now)
  }

  /** A pass without a watchdog's stop: judged, and saved if it moved. */
  function PassWorld(w: World, cfg: Settings, id: RunId, nodes: seq<Node>, now: real): World
    requires id in w.runs
  {
    var v := JudgedWorld(w, cfg, id, nodes, now);
    if v.runs[id].state != w.runs[id].state then Persist(v, id) else v
  }

  /** What a new process makes of a stored run: the journal's word for its
      state, and FAILED if that would hold a slot. */
  function Reloaded(w: World, id: RunId): Run
    requires id in w.manifest
  {
    var s := if id in w.journal then w.journal[id] else w.manifest[id].state;
    w.manifest[id].(state := if OccupiesSlot(s) then Failed else s)
  }

  /** Which runs `start` has to fail, and so saves again. */
  predicate FailedByRestart(w: World, id: RunId)
    requires id in w.manifest
  {
    OccupiesSlot(if id in w.journal then w.journal[id] else w.manifest[id].state)
  }

  function RestartStep(w: World): World {
    var loaded := map id | id in w.manifest :: Reloaded(w, id);
    World(loaded, map[], map[],
      map id | id in w.manifest :: if FailedByRestart(w, id) then loaded[id] else w.manifest[id], w.journal)
  }

  datatype Event =
    | Create(id: RunId, request: Request)
    | Act(id: RunId, action: Action, now: real, freeGb: Option<real>)
    | FinishAct(id: RunId)
    | Report(id: RunId, node: string)
    | Save(id: RunId)
    | Supervise(id: RunId, nodes: seq<Node>, now: real, elapsedS: Option<real>, freeGb: Option<real>)
    | Restart
    | DieWriting(during: Event)

  /** `FinishAct` is `act` after its broadcast, whichever run it was for;
      `Report` stores a node's report; `Save` writes a manifest alone. In
      `DieWriting` the process dies during a step, after the manifest was
      written and before its journal line, and a new one starts. */
  ghost function Step(w: World, cfg: Settings, e: Event): World {
    match e
    case Create(id, r) => if id in w.runs then w else CreateStep(w, cfg, id, r).world
    case Act(id, a, now, freeGb) => ActStep(w, cfg, id, a, now, freeGb).world
    case FinishAct(id) => if id in w.runs then Persist(w, id) else w
    case Report(id, node) =>
      if id in w.runs then
        var run := w.runs[id].(reports := w.runs[id].reports + {node});
        w.(runs := w.runs[id := run], manifest := w.manifest[id := run])
      else w
    case Save(id) => if id in w.runs then w.(manifest := w.manifest[id := w.runs[id]]) else w
    case Supervise(id, nodes, now, elapsedS, freeGb) => SuperviseStep(w, cfg, id, nodes, now, elapsedS, freeGb)
    case Restart => RestartStep(w)
    case DieWriting(during) => RestartStep(Step(w, cfg, during).(journal := w.journal))
  }

  predicate EndsProcess(e: Event) { e.Restart? || e.DieWriting? }

  ghost function RunEvents(w: World, cfg: Settings, es: seq<Event>): World {
    if es == [] then w else Step(RunEvents(w, cfg, es[..|es| - 1]), cfg, es[|es| - 1])
  }

  // ----- Safety -----

  /** At most one run per zone holds a slot. */
  ghost predicate OneSlotPerZone(w: World) {
    forall a, b, zone :: HoldsSlot(w, a, zone) && HoldsSlot(w, b, zone) ==> a == b
  }

  /** A removed run holds nothing; a start clock belongs to a run that was
      started, a stop clock to one that was told to stop; and a run that is
      stopping has one. */
  ghost predicate Tidy(w: World) {
    && (forall id :: id in w.runs && w.runs[id].state.Stopping? ==> id in w.stoppingSince)
    && (forall id :: id in w.runs && w.runs[id].removed ==> !OccupiesSlot(w.runs[id].state))
    && (forall id :: id in w.startingSince ==> id in w.runs && !w.runs[id].state.Draft?)
    && (forall id :: id in w.stoppingSince ==> id in w.runs && Progress(Stopping) <= Progress(w.runs[id].state))
  }

  ghost predicate Inv(w: World) {
    OneSlotPerZone(w) && Tidy(w)
  }

  /** A step that moves one run, and only along its life, keeps the slots apart
      unless it starts a draft; and a draft starts only in a free zone. */
  lemma MoveKeepsSlots(w: World, v: World, id: RunId)
    requires OneSlotPerZone(w) && id in w.runs && id in v.runs
    requires v.runs.Keys == w.runs.Keys && v.runs[id].zone == w.runs[id].zone
    requires forall other :: other in w.runs && other != id ==> v.runs[other] == w.runs[other]
    requires OccupiesSlot(v.runs[id].state) && !OccupiesSlot(w.runs[id].state) ==> !Blocked(w, id, w.runs[id].zone)
    ensures OneSlotPerZone(v)
  {
    forall a, b, zone | HoldsSlot(v, a, zone) && HoldsSlot(v, b, zone) ensures a == b {
      assert a != id ==> HoldsSlot(w, a, zone);
      assert b != id ==> HoldsSlot(w, b, zone);
      if OccupiesSlot(w.runs[id].state) {
        assert v.runs[id].zone == zone ==> HoldsSlot(w, id, zone);
      }
    }
  }

  /** One run moved along its life; the others did not change. */
  ghost predicate Moved(w: World, v: World, id: RunId) {
    && id in w.runs && v.runs.Keys == w.runs.Keys
    && (forall other :: other in w.runs && other != id ==> v.runs[other] == w.runs[other])
    && Progress(w.runs[id].state) < Progress(v.runs[id].state)
  }

  /** What an accepted action does to the runs. */
  lemma ActMoves(w: World, cfg: Settings, id: RunId, a: Action, now: real, freeGb: Option<real>)
    ensures var v := ActStep(w, cfg, id, a, now, freeGb).world;
      v != w ==>
        && Moved(w, v, id) && v.runs[id].zone == w.runs[id].zone && v.runs[id].profile == w.runs[id].profile
        && (OccupiesSlot(v.runs[id].state) && !OccupiesSlot(w.runs[id].state) ==> !Blocked(w, id, w.runs[id].zone))
  {
    if id in w.runs {
      TableShape(w.runs[id].state, EventOf(a), a);
    }
  }

  /** What an accepted action does to the clocks: a start from a draft sets
      one, a stop sets the other unless it runs already. */
  ghost predicate ClocksOf(w: World, v: World, id: RunId, now: real) {
    && id in w.runs && id in v.runs && !v.runs[id].state.Draft?
    && (v.runs[id].state.Starting? ==> w.runs[id].state.Draft?)
    && (v.runs[id].state.Stopping? ==> !w.runs[id].state.Stopping? && id in v.stoppingSince)
    && (v.runs[id].removed ==> !OccupiesSlot(v.runs[id].state))
    && (v.startingSince == w.startingSince || v.startingSince == w.startingSince[id := now])
    && (|| v.stoppingSince == w.stoppingSince
        || (v.stoppingSince == SetDefault(w.stoppingSince, id, now)
            && Progress(Stopping) <= Progress(v.runs[id].state)))
  }

  lemma ClocksFollow(w: World, cfg: Settings, id: RunId, a: Action, now: real, freeGb: Option<real>)
    ensures var v := ActStep(w, cfg, id, a, now, freeGb).world;
      v != w ==> ClocksOf(w, v, id, now)
  {
  }

  lemma ActStaysTidy(w: World, cfg: Settings, id: RunId, a: Action, now: real, freeGb: Option<real>)
    requires Tidy(w)
    ensures Tidy(ActStep(w, cfg, id, a, now, freeGb).world)
  {
    var v := ActStep(w, cfg, id, a, now, freeGb).world;
    ActMoves(w, cfg, id, a, now, freeGb);
    ClocksFollow(w, cfg, id, a, now, freeGb);
    if v != w {
      AdvanceStaysTidy(w, v, id, now);
    }
  }

  lemma AdvanceStaysTidy(w: World, v: World, id: RunId, now: real)
    requires Tidy(w) && Moved(w, v, id) && ClocksOf(w, v, id, now)
    ensures Tidy(v)
  {
  }

  lemma ActKeeps(w: World, cfg: Settings, id: RunId, a: Action, now: real, freeGb: Option<real>)
    requires Inv(w)
    ensures Inv(ActStep(w, cfg, id, a, now, freeGb).world)
  {
    var v := ActStep(w, cfg, id, a, now, freeGb).world;
    ActStaysTidy(w, cfg, id, a, now, freeGb);
    ActMoves(w, cfg, id, a, now, freeGb);
    if v != w {
      MoveKeepsSlots(w, v, id);
    }
  }

  /** A pass never moves a run into a slot, and never out of a final state. */
  lemma JudgeMoves(w: World, cfg: Settings, id: RunId, nodes: seq<Node>, now: real)
    requires id in w.runs
    ensures var s := Judged(w, cfg, id, nodes, now);
      && Progress(w.runs[id].state) <= Progress(s)
      && (!OccupiesSlot(w.runs[id].state) ==> s == w.runs[id].state)
      && (s.Stopping? ==> w.runs[id].state.Stopping?)
      && (s.Starting? ==> w.runs[id].state.Starting?)
  {
  }

  lemma JudgedKeeps(w: World, cfg: Settings, id: RunId, nodes: seq<Node>, now: real)
    requires Inv(w) && id in w.runs
    ensures Inv(JudgedWorld(w, cfg, id, nodes, now))
  {
    var v := JudgedWorld(w, cfg, id, nodes, now);
    JudgeMoves(w, cfg, id, nodes, now);
    MoveKeepsSlots(w, v, id);
    assert forall x :: x in v.stoppingSince ==> x == id || x in w.stoppingSince;
  }

  lemma PassKeeps(w: World, cfg: Settings, id: RunId, nodes: seq<Node>, now: real)
    requires Inv(w) && id in w.runs
    ensures Inv(PassWorld(w, cfg, id, nodes, now))
  {
    var v := JudgedWorld(w, cfg, id, nodes, now);
    JudgedKeeps(w, cfg, id, nodes, now);
    if v.runs[id].state != w.runs[id].state {
      SameSlots(v, Persist(v, id));
    }
  }

  lemma SuperviseKeeps(w: World, cfg: Settings, id: RunId, nodes: seq<Node>, now: real,
                       elapsedS: Option<real>, freeGb: Option<real>)
    requires Inv(w)
    ensures Inv(SuperviseStep(w, cfg, id, nodes, now, elapsedS, freeGb))
  {
    if id in w.runs {
      if MustStop(cfg, w.runs[id].state, elapsedS, freeGb) {
        ActKeeps(w, cfg, id, StopRun, now, freeGb);
      } else {
        PassKeeps(w, cfg, id, nodes, now);
      }
    }
  }

  /** Files do not enter the invariant. */
  lemma SameSlots(w: World, v: World)
    requires Inv(w) && v.runs == w.runs
    requires v.startingSince == w.startingSince && v.stoppingSince == w.stoppingSince
    ensures Inv(v)
  {
    forall a, b, z | HoldsSlot(v, a, z) && HoldsSlot(v, b, z) ensures a == b {
      assert HoldsSlot(w, a, z) && HoldsSlot(w, b, z);
    }
  }

  /** A new draft holds nothing and has no clocks. */
  lemma DraftKeeps(w: World, v: World, id: RunId, run: Run)
    requires Inv(w) && id !in w.runs && run.state.Draft? && v.runs == w.runs[id := run]
    requires v.startingSince == w.startingSince && v.stoppingSince == w.stoppingSince
    ensures Inv(v)
  {
    forall a, b, z | HoldsSlot(v, a, z) && HoldsSlot(v, b, z) ensures a == b {
      assert HoldsSlot(w, a, z) && HoldsSlot(w, b, z);
    }
  }

  lemma CreateKeeps(w: World, cfg: Settings, id: RunId, r: Request)
    requires Inv(w) && id !in w.runs
    ensures Inv(CreateStep(w, cfg, id, r).world)
  {
    if CreateRefusal(cfg, r).None? {
      var run := Run(ZoneOr(r.zone), ProfileOr(r.profile), Draft, false, {});
      DraftKeeps(w, CreateStep(w, cfg, id, r).world, id, run);
    }
  }

  lemma RestartKeeps(w: World)
    ensures Inv(RestartStep(w))
    ensures forall id, zone :: !HoldsSlot(RestartStep(w), id, zone)
  {
  }

  lemma FileEventsKeep(w: World, cfg: Settings, e: Event)
    requires Inv(w) && (e.FinishAct? || e.Save? || e.Report?)
    ensures Inv(Step(w, cfg, e))
  {
    var v := Step(w, cfg, e);
    if e.Report? && e.id in w.runs {
      MoveKeepsSlots(w, v, e.id);
    } else {
      SameSlots(w, v);
    }
  }

  lemma StepKeeps(w: World, cfg: Settings, e: Event)
    requires Inv(w)
    ensures Inv(Step(w, cfg, e))
  {
    match e
    case Create(id, r) => if id !in w.runs { CreateKeeps(w, cfg, id, r); }
    case Act(id, a, now, freeGb) => ActKeeps(w, cfg, id, a, now, freeGb);
    case Supervise(id, nodes, now, elapsedS, freeGb) => SuperviseKeeps(w, cfg, id, nodes, now, elapsedS, freeGb);
    case Restart => RestartKeeps(w);
    case DieWriting(during) => RestartKeeps(Step(w, cfg, during).(journal := w.journal));
    case _ => FileEventsKeep(w, cfg, e);
  }

  /** In every interleaving of requests, supervise passes over whatever stale
      list, saves and restarts, from whatever was on disk, no zone ever has two
      runs in its slot. */
  lemma {:induction false} OneRunPerZone(cfg: Settings, manifest: map<RunId, Run>, journal: map<RunId, RunState>,
                                         es: seq<Event>)
    ensures OneSlotPerZone(RunEvents(Stored(manifest, journal), cfg, es))
    ensures Inv(RunEvents(Stored(manifest, journal), cfg, es))
  {
    if es != [] {
      OneRunPerZone(cfg, manifest, journal, es[..|es| - 1]);
      StepKeeps(RunEvents(Stored(manifest, journal), cfg, es[..|es| - 1]), cfg, es[|es| - 1]);
    }
  }

  // ----- Waiting is bounded -----

  ghost predicate NoRestart(es: seq<Event>) {
    forall i :: 0 <= i < |es| ==> !EndsProcess(es[i])
  }

  /** The run was started; while it is starting its clock reads `since`. */
  ghost predicate StartedAt(w: World, id: RunId, since: real) {
    && id in w.runs && !w.runs[id].state.Draft?
    && (w.runs[id].state.Starting? ==> id in w.startingSince && w.startingSince[id] == since)
  }

  /** The run was told to stop; while it is stopping its clock reads `since`. */
  ghost predicate StoppingAt(w: World, id: RunId, since: real) {
    && id in w.runs && Progress(Stopping) <= Progress(w.runs[id].state)
    && (w.runs[id].state.Stopping? ==> id in w.stoppingSince && w.stoppingSince[id] == since)
  }

  ghost predicate Beyond(w: World, id: RunId, state: RunState) {
    id in w.runs && Progress(state) < Progress(w.runs[id].state)
  }

  /** Nothing but a restart resets either clock or takes a run back. */
  lemma ActKeepsClocks(w: World, cfg: Settings, act: RunId, a: Action, now: real, freeGb: Option<real>,
                       id: RunId, since: real)
    ensures var v := ActStep(w, cfg, act, a, now, freeGb).world;
      && (StartedAt(w, id, since) ==> StartedAt(v, id, since))
      && (StoppingAt(w, id, since) ==> StoppingAt(v, id, since))
      && (id in w.runs ==> id in v.runs && Progress(w.runs[id].state) <= Progress(v.runs[id].state))
  {
    var v := ActStep(w, cfg, act, a, now, freeGb).world;
    ActMoves(w, cfg, act, a, now, freeGb);
    ClocksFollow(w, cfg, act, a, now, freeGb);
    if v != w {
      AdvanceKeepsClocks(w, v, act, now, id, since);
    }
  }

  lemma AdvanceKeepsClocks(w: World, v: World, act: RunId, now: real, id: RunId, since: real)
    requires Moved(w, v, act) && ClocksOf(w, v, act, now)
    ensures StartedAt(w, id, since) ==> StartedAt(v, id, since)
    ensures StoppingAt(w, id, since) ==> StoppingAt(v, id, since)
    ensures id in w.runs ==> id in v.runs && Progress(w.runs[id].state) <= Progress(v.runs[id].state)
  {
  }

  lemma SuperviseKeepsClocks(w: World, cfg: Settings, passed: RunId, nodes: seq<Node>, now: real,
                             elapsedS: Option<real>, freeGb: Option<real>, id: RunId, since: real)
    ensures var v := SuperviseStep(w, cfg, passed, nodes, now, elapsedS, freeGb);
      && (StartedAt(w, id, since) ==> StartedAt(v, id, since))
      && (StoppingAt(w, id, since) ==> StoppingAt(v, id, since))
      && (id in w.runs ==> id in v.runs && Progress(w.runs[id].state) <= Progress(v.runs[id].state))
  {
    if passed in w.runs {
      if MustStop(cfg, w.runs[passed].state, elapsedS, freeGb) {
        ActKeepsClocks(w, cfg, passed, StopRun, now, freeGb, id, since);
      } else {
        JudgeMoves(w, cfg, passed, nodes, now);
      }
    }
  }

  lemma StepKeepsClocks(w: World, cfg: Settings, e: Event, id: RunId, since: real)
    requires !EndsProcess(e)
    ensures var v := Step(w, cfg, e);
      && (StartedAt(w, id, since) ==> StartedAt(v, id, since))
      && (StoppingAt(w, id, since) ==> StoppingAt(v, id, since))
      && (id in w.runs ==> id in v.runs && Progress(w.runs[id].state) <= Progress(v.runs[id].state))
  {
    match e
    case Act(act, a, now, freeGb) => ActKeepsClocks(w, cfg, act, a, now, freeGb, id, since);
    case Supervise(passed, nodes, now, elapsedS, freeGb) =>
      SuperviseKeepsClocks(w, cfg, passed, nodes, now, elapsedS, freeGb, id, since);
    case _ =>
  }

  lemma {:induction false} RunKeepsClocks(w: World, cfg: Settings, es: seq<Event>, id: RunId, since: real)
    requires NoRestart(es)
    ensures var v := RunEvents(w, cfg, es);
      && (StartedAt(w, id, since) ==> StartedAt(v, id, since))
      && (StoppingAt(w, id, since) ==> StoppingAt(v, id, since))
      && (id in w.runs ==> id in v.runs && Progress(w.runs[id].state) <= Progress(v.runs[id].state))
  {
    if es != [] {
      RunKeepsClocks(w, cfg, es[..|es| - 1], id, since);
      StepKeepsClocks(RunEvents(w, cfg, es[..|es| - 1]), cfg, es[|es| - 1], id, since);
    }
  }

  lemma {:induction false} RunSplits(w: World, cfg: Settings, xs: seq<Event>, ys: seq<Event>)
    ensures RunEvents(w, cfg, xs + ys) == RunEvents(RunEvents(w, cfg, xs), cfg, ys)
  {
    if ys == [] {
      assert xs + ys == xs;
    } else {
      assert (xs + ys)[..|xs + ys| - 1] == xs + ys[..|ys| - 1];
      RunSplits(w, cfg, xs, ys[..|ys| - 1]);
    }
  }

  lemma LatePassEndsStarting(w: World, cfg: Settings, id: RunId, since: real, nodes: seq<Node>, now: real,
                             elapsedS: Option<real>, freeGb: Option<real>)
    requires StartedAt(w, id, since) && now - since > cfg.startTimeoutS
    ensures Beyond(SuperviseStep(w, cfg, id, nodes, now, elapsedS, freeGb), id, Starting)
  {
    if !MustStop(cfg, w.runs[id].state, elapsedS, freeGb) {
      JudgeMoves(w, cfg, id, nodes, now);
    } else {
      ActKeepsClocks(w, cfg, id, StopRun, now, freeGb, id, since);
    }
  }

  lemma LatePassEndsStopping(w: World, cfg: Settings, id: RunId, since: real, nodes: seq<Node>, now: real,
                             elapsedS: Option<real>, freeGb: Option<real>)
    requires StoppingAt(w, id, since) && now - since > cfg.stopTimeoutS
    ensures Beyond(SuperviseStep(w, cfg, id, nodes, now, elapsedS, freeGb), id, Stopping)
  {
    if !MustStop(cfg, w.runs[id].state, elapsedS, freeGb) {
      JudgeMoves(w, cfg, id, nodes, now);
    }
  }

  /** A pass over run `id` at a time later than `since + timeout`. */
  ghost predicate LatePass(e: Event, id: RunId, since: real, timeout: real) {
    e.Supervise? && e.id == id && e.now - since > timeout
  }

  /** What holds before, at and after the `i`-th event of a run of events. */
  lemma AroundPass(w: World, cfg: Settings, es: seq<Event>, i: nat, id: RunId, since: real)
    requires NoRestart(es) && i < |es|
    ensures var before := RunEvents(w, cfg, es[..i]);
      var at, after := Step(before, cfg, es[i]), RunEvents(w, cfg, es);
      && (StartedAt(w, id, since) ==> StartedAt(before, id, since))
      && (StoppingAt(w, id, since) ==> StoppingAt(before, id, since))
      && (id in at.runs ==> id in after.runs && Progress(at.runs[id].state) <= Progress(after.runs[id].state))
  {
    RunKeepsClocks(w, cfg, es[..i], id, since);
    assert es[..i + 1][..i] == es[..i];
    var at := RunEvents(w, cfg, es[..i + 1]);
    RunKeepsClocks(at, cfg, es[i + 1..], id, since);
    RunSplits(w, cfg, es[..i + 1], es[i + 1..]);
    assert es == es[..i + 1] + es[i + 1..];
  }

  lemma AcceptedStartSetsClock(w: World, cfg: Settings, id: RunId, now: real, freeGb: Option<real>)
    requires ActStep(w, cfg, id, StartRun, now, freeGb).refusal.None?
    ensures StartedAt(ActStep(w, cfg, id, StartRun, now, freeGb).world, id, now)
  {
  }

  lemma AcceptedStopSetsClock(w: World, cfg: Settings, id: RunId, now: real, freeGb: Option<real>)
    requires Inv(w) && ActStep(w, cfg, id, StopRun, now, freeGb).refusal.None? && !w.runs[id].state.Stopping?
    ensures StoppingAt(ActStep(w, cfg, id, StopRun, now, freeGb).world, id, now)
  {
  }

  /** A run whose start was accepted has left STARTING for good by the first
      pass later than the start timeout, whatever else happens in between. */
  lemma StartIsBounded(w: World, cfg: Settings, id: RunId, now: real, freeGb: Option<real>, es: seq<Event>, i: nat)
    requires ActStep(w, cfg, id, StartRun, now, freeGb).refusal.None?
    requires NoRestart(es) && i < |es| && LatePass(es[i], id, now, cfg.startTimeoutS)
    ensures Beyond(RunEvents(ActStep(w, cfg, id, StartRun, now, freeGb).world, cfg, es), id, Starting)
  {
    var started, e := ActStep(w, cfg, id, StartRun, now, freeGb).world, es[i];
    AcceptedStartSetsClock(w, cfg, id, now, freeGb);
    AroundPass(started, cfg, es, i, id, now);
    LatePassEndsStarting(RunEvents(started, cfg, es[..i]), cfg, id, now, e.nodes, e.now, e.elapsedS, e.freeGb);
  }

  /** A run told to stop has released its zone for good by the first pass later
      than the stop timeout, reports or no reports. */
  lemma StopIsBounded(w: World, cfg: Settings, id: RunId, now: real, freeGb: Option<real>, es: seq<Event>, i: nat)
    requires Inv(w) && ActStep(w, cfg, id, StopRun, now, freeGb).refusal.None? && !w.runs[id].state.Stopping?
    requires NoRestart(es) && i < |es| && LatePass(es[i], id, now, cfg.stopTimeoutS)
    ensures Beyond(RunEvents(ActStep(w, cfg, id, StopRun, now, freeGb).world, cfg, es), id, Stopping)
    ensures forall zone :: !HoldsSlot(RunEvents(ActStep(w, cfg, id, StopRun, now, freeGb).world, cfg, es), id, zone)
  {
    AcceptedStopSetsClock(w, cfg, id, now, freeGb);
    LateStopReleases(ActStep(w, cfg, id, StopRun, now, freeGb).world, cfg, id, now, es, i);
  }

  /** In every reachable world a stopping run has its clock already: the pass
      that would seed one never does, and the run has released its zone for
      good by the first pass later than that clock plus the timeout. */
  lemma StoppingIsBounded(cfg: Settings, manifest: map<RunId, Run>, journal: map<RunId, RunState>, past: seq<Event>,
                          id: RunId, es: seq<Event>, i: nat)
    requires var w := RunEvents(Stored(manifest, journal), cfg, past);
      id in w.runs && w.runs[id].state.Stopping? && NoRestart(es) && i < |es|
    ensures var w := RunEvents(Stored(manifest, journal), cfg, past);
      && id in w.stoppingSince
      && (forall nodes, now :: Seeded(w, id, nodes, now) == w.stoppingSince)
      && (LatePass(es[i], id, w.stoppingSince[id], cfg.stopTimeoutS) ==>
            && Beyond(RunEvents(w, cfg, es), id, Stopping)
            && forall zone :: !HoldsSlot(RunEvents(w, cfg, es), id, zone))
  {
    var w := RunEvents(Stored(manifest, journal), cfg, past);
    OneRunPerZone(cfg, manifest, journal, past);
    if LatePass(es[i], id, w.stoppingSince[id], cfg.stopTimeoutS) {
      LateStopReleases(w, cfg, id, w.stoppingSince[id], es, i);
    }
  }

  lemma LateStopReleases(w: World, cfg: Settings, id: RunId, since: real, es: seq<Event>, i: nat)
    requires StoppingAt(w, id, since) && NoRestart(es) && i < |es| && LatePass(es[i], id, since, cfg.stopTimeoutS)
    ensures Beyond(RunEvents(w, cfg, es), id, Stopping)
    ensures forall zone :: !HoldsSlot(RunEvents(w, cfg, es), id, zone)
  {
    AroundPass(w, cfg, es, i, id, since);
    LateEventEndsStopping(RunEvents(w, cfg, es[..i]), cfg, id, since, es[i]);
    BeyondReleases(RunEvents(w, cfg, es), id);
  }

  lemma LateEventEndsStopping(w: World, cfg: Settings, id: RunId, since: real, e: Event)
    requires StoppingAt(w, id, since) && LatePass(e, id, since, cfg.stopTimeoutS)
    ensures Beyond(Step(w, cfg, e), id, Stopping)
  {
    LatePassEndsStopping(w, cfg, id, since, e.nodes, e.now, e.elapsedS, e.freeGb);
  }

  lemma BeyondReleases(w: World, id: RunId)
    requires Beyond(w, id, Stopping)
    ensures forall zone :: !HoldsSlot(w, id, zone)
  {
  }

  // ----- What a refusal leaves behind -----

  /** Every refused action leaves everything as it was, except one: a start
      refused for disk space. That one refusal happens exactly to a draft in a
      free zone with too little space. */
  lemma RefusalLeavesNothing(w: World, cfg: Settings, id: RunId, a: Action, now: real, freeGb: Option<real>)
    ensures var out := ActStep(w, cfg, id, a, now, freeGb);
      && (out.refusal.Some? ==> (out.world == w <==> out.refusal != Some(LowDisk)))
      && (out.refusal == Some(LowDisk) <==>
            && a == StartRun && id in w.runs && !w.runs[id].removed && w.runs[id].state == Draft
            && !Blocked(w, id, w.runs[id].zone) && LowHeadroom(cfg, freeGb))
      && (out.refusal == Some(ZoneBusy) <==>
            a == StartRun && id in w.runs && !w.runs[id].removed && Blocked(w, id, w.runs[id].zone))
  {
  }

  /** A pass leaves a starting run where it is: its roles are not all there, and
      somebody is online or nobody has joined yet. */
  predicate Idle(cfg: Settings, profile: string, nodes: seq<Node>) {
    !HasQuorum(cfg, profile, nodes) && (nodes == [] || AnyOnline(nodes))
  }

  /** A pass moves a starting run exactly when it finds a quorum, or everybody
      gone, or the start clock run out. */
  lemma StartingPass(w: World, cfg: Settings, id: RunId, nodes: seq<Node>, now: real,
                     elapsedS: Option<real>, freeGb: Option<real>)
    requires id in w.runs && w.runs[id].state.Starting?
    ensures SuperviseStep(w, cfg, id, nodes, now, elapsedS, freeGb).runs[id].state == Starting
      <==> Judged(w, cfg, id, nodes, now) == Starting
    ensures Judged(w, cfg, id, nodes, now) == Starting
      <==> && Idle(cfg, w.runs[id].profile, nodes)
           && !(id in w.startingSince && now - w.startingSince[id] > cfg.startTimeoutS)
  {
  }

  /** Nobody stops run `id`, and no pass over it finds a reason to move it;
      anything else may happen, to any run. */
  ghost predicate LeftAlone(cfg: Settings, es: seq<Event>, id: RunId, profile: string) {
    forall i :: 0 <= i < |es| ==> LeavesAlone(cfg, es[i], id, profile)
  }

  ghost predicate LeavesAlone(cfg: Settings, e: Event, id: RunId, profile: string) {
    && !(e.Act? && e.id == id && e.action == StopRun)
    && !(e.Supervise? && e.id == id && !Idle(cfg, profile, e.nodes))
  }

  /** Starting, with no clock to end it. */
  ghost predicate Stuck(w: World, id: RunId, zone: string, profile: string) {
    && id in w.runs && w.runs[id].state.Starting? && !w.runs[id].removed && id !in w.startingSince
    && w.runs[id].zone == zone && w.runs[id].profile == profile
  }

  lemma ActOnStuck(w: World, cfg: Settings, act: RunId, a: Action, now: real, freeGb: Option<real>,
                   id: RunId, zone: string, profile: string)
    requires Stuck(w, id, zone, profile)
    ensures var v := ActStep(w, cfg, act, a, now, freeGb).world;
      if act == id && a == StopRun then Beyond(v, id, Starting) else Stuck(v, id, zone, profile)
  {
    ActMoves(w, cfg, act, a, now, freeGb);
    ClocksFollow(w, cfg, act, a, now, freeGb);
  }

  lemma PassOnStuck(w: World, cfg: Settings, passed: RunId, nodes: seq<Node>, now: real,
                    elapsedS: Option<real>, freeGb: Option<real>, id: RunId, zone: string, profile: string)
    requires Stuck(w, id, zone, profile)
    ensures var v := SuperviseStep(w, cfg, passed, nodes, now, elapsedS, freeGb);
      if passed == id && !Idle(cfg, profile, nodes) then Beyond(v, id, Starting) else Stuck(v, id, zone, profile)
  {
    if passed == id {
      StartingPass(w, cfg, id, nodes, now, elapsedS, freeGb);
      JudgeMoves(w, cfg, id, nodes, now);
    } else if passed in w.runs && MustStop(cfg, w.runs[passed].state, elapsedS, freeGb) {
      ActOnStuck(w, cfg, passed, StopRun, now, freeGb, id, zone, profile);
    }
  }

  lemma StepOnStuck(w: World, cfg: Settings, e: Event, id: RunId, zone: string, profile: string)
    requires Stuck(w, id, zone, profile) && !EndsProcess(e)
    ensures if LeavesAlone(cfg, e, id, profile) then Stuck(Step(w, cfg, e), id, zone, profile)
            else Beyond(Step(w, cfg, e), id, Starting)
  {
    match e
    case Act(act, a, now, freeGb) => ActOnStuck(w, cfg, act, a, now, freeGb, id, zone, profile);
    case Supervise(passed, nodes, now, elapsedS, freeGb) =>
      PassOnStuck(w, cfg, passed, nodes, now, elapsedS, freeGb, id, zone, profile);
    case _ =>
  }

  lemma {:induction false} RunOnStuck(w: World, cfg: Settings, es: seq<Event>, id: RunId, zone: string, profile: string)
    requires Stuck(w, id, zone, profile) && NoRestart(es)
    ensures if LeftAlone(cfg, es, id, profile) then Stuck(RunEvents(w, cfg, es), id, zone, profile)
            else Beyond(RunEvents(w, cfg, es), id, Starting)
  {
    if es != [] {
      var most, last := es[..|es| - 1], es[|es| - 1];
      assert LeftAlone(cfg, es, id, profile)
        <==> LeftAlone(cfg, most, id, profile) && LeavesAlone(cfg, last, id, profile) by
      {
        assert es == most + [last];
      }
      RunOnStuck(w, cfg, most, id, zone, profile);
      if LeftAlone(cfg, most, id, profile) {
        StepOnStuck(RunEvents(w, cfg, most), cfg, last, id, zone, profile);
      } else {
        StepKeepsClocks(RunEvents(w, cfg, most), cfg, last, id, 0.0);
      }
    }
  }

  /** A start refused for disk space holds its zone exactly until somebody stops
      it, or a pass finds a quorum on it or everybody gone from it: until then,
      whatever else happens, no time ends it, and no other run of the zone can
      be started. */
  lemma RefusedStartStrands(w: World, cfg: Settings, id: RunId, now: real, freeGb: Option<real>, es: seq<Event>)
    requires ActStep(w, cfg, id, StartRun, now, freeGb).refusal == Some(LowDisk)
    requires id !in w.startingSince && NoRestart(es)
    ensures var v := RunEvents(ActStep(w, cfg, id, StartRun, now, freeGb).world, cfg, es);
      && id in v.runs
      && (v.runs[id].state == Starting <==> LeftAlone(cfg, es, id, w.runs[id].profile))
      && (v.runs[id].state == Starting ==>
            && v.runs[id].zone == w.runs[id].zone && id !in v.startingSince
            && forall other, t, free | other != id && other in v.runs && !v.runs[other].removed
                                       && v.runs[other].zone == w.runs[id].zone ::
                 ActStep(v, cfg, other, StartRun, t, free).refusal == Some(ZoneBusy))
  {
    var refused := ActStep(w, cfg, id, StartRun, now, freeGb).world;
    RunOnStuck(refused, cfg, es, id, w.runs[id].zone, w.runs[id].profile);
    var v := RunEvents(refused, cfg, es);
    if LeftAlone(cfg, es, id, w.runs[id].profile) {
      assert HoldsSlot(v, id, w.runs[id].zone);
    }
  }
}
