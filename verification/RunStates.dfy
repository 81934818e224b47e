/** The run state machine of the admin service
    (services/admin/src/mec_cast_admin/state.py). */
module RunStates {
  import opened Base

  datatype RunState = Draft | Starting | Running | Degraded | Stopping | Stopped | Failed | Removed

  datatype RunEvent =
    | Start | Stop | Remove
    | QuorumMet | ParticipantLost | ParticipantRecovered | AllOffline
    | ReportsComplete | StartTimeout | StopTimeout

  datatype Action = StartRun | StopRun | RemoveRun

  function EventOf(a: Action): RunEvent {
    match a
    case StartRun => Start
    case StopRun => Stop
    case RemoveRun => Remove
  }

  predicate Terminal(s: RunState) { s.Stopped? || s.Failed? || s.Removed? }

  predicate OccupiesSlot(s: RunState) { s.Starting? || s.Running? || s.Degraded? || s.Stopping? }

  datatype TransitionError = TransitionError(state: RunState, event: RunEvent)

  /** The transition table. */
  function Advance(s: RunState, e: RunEvent): Result<RunState, TransitionError> {
    match (s, e)
    case (Draft, Start) => Ok(Starting)
    case (Draft, Remove) => Ok(Removed)
    case (Starting, QuorumMet) => Ok(Running)
    case (Starting, Stop) => Ok(Stopping)
    case (Starting, StartTimeout) => Ok(Failed)
    case (Starting, AllOffline) => Ok(Failed)
    case (Running, ParticipantLost) => Ok(Degraded)
    case (Running, Stop) => Ok(Stopping)
    case (Running, AllOffline) => Ok(Failed)
    case (Degraded, ParticipantRecovered) => Ok(Running)
    case (Degraded, ParticipantLost) => Ok(Degraded)
    case (Degraded, Stop) => Ok(Stopping)
    case (Degraded, AllOffline) => Ok(Failed)
    case (Stopping, ReportsComplete) => Ok(Stopped)
    case (Stopping, AllOffline) => Ok(Stopped)
    case (Stopping, StopTimeout) => Ok(Stopped)
    case (Stopping, Stop) => Ok(Stopped)
    case (Stopped, Remove) => Ok(Removed)
    case (Failed, Remove) => Ok(Removed)
    case (_, _) => Err(TransitionError(s, e))
  }

  /** The buttons of a row. */
  function AllowedActions(s: RunState): seq<Action> {
    match s
    case Draft => [StartRun, RemoveRun]
    case Starting => [StopRun]
    case Running => [StopRun]
    case Degraded => [StopRun]
    case Stopping => [StopRun]
    case Stopped => [RemoveRun]
    case Failed => [RemoveRun]
    case Removed => []
  }

  /** How far along its life a run is. */
  function Progress(s: RunState): nat {
    match s
    case Draft => 0
    case Starting => 1
    case Running => 2
    case Degraded => 2
    case Stopping => 3
    case Stopped => 4
    case Failed => 4
    case Removed => 5
  }

  /** The two tables agree: a row offers exactly the actions that would be
      accepted. A run never goes back, the slot is entered only by starting a
      draft, and everything that holds a slot can be stopped. */
  lemma TableShape(s: RunState, e: RunEvent, a: Action)
    ensures a in AllowedActions(s) <==> Advance(s, EventOf(a)).Ok?
    ensures Advance(s, e).Ok? ==>
      && Progress(s) <= Progress(Advance(s, e).value)
      && (Progress(s) == Progress(Advance(s, e).value) ==> s.Running? || s.Degraded?)
      && (OccupiesSlot(Advance(s, e).value) && !OccupiesSlot(s) ==> s == Draft && e == Start)
    ensures OccupiesSlot(s) ==> Advance(s, Stop).Ok?
  {
  }
}
