/**
 ConnectionManager: six connection states, retry clock and session barrier.

 Every method of the class is one step. `poll` is two steps, cut at `try_connect`, so that
 any callback may run while the attempt is in flight. The System below interleaves the
 steps of one poller, any callbacks and any threads inside `waitForOperations`.
 */
module ConnectionManager {
  import opened Spacing

  /** Nanoseconds of the monotonic clock. */
  type Instant = int

  const RETRY_INTERVAL: nat := 1_000_000_000
  const EARLIEST: Instant := -0x8000_0000_0000_0000

  datatype State = Disconnected | Connecting | Connected | Reconnecting | WaitingForRoomEos | Stopped

  datatype Manager = Manager(state: State, operationsEnabled: bool, sessionClosed: bool, nextAttemptAt: Instant)

  const NEW_MANAGER := Manager(Disconnected, false, true, EARLIEST)

  datatype SdkState = SdkConnected | SdkReconnecting | SdkDisconnected

  datatype Step =
    | PollBegins(now: Instant)
    | AttemptEnds(connected: bool)
    | LostConnection
    | Recovered
    | TerminalDisconnect
    | RoomEos
    | Stop

  /** The transition that each state the SDK reports triggers. */
  function StepFor(sdk: SdkState): Step {
    match sdk
    case SdkConnected => Recovered
    case SdkReconnecting => LostConnection
    case SdkDisconnected => TerminalDisconnect
  }

  predicate StartsAttempt(m: Manager, now: Instant) {
    m.state == Disconnected && now >= m.nextAttemptAt
  }

  function Enable(m: Manager): Manager { m.(operationsEnabled := true, sessionClosed := false) }
  function Disable(m: Manager): Manager { m.(operationsEnabled := false, sessionClosed := false) }
  function Close(m: Manager): Manager { m.(operationsEnabled := false, sessionClosed := true) }

  function Apply(m: Manager, step: Step): Manager {
    match step
    case PollBegins(now) =>
      if StartsAttempt(m, now) then Disable(m.(state := Connecting, nextAttemptAt := now + RETRY_INTERVAL)) else m
    case AttemptEnds(connected) =>
      if !connected then Close(if m.state == Connecting then m.(state := Disconnected) else m)
      else if m.state == Connecting then Enable(m.(state := Connected))
      else Close(m)
    case LostConnection =>
      if m.state == Connected then Disable(m.(state := Reconnecting)) else m
    case Recovered =>
      if m.state == Reconnecting then Enable(m.(state := Connected)) else m
    case TerminalDisconnect =>
      if m.state in {Connecting, Connected, Reconnecting} then Close(m.(state := WaitingForRoomEos)) else m
    case RoomEos =>
      if m.state in {Connecting, Connected, Reconnecting} then Close(m.(state := Disconnected))
      else if m.state == WaitingForRoomEos then m.(state := Disconnected)
      else m
    case Stop => Close(m.(state := Stopped))
  }

  /** Does the step end in `session_cv_.notify_all()`? */
  predicate Notifies(m: Manager, step: Step) {
    match step
    case PollBegins(_) => false
    case AttemptEnds(_) => true
    case LostConnection => false
    case Recovered => m.state == Reconnecting
    case TerminalDisconnect => m.state in {Connecting, Connected, Reconnecting}
    case RoomEos => m.state in {Connecting, Connected, Reconnecting}
    case Stop => true
  }

  /** What `waitForOperations` waits for. */
  predicate MayLeaveBarrier(m: Manager) {
    m.operationsEnabled || m.sessionClosed
  }

  class ConnectionManager {
    var state: State
    var operationsEnabled: bool
    var sessionClosed: bool
    var nextAttemptAt: Instant
    /** Number of `session_cv_.notify_all()` calls so far. */
    ghost var notifications: nat

    ghost function View(): Manager
      reads this
    {
      Manager(state, operationsEnabled, sessionClosed, nextAttemptAt)
    }

    twostate predicate Did(step: Step)
      reads this
    {
      && View() == Apply(old(View()), step)
      && notifications == old(notifications) + (if Notifies(old(View()), step) then 1 else 0)
    }

    constructor ()
      ensures View() == NEW_MANAGER && notifications == 0
    {
      state, operationsEnabled, sessionClosed, nextAttemptAt := Disconnected, false, true, EARLIEST;
      notifications := 0;
    }

    /** The state after a transition, and the barrier: operations allowed, session closed. */
    ghost predicate Is(state: State, operationsEnabled: bool, sessionClosed: bool)
      reads this
    {
      this.state == state && this.operationsEnabled == operationsEnabled && this.sessionClosed == sessionClosed
    }

    /** `poll` up to the call of `try_connect`. */
    method PollBegin(now: Instant) returns (attempting: bool)
      modifies this
      ensures Did(PollBegins(now))
      ensures attempting <==> old(state) == Disconnected && old(nextAttemptAt) <= now
      ensures attempting ==> Is(Connecting, false, false) && nextAttemptAt == now + 1_000_000_000
      ensures !attempting ==> unchanged(this)
    {
      if state != Disconnected {
        return false;
      }
      if now < nextAttemptAt {
        return false;
      }
      state := Connecting;
      nextAttemptAt := now + RETRY_INTERVAL;
      BeginSessionAttempt();
      return true;
    }

    /** `poll` after `try_connect`; an attempt that threw counts as not connected. */
    method PollEnd(connected: bool)
      modifies this
      ensures Did(AttemptEnds(connected))
      ensures nextAttemptAt == old(nextAttemptAt) && notifications == old(notifications) + 1
      ensures old(state) == Connecting && connected ==> Is(Connected, true, false)
      ensures old(state) == Connecting && !connected ==> Is(Disconnected, false, true)
      ensures old(state) != Connecting ==> Is(old(state), false, true)
    {
      if !connected {
        CloseSession();
        if state == Connecting {
          state := Disconnected;
        }
        return;
      }
      if state == Connecting {
        state := Connected;
        EnableOperations();
      } else {
        CloseSession();
      }
    }

    /** Only Connected changes: operations stop, the session stays open and nobody is woken. */
    twostate predicate Losing()
      reads this
    {
      if old(state) == Connected then
        Is(Reconnecting, false, false) && nextAttemptAt == old(nextAttemptAt) && notifications == old(notifications)
      else unchanged(this)
    }

    /** Only Reconnecting changes: operations go on and waiters are woken. */
    twostate predicate Recovering()
      reads this
    {
      if old(state) == Reconnecting then
        Is(Connected, true, false) && nextAttemptAt == old(nextAttemptAt) && notifications == old(notifications) + 1
      else unchanged(this)
    }

    /** Every state with a session ends in WaitingForRoomEos, the session closed and waiters woken; no other changes. */
    twostate predicate Ending()
      reads this
    {
      if old(state) in {Connecting, Connected, Reconnecting} then
        && Is(WaitingForRoomEos, false, true)
        && nextAttemptAt == old(nextAttemptAt) && notifications == old(notifications) + 1
      else unchanged(this)
    }

    method OnConnectionStateChanged(sdk: SdkState)
      modifies this
      ensures Did(StepFor(sdk))
      ensures sdk == SdkConnected ==> Recovering()
      ensures sdk == SdkReconnecting ==> Losing()
      ensures sdk == SdkDisconnected ==> Ending()
    {
      match sdk
      case SdkConnected => TransitionToReconnected();
      case SdkReconnecting => TransitionToReconnecting();
      case SdkDisconnected => TransitionToDisconnected();
    }

    method TransitionToReconnecting()
      modifies this
      ensures Did(LostConnection) && Losing()
    {
      if state == Connected {
        state := Reconnecting;
        DisableOperations();
      }
    }

    method TransitionToReconnected()
      modifies this
      ensures Did(Recovered) && Recovering()
    {
      if state == Reconnecting {
        state := Connected;
        EnableOperations();
      }
    }

    method TransitionToDisconnected()
      modifies this
      ensures Did(TerminalDisconnect) && Ending()
    {
      var previous := state;
      if previous != Stopped && previous != Disconnected && previous != WaitingForRoomEos {
        state := WaitingForRoomEos;
      }
      if previous != Stopped && previous != WaitingForRoomEos && previous != Disconnected {
        CloseSession();
      }
    }

    method OnRoomEos()
      modifies this
      ensures Did(RoomEos)
      ensures nextAttemptAt == old(nextAttemptAt)
      ensures old(state) in {Connecting, Connected, Reconnecting} ==>
                Is(Disconnected, false, true) && notifications == old(notifications) + 1
      ensures old(state) == WaitingForRoomEos ==>
                && Is(Disconnected, old(operationsEnabled), old(sessionClosed))
                && notifications == old(notifications)
      ensures old(state) in {Disconnected, Stopped} ==> unchanged(this)
    {
      var previous := state;
      if previous != Stopped && previous != Disconnected {
        state := Disconnected;
      }
      if previous != Stopped && previous != Disconnected && previous != WaitingForRoomEos {
        CloseSession();
      }
    }

    method StopConnection()
      modifies this
      ensures Did(Stop)
      ensures Is(Stopped, false, true) && nextAttemptAt == old(nextAttemptAt)
      ensures notifications == old(notifications) + 1
    {
      state := Stopped;
      CloseSession();
    }

    method BeginSessionAttempt()
      modifies this`operationsEnabled, this`sessionClosed
      ensures View() == Disable(old(View()))
    {
      operationsEnabled := false;
      sessionClosed := false;
    }

    method EnableOperations()
      modifies this`operationsEnabled, this`sessionClosed, this`notifications
      ensures View() == Enable(old(View())) && Is(old(state), true, false) && notifications == old(notifications) + 1
    {
      sessionClosed := false;
      operationsEnabled := true;
      notifications := notifications + 1;
    }

    method DisableOperations()
      modifies this`operationsEnabled, this`sessionClosed
      ensures View() == Disable(old(View()))
    {
      operationsEnabled := false;
      sessionClosed := false;
    }

    method CloseSession()
      modifies this`operationsEnabled, this`sessionClosed, this`notifications
      ensures View() == Close(old(View())) && notifications == old(notifications) + 1
    {
      operationsEnabled := false;
      sessionClosed := true;
      notifications := notifications + 1;
    }
  }

  // ---------------------------------------------------------------------------
  // One poller, callbacks and waiters
  // ---------------------------------------------------------------------------

  datatype Event =
    | Run(step: Step)
    | WaitEnters(thread: nat)
    | WaitResumes(thread: nat)

  /** `blocked` sleeps on the condition variable, `woken` was notified and will look again. */
  datatype System = System(
    manager: Manager,
    attempting: bool,
    clock: Instant,
    attempts: seq<Instant>,
    blocked: set<nat>,
    woken: set<nat>)

  const INITIAL := System(NEW_MANAGER, false, EARLIEST, [], {}, {})

  ghost predicate Enabled(s: System, e: Event) {
    match e
    case Run(PollBegins(now)) => !s.attempting && s.clock <= now
    case Run(AttemptEnds(_)) => s.attempting
    case Run(_) => true
    case WaitEnters(thread) => thread !in s.blocked + s.woken
    case WaitResumes(thread) => thread in s.woken
  }

  ghost function Next(s: System, e: Event): System
    requires Enabled(s, e)
  {
    match e
    case Run(step) =>
      var t := s.(manager := Apply(s.manager, step));
      var u := if Notifies(s.manager, step) then t.(blocked := {}, woken := s.woken + s.blocked) else t;
      (match step
       case PollBegins(now) =>
         if StartsAttempt(s.manager, now) then u.(clock := now, attempting := true, attempts := s.attempts + [now])
         else u.(clock := now)
       case AttemptEnds(_) => u.(attempting := false)
       case _ => u)
    case WaitEnters(thread) =>
      if MayLeaveBarrier(s.manager) then s else s.(blocked := s.blocked + {thread})
    case WaitResumes(thread) =>
      var t := s.(woken := s.woken - {thread});
      if MayLeaveBarrier(s.manager) then t else t.(blocked := s.blocked + {thread})
  }

  ghost predicate IsRun(s: System, events: seq<Event>)
    decreases |events|
  {
    events == [] || (Enabled(s, events[0]) && IsRun(Next(s, events[0]), events[1..]))
  }

  ghost function After(s: System, events: seq<Event>): System
    requires IsRun(s, events)
    decreases |events|
  {
    if events == [] then s else After(Next(s, events[0]), events[1..])
  }

  ghost predicate Reachable(s: System) {
    exists events :: IsRun(INITIAL, events) && After(INITIAL, events) == s
  }

  ghost predicate BarrierMatchesState(m: Manager) {
    && (m.operationsEnabled <==> m.state == Connected)
    && (m.sessionClosed <==> m.state in {Disconnected, WaitingForRoomEos, Stopped})
  }

  ghost predicate Inv(s: System) {
    && BarrierMatchesState(s.manager)
    && (s.attempting ==> s.manager.state !in {Connected, Reconnecting})
    && (s.manager.state == Connecting ==> s.attempting)
    && (s.blocked != {} ==> !MayLeaveBarrier(s.manager))
    && Spaced(s.attempts, RETRY_INTERVAL)
    && (s.attempts != [] ==> s.attempts[|s.attempts| - 1] + RETRY_INTERVAL == s.manager.nextAttemptAt)
    && (s.attempts == [] ==> s.manager.nextAttemptAt == EARLIEST)
    && s.clock >= EARLIEST
  }

  lemma StepPreservesInv(s: System, step: Step)
    requires Inv(s) && Enabled(s, Run(step))
    ensures Inv(Next(s, Run(step)))
  {
    match step
    case PollBegins(_) =>
    case AttemptEnds(_) =>
    case LostConnection =>
    case Recovered =>
    case TerminalDisconnect =>
    case RoomEos =>
    case Stop =>
  }

  lemma NextPreservesInv(s: System, e: Event)
    requires Inv(s) && Enabled(s, e)
    ensures Inv(Next(s, e))
  {
    match e
    case Run(step) => StepPreservesInv(s, step);
    case WaitEnters(_) =>
    case WaitResumes(_) =>
  }

  lemma {:induction false} RunPreservesInv(s: System, events: seq<Event>)
    requires Inv(s) && IsRun(s, events)
    ensures Inv(After(s, events))
    decreases |events|
  {
    if events != [] {
      NextPreservesInv(s, events[0]);
      RunPreservesInv(Next(s, events[0]), events[1..]);
    }
  }

  lemma ReachableInv(s: System)
    requires Reachable(s)
    ensures Inv(s)
  {
    var events :| IsRun(INITIAL, events) && After(INITIAL, events) == s;
    RunPreservesInv(INITIAL, events);
  }

  /** Operations are enabled exactly when connected; the session is closed exactly when no join can complete it. */
  lemma BarrierTracksState(s: System)
    requires Reachable(s)
    ensures s.manager.operationsEnabled <==> s.manager.state == Connected
    ensures s.manager.sessionClosed <==> s.manager.state in {Disconnected, WaitingForRoomEos, Stopped}
    ensures s.manager.state == Connecting ==> s.attempting
  {
    ReachableInv(s);
  }

  /** Nobody sleeps at the barrier unless a join or an SDK reconnect is in progress: no wake-up is lost. */
  lemma NoWaiterHangs(s: System)
    requires Reachable(s)
    ensures s.blocked != {} ==> s.manager.state in {Connecting, Reconnecting}
  {
    ReachableInv(s);
  }

  /** A thread that looks at the barrier leaves unless a join is pending, and is told the truth about the state. */
  lemma WaiterLeavesWithTheState(s: System, thread: nat)
    requires Reachable(s) && thread in s.woken
    ensures
      var t := Next(s, WaitResumes(thread));
      && (thread in t.blocked <==> thread in s.blocked || s.manager.state in {Connecting, Reconnecting})
      && (thread !in t.blocked ==> (s.manager.operationsEnabled <==> s.manager.state == Connected))
  {
    ReachableInv(s);
  }

  /** With a clock that never goes back, attempts start at least the retry interval apart. */
  lemma AttemptsPerWindow(s: System, start: Instant, width: nat)
    requires Reachable(s)
    ensures forall i, j | 0 <= i < j < |s.attempts| :: s.attempts[j] - s.attempts[i] >= RETRY_INTERVAL
    ensures |InWindow(s.attempts, start, width)| <= width / RETRY_INTERVAL + 1
  {
    ReachableInv(s);
    WindowBound(s.attempts, RETRY_INTERVAL, start, width);
    forall i, j | 0 <= i < j < |s.attempts|
      ensures s.attempts[j] - s.attempts[i] >= RETRY_INTERVAL
    {
      SpacedDistance(s.attempts, RETRY_INTERVAL, i, j);
    }
  }

  /** Between a terminal disconnect and the end of the room's event stream no attempt starts. */
  lemma {:induction false} NoAttemptBeforeRoomEos(s: System, events: seq<Event>)
    requires IsRun(s, events) && Run(RoomEos) !in events
    requires s.manager.state in {WaitingForRoomEos, Stopped}
    ensures After(s, events).attempts == s.attempts
    ensures After(s, events).manager.state in {WaitingForRoomEos, Stopped}
    decreases |events|
  {
    if events != [] {
      assert events[0] in events;
      NoAttemptBeforeRoomEos(Next(s, events[0]), events[1..]);
    }
  }

  /** Stopped is never left, no attempt starts any more, and the barrier stays open for leaving. */
  lemma {:induction false} StoppedIsFinal(s: System, events: seq<Event>)
    requires Inv(s) && IsRun(s, events) && s.manager.state == Stopped
    ensures After(s, events).manager.state == Stopped
    ensures After(s, events).attempts == s.attempts
    ensures After(s, events).blocked == {} && After(s, events).manager.sessionClosed
    decreases |events|
  {
    if events != [] {
      NextPreservesInv(s, events[0]);
      StoppedIsFinal(Next(s, events[0]), events[1..]);
    }
  }

  /** A poll starts an attempt exactly when nothing is connected, pending or stopped and the interval has passed. */
  lemma PollRetriesAfterInterval(s: System, now: Instant)
    requires Reachable(s) && Enabled(s, Run(PollBegins(now)))
    ensures
      var t := Next(s, Run(PollBegins(now)));
      t.attempts == s.attempts + [now] <==>
        && s.manager.state == Disconnected
        && (s.attempts == [] || now - s.attempts[|s.attempts| - 1] >= RETRY_INTERVAL)
  {
    ReachableInv(s);
  }

  // ---------------------------------------------------------------------------
  // What the SDK's reports do to a run
  // ---------------------------------------------------------------------------

  /**
   A terminal disconnect that the SDK reports in a state with a session closes it, wakes everybody and lets no
   attempt start until the room's event stream has ended.
   */
  lemma ReportedDisconnectEndsSession(s: System, more: seq<Event>)
    requires Reachable(s) && s.manager.state in {Connecting, Connected, Reconnecting}
    ensures
      var t := Next(s, Run(StepFor(SdkDisconnected)));
      && t.manager.state == WaitingForRoomEos && t.manager.sessionClosed && !t.manager.operationsEnabled
      && t.blocked == {} && t.woken == s.woken + s.blocked
      && (IsRun(t, more) && Run(RoomEos) !in more ==> After(t, more).attempts == s.attempts)
  {
    var t := Next(s, Run(StepFor(SdkDisconnected)));
    if IsRun(t, more) && Run(RoomEos) !in more {
      NoAttemptBeforeRoomEos(t, more);
    }
  }

  /** A loss and a recovery that the SDK reports: operations stop, go on, and the waiters of the gap are woken. */
  lemma ReportedReconnect(s: System)
    requires Reachable(s) && s.manager.state == Connected
    ensures
      var t := Next(s, Run(StepFor(SdkReconnecting)));
      && t.manager.state == Reconnecting && !t.manager.operationsEnabled && !t.manager.sessionClosed
      && t.blocked == s.blocked && t.attempts == s.attempts
    ensures
      var t := Next(s, Run(StepFor(SdkReconnecting)));
      var u := Next(t, Run(StepFor(SdkConnected)));
      && u.manager == s.manager && u.attempts == s.attempts && u.blocked == {}
  {
    ReachableInv(s);
  }

  /** In every other state the reports change nothing. */
  lemma OtherReportsAreIgnored(s: System, sdk: SdkState)
    requires sdk == SdkConnected ==> s.manager.state != Reconnecting
    requires sdk == SdkReconnecting ==> s.manager.state != Connected
    requires sdk == SdkDisconnected ==> s.manager.state in {Disconnected, WaitingForRoomEos, Stopped}
    ensures Next(s, Run(StepFor(sdk))) == s
  {
    match sdk
    case SdkConnected =>
    case SdkReconnecting =>
    case SdkDisconnected =>
  }

  /** An attempt ends connected, with operations enabled, exactly when try_connect said so and nobody interfered. */
  lemma AttemptOutcome(s: System, connected: bool)
    requires Reachable(s) && s.attempting
    ensures
      var t := Next(s, Run(AttemptEnds(connected)));
      && !t.attempting && t.blocked == {}
      && t.manager.state ==
         (if s.manager.state != Connecting then s.manager.state else if connected then Connected else Disconnected)
      && (t.manager.operationsEnabled <==> s.manager.state == Connecting && connected)
  {
    ReachableInv(s);
  }

  /** The end of the room's event stream makes the next attempt possible again, in every state but Stopped. */
  lemma RoomEndAllowsRetry(s: System, now: Instant)
    requires Reachable(s) && s.manager.state != Stopped && !s.attempting && s.clock <= now
    requires s.attempts == [] || now - s.attempts[|s.attempts| - 1] >= 1_000_000_000
    ensures
      var t := Next(s, Run(RoomEos));
      && t.manager.state == Disconnected
      && Next(t, Run(PollBegins(now))).attempts == s.attempts + [now]
  {
    ReachableInv(s);
  }
}
