/**
 ConnectionManager's state and its session barrier at the grain of single writes: a transition first
 changes the state and only later, under the session mutex, the barrier. Other threads act in between.
 */
module SessionBarrier {
  import opened ConnectionManager
  import opened Optional

  /** The two barrier flags. A thread in waitForOperations sleeps while both are false. */
  datatype Flags = Flags(operationsEnabled: bool, sessionClosed: bool)

  /** beginSessionAttempt, enableOperations, disableOperations and closeSession. */
  datatype Write = Begin | Enabling | Disabling | Closing

  function Effect(w: Write): Flags {
    match w
    case Begin => Flags(false, false)
    case Enabling => Flags(true, false)
    case Disabling => Flags(false, false)
    case Closing => Flags(false, true)
  }

  /** What the barrier should say in a state. */
  function Proper(state: State): Flags {
    Flags(state == Connected, state in {Disconnected, WaitingForRoomEos, Stopped})
  }

  /** Where `poll` stands; after a failed attempt it writes the barrier first and the state afterwards. */
  datatype Poll = Idle | MustBegin | Attempting | MustEnable | MustClose | Failing | GivingUp

  type Thread = nat

  /** `owed` holds the write of each thread, in a callback or stop(), that has changed the state but not the barrier. */
  datatype Session = Session(state: State, flags: Flags, poll: Poll, owed: map<Thread, Write>)

  const INITIAL := Session(Disconnected, Flags(false, true), Idle, map[])

  datatype Action =
    | PollStarts
    | PollWrites
    | TryConnectReturns(connected: bool)
    | PollGivesUp
    | Writes(thread: Thread)
    | Lost(thread: Thread)
    | Recovers(thread: Thread)
    | Disconnects(thread: Thread)
    | RoomEnds(thread: Thread)
    | Stops(thread: Thread)

  /** The barrier write that `poll` makes next. */
  function PollWrite(poll: Poll): Option<Write> {
    match poll
    case MustBegin => Some(Begin)
    case MustEnable => Some(Enabling)
    case MustClose => Some(Closing)
    case Failing => Some(Closing)
    case _ => None
  }

  function AfterPollWrites(poll: Poll): Poll {
    match poll
    case MustBegin => Attempting
    case Failing => GivingUp
    case _ => Idle
  }

  predicate Enabled(s: Session, e: Action) {
    match e
    case PollStarts => s.poll.Idle? && s.state == Disconnected
    case PollWrites => PollWrite(s.poll).Some?
    case TryConnectReturns(_) => s.poll.Attempting?
    case PollGivesUp => s.poll.GivingUp?
    case Writes(t) => t in s.owed
    case _ => e.thread !in s.owed
  }

  predicate HasSession(state: State) {
    state in {Connecting, Connected, Reconnecting}
  }

  function Owing(s: Session, state: State, thread: Thread, w: Write): Session {
    s.(state := state, owed := s.owed[thread := w])
  }

  function Next(s: Session, e: Action): Session
    requires Enabled(s, e)
  {
    match e
    case PollStarts => s.(state := Connecting, poll := MustBegin)
    case PollWrites => s.(flags := Effect(PollWrite(s.poll).value), poll := AfterPollWrites(s.poll))
    case TryConnectReturns(connected) =>
      if !connected then s.(poll := Failing)
      else if s.state == Connecting then s.(state := Connected, poll := MustEnable)
      else s.(poll := MustClose)
    case PollGivesUp => s.(state := if s.state == Connecting then Disconnected else s.state, poll := Idle)
    case Writes(t) => s.(flags := Effect(s.owed[t]), owed := s.owed - {t})
    case Lost(t) => if s.state == Connected then Owing(s, Reconnecting, t, Disabling) else s
    case Recovers(t) => if s.state == Reconnecting then Owing(s, Connected, t, Enabling) else s
    case Disconnects(t) => if HasSession(s.state) then Owing(s, WaitingForRoomEos, t, Closing) else s
    case RoomEnds(t) =>
      if HasSession(s.state) then Owing(s, Disconnected, t, Closing)
      else if s.state == WaitingForRoomEos then s.(state := Disconnected)
      else s
    case Stops(t) => Owing(s, Stopped, t, Closing)
  }

  ghost predicate IsRun(s: Session, actions: seq<Action>)
    decreases |actions|
  {
    actions == [] || (Enabled(s, actions[0]) && IsRun(Next(s, actions[0]), actions[1..]))
  }

  ghost function After(s: Session, actions: seq<Action>): Session
    requires IsRun(s, actions)
    decreases |actions|
  {
    if actions == [] then s else After(Next(s, actions[0]), actions[1..])
  }

  ghost predicate Reachable(s: Session) {
    exists actions: seq<Action> :: IsRun(INITIAL, actions) && After(INITIAL, actions) == s
  }

  // ---------------------------------------------------------------------------
  // When every way to finish the writes leaves the barrier right
  // ---------------------------------------------------------------------------

  /** Barrier writes, and giving up a failed attempt: what is left to do when no transition follows. */
  predicate IsFinishing(e: Action) {
    e.PollWrites? || e.PollGivesUp? || e.Writes?
  }

  predicate Settled(s: Session) {
    s.owed == map[] && (s.poll.Idle? || s.poll.Attempting?)
  }

  predicate Agrees(s: Session) {
    s.flags == Proper(s.state)
  }

  /** However the pending writes fall, the barrier agrees with the state once they are done. */
  ghost predicate FinishesRight(s: Session) {
    forall actions: seq<Action> | IsRun(s, actions) && (forall e | e in actions :: IsFinishing(e))
      && Settled(After(s, actions)) :: Agrees(After(s, actions))
  }

  /** The state once a failed attempt is given up. */
  function FinalState(s: Session): State {
    if s.state == Connecting && (s.poll.Failing? || s.poll.GivingUp?) then Disconnected else s.state
  }

  /** Some thread has changed the state and still owes the barrier its write. */
  predicate WritePending(s: Session) {
    s.owed != map[] || PollWrite(s.poll).Some?
  }

  /** Whatever is owed makes the barrier right, or nothing is owed and it is right. */
  ghost predicate Orderly(s: Session) {
    var right := Proper(FinalState(s));
    && (!WritePending(s) ==> s.flags == right)
    && (PollWrite(s.poll).Some? ==> Effect(PollWrite(s.poll).value) == right)
    && forall t | t in s.owed :: Effect(s.owed[t]) == right
  }

  lemma FinishingKeepsOrderly(s: Session, e: Action)
    requires Orderly(s) && Enabled(s, e) && IsFinishing(e)
    ensures Orderly(Next(s, e))
  {
    assert FinalState(Next(s, e)) == FinalState(s);
  }

  lemma {:induction false} OrderlyFinishesRight(s: Session, actions: seq<Action>)
    requires Orderly(s) && IsRun(s, actions) && (forall e | e in actions :: IsFinishing(e))
    requires Settled(After(s, actions))
    ensures Agrees(After(s, actions))
    decreases |actions|
  {
    if actions != [] {
      assert actions[0] in actions;
      FinishingKeepsOrderly(s, actions[0]);
      OrderlyFinishesRight(Next(s, actions[0]), actions[1..]);
    }
  }

  /** A session that is not orderly can go on finishing without becoming so: a wrong write comes last. */
  lemma StayDisorderly(s: Session) returns (e: Action)
    requires !Orderly(s) && !Settled(s)
    ensures Enabled(s, e) && IsFinishing(e) && !Orderly(Next(s, e))
  {
    var right := Proper(FinalState(s));
    if bad :| bad in s.owed && Effect(s.owed[bad]) != right {
      if PollWrite(s.poll).Some? {
        e := PollWrites;
      } else if other :| other in s.owed && other != bad {
        e := Writes(other);
        assert bad in Next(s, e).owed;
      } else {
        e := Writes(bad);
        assert Next(s, e).owed == map[];
      }
    } else if other :| other in s.owed {
      e := Writes(other);
    } else {
      e := if PollWrite(s.poll).Some? then PollWrites else PollGivesUp;
    }
    assert FinalState(Next(s, e)) == FinalState(s);
  }

  /** The finishing actions left. */
  function ActionsLeft(s: Session): nat {
    |s.owed| +
    match s.poll
    case Idle => 0
    case Attempting => 0
    case Failing => 2
    case _ => 1
  }

  lemma FinishingLeavesFewer(s: Session, e: Action)
    requires Enabled(s, e) && IsFinishing(e)
    ensures ActionsLeft(Next(s, e)) < ActionsLeft(s)
  {
    if e.Writes? {
      assert Next(s, e).owed.Keys == s.owed.Keys - {e.thread};
    }
  }

  lemma OneMoreAction(s: Session, e: Action, rest: seq<Action>)
    requires Enabled(s, e) && IsRun(Next(s, e), rest)
    ensures IsRun(s, [e] + rest) && After(s, [e] + rest) == After(Next(s, e), rest)
  {
    assert ([e] + rest)[1..] == rest;
  }

  lemma {:induction false} DisorderlyFinishesWrong(s: Session) returns (actions: seq<Action>)
    requires !Orderly(s)
    ensures IsRun(s, actions) && (forall e | e in actions :: IsFinishing(e))
    ensures Settled(After(s, actions)) && !Agrees(After(s, actions))
    decreases ActionsLeft(s)
  {
    if Settled(s) {
      actions := [];
    } else {
      var e := StayDisorderly(s);
      FinishingLeavesFewer(s, e);
      var rest := DisorderlyFinishesWrong(Next(s, e));
      OneMoreAction(s, e, rest);
      actions := [e] + rest;
    }
  }

  /**
   The barrier ends up right in every order of the pending writes exactly when each of them makes it right
   for the present state, or none is pending and it is right.
   */
  lemma FinishesRightIff(s: Session)
    ensures FinishesRight(s) <==> Orderly(s)
  {
    if Orderly(s) {
      forall actions: seq<Action> | IsRun(s, actions) && (forall e | e in actions :: IsFinishing(e))
        && Settled(After(s, actions))
        ensures Agrees(After(s, actions))
      {
        OrderlyFinishesRight(s, actions);
      }
    } else {
      var actions := DisorderlyFinishesWrong(s);
    }
  }

  // ---------------------------------------------------------------------------
  // Which runs keep it that way
  // ---------------------------------------------------------------------------

  ghost predicate Inv(s: Session) {
    && (s.state in {Connected, Reconnecting} ==> s.poll.Idle? || s.poll.MustEnable?)
    && (s.state == Connecting ==> !s.poll.Idle? && !s.poll.MustEnable? && !s.poll.MustClose?)
  }

  /** The action changes what the barrier should say while some thread still owes it an earlier write. */
  predicate Overtakes(s: Session, e: Action)
    requires Enabled(s, e)
  {
    WritePending(s) && Proper(FinalState(Next(s, e))) != Proper(FinalState(s))
  }

  lemma ActionKeepsOrderly(s: Session, e: Action)
    requires Inv(s) && Orderly(s) && Enabled(s, e)
    ensures Inv(Next(s, e))
    ensures Orderly(Next(s, e)) <==> !Overtakes(s, e)
  {
    var u := Next(s, e);
    if IsFinishing(e) {
      FinishingKeepsOrderly(s, e);
    } else if WritePending(s) {
      if t :| t in s.owed {
        assert t in u.owed && u.owed[t] == s.owed[t];
      } else {
        assert PollWrite(u.poll) == PollWrite(s.poll);
      }
    }
  }

  ghost predicate AlwaysFinishesRight(s: Session, actions: seq<Action>)
    requires IsRun(s, actions)
    decreases |actions|
  {
    FinishesRight(s) && (actions == [] || AlwaysFinishesRight(Next(s, actions[0]), actions[1..]))
  }

  ghost predicate NeverOvertakes(s: Session, actions: seq<Action>)
    requires IsRun(s, actions)
    decreases |actions|
  {
    actions == [] || (!Overtakes(s, actions[0]) && NeverOvertakes(Next(s, actions[0]), actions[1..]))
  }

  lemma {:induction false} RunFinishesRightIff(s: Session, actions: seq<Action>)
    requires Inv(s) && Orderly(s) && IsRun(s, actions)
    ensures AlwaysFinishesRight(s, actions) <==> NeverOvertakes(s, actions)
    decreases |actions|
  {
    FinishesRightIff(s);
    if actions != [] {
      var u := Next(s, actions[0]);
      ActionKeepsOrderly(s, actions[0]);
      FinishesRightIff(u);
      if Orderly(u) {
        RunFinishesRightIff(u, actions[1..]);
      }
    }
  }

  /**
   All along a run the barrier is bound to end up right exactly when no transition of the run changes what
   the barrier should say while a write is pending.
   */
  lemma BarrierIsRightIff(actions: seq<Action>)
    requires IsRun(INITIAL, actions)
    ensures AlwaysFinishesRight(INITIAL, actions) <==> NeverOvertakes(INITIAL, actions)
  {
    RunFinishesRightIff(INITIAL, actions);
  }

  // ---------------------------------------------------------------------------
  // Two runs in which a write is overtaken by stop()
  // ---------------------------------------------------------------------------

  /** After stop() nothing but another stop() changes anything. */
  lemma {:induction false} StoppedStays(s: Session, more: seq<Action>)
    requires s.state == Stopped && s.poll.Idle? && s.owed == map[] && IsRun(s, more)
    requires forall e | e in more :: !e.Stops?
    ensures After(s, more) == s
    decreases |more|
  {
    if more != [] {
      assert more[0] in more;
      StoppedStays(s, more[1..]);
    }
  }

  lemma {:induction false} LastAction(s: Session, actions: seq<Action>, e: Action)
    requires IsRun(s, actions) && Enabled(After(s, actions), e)
    ensures IsRun(s, actions + [e]) && After(s, actions + [e]) == Next(After(s, actions), e)
    decreases |actions|
  {
    if actions == [] {
      OneMoreAction(s, e, []);
    } else {
      LastAction(Next(s, actions[0]), actions[1..], e);
      OneMoreAction(s, actions[0], actions[1..] + [e]);
      assert [actions[0]] + (actions[1..] + [e]) == actions + [e];
    }
  }

  lemma ReachableNext(s: Session, e: Action, u: Session)
    requires Reachable(s) && Enabled(s, e) && Next(s, e) == u
    ensures Reachable(u)
  {
    var actions: seq<Action> :| IsRun(INITIAL, actions) && After(INITIAL, actions) == s;
    LastAction(INITIAL, actions, e);
  }

  /** A join that has reached Connected and not yet enabled operations. */
  const JOINED := Session(Connected, Flags(false, false), MustEnable, map[])

  lemma JoinedIsReachable()
    ensures Reachable(JOINED)
  {
    assert IsRun(INITIAL, []) && After(INITIAL, []) == INITIAL;
    var s1 := Session(Connecting, Flags(false, true), MustBegin, map[]);
    ReachableNext(INITIAL, PollStarts, s1);
    var s2 := Session(Connecting, Flags(false, false), Attempting, map[]);
    ReachableNext(s1, PollWrites, s2);
    ReachableNext(s2, TryConnectReturns(true), JOINED);
  }

  /** stop() between a join and its enableOperations: operations stay enabled in Stopped. */
  lemma EnabledAfterStop(more: seq<Action>)
    ensures
      var s := Session(Stopped, Flags(true, false), Idle, map[]);
      && Reachable(s)
      && (IsRun(s, more) && (forall e | e in more :: !e.Stops?) ==> After(s, more).flags.operationsEnabled)
  {
    JoinedIsReachable();
    var s1 := Session(Stopped, Flags(false, false), MustEnable, map[0 := Closing]);
    ReachableNext(JOINED, Stops(0), s1);
    var s2 := Session(Stopped, Flags(false, true), MustEnable, map[]);
    assert s1.owed - {0} == map[];
    ReachableNext(s1, Writes(0), s2);
    var s := Session(Stopped, Flags(true, false), Idle, map[]);
    ReachableNext(s2, PollWrites, s);
    if IsRun(s, more) && (forall e | e in more :: !e.Stops?) {
      StoppedStays(s, more);
    }
  }

  /** stop() between the loss of a connection and its disableOperations: whoever waits then sleeps for good. */
  lemma AsleepAfterStop(more: seq<Action>)
    ensures
      var s := Session(Stopped, Flags(false, false), Idle, map[]);
      && Reachable(s)
      && (IsRun(s, more) && (forall e | e in more :: !e.Stops?) ==> After(s, more).flags == Flags(false, false))
  {
    StoppedBeforeDisabling();
    var s1 := Session(Stopped, Flags(false, true), Idle, map[0 := Disabling]);
    var s := Session(Stopped, Flags(false, false), Idle, map[]);
    assert s1.owed - {0} == map[];
    ReachableNext(s1, Writes(0), s);
    if IsRun(s, more) && (forall e | e in more :: !e.Stops?) {
      StoppedStays(s, more);
    }
  }

  lemma StoppedBeforeDisabling()
    ensures Reachable(Session(Stopped, Flags(false, true), Idle, map[0 := Disabling]))
  {
    JoinedIsReachable();
    var s1 := Session(Connected, Flags(true, false), Idle, map[]);
    ReachableNext(JOINED, PollWrites, s1);
    var s2 := Session(Reconnecting, Flags(true, false), Idle, map[0 := Disabling]);
    ReachableNext(s1, Lost(0), s2);
    var s3 := Session(Stopped, Flags(true, false), Idle, map[0 := Disabling, 1 := Closing]);
    ReachableNext(s2, Stops(1), s3);
    assert s3.owed - {1} == map[0 := Disabling];
    ReachableNext(s3, Writes(1), Session(Stopped, Flags(false, true), Idle, map[0 := Disabling]));
  }

  // ---------------------------------------------------------------------------
  // Uninterrupted transitions are the steps of ConnectionManager
  // ---------------------------------------------------------------------------

  ghost predicate Same(m: Manager, s: Session) {
    s.state == m.state && s.flags == Flags(m.operationsEnabled, m.sessionClosed) && s.owed == map[]
  }

  /** The first action of each step that a callback or stop() makes. */
  function Transition(step: Step, t: Thread): Action
    requires !step.PollBegins? && !step.AttemptEnds?
  {
    match step
    case LostConnection => Lost(t)
    case Recovered => Recovers(t)
    case TerminalDisconnect => Disconnects(t)
    case RoomEos => RoomEnds(t)
    case Stop => Stops(t)
  }

  /** The actions of one step with nobody in between. */
  function Uninterrupted(s: Session, step: Step, t: Thread): seq<Action>
    requires s.owed == map[]
  {
    match step
    case PollBegins(_) => [PollStarts, PollWrites]
    case AttemptEnds(connected) =>
      if connected then [TryConnectReturns(true), PollWrites]
      else [TryConnectReturns(false), PollWrites, PollGivesUp]
    case _ =>
      var e := Transition(step, t);
      if t in Next(s, e).owed then [e, Writes(t)] else [e]
  }

  lemma UninterruptedPoll(m: Manager, s: Session, step: Step)
    requires Same(m, s) && (step.PollBegins? || step.AttemptEnds?)
    requires step.PollBegins? ==> s.poll.Idle? && StartsAttempt(m, step.now)
    requires step.AttemptEnds? ==> s.poll.Attempting?
    ensures IsRun(s, Uninterrupted(s, step, 0))
    ensures
      var u := After(s, Uninterrupted(s, step, 0));
      Same(Apply(m, step), u) && u.poll == if step.PollBegins? then Attempting else Idle
  {
    match step
    case PollBegins(_) =>
      OneMoreAction(s, PollStarts, [PollWrites]);
    case AttemptEnds(connected) =>
      var u := Next(s, TryConnectReturns(connected));
      if !connected {
        OneMoreAction(Next(u, PollWrites), PollGivesUp, []);
        OneMoreAction(u, PollWrites, [PollGivesUp]);
        OneMoreAction(s, TryConnectReturns(false), [PollWrites, PollGivesUp]);
      } else {
        OneMoreAction(u, PollWrites, []);
        OneMoreAction(s, TryConnectReturns(true), [PollWrites]);
      }
  }

  /** The steps of ConnectionManager are the uninterrupted runs of the writes. */
  lemma UninterruptedIsApply(m: Manager, s: Session, step: Step, t: Thread)
    requires Same(m, s)
    requires step.PollBegins? ==> s.poll.Idle? && StartsAttempt(m, step.now)
    requires step.AttemptEnds? ==> s.poll.Attempting?
    ensures IsRun(s, Uninterrupted(s, step, t))
    ensures
      var u := After(s, Uninterrupted(s, step, t));
      && Same(Apply(m, step), u)
      && u.poll == (if step.PollBegins? then Attempting else if step.AttemptEnds? then Idle else s.poll)
  {
    if step.PollBegins? || step.AttemptEnds? {
      UninterruptedPoll(m, s, step);
    } else {
      var e := Transition(step, t);
      var u := Next(s, e);
      OneMoreAction(s, e, []);
      if t in u.owed {
        assert u.owed - {t} == map[];
        OneMoreAction(u, Writes(t), []);
        OneMoreAction(s, e, [Writes(t)]);
      }
    }
  }
}
