/**
 The discovery worker beside everything that happens without it: the graph changes, ROS announces the
 change through the event, and other threads ask for the cached snapshot.
 */
module GraphEvents {
  import opened Optional
  import opened GraphManager

  /** Where the worker is: waiting, between the steps that handle an event, or ended by an exception. */
  datatype Phase = Waiting | Debouncing | Cleared | Reading | Offering(snapshot: Snapshot) | Ended

  /**
   `unannounced` says that the graph has changed and the event is not set for it yet. `refused` is the
   snapshot the worker offered last, if the callback refused it.
   */
  datatype System = System(
    graph: Snapshot,
    unannounced: bool,
    event: bool,
    cache: Option<Snapshot>,
    worker: Phase,
    applied: Option<Snapshot>,
    refused: Option<Snapshot>)

  /** After start(): nothing is cached or applied, and the worker reads the graph before its first wait. */
  function Initial(graph: Snapshot): System {
    System(graph, false, false, None, Reading, None, None)
  }

  datatype Step =
    | Change(graph: Snapshot)
    | Announce
    | Query
    | Wake
    | ClearAgain
    | Drop
    | Read
    | Offer(answer: Answer)
    | ReadThrows

  predicate Enabled(s: System, e: Step) {
    match e
    case Change(_) => true
    case Announce => true
    case Query => true
    case Wake => s.worker.Waiting? && s.event
    case ClearAgain => s.worker.Debouncing?
    case Drop => s.worker.Cleared?
    case Read => s.worker.Reading?
    case Offer(_) => s.worker.Offering?
    case ReadThrows => s.worker.Reading? && s.cache.None?
  }

  function Cached(s: System): Snapshot {
    if s.cache.Some? then s.cache.value else s.graph
  }

  /** An event may be set for a change that leaves names and types alone, so Announce needs no Change. */
  function Next(s: System, e: Step): System
    requires Enabled(s, e)
  {
    match e
    case Change(graph) => s.(graph := graph, unannounced := true)
    case Announce => s.(unannounced := false, event := true)
    case Query => s.(cache := Some(Cached(s)))
    case Wake => s.(event := false, worker := Debouncing)
    case ClearAgain => s.(event := false, worker := Cleared)
    case Drop => s.(cache := None, worker := Reading)
    case Read => s.(cache := Some(Cached(s)), worker := Offering(Cached(s)))
    case Offer(answer) => AfterOffering(s, s.worker.snapshot, answer)
    case ReadThrows => s.(worker := Ended)
  }

  function AfterOffering(s: System, snapshot: Snapshot, answer: Answer): System {
    if Reconciles(s.applied, snapshot, answer) then
      s.(worker := Waiting, applied := Some(snapshot), refused := None)
    else if s.applied == Some(snapshot) then s.(worker := Waiting, refused := None)
    else if answer == Throws then s.(worker := Ended)
    else s.(worker := Waiting, refused := Some(snapshot))
  }

  ghost predicate IsRun(s: System, steps: seq<Step>)
    decreases |steps|
  {
    steps == [] || (Enabled(s, steps[0]) && IsRun(Next(s, steps[0]), steps[1..]))
  }

  ghost function After(s: System, steps: seq<Step>): System
    requires IsRun(s, steps)
    decreases |steps|
  {
    if steps == [] then s else After(Next(s, steps[0]), steps[1..])
  }

  ghost predicate Reachable(s: System) {
    exists graph: Snapshot, steps: seq<Step> :: IsRun(Initial(graph), steps) && After(Initial(graph), steps) == s
  }

  /** An event that the worker has still to see covers every change since the last one it saw. */
  predicate ChangePending(s: System) {
    s.unannounced || s.event
  }

  ghost predicate CacheFreshOrPending(s: System) {
    && (s.cache.Some? && s.cache.value != s.graph ==>
          ChangePending(s) || s.worker.Debouncing? || s.worker.Cleared? || s.worker.Ended?)
    && (s.worker.Offering? && s.worker.snapshot != s.graph ==> ChangePending(s))
    && (s.worker.Waiting? && !ChangePending(s) ==> s.applied == Some(s.graph) || s.refused == Some(s.graph))
  }

  lemma {:induction false} RunKeepsCacheFresh(s: System, steps: seq<Step>)
    requires CacheFreshOrPending(s) && IsRun(s, steps)
    ensures CacheFreshOrPending(After(s, steps))
    decreases |steps|
  {
    if steps != [] {
      RunKeepsCacheFresh(Next(s, steps[0]), steps[1..]);
    }
  }

  lemma ReachableIsFresh(s: System)
    requires Reachable(s)
    ensures CacheFreshOrPending(s)
  {
    var graph: Snapshot, steps: seq<Step> :| IsRun(Initial(graph), steps) && After(Initial(graph), steps) == s;
    RunKeepsCacheFresh(Initial(graph), steps);
  }

  /**
   While the worker lives, a thread that asks for the topics gets the present graph unless a change is
   waiting for the worker or the worker has just seen one.
   */
  lemma CacheIsStaleOnlyBeforeItsEvent(s: System)
    requires Reachable(s) && !s.worker.Ended?
    ensures Cached(s) != s.graph ==> s.unannounced || s.event || s.worker.Debouncing? || s.worker.Cleared?
  {
    ReachableIsFresh(s);
  }

  /** No change is missed: when the worker waits and no event is due, the present graph was applied or refused. */
  lemma QuietGraphIsApplied(s: System)
    requires Reachable(s) && s.worker.Waiting? && !s.unannounced && !s.event
    ensures s.applied == Some(s.graph) || s.refused == Some(s.graph)
  {
    ReachableIsFresh(s);
  }

  /**
   A snapshot becomes the applied one exactly when the callback accepts it, or is it already; a refusal is
   remembered as one, and an exception from a callback that is asked ends the worker.
   */
  lemma OfferOutcome(s: System, answer: Answer)
    requires s.worker.Offering?
    ensures
      var offered, t := Some(s.worker.snapshot), Next(s, Offer(answer));
      && t.graph == s.graph && t.cache == s.cache && ChangePending(t) == ChangePending(s)
      && (t.applied == if answer == Accepts then offered else s.applied)
      && (t.worker == if s.applied != offered && answer == Throws then Ended else Waiting)
      && (t.worker.Waiting? ==>
            t.refused == if s.applied != offered && answer == Refuses then offered else None)
  {
  }

  /** What the worker offers, and what any thread is given, is the cached snapshot or else the present graph. */
  lemma ReadOutcome(s: System)
    requires s.worker.Reading?
    ensures
      var t := Next(s, Read);
      t.worker == Offering(if s.cache.Some? then s.cache.value else s.graph) && t.cache == Some(t.worker.snapshot)
    ensures Next(s, Query).cache == Next(s, Read).cache && Next(s, Query).worker == s.worker
  {
  }

  // ---------------------------------------------------------------------------
  // When the graph stays as it is
  // ---------------------------------------------------------------------------

  /** Steps that announce what has changed and let the worker handle it. */
  predicate IsSettling(s: System, e: Step) {
    !e.Change? && !e.Query? && (e.Announce? ==> s.unannounced)
  }

  ghost predicate IsSettlingRun(s: System, steps: seq<Step>)
    requires IsRun(s, steps)
    decreases |steps|
  {
    steps == [] || (IsSettling(s, steps[0]) && IsSettlingRun(Next(s, steps[0]), steps[1..]))
  }

  function StepsLeft(s: System): nat {
    (match s.worker
     case Waiting => 0
     case Debouncing => 4
     case Cleared => 3
     case Reading => 2
     case Offering(_) => 1
     case Ended => 0)
    + (if s.event then 5 else 0) + (if s.unannounced then 6 else 0)
  }

  lemma {:induction false} SettlingIsShort(s: System, steps: seq<Step>)
    requires IsRun(s, steps) && IsSettlingRun(s, steps)
    ensures |steps| + StepsLeft(After(s, steps)) <= StepsLeft(s)
    decreases |steps|
  {
    if steps != [] {
      SettlingIsShort(Next(s, steps[0]), steps[1..]);
    }
  }

  lemma {:induction false} SettlingKeepsGraph(s: System, steps: seq<Step>)
    requires IsRun(s, steps) && IsSettlingRun(s, steps)
    ensures After(s, steps).graph == s.graph
    decreases |steps|
  {
    if steps != [] {
      SettlingKeepsGraph(Next(s, steps[0]), steps[1..]);
    }
  }

  lemma LiveWorkerSettles(s: System) returns (e: Step)
    requires !s.worker.Ended? && StepsLeft(s) > 0
    ensures Enabled(s, e) && IsSettling(s, e)
  {
    if s.unannounced {
      e := Announce;
    } else {
      match s.worker
      case Waiting => e := Wake;
      case Debouncing => e := ClearAgain;
      case Cleared => e := Drop;
      case Reading => e := Read;
      case Offering(_) => e := Offer(Refuses);
    }
  }

  /**
   Once the graph stays as it is, the worker comes to rest after at most fifteen steps, and when it can do
   nothing more it has ended or the present graph was applied or refused.
   */
  lemma WorkerSettles(s: System, steps: seq<Step>)
    requires Reachable(s) && IsRun(s, steps) && IsSettlingRun(s, steps)
    ensures |steps| <= 15
    ensures
      var u := After(s, steps);
      (forall e | Enabled(u, e) :: !IsSettling(u, e)) ==>
        u.worker.Ended? || u.applied == Some(s.graph) || u.refused == Some(s.graph)
  {
    SettlingIsShort(s, steps);
    ReachableIsFresh(s);
    RunKeepsCacheFresh(s, steps);
    SettlingKeepsGraph(s, steps);
    var u := After(s, steps);
    if !u.worker.Ended? && StepsLeft(u) > 0 {
      var e := LiveWorkerSettles(u);
    }
  }
}
