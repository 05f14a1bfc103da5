/**
 GraphManager's discovery worker: how long it sleeps, and which graph snapshots it still has to
 hand to the forwarders.
 */
module GraphManager {
  import opened Optional
  import opened TopicForwarder

  /** Names with their types: of topics, or of services. */
  type Snapshot = map<string, seq<string>>

  const MAX_WAIT: nat := 5_000_000_000

  function Clamp(x: int, low: int, high: int): int {
    if x < low then low else if high < x then high else x
  }

  /** How the reconcile callback ends. */
  datatype Answer = Accepts | Refuses | Throws

  /** The rule of reconcileIfChanged: only a snapshot other than the last applied one is offered. */
  predicate Reconciles(last: Option<Snapshot>, snapshot: Snapshot, answer: Answer) {
    last != Some(snapshot) && answer == Accepts
  }

  class GraphManager {
    var active: bool
    var eventSet: bool
    var topics: Option<Snapshot>
    var services: Option<Snapshot>
    var lastReconciledTopics: Option<Snapshot>
    /** Snapshots for which the reconcile callback returned true, oldest first. */
    ghost var applied: seq<Snapshot>

    ghost predicate Valid()
      reads this
    {
      match lastReconciledTopics
      case None => true
      case Some(s) => applied != [] && applied[|applied| - 1] == s
    }

    /** start() forgets the caches and what was applied last. */
    constructor ()
      ensures Valid() && active && !eventSet
      ensures lastReconciledTopics.None? && topics.None? && services.None? && applied == []
    {
      active, eventSet := true, false;
      topics, services, lastReconciledTopics, applied := None, None, None, [];
    }

    method Invalidate()
      modifies this`topics, this`services
      ensures topics.None? && services.None?
    {
      topics := None;
      services := None;
    }

    /** The cached snapshot of the services, or the present graph when nothing is cached. */
    method Services(graph: Snapshot) returns (snapshot: Snapshot)
      modifies this`services
      ensures snapshot == (if old(services).Some? then old(services).value else graph)
      ensures services == Some(snapshot)
    {
      if services.None? {
        services := Some(graph);
      }
      return services.value;
    }

    /** The cached snapshot, or the present graph when nothing is cached. */
    method Topics(graph: Snapshot) returns (snapshot: Snapshot)
      modifies this`topics
      ensures snapshot == (if old(topics).Some? then old(topics).value else graph)
      ensures topics == Some(snapshot)
    {
      if topics.None? {
        topics := Some(graph);
      }
      return topics.value;
    }

    /**
     `answer` is what the reconcile callback would do. It is asked exactly when the snapshot is not the
     one applied last, so a refused snapshot is offered again even if it did not change.
     */
    method ReconcileIfChanged(snapshot: Snapshot, answer: Answer) returns (reconciled: bool, asked: bool)
      requires Valid()
      modifies this`lastReconciledTopics, this`applied
      ensures Valid()
      ensures asked <==> old(lastReconciledTopics) != Some(snapshot)
      ensures reconciled <==> asked && answer == Accepts
      ensures reconciled <==> Reconciles(old(lastReconciledTopics), snapshot, answer)
      ensures applied == old(applied) + (if reconciled then [snapshot] else [])
      ensures lastReconciledTopics == if reconciled then Some(snapshot) else old(lastReconciledTopics)
    {
      if lastReconciledTopics.Some? && lastReconciledTopics.value == snapshot {
        return false, false;
      }
      if answer != Accepts {
        return false, true;
      }
      lastReconciledTopics := Some(snapshot);
      applied := applied + [snapshot];
      return true, true;
    }

    method CheckAndClear() returns (wasSet: bool)
      modifies this`eventSet
      ensures wasSet == old(eventSet) && !eventSet
    {
      wasSet := eventSet;
      eventSet := false;
    }

    /**
     One pass of the loop between its wait and its reap; `graph` is None when the query throws. A graph
     event drops the caches, reads the graph and reconciles; an exception ends the loop.
     */
    method OnWake(graph: Option<Snapshot>, answer: Answer)
      requires Valid() && active
      modifies this
      ensures Valid() && !eventSet
      ensures !old(eventSet) ==> unchanged(this)
      ensures old(eventSet) ==> topics == graph && services.None?
      ensures old(eventSet) ==>
        var last := old(lastReconciledTopics);
        && (active <==> graph.Some? && (last == graph || answer != Throws))
        && lastReconciledTopics == (if graph.Some? && answer == Accepts then graph else last)
        && applied ==
           old(applied) + (if graph.Some? && graph != last && answer == Accepts then [graph.value] else [])
    {
      var changed := CheckAndClear();
      if !changed {
        return;
      }
      // The debounce sleep; a change announced during it is read below as well.
      changed := CheckAndClear();
      Invalidate();
      if graph.None? {
        active := false;
        return;
      }
      var snapshot := Topics(graph.value);
      var reconciled, asked := ReconcileIfChanged(snapshot, answer);
      if asked && answer == Throws {
        active := false;
      }
    }

    /** How long the worker may sleep: not past the deadline, not past the maximum, and as long as both allow. */
    method NextWait(deadline: Option<Instant>, now: Instant) returns (wait: int)
      ensures wait == Wait(deadline, now)
      ensures 0 <= wait <= 5_000_000_000
      ensures deadline.None? ==> wait == 5_000_000_000
      ensures deadline.Some? && now <= deadline.value ==> now + wait <= deadline.value
      ensures deadline.Some? && 0 < wait < 5_000_000_000 ==> now + wait == deadline.value
      ensures wait == 0 ==> deadline.Some? && deadline.value <= now
    {
      if deadline.None? {
        return MAX_WAIT;
      }
      var remaining := deadline.value - now;
      return Clamp(remaining, 0, MAX_WAIT);
    }
  }

  function Wait(deadline: Option<Instant>, now: Instant): int {
    if deadline.None? then MAX_WAIT else Clamp(deadline.value - now, 0, MAX_WAIT)
  }

  /** The worker never asks to sleep past any subscription's deadline, nor longer than five seconds. */
  lemma WaitEndsByEveryDeadline(o: Options, subscriptions: map<Topic, Subscription>, deadline: Option<Instant>,
          now: Instant, topic: Topic)
    requires IsNextExpiry(o, subscriptions, deadline)
    requires topic in subscriptions && subscriptions[topic].publishersAbsentSince.Some?
    ensures
      var expiry := subscriptions[topic].publishersAbsentSince.value + o.inactiveSubscriptionGrace;
      0 <= Wait(deadline, now) <= 5_000_000_000 && (now <= expiry ==> now + Wait(deadline, now) <= expiry)
  {
  }

  /**
   Reaping and sleeping together: a worker that reaps at `now` and then sleeps the requested time
   finds, if it slept less than the maximum, a subscription whose grace has just run out, and it
   never sleeps zero time, so it does not spin.
   */
  lemma SleepAfterReap(o: Options, t: Tables, publishers: Topic -> nat, now: Instant, deadline: Option<Instant>)
    requires IsNextExpiry(o, AfterReap(o, t, publishers, now).subscriptions, deadline)
    ensures Wait(deadline, now) > 0
    ensures
      var u := AfterReap(o, t, publishers, now);
      var wake := now + Wait(deadline, now);
      Wait(deadline, now) == MAX_WAIT
      || exists topic :: topic in u.subscriptions && Expired(o, u.subscriptions[topic], 0, wake)
  {
    DeadlineAfterReapIsFuture(o, t, publishers, now, deadline);
    if Wait(deadline, now) != MAX_WAIT {
      var u := AfterReap(o, t, publishers, now);
      var topic :| topic in u.subscriptions && u.subscriptions[topic].publishersAbsentSince
          == Some(deadline.value - o.inactiveSubscriptionGrace);
      assert Expired(o, u.subscriptions[topic], 0, now + Wait(deadline, now));
    }
  }

  // ---------------------------------------------------------------------------
  // Rounds of the worker
  // ---------------------------------------------------------------------------

  /** The forwarder's tables and the topic snapshot applied last. */
  datatype Worker = Worker(tables: Tables, applied: Option<Snapshot>)

  /**
   A graph event: the snapshot read, the callback's answer and, in case it reconciles, the publishers it
   counts, when it does so, and the subscriptions it creates.
   */
  datatype GraphChange = GraphChange(snapshot: Snapshot, answer: Answer, publishers: Topic -> nat, now: Instant,
          created: seq<Event>)

  /**
   One pass through the worker's loop: it asks how long to sleep, sleeps, handles a graph event if there
   was one, and reaps. Samples are offered meanwhile; `publishers` is what the reap counts.
   */
  datatype Round = Round(deadline: Option<Instant>, asked: Instant, samples: seq<Event>,
          change: Option<GraphChange>, publishers: Topic -> nat, reaped: Instant)

  /** Subscriptions are marked, and new ones created, only for a snapshot that is reconciled. */
  ghost function AfterChange(o: Options, w: Worker, c: GraphChange): Worker {
    if Reconciles(w.applied, c.snapshot, c.answer) then
      Worker(After(o, AfterMark(w.tables, c.publishers, c.now), c.created), Some(c.snapshot))
    else w
  }

  ghost function BeforeReap(o: Options, w: Worker, r: Round): Worker {
    var v := w.(tables := After(o, w.tables, r.samples));
    if r.change.Some? then AfterChange(o, v, r.change.value) else v
  }

  ghost function AfterRound(o: Options, w: Worker, r: Round): Worker {
    var v := BeforeReap(o, w, r);
    v.(tables := AfterReap(o, v.tables, r.publishers, r.reaped))
  }

  /**
   A round after a reap at `last`. `delay` bounds what the round takes beyond the sleep it asked for, and
   the time from its reconciliation to its reap.
   */
  ghost predicate IsRound(o: Options, w: Worker, last: Instant, r: Round, delay: nat) {
    && IsNextExpiry(o, w.tables.subscriptions, r.deadline)
    && last <= r.asked <= r.reaped <= last + Wait(r.deadline, r.asked) + delay
    && (forall e | e in r.samples :: e.Offer?)
    && (r.change.Some? ==>
          && r.asked <= r.change.value.now <= r.reaped <= r.change.value.now + delay
          && forall e | e in r.change.value.created :: e.Create? || e.Offer?)
  }

  ghost predicate AreRounds(o: Options, w: Worker, last: Instant, rounds: seq<Round>, delay: nat)
    decreases |rounds|
  {
    rounds == []
    || (IsRound(o, w, last, rounds[0], delay)
        && AreRounds(o, AfterRound(o, w, rounds[0]), rounds[0].reaped, rounds[1..], delay))
  }

  ghost function AfterRounds(o: Options, w: Worker, rounds: seq<Round>): Worker
    decreases |rounds|
  {
    if rounds == [] then w else AfterRounds(o, AfterRound(o, w, rounds[0]), rounds[1..])
  }

  /** When the topic's subscription goes, if it does. */
  ghost function RemovedAt(o: Options, w: Worker, rounds: seq<Round>, topic: Topic): Option<Instant>
    decreases |rounds|
  {
    if rounds == [] then None
    else if topic !in AfterRound(o, w, rounds[0]).tables.subscriptions then Some(rounds[0].reaped)
    else RemovedAt(o, AfterRound(o, w, rounds[0]), rounds[1..], topic)
  }

  /** Nobody publishes the topic as far as the round can see. */
  ghost predicate Abandoned(r: Round, topic: Topic) {
    r.publishers(topic) == 0 && (r.change.Some? ==> r.change.value.publishers(topic) == 0)
  }

  /** The round's graph event carries a snapshot other than `applied`, and the callback accepts it. */
  ghost predicate NewAndAccepted(applied: Option<Snapshot>, r: Round) {
    r.change.Some? && applied != Some(r.change.value.snapshot) && r.change.value.answer == Accepts
  }

  ghost predicate IsFirstNew(applied: Option<Snapshot>, rounds: seq<Round>, k: nat) {
    && k < |rounds| && NewAndAccepted(applied, rounds[k])
    && forall j | 0 <= j < k :: !NewAndAccepted(applied, rounds[j])
  }

  lemma {:induction false} OffersKeepSubscriptions(o: Options, t: Tables, events: seq<Event>)
    requires forall e | e in events :: e.Offer?
    ensures After(o, t, events).subscriptions == t.subscriptions
    decreases |events|
  {
    if events != [] {
      assert events[0] in events;
      OffersKeepSubscriptions(o, Next(o, t, events[0]), events[1..]);
    }
  }

  /** A reap, at the end of a round, of a subscription marked absent since `since`. */
  lemma ReapAbsent(o: Options, t: Tables, publishers: Topic -> nat, now: Instant, topic: Topic, since: Instant)
    requires topic in t.subscriptions && t.subscriptions[topic] == Subscription(true, Some(since))
    requires publishers(topic) == 0
    ensures
      var u := AfterReap(o, t, publishers, now);
      if since + o.inactiveSubscriptionGrace <= now then topic !in u.subscriptions
      else topic in u.subscriptions && u.subscriptions[topic] == t.subscriptions[topic]
  {
    var s := t.subscriptions[topic];
    assert Expired(o, s, 0, now) <==> since + o.inactiveSubscriptionGrace <= now;
    assert Refreshed(s, 0) == s;
  }

  /** Up to its reap a round leaves a subscription that is already marked absent as it is. */
  lemma AbsentUpToReap(o: Options, w: Worker, last: Instant, r: Round, delay: nat, topic: Topic, since: Instant)
    requires topic in w.tables.subscriptions
    requires w.tables.subscriptions[topic] == Subscription(true, Some(since))
    requires IsRound(o, w, last, r, delay) && Abandoned(r, topic)
    ensures
      var t := BeforeReap(o, w, r).tables;
      topic in t.subscriptions && t.subscriptions[topic] == Subscription(true, Some(since))
  {
    OffersKeepSubscriptions(o, w.tables, r.samples);
    if NewAndAccepted(w.applied, r) {
      var c := r.change.value;
      GraceIsExact(o, AfterMark(After(o, w.tables, r.samples), c.publishers, c.now), topic, since, c.created);
    }
  }

  /** A round that reaps at or after the end of the grace period does so with at most the delay. */
  lemma RoundIsTimely(o: Options, w: Worker, last: Instant, r: Round, delay: nat, topic: Topic, since: Instant)
    requires topic in w.tables.subscriptions
    requires w.tables.subscriptions[topic] == Subscription(true, Some(since))
    requires IsRound(o, w, last, r, delay) && last < since + o.inactiveSubscriptionGrace
    ensures r.reaped <= since + o.inactiveSubscriptionGrace + delay
  {
    assert r.deadline.Some? && r.deadline.value <= since + o.inactiveSubscriptionGrace;
  }

  /**
   A subscription marked absent since `since` is removed exactly when some round reaps after its grace
   period, no earlier than that period ends and no later than the worker's delay after it.
   */
  lemma {:induction false} MarkedIsRemovedInTime(o: Options, w: Worker, last: Instant, rounds: seq<Round>,
          delay: nat, topic: Topic, since: Instant)
    requires topic in w.tables.subscriptions
    requires w.tables.subscriptions[topic] == Subscription(true, Some(since))
    requires AreRounds(o, w, last, rounds, delay) && last < since + o.inactiveSubscriptionGrace
    requires forall r | r in rounds :: Abandoned(r, topic)
    ensures RemovedAt(o, w, rounds, topic).Some? <==>
            rounds != [] && since + o.inactiveSubscriptionGrace <= rounds[|rounds| - 1].reaped
    ensures
      var expiry, removed := since + o.inactiveSubscriptionGrace, RemovedAt(o, w, rounds, topic);
      removed.Some? ==> expiry <= removed.value <= expiry + delay
    decreases |rounds|
  {
    if rounds != [] {
      var r := rounds[0];
      assert r in rounds;
      AbsentUpToReap(o, w, last, r, delay, topic, since);
      RoundIsTimely(o, w, last, r, delay, topic, since);
      ReapAbsent(o, BeforeReap(o, w, r).tables, r.publishers, r.reaped, topic, since);
      if r.reaped < since + o.inactiveSubscriptionGrace {
        MarkedIsRemovedInTime(o, AfterRound(o, w, r), r.reaped, rounds[1..], delay, topic, since);
      } else {
        RoundsEndAfter(o, AfterRound(o, w, r), r.reaped, rounds[1..], delay);
      }
    }
  }

  lemma {:induction false} RoundsEndAfter(o: Options, w: Worker, last: Instant, rounds: seq<Round>, delay: nat)
    requires AreRounds(o, w, last, rounds, delay)
    ensures rounds != [] ==> last <= rounds[|rounds| - 1].reaped
    decreases |rounds|
  {
    if |rounds| > 1 {
      RoundsEndAfter(o, AfterRound(o, w, rounds[0]), rounds[0].reaped, rounds[1..], delay);
    }
  }

  /** A round that does not reconcile leaves an unmarked subscription, and what was applied, as they are. */
  lemma UnmarkedRound(o: Options, w: Worker, last: Instant, r: Round, delay: nat, topic: Topic)
    requires topic in w.tables.subscriptions && w.tables.subscriptions[topic] == Subscription(true, None)
    requires IsRound(o, w, last, r, delay) && Abandoned(r, topic) && !NewAndAccepted(w.applied, r)
    ensures
      var u := AfterRound(o, w, r);
      && u.applied == w.applied
      && topic in u.tables.subscriptions && u.tables.subscriptions[topic] == Subscription(true, None)
  {
    OffersKeepSubscriptions(o, w.tables, r.samples);
    assert !Expired(o, Subscription(true, None), 0, r.reaped);
  }

  /** A round that reconciles marks it. */
  lemma MarkingRound(o: Options, w: Worker, last: Instant, r: Round, delay: nat, topic: Topic)
    requires topic in w.tables.subscriptions && w.tables.subscriptions[topic] == Subscription(true, None)
    requires IsRound(o, w, last, r, delay) && Abandoned(r, topic) && NewAndAccepted(w.applied, r)
    ensures
      var t := BeforeReap(o, w, r).tables;
      topic in t.subscriptions && t.subscriptions[topic] == Subscription(true, Some(r.change.value.now))
  {
    OffersKeepSubscriptions(o, w.tables, r.samples);
    var c := r.change.value;
    GraceIsExact(o, AfterMark(After(o, w.tables, r.samples), c.publishers, c.now), topic, c.now, c.created);
  }

  /** While every graph event is refused or repeats the snapshot applied last, nothing is ever removed. */
  lemma {:induction false} KeptWithoutNewSnapshot(o: Options, w: Worker, last: Instant, rounds: seq<Round>,
          delay: nat, topic: Topic)
    requires topic in w.tables.subscriptions && w.tables.subscriptions[topic] == Subscription(true, None)
    requires AreRounds(o, w, last, rounds, delay)
    requires forall r | r in rounds :: Abandoned(r, topic) && !NewAndAccepted(w.applied, r)
    ensures RemovedAt(o, w, rounds, topic).None?
    ensures
      var u := AfterRounds(o, w, rounds).tables;
      topic in u.subscriptions && u.subscriptions[topic] == Subscription(true, None)
    decreases |rounds|
  {
    if rounds != [] {
      assert rounds[0] in rounds;
      UnmarkedRound(o, w, last, rounds[0], delay, topic);
      KeptWithoutNewSnapshot(o, AfterRound(o, w, rounds[0]), rounds[0].reaped, rounds[1..], delay, topic);
    }
  }

  /**
   A new room session starts with a new, empty forwarder while the worker keeps what it applied last. Until
   a graph event carries another snapshot and is accepted, nothing is subscribed.
   */
  lemma {:induction false} FreshForwarderNeedsNewSnapshot(o: Options, w: Worker, last: Instant, rounds: seq<Round>,
          delay: nat)
    requires w.tables.subscriptions == map[] && AreRounds(o, w, last, rounds, delay)
    requires forall r | r in rounds :: !NewAndAccepted(w.applied, r)
    ensures AfterRounds(o, w, rounds).tables.subscriptions == map[]
    ensures AfterRounds(o, w, rounds).applied == w.applied
    decreases |rounds|
  {
    if rounds != [] {
      assert rounds[0] in rounds;
      OffersKeepSubscriptions(o, w.tables, rounds[0].samples);
      FreshForwarderNeedsNewSnapshot(o, AfterRound(o, w, rounds[0]), rounds[0].reaped, rounds[1..], delay);
    }
  }

  lemma RemovedAfterMarking(o: Options, w: Worker, last: Instant, rounds: seq<Round>, delay: nat, topic: Topic)
    requires topic in w.tables.subscriptions && w.tables.subscriptions[topic] == Subscription(true, None)
    requires rounds != [] && AreRounds(o, w, last, rounds, delay) && NewAndAccepted(w.applied, rounds[0])
    requires forall r | r in rounds :: Abandoned(r, topic)
    ensures
      var expiry := rounds[0].change.value.now + o.inactiveSubscriptionGrace;
      var removed := RemovedAt(o, w, rounds, topic);
      && (removed.Some? <==> expiry <= rounds[|rounds| - 1].reaped)
      && (removed.Some? ==> expiry <= removed.value <= expiry + delay)
  {
    var r := rounds[0];
    assert r in rounds;
    var u, since := AfterRound(o, w, r), r.change.value.now;
    MarkingRound(o, w, last, r, delay, topic);
    ReapAbsent(o, BeforeReap(o, w, r).tables, r.publishers, r.reaped, topic, since);
    RoundsEndAfter(o, u, r.reaped, rounds[1..], delay);
    if r.reaped < since + o.inactiveSubscriptionGrace {
      MarkedIsRemovedInTime(o, u, r.reaped, rounds[1..], delay, topic, since);
    }
  }

  /** Once a new snapshot is accepted, in round k, the grace period runs from that reconciliation. */
  lemma {:induction false} RemovedAfterNewSnapshot(o: Options, w: Worker, last: Instant, rounds: seq<Round>,
          delay: nat, topic: Topic, k: nat)
    requires topic in w.tables.subscriptions && w.tables.subscriptions[topic] == Subscription(true, None)
    requires AreRounds(o, w, last, rounds, delay) && IsFirstNew(w.applied, rounds, k)
    requires forall r | r in rounds :: Abandoned(r, topic)
    ensures
      var expiry := rounds[k].change.value.now + o.inactiveSubscriptionGrace;
      var removed := RemovedAt(o, w, rounds, topic);
      && (removed.Some? <==> expiry <= rounds[|rounds| - 1].reaped)
      && (removed.Some? ==> expiry <= removed.value <= expiry + delay)
    decreases |rounds|
  {
    var r := rounds[0];
    assert r in rounds;
    var u := AfterRound(o, w, r);
    if k > 0 {
      UnmarkedRound(o, w, last, r, delay, topic);
      RemovedAfterNewSnapshot(o, u, r.reaped, rounds[1..], delay, topic, k - 1);
    } else {
      RemovedAfterMarking(o, w, last, rounds, delay, topic);
    }
  }

  lemma {:induction false} NowAfter(o: Options, w: Worker, last: Instant, rounds: seq<Round>, delay: nat, k: nat)
    requires AreRounds(o, w, last, rounds, delay) && k < |rounds| && rounds[k].change.Some?
    ensures last <= rounds[k].change.value.now
    decreases k
  {
    if k > 0 {
      NowAfter(o, AfterRound(o, w, rounds[0]), rounds[0].reaped, rounds[1..], delay, k - 1);
    }
  }

  /** Reconciliations happen in the order of their rounds. */
  lemma {:induction false} NowOrdered(o: Options, w: Worker, last: Instant, rounds: seq<Round>, delay: nat,
          j: nat, k: nat)
    requires AreRounds(o, w, last, rounds, delay) && j <= k < |rounds|
    requires rounds[j].change.Some? && rounds[k].change.Some?
    ensures rounds[j].change.value.now <= rounds[k].change.value.now
    decreases k
  {
    if j == 0 && k > 0 {
      NowAfter(o, AfterRound(o, w, rounds[0]), rounds[0].reaped, rounds[1..], delay, k - 1);
    } else if j > 0 {
      NowOrdered(o, AfterRound(o, w, rounds[0]), rounds[0].reaped, rounds[1..], delay, j - 1, k - 1);
    }
  }

  lemma {:induction false} FirstNewExists(applied: Option<Snapshot>, rounds: seq<Round>, k: nat) returns (j: nat)
    requires k < |rounds| && NewAndAccepted(applied, rounds[k])
    ensures j <= k && IsFirstNew(applied, rounds, j)
    decreases k
  {
    if i: nat :| i < k && NewAndAccepted(applied, rounds[i]) {
      j := FirstNewExists(applied, rounds, i);
    } else {
      j := k;
    }
  }

  /** Enough time passes after round k, whose snapshot is new and accepted. */
  ghost predicate NewAndOverdue(o: Options, applied: Option<Snapshot>, rounds: seq<Round>, k: nat) {
    && k < |rounds| && NewAndAccepted(applied, rounds[k])
    && rounds[k].change.value.now + o.inactiveSubscriptionGrace <= rounds[|rounds| - 1].reaped
  }

  /**
   An abandoned subscription that no reconciliation has marked yet is removed in a run exactly when some
   graph event carries a snapshot other than the one applied last, the callback accepts it, and the run
   goes on for the grace period; then it goes within the worker's delay after the grace that starts with
   the first such event.
   */
  lemma AbandonedIsRemovedIff(o: Options, w: Worker, last: Instant, rounds: seq<Round>, delay: nat, topic: Topic)
    requires topic in w.tables.subscriptions && w.tables.subscriptions[topic] == Subscription(true, None)
    requires AreRounds(o, w, last, rounds, delay)
    requires forall r | r in rounds :: Abandoned(r, topic)
    ensures RemovedAt(o, w, rounds, topic).Some? <==> exists k: nat :: NewAndOverdue(o, w.applied, rounds, k)
    ensures forall k: nat | IsFirstNew(w.applied, rounds, k) && RemovedAt(o, w, rounds, topic).Some? ::
              var expiry := rounds[k].change.value.now + o.inactiveSubscriptionGrace;
              expiry <= RemovedAt(o, w, rounds, topic).value <= expiry + delay
  {
    if k: nat :| k < |rounds| && NewAndAccepted(w.applied, rounds[k]) {
      var j := FirstNewExists(w.applied, rounds, k);
      RemovedAfterNewSnapshot(o, w, last, rounds, delay, topic, j);
      assert RemovedAt(o, w, rounds, topic).Some? ==> NewAndOverdue(o, w.applied, rounds, j);
      forall i: nat | i < |rounds| && NewAndAccepted(w.applied, rounds[i])
        ensures rounds[j].change.value.now <= rounds[i].change.value.now
      {
        NowOrdered(o, w, last, rounds, delay, j, i);
      }
    } else {
      KeptWithoutNewSnapshot(o, w, last, rounds, delay, topic);
    }
  }

  // ---------------------------------------------------------------------------
  // A publisher that leaves without changing the topics' names and types
  // ---------------------------------------------------------------------------

  const SCAN_TYPE := "sensor_msgs/msg/LaserScan"
  const SCAN_GRAPH: Snapshot := map["/scan" := [SCAN_TYPE]]

  /** A fresh worker after its first reconciliation, which subscribes to the one topic of the graph. */
  ghost function ScanSubscribed(o: Options): Worker {
    AfterChange(o, Worker(Tables(map[], map[], map[]), None),
                GraphChange(SCAN_GRAPH, Accepts, (topic: Topic) => 1, 0, [Create("/scan", SCAN_TYPE, Created)]))
  }

  lemma ScanIsSubscribed(o: Options)
    ensures ScanSubscribed(o).tables.subscriptions == map["/scan" := Subscription(true, None)]
    ensures ScanSubscribed(o).applied == Some(SCAN_GRAPH)
  {
    var marked := AfterMark(Tables(map[], map[], map[]), (topic: Topic) => 1, 0);
    var creation := Create("/scan", SCAN_TYPE, Created);
    assert marked.subscriptions == map[];
    assert After(o, marked, [creation]) == After(o, Next(o, marked, creation), []);
  }

  /** Nobody publishes any more, and the portal's own subscription keeps the topic in the graph. */
  ghost function UnchangedRound(last: Instant): Round {
    var end := last + MAX_WAIT;
    Round(None, last, [], Some(GraphChange(SCAN_GRAPH, Accepts, (topic: Topic) => 0, end, [])),
          (topic: Topic) => 0, end)
  }

  ghost function UnchangedRounds(last: Instant, n: nat): seq<Round>
    decreases n
  {
    if n == 0 then [] else [UnchangedRound(last)] + UnchangedRounds(last + MAX_WAIT, n - 1)
  }

  /** The round has a graph event, which reads the same snapshot again, and nobody publishes. */
  ghost predicate RepeatsGraph(r: Round) {
    r.change.Some? && r.change.value.snapshot == SCAN_GRAPH && Abandoned(r, "/scan")
  }

  lemma UnchangedRoundIsRound(o: Options, w: Worker, last: Instant)
    requires w.applied == Some(SCAN_GRAPH)
    requires w.tables.subscriptions == map["/scan" := Subscription(true, None)]
    ensures
      var r := UnchangedRound(last);
      && IsRound(o, w, last, r, 0)
      && AfterRound(o, w, r).applied == w.applied
      && AfterRound(o, w, r).tables.subscriptions == w.tables.subscriptions
  {
    var r := UnchangedRound(last);
    UnmarkedRound(o, w, last, r, 0, "/scan");
  }

  lemma OneMoreRound(o: Options, w: Worker, last: Instant, r: Round, rest: seq<Round>, delay: nat)
    requires IsRound(o, w, last, r, delay) && AreRounds(o, AfterRound(o, w, r), r.reaped, rest, delay)
    ensures AreRounds(o, w, last, [r] + rest, delay)
  {
    assert ([r] + rest)[1..] == rest;
  }

  lemma {:induction false} UnchangedRoundsAreRounds(o: Options, w: Worker, last: Instant, n: nat)
    requires w.applied == Some(SCAN_GRAPH)
    requires w.tables.subscriptions == map["/scan" := Subscription(true, None)]
    ensures AreRounds(o, w, last, UnchangedRounds(last, n), 0)
    decreases n
  {
    if n > 0 {
      var r, rest := UnchangedRound(last), UnchangedRounds(last + MAX_WAIT, n - 1);
      UnchangedRoundIsRound(o, w, last);
      UnchangedRoundsAreRounds(o, AfterRound(o, w, r), r.reaped, n - 1);
      OneMoreRound(o, w, last, r, rest, 0);
    }
  }

  lemma {:induction false} UnchangedRoundsRepeat(last: Instant, n: nat)
    ensures |UnchangedRounds(last, n)| == n
    ensures forall r | r in UnchangedRounds(last, n) :: RepeatsGraph(r)
    ensures n > 0 ==> UnchangedRounds(last, n)[n - 1].reaped == last + n * MAX_WAIT
    decreases n
  {
    if n > 0 {
      UnchangedRoundsRepeat(last + MAX_WAIT, n - 1);
    }
  }

  /**
   A run from the start of the worker, as long as one likes and with a graph event in every round, that
   never removes the subscription although its publisher has left for good.
   */
  lemma UnchangedGraphKeepsSubscription(o: Options, n: nat)
    requires n > 0
    ensures
      var w, rounds := ScanSubscribed(o), UnchangedRounds(0, n);
      && "/scan" in w.tables.subscriptions && AreRounds(o, w, 0, rounds, 0)
      && |rounds| == n && rounds[n - 1].reaped == n * MAX_WAIT
      && (forall r | r in rounds :: RepeatsGraph(r))
      && RemovedAt(o, w, rounds, "/scan").None?
  {
    var w, rounds := ScanSubscribed(o), UnchangedRounds(0, n);
    ScanIsSubscribed(o);
    UnchangedRoundsAreRounds(o, w, 0, n);
    UnchangedRoundsRepeat(0, n);
    KeptWithoutNewSnapshot(o, w, 0, rounds, 0, "/scan");
  }
}
