/**
 When pushing stops: how many attempts a peer can still get once nothing is stored any more and
 the roster is stable, in every reachable state of the push-with-ack protocol.
 */
module LatchedProgress {
  import opened LatchedStore
  import opened LatchedProtocol

  /** A stretch of a run with no new store and a stable roster. */
  ghost predicate Quiet(o: Options, s: System, events: seq<Event>)
    requires IsRun(o, s, events)
    decreases |events|
  {
    events == [] ||
    (var t := Next(o, s, events[0]);
     && QuietStep(s, t)
     && Quiet(o, t, events[1..]))
  }

  ghost predicate QuietStep(s: System, t: System) {
    t.store.version == s.store.version && t.store.peers.Keys == s.store.peers.Keys
  }

  /** Does the step finish a push attempt to `id`? */
  predicate Finishes(s: System, e: Event, id: Identity) {
    e.PeerCommit? && s.worker.Pushing? && s.worker.targets != [] && s.worker.targets[0] == id
  }

  /** Push attempts the run finishes for `id`. */
  ghost function Attempts(o: Options, s: System, events: seq<Event>, id: Identity): nat
    requires IsRun(o, s, events)
    decreases |events|
  {
    if events == [] then 0
    else (if Finishes(s, events[0], id) then 1 else 0) + Attempts(o, Next(o, s, events[0]), events[1..], id)
  }

  /** The running cycle still owes `id` a push that a later store has made stale, and that push has not failed. */
  predicate StalePushAhead(s: System, id: Identity) {
    && s.worker.Pushing? && id in s.worker.targets
    && s.worker.version < s.store.version
    && !(s.worker.failed && s.worker.targets[0] == id)
  }

  /** Every message of an up-to-date cycle has been acknowledged by `id`; only the bookkeeping is left. */
  predicate Concluding(s: System, id: Identity) {
    && s.worker.Pushing? && s.worker.targets != [] && s.worker.targets[0] == id
    && s.worker.version == s.store.version
    && !s.worker.failed && s.worker.sent == |s.worker.batch|
  }

  /** Push attempts `id` can still get while nothing is stored and the roster is stable. */
  ghost function Budget(o: Options, s: System, id: Identity): nat {
    if s.store.messages == [] || id !in s.store.peers || !NeedsPush(o, s.store.peers[id], s.store.version) then 0
    else if Concluding(s, id) then 1
    else o.maxParticipantFailures - s.store.peers[id].consecutiveFailures + if StalePushAhead(s, id) then 1 else 0
  }

  // ---------------------------------------------------------------------------
  // No quiet run exceeds the budget
  // ---------------------------------------------------------------------------

  lemma CommitSpendsBudget(o: Options, s: System, id: Identity)
    requires Inv(o, s) && Enabled(o, s, PeerCommit)
    ensures
      Budget(o, Next(o, s, PeerCommit), id) + (if Finishes(s, PeerCommit, id) then 1 else 0) <= Budget(o, s, id)
  {
    var w, t := s.worker, Next(o, s, PeerCommit);
    assert w.targets[0] in w.targets;
    assert w.targets == [w.targets[0]] + w.targets[1..];
    MessagesRetained(o, s);
    if w.targets[0] == id {
      assert id !in w.targets[1..];
    }
  }

  /** While a cycle runs the store is not empty. */
  lemma MessagesRetained(o: Options, s: System)
    requires Inv(o, s) && s.worker.Pushing?
    ensures s.store.messages != [] && s.store.version > 0
  {
  }

  lemma QuietStepSpendsBudget(o: Options, s: System, e: Event, id: Identity)
    requires Inv(o, s) && Enabled(o, s, e) && QuietStep(s, Next(o, s, e))
    ensures Budget(o, Next(o, s, e), id) + (if Finishes(s, e, id) then 1 else 0) <= Budget(o, s, id)
  {
    match e
    case StoreCheck(_, _, _) =>
    case StoreCommit(_) =>
    case CycleStart(_, _, _) =>
    case RpcResult(_) =>
    case PeerCommit => CommitSpendsBudget(o, s, id);
  }

  /** Attempts in a quiet stretch are paid for by the budget at its start. */
  lemma {:induction false} QuietRunAttempts(o: Options, s: System, events: seq<Event>, id: Identity)
    requires Inv(o, s) && IsRun(o, s, events) && Quiet(o, s, events)
    ensures Attempts(o, s, events, id) + Budget(o, After(o, s, events), id) <= Budget(o, s, id)
    decreases |events|
  {
    if events != [] {
      NextPreservesInv(o, s, events[0]);
      QuietStepSpendsBudget(o, s, events[0], id);
      QuietRunAttempts(o, Next(o, s, events[0]), events[1..], id);
    }
  }

  // ---------------------------------------------------------------------------
  // Some quiet run spends all of it
  // ---------------------------------------------------------------------------

  /** A next event that loses none of the budget and brings the next attempt closer. */
  ghost predicate Good(o: Options, s: System, e: Event, id: Identity) {
    && Enabled(o, s, e) && QuietStep(s, Next(o, s, e))
    && Budget(o, Next(o, s, e), id) + (if Finishes(s, e, id) then 1 else 0) == Budget(o, s, id)
    && (Finishes(s, e, id) || Closer(Next(o, s, e), s, id))
  }

  /** Where the worker is: in a cycle without `id`, between cycles, or in a cycle with `id`. */
  function Phase(s: System, id: Identity): nat {
    if s.worker.Idle? then 1 else if id in s.worker.targets then 0 else 2
  }

  function TargetsLeft(s: System): nat {
    if s.worker.Idle? then 0 else |s.worker.targets|
  }

  function RpcsLeft(s: System): nat {
    if s.worker.Idle? || s.worker.failed || |s.worker.batch| < s.worker.sent then 0
    else 1 + |s.worker.batch| - s.worker.sent
  }

  predicate Closer(t: System, s: System, id: Identity) {
    || Phase(t, id) < Phase(s, id)
    || (Phase(t, id) == Phase(s, id) && TargetsLeft(t) < TargetsLeft(s))
    || (Phase(t, id) == Phase(s, id) && TargetsLeft(t) == TargetsLeft(s) && RpcsLeft(t) < RpcsLeft(s))
  }

  lemma {:induction false} Enumeration(elements: set<Identity>) returns (order: seq<Identity>)
    ensures Enumerates(order, elements)
    decreases |elements|
  {
    if elements == {} {
      order := [];
    } else {
      var id :| id in elements;
      var rest := Enumeration(elements - {id});
      order := [id] + rest;
    }
  }

  /** Between cycles the next one may start with `id`. */
  lemma StartWith(o: Options, s: System, id: Identity) returns (e: Event)
    requires Inv(o, s) && s.worker.Idle? && Budget(o, s, id) > 0
    ensures Good(o, s, e, id)
  {
    var identities := Enumeration(s.store.peers.Keys);
    assert Reconciled(s.store.peers, identities) == s.store.peers;
    var targets := Targets(o, s.store.peers, s.store.version);
    var rest := Enumeration(targets - {id});
    var order := [id] + rest;
    assert Enumerates(order, targets);
    e := CycleStart(true, identities, order);
  }

  /** A peer in front of `id`, or in a cycle without it, is failed or finished. */
  lemma PassOver(o: Options, s: System, id: Identity) returns (e: Event)
    requires Inv(o, s) && s.worker.Pushing? && s.worker.targets[0] != id
    ensures Good(o, s, e, id)
  {
    var w := s.worker;
    assert w.targets == [w.targets[0]] + w.targets[1..];
    if w.failed || w.sent == |w.batch| {
      e := PeerCommit;
    } else {
      e := RpcResult(false);
    }
  }

  /** The push to `id` itself: succeed while it is stale, fail otherwise. */
  lemma Serve(o: Options, s: System, id: Identity) returns (e: Event)
    requires Inv(o, s) && s.worker.Pushing? && s.worker.targets[0] == id
    ensures Good(o, s, e, id)
  {
    var w := s.worker;
    assert w.targets == [id] + w.targets[1..];
    assert id in w.targets && id !in w.targets[1..];
    MessagesRetained(o, s);
    if w.failed || w.sent == |w.batch| {
      e := PeerCommit;
    } else {
      e := RpcResult(w.version < s.store.version);
    }
  }

  lemma {:induction false} BudgetIsReached(o: Options, s: System, id: Identity) returns (quiet: seq<Event>)
    requires Inv(o, s)
    ensures IsRun(o, s, quiet) && Quiet(o, s, quiet) && Attempts(o, s, quiet, id) == Budget(o, s, id)
    decreases Budget(o, s, id), Phase(s, id), TargetsLeft(s), RpcsLeft(s)
  {
    quiet := [];
    if Budget(o, s, id) > 0 {
      var e;
      if s.worker.Idle? {
        e := StartWith(o, s, id);
      } else if s.worker.targets[0] == id {
        e := Serve(o, s, id);
      } else {
        e := PassOver(o, s, id);
      }
      NextPreservesInv(o, s, e);
      var rest := BudgetIsReached(o, Next(o, s, e), id);
      quiet := [e] + rest;
      assert quiet[1..] == rest;
    }
  }

  // ---------------------------------------------------------------------------
  // Main results
  // ---------------------------------------------------------------------------

  /** In every reachable state the budget is exactly the largest number of attempts a quiet run can finish. */
  lemma BudgetIsExact(o: Options, s: System, id: Identity)
    requires Reachable(o, s)
    ensures forall quiet: seq<Event> | IsRun(o, s, quiet) && Quiet(o, s, quiet) ::
              Attempts(o, s, quiet, id) <= Budget(o, s, id)
    ensures exists quiet: seq<Event> ::
              IsRun(o, s, quiet) && Quiet(o, s, quiet) && Attempts(o, s, quiet, id) == Budget(o, s, id)
  {
    ReachableInv(o, s);
    forall quiet: seq<Event> | IsRun(o, s, quiet) && Quiet(o, s, quiet)
      ensures Attempts(o, s, quiet, id) <= Budget(o, s, id)
    {
      QuietRunAttempts(o, s, quiet, id);
    }
    var quiet := BudgetIsReached(o, s, id);
  }

  /**
   Once stores and roster are quiet a peer gets at most `max_participant_failures` more attempts, plus one for a
   stale push ahead.
   */
  lemma PushingStops(o: Options, s: System, quiet: seq<Event>, id: Identity)
    requires Reachable(o, s) && IsRun(o, s, quiet) && Quiet(o, s, quiet)
    ensures Attempts(o, s, quiet, id) <= o.maxParticipantFailures + (if StalePushAhead(s, id) then 1 else 0)
  {
    ReachableInv(o, s);
    QuietRunAttempts(o, s, quiet, id);
  }

  /**
   The cap is exceeded by some quiet run exactly when the running cycle still owes the peer a stale push that
   has not failed.
   */
  lemma CapExceededIff(o: Options, s: System, id: Identity)
    requires Reachable(o, s)
    ensures
      (exists quiet: seq<Event> :: IsRun(o, s, quiet) && Quiet(o, s, quiet)
          && Attempts(o, s, quiet, id) > o.maxParticipantFailures)
      <==> StalePushAhead(s, id)
  {
    ReachableInv(o, s);
    BudgetIsExact(o, s, id);
    if StalePushAhead(s, id) {
      MessagesRetained(o, s);
      assert Budget(o, s, id) == o.maxParticipantFailures + 1;
    }
  }

  /** A new cycle pushes to a peer of a stable roster exactly when its budget is not spent. */
  lemma CyclePushesExactlyToBudgets(o: Options, s: System, e: Event, id: Identity)
    requires Reachable(o, s) && e.CycleStart? && e.roomAvailable && Enabled(o, s, e)
    requires Next(o, s, e).store.peers.Keys == s.store.peers.Keys
    ensures
      var t := Next(o, s, e);
      (t.worker.Pushing? && id in t.worker.targets) <==> Budget(o, s, id) > 0
  {
    ReachableInv(o, s);
    var t := Next(o, s, e);
    assert t.store.peers == s.store.peers;
    assert id in e.order <==> id in Targets(o, t.store.peers, s.store.version);
  }

  /**
   A peer without budget is up to date or given up, or nothing is retained: this is what "pushing stopped" means
   for it.
   */
  lemma SpentBudgetMeansSettled(o: Options, s: System, id: Identity)
    requires Reachable(o, s) && s.worker.Idle? && id in s.store.peers
    ensures Budget(o, s, id) == 0 <==>
            || s.store.messages == []
            || s.store.peers[id].deliveredVersion == s.store.version
            || s.store.peers[id].consecutiveFailures == o.maxParticipantFailures
  {
    ReachableInv(o, s);
    assert s.store.peers[id].deliveredVersion <= s.store.version;
  }

  const EXAMPLE := Options(1, 2)
  const FIRST := StoredMessage(1, "a")
  const SECOND := StoredMessage(2, "b")

  lemma StoreReachable(s: System, m: StoredMessage) returns (t: System)
    requires Reachable(EXAMPLE, s) && s.pending == map[] && m.hash !in s.store.hashes
        && |m.requestJson| <= MAX_RPC_PAYLOAD_BYTES
    ensures Reachable(EXAMPLE, t) && t.pending == map[] && t.worker == s.worker && t.acks == s.acks
    ensures t.store == Committed(s.store, m, EXAMPLE.maxStoredMessages)
  {
    NextReachable(EXAMPLE, s, StoreCheck(0, m, true));
    var u := Next(EXAMPLE, s, StoreCheck(0, m, true));
    NextReachable(EXAMPLE, u, StoreCommit(0));
    t := Next(EXAMPLE, u, StoreCommit(0));
  }

  lemma FirstPushReachable() returns (s: System)
    ensures Reachable(EXAMPLE, s) && s.pending == map[]
    ensures s.store == State([FIRST], {1}, 1, map["p" := NEW_PARTICIPANT]) && s.acks.Keys == {"p"}
    ensures s.worker == Pushing(1, [FIRST], ["p"], 1, false)
  {
    assert IsRun(EXAMPLE, INITIAL, []) && After(EXAMPLE, INITIAL, []) == INITIAL;
    s := StoreReachable(INITIAL, FIRST);
    assert [] + [FIRST] == [FIRST];
    assert HashesOf([FIRST]) == {1};
    assert s.store == State([FIRST], {1}, 1, map[]);
    var peers := Reconciled(s.store.peers, ["p"]);
    assert peers == map["p" := NEW_PARTICIPANT];
    assert Targets(EXAMPLE, peers, 1) == {"p"};
    NextReachable(EXAMPLE, s, CycleStart(true, ["p"], ["p"]));
    s := Next(EXAMPLE, s, CycleStart(true, ["p"], ["p"]));
    NextReachable(EXAMPLE, s, RpcResult(true));
    s := Next(EXAMPLE, s, RpcResult(true));
  }

  /** Cap 1: one message pushed to "p" and acknowledged, a second one stored before the commit. */
  lemma StaleExampleReachable() returns (s: System)
    ensures Reachable(EXAMPLE, s)
    ensures s.store.messages == [FIRST, SECOND] && s.store.version == 2
    ensures s.store.peers == map["p" := NEW_PARTICIPANT] && s.acks.Keys == {"p"}
    ensures s.worker == Pushing(1, [FIRST], ["p"], 1, false)
  {
    var before := FirstPushReachable();
    s := StoreReachable(before, SECOND);
    assert [FIRST] + [SECOND] == [FIRST, SECOND];
  }

  /** A reachable state in which the cap is exceeded: with cap 1 some quiet run pushes to "p" twice. */
  lemma StaleCycleCostsOneMore() returns (s: System, quiet: seq<Event>)
    ensures Reachable(EXAMPLE, s) && IsRun(EXAMPLE, s, quiet) && Quiet(EXAMPLE, s, quiet)
    ensures Attempts(EXAMPLE, s, quiet, "p") == 2 == EXAMPLE.maxParticipantFailures + 1
  {
    s := StaleExampleReachable();
    ReachableInv(EXAMPLE, s);
    quiet := BudgetIsReached(EXAMPLE, s, "p");
  }
}
