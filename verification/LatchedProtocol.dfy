/**
 The push-with-ack protocol of LatchedTopicForwarder as interleaved steps.

 Any number of subscription callbacks store messages (a check, then a commit, with the
 encoding in between outside the lock) while one worker runs push cycles whose RPCs are
 outside the lock too. `storeLog` and `acks` are history: every message ever stored, and
 for each roster entry the (store version, message) pairs its peer acknowledged since the
 entry was created.
 */
module LatchedProtocol {
  import opened LatchedStore

  datatype Worker =
    | Idle
    | Pushing(version: nat, batch: seq<StoredMessage>, targets: seq<Identity>, sent: nat, failed: bool)

  datatype System = System(
    store: State,
    pending: map<nat, StoredMessage>,
    worker: Worker,
    storeLog: seq<StoredMessage>,
    acks: map<Identity, set<(nat, StoredMessage)>>)

  datatype Event =
    | StoreCheck(caller: nat, message: StoredMessage, roomAvailable: bool)
    | StoreCommit(caller: nat)
    | CycleStart(roomAvailable: bool, identities: seq<Identity>, order: seq<Identity>)
    | RpcResult(success: bool)
    | PeerCommit

  ghost const INITIAL := System(State([], {}, 0, map[]), map[], Idle, [], map[])

  /** The store version of the message the worker is about to push. */
  function NextPushVersion(w: Worker): int
    requires w.Pushing?
  {
    w.version - |w.batch| + w.sent + 1
  }

  ghost predicate Enabled(o: Options, s: System, e: Event) {
    match e
    case StoreCheck(caller, _, _) => caller !in s.pending
    case StoreCommit(caller) => caller in s.pending
    case CycleStart(roomAvailable, identities, order) =>
      && s.worker.Idle?
      && (roomAvailable ==> Enumerates(order, Targets(o, Reconciled(s.store.peers, identities), s.store.version)))
    case RpcResult(_) =>
      && s.worker.Pushing? && s.worker.targets != []
      && !s.worker.failed && s.worker.sent < |s.worker.batch|
    case PeerCommit =>
      && s.worker.Pushing? && s.worker.targets != []
      && (s.worker.failed || s.worker.sent == |s.worker.batch|)
  }

  ghost function Next(o: Options, s: System, e: Event): System
    requires Enabled(o, s, e)
  {
    match e
    case StoreCheck(caller, m, roomAvailable) =>
      if !roomAvailable || m.hash in s.store.hashes || |m.requestJson| > MAX_RPC_PAYLOAD_BYTES then s
      else s.(pending := s.pending[caller := m])
    case StoreCommit(caller) =>
      var m := s.pending[caller];
      var log := if m.hash in s.store.hashes then s.storeLog else s.storeLog + [m];
      s.(pending := s.pending - {caller}, store := Committed(s.store, m, o.maxStoredMessages), storeLog := log)
    case CycleStart(roomAvailable, identities, order) =>
      if !roomAvailable then s
      else
        var peers := Reconciled(s.store.peers, identities);
        var acks := map id | id in peers :: if id in s.acks then s.acks[id] else {};
        var worker := if s.store.messages == [] || order == [] then Idle
                      else Pushing(s.store.version, s.store.messages, order, 0, false);
        s.(store := s.store.(peers := peers), acks := acks, worker := worker)
    case RpcResult(success) =>
      var w, id := s.worker, s.worker.targets[0];
      if !success then s.(worker := w.(failed := true))
      else
        var version := NextPushVersion(w);
        var acks := if id in s.acks && 0 <= version then s.acks[id := s.acks[id] + {(version, w.batch[w.sent])}]
            else s.acks;
        s.(worker := w.(sent := w.sent + 1), acks := acks)
    case PeerCommit =>
      var w, id := s.worker, s.worker.targets[0];
      var worker := if |w.targets| == 1 then Idle else w.(targets := w.targets[1..], sent := 0, failed := false);
      s.(store := Settled(s.store, id, !w.failed, w.version), worker := worker)
  }

  ghost predicate IsRun(o: Options, s: System, events: seq<Event>)
    decreases |events|
  {
    events == [] || (Enabled(o, s, events[0]) && IsRun(o, Next(o, s, events[0]), events[1..]))
  }

  ghost function After(o: Options, s: System, events: seq<Event>): System
    requires IsRun(o, s, events)
    decreases |events|
  {
    if events == [] then s else After(o, Next(o, s, events[0]), events[1..])
  }

  // ---------------------------------------------------------------------------
  // Invariants of every reachable state
  // ---------------------------------------------------------------------------

  /** The store holds exactly the newest entries of the log, within the payload limit. */
  ghost predicate StoreMatchesLog(o: Options, s: System) {
    && s.store.version == |s.storeLog|
    && s.store.messages == LastN(s.storeLog, o.maxStoredMessages)
    && Indexed(s.store)
    && (forall m | m in s.storeLog :: |m.requestJson| <= MAX_RPC_PAYLOAD_BYTES)
    && (forall caller | caller in s.pending :: |s.pending[caller].requestJson| <= MAX_RPC_PAYLOAD_BYTES)
  }

  /** Store versions up to this one have been evicted. */
  function EvictedThrough(o: Options, version: nat): nat {
    if version <= o.maxStoredMessages then 0 else version - o.maxStoredMessages
  }

  /** The message stored at version `v` is among the acknowledgements. */
  ghost predicate Acked(log: seq<StoredMessage>, acked: set<(nat, StoredMessage)>, v: nat) {
    0 < v <= |log| && (v, log[v - 1]) in acked
  }

  /** Every stored message with a version in (low, high] is acknowledged. */
  ghost predicate AckedBetween(log: seq<StoredMessage>, acked: set<(nat, StoredMessage)>, low: nat, high: nat) {
    forall v: nat | low < v <= high :: Acked(log, acked, v)
  }

  lemma AckedBetweenExtends(log: seq<StoredMessage>, more: seq<StoredMessage>, acked: set<(nat, StoredMessage)>,
          acked': set<(nat, StoredMessage)>, low: nat, low': nat, high: nat)
    requires AckedBetween(log, acked, low, high) && acked <= acked' && low <= low'
    ensures AckedBetween(log + more, acked', low', high)
  {
    forall v: nat | low' < v <= high ensures Acked(log + more, acked', v) {
      assert Acked(log, acked, v);
    }
  }

  ghost predicate PeersSound(o: Options, s: System) {
    && s.acks.Keys == s.store.peers.Keys
    && forall id | id in s.store.peers ::
        && s.store.peers[id].deliveredVersion <= |s.storeLog|
        && s.store.peers[id].consecutiveFailures <= o.maxParticipantFailures
        && AckedBetween(s.storeLog, s.acks[id], EvictedThrough(o, s.store.version), s.store.peers[id].deliveredVersion)
  }

  /** What the worker carries between its critical sections. */
  ghost predicate WorkerSound(o: Options, s: System)
    requires s.acks.Keys == s.store.peers.Keys
  {
    s.worker.Pushing? ==>
      var w := s.worker;
      && w.version <= s.store.version == |s.storeLog|
      && w.batch == s.storeLog[EvictedThrough(o, w.version)..w.version]
      && w.sent <= |w.batch|
      && w.batch != []
      && w.targets != []
      && (forall i, j | 0 <= i < j < |w.targets| :: w.targets[i] != w.targets[j])
      && (forall id | id in w.targets ::
            && id in s.store.peers
            && s.store.peers[id].deliveredVersion < w.version
            && s.store.peers[id].consecutiveFailures < o.maxParticipantFailures
            && (w.version < s.store.version ==> s.store.peers[id].consecutiveFailures == 0))
      && w.targets[0] in s.acks
      && AckedBetween(s.storeLog, s.acks[w.targets[0]], EvictedThrough(o, w.version), EvictedThrough(o,
          w.version) + w.sent)
  }

  ghost predicate Inv(o: Options, s: System) {
    StoreMatchesLog(o, s) && PeersSound(o, s) && WorkerSound(o, s)
  }

  lemma LastNAppend<T>(s: seq<T>, x: T, n: nat)
    ensures LastN(LastN(s, n) + [x], n) == LastN(s + [x], n)
  {
  }

  ghost predicate Stored(o: Options, s: System, t: System, m: StoredMessage) {
    && t.storeLog == s.storeLog + [m] && t.store.version == s.store.version + 1
    && t.store.peers == Rearmed(s.store.peers) && t.acks == s.acks && t.worker == s.worker
  }

  lemma CommitKeepsPeersSound(o: Options, s: System, t: System, m: StoredMessage)
    requires PeersSound(o, s) && Stored(o, s, t, m)
    ensures PeersSound(o, t)
  {
    forall id | id in t.store.peers
      ensures AckedBetween(t.storeLog, t.acks[id], EvictedThrough(o, t.store.version),
          t.store.peers[id].deliveredVersion)
    {
      AckedBetweenExtends(s.storeLog, [m], s.acks[id], s.acks[id],
                          EvictedThrough(o, s.store.version), EvictedThrough(o, t.store.version),
                              s.store.peers[id].deliveredVersion);
    }
  }

  lemma CommitKeepsWorkerSound(o: Options, s: System, t: System, m: StoredMessage)
    requires PeersSound(o, s) && WorkerSound(o, s) && Stored(o, s, t, m)
    ensures t.acks.Keys == t.store.peers.Keys && WorkerSound(o, t)
  {
    if s.worker.Pushing? {
      var w := s.worker;
      var low := EvictedThrough(o, w.version);
      assert t.storeLog[low..w.version] == w.batch;
      AckedBetweenExtends(s.storeLog, [m], s.acks[w.targets[0]], s.acks[w.targets[0]], low, low, low + w.sent);
    }
  }

  lemma CommitPreservesInv(o: Options, s: System, e: Event)
    requires Inv(o, s) && e.StoreCommit? && Enabled(o, s, e)
    ensures Inv(o, Next(o, s, e))
  {
    var m, t := s.pending[e.caller], Next(o, s, e);
    CommitKeepsIndex(s.store, m, o.maxStoredMessages);
    if m.hash !in s.store.hashes {
      LastNAppend(s.storeLog, m, o.maxStoredMessages);
      assert StoreMatchesLog(o, t);
      CommitKeepsPeersSound(o, s, t, m);
      CommitKeepsWorkerSound(o, s, t, m);
    }
  }

  lemma CycleStartPreservesInv(o: Options, s: System, e: Event)
    requires Inv(o, s) && e.CycleStart? && Enabled(o, s, e)
    ensures Inv(o, Next(o, s, e))
  {
    if e.roomAvailable {
      var t := Next(o, s, e);
      assert PeersSound(o, t);
      if t.worker.Pushing? {
        assert forall id | id in t.worker.targets :: id in Targets(o, t.store.peers, s.store.version);
      }
    }
  }

  lemma AcksGrowKeepsPeersSound(o: Options, s: System, t: System)
    requires PeersSound(o, s) && t.store == s.store && t.storeLog == s.storeLog && t.acks.Keys == s.acks.Keys
    requires forall id | id in s.acks :: s.acks[id] <= t.acks[id]
    ensures PeersSound(o, t)
  {
    forall id | id in t.store.peers
      ensures AckedBetween(t.storeLog, t.acks[id], EvictedThrough(o, t.store.version),
          t.store.peers[id].deliveredVersion)
    {
      var low := EvictedThrough(o, s.store.version);
      AckedBetweenExtends(s.storeLog, [], s.acks[id], t.acks[id], low, low, s.store.peers[id].deliveredVersion);
      assert s.storeLog + [] == s.storeLog;
    }
  }

  /** One more RPC of the cycle was acknowledged. */
  ghost predicate Acknowledged(o: Options, s: System, t: System)
    requires s.worker.Pushing? && s.worker.targets != [] && s.worker.sent < |s.worker.batch|
  {
    var w := s.worker;
    var v, id := EvictedThrough(o, w.version) + w.sent + 1, w.targets[0];
    && id in s.acks && v <= |s.storeLog|
    && t == s.(worker := w.(sent := w.sent + 1), acks := s.acks[id := s.acks[id] + {(v, s.storeLog[v - 1])}])
  }

  lemma SuccessAcknowledges(o: Options, s: System)
    requires Inv(o, s) && Enabled(o, s, RpcResult(true))
    ensures Acknowledged(o, s, Next(o, s, RpcResult(true)))
  {
    var w := s.worker;
    assert w.targets[0] in w.targets;
    assert NextPushVersion(w) == EvictedThrough(o, w.version) + w.sent + 1;
    assert w.batch[w.sent] == s.storeLog[EvictedThrough(o, w.version) + w.sent];
  }

  lemma AcknowledgedKeepsWorkerSound(o: Options, s: System, t: System)
    requires PeersSound(o, s) && WorkerSound(o, s)
    requires s.worker.Pushing? && s.worker.sent < |s.worker.batch| && Acknowledged(o, s, t)
    ensures t.acks.Keys == t.store.peers.Keys && WorkerSound(o, t)
  {
    var w := s.worker;
    var low, id := EvictedThrough(o, w.version), w.targets[0];
    forall v: nat | low < v <= low + w.sent + 1 ensures Acked(t.storeLog, t.acks[id], v) {
      if v <= low + w.sent {
        assert Acked(s.storeLog, s.acks[id], v);
      }
    }
  }

  lemma RpcResultPreservesInv(o: Options, s: System, e: Event)
    requires Inv(o, s) && e.RpcResult? && Enabled(o, s, e)
    ensures Inv(o, Next(o, s, e))
  {
    if e.success {
      var t := Next(o, s, e);
      SuccessAcknowledges(o, s);
      AcksGrowKeepsPeersSound(o, s, t);
      AcknowledgedKeepsWorkerSound(o, s, t);
    }
  }

  lemma PeerCommitPreservesInv(o: Options, s: System, e: Event)
    requires Inv(o, s) && e.PeerCommit? && Enabled(o, s, e)
    ensures Inv(o, Next(o, s, e))
  {
    var w, t, id := s.worker, Next(o, s, e), s.worker.targets[0];
    assert id in w.targets;
    if !w.failed {
      assert EvictedThrough(o, w.version) + w.sent == w.version;
    }
    assert PeersSound(o, t);
    if |w.targets| > 1 {
      assert forall x | x in w.targets[1..] :: x in w.targets && x != id;
      assert w.targets[1..][0] in w.targets;
    }
  }

  lemma NextPreservesInv(o: Options, s: System, e: Event)
    requires Inv(o, s) && Enabled(o, s, e)
    ensures Inv(o, Next(o, s, e))
  {
    match e
    case StoreCheck(_, _, _) =>
    case StoreCommit(_) => CommitPreservesInv(o, s, e);
    case CycleStart(_, _, _) => CycleStartPreservesInv(o, s, e);
    case RpcResult(_) => RpcResultPreservesInv(o, s, e);
    case PeerCommit => PeerCommitPreservesInv(o, s, e);
  }

  lemma {:induction false} RunPreservesInv(o: Options, s: System, events: seq<Event>)
    requires Inv(o, s) && IsRun(o, s, events)
    ensures Inv(o, After(o, s, events))
    decreases |events|
  {
    if events != [] {
      NextPreservesInv(o, s, events[0]);
      RunPreservesInv(o, Next(o, s, events[0]), events[1..]);
    }
  }

  ghost predicate Reachable(o: Options, s: System) {
    exists events :: IsRun(o, INITIAL, events) && After(o, INITIAL, events) == s
  }

  lemma ReachableInv(o: Options, s: System)
    requires Reachable(o, s)
    ensures Inv(o, s)
  {
    var events :| IsRun(o, INITIAL, events) && After(o, INITIAL, events) == s;
    RunPreservesInv(o, INITIAL, events);
  }

  // ---------------------------------------------------------------------------
  // Safety over whole runs
  // ---------------------------------------------------------------------------

  /**
   Under every interleaving the retained messages are the last min(version, bound) entries of
   the log in order, and every payload ever stored fits one RPC.
   */
  lemma StoreIsTheTailOfTheLog(o: Options, s: System)
    requires Reachable(o, s)
    ensures s.store.version == |s.storeLog|
    ensures IsTail(s.storeLog, o.maxStoredMessages, s.store.messages)
    ensures forall m | m in s.storeLog :: |m.requestJson| <= 15360
  {
    ReachableInv(o, s);
    LastNIsTail(s.storeLog, o.maxStoredMessages, s.store.messages);
  }

  /** `tail` is the last min(|s|, n) elements of `s`, in order. */
  ghost predicate IsTail<T>(s: seq<T>, n: nat, tail: seq<T>) {
    && |tail| == (if |s| <= n then |s| else n)
    && forall i | 0 <= i < |tail| :: tail[i] == s[|s| - |tail| + i]
  }

  lemma LastNIsTail<T>(s: seq<T>, n: nat, tail: seq<T>)
    requires tail == LastN(s, n)
    ensures IsTail(s, n, tail)
  {
  }

  /** Under every interleaving the retained hashes are pairwise distinct and are exactly the deduplication index. */
  lemma IndexIsTheRetainedHashes(o: Options, s: System)
    requires Reachable(o, s)
    ensures forall i, j | 0 <= i < j < |s.store.messages| :: s.store.messages[i].hash != s.store.messages[j].hash
    ensures forall h :: h in s.store.hashes <==>
        exists i :: 0 <= i < |s.store.messages| && s.store.messages[i].hash == h
  {
    ReachableInv(o, s);
    IndexIsExact(s.store);
  }

  lemma IndexIsExact(s: State)
    requires Indexed(s)
    ensures forall i, j | 0 <= i < j < |s.messages| :: s.messages[i].hash != s.messages[j].hash
    ensures forall h :: h in s.hashes <==> exists i :: 0 <= i < |s.messages| && s.messages[i].hash == h
  {
  }

  /**
   Delivery: a retained message whose store version is at most a peer's delivered version was
   acknowledged by that peer during its present stay on the roster.
   */
  lemma DeliveredMeansAcknowledged(o: Options, s: System, id: Identity, i: nat)
    requires Reachable(o, s)
    requires id in s.store.peers && i < |s.store.messages|
    requires s.store.version - |s.store.messages| + i + 1 <= s.store.peers[id].deliveredVersion
    ensures s.store.peers[id].deliveredVersion <= s.store.version
    ensures id in s.acks && (s.store.version - |s.store.messages| + i + 1, s.store.messages[i]) in s.acks[id]
  {
    ReachableInv(o, s);
    var v: nat := s.store.version - |s.store.messages| + i + 1;
    assert s.storeLog[v - 1] == s.store.messages[i];
    assert Acked(s.storeLog, s.acks[id], v);
  }

  /** In particular a peer at the current version holds every retained message. */
  lemma UpToDatePeerHoldsEverything(o: Options, s: System, id: Identity)
    requires Reachable(o, s)
    requires id in s.store.peers && s.store.peers[id].deliveredVersion == s.store.version
    ensures id in s.acks
    ensures forall i: nat | i < |s.store.messages| ::
              (s.store.version - |s.store.messages| + i + 1, s.store.messages[i]) in s.acks[id]
  {
    ReachableInv(o, s);
    forall i: nat | i < |s.store.messages|
      ensures (s.store.version - |s.store.messages| + i + 1, s.store.messages[i]) in s.acks[id]
    {
      DeliveredMeansAcknowledged(o, s, id, i);
    }
  }

  /** An acknowledgement is recorded only by a successful RPC that carried that very message. */
  lemma AcksComeFromRpcs(o: Options, s: System, e: Event, id: Identity, v: nat, m: StoredMessage)
    requires Reachable(o, s) && Enabled(o, s, e)
    requires id in Next(o, s, e).acks && (v, m) in Next(o, s, e).acks[id]
    requires id !in s.acks || (v, m) !in s.acks[id]
    ensures e == RpcResult(true) && s.worker.targets[0] == id
    ensures 0 < v <= |s.storeLog| && m == s.storeLog[v - 1] == s.worker.batch[s.worker.sent]
  {
    ReachableInv(o, s);
    if e.RpcResult? {
      var w := s.worker;
      assert NextPushVersion(w) == EvictedThrough(o, w.version) + w.sent + 1;
    }
  }

  /** No peer is ever charged more consecutive failures than the cap, whatever stores do in mid-cycle. */
  lemma FailuresNeverExceedCap(o: Options, s: System, id: Identity)
    requires Reachable(o, s) && id in s.store.peers
    ensures s.store.peers[id].consecutiveFailures <= o.maxParticipantFailures
  {
    ReachableInv(o, s);
  }

  /**
   With one worker the roster cannot change between a cycle's start and its commits, so the
   "participant left mid-push" branch is never taken; a success raises the delivered version to the
   cycle's and clears the count, a failure adds exactly one to it, and the cycle goes on with the next
   target from the first message.
   */
  lemma CommitOutcome(o: Options, s: System)
    requires Reachable(o, s) && Enabled(o, s, PeerCommit)
    ensures
      var w, id, t := s.worker, s.worker.targets[0], Next(o, s, PeerCommit);
      && id in s.store.peers && t.store.peers.Keys == s.store.peers.Keys
      && (!w.failed ==>
            && t.store.peers[id] == ParticipantState(w.version, 0)
            && t.store.peers[id].deliveredVersion > s.store.peers[id].deliveredVersion)
      && (w.failed ==>
            && t.store.peers[id].deliveredVersion == s.store.peers[id].deliveredVersion
            && t.store.peers[id].consecutiveFailures == s.store.peers[id].consecutiveFailures + 1)
      && (forall other | other in s.store.peers && other != id :: t.store.peers[other] == s.store.peers[other])
      && t.worker == if |w.targets| == 1 then Idle else Pushing(w.version, w.batch, w.targets[1..], 0, false)
  {
    ReachableInv(o, s);
    assert s.worker.targets[0] in s.worker.targets;
  }

  /** A stored message is retained under this hash. */
  ghost predicate Holds(s: State, hash: Hash) {
    exists i :: 0 <= i < |s.messages| && s.messages[i].hash == hash
  }

  /** A message goes on to be committed exactly when the room is there, it is new and it fits one RPC. */
  lemma StoreCheckOutcome(o: Options, s: System, caller: nat, m: StoredMessage, roomAvailable: bool)
    requires Reachable(o, s) && caller !in s.pending
    ensures
      var t := Next(o, s, StoreCheck(caller, m, roomAvailable));
      && t == s.(pending := t.pending)
      && t.pending ==
         if roomAvailable && !Holds(s.store, m.hash) && |m.requestJson| <= 15360 then s.pending[caller := m]
         else s.pending
  {
    ReachableInv(o, s);
    IndexIsExact(s.store);
  }

  /**
   A commit of content that is held changes nothing; any other becomes the newest entry of the log and of the
   store, and every peer keeps what it has and gets another chance.
   */
  lemma StoreCommitOutcome(o: Options, s: System, caller: nat)
    requires Reachable(o, s) && caller in s.pending
    ensures
      var m, t := s.pending[caller], Next(o, s, StoreCommit(caller));
      && t.pending == s.pending - {caller} && t.worker == s.worker && t.acks == s.acks
      && if Holds(s.store, m.hash) then t.store == s.store && t.storeLog == s.storeLog
         else
           && t.storeLog == s.storeLog + [m] && t.store.version == s.store.version + 1
           && IsTail(s.storeLog + [m], o.maxStoredMessages, t.store.messages)
           && t.store.peers.Keys == s.store.peers.Keys
           && forall id | id in t.store.peers ::
                t.store.peers[id] == ParticipantState(s.store.peers[id].deliveredVersion, 0)
  {
    ReachableInv(o, s);
    IndexIsExact(s.store);
    var m := s.pending[caller];
    if !Holds(s.store, m.hash) {
      CommitPreservesInv(o, s, StoreCommit(caller));
      var t := Next(o, s, StoreCommit(caller));
      LastNIsTail(t.storeLog, o.maxStoredMessages, t.store.messages);
    }
  }

  /**
   A cycle starts with exactly the identities in the room: who stayed keeps its bookkeeping and its
   acknowledgements, a newcomer starts from nothing. It pushes to exactly those that are behind and not given
   up, so with anything retained and a positive cap to every newcomer.
   */
  lemma CycleStartOutcome(o: Options, s: System, identities: seq<Identity>, order: seq<Identity>)
    requires Reachable(o, s) && Enabled(o, s, CycleStart(true, identities, order))
    ensures
      var t := Next(o, s, CycleStart(true, identities, order));
      && t.store.peers.Keys == (set id | id in identities) == t.acks.Keys
      && (forall id | id in t.store.peers && id in s.store.peers ::
            t.store.peers[id] == s.store.peers[id] && id in s.acks && t.acks[id] == s.acks[id])
      && (forall id | id in t.store.peers && id !in s.store.peers ::
            t.store.peers[id] == ParticipantState(0, 0) && t.acks[id] == {})
      && t.store == s.store.(peers := t.store.peers) && t.storeLog == s.storeLog && t.pending == s.pending
  {
    ReachableInv(o, s);
  }

  lemma CycleTargets(o: Options, s: System, identities: seq<Identity>, order: seq<Identity>, id: Identity)
    requires Reachable(o, s) && Enabled(o, s, CycleStart(true, identities, order))
    ensures
      var t := Next(o, s, CycleStart(true, identities, order));
      && (t.worker.Pushing? && id in t.worker.targets <==>
            && s.store.messages != [] && id in identities && id in t.store.peers
            && t.store.peers[id].deliveredVersion < s.store.version
            && t.store.peers[id].consecutiveFailures < o.maxParticipantFailures)
      && (t.worker.Pushing? ==>
            t.worker == Pushing(s.store.version, s.store.messages, t.worker.targets, 0, false))
      && (id in identities && id !in s.store.peers && s.store.messages != [] && o.maxParticipantFailures > 0 ==>
            t.worker.Pushing? && id in t.worker.targets)
  {
    ReachableInv(o, s);
    CycleStartOutcome(o, s, identities, order);
    var peers := Reconciled(s.store.peers, identities);
    assert id in order <==> id in Targets(o, peers, s.store.version);
  }

  /** Without a room a cycle does nothing, not even to the roster. */
  lemma NoRoomNoCycle(o: Options, s: System, identities: seq<Identity>, order: seq<Identity>)
    requires Enabled(o, s, CycleStart(false, identities, order))
    ensures Next(o, s, CycleStart(false, identities, order)) == s
  {
  }

  /** An RPC that succeeds is acknowledged and leads on to the next message; one that fails ends the push. */
  lemma RpcOutcome(o: Options, s: System, success: bool)
    requires Reachable(o, s) && Enabled(o, s, RpcResult(success))
    ensures
      var w, t := s.worker, Next(o, s, RpcResult(success));
      && w.targets[0] in s.acks && t.store == s.store && t.storeLog == s.storeLog && t.pending == s.pending
      && if success then
           var v := w.version - |w.batch| + w.sent + 1;
           && 0 < v && t.worker == w.(sent := w.sent + 1)
           && t.acks == s.acks[w.targets[0] := s.acks[w.targets[0]] + {(v, w.batch[w.sent])}]
         else t.acks == s.acks && t.worker == w.(failed := true)
  {
    ReachableInv(o, s);
    if success {
      SuccessAcknowledges(o, s);
    }
  }

  lemma {:induction false} RunAppend(o: Options, s: System, events: seq<Event>, e: Event)
    requires IsRun(o, s, events) && Enabled(o, After(o, s, events), e)
    ensures IsRun(o, s, events + [e]) && After(o, s, events + [e]) == Next(o, After(o, s, events), e)
    decreases |events|
  {
    if events == [] {
      assert events + [e] == [e] && [e][1..] == [];
    } else {
      RunAppend(o, Next(o, s, events[0]), events[1..], e);
      assert (events + [e])[1..] == events[1..] + [e];
    }
  }

  lemma NextReachable(o: Options, s: System, e: Event)
    requires Reachable(o, s) && Enabled(o, s, e)
    ensures Reachable(o, Next(o, s, e))
  {
    var events :| IsRun(o, INITIAL, events) && After(o, INITIAL, events) == s;
    RunAppend(o, INITIAL, events, e);
  }
}
