/**
 The lock-protected state of LatchedTopicForwarder: a bounded, deduplicated store of
 latched messages, its version counter and the delivery bookkeeping of every peer.

 Each method of the class below is one region that the program runs under
 `state_mutex_`; its postcondition ties the new state to a function of the old one.
 LatchedProtocol.dfy interleaves those functions.
 */
module LatchedStore {

  type Hash = nat
  type Identity = string

  /** LiveKit's RPC payload limit, 15 KiB. */
  const MAX_RPC_PAYLOAD_BYTES: nat := 15 * 1024

  datatype Options = Options(maxParticipantFailures: nat, maxStoredMessages: nat)

  datatype StoredMessage = StoredMessage(hash: Hash, requestJson: string)

  datatype ParticipantState = ParticipantState(deliveredVersion: nat, consecutiveFailures: nat)

  const NEW_PARTICIPANT := ParticipantState(0, 0)

  datatype State = State(
    messages: seq<StoredMessage>,
    hashes: set<Hash>,
    version: nat,
    peers: map<Identity, ParticipantState>)

  function LastN<T>(s: seq<T>, n: nat): seq<T> {
    if |s| <= n then s else s[|s| - n..]
  }

  ghost function HashesOf(messages: seq<StoredMessage>): set<Hash> {
    set m | m in messages :: m.hash
  }

  ghost predicate DistinctHashes(messages: seq<StoredMessage>) {
    forall i, j | 0 <= i < j < |messages| :: messages[i].hash != messages[j].hash
  }

  /** The deduplication index agrees with the retained messages. */
  ghost predicate Indexed(s: State) {
    DistinctHashes(s.messages) && s.hashes == HashesOf(s.messages)
  }

  /** New state gives every peer another chance, given-up ones included. */
  function Rearmed(peers: map<Identity, ParticipantState>): map<Identity, ParticipantState> {
    map id | id in peers :: peers[id].(consecutiveFailures := 0)
  }

  ghost function Committed(s: State, m: StoredMessage, maxStored: nat): State {
    if m.hash in s.hashes then s
    else
      var kept := LastN(s.messages + [m], maxStored);
      State(kept, HashesOf(kept), s.version + 1, Rearmed(s.peers))
  }

  /** The roster becomes exactly `identities`; a peer that stays keeps its bookkeeping. */
  function Reconciled(peers: map<Identity, ParticipantState>,
          identities: seq<Identity>): map<Identity, ParticipantState> {
    map id | id in identities :: if id in peers then peers[id] else NEW_PARTICIPANT
  }

  predicate NeedsPush(o: Options, p: ParticipantState, version: nat) {
    p.deliveredVersion < version && p.consecutiveFailures < o.maxParticipantFailures
  }

  ghost function Targets(o: Options, peers: map<Identity, ParticipantState>, version: nat): set<Identity> {
    set id | id in peers && NeedsPush(o, peers[id], version)
  }

  ghost predicate Enumerates<T(!new)>(order: seq<T>, elements: set<T>) {
    && (forall i, j | 0 <= i < j < |order| :: order[i] != order[j])
    && (forall x :: x in order <==> x in elements)
  }

  /** Bookkeeping after one peer's push: a peer that left meanwhile is skipped. */
  function Settled(s: State, id: Identity, delivered: bool, version: nat): State {
    if id !in s.peers then s
    else if delivered then s.(peers := s.peers[id := ParticipantState(version, 0)])
    else s.(peers := s.peers[id := s.peers[id].(consecutiveFailures := s.peers[id].consecutiveFailures + 1)])
  }

  lemma IndexedSuffix(messages: seq<StoredMessage>)
    requires DistinctHashes(messages) && messages != []
    ensures DistinctHashes(messages[1..])
    ensures HashesOf(messages[1..]) == HashesOf(messages) - {messages[0].hash}
  {
    var tail := messages[1..];
    forall h | h in HashesOf(messages) - {messages[0].hash} ensures h in HashesOf(tail) {
      var i :| 0 <= i < |messages| && messages[i].hash == h;
      assert tail[i - 1].hash == h;
    }
  }

  lemma DropOldest(messages: seq<StoredMessage>, n: nat)
    requires |messages| > n
    ensures LastN(messages[1..], n) == LastN(messages, n)
  {
  }

  lemma IndexedAppend(messages: seq<StoredMessage>, m: StoredMessage)
    requires DistinctHashes(messages) && m.hash !in HashesOf(messages)
    ensures DistinctHashes(messages + [m])
    ensures HashesOf(messages + [m]) == HashesOf(messages) + {m.hash}
  {
    var all := messages + [m];
    forall i | 0 <= i < |messages| ensures all[i].hash != m.hash {
      assert messages[i] in messages;
    }
    assert all[|messages|] == m;
    forall h | h in HashesOf(messages) ensures h in HashesOf(all) {
      var i :| 0 <= i < |messages| && messages[i].hash == h;
      assert all[i].hash == h;
    }
  }

  lemma {:induction false} IndexedLastN(messages: seq<StoredMessage>, n: nat)
    requires DistinctHashes(messages)
    ensures DistinctHashes(LastN(messages, n))
  {
  }

  /** A commit keeps the hashes distinct and the index exact. */
  lemma CommitKeepsIndex(s: State, m: StoredMessage, maxStored: nat)
    requires Indexed(s)
    ensures Indexed(Committed(s, m, maxStored))
  {
    if m.hash !in s.hashes {
      IndexedAppend(s.messages, m);
      IndexedLastN(s.messages + [m], maxStored);
    }
  }

  class LatchedTopicForwarder {
    const options: Options
    var messages: seq<StoredMessage>
    var messageHashes: set<Hash>
    var version: nat
    var participantStates: map<Identity, ParticipantState>

    ghost function View(): State
      reads this
    {
      State(messages, messageHashes, version, participantStates)
    }

    constructor (options: Options)
      ensures this.options == options
      ensures View() == State([], {}, 0, map[])
      ensures Indexed(View())
    {
      this.options := options;
      messages, messageHashes, version, participantStates := [], {}, 0, map[];
    }

    /** First critical section of storeOutboundMessage: is this content already held? */
    method IsDuplicate(hash: Hash) returns (duplicate: bool)
      requires Indexed(View())
      ensures duplicate <==> exists i :: 0 <= i < |messages| && messages[i].hash == hash
    {
      duplicate := hash in messageHashes;
    }

    /** Second critical section of storeOutboundMessage. */
    method CommitMessage(m: StoredMessage)
      requires Indexed(View())
      modifies this
      ensures Indexed(View())
      ensures View() == Committed(old(View()), m, options.maxStoredMessages)
      ensures m.hash in old(messageHashes) ==> unchanged(this)
      ensures m.hash !in old(messageHashes) ==>
                && version == old(version) + 1
                && (options.maxStoredMessages > 0 ==> messages != [] && messages[|messages| - 1] == m)
                && participantStates.Keys == old(participantStates).Keys
                && forall id | id in participantStates ::
                     participantStates[id] == ParticipantState(old(participantStates)[id].deliveredVersion, 0)
    {
      if m.hash in messageHashes {
        return;
      }
      IndexedAppend(messages, m);
      messages := messages + [m];
      messageHashes := messageHashes + {m.hash};
      EvictOldest();
      version := version + 1;
      RearmParticipants();
    }

    /** The eviction loop of CommitMessage. */
    method EvictOldest()
      requires DistinctHashes(messages) && messageHashes == HashesOf(messages)
      modifies this`messages, this`messageHashes
      ensures messages == LastN(old(messages), options.maxStoredMessages)
      ensures DistinctHashes(messages) && messageHashes == HashesOf(messages)
    {
      while |messages| > options.maxStoredMessages
        invariant LastN(messages, options.maxStoredMessages) == LastN(old(messages), options.maxStoredMessages)
        invariant DistinctHashes(messages) && messageHashes == HashesOf(messages)
        decreases |messages|
      {
        IndexedSuffix(messages);
        DropOldest(messages, options.maxStoredMessages);
        messageHashes := messageHashes - {messages[0].hash};
        messages := messages[1..];
      }
    }

    method RearmParticipants()
      modifies this`participantStates
      ensures participantStates == Rearmed(old(participantStates))
      ensures participantStates.Keys == old(participantStates).Keys
      ensures forall id | id in participantStates ::
                participantStates[id] == ParticipantState(old(participantStates)[id].deliveredVersion, 0)
    {
      var left := participantStates.Keys;
      while left != {}
        invariant left <= participantStates.Keys == old(participantStates).Keys
        invariant forall id | id in participantStates ::
                    participantStates[id] == if id in left then old(participantStates)[id]
                                             else old(participantStates)[id].(consecutiveFailures := 0)
        decreases left
      {
        var id :| id in left;
        participantStates := participantStates[id := participantStates[id].(consecutiveFailures := 0)];
        left := left - {id};
      }
    }

    /** reconcileRosterLocked: add the newcomers, then erase whoever is gone. */
    method ReconcileRoster(identities: seq<Identity>)
      modifies this`participantStates
      ensures participantStates == Reconciled(old(participantStates), identities)
      ensures forall id :: id in participantStates <==> id in identities
      ensures forall id | id in participantStates ::
                participantStates[id] == if id in old(participantStates) then old(participantStates)[id]
                                         else ParticipantState(0, 0)
    {
      var i := 0;
      while i < |identities|
        invariant 0 <= i <= |identities|
        invariant forall id :: id in participantStates <==> id in old(participantStates) || id in identities[..i]
        invariant forall id | id in participantStates ::
                    participantStates[id] == if id in old(participantStates) then old(participantStates)[id]
                        else NEW_PARTICIPANT
      {
        if identities[i] !in participantStates {
          participantStates := participantStates[identities[i] := NEW_PARTICIPANT];
        }
        i := i + 1;
      }
      ghost var merged := participantStates;
      var left := participantStates.Keys;
      while left != {}
        invariant left <= participantStates.Keys <= merged.Keys
        invariant forall id | id in participantStates :: participantStates[id] == merged[id]
        invariant forall id | id in merged :: id in participantStates <==> id in left || id in identities
        decreases left
      {
        var id :| id in left;
        if id !in identities {
          participantStates := participantStates - {id};
        }
        left := left - {id};
      }
    }

    /** First critical section of pushToPeers: snapshot the store and choose the peers to push to. */
    method StartCycle(identities: seq<Identity>)
      returns (batch: seq<StoredMessage>, batchVersion: nat, targets: seq<Identity>)
      modifies this`participantStates
      ensures participantStates == Reconciled(old(participantStates), identities)
      ensures batch == messages
      ensures messages != [] ==> batchVersion == version
      ensures messages != [] ==> Enumerates(targets, Targets(options, participantStates, version))
      ensures messages != [] ==> forall id :: id in targets <==>
                id in participantStates && participantStates[id].deliveredVersion < version
                && participantStates[id].consecutiveFailures < options.maxParticipantFailures
      ensures messages == [] ==> targets == []
    {
      ReconcileRoster(identities);
      batch, batchVersion, targets := messages, 0, [];
      if messages == [] {
        return;
      }
      batchVersion := version;
      var left := participantStates.Keys;
      while left != {}
        invariant left <= participantStates.Keys
        invariant participantStates == Reconciled(old(participantStates), identities)
        invariant Enumerates(targets, Targets(options, participantStates, version) - left)
        decreases left
      {
        var id :| id in left;
        if NeedsPush(options, participantStates[id], batchVersion) {
          targets := targets + [id];
        }
        left := left - {id};
      }
    }

    /** Second critical section of pushToPeers, once per target. */
    method SettlePeer(id: Identity, delivered: bool, batchVersion: nat)
      modifies this`participantStates
      ensures View() == Settled(old(View()), id, delivered, batchVersion)
      ensures participantStates.Keys == old(participantStates).Keys
      ensures forall other | other in participantStates && other != id ::
                participantStates[other] == old(participantStates)[other]
      ensures id in participantStates ==>
                participantStates[id] ==
                if delivered then ParticipantState(batchVersion, 0)
                else ParticipantState(old(participantStates)[id].deliveredVersion,
                                      old(participantStates)[id].consecutiveFailures + 1)
    {
      if id !in participantStates {
        return;
      }
      var p := participantStates[id];
      if delivered {
        p := p.(deliveredVersion := batchVersion);
        p := p.(consecutiveFailures := 0);
      } else {
        p := p.(consecutiveFailures := p.consecutiveFailures + 1);
      }
      participantStates := participantStates[id := p];
    }
  }
}
