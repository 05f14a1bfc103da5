/**
 SchemaManager::ensureSchemaDefined: reserve, define outside the lock, then publish or erase,
 with a condition variable for callers that find a definition in flight.
 */
module SchemaManager {
  import opened Optional
  import Spacing

  /** A SHA-256 digest, kept abstract. */
  type Hash = nat
  type Key = string
  type Thread = nat

  datatype OutboundEncoding = RequestMsg | RequestIdl | RequestJson

  datatype SchemaEncoding = Ros2Msg | Ros2Idl | JsonSchema

  datatype SchemaId = SchemaId(name: string, encoding: SchemaEncoding)

  datatype RosMessageSchema = RosMessageSchema(encoding: string, text: string)

  datatype Request = Request(id: SchemaId, key: Key, text: string)

  datatype DefinitionState = DefinitionState(hash: Hash, defined: bool)

  // ---------------------------------------------------------------------------
  // Before the lock: which schema, under which key
  // ---------------------------------------------------------------------------

  function SchemaEncodingFromRosDefinition(encoding: string): Option<SchemaEncoding> {
    if encoding == "ros2idl" then Some(Ros2Idl)
    else if encoding == "ros2msg" then Some(Ros2Msg)
    else None
  }

  function SchemaDedupeKey(topicType: string, encoding: string): Key {
    encoding + "\n" + topicType
  }

  /** What a call asks to define, given what the two renderers produced for the type. */
  function Prepare(topicType: string, encoding: OutboundEncoding,
          json: Option<string>, ros: Option<RosMessageSchema>): Option<Request>
  {
    if encoding == RequestJson then
      if json.None? then None
      else Some(Request(SchemaId(topicType, JsonSchema), SchemaDedupeKey(topicType, "jsonschema"), json.value))
    else if ros.None? then None
    else
      var rendered := SchemaEncodingFromRosDefinition(ros.value.encoding);
      if rendered.None? then None
      else if encoding == RequestIdl && rendered.value != Ros2Idl then None
      else Some(Request(SchemaId(topicType, rendered.value), SchemaDedupeKey(topicType, ros.value.encoding),
          ros.value.text))
  }

  /**
   A JSON request needs the generated JSON schema. Any other needs a rendering with a known label, which for an
   explicit IDL request has to be the IDL one, and defines that rendering under its own encoding.
   */
  lemma PrepareOutcome(topicType: string, encoding: OutboundEncoding, json: Option<string>,
          ros: Option<RosMessageSchema>)
    ensures
      var request := Prepare(topicType, encoding, json, ros);
      if encoding == RequestJson then
        && (request.Some? <==> json.Some?)
        && (request.Some? ==>
              request.value.id == SchemaId(topicType, JsonSchema) && request.value.text == json.value)
      else
        && (request.Some? <==>
              ros.Some? && (ros.value.encoding == "ros2idl" ||
                            (ros.value.encoding == "ros2msg" && encoding != RequestIdl)))
        && (request.Some? ==>
              && request.value.id ==
                 SchemaId(topicType, if ros.value.encoding == "ros2idl" then Ros2Idl else Ros2Msg)
              && request.value.text == ros.value.text)
  {
    assert "ros2idl" != "ros2msg" by {
      assert "ros2idl"[4] != "ros2msg"[4];
    }
  }

  lemma LabelEndsAtFirstNewline(topicType: string, encoding: string)
    requires '\n' !in encoding
    ensures SchemaDedupeKey(topicType, encoding)[|encoding|] == '\n'
    ensures forall i | 0 <= i < |encoding| :: SchemaDedupeKey(topicType, encoding)[i] != '\n'
  {
    assert forall i | 0 <= i < |encoding| :: SchemaDedupeKey(topicType, encoding)[i] == encoding[i];
  }

  lemma DedupeKeyInjective(type1: string, encoding1: string, type2: string, encoding2: string)
    requires '\n' !in encoding1 && '\n' !in encoding2
    ensures SchemaDedupeKey(type1, encoding1) == SchemaDedupeKey(type2, encoding2) <==>
            type1 == type2 && encoding1 == encoding2
  {
    var k1, k2, n1, n2 := SchemaDedupeKey(type1, encoding1), SchemaDedupeKey(type2, encoding2), |encoding1|,
        |encoding2|;
    if k1 == k2 {
      LabelEndsAtFirstNewline(type1, encoding1);
      LabelEndsAtFirstNewline(type2, encoding2);
      assert n1 == n2;
      assert k1[..n1] == encoding1 && k2[..n2] == encoding2;
      assert k1[n1 + 1..] == type1 && k2[n2 + 1..] == type2;
    }
  }

  /** Two calls share a cache key exactly when they would define the same schema ID. */
  lemma SameKeyIffSameId(type1: string, encoding1: OutboundEncoding, json1: Option<string>,
          ros1: Option<RosMessageSchema>, type2: string, encoding2: OutboundEncoding, json2: Option<string>,
          ros2: Option<RosMessageSchema>)
    requires Prepare(type1, encoding1, json1, ros1).Some? && Prepare(type2, encoding2, json2, ros2).Some?
    ensures Prepare(type1, encoding1, json1, ros1).value.key == Prepare(type2, encoding2, json2, ros2).value.key <==>
            Prepare(type1, encoding1, json1, ros1).value.id == Prepare(type2, encoding2, json2, ros2).value.id
  {
    var label1 := if encoding1 == RequestJson then "jsonschema" else ros1.value.encoding;
    var label2 := if encoding2 == RequestJson then "jsonschema" else ros2.value.encoding;
    DedupeKeyInjective(type1, label1, type2, label2);
  }

  // ---------------------------------------------------------------------------
  // The two critical sections
  // ---------------------------------------------------------------------------

  datatype Verdict = Reserved | HashDiffers | AlreadyDefined | MustWait

  type Table = map<Key, DefinitionState>

  function LookUpVerdict(table: Table, key: Key, hash: Hash): Verdict {
    if key !in table then Reserved
    else if table[key].hash != hash then HashDiffers
    else if table[key].defined then AlreadyDefined
    else MustWait
  }

  function LookUpTable(table: Table, key: Key, hash: Hash): Table {
    if key in table then table else table[key := DefinitionState(hash, false)]
  }

  function PublishTable(table: Table, key: Key, defined: bool): Table
    requires key in table
  {
    if defined then table[key := table[key].(defined := true)] else table - {key}
  }

  class SchemaManager {
    var definedSchemas: Table

    constructor ()
      ensures definedSchemas == map[]
    {
      definedSchemas := map[];
    }

    /** One pass through the loop under the lock, up to `wait`, `break` or `return`. */
    method LookUp(key: Key, hash: Hash) returns (verdict: Verdict)
      modifies this
      ensures verdict == LookUpVerdict(old(definedSchemas), key, hash)
      ensures definedSchemas == LookUpTable(old(definedSchemas), key, hash)
      ensures verdict == Reserved <==> key !in old(definedSchemas)
      ensures verdict == AlreadyDefined <==>
              key in old(definedSchemas) && old(definedSchemas)[key] == DefinitionState(hash, true)
      ensures verdict == MustWait <==>
              key in old(definedSchemas) && old(definedSchemas)[key] == DefinitionState(hash, false)
      ensures definedSchemas ==
              if verdict == Reserved then old(definedSchemas)[key := DefinitionState(hash, false)]
              else old(definedSchemas)
    {
      if key !in definedSchemas {
        definedSchemas := definedSchemas[key := DefinitionState(hash, false)];
        return Reserved;
      }
      if definedSchemas[key].hash != hash {
        return HashDiffers;
      }
      if definedSchemas[key].defined {
        return AlreadyDefined;
      }
      return MustWait;
    }

    /** After `define_schema`: the reserved entry, which no other thread can have removed, is published or erased. */
    method Publish(key: Key, defined: bool)
      requires key in definedSchemas
      modifies this
      ensures definedSchemas == PublishTable(old(definedSchemas), key, defined)
      ensures key in definedSchemas <==> defined
      ensures defined ==> definedSchemas[key] == DefinitionState(old(definedSchemas)[key].hash, true)
      ensures forall other | other != key :: other in definedSchemas <==> other in old(definedSchemas)
      ensures forall other | other != key && other in definedSchemas ::
                definedSchemas[other] == old(definedSchemas)[other]
    {
      if defined {
        definedSchemas := definedSchemas[key := definedSchemas[key].(defined := true)];
      } else {
        definedSchemas := definedSchemas - {key};
      }
    }
  }

  // ---------------------------------------------------------------------------
  // Any number of concurrent callers
  // ---------------------------------------------------------------------------

  datatype Phase =
    | AtLock(key: Key, hash: Hash)
    | Asleep(key: Key, hash: Hash)
    | Defining(key: Key, hash: Hash)
    | Notifying(key: Key, hash: Hash, succeeded: bool)

  type Threads = map<Thread, Phase>

  /**
   `definitions` logs every successful `define_schema`, `results` every call that returned a
   schema ID; `definer` names the thread that holds the reservation of a key.
   */
  datatype System = System(
    table: Table,
    threads: Threads,
    definer: map<Key, Thread>,
    definitions: seq<(Key, Hash)>,
    results: seq<(Key, Hash)>)

  const INITIAL := System(map[], map[], map[], [], [])

  datatype Event =
    | Call(thread: Thread, key: Key, hash: Hash)
    | LookUp(thread: Thread)
    | DefineEnds(thread: Thread, succeeded: bool)
    | NotifyAll(thread: Thread)
    | SpuriousWake(thread: Thread)

  ghost predicate Enabled(s: System, e: Event) {
    match e
    case Call(t, _, _) => t !in s.threads
    case LookUp(t) => t in s.threads && s.threads[t].AtLock?
    case DefineEnds(t, _) => t in s.threads && s.threads[t].Defining?
    case NotifyAll(t) => t in s.threads && s.threads[t].Notifying?
    case SpuriousWake(t) => t in s.threads && s.threads[t].Asleep?
  }

  function Woken(phase: Phase): Phase {
    if phase.Asleep? then AtLock(phase.key, phase.hash) else phase
  }

  ghost function Next(s: System, e: Event): System
    requires Enabled(s, e)
  {
    match e
    case Call(t, key, hash) => s.(threads := s.threads[t := AtLock(key, hash)])
    case LookUp(t) => AfterLookUp(s, t)
    case DefineEnds(t, succeeded) =>
      var key, hash := s.threads[t].key, s.threads[t].hash;
      System(if key in s.table then PublishTable(s.table, key, succeeded) else s.table,
             s.threads[t := Notifying(key, hash, succeeded)],
             s.definer - {key},
             if succeeded then s.definitions + [(key, hash)] else s.definitions,
             s.results)
    case NotifyAll(t) =>
      var p := s.threads[t];
      s.(threads := map u | u in s.threads && u != t :: Woken(s.threads[u]),
         results := if p.succeeded then s.results + [(p.key, p.hash)] else s.results)
    case SpuriousWake(t) => s.(threads := s.threads[t := Woken(s.threads[t])])
  }

  ghost function AfterLookUp(s: System, t: Thread): System
    requires t in s.threads
  {
    var key, hash := s.threads[t].key, s.threads[t].hash;
    match LookUpVerdict(s.table, key, hash)
    case Reserved =>
      s.(table := LookUpTable(s.table, key, hash), threads := s.threads[t := Defining(key, hash)],
          definer := s.definer[key := t])
    case HashDiffers => s.(threads := s.threads - {t})
    case AlreadyDefined => s.(threads := s.threads - {t}, results := s.results + [(key, hash)])
    case MustWait => s.(threads := s.threads[t := Asleep(key, hash)])
  }

  ghost predicate IsRun(s: System, events: seq<Event>)
    decreases |events|
  {
    events == [] || (Enabled(s, events[0]) && IsRun(Next(s, events[0]), events[1..]))
  }

  ghost function After(s: System, events: seq<Event>): System
    requires IsRun(s, events)
    decreases |events|
  {
    if events == [] then s else After(Next(s, events[0]), events[1..])
  }

  ghost predicate Reachable(s: System) {
    exists events :: IsRun(INITIAL, events) && After(INITIAL, events) == s
  }

  ghost predicate ReservationsHeld(s: System) {
    && (forall k :: k in s.definer <==> k in s.table && !s.table[k].defined)
    && (forall k | k in s.definer ::
          s.definer[k] in s.threads && s.threads[s.definer[k]] == Defining(k, s.table[k].hash))
    && (forall t | t in s.threads && s.threads[t].Defining? ::
          s.threads[t].key in s.definer && s.definer[s.threads[t].key] == t)
  }

  ghost predicate Published(s: System, key: Key, hash: Hash) {
    key in s.table && s.table[key] == DefinitionState(hash, true)
  }

  ghost predicate LogsMatchTable(s: System) {
    && (forall i | 0 <= i < |s.definitions| :: Published(s, s.definitions[i].0, s.definitions[i].1))
    && (forall i, j | 0 <= i < j < |s.definitions| :: s.definitions[i].0 != s.definitions[j].0)
    && (forall i | 0 <= i < |s.results| :: Published(s, s.results[i].0, s.results[i].1))
    && (forall t | t in s.threads && s.threads[t].Notifying? && s.threads[t].succeeded ::
          Published(s, s.threads[t].key, s.threads[t].hash))
    && (forall k | k in s.table && s.table[k].defined :: (k, s.table[k].hash) in s.definitions)
  }

  ghost function Notifiers(threads: Threads): set<Thread> {
    set t | t in threads && threads[t].Notifying?
  }

  ghost predicate SleepersAwaited(s: System) {
    forall t | t in s.threads && s.threads[t].Asleep? :: s.threads[t].key in s.definer || Notifiers(s.threads) != {}
  }

  ghost predicate Inv(s: System) {
    ReservationsHeld(s) && LogsMatchTable(s) && SleepersAwaited(s)
  }

  lemma ReserveKeepsReservations(s: System, t: Thread)
    requires ReservationsHeld(s) && Enabled(s, LookUp(t)) && s.threads[t].key !in s.table
    ensures ReservationsHeld(Next(s, LookUp(t)))
  {
    var u, key, hash := Next(s, LookUp(t)), s.threads[t].key, s.threads[t].hash;
    assert u.table == s.table[key := DefinitionState(hash, false)];
    assert u.definer == s.definer[key := t] && u.threads == s.threads[t := Defining(key, hash)];
  }

  lemma ReserveKeepsLogs(s: System, t: Thread)
    requires LogsMatchTable(s) && Enabled(s, LookUp(t)) && s.threads[t].key !in s.table
    ensures LogsMatchTable(Next(s, LookUp(t)))
  {
    var u, key := Next(s, LookUp(t)), s.threads[t].key;
    assert u.definitions == s.definitions && u.results == s.results;
    assert forall k, h | Published(s, k, h) :: Published(u, k, h);
  }

  lemma LeaveKeepsReservations(s: System, t: Thread)
    requires ReservationsHeld(s) && Enabled(s, LookUp(t)) && s.threads[t].key in s.table
    ensures ReservationsHeld(Next(s, LookUp(t)))
  {
    var u := Next(s, LookUp(t));
    assert u.table == s.table && u.definer == s.definer;
    assert forall k | k in s.definer :: s.definer[k] != t;
  }

  lemma LeaveKeepsLogs(s: System, t: Thread)
    requires LogsMatchTable(s) && Enabled(s, LookUp(t)) && s.threads[t].key in s.table
    ensures LogsMatchTable(Next(s, LookUp(t)))
  {
    var u := Next(s, LookUp(t));
    assert u.table == s.table && u.definitions == s.definitions;
    assert forall k, h | Published(s, k, h) :: Published(u, k, h);
  }

  lemma LookUpKeepsSleepersAwaited(s: System, t: Thread)
    requires ReservationsHeld(s) && SleepersAwaited(s) && Enabled(s, LookUp(t))
    ensures SleepersAwaited(Next(s, LookUp(t)))
  {
    var u := Next(s, LookUp(t));
    assert Notifiers(u.threads) == Notifiers(s.threads);
    assert s.definer.Keys <= u.definer.Keys;
  }

  lemma LookUpPreservesInv(s: System, t: Thread)
    requires Inv(s) && Enabled(s, LookUp(t))
    ensures Inv(Next(s, LookUp(t)))
  {
    LookUpKeepsSleepersAwaited(s, t);
    if s.threads[t].key in s.table {
      LeaveKeepsReservations(s, t);
      LeaveKeepsLogs(s, t);
    } else {
      ReserveKeepsReservations(s, t);
      ReserveKeepsLogs(s, t);
    }
  }

  lemma PublishKeepsReservations(s: System, t: Thread, succeeded: bool)
    requires ReservationsHeld(s) && Enabled(s, DefineEnds(t, succeeded))
    ensures ReservationsHeld(Next(s, DefineEnds(t, succeeded)))
  {
    var u, key, hash := Next(s, DefineEnds(t, succeeded)), s.threads[t].key, s.threads[t].hash;
    assert key in s.table && s.table[key] == DefinitionState(hash, false);
    assert u.threads == s.threads[t := Notifying(key, hash, succeeded)];
    assert forall k | k in s.definer && k != key :: s.definer[k] != t;
  }

  lemma PublishKeepsPublished(s: System, t: Thread, succeeded: bool, key: Key, hash: Hash)
    requires ReservationsHeld(s) && Enabled(s, DefineEnds(t, succeeded)) && Published(s, key, hash)
    ensures key != s.threads[t].key && Published(Next(s, DefineEnds(t, succeeded)), key, hash)
  {
    assert s.table[s.threads[t].key] == DefinitionState(s.threads[t].hash, false);
  }

  /** Only the thread's own key can become published, and only when its definition succeeded. */
  ghost predicate Publishes(s: System, u: System, key: Key, hash: Hash, succeeded: bool) {
    && (forall k, h | Published(s, k, h) :: k != key && Published(u, k, h))
    && (forall k | k in u.table && u.table[k].defined && !Published(s, k, u.table[k].hash) ::
          succeeded && k == key && u.table[k].hash == hash)
    && (succeeded ==> Published(u, key, hash))
  }

  lemma DefineEndsPublishes(s: System, t: Thread, succeeded: bool)
    requires ReservationsHeld(s) && Enabled(s, DefineEnds(t, succeeded))
    ensures Publishes(s, Next(s, DefineEnds(t, succeeded)), s.threads[t].key, s.threads[t].hash, succeeded)
  {
    var u, key, hash := Next(s, DefineEnds(t, succeeded)), s.threads[t].key, s.threads[t].hash;
    assert key in s.table && s.table[key] == DefinitionState(hash, false);
    forall k, h | Published(s, k, h) ensures k != key && Published(u, k, h) {
      PublishKeepsPublished(s, t, succeeded, k, h);
    }
  }

  /** The two logs and the notifiers after the definition, for any table in which it was published. */
  lemma PublishedLogs(s: System, u: System, t: Thread, key: Key, hash: Hash, succeeded: bool)
    requires LogsMatchTable(s) && Publishes(s, u, key, hash, succeeded)
    requires t in s.threads && u.threads == s.threads[t := Notifying(key, hash, succeeded)] && u.results == s.results
    requires u.definitions == if succeeded then s.definitions + [(key, hash)] else s.definitions
    ensures LogsMatchTable(u)
  {
    assert forall x | x in s.definitions :: x in u.definitions;
    if succeeded {
      assert u.definitions[|s.definitions|] == (key, hash);
    }
    forall i | 0 <= i < |s.definitions| ensures Published(u, u.definitions[i].0, u.definitions[i].1) {
      assert Published(s, s.definitions[i].0, s.definitions[i].1);
    }
    forall k | k in u.table && u.table[k].defined ensures (k, u.table[k].hash) in u.definitions {
      if Published(s, k, u.table[k].hash) {
        assert (k, s.table[k].hash) in s.definitions;
      }
    }
  }

  lemma PublishKeepsLogs(s: System, t: Thread, succeeded: bool)
    requires ReservationsHeld(s) && LogsMatchTable(s) && Enabled(s, DefineEnds(t, succeeded))
    ensures LogsMatchTable(Next(s, DefineEnds(t, succeeded)))
  {
    DefineEndsPublishes(s, t, succeeded);
    PublishedLogs(s, Next(s, DefineEnds(t, succeeded)), t, s.threads[t].key, s.threads[t].hash, succeeded);
  }

  lemma DefineEndsPreservesInv(s: System, t: Thread, succeeded: bool)
    requires Inv(s) && Enabled(s, DefineEnds(t, succeeded))
    ensures Inv(Next(s, DefineEnds(t, succeeded)))
  {
    PublishKeepsReservations(s, t, succeeded);
    PublishKeepsLogs(s, t, succeeded);
    assert t in Notifiers(Next(s, DefineEnds(t, succeeded)).threads);
  }

  lemma NotifyAllPreservesInv(s: System, t: Thread)
    requires Inv(s) && Enabled(s, NotifyAll(t))
    ensures Inv(Next(s, NotifyAll(t)))
  {
    var u := Next(s, NotifyAll(t));
    assert forall x | x in u.threads :: !u.threads[x].Asleep?;
    assert ReservationsHeld(u);
    assert LogsMatchTable(u);
  }

  lemma NextPreservesInv(s: System, e: Event)
    requires Inv(s) && Enabled(s, e)
    ensures Inv(Next(s, e))
  {
    match e
    case Call(t, key, hash) =>
      assert Notifiers(Next(s, e).threads) == Notifiers(s.threads);
    case LookUp(t) => LookUpPreservesInv(s, t);
    case DefineEnds(t, succeeded) => DefineEndsPreservesInv(s, t, succeeded);
    case NotifyAll(t) => NotifyAllPreservesInv(s, t);
    case SpuriousWake(t) =>
      assert Notifiers(Next(s, e).threads) == Notifiers(s.threads);
  }

  lemma {:induction false} RunPreservesInv(s: System, events: seq<Event>)
    requires Inv(s) && IsRun(s, events)
    ensures Inv(After(s, events))
    decreases |events|
  {
    if events != [] {
      NextPreservesInv(s, events[0]);
      RunPreservesInv(Next(s, events[0]), events[1..]);
    }
  }

  lemma ReachableInv(s: System)
    requires Reachable(s)
    ensures Inv(s)
  {
    var events :| IsRun(INITIAL, events) && After(INITIAL, events) == s;
    RunPreservesInv(INITIAL, events);
  }

  /** A key has an undefined entry exactly while one thread is defining it, and that thread is unique. */
  lemma UndefinedEntryIffOneDefiner(s: System, key: Key)
    requires Reachable(s)
    ensures (key in s.table && !s.table[key].defined) <==>
            exists t :: t in s.threads && s.threads[t].Defining? && s.threads[t].key == key
    ensures forall t, u | t in s.threads && u in s.threads && s.threads[t].Defining? && s.threads[u].Defining?
                          && s.threads[t].key == s.threads[u].key :: t == u
  {
    ReachableInv(s);
    if key in s.definer {
      assert s.threads[s.definer[key]].key == key;
    }
  }

  /** Some thread is defining the key with this hash. */
  ghost predicate InFlight(s: System, key: Key, hash: Hash) {
    exists t :: t in s.threads && s.threads[t] == Defining(key, hash)
  }

  /** In a reachable state the table says of a key which definition of it succeeded or is in flight. */
  lemma TableMeaning(s: System, key: Key, hash: Hash)
    requires Reachable(s)
    ensures (key, hash) in s.definitions <==> Published(s, key, hash)
    ensures InFlight(s, key, hash) <==> key in s.table && s.table[key] == DefinitionState(hash, false)
  {
    ReachableInv(s);
    if (key, hash) in s.definitions {
      var i :| 0 <= i < |s.definitions| && s.definitions[i] == (key, hash);
      assert Published(s, s.definitions[i].0, s.definitions[i].1);
    }
    if key in s.table && s.table[key] == DefinitionState(hash, false) {
      assert key in s.definer;
      assert s.threads[s.definer[key]] == Defining(key, hash);
    }
  }

  /** One look-up touches no log but `results` and no other thread. */
  ghost predicate OnlyMoves(s: System, u: System, t: Thread) {
    && u.definitions == s.definitions && u.threads.Keys + {t} == s.threads.Keys
    && forall x | x in u.threads && x != t :: u.threads[x] == s.threads[x]
  }

  lemma LookUpOnlyMoves(s: System, t: Thread)
    requires Enabled(s, LookUp(t))
    ensures OnlyMoves(s, Next(s, LookUp(t)), t)
  {
  }

  /**
   What a thread at the lock gets: the schema, if its key was defined with its hash; nothing, if the key was
   defined or is being defined with another; sleep, if it is being defined with the same; and otherwise the
   reservation, so that it is the one to define it.
   */
  lemma LookUpOutcome(s: System, t: Thread, key: Key, hash: Hash, other: Hash)
    requires Reachable(s) && t in s.threads && s.threads[t] == AtLock(key, hash)
    ensures
      var u := Next(s, LookUp(t));
      && OnlyMoves(s, u, t)
      && ((key, hash) in s.definitions ==> t !in u.threads && u.results == s.results + [(key, hash)])
      && ((key, other) in s.definitions && other != hash ==> t !in u.threads && u.results == s.results)
      && (InFlight(s, key, other) && other != hash ==> t !in u.threads && u.results == s.results)
      && (InFlight(s, key, hash) ==>
            t in u.threads && u.threads[t] == Asleep(key, hash) && u.results == s.results)
      && ((forall h: Hash :: (key, h) !in s.definitions && !InFlight(s, key, h)) ==>
            t in u.threads && u.threads[t] == Defining(key, hash) && u.results == s.results)
  {
    LookUpOnlyMoves(s, t);
    TableMeaning(s, key, hash);
    TableMeaning(s, key, other);
    if key in s.table {
      TableMeaning(s, key, s.table[key].hash);
    }
  }

  /**
   A call for a key that is neither defined nor being defined defines it with its own hash, and returns the
   schema exactly when that succeeds.
   */
  lemma FirstCallDefines(s: System, t: Thread, key: Key, hash: Hash, succeeds: bool)
    requires Reachable(s) && t !in s.threads
    requires forall h: Hash :: (key, h) !in s.definitions && !InFlight(s, key, h)
    ensures
      var called := Next(s, Call(t, key, hash));
      var reserved := Next(called, LookUp(t));
      && Enabled(called, LookUp(t)) && Enabled(reserved, DefineEnds(t, succeeds))
      && var defined := Next(reserved, DefineEnds(t, succeeds));
      && Enabled(defined, NotifyAll(t))
      && var done := Next(defined, NotifyAll(t));
      && t !in done.threads
      && done.definitions == (if succeeds then s.definitions + [(key, hash)] else s.definitions)
      && done.results == (if succeeds then s.results + [(key, hash)] else s.results)
  {
    if key in s.table {
      TableMeaning(s, key, s.table[key].hash);
    }
  }

  /** A call for a schema that is defined with its own hash returns at once, any other for that key without it. */
  lemma LaterCallReturns(s: System, t: Thread, key: Key, hash: Hash, mine: Hash)
    requires Reachable(s) && t !in s.threads && (key, hash) in s.definitions
    ensures
      var called := Next(s, Call(t, key, mine));
      && Enabled(called, LookUp(t))
      && var done := Next(called, LookUp(t));
      && t !in done.threads && done.definitions == s.definitions
      && done.results == (if mine == hash then s.results + [(key, hash)] else s.results)
  {
    TableMeaning(s, key, hash);
  }

  /** A definition that ends is logged exactly when it succeeded, and its thread goes on to notify. */
  lemma DefineOutcome(s: System, t: Thread, key: Key, hash: Hash, succeeded: bool)
    requires Reachable(s) && t in s.threads && s.threads[t] == Defining(key, hash)
    ensures
      var u := Next(s, DefineEnds(t, succeeded));
      && u.threads == s.threads[t := Notifying(key, hash, succeeded)] && u.results == s.results
      && u.definitions == (if succeeded then s.definitions + [(key, hash)] else s.definitions)
      && (succeeded ==> Published(u, key, hash)) && (!succeeded ==> key !in u.table)
  {
    PublisherFindsItsEntry(s, t);
  }

  /** The notifier returns its schema exactly when its definition succeeded, and every sleeper looks again. */
  lemma NotifyOutcome(s: System, t: Thread)
    requires Reachable(s) && t in s.threads && s.threads[t].Notifying?
    ensures
      var p, u := s.threads[t], Next(s, NotifyAll(t));
      && u.definitions == s.definitions && u.table == s.table
      && u.results == (if p.succeeded then s.results + [(p.key, p.hash)] else s.results)
      && (p.succeeded ==> (p.key, p.hash) in s.definitions)
      && u.threads.Keys == s.threads.Keys - {t}
      && forall x | x in u.threads ::
           u.threads[x] ==
           if s.threads[x].Asleep? then AtLock(s.threads[x].key, s.threads[x].hash) else s.threads[x]
  {
    ReachableInv(s);
    var p := s.threads[t];
    if p.succeeded {
      assert Published(s, p.key, p.hash);
      TableMeaning(s, p.key, p.hash);
    }
  }

  /** When a definition ends its reserved entry is still there, with the hash it was reserved for. */
  lemma PublisherFindsItsEntry(s: System, t: Thread)
    requires Reachable(s) && t in s.threads && s.threads[t].Defining?
    ensures s.threads[t].key in s.table
    ensures s.table[s.threads[t].key] == DefinitionState(s.threads[t].hash, false)
  {
    ReachableInv(s);
  }

  /** At most one definition per key ever succeeds. */
  lemma DefinedAtMostOnce(s: System, i: nat, j: nat)
    requires Reachable(s) && i < |s.definitions| && j < |s.definitions|
    requires s.definitions[i].0 == s.definitions[j].0
    ensures i == j
  {
    ReachableInv(s);
  }

  /** Every successful return for a key comes after its one definition and shares its hash. */
  lemma SuccessesShareOneHash(s: System, i: nat, j: nat)
    requires Reachable(s) && i < |s.results| && j < |s.results|
    ensures s.results[i] in s.definitions
    ensures s.results[i].0 == s.results[j].0 ==> s.results[i].1 == s.results[j].1
  {
    ReachableInv(s);
    assert Published(s, s.results[i].0, s.results[i].1) && Published(s, s.results[j].0, s.results[j].1);
  }

  /** A sleeping thread is always owed a wake-up: its key is being defined or a notification is on its way. */
  lemma NoLostWakeUp(s: System, t: Thread)
    requires Reachable(s) && t in s.threads && s.threads[t].Asleep?
    ensures exists u :: u in s.threads &&
              (s.threads[u].Notifying? || (s.threads[u].Defining? && s.threads[u].key == s.threads[t].key))
  {
    ReachableInv(s);
    if s.threads[t].key in s.definer {
      assert s.threads[s.definer[s.threads[t].key]].Defining?;
    } else {
      var u :| u in Notifiers(s.threads);
    }
  }

  lemma SomeStepEnabled(s: System)
    requires Inv(s) && s.threads != map[]
    ensures exists e :: Enabled(s, e) && !e.Call? && !e.SpuriousWake?
  {
    var t :| t in s.threads;
    var u := t;
    if s.threads[t].Asleep? {
      u := if s.threads[t].key in s.definer then s.definer[s.threads[t].key]
      else (var v :| v in Notifiers(s.threads); v);
    }
    match s.threads[u]
    case AtLock(_, _) => assert Enabled(s, LookUp(u));
    case Defining(_, _) => assert Enabled(s, DefineEnds(u, true));
    case Notifying(_, _, _) => assert Enabled(s, NotifyAll(u));
  }

  /** No deadlock: while any call is active some thread can take a step that is not a spurious wake-up. */
  lemma SomeCallProgresses(s: System)
    requires Reachable(s) && s.threads != map[]
    ensures exists e :: Enabled(s, e) && !e.Call? && !e.SpuriousWake?
  {
    ReachableInv(s);
    SomeStepEnabled(s);
  }

  // ---------------------------------------------------------------------------
  // Every call returns
  // ---------------------------------------------------------------------------

  ghost function Contenders(threads: Threads): set<Thread> {
    set t | t in threads && threads[t].AtLock?
  }

  ghost function Definers(threads: Threads): set<Thread> {
    set t | t in threads && threads[t].Defining?
  }

  /** The steps a thread takes at most before it returns or falls asleep. */
  function Steps(phase: Phase): nat {
    match phase
    case AtLock(_, _) => 3
    case Defining(_, _) => 2
    case Notifying(_, _, _) => 1
    case Asleep(_, _) => 0
  }

  /** The sum of those steps. */
  ghost function Pending(threads: Threads): nat {
    3 * |Contenders(threads)| + 2 * |Definers(threads)| + |Notifiers(threads)|
  }

  /** Three steps for each of n threads, and again for all that are left whenever one of them notifies. */
  function StepBound(n: nat): nat {
    if n == 0 then 0 else StepBound(n - 1) + 3 * n
  }

  lemma {:induction false} StepBoundIsQuadratic(n: nat)
    ensures 2 * StepBound(n) == 3 * n * (n + 1)
  {
    if n > 0 {
      StepBoundIsQuadratic(n - 1);
    }
  }

  /** Bounds the steps left: those pending, and those that the wake-ups of all but one thread can add. */
  ghost function StepsLeft(threads: Threads): nat {
    Pending(threads) + StepBound(if |threads| == 0 then 0 else |threads| - 1)
  }

  lemma PendingIsBounded(threads: Threads)
    ensures Pending(threads) <= 3 * |threads|
  {
    var active := Contenders(threads) + Definers(threads) + Notifiers(threads);
    Spacing.SubsetSize(active, threads.Keys);
    assert |active| == |Contenders(threads)| + |Definers(threads)| + |Notifiers(threads)|;
  }

  lemma PendingWithout(threads: Threads, t: Thread)
    requires t in threads
    ensures Pending(threads - {t}) == Pending(threads) - Steps(threads[t])
    ensures |threads - {t}| == |threads| - 1
  {
    var rest := threads - {t};
    assert rest.Keys == threads.Keys - {t};
    assert Contenders(rest) == Contenders(threads) - {t};
    assert Definers(rest) == Definers(threads) - {t};
    assert Notifiers(rest) == Notifiers(threads) - {t};
  }

  lemma PendingMoved(threads: Threads, t: Thread, phase: Phase)
    requires t in threads
    ensures Pending(threads[t := phase]) == Pending(threads) - Steps(threads[t]) + Steps(phase)
    ensures |threads[t := phase]| == |threads|
  {
    var moved := threads[t := phase];
    assert moved.Keys == threads.Keys;
    assert moved - {t} == threads - {t};
    PendingWithout(moved, t);
    PendingWithout(threads, t);
  }

  lemma {:induction false} StepBoundGrows(m: nat, n: nat)
    requires m <= n
    ensures StepBound(m) <= StepBound(n)
    decreases n
  {
    if m < n {
      StepBoundGrows(m, n - 1);
    }
  }

  lemma StepsLeftWithout(threads: Threads, t: Thread)
    requires t in threads && Steps(threads[t]) > 0
    ensures StepsLeft(threads - {t}) < StepsLeft(threads)
  {
    PendingWithout(threads, t);
    var rest := threads - {t};
    StepBoundGrows(if |rest| == 0 then 0 else |rest| - 1, |threads| - 1);
  }

  lemma LookUpStepsLeft(s: System, t: Thread)
    requires Enabled(s, LookUp(t))
    ensures StepsLeft(Next(s, LookUp(t)).threads) < StepsLeft(s.threads)
  {
    var u := Next(s, LookUp(t)).threads;
    if t in u {
      PendingMoved(s.threads, t, u[t]);
    } else {
      StepsLeftWithout(s.threads, t);
    }
  }

  lemma DefineEndsStepsLeft(s: System, t: Thread, succeeded: bool)
    requires Enabled(s, DefineEnds(t, succeeded))
    ensures StepsLeft(Next(s, DefineEnds(t, succeeded)).threads) < StepsLeft(s.threads)
  {
    PendingMoved(s.threads, t, Notifying(s.threads[t].key, s.threads[t].hash, succeeded));
  }

  /** The thread returns, but everybody asleep is back at the lock. */
  lemma NotifyAllStepsLeft(s: System, t: Thread)
    requires Enabled(s, NotifyAll(t))
    ensures StepsLeft(Next(s, NotifyAll(t)).threads) < StepsLeft(s.threads)
  {
    var u := Next(s, NotifyAll(t)).threads;
    PendingWithout(s.threads, t);
    assert u.Keys == (s.threads - {t}).Keys;
    assert |u| == |s.threads| - 1;
    PendingIsBounded(u);
  }

  lemma SpuriousWakeStepsLeft(s: System, t: Thread)
    requires Enabled(s, SpuriousWake(t))
    ensures StepsLeft(Next(s, SpuriousWake(t)).threads) == StepsLeft(s.threads) + 3
  {
    PendingMoved(s.threads, t, Woken(s.threads[t]));
  }

  function SpuriousWakes(events: seq<Event>): nat {
    if events == [] then 0 else (if events[0].SpuriousWake? then 1 else 0) + SpuriousWakes(events[1..])
  }

  lemma {:induction false} RunSpendsStepsLeft(s: System, events: seq<Event>)
    requires IsRun(s, events) && forall e | e in events :: !e.Call?
    ensures |events| + StepsLeft(After(s, events).threads) <= StepsLeft(s.threads) + 4 * SpuriousWakes(events)
    decreases |events|
  {
    if events != [] {
      assert events[0] in events;
      match events[0] {
        case LookUp(t) => LookUpStepsLeft(s, t);
        case DefineEnds(t, succeeded) => DefineEndsStepsLeft(s, t, succeeded);
        case NotifyAll(t) => NotifyAllStepsLeft(s, t);
        case SpuriousWake(t) => SpuriousWakeStepsLeft(s, t);
      }
      RunSpendsStepsLeft(Next(s, events[0]), events[1..]);
    }
  }

  lemma RunIsBounded(s: System, events: seq<Event>)
    requires IsRun(s, events) && forall e | e in events :: !e.Call?
    ensures |events| <= StepBound(|s.threads|) + 4 * SpuriousWakes(events)
  {
    RunSpendsStepsLeft(s, events);
    PendingIsBounded(s.threads);
  }

  lemma QuadraticBound(n: nat, steps: nat, wakes: nat)
    requires steps <= StepBound(n) + 4 * wakes
    ensures 2 * steps <= 3 * n * (n + 1) + 8 * wakes
  {
    StepBoundIsQuadratic(n);
  }

  lemma GoesOnWhileActive(s: System, events: seq<Event>)
    requires Reachable(s) && IsRun(s, events)
    ensures After(s, events).threads != map[] <==>
            exists e :: Enabled(After(s, events), e) && !e.Call? && !e.SpuriousWake?
  {
    ReachableInv(s);
    RunPreservesInv(s, events);
    if After(s, events).threads != map[] {
      SomeStepEnabled(After(s, events));
    }
  }

  /**
   Every call returns: with n active calls and no new ones, a run has at most 3 n (n + 1) / 2 steps, and
   four more for each spurious wake-up; and it can go on without one exactly while some call is active.
   */
  lemma EveryCallReturns(s: System, events: seq<Event>)
    requires Reachable(s) && IsRun(s, events) && forall e | e in events :: !e.Call?
    ensures 2 * |events| <= 3 * |s.threads| * (|s.threads| + 1) + 8 * SpuriousWakes(events)
    ensures After(s, events).threads != map[] <==>
            exists e :: Enabled(After(s, events), e) && !e.Call? && !e.SpuriousWake?
  {
    RunIsBounded(s, events);
    QuadraticBound(|s.threads|, |events|, SpuriousWakes(events));
    GoesOnWhileActive(s, events);
  }
}
