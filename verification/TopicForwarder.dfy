/**
 TopicForwarder's outbound subscriptions: the subscription map, the data and image state maps
 that must agree with it, and the removal of subscriptions whose publishers stay away.
 */
module TopicForwarder {
  import opened Optional
  import opened RateCap
  import opened Spacing

  type Topic = string
  /** Nanoseconds of the monotonic clock. */
  type Instant = int

  datatype Subscription = Subscription(hasHandle: bool, publishersAbsentSince: Option<Instant>)

  datatype ImageTopicState = ImageTopicState(trackName: string, decodesJpeg: bool)

  datatype Kind = Data | RawImage | CompressedImage

  /** How creating the ROS subscription ended: created, std::exception, or any other exception. */
  datatype Outcome = Created | StdException | OtherException

  datatype Options = Options(inactiveSubscriptionGrace: nat, minPeriods: map<Topic, nat>)

  datatype Tables = Tables(
    subscriptions: map<Topic, Subscription>,
    dataStates: map<Topic, RateWindow>,
    imageStates: map<Topic, ImageTopicState>)

  const IMAGE_TYPE := "sensor_msgs/msg/Image"
  const COMPRESSED_IMAGE_TYPE := "sensor_msgs/msg/CompressedImage"

  function KindOf(topicType: string): Kind {
    if topicType == IMAGE_TYPE then RawImage
    else if topicType == COMPRESSED_IMAGE_TYPE then CompressedImage
    else Data
  }

  function NewWindow(o: Options, topic: Topic): RateWindow {
    RateWindow(if topic in o.minPeriods then Some(o.minPeriods[topic]) else None, None)
  }

  function AfterCreate(o: Options, t: Tables, topic: Topic, kind: Kind, outcome: Outcome): Tables {
    if topic in t.subscriptions then t
    else
      var subscriptions := if outcome == Created then t.subscriptions[topic := Subscription(true, None)]
          else t.subscriptions;
      if kind == Data then
        Tables(subscriptions, if outcome == Created then t.dataStates[topic := NewWindow(o, topic)]
            else t.dataStates - {topic}, t.imageStates)
      else
        Tables(subscriptions, t.dataStates,
               if outcome == StdException then t.imageStates - {topic}
               else t.imageStates[topic := ImageTopicState(topic, kind == CompressedImage)])
  }

  function Marked(s: Subscription, publishers: nat, now: Instant): Subscription {
    if !s.hasHandle then s
    else if publishers > 0 then s.(publishersAbsentSince := None)
    else if s.publishersAbsentSince.Some? then s
    else s.(publishersAbsentSince := Some(now))
  }

  function AfterMark(t: Tables, publishers: Topic -> nat, now: Instant): Tables {
    t.(subscriptions := map topic | topic in t.subscriptions :: Marked(t.subscriptions[topic], publishers(topic), now))
  }

  predicate Expired(o: Options, s: Subscription, publishers: nat, now: Instant) {
    && s.publishersAbsentSince.Some?
    && !(s.hasHandle && publishers > 0)
    && now - s.publishersAbsentSince.value >= o.inactiveSubscriptionGrace
  }

  function Refreshed(s: Subscription, publishers: nat): Subscription {
    if s.hasHandle && publishers > 0 then s.(publishersAbsentSince := None) else s
  }

  ghost function ExpiredTopics(o: Options, t: Tables, publishers: Topic -> nat, now: Instant): set<Topic> {
    set topic | topic in t.subscriptions && Expired(o, t.subscriptions[topic], publishers(topic), now)
  }

  /** The part of a reap that has looked at the topics in `among`. */
  ghost function ReapAmong(o: Options, t: Tables, publishers: Topic -> nat, now: Instant, among: set<Topic>): Tables {
    var gone := ExpiredTopics(o, t, publishers, now) * among;
    Tables(map topic | topic in t.subscriptions && topic !in gone ::
             if topic in among then Refreshed(t.subscriptions[topic], publishers(topic)) else t.subscriptions[topic],
           t.dataStates - gone, t.imageStates - gone)
  }

  lemma ReapOneMore(o: Options, t: Tables, publishers: Topic -> nat, now: Instant, among: set<Topic>, topic: Topic)
    requires topic in t.subscriptions && topic !in among
    ensures
      var s, before, after := t.subscriptions[topic], ReapAmong(o, t, publishers, now, among), ReapAmong(o, t,
          publishers, now, among + {topic});
      && topic in before.subscriptions && before.subscriptions[topic] == s
      && after == if Expired(o, s, publishers(topic), now)
                  then Tables(before.subscriptions - {topic}, before.dataStates - {topic}, before.imageStates - {topic})
                  else before.(subscriptions := before.subscriptions[topic := Refreshed(s, publishers(topic))])
  {
    var s := t.subscriptions[topic];
    var before, after := ReapAmong(o, t, publishers, now, among), ReapAmong(o, t, publishers, now, among + {topic});
    var gone, gone' := ExpiredTopics(o, t, publishers, now) * among, ExpiredTopics(o, t, publishers,
        now) * (among + {topic});
    assert gone' == if Expired(o, s, publishers(topic), now) then gone + {topic} else gone;
    assert after.subscriptions ==
      if Expired(o, s, publishers(topic), now) then before.subscriptions - {topic}
      else before.subscriptions[topic := Refreshed(s, publishers(topic))];
  }

  ghost function AfterReap(o: Options, t: Tables, publishers: Topic -> nat, now: Instant): Tables {
    var gone := ExpiredTopics(o, t, publishers, now);
    Tables(map topic | topic in t.subscriptions && topic !in gone ::
        Refreshed(t.subscriptions[topic], publishers(topic)),
           t.dataStates - gone, t.imageStates - gone)
  }

  function AfterOffer(t: Tables, topic: Topic, now: RosTime): Tables {
    if topic in t.dataStates then t.(dataStates := t.dataStates[topic := AfterSample(t.dataStates[topic], now)]) else t
  }

  /** `deadline` is the earliest end of a grace period, None when none is running. */
  ghost predicate IsNextExpiry(o: Options, subscriptions: map<Topic, Subscription>, deadline: Option<Instant>) {
    match deadline
    case None => forall topic | topic in subscriptions :: subscriptions[topic].publishersAbsentSince.None?
    case Some(d) =>
      && (forall topic | topic in subscriptions && subscriptions[topic].publishersAbsentSince.Some? ::
            d <= subscriptions[topic].publishersAbsentSince.value + o.inactiveSubscriptionGrace)
      && exists topic :: topic in subscriptions
            && subscriptions[topic].publishersAbsentSince == Some(d - o.inactiveSubscriptionGrace)
  }

  class TopicForwarder {
    const options: Options
    var subscriptions: map<Topic, Subscription>
    var dataTopicStates: map<Topic, RateWindow>
    var imageTopicStates: map<Topic, ImageTopicState>

    ghost function View(): Tables
      reads this
    {
      Tables(subscriptions, dataTopicStates, imageTopicStates)
    }

    constructor (options: Options)
      ensures this.options == options && View() == Tables(map[], map[], map[])
    {
      this.options := options;
      subscriptions, dataTopicStates, imageTopicStates := map[], map[], map[];
    }

    /** First half of reconcileTopics: note since when each subscription has had no publisher. */
    method MarkPublishers(publishers: Topic -> nat, now: Instant)
      modifies this`subscriptions
      ensures View() == AfterMark(old(View()), publishers, now)
      ensures subscriptions.Keys == old(subscriptions).Keys
      ensures forall topic | topic in subscriptions ::
                var before := old(subscriptions)[topic];
                subscriptions[topic] ==
                if !before.hasHandle then before
                else if publishers(topic) > 0 then Subscription(true, None)
                else if before.publishersAbsentSince.Some? then before
                else Subscription(true, Some(now))
    {
      var left := subscriptions.Keys;
      while left != {}
        invariant left <= subscriptions.Keys == old(subscriptions).Keys
        invariant forall topic | topic in subscriptions :: subscriptions[topic] ==
                    if topic in left then old(subscriptions)[topic]
                        else Marked(old(subscriptions)[topic], publishers(topic), now)
        decreases left
      {
        var topic :| topic in left;
        left := left - {topic};
        var s := subscriptions[topic];
        if !s.hasHandle {
          continue;
        }
        if publishers(topic) == 0 {
          if s.publishersAbsentSince.None? {
            s := s.(publishersAbsentSince := Some(now));
          }
        } else {
          s := s.(publishersAbsentSince := None);
        }
        subscriptions := subscriptions[topic := s];
      }
    }

    /** A data topic has just been given its state and subscription, or neither. */
    twostate predicate CreatedData(topic: Topic, created: bool)
      reads this
    {
      && imageTopicStates == old(imageTopicStates)
      && if created then
           && subscriptions == old(subscriptions)[topic := Subscription(true, None)]
           && dataTopicStates == old(dataTopicStates)[topic := RateWindow(
                if topic in options.minPeriods then Some(options.minPeriods[topic]) else None, None)]
         else subscriptions == old(subscriptions) && dataTopicStates == old(dataTopicStates) - {topic}
    }

    /** An image topic has; only std::exception takes the new state back. */
    twostate predicate CreatedImage(topic: Topic, compressed: bool, outcome: Outcome)
      reads this
    {
      && dataTopicStates == old(dataTopicStates)
      && subscriptions == (if outcome == Created then old(subscriptions)[topic := Subscription(true, None)]
                           else old(subscriptions))
      && imageTopicStates == (if outcome == StdException then old(imageTopicStates) - {topic}
                              else old(imageTopicStates)[topic := ImageTopicState(topic, compressed)])
    }

    method CreateSubscriber(topic: Topic, topicType: string, outcome: Outcome)
      modifies this
      ensures View() == AfterCreate(options, old(View()), topic, KindOf(topicType), outcome)
      ensures topic in old(subscriptions) ==> unchanged(this)
      ensures topic !in old(subscriptions) ==>
                if topicType == "sensor_msgs/msg/Image" then CreatedImage(topic, false, outcome)
                else if topicType == "sensor_msgs/msg/CompressedImage" then CreatedImage(topic, true, outcome)
                else CreatedData(topic, outcome == Created)
    {
      if topicType == IMAGE_TYPE {
        SubscribeVideoTopic(topic, false, outcome);
      } else if topicType == COMPRESSED_IMAGE_TYPE {
        SubscribeVideoTopic(topic, true, outcome);
      } else {
        CreateDataSubscriber(topic, outcome);
      }
    }

    method CreateDataSubscriber(topic: Topic, outcome: Outcome)
      modifies this
      ensures View() == AfterCreate(options, old(View()), topic, Data, outcome)
      ensures if topic in old(subscriptions) then unchanged(this) else CreatedData(topic, outcome == Created)
    {
      if topic in subscriptions {
        return;
      }
      var state := RateWindow(None, None);
      if topic in options.minPeriods {
        state := state.(minPeriod := Some(options.minPeriods[topic]));
      }
      dataTopicStates := dataTopicStates[topic := state];
      if outcome == Created {
        subscriptions := subscriptions[topic := Subscription(true, None)];
      } else {
        dataTopicStates := dataTopicStates - {topic};
      }
    }

    /** Unlike the data path this one catches std::exception only. */
    method SubscribeVideoTopic(topic: Topic, compressed: bool, outcome: Outcome)
      modifies this
      ensures View() == AfterCreate(options, old(View()), topic, if compressed then CompressedImage
          else RawImage, outcome)
      ensures if topic in old(subscriptions) then unchanged(this) else CreatedImage(topic, compressed, outcome)
    {
      if topic in subscriptions {
        return;
      }
      imageTopicStates := imageTopicStates[topic := ImageTopicState(topic, compressed)];
      if outcome == Created {
        subscriptions := subscriptions[topic := Subscription(true, None)];
      } else if outcome == StdException {
        imageTopicStates := imageTopicStates - {topic};
      }
    }

    method ReapExpiredSubscriptions(publishers: Topic -> nat, now: Instant) returns (removed: bool)
      modifies this
      ensures View() == AfterReap(options, old(View()), publishers, now)
      ensures removed <==> ExpiredTopics(options, old(View()), publishers, now) != {}
    {
      removed := false;
      var left := subscriptions.Keys;
      ghost var before := View();
      ghost var looked: set<Topic> := {};
      assert View() == ReapAmong(options, before, publishers, now, {});
      while left != {}
        invariant left == before.subscriptions.Keys - looked && looked <= before.subscriptions.Keys
        invariant View() == ReapAmong(options, before, publishers, now, looked)
        invariant removed <==> ExpiredTopics(options, before, publishers, now) * looked != {}
        decreases left
      {
        var topic :| topic in left;
        ReapOneMore(options, before, publishers, now, looked, topic);
        assert removed <==> ExpiredTopics(options, before, publishers, now) * looked != {};
        assert ExpiredTopics(options, before, publishers, now) * (looked + {topic}) ==
               ExpiredTopics(options, before, publishers, now) * looked
               + (if Expired(options, before.subscriptions[topic], publishers(topic), now) then {topic} else {});
        left, looked := left - {topic}, looked + {topic};
        var s := subscriptions[topic];
        if s.publishersAbsentSince.None? {
          assert subscriptions[topic := s] == subscriptions;
          continue;
        }
        if s.hasHandle && publishers(topic) > 0 {
          subscriptions := subscriptions[topic := s.(publishersAbsentSince := None)];
          continue;
        }
        if now - s.publishersAbsentSince.value < options.inactiveSubscriptionGrace {
          assert subscriptions[topic := s] == subscriptions;
          continue;
        }
        dataTopicStates := dataTopicStates - {topic};
        imageTopicStates := imageTopicStates - {topic};
        subscriptions := subscriptions - {topic};
        removed := true;
      }
      assert ExpiredTopics(options, before, publishers, now) * looked
          == ExpiredTopics(options, before, publishers, now);
    }

    method NextExpiryDeadline() returns (earliest: Option<Instant>)
      ensures IsNextExpiry(options, subscriptions, earliest)
    {
      earliest := None;
      var left := subscriptions.Keys;
      while left != {}
        invariant left <= subscriptions.Keys
        invariant IsNextExpiry(options, subscriptions - left, earliest)
        decreases left
      {
        var topic :| topic in left;
        ghost var seen := subscriptions - left;
        left := left - {topic};
        ghost var more := subscriptions - left;
        assert more == seen[topic := subscriptions[topic]];
        assert forall x | x in seen :: more[x] == seen[x];
        var since := subscriptions[topic].publishersAbsentSince;
        if since.None? {
          if earliest.Some? {
            ghost var other :| other in seen && seen[other].publishersAbsentSince
                == Some(earliest.value - options.inactiveSubscriptionGrace);
            assert more[other] == seen[other];
          }
          continue;
        }
        var deadline := since.value + options.inactiveSubscriptionGrace;
        if earliest.None? || deadline < earliest.value {
          earliest := Some(deadline);
          assert more[topic].publishersAbsentSince == Some(deadline - options.inactiveSubscriptionGrace);
        } else {
          ghost var other :| other in seen && seen[other].publishersAbsentSince
              == Some(earliest.value - options.inactiveSubscriptionGrace);
          assert more[other] == seen[other];
        }
      }
      assert subscriptions - {} == subscriptions;
    }

    /** The rate-cap part of the data callback. */
    method OfferSample(topic: Topic, now: RosTime) returns (admit: bool)
      modifies this`dataTopicStates
      ensures View() == AfterOffer(old(View()), topic, now)
      ensures admit == (topic in old(dataTopicStates) && Passes(old(dataTopicStates)[topic], now))
    {
      if topic !in dataTopicStates {
        return false;
      }
      var state := dataTopicStates[topic];
      if state.minPeriod.Some? {
        if state.lastForwardTime.Some? {
          if state.lastForwardTime.value > now {
            state := state.(lastForwardTime := Some(now));
            dataTopicStates := dataTopicStates[topic := state];
          }
          if now - state.lastForwardTime.value < state.minPeriod.value {
            return false;
          }
        }
        dataTopicStates := dataTopicStates[topic := state.(lastForwardTime := Some(now))];
      }
      return true;
    }
  }

  // ---------------------------------------------------------------------------
  // Runs
  // ---------------------------------------------------------------------------

  datatype Event =
    | Mark(publishers: Topic -> nat, now: Instant)
    | Create(topic: Topic, topicType: string, outcome: Outcome)
    | Reap(publishers: Topic -> nat, now: Instant)
    | Offer(topic: Topic, time: RosTime)

  ghost function Next(o: Options, t: Tables, e: Event): Tables {
    match e
    case Mark(publishers, now) => AfterMark(t, publishers, now)
    case Create(topic, topicType, outcome) => AfterCreate(o, t, topic, KindOf(topicType), outcome)
    case Reap(publishers, now) => AfterReap(o, t, publishers, now)
    case Offer(topic, time) => AfterOffer(t, topic, time)
  }

  ghost function After(o: Options, t: Tables, events: seq<Event>): Tables
    decreases |events|
  {
    if events == [] then t else After(o, Next(o, t, events[0]), events[1..])
  }

  /** Every subscription has exactly one state, of the right map, and there is no other state. */
  ghost predicate KeysAgree(t: Tables) {
    t.subscriptions.Keys == t.dataStates.Keys + t.imageStates.Keys && t.dataStates.Keys !! t.imageStates.Keys
  }

  /** The one way out of the image path that leaves its new state behind. */
  predicate LeavesImageState(t: Tables, e: Event) {
    e.Create? && e.topic !in t.subscriptions && KindOf(e.topicType) != Data && e.outcome == OtherException
  }

  /** A step breaks the agreement exactly when an image subscription fails with a non-standard exception. */
  lemma StepKeepsAgreement(o: Options, t: Tables, e: Event)
    requires KeysAgree(t)
    ensures KeysAgree(Next(o, t, e)) <==> !LeavesImageState(t, e)
  {
    var u := Next(o, t, e);
    match e
    case Mark(publishers, now) =>
      assert u.subscriptions.Keys == t.subscriptions.Keys;
    case Create(topic, topicType, outcome) =>
      if LeavesImageState(t, e) {
        assert topic in u.imageStates && topic !in u.subscriptions;
      }
    case Reap(publishers, now) =>
      var gone := ExpiredTopics(o, t, publishers, now);
      assert u.subscriptions.Keys == t.subscriptions.Keys - gone;
      assert u.dataStates.Keys == t.dataStates.Keys - gone && u.imageStates.Keys == t.imageStates.Keys - gone;
    case Offer(topic, time) =>
      assert u.dataStates.Keys == t.dataStates.Keys;
  }

  /** The tables after the first k events of a run. */
  ghost function AfterFirst(o: Options, t: Tables, events: seq<Event>, k: nat): Tables
    requires k <= |events|
  {
    After(o, t, events[..k])
  }

  lemma AfterFirstOfRest(o: Options, t: Tables, events: seq<Event>, k: nat)
    requires 0 < k <= |events|
    ensures AfterFirst(o, t, events, k) == AfterFirst(o, Next(o, t, events[0]), events[1..], k - 1)
  {
    assert events[..k][1..] == events[1..][..k - 1];
  }

  /** The maps agree after every prefix of a run exactly when none of its steps leaves an image state behind. */
  lemma {:induction false} RunKeepsAgreement(o: Options, t: Tables, events: seq<Event>)
    requires KeysAgree(t)
    ensures (forall k | 0 <= k <= |events| :: KeysAgree(AfterFirst(o, t, events, k))) <==>
            (forall k | 0 <= k < |events| :: !LeavesImageState(AfterFirst(o, t, events, k), events[k]))
    decreases |events|
  {
    assert AfterFirst(o, t, events, 0) == t;
    if events != [] {
      var u := Next(o, t, events[0]);
      StepKeepsAgreement(o, t, events[0]);
      AfterFirstOfRest(o, t, events, 1);
      assert AfterFirst(o, u, events[1..], 0) == u;
      if KeysAgree(u) {
        RunKeepsAgreement(o, u, events[1..]);
        RestAgrees(o, t, events);
      }
    }
  }

  lemma RestAgrees(o: Options, t: Tables, events: seq<Event>)
    requires events != []
    ensures (forall k | 0 < k <= |events| :: KeysAgree(AfterFirst(o, t, events, k))) <==>
            (forall k | 0 <= k <= |events[1..]| :: KeysAgree(AfterFirst(o, Next(o, t, events[0]), events[1..], k)))
    ensures (forall k | 0 < k < |events| :: !LeavesImageState(AfterFirst(o, t, events, k), events[k])) <==>
            (forall k | 0 <= k < |events[1..]| ::
               !LeavesImageState(AfterFirst(o, Next(o, t, events[0]), events[1..], k), events[1..][k]))
  {
    var u := Next(o, t, events[0]);
    forall k | 0 < k <= |events| ensures AfterFirst(o, t, events, k) == AfterFirst(o, u, events[1..], k - 1) {
      AfterFirstOfRest(o, t, events, k);
    }
    forall k | 0 <= k <= |events[1..]| ensures AfterFirst(o, u, events[1..], k) == AfterFirst(o, t, events, k + 1) {
      AfterFirstOfRest(o, t, events, k + 1);
    }
  }

  /** A concrete step that breaks it. */
  lemma NonStandardExceptionLeavesImageState(o: Options)
    ensures !KeysAgree(Next(o, Tables(map[], map[], map[]), Create("/cam", IMAGE_TYPE, OtherException)))
  {
    var u := Next(o, Tables(map[], map[], map[]), Create("/cam", IMAGE_TYPE, OtherException));
    assert "/cam" in u.imageStates && "/cam" !in u.subscriptions;
  }

  /**
   A reap removes a subscription exactly when nobody publishes and its grace has run out, with its state; any
   other keeps its state, and its absence is forgotten when somebody publishes.
   */
  lemma ReapRemovesOnlyExpired(o: Options, t: Tables, publishers: Topic -> nat, now: Instant, topic: Topic)
    requires KeysAgree(t) && topic in t.subscriptions
    requires t.subscriptions[topic].hasHandle
    ensures
      var u := AfterReap(o, t, publishers, now);
      var since := t.subscriptions[topic].publishersAbsentSince;
      && (topic !in u.subscriptions <==>
            since.Some? && publishers(topic) == 0 && now - since.value >= o.inactiveSubscriptionGrace)
      && (topic !in u.subscriptions ==> topic !in u.dataStates && topic !in u.imageStates)
      && (topic in u.subscriptions ==>
            u.subscriptions[topic] == Subscription(true, if publishers(topic) > 0 then None else since))
      && (topic in u.subscriptions && topic in t.dataStates ==>
          topic in u.dataStates && u.dataStates[topic] == t.dataStates[topic])
      && (topic in u.subscriptions && topic in t.imageStates ==>
          topic in u.imageStates && u.imageStates[topic] == t.imageStates[topic])
  {
  }

  /** Right after a reap the next deadline, if any, lies in the future. */
  lemma DeadlineAfterReapIsFuture(o: Options, t: Tables, publishers: Topic -> nat, now: Instant,
          deadline: Option<Instant>)
    requires IsNextExpiry(o, AfterReap(o, t, publishers, now).subscriptions, deadline)
    ensures deadline.Some? ==> deadline.value > now
  {
    var u := AfterReap(o, t, publishers, now);
    if deadline.Some? {
      var topic :| topic in u.subscriptions && u.subscriptions[topic].publishersAbsentSince
          == Some(deadline.value - o.inactiveSubscriptionGrace);
      assert !Expired(o, t.subscriptions[topic], publishers(topic), now);
    }
  }

  /** A mark begins an absence when the last publisher is gone and ends it when one is back. */
  lemma MarkOutcome(o: Options, t: Tables, publishers: Topic -> nat, now: Instant, topic: Topic)
    requires topic in t.subscriptions && t.subscriptions[topic].hasHandle
    ensures
      var since, u := t.subscriptions[topic].publishersAbsentSince, Next(o, t, Mark(publishers, now));
      && u.subscriptions.Keys == t.subscriptions.Keys && u.dataStates == t.dataStates && u.imageStates == t.imageStates
      && u.subscriptions[topic] ==
         Subscription(true, if publishers(topic) > 0 then None else if since.Some? then since else Some(now))
  {
  }

  /**
   A subscription marked absent since `since` survives every run of marks, creations, samples and reaps up to
   its deadline while nobody publishes, and no reap after it.
   */
  lemma {:induction false} GraceIsExact(o: Options, t: Tables, topic: Topic, since: Instant, events: seq<Event>)
    requires topic in t.subscriptions && t.subscriptions[topic] == Subscription(true, Some(since))
    requires forall e | e in events && (e.Mark? || e.Reap?) :: e.publishers(topic) == 0
    requires forall e | e in events && e.Reap? :: e.now - since < o.inactiveSubscriptionGrace
    ensures topic in After(o, t, events).subscriptions
        && After(o, t, events).subscriptions[topic] == Subscription(true, Some(since))
    ensures forall publishers: Topic -> nat, now | publishers(topic) == 0
        && now - since >= o.inactiveSubscriptionGrace ::
              topic !in Next(o, After(o, t, events), Reap(publishers, now)).subscriptions
    decreases |events|
  {
    if events != [] {
      assert events[0] in events;
      GraceIsExact(o, Next(o, t, events[0]), topic, since, events[1..]);
    }
  }

  // ---------------------------------------------------------------------------
  // The configured rate of a topic
  // ---------------------------------------------------------------------------

  /** The times at which samples of the topic arrive. */
  function SamplesOf(events: seq<Event>, topic: Topic): seq<RosTime> {
    if events == [] then []
    else (if events[0].Offer? && events[0].topic == topic then [events[0].time] else [])
         + SamplesOf(events[1..], topic)
  }

  /** The ones among them that are forwarded. */
  ghost function Forwarded(o: Options, t: Tables, events: seq<Event>, topic: Topic): seq<RosTime>
    decreases |events|
  {
    if events == [] then []
    else
      var e := events[0];
      (if e.Offer? && e.topic == topic && topic in t.dataStates && Passes(t.dataStates[topic], e.time) then [e.time]
       else []) + Forwarded(o, Next(o, t, e), events[1..], topic)
  }

  ghost predicate StaysSubscribed(o: Options, t: Tables, events: seq<Event>, topic: Topic)
    decreases |events|
  {
    topic in t.subscriptions && (events == [] || StaysSubscribed(o, Next(o, t, events[0]), events[1..], topic))
  }

  /** While a topic stays subscribed only its own samples touch its window. */
  lemma WindowStep(o: Options, t: Tables, e: Event, topic: Topic)
    requires topic in t.subscriptions && topic in t.dataStates && topic in Next(o, t, e).subscriptions
    ensures topic in Next(o, t, e).dataStates
    ensures Next(o, t, e).dataStates[topic] ==
            if e.Offer? && e.topic == topic then AfterSample(t.dataStates[topic], e.time) else t.dataStates[topic]
  {
  }

  lemma {:induction false} WindowFollowsSamples(o: Options, t: Tables, events: seq<Event>, topic: Topic)
    requires topic in t.dataStates && StaysSubscribed(o, t, events, topic)
    ensures Forwarded(o, t, events, topic) == Admitted(t.dataStates[topic], SamplesOf(events, topic))
    ensures topic in After(o, t, events).dataStates
    ensures After(o, t, events).dataStates[topic] == AfterSamples(t.dataStates[topic], SamplesOf(events, topic))
    decreases |events|
  {
    if events != [] {
      var e, u := events[0], Next(o, t, events[0]);
      assert topic in u.subscriptions;
      WindowStep(o, t, e, topic);
      WindowFollowsSamples(o, u, events[1..], topic);
      if e.Offer? && e.topic == topic {
        assert SamplesOf(events, topic)[1..] == SamplesOf(events[1..], topic);
      } else {
        assert SamplesOf(events, topic) == SamplesOf(events[1..], topic);
      }
    }
  }

  lemma {:induction false} StaysSubscribedSplits(o: Options, t: Tables, first: seq<Event>, second: seq<Event>,
          topic: Topic)
    requires StaysSubscribed(o, t, first + second, topic)
    ensures StaysSubscribed(o, t, first, topic) && StaysSubscribed(o, After(o, t, first), second, topic)
    decreases |first|
  {
    if first == [] {
      assert first + second == second;
    } else {
      assert (first + second)[1..] == first[1..] + second;
      StaysSubscribedSplits(o, Next(o, t, first[0]), first[1..], second, topic);
    }
  }

  lemma {:induction false} UncappedAdmitsAll(w: RateWindow, samples: seq<RosTime>)
    requires w.minPeriod.None?
    ensures Admitted(w, samples) == samples && AfterSamples(w, samples) == w
    decreases |samples|
  {
    if samples != [] {
      UncappedAdmitsAll(w, samples[1..]);
    }
  }

  /**
   A data topic that is created with a configured period forwards, for as long as it stays subscribed and
   whatever else happens, samples at least that period apart while the clock does not go back, also after
   earlier samples and jumps. One without forwards every sample.
   */
  lemma ConfiguredRateHolds(o: Options, t: Tables, topic: Topic, topicType: string, earlier: seq<Event>,
          stretch: seq<Event>)
    requires topic !in t.subscriptions
    requires topicType != "sensor_msgs/msg/Image" && topicType != "sensor_msgs/msg/CompressedImage"
    requires StaysSubscribed(o, Next(o, t, Create(topic, topicType, Created)), earlier + stretch, topic)
    ensures
      var u := After(o, Next(o, t, Create(topic, topicType, Created)), earlier);
      if topic in o.minPeriods then
        NonDecreasing(SamplesOf(stretch, topic)) ==> Spaced(Forwarded(o, u, stretch, topic), o.minPeriods[topic])
      else Forwarded(o, u, stretch, topic) == SamplesOf(stretch, topic)
  {
    var created := Next(o, t, Create(topic, topicType, Created));
    var w := created.dataStates[topic];
    StaysSubscribedSplits(o, created, earlier, stretch, topic);
    WindowFollowsSamples(o, created, earlier, topic);
    var u := After(o, created, earlier);
    WindowFollowsSamples(o, u, stretch, topic);
    if topic in o.minPeriods {
      WindowStartsAtASample(w, SamplesOf(earlier, topic));
      if NonDecreasing(SamplesOf(stretch, topic)) {
        AdmittedSpaced(u.dataStates[topic], SamplesOf(stretch, topic));
      }
    } else {
      UncappedAdmitsAll(w, SamplesOf(earlier, topic));
      UncappedAdmitsAll(w, SamplesOf(stretch, topic));
    }
  }

  /** With a configured period the first sample passes, and so does any that comes a period after all before it. */
  lemma ConfiguredRateNeverStalls(o: Options, t: Tables, topic: Topic, topicType: string, earlier: seq<Event>,
          now: RosTime)
    requires topic !in t.subscriptions && topic in o.minPeriods
    requires topicType != "sensor_msgs/msg/Image" && topicType != "sensor_msgs/msg/CompressedImage"
    requires StaysSubscribed(o, Next(o, t, Create(topic, topicType, Created)), earlier, topic)
    requires forall i | 0 <= i < |SamplesOf(earlier, topic)| ::
               now - SamplesOf(earlier, topic)[i] >= o.minPeriods[topic]
    ensures
      Forwarded(o, After(o, Next(o, t, Create(topic, topicType, Created)), earlier), [Offer(topic, now)], topic)
      == [now]
  {
    var created := Next(o, t, Create(topic, topicType, Created));
    WindowFollowsSamples(o, created, earlier, topic);
    NeverStalls(o.minPeriods[topic], SamplesOf(earlier, topic), now);
    var u := After(o, created, earlier);
    assert Passes(u.dataStates[topic], now);
    assert Forwarded(o, Next(o, u, Offer(topic, now)), [], topic) == [];
  }
}
