/**
 KeyframeTracker: graph updates become keyframes, each node at most once, and a snapshot gives every
 keyframe its latest pose in stamp order.

 Poses are a type parameter and their product a function, the image lookup a function.
 */
module KeyframeTracker {
  import opened Optional

  type NodeId = int
  type Stamp = int

  datatype GraphNode<P> = GraphNode(nodeId: NodeId, stamp: Stamp, odomPose: P)

  datatype Keyframe<P, I> = Keyframe(nodeId: NodeId, stamp: Stamp, odomPose: P, image: I)

  /** `order` is the order in which the dictionary of poses got its keys, which is the order it is read in. */
  datatype State<P> = State(seen: set<NodeId>, stamps: map<NodeId, Stamp>, mapPoses: map<NodeId, P>, order: seq<NodeId>,
                            skippedNodes: nat)

  /** What stays fixed over a tracker's life, and the parts of numpy and the caller it uses. */
  datatype Setting<!P, !I> = Setting(baseToCamera: P, tolerance: int, product: (P, P) -> P)

  /** One MapData message; `graphPoses` are the items of its dictionary of optimized poses. */
  datatype Update<!P, !I> = Update(nodes: seq<GraphNode<P>>, graphPoses: seq<(NodeId, P)>, mapToOdom: P,
                                   lookup: (Stamp, int) -> Option<(Stamp, I)>)

  /** Python's sorted(nodes, key=node_id). */
  function SortById<P>(nodes: seq<GraphNode<P>>): seq<GraphNode<P>> {
    if nodes == [] then [] else InsertById(SortById(nodes[1..]), nodes[0])
  }

  function InsertById<P>(sorted: seq<GraphNode<P>>, node: GraphNode<P>): seq<GraphNode<P>> {
    if sorted == [] || node.nodeId <= sorted[0].nodeId then [node] + sorted
    else [sorted[0]] + InsertById(sorted[1..], node)
  }

  ghost predicate Ascending<P>(nodes: seq<GraphNode<P>>) {
    forall i, j | 0 <= i < j < |nodes| :: nodes[i].nodeId <= nodes[j].nodeId
  }

  lemma {:induction false} InsertByIdAdds<P>(sorted: seq<GraphNode<P>>, node: GraphNode<P>)
    ensures multiset(InsertById(sorted, node)) == multiset(sorted) + multiset{node}
  {
    if sorted != [] && node.nodeId > sorted[0].nodeId {
      var head, tail := sorted[0], sorted[1..];
      InsertByIdAdds(tail, node);
      FirstAndRest(sorted);
      assert multiset([head] + InsertById(tail, node)) == multiset{head} + multiset(InsertById(tail, node));
    }
  }

  lemma FirstAndRest<T>(s: seq<T>)
    requires s != []
    ensures multiset(s) == multiset{s[0]} + multiset(s[1..])
  {
    assert s == [s[0]] + s[1..];
  }

  lemma {:induction false} InsertByIdMembers<P>(sorted: seq<GraphNode<P>>, node: GraphNode<P>, i: nat)
    requires i < |InsertById(sorted, node)|
    ensures InsertById(sorted, node)[i] == node || InsertById(sorted, node)[i] in sorted
  {
    if sorted != [] && node.nodeId > sorted[0].nodeId && i > 0 {
      InsertByIdMembers(sorted[1..], node, i - 1);
    }
  }

  lemma {:induction false} InsertByIdSorts<P>(sorted: seq<GraphNode<P>>, node: GraphNode<P>)
    requires Ascending(sorted)
    ensures Ascending(InsertById(sorted, node))
  {
    if sorted != [] && node.nodeId > sorted[0].nodeId {
      var rest := InsertById(sorted[1..], node);
      InsertByIdSorts(sorted[1..], node);
      forall i | 0 <= i < |rest| ensures sorted[0].nodeId <= rest[i].nodeId {
        InsertByIdMembers(sorted[1..], node, i);
      }
    }
  }

  lemma {:induction false} SortByIdSorts<P>(nodes: seq<GraphNode<P>>)
    ensures Ascending(SortById(nodes)) && multiset(SortById(nodes)) == multiset(nodes)
  {
    if nodes != [] {
      SortByIdSorts(nodes[1..]);
      InsertByIdSorts(SortById(nodes[1..]), nodes[0]);
      InsertByIdAdds(SortById(nodes[1..]), nodes[0]);
      FirstAndRest(nodes);
    }
  }

  function Visit<P, I>(c: Setting<P, I>, s: State<P>, node: GraphNode<P>,
          u: Update<P, I>): (State<P>, seq<Keyframe<P, I>>) {
    if node.nodeId in s.seen then (s, [])
    else
      var seen := s.seen + {node.nodeId};
      match u.lookup(node.stamp, c.tolerance)
      case None => (s.(seen := seen, skippedNodes := s.skippedNodes + 1), [])
      case Some((stamp, image)) =>
        (State(seen, s.stamps[node.nodeId := stamp], s.mapPoses[node.nodeId := c.product(u.mapToOdom, node.odomPose)],
               s.order + [node.nodeId], s.skippedNodes),
         [Keyframe(node.nodeId, stamp, c.product(node.odomPose, c.baseToCamera), image)])
  }

  /** Visit the nodes in turn, appending the new keyframes to `written`. */
  function VisitAll<P, I>(c: Setting<P, I>, s: State<P>, written: seq<Keyframe<P, I>>, nodes: seq<GraphNode<P>>,
          u: Update<P, I>)
    : (State<P>, seq<Keyframe<P, I>>)
    decreases |nodes|
  {
    if nodes == [] then (s, written)
    else
      var (t, more) := Visit(c, s, nodes[0], u);
      VisitAll(c, t, written + more, nodes[1..], u)
  }

  /** The pose that assigning the items in turn leaves for `id`. */
  function PoseIn<P>(graphPoses: seq<(NodeId, P)>, id: NodeId): Option<P> {
    if graphPoses == [] then None
    else
      var later := PoseIn(graphPoses[1..], id);
      if later.Some? then later else if graphPoses[0].0 == id then Some(graphPoses[0].1) else None
  }

  function Optimized<P>(s: State<P>, graphPoses: seq<(NodeId, P)>): State<P>
    decreases |graphPoses|
  {
    if graphPoses == [] then s
    else
      var (id, pose) := graphPoses[0];
      Optimized(if id in s.stamps then s.(mapPoses := s.mapPoses[id := pose]) else s, graphPoses[1..])
  }

  function Updated<P, I>(c: Setting<P, I>, s: State<P>, u: Update<P, I>): (State<P>, seq<Keyframe<P, I>>) {
    var (visited, keyframes) := VisitAll(c, s, [], SortById(u.nodes), u);
    (Optimized(visited, u.graphPoses), keyframes)
  }

  class KeyframeTracker<P, I> {
    const setting: Setting<P, I>
    var seen: set<NodeId>
    var stamps: map<NodeId, Stamp>
    var mapPoses: map<NodeId, P>
    var order: seq<NodeId>
    var skippedNodes: nat

    ghost function View(): State<P>
      reads this
    {
      State(seen, stamps, mapPoses, order, skippedNodes)
    }

    ghost predicate Valid()
      reads this
    {
      Counted(View())
    }

    constructor (setting: Setting<P, I>)
      ensures Valid()
      ensures this.setting == setting && View() == State({}, map[], map[], [], 0)
    {
      this.setting := setting;
      seen, stamps, mapPoses, order, skippedNodes := {}, map[], map[], [], 0;
    }

    method UpdateGraph(u: Update<P, I>) returns (newKeyframes: seq<Keyframe<P, I>>)
      requires Valid()
      modifies this
      ensures Valid()
      ensures (View(), newKeyframes) == Updated(setting, old(View()), u)
    {
      VisitAllKeepsCount(setting, View(), [], SortById(u.nodes), u);
      newKeyframes := VisitNodes(SortById(u.nodes), u);
      ApplyGraphPoses(u.graphPoses);
    }

    /** First loop of the update. */
    method VisitNodes(nodes: seq<GraphNode<P>>, u: Update<P, I>) returns (newKeyframes: seq<Keyframe<P, I>>)
      modifies this
      ensures (View(), newKeyframes) == VisitAll(setting, old(View()), [], nodes, u)
    {
      newKeyframes := [];
      var i := 0;
      ghost var whole := VisitAll(setting, View(), [], nodes, u);
      assert nodes[0..] == nodes;
      while i < |nodes|
        invariant 0 <= i <= |nodes|
        invariant whole == VisitAll(setting, View(), newKeyframes, nodes[i..], u)
      {
        var node := nodes[i];
        ghost var before, written := View(), newKeyframes;
        assert nodes[i..][0] == node && nodes[i..][1..] == nodes[i + 1..];
        i := i + 1;
        if node.nodeId in seen {
          assert written + [] == written;
          continue;
        }
        seen := seen + {node.nodeId};
        var found := u.lookup(node.stamp, setting.tolerance);
        if found.None? {
          skippedNodes := skippedNodes + 1;
          assert written + [] == written;
          continue;
        }
        var (imageStamp, image) := found.value;
        stamps := stamps[node.nodeId := imageStamp];
        mapPoses := mapPoses[node.nodeId := setting.product(u.mapToOdom, node.odomPose)];
        order := order + [node.nodeId];
        newKeyframes := newKeyframes
                        + [Keyframe(node.nodeId, imageStamp, setting.product(node.odomPose, setting.baseToCamera),
                            image)];
        assert View() == Visit(setting, before, node, u).0
            && newKeyframes == written + Visit(setting, before, node, u).1;
      }
    }

    /** The trajectory: one camera pose for every keyframe, the latest one known, sorted by stamp. */
    method Snapshot() returns (trajectory: seq<(Stamp, P)>)
      requires Valid()
      ensures trajectory == SortedByStamp(Entries(setting, View()))
    {
      trajectory := [];
      ghost var entries := Entries(setting, View());
      var i := 0;
      while i < |order|
        invariant 0 <= i <= |order|
        invariant trajectory == SortedByStamp(entries[..i])
      {
        var id := order[i];
        var entry := (stamps[id], setting.product(mapPoses[id], setting.baseToCamera));
        assert entries[..i + 1][..i] == entries[..i] && entries[i] == entry;
        trajectory := InsertByStamp(trajectory, entry);
        i := i + 1;
      }
      assert entries[..|order|] == entries;
    }

    /** Second loop of the update: known keyframes take the optimized pose. */
    method ApplyGraphPoses(graphPoses: seq<(NodeId, P)>)
      requires Valid()
      modifies this`mapPoses
      ensures Valid()
      ensures View() == Optimized(old(View()), graphPoses)
    {
      OptimizedPose(View(), graphPoses);
      var i := 0;
      assert graphPoses[0..] == graphPoses;
      while i < |graphPoses|
        invariant 0 <= i <= |graphPoses|
        invariant Optimized(View(), graphPoses[i..]) == Optimized(old(View()), graphPoses)
      {
        var (id, pose) := graphPoses[i];
        assert graphPoses[i..][0] == (id, pose) && graphPoses[i..][1..] == graphPoses[i + 1..];
        if id in stamps {
          mapPoses := mapPoses[id := pose];
        }
        i := i + 1;
      }
    }
  }

  /** The new keyframes of one update come in strictly ascending node order. */
  lemma NewKeyframesInNodeOrder<P, I>(c: Setting<P, I>, s: State<P>, u: Update<P, I>)
    ensures StrictlyAscending(Updated(c, s, u).1)
  {
    SortByIdSorts(u.nodes);
    VisitAllAscends(c, s, [], SortById(u.nodes), u);
  }

  ghost predicate StrictlyAscending<P, I>(keyframes: seq<Keyframe<P, I>>) {
    forall i, j | 0 <= i < j < |keyframes| :: keyframes[i].nodeId < keyframes[j].nodeId
  }

  /** What was written so far lies at or before every node still to visit, and has been seen. */
  ghost predicate WrittenBefore<P, I>(s: State<P>, written: seq<Keyframe<P, I>>, nodes: seq<GraphNode<P>>) {
    forall i | 0 <= i < |written| ::
      written[i].nodeId in s.seen && (nodes != [] ==> written[i].nodeId <= nodes[0].nodeId)
  }

  lemma {:induction false} VisitAllAscends<P, I>(c: Setting<P, I>, s: State<P>, written: seq<Keyframe<P, I>>,
          nodes: seq<GraphNode<P>>, u: Update<P, I>)
    requires Ascending(nodes) && StrictlyAscending(written) && WrittenBefore(s, written, nodes)
    ensures StrictlyAscending(VisitAll(c, s, written, nodes, u).1)
    decreases |nodes|
  {
    if nodes != [] {
      var (t, more) := Visit(c, s, nodes[0], u);
      assert s.seen <= t.seen;
      assert forall i | 0 <= i < |more| ::
          more[i].nodeId == nodes[0].nodeId && nodes[0].nodeId !in s.seen && nodes[0].nodeId in t.seen;
      VisitAllAscends(c, t, written + more, nodes[1..], u);
    }
  }

  // ---------------------------------------------------------------------------
  // The snapshot
  // ---------------------------------------------------------------------------

  /** What the snapshot sorts: an entry for every pose, as the dictionary is read. */
  function Entries<P, I>(c: Setting<P, I>, s: State<P>): seq<(Stamp, P)>
    requires forall i | 0 <= i < |s.order| :: s.order[i] in s.stamps && s.order[i] in s.mapPoses
  {
    seq(|s.order|, i requires 0 <= i < |s.order| =>
      (s.stamps[s.order[i]], c.product(s.mapPoses[s.order[i]], c.baseToCamera)))
  }

  /** How many entries are not later than a stamp, from the front. */
  function Position<P>(entries: seq<(Stamp, P)>, stamp: Stamp): (k: nat)
    ensures k <= |entries|
    ensures forall i | 0 <= i < k :: entries[i].0 <= stamp
    ensures k < |entries| ==> stamp < entries[k].0
  {
    if entries == [] || stamp < entries[0].0 then 0 else 1 + Position(entries[1..], stamp)
  }

  function InsertByStamp<P>(sorted: seq<(Stamp, P)>, entry: (Stamp, P)): seq<(Stamp, P)> {
    var k := Position(sorted, entry.0);
    sorted[..k] + [entry] + sorted[k..]
  }

  /** Python's sorted(entries, key=stamp). */
  function SortedByStamp<P>(entries: seq<(Stamp, P)>): seq<(Stamp, P)> {
    if entries == [] then [] else InsertByStamp(SortedByStamp(entries[..|entries| - 1]), entries[|entries| - 1])
  }

  ghost predicate InStampOrder<P>(entries: seq<(Stamp, P)>) {
    forall i, j | 0 <= i < j < |entries| :: entries[i].0 <= entries[j].0
  }

  /** The entries with one stamp, in order. */
  function WithStamp<P>(entries: seq<(Stamp, P)>, stamp: Stamp): seq<(Stamp, P)> {
    if entries == [] then []
    else
      var last := entries[|entries| - 1];
      WithStamp(entries[..|entries| - 1], stamp) + if last.0 == stamp then [last] else []
  }

  lemma {:induction false} WithStampAppend<P>(a: seq<(Stamp, P)>, b: seq<(Stamp, P)>, stamp: Stamp)
    ensures WithStamp(a + b, stamp) == WithStamp(a, stamp) + WithStamp(b, stamp)
    decreases |b|
  {
    if b == [] {
      assert a + b == a;
    } else {
      var before := b[..|b| - 1];
      WithStampAppend(a, before, stamp);
      assert (a + b)[..|a + b| - 1] == a + before;
    }
  }

  lemma {:induction false} NoneLater<P>(entries: seq<(Stamp, P)>, stamp: Stamp)
    requires forall i | 0 <= i < |entries| :: entries[i].0 > stamp
    ensures WithStamp(entries, stamp) == []
  {
    if entries != [] {
      NoneLater(entries[..|entries| - 1], stamp);
    }
  }

  lemma InsertKeepsStampOrder<P>(sorted: seq<(Stamp, P)>, entry: (Stamp, P))
    requires InStampOrder(sorted)
    ensures InStampOrder(InsertByStamp(sorted, entry)) && |InsertByStamp(sorted, entry)| == |sorted| + 1
  {
  }

  lemma EmptyMoves<T>(a: seq<T>, b: seq<T>, c: seq<T>)
    requires b == [] || c == []
    ensures a + b + c == a + c + b
  {
  }

  /** Inserting puts the entry behind those with the same stamp. */
  lemma InsertIsStable<P>(sorted: seq<(Stamp, P)>, entry: (Stamp, P), stamp: Stamp)
    requires InStampOrder(sorted)
    ensures WithStamp(InsertByStamp(sorted, entry), stamp) == WithStamp(sorted, stamp) + WithStamp([entry], stamp)
  {
    var k := Position(sorted, entry.0);
    LaterHaveNone(sorted, entry, stamp, k);
    InsertBetween(sorted[..k], sorted[k..], entry, stamp);
    assert sorted == sorted[..k] + sorted[k..];
  }

  lemma LaterHaveNone<P>(sorted: seq<(Stamp, P)>, entry: (Stamp, P), stamp: Stamp, k: nat)
    requires InStampOrder(sorted) && k == Position(sorted, entry.0)
    ensures WithStamp([entry], stamp) == [] || WithStamp(sorted[k..], stamp) == []
  {
    if entry.0 == stamp {
      NoneLater(sorted[k..], stamp);
    } else {
      NotWithStamp(entry, stamp);
    }
  }

  lemma InsertBetween<P>(front: seq<(Stamp, P)>, back: seq<(Stamp, P)>, entry: (Stamp, P), stamp: Stamp)
    requires WithStamp([entry], stamp) == [] || WithStamp(back, stamp) == []
    ensures WithStamp(front + [entry] + back, stamp) == WithStamp(front + back, stamp) + WithStamp([entry], stamp)
  {
    WithStampAppend(front, back, stamp);
    WithStampAppend(front, [entry], stamp);
    WithStampAppend(front + [entry], back, stamp);
    EmptyMoves(WithStamp(front, stamp), WithStamp([entry], stamp), WithStamp(back, stamp));
  }

  lemma NotWithStamp<P>(entry: (Stamp, P), stamp: Stamp)
    requires entry.0 != stamp
    ensures WithStamp([entry], stamp) == []
  {
    assert [entry][..0] == [];
  }

  /** The same length, in stamp order, and for one stamp the same entries in the same order. */
  ghost predicate IsStablySorted<P>(entries: seq<(Stamp, P)>, sorted: seq<(Stamp, P)>, stamp: Stamp) {
    InStampOrder(sorted) && |sorted| == |entries| && WithStamp(sorted, stamp) == WithStamp(entries, stamp)
  }

  lemma InsertKeepsStablySorted<P>(entries: seq<(Stamp, P)>, sorted: seq<(Stamp, P)>, last: (Stamp, P), stamp: Stamp)
    requires IsStablySorted(entries, sorted, stamp)
    ensures IsStablySorted(entries + [last], InsertByStamp(sorted, last), stamp)
  {
    InsertKeepsStampOrder(sorted, last);
    InsertIsStable(sorted, last, stamp);
    WithStampAppend(entries, [last], stamp);
  }

  /**
   The sort is a stable permutation: stamps do not go back, and for every stamp the entries with it are
   the same ones in the same order.
   */
  lemma {:induction false} SortedByStampIsStable<P>(entries: seq<(Stamp, P)>, stamp: Stamp)
    ensures IsStablySorted(entries, SortedByStamp(entries), stamp)
  {
    if entries != [] {
      var before, last := entries[..|entries| - 1], entries[|entries| - 1];
      SortedByStampIsStable(before, stamp);
      InsertKeepsStablySorted(before, SortedByStamp(before), last, stamp);
      assert entries == before + [last];
    }
  }

  // ---------------------------------------------------------------------------
  // Over a whole run of updates
  // ---------------------------------------------------------------------------

  function Run<P, I>(c: Setting<P, I>, updates: seq<Update<P, I>>): (State<P>, seq<Keyframe<P, I>>) {
    if updates == [] then (State({}, map[], map[], [], 0), [])
    else
      var (s, keyframes) := Run(c, updates[..|updates| - 1]);
      var (s', more) := Updated(c, s, updates[|updates| - 1]);
      (s', keyframes + more)
  }

  /** Every keyframe written so far is recorded once, under its own stamp, and nothing else is. */
  ghost predicate Recorded<P, I>(s: State<P>, keyframes: seq<Keyframe<P, I>>) {
    Counted(s) && Written(s.stamps, keyframes)
  }

  /** Both dictionaries have the same keys, read in `order` each once, and seen nodes are keyframes or skipped. */
  ghost predicate Counted<P>(s: State<P>) {
    && s.stamps.Keys == s.mapPoses.Keys && s.stamps.Keys <= s.seen && |s.seen| == |s.stamps.Keys| + s.skippedNodes
    && InKeyOrder(s.order, s.stamps.Keys)
  }

  ghost predicate InKeyOrder(order: seq<NodeId>, keys: set<NodeId>) {
    && (forall i | 0 <= i < |order| :: order[i] in keys)
    && (forall id | id in keys :: id in order)
    && (forall i, j | 0 <= i < j < |order| :: order[i] != order[j])
  }

  lemma PushKey(order: seq<NodeId>, keys: set<NodeId>, id: NodeId)
    requires InKeyOrder(order, keys) && id !in keys
    ensures InKeyOrder(order + [id], keys + {id})
  {
  }

  ghost predicate Written<P, I>(stamps: map<NodeId, Stamp>, keyframes: seq<Keyframe<P, I>>) {
    && (forall i, j | 0 <= i < j < |keyframes| :: keyframes[i].nodeId != keyframes[j].nodeId)
    && (forall i | 0 <= i < |keyframes| ::
          keyframes[i].nodeId in stamps && stamps[keyframes[i].nodeId] == keyframes[i].stamp)
    && (forall id {:trigger id in stamps} | id in stamps ::
          exists i :: 0 <= i < |keyframes| && keyframes[i].nodeId == id)
  }

  lemma WriteOne<P, I>(stamps: map<NodeId, Stamp>, keyframes: seq<Keyframe<P, I>>, k: Keyframe<P, I>)
    requires Written(stamps, keyframes) && k.nodeId !in stamps
    ensures Written(stamps[k.nodeId := k.stamp], keyframes + [k])
  {
    var more, stamps' := keyframes + [k], stamps[k.nodeId := k.stamp];
    forall id | id in stamps' ensures exists i :: 0 <= i < |more| && more[i].nodeId == id {
      if id == k.nodeId {
        assert more[|keyframes|].nodeId == id;
      } else {
        var i :| 0 <= i < |keyframes| && keyframes[i].nodeId == id;
        assert more[i].nodeId == id;
      }
    }
  }

  lemma VisitKeepsCount<P, I>(c: Setting<P, I>, s: State<P>, node: GraphNode<P>, u: Update<P, I>)
    requires Counted(s)
    ensures Counted(Visit(c, s, node, u).0)
  {
    if node.nodeId !in s.seen {
      match u.lookup(node.stamp, c.tolerance)
      case None =>
        assert |s.seen + {node.nodeId}| == |s.seen| + 1;
      case Some((stamp, _)) =>
        KeyframeKeepsCount(s, node.nodeId, stamp, c.product(u.mapToOdom, node.odomPose));
    }
  }

  lemma KeyframeKeepsCount<P>(s: State<P>, id: NodeId, stamp: Stamp, pose: P)
    requires Counted(s) && id !in s.seen
    ensures Counted(State(s.seen + {id}, s.stamps[id := stamp], s.mapPoses[id := pose], s.order + [id], s.skippedNodes))
  {
    var stamps, poses := s.stamps[id := stamp], s.mapPoses[id := pose];
    assert stamps.Keys == s.stamps.Keys + {id} && poses.Keys == s.mapPoses.Keys + {id};
    assert id !in s.stamps.Keys;
    PushKey(s.order, s.stamps.Keys, id);
  }

  lemma VisitKeepsRecord<P, I>(c: Setting<P, I>, s: State<P>, keyframes: seq<Keyframe<P, I>>, node: GraphNode<P>,
          u: Update<P, I>)
    requires Recorded(s, keyframes)
    ensures Recorded(Visit(c, s, node, u).0, keyframes + Visit(c, s, node, u).1)
  {
    VisitKeepsCount(c, s, node, u);
    var (t, more) := Visit(c, s, node, u);
    if more == [] {
      assert keyframes + more == keyframes;
    } else {
      WriteOne(s.stamps, keyframes, more[0]);
      assert more == [more[0]];
    }
  }

  lemma {:induction false} VisitAllKeepsRecord<P, I>(c: Setting<P, I>, s: State<P>, written: seq<Keyframe<P, I>>,
          nodes: seq<GraphNode<P>>, u: Update<P, I>)
    requires Recorded(s, written)
    ensures
      var (t, all) := VisitAll(c, s, written, nodes, u);
      Recorded(t, all)
    decreases |nodes|
  {
    if nodes != [] {
      VisitKeepsRecord(c, s, written, nodes[0], u);
      var (t, more) := Visit(c, s, nodes[0], u);
      VisitAllKeepsRecord(c, t, written + more, nodes[1..], u);
    }
  }

  lemma {:induction false} VisitAllAppends<P, I>(c: Setting<P, I>, s: State<P>, first: seq<Keyframe<P, I>>,
          second: seq<Keyframe<P, I>>, nodes: seq<GraphNode<P>>, u: Update<P, I>)
    ensures VisitAll(c, s, first + second, nodes, u).0 == VisitAll(c, s, second, nodes, u).0
    ensures VisitAll(c, s, first + second, nodes, u).1 == first + VisitAll(c, s, second, nodes, u).1
    decreases |nodes|
  {
    if nodes != [] {
      var (t, more) := Visit(c, s, nodes[0], u);
      VisitAllAppends(c, t, first, second + more, nodes[1..], u);
      assert (first + second) + more == first + (second + more);
    }
  }

  /** Over any run a node becomes a keyframe at most once, and a node once skipped never does. */
  lemma {:induction false} EachNodeAtMostOnce<P, I>(c: Setting<P, I>, updates: seq<Update<P, I>>)
    ensures Recorded(Run(c, updates).0, Run(c, updates).1)
    decreases |updates|
  {
    if updates != [] {
      var before, u := updates[..|updates| - 1], updates[|updates| - 1];
      EachNodeAtMostOnce(c, before);
      var (s, keyframes) := Run(c, before);
      VisitAllKeepsRecord(c, s, keyframes, SortById(u.nodes), u);
      VisitAllAppends(c, s, keyframes, [], SortById(u.nodes), u);
      assert keyframes + [] == keyframes;
      OptimizedPose(VisitAll(c, s, [], SortById(u.nodes), u).0, u.graphPoses);
    }
  }

  /** One update never forgets or restamps a keyframe, and moves only poses that the new graph contains. */
  lemma {:induction false} VisitAllKeepsOld<P, I>(c: Setting<P, I>, s: State<P>, written: seq<Keyframe<P, I>>,
          nodes: seq<GraphNode<P>>, u: Update<P, I>, id: NodeId)
    requires id in s.seen
    ensures
      var t := VisitAll(c, s, written, nodes, u).0;
      && id in t.seen && (id in t.stamps <==> id in s.stamps) && (id in t.mapPoses <==> id in s.mapPoses)
      && (id in s.stamps ==> t.stamps[id] == s.stamps[id])
      && (id in s.mapPoses ==> t.mapPoses[id] == s.mapPoses[id])
    decreases |nodes|
  {
    if nodes != [] {
      VisitAllKeepsOld(c, Visit(c, s, nodes[0], u).0, written + Visit(c, s, nodes[0], u).1, nodes[1..], u, id);
    }
  }

  lemma {:induction false} OptimizedPose<P>(s: State<P>, graphPoses: seq<(NodeId, P)>)
    requires s.stamps.Keys == s.mapPoses.Keys
    ensures
      var t := Optimized(s, graphPoses);
      && t == s.(mapPoses := t.mapPoses) && t.mapPoses.Keys == s.mapPoses.Keys
      && forall id | id in s.stamps ::
           t.mapPoses[id] == if PoseIn(graphPoses, id).Some? then PoseIn(graphPoses, id).value else s.mapPoses[id]
    decreases |graphPoses|
  {
    if graphPoses != [] {
      var (id, pose) := graphPoses[0];
      var next := if id in s.stamps then s.(mapPoses := s.mapPoses[id := pose]) else s;
      assert next.mapPoses.Keys == s.mapPoses.Keys;
      OptimizedPose(next, graphPoses[1..]);
    }
  }

  lemma UpdateKeepsKeyframes<P, I>(c: Setting<P, I>, s: State<P>, keyframes: seq<Keyframe<P, I>>, u: Update<P, I>,
          id: NodeId)
    requires Recorded(s, keyframes) && id in s.seen
    ensures
      var t := Updated(c, s, u).0;
      && (id in t.stamps <==> id in s.stamps)
      && (id in s.stamps ==>
            && t.stamps[id] == s.stamps[id]
            && id in t.mapPoses
            && t.mapPoses[id] == if PoseIn(u.graphPoses, id).Some? then PoseIn(u.graphPoses, id).value
                else s.mapPoses[id])
  {
    var visited := VisitAll(c, s, [], SortById(u.nodes), u).0;
    VisitAllKeepsOld(c, s, [], SortById(u.nodes), u, id);
    VisitAllKeepsCount(c, s, [], SortById(u.nodes), u);
    OptimizedPose(visited, u.graphPoses);
  }

  lemma {:induction false} VisitAllKeepsCount<P, I>(c: Setting<P, I>, s: State<P>, written: seq<Keyframe<P, I>>,
          nodes: seq<GraphNode<P>>, u: Update<P, I>)
    requires Counted(s)
    ensures Counted(VisitAll(c, s, written, nodes, u).0)
    decreases |nodes|
  {
    if nodes != [] {
      VisitKeepsCount(c, s, nodes[0], u);
      VisitAllKeepsCount(c, Visit(c, s, nodes[0], u).0, written + Visit(c, s, nodes[0], u).1, nodes[1..], u);
    }
  }

  // ---------------------------------------------------------------------------
  // What becomes of a node that is new
  // ---------------------------------------------------------------------------

  function FirstWithId<P>(nodes: seq<GraphNode<P>>, id: NodeId): Option<GraphNode<P>> {
    if nodes == [] then None
    else if nodes[0].nodeId == id then Some(nodes[0])
    else FirstWithId(nodes[1..], id)
  }

  lemma {:induction false} FirstWithIdAt<P>(nodes: seq<GraphNode<P>>, i: nat)
    requires i < |nodes| && forall j | 0 <= j < i :: nodes[j].nodeId != nodes[i].nodeId
    ensures FirstWithId(nodes, nodes[i].nodeId) == Some(nodes[i])
  {
    if i > 0 {
      FirstWithIdAt(nodes[1..], i - 1);
    }
  }

  lemma {:induction false} InsertKeepsFirst<P>(sorted: seq<GraphNode<P>>, node: GraphNode<P>, id: NodeId)
    ensures FirstWithId(InsertById(sorted, node), id) ==
            if node.nodeId == id then Some(node) else FirstWithId(sorted, id)
  {
    if sorted != [] && node.nodeId > sorted[0].nodeId {
      InsertKeepsFirst(sorted[1..], node, id);
    }
  }

  /** The sort is stable as far as it matters: of nodes with one id the first stays the first. */
  lemma {:induction false} SortKeepsFirst<P>(nodes: seq<GraphNode<P>>, id: NodeId)
    ensures FirstWithId(SortById(nodes), id) == FirstWithId(nodes, id)
  {
    if nodes != [] {
      SortKeepsFirst(nodes[1..], id);
      InsertKeepsFirst(SortById(nodes[1..]), nodes[0], id);
    }
  }

  /** The first node with a new id was looked up by its own stamp, and recorded if an image was found. */
  ghost predicate IsRecorded<P, I>(c: Setting<P, I>, t: State<P>, keyframes: seq<Keyframe<P, I>>, node: GraphNode<P>,
          u: Update<P, I>, mapPose: P)
  {
    && node.nodeId in t.seen
    && match u.lookup(node.stamp, c.tolerance)
       case None => node.nodeId !in t.stamps && forall k | k in keyframes :: k.nodeId != node.nodeId
       case Some((stamp, image)) =>
         && node.nodeId in t.stamps && t.stamps[node.nodeId] == stamp
         && node.nodeId in t.mapPoses && t.mapPoses[node.nodeId] == mapPose
         && Keyframe(node.nodeId, stamp, c.product(node.odomPose, c.baseToCamera), image) in keyframes
  }

  lemma {:induction false} VisitAllKeepsKeyframes<P, I>(c: Setting<P, I>, s: State<P>, written: seq<Keyframe<P, I>>,
          nodes: seq<GraphNode<P>>, u: Update<P, I>, k: Keyframe<P, I>)
    requires k.nodeId in s.seen
    ensures k in VisitAll(c, s, written, nodes, u).1 <==> k in written
    decreases |nodes|
  {
    if nodes != [] {
      var (t, more) := Visit(c, s, nodes[0], u);
      VisitAllKeepsKeyframes(c, t, written + more, nodes[1..], u, k);
    }
  }

  /** Once recorded a node stays recorded through the rest of the loop. */
  lemma StaysRecorded<P, I>(c: Setting<P, I>, s: State<P>, written: seq<Keyframe<P, I>>, nodes: seq<GraphNode<P>>,
          node: GraphNode<P>, u: Update<P, I>, mapPose: P)
    requires Counted(s) && IsRecorded(c, s, written, node, u, mapPose)
    ensures
      var (t, all) := VisitAll(c, s, written, nodes, u);
      IsRecorded(c, t, all, node, u, mapPose)
  {
    var all := VisitAll(c, s, written, nodes, u).1;
    VisitAllKeepsOld(c, s, written, nodes, u, node.nodeId);
    match u.lookup(node.stamp, c.tolerance)
    case None =>
      forall k | k in all ensures k.nodeId != node.nodeId {
        if k.nodeId == node.nodeId {
          VisitAllKeepsKeyframes(c, s, written, nodes, u, k);
        }
      }
    case Some((stamp, image)) =>
      var k := Keyframe(node.nodeId, stamp, c.product(node.odomPose, c.baseToCamera), image);
      VisitAllKeepsKeyframes(c, s, written, nodes, u, k);
  }

  lemma VisitNew<P, I>(c: Setting<P, I>, s: State<P>, written: seq<Keyframe<P, I>>, node: GraphNode<P>,
          u: Update<P, I>)
    requires Counted(s) && node.nodeId !in s.seen && forall k | k in written :: k.nodeId != node.nodeId
    ensures
      var (t, more) := Visit(c, s, node, u);
      IsRecorded(c, t, written + more, node, u, c.product(u.mapToOdom, node.odomPose))
  {
    var more := Visit(c, s, node, u).1;
    if more != [] {
      assert (written + more)[|written|] == more[0];
    }
  }

  lemma {:induction false} VisitAllNew<P, I>(c: Setting<P, I>, s: State<P>, written: seq<Keyframe<P, I>>,
          nodes: seq<GraphNode<P>>, u: Update<P, I>, id: NodeId)
    requires Counted(s) && id !in s.seen && forall k | k in written :: k.nodeId != id
    ensures
      var (t, all) := VisitAll(c, s, written, nodes, u);
      match FirstWithId(nodes, id)
      case None => id !in t.seen && forall k | k in all :: k.nodeId != id
      case Some(node) => IsRecorded(c, t, all, node, u, c.product(u.mapToOdom, node.odomPose))
    decreases |nodes|
  {
    if nodes != [] {
      var (t, more) := Visit(c, s, nodes[0], u);
      VisitKeepsCount(c, s, nodes[0], u);
      if nodes[0].nodeId == id {
        VisitNew(c, s, written, nodes[0], u);
        StaysRecorded(c, t, written + more, nodes[1..], nodes[0], u, c.product(u.mapToOdom, nodes[0].odomPose));
      } else {
        VisitAllNew(c, t, written + more, nodes[1..], u, id);
      }
    }
  }

  /**
   A node id that an update brings for the first time: the first node with it is matched with an image by its
   own stamp. Without one it is skipped. With one it becomes a keyframe under the image's stamp, its camera
   pose in the odometry frame, and its map pose is the optimized one or else the odometry pose in the map.
   */
  lemma NewNodeOutcome<P, I>(c: Setting<P, I>, s: State<P>, u: Update<P, I>, i: nat)
    requires Counted(s) && i < |u.nodes| && u.nodes[i].nodeId !in s.seen
    requires forall j | 0 <= j < i :: u.nodes[j].nodeId != u.nodes[i].nodeId
    ensures
      var node, (t, keyframes) := u.nodes[i], Updated(c, s, u);
      var id, found := node.nodeId, u.lookup(node.stamp, c.tolerance);
      && id in t.seen && (id in t.stamps <==> found.Some?) && (id in t.mapPoses <==> found.Some?)
      && (found.None? ==> forall k | k in keyframes :: k.nodeId != id)
      && (found.Some? ==>
            && t.stamps[id] == found.value.0
            && t.mapPoses[id] == (if PoseIn(u.graphPoses, id).Some? then PoseIn(u.graphPoses, id).value
                                  else c.product(u.mapToOdom, node.odomPose))
            && Keyframe(id, found.value.0, c.product(node.odomPose, c.baseToCamera), found.value.1) in keyframes)
  {
    var node, sorted := u.nodes[i], SortById(u.nodes);
    FirstWithIdAt(u.nodes, i);
    SortKeepsFirst(u.nodes, node.nodeId);
    VisitAllNew(c, s, [], sorted, u, node.nodeId);
    VisitAllKeepsCount(c, s, [], sorted, u);
    OptimizedPose(VisitAll(c, s, [], sorted, u).0, u.graphPoses);
  }

  /** ... and nothing else becomes a keyframe. */
  lemma OnlyNewNodesBecomeKeyframes<P, I>(c: Setting<P, I>, s: State<P>, u: Update<P, I>, k: Keyframe<P, I>)
    requires Counted(s) && k in Updated(c, s, u).1
    ensures k.nodeId !in s.seen && exists i :: 0 <= i < |u.nodes| && u.nodes[i].nodeId == k.nodeId
  {
    var id, sorted := k.nodeId, SortById(u.nodes);
    if id in s.seen {
      VisitAllKeepsKeyframes(c, s, [], sorted, u, k);
    } else {
      VisitAllNew(c, s, [], sorted, u, id);
      SortKeepsFirst(u.nodes, id);
      FirstIsMember(u.nodes, id);
    }
  }

  lemma {:induction false} FirstIsMember<P>(nodes: seq<GraphNode<P>>, id: NodeId)
    requires FirstWithId(nodes, id).Some?
    ensures exists i :: 0 <= i < |nodes| && nodes[i].nodeId == id
  {
    if nodes[0].nodeId != id {
      FirstIsMember(nodes[1..], id);
      var i :| 0 <= i < |nodes[1..]| && nodes[1..][i].nodeId == id;
      assert nodes[i + 1].nodeId == id;
    }
  }

  /** The snapshot sorts one entry for each keyframe: its image's stamp and its latest map pose, at the camera. */
  lemma EntryOfKeyframe<P, I>(c: Setting<P, I>, s: State<P>, id: NodeId)
    requires Counted(s) && id in s.stamps
    ensures |Entries(c, s)| == |s.order|
    ensures exists i :: 0 <= i < |s.order| && s.order[i] == id
                        && Entries(c, s)[i] == (s.stamps[id], c.product(s.mapPoses[id], c.baseToCamera))
  {
    var i :| 0 <= i < |s.order| && s.order[i] == id;
    assert Entries(c, s)[i] == (s.stamps[id], c.product(s.mapPoses[id], c.baseToCamera));
  }
}
