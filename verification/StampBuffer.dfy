/** Recent items by stamp, kept for a fixed time horizon before the newest stamp ever added. */
module StampBuffer {
  import opened Optional

  /** Nanoseconds. */
  type Stamp = int

  datatype Buffer<T> = Buffer(stamps: seq<Stamp>, items: seq<T>)

  /** Python's bisect_left: the first position whose stamp is not smaller. */
  function BisectLeft(stamps: seq<Stamp>, x: Stamp): (k: nat)
    ensures k <= |stamps|
    ensures forall i | 0 <= i < k :: stamps[i] < x
    ensures k < |stamps| ==> x <= stamps[k]
  {
    if stamps == [] || x <= stamps[0] then 0 else 1 + BisectLeft(stamps[1..], x)
  }

  /** Python's bisect_right: the first position whose stamp is larger. */
  function BisectRight(stamps: seq<Stamp>, x: Stamp): (k: nat)
    ensures k <= |stamps|
    ensures forall i | 0 <= i < k :: stamps[i] <= x
    ensures k < |stamps| ==> x < stamps[k]
  {
    if stamps == [] || x < stamps[0] then 0 else 1 + BisectRight(stamps[1..], x)
  }

  function Insert<T>(s: seq<T>, k: nat, x: T): seq<T>
    requires k <= |s|
  {
    s[..k] + [x] + s[k..]
  }

  function Inserted<T>(b: Buffer<T>, stamp: Stamp, item: T): (r: Buffer<T>)
    requires |b.stamps| == |b.items|
    ensures |r.stamps| == |r.items| == |b.stamps| + 1
  {
    var k := BisectRight(b.stamps, stamp);
    Buffer(Insert(b.stamps, k, stamp), Insert(b.items, k, item))
  }

  function Trimmed<T>(b: Buffer<T>, oldest: Stamp): Buffer<T>
    requires |b.stamps| == |b.items|
  {
    var cutoff := BisectLeft(b.stamps, oldest);
    Buffer(b.stamps[cutoff..], b.items[cutoff..])
  }

  function Added<T>(b: Buffer<T>, horizon: int, stamp: Stamp, item: T): Buffer<T>
    requires |b.stamps| == |b.items|
  {
    var grown := Inserted(b, stamp, item);
    Trimmed(grown, grown.stamps[|grown.stamps| - 1] - horizon)
  }

  predicate Sorted(stamps: seq<Stamp>) {
    forall i, j | 0 <= i < j < |stamps| :: stamps[i] <= stamps[j]
  }

  function Distance(a: Stamp, b: Stamp): nat {
    if a < b then b - a else a - b
  }

  /** Entry `k` is nearest to `stamp`; among equally near ones it has the earlier stamp. */
  ghost predicate IsNearest(stamps: seq<Stamp>, stamp: Stamp, k: nat) {
    && k < |stamps|
    && (forall j | 0 <= j < |stamps| :: Distance(stamps[k], stamp) <= Distance(stamps[j], stamp))
    && (forall j | 0 <= j < |stamps| && Distance(stamps[j], stamp) == Distance(stamps[k], stamp) ::
        stamps[k] <= stamps[j])
    && (forall j | 0 <= j < |stamps| && stamps[j] == stamps[k] :: if stamp <= stamps[k] then k <= j else j <= k)
  }

  class StampBuffer<T> {
    const horizon: int
    var stamps: seq<Stamp>
    var items: seq<T>

    ghost function View(): Buffer<T>
      reads this
    {
      Buffer(stamps, items)
    }

    ghost predicate Valid()
      reads this
    {
      |stamps| == |items| && Sorted(stamps)
    }

    constructor (horizon: int)
      ensures this.horizon == horizon && Valid() && View() == Buffer([], [])
    {
      this.horizon, stamps, items := horizon, [], [];
    }

    method Add(stamp: Stamp, item: T)
      requires Valid()
      modifies this
      ensures Valid()
      ensures View() == Added(old(View()), horizon, stamp, item)
    {
      ghost var added := Added(View(), horizon, stamp, item);
      AddedKeepsSorted(View(), horizon, stamp, item);
      var index := BisectRight(stamps, stamp);
      stamps := Insert(stamps, index, stamp);
      items := Insert(items, index, item);
      var cutoff := BisectLeft(stamps, stamps[|stamps| - 1] - horizon);
      stamps := stamps[cutoff..];
      items := items[cutoff..];
      assert stamps == added.stamps && items == added.items;
    }

    /**
     An entry at minimal distance within the tolerance, the earlier stamp on ties; None exactly when there is
     none.
     */
    method Nearest(stamp: Stamp, tolerance: int) returns (nearest: Option<(Stamp, T)>)
      requires Valid()
      ensures nearest.None? <==> forall j | 0 <= j < |stamps| :: Distance(stamps[j], stamp) > tolerance
      ensures nearest.Some? ==> exists k: nat :: IsNearest(stamps, stamp, k) && Distance(stamps[k], stamp) <= tolerance
                                           && |stamps| == |items| && nearest.value == (stamps[k], items[k])
    {
      var index := BisectLeft(stamps, stamp);
      var best: Option<(int, nat)> := None;
      var candidate := index - 1;
      while candidate <= index
        invariant index - 1 <= candidate <= index + 1
        invariant candidate == index - 1 ==> best.None?
        invariant candidate == index ==>
                    if index > 0 && Distance(stamps[index - 1], stamp) <= tolerance
                    then best == Some((Distance(stamps[index - 1], stamp), index - 1)) else best.None?
        invariant candidate == index + 1 ==>
                    best == BestOf(stamps, stamp, tolerance, index)
      {
        if 0 <= candidate < |stamps| {
          var delta := Distance(stamps[candidate], stamp);
          if delta <= tolerance && (best.None? || delta < best.value.0) {
            best := Some((delta, candidate));
          }
        }
        candidate := candidate + 1;
      }
      BestOfIsNearest(stamps, stamp, tolerance, index);
      if best.None? {
        return None;
      }
      return Some((stamps[best.value.1], items[best.value.1]));
    }
  }

  lemma AddedKeepsSorted<T>(b: Buffer<T>, horizon: int, stamp: Stamp, item: T)
    requires |b.stamps| == |b.items| && Sorted(b.stamps)
    ensures Sorted(Added(b, horizon, stamp, item).stamps)
    ensures |Added(b, horizon, stamp, item).stamps| == |Added(b, horizon, stamp, item).items|
  {
    var k, grown := BisectRight(b.stamps, stamp), Inserted(b, stamp, item);
    forall i, j | 0 <= i < j < |grown.stamps| ensures grown.stamps[i] <= grown.stamps[j] {
      InsertedAt(b.stamps, k, stamp, i);
      InsertedAt(b.stamps, k, stamp, j);
    }
  }

  function BestOf(stamps: seq<Stamp>, stamp: Stamp, tolerance: int, index: nat): Option<(int, nat)>
    requires index <= |stamps|
  {
    var left := index > 0 && Distance(stamps[index - 1], stamp) <= tolerance;
    var right := index < |stamps| && Distance(stamps[index], stamp) <= tolerance;
    if right && (!left || Distance(stamps[index], stamp) < Distance(stamps[index - 1], stamp)) then
        Some((Distance(stamps[index], stamp), index))
    else if left then Some((Distance(stamps[index - 1], stamp), index - 1))
    else None
  }

  lemma BestOfIsNearest(stamps: seq<Stamp>, stamp: Stamp, tolerance: int, index: nat)
    requires Sorted(stamps) && index == BisectLeft(stamps, stamp)
    ensures BestOf(stamps, stamp, tolerance, index).None? <==>
        forall j | 0 <= j < |stamps| :: Distance(stamps[j], stamp) > tolerance
    ensures BestOf(stamps, stamp, tolerance, index).Some? ==>
              var k := BestOf(stamps, stamp, tolerance, index).value.1;
              IsNearest(stamps, stamp, k) && Distance(stamps[k], stamp) <= tolerance
  {
    assert forall j | 0 <= j < index :: stamps[j] <= stamps[index - 1] < stamp;
    assert forall j | index <= j < |stamps| :: stamp <= stamps[index] <= stamps[j];
  }

  // ---------------------------------------------------------------------------
  // The buffer against its whole history
  // ---------------------------------------------------------------------------

  function AddedAll<T>(horizon: int, history: seq<(Stamp, T)>): (b: Buffer<T>)
    ensures |b.stamps| == |b.items|
  {
    if history == [] then Buffer([], [])
    else
      var last := history[|history| - 1];
      Added(AddedAll(horizon, history[..|history| - 1]), horizon, last.0, last.1)
  }

  ghost predicate IsNewest<T>(history: seq<(Stamp, T)>, newest: Stamp) {
    && (exists k :: 0 <= k < |history| && history[k].0 == newest)
    && (forall k | 0 <= k < |history| :: history[k].0 <= newest)
  }

  ghost predicate HoldsAt(origin: seq<int>, k: int) {
    exists i :: 0 <= i < |origin| && origin[i] == k
  }

  /** `origin` names the add that each entry came from. */
  ghost predicate EntriesMatch<T>(stamps: seq<Stamp>, items: seq<T>, history: seq<(Stamp, T)>, origin: seq<int>) {
    && |origin| == |stamps| == |items|
    && forall i | 0 <= i < |origin| :: 0 <= origin[i] < |history| && history[origin[i]] == (stamps[i], items[i])
  }

  ghost predicate Earlier(s: Stamp, a: int, t: Stamp, b: int) {
    s < t || (s == t && a < b)
  }

  ghost predicate StableOrder(stamps: seq<Stamp>, origin: seq<int>) {
    |stamps| == |origin| && forall i, j | 0 <= i < j < |origin| :: Earlier(stamps[i], origin[i], stamps[j], origin[j])
  }

  ghost predicate ComesFrom<T>(b: Buffer<T>, history: seq<(Stamp, T)>, origin: seq<int>) {
    EntriesMatch(b.stamps, b.items, history, origin) && StableOrder(b.stamps, origin)
  }

  ghost predicate HoldsRecent<T>(history: seq<(Stamp, T)>, horizon: int, newest: Stamp, origin: seq<int>) {
    forall k: nat {:trigger HoldsAt(origin, k)} | k < |history| :: HoldsAt(origin, k) <==>
        history[k].0 >= newest - horizon
  }

  /** `origin` names the adds not older than the newest stamp minus the horizon, and no others. */
  ghost predicate IsRecent<T>(history: seq<(Stamp, T)>, horizon: int, newest: Stamp, origin: seq<int>) {
    if history == [] then origin == [] else IsNewest(history, newest) && HoldsRecent(history, horizon, newest, origin)
  }

  lemma NewestAfterAdd<T>(history: seq<(Stamp, T)>, newest: Stamp, stamp: Stamp, item: T)
    requires history != [] ==> IsNewest(history, newest)
    ensures IsNewest(history + [(stamp, item)], NewestAfter(history, newest, stamp))
  {
    var longer := history + [(stamp, item)];
    assert longer[|history|] == (stamp, item);
    if history != [] {
      var k :| 0 <= k < |history| && history[k].0 == newest;
      assert longer[k].0 == newest;
    }
  }

  lemma InsertedAt<T>(s: seq<T>, k: nat, x: T, i: nat)
    requires k <= |s| && i <= |s|
    ensures Insert(s, k, x)[i] == if i < k then s[i] else if i == k then x else s[i - 1]
  {
  }

  lemma InsertKeepsEntries<T>(b: Buffer<T>, history: seq<(Stamp, T)>, origin: seq<int>, k: nat, stamp: Stamp, item: T)
    requires EntriesMatch(b.stamps, b.items, history, origin) && k <= |origin|
    ensures EntriesMatch(Insert(b.stamps, k, stamp), Insert(b.items, k, item), history + [(stamp, item)],
        Insert(origin, k, |history|))
  {
    var longer, origin' := history + [(stamp, item)], Insert(origin, k, |history|);
    forall i | 0 <= i < |origin'|
      ensures 0 <= origin'[i] < |longer| && longer[origin'[i]]
          == (Insert(b.stamps, k, stamp)[i], Insert(b.items, k, item)[i])
    {
      InsertedAt(origin, k, |history|, i);
      InsertedAt(b.stamps, k, stamp, i);
      InsertedAt(b.items, k, item, i);
    }
  }

  lemma InsertKeepsOrder(stamps: seq<Stamp>, origin: seq<int>, stamp: Stamp, n: int)
    requires StableOrder(stamps, origin) && forall i | 0 <= i < |origin| :: origin[i] < n
    ensures
      var k := BisectRight(stamps, stamp);
      StableOrder(Insert(stamps, k, stamp), Insert(origin, k, n))
  {
    var k := BisectRight(stamps, stamp);
    forall i, j | 0 <= i < j < |origin| + 1
      ensures Earlier(Insert(stamps, k, stamp)[i], Insert(origin, k, n)[i], Insert(stamps, k, stamp)[j],
          Insert(origin, k, n)[j])
    {
      InsertedAt(origin, k, n, i);
      InsertedAt(stamps, k, stamp, i);
      InsertedAt(origin, k, n, j);
      InsertedAt(stamps, k, stamp, j);
      assert i == k && j - 1 > k ==> Earlier(stamps[k], origin[k], stamps[j - 1], origin[j - 1]);
    }
  }

  /** Insertion before the horizon is applied. */
  lemma InsertKeepsOrigin<T>(b: Buffer<T>, history: seq<(Stamp, T)>, origin: seq<int>, stamp: Stamp, item: T)
    requires ComesFrom(b, history, origin)
    ensures ComesFrom(Inserted(b, stamp, item), history + [(stamp, item)], Insert(origin, BisectRight(b.stamps,
        stamp), |history|))
  {
    InsertKeepsEntries(b, history, origin, BisectRight(b.stamps, stamp), stamp, item);
    InsertKeepsOrder(b.stamps, origin, stamp, |history|);
  }

  lemma InsertHolds(origin: seq<int>, k: nat, x: int, y: int)
    requires k <= |origin|
    ensures HoldsAt(Insert(origin, k, x), y) <==> y == x || HoldsAt(origin, y)
  {
    var longer := Insert(origin, k, x);
    assert longer[k] == x;
    if HoldsAt(origin, y) {
      var i :| 0 <= i < |origin| && origin[i] == y;
      assert longer[if i < k then i else i + 1] == y;
    }
  }

  /** Dropping keeps of the adds in `origin` exactly those not before the bound. */
  ghost predicate KeepsFrom<T>(history: seq<(Stamp, T)>, origin: seq<int>, bound: Stamp, kept: seq<int>) {
    forall k: nat {:trigger HoldsAt(kept, k)} | k < |history| :: HoldsAt(kept, k) <==>
        HoldsAt(origin, k) && history[k].0 >= bound
  }

  lemma DropComesFrom<T>(b: Buffer<T>, history: seq<(Stamp, T)>, origin: seq<int>, bound: Stamp)
    requires ComesFrom(b, history, origin)
    ensures ComesFrom(Trimmed(b, bound), history, origin[BisectLeft(b.stamps, bound)..])
  {
  }

  lemma DropHolds<T>(b: Buffer<T>, history: seq<(Stamp, T)>, origin: seq<int>, bound: Stamp, k: nat)
    requires ComesFrom(b, history, origin) && k < |history|
    ensures HoldsAt(origin[BisectLeft(b.stamps, bound)..], k) <==> HoldsAt(origin, k) && history[k].0 >= bound
  {
    var cutoff := BisectLeft(b.stamps, bound);
    var kept := origin[cutoff..];
    if HoldsAt(kept, k) {
      var i :| 0 <= i < |kept| && kept[i] == k;
      assert origin[i + cutoff] == k;
      FromCutoff(b, history, origin, bound, i + cutoff);
    }
    if HoldsAt(origin, k) && history[k].0 >= bound {
      var i :| 0 <= i < |origin| && origin[i] == k;
      assert b.stamps[i] >= bound;
      assert kept[i - cutoff] == k;
    }
  }

  lemma FromCutoff<T>(b: Buffer<T>, history: seq<(Stamp, T)>, origin: seq<int>, bound: Stamp, i: nat)
    requires ComesFrom(b, history, origin) && BisectLeft(b.stamps, bound) <= i < |origin|
    ensures 0 <= origin[i] < |history| && bound <= history[origin[i]].0
  {
    assert b.stamps[BisectLeft(b.stamps, bound)] <= b.stamps[i];
  }

  lemma DropKeepsOrigin<T>(b: Buffer<T>, history: seq<(Stamp, T)>, origin: seq<int>, bound: Stamp)
    requires ComesFrom(b, history, origin)
    ensures
      var kept := origin[BisectLeft(b.stamps, bound)..];
      ComesFrom(Trimmed(b, bound), history, kept) && KeepsFrom(history, origin, bound, kept)
  {
    DropComesFrom(b, history, origin, bound);
    forall k: nat | k < |history|
      ensures HoldsAt(origin[BisectLeft(b.stamps, bound)..], k) <==> HoldsAt(origin, k) && history[k].0 >= bound
    {
      DropHolds(b, history, origin, bound, k);
    }
  }

  /** The last stamp after the insertion bounds what the horizon keeps, for every horizon, negative ones included. */
  lemma LastStampIsNewest<T>(b: Buffer<T>, history: seq<(Stamp, T)>, horizon: int, newest: Stamp, origin: seq<int>,
          stamp: Stamp, item: T)
    requires ComesFrom(b, history, origin)
    requires IsRecent(history, horizon, newest, origin)
    ensures
      var stamps := Inserted(b, stamp, item).stamps;
      if horizon >= 0 then stamps[|stamps| - 1] == NewestAfter(history, newest, stamp) else stamps == [stamp]
  {
    var k := BisectRight(b.stamps, stamp);
    if horizon >= 0 && history != [] {
      var n :| 0 <= n < |history| && history[n].0 == newest;
      assert HoldsAt(origin, n);
      var i :| 0 <= i < |origin| && origin[i] == n;
      assert b.stamps[|b.stamps| - 1] <= newest by {
        assert origin[|origin| - 1] < |history|;
      }
      assert b.stamps[|b.stamps| - 1] == newest;
    }
    if horizon < 0 && origin != [] {
      assert HoldsAt(origin, origin[0]);
      assert false;
    }
  }

  /**
   After any sequence of adds, in any stamp order, the buffer holds exactly the adds whose stamp is
   at least the largest stamp ever added minus the horizon, in stamp order and, for equal stamps,
   in the order in which they were added.
   */
  lemma {:induction false} BufferIsRecentHistory<T>(horizon: int,
          history: seq<(Stamp, T)>) returns (origin: seq<int>, newest: Stamp)
    ensures ComesFrom(AddedAll(horizon, history), history, origin)
    ensures IsRecent(history, horizon, newest, origin)
  {
    if history == [] {
      return [], 0;
    }
    var n := |history| - 1;
    var before, last := history[..n], history[n];
    var origin0, newest0 := BufferIsRecentHistory(horizon, before);
    assert before + [last] == history;
    newest := NewestAfter(before, newest0, last.0);
    NewestAfterAdd(before, newest0, last.0, last.1);
    origin := AddStep(AddedAll(horizon, before), before, horizon, newest0, origin0, last.0, last.1);
  }

  function NewestAfter<T>(history: seq<(Stamp, T)>, newest: Stamp, stamp: Stamp): Stamp {
    if history == [] || newest < stamp then stamp else newest
  }

  /** What the horizon is subtracted from is the newest stamp, or with a negative horizon the one just added. */
  lemma BoundAfterAdd<T>(b: Buffer<T>, history: seq<(Stamp, T)>, horizon: int, newest: Stamp, origin: seq<int>,
          stamp: Stamp, item: T)
    returns (bound: Stamp)
    requires ComesFrom(b, history, origin) && IsRecent(history, horizon, newest, origin)
    ensures bound == (if horizon >= 0 then NewestAfter(history, newest, stamp) else stamp) - horizon
    ensures Added(b, horizon, stamp, item) == Trimmed(Inserted(b, stamp, item), bound)
  {
    LastStampIsNewest(b, history, horizon, newest, origin, stamp, item);
    var stamps := Inserted(b, stamp, item).stamps;
    bound := stamps[|stamps| - 1] - horizon;
  }

  lemma AddStep<T>(b: Buffer<T>, history: seq<(Stamp, T)>, horizon: int, newest: Stamp, origin: seq<int>,
          stamp: Stamp, item: T)
    returns (origin': seq<int>)
    requires ComesFrom(b, history, origin) && IsRecent(history, horizon, newest, origin)
    ensures ComesFrom(Added(b, horizon, stamp, item), history + [(stamp, item)], origin')
    ensures HoldsRecent(history + [(stamp, item)], horizon, NewestAfter(history, newest, stamp), origin')
  {
    var bound := BoundAfterAdd(b, history, horizon, newest, origin, stamp, item);
    origin' := AddEntries(b, history, origin, stamp, item, bound);
    HoldsRecentStep(history, horizon, newest, origin, BisectRight(b.stamps, stamp), stamp, item, bound, origin');
  }

  lemma AddEntries<T>(b: Buffer<T>, history: seq<(Stamp, T)>, origin: seq<int>, stamp: Stamp, item: T, bound: Stamp)
    returns (origin': seq<int>)
    requires ComesFrom(b, history, origin)
    ensures |origin| == |b.stamps|
    ensures ComesFrom(Trimmed(Inserted(b, stamp, item), bound), history + [(stamp, item)], origin')
    ensures KeepsFrom(history + [(stamp, item)], Insert(origin, BisectRight(b.stamps, stamp), |history|), bound,
        origin')
  {
    var k, grown := BisectRight(b.stamps, stamp), Inserted(b, stamp, item);
    InsertKeepsOrigin(b, history, origin, stamp, item);
    DropKeepsOrigin(grown, history + [(stamp, item)], Insert(origin, k, |history|), bound);
    origin' := Insert(origin, k, |history|)[BisectLeft(grown.stamps, bound)..];
  }

  lemma HoldsRecentStep<T>(history: seq<(Stamp, T)>, horizon: int, newest: Stamp, origin: seq<int>, k: nat,
          stamp: Stamp, item: T, bound: Stamp, origin': seq<int>)
    requires k <= |origin| && IsRecent(history, horizon, newest, origin)
    requires bound == (if horizon >= 0 then NewestAfter(history, newest, stamp) else stamp) - horizon
    requires KeepsFrom(history + [(stamp, item)], Insert(origin, k, |history|), bound, origin')
    ensures HoldsRecent(history + [(stamp, item)], horizon, NewestAfter(history, newest, stamp), origin')
  {
    var longer := history + [(stamp, item)];
    forall m: nat | m < |longer| ensures HoldsAt(origin', m) <==>
        longer[m].0 >= NewestAfter(history, newest, stamp) - horizon {
      InsertHolds(origin, k, |history|, m);
      if m < |history| {
        assert longer[m] == history[m];
        assert HoldsAt(origin, m) <==> history[m].0 >= newest - horizon;
      }
    }
  }
}
