/**
 The bundled schema renderer: a depth-bounded depth-first walk over message definitions that
 appends every type it meets once.

 Finding the definition file and matching the dependency regular expressions stay abstract: a
 catalog maps each type that loads to its text and its dependencies in std::set order.
 */
module SchemaRenderer {
  import opened Optional
  import Spacing

  type TypeName = string

  datatype Format = Msg | Idl

  datatype Definition = Definition(text: string, dependencies: seq<TypeName>)

  type Catalog = map<TypeName, Definition>

  datatype RosMessageSchema = RosMessageSchema(encoding: string, text: string)

  const MAX_DEFINITION_DEPTH: nat := 50

  function Delimiter(format: Format, name: TypeName): string {
    seq(80, _ => '=') + (if format == Msg then "\nMSG: " else "\nIDL: ") + name + "\n"
  }

  // ---------------------------------------------------------------------------
  // The walk as a function
  // ---------------------------------------------------------------------------

  /** Appended types in order and everything seen, or Failed when the program throws. */
  datatype Walk = Failed | Walked(order: seq<TypeName>, seen: set<TypeName>)

  function WalkType(c: Catalog, name: TypeName, seen: set<TypeName>, depth: nat): Walk
    decreases depth, if name in c then |c[name].dependencies| + 1 else 0
  {
    if depth == 0 || name !in c then Failed else WalkAll(c, c[name].dependencies, seen, depth)
  }

  function WalkAll(c: Catalog, dependencies: seq<TypeName>, seen: set<TypeName>, depth: nat): Walk
    requires depth > 0
    decreases depth, |dependencies|
  {
    if dependencies == [] then Walked([], seen)
    else if dependencies[0] in seen then WalkAll(c, dependencies[1..], seen, depth)
    else
      var sub := WalkType(c, dependencies[0], seen + {dependencies[0]}, depth - 1);
      if sub.Failed? then Failed else Prepended([dependencies[0]] + sub.order, WalkAll(c, dependencies[1..],
          sub.seen, depth))
  }

  function Prepended(order: seq<TypeName>, walk: Walk): Walk {
    if walk.Failed? then Failed else Walked(order + walk.order, walk.seen)
  }

  /** One appended section; the walk only ever appends types that load (WalkVisitsExactlyTheReachable). */
  function Section(c: Catalog, format: Format, name: TypeName): string {
    "\n" + Delimiter(format, name) + (if name in c then c[name].text else "")
  }

  function Sections(c: Catalog, format: Format, order: seq<TypeName>): string {
    if order == [] then "" else Section(c, format, order[0]) + Sections(c, format, order[1..])
  }

  lemma Associative(a: string, b: string, c: string)
    ensures (a + b) + c == a + (b + c)
  {
  }

  lemma {:induction false} SectionsAppend(c: Catalog, format: Format, a: seq<TypeName>, b: seq<TypeName>)
    ensures Sections(c, format, a + b) == Sections(c, format, a) + Sections(c, format, b)
  {
    if a == [] {
      assert a + b == b;
    } else {
      SectionsAppend(c, format, a[1..], b);
      var head := Section(c, format, a[0]);
      assert (a + b)[0] == a[0] && (a + b)[1..] == a[1..] + b;
      Associative(head, Sections(c, format, a[1..]), Sections(c, format, b));
    }
  }

  // ---------------------------------------------------------------------------
  // The walk as the program runs it
  // ---------------------------------------------------------------------------

  class Renderer {
    const catalog: Catalog
    const format: Format
    var seen: set<TypeName>

    constructor (catalog: Catalog, format: Format, root: TypeName)
      ensures this.catalog == catalog && this.format == format && seen == {root}
    {
      this.catalog, this.format, seen := catalog, format, {root};
    }

    /** None stands for the exceptions of a definition that does not load or of too deep a nesting. */
    method AppendDefinition(name: TypeName, depth: nat) returns (text: Option<string>)
      modifies this
      ensures text == WalkText(catalog, format, name, WalkType(catalog, name, old(seen), depth))
      ensures text.Some? ==> seen == WalkType(catalog, name, old(seen), depth).seen
      decreases depth
    {
      if depth == 0 || name !in catalog {
        return None;
      }
      var dependencies := catalog[name].dependencies;
      var result := catalog[name].text;
      ghost var order := [];
      ghost var whole := WalkAll(catalog, dependencies, seen, depth);
      var i := 0;
      assert dependencies[0..] == dependencies;
      while i < |dependencies|
        invariant 0 <= i <= |dependencies|
        invariant result == catalog[name].text + Sections(catalog, format, order)
        invariant whole == Prepended(order, WalkAll(catalog, dependencies[i..], seen, depth))
      {
        var dependency := dependencies[i];
        WalkStep(catalog, dependencies, i, seen, depth, order);
        if dependency !in seen {
          ghost var sub := WalkType(catalog, dependency, seen + {dependency}, depth - 1);
          seen := seen + {dependency};
          var nested := AppendDefinition(dependency, depth - 1);
          if nested.None? {
            return None;
          }
          result := result + ("\n" + Delimiter(format, dependency) + nested.value);
          SectionsExtend(catalog, format, order, dependency, sub);
          Associative(catalog[name].text, Sections(catalog, format, order), "\n" + Delimiter(format,
              dependency) + nested.value);
          order := order + ([dependency] + sub.order);
        }
        i := i + 1;
      }
      assert dependencies[i..] == [] && order + [] == order;
      return Some(result);
    }
  }

  /** What the program returns for a walk that starts at `name`. */
  function WalkText(c: Catalog, format: Format, name: TypeName, walk: Walk): Option<string> {
    if walk.Failed? || name !in c then None else Some(c[name].text + Sections(c, format, walk.order))
  }

  lemma PrependedJoin(a: seq<TypeName>, b: seq<TypeName>, walk: Walk)
    ensures Prepended(a, Prepended(b, walk)) == Prepended(a + b, walk)
  {
    if walk.Walked? {
      assert a + (b + walk.order) == (a + b) + walk.order;
    }
  }

  /** One dependency of the walk: skipped when seen, otherwise its own walk and then the rest. */
  lemma WalkStep(c: Catalog, dependencies: seq<TypeName>, i: nat, seen: set<TypeName>, depth: nat, order: seq<TypeName>)
    requires depth > 0 && i < |dependencies|
    ensures
      var d, rest := dependencies[i], Prepended(order, WalkAll(c, dependencies[i..], seen, depth));
      if d in seen then rest == Prepended(order, WalkAll(c, dependencies[i + 1..], seen, depth))
      else
        var sub := WalkType(c, d, seen + {d}, depth - 1);
        rest == if sub.Failed? then Failed
                else Prepended(order + ([d] + sub.order), WalkAll(c, dependencies[i + 1..], sub.seen, depth))
  {
    var d := dependencies[i];
    assert dependencies[i..][0] == d && dependencies[i..][1..] == dependencies[i + 1..];
    var sub := WalkType(c, d, seen + {d}, depth - 1);
    if d !in seen && sub.Walked? {
      PrependedJoin(order, [d] + sub.order, WalkAll(c, dependencies[i + 1..], sub.seen, depth));
    }
  }

  lemma SectionsExtend(c: Catalog, format: Format, order: seq<TypeName>, name: TypeName, sub: Walk)
    requires sub.Walked? && name in c
    ensures Sections(c, format, order + ([name] + sub.order)) ==
            Sections(c, format, order) + ("\n" + Delimiter(format, name) + (c[name].text + Sections(c, format,
                sub.order)))
  {
    var section := [name] + sub.order;
    assert section[0] == name && section[1..] == sub.order;
    SectionsAppend(c, format, order, section);
  }

  /** The text of a root type: its own definition followed by one section per appended type. */
  function Rendered(c: Catalog, format: Format, root: TypeName): Option<string> {
    WalkText(c, format, root, WalkType(c, root, {root}, MAX_DEFINITION_DEPTH))
  }

  method RenderBundled(topicType: TypeName, msg: Catalog, idl: Catalog) returns (schema: Option<RosMessageSchema>)
    ensures schema.None? <==>
              topicType == "" || (Rendered(msg, Msg, topicType).None? && Rendered(idl, Idl, topicType).None?)
    ensures schema.Some? && Rendered(msg, Msg, topicType).Some? ==>
              schema.value == RosMessageSchema("ros2msg", Rendered(msg, Msg, topicType).value)
    ensures schema.Some? && Rendered(msg, Msg, topicType).None? ==>
              schema.value.encoding == "ros2idl"
              && schema.value.text == Delimiter(Idl, topicType) + Rendered(idl, Idl, topicType).value
  {
    if topicType == "" {
      return None;
    }
    var first := new Renderer(msg, Msg, topicType);
    var text := first.AppendDefinition(topicType, MAX_DEFINITION_DEPTH);
    if text.Some? {
      return Some(RosMessageSchema("ros2msg", text.value));
    }
    var second := new Renderer(idl, Idl, topicType);
    text := second.AppendDefinition(topicType, MAX_DEFINITION_DEPTH);
    if text.None? {
      return None;
    }
    return Some(RosMessageSchema("ros2idl", Delimiter(Idl, topicType) + text.value));
  }

  // ---------------------------------------------------------------------------
  // What the walk visits
  // ---------------------------------------------------------------------------

  ghost predicate DependsOn(c: Catalog, a: TypeName, b: TypeName) {
    a in c && b in c[a].dependencies
  }

  ghost predicate IsPath(c: Catalog, path: seq<TypeName>) {
    path != [] && forall i | 0 <= i < |path| - 1 :: DependsOn(c, path[i], path[i + 1])
  }

  ghost predicate Reaches(c: Catalog, a: TypeName, b: TypeName) {
    exists path :: IsPath(c, path) && path[0] == a && path[|path| - 1] == b
  }

  lemma PathTail(c: Catalog, path: seq<TypeName>)
    requires IsPath(c, path) && |path| > 1
    ensures IsPath(c, path[1..])
  {
    forall i | 0 <= i < |path[1..]| - 1 ensures DependsOn(c, path[1..][i], path[1..][i + 1]) {
      var j := i + 1;
      assert DependsOn(c, path[j], path[j + 1]);
    }
  }

  lemma ReachesItself(c: Catalog, a: TypeName)
    ensures Reaches(c, a, a)
  {
    assert IsPath(c, [a]);
  }

  lemma ReachesThrough(c: Catalog, a: TypeName, b: TypeName, d: TypeName)
    requires DependsOn(c, a, b) && Reaches(c, b, d)
    ensures Reaches(c, a, d)
  {
    var path :| IsPath(c, path) && path[0] == b && path[|path| - 1] == d;
    var longer := [a] + path;
    assert forall i | 0 < i < |longer| - 1 :: longer[i] == path[i - 1] && longer[i + 1] == path[i];
    assert IsPath(c, longer);
  }

  lemma ReachesFurther(c: Catalog, a: TypeName, b: TypeName, d: TypeName)
    requires Reaches(c, a, b) && DependsOn(c, b, d)
    ensures Reaches(c, a, d)
  {
    var path :| IsPath(c, path) && path[0] == a && path[|path| - 1] == b;
    assert IsPath(c, path + [d]);
  }

  ghost predicate Distinct(order: seq<TypeName>) {
    forall i, j | 0 <= i < j < |order| :: order[i] != order[j]
  }

  /** What a successful walk from `seen` to `walk.seen` has done, whatever it started from. */
  ghost predicate Extends(c: Catalog, walk: Walk, seen: set<TypeName>) {
    walk.Walked? ==>
      && seen <= walk.seen
      && Distinct(walk.order)
      && (forall t :: t in walk.order <==> t in walk.seen && t !in seen)
      && (forall t | t in walk.order :: t in c && forall d | d in c[t].dependencies :: d in walk.seen)
  }

  lemma {:induction false} WalkTypeExtends(c: Catalog, name: TypeName, seen: set<TypeName>, depth: nat)
    ensures Extends(c, WalkType(c, name, seen, depth), seen)
    ensures WalkType(c, name, seen, depth).Walked? ==>
        name in c && forall d | d in c[name].dependencies :: d in WalkType(c, name, seen, depth).seen
    decreases depth, if name in c then |c[name].dependencies| + 1 else 0
  {
    if depth > 0 && name in c {
      WalkAllExtends(c, c[name].dependencies, seen, depth);
    }
  }

  lemma {:induction false} WalkAllExtends(c: Catalog, dependencies: seq<TypeName>, seen: set<TypeName>, depth: nat)
    requires depth > 0
    ensures Extends(c, WalkAll(c, dependencies, seen, depth), seen)
    ensures WalkAll(c, dependencies, seen, depth).Walked? ==>
        forall d | d in dependencies :: d in WalkAll(c, dependencies, seen, depth).seen
    decreases depth, |dependencies|
  {
    if dependencies != [] {
      var d := dependencies[0];
      if d in seen {
        WalkAllExtends(c, dependencies[1..], seen, depth);
      } else {
        WalkTypeExtends(c, d, seen + {d}, depth - 1);
        var sub := WalkType(c, d, seen + {d}, depth - 1);
        if sub.Walked? {
          WalkAllExtends(c, dependencies[1..], sub.seen, depth);
          JoinExtends(c, d, seen, sub, WalkAll(c, dependencies[1..], sub.seen, depth));
        }
      }
    }
  }

  lemma JoinExtends(c: Catalog, d: TypeName, seen: set<TypeName>, sub: Walk, rest: Walk)
    requires d !in seen && sub.Walked? && Extends(c, sub, seen + {d}) && Extends(c, rest, sub.seen)
    requires d in c && forall x | x in c[d].dependencies :: x in sub.seen
    ensures Extends(c, Prepended([d] + sub.order, rest), seen)
  {
    if rest.Walked? {
      var head := [d] + sub.order;
      assert forall t :: t in head <==> t == d || t in sub.order;
      assert forall t :: t in head + rest.order <==> t in head || t in rest.order;
      assert Distinct(head);
      assert Distinct(head + rest.order) by {
        assert forall i | 0 <= i < |head| :: head[i] in head;
        assert forall i | 0 <= i < |rest.order| :: rest.order[i] in rest.order;
      }
    }
  }

  /** Everything newly seen is reachable from where the walk started. */
  lemma {:induction false} WalkTypeReaches(c: Catalog, name: TypeName, seen: set<TypeName>, depth: nat, t: TypeName)
    requires WalkType(c, name, seen, depth).Walked? && t in WalkType(c, name, seen, depth).seen && t !in seen
    ensures Reaches(c, name, t)
    decreases depth, if name in c then |c[name].dependencies| + 1 else 0
  {
    WalkAllReaches(c, name, c[name].dependencies, seen, depth, t);
  }

  lemma {:induction false} WalkAllReaches(c: Catalog, name: TypeName, dependencies: seq<TypeName>,
          seen: set<TypeName>, depth: nat, t: TypeName)
    requires depth > 0 && WalkAll(c, dependencies, seen, depth).Walked?
    requires forall d | d in dependencies :: DependsOn(c, name, d)
    requires t in WalkAll(c, dependencies, seen, depth).seen && t !in seen
    ensures Reaches(c, name, t)
    decreases depth, |dependencies|
  {
    if dependencies != [] {
      var d := dependencies[0];
      if d in seen {
        WalkAllReaches(c, name, dependencies[1..], seen, depth, t);
      } else {
        var sub := WalkType(c, d, seen + {d}, depth - 1);
        if t == d {
          ReachesItself(c, d);
          ReachesThrough(c, name, d, t);
        } else if t in sub.seen {
          WalkTypeReaches(c, d, seen + {d}, depth - 1, t);
          ReachesThrough(c, name, d, t);
        } else {
          WalkAllReaches(c, name, dependencies[1..], sub.seen, depth, t);
        }
      }
    }
  }

  lemma {:induction false} ClosedSetHoldsPath(c: Catalog, closed: set<TypeName>, path: seq<TypeName>)
    requires IsPath(c, path) && path[0] in closed
    requires forall a, b | a in closed && DependsOn(c, a, b) :: b in closed
    ensures path[|path| - 1] in closed
    decreases |path|
  {
    if |path| > 1 {
      assert DependsOn(c, path[0], path[1]);
      PathTail(c, path);
      ClosedSetHoldsPath(c, closed, path[1..]);
    }
  }

  /**
   When rendering from `root` succeeds, `seen` is exactly the set of reachable types, the sections
   are exactly those types without the root, each once, and all of them loaded.
   */
  lemma WalkVisitsExactlyTheReachable(c: Catalog, root: TypeName)
    requires WalkType(c, root, {root}, MAX_DEFINITION_DEPTH).Walked?
    ensures
      var walk := WalkType(c, root, {root}, MAX_DEFINITION_DEPTH);
      && (forall t :: t in walk.seen <==> Reaches(c, root, t))
      && (forall t :: t in walk.order <==> Reaches(c, root, t) && t != root)
      && Distinct(walk.order)
      && (forall t | Reaches(c, root, t) :: t in c)
  {
    var walk := WalkType(c, root, {root}, MAX_DEFINITION_DEPTH);
    WalkTypeExtends(c, root, {root}, MAX_DEFINITION_DEPTH);
    forall t | t in walk.seen ensures Reaches(c, root, t) {
      if t == root {
        ReachesItself(c, root);
      } else {
        WalkTypeReaches(c, root, {root}, MAX_DEFINITION_DEPTH, t);
      }
    }
    forall t | Reaches(c, root, t) ensures t in walk.seen {
      var path :| IsPath(c, path) && path[0] == root && path[|path| - 1] == t;
      ClosedSetHoldsPath(c, walk.seen, path);
    }
  }

  // ---------------------------------------------------------------------------
  // When it fails
  // ---------------------------------------------------------------------------

  /** A reference chain from the root, no type twice. */
  ghost predicate IsDistinctChain(c: Catalog, root: TypeName, chain: seq<TypeName>) {
    IsPath(c, chain) && Distinct(chain) && chain[0] == root
  }

  /** A type reachable from the root that does not load, or a chain longer than the depth limit. */
  ghost predicate Obstructed(c: Catalog, root: TypeName) {
    || (exists t :: Reaches(c, root, t) && t !in c)
    || (exists chain :: IsDistinctChain(c, root, chain) && |chain| > MAX_DEFINITION_DEPTH)
  }

  /** `path` holds the types whose definitions are being appended, from the root to `name`. */
  ghost predicate IsStack(c: Catalog, root: TypeName, name: TypeName, path: seq<TypeName>, seen: set<TypeName>,
          depth: nat) {
    && IsDistinctChain(c, root, path) && |path| + depth == MAX_DEFINITION_DEPTH + 1
    && path[|path| - 1] == name
    && forall t | t in path :: t in seen
  }

  lemma PushOnStack(c: Catalog, root: TypeName, name: TypeName, path: seq<TypeName>, seen: set<TypeName>,
          depth: nat, d: TypeName)
    requires 0 < depth <= MAX_DEFINITION_DEPTH && IsStack(c, root, name, path, seen, depth)
    requires DependsOn(c, name, d) && d !in seen
    ensures IsStack(c, root, d, path + [d], seen + {d}, depth - 1)
  {
    var longer := path + [d];
    forall i | 0 <= i < |longer| - 1 ensures DependsOn(c, longer[i], longer[i + 1]) {
      if i < |path| - 1 {
        assert DependsOn(c, path[i], path[i + 1]);
      }
    }
  }

  lemma {:induction false} WalkTypeFails(c: Catalog, root: TypeName, name: TypeName, path: seq<TypeName>,
          seen: set<TypeName>, depth: nat)
    requires depth <= MAX_DEFINITION_DEPTH && WalkType(c, name, seen, depth).Failed?
    requires IsStack(c, root, name, path, seen, depth)
    ensures Obstructed(c, root)
    decreases depth, if name in c then |c[name].dependencies| + 1 else 0
  {
    if depth == 0 {
      assert IsDistinctChain(c, root, path) && |path| > MAX_DEFINITION_DEPTH;
    } else if name !in c {
      assert Reaches(c, root, name);
    } else {
      WalkAllFails(c, root, name, c[name].dependencies, path, seen, depth);
    }
  }

  lemma {:induction false} WalkAllFails(c: Catalog, root: TypeName, name: TypeName, dependencies: seq<TypeName>,
          path: seq<TypeName>, seen: set<TypeName>, depth: nat)
    requires 0 < depth <= MAX_DEFINITION_DEPTH && WalkAll(c, dependencies, seen, depth).Failed?
    requires forall d | d in dependencies :: DependsOn(c, name, d)
    requires IsStack(c, root, name, path, seen, depth)
    ensures Obstructed(c, root)
    decreases depth, |dependencies|
  {
    var d := dependencies[0];
    if d in seen {
      WalkAllFails(c, root, name, dependencies[1..], path, seen, depth);
    } else {
      var sub := WalkType(c, d, seen + {d}, depth - 1);
      if sub.Failed? {
        PushOnStack(c, root, name, path, seen, depth, d);
        WalkTypeFails(c, root, d, path + [d], seen + {d}, depth - 1);
      } else {
        WalkTypeExtends(c, d, seen + {d}, depth - 1);
        WalkAllFails(c, root, name, dependencies[1..], path, sub.seen, depth);
      }
    }
  }

  /**
   The depth limit is hit only along a chain of more than 50 different types: without one, rendering succeeds
   exactly when every reachable type loads, however many types that are.
   */
  lemma DepthLimitNeedsDeepChain(c: Catalog, root: TypeName)
    requires forall chain | IsDistinctChain(c, root, chain) :: |chain| <= 50
    ensures WalkType(c, root, {root}, MAX_DEFINITION_DEPTH).Walked? <==> forall t | Reaches(c, root, t) :: t in c
  {
    if WalkType(c, root, {root}, MAX_DEFINITION_DEPTH).Walked? {
      WalkVisitsExactlyTheReachable(c, root);
    } else {
      assert IsStack(c, root, root, [root], {root}, MAX_DEFINITION_DEPTH);
      WalkTypeFails(c, root, root, [root], {root}, MAX_DEFINITION_DEPTH);
    }
  }

  /** In particular with at most 50 reachable types the limit is never hit. */
  lemma DepthLimitNeedsManyTypes(c: Catalog, root: TypeName, reachable: set<TypeName>)
    requires forall t :: t in reachable <==> Reaches(c, root, t)
    requires |reachable| <= 50
    ensures WalkType(c, root, {root}, MAX_DEFINITION_DEPTH).Walked? <==> forall t | t in reachable :: t in c
  {
    forall chain | IsDistinctChain(c, root, chain) ensures |chain| <= 50 {
      ChainIsReachable(c, root, chain, reachable);
    }
    DepthLimitNeedsDeepChain(c, root);
  }

  lemma ChainIsReachable(c: Catalog, root: TypeName, chain: seq<TypeName>, reachable: set<TypeName>)
    requires IsDistinctChain(c, root, chain) && forall t :: t in reachable <==> Reaches(c, root, t)
    ensures |chain| <= |reachable|
  {
    var types := set t | t in chain;
    forall t | t in types ensures t in reachable {
      var k :| 0 <= k < |chain| && chain[k] == t;
      PathPrefix(c, chain, k + 1);
      assert chain[..k + 1][0] == root && chain[..k + 1][k] == t;
    }
    Spacing.SubsetSize(types, reachable);
    DistinctSize(chain);
  }

  lemma PathPrefix(c: Catalog, path: seq<TypeName>, n: nat)
    requires IsPath(c, path) && 0 < n <= |path|
    ensures IsPath(c, path[..n])
  {
    forall i | 0 <= i < n - 1 ensures DependsOn(c, path[..n][i], path[..n][i + 1]) {
      assert DependsOn(c, path[i], path[i + 1]);
    }
  }

  lemma {:induction false} DistinctSize(types: seq<TypeName>)
    requires Distinct(types)
    ensures |set t | t in types| == |types|
  {
    if types != [] {
      var before, last := types[..|types| - 1], types[|types| - 1];
      DistinctSize(before);
      assert types == before + [last];
      assert (set t | t in types) == (set t | t in before) + {last};
    }
  }

  /** Each type of the chain refers to the next one only, and the last to none. */
  ghost predicate IsLine(c: Catalog, chain: seq<TypeName>) {
    Distinct(chain) && forall i: nat | i < |chain| :: RefersToNext(c, chain, i)
  }

  ghost predicate RefersToNext(c: Catalog, chain: seq<TypeName>, i: nat)
    requires i < |chain|
  {
    chain[i] in c && c[chain[i]].dependencies == if i + 1 < |chain| then [chain[i + 1]] else []
  }

  /** Along a line fifty types render and more do not. */
  lemma LineOfFifty(c: Catalog, chain: seq<TypeName>)
    requires chain != [] && IsLine(c, chain)
    ensures WalkType(c, chain[0], {chain[0]}, MAX_DEFINITION_DEPTH).Walked? <==> |chain| <= 50
  {
    LineNeedsDepth(c, chain, 0, {chain[0]}, MAX_DEFINITION_DEPTH);
  }

  lemma {:induction false} LineNeedsDepth(c: Catalog, chain: seq<TypeName>, i: nat, seen: set<TypeName>, depth: nat)
    requires i < |chain| && IsLine(c, chain) && forall t :: t in seen <==> t in chain[..i + 1]
    ensures WalkType(c, chain[i], seen, depth).Walked? <==> |chain| - i <= depth
    decreases |chain| - i
  {
    assert RefersToNext(c, chain, i);
    if depth > 0 && i + 1 < |chain| {
      var d := chain[i + 1];
      var sub := WalkType(c, d, seen + {d}, depth - 1);
      assert chain[..i + 2] == chain[..i + 1] + [d] && d !in chain[..i + 1];
      LineNeedsDepth(c, chain, i + 1, seen + {d}, depth - 1);
      assert [d][1..] == [];
      assert WalkAll(c, [d], seen, depth).Walked? <==> sub.Walked?;
    } else if depth > 0 {
      assert WalkAll(c, [], seen, depth).Walked?;
    }
  }

  // ---------------------------------------------------------------------------
  // The text and its order
  // ---------------------------------------------------------------------------

  /** A line of eighty equals signs, then the format's label and the type on a line of their own. */
  lemma DelimiterLines(format: Format, name: TypeName)
    ensures
      var d := Delimiter(format, name);
      && |d| == 87 + |name| && (forall i | 0 <= i < 80 :: d[i] == '=')
      && d[80..86] == (match format case Msg => "\nMSG: " case Idl => "\nIDL: ")
      && d[86..86 + |name|] == name && d[86 + |name|] == '\n'
  {
  }

  /** From `at` to `end` the text is the section of a type: a delimiter on a new line, then its definition. */
  ghost predicate SectionAt(c: Catalog, format: Format, text: string, at: nat, end: nat, name: TypeName) {
    && name in c && at <= end <= |text|
    && text[at..end] == "\n" + Delimiter(format, name) + c[name].text
  }

  /** Cut at `cuts`, the text is the root's definition and then one section for each type of the order. */
  ghost predicate IsCut(c: Catalog, format: Format, root: string, text: string, order: seq<TypeName>, cuts: seq<nat>) {
    && |cuts| == |order| + 1 && cuts[0] == |root| <= |text| && text[..|root|] == root
    && cuts[|order|] == |text|
    && forall k, l | 0 <= k < |order| && l == k + 1 :: SectionAt(c, format, text, cuts[k], cuts[l], order[k])
  }

  lemma {:induction false} SectionsCut(c: Catalog, format: Format, root: string, order: seq<TypeName>)
    returns (cuts: seq<nat>)
    requires forall t | t in order :: t in c
    ensures IsCut(c, format, root, root + Sections(c, format, order), order, cuts)
  {
    if order == [] {
      cuts := [|root|];
      assert root + "" == root;
    } else {
      var before, last := order[..|order| - 1], order[|order| - 1];
      var shorter := SectionsCut(c, format, root, before);
      cuts := shorter + [|root + Sections(c, format, order)|];
      assert last in order && order == before + [last];
      LastSection(c, format, root, before, last);
      CutOneMore(c, format, root, before, last, shorter, cuts, root + Sections(c, format, before),
                 root + Sections(c, format, order));
    }
  }

  lemma LastSection(c: Catalog, format: Format, root: string, before: seq<TypeName>, last: TypeName)
    requires last in c
    ensures root + Sections(c, format, before + [last]) ==
            (root + Sections(c, format, before)) + ("\n" + Delimiter(format, last) + c[last].text)
  {
    SectionsAppend(c, format, before, [last]);
    assert [last][1..] == [];
    Associative(root, Sections(c, format, before), Section(c, format, last));
    assert Section(c, format, last) + "" == Section(c, format, last);
  }

  lemma CutOneMore(c: Catalog, format: Format, root: string, before: seq<TypeName>, last: TypeName,
          shorter: seq<nat>, cuts: seq<nat>, less: string, text: string)
    requires last in c && IsCut(c, format, root, less, before, shorter)
    requires text == less + ("\n" + Delimiter(format, last) + c[last].text) && cuts == shorter + [|text|]
    ensures IsCut(c, format, root, text, before + [last], cuts)
  {
    var order := before + [last];
    forall k, l | 0 <= k < |order| && l == k + 1
      ensures SectionAt(c, format, text, cuts[k], cuts[l], order[k])
    {
      if l < |order| {
        assert SectionAt(c, format, less, shorter[k], shorter[l], before[k]);
        assert text[cuts[k]..cuts[l]] == less[shorter[k]..shorter[l]];
      }
    }
  }

  /**
   What is rendered for a root type can be cut into its own definition and the sections of the types it reaches,
   each once.
   */
  lemma RenderedIsCut(c: Catalog, format: Format, root: TypeName) returns (order: seq<TypeName>, cuts: seq<nat>)
    requires Rendered(c, format, root).Some?
    ensures root in c && IsCut(c, format, c[root].text, Rendered(c, format, root).value, order, cuts)
    ensures Distinct(order) && forall t :: t in order <==> Reaches(c, root, t) && t != root
    ensures forall k | 0 <= k < |order| :: IsNext(c, [root] + order[..k], order[k])
  {
    var walk := WalkType(c, root, {root}, MAX_DEFINITION_DEPTH);
    WalkVisitsExactlyTheReachable(c, root);
    order := walk.order;
    cuts := SectionsCut(c, format, c[root].text, order);
    WalkTypeDepthFirst(c, root, {root}, MAX_DEFINITION_DEPTH);
    forall k | 0 <= k < |order| ensures IsNext(c, [root] + order[..k], order[k]) {
      assert FollowsAt(c, [root], {root}, order, k);
      assert Members([root] + order[..k]) == {root} + Members(order[..k]);
    }
  }

  ghost function Members(types: seq<TypeName>): set<TypeName> {
    set t | t in types
  }

  function FirstUnseen(dependencies: seq<TypeName>, seen: set<TypeName>): Option<TypeName> {
    if dependencies == [] then None
    else if dependencies[0] in seen then FirstUnseen(dependencies[1..], seen)
    else Some(dependencies[0])
  }

  /** `next` is the first unseen dependency of the latest type that still has one. */
  ghost predicate Follows(c: Catalog, history: seq<TypeName>, seen: set<TypeName>, next: TypeName) {
    exists m :: 0 <= m < |history| && IsLatest(c, history, seen, next, m)
  }

  ghost predicate IsLatest(c: Catalog, history: seq<TypeName>, seen: set<TypeName>, next: TypeName, m: int)
    requires 0 <= m < |history|
  {
    && history[m] in c && FirstUnseen(c[history[m]].dependencies, seen) == Some(next)
    && forall l | m < l < |history| :: NothingUnseen(c, history[l], seen)
  }

  ghost predicate NothingUnseen(c: Catalog, t: TypeName, seen: set<TypeName>) {
    t in c && forall d | d in c[t].dependencies :: d in seen
  }

  /**
   Depth first: of the types so far, in order, the next section belongs to the first dependency that has none yet
   of the latest type with such a dependency.
   */
  ghost predicate IsNext(c: Catalog, history: seq<TypeName>, next: TypeName) {
    Follows(c, history, Members(history), next)
  }

  lemma {:induction false} FirstUnseenAt(dependencies: seq<TypeName>, i: nat, seen: set<TypeName>)
    requires i < |dependencies| && dependencies[i] !in seen
    requires forall j | 0 <= j < i :: dependencies[j] in seen
    ensures FirstUnseen(dependencies, seen) == Some(dependencies[i])
  {
    if i > 0 {
      FirstUnseenAt(dependencies[1..], i - 1, seen);
    }
  }

  lemma FollowsBehind(c: Catalog, front: seq<TypeName>, history: seq<TypeName>, seen: set<TypeName>, next: TypeName)
    requires Follows(c, history, seen, next)
    ensures Follows(c, front + history, seen, next)
  {
    var m :| 0 <= m < |history| && IsLatest(c, history, seen, next, m);
    assert IsLatest(c, front + history, seen, next, |front| + m);
  }

  /** Every type of the walk follows what came before it, after `name` and the finished types in `done`. */
  ghost predicate WalksOn(c: Catalog, history: seq<TypeName>, seen: set<TypeName>, order: seq<TypeName>) {
    forall k: nat | k < |order| :: FollowsAt(c, history, seen, order, k)
  }

  lemma {:induction false} WalkTypeDepthFirst(c: Catalog, name: TypeName, seen: set<TypeName>, depth: nat)
    requires WalkType(c, name, seen, depth).Walked?
    ensures WalksOn(c, [name], seen, WalkType(c, name, seen, depth).order)
    decreases depth, if name in c then |c[name].dependencies| + 1 else 0
  {
    var dependencies := c[name].dependencies;
    assert dependencies[0..] == dependencies && [name] + [] == [name];
    WalkAllDepthFirst(c, name, [], 0, seen, depth);
  }

  lemma {:induction false} WalkAllDepthFirst(c: Catalog, name: TypeName, done: seq<TypeName>, i: nat,
          seen: set<TypeName>, depth: nat)
    requires depth > 0 && name in c && i <= |c[name].dependencies|
    requires WalkAll(c, c[name].dependencies[i..], seen, depth).Walked?
    requires forall j | 0 <= j < i :: c[name].dependencies[j] in seen
    requires forall t | t in done :: NothingUnseen(c, t, seen)
    ensures WalksOn(c, [name] + done, seen, WalkAll(c, c[name].dependencies[i..], seen, depth).order)
    decreases depth, |c[name].dependencies| - i
  {
    if i < |c[name].dependencies| {
      var d := c[name].dependencies[i];
      assert c[name].dependencies[i..][0] == d && c[name].dependencies[i..][1..] == c[name].dependencies[i + 1..];
      if d in seen {
        WalkAllDepthFirst(c, name, done, i + 1, seen, depth);
      } else {
        var sub := WalkType(c, d, seen + {d}, depth - 1);
        SectionFinished(c, d, seen, depth, done);
        WalkTypeDepthFirst(c, d, seen + {d}, depth - 1);
        WalkAllDepthFirst(c, name, done + ([d] + sub.order), i + 1, sub.seen, depth);
        FirstFollows(c, name, done, i, seen);
        var rest := WalkAll(c, c[name].dependencies[i + 1..], sub.seen, depth).order;
        assert [name] + (done + ([d] + sub.order)) == ([name] + done) + ([d] + sub.order);
        JoinWalks(c, [name] + done, seen, d, sub, rest);
      }
    }
  }

  /** When the walk of a dependency is over, nothing of what it appended refers to anything unseen. */
  lemma SectionFinished(c: Catalog, d: TypeName, seen: set<TypeName>, depth: nat, done: seq<TypeName>)
    requires depth > 0 && WalkType(c, d, seen + {d}, depth - 1).Walked?
    requires forall t | t in done :: NothingUnseen(c, t, seen)
    ensures
      var sub := WalkType(c, d, seen + {d}, depth - 1);
      && seen <= sub.seen && d in sub.seen && Members(sub.order) + seen + {d} == sub.seen
      && forall t | t in done + ([d] + sub.order) :: NothingUnseen(c, t, sub.seen)
  {
    WalkTypeExtends(c, d, seen + {d}, depth - 1);
    var sub := WalkType(c, d, seen + {d}, depth - 1);
    forall t | t in done + ([d] + sub.order) ensures NothingUnseen(c, t, sub.seen) {
      assert t in done || t == d || t in sub.order;
    }
  }

  lemma FirstFollows(c: Catalog, name: TypeName, done: seq<TypeName>, i: nat, seen: set<TypeName>)
    requires name in c && i < |c[name].dependencies| && c[name].dependencies[i] !in seen
    requires forall j | 0 <= j < i :: c[name].dependencies[j] in seen
    requires forall t | t in done :: NothingUnseen(c, t, seen)
    ensures Follows(c, [name] + done, seen, c[name].dependencies[i])
  {
    FirstUnseenAt(c[name].dependencies, i, seen);
    assert IsLatest(c, [name] + done, seen, c[name].dependencies[i], 0);
  }

  /** Position k of a walk, with what came before it spelled out. */
  ghost predicate FollowsAt(c: Catalog, history: seq<TypeName>, seen: set<TypeName>, order: seq<TypeName>, k: nat)
    requires k < |order|
  {
    Follows(c, history + order[..k], seen + Members(order[..k]), order[k])
  }

  lemma InSection(c: Catalog, history: seq<TypeName>, seen: set<TypeName>, d: TypeName, order: seq<TypeName>, k: nat)
    requires k < |order| && FollowsAt(c, [d], seen + {d}, order, k)
    ensures FollowsAt(c, history, seen, [d] + order, k + 1)
  {
    var section := [d] + order;
    assert section[..k + 1] == [d] + order[..k];
    assert seen + Members(section[..k + 1]) == seen + {d} + Members(order[..k]);
    FollowsBehind(c, history, section[..k + 1], seen + Members(section[..k + 1]), section[k + 1]);
  }

  lemma AfterSection(c: Catalog, history: seq<TypeName>, seen: set<TypeName>, section: seq<TypeName>,
          rest: seq<TypeName>, k: nat)
    requires k < |rest| && FollowsAt(c, history + section, seen + Members(section), rest, k)
    ensures FollowsAt(c, history, seen, section + rest, |section| + k)
  {
    var order := section + rest;
    assert order[..|section| + k] == section + rest[..k];
    assert history + (section + rest[..k]) == history + section + rest[..k];
    assert seen + Members(section + rest[..k]) == seen + Members(section) + Members(rest[..k]);
  }

  lemma JoinWalks(c: Catalog, history: seq<TypeName>, seen: set<TypeName>, d: TypeName, sub: Walk,
          rest: seq<TypeName>)
    requires sub.Walked? && Follows(c, history, seen, d) && WalksOn(c, [d], seen + {d}, sub.order)
    requires Members(sub.order) + seen + {d} == sub.seen
    requires WalksOn(c, history + ([d] + sub.order), sub.seen, rest)
    ensures WalksOn(c, history, seen, [d] + sub.order + rest)
  {
    var section := [d] + sub.order;
    var order := section + rest;
    assert seen + Members(section) == sub.seen;
    forall k: nat | k < |order| ensures FollowsAt(c, history, seen, order, k) {
      if k == 0 {
        assert history + order[..0] == history && seen + Members(order[..0]) == seen;
      } else if k < |section| {
        assert FollowsAt(c, [d], seen + {d}, sub.order, k - 1);
        InSection(c, history, seen, d, sub.order, k - 1);
        assert order[..k] == section[..k];
      } else {
        assert FollowsAt(c, history + section, sub.seen, rest, k - |section|);
        AfterSection(c, history, seen, section, rest, k - |section|);
      }
    }
  }
}
