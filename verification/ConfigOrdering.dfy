/**
 The config generator's ordering of object definitions: each parser is emitted after the parsers
 it depends on, or generation fails on a cycle.
 */
module ConfigOrdering {

  type Name = string

  datatype TypeInfo = Scalar | Object(refName: Name) | Array(item: TypeInfo)

  datatype ObjectSpec = ObjectSpec(schemaName: Name, fields: seq<TypeInfo>)

  /** What one field contributes: a direct object reference or an array of objects. */
  function FieldDependency(t: TypeInfo): set<Name> {
    if t.Object? && t.refName != "" then {t.refName}
    else if t.Array? && t.item.Object? && t.item.refName != "" then {t.item.refName}
    else {}
  }

  function FieldDependencies(fields: seq<TypeInfo>): set<Name> {
    if fields == [] then {} else FieldDependency(fields[0]) + FieldDependencies(fields[1..])
  }

  function ObjectDependencies(spec: ObjectSpec): set<Name> {
    FieldDependencies(spec.fields) - {spec.schemaName}
  }

  method CollectObjectDependencies(spec: ObjectSpec) returns (dependencies: set<Name>)
    ensures dependencies == ObjectDependencies(spec)
  {
    dependencies := {};
    var i := 0;
    while i < |spec.fields|
      invariant 0 <= i <= |spec.fields|
      invariant dependencies + FieldDependencies(spec.fields[i..]) == FieldDependencies(spec.fields)
    {
      var t := spec.fields[i];
      assert spec.fields[i..][1..] == spec.fields[i + 1..];
      if t.Object? && t.refName != "" {
        dependencies := dependencies + {t.refName};
      }
      if t.Array? && t.item.Object? && t.item.refName != "" {
        dependencies := dependencies + {t.item.refName};
      }
      i := i + 1;
    }
    dependencies := dependencies - {spec.schemaName};
  }

  function NamesOf(specs: seq<ObjectSpec>): set<Name> {
    set spec | spec in specs :: spec.schemaName
  }

  ghost predicate DistinctNames(specs: seq<ObjectSpec>) {
    forall i, j | 0 <= i < j < |specs| :: specs[i].schemaName != specs[j].schemaName
  }

  /** Every reference names one of the definitions. */
  ghost predicate Closed(specs: seq<ObjectSpec>) {
    forall spec | spec in specs :: ObjectDependencies(spec) <= NamesOf(specs)
  }

  ghost predicate DependenciesFirst(order: seq<ObjectSpec>) {
    forall i | 0 <= i < |order| :: ObjectDependencies(order[i]) <= NamesOf(order[..i])
  }

  ghost predicate DependsOn(specs: seq<ObjectSpec>, a: Name, b: Name) {
    exists spec :: spec in specs && spec.schemaName == a && b in ObjectDependencies(spec)
  }

  ghost predicate IsChain(specs: seq<ObjectSpec>, path: seq<Name>) {
    path != [] && forall k, l | 0 <= k < |path| && l == k + 1 < |path| :: DependsOn(specs, path[k], path[l])
  }

  ghost predicate HasCycle(specs: seq<ObjectSpec>) {
    exists path :: IsChain(specs, path) && |path| > 1 && path[0] == path[|path| - 1]
  }

  datatype Ordering = Ordered(specs: seq<ObjectSpec>) | Cyclic(pending: seq<ObjectSpec>)

  /** Every definition is emitted, kept for the next pass, or still to be looked at. */
  ghost predicate Splits(specs: seq<ObjectSpec>, order: seq<ObjectSpec>, kept: seq<ObjectSpec>,
          rest: seq<ObjectSpec>) {
    multiset(order) + multiset(kept) + multiset(rest) == multiset(specs)
  }

  lemma SplitsNext(specs: seq<ObjectSpec>, order: seq<ObjectSpec>, kept: seq<ObjectSpec>, items: seq<ObjectSpec>,
          i: nat)
    requires i < |items| && Splits(specs, order, kept, items[i..])
    ensures Splits(specs, order + [items[i]], kept, items[i + 1..])
    ensures Splits(specs, order, kept + [items[i]], items[i + 1..])
  {
    assert items[i..] == [items[i]] + items[i + 1..];
  }

  ghost predicate Waits(spec: ObjectSpec, emitted: set<Name>) {
    !(ObjectDependencies(spec) <= emitted)
  }

  /** What a pass has done once it has looked at the first i pending definitions. */
  ghost predicate Passed(specs: seq<ObjectSpec>, pending: seq<ObjectSpec>, order: seq<ObjectSpec>, i: nat,
          order': seq<ObjectSpec>, kept: seq<ObjectSpec>)
    requires i <= |pending|
  {
    && DependenciesFirst(order') && Splits(specs, order', kept, pending[i..])
    && NothingEmitted(order, i, order', kept)
    && TakenInOrder(order, pending, i, order', kept)
  }

  /** If all were kept, they are waiting. */
  ghost predicate NothingEmitted(order: seq<ObjectSpec>, i: nat, order': seq<ObjectSpec>, kept: seq<ObjectSpec>) {
    |kept| <= i && (|kept| == i ==> order' == order && forall spec | spec in kept :: Waits(spec, NamesOf(order)))
  }

  lemma EmitStep(specs: seq<ObjectSpec>, pending: seq<ObjectSpec>, order: seq<ObjectSpec>, i: nat,
          order': seq<ObjectSpec>, kept: seq<ObjectSpec>)
    requires i < |pending| && Passed(specs, pending, order, i, order', kept)
    requires ObjectDependencies(pending[i]) <= NamesOf(order')
    ensures Passed(specs, pending, order, i + 1, order' + [pending[i]], kept)
  {
    SplitsNext(specs, order', kept, pending, i);
    NextInOrder(order, pending, i, order', kept);
    EmitKeepsOrder(order', pending[i]);
  }

  lemma KeepStep(specs: seq<ObjectSpec>, pending: seq<ObjectSpec>, order: seq<ObjectSpec>, i: nat,
          order': seq<ObjectSpec>, kept: seq<ObjectSpec>)
    requires i < |pending| && Passed(specs, pending, order, i, order', kept)
    requires !(ObjectDependencies(pending[i]) <= NamesOf(order'))
    ensures Passed(specs, pending, order, i + 1, order', kept + [pending[i]])
  {
    SplitsNext(specs, order', kept, pending, i);
    NextInOrder(order, pending, i, order', kept);
  }

  /** One pass over the pending definitions: emit each whose dependencies are all emitted by then. */
  method EmitReady(ghost specs: seq<ObjectSpec>, pending: seq<ObjectSpec>, order: seq<ObjectSpec>)
    returns (order': seq<ObjectSpec>, kept: seq<ObjectSpec>)
    requires DependenciesFirst(order) && Splits(specs, order, [], pending)
    ensures DependenciesFirst(order') && Splits(specs, order', [], kept)
    ensures NothingEmitted(order, |pending|, order', kept)
    ensures TakenInOrder(order, pending, |pending|, order', kept)
  {
    order', kept := order, [];
    var emitted := NamesOf(order);
    var i := 0;
    assert pending[0..] == pending && order + pending[..0] == order;
    while i < |pending|
      invariant 0 <= i <= |pending|
      invariant emitted == NamesOf(order')
      invariant Passed(specs, pending, order, i, order', kept)
    {
      var dependencies := CollectObjectDependencies(pending[i]);
      if dependencies <= emitted {
        EmitStep(specs, pending, order, i, order', kept);
        NamesGrow(order', pending[i]);
        order' := order' + [pending[i]];
        emitted := emitted + {pending[i].schemaName};
      } else {
        KeepStep(specs, pending, order, i, order', kept);
        kept := kept + [pending[i]];
      }
      i := i + 1;
    }
  }

  lemma NamesGrow(order: seq<ObjectSpec>, spec: ObjectSpec)
    ensures NamesOf(order + [spec]) == NamesOf(order) + {spec.schemaName}
  {
    assert forall s :: s in order + [spec] <==> s in order || s == spec;
    assert spec in order + [spec];
  }

  /**
   Success yields a permutation of the definitions with every definition after all its dependencies;
   failure means exactly that the dependencies have a cycle or name something that is not among the
   definitions; definitions that already follow their dependencies keep their order.
   */
  ghost predicate IsAnswer(specs: seq<ObjectSpec>, result: Ordering) {
    && (result.Ordered? ==> multiset(result.specs) == multiset(specs) && DependenciesFirst(result.specs))
    && (result.Cyclic? <==> HasCycle(specs) || !Closed(specs))
    && (DependenciesFirst(specs) ==> result == Ordered(specs))
  }

  lemma SuccessIsAnswer(specs: seq<ObjectSpec>, order: seq<ObjectSpec>)
    requires DistinctNames(specs) && DependenciesFirst(order) && Splits(specs, order, [], [])
    requires DependenciesFirst(specs) ==> order == specs
    ensures IsAnswer(specs, Ordered(order))
  {
    assert multiset(order) == multiset(specs);
    OrderedHasNoCycle(specs, order);
    OrderedIsClosed(specs, order);
  }

  lemma FailureIsAnswer(specs: seq<ObjectSpec>, order: seq<ObjectSpec>, pending: seq<ObjectSpec>)
    requires pending != [] && Splits(specs, order, [], pending) && !DependenciesFirst(specs)
    requires forall spec | spec in pending :: Waits(spec, NamesOf(order))
    ensures IsAnswer(specs, Cyclic(pending))
  {
    if Closed(specs) {
      StuckHasCycle(specs, order, pending);
    }
  }

  /** The ordering loop. */
  method OrderObjectSpecs(specs: seq<ObjectSpec>) returns (result: Ordering)
    requires DistinctNames(specs)
    ensures IsAnswer(specs, result)
  {
    var pending := specs;
    var order: seq<ObjectSpec> := [];
    assert order + pending == specs;
    while pending != []
      invariant DependenciesFirst(order)
      invariant Splits(specs, order, [], pending)
      invariant DependenciesFirst(specs) ==> order + pending == specs
      decreases |pending|
    {
      var before := |pending|;
      var order', kept := EmitReady(specs, pending, order);
      assert pending[..|pending|] == pending && order' + [] == order';
      order, pending := order', kept;
      if |pending| == before {
        FailureIsAnswer(specs, order, pending);
        return Cyclic(pending);
      }
    }
    assert order + [] == order;
    SuccessIsAnswer(specs, order);
    return Ordered(order);
  }

  lemma OrderedIsClosed(specs: seq<ObjectSpec>, order: seq<ObjectSpec>)
    requires multiset(order) == multiset(specs) && DependenciesFirst(order)
    ensures Closed(specs)
  {
    forall spec | spec in specs ensures ObjectDependencies(spec) <= NamesOf(specs) {
      assert spec in multiset(order);
      var i :| 0 <= i < |order| && order[i] == spec;
      forall name | name in NamesOf(order[..i]) ensures name in NamesOf(specs) {
        var other :| other in order[..i] && other.schemaName == name;
        assert other in multiset(order) && other in multiset(specs);
      }
    }
  }

  /** Definitions that already follow their dependencies are taken as they come. */
  ghost predicate TakenInOrder(order: seq<ObjectSpec>, pending: seq<ObjectSpec>, i: nat, order': seq<ObjectSpec>,
          kept: seq<ObjectSpec>)
    requires i <= |pending|
  {
    DependenciesFirst(order + pending) ==> order' == order + pending[..i] && kept == []
  }

  lemma NextInOrder(order: seq<ObjectSpec>, pending: seq<ObjectSpec>, i: nat, order': seq<ObjectSpec>,
          kept: seq<ObjectSpec>)
    requires i < |pending| && TakenInOrder(order, pending, i, order', kept)
    ensures ObjectDependencies(pending[i]) <= NamesOf(order') ==>
              TakenInOrder(order, pending, i + 1, order' + [pending[i]], kept)
    ensures !(ObjectDependencies(pending[i]) <= NamesOf(order')) ==>
              TakenInOrder(order, pending, i + 1, order', kept + [pending[i]])
  {
    var whole := order + pending;
    assert whole[|order| + i] == pending[i] && whole[..|order| + i] == order + pending[..i];
    assert order + pending[..i + 1] == order + pending[..i] + [pending[i]];
  }

  lemma EmitKeepsOrder(order: seq<ObjectSpec>, spec: ObjectSpec)
    requires DependenciesFirst(order) && ObjectDependencies(spec) <= NamesOf(order)
    ensures DependenciesFirst(order + [spec]) && NamesOf(order + [spec]) == NamesOf(order) + {spec.schemaName}
  {
    var longer := order + [spec];
    forall i | 0 <= i < |longer| ensures ObjectDependencies(longer[i]) <= NamesOf(longer[..i]) {
      assert longer[..i] == if i < |order| then order[..i] else order;
    }
    assert forall s :: s in longer <==> s in order || s == spec;
    assert spec in longer;
  }

  ghost predicate HasSuccessor(specs: seq<ObjectSpec>, names: set<Name>, a: Name) {
    exists b :: b in names && DependsOn(specs, a, b)
  }

  lemma SplitMembers(specs: seq<ObjectSpec>, order: seq<ObjectSpec>, pending: seq<ObjectSpec>, spec: ObjectSpec)
    requires Splits(specs, order, pending, [])
    ensures spec in specs <==> spec in order || spec in pending
  {
    assert spec in specs <==> spec in multiset(specs);
    assert spec in order <==> spec in multiset(order);
    assert spec in pending <==> spec in multiset(pending);
  }

  /** Definitions that all wait for each other contain a cycle. */
  lemma StuckHasCycle(specs: seq<ObjectSpec>, order: seq<ObjectSpec>, pending: seq<ObjectSpec>)
    requires Closed(specs) && pending != []
    requires Splits(specs, order, pending, [])
    requires forall spec | spec in pending :: Waits(spec, NamesOf(order))
    ensures HasCycle(specs)
  {
    var names := NamesOf(pending);
    forall a | a in names ensures HasSuccessor(specs, names, a) {
      var spec :| spec in pending && spec.schemaName == a;
      WaitingHasSuccessor(specs, order, pending, spec);
    }
    assert pending[0] in pending && pending[0].schemaName in names;
    FollowUntilRepeat(specs, names, [pending[0].schemaName], names);
  }

  lemma WaitingHasSuccessor(specs: seq<ObjectSpec>, order: seq<ObjectSpec>, pending: seq<ObjectSpec>,
          spec: ObjectSpec)
    requires Closed(specs) && Splits(specs, order, pending, [])
    requires spec in pending && Waits(spec, NamesOf(order))
    ensures HasSuccessor(specs, NamesOf(pending), spec.schemaName)
  {
    SplitMembers(specs, order, pending, spec);
    var b :| b in ObjectDependencies(spec) && b !in NamesOf(order);
    assert b in NamesOf(specs);
    var other :| other in specs && other.schemaName == b;
    SplitMembers(specs, order, pending, other);
    assert DependsOn(specs, spec.schemaName, b);
  }

  lemma ChainSuffix(specs: seq<ObjectSpec>, path: seq<Name>, k: nat)
    requires IsChain(specs, path) && k < |path|
    ensures IsChain(specs, path[k..])
  {
    forall i, j | 0 <= i < |path[k..]| && j == i + 1 < |path[k..]| ensures DependsOn(specs, path[k..][i],
        path[k..][j]) {
      var a, b := i + k, j + k;
      assert DependsOn(specs, path[a], path[b]);
    }
  }

  ghost function VisitedNames(path: seq<Name>): set<Name> {
    set a | a in path
  }

  lemma VisitedStep(path: seq<Name>, next: Name)
    ensures VisitedNames(path + [next]) == VisitedNames(path) + {next}
  {
    assert next in path + [next];
  }

  /** Following successors inside a finite set must come back to a name already on the path. */
  lemma {:induction false} FollowUntilRepeat(specs: seq<ObjectSpec>, names: set<Name>, path: seq<Name>,
          ahead: set<Name>)
    requires IsChain(specs, path) && path[|path| - 1] in names
    requires names <= VisitedNames(path) + ahead
    requires forall a {:trigger HasSuccessor(specs, names, a)} | a in names :: HasSuccessor(specs, names, a)
    ensures HasCycle(specs)
    decreases ahead
  {
    var last := path[|path| - 1];
    assert HasSuccessor(specs, names, last);
    var next :| next in names && DependsOn(specs, last, next);
    ChainStep(specs, path, next);
    VisitedStep(path, next);
    if next in VisitedNames(path) {
      var k :| 0 <= k < |path| && path[k] == next;
      CloseCycle(specs, path + [next], k);
    } else {
      FollowUntilRepeat(specs, names, path + [next], ahead - {next});
    }
  }

  lemma ChainStep(specs: seq<ObjectSpec>, path: seq<Name>, next: Name)
    requires IsChain(specs, path) && DependsOn(specs, path[|path| - 1], next)
    ensures IsChain(specs, path + [next])
  {
  }

  lemma CloseCycle(specs: seq<ObjectSpec>, path: seq<Name>, k: nat)
    requires IsChain(specs, path) && k < |path| - 1 && path[k] == path[|path| - 1]
    ensures HasCycle(specs)
  {
    ChainSuffix(specs, path, k);
    assert path[k..][0] == path[k..][|path| - k - 1];
  }

  lemma {:induction false} ChainGoesBack(specs: seq<ObjectSpec>, order: seq<ObjectSpec>, path: seq<Name>,
          i: nat) returns (j: nat)
    requires DependenciesFirst(order) && DistinctNames(order) && IsChain(specs, path)
    requires forall spec | spec in specs :: spec in order
    requires i < |order| && order[i].schemaName == path[0]
    ensures j <= i && order[j].schemaName == path[|path| - 1] && (|path| > 1 ==> j < i)
    decreases |path|
  {
    if |path| == 1 {
      return i;
    }
    var zero, one := 0, 1;
    assert DependsOn(specs, path[zero], path[one]);
    var spec :| spec in specs && spec.schemaName == path[0] && path[1] in ObjectDependencies(spec);
    assert spec == order[i];
    assert path[1] in NamesOf(order[..i]);
    var k :| 0 <= k < i && order[..i][k].schemaName == path[1];
    ChainSuffix(specs, path, 1);
    j := ChainGoesBack(specs, order, path[1..], k);
  }

  lemma PermutationKeepsNames(specs: seq<ObjectSpec>, order: seq<ObjectSpec>)
    requires DistinctNames(specs) && multiset(order) == multiset(specs)
    ensures DistinctNames(order) && forall spec | spec in specs :: spec in order
  {
    forall spec | spec in specs ensures spec in order && multiset(specs)[spec] == 1 {
      assert spec in multiset(specs);
      OccursOnce(specs, spec);
    }
    forall i, j | 0 <= i < j < |order| ensures order[i].schemaName != order[j].schemaName {
      assert order[i] in multiset(order) && order[j] in multiset(order);
      if order[i] == order[j] {
        OccursTwice(order, i, j);
        assert false;
      }
      var a :| 0 <= a < |specs| && specs[a] == order[i];
      var b :| 0 <= b < |specs| && specs[b] == order[j];
    }
  }

  lemma OccursTwice(order: seq<ObjectSpec>, i: nat, j: nat)
    requires i < j < |order| && order[i] == order[j]
    ensures multiset(order)[order[i]] >= 2
  {
    assert order == order[..i] + [order[i]] + order[i + 1..j] + [order[j]] + order[j + 1..];
  }

  lemma OccursOnce(specs: seq<ObjectSpec>, spec: ObjectSpec)
    requires DistinctNames(specs) && spec in specs
    ensures multiset(specs)[spec] == 1
  {
    var i :| 0 <= i < |specs| && specs[i] == spec;
    assert specs == specs[..i] + [spec] + specs[i + 1..];
    assert spec !in specs[..i] && spec !in specs[i + 1..];
  }

  /** A dependencies-first permutation excludes cycles. */
  lemma OrderedHasNoCycle(specs: seq<ObjectSpec>, order: seq<ObjectSpec>)
    requires DistinctNames(specs) && multiset(order) == multiset(specs) && DependenciesFirst(order)
    ensures !HasCycle(specs)
  {
    PermutationKeepsNames(specs, order);
    if HasCycle(specs) {
      var path :| IsChain(specs, path) && |path| > 1 && path[0] == path[|path| - 1];
      var zero, one := 0, 1;
      assert DependsOn(specs, path[zero], path[one]);
      var spec :| spec in specs && spec.schemaName == path[0];
      var i :| 0 <= i < |order| && order[i] == spec;
      var j := ChainGoesBack(specs, order, path, i);
      assert false;
    }
  }

  // ---------------------------------------------------------------------------
  // Which references count as dependencies
  // ---------------------------------------------------------------------------

  /** Every object a type mentions, at any array depth. */
  function Mentions(t: TypeInfo): set<Name> {
    match t
    case Scalar => {}
    case Object(name) => if name == "" then {} else {name}
    case Array(item) => Mentions(item)
  }

  ghost function AllMentions(spec: ObjectSpec): set<Name> {
    set t, name | t in spec.fields && name in Mentions(t) :: name
  }

  /** Objects mentioned inside an array of arrays. */
  ghost function NestedArrayMentions(spec: ObjectSpec): set<Name> {
    set t, name | t in spec.fields && t.Array? && t.item.Array? && name in Mentions(t) :: name
  }

  lemma {:induction false} FieldDependenciesMembers(fields: seq<TypeInfo>, name: Name)
    ensures name in FieldDependencies(fields) <==> exists t :: t in fields && name in FieldDependency(t)
  {
    if fields != [] {
      FieldDependenciesMembers(fields[1..], name);
      assert forall t :: t in fields <==> t == fields[0] || t in fields[1..];
    }
  }

  /**
   Every object inside an array of arrays is the definition itself, or also the type of a field or of an array
   field.
   */
  ghost predicate NothingHidden(spec: ObjectSpec) {
    forall name | name in NestedArrayMentions(spec) ::
      name == spec.schemaName || Object(name) in spec.fields || Array(Object(name)) in spec.fields
  }

  lemma DirectDependencies(spec: ObjectSpec, name: Name)
    requires name != ""
    ensures name in FieldDependencies(spec.fields) <==>
        Object(name) in spec.fields || Array(Object(name)) in spec.fields
  {
    FieldDependenciesMembers(spec.fields, name);
  }

  lemma MentionedSomewhere(spec: ObjectSpec, name: Name)
    requires name in AllMentions(spec)
    ensures name != ""
    ensures Object(name) in spec.fields || Array(Object(name)) in spec.fields || name in NestedArrayMentions(spec)
  {
    var t :| t in spec.fields && name in Mentions(t);
    MentionsNoEmptyName(t, name);
    if t.Array? && !t.item.Array? {
      assert Mentions(t) == Mentions(t.item);
      assert t == Array(Object(name));
    }
  }

  lemma {:induction false} MentionsNoEmptyName(t: TypeInfo, name: Name)
    requires name in Mentions(t)
    ensures name != ""
  {
    if t.Array? {
      MentionsNoEmptyName(t.item, name);
    }
  }

  lemma DependenciesAreMentioned(spec: ObjectSpec)
    ensures ObjectDependencies(spec) <= AllMentions(spec)
  {
    forall name | name in FieldDependencies(spec.fields) ensures name in AllMentions(spec) {
      FieldDependenciesMembers(spec.fields, name);
      var t :| t in spec.fields && name in FieldDependency(t);
      assert t.Array? ==> Mentions(t) == Mentions(t.item);
      assert name in Mentions(t);
    }
  }

  /**
   Only one array level is looked through: the dependencies are all objects the definition mentions
   besides itself exactly when no object is hidden in an array of arrays.
   */
  lemma DependenciesAreAllMentions(spec: ObjectSpec)
    ensures ObjectDependencies(spec) == AllMentions(spec) - {spec.schemaName} <==> NothingHidden(spec)
  {
    DependenciesAreMentioned(spec);
    if NothingHidden(spec) {
      forall name | name in AllMentions(spec) - {spec.schemaName} ensures name in ObjectDependencies(spec) {
        MentionedSomewhere(spec, name);
        DirectDependencies(spec, name);
      }
    } else {
      var name :| name in NestedArrayMentions(spec)
        && !(name == spec.schemaName || Object(name) in spec.fields || Array(Object(name)) in spec.fields);
      var t :| t in spec.fields && t.Array? && t.item.Array? && name in Mentions(t);
      assert name in AllMentions(spec) - {spec.schemaName};
      MentionedSomewhere(spec, name);
      DirectDependencies(spec, name);
      assert name !in ObjectDependencies(spec);
    }
  }

  lemma NestedArrayIsMissed()
    ensures ObjectDependencies(ObjectSpec("A", [Array(Array(Object("B")))])) == {}
    ensures "B" in AllMentions(ObjectSpec("A", [Array(Array(Object("B")))]))
  {
    var t := Array(Array(Object("B")));
    assert Mentions(t) == Mentions(t.item) == Mentions(t.item.item) == {"B"};
    assert t in [t];
    assert FieldDependencies([t]) == FieldDependency(t) + FieldDependencies([]) by {
      assert [t][1..] == [];
    }
  }

  // ---------------------------------------------------------------------------
  // When every definition comes after everything it mentions
  // ---------------------------------------------------------------------------

  ghost predicate MentionsFirst(order: seq<ObjectSpec>) {
    forall i | 0 <= i < |order| :: AllMentions(order[i]) - {order[i].schemaName} <= NamesOf(order[..i])
  }

  /** A chain of dependencies leads from one definition to the other; every definition reaches itself. */
  ghost predicate Reaches(specs: seq<ObjectSpec>, a: Name, b: Name) {
    exists path :: IsChain(specs, path) && path[0] == a && path[|path| - 1] == b
  }

  /** Whatever a definition mentions it also depends on, perhaps through other definitions. */
  ghost predicate MentionsAreReached(specs: seq<ObjectSpec>) {
    forall spec, name | spec in specs && name in AllMentions(spec) :: Reaches(specs, spec.schemaName, name)
  }

  lemma ReachesItself(specs: seq<ObjectSpec>, a: Name)
    ensures Reaches(specs, a, a)
  {
    assert IsChain(specs, [a]);
  }

  lemma ReachesFurther(specs: seq<ObjectSpec>, a: Name, spec: ObjectSpec, b: Name)
    requires Reaches(specs, a, spec.schemaName) && spec in specs && b in ObjectDependencies(spec)
    ensures Reaches(specs, a, b)
  {
    var path :| IsChain(specs, path) && path[0] == a && path[|path| - 1] == spec.schemaName;
    ChainStep(specs, path, b);
    assert (path + [b])[|path|] == b;
  }

  lemma ReachedMentionsComeFirst(specs: seq<ObjectSpec>, order: seq<ObjectSpec>)
    requires DistinctNames(specs) && multiset(order) == multiset(specs) && DependenciesFirst(order)
    requires MentionsAreReached(specs)
    ensures MentionsFirst(order)
  {
    PermutationKeepsNames(specs, order);
    forall i, name | 0 <= i < |order| && name in AllMentions(order[i]) - {order[i].schemaName}
      ensures name in NamesOf(order[..i])
    {
      assert order[i] in multiset(order) && order[i] in specs;
      var path :| IsChain(specs, path) && path[0] == order[i].schemaName && path[|path| - 1] == name;
      var j := ChainGoesBack(specs, order, path, i);
      assert order[..i][j] == order[j];
    }
  }

  /** The definitions with a name in `names`, or with `inside` false those without, in order. */
  function Select(order: seq<ObjectSpec>, names: set<Name>, inside: bool): seq<ObjectSpec> {
    if order == [] then []
    else
      var last := order[|order| - 1];
      Select(order[..|order| - 1], names, inside) + if (last.schemaName in names) == inside then [last] else []
  }

  lemma SelectLast(before: seq<ObjectSpec>, last: ObjectSpec, names: set<Name>, inside: bool)
    ensures Select(before + [last], names, inside) ==
            if (last.schemaName in names) == inside then Select(before, names, inside) + [last]
                else Select(before, names, inside)
  {
    assert (before + [last])[..|before|] == before;
  }

  lemma PushEither<T>(a: seq<T>, b: seq<T>, c: seq<T>, x: T)
    requires multiset(a) + multiset(b) == multiset(c)
    ensures multiset(a + [x]) + multiset(b) == multiset(c + [x])
    ensures multiset(a) + multiset(b + [x]) == multiset(c + [x])
  {
  }

  lemma SplitsPush(order: seq<ObjectSpec>, before: seq<ObjectSpec>, last: ObjectSpec, names: set<Name>)
    requires multiset(Select(before, names, true)) + multiset(Select(before, names, false)) == multiset(before)
    requires order == before + [last]
    ensures multiset(Select(order, names, true)) + multiset(Select(order, names, false)) == multiset(order)
  {
    SelectLast(before, last, names, true);
    SelectLast(before, last, names, false);
    PushEither(Select(before, names, true), Select(before, names, false), before, last);
  }

  lemma {:induction false} SelectSplits(order: seq<ObjectSpec>, names: set<Name>)
    ensures multiset(Select(order, names, true)) + multiset(Select(order, names, false)) == multiset(order)
  {
    if order != [] {
      var before, last := order[..|order| - 1], order[|order| - 1];
      SelectSplits(before, names);
      SplitsPush(order, before, last, names);
    }
  }

  ghost predicate ClosedUnderDependencies(specs: seq<ObjectSpec>, names: set<Name>) {
    forall spec | spec in specs && spec.schemaName in names :: ObjectDependencies(spec) <= names
  }

  lemma LastDependsOnEarlier(order: seq<ObjectSpec>)
    requires DependenciesFirst(order) && order != []
    ensures
      var before, last := order[..|order| - 1], order[|order| - 1];
      && DependenciesFirst(before) && ObjectDependencies(last) <= NamesOf(before)
      && NamesOf(order) == NamesOf(before) + {last.schemaName}
  {
    var before, last := order[..|order| - 1], order[|order| - 1];
    assert forall i | 0 <= i < |before| :: before[..i] == order[..i];
    assert order == before + [last];
    assert last in order;
    assert forall s :: s in order <==> s in before || s == last;
  }

  lemma ClosedForEarlier(order: seq<ObjectSpec>, names: set<Name>)
    requires order != [] && ClosedUnderDependencies(order, names)
    ensures ClosedUnderDependencies(order[..|order| - 1], names)
    ensures order[|order| - 1].schemaName in names ==> ObjectDependencies(order[|order| - 1]) <= names
  {
    assert forall spec | spec in order[..|order| - 1] :: spec in order;
    assert order[|order| - 1] in order;
  }

  /** A set closed under dependencies can be emitted first. */
  lemma {:induction false} SelectedFirst(order: seq<ObjectSpec>, names: set<Name>)
    requires DependenciesFirst(order) && ClosedUnderDependencies(order, names)
    ensures DependenciesFirst(Select(order, names, true))
    ensures NamesOf(Select(order, names, true)) == NamesOf(order) * names
  {
    if order != [] {
      var before, last := order[..|order| - 1], order[|order| - 1];
      LastDependsOnEarlier(order);
      ClosedForEarlier(order, names);
      SelectedFirst(before, names);
      if last.schemaName in names {
        EmitKeepsOrder(Select(before, names, true), last);
      } else {
        assert Select(order, names, true) == Select(before, names, true);
      }
    }
  }

  /** ... and the others after it. */
  lemma {:induction false} OthersAfter(base: seq<ObjectSpec>, order: seq<ObjectSpec>, names: set<Name>)
    requires DependenciesFirst(base) && DependenciesFirst(order)
    requires NamesOf(order) * names <= NamesOf(base)
    ensures DependenciesFirst(base + Select(order, names, false))
    ensures NamesOf(base + Select(order, names, false)) == NamesOf(base) + (NamesOf(order) - names)
  {
    if order == [] {
      assert base + [] == base;
    } else {
      var before, last := order[..|order| - 1], order[|order| - 1];
      LastDependsOnEarlier(order);
      OthersAfter(base, before, names);
      var emitted := base + Select(before, names, false);
      if last.schemaName in names {
        assert Select(order, names, false) == Select(before, names, false);
      } else {
        EmitKeepsOrder(emitted, last);
        assert base + Select(order, names, false) == emitted + [last];
      }
    }
  }

  lemma ReachedIsClosed(specs: seq<ObjectSpec>, order: seq<ObjectSpec>, a: Name) returns (names: set<Name>)
    requires multiset(order) == multiset(specs) && DependenciesFirst(order)
    ensures forall n :: n in names <==> n in NamesOf(order) && Reaches(specs, a, n)
    ensures ClosedUnderDependencies(order, names)
  {
    names := set n | n in NamesOf(order) && Reaches(specs, a, n);
    OrderedIsClosed(order, order);
    forall s | s in order && s.schemaName in names ensures ObjectDependencies(s) <= names {
      assert s in multiset(order) && s in multiset(specs);
      forall d | d in ObjectDependencies(s) ensures d in names {
        ReachesFurther(specs, a, s, d);
      }
    }
  }

  /** Another dependencies-first order of the same definitions: everything `spec` reaches, then the rest. */
  lemma ReachedThenRest(specs: seq<ObjectSpec>, order: seq<ObjectSpec>, spec: ObjectSpec, name: Name)
    returns (other: seq<ObjectSpec>)
    requires multiset(order) == multiset(specs) && DependenciesFirst(order)
    requires spec in specs && name in AllMentions(spec) && !Reaches(specs, spec.schemaName, name)
    ensures multiset(other) == multiset(specs) && DependenciesFirst(other) && !MentionsFirst(other)
  {
    var names := ReachedIsClosed(specs, order, spec.schemaName);
    SelectedFirst(order, names);
    var base := Select(order, names, true);
    OthersAfter(base, order, names);
    SelectSplits(order, names);
    other := base + Select(order, names, false);
    ReachesItself(specs, spec.schemaName);
    assert spec in multiset(specs) && spec in multiset(order);
    SelectKeeps(order, names, spec);
    HiddenBehind(base, other, names, spec, name);
  }

  lemma {:induction false} SelectKeeps(order: seq<ObjectSpec>, names: set<Name>, spec: ObjectSpec)
    requires spec in order && spec.schemaName in names
    ensures spec in Select(order, names, true)
  {
    var last := order[|order| - 1];
    if spec != last {
      assert order == order[..|order| - 1] + [last];
      SelectKeeps(order[..|order| - 1], names, spec);
    }
  }

  lemma HiddenBehind(base: seq<ObjectSpec>, other: seq<ObjectSpec>, names: set<Name>, spec: ObjectSpec, name: Name)
    requires base <= other && NamesOf(base) <= names
    requires spec in base && name in AllMentions(spec) && name !in names && name != spec.schemaName
    ensures !MentionsFirst(other)
  {
    var i :| 0 <= i < |base| && base[i] == spec;
    assert other[i] == spec && other[..i] == base[..i];
    assert forall s | s in base[..i] :: s in base;
    assert name !in NamesOf(other[..i]);
  }

  /**
   Given definitions that can be ordered: every dependencies-first order, and so the generator's for
   every sequence of the definitions in the schema, has each definition after everything it mentions
   exactly when every mention is reached through dependencies.
   */
  lemma MentionsFirstIff(specs: seq<ObjectSpec>, order: seq<ObjectSpec>)
    requires DistinctNames(specs) && multiset(order) == multiset(specs) && DependenciesFirst(order)
    ensures
      (forall other | multiset(other) == multiset(specs) && DependenciesFirst(other) :: MentionsFirst(other))
      <==> MentionsAreReached(specs)
  {
    if MentionsAreReached(specs) {
      forall other | multiset(other) == multiset(specs) && DependenciesFirst(other) ensures MentionsFirst(other) {
        ReachedMentionsComeFirst(specs, other);
      }
    } else {
      var spec, name :| spec in specs && name in AllMentions(spec) && !Reaches(specs, spec.schemaName, name);
      var other := ReachedThenRest(specs, order, spec, name);
    }
  }

  /** Definitions that hide nothing in arrays of arrays are always ordered after everything they mention. */
  lemma NothingHiddenMentionsFirst(specs: seq<ObjectSpec>, order: seq<ObjectSpec>)
    requires multiset(order) == multiset(specs) && DependenciesFirst(order)
    requires forall spec | spec in specs :: NothingHidden(spec)
    ensures MentionsFirst(order)
  {
    forall i | 0 <= i < |order| ensures AllMentions(order[i]) - {order[i].schemaName} <= NamesOf(order[..i]) {
      assert order[i] in multiset(order) && order[i] in multiset(specs);
      DependenciesAreAllMentions(order[i]);
    }
  }
}
