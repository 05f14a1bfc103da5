/**
 The interface renderer behind `interface show`: a definition is printed line by line and every
 reference to a nested type is expanded in place, except a reference to a type that is already
 being expanded. The type graph may be cyclic.

 Reading a file and recognising the nested type of a line stay abstract: `Files` maps each
 installed type to its lines, each with the type it refers to, if any.
 */
module InterfaceShow {
  import opened Optional

  type TypeName = string

  datatype Line = Line(text: string, nested: Option<TypeName>)

  type Files = map<TypeName, seq<Line>>

  /** Line `line` of the definition of `name`. */
  datatype Step = Step(name: TypeName, line: nat)

  /** Where an output line comes from: the reference lines that lead to it, and itself last. */
  type Address = seq<Step>

  datatype Options = Options(name: TypeName, noComments: bool, allComments: bool)

  /** appendRenderedInterfaceLine, kept abstract: text of one line for a comment mode and an indent level. */
  type LineFormat = (string, bool, nat) -> string

  function Types(a: Address): set<TypeName> {
    set step | step in a :: step.name
  }

  // ---------------------------------------------------------------------------
  // The rendering as a function: the addresses of the printed lines in order
  // ---------------------------------------------------------------------------

  function ShowType(f: Files, prefix: Address, name: TypeName): Option<seq<Address>>
    requires name !in Types(prefix)
    decreases f.Keys - Types(prefix), if name in f then |f[name]| + 1 else 0
  {
    if name !in f then None else ShowLines(f, prefix, name, 0)
  }

  function ShowLines(f: Files, prefix: Address, name: TypeName, i: nat): Option<seq<Address>>
    requires name !in Types(prefix) && name in f && i <= |f[name]|
    decreases f.Keys - Types(prefix), |f[name]| - i
  {
    if i == |f[name]| then Some([])
    else
      var here := prefix + [Step(name, i)];
      var nested := f[name][i].nested;
      TypesExtend(prefix, Step(name, i));
      var inner := if nested.Some? && nested.value !in Types(here) then ShowType(f, here, nested.value) else Some([]);
      var rest := ShowLines(f, prefix, name, i + 1);
      if inner.None? || rest.None? then None else Some([here] + inner.value + rest.value)
  }

  lemma TypesExtend(prefix: Address, step: Step)
    ensures Types(prefix + [step]) == Types(prefix) + {step.name}
  {
    var a := prefix + [step];
    assert a[|prefix|] == step;
    assert forall s | s in prefix :: s in a;
  }

  function LineText(f: Files, format: LineFormat, top: bool, nested: bool, a: Address): string {
    if a == [] || a[|a| - 1].name !in f || a[|a| - 1].line >= |f[a[|a| - 1].name]| then ""
    else format(f[a[|a| - 1].name][a[|a| - 1].line].text, if |a| == 1 then top else nested, |a| - 1)
  }

  function Text(f: Files, format: LineFormat, top: bool, nested: bool, addresses: seq<Address>): string {
    if addresses == [] then ""
    else LineText(f, format, top, nested, addresses[0]) + Text(f, format, top, nested, addresses[1..])
  }

  lemma TextOfLine(f: Files, format: LineFormat, top: bool, nested: bool, prefix: Address, name: TypeName, i: nat)
    requires name in f && i < |f[name]|
    ensures LineText(f, format, top, nested, prefix + [Step(name, i)]) ==
            format(f[name][i].text, if prefix == [] then top else nested, |prefix|)
  {
  }

  lemma Associative(a: string, b: string, c: string)
    ensures a + (b + c) == (a + b) + c
  {
  }

  lemma {:induction false} TextAppend(f: Files, format: LineFormat, top: bool, nested: bool, a: seq<Address>,
          b: seq<Address>)
    ensures Text(f, format, top, nested, a + b) == Text(f, format, top, nested, a) + Text(f, format, top, nested, b)
  {
    if a == [] {
      assert a + b == b;
    } else {
      TextAppend(f, format, top, nested, a[1..], b);
      assert (a + b)[0] == a[0] && (a + b)[1..] == a[1..] + b;
      Associative(LineText(f, format, top, nested, a[0]), Text(f, format, top, nested, a[1..]), Text(f, format,
          top, nested, b));
    }
  }

  /**
   The printed text, line by line: each address contributes its own line, indented by the number of references
   that lead to it, with the comment mode of the root or of nested types.
   */
  lemma TextOfAddresses(f: Files, format: LineFormat, top: bool, nested: bool, before: seq<Address>, a: Address)
    requires a != [] && a[|a| - 1].name in f && a[|a| - 1].line < |f[a[|a| - 1].name]|
    ensures Text(f, format, top, nested, []) == ""
    ensures Text(f, format, top, nested, before + [a]) ==
            Text(f, format, top, nested, before)
            + format(f[a[|a| - 1].name][a[|a| - 1].line].text, if |a| == 1 then top else nested, |a| - 1)
  {
    TextAppend(f, format, top, nested, before, [a]);
    assert [a][1..] == [];
    assert LineText(f, format, top, nested, a) + "" == LineText(f, format, top, nested, a);
  }

  // ---------------------------------------------------------------------------
  // The rendering as the program runs it
  // ---------------------------------------------------------------------------

  class InterfaceRenderer {
    const files: Files
    const format: LineFormat
    var activeTypes: set<TypeName>
    var output: string

    constructor (files: Files, format: LineFormat)
      ensures this.files == files && this.format == format && activeTypes == {} && output == ""
    {
      this.files, this.format, activeTypes, output := files, format, {}, "";
    }

    /** `active_types` is as before on every exit; on success exactly the lines of ShowType were appended. */
    method RenderRecursive(name: TypeName, showComments: bool, showNestedComments: bool, indentLevel: nat,
            ghost prefix: Address, ghost top: bool) returns (ok: bool)
      requires activeTypes == Types(prefix) && name !in activeTypes && indentLevel == |prefix|
      requires showComments == if prefix == [] then top else showNestedComments
      modifies this
      ensures activeTypes == old(activeTypes)
      ensures ok <==> ShowType(files, prefix, name).Some?
      ensures ok ==> output == old(output) + Text(files, format, top, showNestedComments, ShowType(files, prefix,
          name).value)
      decreases files.Keys - Types(prefix), 1
    {
      if name !in files {
        return false;
      }
      activeTypes := activeTypes + {name};
      ghost var whole := ShowLines(files, prefix, name, 0);
      ghost var shown: seq<Address> := [];
      var i := 0;
      PrependedNothing(whole);
      while i < |files[name]|
        invariant 0 <= i <= |files[name]|
        invariant activeTypes == Types(prefix) + {name}
        invariant whole == Prepended(shown, ShowLines(files, prefix, name, i))
        invariant output == old(output) + Text(files, format, top, showNestedComments, shown)
      {
        ghost var here := prefix + [Step(name, i)];
        ghost var inner := Inner(files, prefix, name, i);
        var ok := RenderLine(name, i, showComments, showNestedComments, indentLevel, prefix, top);
        OneLine(files, prefix, name, i, shown, inner);
        if !ok {
          activeTypes := activeTypes - {name};
          return false;
        }
        ExtendText(files, format, top, showNestedComments, old(output), shown, here, inner.value);
        shown := shown + ([here] + inner.value);
        i := i + 1;
      }
      assert shown + [] == shown;
      activeTypes := activeTypes - {name};
      return true;
    }

    /** One turn of the line loop: the line itself and, unless it is active, the type it refers to. */
    method RenderLine(name: TypeName, i: nat, showComments: bool, showNestedComments: bool, indentLevel: nat,
            ghost prefix: Address, ghost top: bool) returns (ok: bool)
      requires name !in Types(prefix) && name in files && i < |files[name]| && indentLevel == |prefix|
      requires activeTypes == Types(prefix) + {name}
      requires showComments == if prefix == [] then top else showNestedComments
      modifies this
      ensures activeTypes == old(activeTypes)
      ensures ok <==> Inner(files, prefix, name, i).Some?
      ensures ok ==>
                output == old(output) + LineText(files, format, top, showNestedComments, prefix + [Step(name, i)])
                          + Text(files, format, top, showNestedComments, Inner(files, prefix, name, i).value)
      decreases files.Keys - Types(prefix), 0
    {
      var line := files[name][i];
      ghost var here := prefix + [Step(name, i)];
      TypesExtend(prefix, Step(name, i));
      TextOfLine(files, format, top, showNestedComments, prefix, name, i);
      output := output + format(line.text, showComments, indentLevel);
      ok := true;
      if line.nested.Some? && line.nested.value !in activeTypes {
        ok := RenderRecursive(line.nested.value, showNestedComments, showNestedComments, indentLevel + 1, here, top);
      }
    }
  }

  /** What a line's nested type shows below it: nothing when there is none or it is active. */
  function Inner(f: Files, prefix: Address, name: TypeName, i: nat): Option<seq<Address>>
    requires name !in Types(prefix) && name in f && i < |f[name]|
  {
    var nested, here := f[name][i].nested, prefix + [Step(name, i)];
    TypesExtend(prefix, Step(name, i));
    if nested.Some? && nested.value !in Types(here) then ShowType(f, here, nested.value) else Some([])
  }

  function Prepended(head: seq<Address>, rest: Option<seq<Address>>): Option<seq<Address>> {
    if rest.None? then None else Some(head + rest.value)
  }

  lemma PrependedNothing(rest: Option<seq<Address>>)
    ensures Prepended([], rest) == rest
  {
    if rest.Some? {
      assert [] + rest.value == rest.value;
    }
  }

  lemma PrependedJoin(a: seq<Address>, b: seq<Address>, rest: Option<seq<Address>>)
    ensures Prepended(a, Prepended(b, rest)) == Prepended(a + b, rest)
  {
    if rest.Some? {
      assert a + (b + rest.value) == (a + b) + rest.value;
    }
  }

  lemma ExtendText(f: Files, format: LineFormat, top: bool, nested: bool, before: string, shown: seq<Address>,
          here: Address, inner: seq<Address>)
    ensures before + Text(f, format, top, nested, shown + ([here] + inner)) ==
            before + Text(f, format, top, nested, shown) + LineText(f, format, top, nested, here) + Text(f, format,
                top, nested, inner)
  {
    TextAppend(f, format, top, nested, shown, [here] + inner);
    assert ([here] + inner)[1..] == inner;
  }

  /** What one turn of the line loop adds to the walk. */
  lemma OneLine(f: Files, prefix: Address, name: TypeName, i: nat, shown: seq<Address>, inner: Option<seq<Address>>)
    requires name !in Types(prefix) && name in f && i < |f[name]|
    requires inner == Inner(f, prefix, name, i)
    ensures Prepended(shown, ShowLines(f, prefix, name, i)) ==
            if inner.None? then None
            else Prepended(shown + ([prefix + [Step(name, i)]] + inner.value), ShowLines(f, prefix, name, i + 1))
  {
    if inner.Some? {
      PrependedJoin(shown, [prefix + [Step(name, i)]] + inner.value, ShowLines(f, prefix, name, i + 1));
    }
  }

  method RenderInterfaceDefinition(options: Options, files: Files, format: LineFormat) returns (text: Option<string>)
    ensures text.None? <==> options.name == "" || options.name == "-" || (options.allComments && options.noComments)
                            || ShowType(files, [], options.name).None?
    ensures text.Some? ==> text.value == Text(files, format, !options.noComments, options.allComments,
        ShowType(files, [], options.name).value)
  {
    if options.name == "" {
      return None;
    }
    if options.name == "-" {
      return None;
    }
    if options.allComments && options.noComments {
      return None;
    }
    var renderer := new InterfaceRenderer(files, format);
    var ok := renderer.RenderRecursive(options.name, !options.noComments, options.allComments, 0, [],
        !options.noComments);
    if !ok {
      return None;
    }
    return Some(renderer.output);
  }

  // ---------------------------------------------------------------------------
  // What is printed: the unfolding cut at active ancestors
  // ---------------------------------------------------------------------------

  ghost predicate StepFollows(f: Files, a: Step, b: Step) {
    a.name in f && a.line < |f[a.name]| && f[a.name][a.line].nested == Some(b.name)
  }

  /** A chain of references from `root` on which no type occurs twice, down to one line. */
  ghost predicate IsAddress(f: Files, root: TypeName, a: Address) {
    && a != [] && a[0].name == root
    && (forall k | 0 <= k < |a| :: a[k].name in f && a[k].line < |f[a[k].name]|)
    && (forall k, l | 0 <= k < |a| && l == k + 1 < |a| :: StepFollows(f, a[k], a[l]))
    && (forall k, l | 0 <= k < l < |a| :: a[k].name != a[l].name)
  }

  /** `prefix` leads to an expansion of `name`. */
  ghost predicate LeadsTo(f: Files, root: TypeName, prefix: Address, name: TypeName) {
    && name !in Types(prefix)
    && if prefix == [] then name == root
       else IsAddress(f, root, prefix) && f[prefix[|prefix| - 1].name][prefix[|prefix| - 1].line].nested == Some(name)
  }

  /** `a` lies in the expansion of `name` below `prefix`, at line `from` or later. */
  ghost predicate Below(f: Files, root: TypeName, prefix: Address, name: TypeName, from: nat, a: Address) {
    IsAddress(f, root, a) && |prefix| < |a| && a[..|prefix|] == prefix && a[|prefix|].name == name
        && a[|prefix|].line >= from
  }

  lemma HereIsAddress(f: Files, root: TypeName, prefix: Address, name: TypeName, i: nat)
    requires LeadsTo(f, root, prefix, name) && name in f && i < |f[name]|
    ensures IsAddress(f, root, prefix + [Step(name, i)])
  {
    var a := prefix + [Step(name, i)];
    forall k | 0 <= k < |prefix| ensures a[k].name != name {
      assert prefix[k] in prefix;
    }
    forall k, l | 0 <= k < |a| && l == k + 1 < |a| ensures StepFollows(f, a[k], a[l]) {
      if l < |prefix| {
        assert StepFollows(f, prefix[k], prefix[l]);
      }
    }
  }

  /** An address below is the reference line itself, or in its expansion, or further down. */
  lemma BelowSplits(f: Files, root: TypeName, prefix: Address, name: TypeName, i: nat, a: Address)
    requires LeadsTo(f, root, prefix, name) && name in f && i < |f[name]|
    ensures
      var here := prefix + [Step(name, i)];
      var nested := f[name][i].nested;
      Below(f, root, prefix, name, i, a) <==>
        || a == here
        || (nested.Some? && nested.value !in Types(here) && Below(f, root, here, nested.value, 0, a))
        || Below(f, root, prefix, name, i + 1, a)
  {
    var here := prefix + [Step(name, i)];
    HereIsAddress(f, root, prefix, name, i);
    if Below(f, root, prefix, name, i, a) && a[|prefix|].line == i {
      assert a[..|here|] == here by {
        assert a[..|here|] == a[..|prefix|] + [a[|prefix|]];
      }
      if |a| > |here| {
        var k, l := |prefix|, |here|;
        assert StepFollows(f, a[k], a[l]);
        forall step | step in here ensures step.name != a[l].name {
          var m :| 0 <= m < |here| && here[m] == step;
          assert a[..|here|][m] == a[m];
        }
      }
    }
    if |a| > |here| && a[..|here|] == here {
      assert a[..|here|][..|prefix|] == a[..|prefix|] && here[..|prefix|] == prefix;
      assert a[..|here|][|prefix|] == a[|prefix|];
    }
  }

  lemma {:induction false} ShowTypeMeaning(f: Files, root: TypeName, prefix: Address, name: TypeName, a: Address)
    requires LeadsTo(f, root, prefix, name) && ShowType(f, prefix, name).Some?
    ensures a in ShowType(f, prefix, name).value <==> Below(f, root, prefix, name, 0, a)
    decreases f.Keys - Types(prefix), |f[name]| + 1
  {
    ShowLinesMeaning(f, root, prefix, name, 0, a);
  }

  lemma {:induction false} ShowLinesMeaning(f: Files, root: TypeName, prefix: Address, name: TypeName, i: nat,
          a: Address)
    requires LeadsTo(f, root, prefix, name) && name in f && i <= |f[name]|
    requires ShowLines(f, prefix, name, i).Some?
    ensures a in ShowLines(f, prefix, name, i).value <==> Below(f, root, prefix, name, i, a)
    decreases f.Keys - Types(prefix), |f[name]| - i
  {
    if i < |f[name]| {
      var here, nested := prefix + [Step(name, i)], f[name][i].nested;
      TypesExtend(prefix, Step(name, i));
      HereIsAddress(f, root, prefix, name, i);
      BelowSplits(f, root, prefix, name, i, a);
      ShowLinesMeaning(f, root, prefix, name, i + 1, a);
      if nested.Some? && nested.value !in Types(here) {
        ShowTypeMeaning(f, root, here, nested.value, a);
      }
    }
  }

  /** Printing order: a line before what is expanded under it, and line by line within a definition. */
  ghost predicate Before(a: Address, b: Address) {
    exists k: nat :: DiffersAt(a, b, k)
  }

  ghost predicate DiffersAt(a: Address, b: Address, k: nat) {
    k <= |a| && k < |b| && a[..k] == b[..k] && (k < |a| ==> a[k].name == b[k].name && a[k].line < b[k].line)
  }

  ghost predicate InOrder(addresses: seq<Address>) {
    forall i, j | 0 <= i < j < |addresses| :: Before(addresses[i], addresses[j])
  }

  lemma InOrderJoin(a: seq<Address>, b: seq<Address>)
    requires InOrder(a) && InOrder(b)
    requires forall x, y | x in a && y in b :: Before(x, y)
    ensures InOrder(a + b)
  {
    forall i, j | 0 <= i < j < |a + b| ensures Before((a + b)[i], (a + b)[j]) {
      if i < |a| && |a| <= j {
        assert a[i] in a && b[j - |a|] in b;
      }
    }
  }

  lemma {:induction false} ShowTypeInOrder(f: Files, root: TypeName, prefix: Address, name: TypeName)
    requires LeadsTo(f, root, prefix, name) && ShowType(f, prefix, name).Some?
    ensures InOrder(ShowType(f, prefix, name).value)
    decreases f.Keys - Types(prefix), |f[name]| + 1
  {
    ShowLinesInOrder(f, root, prefix, name, 0);
  }

  lemma {:induction false} ShowLinesInOrder(f: Files, root: TypeName, prefix: Address, name: TypeName, i: nat)
    requires LeadsTo(f, root, prefix, name) && name in f && i <= |f[name]|
    requires ShowLines(f, prefix, name, i).Some?
    ensures InOrder(ShowLines(f, prefix, name, i).value)
    decreases f.Keys - Types(prefix), |f[name]| - i
  {
    if i < |f[name]| {
      var here, nested := prefix + [Step(name, i)], f[name][i].nested;
      TypesExtend(prefix, Step(name, i));
      HereIsAddress(f, root, prefix, name, i);
      ShowLinesInOrder(f, root, prefix, name, i + 1);
      var expands := nested.Some? && nested.value !in Types(here);
      var inner := if expands then ShowType(f, here, nested.value).value else [];
      var rest := ShowLines(f, prefix, name, i + 1).value;
      if expands {
        ShowTypeInOrder(f, root, here, nested.value);
      }
      forall y | y in inner ensures Under(here, y) {
        ShowTypeMeaning(f, root, here, nested.value, y);
      }
      forall y | y in rest ensures AtLaterLine(prefix, name, i, y) {
        ShowLinesMeaning(f, root, prefix, name, i + 1, y);
      }
      OrderParts(prefix, name, i, inner, rest);
    }
  }

  ghost predicate Under(here: Address, y: Address) {
    |here| < |y| && y[..|here|] == here
  }

  ghost predicate AtLaterLine(prefix: Address, name: TypeName, i: nat, y: Address) {
    |prefix| < |y| && y[..|prefix|] == prefix && y[|prefix|].name == name && y[|prefix|].line > i
  }

  lemma OrderParts(prefix: Address, name: TypeName, i: nat, inner: seq<Address>, rest: seq<Address>)
    requires InOrder(inner) && InOrder(rest)
    requires forall y | y in inner :: Under(prefix + [Step(name, i)], y)
    requires forall y | y in rest :: AtLaterLine(prefix, name, i, y)
    ensures InOrder([prefix + [Step(name, i)]] + inner + rest)
  {
    var here := prefix + [Step(name, i)];
    forall y | y in inner ensures Before(here, y) {
      assert here[..|here|] == here;
      assert DiffersAt(here, y, |here|);
    }
    InOrderJoin([here], inner);
    forall x, y | x in [here] + inner && y in rest ensures Before(x, y) {
      assert here[..|here|] == here;
      LaterLine(prefix, name, i, x, y);
    }
    InOrderJoin([here] + inner, rest);
  }

  lemma LaterLine(prefix: Address, name: TypeName, i: nat, x: Address, y: Address)
    requires |prefix| < |x| && x[..|prefix| + 1] == prefix + [Step(name, i)]
    requires AtLaterLine(prefix, name, i, y)
    ensures Before(x, y)
  {
    assert x[..|prefix|] == x[..|prefix| + 1][..|prefix|] == prefix;
    assert x[|prefix|] == x[..|prefix| + 1][|prefix|] == Step(name, i);
    assert DiffersAt(x, y, |prefix|);
  }

  /**
   On success the printed lines are exactly the chains of references from the root that meet no
   type twice, each once, parents before children and siblings in file order: the unfolding of the
   type graph, cut exactly at references to an active ancestor.
   */
  lemma RenderingIsTheCutUnfolding(f: Files, root: TypeName)
    requires ShowType(f, [], root).Some?
    ensures forall a :: a in ShowType(f, [], root).value <==> IsAddress(f, root, a)
    ensures InOrder(ShowType(f, [], root).value)
  {
    forall a ensures a in ShowType(f, [], root).value <==> IsAddress(f, root, a) {
      ShowTypeMeaning(f, root, [], root, a);
      assert a[..0] == [];
    }
    ShowTypeInOrder(f, root, [], root);
  }

  // ---------------------------------------------------------------------------
  // When it fails
  // ---------------------------------------------------------------------------

  ghost predicate RefersTo(f: Files, a: TypeName, b: TypeName) {
    a in f && exists i :: 0 <= i < |f[a]| && f[a][i].nested == Some(b)
  }

  ghost predicate IsChain(f: Files, chain: seq<TypeName>) {
    chain != [] && forall k, l | 0 <= k < |chain| && l == k + 1 < |chain| :: RefersTo(f, chain[k], chain[l])
  }

  ghost predicate Reaches(f: Files, a: TypeName, b: TypeName) {
    exists chain :: IsChain(f, chain) && chain[0] == a && chain[|chain| - 1] == b
  }

  lemma ChainDrop(f: Files, chain: seq<TypeName>, k: nat)
    requires IsChain(f, chain) && k < |chain|
    ensures IsChain(f, chain[k..]) && chain[k..][0] == chain[k] && chain[k..][|chain| - k - 1] == chain[|chain| - 1]
  {
    var tail := chain[k..];
    forall i, j | 0 <= i < |tail| && j == i + 1 < |tail| ensures RefersTo(f, tail[i], tail[j]) {
      var a, b := i + k, j + k;
      assert RefersTo(f, chain[a], chain[b]);
    }
  }

  lemma {:induction false} ShowLinesExpands(f: Files, prefix: Address, name: TypeName, from: nat, i: nat)
    requires name !in Types(prefix) && name in f && from <= i < |f[name]|
    requires ShowLines(f, prefix, name, from).Some?
    requires f[name][i].nested.Some? && f[name][i].nested.value !in Types(prefix) + {name}
    ensures Types(prefix + [Step(name, i)]) == Types(prefix) + {name}
    ensures ShowType(f, prefix + [Step(name, i)], f[name][i].nested.value).Some?
    decreases i - from
  {
    TypesExtend(prefix, Step(name, i));
    if from < i {
      ShowLinesExpands(f, prefix, name, from + 1, i);
    }
  }

  /** A successful rendering has opened every type that can be reached without passing an active one. */
  lemma {:induction false} SuccessOpensReachable(f: Files, prefix: Address, name: TypeName, chain: seq<TypeName>)
    requires name !in Types(prefix) && ShowType(f, prefix, name).Some?
    requires IsChain(f, chain) && chain[0] == name
    requires forall t | t in chain :: t !in Types(prefix)
    ensures chain[|chain| - 1] in f
    decreases |chain|
  {
    if |chain| > 1 {
      if k :| 0 < k < |chain| && chain[k] == name {
        ChainDrop(f, chain, k);
        SuccessOpensReachable(f, prefix, name, chain[k..]);
      } else {
        var zero, one := 0, 1;
        assert RefersTo(f, chain[zero], chain[one]);
        var i :| 0 <= i < |f[name]| && f[name][i].nested == Some(chain[1]);
        assert chain[1] in chain;
        ShowLinesExpands(f, prefix, name, 0, i);
        ChainDrop(f, chain, 1);
        forall t | t in chain[1..] ensures t !in Types(prefix + [Step(name, i)]) {
          var k :| 0 <= k < |chain[1..]| && chain[1..][k] == t;
          assert chain[k + 1] == t && t in chain;
        }
        SuccessOpensReachable(f, prefix + [Step(name, i)], chain[1], chain[1..]);
      }
    }
  }

  lemma {:induction false} ShowTypeFails(f: Files, prefix: Address, name: TypeName) returns (missing: TypeName)
    requires name !in Types(prefix) && ShowType(f, prefix, name).None?
    ensures missing !in f && Reaches(f, name, missing)
    decreases f.Keys - Types(prefix), if name in f then |f[name]| + 1 else 0
  {
    if name in f {
      missing := ShowLinesFails(f, prefix, name, 0);
    } else {
      missing := name;
      assert IsChain(f, [name]);
    }
  }

  lemma {:induction false} ShowLinesFails(f: Files, prefix: Address, name: TypeName,
          i: nat) returns (missing: TypeName)
    requires name !in Types(prefix) && name in f && i <= |f[name]| && ShowLines(f, prefix, name, i).None?
    ensures missing !in f && Reaches(f, name, missing)
    decreases f.Keys - Types(prefix), |f[name]| - i
  {
    var here, nested := prefix + [Step(name, i)], f[name][i].nested;
    TypesExtend(prefix, Step(name, i));
    if nested.Some? && nested.value !in Types(here) && ShowType(f, here, nested.value).None? {
      missing := ShowTypeFails(f, here, nested.value);
      assert RefersTo(f, name, nested.value);
      ReachesThrough(f, name, nested.value, missing);
    } else {
      missing := ShowLinesFails(f, prefix, name, i + 1);
    }
  }

  lemma ReachesThrough(f: Files, a: TypeName, b: TypeName, c: TypeName)
    requires RefersTo(f, a, b) && Reaches(f, b, c)
    ensures Reaches(f, a, c)
  {
    var chain :| IsChain(f, chain) && chain[0] == b && chain[|chain| - 1] == c;
    var longer := [a] + chain;
    forall k, l | 0 <= k < |longer| && l == k + 1 < |longer| ensures RefersTo(f, longer[k], longer[l]) {
      if k > 0 {
        var m, n := k - 1, l - 1;
        assert RefersTo(f, chain[m], chain[n]);
      }
    }
    assert IsChain(f, longer);
  }

  /** Rendering succeeds exactly when every type reachable from the root is installed, cycles or not. */
  lemma RendersIffAllInstalled(f: Files, root: TypeName)
    ensures ShowType(f, [], root).Some? <==> forall t | Reaches(f, root, t) :: t in f
  {
    if ShowType(f, [], root).Some? {
      forall t | Reaches(f, root, t) ensures t in f {
        var chain :| IsChain(f, chain) && chain[0] == root && chain[|chain| - 1] == t;
        SuccessOpensReachable(f, [], root, chain);
      }
    } else {
      var missing := ShowTypeFails(f, [], root);
    }
  }
}
