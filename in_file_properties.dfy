/**
  What the naming function and the four passes of src/lib/in_file.ts
  guarantee, stated over their specification functions.
 */
module InFileProperties {
  import opened Wrappers
  import opened Decimal
  import opened Declarations
  import opened Graphs
  import opened InFile

  // ---------------------------------------------------------------------
  // Naming

  predicate SpaceFree(s: string) {
    ' ' !in s
  }

  /** A declared name, where there is one, has no space in it. */
  predicate NameSpaceFree(d: Decl) {
    HasOwnName(d) ==> SpaceFree(OwnName(d))
  }

  /** Placeholders with the same text were made from the same prefix and counter. */
  lemma {:induction false} PlaceholderParts(d: Decl, d': Decl, a: string, b: string)
    requires PlaceholderPrefix(d) + a == PlaceholderPrefix(d') + b
    ensures PlaceholderPrefix(d) == PlaceholderPrefix(d') && a == b
  {
    var p, q := PlaceholderPrefix(d), PlaceholderPrefix(d');
    assert (p + a)[1] == p[1] && (q + b)[1] == q[1];
    assert (p + a)[3] == p[3] && (q + b)[3] == q[3];
    assert p == q;
    assert (p + a)[|p|..] == a && (q + b)[|q|..] == b;
  }

  /**
    Two made-up names are equal only when they were made for the same kind
    of declaration from the same counter value: every placeholder is new
    as long as the counter keeps advancing.
   */
  lemma PlaceholdersDistinct(d: Decl, n: nat, d': Decl, m: nat)
    requires !HasOwnName(d) && !HasOwnName(d')
    requires GetNodeId(d, n).name == GetNodeId(d', m).name
    ensures n == m && PlaceholderPrefix(d) == PlaceholderPrefix(d')
  {
    PlaceholderParts(d, d', NatToString(n), NatToString(m));
    NatToStringInjective(n, m);
  }

  lemma DigitsSpaceFree(s: string)
    requires IsDigits(s)
    ensures SpaceFree(s)
  {
    forall i | 0 <= i < |s| ensures s[i] != ' ' {
      assert IsDigit(s[i]);
    }
  }

  /** The diagram identifier of a declaration whose name has no space has none either. */
  lemma NodeRefSpaceFree(d: Decl, n: nat)
    requires NameSpaceFree(d)
    ensures SpaceFree(NodeRef(GetNodeId(d, n).name))
  {
    DigitsSpaceFree(NatToString(n));
  }

  /** Where the first space of `s` is, or `|s|` if there is none. */
  function FirstSpace(s: string): (k: nat)
    ensures k <= |s|
    decreases |s|
  {
    if |s| == 0 || s[0] == ' ' then 0 else 1 + FirstSpace(s[1..])
  }

  lemma {:induction false} FirstSpaceAfter(a: string, x: string)
    requires SpaceFree(a)
    ensures FirstSpace(a + " " + x) == |a|
    decreases |a|
  {
    if |a| > 0 {
      assert (a + " " + x)[1..] == a[1..] + " " + x;
      assert (a + " " + x)[0] == a[0];
      FirstSpaceAfter(a[1..], x);
    }
  }

  /**
    An edge line between identifiers without spaces has only one reading:
    its source and target are determined by the text.
   */
  lemma UsesLineInjective(a: string, b: string, c: string, d: string)
    requires SpaceFree(a) && SpaceFree(c)
    requires EdgeLine(a, "uses", b) == EdgeLine(c, "uses", d)
    ensures a == c && b == d
  {
    var l := "-->|uses| ";
    assert EdgeLine(a, "uses", b) == a + " " + (l + b);
    assert EdgeLine(c, "uses", d) == c + " " + (l + d);
    FirstSpaceAfter(a, l + b);
    FirstSpaceAfter(c, l + d);
    var e := EdgeLine(a, "uses", b);
    assert a == e[..|a|] && c == e[..|c|];
    assert l + b == e[|a| + 1..] && l + d == e[|c| + 1..];
    assert b == (l + b)[|l|..] && d == (l + d)[|l|..];
  }

  // ---------------------------------------------------------------------
  // References

  const ReferenceTags: set<string> := {"ClassDeclaration", "FunctionDeclaration", "VariableDeclaration"}

  /** Every edge added from `s` to `r` is a `uses` edge from `source` to another node present in `r`. */
  ghost predicate UsesFrom(s: Sets, r: Sets, source: string) {
    forall e :: e in r.edges - s.edges ==>
      exists target :: e == EdgeLine(source, "uses", target) && target != source && HasNode(r.nodes, target)
  }

  lemma UsesFromTransitive(s: Sets, m: Sets, r: Sets, source: string)
    requires UsesFrom(s, m, source) && UsesFrom(m, r, source) && m.nodes <= r.nodes
    ensures UsesFrom(s, r, source)
  {
    forall e | e in r.edges - s.edges
      ensures exists target :: e == EdgeLine(source, "uses", target) && target != source && HasNode(r.nodes, target)
    {
      if e in m.edges - s.edges {
        var target :| e == EdgeLine(source, "uses", target) && target != source && HasNode(m.nodes, target);
        HasNodeGrows(m.nodes, r.nodes, target);
      } else {
        assert e in r.edges - m.edges;
      }
    }
  }

  /** No `a -->|uses| a` line is among the edges added, for any `a` without spaces. */
  lemma UsesFromNoSelfLoop(s: Sets, r: Sets, source: string)
    requires UsesFrom(s, r, source) && SpaceFree(source)
    ensures forall a :: SpaceFree(a) ==> EdgeLine(a, "uses", a) !in r.edges - s.edges
  {
    forall a | SpaceFree(a) && EdgeLine(a, "uses", a) in r.edges - s.edges
      ensures false
    {
      var target :| EdgeLine(a, "uses", a) == EdgeLine(source, "uses", target) && target != source;
      UsesLineInjective(a, a, source, target);
    }
  }

  /** One resolved declaration: the reference node and the `uses` edge to it. */
  lemma UseStepShape(source: string, decl: Decl, n: nat, s: Sets)
    ensures var r := UseStep(source, decl, n, s);
      && Grows(s, r.sets, ReferenceTags, {"uses"})
      && UsesFrom(s, r.sets, source)
      && (HasNode(s.nodes, source) && EndpointsPresent(s) ==> EndpointsPresent(r.sets))
      && (TargetsPresent(s) ==> TargetsPresent(r.sets))
      && r.next == n + (if IsReferenceKind(decl) && !HasOwnName(decl) then 1 else 0)
  {
    if IsReferenceKind(decl) {
      var refId := NodeRef(GetNodeId(decl, n).name);
      if refId != source {
        var line := Boxed(refId, KindName(decl));
        var t := Sets(s.nodes + {line}, s.edges);
        AddNodesKeepsEndpoints(s, {line});
        assert HasNode(t.nodes, refId);
        AddEdgeKeepsEndpoints(t, source, "uses", refId);
        if HasNode(s.nodes, source) {
          HasNodeGrows(s.nodes, t.nodes, source);
        }
        var r := UseStep(source, decl, n, s);
        assert r.sets.nodes - s.nodes <= {line};
        assert r.sets.edges - s.edges <= {EdgeLine(source, "uses", refId)};
      }
    }
  }

  function RefPlaceholders(decls: seq<Decl>): nat
    decreases |decls|
  {
    if decls == [] then 0
    else
      var last := decls[|decls| - 1];
      RefPlaceholders(decls[..|decls| - 1]) + (if IsReferenceKind(last) && !HasOwnName(last) then 1 else 0)
  }

  /** The diagram identifier of a declaration met when the counter is `n`. */
  function RefAt(d: Decl, n: nat): string {
    NodeRef(GetNodeId(d, n).name)
  }

  /** A resolved declaration met at counter `n` gets a node and a `uses` edge from `source`. */
  predicate Drawn(source: string, d: Decl, n: nat) {
    IsReferenceKind(d) && RefAt(d, n) != source
  }

  /** The node line one resolved declaration adds, if any. */
  function RefNodes(source: string, d: Decl, n: nat): set<string> {
    if Drawn(source, d, n) then {Boxed(RefAt(d, n), KindName(d))} else {}
  }

  /** The edge line one resolved declaration adds, if any. */
  function RefEdges(source: string, d: Decl, n: nat): set<string> {
    if Drawn(source, d, n) then {EdgeLine(source, "uses", RefAt(d, n))} else {}
  }

  /** Adding to sets already grown by `a` and `b` grows them by the unions. */
  lemma AddToGrown(s: Sets, m: Sets, a: set<string>, b: set<string>, x: set<string>, y: set<string>)
    requires m == Sets(s.nodes + a, s.edges + b)
    ensures Sets(m.nodes + x, m.edges + y) == Sets(s.nodes + (a + x), s.edges + (b + y))
  {
    assert m.nodes + x == s.nodes + (a + x);
    assert m.edges + y == s.edges + (b + y);
  }

  /** One resolved declaration, in the terms of `Drawn` and `RefAt`. */
  lemma UseStepContents(source: string, d: Decl, n: nat, s: Sets)
    ensures UseStep(source, d, n, s).sets
      == Sets(s.nodes + RefNodes(source, d, n),
              s.edges + RefEdges(source, d, n))
  {
    if !Drawn(source, d, n) {
      assert s.nodes + {} == s.nodes && s.edges + {} == s.edges;
    }
  }

  /** The reference nodes a function's identifiers add, in closed form: one bracketed, kind-tagged line each. */
  ghost function FixedNodes(source: string, decls: seq<Decl>, n: nat): set<string> {
    set d | d in decls && Drawn(source, d, n) :: Boxed(RefAt(d, n), KindName(d))
  }

  ghost function FixedEdges(source: string, decls: seq<Decl>, n: nat): set<string> {
    set d | d in decls && Drawn(source, d, n) :: EdgeLine(source, "uses", RefAt(d, n))
  }

  lemma FixedStep(source: string, p: seq<Decl>, d: Decl, n: nat)
    ensures FixedNodes(source, p + [d], n)
      == FixedNodes(source, p, n) + RefNodes(source, d, n)
    ensures FixedEdges(source, p + [d], n)
      == FixedEdges(source, p, n) + RefEdges(source, d, n)
  {
    assert forall x :: x in p + [d] <==> x in p || x == d;
  }

  /**
    With the counter fixed, the references of a function add exactly one
    node tagged with its kind and one `uses` edge for every resolved
    class, function or variable declaration other than the function
    itself, and nothing else.
   */
  lemma {:induction false} UsesFixedContents(source: string, decls: seq<Decl>, n: nat, s: Sets)
    ensures UsesFixed(source, decls, n, s)
      == Sets(s.nodes + FixedNodes(source, decls, n), s.edges + FixedEdges(source, decls, n))
    decreases |decls|
  {
    if decls == [] {
      assert FixedNodes(source, decls, n) == {} && FixedEdges(source, decls, n) == {};
    } else {
      var p, d := decls[..|decls| - 1], decls[|decls| - 1];
      assert decls == p + [d];
      var before := UsesFixed(source, p, n, s);
      UsesFixedContents(source, p, n, s);
      UseStepContents(source, d, n, before);
      FixedStep(source, p, d, n);
      var x := RefNodes(source, d, n);
      var y := RefEdges(source, d, n);
      AddToGrown(s, before, FixedNodes(source, p, n), FixedEdges(source, p, n), x, y);
    }
  }

  /** The counter after a variable's references: one step per placeholder made. */
  lemma {:induction false} ThreadedCounter(source: string, decls: seq<Decl>, n: nat, s: Sets)
    ensures UsesThreaded(source, decls, n, s).next == n + RefPlaceholders(decls)
    decreases |decls|
  {
    if decls != [] {
      ThreadedCounter(source, decls[..|decls| - 1], n, s);
    }
  }

  /** A variable's references, each paired with the counter value it is met with. */
  function Met(decls: seq<Decl>, n: nat): (met: seq<(Decl, nat)>)
    ensures |met| == |decls|
    decreases |decls|
  {
    if decls == [] then []
    else
      var p := decls[..|decls| - 1];
      Met(p, n) + [(decls[|decls| - 1], n + RefPlaceholders(p))]
  }

  /** The `i`-th reference is met once the placeholders of the references before it are made. */
  lemma {:induction false} MetAt(decls: seq<Decl>, n: nat, i: nat)
    requires i < |decls|
    ensures Met(decls, n)[i].0 == decls[i] && Met(decls, n)[i].1 == n + RefPlaceholders(decls[..i])
    decreases |decls|
  {
    var p := decls[..|decls| - 1];
    if i < |p| {
      MetAt(p, n, i);
      assert p[..i] == decls[..i];
    }
  }

  /** The reference nodes drawn for references met at the paired counters. */
  ghost function MetNodes(source: string, met: seq<(Decl, nat)>): set<string> {
    set e | e in met && Drawn(source, e.0, e.1) :: Boxed(RefAt(e.0, e.1), KindName(e.0))
  }

  ghost function MetEdges(source: string, met: seq<(Decl, nat)>): set<string> {
    set e | e in met && Drawn(source, e.0, e.1) :: EdgeLine(source, "uses", RefAt(e.0, e.1))
  }

  lemma MetSnoc(source: string, met: seq<(Decl, nat)>, a: seq<(Decl, nat)>, d: Decl, c: nat)
    requires met == a + [(d, c)]
    ensures MetNodes(source, met) == MetNodes(source, a) + RefNodes(source, d, c)
    ensures MetEdges(source, met) == MetEdges(source, a) + RefEdges(source, d, c)
  {
    assert forall e :: e in met <==> e in a || e == (d, c);
  }

  /** The reference nodes a variable's identifiers add, each named with the counter it was met at. */
  ghost function ThreadedNodes(source: string, decls: seq<Decl>, n: nat): set<string> {
    MetNodes(source, Met(decls, n))
  }

  ghost function ThreadedEdges(source: string, decls: seq<Decl>, n: nat): set<string> {
    MetEdges(source, Met(decls, n))
  }

  lemma ThreadedStep(source: string, decls: seq<Decl>, n: nat, c: nat)
    requires decls != [] && c == n + RefPlaceholders(decls[..|decls| - 1])
    ensures ThreadedNodes(source, decls, n)
      == ThreadedNodes(source, decls[..|decls| - 1], n) + RefNodes(source, decls[|decls| - 1], c)
    ensures ThreadedEdges(source, decls, n)
      == ThreadedEdges(source, decls[..|decls| - 1], n) + RefEdges(source, decls[|decls| - 1], c)
  {
    MetSnoc(source, Met(decls, n), Met(decls[..|decls| - 1], n), decls[|decls| - 1], c);
  }

  /**
    With the counter threaded through, the references of a variable add
    exactly one kind-tagged node and one `uses` edge for every resolved
    declaration other than the variable, named with the counter value
    reached at that reference.
   */
  lemma {:induction false} UsesThreadedContents(source: string, decls: seq<Decl>, n: nat, s: Sets)
    ensures UsesThreaded(source, decls, n, s).sets
      == Sets(s.nodes + ThreadedNodes(source, decls, n), s.edges + ThreadedEdges(source, decls, n))
    decreases |decls|
  {
    if decls == [] {
      assert ThreadedNodes(source, decls, n) == {} && ThreadedEdges(source, decls, n) == {};
    } else {
      var p, d := decls[..|decls| - 1], decls[|decls| - 1];
      assert decls == p + [d];
      UsesThreadedContents(source, p, n, s);
      ThreadedCounter(source, p, n, s);
      var before := UsesThreaded(source, p, n, s);
      var c := before.next;
      UseStepContents(source, d, c, before.sets);
      ThreadedStep(source, decls, n, c);
      var x := RefNodes(source, d, c);
      var y := RefEdges(source, d, c);
      AddToGrown(s, before.sets, ThreadedNodes(source, p, n), ThreadedEdges(source, p, n), x, y);
    }
  }

  /**
    A function's references: kind-tagged nodes and `uses` edges from the
    function to other present nodes, exactly one of each per resolved
    declaration other than the function itself.
   */
  lemma {:induction false} UsesFixedShape(source: string, decls: seq<Decl>, n: nat, s: Sets)
    ensures var r := UsesFixed(source, decls, n, s);
      && Grows(s, r, ReferenceTags, {"uses"})
      && UsesFrom(s, r, source)
      && (HasNode(s.nodes, source) && EndpointsPresent(s) ==> EndpointsPresent(r))
      && (TargetsPresent(s) ==> TargetsPresent(r))
      && r == Sets(s.nodes + FixedNodes(source, decls, n), s.edges + FixedEdges(source, decls, n))
    decreases |decls|
  {
    UsesFixedContents(source, decls, n, s);
    if decls != [] {
      var m := UsesFixed(source, decls[..|decls| - 1], n, s);
      UsesFixedShape(source, decls[..|decls| - 1], n, s);
      UseStepShape(source, decls[|decls| - 1], n, m);
      var r := UsesFixed(source, decls, n, s);
      GrowsTransitive(s, m, r, ReferenceTags, {"uses"});
      UsesFromTransitive(s, m, r, source);
      if HasNode(s.nodes, source) {
        HasNodeGrows(s.nodes, m.nodes, source);
      }
    }
  }

  /**
    A variable's references: the same shape, each reference named with the
    counter reached at it, and the counter grows by the placeholders made.
   */
  lemma {:induction false} UsesThreadedShape(source: string, decls: seq<Decl>, n: nat, s: Sets)
    ensures var r := UsesThreaded(source, decls, n, s);
      && Grows(s, r.sets, ReferenceTags, {"uses"})
      && UsesFrom(s, r.sets, source)
      && (TargetsPresent(s) ==> TargetsPresent(r.sets))
      && r.next == n + RefPlaceholders(decls)
      && r.sets == Sets(s.nodes + ThreadedNodes(source, decls, n), s.edges + ThreadedEdges(source, decls, n))
    decreases |decls|
  {
    UsesThreadedContents(source, decls, n, s);
    if decls != [] {
      var m := UsesThreaded(source, decls[..|decls| - 1], n, s);
      UsesThreadedShape(source, decls[..|decls| - 1], n, s);
      UseStepShape(source, decls[|decls| - 1], m.next, m.sets);
      var r := UsesThreaded(source, decls, n, s);
      GrowsTransitive(s, m.sets, r.sets, ReferenceTags, {"uses"});
      UsesFromTransitive(s, m.sets, r.sets, source);
    }
  }

  // ---------------------------------------------------------------------
  // Classes

  /** Placeholders made for a class and, where it has one, its base class. */
  function ClassPlaceholders(cls: ClassNode): nat {
    (if HasOwnName(cls) then 0 else 1)
      + (match cls.baseClass case None => 0 case Some(base) => if HasOwnName(base) then 0 else 1)
  }

  function ClassesPlaceholders(classes: seq<ClassNode>): nat
    decreases |classes|
  {
    if classes == [] then 0
    else ClassesPlaceholders(classes[..|classes| - 1]) + ClassPlaceholders(classes[|classes| - 1])
  }

  /** A class node on its own. */
  lemma ClassNodeStep(s: Sets, className: string)
    ensures var r := Sets(s.nodes + {Boxed(className, "class")}, s.edges);
      && Grows(s, r, {"class"}, {"extends"})
      && (EndpointsPresent(s) ==> EndpointsPresent(r))
      && (TargetsPresent(s) ==> TargetsPresent(r))
  {
    var added := {Boxed(className, "class")};
    AddNodesKeepsEndpoints(s, added);
    BoxedTagged(className, "class", className, "class", {"class"});
    assert {Boxed(className, "class"), Boxed(className, "class")} == added;
    EmptyRelated({"extends"});
    AddGrows(s, added, {}, {"class"}, {"extends"});
    assert s.edges + {} == s.edges;
  }

  /** A class node, its base class node and the `extends` edge between them. */
  lemma ExtendsStep(s: Sets, className: string, baseName: string)
    ensures var r := Sets(s.nodes + {Boxed(className, "class"), Boxed(baseName, "class")},
                          s.edges + {EdgeLine(className, "extends", baseName)});
      && Grows(s, r, {"class"}, {"extends"})
      && (EndpointsPresent(s) ==> EndpointsPresent(r))
      && (TargetsPresent(s) ==> TargetsPresent(r))
  {
    var added := {Boxed(className, "class"), Boxed(baseName, "class")};
    var t := Sets(s.nodes + added, s.edges);
    AddNodesKeepsEndpoints(s, added);
    assert HasNode(t.nodes, className) && HasNode(t.nodes, baseName);
    AddEdgeKeepsEndpoints(t, className, "extends", baseName);
    BoxedTagged(className, "class", baseName, "class", {"class"});
    EdgeRelated(className, "extends", baseName, {"extends"});
    AddGrows(s, added, {EdgeLine(className, "extends", baseName)}, {"class"}, {"extends"});
  }

  /**
    One class adds exactly its own class node; with a base class also the
    base's class node, named with the counter after the class was named,
    and exactly the one `extends` edge between the two; without one no
    edge. The base's own base is never looked at.
   */
  lemma ClassStepShape(cls: ClassNode, n: nat, s: Sets)
    ensures var r := ClassStep(cls, n, s);
      var classBoth := GetNodeId(cls, n);
      && Grows(s, r.sets, {"class"}, {"extends"})
      && Boxed(NodeRef(classBoth.name), "class") in r.sets.nodes
      && (cls.baseClass.None? ==>
            && r.sets.nodes == s.nodes + {Boxed(NodeRef(classBoth.name), "class")}
            && r.sets.edges == s.edges)
      && (cls.baseClass.Some? ==>
            var baseName := NodeRef(GetNodeId(cls.baseClass.value, classBoth.id).name);
            && Boxed(baseName, "class") in r.sets.nodes
            && r.sets.nodes == s.nodes + {Boxed(NodeRef(classBoth.name), "class"), Boxed(baseName, "class")}
            && r.sets.edges == s.edges + {EdgeLine(NodeRef(classBoth.name), "extends", baseName)})
      && (EndpointsPresent(s) ==> EndpointsPresent(r.sets))
      && (TargetsPresent(s) ==> TargetsPresent(r.sets))
      && r.next == n + ClassPlaceholders(cls)
  {
    var classBoth := GetNodeId(cls, n);
    var className := NodeRef(classBoth.name);
    var r := ClassStep(cls, n, s);
    match cls.baseClass
    case None =>
      ClassNodeStep(s, className);
      assert r.sets == Sets(s.nodes + {Boxed(className, "class")}, s.edges);
    case Some(base) =>
      var baseName := NodeRef(GetNodeId(base, classBoth.id).name);
      ExtendsStep(s, className, baseName);
      assert r.sets == Sets(s.nodes + {Boxed(className, "class"), Boxed(baseName, "class")},
                            s.edges + {EdgeLine(className, "extends", baseName)});
  }

  /**
    The classes pass adds only class nodes and `extends` edges, keeps every
    edge's endpoints present, and advances the counter once per placeholder.
   */
  lemma {:induction false} ClassesShape(classes: seq<ClassNode>, n: nat, s: Sets)
    ensures var r := ClassesSpec(classes, n, s);
      && Grows(s, r.sets, {"class"}, {"extends"})
      && (EndpointsPresent(s) ==> EndpointsPresent(r.sets))
      && (TargetsPresent(s) ==> TargetsPresent(r.sets))
      && r.next == n + ClassesPlaceholders(classes)
    decreases |classes|
  {
    if classes != [] {
      var m := ClassesSpec(classes[..|classes| - 1], n, s);
      ClassesShape(classes[..|classes| - 1], n, s);
      ClassStepShape(classes[|classes| - 1], m.next, m.sets);
      GrowsTransitive(s, m.sets, ClassesSpec(classes, n, s).sets, {"class"}, {"extends"});
    }
  }

  // ---------------------------------------------------------------------
  // Functions

  const FunctionTags: set<string> := {"function"} + ReferenceTags

  /**
    One function: exactly its rounded node and one kind-tagged node and
    `uses` edge per resolved reference, all named with the counter given,
    which is returned untouched.
   */
  lemma FunctionStepShape(func: FunctionNode, n: nat, s: Sets)
    ensures var r := FunctionStep(func, n, s);
      var funcName := NodeRef(GetNodeId(func, n).name);
      && Grows(s, r.sets, FunctionTags, {"uses"})
      && Rounded(funcName, "function") in r.sets.nodes
      && UsesFrom(s, r.sets, funcName)
      && (EndpointsPresent(s) ==> EndpointsPresent(r.sets))
      && (TargetsPresent(s) ==> TargetsPresent(r.sets))
      && r.next == n
      && r.sets == Sets(s.nodes + {Rounded(funcName, "function")} + FixedNodes(funcName, Flatten(func.refs), n),
                        s.edges + FixedEdges(funcName, Flatten(func.refs), n))
  {
    var funcName := NodeRef(GetNodeId(func, n).name);
    var line := Rounded(funcName, "function");
    var t := Sets(s.nodes + {line}, s.edges);
    UsesFixedContents(funcName, Flatten(func.refs), n, t);
    AddNodesKeepsEndpoints(s, {line});
    assert HasNode(t.nodes, funcName);
    UsesFixedShape(funcName, Flatten(func.refs), n, t);
    var r := FunctionStep(func, n, s);
    assert Grows(s, t, FunctionTags, {"uses"}) by {
      assert t.nodes - s.nodes <= {line};
    }
    GrowsWiden(t, r.sets, ReferenceTags, {"uses"}, FunctionTags, {"uses"});
    GrowsTransitive(s, t, r.sets, FunctionTags, {"uses"});
  }

  /** `mermaidFunctions` hands back the counter it was given. */
  lemma {:induction false} FunctionsKeepCounter(functions: seq<FunctionNode>, n: nat, s: Sets)
    ensures FunctionsSpec(functions, n, s).next == n
    decreases |functions|
  {
    if functions != [] {
      FunctionsKeepCounter(functions[..|functions| - 1], n, s);
    }
  }

  /**
    The functions pass adds only function and reference nodes and `uses`
    edges, and keeps every edge's endpoints present.
   */
  lemma {:induction false} FunctionsShape(functions: seq<FunctionNode>, n: nat, s: Sets)
    ensures var r := FunctionsSpec(functions, n, s);
      && Grows(s, r.sets, FunctionTags, {"uses"})
      && (EndpointsPresent(s) ==> EndpointsPresent(r.sets))
      && (TargetsPresent(s) ==> TargetsPresent(r.sets))
    decreases |functions|
  {
    if functions != [] {
      var m := FunctionsSpec(functions[..|functions| - 1], n, s);
      FunctionsShape(functions[..|functions| - 1], n, s);
      FunctionStepShape(functions[|functions| - 1], m.next, m.sets);
      GrowsTransitive(s, m.sets, FunctionsSpec(functions, n, s).sets, FunctionTags, {"uses"});
    }
  }

  /** No function gets a `uses` edge to itself, when names have no spaces. */
  lemma {:induction false} FunctionsNoSelfLoop(functions: seq<FunctionNode>, n: nat, s: Sets)
    requires forall i :: 0 <= i < |functions| ==> NameSpaceFree(functions[i])
    ensures var r := FunctionsSpec(functions, n, s);
      forall a :: SpaceFree(a) ==> EdgeLine(a, "uses", a) !in r.sets.edges - s.edges
    decreases |functions|
  {
    if functions != [] {
      var m := FunctionsSpec(functions[..|functions| - 1], n, s);
      var func := functions[|functions| - 1];
      FunctionsNoSelfLoop(functions[..|functions| - 1], n, s);
      FunctionStepShape(func, m.next, m.sets);
      var funcName := NodeRef(GetNodeId(func, m.next).name);
      NodeRefSpaceFree(func, m.next);
      UsesFromNoSelfLoop(m.sets, FunctionStep(func, m.next, m.sets).sets, funcName);
    }
  }

  // ---------------------------------------------------------------------
  // Variables

  const VariableTags: set<string> := {"const", "let", "var"} + ReferenceTags

  /**
    A variable directly under a variable statement adds exactly one node,
    tagged by the first of `const`, `let`, `var` the statement carries, and
    no edge; carrying none of the three it adds nothing. Its counter stays.
   */
  lemma VariableStatementStep(varDecl: VariableNode, n: nat, s: Sets)
    requires varDecl.parent.VariableStatement?
    ensures var r := VariableStep(varDecl, n, s);
      var name := NodeRef(varDecl.variableName);
      var modifiers := varDecl.parent.modifiers;
      && r.sets.edges == s.edges
      && r.next == n
      && (ConstKeyword in modifiers ==> r.sets.nodes == s.nodes + {Boxed(name, "const")})
      && (ConstKeyword !in modifiers && LetKeyword in modifiers ==> r.sets.nodes == s.nodes + {Boxed(name, "let")})
      && (ConstKeyword !in modifiers && LetKeyword !in modifiers && VarKeyword in modifiers ==>
            r.sets.nodes == s.nodes + {Boxed(name, "var")})
      && (ConstKeyword !in modifiers && LetKeyword !in modifiers && VarKeyword !in modifiers ==>
            r.sets == s)
  {
  }

  /** Placeholders a variable's references make; none for a statement's own variable. */
  function VariablePlaceholders(varDecl: VariableNode): nat {
    match varDecl.parent
    case VariableStatement(_) => 0
    case OtherParent => RefPlaceholders(Flatten(varDecl.initRefs))
  }

  function VariablesPlaceholders(variables: seq<VariableNode>): nat
    decreases |variables|
  {
    if variables == [] then 0
    else VariablesPlaceholders(variables[..|variables| - 1]) + VariablePlaceholders(variables[|variables| - 1])
  }

  /**
    One variable: declaration-kind and reference nodes and `uses` edges from
    the variable; outside a variable statement, exactly one kind-tagged node
    and edge per resolved reference, named with the threaded counter.
   */
  lemma VariableStepShape(varDecl: VariableNode, n: nat, s: Sets)
    ensures var r := VariableStep(varDecl, n, s);
      && Grows(s, r.sets, VariableTags, {"uses"})
      && UsesFrom(s, r.sets, NodeRef(varDecl.variableName))
      && (TargetsPresent(s) ==> TargetsPresent(r.sets))
      && r.next == n + VariablePlaceholders(varDecl)
      && (varDecl.parent.OtherParent? ==>
            r.sets == Sets(s.nodes + ThreadedNodes(NodeRef(varDecl.variableName), Flatten(varDecl.initRefs), n),
                           s.edges + ThreadedEdges(NodeRef(varDecl.variableName), Flatten(varDecl.initRefs), n)))
  {
    var name := NodeRef(varDecl.variableName);
    var r := VariableStep(varDecl, n, s);
    match varDecl.parent
    case VariableStatement(modifiers) =>
      AddNodesKeepsEndpoints(s, r.sets.nodes - s.nodes);
      assert r.sets.nodes - s.nodes <= {Boxed(name, "const"), Boxed(name, "let"), Boxed(name, "var")};
      assert Sets(s.nodes + (r.sets.nodes - s.nodes), s.edges) == r.sets;
    case OtherParent =>
      UsesThreadedShape(name, Flatten(varDecl.initRefs), n, s);
      UsesThreadedContents(name, Flatten(varDecl.initRefs), n, s);
      GrowsWiden(s, r.sets, ReferenceTags, {"uses"}, VariableTags, {"uses"});
  }

  /**
    The variables pass adds only declaration-kind and reference nodes and
    `uses` edges, keeps every edge's target present, and advances the
    counter once per placeholder made for a reference.
   */
  lemma {:induction false} VariablesShape(variables: seq<VariableNode>, n: nat, s: Sets)
    ensures var r := VariablesSpec(variables, n, s);
      && Grows(s, r.sets, VariableTags, {"uses"})
      && (TargetsPresent(s) ==> TargetsPresent(r.sets))
      && r.next == n + VariablesPlaceholders(variables)
    decreases |variables|
  {
    if variables != [] {
      var m := VariablesSpec(variables[..|variables| - 1], n, s);
      VariablesShape(variables[..|variables| - 1], n, s);
      VariableStepShape(variables[|variables| - 1], m.next, m.sets);
      GrowsTransitive(s, m.sets, VariablesSpec(variables, n, s).sets, VariableTags, {"uses"});
    }
  }

  /** No variable gets a `uses` edge to itself, when names have no spaces. */
  lemma {:induction false} VariablesNoSelfLoop(variables: seq<VariableNode>, n: nat, s: Sets)
    requires forall i :: 0 <= i < |variables| ==> SpaceFree(variables[i].variableName)
    ensures var r := VariablesSpec(variables, n, s);
      forall a :: SpaceFree(a) ==> EdgeLine(a, "uses", a) !in r.sets.edges - s.edges
    decreases |variables|
  {
    if variables != [] {
      var m := VariablesSpec(variables[..|variables| - 1], n, s);
      var varDecl := variables[|variables| - 1];
      VariablesNoSelfLoop(variables[..|variables| - 1], n, s);
      VariableStepShape(varDecl, m.next, m.sets);
      NodeRefSpaceFree(varDecl, m.next);
      UsesFromNoSelfLoop(m.sets, VariableStep(varDecl, m.next, m.sets).sets, NodeRef(varDecl.variableName));
    }
  }

  /**
    Unlike the other passes, a variable outside a variable statement gets
    a `uses` edge from an identifier that has no node: `v = f` resolving
    to function `f` yields `X_v -->|uses| X_f` and only the node `X_f`.
   */
  lemma VariableEdgeSourceWithoutNode()
    ensures var v: VariableNode := VariableDeclaration("v", OtherParent, [[FunctionDeclaration(Some("f"), [])]]);
      var r := VariablesSpec([v], 0, Sets({}, {}));
      && EdgeLine("X_v", "uses", "X_f") in r.sets.edges
      && !HasNode(r.sets.nodes, "X_v")
  {
    var f := FunctionDeclaration(Some("f"), []);
    var v: VariableNode := VariableDeclaration("v", OtherParent, [[f]]);
    assert [v][..0] == [];
    assert Flatten([[f]]) == [f] by {
      assert [[f]][..0] == [];
    }
    assert [f][..0] == [];
    assert NodeRef("v") == "X_v" && NodeRef("f") == "X_f";
    assert "X_f" != "X_v" by { assert "X_f"[2] != "X_v"[2]; }
    assert UsesThreaded("X_v", [f], 0, Sets({}, {}))
      == Pass(Sets({Boxed("X_f", "FunctionDeclaration")}, {EdgeLine("X_v", "uses", "X_f")}), 0);
    assert VariableStep(v, 0, Sets({}, {})) == UsesThreaded("X_v", [f], 0, Sets({}, {}));
    assert VariablesSpec([v], 0, Sets({}, {})) == VariableStep(v, 0, Sets({}, {}));
    var r := VariablesSpec([v], 0, Sets({}, {}));
    forall tag ensures Boxed("X_v", tag) !in r.sets.nodes && Rounded("X_v", tag) !in r.sets.nodes {
      assert Boxed("X_v", tag)[2] == 'v' && Rounded("X_v", tag)[2] == 'v';
      assert Boxed("X_f", "FunctionDeclaration")[2] == 'f';
    }
  }

  // ---------------------------------------------------------------------
  // Imports

  /** Removing `@` distributes over concatenation. */
  lemma {:induction false} StripAtConcat(a: string, b: string)
    ensures StripAt(a + b) == StripAt(a) + StripAt(b)
    decreases |a|
  {
    if a != [] {
      assert (a + b)[0] == a[0] && (a + b)[1..] == a[1..] + b;
      StripAtConcat(a[1..], b);
    } else {
      assert a + b == b;
    }
  }

  /** Every node added is an import node or a module node whose name has no `@`. */
  ghost predicate ImportNodes(added: set<string>) {
    forall x :: x in added ==>
      exists id :: x == Boxed(NodeRef(id), "import") || (x == Boxed(id, "module") && '@' !in id)
  }

  lemma ImportNodesStep(m: string, name: string, earlier: set<string>, added: set<string>)
    requires '@' !in m && ImportNodes(earlier)
    requires added <= earlier + {Boxed(NodeRef(name), "import"), Boxed(m, "module")}
    ensures ImportNodes(added)
  {
    forall x | x in added
      ensures exists id :: x == Boxed(NodeRef(id), "import") || (x == Boxed(id, "module") && '@' !in id)
    {
      if x == Boxed(NodeRef(name), "import") {
        assert x == Boxed(NodeRef(name), "import");
      } else if x == Boxed(m, "module") {
        assert x == Boxed(m, "module") && '@' !in m;
      }
    }
  }

  /** The import nodes of the named imports `names`, in closed form. */
  ghost function ImportedNodes(names: seq<string>): set<string> {
    set i | i in names :: Boxed(NodeRef(i), "import")
  }

  /** The `imported_from` edges of the named imports `names` from module `m`. */
  ghost function ImportedEdges(m: string, names: seq<string>): set<string> {
    set i | i in names :: EdgeLine(NodeRef(i), "imported_from", m)
  }

  /** The module node, drawn once there is at least one named import. */
  function ModuleNode(m: string, names: seq<string>): set<string> {
    if names == [] then {} else {Boxed(m, "module")}
  }

  lemma ImportedSnoc(m: string, names: seq<string>)
    requires names != []
    ensures ImportedNodes(names)
      == ImportedNodes(names[..|names| - 1]) + {Boxed(NodeRef(names[|names| - 1]), "import")}
    ensures ImportedEdges(m, names)
      == ImportedEdges(m, names[..|names| - 1]) + {EdgeLine(NodeRef(names[|names| - 1]), "imported_from", m)}
    ensures ModuleNode(m, names) == ModuleNode(m, names[..|names| - 1]) + {Boxed(m, "module")}
  {
    var p, x := names[..|names| - 1], names[|names| - 1];
    assert names == p + [x];
    assert forall i :: i in names <==> i in p || i == x;
  }

  /**
    The named imports of one declaration add exactly one import node and
    one `imported_from` edge per name, and the module node once there is
    a name at all.
   */
  lemma {:induction false} NamedImportsContents(m: string, names: seq<string>, s: Sets)
    ensures NamedImportsSpec(m, names, s)
      == Sets(s.nodes + (ImportedNodes(names) + ModuleNode(m, names)), s.edges + ImportedEdges(m, names))
    decreases |names|
  {
    if names == [] {
      assert ImportedNodes(names) == {} && ImportedEdges(m, names) == {};
    } else {
      var p := names[..|names| - 1];
      var before := NamedImportsSpec(m, p, s);
      NamedImportsContents(m, p, s);
      ImportedSnoc(m, names);
      var importName := NodeRef(names[|names| - 1]);
      var a, b := ImportedNodes(p) + ModuleNode(m, p), ImportedEdges(m, p);
      var x, y := {Boxed(importName, "import"), Boxed(m, "module")}, {EdgeLine(importName, "imported_from", m)};
      AddToGrown(s, before, a, b, x, y);
      assert a + x == ImportedNodes(names) + ModuleNode(m, names);
    }
  }

  lemma NamedImportsListed(m: string, names: seq<string>, s: Sets)
    ensures var r := NamedImportsSpec(m, names, s);
      && r.nodes == s.nodes + ImportedNodes(names) + ModuleNode(m, names)
      && r.edges == s.edges + ImportedEdges(m, names)
      && (forall i :: i in names ==> Boxed(NodeRef(i), "import") in r.nodes && Boxed(m, "module") in r.nodes)
  {
    NamedImportsContents(m, names, s);
    forall i | i in names
      ensures Boxed(NodeRef(i), "import") in ImportedNodes(names) && Boxed(m, "module") in ModuleNode(m, names)
    {
    }
  }

  lemma {:induction false} NamedImportsShape(m: string, names: seq<string>, s: Sets)
    requires '@' !in m
    ensures var r := NamedImportsSpec(m, names, s);
      && Grows(s, r, {"import", "module"}, {"imported_from"})
      && ImportNodes(r.nodes - s.nodes)
      && (EndpointsPresent(s) ==> EndpointsPresent(r))
      && (names == [] ==> r == s)
      && r.nodes == s.nodes + ImportedNodes(names) + ModuleNode(m, names)
      && r.edges == s.edges + ImportedEdges(m, names)
      && (forall i :: i in names ==> Boxed(NodeRef(i), "import") in r.nodes && Boxed(m, "module") in r.nodes)
    decreases |names|
  {
    NamedImportsListed(m, names, s);
    if names != [] {
      var before := NamedImportsSpec(m, names[..|names| - 1], s);
      NamedImportsShape(m, names[..|names| - 1], s);
      var name := names[|names| - 1];
      var importName := NodeRef(name);
      var added := {Boxed(importName, "import"), Boxed(m, "module")};
      var edge := EdgeLine(importName, "imported_from", m);
      var t := Sets(before.nodes + added, before.edges);
      AddNodesKeepsEndpoints(before, added);
      assert HasNode(t.nodes, importName) && HasNode(t.nodes, m);
      AddEdgeKeepsEndpoints(t, importName, "imported_from", m);
      var r := NamedImportsSpec(m, names, s);
      BoxedTagged(importName, "import", m, "module", {"import", "module"});
      EdgeRelated(importName, "imported_from", m, {"imported_from"});
      AddGrows(before, added, {edge}, {"import", "module"}, {"imported_from"});
      assert r == Sets(before.nodes + added, before.edges + {edge});
      GrowsTransitive(s, before, r, {"import", "module"}, {"imported_from"});
      ImportNodesStep(m, name, before.nodes - s.nodes, r.nodes - s.nodes);
    }
  }

  /**
    The imports pass adds import nodes, `@`-free module nodes and
    `imported_from` edges between present nodes.
   */
  lemma {:induction false} ImportsShape(imports: seq<ImportDecl>, s: Sets)
    ensures var r := ImportsSpec(imports, s);
      && Grows(s, r, {"import", "module"}, {"imported_from"})
      && ImportNodes(r.nodes - s.nodes)
      && (EndpointsPresent(s) ==> EndpointsPresent(r))
    decreases |imports|
  {
    if imports != [] {
      var before := ImportsSpec(imports[..|imports| - 1], s);
      ImportsShape(imports[..|imports| - 1], s);
      var imp := imports[|imports| - 1];
      NamedImportsShape(StripAt(imp.moduleSpecifier), imp.namedImports, before);
      var r := ImportsSpec(imports, s);
      GrowsTransitive(s, before, r, {"import", "module"}, {"imported_from"});
      assert r.nodes - s.nodes <= (before.nodes - s.nodes) + (r.nodes - before.nodes);
    }
  }

  /** Every named import of `imp` has its import node, its module node and its edge in `r`. */
  ghost predicate ImportRecorded(imp: ImportDecl, r: Sets) {
    var m := StripAt(imp.moduleSpecifier);
    forall i :: i in imp.namedImports ==>
      && Boxed(NodeRef(i), "import") in r.nodes && Boxed(m, "module") in r.nodes
      && EdgeLine(NodeRef(i), "imported_from", m) in r.edges
  }

  /** Nothing an import declaration recorded is lost by the declarations after it. */
  lemma {:induction false} ImportsRecorded(imports: seq<ImportDecl>, s: Sets)
    ensures forall k :: 0 <= k < |imports| ==> ImportRecorded(imports[k], ImportsSpec(imports, s))
    decreases |imports|
  {
    if imports != [] {
      var p, imp := imports[..|imports| - 1], imports[|imports| - 1];
      var before := ImportsSpec(p, s);
      var r := ImportsSpec(imports, s);
      var m := StripAt(imp.moduleSpecifier);
      ImportsRecorded(p, s);
      NamedImportsContents(m, imp.namedImports, before);
      assert before.nodes <= r.nodes && before.edges <= r.edges;
      forall k | 0 <= k < |imports|
        ensures ImportRecorded(imports[k], r)
      {
        if k < |p| {
          assert imports[k] == p[k] && ImportRecorded(p[k], before);
        } else {
          forall i | i in imp.namedImports
            ensures Boxed(NodeRef(i), "import") in ImportedNodes(imp.namedImports)
            ensures Boxed(m, "module") in ModuleNode(m, imp.namedImports)
            ensures EdgeLine(NodeRef(i), "imported_from", m) in ImportedEdges(m, imp.namedImports)
          {
          }
        }
      }
    }
  }

  /** Import declarations without named imports leave both sets as they were. */
  lemma {:induction false} ImportsWithoutNamesUnchanged(imports: seq<ImportDecl>, s: Sets)
    requires forall i :: 0 <= i < |imports| ==> imports[i].namedImports == []
    ensures ImportsSpec(imports, s) == s
    decreases |imports|
  {
    if imports != [] {
      ImportsWithoutNamesUnchanged(imports[..|imports| - 1], s);
    }
  }

  /** The scope marker of a scoped package name is dropped. */
  lemma StripScopeMarker()
    ensures StripAt("@scope/pkg") == "scope/pkg"
  {
    assert "@scope/pkg" == "@" + "scope/pkg";
    StripAtConcat("@", "scope/pkg");
    assert StripAt("@") == [] by { assert "@"[1..] == []; }
    assert '@' !in "scope/pkg";
  }

  /** A single import declaration with one named import, into empty sets. */
  lemma OneImport(specifier: string, name: string)
    ensures ImportsSpec([ImportDecl(specifier, [name])], Sets({}, {}))
      == Sets({Boxed(NodeRef(name), "import"), Boxed(StripAt(specifier), "module")},
              {EdgeLine(NodeRef(name), "imported_from", StripAt(specifier))})
  {
    var imports, m, e := [ImportDecl(specifier, [name])], StripAt(specifier), Sets({}, {});
    assert imports[..0] == [] && [name][..0] == [];
    var added := {Boxed(NodeRef(name), "import"), Boxed(m, "module")};
    var edge := {EdgeLine(NodeRef(name), "imported_from", m)};
    assert NamedImportsSpec(m, [name], e) == Sets({} + added, {} + edge);
    assert {} + added == added && {} + edge == edge;
  }

  /** `import { foo } from "@scope/pkg"` */
  lemma ScopedImport()
    ensures ImportsSpec([ImportDecl("@scope/pkg", ["foo"])], Sets({}, {}))
      == Sets({Boxed("X_foo", "import"), Boxed("scope/pkg", "module")},
              {EdgeLine("X_foo", "imported_from", "scope/pkg")})
  {
    assert NodeRef("foo") == "X_foo";
    StripScopeMarker();
    OneImport("@scope/pkg", "foo");
  }
}
