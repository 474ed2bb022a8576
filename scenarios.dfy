/**
  Small programs run through the passes of src/lib/in_file.ts, with the
  node and edge sets they leave behind written out in full.
 */
module Scenarios {
  import opened Wrappers
  import opened Decimal
  import opened Declarations
  import opened Graphs
  import opened InFile
  import opened InFileProperties

  const Empty := Sets({}, {})

  /** A named function that resolves none of its identifiers. */
  function Plain(f: string): FunctionNode {
    FunctionDeclaration(Some(f), [])
  }

  /** Two functions: the second is taken with the counter the first was given. */
  lemma FunctionsOfTwo(a: FunctionNode, b: FunctionNode, n: nat, s: Sets)
    ensures FunctionsSpec([a, b], n, s) == FunctionStep(b, n, FunctionStep(a, n, s).sets)
  {
    var fs := [a, b];
    assert fs[..1] == [a] && fs[..1][..0] == [];
    assert FunctionsSpec(fs[..1], n, s) == FunctionStep(a, n, s);
  }

  /** Two unrelated named functions: two function nodes, no edge. */
  lemma TwoUnrelatedFunctions(f: string, g: string, n: nat)
    requires f != "" && g != ""
    ensures FunctionsSpec([Plain(f), Plain(g)], n, Empty)
      == Pass(Sets({Rounded(NodeRef(f), "function"), Rounded(NodeRef(g), "function")}, {}), n)
  {
    var fs := [Plain(f), Plain(g)];
    assert fs[..1] == [Plain(f)] && fs[..1][..0] == [];
    var rf, rg := Rounded(NodeRef(f), "function"), Rounded(NodeRef(g), "function");
    assert FunctionStep(Plain(f), n, Empty) == Pass(Sets({} + {rf}, {}), n);
    assert {} + {rf} == {rf};
    assert FunctionsSpec(fs[..1], n, Empty) == FunctionStep(Plain(f), n, Empty);
    assert FunctionStep(Plain(g), n, Sets({rf}, {})) == Pass(Sets({rf} + {rg}, {}), n);
    assert FunctionsSpec(fs, n, Empty) == FunctionStep(Plain(g), n, Sets({rf}, {}));
    assert {rf} + {rg} == {rf, rg};
  }

  /** `class B extends A {}` followed by `class A {}`. */
  lemma ClassExtends(a: string, b: string, n: nat)
    requires a != "" && b != ""
    ensures var classA: ClassNode := ClassDeclaration(Some(a), None);
      var classB: ClassNode := ClassDeclaration(Some(b), Some(classA));
      ClassesSpec([classB, classA], n, Empty)
      == Pass(Sets({Boxed(NodeRef(b), "class"), Boxed(NodeRef(a), "class")},
                   {EdgeLine(NodeRef(b), "extends", NodeRef(a))}), n)
  {
    var classA: ClassNode := ClassDeclaration(Some(a), None);
    var classB: ClassNode := ClassDeclaration(Some(b), Some(classA));
    var cs := [classB, classA];
    assert cs[..1] == [classB] && cs[..1][..0] == [];
    var xa, xb := Boxed(NodeRef(a), "class"), Boxed(NodeRef(b), "class");
    var e := EdgeLine(NodeRef(b), "extends", NodeRef(a));
    assert ClassStep(classB, n, Empty) == Pass(Sets({} + {xb} + {xa}, {} + {e}), n);
    assert {} + {xb} + {xa} == {xb, xa} && {} + {e} == {e};
    assert ClassesSpec(cs[..1], n, Empty) == ClassStep(classB, n, Empty);
    assert ClassStep(classA, n, Sets({xb, xa}, {e})) == Pass(Sets({xb, xa} + {xa}, {e}), n);
    assert ClassesSpec(cs, n, Empty) == ClassStep(classA, n, Sets({xb, xa}, {e}));
    assert {xb, xa} + {xa} == {xb, xa};
  }

  /**
    The classes pass has no self check: a class whose base class resolves
    to a declaration of the same name gets an `extends` edge to itself.
   */
  lemma ClassExtendsItself(a: string, n: nat)
    requires a != ""
    ensures var cls: ClassNode := ClassDeclaration(Some(a), Some(ClassDeclaration(Some(a), None)));
      EdgeLine(NodeRef(a), "extends", NodeRef(a)) in ClassesSpec([cls], n, Empty).sets.edges
  {
    var cls: ClassNode := ClassDeclaration(Some(a), Some(ClassDeclaration(Some(a), None)));
    assert [cls][..0] == [];
    assert ClassesSpec([cls], n, Empty) == ClassStep(cls, n, Empty);
  }

  /** A named function whose only resolved identifier is the named function `g`. */
  lemma CallerStep(f: string, g: string, n: nat, s: Sets)
    requires f != "" && g != "" && f != g
    ensures FunctionStep(FunctionDeclaration(Some(f), [[Plain(g)]]), n, s)
      == Pass(Sets(s.nodes + {Rounded(NodeRef(f), "function"), Boxed(NodeRef(g), "FunctionDeclaration")},
                   s.edges + {EdgeLine(NodeRef(f), "uses", NodeRef(g))}), n)
  {
    assert Flatten([[Plain(g)]]) == [Plain(g)] by { assert [[Plain(g)]][..0] == []; }
    assert [Plain(g)][..0] == [];
    assert NodeRef(f)[2..] == f && NodeRef(g)[2..] == g;
    var t := Sets(s.nodes + {Rounded(NodeRef(f), "function")}, s.edges);
    assert UsesFixed(NodeRef(f), [Plain(g)], n, t)
      == Sets(t.nodes + {Boxed(NodeRef(g), "FunctionDeclaration")}, t.edges + {EdgeLine(NodeRef(f), "uses", NodeRef(g))});
    assert t.nodes + {Boxed(NodeRef(g), "FunctionDeclaration")}
      == s.nodes + {Rounded(NodeRef(f), "function"), Boxed(NodeRef(g), "FunctionDeclaration")};
  }

  /** `f` calls `g` and `g` calls `f`: both `uses` edges are kept. */
  lemma MutualRecursion(f: string, g: string, n: nat)
    requires f != "" && g != "" && f != g && SpaceFree(f) && SpaceFree(g)
    ensures var r := FunctionsSpec([FunctionDeclaration(Some(f), [[Plain(g)]]),
                                    FunctionDeclaration(Some(g), [[Plain(f)]])], n, Empty);
      && r.sets.edges == {EdgeLine(NodeRef(f), "uses", NodeRef(g)), EdgeLine(NodeRef(g), "uses", NodeRef(f))}
      && |r.sets.edges| == 2
  {
    var fDecl: FunctionNode := FunctionDeclaration(Some(f), [[Plain(g)]]);
    var gDecl: FunctionNode := FunctionDeclaration(Some(g), [[Plain(f)]]);
    var fg, gf := EdgeLine(NodeRef(f), "uses", NodeRef(g)), EdgeLine(NodeRef(g), "uses", NodeRef(f));
    FunctionsOfTwo(fDecl, gDecl, n, Empty);
    CallerStep(f, g, n, Empty);
    CallerStep(g, f, n, FunctionStep(fDecl, n, Empty).sets);
    assert {} + {fg} + {gf} == {fg, gf};
    EdgesBothWays(f, g);
  }

  /** The two directions between different space-free names are different lines. */
  lemma EdgesBothWays(f: string, g: string)
    requires SpaceFree(f) && SpaceFree(g) && f != g
    ensures EdgeLine(NodeRef(f), "uses", NodeRef(g)) != EdgeLine(NodeRef(g), "uses", NodeRef(f))
  {
    PrefixedSpaceFree(f);
    PrefixedSpaceFree(g);
    assert NodeRef(f) != NodeRef(g) by {
      assert NodeRef(f)[2..] == f && NodeRef(g)[2..] == g;
    }
    if EdgeLine(NodeRef(f), "uses", NodeRef(g)) == EdgeLine(NodeRef(g), "uses", NodeRef(f)) {
      UsesLineInjective(NodeRef(f), NodeRef(g), NodeRef(g), NodeRef(f));
    }
  }

  lemma PrefixedSpaceFree(f: string)
    requires SpaceFree(f)
    ensures SpaceFree(NodeRef(f))
  {
    forall i | 0 <= i < |NodeRef(f)| ensures NodeRef(f)[i] != ' ' {
      if i >= 2 { assert NodeRef(f)[i] == f[i - 2]; }
    }
  }

  /** `const x = 1;` and `let y = 2;` at top level. */
  lemma ConstAndLet(x: string, y: string, n: nat)
    ensures var vx: VariableNode := VariableDeclaration(x, VariableStatement({ConstKeyword}), []);
      var vy: VariableNode := VariableDeclaration(y, VariableStatement({LetKeyword}), []);
      VariablesSpec([vx, vy], n, Empty)
      == Pass(Sets({Boxed(NodeRef(x), "const"), Boxed(NodeRef(y), "let")}, {}), n)
  {
    var vx: VariableNode := VariableDeclaration(x, VariableStatement({ConstKeyword}), []);
    var vy: VariableNode := VariableDeclaration(y, VariableStatement({LetKeyword}), []);
    var vs := [vx, vy];
    assert vs[..1] == [vx] && vs[..1][..0] == [];
    var cx, ly := Boxed(NodeRef(x), "const"), Boxed(NodeRef(y), "let");
    assert VariableStep(vx, n, Empty) == Pass(Sets({} + {cx}, {}), n);
    assert {} + {cx} == {cx};
    assert VariablesSpec(vs[..1], n, Empty) == VariableStep(vx, n, Empty);
    assert VariableStep(vy, n, Sets({cx}, {})) == Pass(Sets({cx} + {ly}, {}), n);
    assert VariablesSpec(vs, n, Empty) == VariableStep(vy, n, Sets({cx}, {}));
    assert {cx} + {ly} == {cx, ly};
  }

  /** A function that calls itself gets no edge to itself. */
  lemma DirectRecursion(f: string, n: nat)
    requires f != ""
    ensures FunctionsSpec([FunctionDeclaration(Some(f), [[Plain(f)]])], n, Empty)
      == Pass(Sets({Rounded(NodeRef(f), "function")}, {}), n)
  {
    var fDecl: FunctionNode := FunctionDeclaration(Some(f), [[Plain(f)]]);
    assert [fDecl][..0] == [];
    assert Flatten([[Plain(f)]]) == [Plain(f)] by { assert [[Plain(f)]][..0] == []; }
    assert [Plain(f)][..0] == [];
    var rf := Rounded(NodeRef(f), "function");
    var t := Sets({} + {rf}, {});
    assert UseStep(NodeRef(f), Plain(f), n, t) == Pass(t, n);
    assert UsesFixed(NodeRef(f), [Plain(f)], n, t) == t;
    assert FunctionStep(fDecl, n, Empty) == Pass(t, n);
    assert FunctionsSpec([fDecl], n, Empty) == FunctionStep(fDecl, n, Empty);
    assert {} + {rf} == {rf};
  }

  /**
    The functions pass never advances the counter, so two functions without
    a name in one file get the same placeholder and share one node.
   */
  lemma UnnamedFunctionsShareNode(n: nat)
    ensures var anon: FunctionNode := FunctionDeclaration(None, []);
      FunctionsSpec([anon, anon], n, Empty)
      == Pass(Sets({Rounded(NodeRef("nn_function_" + NatToString(n)), "function")}, {}), n)
  {
    var anon: FunctionNode := FunctionDeclaration(None, []);
    var line := Rounded(NodeRef("nn_function_" + NatToString(n)), "function");
    FunctionsOfTwo(anon, anon, n, Empty);
    assert FunctionStep(anon, n, Empty) == Pass(Sets({} + {line}, {}), n);
    assert {} + {line} == {line};
    assert FunctionStep(anon, n, Sets({line}, {})) == Pass(Sets({line} + {line}, {}), n);
    assert {line} + {line} == {line};
  }
}
