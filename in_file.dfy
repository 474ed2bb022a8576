/**
  Naming of declarations and the four extraction passes of
  src/lib/in_file.ts. Each pass adds lines to the shared node and edge
  sets in place and returns the counter it threads; what it adds is given
  by a specification function over the same inputs, folded from the back
  of the declaration list so that it follows the loop one step at a time.
 */
module InFile {
  import opened Wrappers
  import opened Decimal
  import opened Declarations
  import opened Graphs

  /** The result of `getNodeId`: the name and the counter to continue with. */
  datatype NodeId = NodeId(name: string, id: nat)

  /** JavaScript truthiness of `getName()`: present and not empty. */
  predicate Truthy(name: Option<string>) {
    name.Some? && name.value != ""
  }

  /** The declaration supplies its own name, so none has to be made up. */
  predicate HasOwnName(d: Decl) {
    match d
    case ClassDeclaration(name, _) => Truthy(name)
    case FunctionDeclaration(name, _) => Truthy(name)
    case VariableDeclaration(_, _, _) => true
    case OtherDeclaration => false
  }

  function OwnName(d: Decl): string
    requires HasOwnName(d)
  {
    match d
    case ClassDeclaration(name, _) => name.value
    case FunctionDeclaration(name, _) => name.value
    case VariableDeclaration(name, _, _) => name
  }

  /** The text a made-up name starts with, before the counter. */
  function PlaceholderPrefix(d: Decl): string {
    match d
    case ClassDeclaration(_, _) => "nn_class_"
    case FunctionDeclaration(_, _) => "nn_function_"
    case _ => "node_"
  }

  /**
    `getNodeId`: a declared name is kept and the counter is returned as it
    came; otherwise the name is the placeholder for the counter's value and,
    as `uniqueIdCounter++` is read after the increment, the returned counter
    is one more.
   */
  function GetNodeId(node: Decl, uniqueIdCounter: nat): (r: NodeId)
    ensures HasOwnName(node) ==> r.name == OwnName(node)
    ensures !HasOwnName(node) ==> r.name == PlaceholderPrefix(node) + NatToString(uniqueIdCounter)
    ensures r.id == if HasOwnName(node) then uniqueIdCounter else uniqueIdCounter + 1
  {
    match node
    case ClassDeclaration(name, _) =>
      if Truthy(name) then NodeId(name.value, uniqueIdCounter)
      else NodeId("nn_class_" + NatToString(uniqueIdCounter), uniqueIdCounter + 1)
    case FunctionDeclaration(name, _) =>
      if Truthy(name) then NodeId(name.value, uniqueIdCounter)
      else NodeId("nn_function_" + NatToString(uniqueIdCounter), uniqueIdCounter + 1)
    case VariableDeclaration(name, _, _) =>
      NodeId(name, uniqueIdCounter)
    case OtherDeclaration =>
      NodeId("node_" + NatToString(uniqueIdCounter), uniqueIdCounter + 1)
  }

  // ---------------------------------------------------------------------
  // Classes (in_file.ts:42-73)

  /** One iteration of the class loop. */
  function ClassStep(cls: ClassNode, n: nat, s: Sets): Pass {
    var classBoth := GetNodeId(cls, n);
    var className := NodeRef(classBoth.name);
    var withClass := Sets(s.nodes + {Boxed(className, "class")}, s.edges);
    match cls.baseClass
    case None => Pass(withClass, classBoth.id)
    case Some(base) =>
      var baseBoth := GetNodeId(base, classBoth.id);
      var baseName := NodeRef(baseBoth.name);
      Pass(Sets(withClass.nodes + {Boxed(baseName, "class")},
                withClass.edges + {EdgeLine(className, "extends", baseName)}),
           baseBoth.id)
  }

  function ClassesSpec(classes: seq<ClassNode>, n: nat, s: Sets): Pass
    decreases |classes|
  {
    if classes == [] then Pass(s, n)
    else
      var before := ClassesSpec(classes[..|classes| - 1], n, s);
      ClassStep(classes[|classes| - 1], before.next, before.sets)
  }

  /** `mermaidClasses` */
  method MermaidClasses(file: SourceFile, g: Graph, uniqueIdCounter: nat) returns (next: nat)
    modifies g
    ensures Pass(g.State(), next) == ClassesSpec(file.classes, uniqueIdCounter, old(g.State()))
  {
    ghost var start := g.State();
    var counter := uniqueIdCounter;
    var classes := file.classes;
    for i := 0 to |classes|
      invariant Pass(g.State(), counter) == ClassesSpec(classes[..i], uniqueIdCounter, start)
    {
      var cls := classes[i];
      var classBoth := GetNodeId(cls, counter);
      var className := NodeRef(classBoth.name);
      counter := classBoth.id;
      g.AddNode(Boxed(className, "class"));
      match cls.baseClass {
        case None =>
        case Some(baseClass) =>
          var baseClassBoth := GetNodeId(baseClass, counter);
          var baseClassName := NodeRef(baseClassBoth.name);
          counter := baseClassBoth.id;
          g.AddNode(Boxed(baseClassName, "class"));
          g.AddEdge(EdgeLine(className, "extends", baseClassName));
      }
      assert classes[..i + 1][..i] == classes[..i];
    }
    assert classes[..|classes|] == classes;
    next := counter;
  }

  // ---------------------------------------------------------------------
  // References (in_file.ts:92-112 and :151-174)

  /**
    One declaration a reference resolved to, seen from the node `source`:
    a class, function or variable gets a rectangular node tagged with its
    kind name and a `uses` edge, unless it names `source` itself.
   */
  function UseStep(source: string, decl: Decl, n: nat, s: Sets): Pass {
    if IsReferenceKind(decl) then
      var refIdBoth := GetNodeId(decl, n);
      var refId := NodeRef(refIdBoth.name);
      if refId != source then
        Pass(Sets(s.nodes + {Boxed(refId, KindName(decl))}, s.edges + {EdgeLine(source, "uses", refId)}),
             refIdBoth.id)
      else Pass(s, refIdBoth.id)
    else Pass(s, n)
  }

  /** The references of a function: every one is named with the same counter. */
  function UsesFixed(source: string, decls: seq<Decl>, n: nat, s: Sets): Sets
    decreases |decls|
  {
    if decls == [] then s
    else UseStep(source, decls[|decls| - 1], n, UsesFixed(source, decls[..|decls| - 1], n, s)).sets
  }

  /** The references of a variable: the counter is threaded from one to the next. */
  function UsesThreaded(source: string, decls: seq<Decl>, n: nat, s: Sets): Pass
    decreases |decls|
  {
    if decls == [] then Pass(s, n)
    else
      var before := UsesThreaded(source, decls[..|decls| - 1], n, s);
      UseStep(source, decls[|decls| - 1], before.next, before.sets)
  }

  // ---------------------------------------------------------------------
  // Functions (in_file.ts:75-115)

  /** One iteration of the function loop; the counter is left as it was. */
  function FunctionStep(func: FunctionNode, n: nat, s: Sets): Pass {
    var funcBoth := GetNodeId(func, n);
    var funcName := NodeRef(funcBoth.name);
    Pass(UsesFixed(funcName, Flatten(func.refs), n, Sets(s.nodes + {Rounded(funcName, "function")}, s.edges)), n)
  }

  function FunctionsSpec(functions: seq<FunctionNode>, n: nat, s: Sets): Pass
    decreases |functions|
  {
    if functions == [] then Pass(s, n)
    else
      var before := FunctionsSpec(functions[..|functions| - 1], n, s);
      FunctionStep(functions[|functions| - 1], before.next, before.sets)
  }

  /** Extending a flattened prefix by one more resolution of the current identifier. */
  lemma ExtendPrefix(done: seq<Decl>, decls: seq<Decl>, j: nat)
    requires j < |decls|
    ensures var longer := done + decls[..j + 1];
      |longer| == |done| + j + 1 && longer[..|done| + j] == done + decls[..j] && longer[|done| + j] == decls[j]
  {
  }

  /**
    The identifier loop of `mermaidFunctions` for the function named
    `funcName`: every resolved declaration is named with the same counter.
   */
  method AddFunctionReferences(g: Graph, funcName: string, identifiers: seq<seq<Decl>>, uniqueIdCounter: nat)
    modifies g
    ensures g.State() == UsesFixed(funcName, Flatten(identifiers), uniqueIdCounter, old(g.State()))
  {
    ghost var start := g.State();
    for k := 0 to |identifiers|
      invariant g.State() == UsesFixed(funcName, Flatten(identifiers[..k]), uniqueIdCounter, start)
    {
      var decls := identifiers[k];
      ghost var done := Flatten(identifiers[..k]);
      assert done + decls[..0] == done;
      for j := 0 to |decls|
        invariant g.State() == UsesFixed(funcName, done + decls[..j], uniqueIdCounter, start)
      {
        var decl := decls[j];
        if IsReferenceKind(decl) {
          var refIdBoth := GetNodeId(decl, uniqueIdCounter);
          var refId := NodeRef(refIdBoth.name);
          if refId != funcName {
            g.AddNode(Boxed(refId, KindName(decl)));
            g.AddEdge(EdgeLine(funcName, "uses", refId));
          }
        }
        ExtendPrefix(done, decls, j);
      }
      assert decls[..|decls|] == decls;
      assert identifiers[..k + 1][..k] == identifiers[..k];
      assert Flatten(identifiers[..k + 1]) == done + decls;
    }
    assert identifiers[..|identifiers|] == identifiers;
  }

  /** `mermaidFunctions` */
  method MermaidFunctions(file: SourceFile, g: Graph, uniqueIdCounter: nat) returns (next: nat)
    modifies g
    ensures Pass(g.State(), next) == FunctionsSpec(file.functions, uniqueIdCounter, old(g.State()))
  {
    ghost var start := g.State();
    var functions := file.functions;
    for i := 0 to |functions|
      invariant Pass(g.State(), uniqueIdCounter) == FunctionsSpec(functions[..i], uniqueIdCounter, start)
    {
      var func := functions[i];
      var funcBoth := GetNodeId(func, uniqueIdCounter);
      var funcName := NodeRef(funcBoth.name);
      g.AddNode(Rounded(funcName, "function"));
      AddFunctionReferences(g, funcName, func.refs, uniqueIdCounter);
      assert functions[..i + 1][..i] == functions[..i];
    }
    assert functions[..|functions|] == functions;
    next := uniqueIdCounter;
  }

  // ---------------------------------------------------------------------
  // Variables (in_file.ts:117-178)

  /** One iteration of the variable loop. */
  function VariableStep(varDecl: VariableNode, n: nat, s: Sets): Pass {
    var both := GetNodeId(varDecl, n);
    var name := NodeRef(both.name);
    match varDecl.parent
    case VariableStatement(modifiers) =>
      if ConstKeyword in modifiers then Pass(Sets(s.nodes + {Boxed(name, "const")}, s.edges), both.id)
      else if LetKeyword in modifiers then Pass(Sets(s.nodes + {Boxed(name, "let")}, s.edges), both.id)
      else if VarKeyword in modifiers then Pass(Sets(s.nodes + {Boxed(name, "var")}, s.edges), both.id)
      else Pass(s, both.id)
    case OtherParent =>
      UsesThreaded(name, Flatten(varDecl.initRefs), both.id, s)
  }

  function VariablesSpec(variables: seq<VariableNode>, n: nat, s: Sets): Pass
    decreases |variables|
  {
    if variables == [] then Pass(s, n)
    else
      var before := VariablesSpec(variables[..|variables| - 1], n, s);
      VariableStep(variables[|variables| - 1], before.next, before.sets)
  }

  /**
    The identifier loop of `mermaidConsvars` for the variable named `name`:
    the counter is threaded through every resolved declaration.
   */
  method AddVariableReferences(g: Graph, name: string, identifiers: seq<seq<Decl>>, uniqueIdCounter: nat)
    returns (next: nat)
    modifies g
    ensures Pass(g.State(), next) == UsesThreaded(name, Flatten(identifiers), uniqueIdCounter, old(g.State()))
  {
    ghost var start := g.State();
    var counter := uniqueIdCounter;
    for k := 0 to |identifiers|
      invariant Pass(g.State(), counter) == UsesThreaded(name, Flatten(identifiers[..k]), uniqueIdCounter, start)
    {
      var decls := identifiers[k];
      ghost var done := Flatten(identifiers[..k]);
      assert done + decls[..0] == done;
      for j := 0 to |decls|
        invariant Pass(g.State(), counter) == UsesThreaded(name, done + decls[..j], uniqueIdCounter, start)
      {
        var decl := decls[j];
        if IsReferenceKind(decl) {
          var refIdBoth := GetNodeId(decl, counter);
          var refId := NodeRef(refIdBoth.name);
          counter := refIdBoth.id;
          if refId != name {
            g.AddNode(Boxed(refId, KindName(decl)));
            g.AddEdge(EdgeLine(name, "uses", refId));
          }
        }
        ExtendPrefix(done, decls, j);
      }
      assert decls[..|decls|] == decls;
      assert identifiers[..k + 1][..k] == identifiers[..k];
      assert Flatten(identifiers[..k + 1]) == done + decls;
    }
    assert identifiers[..|identifiers|] == identifiers;
    next := counter;
  }

  /** `mermaidConsvars` */
  method MermaidConsvars(file: SourceFile, g: Graph, uniqueIdCounter: nat) returns (next: nat)
    modifies g
    ensures Pass(g.State(), next) == VariablesSpec(file.variables, uniqueIdCounter, old(g.State()))
  {
    ghost var start := g.State();
    var counter := uniqueIdCounter;
    var variables := file.variables;
    for i := 0 to |variables|
      invariant Pass(g.State(), counter) == VariablesSpec(variables[..i], uniqueIdCounter, start)
    {
      var varDecl := variables[i];
      var both := GetNodeId(varDecl, counter);
      var name := NodeRef(both.name);
      counter := both.id;
      var kind: string;
      match varDecl.parent {
        case VariableStatement(modifiers) =>
          if ConstKeyword in modifiers {
            kind := "const";
            g.AddNode(Boxed(name, kind));
          } else if LetKeyword in modifiers {
            kind := "let";
            g.AddNode(Boxed(name, kind));
          } else if VarKeyword in modifiers {
            kind := "var";
            g.AddNode(Boxed(name, kind));
          } else {
            kind := "other_var";
          }
        case OtherParent =>
          counter := AddVariableReferences(g, name, varDecl.initRefs, counter);
      }
      assert variables[..i + 1][..i] == variables[..i];
    }
    assert variables[..|variables|] == variables;
    next := counter;
  }

  // ---------------------------------------------------------------------
  // Imports (in_file.ts:180-199)

  /** `replace(/[@]/g, "")`: the string with every `@` taken out. */
  function StripAt(specifier: string): (r: string)
    ensures '@' !in r
    ensures '@' !in specifier ==> r == specifier
    ensures forall c :: c != '@' ==> multiset(r)[c] == multiset(specifier)[c]
    decreases |specifier|
  {
    if specifier == [] then []
    else
      var rest := StripAt(specifier[1..]);
      assert specifier == [specifier[0]] + specifier[1..];
      if specifier[0] == '@' then rest else [specifier[0]] + rest
  }

  /** The named imports of one import declaration, from module `m`. */
  function NamedImportsSpec(m: string, names: seq<string>, s: Sets): Sets
    decreases |names|
  {
    if names == [] then s
    else
      var before := NamedImportsSpec(m, names[..|names| - 1], s);
      var importName := NodeRef(names[|names| - 1]);
      Sets(before.nodes + {Boxed(importName, "import"), Boxed(m, "module")},
           before.edges + {EdgeLine(importName, "imported_from", m)})
  }

  function ImportsSpec(imports: seq<ImportDecl>, s: Sets): Sets
    decreases |imports|
  {
    if imports == [] then s
    else
      var imp := imports[|imports| - 1];
      NamedImportsSpec(StripAt(imp.moduleSpecifier), imp.namedImports, ImportsSpec(imports[..|imports| - 1], s))
  }

  /** `mermaidImports` */
  method MermaidImports(file: SourceFile, g: Graph)
    modifies g
    ensures g.State() == ImportsSpec(file.imports, old(g.State()))
  {
    ghost var start := g.State();
    var imports := file.imports;
    for i := 0 to |imports|
      invariant g.State() == ImportsSpec(imports[..i], start)
    {
      var imp := imports[i];
      var moduleSpecifier := StripAt(imp.moduleSpecifier);
      ghost var before := g.State();
      var names := imp.namedImports;
      for j := 0 to |names|
        invariant g.State() == NamedImportsSpec(moduleSpecifier, names[..j], before)
      {
        var importName := names[j];
        importName := NodeRef(importName);
        g.AddNode(Boxed(importName, "import"));
        g.AddNode(Boxed(moduleSpecifier, "module"));
        g.AddEdge(EdgeLine(importName, "imported_from", moduleSpecifier));
        assert names[..j + 1][..j] == names[..j];
      }
      assert names[..|names|] == names;
      assert imports[..i + 1][..i] == imports[..i];
    }
    assert imports[..|imports|] == imports;
  }
}
