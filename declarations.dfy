/**
  What the extraction reads from the TypeScript syntax tree, as plain values.

  A declaration records only what the passes ask of it: its name, for a
  class its immediate base class, and for a function or a variable what
  each identifier beneath it resolves to. Those resolutions are a sequence
  with one entry per identifier, in document order; each entry lists the
  declarations of the identifier's symbol, and an identifier without a
  symbol has the empty list. For a variable, `initRefs` covers all identifiers of
  the declaration, its own name and any type annotation included, not
  only those of its initializer.
 */
module Declarations {
  import opened Wrappers

  /** Modifier keywords a variable statement can carry. */
  datatype Keyword = ConstKeyword | LetKeyword | VarKeyword | ExportKeyword | DeclareKeyword

  /** The syntactic parent of a variable declaration. */
  datatype Parent =
    | VariableStatement(modifiers: set<Keyword>)
    | OtherParent

  datatype Decl =
    | ClassDeclaration(className: Option<string>, baseClass: Option<Decl>)
    | FunctionDeclaration(functionName: Option<string>, refs: seq<seq<Decl>>)
    | VariableDeclaration(variableName: string, parent: Parent, initRefs: seq<seq<Decl>>)
    | OtherDeclaration

  type ClassNode = d: Decl | d.ClassDeclaration? witness ClassDeclaration(None, None)
  type FunctionNode = d: Decl | d.FunctionDeclaration? witness FunctionDeclaration(None, [])
  type VariableNode = d: Decl | d.VariableDeclaration? witness VariableDeclaration("", OtherParent, [])

  datatype ImportDecl = ImportDecl(moduleSpecifier: string, namedImports: seq<string>)

  /** The top-level declarations of one source file, each list in document order. */
  datatype SourceFile = SourceFile(
    classes: seq<ClassNode>,
    functions: seq<FunctionNode>,
    variables: seq<VariableNode>,
    imports: seq<ImportDecl>)

  /** The declaration kinds a reference may produce a node for. */
  predicate IsReferenceKind(d: Decl) {
    d.ClassDeclaration? || d.FunctionDeclaration? || d.VariableDeclaration?
  }

  /** ts-morph's `getKindName()` for the three reference kinds. */
  function KindName(d: Decl): (r: string)
    requires IsReferenceKind(d)
    ensures r == "ClassDeclaration" <==> d.ClassDeclaration?
    ensures r == "FunctionDeclaration" <==> d.FunctionDeclaration?
    ensures r == "VariableDeclaration" <==> d.VariableDeclaration?
  {
    match d
    case ClassDeclaration(_, _) => "ClassDeclaration"
    case FunctionDeclaration(_, _) => "FunctionDeclaration"
    case VariableDeclaration(_, _, _) => "VariableDeclaration"
  }

  /** The resolutions of every identifier, one after the other. */
  function Flatten(refs: seq<seq<Decl>>): seq<Decl>
    decreases |refs|
  {
    if refs == [] then [] else Flatten(refs[..|refs| - 1]) + refs[|refs| - 1]
  }
}
