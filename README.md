# Mermaid interdependency diagram: a Dafny model

The tool reads a TypeScript project and writes a Mermaid `graph TD`
diagram of its top-level declarations. It looks at classes, functions and
variables, and at the `extends` and `uses` relations between them. This
project models the tool's core and proves what the core guarantees. The
core is:

- the naming function `getNodeId` (src/lib/in_file.ts);
- the four extraction passes `mermaidClasses`, `mermaidFunctions`,
  `mermaidConsvars` and `mermaidImports` (src/lib/in_file.ts);
- the per-file driver and the serialiser of `generateMermaidDiagram`
  (src/mermaid_diagram_gen.ts).

Declarations are plain values (`Declarations`). A function or variable
carries the resolutions of the identifiers beneath it: one list of
declarations per identifier, empty when the identifier has no symbol. A
class carries its immediate base class, if any. A variable carries its
syntactic parent: a variable statement with its modifier keywords, or
something else.

The two shared `Set<string>` objects are the fields of a `Graph` object.
Each pass is a method that adds lines to them in place. Each pass is
proved equal to a specification function over the same inputs
(`ClassesSpec`, `FunctionsSpec`, `VariablesSpec`, `ImportsSpec`). The
shape lemmas in `InFileProperties` and `DiagramProperties` are proved
about those functions. The module-level counter `uniqueIdCounter` is the
field of a `Generator` object. `GenerateMermaidDiagram` runs the passes
over the files and renders the result. Its postcondition ties the new
counter and the written text to `ProjectSpec` and `DiagramText`.

`Array.from(set).sort()` is modelled as the one strictly increasing
listing of the set (`SortedSeq`), under lexicographic order on characters
(`StringOrder.Less`). `SortSet` computes that listing by repeatedly taking
the minimum. `join("\n")` is `Lines.Join`, and `Lines.Split` undoes it.

Behaviour of the code worth knowing, each proved:

- `mermaidFunctions` never assigns the counter. All references inside one
  function are named with the same counter value, and the pass returns the
  counter it was given. So two unnamed functions in one file get the same
  `nn_function_<n>` and share one node (`Scenarios.UnnamedFunctionsShareNode`).
- For a variable whose parent is not a variable statement, the variables
  pass adds `uses` edges from `X_<name>`, but it never adds a node for that
  variable (`InFileProperties.VariableEdgeSourceWithoutNode`). So the whole
  diagram keeps every edge's **target** present (`DiagramProperties.ProjectGraph`),
  but not always its source. The classes, functions and imports passes keep
  both ends present.
- A variable statement whose modifiers include none of `const`, `let` and
  `var` adds nothing to either set; the `other_var` kind is computed and
  dropped.
- The classes pass has no self check on the `extends` edge. A class whose
  base class resolves to a declaration with the same name gets an edge
  `X_A -->|extends| X_A` (`Scenarios.ClassExtendsItself`). Only the
  functions and variables passes skip edges to themselves.
- The driver never calls `mermaidImports`. So no `import` or `module`
  node and no `imported_from` edge reaches the output (`DiagramProperties.ProjectGraph`).
  The imports pass is still modelled and proved on its own.

## Model

| member | source | states |
|---|---|---|
| Graphs.Graph.constructor | src/mermaid_diagram_gen.ts:30-31 | the node and edge sets start empty |
| Graphs.Graph.AddNode | src/lib/in_file.ts:57 | `nodes.add` puts the line into the node set and leaves the edge set alone |
| Graphs.Graph.AddEdge | src/lib/in_file.ts:69 | `edges.add` puts the line into the edge set and leaves the node set alone |
| Decimal.NatToString | src/lib/in_file.ts:16 | the decimal text of the counter is a non-empty digit string, with a leading `0` only for zero itself |
| Decimal.ParseNatToString | src/lib/in_file.ts:35 | reading the digits of the counter's text back gives the counter |
| Decimal.NatToStringInjective | src/lib/in_file.ts:34-37 | different counter values give different texts |
| InFile.GetNodeId | src/lib/in_file.ts:6-39 | a truthy class or function name and every variable name are kept, with the counter returned unchanged; otherwise the name is `nn_class_`, `nn_function_` or `node_` followed by the counter, and the returned counter is one more |
| InFileProperties.PlaceholdersDistinct | src/lib/in_file.ts:14-38 | two made-up names are equal only when they come from the same prefix and the same counter value |
| InFileProperties.NodeRefSpaceFree | src/lib/in_file.ts:55 | the `X_` identifier of a declaration whose name has no space has no space |
| InFileProperties.UsesLineInjective | src/lib/in_file.ts:107 | a `uses` edge line between space-free identifiers determines its source and target |
| InFileProperties.UsesFromNoSelfLoop | src/lib/in_file.ts:105-107 | for a space-free `source`, edges added only from `source` to other present nodes include no `uses` edge from a space-free node to itself |
| InFileProperties.UseStepShape | src/lib/in_file.ts:98-108 | one resolved declaration adds at most a node tagged with a declaration kind and a `uses` edge from the source to another present node; the counter moves by one exactly when a class or function reference has no name of its own |
| InFileProperties.UseStepContents | src/lib/in_file.ts:98-108 | one resolved declaration adds exactly its bracket node tagged with its kind and the `uses` edge to it when it is a class, function or variable declaration named other than the source, and nothing otherwise |
| Declarations.KindName | src/lib/in_file.ts:106 | the tag of a reference node is `ClassDeclaration`, `FunctionDeclaration` or `VariableDeclaration` exactly when the declaration is of that kind |
| InFile.MermaidClasses | src/lib/in_file.ts:42-73 | the pass leaves the sets and returns the counter given by `ClassesSpec` |
| InFileProperties.ClassStepShape | src/lib/in_file.ts:53-70 | a class adds exactly its class node; with a base class, exactly that node, the immediate base's class node and one `extends` edge, and nothing for the base's own base; otherwise no edge; endpoints stay present; the counter moves once per placeholder |
| InFileProperties.ClassesShape | src/lib/in_file.ts:42-73 | the pass adds only class nodes and `extends` edges, keeps every edge's endpoints present, and advances the counter by the placeholders it made |
| InFile.AddFunctionReferences | src/lib/in_file.ts:92-112 | the identifier loop of one function adds what `UsesFixed` gives, every reference named with the same counter |
| InFile.MermaidFunctions | src/lib/in_file.ts:75-115 | the pass leaves the sets given by `FunctionsSpec` and returns the counter it was given |
| InFileProperties.UsesFixedShape | src/lib/in_file.ts:92-112 | a function's references add exactly one bracket node `X_id[X_id::<Kind>]` and one `uses` edge from the function per resolved class, function or variable declaration whose identifier is not the function's own, every one named with the same counter, and nothing else; the edges' targets are present nodes |
| InFileProperties.UsesFixedContents | src/lib/in_file.ts:92-112 | the sets after a function's references are the sets before plus exactly the bracket nodes and `uses` edges of the resolved declarations drawn, named with the fixed counter |
| InFileProperties.FunctionStepShape | src/lib/in_file.ts:87-112 | a function adds exactly its rounded `function` node plus one bracket node and one `uses` edge per resolved reference other than itself, all named with the counter given; endpoints stay present and the counter is returned as it was |
| InFileProperties.FunctionsKeepCounter | src/lib/in_file.ts:86-114 | the functions pass returns the counter it was given |
| InFileProperties.FunctionsShape | src/lib/in_file.ts:75-115 | the pass adds only function and reference nodes and `uses` edges, and keeps every edge's endpoints present |
| InFileProperties.FunctionsNoSelfLoop | src/lib/in_file.ts:105 | with space-free names, no function gets a `uses` edge to itself |
| InFile.AddVariableReferences | src/lib/in_file.ts:151-174 | the identifier loop of one variable adds what `UsesThreaded` gives and returns the threaded counter |
| InFile.MermaidConsvars | src/lib/in_file.ts:117-178 | the pass leaves the sets and returns the counter given by `VariablesSpec` |
| InFileProperties.UsesThreadedShape | src/lib/in_file.ts:151-174 | a variable's references add exactly one bracket node `X_id[X_id::<Kind>]` and one `uses` edge per resolved class, function or variable declaration other than the source, each named with the counter reached at it, and nothing else; the counter grows by the placeholders made |
| InFileProperties.ThreadedCounter | src/lib/in_file.ts:158-167 | after a variable's references the counter has grown by exactly the placeholders they made |
| InFileProperties.MetAt | src/lib/in_file.ts:158-167 | the i-th resolved declaration is named with the starting counter plus the placeholders the declarations before it made |
| InFileProperties.UsesThreadedContents | src/lib/in_file.ts:151-174 | the sets after a variable's references are the sets before plus exactly the bracket nodes and `uses` edges of the declarations drawn, each named with the counter reached at it |
| InFileProperties.VariableStatementStep | src/lib/in_file.ts:135-148 | under a variable statement, a variable adds exactly one node tagged by the first of `const`, `let`, `var` it carries and no edge; with none of the three, both sets stay as they were; the counter is unchanged |
| InFileProperties.VariableStepShape | src/lib/in_file.ts:128-175 | one variable adds only declaration-kind and reference nodes and `uses` edges, keeps edge targets present, and moves the counter by its placeholders; outside a variable statement it adds exactly one bracket node and one `uses` edge per resolved reference, named with the threaded counter |
| InFileProperties.VariablesShape | src/lib/in_file.ts:117-178 | the variables pass adds only declaration-kind and reference nodes and `uses` edges, keeps every edge's target present, and advances the counter by the placeholders made |
| InFileProperties.VariablesNoSelfLoop | src/lib/in_file.ts:167 | with space-free names, no variable gets a `uses` edge to itself |
| InFileProperties.VariableEdgeSourceWithoutNode | src/lib/in_file.ts:149-170 | `v = f` outside a variable statement yields a `uses` edge from `X_v` to `X_f` while `X_v` has no node |
| InFile.StripAt | src/lib/in_file.ts:190 | the result has no `@`, keeps every other character as often as before, and is the specifier itself when it has no `@` |
| InFileProperties.StripAtConcat | src/lib/in_file.ts:190 | removing `@` everywhere distributes over concatenation |
| InFile.MermaidImports | src/lib/in_file.ts:180-199 | the pass leaves the sets given by `ImportsSpec` |
| InFileProperties.NamedImportsShape | src/lib/in_file.ts:191-197 | the nodes added are exactly one `import` node per named import plus the `@`-free `module` node when there is one, the edges added exactly one `imported_from` edge per named import; endpoints stay present; no named import means no change |
| InFileProperties.NamedImportsContents | src/lib/in_file.ts:191-197 | the named imports of one declaration add exactly their `import` nodes, the module node when there is at least one, and their `imported_from` edges |
| InFileProperties.NamedImportsListed | src/lib/in_file.ts:191-197 | the edges are the old ones plus one `imported_from` edge per named import, and each named import has its `import` node and the `module` node |
| InFileProperties.ImportsShape | src/lib/in_file.ts:189-198 | the imports pass adds only import and `@`-free module nodes and `imported_from` edges, keeping endpoints present |
| InFileProperties.ImportsWithoutNamesUnchanged | src/lib/in_file.ts:189-198 | import declarations without named imports leave both sets unchanged |
| InFileProperties.ImportsRecorded | src/lib/in_file.ts:189-198 | after the imports pass, every named import of every declaration has its `import` node, its `@`-free `module` node and its `imported_from` edge |
| InFileProperties.ScopedImport | src/lib/in_file.ts:190-196 | `import { foo } from "@scope/pkg"` yields the `X_foo` import node, the `scope/pkg` module node and one `imported_from` edge |
| Scenarios.TwoUnrelatedFunctions | src/lib/in_file.ts:86-89 | two named functions without references give two function nodes and no edge |
| Scenarios.ClassExtends | src/lib/in_file.ts:53-70 | `class B extends A` and `class A` give the two class nodes and the single `extends` edge from `X_B` to `X_A` |
| Scenarios.ClassExtendsItself | src/lib/in_file.ts:60-69 | a class whose base resolves to a class of the same name gets the `extends` edge from `X_A` to itself |
| Scenarios.MutualRecursion | src/lib/in_file.ts:103-107 | `f` calling `g` and `g` calling `f` give both `uses` edges, two distinct lines |
| Scenarios.ConstAndLet | src/lib/in_file.ts:135-144 | `const x` and `let y` give one `const` node and one `let` node and no edge |
| Scenarios.DirectRecursion | src/lib/in_file.ts:105 | a function calling itself gets its node and no edge |
| Scenarios.UnnamedFunctionsShareNode | src/lib/in_file.ts:86-89 | two unnamed functions in one file share the node `nn_function_<n>` |
| StringOrder.Less | src/mermaid_diagram_gen.ts:70 | a proper prefix sorts before the longer string, and no string sorts before itself or one of its prefixes |
| StringOrder.LessIrreflexive | src/mermaid_diagram_gen.ts:70 | no string sorts before itself |
| StringOrder.LessTransitive | src/mermaid_diagram_gen.ts:70 | the sort order is transitive |
| StringOrder.LessTotal | src/mermaid_diagram_gen.ts:70 | of two different strings one sorts before the other |
| StringOrder.LessCommonPrefix | src/mermaid_diagram_gen.ts:71 | putting the same prefix in front of two strings keeps their order |
| StringOrder.SortedSeq | src/mermaid_diagram_gen.ts:70 | the listing is strictly increasing, holds exactly the set's elements, and has the set's size |
| StringOrder.SortedUnique | src/mermaid_diagram_gen.ts:70 | a set has only one strictly increasing listing |
| StringOrder.Minimum | src/mermaid_diagram_gen.ts:70 | the element found is the least of the set |
| StringOrder.SortSet | src/mermaid_diagram_gen.ts:73 | the result is strictly increasing, holds exactly the set's elements, and equals `SortedSeq` |
| Lines.SplitJoin | src/mermaid_diagram_gen.ts:77 | splitting the join of a non-empty list of newline-free lines at newlines gives the lines back |
| Lines.JoinAppend | src/mermaid_diagram_gen.ts:77 | joining two non-empty blocks is joining each and putting one newline between |
| Lines.JoinEndsWithLast | src/mermaid_diagram_gen.ts:77 | the joined text ends with the last line, so no newline follows it |
| Lines.Join | src/mermaid_diagram_gen.ts:77 | the text starts with the first line |
| Lines.JoinLength | src/mermaid_diagram_gen.ts:77 | the text is as long as all the lines together plus one newline between each two |
| MermaidDiagramGen.Header | src/mermaid_diagram_gen.ts:66-69 | the header is four lines, none holding a newline when the title holds none |
| MermaidDiagramGen.Indented | src/mermaid_diagram_gen.ts:70-75 | every body line is its element with four spaces in front, one line per element |
| MermaidDiagramGen.PushIndented | src/mermaid_diagram_gen.ts:70-72 | the loop appends the indented lines, in order, to what was there |
| MermaidDiagramGen.Render | src/mermaid_diagram_gen.ts:66-77 | the text built is `DiagramText` of the title and the two sets |
| MermaidDiagramGen.Generator.constructor | src/mermaid_diagram_gen.ts:11 | the counter starts at zero |
| MermaidDiagramGen.Generator.GenerateMermaidDiagram | src/mermaid_diagram_gen.ts:34-77 | classes, then functions, then variables run on each file in turn, the counter threaded through them; the new counter and the text are the ones `ProjectSpec` and `DiagramText` give |
| DiagramProperties.FileShape | src/mermaid_diagram_gen.ts:37-59 | one file adds only class, function, declaration-kind and reference nodes and `extends`/`uses` edges, keeps edge targets present, and advances the counter by its class and variable placeholders |
| DiagramProperties.ProjectShape | src/mermaid_diagram_gen.ts:34-63 | the same over all files, with the counter advanced by every file's placeholders |
| DiagramProperties.ProjectGraph | src/mermaid_diagram_gen.ts:34-63 | starting from empty sets, no import, module or other tag and no `imported_from` edge appears, and every edge's target is a node |
| DiagramProperties.DiagramLayout | src/mermaid_diagram_gen.ts:66-75 | there are 4 + nodes + edges lines: the four header lines, then the node block, then the edge block; each body line is four spaces and a set element; each block is strictly increasing and holds exactly its set |
| DiagramProperties.HeaderText | src/mermaid_diagram_gen.ts:66-69 | the header joins to `---`, `title: <title>`, `---`, `graph TD` |
| DiagramProperties.DiagramHeader | src/mermaid_diagram_gen.ts:66-69 | the written text starts with that header |
| DiagramProperties.DiagramSplit | src/mermaid_diagram_gen.ts:66-77 | with no newline in the title or the elements, splitting the text gives back its 4 + nodes + edges lines, and the text does not end in a newline |
| DiagramProperties.SortedListingsAgree | src/mermaid_diagram_gen.ts:70-77 | any strictly increasing listing of the two sets gives the same text, so the text depends on the title and the two sets alone |

## Left out

- ts-morph is not modelled: the project, its source files, the declarations it lists, base classes, identifier symbols and their declarations, parents and modifiers. The model gets these as input values.
- Import declarations are modelled without default or namespace imports: the code reads only `getNamedImports()`.
- `getBaseClass()` is any declaration or none; the model does not ask what ts-morph can return there.
- The title is a parameter. `path.basename(projectPath)` is not modelled.
- The `tsconfig.json` existence check and its thrown error, `fs.writeFileSync`, the `console` messages, `process.argv`, `process.exit` and the default output path are I/O and are not modelled. `GenerateMermaidDiagram` returns the text it would write.
- `StringOrder.Less` compares whole characters, not the UTF-16 code units JavaScript's default sort compares. The two orders differ only outside the Basic Multilingual Plane.
- The counter is an unbounded `nat`. JavaScript numbers lose precision above 2^53; this is not modelled.
- `Graph` holds both sets in one object. A caller passing the same `Set` as both `nodes` and `edges` is not modelled.
- The regular expression `/[@]/g` is modelled as removing every `@` character (`StripAt`).
- InFileProperties.UsesLineInjective: assumes identifiers without spaces, as TypeScript identifiers are.
- InFileProperties.UsesFromNoSelfLoop: assumes the source and node names contain no spaces; with spaces one line can read as a self-loop.
- InFileProperties.FunctionsNoSelfLoop: assumes function names without spaces.
- InFileProperties.VariablesNoSelfLoop: assumes variable names without spaces.
- Scenarios.MutualRecursion: assumes the two names have no spaces.
- DiagramProperties.DiagramSplit: assumes the title and the set elements have no newline.
