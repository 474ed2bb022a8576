/**
  The per-file driver and the serialiser of src/mermaid_diagram_gen.ts:
  every source file goes through the class, function and variable passes
  in that order, the counter threaded from pass to pass and from file to
  file, and the two sets are then written out sorted under a fixed header.
 */
module MermaidDiagramGen {
  import opened StringOrder
  import opened Lines
  import opened Declarations
  import opened Graphs
  import opened InFile

  const Indent := "    "

  /** The front matter and the graph direction: four lines, each a single line of the file when the title is. */
  function Header(title: string): (r: seq<string>)
    ensures |r| == 4
    ensures NoNewline(title) ==> forall i :: 0 <= i < |r| ==> NoNewline(r[i])
  {
    ["---", "title: " + title, "---", "graph TD"]
  }

  /** Each line pushed with four spaces in front. */
  function Indented(lines: seq<string>): (r: seq<string>)
    ensures |r| == |lines|
    ensures forall i :: 0 <= i < |lines| ==> r[i] == Indent + lines[i]
    decreases |lines|
  {
    if lines == [] then [] else Indented(lines[..|lines| - 1]) + [Indent + lines[|lines| - 1]]
  }

  /** The lines of the `mermaid` array once both loops have run. */
  ghost function DiagramLines(title: string, nodes: set<string>, edges: set<string>): seq<string> {
    Header(title) + Indented(SortedSeq(nodes)) + Indented(SortedSeq(edges))
  }

  /** The text written to the output file. */
  ghost function DiagramText(title: string, nodes: set<string>, edges: set<string>): string {
    Join(DiagramLines(title, nodes, edges))
  }

  /** One of the two `for ... mermaid.push(`    ${line}`)` loops. */
  method PushIndented(mermaid: seq<string>, lines: seq<string>) returns (r: seq<string>)
    ensures r == mermaid + Indented(lines)
  {
    r := mermaid;
    for i := 0 to |lines|
      invariant r == mermaid + Indented(lines[..i])
    {
      r := r + [Indent + lines[i]];
      assert lines[..i + 1][..i] == lines[..i];
    }
    assert lines[..|lines|] == lines;
  }

  /** Lines 66-77 of `generateMermaidDiagram`, up to the write. */
  method Render(title: string, nodes: set<string>, edges: set<string>) returns (text: string)
    ensures text == DiagramText(title, nodes, edges)
  {
    var mermaid := ["---"];
    mermaid := mermaid + ["title: " + title];
    mermaid := mermaid + ["---"];
    mermaid := mermaid + ["graph TD"];
    assert mermaid == Header(title);
    var sortedNodes := SortSet(nodes);
    mermaid := PushIndented(mermaid, sortedNodes);
    var sortedEdges := SortSet(edges);
    mermaid := PushIndented(mermaid, sortedEdges);
    assert mermaid == DiagramLines(title, nodes, edges);
    text := Join(mermaid);
  }

  /** The three passes one source file goes through, in order. */
  function FileSpec(file: SourceFile, n: nat, s: Sets): Pass {
    var classes := ClassesSpec(file.classes, n, s);
    var functions := FunctionsSpec(file.functions, classes.next, classes.sets);
    VariablesSpec(file.variables, functions.next, functions.sets)
  }

  function ProjectSpec(files: seq<SourceFile>, n: nat, s: Sets): Pass
    decreases |files|
  {
    if files == [] then Pass(s, n)
    else
      var before := ProjectSpec(files[..|files| - 1], n, s);
      FileSpec(files[|files| - 1], before.next, before.sets)
  }

  /** The module holding the global `uniqueIdCounter`. */
  class Generator {
    var uniqueIdCounter: nat

    constructor ()
      ensures uniqueIdCounter == 0
    {
      uniqueIdCounter := 0;
    }

    /**
      `generateMermaidDiagram` for the source files of a project whose
      base name is `title`; returns the text it writes.
     */
    method GenerateMermaidDiagram(title: string, sourceFiles: seq<SourceFile>) returns (text: string)
      modifies this
      ensures var p := ProjectSpec(sourceFiles, old(uniqueIdCounter), Sets({}, {}));
        uniqueIdCounter == p.next && text == DiagramText(title, p.sets.nodes, p.sets.edges)
    {
      var g := new Graph();
      ghost var first := uniqueIdCounter;
      for i := 0 to |sourceFiles|
        invariant Pass(g.State(), uniqueIdCounter) == ProjectSpec(sourceFiles[..i], first, Sets({}, {}))
      {
        var sourceFile := sourceFiles[i];
        uniqueIdCounter := MermaidClasses(sourceFile, g, uniqueIdCounter);
        uniqueIdCounter := MermaidFunctions(sourceFile, g, uniqueIdCounter);
        uniqueIdCounter := MermaidConsvars(sourceFile, g, uniqueIdCounter);
        assert sourceFiles[..i + 1][..i] == sourceFiles[..i];
      }
      assert sourceFiles[..|sourceFiles|] == sourceFiles;
      text := Render(title, g.nodes, g.edges);
    }
  }
}
