/**
  What the per-file driver and the serialiser of src/mermaid_diagram_gen.ts
  guarantee about the document they produce.
 */
module DiagramProperties {
  import opened StringOrder
  import opened Lines
  import opened Declarations
  import opened Graphs
  import opened InFile
  import opened InFileProperties
  import opened MermaidDiagramGen

  // ---------------------------------------------------------------------
  // The driver

  /** Every tag a node of the written diagram can carry. */
  const DiagramTags: set<string> := {"class"} + FunctionTags + VariableTags

  function FilePlaceholders(file: SourceFile): nat {
    ClassesPlaceholders(file.classes) + VariablesPlaceholders(file.variables)
  }

  function ProjectPlaceholders(files: seq<SourceFile>): nat
    decreases |files|
  {
    if files == [] then 0 else ProjectPlaceholders(files[..|files| - 1]) + FilePlaceholders(files[|files| - 1])
  }

  /**
    One file through the class, function and variable passes: class,
    function, declaration-kind and reference nodes only; `extends` and
    `uses` edges only; every edge's target present; the counter advanced by
    the placeholders of its classes and variables, none for its functions.
   */
  lemma FileShape(file: SourceFile, n: nat, s: Sets)
    ensures var r := FileSpec(file, n, s);
      && Grows(s, r.sets, DiagramTags, {"extends", "uses"})
      && (TargetsPresent(s) ==> TargetsPresent(r.sets))
      && r.next == n + FilePlaceholders(file)
  {
    var c := ClassesSpec(file.classes, n, s);
    ClassesShape(file.classes, n, s);
    var f := FunctionsSpec(file.functions, c.next, c.sets);
    FunctionsShape(file.functions, c.next, c.sets);
    FunctionsKeepCounter(file.functions, c.next, c.sets);
    var v := VariablesSpec(file.variables, f.next, f.sets);
    VariablesShape(file.variables, f.next, f.sets);
    GrowsWiden(s, c.sets, {"class"}, {"extends"}, DiagramTags, {"extends", "uses"});
    GrowsWiden(c.sets, f.sets, FunctionTags, {"uses"}, DiagramTags, {"extends", "uses"});
    GrowsWiden(f.sets, v.sets, VariableTags, {"uses"}, DiagramTags, {"extends", "uses"});
    GrowsTransitive(s, c.sets, f.sets, DiagramTags, {"extends", "uses"});
    GrowsTransitive(s, f.sets, v.sets, DiagramTags, {"extends", "uses"});
  }

  lemma {:induction false} ProjectShape(files: seq<SourceFile>, n: nat, s: Sets)
    ensures var r := ProjectSpec(files, n, s);
      && Grows(s, r.sets, DiagramTags, {"extends", "uses"})
      && (TargetsPresent(s) ==> TargetsPresent(r.sets))
      && r.next == n + ProjectPlaceholders(files)
    decreases |files|
  {
    if files != [] {
      var m := ProjectSpec(files[..|files| - 1], n, s);
      ProjectShape(files[..|files| - 1], n, s);
      FileShape(files[|files| - 1], m.next, m.sets);
      GrowsTransitive(s, m.sets, ProjectSpec(files, n, s).sets, DiagramTags, {"extends", "uses"});
    }
  }

  /**
    What a whole run collects: no import, module or `other_var` node and no
    `imported_from` edge (the imports pass is never run), every edge's
    target present, and the counter advanced once per placeholder that the
    class and variable passes made.
   */
  lemma ProjectGraph(files: seq<SourceFile>, n: nat)
    ensures var r := ProjectSpec(files, n, Sets({}, {}));
      && NodesTagged(r.sets.nodes, DiagramTags)
      && EdgesRelated(r.sets.edges, {"extends", "uses"})
      && TargetsPresent(r.sets)
      && r.next == n + ProjectPlaceholders(files)
  {
    ProjectShape(files, n, Sets({}, {}));
    var r := ProjectSpec(files, n, Sets({}, {}));
    assert r.sets.nodes - {} == r.sets.nodes && r.sets.edges - {} == r.sets.edges;
  }

  // ---------------------------------------------------------------------
  // The serialiser

  lemma IndentedSorted(xs: seq<string>)
    requires StrictlySorted(xs)
    ensures StrictlySorted(Indented(xs))
  {
    var r := Indented(xs);
    forall i, j | 0 <= i < j < |xs| ensures Less(r[i], r[j]) {
      LessCommonPrefix(Indent, xs[i], xs[j]);
    }
  }

  lemma IndentedMembers(xs: seq<string>)
    ensures forall x :: x in Elements(xs) <==> Indent + x in Indented(xs)
  {
    var r := Indented(xs);
    forall x ensures x in Elements(xs) <==> Indent + x in r {
      if Indent + x in r {
        var i :| 0 <= i < |xs| && r[i] == Indent + x;
        assert (Indent + x)[4..] == x && (Indent + xs[i])[4..] == xs[i];
      }
      if x in Elements(xs) {
        var i :| 0 <= i < |xs| && xs[i] == x;
        assert r[i] == Indent + x;
      }
    }
  }

  lemma IndentedNoNewline(xs: seq<string>)
    requires forall x :: x in Elements(xs) ==> NoNewline(x)
    ensures forall i :: 0 <= i < |xs| ==> NoNewline(Indented(xs)[i])
  {
    forall i | 0 <= i < |xs| ensures NoNewline(Indented(xs)[i]) {
      assert xs[i] in Elements(xs);
    }
  }

  lemma IndentedPrefixed(xs: seq<string>)
    ensures forall i :: 0 <= i < |xs| ==> Indent <= Indented(xs)[i]
  {
  }

  lemma Blocks(lines: seq<string>, h: seq<string>, a: seq<string>, b: seq<string>)
    requires lines == h + a + b
    ensures lines[..|h|] == h && lines[|h|..|h| + |a|] == a && lines[|h| + |a|..] == b
    ensures forall i :: |h| <= i < |h| + |a| ==> lines[i] == a[i - |h|]
    ensures forall i :: |h| + |a| <= i < |lines| ==> lines[i] == b[i - |h| - |a|]
  {
  }

  /** Where the header and the two blocks sit among the lines. */
  lemma BlockPositions(h: seq<string>, ns: seq<string>, es: seq<string>)
    ensures var lines, k := h + Indented(ns) + Indented(es), |h|;
      && |lines| == k + |ns| + |es|
      && lines[..k] == h
      && lines[k..k + |ns|] == Indented(ns)
      && lines[k + |ns|..] == Indented(es)
      && (forall i :: k <= i < |lines| ==> Indent <= lines[i])
  {
    var a, b := Indented(ns), Indented(es);
    Blocks(h + a + b, h, a, b);
    IndentedPrefixed(ns);
    IndentedPrefixed(es);
  }

  /**
    The document's lines: the four header lines, then one line per node,
    then one line per edge, each a set element after four spaces, each
    block in strictly increasing order.
   */
  lemma DiagramLayout(title: string, nodes: set<string>, edges: set<string>)
    ensures var lines := DiagramLines(title, nodes, edges);
      && |lines| == 4 + |nodes| + |edges|
      && lines[..4] == ["---", "title: " + title, "---", "graph TD"]
      && (forall i :: 4 <= i < |lines| ==> Indent <= lines[i])
      && (forall x :: x in nodes <==> Indent + x in lines[4..4 + |nodes|])
      && (forall x :: x in edges <==> Indent + x in lines[4 + |nodes|..])
      && StrictlySorted(lines[4..4 + |nodes|])
      && StrictlySorted(lines[4 + |nodes|..])
  {
    var ns, es := SortedSeq(nodes), SortedSeq(edges);
    BlockPositions(Header(title), ns, es);
    IndentedSorted(ns);
    IndentedSorted(es);
    IndentedMembers(ns);
    IndentedMembers(es);
  }

  lemma JoinFour(a: string, b: string, c: string, d: string)
    ensures Join([a, b, c, d]) == a + "\n" + b + "\n" + c + "\n" + d
  {
    var h := [a, b, c, d];
    assert h[1..] == [b, c, d] && h[1..][1..] == [c, d] && h[1..][1..][1..] == [d];
    assert Join([c, d]) == c + "\n" + d;
    assert Join([b, c, d]) == b + "\n" + (c + "\n" + d);
  }

  lemma HeaderText(title: string)
    ensures Join(Header(title)) == "---\ntitle: " + title + "\n---\ngraph TD"
  {
    JoinFour("---", "title: " + title, "---", "graph TD");
  }

  /** The text opens with the front matter and the graph direction. */
  lemma DiagramHeader(title: string, nodes: set<string>, edges: set<string>)
    ensures "---\ntitle: " + title + "\n---\ngraph TD" <= DiagramText(title, nodes, edges)
  {
    var h, a, b := Header(title), Indented(SortedSeq(nodes)), Indented(SortedSeq(edges));
    HeaderText(title);
    assert h + a + b == h + (a + b);
    JoinPrefix(h, a + b);
  }

  /** Splitting a header followed by two indented blocks of newline-free lines. */
  lemma BlockSplit(h: seq<string>, ns: seq<string>, es: seq<string>)
    requires |h| >= 1 && h[|h| - 1] != ""
    requires forall i :: 0 <= i < |h| ==> NoNewline(h[i])
    requires forall x :: x in Elements(ns) ==> NoNewline(x)
    requires forall x :: x in Elements(es) ==> NoNewline(x)
    ensures var lines := h + Indented(ns) + Indented(es); var text := Join(lines);
      && Split(text) == lines
      && |text| >= 1 && text[|text| - 1] != '\n'
  {
    var a, b := Indented(ns), Indented(es);
    var lines := h + a + b;
    Blocks(lines, h, a, b);
    IndentedNoNewline(ns);
    IndentedNoNewline(es);
    IndentedPrefixed(ns);
    IndentedPrefixed(es);
    SplitJoin(lines);
    JoinLastChar(lines);
  }

  /**
    When neither the title nor any set element holds a newline, splitting
    the text at newlines gives back exactly its 4 + |nodes| + |edges|
    lines, and the text does not end in a newline.
   */
  lemma DiagramSplit(title: string, nodes: set<string>, edges: set<string>)
    requires NoNewline(title)
    requires forall x :: x in nodes ==> NoNewline(x)
    requires forall x :: x in edges ==> NoNewline(x)
    ensures var text := DiagramText(title, nodes, edges);
      && Split(text) == DiagramLines(title, nodes, edges)
      && |Split(text)| == 4 + |nodes| + |edges|
      && text[|text| - 1] != '\n'
  {
    var h := Header(title);
    assert NoNewline(h[1]) by {
      assert forall i :: 7 <= i < |h[1]| ==> h[1][i] == title[i - 7];
    }
    BlockSplit(h, SortedSeq(nodes), SortedSeq(edges));
  }

  /**
    Insertion order does not matter: any strictly sorted listing of the
    node and edge sets yields the same text, so the text depends on the
    title and the two sets alone.
   */
  lemma SortedListingsAgree(title: string, nodeLines: seq<string>, edgeLines: seq<string>)
    requires StrictlySorted(nodeLines) && StrictlySorted(edgeLines)
    ensures Join(Header(title) + Indented(nodeLines) + Indented(edgeLines))
      == DiagramText(title, Elements(nodeLines), Elements(edgeLines))
  {
    SortedUnique(nodeLines, SortedSeq(Elements(nodeLines)));
    SortedUnique(edgeLines, SortedSeq(Elements(edgeLines)));
  }
}
