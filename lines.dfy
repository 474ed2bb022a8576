/**
  Joining lines with a newline, as `Array.prototype.join("\n")` does,
  and the split that undoes it, as `String.prototype.split("\n")` does.
 */
module Lines {

  predicate NoNewline(s: string) {
    '\n' !in s
  }

  /** The summed length of the lines. */
  function TotalLength(lines: seq<string>): nat
    decreases |lines|
  {
    if lines == [] then 0 else |lines[0]| + TotalLength(lines[1..])
  }

  /** The lines separated by one newline each; no newline after the last: the text starts with the first line. */
  function Join(lines: seq<string>): (r: string)
    ensures |lines| > 0 ==> lines[0] <= r
    decreases |lines|
  {
    if |lines| == 0 then ""
    else if |lines| == 1 then lines[0]
    else lines[0] + "\n" + Join(lines[1..])
  }

  /** The text is one character longer than the lines for every separator between them. */
  lemma {:induction false} JoinLength(lines: seq<string>)
    requires |lines| > 0
    ensures |Join(lines)| == TotalLength(lines) + |lines| - 1
    decreases |lines|
  {
    if |lines| > 1 {
      JoinLength(lines[1..]);
    }
  }

  /** The pieces of `s` between its newlines. */
  function Split(s: string): (r: seq<string>)
    ensures |r| >= 1
    decreases |s|
  {
    if |s| == 0 then [""]
    else
      var rest := Split(s[1..]);
      if s[0] == '\n' then [""] + rest else [[s[0]] + rest[0]] + rest[1..]
  }

  lemma {:induction false} SplitOfLine(a: string)
    requires NoNewline(a)
    ensures Split(a) == [a]
    decreases |a|
  {
    if |a| > 0 {
      SplitOfLine(a[1..]);
      assert [a[0]] + a[1..] == a;
    }
  }

  lemma {:induction false} SplitAfterLine(a: string, t: string)
    requires NoNewline(a)
    ensures Split(a + "\n" + t) == [a] + Split(t)
    decreases |a|
  {
    var s := a + "\n" + t;
    if |a| == 0 {
      assert s[0] == '\n' && s[1..] == t;
    } else {
      assert s[0] == a[0] && s[1..] == a[1..] + "\n" + t;
      SplitAfterLine(a[1..], t);
      assert [a[0]] + a[1..] == a;
    }
  }

  /** Splitting a join of newline-free lines gives the lines back. */
  lemma {:induction false} SplitJoin(lines: seq<string>)
    requires |lines| >= 1
    requires forall i :: 0 <= i < |lines| ==> NoNewline(lines[i])
    ensures Split(Join(lines)) == lines
    decreases |lines|
  {
    if |lines| == 1 {
      SplitOfLine(lines[0]);
    } else {
      SplitAfterLine(lines[0], Join(lines[1..]));
      SplitJoin(lines[1..]);
    }
  }

  /** Joining a concatenation is joining the two halves around one newline. */
  lemma {:induction false} JoinAppend(a: seq<string>, b: seq<string>)
    requires |a| >= 1 && |b| >= 1
    ensures Join(a + b) == Join(a) + "\n" + Join(b)
    decreases |a|
  {
    if |a| == 1 {
      assert (a + b)[1..] == b;
    } else {
      assert (a + b)[1..] == a[1..] + b;
      JoinAppend(a[1..], b);
    }
  }

  /** The join ends with the last line. */
  lemma {:induction false} JoinEndsWithLast(lines: seq<string>)
    requires |lines| >= 1
    ensures var j := Join(lines); var last := lines[|lines| - 1];
      |last| <= |j| && j[|j| - |last|..] == last
    decreases |lines|
  {
    if |lines| > 1 {
      JoinEndsWithLast(lines[1..]);
      var j, rest := Join(lines), Join(lines[1..]);
      assert j == lines[0] + "\n" + rest;
      assert j[|j| - |rest|..] == rest;
    }
  }

  /** Appending lines keeps the join of the earlier ones as a prefix. */
  lemma JoinPrefix(a: seq<string>, b: seq<string>)
    requires |a| >= 1
    ensures Join(a) <= Join(a + b)
  {
    if b == [] {
      assert a + b == a;
    } else {
      JoinAppend(a, b);
    }
  }

  /** A join of lines whose last line is not empty does not end in a newline. */
  lemma JoinLastChar(lines: seq<string>)
    requires |lines| >= 1 && NoNewline(lines[|lines| - 1]) && lines[|lines| - 1] != ""
    ensures var j := Join(lines); |j| >= 1 && j[|j| - 1] != '\n'
  {
    JoinEndsWithLast(lines);
    var j, last := Join(lines), lines[|lines| - 1];
    assert j[|j| - 1] == j[|j| - |last|..][|last| - 1];
  }
}
