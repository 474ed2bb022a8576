/**
  The order JavaScript's default `Array.prototype.sort` puts strings in:
  character by character, a proper prefix before any extension of it.
  Also the sort of a set of strings that `Array.from(set).sort()` performs.
 */
module StringOrder {

  /**
    `a` sorts strictly before `b`: a proper prefix sorts first, and a
    string never sorts before one of its own prefixes.
   */
  predicate Less(a: string, b: string): (r: bool)
    ensures a < b ==> r
    ensures b <= a ==> !r
    decreases |a|
  {
    if |a| == 0 then |b| > 0
    else |b| > 0 && (a[0] < b[0] || (a[0] == b[0] && Less(a[1..], b[1..])))
  }

  lemma {:induction false} LessIrreflexive(a: string)
    ensures !Less(a, a)
    decreases |a|
  {
    if |a| > 0 {
      LessIrreflexive(a[1..]);
    }
  }

  lemma {:induction false} LessTransitive(a: string, b: string, c: string)
    requires Less(a, b) && Less(b, c)
    ensures Less(a, c)
    decreases |a|
  {
    if |a| > 0 && a[0] == b[0] && b[0] == c[0] {
      LessTransitive(a[1..], b[1..], c[1..]);
    }
  }

  /** Any two distinct strings are ordered one way or the other. */
  lemma {:induction false} LessTotal(a: string, b: string)
    requires a != b
    ensures Less(a, b) || Less(b, a)
    decreases |a|
  {
    if |a| > 0 && |b| > 0 && a[0] == b[0] {
      assert a == [a[0]] + a[1..] && b == [b[0]] + b[1..];
      LessTotal(a[1..], b[1..]);
    }
  }

  /** A common prefix does not change how two strings compare. */
  lemma {:induction false} LessCommonPrefix(p: string, a: string, b: string)
    ensures Less(p + a, p + b) <==> Less(a, b)
    decreases |p|
  {
    if |p| > 0 {
      assert (p + a)[0] == p[0] && (p + b)[0] == p[0];
      assert (p + a)[1..] == p[1..] + a && (p + b)[1..] == p[1..] + b;
      LessCommonPrefix(p[1..], a, b);
    } else {
      assert p + a == a && p + b == b;
    }
  }

  function Elements(s: seq<string>): set<string> {
    set x | x in s
  }

  lemma ElementsOfNonEmpty(s: seq<string>)
    ensures s != [] ==> s[0] in Elements(s)
  {
  }

  /** Strictly increasing, hence also free of duplicates. */
  predicate StrictlySorted(s: seq<string>) {
    forall i, j :: 0 <= i < j < |s| ==> Less(s[i], s[j])
  }

  /** `m` is the least element of `s`. */
  predicate IsLeast(m: string, s: set<string>) {
    m in s && forall x :: x in s && x != m ==> Less(m, x)
  }

  lemma {:induction false} LeastExists(s: set<string>)
    requires s != {}
    ensures exists m :: IsLeast(m, s)
    decreases |s|
  {
    var y :| y in s;
    if s != {y} {
      LeastExists(s - {y});
      var m :| IsLeast(m, s - {y});
      if Less(y, m) {
        forall x | x in s && x != y ensures Less(y, x) {
          if x != m { LessTransitive(y, m, x); }
        }
        assert IsLeast(y, s);
      } else {
        LessTotal(y, m);
        assert IsLeast(m, s);
      }
    } else {
      assert IsLeast(y, s);
    }
  }

  ghost function Least(s: set<string>): (m: string)
    requires s != {}
    ensures IsLeast(m, s)
  {
    LeastExists(s);
    var m :| IsLeast(m, s); m
  }

  /** Putting an element below all others in front keeps a listing sorted. */
  lemma ConsSorted(m: string, rest: seq<string>)
    requires StrictlySorted(rest)
    requires forall x :: x in Elements(rest) ==> Less(m, x)
    ensures StrictlySorted([m] + rest)
    ensures Elements([m] + rest) == {m} + Elements(rest)
  {
    var r := [m] + rest;
    forall i, j | 0 <= i < j < |r| ensures Less(r[i], r[j]) {
      if i == 0 {
        assert r[j] == rest[j - 1] && rest[j - 1] in Elements(rest);
      } else {
        assert r[i] == rest[i - 1] && r[j] == rest[j - 1];
      }
    }
  }

  /** The sorted list of the elements of `s`: what `Array.from(s).sort()` yields. */
  ghost function SortedSeq(s: set<string>): (r: seq<string>)
    ensures StrictlySorted(r) && Elements(r) == s && |r| == |s|
    decreases |s|
  {
    if s == {} then []
    else
      var m := Least(s);
      var rest := SortedSeq(s - {m});
      ConsSorted(m, rest);
      [m] + rest
  }

  /** A set has only one strictly sorted listing. */
  lemma {:induction false} SortedUnique(a: seq<string>, b: seq<string>)
    requires StrictlySorted(a) && StrictlySorted(b) && Elements(a) == Elements(b)
    ensures a == b
    decreases |a|
  {
    if |a| > 0 {
      assert a[0] in Elements(b);
      assert b != [] && b[0] in Elements(a);
      if a[0] != b[0] {
        var i :| 0 <= i < |a| && a[i] == b[0];
        var j :| 0 <= j < |b| && b[j] == a[0];
        assert Less(a[0], b[0]) && Less(b[0], a[0]);
        LessTransitive(a[0], b[0], a[0]);
        LessIrreflexive(a[0]);
      }
      assert Elements(a[1..]) == Elements(a) - {a[0]} by {
        forall x ensures x in Elements(a[1..]) <==> x in Elements(a) && x != a[0] {
          if x in a[1..] {
            var k :| 1 <= k < |a| && a[k] == x;
            LessIrreflexive(a[0]);
          }
          if x in a && x != a[0] {
            var k :| 0 <= k < |a| && a[k] == x;
            assert a[1..][k - 1] == x;
          }
        }
      }
      assert Elements(b[1..]) == Elements(b) - {b[0]} by {
        forall x ensures x in Elements(b[1..]) <==> x in Elements(b) && x != b[0] {
          if x in b[1..] {
            var k :| 1 <= k < |b| && b[k] == x;
            LessIrreflexive(b[0]);
          }
          if x in b && x != b[0] {
            var k :| 0 <= k < |b| && b[k] == x;
            assert b[1..][k - 1] == x;
          }
        }
      }
      SortedUnique(a[1..], b[1..]);
    } else {
      ElementsOfNonEmpty(b);
    }
  }

  /** The least element of a non-empty set, found by one scan. */
  method Minimum(s: set<string>) returns (m: string)
    requires s != {}
    ensures IsLeast(m, s)
  {
    m :| m in s;
    var rest := s - {m};
    while rest != {}
      invariant rest <= s && m in s && m !in rest
      invariant forall x :: x in s - rest && x != m ==> Less(m, x)
      decreases rest
    {
      var y :| y in rest;
      if Less(y, m) {
        forall x | x in s - rest && x != y ensures Less(y, x) {
          if x != m { LessTransitive(y, m, x); }
        }
        m := y;
      } else if y != m {
        LessTotal(y, m);
      }
      rest := rest - {y};
    }
  }

  /** One round of selection: the least remaining element goes at the end. */
  lemma SortedStep(r: seq<string>, m: string, rest: set<string>)
    requires StrictlySorted(r) && IsLeast(m, rest)
    requires forall i, x :: 0 <= i < |r| && x in rest ==> Less(r[i], x)
    ensures StrictlySorted(r + [m])
    ensures Elements(r + [m]) == Elements(r) + {m}
    ensures forall i, x :: 0 <= i < |r| + 1 && x in rest - {m} ==> Less((r + [m])[i], x)
  {
    var r' := r + [m];
    forall i, j | 0 <= i < j < |r'| ensures Less(r'[i], r'[j]) {
      if j == |r| {
        assert r'[i] == r[i];
      } else {
        assert r'[i] == r[i] && r'[j] == r[j];
      }
    }
    forall i, x | 0 <= i < |r'| && x in rest - {m} ensures Less(r'[i], x) {
      if i < |r| { assert r'[i] == r[i]; }
    }
  }

  /** `Array.from(s).sort()`: the elements of `s` in increasing order. */
  method SortSet(s: set<string>) returns (r: seq<string>)
    ensures StrictlySorted(r) && Elements(r) == s
    ensures r == SortedSeq(s)
  {
    r := [];
    var rest := s;
    while rest != {}
      invariant rest <= s && Elements(r) == s - rest
      invariant StrictlySorted(r)
      invariant forall i, x :: 0 <= i < |r| && x in rest ==> Less(r[i], x)
      decreases |rest|
    {
      var m := Minimum(rest);
      SortedStep(r, m, rest);
      r := r + [m];
      rest := rest - {m};
    }
    SortedUnique(r, SortedSeq(s));
  }
}
