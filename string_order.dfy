/** The order in which `sorted` arranges strings: lexicographic by code
    point, a proper prefix before any of its extensions. */
module StringOrder {

  /** Python's `<` on `str`: compare code point by code point; a string that
      runs out first is smaller. It never relates a string to itself, and a
      proper prefix is smaller than each of its extensions. */
  predicate LexLess(a: string, b: string): (r: bool)
    ensures r ==> a != b
    ensures a < b ==> r
    decreases |a|
  {
    if a == [] then b != []
    else if b == [] then false
    else if a[0] != b[0] then a[0] < b[0]
    else LexLess(a[1..], b[1..])
  }

  /** `a` is smaller at the first position where the two strings differ. */
  ghost predicate SmallerAtFirstDifference(a: string, b: string) {
    exists k :: 0 <= k < |a| && k < |b| && a[..k] == b[..k] && a[k] < b[k]
  }

  /** The textbook definition of lexicographic order agrees with the
      position-by-position comparison. */
  lemma {:induction false} LexLessSpec(a: string, b: string)
    ensures LexLess(a, b) <==> SmallerAtFirstDifference(a, b) || a < b
    decreases |a|
  {
    if a != [] && b != [] {
      if a[0] == b[0] {
        LexLessSpec(a[1..], b[1..]);
        CommonHeadShift(a, b);
      } else if a[0] < b[0] {
        assert a[..0] == b[..0];
      }
    }
  }

  /** Dropping an equal first character changes neither definition. */
  lemma CommonHeadShift(a: string, b: string)
    requires a != [] && b != [] && a[0] == b[0]
    ensures SmallerAtFirstDifference(a, b) <==> SmallerAtFirstDifference(a[1..], b[1..])
    ensures a < b <==> a[1..] < b[1..]
  {
    if SmallerAtFirstDifference(a[1..], b[1..]) {
      DifferenceAfterHead(a, b);
    }
    if SmallerAtFirstDifference(a, b) {
      DifferenceInTail(a, b);
    }
    assert a == [a[0]] + a[1..] && b == [b[0]] + b[1..];
  }

  lemma DifferenceAfterHead(a: string, b: string)
    requires a != [] && b != [] && a[0] == b[0]
    requires SmallerAtFirstDifference(a[1..], b[1..])
    ensures SmallerAtFirstDifference(a, b)
  {
    var a', b' := a[1..], b[1..];
    var k :| 0 <= k < |a'| && k < |b'| && a'[..k] == b'[..k] && a'[k] < b'[k];
    assert a[..k + 1] == [a[0]] + a'[..k];
    assert b[..k + 1] == [b[0]] + b'[..k];
    assert a[k + 1] < b[k + 1];
  }

  lemma DifferenceInTail(a: string, b: string)
    requires a != [] && b != [] && a[0] == b[0]
    requires SmallerAtFirstDifference(a, b)
    ensures SmallerAtFirstDifference(a[1..], b[1..])
  {
    var k :| 0 <= k < |a| && k < |b| && a[..k] == b[..k] && a[k] < b[k];
    assert k != 0;
    var a', b' := a[1..], b[1..];
    assert a'[..k - 1] == a[..k][1..];
    assert b'[..k - 1] == b[..k][1..];
    assert a'[k - 1] < b'[k - 1];
  }

  lemma {:induction false} LexLessIrreflexive(a: string)
    ensures !LexLess(a, a)
    decreases |a|
  {
    if a != [] {
      LexLessIrreflexive(a[1..]);
    }
  }

  lemma {:induction false} LexLessTransitive(a: string, b: string, c: string)
    requires LexLess(a, b) && LexLess(b, c)
    ensures LexLess(a, c)
    decreases |a|
  {
    if a != [] && a[0] == b[0] && b[0] == c[0] {
      LexLessTransitive(a[1..], b[1..], c[1..]);
    }
  }

  lemma {:induction false} LexLessTotal(a: string, b: string)
    ensures a == b || LexLess(a, b) || LexLess(b, a)
    decreases |a|
  {
    if a != [] && b != [] && a[0] == b[0] {
      LexLessTotal(a[1..], b[1..]);
      if a[1..] == b[1..] {
        assert a == [a[0]] + a[1..] && b == [b[0]] + b[1..];
      }
    }
  }

  lemma {:induction false} LexLessAsymmetric(a: string, b: string)
    requires LexLess(a, b)
    ensures !LexLess(b, a)
    decreases |a|
  {
    if a != [] && a[0] == b[0] {
      LexLessAsymmetric(a[1..], b[1..]);
    }
  }

  /** A common prefix does not change how two strings compare. */
  lemma {:induction false} LexLessCommonPrefix(c: string, a: string, b: string)
    ensures LexLess(c + a, c + b) <==> LexLess(a, b)
    decreases |c|
  {
    if c != [] {
      assert (c + a)[1..] == c[1..] + a;
      assert (c + b)[1..] == c[1..] + b;
      LexLessCommonPrefix(c[1..], a, b);
    } else {
      assert c + a == a && c + b == b;
    }
  }

  predicate StrictlySorted(xs: seq<string>) {
    forall a, b :: 0 <= a < b < |xs| ==> LexLess(xs[a], xs[b])
  }

  predicate IsLeast(m: string, s: set<string>) {
    m in s && forall x :: x in s && x != m ==> LexLess(m, x)
  }

  lemma {:induction false} LeastExists(s: set<string>)
    requires s != {}
    ensures exists m :: IsLeast(m, s)
    decreases |s|
  {
    var x :| x in s;
    var rest := s - {x};
    if rest == {} {
      assert s == {x};
      assert IsLeast(x, s);
    } else {
      LeastExists(rest);
      var m :| IsLeast(m, rest);
      LexLessTotal(x, m);
      if LexLess(x, m) {
        forall y | y in s && y != x
          ensures LexLess(x, y)
        {
          if y != m {
            LexLessTransitive(x, m, y);
          }
        }
        assert IsLeast(x, s);
      } else {
        assert IsLeast(m, s);
      }
    }
  }

  lemma LeastUnique(m1: string, m2: string, s: set<string>)
    requires IsLeast(m1, s) && IsLeast(m2, s)
    ensures m1 == m2
  {
    if m1 != m2 {
      LexLessAsymmetric(m1, m2);
    }
  }

  /** The list `sorted` returns for a set of strings: the least string,
      then the sorted rest. */
  ghost function SortedPaths(s: set<string>): seq<string>
    decreases |s|
  {
    if s == {} then [] else [Least(s)] + SortedPaths(s - {Least(s)})
  }

  /** The least string of a non-empty set. */
  ghost function Least(s: set<string>): (m: string)
    requires s != {}
    ensures IsLeast(m, s)
  {
    LeastExists(s);
    var m :| IsLeast(m, s);
    m
  }

  /** The sorted list holds each string of the set once, in ascending order. */
  lemma {:induction false} SortedPathsSpec(s: set<string>)
    ensures |SortedPaths(s)| == |s|
    ensures forall x :: x in SortedPaths(s) <==> x in s
    ensures StrictlySorted(SortedPaths(s))
    decreases |s|
  {
    if s != {} {
      var r := SortedPaths(s);
      var m := Least(s);
      var tail := SortedPaths(s - {m});
      assert r == [m] + tail;
      SortedPathsSpec(s - {m});
      forall a, b | 0 <= a < b < |r| ensures LexLess(r[a], r[b]) {
        if a == 0 {
          assert r[b] == tail[b - 1] && r[b] in s - {m};
        } else {
          assert r[a] == tail[a - 1] && r[b] == tail[b - 1];
        }
      }
    }
  }

  /** Taking the least element first is how the sorted list begins. */
  lemma SortedPathsUnfold(s: set<string>, m: string)
    requires IsLeast(m, s)
    ensures SortedPaths(s) == [m] + SortedPaths(s - {m})
  {
    LeastUnique(m, Least(s), s);
  }

  lemma SortedStep(done: seq<string>, remaining: set<string>, m: string)
    requires IsLeast(m, remaining)
    ensures done + SortedPaths(remaining) == (done + [m]) + SortedPaths(remaining - {m})
  {
    SortedPathsUnfold(remaining, m);
  }

  /** A strictly sorted list is determined by its elements: any strictly
      sorted arrangement of a set is the one `SortedPaths` gives. */
  lemma {:induction false} SortedUnique(r: seq<string>, s: set<string>)
    requires StrictlySorted(r)
    requires forall x :: x in r <==> x in s
    ensures r == SortedPaths(s)
    decreases |r|
  {
    if r == [] {
      assert s == {};
    } else {
      var m := r[0];
      forall x | x in s && x != m ensures LexLess(m, x) {
        var b :| 0 <= b < |r| && r[b] == x;
      }
      SortedPathsUnfold(s, m);
      forall x ensures x in r[1..] <==> x in s - {m} {
        if x in r[1..] {
          var b :| 1 <= b < |r| && r[b] == x;
          LexLessIrreflexive(m);
        }
      }
      SortedUnique(r[1..], s - {m});
      assert r == [m] + r[1..];
    }
  }

  /** `sorted(list(s))`: repeatedly take the least remaining string. */
  method Sorted(s: set<string>) returns (r: seq<string>)
    ensures r == SortedPaths(s)
  {
    r := [];
    var remaining := s;
    while remaining != {}
      invariant r + SortedPaths(remaining) == SortedPaths(s)
      decreases |remaining|
    {
      LeastExists(remaining);
      var m :| IsLeast(m, remaining);
      SortedStep(r, remaining, m);
      r := r + [m];
      remaining := remaining - {m};
    }
    assert r + [] == r;
  }
}
