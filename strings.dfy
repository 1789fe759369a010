/** String helpers the marker pipeline relies on: suffix lower-casing,
    `str.endswith`, Python's ordering of strings and `sorted()` of a set. */
module Strings {

  /** Lower-cases one ASCII letter; every other character is kept. */
  function LowerChar(c: char): char {
    if 'A' <= c <= 'Z' then (c as int + 32) as char else c
  }

  /** `s.lower()`, restricted to ASCII letters. */
  function Lower(s: string): string {
    seq(|s|, i requires 0 <= i < |s| => LowerChar(s[i]))
  }

  /** `s.endswith(suffix)`. */
  predicate EndsWith(s: string, suffix: string) {
    |suffix| <= |s| && s[|s| - |suffix|..] == suffix
  }

  /** Python's `a < b` on str: lexicographic by code point, a proper prefix
      coming first. */
  predicate Less(a: string, b: string)
    decreases |a|
  {
    |b| > 0 && (|a| == 0 || a[0] < b[0] || (a[0] == b[0] && Less(a[1..], b[1..])))
  }

  lemma {:induction false} LessIrreflexive(a: string)
    ensures !Less(a, a)
    decreases |a|
  {
    if |a| > 0 {
      LessIrreflexive(a[1..]);
    }
  }

  lemma {:induction false} LessTransitive(a: string, b: string, c: string)
    requires Less(a, b) && Less(b, c)
    ensures Less(a, c)
    decreases |a|
  {
    if |a| > 0 && a[0] == b[0] && b[0] == c[0] {
      LessTransitive(a[1..], b[1..], c[1..]);
    }
  }

  lemma {:induction false} LessTotal(a: string, b: string)
    ensures a == b || Less(a, b) || Less(b, a)
    decreases |a|
  {
    if |a| > 0 && |b| > 0 && a[0] == b[0] {
      LessTotal(a[1..], b[1..]);
      if a[1..] == b[1..] {
        assert a == [a[0]] + a[1..] && b == [b[0]] + b[1..];
      }
    }
  }

  /** Python's str order is a strict total order. */
  lemma LessIsStrictOrder()
    ensures forall a :: !Less(a, a)
    ensures forall a, b, c :: Less(a, b) && Less(b, c) ==> Less(a, c)
    ensures forall a, b :: a == b || Less(a, b) || Less(b, a)
  {
    forall a ensures !Less(a, a) {
      LessIrreflexive(a);
    }
    forall a, b, c | Less(a, b) && Less(b, c) ensures Less(a, c) {
      LessTransitive(a, b, c);
    }
    forall a, b ensures a == b || Less(a, b) || Less(b, a) {
      LessTotal(a, b);
    }
  }

  /** Every element comes strictly before every later one: sorted and
      free of duplicates. */
  ghost predicate StrictlyAscending(r: seq<string>) {
    forall i, j :: 0 <= i < j < |r| ==> Less(r[i], r[j])
  }

  /** m is the smallest element of s. */
  predicate IsLeast(m: string, s: set<string>) {
    m in s && forall x :: x in s && x != m ==> Less(m, x)
  }

  lemma {:induction false} LeastExists(s: set<string>)
    requires s != {}
    ensures exists m :: IsLeast(m, s)
    decreases |s|
  {
    LessIsStrictOrder();
    var x :| x in s;
    var rest := s - {x};
    if rest == {} {
      assert forall y :: y in s && y != x ==> y in rest;
      assert IsLeast(x, s);
    } else {
      LeastExists(rest);
      var m :| IsLeast(m, rest);
      if Less(x, m) {
        forall y | y in s && y != x ensures Less(x, y) {
          if y != m {
            assert IsLeast(m, rest) && y in rest;
            LessTransitive(x, m, y);
          }
        }
        assert IsLeast(x, s);
      } else {
        assert IsLeast(m, s);
      }
    }
  }

  lemma LeastUnique(s: set<string>)
    ensures forall m, m' :: IsLeast(m, s) && IsLeast(m', s) ==> m == m'
  {
    LessIsStrictOrder();
  }

  /** `sorted(s)` for a set of strings: the elements of s in ascending order,
      each exactly once. */
  function SortedSet(s: set<string>): (r: seq<string>)
    ensures |r| == |s|
    ensures forall x :: x in r <==> x in s
    ensures StrictlyAscending(r)
    decreases |s|
  {
    if s == {} then []
    else
      LeastExists(s);
      LeastUnique(s);
      var m :| IsLeast(m, s);
      [m] + SortedSet(s - {m})
  }

  /** Two ascending, duplicate-free listings of the same elements are the
      same sequence. */
  lemma {:induction false} AscendingListingsEqual(r1: seq<string>, r2: seq<string>)
    requires StrictlyAscending(r1) && StrictlyAscending(r2)
    requires forall x :: x in r1 <==> x in r2
    ensures r1 == r2
    decreases |r1|
  {
    LessIsStrictOrder();
    assert r2 != [] ==> r2[0] in r1;
    if r1 != [] {
      assert r1[0] in r2;
      assert r2 != [];
      assert r2[0] in r1;
      assert r1[0] == r2[0];
      forall x ensures x in r1[1..] <==> x in r2[1..] {
        if x in r1[1..] {
          var k :| 1 <= k < |r1| && r1[k] == x;
          assert Less(r1[0], x);
          assert x in r2;
        }
        if x in r2[1..] {
          var k :| 1 <= k < |r2| && r2[k] == x;
          assert Less(r2[0], x);
          assert x in r1;
        }
      }
      AscendingListingsEqual(r1[1..], r2[1..]);
      assert r1 == [r1[0]] + r1[1..] && r2 == [r2[0]] + r2[1..];
    }
  }

  /** `sorted(s)` is the one ascending duplicate-free listing of s. */
  lemma SortedSetIsTheListing(s: set<string>, r: seq<string>)
    requires StrictlyAscending(r)
    requires forall x :: x in r <==> x in s
    ensures SortedSet(s) == r
  {
    AscendingListingsEqual(SortedSet(s), r);
  }
}
