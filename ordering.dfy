/**
 * Python's ordering of `str` values (code point by code point, a proper prefix first)
 * and `sorted()` on a list of strings.
 */
module Ordering {

  /** Python's `a <= b` on strings. */
  predicate LessEq(a: string, b: string) {
    |a| == 0 || (|b| > 0 && (a[0] < b[0] || (a[0] == b[0] && LessEq(a[1..], b[1..]))))
  }

  lemma {:induction false} LessEqTotal(a: string, b: string)
    ensures LessEq(a, b) || LessEq(b, a)
  {
    if |a| > 0 && |b| > 0 && a[0] == b[0] {
      LessEqTotal(a[1..], b[1..]);
    }
  }

  lemma {:induction false} LessEqTransitive(a: string, b: string, c: string)
    requires LessEq(a, b) && LessEq(b, c)
    ensures LessEq(a, c)
  {
    if |a| > 0 && a[0] == b[0] && b[0] == c[0] {
      LessEqTransitive(a[1..], b[1..], c[1..]);
    }
  }

  ghost predicate Sorted(s: seq<string>) {
    forall i, j :: 0 <= i < j < |s| ==> LessEq(s[i], s[j])
  }

  /** Inserts `x` into a sorted list after every element that precedes it. */
  function Insert(x: string, s: seq<string>): seq<string> {
    if s == [] then [x]
    else if LessEq(x, s[0]) then [x] + s
    else [s[0]] + Insert(x, s[1..])
  }

  /** `sorted(s)` (an insertion sort; stability is unobservable for strings). */
  function SortStrings(s: seq<string>): seq<string> {
    if s == [] then [] else Insert(s[0], SortStrings(s[1..]))
  }

  lemma {:induction false} InsertKeepsElements(x: string, s: seq<string>)
    ensures multiset(Insert(x, s)) == multiset(s) + multiset{x}
  {
    if s != [] && !LessEq(x, s[0]) {
      InsertKeepsElements(x, s[1..]);
      assert s == [s[0]] + s[1..];
    }
  }

  lemma {:induction false} InsertKeepsSorted(x: string, s: seq<string>)
    requires Sorted(s)
    ensures Sorted(Insert(x, s))
  {
    if s == [] {
    } else if LessEq(x, s[0]) {
      HeadBelowRest(s);
      forall y | y in s ensures LessEq(x, y) {
        if y != s[0] {
          assert y in s[1..];
          LessEqTransitive(x, s[0], y);
        }
      }
      SortedCons(x, s);
    } else {
      var tail := Insert(x, s[1..]);
      InsertKeepsSorted(x, s[1..]);
      LessEqTotal(x, s[0]);
      HeadBelowRest(s);
      forall y | y in tail ensures LessEq(s[0], y) {
        InsertWithin(x, s[1..], y);
      }
      SortedCons(s[0], tail);
    }
  }

  /** An element of `Insert(x, s)` is `x` or an element of `s`. */
  lemma {:induction false} InsertWithin(x: string, s: seq<string>, y: string)
    requires y in Insert(x, s)
    ensures y == x || y in s
  {
    if s != [] && !LessEq(x, s[0]) && y != s[0] {
      InsertWithin(x, s[1..], y);
    }
  }

  /** The head of a sorted list precedes every later element. */
  lemma HeadBelowRest(keys: seq<string>)
    requires Sorted(keys) && keys != []
    ensures forall y :: y in keys[1..] ==> LessEq(keys[0], y)
  {
    forall y | y in keys[1..] ensures LessEq(keys[0], y) {
      var k :| 0 <= k < |keys[1..]| && keys[1..][k] == y;
      assert keys[k + 1] == y;
    }
  }

  /** An element below every element of a sorted list can go in front. */
  lemma SortedCons(x: string, s: seq<string>)
    requires Sorted(s) && forall y :: y in s ==> LessEq(x, y)
    ensures Sorted([x] + s)
  {
    var t := [x] + s;
    forall i, j | 0 <= i < j < |t| ensures LessEq(t[i], t[j]) {
      if i == 0 {
        assert t[j] == s[j - 1];
      } else {
        assert t[i] == s[i - 1] && t[j] == s[j - 1];
      }
    }
  }

  /** `sorted(s)` is ordered and holds the same elements as `s`. */
  lemma {:induction false} SortStringsCorrect(s: seq<string>)
    ensures Sorted(SortStrings(s))
    ensures multiset(SortStrings(s)) == multiset(s)
  {
    if s != [] {
      SortStringsCorrect(s[1..]);
      InsertKeepsSorted(s[0], SortStrings(s[1..]));
      InsertKeepsElements(s[0], SortStrings(s[1..]));
      assert s == [s[0]] + s[1..];
    }
  }
}
