/**
 * Sequence helpers shared by the three applications. The apps filter Python
 * lists with comprehensions and pandas frames with boolean masks; both keep
 * the rows that pass a test, in their original order, which is `Filter` here.
 */
module Seqs {

  /** `a` can be obtained from `b` by deleting elements (order is kept). */
  predicate IsSubsequence<T(==)>(a: seq<T>, b: seq<T>)
    decreases |b|
  {
    a == [] ||
    (b != [] &&
     ((a[0] == b[0] && IsSubsequence(a[1..], b[1..])) || IsSubsequence(a, b[1..])))
  }

  /** The elements of `s` that satisfy `p`, in their original order. */
  function Filter<T(==)>(s: seq<T>, p: T -> bool): (r: seq<T>)
    ensures |r| <= |s|
    ensures forall i :: 0 <= i < |r| ==> r[i] in s && p(r[i])
    ensures forall i :: 0 <= i < |s| && p(s[i]) ==> s[i] in r
    ensures IsSubsequence(r, s)
  {
    if s == [] then []
    else if p(s[0]) then [s[0]] + Filter(s[1..], p)
    else Filter(s[1..], p)
  }

  /** Number of elements of `s` that satisfy `p` (the length of a filtered frame). */
  function Count<T>(s: seq<T>, p: T -> bool): (n: nat)
    ensures n <= |s|
  {
    if s == [] then 0
    else (if p(s[0]) then 1 else 0) + Count(s[1..], p)
  }

  /** The set of a list's elements, Python's `set(list)`. */
  function SetOf<T>(s: seq<T>): set<T>
  {
    set x | x in s
  }

  predicate NoDuplicates<T(==)>(s: seq<T>)
  {
    forall i, j :: 0 <= i < j < |s| ==> s[i] != s[j]
  }

  function Min(a: int, b: int): int { if a <= b then a else b }

  function Max(a: int, b: int): int { if a >= b then a else b }

  lemma {:induction false} SubsequenceReflexive<T>(s: seq<T>)
    ensures IsSubsequence(s, s)
    decreases |s|
  {
    if s != [] {
      SubsequenceReflexive(s[1..]);
    }
  }

  lemma {:induction false} SubsequenceTransitive<T>(a: seq<T>, b: seq<T>, c: seq<T>)
    requires IsSubsequence(a, b) && IsSubsequence(b, c)
    ensures IsSubsequence(a, c)
    decreases |c|
  {
    if a != [] {
      if b[0] == c[0] && IsSubsequence(b[1..], c[1..]) {
        if a[0] == b[0] && IsSubsequence(a[1..], b[1..]) {
          SubsequenceTransitive(a[1..], b[1..], c[1..]);
        } else {
          SubsequenceTransitive(a, b[1..], c[1..]);
        }
      } else {
        SubsequenceTransitive(a, b, c[1..]);
      }
    }
  }

  /** Every element of a subsequence occurs in the sequence it was taken from. */
  lemma {:induction false} SubsequenceMembers<T>(a: seq<T>, b: seq<T>)
    requires IsSubsequence(a, b)
    ensures |a| <= |b|
    ensures forall x :: x in a ==> x in b
    decreases |b|
  {
    if a != [] {
      if a[0] == b[0] && IsSubsequence(a[1..], b[1..]) {
        SubsequenceMembers(a[1..], b[1..]);
        assert forall x :: x in a ==> x == a[0] || x in a[1..];
      } else {
        SubsequenceMembers(a, b[1..]);
      }
    }
  }

  /** A filter that keeps every element returns its input. */
  lemma {:induction false} FilterKeepsAll<T>(s: seq<T>, p: T -> bool)
    requires forall x :: x in s ==> p(x)
    ensures Filter(s, p) == s
  {
    if s != [] {
      FilterKeepsAll(s[1..], p);
    }
  }

  /** Counting agrees with the length of the filtered list. */
  lemma {:induction false} CountIsFilterLength<T>(s: seq<T>, p: T -> bool)
    ensures Count(s, p) == |Filter(s, p)|
  {
    if s != [] {
      CountIsFilterLength(s[1..], p);
    }
  }

  /**
   * Counts of three tests that split every element exactly one way add up to
   * the length of the list.
   */
  lemma {:induction false} CountPartition<T>(s: seq<T>, a: T -> bool, b: T -> bool, c: T -> bool)
    requires forall x :: x in s ==> (a(x) || b(x) || c(x))
    requires forall x :: x in s ==> !(a(x) && b(x)) && !(a(x) && c(x)) && !(b(x) && c(x))
    ensures Count(s, a) + Count(s, b) + Count(s, c) == |s|
  {
    if s != [] {
      assert s[0] in s;
      assert forall x :: x in s[1..] ==> x in s;
      CountPartition(s[1..], a, b, c);
    }
  }

  /** Tests that never hold together count no more than the list holds. */
  lemma {:induction false} CountDisjointBound<T>(s: seq<T>, a: T -> bool, b: T -> bool, c: T -> bool)
    requires forall x :: x in s ==> !(a(x) && b(x)) && !(a(x) && c(x)) && !(b(x) && c(x))
    ensures Count(s, a) + Count(s, b) + Count(s, c) <= |s|
  {
    if s != [] {
      assert s[0] in s;
      assert forall x :: x in s[1..] ==> x in s;
      CountDisjointBound(s[1..], a, b, c);
    }
  }

  /** A test and its negation split a list. */
  lemma {:induction false} CountComplement<T>(s: seq<T>, p: T -> bool, q: T -> bool)
    requires forall x :: x in s ==> (q(x) <==> !p(x))
    ensures Count(s, p) + Count(s, q) == |s|
  {
    if s != [] {
      assert s[0] in s;
      assert forall x :: x in s[1..] ==> x in s;
      CountComplement(s[1..], p, q);
    }
  }

  lemma SubsetCardinality<T>(a: set<T>, b: set<T>)
    requires a <= b
    ensures |a| <= |b|
  {
    assert b == a + (b - a);
    assert a * (b - a) == {};
  }

  /** `set(list)` has at most as many elements as the list, exactly as many without repeats. */
  lemma {:induction false} SetOfCardinality<T>(s: seq<T>)
    ensures |SetOf(s)| <= |s|
    ensures NoDuplicates(s) ==> |SetOf(s)| == |s|
  {
    if s != [] {
      SetOfCardinality(s[1..]);
      assert SetOf(s) == SetOf(s[1..]) + {s[0]};
      if NoDuplicates(s) {
        assert NoDuplicates(s[1..]) by {
          forall i, j | 0 <= i < j < |s[1..]| ensures s[1..][i] != s[1..][j] {
            assert s[1..][i] == s[i + 1] && s[1..][j] == s[j + 1];
          }
        }
        forall k | 0 <= k < |s[1..]| ensures s[1..][k] != s[0] {
          assert s[1..][k] == s[k + 1];
        }
        assert s[0] !in SetOf(s[1..]);
      }
    }
  }

  /** Filtering twice keeps what passes both tests. */
  lemma {:induction false} FilterFilter<T>(s: seq<T>, p: T -> bool, q: T -> bool)
    ensures Filter(Filter(s, p), q) == Filter(s, x => p(x) && q(x))
  {
    if s != [] {
      FilterFilter(s[1..], p, q);
    }
  }

  /** Two tests that agree on every element of a list filter it the same way. */
  lemma {:induction false} FilterCongruent<T>(s: seq<T>, p: T -> bool, q: T -> bool)
    requires forall x :: x in s ==> p(x) == q(x)
    ensures Filter(s, p) == Filter(s, q)
  {
    if s != [] {
      assert s[0] in s;
      assert forall x :: x in s[1..] ==> x in s;
      FilterCongruent(s[1..], p, q);
    }
  }

  /** A multi-select filter lets a value through when nothing is selected or when the value is selected. */
  predicate Selected<V(==)>(selection: seq<V>, v: V)
  {
    selection == [] || v in selection
  }

  /**
   * `if selection: rows = rows[rows[field].isin(selection)]`: an empty
   * selection leaves the rows alone, otherwise only rows whose field is
   * selected stay, in their order.
   */
  function KeepIfSelected<T(==), V(==)>(rows: seq<T>, selection: seq<V>, field: T -> V): (r: seq<T>)
    ensures selection == [] ==> r == rows
    ensures forall i :: 0 <= i < |r| ==> r[i] in rows && Selected(selection, field(r[i]))
    ensures forall i :: 0 <= i < |rows| && field(rows[i]) in selection ==> rows[i] in r
    ensures IsSubsequence(r, rows)
  {
    if selection == [] then
      SubsequenceReflexive(rows);
      rows
    else
      Filter(rows, x => field(x) in selection)
  }

  /** The multi-select filter is the plain filter by `Selected`. */
  lemma KeepIfSelectedIsFilter<T, V>(rows: seq<T>, selection: seq<V>, field: T -> V)
    ensures KeepIfSelected(rows, selection, field) == Filter(rows, x => Selected(selection, field(x)))
  {
    if selection == [] {
      FilterKeepsAll(rows, x => Selected(selection, field(x)));
    } else {
      FilterCongruent(rows, x => field(x) in selection, x => Selected(selection, field(x)));
    }
  }

  /** A row survives the multi-select filter iff it was there and its field is selected. */
  lemma KeepIfSelectedMembers<T(!new), V>(rows: seq<T>, selection: seq<V>, field: T -> V)
    ensures forall x :: x in KeepIfSelected(rows, selection, field) <==> x in rows && Selected(selection, field(x))
  {
    var r := KeepIfSelected(rows, selection, field);
    forall x | x in r ensures x in rows && Selected(selection, field(x)) {
      var i :| 0 <= i < |r| && r[i] == x;
    }
  }
}
