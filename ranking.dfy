/**
  The report at the end of an optimisation run: the final population
  sorted by `np.lexsort` over the five objective columns (the first
  objective decides, each later one only breaks ties, and equal rows keep
  their population order), cut to the first n_best_solutions.
*/
module Ranking {
  import opened Objectives

  /** numpy's sort order on floats: numbers by value, NaN after every number. */
  predicate ScoreLess(a: Score, b: Score)
  {
    match (a, b)
    case (Finite(x), Finite(y)) => x < y
    case (Finite(_), NaN) => true
    case (NaN, _) => false
  }

  /** Lexicographic order of two objective rows. */
  predicate RowLess(a: seq<Score>, b: seq<Score>)
    requires |a| == |b|
  {
    |a| > 0 && (ScoreLess(a[0], b[0]) || (a[0] == b[0] && RowLess(a[1..], b[1..])))
  }

  lemma {:induction false} RowLessIrreflexive(a: seq<Score>)
    ensures !RowLess(a, a)
  {
    if |a| > 0 {
      RowLessIrreflexive(a[1..]);
    }
  }

  lemma {:induction false} RowLessTransitive(a: seq<Score>, b: seq<Score>, c: seq<Score>)
    requires |a| == |b| == |c|
    requires RowLess(a, b) && RowLess(b, c)
    ensures RowLess(a, c)
  {
    if a[0] == b[0] && b[0] == c[0] {
      RowLessTransitive(a[1..], b[1..], c[1..]);
    }
  }

  /** Two rows that differ are ordered one way or the other. */
  lemma {:induction false} RowLessTotal(a: seq<Score>, b: seq<Score>)
    requires |a| == |b|
    ensures a == b || RowLess(a, b) || RowLess(b, a)
  {
    if |a| > 0 && a[0] == b[0] {
      RowLessTotal(a[1..], b[1..]);
      if a[1..] == b[1..] {
        assert a == [a[0]] + a[1..] && b == [b[0]] + b[1..];
      }
    }
  }

  lemma {:induction false} RowLessAsymmetric(a: seq<Score>, b: seq<Score>)
    requires |a| == |b| && RowLess(a, b)
    ensures !RowLess(b, a)
  {
    if RowLess(b, a) {
      RowLessTransitive(a, b, a);
      RowLessIrreflexive(a);
    }
  }

  /** Every row of F has the five objective columns. */
  predicate Rows(F: seq<seq<Score>>)
  {
    forall i :: 0 <= i < |F| ==> |F[i]| == Count
  }

  /** Candidate i comes before candidate j: a smaller row, or an equal row and a smaller index. */
  predicate Before(F: seq<seq<Score>>, i: nat, j: nat)
    requires Rows(F) && i < |F| && j < |F|
  {
    RowLess(F[i], F[j]) || (F[i] == F[j] && i < j)
  }

  lemma BeforeTransitive(F: seq<seq<Score>>, i: nat, j: nat, k: nat)
    requires Rows(F) && i < |F| && j < |F| && k < |F|
    requires Before(F, i, j) && Before(F, j, k)
    ensures Before(F, i, k)
  {
    if RowLess(F[i], F[j]) && RowLess(F[j], F[k]) {
      RowLessTransitive(F[i], F[j], F[k]);
    }
  }

  lemma BeforeAsymmetric(F: seq<seq<Score>>, i: nat, j: nat)
    requires Rows(F) && i < |F| && j < |F| && Before(F, i, j)
    ensures !Before(F, j, i)
  {
    if RowLess(F[i], F[j]) {
      RowLessAsymmetric(F[i], F[j]);
    } else {
      RowLessIrreflexive(F[i]);
    }
  }

  predicate Indices(F: seq<seq<Score>>, s: seq<nat>)
  {
    forall p :: 0 <= p < |s| ==> s[p] < |F|
  }

  /** Every earlier entry of s comes before every later one. */
  predicate Increasing(F: seq<seq<Score>>, s: seq<nat>)
    requires Rows(F) && Indices(F, s)
  {
    forall p, q :: 0 <= p < q < |s| ==> Before(F, s[p], s[q])
  }

  /** Inserts index k after every entry whose row is not larger than row k. */
  function Insert(F: seq<seq<Score>>, s: seq<nat>, k: nat): (r: seq<nat>)
    requires Rows(F) && Indices(F, s) && k < |F|
    ensures multiset(r) == multiset(s) + multiset{k}
    ensures |r| == |s| + 1 && Indices(F, r)
    ensures forall p :: 0 <= p < |r| ==> r[p] == k || r[p] in s
  {
    if s == [] then [k]
    else if RowLess(F[k], F[s[0]]) then [k] + s
    else
      assert s == [s[0]] + s[1..];
      [s[0]] + Insert(F, s[1..], k)
  }

  lemma {:induction false} InsertIncreasing(F: seq<seq<Score>>, s: seq<nat>, k: nat)
    requires Rows(F) && Indices(F, s) && k < |F|
    requires Increasing(F, s)
    requires forall p :: 0 <= p < |s| ==> s[p] < k
    ensures Increasing(F, Insert(F, s, k))
  {
    var r := Insert(F, s, k);
    if s == [] {
    } else if RowLess(F[k], F[s[0]]) {
      forall q | 0 < q < |r| ensures Before(F, k, r[q]) {
        if q > 1 {
          BeforeTransitive(F, k, s[0], s[q - 1]);
        }
      }
    } else {
      InsertIncreasing(F, s[1..], k);
      var rest := Insert(F, s[1..], k);
      RowLessTotal(F[k], F[s[0]]);
      assert Before(F, s[0], k);
      forall q | 0 <= q < |rest| ensures Before(F, s[0], rest[q]) {
        if rest[q] != k {
          var p :| 1 <= p < |s| && s[p] == rest[q];
        }
      }
    }
  }

  /** The indices 0 .. n-1 of the first n rows, in the order the sort leaves them. */
  function SortPrefix(F: seq<seq<Score>>, n: nat): (r: seq<nat>)
    requires Rows(F) && n <= |F|
    ensures |r| == n && Indices(F, r)
  {
    if n == 0 then []
    else
      Insert(F, SortPrefix(F, n - 1), n - 1)
  }

  /** `np.lexsort((F[:, 4], F[:, 3], F[:, 2], F[:, 1], F[:, 0]))`. */
  function LexSort(F: seq<seq<Score>>): (r: seq<nat>)
    requires Rows(F)
    ensures |r| == |F| && Indices(F, r)
  {
    SortPrefix(F, |F|)
  }

  function Range(n: nat): seq<nat>
  {
    seq(n, i => i)
  }

  lemma RangeGrows(n: nat)
    ensures multiset(Range(n + 1)) == multiset(Range(n)) + multiset{n}
  {
    assert Range(n + 1) == Range(n) + [n];
  }

  lemma {:induction false} SortPrefixPermutation(F: seq<seq<Score>>, n: nat)
    requires Rows(F) && n <= |F|
    ensures multiset(SortPrefix(F, n)) == multiset(Range(n))
  {
    if n > 0 {
      var prev, last: nat := SortPrefix(F, n - 1), n - 1;
      SortPrefixPermutation(F, last);
      assert SortPrefix(F, n) == Insert(F, prev, last);
      RangeGrows(last);
    }
  }

  /** The first n rows' sort holds only indices below n. */
  lemma {:induction false} SortPrefixBelow(F: seq<seq<Score>>, n: nat)
    requires Rows(F) && n <= |F|
    ensures forall p :: 0 <= p < n ==> SortPrefix(F, n)[p] < n
  {
    if n > 0 {
      var prev, last: nat := SortPrefix(F, n - 1), n - 1;
      SortPrefixBelow(F, last);
      assert SortPrefix(F, n) == Insert(F, prev, last);
      forall p | 0 <= p < n ensures SortPrefix(F, n)[p] < n {
        if SortPrefix(F, n)[p] != last {
          var q :| 0 <= q < |prev| && prev[q] == SortPrefix(F, n)[p];
        }
      }
    }
  }

  lemma {:induction false} SortPrefixIncreasing(F: seq<seq<Score>>, n: nat)
    requires Rows(F) && n <= |F|
    ensures Increasing(F, SortPrefix(F, n))
  {
    if n > 0 {
      var prev, last: nat := SortPrefix(F, n - 1), n - 1;
      SortPrefixIncreasing(F, last);
      SortPrefixBelow(F, last);
      assert |prev| == last && Increasing(F, prev);
      assert forall p :: 0 <= p < |prev| ==> prev[p] < last;
      InsertIncreasing(F, prev, last);
      assert SortPrefix(F, n) == Insert(F, prev, last);
    }
  }

  /**
    The lexsort result is a permutation of the population's indices in which
    rows never decrease lexicographically and equal rows keep their original
    order.
  */
  lemma LexSortSortedStable(F: seq<seq<Score>>)
    requires Rows(F)
    ensures multiset(LexSort(F)) == multiset(Range(|F|))
    ensures forall p, q :: 0 <= p < q < |F| ==> !RowLess(F[LexSort(F)[q]], F[LexSort(F)[p]])
    ensures forall p, q :: 0 <= p < q < |F| && F[LexSort(F)[p]] == F[LexSort(F)[q]] ==>
      LexSort(F)[p] < LexSort(F)[q]
  {
    var r := LexSort(F);
    SortPrefixPermutation(F, |F|);
    SortPrefixIncreasing(F, |F|);
    forall p, q | 0 <= p < q < |F| ensures !RowLess(F[r[q]], F[r[p]]) {
      if RowLess(F[r[p]], F[r[q]]) {
        RowLessAsymmetric(F[r[p]], F[r[q]]);
      } else {
        RowLessIrreflexive(F[r[p]]);
      }
    }
  }

  /** Two increasing sequences with the same elements start with the same candidate. */
  lemma IncreasingSameFirst(F: seq<seq<Score>>, s: seq<nat>, t: seq<nat>)
    requires Rows(F) && Indices(F, s) && Indices(F, t) && s != []
    requires Increasing(F, s) && Increasing(F, t)
    requires multiset(s) == multiset(t)
    ensures t != [] && s[0] == t[0]
  {
    assert s[0] in multiset(t);
    var i :| 0 <= i < |t| && t[i] == s[0];
    assert t[0] in multiset(s);
    var j :| 0 <= j < |s| && s[j] == t[0];
    if i > 0 && j > 0 {
      BeforeTransitive(F, s[0], s[j], s[0]);
      BeforeAsymmetric(F, s[0], s[0]);
    } else if i > 0 {
      BeforeAsymmetric(F, t[0], t[i]);
    }
  }

  lemma TailMultiset(s: seq<nat>, t: seq<nat>)
    requires s != [] && t != [] && s[0] == t[0] && multiset(s) == multiset(t)
    ensures multiset(s[1..]) == multiset(t[1..])
  {
    assert s == [s[0]] + s[1..] && t == [t[0]] + t[1..];
    calc {
      multiset(s[1..]);
      multiset(s) - multiset{s[0]};
      multiset(t) - multiset{t[0]};
      multiset(t[1..]);
    }
  }

  /**
    Only one ordering of a set of candidates has every candidate before the
    next: two increasing sequences with the same elements are equal.
  */
  lemma {:induction false} IncreasingUnique(F: seq<seq<Score>>, s: seq<nat>, t: seq<nat>)
    requires Rows(F) && Indices(F, s) && Indices(F, t)
    requires Increasing(F, s) && Increasing(F, t)
    requires multiset(s) == multiset(t)
    ensures s == t
  {
    if s != [] {
      IncreasingSameFirst(F, s, t);
      TailMultiset(s, t);
      IncreasingUnique(F, s[1..], t[1..]);
      assert s == [s[0]] + s[1..] && t == [t[0]] + t[1..];
    } else {
      assert |t| == |multiset(t)|;
    }
  }

  /**
    lexsort's order is the only stable sorted one: any permutation of the
    population's indices that never puts a larger row first and keeps equal
    rows in population order is the lexsort result.
  */
  lemma LexSortUnique(F: seq<seq<Score>>, r: seq<nat>)
    requires Rows(F) && Indices(F, r)
    requires multiset(r) == multiset(Range(|F|))
    requires forall p, q :: 0 <= p < q < |r| ==> !RowLess(F[r[q]], F[r[p]])
    requires forall p, q :: 0 <= p < q < |r| && F[r[p]] == F[r[q]] ==> r[p] < r[q]
    ensures r == LexSort(F)
  {
    SortPrefixPermutation(F, |F|);
    SortPrefixIncreasing(F, |F|);
    forall p, q | 0 <= p < q < |r| ensures Before(F, r[p], r[q]) {
      RowLessTotal(F[r[p]], F[r[q]]);
    }
    IncreasingUnique(F, r, LexSort(F));
  }

  // ---- the report ----

  /** The length of `s[:n]` for a sequence s of length len (a negative n counts from the end). */
  function SliceLength(len: nat, n: int): (k: nat)
    ensures k <= len
  {
    if n >= 0 then (if n < len then n else len)
    else if len + n > 0 then len + n
    else 0
  }

  function Column(rows: seq<seq<Score>>, j: nat): seq<Score>
    requires forall i :: 0 <= i < |rows| ==> j < |rows[i]|
  {
    seq(|rows|, i requires 0 <= i < |rows| => rows[i][j])
  }

  /** The best parameter vectors and their five objective columns. */
  datatype Report = Report(
    solutions: seq<seq<real>>,
    barDiff: seq<Score>,
    crossDiff: seq<Score>,
    transRatio: seq<Score>,
    transBar: seq<Score>,
    reflection: seq<Score>)

  /** The end of `optimize_bdc_nsga2`: the first n_best entries of the lexsort order, rows of X and F alike. */
  function BestSolutions(X: seq<seq<real>>, F: seq<seq<Score>>, nBest: int): Report
    requires Rows(F) && |F| <= |X|
  {
    var order := LexSort(F);
    var chosen := order[..SliceLength(|F|, nBest)];
    var rows := seq(|chosen|, i requires 0 <= i < |chosen| => F[chosen[i]]);
    Report(seq(|chosen|, i requires 0 <= i < |chosen| => X[chosen[i]]),
           Column(rows, 0), Column(rows, 1), Column(rows, 2), Column(rows, 3), Column(rows, 4))
  }

  /**
    The report lists min(n_best, population) candidates for n_best >= 0; the
    i-th parameter vector and the i-th entry of each objective column belong
    to the same candidate; they come in lexsort order; and no candidate left
    out has a smaller objective row than any candidate in the report.
  */
  lemma BestSolutionsAreBest(X: seq<seq<real>>, F: seq<seq<Score>>, nBest: int)
    requires Rows(F) && |F| <= |X|
    ensures var rep := BestSolutions(X, F, nBest);
      var k := SliceLength(|F|, nBest);
      && |rep.solutions| == k
      && (nBest >= 0 ==> k == if nBest < |F| then nBest else |F|)
      && |rep.barDiff| == |rep.crossDiff| == |rep.transRatio| == |rep.transBar| == |rep.reflection| == k
      && (forall i :: 0 <= i < k ==>
            var c := LexSort(F)[i];
            && rep.solutions[i] == X[c]
            && [rep.barDiff[i], rep.crossDiff[i], rep.transRatio[i], rep.transBar[i], rep.reflection[i]] == F[c])
      && (forall i, t :: 0 <= i < k && 0 <= t < |F| && t !in LexSort(F)[..k] ==>
            !RowLess(F[t], F[LexSort(F)[i]]))
  {
    var order := LexSort(F);
    var k := SliceLength(|F|, nBest);
    LexSortSortedStable(F);
    forall i | 0 <= i < k ensures [F[order[i]][0], F[order[i]][1], F[order[i]][2], F[order[i]][3], F[order[i]][4]] == F[order[i]] {
    }
    LeftOutNotSmaller(F, k);
  }

  /** No candidate outside the first k of the lexsort order has a smaller row than one inside. */
  lemma LeftOutNotSmaller(F: seq<seq<Score>>, k: nat)
    requires Rows(F) && k <= |F|
    ensures forall i, t :: 0 <= i < k && 0 <= t < |F| && t !in LexSort(F)[..k] ==>
      !RowLess(F[t], F[LexSort(F)[i]])
  {
    var order := LexSort(F);
    LexSortSortedStable(F);
    forall i, t | 0 <= i < k && 0 <= t < |F| && t !in order[..k] ensures !RowLess(F[t], F[order[i]]) {
      assert t in multiset(Range(|F|)) by {
        assert Range(|F|)[t] == t;
      }
      assert t in multiset(order);
      var q :| 0 <= q < |order| && order[q] == t;
    }
  }
}
