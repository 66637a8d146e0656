/** Longest common subsequences of two hash-value sequences, stated independently of how
    diff searches for them.  Line number i of a file is element i-1 of its sequence, as in
    diff's one-based tables. */
module Lcs {

  /** Length of a longest common subsequence of the first i lines of a and the first j of b. */
  function Len(a: seq<int>, b: seq<int>, i: nat, j: nat): (r: nat)
    requires i <= |a| && j <= |b|
    decreases i + j
  {
    if i == 0 || j == 0 then 0
    else if a[i - 1] == b[j - 1] then 1 + Len(a, b, i - 1, j - 1)
    else
      var x, y := Len(a, b, i - 1, j), Len(a, b, i, j - 1);
      if x < y then y else x
  }

  /** J pairs line i of a with line J[i] of b (0: unpaired): pairs are equal and never cross. */
  ghost predicate Matching(a: seq<int>, b: seq<int>, J: seq<int>) {
    && |J| > |a|
    && (forall i :: 1 <= i <= |a| ==> 0 <= J[i] <= |b|)
    && (forall i :: 1 <= i <= |a| && J[i] != 0 ==> a[i - 1] == b[J[i] - 1])
    && Increasing(J, |a|)
  }

  ghost predicate Increasing(J: seq<int>, n: nat)
    requires |J| > n
  {
    forall i, j :: 1 <= i < j <= n && J[i] != 0 && J[j] != 0 ==> J[i] < J[j]
  }

  /** How many of lines 1..n are paired by J. */
  function Matched(J: seq<int>, n: nat): (r: nat)
    requires |J| > n
  {
    if n == 0 then 0 else Matched(J, n - 1) + (if J[n] != 0 then 1 else 0)
  }

  /** Line i of a equals line q of b. */
  ghost predicate Mates(a: seq<int>, b: seq<int>, i: nat, q: nat) {
    1 <= i <= |a| && 1 <= q <= |b| && a[i - 1] == b[q - 1]
  }

  /** One more line, on either side, gains at most one and never loses. */
  lemma {:induction false} Step(a: seq<int>, b: seq<int>, i: nat, j: nat)
    requires i <= |a| && j <= |b|
    ensures i > 0 ==> Len(a, b, i - 1, j) <= Len(a, b, i, j) <= Len(a, b, i - 1, j) + 1
    ensures j > 0 ==> Len(a, b, i, j - 1) <= Len(a, b, i, j) <= Len(a, b, i, j - 1) + 1
    decreases i + j
  {
    if i > 0 && j > 0 {
      Step(a, b, i - 1, j);
      Step(a, b, i, j - 1);
      Step(a, b, i - 1, j - 1);
    }
  }

  lemma {:induction false} Monotone(a: seq<int>, b: seq<int>, i: nat, j: nat, i': nat, j': nat)
    requires i <= i' <= |a| && j <= j' <= |b|
    ensures Len(a, b, i, j) <= Len(a, b, i', j')
    decreases i' - i + j' - j
  {
    if i < i' {
      Step(a, b, i', j');
      Monotone(a, b, i, j, i' - 1, j');
    } else if j < j' {
      Step(a, b, i', j');
      Monotone(a, b, i, j, i', j' - 1);
    }
  }

  lemma {:induction false} Bounded(a: seq<int>, b: seq<int>, i: nat, j: nat)
    requires i <= |a| && j <= |b|
    ensures Len(a, b, i, j) <= i && Len(a, b, i, j) <= j
    decreases i + j
  {
    if i > 0 && j > 0 {
      Bounded(a, b, i - 1, j - 1);
      Bounded(a, b, i - 1, j);
      Bounded(a, b, i, j - 1);
      Step(a, b, i, j);
    }
  }

  /** No matching pairs more lines than Len says. */
  lemma {:induction false} MatchingBound(a: seq<int>, b: seq<int>, J: seq<int>, i: nat, y: nat)
    requires Matching(a, b, J) && i <= |a| && y <= |b|
    requires forall t :: 1 <= t <= i ==> J[t] <= y
    ensures Matched(J, i) <= Len(a, b, i, y)
    decreases i
  {
    if i == 0 {
    } else if J[i] == 0 {
      MatchingBound(a, b, J, i - 1, y);
      Step(a, b, i, y);
    } else {
      MatchingBound(a, b, J, i - 1, J[i] - 1);
      Monotone(a, b, i, J[i], i, y);
    }
  }

  /** What row i adds to row i-1: l pairs fit below column y exactly when they did already,
      or line i completes l-1 pairs that fit strictly left of one of its partners. */
  lemma {:induction false} Row(a: seq<int>, b: seq<int>, i: nat, y: nat, l: nat)
    requires 1 <= i <= |a| && y <= |b| && l >= 1
    ensures Len(a, b, i, y) >= l <==>
            Len(a, b, i - 1, y) >= l || exists q: nat :: q <= y && Mates(a, b, i, q) && Len(a, b, i - 1, q - 1) >= l - 1
    decreases y
  {
    if y > 0 {
      Row(a, b, i, y - 1, l);
      Step(a, b, i, y);
      Step(a, b, i - 1, y);
      if a[i - 1] == b[y - 1] {
        assert Mates(a, b, i, y);
        assert Len(a, b, i, y) == 1 + Len(a, b, i - 1, y - 1);
        if q: nat :| q <= y && Mates(a, b, i, q) && Len(a, b, i - 1, q - 1) >= l - 1 {
          Monotone(a, b, i - 1, q - 1, i - 1, y - 1);
        }
      } else if q: nat :| q <= y && Mates(a, b, i, q) && Len(a, b, i - 1, q - 1) >= l - 1 {
        assert q <= y - 1;
      }
    }
  }

  /** The first p lines agree. */
  ghost predicate CommonPrefix(a: seq<int>, b: seq<int>, p: nat) {
    p <= |a| && p <= |b| && forall t :: 0 <= t < p ==> a[t] == b[t]
  }

  /** The last s lines agree. */
  ghost predicate CommonSuffix(a: seq<int>, b: seq<int>, s: nat) {
    s <= |a| && s <= |b| && forall t :: |a| - s <= t < |a| ==> a[t] == b[|b| - |a| + t]
  }

  lemma {:induction false} PrefixDiagonal(a: seq<int>, b: seq<int>, p: nat, i: nat, j: nat)
    requires CommonPrefix(a, b, p) && i <= |a| && j <= |b|
    requires i == p <= j || j == p <= i
    ensures Len(a, b, i, j) == p
  {
    DiagonalLen(a, b, p);
    Monotone(a, b, p, p, i, j);
    Bounded(a, b, i, j);
  }

  lemma {:induction false} DiagonalLen(a: seq<int>, b: seq<int>, p: nat)
    requires CommonPrefix(a, b, p)
    ensures Len(a, b, p, p) == p
  {
    if p > 0 {
      DiagonalLen(a, b, p - 1);
    }
  }

  /** A common prefix can be set aside ... */
  lemma {:induction false} DropPrefix(a: seq<int>, b: seq<int>, p: nat, a': seq<int>, b': seq<int>, i: nat, j: nat)
    requires CommonPrefix(a, b, p) && p + |a'| <= |a| && p + |b'| <= |b|
    requires forall t :: 0 <= t < |a'| ==> a'[t] == a[p + t]
    requires forall t :: 0 <= t < |b'| ==> b'[t] == b[p + t]
    requires i <= |a'| && j <= |b'|
    ensures Len(a, b, p + i, p + j) == p + Len(a', b', i, j)
    decreases i + j
  {
    if i == 0 || j == 0 {
      PrefixDiagonal(a, b, p, p + i, p + j);
    } else {
      DropPrefix(a, b, p, a', b', i - 1, j - 1);
      DropPrefix(a, b, p, a', b', i - 1, j);
      DropPrefix(a, b, p, a', b', i, j - 1);
    }
  }

  /** ... and a common suffix too. */
  lemma {:induction false} DropSuffix(a: seq<int>, b: seq<int>, s: nat)
    requires CommonSuffix(a, b, s)
    ensures Len(a, b, |a|, |b|) == Len(a, b, |a| - s, |b| - s) + s
  {
    SuffixSteps(a, b, s, s);
  }

  lemma {:induction false} SuffixSteps(a: seq<int>, b: seq<int>, s: nat, t: nat)
    requires CommonSuffix(a, b, s) && t <= s
    ensures Len(a, b, |a|, |b|) == Len(a, b, |a| - t, |b| - t) + t
  {
    if t > 0 {
      SuffixSteps(a, b, s, t - 1);
      assert a[|a| - t] == b[|b| - t];
    }
  }

  /** prune: setting aside a common prefix and a common suffix loses nothing. */
  lemma {:induction false} DropEnds(a: seq<int>, b: seq<int>, p: nat, s: nat)
    requires CommonPrefix(a, b, p) && CommonSuffix(a, b, s)
    requires p + s <= |a| && p + s <= |b|
    ensures Len(a, b, |a|, |b|)
         == p + Len(a[p..|a| - s], b[p..|b| - s], |a| - s - p, |b| - s - p) + s
  {
    var i, j := |a| - s - p, |b| - s - p;
    DropPrefix(a, b, p, a[p..|a| - s], b[p..|b| - s], i, j);
    assert p + i == |a| - s && p + j == |b| - s;
    DropSuffix(a, b, s);
  }
}
