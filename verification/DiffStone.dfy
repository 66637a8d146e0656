/** Stone's k-candidate search of diffreg.c: stone, search, newcand and unravel. */
module DiffStone {
  import opened Lcs

  /** A matched pair of lines and the candidate it extends; pair (0, 0) ends every chain. */
  datatype Cand = Cand(x: nat, y: nat, pred: nat)

  /** The serial number kept in an entry of member, whose sign only flags the start of a class. */
  function Serial(entry: int): nat {
    if entry < 0 then -entry else entry
  }

  /** Entries j..j+r of member list, in ascending order, exactly the mates of line i:
      the first is flagged by a minus sign, and so is whatever follows the last. */
  ghost predicate Run(a: seq<int>, b: seq<int>, member: seq<int>, i: nat, j: int, r: nat) {
    && r >= 1 && 1 <= j && j + r < |member| && member[j] < 0 && member[j + r] < 0
    && (forall t :: j < t < j + r ==> member[t] > 0)
    && (forall t, u :: j <= t < u < j + r ==> Serial(member[t]) < Serial(member[u]))
    && (forall t :: j <= t < j + r ==> Mates(a, b, i, Serial(member[t])))
    && (forall q: nat :: Mates(a, b, i, q) ==> exists t :: j <= t < j + r && Serial(member[t]) == q)
  }

  /** class[i] leads to the run of line i's mates, or is 0 when line i has none. */
  ghost predicate ClassTable(a: seq<int>, b: seq<int>, cls: seq<int>, member: seq<int>) {
    && |cls| > |a|
    && forall i :: 1 <= i <= |a| ==> ClassEntry(a, b, cls[i], member, i)
  }

  ghost predicate ClassEntry(a: seq<int>, b: seq<int>, j: int, member: seq<int>, i: nat) {
    if j == 0 then forall q: nat :: !Mates(a, b, i, q)
    else exists r: nat :: Run(a, b, member, i, j, r)
  }

  /** Y[l] is the least column by which l pairs fit into the first i lines. */
  ghost predicate Thresholds(a: seq<int>, b: seq<int>, i: nat, Y: seq<nat>) {
    && i <= |a| && |Y| >= 1 && Y[0] == 0
    && (forall l :: 1 <= l < |Y| ==>
          1 <= Y[l] <= |b| && Len(a, b, i, Y[l]) >= l && Len(a, b, i, Y[l] - 1) < l)
    && Len(a, b, i, |b|) == |Y| - 1
  }

  ghost predicate Ascends(Y: seq<nat>) {
    forall e, f :: 0 <= e < f < |Y| ==> Y[e] < Y[f]
  }

  lemma ThresholdsMeaning(a: seq<int>, b: seq<int>, i: nat, Y: seq<nat>, y: nat, l: nat)
    requires Thresholds(a, b, i, Y) && y <= |b|
    ensures l < |Y| ==> (Len(a, b, i, y) >= l <==> y >= Y[l])
    ensures l >= |Y| ==> Len(a, b, i, y) < l
  {
    Monotone(a, b, i, y, i, |b|);
    if 1 <= l < |Y| {
      if y >= Y[l] {
        Monotone(a, b, i, Y[l], i, y);
      } else {
        Monotone(a, b, i, y, i, Y[l] - 1);
      }
    }
  }

  lemma ThresholdsAscend(a: seq<int>, b: seq<int>, i: nat, Y: seq<nat>)
    requires Thresholds(a, b, i, Y)
    ensures Ascends(Y)
  {
    forall l, u | 0 <= l < u < |Y| ensures Y[l] < Y[u] {
      ThresholdsMeaning(a, b, i, Y, Y[u] - 1, l);
      if Y[u] - 1 < Y[l] {
        // u pairs fit by column Y[u], so at least u-1 >= l fit one column earlier
        Step(a, b, i, Y[u]);
      }
    }
  }

  /** Column q lies strictly between thresholds l-1 and l. */
  ghost predicate Between(Y: seq<nat>, q: nat, l: nat) {
    1 <= l <= |Y| && Y[l - 1] < q && (l < |Y| ==> q < Y[l])
  }

  /** Y came from row i-1 and Z is Y after the mates of line i that lie left of column bound. */
  ghost predicate RowUpdate(a: seq<int>, b: seq<int>, i: nat, Y: seq<nat>, Z: seq<nat>, bound: nat) {
    && |Y| >= 1 && |Y| <= |Z| <= |Y| + 1 && Z[0] == Y[0]
    && (forall l :: 1 <= l < |Z| ==>
          || (l < |Y| && Z[l] == Y[l])
          || (Mates(a, b, i, Z[l]) && Between(Y, Z[l], l)))
    && (forall q: nat, l: nat :: q < bound && Mates(a, b, i, q) && Between(Y, q, l)
          ==> l < |Z| && Z[l] <= q)
  }

  /** With thresholds Y for row i-1, l pairs fit into the first i lines and the first y columns. */
  ghost predicate Reaches(a: seq<int>, b: seq<int>, i: nat, Y: seq<nat>, y: nat, l: nat) {
    || (l < |Y| && Y[l] <= y)
    || (1 <= l <= |Y| && exists q: nat :: q <= y && Mates(a, b, i, q) && Y[l - 1] < q)
  }

  lemma ReachesMeaning(a: seq<int>, b: seq<int>, i: nat, Y: seq<nat>, y: nat, l: nat)
    requires 1 <= i <= |a| && Thresholds(a, b, i - 1, Y) && y <= |b| && l >= 1
    ensures Len(a, b, i, y) >= l <==> Reaches(a, b, i, Y, y, l)
  {
    hide Len, Thresholds;
    Row(a, b, i, y, l);
    ThresholdsMeaning(a, b, i - 1, Y, y, l);
    forall q: nat | Mates(a, b, i, q) && q <= y
      ensures Len(a, b, i - 1, q - 1) >= l - 1 <==> l - 1 < |Y| && Y[l - 1] < q
    {
      ThresholdsMeaning(a, b, i - 1, Y, q - 1, l - 1);
    }
  }

  lemma ReachesAfterUpdate(a: seq<int>, b: seq<int>, i: nat, Y: seq<nat>, Z: seq<nat>, y: nat, l: nat)
    requires RowUpdate(a, b, i, Y, Z, |b| + 1) && l >= 1
    ensures Reaches(a, b, i, Y, y, l) <==> l < |Z| && Z[l] <= y
  {
    if l < |Z| && Z[l] <= y && !(l < |Y| && Z[l] == Y[l]) {
      assert Mates(a, b, i, Z[l]) && Between(Y, Z[l], l);
    }
    if Reaches(a, b, i, Y, y, l) && !(l < |Y| && Y[l] <= y) {
      var q: nat :| q <= y && Mates(a, b, i, q) && Y[l - 1] < q;
      assert Between(Y, q, l);
    }
  }

  /** Once every mate of line i is taken into account, Z holds the thresholds of row i. */
  lemma RowThresholds(a: seq<int>, b: seq<int>, i: nat, Y: seq<nat>, Z: seq<nat>)
    requires 1 <= i <= |a| && Thresholds(a, b, i - 1, Y) && RowUpdate(a, b, i, Y, Z, |b| + 1)
    ensures Thresholds(a, b, i, Z)
  {
    hide Len, Reaches;
    assert |Z| > 0 && Z[0] == 0;
    forall l | 1 <= l < |Z|
      ensures 1 <= Z[l] <= |b| && Len(a, b, i, Z[l]) >= l && Len(a, b, i, Z[l] - 1) < l
    {
      assert 1 <= Z[l] <= |b|;
      ReachesMeaning(a, b, i, Y, Z[l], l);
      ReachesAfterUpdate(a, b, i, Y, Z, Z[l], l);
      ReachesMeaning(a, b, i, Y, Z[l] - 1, l);
      ReachesAfterUpdate(a, b, i, Y, Z, Z[l] - 1, l);
    }
    ReachesMeaning(a, b, i, Y, |b|, |Z|);
    ReachesAfterUpdate(a, b, i, Y, Z, |b|, |Z|);
    if |Z| > 1 {
      ReachesMeaning(a, b, i, Y, |b|, |Z| - 1);
      ReachesAfterUpdate(a, b, i, Y, Z, |b|, |Z| - 1);
    }
  }

  /** Following pred from p visits l equal pairs, each strictly before the next, and ends at (0, 0). */
  ghost predicate Chain(a: seq<int>, b: seq<int>, cl: seq<Cand>, p: nat, l: nat)
    decreases l
  {
    && p < |cl|
    && if l == 0 then cl[p].x == 0 && cl[p].y == 0
       else
         && Mates(a, b, cl[p].x, cl[p].y)
         && Chain(a, b, cl, cl[p].pred, l - 1)
         && cl[cl[p].pred].x < cl[p].x && cl[cl[p].pred].y < cl[p].y
  }

  lemma ChainStep(a: seq<int>, b: seq<int>, cl: seq<Cand>, p: nat, l: nat)
    requires Chain(a, b, cl, p, l)
    ensures p < |cl| && (cl[p].y == 0 <==> l == 0)
    ensures cl[p].x <= |a| && cl[p].y <= |b|
    ensures l > 0 ==> Mates(a, b, cl[p].x, cl[p].y) && cl[p].x > 0 && Chain(a, b, cl, cl[p].pred, l - 1)
                      && cl[p].pred < |cl| && cl[cl[p].pred].x < cl[p].x && cl[cl[p].pred].y < cl[p].y
  {
  }

  lemma {:induction false} ChainGrows(a: seq<int>, b: seq<int>, cl: seq<Cand>, c: Cand, p: nat, l: nat)
    requires Chain(a, b, cl, p, l)
    ensures Chain(a, b, cl + [c], p, l)
    decreases l
  {
    if l > 0 {
      ChainGrows(a, b, cl, c, cl[p].pred, l - 1);
    }
  }

  /** klist entries 0..k are chains of lengths 0..k, in lines before `line`, ending in columns Y. */
  ghost predicate Klist(a: seq<int>, b: seq<int>, cl: seq<Cand>, c: seq<nat>, Y: seq<nat>, line: nat) {
    && |c| == |Y|
    && forall l :: 0 <= l < |c| ==> Chain(a, b, cl, c[l], l) && cl[c[l]].y == Y[l] && cl[c[l]].x < line
  }

  lemma KlistGrows(a: seq<int>, b: seq<int>, cl: seq<Cand>, nc: Cand, c: seq<nat>, Y: seq<nat>, line: nat)
    requires Klist(a, b, cl, c, Y, line)
    ensures Klist(a, b, cl + [nc], c, Y, line)
  {
    forall l | 0 <= l < |c| ensures Chain(a, b, cl + [nc], c[l], l) {
      ChainGrows(a, b, cl, nc, c[l], l);
    }
  }

  /** A candidate of line i that extends the level l-1 chain of earlier lines heads a chain of length l. */
  lemma NewChain(a: seq<int>, b: seq<int>, cl: seq<Cand>, c0: seq<nat>, Y: seq<nat>, i: nat, y: nat, l: nat)
    requires Klist(a, b, cl, c0, Y, i) && 1 <= l <= |Y| && Y[l - 1] < y && Mates(a, b, i, y)
    ensures Chain(a, b, cl + [Cand(i, y, c0[l - 1])], |cl|, l)
  {
    ChainGrows(a, b, cl, Cand(i, y, c0[l - 1]), c0[l - 1], l - 1);
  }

  lemma LevelUnique(Y: seq<nat>, q: nat, u: nat, l: nat)
    requires Between(Y, q, u) && 1 <= l <= |Y| && Y[l - 1] < q && (l < |Y| ==> q <= Y[l])
    requires Ascends(Y)
    ensures u == l && Between(Y, q, l)
  {
  }

  lemma StoreUpdate(a: seq<int>, b: seq<int>, i: nat, Y: seq<nat>, Z: seq<nat>, y: nat, l: nat)
    requires RowUpdate(a, b, i, Y, Z, y) && Mates(a, b, i, y) && Between(Y, y, l) && l <= |Z| && |Z| == |Y|
    requires l < |Z| ==> y <= Z[l]
    requires Ascends(Y)
    ensures l < |Z| ==> RowUpdate(a, b, i, Y, Z[l := y], y + 1)
    ensures l == |Z| ==> RowUpdate(a, b, i, Y, Z + [y], |b| + 1)
  {
    if l < |Z| {
      forall q: nat, u: nat | q < y + 1 && Mates(a, b, i, q) && Between(Y, q, u)
        ensures u < |Z| && Z[l := y][u] <= q
      {
        if q == y {
          LevelUnique(Y, q, u, l);
        }
      }
    } else {
      forall q: nat, u: nat | Mates(a, b, i, q) && Between(Y, q, u) ensures (Z + [y])[u] <= q {
        if q >= y {
          LevelUnique(Y, q, u, l);
        }
      }
    }
  }

  lemma SkipUpdate(a: seq<int>, b: seq<int>, i: nat, Y: seq<nat>, Z: seq<nat>, y: nat, l: nat)
    requires RowUpdate(a, b, i, Y, Z, y) && 1 <= l < |Y|
    requires Y[l - 1] < y && (Y[l] == y || (l < |Z| && Z[l] <= y < Y[l]))
    requires Ascends(Y)
    ensures RowUpdate(a, b, i, Y, Z, y + 1)
  {
    forall q: nat, u: nat | q < y + 1 && Mates(a, b, i, q) && Between(Y, q, u) ensures u < |Z| && Z[u] <= q {
      if q == y {
        LevelUnique(Y, q, u, l);
      }
    }
  }

  /** What the loop over the mates of line i keeps; y is the mate about to be looked at. */
  ghost predicate RowState(a: seq<int>, b: seq<int>, i: nat, cl: seq<Cand>, c0: seq<nat>, Y: seq<nat>,
                           c: seq<nat>, Z: seq<nat>, y: nat, oldl: nat, e: nat)
  {
    && |Z| == |Y| && oldl <= e < |Y|
    && Klist(a, b, cl, c0, Y, i) && Klist(a, b, cl, c, Z, i + 1)
    && RowUpdate(a, b, i, Y, Z, y)
    && (forall l :: oldl < l < |Y| ==> Z[l] == Y[l] && c[l] == c0[l])
    && Ascends(Z)
    && (oldl > 0 ==> Y[oldl - 1] < Z[oldl] < y)
    && (e > oldl ==> Y[e] < y)
  }

  /** The level that Search reports for column y. */
  ghost predicate Found(Z: seq<nat>, y: nat, l: nat) {
    && 1 <= l <= |Z|
    && (forall e :: 0 <= e < l ==> Z[e] < y)
    && (forall e :: l <= e < |Z| ==> y <= Z[e])
  }

  /** What Search and the comparisons of stone rely on. */
  lemma RowReads(a: seq<int>, b: seq<int>, i: nat, cl: seq<Cand>, c0: seq<nat>, Y: seq<nat>,
                 c: seq<nat>, Z: seq<nat>, y: nat, oldl: nat, e: nat)
    requires RowState(a, b, i, cl, c0, Y, c, Z, y, oldl, e)
    ensures |Z| == |Y| == |c| == |c0| && oldl <= e < |Y|
    ensures forall l :: 0 <= l < |c| ==> c[l] < |cl| && cl[c[l]].y == Z[l]
    ensures forall l :: 0 <= l < |c0| ==> c0[l] < |cl| && cl[c0[l]].y == Y[l]
    ensures Ascends(Z)
  {
  }

  lemma RowSkipOld(a: seq<int>, b: seq<int>, i: nat, cl: seq<Cand>, c0: seq<nat>, Y: seq<nat>,
                   c: seq<nat>, Z: seq<nat>, y: nat, oldl: nat, e: nat)
    requires RowState(a, b, i, cl, c0, Y, c, Z, y, oldl, e) && 0 < y <= Y[e] && Y[0] == 0
    requires Ascends(Y)
    ensures RowState(a, b, i, cl, c0, Y, c, Z, y + 1, oldl, e)
  {
    SkipUpdate(a, b, i, Y, Z, y, oldl);
  }

  /** The candidate that a new one at level l extends is the level l-1 candidate of earlier lines. */
  lemma RowPred(a: seq<int>, b: seq<int>, i: nat, cl: seq<Cand>, c0: seq<nat>, Y: seq<nat>,
                c: seq<nat>, Z: seq<nat>, y: nat, oldl: nat, e: nat, l: nat)
    requires RowState(a, b, i, cl, c0, Y, c, Z, y, oldl, e) && y > Y[e] && Found(Z, y, l)
    requires Y[0] == 0 && Z[0] == 0
    ensures oldl < l && e <= l - 1 && Y[l - 1] < y && (l < |Z| ==> Z[l] == Y[l] && c[l] == c0[l])
    ensures c0[l - 1] == if l != oldl + 1 then c[l - 1] else c0[e]
  {
    RowReads(a, b, i, cl, c0, Y, c, Z, y, oldl, e);
    hide Klist, RowUpdate;
    assert oldl < l;
  }

  lemma RowSkipEqual(a: seq<int>, b: seq<int>, i: nat, cl: seq<Cand>, c0: seq<nat>, Y: seq<nat>,
                     c: seq<nat>, Z: seq<nat>, y: nat, oldl: nat, e: nat, l: nat)
    requires RowState(a, b, i, cl, c0, Y, c, Z, y, oldl, e)
    requires oldl < l < |Z| && Y[l - 1] < y && Z[l] == Y[l] == y
    requires Ascends(Y)
    ensures RowState(a, b, i, cl, c0, Y, c, Z, y + 1, oldl, l - 1)
  {
    SkipUpdate(a, b, i, Y, Z, y, l);
  }

  lemma RowStore(a: seq<int>, b: seq<int>, i: nat, cl: seq<Cand>, c0: seq<nat>, Y: seq<nat>,
                 c: seq<nat>, Z: seq<nat>, y: nat, oldl: nat, e: nat, l: nat)
    requires RowState(a, b, i, cl, c0, Y, c, Z, y, oldl, e) && Mates(a, b, i, y)
    requires oldl < l < |Z| && Found(Z, y, l) && Y[l - 1] < y < Y[l] && Z[l] == Y[l]
    requires Ascends(Y)
    ensures var n := Cand(i, y, c0[l - 1]);
            RowState(a, b, i, cl + [n], c0, Y, c[l := |cl|], Z[l := y], y + 1, l, l)
  {
    var n := Cand(i, y, c0[l - 1]);
    NewChain(a, b, cl, c0, Y, i, y, l);
    KlistGrows(a, b, cl, n, c0, Y, i);
    KlistGrows(a, b, cl, n, c, Z, i + 1);
    StoreUpdate(a, b, i, Y, Z, y, l);
  }

  lemma RowExtend(a: seq<int>, b: seq<int>, i: nat, cl: seq<Cand>, c0: seq<nat>, Y: seq<nat>,
                  c: seq<nat>, Z: seq<nat>, y: nat, oldl: nat, e: nat)
    requires RowState(a, b, i, cl, c0, Y, c, Z, y, oldl, e) && Mates(a, b, i, y) && Y[|Y| - 1] < y
    requires Ascends(Y)
    ensures var n := Cand(i, y, c0[|Y| - 1]);
            Klist(a, b, cl + [n], c + [|cl|], Z + [y], i + 1)
    ensures RowUpdate(a, b, i, Y, Z + [y], |b| + 1)
  {
    var n := Cand(i, y, c0[|Y| - 1]);
    NewChain(a, b, cl, c0, Y, i, y, |Y|);
    KlistGrows(a, b, cl, n, c, Z, i + 1);
    StoreUpdate(a, b, i, Y, Z, y, |Y|);
  }

  lemma RunShape(a: seq<int>, b: seq<int>, m: seq<int>, i: nat, first: int, r: nat)
    requires Run(a, b, m, i, first, r)
    ensures 1 <= first < first + r < |m| && m[first] < 0 && Serial(m[first]) == -m[first]
  {
  }

  lemma ClassAt(a: seq<int>, b: seq<int>, cls: seq<int>, m: seq<int>, i: nat)
    requires ClassTable(a, b, cls, m) && 1 <= i <= |a|
    ensures i < |cls| && ClassEntry(a, b, cls[i], m, i)
    ensures cls[i] != 0 ==> 1 <= cls[i] && exists r: nat :: Run(a, b, m, i, cls[i], r)
  {
  }

  lemma EntryIsMate(a: seq<int>, b: seq<int>, m: seq<int>, i: nat, first: nat, r: nat, j: nat)
    requires Run(a, b, m, i, first, r) && first <= j < first + r
    ensures Mates(a, b, i, Serial(m[j])) && Serial(m[j]) > 0
  {
  }

  lemma FirstMate(a: seq<int>, b: seq<int>, m: seq<int>, i: nat, first: nat, r: nat,
                  cl: seq<Cand>, c: seq<nat>, Y: seq<nat>)
    requires Run(a, b, m, i, first, r) && Klist(a, b, cl, c, Y, i) && |Y| > 0 && Y[0] == 0
    requires Ascends(Y)
    ensures RowState(a, b, i, cl, c, Y, c, Y, Serial(m[first]), 0, 0)
  {
    forall q: nat | Mates(a, b, i, q) ensures q >= Serial(m[first]) {
      var t :| first <= t < first + r && Serial(m[t]) == q;
    }
  }

  lemma NoMates(a: seq<int>, b: seq<int>, m: seq<int>, i: nat, Y: seq<nat>, cl: seq<Cand>, c: seq<nat>)
    requires ClassEntry(a, b, 0, m, i) && |Y| > 0 && Klist(a, b, cl, c, Y, i)
    ensures RowUpdate(a, b, i, Y, Y, |b| + 1) && Klist(a, b, cl, c, Y, i + 1)
  {
  }

  lemma MatesBetween(a: seq<int>, b: seq<int>, m: seq<int>, i: nat, first: nat, r: nat, j: nat, q: nat)
    requires Run(a, b, m, i, first, r) && first <= j < first + r && Mates(a, b, i, q)
    requires j + 1 < first + r ==> q < Serial(m[j + 1])
    ensures q <= Serial(m[j])
  {
    var t :| first <= t < first + r && Serial(m[t]) == q;
  }

  /** No mate of line i is passed over between one entry of its run and the next. */
  lemma NextMate(a: seq<int>, b: seq<int>, m: seq<int>, i: nat, first: nat, r: nat, j: nat,
                 cl: seq<Cand>, c0: seq<nat>, Y: seq<nat>, c: seq<nat>, Z: seq<nat>, oldl: nat, e: nat)
    requires Run(a, b, m, i, first, r) && first <= j < first + r
    requires RowState(a, b, i, cl, c0, Y, c, Z, Serial(m[j]) + 1, oldl, e)
    ensures m[j + 1] > 0 ==> j + 1 < first + r && Serial(m[j + 1]) == m[j + 1]
                             && RowState(a, b, i, cl, c0, Y, c, Z, m[j + 1], oldl, e)
    ensures m[j + 1] <= 0 ==> RowUpdate(a, b, i, Y, Z, |b| + 1)
    ensures Klist(a, b, cl, c, Z, i + 1)
  {
    forall q: nat | Mates(a, b, i, q) && (j + 1 < first + r ==> q < Serial(m[j + 1])) ensures q < Serial(m[j]) + 1 {
      MatesBetween(a, b, m, i, first, r, j, q);
    }
  }

  lemma KlistShape(a: seq<int>, b: seq<int>, cl: seq<Cand>, c: seq<nat>, Y: seq<nat>, line: nat)
    requires Klist(a, b, cl, c, Y, line)
    ensures |c| == |Y|
    ensures forall l :: 0 <= l < |c| ==> Chain(a, b, cl, c[l], l) && c[l] < |cl|
  {
  }

  lemma EmptyRow(a: seq<int>, b: seq<int>, cl: seq<Cand>)
    requires cl == [Cand(0, 0, 0)]
    ensures Thresholds(a, b, 0, [0]) && Klist(a, b, cl, [0], [0], 1)
  {
  }

  lemma ThresholdsCount(a: seq<int>, b: seq<int>, i: nat, Y: seq<nat>)
    requires Thresholds(a, b, i, Y)
    ensures |Y| == Len(a, b, i, |b|) + 1 && |Y| <= i + 1 && Y[0] == 0
  {
    Bounded(a, b, i, |b|);
  }

  /** The first |cs| cells of klist. */
  ghost predicate Holds(c: array<nat>, cs: seq<nat>)
    reads c
  {
    |cs| <= c.Length && forall e :: 0 <= e < |cs| ==> c[e] == cs[e]
  }

  lemma HeldAt(c: array<nat>, cs: seq<nat>, e: nat)
    requires Holds(c, cs) && e < |cs|
    ensures e < c.Length && c[e] == cs[e]
  {
  }

  function KeptEnds(pref: nat, suff: nat, len0: nat, len1: nat, i: nat): int {
    if i <= pref then i else if i > len0 - suff then i + len1 - len0 else 0
  }

  lemma KeptEndsMatch(A: seq<int>, B: seq<int>, pref: nat, suff: nat, J: seq<int>)
    requires |J| == |A| + 2 && pref + suff <= |A| && pref + suff <= |B|
    requires CommonPrefix(A, B, pref) && CommonSuffix(A, B, suff)
    requires forall t :: 0 <= t <= |A| ==> J[t] == KeptEnds(pref, suff, |A|, |B|, t)
    ensures Matching(A, B, J) && Matched(J, |A|) == pref + suff
    ensures OpenBelow(pref, J, |A| - pref - suff + 1, |B| - pref - suff + 1, |A|)
  {
    forall i | 1 <= i <= |A| && J[i] != 0 ensures A[i - 1] == B[J[i] - 1] {
      if i > pref {
        assert A[i - 1] == B[|B| - |A| + (i - 1)];
      }
    }
    KeptEndsCount(A, B, pref, suff, J, |A|);
  }

  lemma {:induction false} KeptEndsCount(A: seq<int>, B: seq<int>, pref: nat, suff: nat, J: seq<int>, n: nat)
    requires |J| == |A| + 2 && pref + suff <= |A| && pref + suff <= |B| && n <= |A|
    requires forall t :: 0 <= t <= |A| ==> J[t] == KeptEnds(pref, suff, |A|, |B|, t)
    ensures Matched(J, n) == if n <= pref then n else if n <= |A| - suff then pref else pref + n - (|A| - suff)
  {
    if n > 0 {
      KeptEndsCount(A, B, pref, suff, J, n - 1);
    }
  }

  /** Lines before line xb of the middle are still unpaired, apart from the common prefix,
      and lines from xb on are paired with nothing before line yb of the new middle. */
  ghost predicate OpenBelow(pref: nat, J: seq<int>, xb: nat, yb: nat, n: nat) {
    && n < |J|
    && (forall t :: 0 <= t <= pref && t < |J| ==> J[t] == t)
    && (forall t :: pref < t < pref + xb && t <= n ==> J[t] == 0)
    && (forall t :: pref + xb <= t <= n && J[t] != 0 ==> J[t] >= pref + yb)
  }

  lemma AddPair(A: seq<int>, B: seq<int>, pref: nat, suff: nat, J: seq<int>, x: nat, y: nat, xb: nat, yb: nat)
    requires pref + suff <= |A| && pref + suff <= |B|
    requires Matching(A, B, J) && OpenBelow(pref, J, xb, yb, |A|)
    requires Mates(A[pref..|A| - suff], B[pref..|B| - suff], x, y) && x < xb && y < yb
    ensures var J' := J[x + pref := y + pref];
            Matching(A, B, J') && OpenBelow(pref, J', x, y, |A|) && Matched(J', |A|) == Matched(J, |A|) + 1
  {
    MatchedAfterStore(J, |A|, x + pref, y + pref);
  }

  lemma {:induction false} MatchedAfterStore(J: seq<int>, n: nat, i: nat, v: int)
    requires n < |J| && 1 <= i < |J| && J[i] == 0 && v != 0
    ensures Matched(J[i := v], n) == Matched(J, n) + if i <= n then 1 else 0
  {
    if n > 0 {
      MatchedAfterStore(J, n - 1, i, v);
    }
  }

  class Searcher {
    var clist: seq<Cand>

    constructor ()
      ensures clist == []
    {
      clist := [];
    }

    method NewCand(x: nat, y: nat, pred: nat) returns (r: nat)
      modifies this
      ensures clist == old(clist) + [Cand(x, y, pred)] && r == |old(clist)|
    {
      clist := clist + [Cand(x, y, pred)];
      r := |clist| - 1;
    }

    /** Binary search of the candidates in klist for the level that column y belongs to. */
    method Search(c: array<nat>, k: nat, y: nat) returns (l: nat)
      requires k < c.Length && y > 0
      requires forall e :: 0 <= e <= k ==> c[e] < |clist|
      requires clist[c[0]].y == 0
      requires forall e, f :: 0 <= e < f <= k ==> clist[c[e]].y < clist[c[f]].y
      ensures 1 <= l <= k + 1
      ensures forall e :: 0 <= e < l ==> clist[c[e]].y < y
      ensures forall e :: l <= e <= k ==> y <= clist[c[e]].y
    {
      if clist[c[k]].y < y {
        return k + 1;
      }
      var i, j := 0, k + 1;
      while true
        invariant 0 <= i < j <= k + 1
        invariant forall e :: 0 <= e <= i ==> clist[c[e]].y < y
        invariant forall e :: j <= e <= k ==> y < clist[c[e]].y
        decreases j - i
      {
        l := (i + j) / 2;
        if l <= i {
          break;
        }
        var t := clist[c[l]].y;
        if t > y {
          j := l;
        } else if t < y {
          i := l;
        } else {
          return l;
        }
      }
      return l + 1;
    }

    /** One mate y of line i: replace a candidate, extend klist (k' = k+1), or leave it alone. */
    method ConsiderMate(ghost a: seq<int>, ghost b: seq<int>, i: nat, y: nat, c: array<nat>, k: nat, oldl: nat, oldc: nat,
                        ghost c0: seq<nat>, ghost Y: seq<nat>, ghost cs: seq<nat>, ghost Z: seq<nat>, ghost e: nat)
      returns (k': nat, oldl': nat, oldc': nat, ghost cs': seq<nat>, ghost Z': seq<nat>, ghost e': nat)
      requires Holds(c, cs) && |cs| == k + 1 < c.Length && Y != [] && Y[0] == 0 && Z != [] && Z[0] == 0
      requires RowState(a, b, i, clist, c0, Y, cs, Z, y, oldl, e) && e < |c0| && oldc == c0[e]
      requires Mates(a, b, i, y) && y > 0 && Ascends(Y)
      modifies this, c
      ensures Holds(c, cs') && |cs'| == k' + 1 && k <= k' <= k + 1
      ensures k' == k ==> RowState(a, b, i, clist, c0, Y, cs', Z', y + 1, oldl', e') && Z' != [] && Z'[0] == 0
      ensures k' == k ==> e' < |c0| && oldc' == c0[e']
      ensures k' > k ==> Klist(a, b, clist, cs', Z', i + 1) && RowUpdate(a, b, i, Y, Z', |b| + 1)
    {
      hide RowState, RowUpdate, Klist, Mates;
      k', oldl', oldc', cs', Z', e' := k, oldl, oldc, cs, Z, e;
      RowReads(a, b, i, clist, c0, Y, cs, Z, y, oldl, e);
      if y <= clist[oldc].y {
        RowSkipOld(a, b, i, clist, c0, Y, cs, Z, y, oldl, e);
        return;
      }
      var l := Search(c, k, y);
      assert Found(Z, y, l);
      RowPred(a, b, i, clist, c0, Y, cs, Z, y, oldl, e, l);
      if l != oldl + 1 {
        oldc' := c[l - 1];
      }
      e' := l - 1;
      if l <= k {
        if clist[c[l]].y <= y {
          RowSkipEqual(a, b, i, clist, c0, Y, cs, Z, y, oldl, e, l);
          return;
        }
        RowStore(a, b, i, clist, c0, Y, cs, Z, y, oldl, e, l);
        var tc := c[l];
        c[l] := NewCand(i, y, oldc');
        oldc', oldl', cs', Z', e' := tc, l, cs[l := |clist| - 1], Z[l := y], l;
      } else {
        RowExtend(a, b, i, clist, c0, Y, cs, Z, y, oldl, e);
        c[l] := NewCand(i, y, oldc');
        k', cs', Z' := k + 1, cs + [|clist| - 1], Z + [y];
      }
    }

    /** One line of the old file: the loop over its run in member. */
    method StoneLine(ghost a: seq<int>, ghost b: seq<int>, i: nat, first: nat, member: seq<int>, c: array<nat>,
                     k: nat, ghost r: nat, ghost Y: seq<nat>, ghost c0: seq<nat>)
      returns (k': nat, ghost cs: seq<nat>, ghost Z: seq<nat>)
      requires Holds(c, c0) && |c0| == k + 1 < c.Length && Klist(a, b, clist, c0, Y, i)
      requires Y != [] && Y[0] == 0 && Ascends(Y)
      requires Run(a, b, member, i, first, r)
      modifies this, c
      ensures Holds(c, cs) && |cs| == k' + 1 && RowUpdate(a, b, i, Y, Z, |b| + 1)
      ensures Klist(a, b, clist, cs, Z, i + 1)
    {
      hide RowState, RowUpdate, Klist, Mates, Run, Ascends, Holds;
      k', cs, Z := k, c0, Y;
      RunShape(a, b, member, i, first, r);
      FirstMate(a, b, member, i, first, r, clist, c0, Y);
      KlistShape(a, b, clist, c0, Y, i);
      HeldAt(c, c0, 0);
      var j: nat, y: nat := first, -member[first];
      var oldl: nat, oldc: nat := 0, c[0];
      ghost var e: nat := 0;
      while true
        invariant first <= j < first + r && y == Serial(member[j])
        invariant RowState(a, b, i, clist, c0, Y, cs, Z, y, oldl, e)
        invariant Holds(c, cs) && |cs| == k + 1
        invariant e < |c0| && oldc == c0[e] && Z != [] && Z[0] == 0
        decreases first + r - j
      {
        EntryIsMate(a, b, member, i, first, r, j);
        k', oldl, oldc, cs, Z, e := ConsiderMate(a, b, i, y, c, k, oldl, oldc, c0, Y, cs, Z, e);
        if k' > k {
          return;
        }
        NextMate(a, b, member, i, first, r, j, clist, c0, Y, cs, Z, oldl, e);
        j := j + 1;
        if member[j] <= 0 {
          break;
        }
        y := member[j];
      }
    }

    /** The whole search: klist ends with one candidate per length up to the longest. */
    method Stone(ghost a: seq<int>, ghost b: seq<int>, cls: seq<int>, n: nat, member: seq<int>, c: array<nat>)
      returns (k: nat)
      requires n == |a| && c.Length > n + 1 && clist == []
      requires ClassTable(a, b, cls, member)
      modifies this, c
      ensures k == Len(a, b, |a|, |b|) && k < c.Length && Chain(a, b, clist, c[k], k)
    {
      k := 0;
      c[0] := NewCand(0, 0, 0);
      ghost var Y: seq<nat>, cs: seq<nat> := [0], [0];
      EmptyRow(a, b, clist);
      hide Len, Thresholds, Run, RowUpdate, Klist, ClassTable, ClassEntry, Chain, Ascends;
      for i := 1 to n + 1
        invariant k < i && |cs| == k + 1 && Holds(c, cs)
        invariant Thresholds(a, b, i - 1, Y) && Y != [] && Y[0] == 0
        invariant Klist(a, b, clist, cs, Y, i)
      {
        ThresholdsAscend(a, b, i - 1, Y);
        ghost var Z := Y;
        var j := cls[i];
        ClassAt(a, b, cls, member, i);
        if j != 0 {
          ghost var r: nat :| Run(a, b, member, i, j, r);
          k, cs, Z := StoneLine(a, b, i, j, member, c, k, r, Y, cs);
        } else {
          NoMates(a, b, member, i, Y, clist, cs);
        }
        RowThresholds(a, b, i, Y, Z);
        ThresholdsCount(a, b, i, Z);
        KlistShape(a, b, clist, cs, Z, i + 1);
        Y := Z;
      }
      ThresholdsCount(a, b, |a|, Y);
      KlistShape(a, b, clist, cs, Y, |a| + 1);
    }

    /** The kept prefix and suffix, and the pairs on the chain at p, become the match vector J. */
    method Unravel(ghost A: seq<int>, ghost B: seq<int>, pref: nat, suff: nat, len0: nat, len1: nat,
                   p: nat, ghost k: nat, J: array<int>)
      requires len0 == |A| && len1 == |B| && J.Length == len0 + 2
      requires pref + suff <= len0 && pref + suff <= len1 && CommonPrefix(A, B, pref) && CommonSuffix(A, B, suff)
      requires Chain(A[pref..len0 - suff], B[pref..len1 - suff], clist, p, k)
      modifies J
      ensures Matching(A, B, J[..]) && Matched(J[..], len0) == pref + k + suff
    {
      hide Matching, OpenBelow, Chain, CommonPrefix, CommonSuffix, Mates, Matched;
      for i := 0 to len0 + 1
        invariant forall t :: 0 <= t < i ==> J[t] == KeptEnds(pref, suff, len0, len1, t)
      {
        J[i] := if i <= pref then i else if i > len0 - suff then i + len1 - len0 else 0;
      }
      KeptEndsMatch(A, B, pref, suff, J[..]);
      UnravelChain(A, B, A[pref..len0 - suff], B[pref..len1 - suff], pref, suff, p, k, J);
    }

    method UnravelChain(ghost A: seq<int>, ghost B: seq<int>, ghost a: seq<int>, ghost b: seq<int>,
                        pref: nat, ghost suff: nat, p: nat, ghost k: nat, J: array<int>)
      requires J.Length == |A| + 2 && pref + suff <= |A| && pref + suff <= |B|
      requires a == A[pref..|A| - suff] && b == B[pref..|B| - suff] && Chain(a, b, clist, p, k)
      requires Matching(A, B, J[..]) && Matched(J[..], |A|) == pref + suff
      requires OpenBelow(pref, J[..], |a| + 1, |b| + 1, |A|)
      modifies J
      ensures Matching(A, B, J[..]) && Matched(J[..], |A|) == pref + k + suff
    {
      hide Matching, OpenBelow, Chain, Mates, Matched;
      var q: nat := p;
      ghost var Js := J[..];
      ghost var l: nat, xb: nat, yb: nat := k, |a| + 1, |b| + 1;
      ChainStep(a, b, clist, q, l);
      while clist[q].y != 0
        invariant Chain(a, b, clist, q, l) && q < |clist| && (clist[q].y == 0 ==> l == 0)
        invariant clist[q].x < xb && clist[q].y < yb
        invariant Matching(A, B, Js) && |A| < |Js| && Matched(Js, |A|) == pref + (k - l) + suff
        invariant OpenBelow(pref, Js, xb, yb, |A|) && Js == J[..]
        decreases l
      {
        ChainStep(a, b, clist, q, l);
        AddPair(A, B, pref, suff, Js, clist[q].x, clist[q].y, xb, yb);
        J[clist[q].x + pref] := clist[q].y + pref;
        Js := Js[clist[q].x + pref := clist[q].y + pref];
        l, xb, yb := l - 1, clist[q].x, clist[q].y;
        q := clist[q].pred;
        ChainStep(a, b, clist, q, l);
      }
    }
  }
}
