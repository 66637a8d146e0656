/** From the match vector to an edit script: the end of check, output and the ranges it passes
    to change in diffreg.c.  T is the type of a line's text. */
module DiffOutput {
  import opened Lcs

  /** Lines a..b of the old file become lines c..d of the new one; an empty range has a = b + 1. */
  datatype Change = Change(a: int, b: int, c: int, d: int)

  ghost predicate InRange<T>(r: Change, file0: seq<T>, file1: seq<T>) {
    1 <= r.a <= r.b + 1 <= |file0| + 1 && 1 <= r.c <= r.d + 1 <= |file1| + 1
  }

  /** Records in ascending order that leave old lines from `upto` on untouched. */
  ghost predicate Script<T>(file0: seq<T>, file1: seq<T>, recs: seq<Change>, upto: int) {
    && 1 <= upto <= |file0| + 1
    && if recs == [] then true
       else var r := recs[|recs| - 1];
         InRange(r, file0, file1) && r.b < upto && Script(file0, file1, recs[..|recs| - 1], r.a)
  }

  /** The old lines before `upto`, with the recorded changes made. */
  ghost function Patch<T>(file0: seq<T>, file1: seq<T>, recs: seq<Change>, upto: int): (r: seq<T>)
    requires Script(file0, file1, recs, upto)
    decreases |recs|
  {
    if recs == [] then file0[..upto - 1]
    else
      var r := recs[|recs| - 1];
      Patch(file0, file1, recs[..|recs| - 1], r.a) + file1[r.c - 1..r.d] + file0[r.b..upto - 1]
  }

  /** How many lines a script deletes and adds. */
  function Cost(recs: seq<Change>): int {
    if recs == [] then 0
    else var r := recs[|recs| - 1];
      Cost(recs[..|recs| - 1]) + (r.b - r.a + 1) + (r.d - r.c + 1)
  }

  /** A script whose commands are carried out one after the other on the file, as ed would. */
  ghost predicate EdScript<T>(file: seq<T>, file1: seq<T>, recs: seq<Change>)
    decreases |recs|, 0
  {
    recs == [] || (EdScript(file, file1, recs[..|recs| - 1])
                   && InRange(recs[|recs| - 1], Edit(file, file1, recs[..|recs| - 1]), file1))
  }

  ghost function Edit<T>(file: seq<T>, file1: seq<T>, recs: seq<Change>): (r: seq<T>)
    requires EdScript(file, file1, recs)
    decreases |recs|, 1
  {
    if recs == [] then file
    else
      var r, f := recs[|recs| - 1], Edit(file, file1, recs[..|recs| - 1]);
      f[..r.a - 1] + file1[r.c - 1..r.d] + f[r.b..]
  }

  /** What check leaves: J pairs equal lines only, without crossing. */
  ghost predicate Pairs<T>(file0: seq<T>, file1: seq<T>, J: seq<int>) {
    && |J| == |file0| + 2
    && (forall i :: 1 <= i <= |file0| ==> 0 <= J[i] <= |file1|)
    && (forall i :: 1 <= i <= |file0| && J[i] != 0 ==> file0[i - 1] == file1[J[i] - 1])
    && Increasing(J, |file0|)
  }

  /** Break the pairs whose lines differ: they only had equal hash values. */
  method Check<T(==)>(file0: seq<T>, file1: seq<T>, J: array<int>)
    requires J.Length == |file0| + 2 && Increasing(J[..], |file0|)
    requires forall i :: 1 <= i <= |file0| ==> 0 <= J[i] <= |file1|
    modifies J
    ensures Pairs(file0, file1, J[..])
    ensures forall i :: 1 <= i <= |file0| ==>
              J[i] == if old(J[i]) != 0 && file0[i - 1] == file1[old(J[i]) - 1] then old(J[i]) else 0
  {
    ghost var J0 := J[..];
    for i := 1 to |file0| + 1
      invariant forall t :: i <= t <= |file0| ==> J[t] == J0[t]
      invariant forall t :: 1 <= t < i ==>
        J[t] == if J0[t] != 0 && file0[t - 1] == file1[J0[t] - 1] then J0[t] else 0
    {
      if J[i] != 0 && file0[i - 1] != file1[J[i] - 1] {
        J[i] := 0;
      }
    }
  }

  /** change: nothing is recorded when both ranges are empty. */
  function Record(recs: seq<Change>, a: int, b: int, c: int, d: int): seq<Change> {
    if a > b && c > d then recs else recs + [Change(a, b, c, d)]
  }

  // ---- how changes are grouped ----

  /** At least one line is kept between record r and a later record s. */
  predicate Apart(r: Change, s: Change) {
    r.b + 1 < s.a && r.d + 1 < s.c
  }

  predicate Real(r: Change) {
    r.a <= r.b || r.c <= r.d
  }

  /** No record is empty, and neighbours could not be one record; `back` tells that the last lines come first. */
  ghost predicate Grouped(recs: seq<Change>, back: bool) {
    && (forall k :: 0 <= k < |recs| ==> Real(recs[k]))
    && (forall k :: 0 <= k < |recs| - 1 ==> if back then Apart(recs[k + 1], recs[k]) else Apart(recs[k], recs[k + 1]))
  }

  /** A record holds no line that J pairs. */
  ghost predicate Spares(J: seq<int>, r: Change) {
    && (forall t :: r.a <= t <= r.b ==> 0 <= t < |J| && J[t] == 0)
    && (forall t :: 0 < t < |J| - 1 && J[t] != 0 ==> J[t] < r.c || r.d < J[t])
  }

  ghost predicate SparesAll(J: seq<int>, recs: seq<Change>) {
    forall k :: 0 <= k < |recs| ==> Spares(J, recs[k])
  }

  lemma GroupedRecord(J: seq<int>, recs: seq<Change>, back: bool, r: Change)
    requires Grouped(recs, back) && SparesAll(J, recs) && Spares(J, r)
    requires recs != [] ==> if back then Apart(r, recs[|recs| - 1]) else Apart(recs[|recs| - 1], r)
    ensures Grouped(Record(recs, r.a, r.b, r.c, r.d), back) && SparesAll(J, Record(recs, r.a, r.b, r.c, r.d))
  {
  }

  /** Records made before line i0: they end before it, and with new line j; the line that stays there is the next. */
  ghost predicate Behind(J0: seq<int>, J: seq<int>, recs: seq<Change>, m: nat, i0: nat) {
    && |J| == |J0| == m + 2 && 1 <= i0 <= m + 1 && Grouped(recs, false) && SparesAll(J0, recs)
    && (recs != [] ==> recs[|recs| - 1].b < i0 && recs[|recs| - 1].d <= J[i0 - 1])
    && (forall t :: 1 <= t < i0 ==> J0[t] <= J[i0 - 1])
  }

  /** The next line but one after the records was kept. */
  ghost predicate Clear(J0: seq<int>, J: seq<int>, recs: seq<Change>, m: nat, i0: nat) {
    && Behind(J0, J, recs, m, i0)
    && (recs != [] ==> recs[|recs| - 1].b + 1 < i0 && recs[|recs| - 1].d < J[i0 - 1])
  }

  lemma BehindKeep(J0: seq<int>, J: seq<int>, recs: seq<Change>, m: nat, len1: nat, i0: nat)
    requires Behind(J0, J, recs, m, i0) && Waiting(J0, J, m, len1, i0) && i0 <= m && J[i0] == J[i0 - 1] + 1
    ensures Clear(J0, J, recs, m, i0 + 1)
  {
  }

  lemma BehindChange(J0: seq<int>, J: seq<int>, recs: seq<Change>, m: nat, len1: nat, i0: nat, i1: nat)
    requires Clear(J0, J, recs, m, i0) && Waiting(J0, J, m, len1, i0) && i0 - 1 <= i1 <= m
    requires (forall t :: i0 <= t <= i1 ==> J[t] == 0) && J[i1 + 1] != 0 && J[i0 - 1] <= J[i1 + 1] - 1
    ensures Behind(J0, J[i1 := J[i1 + 1] - 1], Record(recs, i0, i1, J[i0 - 1] + 1, J[i1 + 1] - 1), m, i1 + 1)
  {
    var r := Change(i0, i1, J[i0 - 1] + 1, J[i1 + 1] - 1);
    forall t | 0 < t < m + 1 && J0[t] != 0 ensures J0[t] < r.c || r.d < J0[t] {
      assert t > i1 + 1 ==> J0[i1 + 1] < J0[t];
    }
    GroupedRecord(J0, recs, false, r);
  }

  /** With recs made, the old lines before i0 have become the first j new lines; `kept` of them stayed. */
  ghost predicate Patched<T>(file0: seq<T>, file1: seq<T>, recs: seq<Change>, i0: int, j: int, kept: int) {
    && Script(file0, file1, recs, i0) && 0 <= j <= |file1|
    && Patch(file0, file1, recs, i0) == file1[..j]
    && Cost(recs) == i0 - 1 + j - 2 * kept
  }

  lemma PatchSnoc<T>(file0: seq<T>, file1: seq<T>, recs: seq<Change>, r: Change, upto: int)
    requires InRange(r, file0, file1) && Script(file0, file1, recs, r.a) && r.b < upto <= |file0| + 1
    ensures Script(file0, file1, recs + [r], upto)
    ensures Patch(file0, file1, recs + [r], upto)
         == Patch(file0, file1, recs, r.a) + file1[r.c - 1..r.d] + file0[r.b..upto - 1]
    ensures Cost(recs + [r]) == Cost(recs) + (r.b - r.a + 1) + (r.d - r.c + 1)
  {
    var all := recs + [r];
    assert all[..|all| - 1] == recs && all[|all| - 1] == r;
  }

  lemma ScriptFrom<T>(file0: seq<T>, file1: seq<T>, recs: seq<Change>, upto: int)
    requires Script(file0, file1, recs, upto)
    ensures 1 <= upto
  {
  }

  lemma Glue<T>(file0: seq<T>, file1: seq<T>, p: seq<T>, j: int, j1: int, i1: int)
    requires 0 <= j <= j1 <= |file1| && 0 <= i1 <= |file0| && p == file1[..j]
    ensures p + file1[j + 1 - 1..j1] + file0[i1..i1 + 1 - 1] == file1[..j1]
  {
  }

  lemma PatchedChange<T>(file0: seq<T>, file1: seq<T>, recs: seq<Change>, i0: int, j: int, kept: int, i1: int, j1: int)
    requires Patched(file0, file1, recs, i0, j, kept) && i0 - 1 <= i1 <= |file0| && j <= j1 <= |file1|
    ensures Patched(file0, file1, Record(recs, i0, i1, j + 1, j1), i1 + 1, j1, kept)
  {
    hide Script, Patch, Cost;
    ScriptFrom(file0, file1, recs, i0);
    if i0 <= i1 || j + 1 <= j1 {
      PatchSnoc(file0, file1, recs, Change(i0, i1, j + 1, j1), i1 + 1);
      Glue(file0, file1, Patch(file0, file1, recs, i0), j, j1, i1);
    }
  }

  lemma PatchedKeep<T>(file0: seq<T>, file1: seq<T>, recs: seq<Change>, i0: int, j: int, kept: int)
    requires Patched(file0, file1, recs, i0, j, kept) && i0 <= |file0| && j < |file1| && file0[i0 - 1] == file1[j]
    ensures Patched(file0, file1, recs, i0 + 1, j + 1, kept + 1)
  {
    assert file1[..j + 1] == file1[..j] + [file1[j]];
    if recs == [] {
      assert file0[..i0] == file0[..i0 - 1] + [file0[i0 - 1]];
    } else {
      var r := recs[|recs| - 1];
      assert file0[r.b..i0] == file0[r.b..i0 - 1] + [file0[i0 - 1]];
    }
  }

  /** From line i0 on the match vector is still as it was, and leads beyond new line J[i0-1]. */
  ghost predicate Waiting(J0: seq<int>, J: seq<int>, m: nat, len1: nat, i0: nat) {
    && |J| == |J0| == m + 2 && 1 <= i0 <= m + 1 && J[m + 1] == len1 + 1
    && 0 <= J[i0 - 1] <= len1
    && (forall t :: i0 <= t <= m ==> J[t] == J0[t] && 0 <= J[t] <= len1)
    && (forall t :: i0 <= t <= m && J[t] != 0 ==> J[t] > J[i0 - 1])
    && Increasing(J0, m)
  }

  lemma WaitingKeep(J0: seq<int>, J: seq<int>, m: nat, len1: nat, i0: nat)
    requires Waiting(J0, J, m, len1, i0) && i0 <= m && J[i0] == J[i0 - 1] + 1
    ensures Waiting(J0, J, m, len1, i0 + 1) && Matched(J0, i0) == Matched(J0, i0 - 1) + 1
  {
    forall t | i0 + 1 <= t <= m && J[t] != 0 ensures J[t] > J[i0] {
      assert J0[i0] < J0[t];
    }
  }

  lemma {:induction false} UnmatchedRange(J: seq<int>, lo: nat, hi: nat)
    requires lo <= hi < |J| && forall t :: lo < t <= hi ==> J[t] == 0
    ensures Matched(J, hi) == Matched(J, lo)
  {
    if lo < hi {
      UnmatchedRange(J, lo, hi - 1);
    }
  }

  lemma WaitingChange(J0: seq<int>, J: seq<int>, m: nat, len1: nat, i0: nat, i1: nat)
    requires Waiting(J0, J, m, len1, i0) && i0 - 1 <= i1 <= m
    requires forall t :: i0 <= t <= i1 ==> J[t] == 0
    requires J[i1 + 1] != 0
    ensures J[i0 - 1] <= J[i1 + 1] - 1 <= len1
    ensures Waiting(J0, J[i1 := J[i1 + 1] - 1], m, len1, i1 + 1) && Matched(J0, i1) == Matched(J0, i0 - 1)
  {
    UnmatchedRange(J0, i0 - 1, i1);
    forall t | i1 + 1 <= t <= m && J[t] != 0 ensures J[t] > J[i1 + 1] - 1 {
      assert t == i1 + 1 || J0[i1 + 1] < J0[t];
    }
  }

  lemma PairAt<T>(file0: seq<T>, file1: seq<T>, J: seq<int>, i: nat)
    requires Pairs(file0, file1, J) && 1 <= i <= |file0| && J[i] != 0
    ensures 1 <= J[i] <= |file1| && file0[i - 1] == file1[J[i] - 1]
  {
  }

  /** The old lines before i0 are dealt with; J[i0-1] new lines have been accounted for. */
  ghost predicate ForwardState<T>(file0: seq<T>, file1: seq<T>, J0: seq<int>, J: seq<int>, recs: seq<Change>, i0: nat) {
    && Pairs(file0, file1, J0) && Waiting(J0, J, |file0|, |file1|, i0)
    && Patched(file0, file1, recs, i0, J[i0 - 1], Matched(J0, i0 - 1))
  }

  lemma ForwardKeep<T>(file0: seq<T>, file1: seq<T>, J0: seq<int>, J: seq<int>, recs: seq<Change>, i0: nat)
    requires ForwardState(file0, file1, J0, J, recs, i0) && i0 <= |file0| && i0 < |J| && J[i0] == J[i0 - 1] + 1
    ensures ForwardState(file0, file1, J0, J, recs, i0 + 1)
  {
    hide Patched;
    PairAt(file0, file1, J0, i0);
    PatchedKeep(file0, file1, recs, i0, J[i0 - 1], Matched(J0, i0 - 1));
    WaitingKeep(J0, J, |file0|, |file1|, i0);
  }

  lemma ForwardChange<T>(file0: seq<T>, file1: seq<T>, J0: seq<int>, J: seq<int>, recs: seq<Change>, i0: nat, i1: nat)
    requires ForwardState(file0, file1, J0, J, recs, i0) && i0 - 1 <= i1 <= |file0| && |J| == |file0| + 2
    requires forall t :: i0 <= t <= i1 ==> J[t] == 0
    requires J[i1 + 1] != 0
    ensures ForwardState(file0, file1, J0, J[i1 := J[i1 + 1] - 1],
                         Record(recs, i0, i1, J[i0 - 1] + 1, J[i1 + 1] - 1), i1 + 1)
    ensures i1 == |file0| ==> J[i1 + 1] == |file1| + 1
  {
    hide Patched, Record;
    WaitingChange(J0, J, |file0|, |file1|, i0, i1);
    PatchedChange(file0, file1, recs, i0, J[i0 - 1], Matched(J0, i0 - 1), i1, J[i1 + 1] - 1);
  }

  lemma ForwardStart<T>(file0: seq<T>, file1: seq<T>, J0: seq<int>)
    requires Pairs(file0, file1, J0)
    ensures |J0| == |file0| + 2
    ensures ForwardState(file0, file1, J0, J0[0 := 0][|file0| + 1 := |file1| + 1], [], 1)
  {
  }

  lemma PatchedMeaning<T>(file0: seq<T>, file1: seq<T>, recs: seq<Change>, kept: int)
    requires Patched(file0, file1, recs, |file0| + 1, |file1|, kept)
    ensures Script(file0, file1, recs, |file0| + 1) && Patch(file0, file1, recs, |file0| + 1) == file1
    ensures Cost(recs) == |file0| + |file1| - 2 * kept
  {
  }

  lemma ForwardEnd<T>(file0: seq<T>, file1: seq<T>, J0: seq<int>, J: seq<int>, recs: seq<Change>)
    requires ForwardState(file0, file1, J0, J, recs, |file0| + 1) && |J| == |file0| + 2
    requires |J0| == |J| && if |file0| == 0 then J[0] == 0 else J[|file0|] == |file1|
    ensures var recs' := if |file0| == 0 then Record(recs, 1, 0, 1, |file1|) else recs;
            && Script(file0, file1, recs', |file0| + 1) && Patch(file0, file1, recs', |file0| + 1) == file1
            && Cost(recs') == |file0| + |file1| - 2 * Matched(J0, |file0|)
  {
    hide Patched, Script, Patch, Cost, Record, Waiting, Pairs;
    var recs' := if |file0| == 0 then Record(recs, 1, 0, 1, |file1|) else recs;
    if |file0| == 0 {
      PatchedChange(file0, file1, recs, 1, 0, 0, 0, |file1|);
    }
    PatchedMeaning(file0, file1, recs', Matched(J0, |file0|));
  }

  lemma StateWaiting<T>(file0: seq<T>, file1: seq<T>, J0: seq<int>, J: seq<int>, recs: seq<Change>, i0: nat, i1: nat)
    requires ForwardState(file0, file1, J0, J, recs, i0) && |J| == |file0| + 2
    requires i0 - 1 <= i1 <= |file0| && (forall t :: i0 <= t <= i1 ==> J[t] == 0) && J[i1 + 1] != 0
    ensures Waiting(J0, J, |file0|, |file1|, i0) && J[i0 - 1] <= J[i1 + 1] - 1
  {
    WaitingChange(J0, J, |file0|, |file1|, i0, i1);
  }

  lemma BehindStart(J0: seq<int>, J: seq<int>, m: nat, recs: seq<Change>)
    requires |J| == |J0| == m + 2 && recs == []
    ensures Behind(J0, J, recs, m, 1)
  {
  }

  lemma BehindEnd(J0: seq<int>, J: seq<int>, recs: seq<Change>, m: nat, i0: nat, len1: nat)
    requires Behind(J0, J, recs, m, i0) && (m == 0 ==> recs == [])
    ensures var recs' := if m == 0 then Record(recs, 1, 0, 1, len1) else recs; Grouped(recs', false) && SparesAll(J0, recs')
  {
  }

  /** output for every mode but -e: change records from the first line to the last. */
  method OutputForward<T>(ghost file0: seq<T>, ghost file1: seq<T>, J: array<int>, m: nat, len1: nat)
    returns (recs: seq<Change>)
    requires m == |file0| && len1 == |file1| && Pairs(file0, file1, J[..])
    modifies J
    ensures Script(file0, file1, recs, m + 1) && Patch(file0, file1, recs, m + 1) == file1
    ensures Cost(recs) == m + len1 - 2 * Matched(old(J[..]), m)
    ensures Grouped(recs, false) && SparesAll(old(J[..]), recs)
  {
    hide Behind, Clear, Grouped, SparesAll, Waiting, ForwardState, Pairs, Script, Patch, Cost, Record;
    ghost var J0 := J[..];
    ForwardStart(file0, file1, J0);
    recs := [];
    J[0] := 0;
    J[m + 1] := len1 + 1;
    assert J[..] == J0[0 := 0][m + 1 := len1 + 1];
    BehindStart(J0, J[..], m, recs);
    var i0 := 1;
    while i0 <= m
      invariant 1 <= i0 <= m + 1 && ForwardState(file0, file1, J0, J[..], recs, i0)
      invariant Behind(J0, J[..], recs, m, i0) && (recs != [] ==> i0 <= m ==> J[i0] == J[i0 - 1] + 1)
      invariant m == 0 ==> recs == []
      invariant if m == 0 then J[0] == 0 else i0 == m + 1 ==> J[m] == len1
      decreases 2 * (m + 1 - i0) + (if i0 <= m && J[i0] == J[i0 - 1] + 1 then 0 else 1)
    {
      var i1;
      i0, i1 := NextForward(file0, file1, J, J0, recs, i0, m);
      var j0, j1 := J[i0 - 1] + 1, J[i1 + 1] - 1;
      ForwardChange(file0, file1, J0, J[..], recs, i0, i1);
      StateWaiting(file0, file1, J0, J[..], recs, i0, i1);
      BehindChange(J0, J[..], recs, m, len1, i0, i1);
      ghost var was := J[..];
      J[i1] := j1;
      assert J[..] == was[i1 := j1];
      recs := Record(recs, i0, i1, j0, j1);
      i0 := i1 + 1;
    }
    ForwardEnd(file0, file1, J0, J[..], recs);
    BehindEnd(J0, J[..], recs, m, i0, len1);
    if m == 0 {
      recs := Record(recs, 1, 0, 1, len1);
    }
  }

  /** Skip the lines that stay from `start` on; then i0..i1 is the next run of lines to go, maybe empty. */
  method NextForward<T>(ghost file0: seq<T>, ghost file1: seq<T>, J: array<int>, ghost J0: seq<int>,
                        ghost recs: seq<Change>, start: nat, m: nat) returns (i0: nat, i1: nat)
    requires m == |file0| && 1 <= start <= m && J.Length == m + 2
    requires ForwardState(file0, file1, J0, J[..], recs, start)
    requires Behind(J0, J[..], recs, m, start) && (recs != [] ==> J[start] == J[start - 1] + 1)
    ensures Clear(J0, J[..], recs, m, i0)
    ensures start <= i0 <= m + 1 && ForwardState(file0, file1, J0, J[..], recs, i0)
    ensures i0 <= m ==> J[i0] != J[i0 - 1] + 1
    ensures start <= m && J[start] == J[start - 1] + 1 ==> start < i0
    ensures i0 - 1 <= i1 <= m && (forall t :: i0 <= t <= i1 ==> J[t] == 0) && J[i1 + 1] != 0
  {
    hide Patched, Pairs, Waiting, Grouped, SparesAll;
    i0 := start;
    while i0 <= m && J[i0] == J[i0 - 1] + 1
      invariant start <= i0 <= m + 1 && ForwardState(file0, file1, J0, J[..], recs, i0)
      invariant Behind(J0, J[..], recs, m, i0) && (recs == [] || start < i0 ==> Clear(J0, J[..], recs, m, i0))
    {
      BehindKeep(J0, J[..], recs, m, |file1|, i0);
      ForwardKeep(file0, file1, J0, J[..], recs, i0);
      i0 := i0 + 1;
    }
    WaitingAt(J0, J[..], m, |file1|, i0);
    i1 := i0 - 1;
    while i1 < m && J[i1 + 1] == 0
      invariant i0 - 1 <= i1 <= m
      invariant forall t :: i0 <= t <= i1 ==> J[t] == 0
    {
      i1 := i1 + 1;
    }
  }

  lemma WaitingAt(J0: seq<int>, J: seq<int>, m: nat, len1: nat, i0: nat)
    requires Waiting(J0, J, m, len1, i0)
    ensures |J| == |J0| == m + 2 && J[m + 1] == len1 + 1
  {
  }

  /** With recs carried out, the file is its first i lines followed by the new lines from j on. */
  ghost predicate Edited<T>(file0: seq<T>, file1: seq<T>, recs: seq<Change>, i: int, j: int, kept: int) {
    && EdScript(file0, file1, recs) && 0 <= i <= |file0| && 1 <= j <= |file1| + 1
    && Edit(file0, file1, recs) == file0[..i] + file1[j - 1..]
    && Cost(recs) == |file0| - i + |file1| + 1 - j - 2 * kept
  }

  lemma EditSnoc<T>(file0: seq<T>, file1: seq<T>, recs: seq<Change>, r: Change)
    requires EdScript(file0, file1, recs) && InRange(r, Edit(file0, file1, recs), file1)
    ensures EdScript(file0, file1, recs + [r])
    ensures var f := Edit(file0, file1, recs);
            Edit(file0, file1, recs + [r]) == f[..r.a - 1] + file1[r.c - 1..r.d] + f[r.b..]
    ensures Cost(recs + [r]) == Cost(recs) + (r.b - r.a + 1) + (r.d - r.c + 1)
  {
    var all := recs + [r];
    assert all[..|all| - 1] == recs && all[|all| - 1] == r;
  }

  lemma GlueBack<T>(file0: seq<T>, file1: seq<T>, f: seq<T>, i: int, j: int, i1: int, j1: int)
    requires 1 <= i1 <= i + 1 <= |file0| + 1 && 1 <= j1 <= j <= |file1| + 1 && f == file0[..i] + file1[j - 1..]
    ensures f[..i1 - 1] + file1[j1 - 1..j - 1] + f[i..] == file0[..i1 - 1] + file1[j1 - 1..]
  {
    assert file1[j1 - 1..] == file1[j1 - 1..j - 1] + file1[j - 1..];
  }

  lemma EditedChange<T>(file0: seq<T>, file1: seq<T>, recs: seq<Change>, i: int, j: int, kept: int, i1: int, j1: int)
    requires Edited(file0, file1, recs, i, j, kept) && 1 <= i1 <= i + 1 && 1 <= j1 <= j
    ensures Edited(file0, file1, Record(recs, i1, i, j1, j - 1), i1 - 1, j1, kept)
  {
    hide EdScript, Edit, Cost;
    if i1 <= i || j1 <= j - 1 {
      EditSnoc(file0, file1, recs, Change(i1, i, j1, j - 1));
      GlueBack(file0, file1, Edit(file0, file1, recs), i, j, i1, j1);
    }
  }

  lemma EditedKeep<T>(file0: seq<T>, file1: seq<T>, recs: seq<Change>, i: int, j: int, kept: int)
    requires Edited(file0, file1, recs, i, j, kept) && i >= 1 && j >= 2 && file0[i - 1] == file1[j - 2]
    ensures Edited(file0, file1, recs, i - 1, j - 1, kept + 1)
  {
    hide EdScript, Edit, Cost;
    assert file1[j - 2..] == [file1[j - 2]] + file1[j - 1..];
    assert file0[..i] == file0[..i - 1] + [file0[i - 1]];
  }

  /** Up to line i0 the match vector is still as it was, and leads before new line J[i0+1]. */
  ghost predicate Pending(J0: seq<int>, J: seq<int>, m: nat, len1: nat, i0: nat) {
    && |J| == |J0| == m + 2 && i0 <= m && J[0] == 0
    && 1 <= J[i0 + 1] <= len1 + 1
    && (forall t :: 1 <= t <= i0 ==> J[t] == J0[t] && 0 <= J[t] <= len1)
    && (forall t :: 1 <= t <= i0 && J[t] != 0 ==> J[t] < J[i0 + 1])
    && Increasing(J0, m)
  }

  lemma PendingKeep(J0: seq<int>, J: seq<int>, m: nat, len1: nat, i0: nat)
    requires Pending(J0, J, m, len1, i0) && i0 >= 1 && J[i0] == J[i0 + 1] - 1 && J[i0] != 0
    ensures Pending(J0, J, m, len1, i0 - 1) && Matched(J0, i0) == Matched(J0, i0 - 1) + 1
  {
    forall t | 1 <= t <= i0 - 1 && J[t] != 0 ensures J[t] < J[i0] {
      assert J0[t] < J0[i0];
    }
  }

  lemma PendingChange(J0: seq<int>, J: seq<int>, m: nat, len1: nat, i0: nat, i1: nat)
    requires Pending(J0, J, m, len1, i0) && 1 <= i1 <= i0 + 1
    requires forall t :: i1 <= t <= i0 ==> J[t] == 0
    requires i1 > 1 ==> J[i1 - 1] != 0
    ensures 1 <= J[i1 - 1] + 1 <= J[i0 + 1]
    ensures Pending(J0, J[i1 := J[i1 - 1] + 1], m, len1, i1 - 1) && Matched(J0, i0) == Matched(J0, i1 - 1)
  {
    UnmatchedRange(J0, i1 - 1, i0);
    forall t | 1 <= t <= i1 - 1 && J[t] != 0 ensures J[t] < J[i1 - 1] + 1 {
      assert t == i1 - 1 || J0[t] < J0[i1 - 1];
    }
  }

  /** The old lines after i0 are dealt with; the new lines from J[i0+1] on are in place. */
  ghost predicate BackwardState<T>(file0: seq<T>, file1: seq<T>, J0: seq<int>, J: seq<int>, recs: seq<Change>, i0: nat) {
    && Pairs(file0, file1, J0) && Pending(J0, J, |file0|, |file1|, i0)
    && Edited(file0, file1, recs, i0, J[i0 + 1], Matched(J0, |file0|) - Matched(J0, i0))
  }

  /** Records made behind line i0: they begin after it, and with new line j at least. */
  ghost predicate Ahead(J0: seq<int>, J: seq<int>, recs: seq<Change>, m: nat, i0: nat) {
    && |J| == |J0| == m + 2 && i0 <= m && Grouped(recs, true) && SparesAll(J0, recs)
    && (recs != [] ==> i0 < recs[|recs| - 1].a && J[i0 + 1] <= recs[|recs| - 1].c)
    && (forall t :: i0 < t <= m && J0[t] != 0 ==> J[i0 + 1] <= J0[t])
  }

  ghost predicate ClearAhead(J0: seq<int>, J: seq<int>, recs: seq<Change>, m: nat, i0: nat) {
    && Ahead(J0, J, recs, m, i0)
    && (recs != [] ==> i0 + 1 < recs[|recs| - 1].a && J[i0 + 1] < recs[|recs| - 1].c)
  }

  lemma AheadKeep(J0: seq<int>, J: seq<int>, recs: seq<Change>, m: nat, len1: nat, i0: nat)
    requires Ahead(J0, J, recs, m, i0) && Pending(J0, J, m, len1, i0) && i0 >= 1 && J[i0] == J[i0 + 1] - 1
    ensures ClearAhead(J0, J, recs, m, i0 - 1)
  {
  }

  lemma AheadChange(J0: seq<int>, J: seq<int>, recs: seq<Change>, m: nat, len1: nat, i0: nat, i1: nat)
    requires ClearAhead(J0, J, recs, m, i0) && Pending(J0, J, m, len1, i0) && 1 <= i1 <= i0 + 1
    requires (forall t :: i1 <= t <= i0 ==> J[t] == 0) && (i1 > 1 ==> J[i1 - 1] != 0) && J[i1 - 1] + 1 <= J[i0 + 1]
    ensures Ahead(J0, J[i1 := J[i1 - 1] + 1], Record(recs, i1, i0, J[i1 - 1] + 1, J[i0 + 1] - 1), m, i1 - 1)
  {
    var r := Change(i1, i0, J[i1 - 1] + 1, J[i0 + 1] - 1);
    forall t | 0 < t < m + 1 && J0[t] != 0 ensures J0[t] < r.c || r.d < J0[t] {
      assert t < i1 - 1 ==> J0[t] < J0[i1 - 1];
    }
    GroupedRecord(J0, recs, true, r);
  }

  lemma StatePending<T>(file0: seq<T>, file1: seq<T>, J0: seq<int>, J: seq<int>, recs: seq<Change>, i0: nat, i1: nat)
    requires BackwardState(file0, file1, J0, J, recs, i0) && |J| == |file0| + 2 && 1 <= i1 <= i0 + 1 <= |file0| + 1
    requires (forall t :: i1 <= t <= i0 ==> J[t] == 0) && (i1 > 1 ==> J[i1 - 1] != 0)
    ensures Pending(J0, J, |file0|, |file1|, i0) && J[i1 - 1] + 1 <= J[i0 + 1]
  {
    PendingChange(J0, J, |file0|, |file1|, i0, i1);
  }

  lemma AheadStart(J0: seq<int>, J: seq<int>, m: nat, recs: seq<Change>)
    requires |J| == |J0| == m + 2 && recs == []
    ensures Ahead(J0, J, recs, m, m)
  {
  }

  lemma AheadEnd(J0: seq<int>, J: seq<int>, recs: seq<Change>, m: nat, i0: nat, len1: nat)
    requires Ahead(J0, J, recs, m, i0) && (m == 0 ==> recs == [])
    ensures var recs' := if m == 0 then Record(recs, 1, 0, 1, len1) else recs; Grouped(recs', true) && SparesAll(J0, recs')
  {
  }

  lemma BackwardKeep<T>(file0: seq<T>, file1: seq<T>, J0: seq<int>, J: seq<int>, recs: seq<Change>, i0: nat)
    requires BackwardState(file0, file1, J0, J, recs, i0) && 1 <= i0 && i0 + 1 < |J| && J[i0] == J[i0 + 1] - 1 && J[i0] != 0
    ensures BackwardState(file0, file1, J0, J, recs, i0 - 1)
  {
    hide Edited;
    PairAt(file0, file1, J0, i0);
    EditedKeep(file0, file1, recs, i0, J[i0 + 1], Matched(J0, |file0|) - Matched(J0, i0));
    PendingKeep(J0, J, |file0|, |file1|, i0);
  }

  lemma BackwardChange<T>(file0: seq<T>, file1: seq<T>, J0: seq<int>, J: seq<int>, recs: seq<Change>, i0: nat, i1: nat)
    requires BackwardState(file0, file1, J0, J, recs, i0) && 1 <= i1 <= i0 + 1 && i0 + 1 < |J|
    requires forall t :: i1 <= t <= i0 ==> J[t] == 0
    requires i1 > 1 ==> J[i1 - 1] != 0
    ensures BackwardState(file0, file1, J0, J[i1 := J[i1 - 1] + 1],
                          Record(recs, i1, i0, J[i1 - 1] + 1, J[i0 + 1] - 1), i1 - 1)
    ensures i1 == 1 ==> J[0] == 0
  {
    hide Edited, Record;
    PendingChange(J0, J, |file0|, |file1|, i0, i1);
    EditedChange(file0, file1, recs, i0, J[i0 + 1], Matched(J0, |file0|) - Matched(J0, i0), i1, J[i1 - 1] + 1);
  }

  lemma BackwardStart<T>(file0: seq<T>, file1: seq<T>, J0: seq<int>)
    requires Pairs(file0, file1, J0)
    ensures |J0| == |file0| + 2
    ensures BackwardState(file0, file1, J0, J0[0 := 0][|file0| + 1 := |file1| + 1], [], |file0|)
  {
  }

  lemma EditedMeaning<T>(file0: seq<T>, file1: seq<T>, recs: seq<Change>, kept: int)
    requires Edited(file0, file1, recs, 0, 1, kept)
    ensures EdScript(file0, file1, recs) && Edit(file0, file1, recs) == file1
    ensures Cost(recs) == |file0| + |file1| - 2 * kept
  {
  }

  lemma BackwardEnd<T>(file0: seq<T>, file1: seq<T>, J0: seq<int>, J: seq<int>, recs: seq<Change>)
    requires BackwardState(file0, file1, J0, J, recs, 0) && |J| == |J0| == |file0| + 2
    requires J[1] == if |file0| == 0 then |file1| + 1 else 1
    ensures var recs' := if |file0| == 0 then Record(recs, 1, 0, 1, |file1|) else recs;
            && EdScript(file0, file1, recs') && Edit(file0, file1, recs') == file1
            && Cost(recs') == |file0| + |file1| - 2 * Matched(J0, |file0|)
  {
    hide Edited, EdScript, Edit, Cost, Record, Pending, Pairs;
    var recs' := if |file0| == 0 then Record(recs, 1, 0, 1, |file1|) else recs;
    if |file0| == 0 {
      EditedChange(file0, file1, recs, 0, |file1| + 1, 0, 1, 1);
    }
    EditedMeaning(file0, file1, recs', Matched(J0, |file0|));
  }

  /** output for -e: change records from the last line to the first, to be carried out in that order. */
  method OutputBackward<T>(ghost file0: seq<T>, ghost file1: seq<T>, J: array<int>, m: nat, len1: nat)
    returns (recs: seq<Change>)
    requires m == |file0| && len1 == |file1| && Pairs(file0, file1, J[..])
    modifies J
    ensures EdScript(file0, file1, recs) && Edit(file0, file1, recs) == file1
    ensures Cost(recs) == m + len1 - 2 * Matched(old(J[..]), m)
    ensures Grouped(recs, true) && SparesAll(old(J[..]), recs)
  {
    hide Ahead, ClearAhead, Grouped, SparesAll, Pending, BackwardState, Pairs, EdScript, Edit, Cost, Record;
    ghost var J0 := J[..];
    BackwardStart(file0, file1, J0);
    recs := [];
    J[0] := 0;
    J[m + 1] := len1 + 1;
    assert J[..] == J0[0 := 0][m + 1 := len1 + 1];
    AheadStart(J0, J[..], m, recs);
    var i0: nat := m;
    while i0 >= 1
      invariant i0 <= m && BackwardState(file0, file1, J0, J[..], recs, i0)
      invariant i0 == 0 ==> J[1] == if m == 0 then len1 + 1 else 1
      invariant Ahead(J0, J[..], recs, m, i0) && (m == 0 ==> recs == [])
      invariant recs != [] && i0 >= 1 ==> J[i0] == J[i0 + 1] - 1 && J[i0] != 0
      decreases 2 * i0 + (if i0 >= 1 && J[i0] == J[i0 + 1] - 1 && J[i0] != 0 then 0 else 1)
    {
      var i1;
      i0, i1 := NextBackward(file0, file1, J, J0, recs, i0, m);
      var j0, j1 := J[i0 + 1] - 1, J[i1 - 1] + 1;
      BackwardChange(file0, file1, J0, J[..], recs, i0, i1);
      StatePending(file0, file1, J0, J[..], recs, i0, i1);
      AheadChange(J0, J[..], recs, m, len1, i0, i1);
      ghost var was := J[..];
      J[i1] := j1;
      assert J[..] == was[i1 := j1];
      recs := Record(recs, i1, i0, j1, j0);
      i0 := i1 - 1;
    }
    BackwardEnd(file0, file1, J0, J[..], recs);
    AheadEnd(J0, J[..], recs, m, i0, len1);
    if m == 0 {
      recs := Record(recs, 1, 0, 1, len1);
    }
  }

  /** Skip the lines that stay from `start` down; then i1..i0 is the next run of lines to go, maybe empty. */
  method NextBackward<T>(ghost file0: seq<T>, ghost file1: seq<T>, J: array<int>, ghost J0: seq<int>,
                         ghost recs: seq<Change>, start: nat, m: nat) returns (i0: nat, i1: nat)
    requires m == |file0| && 1 <= start <= m && J.Length == m + 2
    requires BackwardState(file0, file1, J0, J[..], recs, start)
    requires Ahead(J0, J[..], recs, m, start) && (recs != [] ==> J[start] == J[start + 1] - 1 && J[start] != 0)
    ensures ClearAhead(J0, J[..], recs, m, i0)
    ensures i0 <= start && BackwardState(file0, file1, J0, J[..], recs, i0)
    ensures start >= 1 && J[start] == J[start + 1] - 1 && J[start] != 0 ==> i0 < start
    ensures 1 <= i1 <= i0 + 1 && (forall t :: i1 <= t <= i0 ==> J[t] == 0) && (i1 > 1 ==> J[i1 - 1] != 0)
  {
    hide Edited, Pairs, Pending, Grouped, SparesAll;
    i0 := start;
    while i0 >= 1 && J[i0] == J[i0 + 1] - 1 && J[i0] != 0
      invariant i0 <= start && BackwardState(file0, file1, J0, J[..], recs, i0)
      invariant Ahead(J0, J[..], recs, m, i0) && (recs == [] || i0 < start ==> ClearAhead(J0, J[..], recs, m, i0))
    {
      AheadKeep(J0, J[..], recs, m, |file1|, i0);
      BackwardKeep(file0, file1, J0, J[..], recs, i0);
      i0 := i0 - 1;
    }
    i1 := i0 + 1;
    while i1 > 1 && J[i1 - 1] == 0
      invariant 1 <= i1 <= i0 + 1
      invariant forall t :: i1 <= t <= i0 ==> J[t] == 0
    {
      i1 := i1 - 1;
    }
  }
}
