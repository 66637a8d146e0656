/** diffreg: from two files to a change script, and why no script is shorter. */
module DiffReg {
  import opened Lcs
  import opened DiffStone
  import opened DiffSort
  import opened DiffOutput

  /** What prepare keeps of a file. */
  function Values<T>(hash: T -> int, file: seq<T>): (v: seq<int>)
    ensures |v| == |file| && forall i :: 0 <= i < |file| ==> v[i] == hash(file[i])
  {
    seq(|file|, i requires 0 <= i < |file| => hash(file[i]))
  }

  /** prune, sort, equiv, unsort, stone and unravel: a longest matching of the two value sequences. */
  method MatchVector(a: seq<int>, b: seq<int>) returns (J: array<int>)
    requires forall i :: 0 <= i < |b| ==> b[i] != 0
    ensures fresh(J) && J.Length == |a| + 2
    ensures Matching(a, b, J[..]) && Matched(J[..], |a|) == Len(a, b, |a|, |b|)
    ensures Longest(a, b, J[..])
  {
    hide Len, Matching, Matched, Permuted, Sorted, ClassTable, MemberTable, Chain;
    var pref, suff := Prune(a, b);
    ghost var mid0, mid1 := a[pref..|a| - suff], b[pref..|b| - suff];
    var slen0, slen1 := |a| - suff - pref, |b| - suff - pref;
    var cls, member := Tables(a[pref..|a| - suff], b[pref..|b| - suff]);
    var klist := new nat[slen0 + 2](_ => 0);
    var searcher := new Searcher();
    var k := searcher.Stone(mid0, mid1, cls[..], slen0, member[..], klist);
    DropEnds(a, b, pref, suff);
    J := new int[|a| + 2](_ => 0);
    searcher.Unravel(a, b, pref, suff, |a|, |b|, klist[k], k, J);
    IsLongest(a, b, J[..]);
  }

  /** No way of pairing equal lines without crossing pairs more of them than J. */
  ghost predicate Longest(a: seq<int>, b: seq<int>, J: seq<int>) {
    |J| > |a| && forall other :: Matching(a, b, other) ==> Matched(other, |a|) <= Matched(J, |a|)
  }

  lemma IsLongest(a: seq<int>, b: seq<int>, J: seq<int>)
    requires |J| > |a| && Matched(J, |a|) == Len(a, b, |a|, |b|)
    ensures Longest(a, b, J)
  {
    forall other | Matching(a, b, other) ensures Matched(other, |a|) <= Matched(J, |a|) {
      MatchingBound(a, b, other, |a|, |b|);
    }
  }

  /** The class and member tables of what prune keeps. */
  method Tables(a: seq<int>, b: seq<int>) returns (cls: array<int>, member: array<int>)
    requires forall i :: 0 <= i < |b| ==> b[i] != 0
    ensures fresh(cls) && fresh(member) && ClassTable(a, b, cls[..], member[..])
  {
    var sfile0 := Keep(a);
    var sfile1 := Keep(b);
    Sort(sfile0, a, |a|);
    Sort(sfile1, b, |b|);
    ghost var t0, t1 := sfile0[..], sfile1[..];
    hide Permuted, Sorted, MemberTable, ClassStart;
    PermutedLength(t0, a);
    PermutedLength(t1, b);
    NonzeroCells(t1, b);
    member := new int[|b| + 2];
    Equiv(sfile0, |a|, sfile1, |b|, member);
    cls := new int[|a| + 2];
    Unsort(sfile0, |a|, cls, a, t0);
    TablesFit(a, b, t0, t1, cls[..], member[..]);
  }

  lemma NonzeroCells(t: seq<Line>, v: seq<int>)
    requires Permuted(t, v) && forall i :: 0 <= i < |v| ==> v[i] != 0
    ensures forall i :: 1 <= i <= |v| ==> t[i].value != 0
  {
    assert forall i :: 1 <= i <= |v| ==> IsLine(t[i], v);
  }

  /** Taking a patched text apart at the last record. */
  lemma PatchParts<T>(file0: seq<T>, file1: seq<T>, recs: seq<Change>, upto: int, t: int) returns (t0: nat, s: nat)
    requires Script(file0, file1, recs, upto) && recs != []
    requires 0 <= t <= |file1| && Patch(file0, file1, recs, upto) == file1[..t]
    ensures var r, init := recs[|recs| - 1], recs[..|recs| - 1];
      && InRange(r, file0, file1) && r.b < upto && Script(file0, file1, init, r.a)
      && t0 <= s <= t && s - t0 == r.d - r.c + 1 && t - s == upto - 1 - r.b
      && Patch(file0, file1, init, r.a) == file1[..t0]
      && file0[r.b..upto - 1] == file1[s..t]
  {
    var r, init := recs[|recs| - 1], recs[..|recs| - 1];
    var p, added, kept := Patch(file0, file1, init, r.a), file1[r.c - 1..r.d], file0[r.b..upto - 1];
    t0, s := |p|, |p| + |added|;
    SplitText(p, added, kept, file1[..t]);
    assert file1[..t][..t0] == file1[..t0] && file1[..t][s..] == file1[s..t];
  }

  lemma SplitText<T>(p: seq<T>, added: seq<T>, kept: seq<T>, text: seq<T>)
    requires text == p + added + kept
    ensures |text| == |p| + |added| + |kept| && text[..|p|] == p && text[|p| + |added|..] == kept
  {
  }

  /** Equal lines have equal values. */
  ghost predicate ValuesAgree<T>(file0: seq<T>, file1: seq<T>, a: seq<int>, b: seq<int>) {
    && |a| == |file0| && |b| == |file1|
    && forall i, j :: 0 <= i < |a| && 0 <= j < |b| && file0[i] == file1[j] ==> a[i] == b[j]
  }

  /** A script that makes file1 of file0 leaves a common subsequence untouched. */
  lemma {:induction false} ScriptBound<T>(file0: seq<T>, file1: seq<T>, a: seq<int>, b: seq<int>,
                                          recs: seq<Change>, upto: int, t: int)
    requires ValuesAgree(file0, file1, a, b)
    requires Script(file0, file1, recs, upto) && 0 <= t <= |file1| && Patch(file0, file1, recs, upto) == file1[..t]
    ensures 2 * Len(a, b, upto - 1, t) >= upto - 1 + t - Cost(recs)
    decreases |recs|
  {
    hide Len;
    if recs == [] {
      assert file0[..upto - 1] == file1[..t];
      SameTail(file0, file1, a, b, 0, 0, t);
    } else {
      hide Script, Patch;
      var r := recs[|recs| - 1];
      var t0, s := PatchParts(file0, file1, recs, upto, t);
      ScriptBound(file0, file1, a, b, recs[..|recs| - 1], r.a, t0);
      SameTail(file0, file1, a, b, r.b, s, t - s);
      Monotone(a, b, r.a - 1, t0, r.b, s);
    }
  }

  lemma {:induction false} SameTail<T>(file0: seq<T>, file1: seq<T>, a: seq<int>, b: seq<int>, i: nat, j: nat, n: nat)
    requires ValuesAgree(file0, file1, a, b)
    requires i + n <= |a| && j + n <= |b| && file0[i..i + n] == file1[j..j + n]
    ensures Len(a, b, i + n, j + n) >= Len(a, b, i, j) + n
  {
    if n > 0 {
      var x, y := file0[i..i + n], file1[j..j + n];
      assert x[n - 1] == y[n - 1] && x[..n - 1] == y[..n - 1];
      assert x[..n - 1] == file0[i..i + (n - 1)] && y[..n - 1] == file1[j..j + (n - 1)];
      SameTail(file0, file1, a, b, i, j, n - 1);
    }
  }

  /** Equal hash values only where the lines are equal: check breaks nothing. */
  ghost predicate Faithful<T>(hash: T -> int, file0: seq<T>, file1: seq<T>) {
    forall i, j :: 0 <= i < |file0| && 0 <= j < |file1| && hash(file0[i]) == hash(file1[j]) ==> file0[i] == file1[j]
  }

  /** No script that turns file0 into file1 touches fewer lines. */
  ghost predicate Shortest<T>(file0: seq<T>, file1: seq<T>, cost: int) {
    forall other :: Script(file0, file1, other, |file0| + 1) && Patch(file0, file1, other, |file0| + 1) == file1
                    ==> cost <= Cost(other)
  }

  lemma LongestIsShortest<T>(file0: seq<T>, file1: seq<T>, a: seq<int>, b: seq<int>, kept: nat)
    requires ValuesAgree(file0, file1, a, b) && |a| == |file0| && |b| == |file1|
    requires kept == Len(a, b, |file0|, |file1|)
    ensures Shortest(file0, file1, |file0| + |file1| - 2 * kept)
  {
    hide Len, ValuesAgree, Script, Patch, Cost;
    forall other | Script(file0, file1, other, |file0| + 1) && Patch(file0, file1, other, |file0| + 1) == file1
      ensures |file0| + |file1| - 2 * kept <= Cost(other)
    {
      WholeScriptBound(file0, file1, a, b, other);
    }
  }

  lemma ValuesOfLines<T>(hash: T -> int, file0: seq<T>, file1: seq<T>)
    ensures ValuesAgree(file0, file1, Values(hash, file0), Values(hash, file1))
  {
  }

  lemma WholeScriptBound<T>(file0: seq<T>, file1: seq<T>, a: seq<int>, b: seq<int>, other: seq<Change>)
    requires ValuesAgree(file0, file1, a, b) && |a| == |file0| && |b| == |file1|
    requires Script(file0, file1, other, |file0| + 1) && Patch(file0, file1, other, |file0| + 1) == file1
    ensures Cost(other) >= |file0| + |file1| - 2 * Len(a, b, |file0|, |file1|)
  {
    hide Len, Script, Patch, Cost;
    assert file1[..|file1|] == file1;
    ScriptBound(file0, file1, a, b, other, |file0| + 1, |file1|);
  }

  lemma {:induction false} SameMatched(J: seq<int>, J': seq<int>, n: nat)
    requires n < |J| && n < |J'| && forall i :: 1 <= i <= n ==> J[i] == J'[i]
    ensures Matched(J, n) == Matched(J', n)
  {
    if n > 0 {
      SameMatched(J, J', n - 1);
    }
  }

  /** The match vector as check leaves it. */
  method CheckedMatch<T(==)>(hash: T -> int, file0: seq<T>, file1: seq<T>) returns (J: array<int>)
    requires forall i :: 0 <= i < |file1| ==> hash(file1[i]) != 0
    ensures fresh(J) && Pairs(file0, file1, J[..])
    ensures Faithful(hash, file0, file1) ==> Shortest(file0, file1, |file0| + |file1| - 2 * Matched(J[..], |file0|))
  {
    hide Len, Matched, Shortest;
    var a, b := Values(hash, file0), Values(hash, file1);
    J := MatchVector(a, b);
    ghost var J0 := J[..];
    ValuesOfLines(hash, file0, file1);
    LongestIsShortest(file0, file1, a, b, Matched(J0, |file0|));
    Check(file0, file1, J);
    if Faithful(hash, file0, file1) {
      forall i | 1 <= i <= |file0| ensures J[i] == J0[i] {
        assert J0[i] != 0 ==> hash(file0[i - 1]) == hash(file1[J0[i] - 1]);
      }
      SameMatched(J0, J[..], |file0|);
    }
  }

  /** The default output: records that patch the old file into the new one, as few lines as possible. */
  method Diff<T(==)>(hash: T -> int, file0: seq<T>, file1: seq<T>) returns (recs: seq<Change>)
    requires forall i :: 0 <= i < |file1| ==> hash(file1[i]) != 0
    ensures Script(file0, file1, recs, |file0| + 1) && Patch(file0, file1, recs, |file0| + 1) == file1
    ensures Faithful(hash, file0, file1) ==> Shortest(file0, file1, Cost(recs))
    ensures Grouped(recs, false)
  {
    hide Grouped, SparesAll, Script, Patch, Cost, Matched, Shortest, Faithful, Pairs;
    var J := CheckedMatch(hash, file0, file1);
    recs := OutputForward(file0, file1, J, |file0|, |file1|);
  }

  /** diff -e: a script that edits the old file into the new one, as few lines as possible. */
  method DiffEdit<T(==)>(hash: T -> int, file0: seq<T>, file1: seq<T>) returns (recs: seq<Change>)
    requires forall i :: 0 <= i < |file1| ==> hash(file1[i]) != 0
    ensures EdScript(file0, file1, recs) && Edit(file0, file1, recs) == file1
    ensures Faithful(hash, file0, file1) ==> Shortest(file0, file1, Cost(recs))
    ensures Grouped(recs, true)
  {
    hide Grouped, SparesAll, EdScript, Edit, Cost, Matched, Shortest, Faithful, Pairs;
    var J := CheckedMatch(hash, file0, file1);
    recs := OutputBackward(file0, file1, J, |file0|, |file1|);
  }
}
