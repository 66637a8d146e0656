/** The tables that stone searches: prune, sort, equiv and unsort of diffreg.c.
    Tables are one-based; cell 0 and the cell after the last are spare. */
module DiffSort {
  import opened Lcs
  import opened DiffStone

  datatype Line = Line(serial: int, value: int)

  /** The order of sort: by value, equal values by serial. */
  predicate NotAfter(p: Line, q: Line) {
    p.value < q.value || (p.value == q.value && p.serial <= q.serial)
  }

  ghost predicate Sorted(t: seq<Line>, n: nat) {
    n < |t| && forall i, j :: 1 <= i < j <= n ==> NotAfter(t[i], t[j])
  }

  /** Cells 1..n hold each of lines 1..n of v once. */
  ghost predicate Permuted(t: seq<Line>, v: seq<int>) {
    && |t| == |v| + 2
    && (forall i :: 1 <= i <= |v| ==> IsLine(t[i], v))
    && (forall i, j :: 1 <= i < j <= |v| ==> t[i].serial != t[j].serial)
    && (forall s :: 1 <= s <= |v| ==> Listed(t, |v|, s))
  }

  ghost predicate Listed(t: seq<Line>, n: nat, s: int) {
    n < |t| && exists i :: 1 <= i <= n && t[i].serial == s
  }

  ghost predicate IsLine(l: Line, v: seq<int>) {
    1 <= l.serial <= |v| && l.value == v[l.serial - 1]
  }

  lemma SwapKeepsPermuted(t: seq<Line>, v: seq<int>, i: nat, j: nat)
    requires Permuted(t, v) && 1 <= i < j <= |v|
    ensures Permuted(t[i := t[j]][j := t[i]], v)
  {
    var t' := t[i := t[j]][j := t[i]];
    forall s | 1 <= s <= |v| ensures Listed(t', |v|, s) {
      assert Listed(t, |v|, s);
      var u :| 1 <= u <= |v| && t[u].serial == s;
      var w := if u == i then j else if u == j then i else u;
      assert t'[w].serial == s;
    }
  }

  /** The lengths of the common prefix and of the common suffix of what is left. */
  method Prune(a: seq<int>, b: seq<int>) returns (pref: nat, suff: nat)
    ensures pref + suff <= |a| && pref + suff <= |b|
    ensures CommonPrefix(a, b, pref) && CommonSuffix(a, b, suff)
    ensures pref < |a| && pref < |b| ==> a[pref] != b[pref]
    ensures pref + suff < |a| && pref + suff < |b| ==> a[|a| - suff - 1] != b[|b| - suff - 1]
  {
    pref, suff := 0, 0;
    while pref < |a| && pref < |b| && a[pref] == b[pref]
      invariant CommonPrefix(a, b, pref)
      decreases |a| - pref
    {
      pref := pref + 1;
    }
    while suff < |a| - pref && suff < |b| - pref && a[|a| - suff - 1] == b[|b| - suff - 1]
      invariant pref + suff <= |a| && pref + suff <= |b| && CommonSuffix(a, b, suff)
      decreases |a| - suff
    {
      suff := suff + 1;
    }
  }

  /** The table of the lines kept by prune, numbered from 1. */
  method Keep(v: seq<int>) returns (t: array<Line>)
    ensures fresh(t) && Permuted(t[..], v)
  {
    t := new Line[|v| + 2](i => Line(0, 0));
    for i := 0 to |v|
      invariant forall j :: 1 <= j <= i ==> t[j] == Line(j, v[j - 1])
    {
      t[i + 1] := Line(i + 1, v[i]);
    }
    forall s | 1 <= s <= |v| ensures Listed(t[..], |v|, s) {
      assert t[..][s].serial == s;
    }
  }

  /** Cells 1..n are in order but for the line at cell i, which is before nothing to its right. */
  ghost predicate SortedBut(t: seq<Line>, n: nat, i: int) {
    n < |t| && forall u, w :: 1 <= u < w <= n && w != i ==> NotAfter(t[u], t[w])
  }

  /** One pass of sort: a[j+m] sinks through every m-th cell. */
  method GapPass(a: array<Line>, ghost v: seq<int>, n: nat, m: nat)
    requires n == |v| && 1 <= m && Permuted(a[..], v)
    modifies a
    ensures Permuted(a[..], v)
    ensures m == 1 ==> Sorted(a[..], n)
  {
    hide Permuted;
    var j := 1;
    assert a.Length == n + 2 by { PermutedLength(a[..], v); }
    while j <= n - m
      invariant 1 <= j && Permuted(a[..], v) && (m == 1 ==> Sorted(a[..], if j <= n then j else n))
      decreases n - m - j
    {
      var i := j;
      while i > 0
        invariant i <= j && Permuted(a[..], v)
        invariant m == 1 ==> i >= 0 && SortedBut(a[..], j + 1, i + 1)
        invariant m == 1 ==> forall w :: i + 1 < w <= j + 1 ==> NotAfter(a[i + 1], a[w])
        decreases i
      {
        if !NotAfter(a[i + m], a[i]) {
          break;
        }
        SwapKeepsPermuted(a[..], v, i, i + m);
        ghost var was := a[..];
        a[i], a[i + m] := a[i + m], a[i];
        assert a[..] == was[i := was[i + m]][i + m := was[i]];
        i := i - m;
      }
      j := j + 1;
    }
  }

  lemma PermutedLength(t: seq<Line>, v: seq<int>)
    requires Permuted(t, v)
    ensures |t| == |v| + 2
  {
  }

  /** Shell's sort. */
  method Sort(a: array<Line>, ghost v: seq<int>, n: nat)
    requires n == |v| && Permuted(a[..], v)
    modifies a
    ensures Permuted(a[..], v) && Sorted(a[..], n)
  {
    hide Permuted;
    assert a.Length == n + 2 by { PermutedLength(a[..], v); }
    if n == 0 {
      return;
    }
    var m, j := 1, 1;
    while j <= n
      invariant j >= 1 && m >= 1 && (j == 1 || m == j - 1)
      decreases n - j
    {
      m := 2 * j - 1;
      j := 2 * j;
    }
    m := m / 2;
    while m != 0
      invariant m >= 0 && Permuted(a[..], v) && (m == 0 ==> Sorted(a[..], n))
    {
      GapPass(a, v, n, m);
      m := m / 2;
    }
  }

  /** The first j-1 lines have smaller values. */
  ghost predicate Below(t: seq<Line>, j: int, value: int) {
    j <= |t| && forall u :: 1 <= u < j ==> t[u].value < value
  }

  /** Cell j starts the class of value in the sorted table t of m lines; 0: there is none. */
  ghost predicate ClassStart(t: seq<Line>, m: nat, value: int, j: int) {
    && m < |t|
    && if j == 0 then forall u :: 1 <= u <= m ==> t[u].value != value
       else 1 <= j <= m && t[j].value == value && Below(t, j, value)
  }

  lemma NoClass(t: seq<Line>, m: nat, value: int, j: int)
    requires Sorted(t, m) && Below(t, j, value) && 1 <= j <= m + 1 && (j <= m ==> value < t[j].value)
    ensures ClassStart(t, m, value, 0)
  {
    forall u | j < u <= m ensures NotAfter(t[j], t[u]) {
    }
  }

  lemma BelowNext(t: seq<Line>, ta: seq<Line>, n: nat, i: int, j: int)
    requires Sorted(ta, n) && 1 <= i < n && Below(t, j, ta[i].value)
    ensures Below(t, j, ta[i + 1].value)
  {
    assert NotAfter(ta[i], ta[i + 1]);
  }

  /** The entry of member for cell j: its serial, flagged when j starts a class. */
  function Entry(t: seq<Line>, j: int): int
    requires 1 <= j < |t|
  {
    if j == 1 || t[j - 1].value != t[j].value then -t[j].serial else t[j].serial
  }

  /** What equiv leaves in member: the serials class by class. */
  ghost predicate MemberTable(t: seq<Line>, m: nat, c: seq<int>) {
    && m < |t| && |c| == m + 2 && c[m + 1] < 0
    && forall j :: 1 <= j <= m ==> c[j] == Entry(t, j)
  }

  /** Replace the value of each line of a by the index of its class in b; squeeze b into member. */
  method Equiv(a: array<Line>, n: nat, b: array<Line>, m: nat, c: array<int>)
    requires a != b && a.Length == n + 2 && b.Length == m + 2 == c.Length
    requires Sorted(a[..], n) && Sorted(b[..], m)
    requires forall j :: 1 <= j <= m ==> b[j].value != 0
    modifies a, b, c
    ensures forall i :: 1 <= i <= n ==> a[i].serial == old(a[i].serial)
    ensures forall i :: 1 <= i <= n ==> ClassStart(old(b[..]), m, old(a[i].value), a[i].value)
    ensures MemberTable(old(b[..]), m, c[..])
  {
    hide Sorted, ClassStart, Below, MemberTable;
    FindClasses(a, n, b, m);
    ghost var tb := b[..];
    b[m + 1] := b[m + 1].(value := 0);
    assert b[..] == tb[m + 1 := tb[m + 1].(value := 0)];
    Squeeze(b, tb, m, c);
  }

  method FindClasses(a: array<Line>, n: nat, b: array<Line>, m: nat)
    requires a != b && a.Length == n + 2 && b.Length == m + 2
    requires Sorted(a[..], n) && Sorted(b[..], m)
    modifies a
    ensures forall i :: 1 <= i <= n ==> a[i].serial == old(a[i].serial)
    ensures forall i :: 1 <= i <= n ==> ClassStart(b[..], m, old(a[i].value), a[i].value)
  {
    ghost var ta, tb := a[..], b[..];
    var i, j := 1, 1;
    assert Below(tb, 1, a[1].value);
    hide Sorted, ClassStart;
    while i <= n && j <= m
      invariant 1 <= i <= n + 1 && 1 <= j <= m + 1
      invariant forall u :: 1 <= u <= n ==> a[u].serial == ta[u].serial
      invariant forall u :: 1 <= u < i ==> ClassStart(tb, m, ta[u].value, a[u].value)
      invariant forall u :: i <= u <= n ==> a[u] == ta[u]
      invariant i <= n ==> Below(tb, j, ta[i].value)
      decreases n - i + m - j
    {
      if a[i].value <= b[j].value {
        if a[i].value < b[j].value {
          NoClass(tb, m, ta[i].value, j);
          a[i] := a[i].(value := 0);
        } else {
          assert ClassStart(tb, m, ta[i].value, j) by { ClassHere(tb, m, ta[i].value, j); }
          a[i] := a[i].(value := j);
        }
        if i < n {
          BelowNext(tb, ta, n, i, j);
        }
        i := i + 1;
      } else {
        j := j + 1;
      }
    }
    NoClasses(a, n, b, m, i, j, ta);
  }

  /** The lines behind the last new one. */
  method NoClasses(a: array<Line>, n: nat, b: array<Line>, m: nat, i0: int, ghost j: int, ghost ta: seq<Line>)
    requires a != b && a.Length == n + 2 == |ta| && b.Length == m + 2 && 1 <= i0 <= n + 1 && (i0 <= n ==> j == m + 1)
    requires Sorted(ta, n) && Sorted(b[..], m)
    requires forall u :: 1 <= u <= n ==> a[u].serial == ta[u].serial
    requires forall u :: 1 <= u < i0 ==> ClassStart(b[..], m, ta[u].value, a[u].value)
    requires i0 <= n ==> Below(b[..], j, ta[i0].value)
    modifies a
    ensures forall u :: 1 <= u <= n ==> a[u].serial == ta[u].serial && ClassStart(b[..], m, ta[u].value, a[u].value)
  {
    hide Sorted, ClassStart;
    ghost var tb := b[..];
    var i := i0;
    while i <= n
      invariant i0 <= i <= n + 1 && b[..] == tb
      invariant forall u :: 1 <= u <= n ==> a[u].serial == ta[u].serial
      invariant forall u :: 1 <= u < i ==> ClassStart(tb, m, ta[u].value, a[u].value)
      invariant i <= n ==> Below(tb, j, ta[i].value)
    {
      NoClass(tb, m, ta[i].value, j);
      if i < n {
        BelowNext(tb, ta, n, i, j);
      }
      a[i] := a[i].(value := 0);
      i := i + 1;
    }
  }

  lemma ClassHere(t: seq<Line>, m: nat, value: int, j: int)
    requires m < |t| && 1 <= j <= m && Below(t, j, value) && t[j].value == value
    ensures ClassStart(t, m, value, j)
  {
  }

  method Squeeze(b: array<Line>, ghost t: seq<Line>, m: nat, c: array<int>)
    requires b.Length == m + 2 == c.Length == |t| && b[m + 1].value == 0
    requires forall j :: 1 <= j <= m ==> b[j] == t[j] && t[j].value != 0
    modifies c
    ensures MemberTable(t, m, c[..])
  {
    var j := 1;
    while j <= m
      invariant 1 <= j <= m + 1 && (2 <= j <= m ==> t[j - 1].value != t[j].value)
      invariant forall u :: 1 <= u < j ==> c[u] == Entry(t, u)
    {
      c[j] := -b[j].serial;
      while b[j + 1].value == b[j].value
        invariant 1 <= j <= m
        invariant forall u :: 1 <= u <= j ==> c[u] == Entry(t, u)
        decreases m - j
      {
        j := j + 1;
        c[j] := b[j].serial;
      }
      j := j + 1;
    }
    c[j] := -1;
  }

  /** Put the class indices back into the order of the file. */
  method Unsort(f: array<Line>, l: nat, b: array<int>, ghost v: seq<int>, ghost t: seq<Line>)
    requires f.Length == l + 2 && l == |v| && b.Length > l && Permuted(t, v)
    requires forall i :: 1 <= i <= l ==> f[i].serial == t[i].serial
    modifies b
    ensures forall i :: 1 <= i <= l ==> 1 <= t[i].serial <= l && b[t[i].serial] == f[i].value
  {
    assert forall i :: 1 <= i <= l ==> IsLine(t[i], v);
    var a := new int[l + 1];
    for i := 1 to l + 1
      invariant forall u :: 1 <= u < i ==> a[t[u].serial] == f[u].value
    {
      a[f[i].serial] := f[i].value;
    }
    for i := 1 to l + 1
      invariant forall u :: 1 <= u <= l ==> a[t[u].serial] == f[u].value
      invariant forall u :: 1 <= u < i ==> b[u] == a[u]
    {
      b[i] := a[i];
    }
  }

  /** The length of the class that starts at cell j. */
  function ClassLength(t: seq<Line>, m: nat, j: nat): (r: nat)
    requires 1 <= j <= m && m < |t|
    ensures 1 <= r <= m + 1 - j
    ensures forall u :: j <= u < j + r ==> t[u].value == t[j].value
    ensures j + r <= m ==> t[j + r].value != t[j].value
    decreases m - j
  {
    if j < m && t[j + 1].value == t[j].value then 1 + ClassLength(t, m, j + 1) else 1
  }

  lemma CellOf(t: seq<Line>, v: seq<int>, s: nat) returns (i: nat)
    requires Permuted(t, v) && 1 <= s <= |v|
    ensures 1 <= i <= |v| && t[i] == Line(s, v[s - 1])
  {
    assert Listed(t, |v|, s);
    i :| 1 <= i <= |v| && t[i].serial == s;
    assert IsLine(t[i], v);
  }

  lemma AfterClass(t: seq<Line>, m: nat, j: nat, u: nat)
    requires Sorted(t, m) && 1 <= j <= m && j + ClassLength(t, m, j) <= u <= m
    ensures t[u].value > t[j].value
  {
    var e := j + ClassLength(t, m, j);
    assert t[e - 1].value == t[j].value && NotAfter(t[e - 1], t[e]);
    assert u == e || NotAfter(t[e], t[u]);
  }

  /** The class that starts at cell j holds every line of its value, in ascending order. */
  lemma ClassHolds(b: seq<int>, t: seq<Line>, value: int, j: nat, q: nat)
    requires Permuted(t, b) && Sorted(t, |b|) && 1 <= j && ClassStart(t, |b|, value, j)
    requires 1 <= q <= |b| && b[q - 1] == value
    ensures exists u :: j <= u < j + ClassLength(t, |b|, j) && t[u].serial == q
  {
    var u := CellOf(t, b, q);
    if u >= j + ClassLength(t, |b|, j) {
      AfterClass(t, |b|, j, u);
    }
  }

  lemma ClassEntries(b: seq<int>, t: seq<Line>, c: seq<int>, value: int, j: nat, u: nat)
    requires Permuted(t, b) && MemberTable(t, |b|, c) && 1 <= j && ClassStart(t, |b|, value, j)
    requires j <= u < j + ClassLength(t, |b|, j)
    ensures 1 <= t[u].serial <= |b| && b[t[u].serial - 1] == value
    ensures c[u] == if u == j then -t[u].serial else t[u].serial
  {
    assert IsLine(t[u], b) && c[u] == Entry(t, u);
  }

  lemma ClassEnds(b: seq<int>, t: seq<Line>, c: seq<int>, value: int, j: nat)
    requires Permuted(t, b) && MemberTable(t, |b|, c) && 1 <= j && ClassStart(t, |b|, value, j)
    ensures c[j + ClassLength(t, |b|, j)] < 0
  {
    var e := j + ClassLength(t, |b|, j);
    if e <= |b| {
      assert IsLine(t[e], b) && c[e] == Entry(t, e);
      assert t[e - 1].value == t[j].value;
    }
  }

  /** A class in member is the run that stone expects for a line with its value. */
  lemma ClassIsRun(a: seq<int>, b: seq<int>, t: seq<Line>, c: seq<int>, i: nat, j: nat)
    requires Permuted(t, b) && Sorted(t, |b|) && MemberTable(t, |b|, c)
    requires 1 <= i <= |a| && 1 <= j && ClassStart(t, |b|, a[i - 1], j)
    ensures Run(a, b, c, i, j, ClassLength(t, |b|, j))
  {
    var value, r := a[i - 1], ClassLength(t, |b|, j);
    forall u | j <= u < j + r ensures Serial(c[u]) == t[u].serial && Mates(a, b, i, Serial(c[u])) && (c[u] > 0 <==> u > j) {
      ClassEntries(b, t, c, value, j, u);
    }
    forall u, w | j <= u < w < j + r ensures Serial(c[u]) < Serial(c[w]) {
      assert NotAfter(t[u], t[w]);
    }
    ClassEnds(b, t, c, value, j);
    ClassEntries(b, t, c, value, j, j);
    forall q: nat | Mates(a, b, i, q) ensures exists u :: j <= u < j + r && Serial(c[u]) == q {
      ClassHolds(b, t, value, j, q);
      var u :| j <= u < j + r && t[u].serial == q;
      assert Serial(c[u]) == q;
    }
  }

  /** sort, equiv and unsort together: class leads every old line to its mates, in order. */
  lemma TablesFit(a: seq<int>, b: seq<int>, ta: seq<Line>, tb: seq<Line>, cls: seq<int>, c: seq<int>)
    requires Permuted(ta, a) && Permuted(tb, b) && Sorted(tb, |b|) && MemberTable(tb, |b|, c) && |cls| > |a|
    requires forall u :: 1 <= u <= |a| ==> 0 <= ta[u].serial < |cls| && ClassStart(tb, |b|, ta[u].value, cls[ta[u].serial])
    ensures ClassTable(a, b, cls, c)
  {
    forall i | 1 <= i <= |a| ensures ClassEntry(a, b, cls[i], c, i) {
      var u := CellOf(ta, a, i);
      if cls[i] != 0 {
        ClassIsRun(a, b, tb, c, i, cls[i]);
      } else {
        forall q: nat ensures !Mates(a, b, i, q) {
          if Mates(a, b, i, q) {
            var w := CellOf(tb, b, q);
          }
        }
      }
    }
  }
}
