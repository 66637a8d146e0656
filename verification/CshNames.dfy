/** The order of the shell's variable names, and sequences of entries in that order. */
module CshNames {
  import opened CshTree

  // ---- the order of names ----

  function First(a: Name): nat { if a == [] then 0 else a[0] }

  /** strcmp */
  function Cmp(a: Name, b: Name): int
    decreases |a| + |b|
  {
    if First(a) != First(b) || (a == [] && b == []) then First(a) - First(b)
    else Cmp(if a == [] then a else a[1..], if b == [] then b else b[1..])
  }

  /** A C string. */
  predicate Word(a: Name) { 0 !in a }

  lemma {:induction false} CmpEqual(a: Name, b: Name)
    requires Word(a) && Word(b)
    ensures Cmp(a, b) == 0 <==> a == b
    decreases |a|
  {
    if a != [] && b != [] && a[0] == b[0] {
      CmpEqual(a[1..], b[1..]);
      assert a == [a[0]] + a[1..] && b == [b[0]] + b[1..];
    }
  }

  lemma {:induction false} CmpMirror(a: Name, b: Name)
    requires Word(a) && Word(b)
    ensures Cmp(b, a) == -Cmp(a, b)
    decreases |a|
  {
    if a != [] && b != [] && a[0] == b[0] {
      CmpMirror(a[1..], b[1..]);
    }
  }

  lemma {:induction false} CmpLess(a: Name, b: Name, c: Name)
    requires Word(a) && Word(b) && Word(c) && Cmp(a, b) < 0 && Cmp(b, c) < 0
    ensures Cmp(a, c) < 0
    decreases |a|
  {
    if a != [] && b != [] && c != [] && a[0] == b[0] == c[0] {
      CmpLess(a[1..], b[1..], c[1..]);
    }
  }

  ghost predicate Sorted(s: seq<Entry>) {
    && (forall i :: 0 <= i < |s| ==> Word(s[i].name))
    && (forall i, j :: 0 <= i < j < |s| ==> Cmp(s[i].name, s[j].name) < 0)
  }

  /** The entries are exactly the variables. */
  ghost predicate Holds(s: seq<Entry>, vars: map<Name, Vec>) {
    && (forall e :: e in s ==> e.name in vars && vars[e.name] == e.vec)
    && (forall n :: n in vars ==> Entry(n, vars[n]) in s)
  }

  /** The name lies between the entries. */
  ghost predicate Between(a: seq<Entry>, name: Name, b: seq<Entry>) {
    && Word(name)
    && (forall i :: 0 <= i < |a| ==> Cmp(a[i].name, name) < 0)
    && (forall i :: 0 <= i < |b| ==> Cmp(name, b[i].name) < 0)
  }

  lemma SortedParts(a: seq<Entry>, b: seq<Entry>)
    requires Sorted(a + b)
    ensures Sorted(a) && Sorted(b) && forall i, j :: 0 <= i < |a| && 0 <= j < |b| ==> Cmp(a[i].name, b[j].name) < 0
  {
    var s := a + b;
    assert forall i :: 0 <= i < |a| ==> s[i] == a[i];
    assert forall j :: 0 <= j < |b| ==> s[|a| + j] == b[j];
  }

  lemma SortedJoin(a: seq<Entry>, b: seq<Entry>)
    requires Sorted(a) && Sorted(b) && forall i, j :: 0 <= i < |a| && 0 <= j < |b| ==> Cmp(a[i].name, b[j].name) < 0
    ensures Sorted(a + b)
  {
  }

  lemma InsertedSorted(a: seq<Entry>, b: seq<Entry>, e: Entry)
    requires Sorted(a + b) && Between(a, e.name, b)
    ensures Sorted(a + [e] + b)
  {
    SortedParts(a, b);
    SortedJoin([e], b);
    SortedJoin(a, [e] + b);
    assert a + [e] + b == a + ([e] + b);
  }

  lemma SortedBetween(a: seq<Entry>, b: seq<Entry>, e: Entry)
    requires Sorted(a + [e] + b)
    ensures Sorted(a + b) && Between(a, e.name, b)
  {
    assert a + [e] + b == a + ([e] + b);
    SortedParts(a, [e] + b);
    SortedParts([e], b);
    assert ([e] + b)[0] == e;
    forall i, j | 0 <= i < |a| && 0 <= j < |b| ensures Cmp(a[i].name, b[j].name) < 0 {
      assert ([e] + b)[j + 1] == b[j];
    }
    SortedJoin(a, b);
  }

  lemma BetweenOther(a: seq<Entry>, b: seq<Entry>, name: Name, f: Entry)
    requires Sorted(a + b) && Between(a, name, b) && f in a + b
    ensures f.name != name
  {
    SortedParts(a, b);
    CmpEqual(f.name, name);
    CmpEqual(name, f.name);
  }

  lemma InsertedHolds(a: seq<Entry>, b: seq<Entry>, e: Entry, vars: map<Name, Vec>)
    requires Sorted(a + b) && Holds(a + b, vars) && Between(a, e.name, b)
    ensures Sorted(a + [e] + b) && Holds(a + [e] + b, vars[e.name := e.vec]) && e.name !in vars
  {
    InsertedSorted(a, b, e);
    forall f | f in a + b ensures f.name != e.name {
      BetweenOther(a, b, e.name, f);
    }
  }

  lemma RemovedHolds(a: seq<Entry>, b: seq<Entry>, e: Entry, vars: map<Name, Vec>)
    requires Sorted(a + [e] + b) && Holds(a + [e] + b, vars)
    ensures Sorted(a + b) && Holds(a + b, vars - {e.name})
  {
    SortedBetween(a, b, e);
    forall f | f in a + b ensures f.name != e.name {
      BetweenOther(a, b, e.name, f);
    }
  }

  lemma ReplacedHolds(a: seq<Entry>, b: seq<Entry>, e: Entry, vec: Vec, vars: map<Name, Vec>)
    requires Sorted(a + [e] + b) && Holds(a + [e] + b, vars)
    ensures Sorted(a + [e.(vec := vec)] + b) && Holds(a + [e.(vec := vec)] + b, vars[e.name := vec])
  {
    RemovedHolds(a, b, e, vars);
    SortedBetween(a, b, e);
    InsertedHolds(a, b, e.(vec := vec), vars - {e.name});
    assert (vars - {e.name})[e.name := vec] == vars[e.name := vec];
  }
}
