/** The follow sets are exact: j is in the set of leaf i just when some leaf sequence that the
    tree generates has i immediately followed by j, or ends in i when j is the final marker. */
module AwkExact {
  import opened AwkRe
  import opened AwkLocal
  import opened AwkRuns

  lemma GenCat(l: Re, r: Re, u: seq<nat>, v: seq<nat>)
    requires Gen(l, u) && Gen(r, v)
    ensures Gen(Cat(l, r), u + v)
  {
    var p := u + v;
    assert p[..|u|] == u && p[|u|..] == v;
  }

  lemma GenOnce(re: Re, e: Re, u: seq<nat>)
    requires (re == Star(e) || re == Plus(e) || re == Quest(e)) && Gen(e, u)
    ensures Gen(re, u)
  {
    if re == Star(e) && u != [] {
      assert u[..|u|] == u && u[|u|..] == [];
      assert Gen(re, []);
    }
  }

  lemma GenTwice(re: Re, e: Re, u: seq<nat>, v: seq<nat>)
    requires (re == Star(e) || re == Plus(e)) && Gen(e, u) && Gen(e, v) && u != [] && v != []
    ensures Gen(re, u + v)
  {
    GenOnce(re, e, v);
    var p := u + v;
    assert p[..|u|] == u && p[|u|..] == v;
  }

  /** Every expression generates something. */
  lemma {:induction false} SomeGen(re: Re) returns (p: seq<nat>)
    ensures Gen(re, p)
  {
    match re
    case Leaf(i) => p := [i];
    case Cat(l, r) =>
      var u := SomeGen(l);
      var v := SomeGen(r);
      GenCat(l, r, u, v);
      p := u + v;
    case Or(l, r) => p := SomeGen(l);
    case Star(e) => p := [];
    case Plus(e) => p := SomeGen(e);
    case Quest(e) => p := [];
  }

  /** A first leaf does come first in something generated. */
  lemma {:induction false} FirstGen(re: Re, j: nat) returns (v: seq<nat>)
    requires j in First(re)
    ensures Gen(re, [j] + v)
  {
    match re
    case Leaf(_) =>
      v := [];
      assert [j] + v == [j];
    case Cat(l, r) =>
      if j in First(l) {
        var x := FirstGen(l, j);
        var y := SomeGen(r);
        GenCat(l, r, [j] + x, y);
        v := x + y;
        assert [j] + v == ([j] + x) + y;
      } else {
        v := FirstGen(r, j);
        NullableGen(l);
        GenCat(l, r, [], [j] + v);
        assert [] + ([j] + v) == [j] + v;
      }
    case Or(l, r) => if j in First(l) { v := FirstGen(l, j); } else { v := FirstGen(r, j); }
    case Star(e) => v := FirstGen(e, j); GenOnce(re, e, [j] + v);
    case Plus(e) => v := FirstGen(e, j);
    case Quest(e) => v := FirstGen(e, j);
  }

  /** A last leaf does come last. */
  lemma {:induction false} LastGen(re: Re, lo: nat, i: nat) returns (u: seq<nat>)
    requires Numbered(re, lo) && lo <= i < lo + Size(re) && Last(re, lo, i)
    ensures Gen(re, u + [i])
  {
    match re
    case Leaf(_) =>
      u := [];
      assert u + [i] == [i];
    case Cat(l, r) =>
      if i < lo + Size(l) {
        u := LastGen(l, lo, i);
        NullableGen(r);
        GenCat(l, r, u + [i], []);
        assert (u + [i]) + [] == u + [i];
      } else {
        var x := SomeGen(l);
        var y := LastGen(r, lo + Size(l), i);
        GenCat(l, r, x, y + [i]);
        u := x + y;
        assert u + [i] == x + (y + [i]);
      }
    case Or(l, r) =>
      if i < lo + Size(l) { u := LastGen(l, lo, i); } else { u := LastGen(r, lo + Size(l), i); }
    case Star(e) => u := LastGen(e, lo, i); GenOnce(re, e, u + [i]);
    case Plus(e) => u := LastGen(e, lo, i);
    case Quest(e) => u := LastGen(e, lo, i);
  }

  /** A leaf that may follow does follow. */
  lemma {:induction false} FollowGen(re: Re, lo: nat, i: nat, j: nat) returns (u: seq<nat>, v: seq<nat>)
    requires Numbered(re, lo) && lo <= i < lo + Size(re) && j in Follow(re, lo, {}, i)
    ensures Gen(re, u + [i, j] + v)
    decreases re
  {
    match re
    case Cat(l, r) => u, v := FollowGenCat(l, r, lo, i, j);
    case Or(l, r) =>
      if i < lo + Size(l) { u, v := FollowGen(l, lo, i, j); } else { u, v := FollowGen(r, lo + Size(l), i, j); }
    case Star(e) => u, v := FollowGenLoop(re, e, lo, i, j);
    case Plus(e) => u, v := FollowGenLoop(re, e, lo, i, j);
    case Quest(e) => u, v := FollowGen(e, lo, i, j);
  }

  lemma {:induction false} FollowGenCat(l: Re, r: Re, lo: nat, i: nat, j: nat) returns (u: seq<nat>, v: seq<nat>)
    requires Numbered(Cat(l, r), lo) && lo <= i < lo + Size(l) + Size(r) && j in Follow(Cat(l, r), lo, {}, i)
    ensures Gen(Cat(l, r), u + [i, j] + v)
    decreases Cat(l, r), 0
  {
    hide Gen, First, Last;
    if i >= lo + Size(l) {
      var x := SomeGen(l);
      var y;
      y, v := FollowGen(r, lo + Size(l), i, j);
      GenCat(l, r, x, y + [i, j] + v);
      u := x + y;
      assert u + [i, j] + v == x + (y + [i, j] + v);
    } else {
      FollowSplit(l, lo, First(r) + {}, i);
      if j in Follow(l, lo, {}, i) {
        var y;
        u, y := FollowGen(l, lo, i, j);
        var z := SomeGen(r);
        GenCat(l, r, u + [i, j] + y, z);
        v := y + z;
        assert u + [i, j] + v == (u + [i, j] + y) + z;
      } else {
        u := LastGen(l, lo, i);
        v := FirstGen(r, j);
        GenCat(l, r, u + [i], [j] + v);
        assert u + [i, j] + v == (u + [i]) + ([j] + v);
      }
    }
  }

  lemma {:induction false} FollowGenLoop(re: Re, e: Re, lo: nat, i: nat, j: nat) returns (u: seq<nat>, v: seq<nat>)
    requires re == Star(e) || re == Plus(e)
    requires Numbered(re, lo) && lo <= i < lo + Size(e) && j in Follow(re, lo, {}, i)
    ensures Gen(re, u + [i, j] + v)
    decreases re, 0
  {
    LoopFollow(re, e, lo, i);
    if j in Follow(e, lo, {}, i) {
      u, v := FollowGen(e, lo, i, j);
      GenOnce(re, e, u + [i, j] + v);
    } else {
      u := LastGen(e, lo, i);
      v := FirstGen(e, j);
      GenTwice(re, e, u + [i], [j] + v);
      assert u + [i, j] + v == (u + [i]) + ([j] + v);
    }
  }

  /** Some generated leaf sequence has i immediately followed by j. */
  ghost predicate Adjacent(re: Re, i: nat, j: nat) {
    exists u: seq<nat>, v: seq<nat> :: Gen(re, u + [i, j] + v)
  }

  /** Some generated leaf sequence ends in i. */
  ghost predicate CanEnd(re: Re, i: nat) {
    exists u: seq<nat> :: Gen(re, u + [i])
  }

  /** The set that cfoll enters for leaf i, member by member. */
  lemma FollowExact(re: Re, i: nat, j: nat)
    requires Numbered(re, 1) && 1 <= i <= Size(re)
    ensures j in After(re, i) <==> if j == Line(re) then CanEnd(re, i) else Adjacent(re, i, j)
  {
    FollowInside(re, 1, {}, i);
    FollowSplit(re, 1, {Line(re)}, i);
    if j == Line(re) {
      if Last(re, 1, i) {
        var u := LastGen(re, 1, i);
      }
      if u: seq<nat> :| Gen(re, u + [i]) {
        GenLocal(re, 1, u + [i]);
      }
    } else {
      if j in Follow(re, 1, {}, i) {
        var u, v := FollowGen(re, 1, i, j);
      }
      if u: seq<nat>, v: seq<nat> :| Gen(re, u + [i, j] + v) {
        var p := u + [i, j] + v;
        GenLocal(re, 1, p);
        StepAt(re, 1, p, |u|);
        assert p[|u|] == i && p[|u| + 1] == j;
      }
    }
  }

  /** The set of leaf 0, the DOT in front: where a match may start, and the marker when it may be empty. */
  lemma InitExact(re: Re, j: nat)
    requires Numbered(re, 1)
    ensures j in Init(re) <==> if j == Line(re) then Gen(re, []) else exists v: seq<nat> :: Gen(re, [j] + v)
  {
    FirstInside(re, 1);
    if Nullable(re) { NullableGen(re); }
    if Gen(re, []) { GenInside(re, 1, []); }
    if j in First(re) {
      var v := FirstGen(re, j);
    }
    if v: seq<nat> :| Gen(re, [j] + v) {
      GenLocal(re, 1, [j] + v);
    }
  }
}
