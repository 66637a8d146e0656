/** An expression generates exactly the leaf sequences that first, follow and last allow
    one step at a time. */
module AwkLocal {
  import opened AwkRe

  ghost predicate Inside(re: Re, lo: nat, p: seq<nat>) {
    forall j :: 0 <= j < |p| ==> lo <= p[j] < lo + Size(re)
  }

  /** p starts with a first leaf, every next leaf may follow the one before, and the last may be last. */
  ghost predicate Local(re: Re, lo: nat, p: seq<nat>) {
    && p != [] && Inside(re, lo, p) && p[0] in First(re) && Steps(re, lo, p)
    && Last(re, lo, p[|p| - 1])
  }

  ghost predicate Steps(re: Re, lo: nat, p: seq<nat>) {
    forall j :: 0 <= j < |p| - 1 ==> p[j + 1] in Follow(re, lo, {}, p[j])
  }

  lemma StepAt(re: Re, lo: nat, p: seq<nat>, j: nat)
    requires Steps(re, lo, p) && j + 1 < |p|
    ensures p[j + 1] in Follow(re, lo, {}, p[j])
  {
  }

  lemma StepsParts(re: Re, lo: nat, p: seq<nat>, k: nat)
    requires Steps(re, lo, p) && k <= |p|
    ensures Steps(re, lo, p[..k]) && Steps(re, lo, p[k..])
  {
    var v := p[k..];
    forall j | 0 <= j < |v| - 1 ensures v[j + 1] in Follow(re, lo, {}, v[j]) {
      StepAt(re, lo, p, k + j);
    }
  }

  /** Everything generated is local ... */
  lemma {:induction false} GenLocal(re: Re, lo: nat, p: seq<nat>)
    requires Numbered(re, lo) && Gen(re, p) && p != []
    ensures Local(re, lo, p)
    decreases re, |p|
  {
    match re
    case Leaf(_) =>
    case Cat(l, r) => GenLocalCat(re, lo, p);
    case Or(l, r) =>
      FirstInside(l, lo);
      if Gen(l, p) {
        GenLocal(l, lo, p);
      } else {
        GenLocal(r, lo + Size(l), p);
      }
    case Star(e) => GenLocalLoop(re, e, lo, p);
    case Plus(e) => GenLocalLoop(re, e, lo, p);
    case Quest(e) => GenLocal(e, lo, p);
  }

  lemma {:induction false} GenLocalCat(re: Re, lo: nat, p: seq<nat>)
    requires re.Cat? && Numbered(re, lo) && Gen(re, p) && p != []
    ensures Local(re, lo, p)
    decreases re, |p|, 0
  {
    var l, r := re.l, re.r;
    var k :| 0 <= k <= |p| && Gen(l, p[..k]) && Gen(r, p[k..]);
    var u, v := p[..k], p[k..];
    GenInside(l, lo, u);
    GenInside(r, lo + Size(l), v);
    if u != [] { GenLocal(l, lo, u); }
    if v != [] { GenLocal(r, lo + Size(l), v); }
    CatLocal(l, r, lo, u, v);
    assert p == u + v;
  }

  lemma CatLocal(l: Re, r: Re, lo: nat, u: seq<nat>, v: seq<nat>)
    requires Numbered(l, lo) && Numbered(r, lo + Size(l)) && u + v != []
    requires if u == [] then Nullable(l) else Local(l, lo, u)
    requires if v == [] then Nullable(r) else Local(r, lo + Size(l), v)
    ensures Local(Cat(l, r), lo, u + v)
  {
    var p := u + v;
    forall j | 0 <= j < |p| - 1 ensures p[j + 1] in Follow(Cat(l, r), lo, {}, p[j]) {
      if j < |u| {
        FollowSplit(l, lo, First(r) + {}, p[j]);
      }
    }
  }

  /** What a loop adds to its body: after a last leaf, a first leaf. */
  lemma LoopFollow(re: Re, e: Re, lo: nat, i: nat)
    requires re == Star(e) || re == Plus(e)
    ensures Follow(re, lo, {}, i) == Follow(e, lo, {}, i) + (if Last(e, lo, i) then First(e) else {})
  {
    FollowSplit(e, lo, First(e) + {}, i);
  }

  lemma {:induction false} GenLocalLoop(re: Re, e: Re, lo: nat, p: seq<nat>)
    requires (re == Star(e) || re == Plus(e)) && Numbered(re, lo) && Gen(re, p) && p != []
    ensures Local(re, lo, p)
    decreases re, |p|, 0
  {
    if re.Plus? && Gen(e, p) {
      GenLocal(e, lo, p);
      LoopOnce(re, e, lo, p);
    } else {
      var k :| 0 < k <= |p| && Gen(e, p[..k]) && Gen(re, p[k..]) && (re.Plus? ==> k < |p|);
      var u, v := p[..k], p[k..];
      GenLocal(e, lo, u);
      LoopOnce(re, e, lo, u);
      if v != [] {
        GenLocal(re, lo, v);
        LoopLocal(re, e, lo, u, v);
      }
      assert p == u + v;
    }
  }

  lemma LoopOnce(re: Re, e: Re, lo: nat, p: seq<nat>)
    requires (re == Star(e) || re == Plus(e)) && Local(e, lo, p)
    ensures Local(re, lo, p)
  {
    forall j | 0 <= j < |p| - 1 ensures p[j + 1] in Follow(re, lo, {}, p[j]) {
      LoopFollow(re, e, lo, p[j]);
    }
  }

  lemma LoopLocal(re: Re, e: Re, lo: nat, u: seq<nat>, v: seq<nat>)
    requires (re == Star(e) || re == Plus(e)) && Local(re, lo, u) && Local(re, lo, v)
    ensures Local(re, lo, u + v)
  {
    var p := u + v;
    LoopFollow(re, e, lo, u[|u| - 1]);
    forall j | 0 <= j < |p| - 1 ensures p[j + 1] in Follow(re, lo, {}, p[j]) {
      if j == |u| - 1 {
        assert p[j] == u[|u| - 1] && p[j + 1] == v[0];
      } else if j < |u| {
        assert p[j] == u[j] && p[j + 1] == u[j + 1];
      } else {
        assert p[j] == v[j - |u|] && p[j + 1] == v[j - |u| + 1];
      }
    }
  }

  /** ... and everything local is generated. */
  lemma {:induction false} LocalGen(re: Re, lo: nat, p: seq<nat>)
    requires Numbered(re, lo) && Local(re, lo, p)
    ensures Gen(re, p)
    decreases re, |p|, 1
  {
    match re
    case Leaf(i) =>
      if |p| > 1 {
        StepAt(re, lo, p, 0);
      }
    case Cat(l, r) => LocalGenCat(re, lo, p);
    case Or(l, r) => LocalGenOr(re, lo, p);
    case Star(e) => LocalGenLoop(re, e, lo, p);
    case Plus(e) => LocalGenLoop(re, e, lo, p);
    case Quest(e) => LocalGen(e, lo, p);
  }

  lemma {:induction false} LocalGenOr(re: Re, lo: nat, p: seq<nat>)
    requires re.Or? && Numbered(re, lo) && Local(re, lo, p)
    ensures Gen(re, p)
    decreases re, |p|, 0
  {
    var l, r := re.l, re.r;
    FirstInside(l, lo);
    FirstInside(r, lo + Size(l));
    if p[0] in First(l) {
      StaysInside(re, l, lo, lo, p);
      LocalGen(l, lo, p);
    } else {
      StaysInside(re, r, lo, lo + Size(l), p);
      LocalGen(r, lo + Size(l), p);
    }
  }

  /** Once inside sub, whose leaves are followed only from inside it, p stays there. */
  lemma {:induction false} StaysInside(re: Re, sub: Re, lo: nat, lo': nat, p: seq<nat>)
    requires Numbered(sub, lo') && p != [] && Steps(re, lo, p) && lo' <= p[0] < lo' + Size(sub)
    requires forall i :: lo' <= i < lo' + Size(sub) ==> Follow(re, lo, {}, i) == Follow(sub, lo', {}, i)
    ensures Inside(sub, lo', p) && Steps(sub, lo', p)
    decreases |p|
  {
    if |p| > 1 {
      var q := p[..|p| - 1];
      StepsParts(re, lo, p, |p| - 1);
      StaysInside(re, sub, lo, lo', q);
      var j := |p| - 2;
      StepAt(re, lo, p, j);
      assert q[j] == p[j];
      FollowInside(sub, lo', {}, p[j]);
    }
  }

  /** The first k leaves are l's, the others r's. */
  ghost predicate SplitAt(l: Re, r: Re, lo: nat, p: seq<nat>, k: nat) {
    && k <= |p|
    && (forall j :: 0 <= j < k ==> lo <= p[j] < lo + Size(l))
    && (forall j :: k <= j < |p| ==> lo + Size(l) <= p[j] < lo + Size(l) + Size(r))
  }

  /** The leaves of a concatenation: first some of l, then some of r. */
  lemma {:induction false} CatSplit(re: Re, lo: nat, p: seq<nat>) returns (k: nat)
    requires re.Cat? && Numbered(re, lo) && p != [] && Inside(re, lo, p) && Steps(re, lo, p)
    ensures k <= |p| && SplitAt(re.l, re.r, lo, p, k)
    decreases |p|
  {
    var l, r := re.l, re.r;
    if p[0] >= lo + Size(l) {
      k := 0;
      StaysInside(re, r, lo, lo + Size(l), p);
    } else if |p| == 1 {
      k := 1;
    } else {
      var v := p[1..];
      StepsParts(re, lo, p, 1);
      k := CatSplit(re, lo, v);
      assert forall j :: 1 <= j < |p| ==> p[j] == v[j - 1];
      k := k + 1;
    }
  }

  lemma {:induction false} LocalGenCat(re: Re, lo: nat, p: seq<nat>)
    requires re.Cat? && Numbered(re, lo) && Local(re, lo, p)
    ensures Gen(re, p)
    decreases re, |p|, 0
  {
    var l, r := re.l, re.r;
    var k := CatSplit(re, lo, p);
    var u, v := p[..k], p[k..];
    CatParts(l, r, lo, p, k);
    if u != [] { LocalGen(l, lo, u); } else { NullableGen(l); }
    if v != [] { LocalGen(r, lo + Size(l), v); } else { NullableGen(r); }
  }

  lemma CatLeftSteps(l: Re, r: Re, lo: nat, p: seq<nat>, k: nat)
    requires Numbered(Cat(l, r), lo) && Steps(Cat(l, r), lo, p) && k <= |p|
    requires forall j :: 0 <= j < k ==> lo <= p[j] < lo + Size(l)
    ensures Steps(l, lo, p[..k])
  {
    FirstInside(r, lo + Size(l));
    var u := p[..k];
    forall j | 0 <= j < |u| - 1 ensures u[j + 1] in Follow(l, lo, {}, u[j]) {
      StepAt(Cat(l, r), lo, p, j);
      FollowSplit(l, lo, First(r) + {}, p[j]);
    }
  }

  lemma CatRightSteps(l: Re, r: Re, lo: nat, p: seq<nat>, k: nat)
    requires Steps(Cat(l, r), lo, p) && k <= |p|
    requires forall j :: k <= j < |p| ==> lo + Size(l) <= p[j]
    ensures Steps(r, lo + Size(l), p[k..])
  {
    var v := p[k..];
    forall j | 0 <= j < |v| - 1 ensures v[j + 1] in Follow(r, lo + Size(l), {}, v[j]) {
      StepAt(Cat(l, r), lo, p, k + j);
    }
  }

  lemma CatCrossing(l: Re, r: Re, lo: nat, p: seq<nat>, k: nat)
    requires Numbered(Cat(l, r), lo) && Steps(Cat(l, r), lo, p) && 0 < k < |p|
    requires lo <= p[k - 1] < lo + Size(l) <= p[k]
    ensures Last(l, lo, p[k - 1]) && p[k] in First(r)
  {
    StepAt(Cat(l, r), lo, p, k - 1);
    FollowSplit(l, lo, First(r) + {}, p[k - 1]);
    FollowInside(l, lo, {}, p[k - 1]);
  }

  lemma CatParts(l: Re, r: Re, lo: nat, p: seq<nat>, k: nat)
    requires Numbered(Cat(l, r), lo) && Local(Cat(l, r), lo, p) && SplitAt(l, r, lo, p, k)
    ensures if k == 0 then Nullable(l) else Local(l, lo, p[..k])
    ensures if k == |p| then Nullable(r) else Local(r, lo + Size(l), p[k..])
  {
    FirstInside(l, lo);
    FirstInside(r, lo + Size(l));
    CatLeftSteps(l, r, lo, p, k);
    CatRightSteps(l, r, lo, p, k);
    hide Steps;
    assert p[0] in First(l) || (Nullable(l) && p[0] in First(r));
    if 0 < k < |p| {
      CatCrossing(l, r, lo, p, k);
    }
  }

  /** The length of the first round of a loop. */
  ghost function Round(e: Re, lo: nat, p: seq<nat>): (k: nat)
    requires p != []
    ensures 1 <= k <= |p|
    ensures forall j :: 0 <= j < k - 1 ==> p[j + 1] in Follow(e, lo, {}, p[j])
    ensures k < |p| ==> p[k] !in Follow(e, lo, {}, p[k - 1])
  {
    if |p| > 1 && p[1] in Follow(e, lo, {}, p[0]) then
      var k := Round(e, lo, p[1..]);
      assert forall j :: 0 < j < k ==> p[j + 1] == p[1..][j] && p[j] == p[1..][j - 1];
      1 + k
    else 1
  }

  lemma {:induction false} LocalGenLoop(re: Re, e: Re, lo: nat, p: seq<nat>)
    requires (re == Star(e) || re == Plus(e)) && Numbered(re, lo) && p != [] && Local(re, lo, p)
    ensures Gen(re, p)
    decreases re, |p|, 0
  {
    hide Local;
    var k := Round(e, lo, p);
    var u, v := p[..k], p[k..];
    LoopParts(re, e, lo, p, k);
    LocalGen(e, lo, u);
    if k == |p| {
      assert u == p && v == [];
      assert Gen(Star(e), v);
    } else {
      LocalGen(re, lo, v);
    }
  }

  lemma RoundEnds(re: Re, e: Re, lo: nat, p: seq<nat>, k: nat)
    requires (re == Star(e) || re == Plus(e)) && p != [] && Local(re, lo, p) && k == Round(e, lo, p)
    ensures Last(e, lo, p[k - 1]) && (k < |p| ==> p[k] in First(re))
  {
    hide Follow;
    LoopFollow(re, e, lo, p[k - 1]);
    if k < |p| {
      StepAt(re, lo, p, k - 1);
    }
  }

  lemma LoopParts(re: Re, e: Re, lo: nat, p: seq<nat>, k: nat)
    requires (re == Star(e) || re == Plus(e)) && p != [] && Local(re, lo, p) && k == Round(e, lo, p)
    ensures Local(e, lo, p[..k]) && (k < |p| ==> Local(re, lo, p[k..]))
  {
    RoundEnds(re, e, lo, p, k);
    StepsParts(re, lo, p, k);
    assert Steps(e, lo, p[..k]);
    hide Follow, Steps;
  }

  /** What an expression generates, one step at a time. */
  lemma {:induction false} GenIffLocal(re: Re, lo: nat, p: seq<nat>)
    requires Numbered(re, lo)
    ensures Gen(re, p) <==> if p == [] then Nullable(re) else Local(re, lo, p)
  {
    if p == [] {
      if Nullable(re) { NullableGen(re); }
      if Gen(re, p) { GenInside(re, lo, p); }
    } else {
      if Gen(re, p) { GenLocal(re, lo, p); }
      if Local(re, lo, p) { LocalGen(re, lo, p); }
    }
  }
}
