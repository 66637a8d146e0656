/** Reading a text with the positions of an expression: which positions are active, and when
    the text read so far ends in a word of the language. */
module AwkRuns {
  import opened AwkRe
  import opened AwkLocal

  /** A generated leaf sequence spells words of the language ... */
  lemma {:induction false} GenMatches(re: Re, syms: seq<Symbol>, p: seq<nat>, w: seq<int>)
    requires Gen(re, p) && Spells(syms, p, w)
    ensures Matches(re, syms, w)
    decreases re, |p|
  {
    match re
    case Leaf(_) =>
    case Cat(l, r) =>
      var k :| 0 <= k <= |p| && Gen(l, p[..k]) && Gen(r, p[k..]);
      GenMatches(l, syms, p[..k], w[..k]);
      GenMatches(r, syms, p[k..], w[k..]);
    case Or(l, r) =>
      if Gen(l, p) { GenMatches(l, syms, p, w); } else { GenMatches(r, syms, p, w); }
    case Star(e) =>
      if p != [] {
        var k :| 0 < k <= |p| && Gen(e, p[..k]) && Gen(re, p[k..]);
        GenMatches(e, syms, p[..k], w[..k]);
        GenMatches(re, syms, p[k..], w[k..]);
      }
    case Plus(e) =>
      if Gen(e, p) {
        GenMatches(e, syms, p, w);
      } else {
        var k :| 0 < k < |p| && Gen(e, p[..k]) && Gen(re, p[k..]);
        GenMatches(e, syms, p[..k], w[..k]);
        GenMatches(re, syms, p[k..], w[k..]);
      }
    case Quest(e) =>
      if p != [] { GenMatches(e, syms, p, w); }
  }

  lemma Joined(syms: seq<Symbol>, u: seq<nat>, v: seq<nat>, w: seq<int>, k: nat)
    requires k <= |w| && Spells(syms, u, w[..k]) && Spells(syms, v, w[k..])
    ensures Spells(syms, u + v, w) && (u + v)[..k] == u && (u + v)[k..] == v
  {
  }

  /** ... and every word of the language is spelt by one. */
  lemma {:induction false} MatchesGen(re: Re, syms: seq<Symbol>, w: seq<int>) returns (p: seq<nat>)
    requires Matches(re, syms, w)
    ensures Gen(re, p) && Spells(syms, p, w)
    decreases re, |w|
  {
    match re
    case Leaf(i) => p := [i];
    case Cat(l, r) =>
      var k :| 0 <= k <= |w| && Matches(l, syms, w[..k]) && Matches(r, syms, w[k..]);
      var u := MatchesGen(l, syms, w[..k]);
      var v := MatchesGen(r, syms, w[k..]);
      Joined(syms, u, v, w, k);
      p := u + v;
    case Or(l, r) =>
      if Matches(l, syms, w) { p := MatchesGen(l, syms, w); } else { p := MatchesGen(r, syms, w); }
    case Star(e) =>
      p := [];
      if w != [] {
        var k :| 0 < k <= |w| && Matches(e, syms, w[..k]) && Matches(re, syms, w[k..]);
        p := MatchesGenLoop(re, e, syms, w, k);
      }
    case Plus(e) =>
      if Matches(e, syms, w) {
        p := MatchesGen(e, syms, w);
      } else {
        var k :| 0 < k < |w| && Matches(e, syms, w[..k]) && Matches(re, syms, w[k..]);
        p := MatchesGenLoop(re, e, syms, w, k);
      }
    case Quest(e) =>
      p := [];
      if w != [] { p := MatchesGen(e, syms, w); }
  }

  lemma {:induction false} MatchesGenLoop(re: Re, e: Re, syms: seq<Symbol>, w: seq<int>, k: nat) returns (p: seq<nat>)
    requires (re == Star(e) && 0 < k <= |w|) || (re == Plus(e) && 0 < k < |w|)
    requires Matches(e, syms, w[..k]) && Matches(re, syms, w[k..])
    ensures Gen(re, p) && Spells(syms, p, w)
    decreases re, |w|, 0
  {
    var u := MatchesGen(e, syms, w[..k]);
    var v := MatchesGen(re, syms, w[k..]);
    Joined(syms, u, v, w, k);
    p := u + v;
  }

  /** The final marker: one more than the number of the last leaf, when leaf 0 is set aside. */
  function Line(re: Re): nat {
    Size(re) + 1
  }

  /** Where a match may start. */
  ghost function Init(re: Re): set<nat> {
    First(re) + (if Nullable(re) then {Line(re)} else {})
  }

  /** Where a match may go on after leaf q. */
  ghost function After(re: Re, q: nat): set<nat> {
    Follow(re, 1, {Line(re)}, q)
  }

  /** The positions reached from those in S by reading c. */
  ghost function Move(re: Re, syms: seq<Symbol>, S: set<nat>, c: int): set<nat>
    requires |syms| == Line(re)
  {
    set q, j | q in S && q < Line(re) && Accepts(syms[q], c) && j in After(re, q) :: j
  }

  /** The positions active after w; a match may start anywhere. */
  ghost function Active(re: Re, syms: seq<Symbol>, w: seq<int>): set<nat>
    requires |syms| == Line(re)
  {
    if w == [] then Init(re)
    else Init(re) + Move(re, syms, Active(re, syms, w[..|w| - 1]), w[|w| - 1])
  }

  /** p is a way through the leaves that spells the last |p| characters of w and may go on at j. */
  ghost predicate Way(re: Re, syms: seq<Symbol>, w: seq<int>, p: seq<nat>, j: nat) {
    && p != [] && |p| <= |w| && Inside(re, 1, p) && p[0] in First(re) && Steps(re, 1, p)
    && Spells(syms, p, w[|w| - |p|..]) && j in After(re, p[|p| - 1])
  }

  /** A new leaf is inside, or the final marker. */
  lemma AfterInside(re: Re, q: nat, j: nat)
    requires Numbered(re, 1) && j in After(re, q)
    ensures 1 <= j <= Line(re)
    ensures j < Line(re) ==> j in Follow(re, 1, {}, q)
    ensures j == Line(re) ==> Last(re, 1, q)
  {
    FollowInside(re, 1, {Line(re)}, q);
    FollowSplit(re, 1, {Line(re)}, q);
    FollowInside(re, 1, {}, q);
  }

  lemma AfterHas(re: Re, q: nat, j: nat)
    ensures j in Follow(re, 1, {}, q) ==> j in After(re, q)
    ensures Last(re, 1, q) ==> Line(re) in After(re, q)
  {
    FollowSplit(re, 1, {Line(re)}, q);
  }

  lemma ActiveInside(re: Re, syms: seq<Symbol>, w: seq<int>, j: nat)
    requires Numbered(re, 1) && |syms| == Line(re) && j in Active(re, syms, w)
    ensures 1 <= j <= Line(re)
  {
    FirstInside(re, 1);
    if w != [] && j !in Init(re) {
      var q: nat :| q < Line(re) && j in After(re, q);
      AfterInside(re, q, j);
    }
  }

  lemma {:induction false} WayExtends(re: Re, syms: seq<Symbol>, w: seq<int>, p: seq<nat>, q: nat, c: int, j: nat)
    requires Numbered(re, 1) && |syms| == Line(re) && 1 <= q < Line(re) && Accepts(syms[q], c) && j in After(re, q)
    requires if p == [] then q in First(re) else Way(re, syms, w, p, q)
    ensures Way(re, syms, w + [c], p + [q], j)
  {
    var p', w' := p + [q], w + [c];
    if p != [] {
      AfterInside(re, p[|p| - 1], q);
      forall t | 0 <= t < |p'| - 1 ensures p'[t + 1] in Follow(re, 1, {}, p'[t]) {
        if t < |p| - 1 {
          StepAt(re, 1, p, t);
        }
      }
      assert w'[|w'| - |p'|..] == w[|w| - |p|..] + [c];
    } else {
      assert w'[|w'| - 1..] == [c];
    }
  }

  lemma MoveSource(re: Re, syms: seq<Symbol>, S: set<nat>, c: int, j: nat) returns (q: nat)
    requires |syms| == Line(re) && j in Move(re, syms, S, c)
    ensures q in S && q < Line(re) && Accepts(syms[q], c) && j in After(re, q)
  {
    q :| q in S && q < Line(re) && Accepts(syms[q], c) && j in After(re, q);
  }

  /** An active position is initial or at the end of a way. */
  lemma {:induction false} ActiveWay(re: Re, syms: seq<Symbol>, w: seq<int>, j: nat) returns (p: seq<nat>)
    requires Numbered(re, 1) && |syms| == Line(re) && j in Active(re, syms, w)
    ensures if p == [] then j in Init(re) else Way(re, syms, w, p, j)
    decreases |w|
  {
    p := [];
    if j !in Init(re) {
      var v, c := w[..|w| - 1], w[|w| - 1];
      var q := MoveSource(re, syms, Active(re, syms, v), c, j);
      hide Way, Move, Init, After;
      ActiveInside(re, syms, v, q);
      p := ActiveWay(re, syms, v, q);
      WayExtends(re, syms, v, p, q, c, j);
      assert v + [c] == w;
      p := p + [q];
    }
  }

  lemma {:induction false} WayParts(re: Re, syms: seq<Symbol>, w: seq<int>, p: seq<nat>, j: nat)
    requires Way(re, syms, w, p, j)
    ensures var q, p', w' := p[|p| - 1], p[..|p| - 1], w[..|w| - 1];
            && 1 <= q < Line(re) && q < |syms| && Accepts(syms[q], w[|w| - 1]) && j in After(re, q)
            && (p' == [] ==> q in First(re)) && (p' != [] ==> Way(re, syms, w', p', q))
  {
    var q, p', w' := p[|p| - 1], p[..|p| - 1], w[..|w| - 1];
    var t := w[|w| - |p|..];
    assert t[|p| - 1] == w[|w| - 1];
    if p' != [] {
      StepsParts(re, 1, p, |p| - 1);
      StepAt(re, 1, p, |p| - 2);
      AfterHas(re, p[|p| - 2], q);
      assert w'[|w'| - |p'|..] == t[..|p| - 1];
    }
  }

  /** The end of every way is active. */
  lemma {:induction false} WayActive(re: Re, syms: seq<Symbol>, w: seq<int>, p: seq<nat>, j: nat)
    requires Numbered(re, 1) && |syms| == Line(re) && Way(re, syms, w, p, j)
    ensures j in Active(re, syms, w)
    decreases |p|
  {
    WayParts(re, syms, w, p, j);
    var q, p', w' := p[|p| - 1], p[..|p| - 1], w[..|w| - 1];
    if p' == [] {
      InitActive(re, syms, w', q);
    } else {
      WayActive(re, syms, w', p', q);
    }
    assert q in Active(re, syms, w');
    assert j in Move(re, syms, Active(re, syms, w'), w[|w| - 1]);
  }

  lemma InitActive(re: Re, syms: seq<Symbol>, w: seq<int>, j: nat)
    requires |syms| == Line(re) && j in Init(re)
    ensures j in Active(re, syms, w)
  {
  }

  /** The final marker is active exactly when the text read ends in a word of the language. */
  lemma FinalIffSuffix(re: Re, syms: seq<Symbol>, w: seq<int>)
    requires Numbered(re, 1) && |syms| == Line(re)
    ensures Line(re) in Active(re, syms, w) <==> exists k :: 0 <= k <= |w| && Matches(re, syms, w[k..])
  {
    FirstInside(re, 1);
    if Line(re) in Active(re, syms, w) {
      var p := ActiveWay(re, syms, w, Line(re));
      var k := |w| - |p|;
      if p == [] {
        NullableGen(re);
      } else {
        AfterInside(re, p[|p| - 1], Line(re));
        LocalGen(re, 1, p);
      }
      GenMatches(re, syms, p, w[k..]);
    }
    if k :| 0 <= k <= |w| && Matches(re, syms, w[k..]) {
      var p := MatchesGen(re, syms, w[k..]);
      GenIffLocal(re, 1, p);
      if p == [] {
        InitActive(re, syms, w, Line(re));
      } else {
        AfterHas(re, p[|p| - 1], 0);
        assert |p| == |w[k..]| && w[|w| - |p|..] == w[k..];
        WayActive(re, syms, w, p, Line(re));
      }
    }
  }
}
