/** Regular expressions of awk, and the positions (leaves) of an expression tree:
    what can come first, what can follow, and why that is all one needs to know. */
module AwkRe {

  const HAT := 127
  const NCHARS := 128

  /** The kinds of leaf, with the value or string they carry. */
  datatype Symbol = Char(c: int) | Dot | Ccl(chars: seq<int>) | Nccl(chars: seq<int>)

  /** The characters a leaf stands for.  HAT is kept for the beginning of a line, 0 ends strings. */
  predicate Accepts(s: Symbol, c: int) {
    && 1 <= c < NCHARS && c != HAT
    && match s
       case Char(k) => c == k
       case Dot => true
       case Ccl(chars) => c in chars
       case Nccl(chars) => c !in chars
  }

  /** An expression tree; leaves carry their index into the table of symbols. */
  datatype Re = Leaf(i: nat) | Cat(l: Re, r: Re) | Or(l: Re, r: Re) | Star(e: Re) | Plus(e: Re) | Quest(e: Re)

  /** The language of an expression. */
  ghost predicate Matches(re: Re, syms: seq<Symbol>, w: seq<int>)
    decreases re, |w|
  {
    match re
    case Leaf(i) => |w| == 1 && i < |syms| && Accepts(syms[i], w[0])
    case Cat(l, r) => exists k :: 0 <= k <= |w| && Matches(l, syms, w[..k]) && Matches(r, syms, w[k..])
    case Or(l, r) => Matches(l, syms, w) || Matches(r, syms, w)
    case Star(e) => w == [] || exists k :: 0 < k <= |w| && Matches(e, syms, w[..k]) && Matches(re, syms, w[k..])
    case Plus(e) => Matches(e, syms, w) || exists k :: 0 < k < |w| && Matches(e, syms, w[..k]) && Matches(re, syms, w[k..])
    case Quest(e) => w == [] || Matches(e, syms, w)
  }

  /** The sequences of leaves that an expression generates. */
  ghost predicate Gen(re: Re, p: seq<nat>)
    decreases re, |p|
  {
    match re
    case Leaf(i) => p == [i]
    case Cat(l, r) => exists k :: 0 <= k <= |p| && Gen(l, p[..k]) && Gen(r, p[k..])
    case Or(l, r) => Gen(l, p) || Gen(r, p)
    case Star(e) => p == [] || exists k :: 0 < k <= |p| && Gen(e, p[..k]) && Gen(re, p[k..])
    case Plus(e) => Gen(e, p) || exists k :: 0 < k < |p| && Gen(e, p[..k]) && Gen(re, p[k..])
    case Quest(e) => p == [] || Gen(e, p)
  }

  /** The leaves of p can stand for the characters of w. */
  ghost predicate Spells(syms: seq<Symbol>, p: seq<nat>, w: seq<int>) {
    |p| == |w| && forall j :: 0 <= j < |p| ==> p[j] < |syms| && Accepts(syms[p[j]], w[j])
  }

  function Size(re: Re): nat {
    match re
    case Leaf(_) => 1
    case Cat(l, r) => Size(l) + Size(r)
    case Or(l, r) => Size(l) + Size(r)
    case Star(e) => Size(e)
    case Plus(e) => Size(e)
    case Quest(e) => Size(e)
  }

  /** Leaves are numbered lo, lo+1, ... from left to right. */
  ghost predicate Numbered(re: Re, lo: nat) {
    match re
    case Leaf(i) => i == lo
    case Cat(l, r) => Numbered(l, lo) && Numbered(r, lo + Size(l))
    case Or(l, r) => Numbered(l, lo) && Numbered(r, lo + Size(l))
    case Star(e) => Numbered(e, lo)
    case Plus(e) => Numbered(e, lo)
    case Quest(e) => Numbered(e, lo)
  }

  predicate Nullable(re: Re) {
    match re
    case Leaf(_) => false
    case Cat(l, r) => Nullable(l) && Nullable(r)
    case Or(l, r) => Nullable(l) || Nullable(r)
    case Star(_) => true
    case Plus(e) => Nullable(e)
    case Quest(_) => true
  }

  /** The leaves that can come first. */
  ghost function First(re: Re): set<nat> {
    match re
    case Leaf(i) => {i}
    case Cat(l, r) => First(l) + (if Nullable(l) then First(r) else {})
    case Or(l, r) => First(l) + First(r)
    case Star(e) => First(e)
    case Plus(e) => First(e)
    case Quest(e) => First(e)
  }

  /** What can come after leaf i of re, when K is what can come after re. */
  ghost function Follow(re: Re, lo: nat, K: set<nat>, i: nat): set<nat>
    decreases re
  {
    match re
    case Leaf(_) => K
    case Cat(l, r) =>
      if i < lo + Size(l) then Follow(l, lo, First(r) + (if Nullable(r) then K else {}), i)
      else Follow(r, lo + Size(l), K, i)
    case Or(l, r) => if i < lo + Size(l) then Follow(l, lo, K, i) else Follow(r, lo + Size(l), K, i)
    case Star(e) => Follow(e, lo, First(e) + K, i)
    case Plus(e) => Follow(e, lo, First(e) + K, i)
    case Quest(e) => Follow(e, lo, K, i)
  }

  /** Leaf i can come last. */
  ghost predicate Last(re: Re, lo: nat, i: nat)
    decreases re
  {
    match re
    case Leaf(_) => true
    case Cat(l, r) =>
      if i < lo + Size(l) then Last(l, lo, i) && Nullable(r) else Last(r, lo + Size(l), i)
    case Or(l, r) => if i < lo + Size(l) then Last(l, lo, i) else Last(r, lo + Size(l), i)
    case Star(e) => Last(e, lo, i)
    case Plus(e) => Last(e, lo, i)
    case Quest(e) => Last(e, lo, i)
  }

  /** What follows a leaf: what follows it inside, and what comes after the whole if it can be last. */
  lemma {:induction false} FollowSplit(re: Re, lo: nat, K: set<nat>, i: nat)
    ensures Follow(re, lo, K, i) == Follow(re, lo, {}, i) + (if Last(re, lo, i) then K else {})
  {
    match re
    case Leaf(_) =>
    case Cat(l, r) =>
      if i < lo + Size(l) {
        var K' := if Nullable(r) then K else {};
        FollowSplit(l, lo, First(r) + K', i);
        FollowSplit(l, lo, First(r) + {}, i);
      } else {
        FollowSplit(r, lo + Size(l), K, i);
      }
    case Or(l, r) =>
      if i < lo + Size(l) {
        FollowSplit(l, lo, K, i);
      } else {
        FollowSplit(r, lo + Size(l), K, i);
      }
    case Star(e) =>
      FollowSplit(e, lo, First(e) + K, i);
      FollowSplit(e, lo, First(e) + {}, i);
    case Plus(e) =>
      FollowSplit(e, lo, First(e) + K, i);
      FollowSplit(e, lo, First(e) + {}, i);
    case Quest(e) =>
      FollowSplit(e, lo, K, i);
  }

  lemma {:induction false} FirstInside(re: Re, lo: nat)
    requires Numbered(re, lo)
    ensures Size(re) >= 1 && First(re) != {} && forall j :: j in First(re) ==> lo <= j < lo + Size(re)
  {
    match re
    case Leaf(_) =>
    case Cat(l, r) => FirstInside(l, lo); FirstInside(r, lo + Size(l));
    case Or(l, r) => FirstInside(l, lo); FirstInside(r, lo + Size(l));
    case Star(e) => FirstInside(e, lo);
    case Plus(e) => FirstInside(e, lo);
    case Quest(e) => FirstInside(e, lo);
  }

  lemma {:induction false} FollowInside(re: Re, lo: nat, K: set<nat>, i: nat)
    requires Numbered(re, lo)
    ensures forall j :: j in Follow(re, lo, K, i) ==> j in K || lo <= j < lo + Size(re)
  {
    match re
    case Leaf(_) =>
    case Cat(l, r) =>
      FirstInside(l, lo);
      FirstInside(r, lo + Size(l));
      if i < lo + Size(l) {
        FollowInside(l, lo, First(r) + (if Nullable(r) then K else {}), i);
      } else {
        FollowInside(r, lo + Size(l), K, i);
      }
    case Or(l, r) =>
      if i < lo + Size(l) {
        FollowInside(l, lo, K, i);
      } else {
        FollowInside(r, lo + Size(l), K, i);
      }
    case Star(e) => FirstInside(e, lo); FollowInside(e, lo, First(e) + K, i);
    case Plus(e) => FirstInside(e, lo); FollowInside(e, lo, First(e) + K, i);
    case Quest(e) => FollowInside(e, lo, K, i);
  }

  lemma {:induction false} GenInside(re: Re, lo: nat, p: seq<nat>)
    requires Numbered(re, lo) && Gen(re, p)
    ensures forall j :: 0 <= j < |p| ==> lo <= p[j] < lo + Size(re)
    ensures p == [] ==> Nullable(re)
    decreases re, |p|
  {
    match re
    case Leaf(_) =>
    case Cat(l, r) =>
      var k :| 0 <= k <= |p| && Gen(l, p[..k]) && Gen(r, p[k..]);
      GenInside(l, lo, p[..k]);
      GenInside(r, lo + Size(l), p[k..]);
      assert p == p[..k] + p[k..];
    case Or(l, r) =>
      if Gen(l, p) { GenInside(l, lo, p); } else { GenInside(r, lo + Size(l), p); }
    case Star(e) =>
      if p != [] {
        var k :| 0 < k <= |p| && Gen(e, p[..k]) && Gen(re, p[k..]);
        GenInside(e, lo, p[..k]);
        GenInside(re, lo, p[k..]);
        assert p == p[..k] + p[k..];
      }
    case Plus(e) =>
      if Gen(e, p) {
        GenInside(e, lo, p);
      } else {
        var k :| 0 < k < |p| && Gen(e, p[..k]) && Gen(re, p[k..]);
        GenInside(e, lo, p[..k]);
        GenInside(re, lo, p[k..]);
        assert p == p[..k] + p[k..];
      }
    case Quest(e) =>
      if p != [] { GenInside(e, lo, p); }
  }

  lemma {:induction false} NullableGen(re: Re)
    requires Nullable(re)
    ensures Gen(re, [])
  {
    match re
    case Cat(l, r) =>
      NullableGen(l);
      NullableGen(r);
      var p: seq<nat> := [];
      assert p[..0] == [] && p[0..] == [];
    case Or(l, r) => if Nullable(l) { NullableGen(l); } else { NullableGen(r); }
    case Star(e) =>
    case Plus(e) => NullableGen(e);
    case Quest(e) =>
  }
}
