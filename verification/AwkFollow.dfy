/** The tree of nodes with parent pointers, and the follow sets computed by walking it:
    penter, first, follow, notin, add and cfoll of awk's b.c. */
module AwkFollow {
  import opened AwkRe

  const MAXLIN := 256

  datatype Kind = KLeaf(sym: Symbol) | KFinal | KStar | KPlus | KQuest | KCat | KOr

  class Node {
    const kind: Kind
    const left: Node?
    const right: Node?
    var index: nat     // a leaf's number
    var parent: Node?

    constructor Op2(kind: Kind, left: Node?, right: Node?)
      ensures this.kind == kind && this.left == left && this.right == right
    {
      this.kind, this.left, this.right := kind, left, right;
      index, parent := 0, null;
    }
  }

  /** The nodes of a tree below FINAL, and the numbers its leaves are due to get. */
  datatype Shape = SLeaf(n: Node, i: nat) | SUn(n: Node, s: Shape) | SBin(n: Node, l: Shape, r: Shape)

  ghost function Nodes(s: Shape): set<Node> {
    match s
    case SLeaf(n, _) => {n}
    case SUn(n, e) => {n} + Nodes(e)
    case SBin(n, l, r) => {n} + Nodes(l) + Nodes(r)
  }

  /** The links from parent to child, and no node shared. */
  ghost predicate WellShaped(s: Shape) {
    match s
    case SLeaf(n, _) => n.kind.KLeaf?
    case SUn(n, e) =>
      n.kind in {KStar, KPlus, KQuest} && n.left == e.n && n !in Nodes(e) && WellShaped(e)
    case SBin(n, l, r) =>
      && n.kind in {KCat, KOr} && n.left == l.n && n.right == r.n
      && n !in Nodes(l) && n !in Nodes(r) && Nodes(l) !! Nodes(r) && WellShaped(l) && WellShaped(r)
  }

  /** The expression a tree stands for. */
  ghost function ReOf(s: Shape): Re {
    match s
    case SLeaf(_, i) => Leaf(i)
    case SUn(n, e) => if n.kind == KStar then Star(ReOf(e)) else if n.kind == KPlus then Plus(ReOf(e)) else Quest(ReOf(e))
    case SBin(n, l, r) => if n.kind == KCat then Cat(ReOf(l), ReOf(r)) else Or(ReOf(l), ReOf(r))
  }

  /** penter has been here: leaves are numbered and children know their parents. */
  ghost predicate Entered(s: Shape)
    reads Nodes(s)
  {
    match s
    case SLeaf(n, i) => n.index == i
    case SUn(n, e) => e.n in Nodes(e) && e.n.parent == n && Entered(e)
    case SBin(n, l, r) =>
      l.n in Nodes(l) && r.n in Nodes(r) && l.n.parent == n && r.n.parent == n && Entered(l) && Entered(r)
  }

  lemma RootIn(s: Shape)
    ensures s.n in Nodes(s)
  {
  }

  lemma {:induction false} NodesAllocated(s: Shape)
    ensures forall n :: n in Nodes(s) ==> allocated(n)
  {
    match s
    case SLeaf(_, _) =>
    case SUn(_, e) => NodesAllocated(e);
    case SBin(_, l, r) => NodesAllocated(l); NodesAllocated(r);
  }

  /** Links stay as they are when no node of the tree changes, except perhaps the root's parent. */
  twostate lemma {:induction false} EnteredKept(s: Shape)
    requires old(Entered(s)) && WellShaped(s) && (forall n :: n in Nodes(s) ==> old(allocated(n)) && n.index == old(n.index))
    requires forall n :: n in Nodes(s) && n != s.n ==> n.parent == old(n.parent)
    ensures Entered(s)
  {
    match s
    case SLeaf(_, _) => RootIn(s);
    case SUn(_, e) =>
      RootIn(e);
      EnteredKept(e);
    case SBin(_, l, r) =>
      RootIn(l);
      RootIn(r);
      EnteredKept(l);
      EnteredKept(r);
  }

  /** pt leads from each leaf's number to the leaf. */
  ghost predicate Pointed(s: Shape, pt: seq<Node?>) {
    match s
    case SLeaf(n, i) => i < |pt| && pt[i] == n
    case SUn(_, e) => Pointed(e, pt)
    case SBin(_, l, r) => Pointed(l, pt) && Pointed(r, pt)
  }

  lemma {:induction false} PointedKept(s: Shape, pt: seq<Node?>, pt': seq<Node?>, lo: nat)
    requires Numbered(ReOf(s), lo) && Pointed(s, pt) && |pt'| == |pt|
    requires forall i :: lo <= i < lo + Size(ReOf(s)) && i < |pt| ==> pt'[i] == pt[i]
    ensures Pointed(s, pt')
  {
    match s
    case SLeaf(_, _) =>
    case SUn(_, e) => PointedKept(e, pt, pt', lo);
    case SBin(_, l, r) =>
      PointedKept(l, pt, pt', lo);
      PointedKept(r, pt, pt', lo + Size(ReOf(l)));
  }

  /** The way from a subtree up to FINAL. */
  datatype Ctx = CTop(n: Node) | CUn(n: Node, up: Ctx) | CLeft(n: Node, r: Shape, up: Ctx) | CRight(n: Node, l: Shape, up: Ctx)

  ghost function CtxNodes(c: Ctx): set<Node> {
    match c
    case CTop(n) => {n}
    case CUn(n, up) => {n} + CtxNodes(up)
    case CLeft(n, r, up) => {n} + Nodes(r) + CtxNodes(up)
    case CRight(n, l, up) => {n} + Nodes(l) + CtxNodes(up)
  }

  /** The node above the subtree s in context c, as a tree. */
  ghost function Above(s: Shape, c: Ctx): Shape
    requires !c.CTop?
  {
    match c
    case CUn(n, _) => SUn(n, s)
    case CLeft(n, r, _) => SBin(n, s, r)
    case CRight(n, l, _) => SBin(n, l, s)
  }

  /** s hangs in c by its parent pointer. */
  ghost predicate Hangs(s: Shape, c: Ctx)
    reads {s.n} + CtxNodes(c)
    decreases c
  {
    && s.n.parent == c.n
    && if c.CTop? then c.n.kind == KFinal
       else
         && c.n.kind != KFinal && WellShaped(Above(s, c)) && Hangs(Above(s, c), c.up)
         && (c.CLeft? ==> Entered(c.r) && c.r.n in Nodes(c.r) && c.r.n.parent == c.n)
         && (c.CRight? ==> Entered(c.l) && c.l.n in Nodes(c.l) && c.l.n.parent == c.n)
  }

  /** What can come after the subtree re in context c. */
  ghost function Cont(re: Re, c: Ctx, line: nat): set<nat>
    decreases c
  {
    match c
    case CTop(_) => {line}
    case CUn(n, up) =>
      if n.kind == KStar then First(re) + Cont(Star(re), up, line)
      else if n.kind == KPlus then First(re) + Cont(Plus(re), up, line)
      else Cont(Quest(re), up, line)
    case CLeft(n, r, up) =>
      if n.kind == KCat then First(ReOf(r)) + (if Nullable(ReOf(r)) then Cont(Cat(re, ReOf(r)), up, line) else {})
      else Cont(Or(re, ReOf(r)), up, line)
    case CRight(n, l, up) =>
      if n.kind == KCat then Cont(Cat(ReOf(l), re), up, line) else Cont(Or(ReOf(l), re), up, line)
  }

  /** The leaves in the context are numbered within 0..line-1, like those of the subtree. */
  ghost predicate InLine(c: Ctx, line: nat) {
    match c
    case CTop(_) => true
    case CUn(_, up) => InLine(up, line)
    case CLeft(_, r, up) => LeavesBelow(r, line) && InLine(up, line)
    case CRight(_, l, up) => LeavesBelow(l, line) && InLine(up, line)
  }

  ghost predicate LeavesBelow(s: Shape, line: nat) {
    match s
    case SLeaf(_, i) => i < line
    case SUn(_, e) => LeavesBelow(e, line)
    case SBin(_, l, r) => LeavesBelow(l, line) && LeavesBelow(r, line)
  }

  /** The numbers 1..line that are marked. */
  ghost function Marked(v: seq<int>, line: nat): set<nat> {
    set i: nat | i <= line && IsMarked(v, i)
  }

  ghost predicate IsMarked(v: seq<int>, i: nat) {
    1 <= i < |v| && v[i] == 1
  }

  lemma MarkedStore(v: seq<int>, line: nat, i: nat)
    requires i <= line < |v| && (i >= 1 || v[0] == 1)
    ensures Marked(v[i := 1], line) == Marked(v, line) + ({i} - {0})
    ensures v[i] != 1 ==> |Marked(v[i := 1], line)| == |Marked(v, line)| + 1
  {
    hide Marked;
    var A, B := Marked(v[i := 1], line), Marked(v, line);
    if v[i] != 1 {
      MarkedHas(v, line, i);
      forall x: nat ensures x in A <==> x in B + {i} {
        MarkedHas(v[i := 1], line, x);
        MarkedHas(v, line, x);
      }
      assert A == B + {i};
    } else {
      MarkedHas(v, line, i);
      assert v[i := 1] == v;
    }
  }

  lemma MarkedHas(v: seq<int>, line: nat, x: nat)
    ensures x in Marked(v, line) <==> x <= line && IsMarked(v, x)
  {
  }

  /** A set of positions kept as an ascending list. */
  ghost predicate IsList(l: seq<nat>, M: set<nat>) {
    (forall i, j :: 0 <= i < j < |l| ==> l[i] < l[j]) && (forall x :: x in l <==> x in M)
  }

  lemma {:induction false} ListSize(l: seq<nat>, M: set<nat>)
    requires IsList(l, M)
    ensures |l| == |M|
    decreases |l|
  {
    if l != [] {
      var x, l' := l[|l| - 1], l[..|l| - 1];
      assert l == l' + [x] && x in l;
      assert forall y :: y in l' <==> y in M - {x};
      ListSize(l', M - {x});
    } else {
      assert M == {};
    }
  }

  lemma SameSize(A: set<nat>, B: set<nat>)
    requires A <= B && |A| == |B|
    ensures A == B
  {
    if x :| x in B && x !in A {
      var B' := B - {x};
      assert A <= B' && |B'| == |B| - 1;
      Smaller(A, B');
    }
  }

  lemma {:induction false} Smaller(A: set<nat>, B: set<nat>)
    requires A <= B
    ensures |A| <= |B|
  {
    assert B == A + (B - A);
  }

  class Sets {
    const foll: array<seq<nat>>
    const setvec: array<int>
    const point: array<Node?>
    var setcnt: int
    var line: nat

    constructor ()
      ensures fresh(foll) && fresh(setvec) && fresh(point)
      ensures foll.Length == setvec.Length == point.Length == MAXLIN && line == 0
    {
      foll := new seq<nat>[MAXLIN](_ => []);
      setvec := new int[MAXLIN](_ => 0);
      point := new Node?[MAXLIN](_ => null);
      setcnt, line := 0, 0;
    }

    /** setcnt counts the marked positions; position 0, the leading DOT, is never counted. */
    ghost predicate Counted()
      reads this, setvec
    {
      Tallied() && setvec[0] == 1
    }

    ghost predicate Tallied()
      reads this, setvec
    {
      line < setvec.Length == MAXLIN && setcnt == |Marked(setvec[..], line)|
    }

    method Mark(i: nat)
      requires Counted() && i <= line
      modifies this`setcnt, setvec
      ensures Counted() && Grown(old(Marked(setvec[..], line)), Marked(setvec[..], line), {i})
    {
      ghost var v := setvec[..];
      MarkedStore(v, line, i);
      if setvec[i] != 1 {
        setvec[i] := 1;
        setcnt := setcnt + 1;
        assert setvec[..] == v[i := 1];
      } else {
        assert v[i := 1] == v;
      }
    }

    /** Number the leaves from `line` on and set the parent pointers. */
    method PEnter(p: Node, ghost s: Shape)
      requires s.n == p && WellShaped(s) && Numbered(ReOf(s), line) && line + Size(ReOf(s)) <= point.Length
      modifies Nodes(s), point, this`line
      ensures Entered(s) && line == old(line) + Size(ReOf(s))
      ensures Pointed(s, point[..]) && point[..old(line)] == old(point[..line])
      decreases s, 1
    {
      if p.kind.KLeaf? {
        p.index := line;
        point[line] := p;
        line := line + 1;
      } else if p.kind == KCat || p.kind == KOr {
        EnterPair(p, s);
      } else {
        RootIn(s.s);
        PEnter(p.left, s.s);
        Adopt(p, s);
      }
    }

    /** Set the parent pointers of a node's children. */
    method Adopt(p: Node, ghost s: Shape)
      requires s.n == p && WellShaped(s) && !s.SLeaf?
      requires (s.SUn? ==> Entered(s.s)) && (s.SBin? ==> Entered(s.l) && Entered(s.r))
      modifies Nodes(s)
      ensures Entered(s)
    {
      NodesAllocated(s);
      if p.kind == KCat || p.kind == KOr {
        RootIn(s.l);
        RootIn(s.r);
        p.left.parent := p;
        p.right.parent := p;
        EnteredKept(s.l);
        EnteredKept(s.r);
      } else {
        RootIn(s.s);
        p.left.parent := p;
        EnteredKept(s.s);
      }
    }

    method EnterPair(p: Node, ghost s: Shape)
      requires s.n == p && s.SBin? && WellShaped(s) && Numbered(ReOf(s), line) && line + Size(ReOf(s)) <= point.Length
      modifies Nodes(s), point, this`line
      ensures Entered(s) && line == old(line) + Size(ReOf(s))
      ensures Pointed(s, point[..]) && point[..old(line)] == old(point[..line])
      decreases s, 0
    {
      hide Numbered, ReOf, Pointed, WellShaped, Entered, Nodes, Size;
      PairParts(s, line);
      ghost var lo := line;
      PEnter(p.left, s.l);
      EnterSecond(p.right, s.r, s.l, lo);
      Adopt(p, s);
      PointedPair(s, point[..]);
    }

    /** penter on a second child; the first stays entered. */
    method EnterSecond(p: Node, ghost r: Shape, ghost l: Shape, ghost lo: nat)
      requires r.n == p && WellShaped(r) && WellShaped(l) && Nodes(l) !! Nodes(r)
      requires Numbered(ReOf(r), line) && line + Size(ReOf(r)) <= point.Length
      requires Numbered(ReOf(l), lo) && lo + Size(ReOf(l)) == line && Entered(l) && Pointed(l, point[..])
      modifies Nodes(r), point, this`line
      ensures Entered(l) && Entered(r) && line == old(line) + Size(ReOf(r))
      ensures Pointed(l, point[..]) && Pointed(r, point[..]) && point[..old(line)] == old(point[..line])
      decreases r, 2
    {
      NodesAllocated(l);
      hide Numbered, ReOf, Pointed, WellShaped;
      ghost var pt := point[..];
      PEnter(p, r);
      EnteredKept(l);
      forall i | lo <= i < old(line) ensures point[i] == pt[i] {
        assert point[..old(line)][i] == pt[..old(line)][i];
      }
      PointedKept(l, pt, point[..], lo);
    }

    /** Mark the first leaves; 0 when the expression matches the empty string. */
    method First(p: Node, ghost s: Shape) returns (b: int)
      requires Counted() && s.n == p && WellShaped(s) && Entered(s) && LeavesBelow(s, line)
      modifies setvec, this`setcnt
      ensures Counted() && Grown(old(Marked(setvec[..], line)), Marked(setvec[..], line), AwkRe.First(ReOf(s)))
      ensures b == 0 <==> Nullable(ReOf(s))
      decreases s, 1
    {
      if p.kind.KLeaf? {
        Mark(p.index);
        b := 1;
      } else if p.kind == KCat || p.kind == KOr {
        b := FirstPair(p, s);
      } else {
        b := First(p.left, s.s);
        if p.kind != KPlus {
          b := 0;
        }
      }
    }

    method FirstPair(p: Node, ghost s: Shape) returns (b: int)
      requires Counted() && s.n == p && s.SBin? && WellShaped(s) && Entered(s) && LeavesBelow(s, line)
      modifies setvec, this`setcnt
      ensures Counted() && Grown(old(Marked(setvec[..], line)), Marked(setvec[..], line), AwkRe.First(ReOf(s)))
      ensures b == 0 <==> Nullable(ReOf(s))
      decreases s, 0
    {
      hide *;
      NodesAllocated(s);
      FirstOfPair(s, line);
      ghost var M0 := Marked(setvec[..], line);
      if p.kind == KCat {
        b := First(p.left, s.l);
        if b == 0 {
          ghost var M1 := Marked(setvec[..], line);
          b := First(p.right, s.r);
          GrownTwice(M0, M1, Marked(setvec[..], line), AwkRe.First(ReOf(s.l)), AwkRe.First(ReOf(s.r)));
        }
      } else {
        b := First(p.right, s.r);
        ghost var M1 := Marked(setvec[..], line);
        var b' := First(p.left, s.l);
        GrownTwice(M0, M1, Marked(setvec[..], line), AwkRe.First(ReOf(s.r)), AwkRe.First(ReOf(s.l)));
        if b' == 0 {
          b := 0;
        }
      }
    }

    /** Mark what can come after v. */
    method Follow(v: Node, ghost s: Shape, ghost c: Ctx)
      requires Counted() && s.n == v && WellShaped(s) && Entered(s) && LeavesBelow(s, line)
      requires Hangs(s, c) && InLine(c, line)
      modifies setvec, this`setcnt
      ensures Counted()
      ensures Grown(old(Marked(setvec[..], line)), Marked(setvec[..], line), Cont(ReOf(s), c, line))
      decreases c, 0
    {
      hide *;
      ClimbTop(s, c, line);
      if v.kind == KFinal {
        return;
      }
      var p := v.parent;
      if p.kind == KFinal {
        Mark(line);
        return;
      }
      NodesAllocated(s);
      CtxAllocated(c);
      ClimbOne(s, c, line);
      ContOne(s, c, line);
      ghost var up := Above(s, c);
      if p.kind == KStar || p.kind == KPlus {
        FirstThenFollow(v, s, true, p, up, c.up);
      } else if p.kind == KCat && v == p.left {
        FirstThenFollow(p.right, c.r, false, p, up, c.up);
      } else {
        Follow(p, up, c.up);
      }
    }

    /** Mark the first leaves of q, and what can come after p when `always` or when q may be empty. */
    method FirstThenFollow(q: Node, ghost qs: Shape, always: bool, p: Node, ghost s: Shape, ghost c: Ctx)
      requires Counted() && qs.n == q && WellShaped(qs) && Entered(qs) && LeavesBelow(qs, line)
      requires s.n == p && WellShaped(s) && Entered(s) && LeavesBelow(s, line) && Hangs(s, c) && InLine(c, line)
      modifies setvec, this`setcnt
      ensures Counted()
      ensures Grown(old(Marked(setvec[..], line)), Marked(setvec[..], line),
                    if always || Nullable(ReOf(qs)) then AwkRe.First(ReOf(qs)) + Cont(ReOf(s), c, line)
                    else AwkRe.First(ReOf(qs)))
      decreases c, 1
    {
      hide *;
      NodesAllocated(s);
      CtxAllocated(c);
      ghost var M0 := Marked(setvec[..], line);
      var b := First(q, qs);
      if always || b == 0 {
        ghost var M1 := Marked(setvec[..], line);
        Follow(p, s, c);
        GrownTwice(M0, M1, Marked(setvec[..], line), AwkRe.First(ReOf(qs)), Cont(ReOf(s), c, line));
      }
    }

    /** Is the set of marks among the lists arr[0..n]? */
    method NotIn(arr: seq<seq<nat>>, n: int) returns (absent: bool, prev: nat)
      requires Tallied() && -1 <= n < |arr| && forall t :: 0 <= t <= n ==> IsSorted(arr[t], line)
      ensures !absent ==> prev <= n && IsList(arr[prev], Marked(setvec[..], line))
      ensures absent ==> forall t :: 0 <= t <= n ==> !IsList(arr[t], Marked(setvec[..], line))
    {
      hide IsList, Marked;
      ghost var M := Marked(setvec[..], line);
      prev := 0;
      for i := 0 to n + 1
        invariant forall t :: 0 <= t < i ==> !IsList(arr[t], M)
      {
        var ptr := arr[i];
        var same := |ptr| == setcnt;
        if same {
          var j := 0;
          while j < setcnt && same
            invariant 0 <= j <= |ptr|
            invariant same ==> forall u :: 0 <= u < j ==> ptr[u] in M
            invariant !same ==> exists u :: 0 <= u < |ptr| && ptr[u] !in M
            decreases setcnt - j, same
          {
            assert ptr[j] in ptr;
            MarkedHas(setvec[..], line, ptr[j]);
            if setvec[ptr[j]] != 1 {
              same := false;
            } else {
              j := j + 1;
            }
          }
        }
        SameList(ptr, M, line);
        if same {
          return false, i;
        }
      }
      absent := true;
    }

    /** The marks as a list. */
    method Add(n: int) returns (l: seq<nat>)
      requires Tallied() && n == setcnt
      ensures IsList(l, Marked(setvec[..], line)) && IsSorted(l, line) && |l| == n
    {
      l := [];
      for i := 1 to line + 1
        invariant IsSorted(l, i - 1)
        invariant forall x: nat :: x in l <==> x < i && IsMarked(setvec[..], x)
      {
        if setvec[i] == 1 {
          assert forall u :: 0 <= u < |l| ==> l[u] in l;
          l := l + [i];
        }
      }
      ListSize(l, Marked(setvec[..], line));
    }

    /** Enter the follow set of each leaf below v into foll. */
    method CFoll(v: Node, ghost s: Shape, ghost c: Ctx, ghost lo: nat)
      requires s.n == v && WellShaped(s) && Entered(s) && Numbered(ReOf(s), lo) && LeavesBelow(s, line)
      requires Hangs(s, c) && InLine(c, line)
      requires Ready(lo) && lo + Size(ReOf(s)) <= line
      modifies setvec, this`setcnt, foll
      ensures Ready(lo + Size(ReOf(s))) && foll[..lo] == old(foll[..lo])
      ensures FollOk(foll[..], line, ReOf(s), lo, Cont(ReOf(s), c, line))
      decreases s, 1
    {
      if v.kind.KLeaf? {
        CFollLeaf(v, s, c);
      } else if v.kind == KCat || v.kind == KOr {
        CFollPair(v, s, c, lo);
      } else {
        hide *;
        Descend(s, c, line, lo);
        NodesAllocated(s);
        CFoll(v.left, s.s, CUn(v, c), lo);
        FollOne(foll[..], line, s, c, lo);
      }
    }

    /** foll[0..lo-1] hold lists, and position 0 does not count. */
    ghost predicate Ready(lo: nat)
      reads this, setvec, foll
    {
      && lo <= line < setvec.Length == foll.Length == MAXLIN && setvec[0] == 1
      && forall t :: 0 <= t < lo ==> IsSorted(foll[t], line)
    }

    method CFollPair(v: Node, ghost s: Shape, ghost c: Ctx, ghost lo: nat)
      requires s.n == v && s.SBin? && WellShaped(s) && Entered(s) && Numbered(ReOf(s), lo) && LeavesBelow(s, line)
      requires Hangs(s, c) && InLine(c, line)
      requires Ready(lo) && lo + Size(ReOf(s)) <= line
      modifies setvec, this`setcnt, foll
      ensures Ready(lo + Size(ReOf(s))) && foll[..lo] == old(foll[..lo])
      ensures FollOk(foll[..], line, ReOf(s), lo, Cont(ReOf(s), c, line))
      decreases s, 0
    {
      hide *;
      Descend(s, c, line, lo);
      NodesAllocated(s);
      CtxAllocated(CRight(v, s.l, c));
      ghost var lo' := lo + Size(ReOf(s.l));
      CFoll(v.left, s.l, CLeft(v, s.r, c), lo);
      ghost var fs := foll[..];
      CFoll(v.right, s.r, CRight(v, s.l, c), lo');
      FollKept(fs, foll[..], line, ReOf(s.l), lo, Cont(ReOf(s.l), CLeft(v, s.r, c), line));
      FollPair(foll[..], line, s, c, lo);
    }

    method CFollLeaf(v: Node, ghost s: Shape, ghost c: Ctx)
      requires s.SLeaf? && s.n == v && WellShaped(s) && Entered(s) && LeavesBelow(s, line)
      requires Hangs(s, c) && InLine(c, line) && Ready(s.i)
      modifies setvec, this`setcnt, foll
      ensures Ready(s.i + 1) && foll[..s.i] == old(foll[..s.i])
      ensures FollOk(foll[..], line, ReOf(s), s.i, Cont(ReOf(s), c, line))
    {
      hide IsSorted, IsList, Marked, Cont, Hangs, InLine, Grown;
      NodesAllocated(s);
      CtxAllocated(c);
      Clear();
      Follow(v, s, c);
      GrownFromNone(Marked(setvec[..], line), Cont(ReOf(s), c, line));
      var absent, prev := NotIn(foll[..], v.index - 1);
      ghost var fs := foll[..];
      if absent {
        var l := Add(setcnt);
        foll[v.index] := l;
      } else {
        foll[v.index] := foll[prev];
      }
      assert foll[..s.i] == fs[..s.i];
    }

    /** Unmark everything but position 0. */
    method Clear()
      requires line < setvec.Length == MAXLIN && setvec[0] == 1
      modifies setvec, this`setcnt
      ensures Counted() && Marked(setvec[..], line) == {}
    {
      setcnt := 0;
      for i := 1 to line + 1
        invariant setcnt == 0 && setvec[0] == 1 && forall t :: 1 <= t < i ==> setvec[t] == 0
      {
        setvec[i] := 0;
      }
      assert Marked(setvec[..], line) == {};
    }
  }

  lemma GrownFromNone(M: set<nat>, A: set<nat>)
    requires Grown({}, M, A)
    ensures M == A - {0}
  {
  }

  /** Each leaf of re has the list of what can follow it, apart from position 0. */
  ghost predicate FollOk(fs: seq<seq<nat>>, line: nat, re: Re, lo: nat, K: set<nat>) {
    && lo + Size(re) <= |fs|
    && forall i :: lo <= i < lo + Size(re) ==> IsList(fs[i], AwkRe.Follow(re, lo, K, i) - {0})
  }

  lemma FollKept(fs: seq<seq<nat>>, fs': seq<seq<nat>>, line: nat, re: Re, lo: nat, K: set<nat>)
    requires FollOk(fs, line, re, lo, K) && |fs'| == |fs| && fs'[..lo + Size(re)] == fs[..lo + Size(re)]
    ensures FollOk(fs', line, re, lo, K)
  {
    forall i | lo <= i < lo + Size(re) ensures fs'[i] == fs[i] {
      assert fs'[..lo + Size(re)][i] == fs[..lo + Size(re)][i];
    }
  }

  lemma FollOne(fs: seq<seq<nat>>, line: nat, s: Shape, c: Ctx, lo: nat)
    requires s.SUn? && WellShaped(s) && FollOk(fs, line, ReOf(s.s), lo, Cont(ReOf(s.s), CUn(s.n, c), line))
    ensures FollOk(fs, line, ReOf(s), lo, Cont(ReOf(s), c, line))
  {
  }

  lemma FollPair(fs: seq<seq<nat>>, line: nat, s: Shape, c: Ctx, lo: nat)
    requires s.SBin? && WellShaped(s)
    requires FollOk(fs, line, ReOf(s.l), lo, Cont(ReOf(s.l), CLeft(s.n, s.r, c), line))
    requires FollOk(fs, line, ReOf(s.r), lo + Size(ReOf(s.l)), Cont(ReOf(s.r), CRight(s.n, s.l, c), line))
    ensures FollOk(fs, line, ReOf(s), lo, Cont(ReOf(s), c, line))
  {
  }

  /** A child hangs in the context of its parent. */
  lemma Descend(s: Shape, c: Ctx, line: nat, lo: nat)
    requires !s.SLeaf? && WellShaped(s) && Entered(s) && Numbered(ReOf(s), lo) && LeavesBelow(s, line)
    requires Hangs(s, c) && InLine(c, line)
    ensures s.SUn? ==>
      && var e, c' := s.s, CUn(s.n, c);
      && s.n.left == e.n && WellShaped(e) && Entered(e) && Numbered(ReOf(e), lo) && LeavesBelow(e, line)
      && Hangs(e, c') && InLine(c', line) && Size(ReOf(s)) == Size(ReOf(e))
    ensures s.SBin? ==>
      && var l, c' := s.l, CLeft(s.n, s.r, c);
      && s.n.left == l.n && WellShaped(l) && Entered(l) && Numbered(ReOf(l), lo) && LeavesBelow(l, line)
      && Hangs(l, c') && InLine(c', line) && Nodes(l) <= Nodes(s)
    ensures s.SBin? ==>
      && var r, c' := s.r, CRight(s.n, s.l, c);
      && s.n.right == r.n && WellShaped(r) && Entered(r) && Numbered(ReOf(r), lo + Size(ReOf(s.l))) && LeavesBelow(r, line)
      && Hangs(r, c') && InLine(c', line) && Nodes(r) <= Nodes(s)
      && Size(ReOf(s)) == Size(ReOf(s.l)) + Size(ReOf(r))
  {
    if s.SUn? {
      RootIn(s.s);
    } else {
      RootIn(s.l);
      RootIn(s.r);
    }
  }

  /** An ascending list of numbers within 1..line. */
  ghost predicate IsSorted(l: seq<nat>, line: nat) {
    (forall i, j :: 0 <= i < j < |l| ==> l[i] < l[j]) && (forall x :: x in l ==> 1 <= x <= line)
  }

  /** Comparing sizes and looking for a stranger decides whether a list is the list of a set. */
  lemma SameList(l: seq<nat>, M: set<nat>, line: nat)
    requires IsSorted(l, line)
    ensures IsList(l, M) <==> |l| == |M| && forall u :: 0 <= u < |l| ==> l[u] in M
  {
    var E := set x | x in l;
    assert IsList(l, E);
    ListSize(l, E);
    if IsList(l, M) {
      ListSize(l, M);
    } else if |l| == |M| && forall u :: 0 <= u < |l| ==> l[u] in M {
      SameSize(E, M);
    }
  }

  /** The marks of A, but for position 0, came on top of M0. */
  ghost predicate Grown(M0: set<nat>, M1: set<nat>, A: set<nat>) {
    M1 == M0 + (A - {0})
  }

  lemma GrownTwice(M0: set<nat>, M1: set<nat>, M2: set<nat>, A: set<nat>, B: set<nat>)
    requires Grown(M0, M1, A) && Grown(M1, M2, B)
    ensures Grown(M0, M2, A + B) && Grown(M0, M2, B + A)
  {
  }

  lemma FirstOfPair(s: Shape, line: nat)
    requires s.SBin? && WellShaped(s) && Entered(s) && LeavesBelow(s, line)
    ensures WellShaped(s.l) && Entered(s.l) && LeavesBelow(s.l, line) && s.n.left == s.l.n
    ensures WellShaped(s.r) && Entered(s.r) && LeavesBelow(s.r, line) && s.n.right == s.r.n
    ensures Nodes(s.l) <= Nodes(s) && Nodes(s.r) <= Nodes(s) && (s.n.kind == KCat || s.n.kind == KOr)
    ensures s.n.kind == KCat ==>
      && (Nullable(ReOf(s)) <==> Nullable(ReOf(s.l)) && Nullable(ReOf(s.r)))
      && AwkRe.First(ReOf(s)) == if Nullable(ReOf(s.l)) then AwkRe.First(ReOf(s.l)) + AwkRe.First(ReOf(s.r)) else AwkRe.First(ReOf(s.l))
    ensures s.n.kind == KOr ==>
      && (Nullable(ReOf(s)) <==> Nullable(ReOf(s.l)) || Nullable(ReOf(s.r)))
      && AwkRe.First(ReOf(s)) == AwkRe.First(ReOf(s.l)) + AwkRe.First(ReOf(s.r))
  {
  }

  lemma {:induction false} CtxAllocated(c: Ctx)
    ensures forall n :: n in CtxNodes(c) ==> allocated(n)
  {
    match c
    case CTop(_) =>
    case CUn(_, up) => CtxAllocated(up);
    case CLeft(_, r, up) => NodesAllocated(r); CtxAllocated(up);
    case CRight(_, l, up) => NodesAllocated(l); CtxAllocated(up);
  }

  lemma ClimbTop(s: Shape, c: Ctx, line: nat)
    requires WellShaped(s) && Hangs(s, c)
    ensures s.n.kind != KFinal && s.n.parent == c.n
    ensures c.CTop? <==> c.n.kind == KFinal
    ensures c.CTop? ==> Cont(ReOf(s), c, line) == {line}
  {
  }

  /** The parent of a subtree hangs in the rest of its context. */
  lemma ClimbOne(s: Shape, c: Ctx, line: nat)
    requires WellShaped(s) && Entered(s) && LeavesBelow(s, line) && Hangs(s, c) && InLine(c, line) && !c.CTop?
    ensures s.n.parent == c.n == Above(s, c).n && WellShaped(Above(s, c)) && Entered(Above(s, c))
    ensures LeavesBelow(Above(s, c), line) && Hangs(Above(s, c), c.up) && InLine(c.up, line)
    ensures c.CLeft? ==> WellShaped(c.r) && Entered(c.r) && LeavesBelow(c.r, line) && c.n.right == c.r.n
    ensures c.CLeft? <==> (c.n.kind == KCat || c.n.kind == KOr) && s.n == c.n.left
    ensures c.n.kind in {KStar, KPlus, KQuest, KCat, KOr}
    ensures Nodes(Above(s, c)) <= Nodes(s) + CtxNodes(c) && CtxNodes(c.up) <= CtxNodes(c)
    ensures c.CLeft? ==> Nodes(c.r) <= CtxNodes(c)
  {
    RootIn(s);
    if c.CRight? { RootIn(c.l); }
  }

  lemma ContOne(s: Shape, c: Ctx, line: nat)
    requires WellShaped(s) && Hangs(s, c) && !c.CTop?
    ensures var K := Cont(ReOf(Above(s, c)), c.up, line);
      Cont(ReOf(s), c, line) ==
        if c.n.kind == KStar || c.n.kind == KPlus then AwkRe.First(ReOf(s)) + K
        else if c.n.kind == KCat && c.CLeft? then
          if Nullable(ReOf(c.r)) then AwkRe.First(ReOf(c.r)) + K else AwkRe.First(ReOf(c.r))
        else K
  {
  }

  lemma PairParts(s: Shape, lo: nat)
    requires s.SBin? && WellShaped(s) && Numbered(ReOf(s), lo)
    ensures WellShaped(s.l) && WellShaped(s.r) && s.n.left == s.l.n && s.n.right == s.r.n
    ensures Numbered(ReOf(s.l), lo) && Numbered(ReOf(s.r), lo + Size(ReOf(s.l)))
    ensures Size(ReOf(s)) == Size(ReOf(s.l)) + Size(ReOf(s.r))
    ensures Nodes(s.l) !! Nodes(s.r) && Nodes(s.l) <= Nodes(s) && Nodes(s.r) <= Nodes(s)
  {
  }

  lemma PointedPair(s: Shape, pt: seq<Node?>)
    requires s.SBin? && Pointed(s.l, pt) && Pointed(s.r, pt)
    ensures Pointed(s, pt)
  {
  }
}
