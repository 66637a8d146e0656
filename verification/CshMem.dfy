/** Trees in memory: links, parent links, and the rotation macros of sh.set.c. */
module CshMem {
  import opened CshTree

  /** The tree lies in memory under the node up. */
  ghost predicate Rep(m: Mem, t: Tree, up: Ptr) {
    match t
    case Leaf => true
    case Node(p, e, bal, l, r) =>
      && HEAD < p < |m| && m[p] == Varent(e.name, e.vec, Root(l), Root(r), up, bal)
      && Rep(m, l, p) && Rep(m, r, p)
  }

  /** The way up lies in memory; the place at its end holds a link to the node hole. */
  ghost predicate RepCtx(m: Mem, c: Ctx, hole: Ptr) {
    match c
    case Top => HEAD < |m| && m[HEAD].v_left == hole && m[HEAD].v_right == 0 && m[HEAD].v_parent == 0
    case Left(p, e, bal, r, c') =>
      && HEAD < p < |m| && m[p] == Varent(e.name, e.vec, hole, Root(r), Up(c'), bal)
      && Rep(m, r, p) && RepCtx(m, c', p)
    case Right(p, e, bal, l, c') =>
      && HEAD < p < |m| && m[p] == Varent(e.name, e.vec, Root(l), hole, Up(c'), bal)
      && Rep(m, l, p) && RepCtx(m, c', p)
  }

  /** A subtree and the way up from it. */
  ghost predicate At(m: Mem, c: Ctx, t: Tree) {
    && Rep(m, t, Up(c)) && RepCtx(m, c, Root(t))
    && Apart(t) && ApartCtx(c) && Ptrs(t) !! CtxPtrs(c)
  }

  ghost predicate SameOn(m: Mem, m': Mem, s: set<Ptr>) {
    |m| <= |m'| && forall z :: z in s && z < |m| ==> m'[z] == m[z]
  }

  lemma {:induction false} RepFrame(m: Mem, m': Mem, t: Tree, up: Ptr)
    requires Rep(m, t, up) && SameOn(m, m', Ptrs(t))
    ensures Rep(m', t, up)
  {
    if t.Node? {
      RepFrame(m, m', t.l, t.p);
      RepFrame(m, m', t.r, t.p);
    }
  }

  lemma {:induction false} CtxFrame(m: Mem, m': Mem, c: Ctx, hole: Ptr)
    requires RepCtx(m, c, hole) && SameOn(m, m', CtxPtrs(c) + {HEAD})
    ensures RepCtx(m', c, hole)
    decreases c
  {
    match c
    case Top =>
    case Left(p, e, bal, r, c') =>
      RepFrame(m, m', r, p);
      CtxFrame(m, m', c', p);
    case Right(p, e, bal, l, c') =>
      RepFrame(m, m', l, p);
      CtxFrame(m, m', c', p);
  }

  lemma {:induction false} RepBounds(m: Mem, t: Tree, up: Ptr)
    requires Rep(m, t, up)
    ensures forall z :: z in Ptrs(t) ==> HEAD < z < |m|
    ensures t.Node? <==> Root(t) != 0
  {
    if t.Node? {
      RepBounds(m, t.l, t.p);
      RepBounds(m, t.r, t.p);
    }
  }

  /** Another parent for a whole subtree. */
  function Reparent(m: Mem, p: Ptr, up: Ptr): Mem {
    if 0 < p < |m| then m[p := m[p].(v_parent := up)] else m
  }

  lemma RepReparent(m: Mem, t: Tree, up: Ptr, up': Ptr)
    requires Rep(m, t, up) && Apart(t)
    ensures Rep(Reparent(m, Root(t), up'), t, up')
  {
    var m' := Reparent(m, Root(t), up');
    if t.Node? {
      RepFrame(m, m', t.l, t.p);
      RepFrame(m, m', t.r, t.p);
    }
  }

  // ---- the rotation macros ----

  /** rleft(p): memory afterwards; the new top is what was the right child of p. */
  function RLeft(m: Mem, p: Ptr): Mem
    requires p < |m| && m[p].v_right < |m| && m[m[p].v_right].v_left < |m|
  {
    var t := m[p].v_right;
    var m1 := m[t := m[t].(v_parent := m[p].v_parent)];
    var m2 := m1[p := m1[p].(v_right := m1[t].v_left)];
    var m3 := if m2[p].v_right != 0 then m2[m2[p].v_right := m2[m2[p].v_right].(v_parent := p)] else m2;
    var m4 := m3[t := m3[t].(v_left := p)];
    m4[p := m4[p].(v_parent := t)]
  }

  function RRight(m: Mem, p: Ptr): Mem
    requires p < |m| && m[p].v_left < |m| && m[m[p].v_left].v_right < |m|
  {
    var t := m[p].v_left;
    var m1 := m[t := m[t].(v_parent := m[p].v_parent)];
    var m2 := m1[p := m1[p].(v_left := m1[t].v_right)];
    var m3 := if m2[p].v_left != 0 then m2[m2[p].v_left := m2[m2[p].v_left].(v_parent := p)] else m2;
    var m4 := m3[t := m3[t].(v_right := p)];
    m4[p := m4[p].(v_parent := t)]
  }

  lemma RLeftIs(m: Mem, p: Ptr, q: Ptr, x: Ptr)
    requires p < |m| && q < |m| && x < |m| && p != q && x != p && x != q && m[p].v_right == q && m[q].v_left == x
    ensures |RLeft(m, p)| == |m|
    ensures RLeft(m, p)[q] == m[q].(v_parent := m[p].v_parent, v_left := p)
    ensures RLeft(m, p)[p] == m[p].(v_right := x, v_parent := q)
    ensures x != 0 ==> RLeft(m, p)[x] == m[x].(v_parent := p)
    ensures forall z :: 0 <= z < |m| && z != p && z != q && (z != x || x == 0) ==> RLeft(m, p)[z] == m[z]
  {
  }

  lemma RRightIs(m: Mem, p: Ptr, q: Ptr, y: Ptr)
    requires p < |m| && q < |m| && y < |m| && p != q && y != p && y != q && m[p].v_left == q && m[q].v_right == y
    ensures |RRight(m, p)| == |m|
    ensures RRight(m, p)[q] == m[q].(v_parent := m[p].v_parent, v_right := p)
    ensures RRight(m, p)[p] == m[p].(v_left := y, v_parent := q)
    ensures y != 0 ==> RRight(m, p)[y] == m[y].(v_parent := p)
    ensures forall z :: 0 <= z < |m| && z != p && z != q && (z != y || y == 0) ==> RRight(m, p)[z] == m[z]
  {
  }

  /** The nodes that rleft changes. */
  lemma RLeftAt(m: Mem, t: Tree, up: Ptr)
    requires Rep(m, t, up) && Apart(t) && t.Node? && t.r.Node?
    ensures m[t.p].v_right < |m| && m[m[t.p].v_right].v_left < |m|
    ensures var m', p, q, x := RLeft(m, t.p), t.p, t.r.p, t.r.l;
            && |m'| == |m| && p < |m| && q < |m|
            && m'[q] == m[q].(v_parent := up, v_left := p)
            && m'[p] == m[p].(v_right := Root(x), v_parent := q)
            && SameOn(Reparent(m, Root(x), p), m', Ptrs(x) + Ptrs(t.l) + Ptrs(t.r.r))
            && (forall z :: 0 <= z < |m| && z !in Ptrs(t) ==> m'[z] == m[z])
  {
    hide Inorder, RLeft;
    var x := t.r.l;
    RepBounds(m, t, up);
    RepBounds(m, t.r, t.p);
    RepBounds(m, x, t.r.p);
    assert x.Node? ==> Root(x) in Ptrs(x);
    RLeftIs(m, t.p, t.r.p, Root(x));
  }

  lemma RLeftRep(m: Mem, t: Tree, up: Ptr)
    requires Rep(m, t, up) && Apart(t) && t.Node? && t.r.Node?
    ensures m[t.p].v_right < |m| && m[m[t.p].v_right].v_left < |m|
    ensures Rep(RLeft(m, t.p), RotL(t), up)
    ensures |RLeft(m, t.p)| == |m| && forall z :: 0 <= z < |m| && z !in Ptrs(t) ==> RLeft(m, t.p)[z] == m[z]
  {
    hide Inorder, RLeft;
    var p, q, l, x, y := t.p, t.r.p, t.l, t.r.l, t.r.r;
    RLeftAt(m, t, up);
    RepReparent(m, x, q, p);
    var m1, m' := Reparent(m, Root(x), p), RLeft(m, p);
    RepFrame(m1, m', x, p);
    assert x.Node? ==> Root(x) in Ptrs(x);
    RepFrame(m, m1, l, p);
    RepFrame(m1, m', l, p);
    RepFrame(m, m1, y, q);
    RepFrame(m1, m', y, q);
  }

  lemma RRightAt(m: Mem, t: Tree, up: Ptr)
    requires Rep(m, t, up) && Apart(t) && t.Node? && t.l.Node?
    ensures m[t.p].v_left < |m| && m[m[t.p].v_left].v_right < |m|
    ensures var m', p, q, y := RRight(m, t.p), t.p, t.l.p, t.l.r;
            && |m'| == |m| && p < |m| && q < |m|
            && m'[q] == m[q].(v_parent := up, v_right := p)
            && m'[p] == m[p].(v_left := Root(y), v_parent := q)
            && SameOn(Reparent(m, Root(y), p), m', Ptrs(y) + Ptrs(t.r) + Ptrs(t.l.l))
            && (forall z :: 0 <= z < |m| && z !in Ptrs(t) ==> m'[z] == m[z])
  {
    hide Inorder, RRight;
    var y := t.l.r;
    RepBounds(m, t, up);
    RepBounds(m, t.l, t.p);
    RepBounds(m, y, t.l.p);
    assert y.Node? ==> Root(y) in Ptrs(y);
    RRightIs(m, t.p, t.l.p, Root(y));
  }

  lemma RRightRep(m: Mem, t: Tree, up: Ptr)
    requires Rep(m, t, up) && Apart(t) && t.Node? && t.l.Node?
    ensures m[t.p].v_left < |m| && m[m[t.p].v_left].v_right < |m|
    ensures Rep(RRight(m, t.p), RotR(t), up)
    ensures |RRight(m, t.p)| == |m| && forall z :: 0 <= z < |m| && z !in Ptrs(t) ==> RRight(m, t.p)[z] == m[z]
  {
    hide Inorder, RRight;
    var p, q, x, y, r := t.p, t.l.p, t.l.l, t.l.r, t.r;
    RRightAt(m, t, up);
    RepReparent(m, y, q, p);
    var m1, m' := Reparent(m, Root(y), p), RRight(m, p);
    RepFrame(m1, m', y, p);
    assert y.Node? ==> Root(y) in Ptrs(y);
    RepFrame(m, m1, r, p);
    RepFrame(m1, m', r, p);
    RepFrame(m, m1, x, q);
    RepFrame(m1, m', x, q);
  }

  // ---- balances ----

  function PutBal(m: Mem, p: Ptr, bal: int): Mem {
    if p < |m| then m[p := m[p].(v_bal := bal)] else m
  }

  lemma PutBalRep(m: Mem, t: Tree, up: Ptr, bal: int)
    requires Rep(m, t, up) && Apart(t) && t.Node?
    ensures Rep(PutBal(m, t.p, bal), SetBal(t, bal), up)
  {
    var m' := PutBal(m, t.p, bal);
    RepFrame(m, m', t.l, t.p);
    RepFrame(m, m', t.r, t.p);
  }

  lemma PutLeftRep(m: Mem, t: Tree, up: Ptr, bal: int)
    requires Rep(m, t, up) && Apart(t) && t.Node? && t.l.Node?
    ensures Rep(PutBal(m, t.l.p, bal), SetLeft(t, bal), up)
  {
    PutBalRep(m, t.l, t.p, bal);
    RepFrame(m, PutBal(m, t.l.p, bal), t.r, t.p);
  }

  lemma PutRightRep(m: Mem, t: Tree, up: Ptr, bal: int)
    requires Rep(m, t, up) && Apart(t) && t.Node? && t.r.Node?
    ensures Rep(PutBal(m, t.r.p, bal), SetRight(t, bal), up)
  {
    PutBalRep(m, t.r, t.p, bal);
    RepFrame(m, PutBal(m, t.r.p, bal), t.l, t.p);
  }
}
