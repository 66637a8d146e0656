/** Balanced trees and the places in them, as the C shell keeps its variables (sh.set.c). */
module CshTree {

  type Name = seq<nat>
  type Vec = seq<seq<nat>>

  /** Addresses are positions in memory; 0 is the null pointer, 1 the header. */
  type Ptr = nat
  const HEAD: Ptr := 1

  datatype Varent = Varent(v_name: Name, vec: Vec, v_left: Ptr, v_right: Ptr, v_parent: Ptr, v_bal: int)
  type Mem = seq<Varent>

  datatype Entry = Entry(name: Name, vec: Vec)

  // ---- trees ----

  datatype Tree = Leaf | Node(p: Ptr, e: Entry, bal: int, l: Tree, r: Tree)

  function H(t: Tree): nat {
    match t
    case Leaf => 0
    case Node(_, _, _, l, r) => 1 + Max(H(l), H(r))
  }

  function Max(x: nat, y: nat): nat { if x < y then y else x }

  /** Every balance is the right height minus the left one, and at most one. */
  predicate Avl(t: Tree) {
    match t
    case Leaf => true
    case Node(_, _, bal, l, r) => Avl(l) && Avl(r) && bal == H(r) - H(l) && -1 <= bal <= 1
  }

  function Inorder(t: Tree): seq<Entry> {
    match t
    case Leaf => []
    case Node(_, e, _, l, r) => Inorder(l) + [e] + Inorder(r)
  }

  function Ptrs(t: Tree): set<Ptr> {
    match t
    case Leaf => {}
    case Node(p, _, _, l, r) => {p} + Ptrs(l) + Ptrs(r)
  }

  function Root(t: Tree): Ptr { if t.Leaf? then 0 else t.p }

  /** No node occurs twice. */
  predicate Apart(t: Tree) {
    match t
    case Leaf => true
    case Node(p, _, _, l, r) => Apart(l) && Apart(r) && p !in Ptrs(l) && p !in Ptrs(r) && Ptrs(l) !! Ptrs(r)
  }

  // ---- places ----

  /** The way up from a place to the header; at each node, the subtree on the other side. */
  datatype Ctx = Top | Left(p: Ptr, e: Entry, bal: int, r: Tree, c: Ctx) | Right(p: Ptr, e: Entry, bal: int, l: Tree, c: Ctx)

  function Plug(c: Ctx, t: Tree): Tree {
    match c
    case Top => t
    case Left(p, e, bal, r, c') => Plug(c', Node(p, e, bal, t, r))
    case Right(p, e, bal, l, c') => Plug(c', Node(p, e, bal, l, t))
  }

  function Up(c: Ctx): Ptr { if c.Top? then HEAD else c.p }

  function CtxPtrs(c: Ctx): set<Ptr> {
    match c
    case Top => {}
    case Left(p, _, _, r, c') => {p} + Ptrs(r) + CtxPtrs(c')
    case Right(p, _, _, l, c') => {p} + Ptrs(l) + CtxPtrs(c')
  }

  predicate ApartCtx(c: Ctx) {
    match c
    case Top => true
    case Left(p, _, _, r, c') => Apart(r) && ApartCtx(c') && p !in Ptrs(r) && p !in CtxPtrs(c') && Ptrs(r) !! CtxPtrs(c')
    case Right(p, _, _, l, c') => Apart(l) && ApartCtx(c') && p !in Ptrs(l) && p !in CtxPtrs(c') && Ptrs(l) !! CtxPtrs(c')
  }

  /** The balances on the way up are right for a subtree of height h. */
  predicate AvlCtx(c: Ctx, h: nat) {
    match c
    case Top => true
    case Left(_, _, bal, r, c') => Avl(r) && bal == H(r) - h && -1 <= bal <= 1 && AvlCtx(c', 1 + Max(h, H(r)))
    case Right(_, _, bal, l, c') => Avl(l) && bal == h - H(l) && -1 <= bal <= 1 && AvlCtx(c', 1 + Max(H(l), h))
  }

  /** The entries before and after a place. */
  function Before(c: Ctx): seq<Entry> {
    match c
    case Top => []
    case Left(_, _, _, _, c') => Before(c')
    case Right(_, e, _, l, c') => Before(c') + Inorder(l) + [e]
  }

  function After(c: Ctx): seq<Entry> {
    match c
    case Top => []
    case Left(_, e, _, r, c') => [e] + Inorder(r) + After(c')
    case Right(_, _, _, _, c') => After(c')
  }

  lemma Regroup(a: seq<Entry>, b: seq<Entry>, c: seq<Entry>, d: seq<Entry>)
    ensures (a + b + c) + d == a + (b + c + d)
    ensures a + (b + c + d) == (a + b + c) + d
  {
  }

  lemma {:induction false} PlugInorder(c: Ctx, t: Tree)
    ensures Inorder(Plug(c, t)) == Before(c) + Inorder(t) + After(c)
    decreases c
  {
    match c
    case Top =>
      assert [] + Inorder(t) + [] == Inorder(t);
    case Left(p, e, bal, r, c') =>
      PlugInorder(c', Node(p, e, bal, t, r));
      Around(Before(c'), Inorder(t), [e], Inorder(r), After(c'));
    case Right(p, e, bal, l, c') =>
      PlugInorder(c', Node(p, e, bal, l, t));
      Around(Before(c'), Inorder(l), [e], Inorder(t), After(c'));
  }

  lemma Around(a: seq<Entry>, b: seq<Entry>, c: seq<Entry>, d: seq<Entry>, e: seq<Entry>)
    ensures a + (b + c + d) + e == a + b + (c + d + e) == (a + b + c) + d + e
  {
  }

  lemma {:induction false} PlugAvl(c: Ctx, t: Tree)
    requires Avl(t) && AvlCtx(c, H(t))
    ensures Avl(Plug(c, t))
    decreases c
  {
    match c
    case Top =>
    case Left(p, e, bal, r, c') => PlugAvl(c', Node(p, e, bal, t, r));
    case Right(p, e, bal, l, c') => PlugAvl(c', Node(p, e, bal, l, t));
  }

  // ---- rotations ----

  /** rleft and rright, the balances as they are. */
  function RotL(t: Tree): Tree {
    if t.Node? && t.r.Node? then Node(t.r.p, t.r.e, t.r.bal, Node(t.p, t.e, t.bal, t.l, t.r.l), t.r.r) else t
  }

  function RotR(t: Tree): Tree {
    if t.Node? && t.l.Node? then Node(t.l.p, t.l.e, t.l.bal, t.l.l, Node(t.p, t.e, t.bal, t.l.r, t.r)) else t
  }

  function SetBal(t: Tree, bal: int): Tree {
    if t.Node? then t.(bal := bal) else t
  }

  function SetLeft(t: Tree, bal: int): Tree {
    if t.Node? then t.(l := SetBal(t.l, bal)) else t
  }

  function SetRight(t: Tree, bal: int): Tree {
    if t.Node? then t.(r := SetBal(t.r, bal)) else t
  }

  /** The same nodes, with the same entries in the same order. */
  predicate Alike(t: Tree, t': Tree) {
    Inorder(t') == Inorder(t) && Ptrs(t') == Ptrs(t) && (Apart(t) ==> Apart(t'))
  }

  /** Two nodes with three subtrees, joined in either way. */
  lemma TwoNodes(p: Ptr, e: Entry, b: int, q: Ptr, f: Entry, c: int, x: Tree, y: Tree, z: Tree, b': int, c': int)
    ensures var low, high := Node(p, e, b, x, Node(q, f, c, y, z)), Node(q, f, c', Node(p, e, b', x, y), z);
            Inorder(low) == Inorder(high) && Ptrs(low) == Ptrs(high) && (Apart(low) <==> Apart(high))
  {
    var r, l := Node(q, f, c, y, z), Node(p, e, b', x, y);
    var low, high := Node(p, e, b, x, r), Node(q, f, c', l, z);
    assert Inorder(low) == Inorder(x) + [e] + (Inorder(y) + [f] + Inorder(z));
    assert Inorder(high) == (Inorder(x) + [e] + Inorder(y)) + [f] + Inorder(z);
    Regroup(Inorder(x) + [e], Inorder(y), [f], Inorder(z));
    assert Ptrs(low) == {p} + Ptrs(x) + ({q} + Ptrs(y) + Ptrs(z));
    assert Ptrs(high) == {q} + ({p} + Ptrs(x) + Ptrs(y)) + Ptrs(z);
    ApartTwo(p, e, b, q, f, c, x, y, z, b', c');
  }

  lemma ApartTwo(p: Ptr, e: Entry, b: int, q: Ptr, f: Entry, c: int, x: Tree, y: Tree, z: Tree, b': int, c': int)
    ensures Apart(Node(p, e, b, x, Node(q, f, c, y, z))) <==> Apart(Node(q, f, c', Node(p, e, b', x, y), z))
  {
    var r, l := Node(q, f, c, y, z), Node(p, e, b', x, y);
    assert Ptrs(r) == {q} + Ptrs(y) + Ptrs(z) && Ptrs(l) == {p} + Ptrs(x) + Ptrs(y);
    assert Apart(r) <==> Apart(y) && Apart(z) && q !in Ptrs(y) && q !in Ptrs(z) && Ptrs(y) !! Ptrs(z);
    assert Apart(l) <==> Apart(x) && Apart(y) && p !in Ptrs(x) && p !in Ptrs(y) && Ptrs(x) !! Ptrs(y);
  }

  lemma RotLAlike(t: Tree)
    ensures Alike(t, RotL(t))
  {
    if t.Node? && t.r.Node? {
      TwoNodes(t.p, t.e, t.bal, t.r.p, t.r.e, t.r.bal, t.l, t.r.l, t.r.r, t.bal, t.r.bal);
    }
  }

  lemma RotRAlike(t: Tree)
    ensures Alike(t, RotR(t))
  {
    if t.Node? && t.l.Node? {
      TwoNodes(t.l.p, t.l.e, t.l.bal, t.p, t.e, t.bal, t.l.l, t.l.r, t.r, t.l.bal, t.bal);
    }
  }

  lemma SetAlike(t: Tree, bal: int)
    ensures Alike(t, SetBal(t, bal)) && Alike(t, SetLeft(t, bal)) && Alike(t, SetRight(t, bal))
  {
    if t.Node? {
      BalAlike(t.l, bal);
      BalAlike(t.r, bal);
      LeftAlike(t, SetBal(t.l, bal));
      RightAlike(t, SetBal(t.r, bal));
    }
  }

  lemma BalAlike(t: Tree, bal: int)
    ensures Alike(t, SetBal(t, bal))
  {
  }

  lemma RightAlike(t: Tree, r: Tree)
    requires t.Node? && Alike(t.r, r)
    ensures Alike(t, t.(r := r))
  {
  }

  lemma LeftAlike(t: Tree, l: Tree)
    requires t.Node? && Alike(t.l, l)
    ensures Alike(t, t.(l := l))
  {
  }

  // ---- rebalancing ----

  /** The balances after a double rotation. */
  function Settle(t: Tree): Tree {
    if t.Node? then SetBal(SetRight(SetLeft(t, if t.bal < 1 then 0 else -1), if t.bal > -1 then 0 else 1), 0) else t
  }

  /** A node whose right side has become heavier by one. */
  function HeavyRight(t: Tree): Tree
    requires t.Node?
  {
    if t.bal == -1 then SetBal(t, 0)
    else if t.bal == 0 then SetBal(t, 1)
    else if t.r.Leaf? then t
    else if t.r.bal == 1 then SetBal(SetLeft(RotL(t), 0), 0)
    else if t.r.bal == 0 then SetBal(SetLeft(RotL(t), 1), -1)
    else Settle(RotL(t.(r := RotR(t.r))))
  }

  function HeavyLeft(t: Tree): Tree
    requires t.Node?
  {
    if t.bal == 1 then SetBal(t, 0)
    else if t.bal == 0 then SetBal(t, -1)
    else if t.l.Leaf? then t
    else if t.l.bal == -1 then SetBal(SetRight(RotR(t), 0), 0)
    else if t.l.bal == 0 then SetBal(SetRight(RotR(t), -1), 1)
    else Settle(RotR(t.(l := RotL(t.l))))
  }

  /** What an insertion leaves: a new node, or a subtree that leans to one side. */
  predicate Grew(t: Tree) {
    t.Node? && (t.bal != 0 || H(t) == 1)
  }

  /** What rebalancing promises of a subtree that had height h: after an insertion the height is the old one
      when its top is balanced, after a deletion (d) when it is not. */
  predicate Rebalanced(t: Tree, d: bool, h: nat) {
    && t.Node? && Avl(t)
    && if d then H(t) == h - (if t.bal == 0 then 1 else 0)
       else H(t) == h + (if t.bal == 0 then 0 else 1) && (t.bal != 0 ==> Grew(t))
  }

  lemma HeavyRightAvl(t: Tree, d: bool)
    requires t.Node? && Avl(t.l) && Avl(t.r) && -1 <= t.bal <= 1 && H(t.r) == H(t.l) + t.bal + 1 && (!d ==> Grew(t.r))
    ensures Rebalanced(HeavyRight(t), d, 1 + if d then Max(H(t.l) + 1, H(t.r)) else Max(H(t.l), H(t.r) - 1))
  {
    hide Inorder, Ptrs, Apart;
    if t.bal == 1 {
      if t.r.bal == -1 {
        DoubleLeft(t);
      } else {
        SingleLeft(t);
      }
    }
  }

  lemma SingleLeft(t: Tree)
    requires t.Node? && t.r.Node? && Avl(t.l) && Avl(t.r) && t.bal == 1 && H(t.r) == H(t.l) + 2 && t.r.bal >= 0
    ensures HeavyRight(t) == Node(t.r.p, t.r.e, if t.r.bal == 1 then 0 else -1, Node(t.p, t.e, if t.r.bal == 1 then 0 else 1, t.l, t.r.l), t.r.r)
    ensures Avl(HeavyRight(t)) && H(HeavyRight(t)) == H(t.l) + 3 - t.r.bal
  {
    var low := Node(t.p, t.e, if t.r.bal == 1 then 0 else 1, t.l, t.r.l);
    assert Avl(low);
  }

  lemma DoubleLeft(t: Tree)
    requires t.Node? && t.r.Node? && Avl(t.l) && Avl(t.r) && t.bal == 1 && H(t.r) == H(t.l) + 2 && t.r.bal == -1
    ensures Avl(HeavyRight(t)) && H(HeavyRight(t)) == H(t.l) + 2 && HeavyRight(t).Node? && HeavyRight(t).bal == 0
  {
    var Node(s, g, a, u, v) := t.r.l;
    var low, high := Node(t.p, t.e, if a < 1 then 0 else -1, t.l, u), Node(t.r.p, t.r.e, if a > -1 then 0 else 1, v, t.r.r);
    assert Avl(low) && Avl(high);
    assert HeavyRight(t) == Node(s, g, 0, low, high);
  }

  lemma HeavyLeftAvl(t: Tree, d: bool)
    requires t.Node? && Avl(t.l) && Avl(t.r) && -1 <= t.bal <= 1 && H(t.l) == H(t.r) - t.bal + 1 && (!d ==> Grew(t.l))
    ensures Rebalanced(HeavyLeft(t), d, 1 + if d then Max(H(t.l), H(t.r) + 1) else Max(H(t.l) - 1, H(t.r)))
  {
    hide Inorder, Ptrs, Apart;
    if t.bal == -1 {
      if t.l.bal == 1 {
        DoubleRight(t);
      } else {
        SingleRight(t);
      }
    }
  }

  lemma SingleRight(t: Tree)
    requires t.Node? && t.l.Node? && Avl(t.l) && Avl(t.r) && t.bal == -1 && H(t.l) == H(t.r) + 2 && t.l.bal <= 0
    ensures HeavyLeft(t) == Node(t.l.p, t.l.e, if t.l.bal == -1 then 0 else 1, t.l.l, Node(t.p, t.e, if t.l.bal == -1 then 0 else -1, t.l.r, t.r))
    ensures Avl(HeavyLeft(t)) && H(HeavyLeft(t)) == H(t.r) + 3 + t.l.bal
  {
    var low := Node(t.p, t.e, if t.l.bal == -1 then 0 else -1, t.l.r, t.r);
    assert Avl(low);
  }

  lemma DoubleRight(t: Tree)
    requires t.Node? && t.l.Node? && Avl(t.l) && Avl(t.r) && t.bal == -1 && H(t.l) == H(t.r) + 2 && t.l.bal == 1
    ensures Avl(HeavyLeft(t)) && H(HeavyLeft(t)) == H(t.r) + 2 && HeavyLeft(t).Node? && HeavyLeft(t).bal == 0
  {
    var Node(s, g, a, u, v) := t.l.r;
    var low, high := Node(t.l.p, t.l.e, if a < 1 then 0 else -1, t.l.l, u), Node(t.p, t.e, if a > -1 then 0 else 1, v, t.r);
    assert Avl(low) && Avl(high);
    assert HeavyLeft(t) == Node(s, g, 0, low, high);
  }

  lemma SettleAlike(t: Tree)
    ensures Alike(t, Settle(t))
  {
    if t.Node? {
      var a, b := if t.bal < 1 then 0 else -1, if t.bal > -1 then 0 else 1;
      SetAlike(t, a);
      SetAlike(SetLeft(t, a), b);
      SetAlike(SetRight(SetLeft(t, a), b), 0);
    }
  }

  lemma HeavyRightAlike(t: Tree)
    requires t.Node?
    ensures Alike(t, HeavyRight(t))
  {
    hide Inorder, Ptrs, Apart, RotL, RotR, SetBal, SetLeft, SetRight, Settle;
    forall u: Tree, b: int ensures Alike(u, SetBal(u, b)) && Alike(u, SetLeft(u, b)) {
      SetAlike(u, b);
    }
    RotLAlike(t);
    RotRAlike(t.r);
    RightAlike(t, RotR(t.r));
    RotLAlike(t.(r := RotR(t.r)));
    SettleAlike(RotL(t.(r := RotR(t.r))));
  }

  lemma HeavyLeftAlike(t: Tree)
    requires t.Node?
    ensures Alike(t, HeavyLeft(t))
  {
    hide Inorder, Ptrs, Apart, RotL, RotR, SetBal, SetLeft, SetRight, Settle;
    forall u: Tree, b: int ensures Alike(u, SetBal(u, b)) && Alike(u, SetRight(u, b)) {
      SetAlike(u, b);
    }
    RotRAlike(t);
    RotLAlike(t.l);
    LeftAlike(t, RotL(t.l));
    RotRAlike(t.(l := RotL(t.l)));
    SettleAlike(RotR(t.(l := RotL(t.l))));
  }
}
