/** The shell's variables: setq, unsetv1, adrof1, balance and plist of sh.set.c. */
module CshSet {
  import opened CshTree
  import opened CshMem
  import opened CshNames
  import opened CshPlace

  class Table {
    var m: Mem
    ghost var tree: Tree
    ghost var vars: map<Name, Vec>

    ghost predicate Valid()
      reads this
    {
      && At(m, Top, tree) && Avl(tree)
      && Sorted(Inorder(tree)) && Holds(Inorder(tree), vars)
    }

    constructor ()
      ensures Valid() && vars == map[]
    {
      var zero := Varent([], [], 0, 0, 0, 0);
      m := [zero, zero];
      tree, vars := Leaf, map[];
    }

    /** The variable of that name, or 0. */
    method Adrof1(name: Name) returns (v: Ptr)
      requires Valid() && Word(name)
      ensures v == 0 <==> name !in vars
      ensures v != 0 ==> v in Ptrs(tree) && v < |m| && m[v].v_name == name && m[v].vec == vars[name]
    {
      hide At, Sorted, Holds, Between, Plug, Inorder, Avl, Cmp;
      ghost var c, t := Top, tree;
      StartSearch(tree, name);
      AtNode(m, c, t);
      v := m[HEAD].v_left;
      while v != 0
        invariant Plug(c, t) == tree && At(m, c, t) && v == Root(t) && (t.Node? <==> v != 0)
        invariant Between(Before(c), name, After(c))
        decreases t
      {
        AtNode(m, c, t);
        EntryIn(c, t);
        SearchStep(c, t, name);
        AroundNode(c, t);
        CmpEqual(name, t.e.name);
        CmpFirst(name, t.e.name);
        var cmp := First(name) - First(m[v].v_name);
        if cmp == 0 {
          cmp := Cmp(name, m[v].v_name);
          if cmp == 0 {
            HoldsAt(Inorder(tree), vars, t.e);
            return;
          }
        }
        if cmp < 0 {
          PlugJoin(LeftOf(c, t), t.l);
          c, t := LeftOf(c, t), t.l;
          v := m[v].v_left;
        } else {
          PlugJoin(RightOf(c, t), t.r);
          c, t := RightOf(c, t), t.r;
          v := m[v].v_right;
        }
        AtNode(m, c, t);
      }
      NotThere(c, name, vars);
    }

    /** All variables in order, without a stack. */
    method Plist() returns (out: seq<Entry>)
      requires Valid()
      ensures out == Inorder(tree)
    {
      hide At, Plug, Inorder, Before, Avl, Sorted, Holds;
      out := [];
      var p := HEAD;
      ghost var c, t := Top, tree;
      StartList(tree);
      p, c, t := Descend(p, c, t);
      while true
        invariant At(m, c, t) && Plug(c, t) == tree && p == Up(c) && !c.Right? && out == Before(c) + Inorder(t)
        decreases |Inorder(tree)| - |out|
      {
        WhichWay(m, c, t);
        if m[p].v_parent == 0 {
          ListedAll(c, t);
          return;
        }
        Zip(m, c, t);
        PlugJoin(c, t);
        ghost var j := Join(c, t);
        AtNode(m, c.c, j);
        AtNode(m, RightOf(c.c, j), j.r);
        NextEntry(c, t);
        out := out + [Entry(m[p].v_name, m[p].vec)];
        if m[p].v_right != 0 {
          p := m[p].v_right;
          AtNode(m, LeftOf(RightOf(c.c, j), j.r), j.r.l);
          PlugJoin(RightOf(c.c, j), j.r);
          PlugJoin(LeftOf(RightOf(c.c, j), j.r), j.r.l);
          BeforeLeft(RightOf(c.c, j), j.r);
          p, c, t := Descend(p, LeftOf(RightOf(c.c, j), j.r), j.r.l);
        } else {
          p, c, t := Climb(p, c.c, j);
        }
      }
    }

    /** The leftmost node from p on. */
    method Descend(p0: Ptr, ghost c0: Ctx, ghost t0: Tree) returns (p: Ptr, ghost c: Ctx, ghost t: Tree)
      requires At(m, c0, t0) && p0 == Up(c0) && !c0.Right?
      ensures At(m, c, t) && Plug(c, t) == Plug(c0, t0) && p == Up(c) && !c.Right? && t.Leaf?
      ensures Before(c) == Before(c0)
    {
      hide At, Plug, Before;
      p, c, t := p0, c0, t0;
      while true
        invariant At(m, c, t) && Plug(c, t) == Plug(c0, t0) && p == Up(c) && !c.Right? && Before(c) == Before(c0)
        decreases t
      {
        AtNode(m, c, t);
        if m[p].v_left == 0 {
          break;
        }
        p := m[p].v_left;
        PlugJoin(LeftOf(c, t), t.l);
        BeforeLeft(c, t);
        c, t := LeftOf(c, t), t.l;
      }
    }

    /** Up to the first node that is reached from its left side. */
    method Climb(p0: Ptr, ghost c0: Ctx, ghost t0: Tree) returns (p: Ptr, ghost c: Ctx, ghost t: Tree)
      requires At(m, c0, t0) && t0.Node? && t0.p == p0
      ensures At(m, c, t) && Plug(c, t) == Plug(c0, t0) && p == Up(c) && !c.Right?
      ensures Before(c) + Inorder(t) == Before(c0) + Inorder(t0)
    {
      hide At, Plug, Before, Inorder;
      p, c, t := p0, c0, t0;
      while true
        invariant At(m, c, t) && Plug(c, t) == Plug(c0, t0) && t.Node? && p == t.p
        invariant Before(c) + Inorder(t) == Before(c0) + Inorder(t0)
        decreases c
      {
        var below := p;
        AtNode(m, c, t);
        PulledWay(m, c, t);
        p := m[p].v_parent;
        if m[p].v_right != below {
          break;
        }
        Zip(m, c, t);
        PlugJoin(c, t);
        BeforeJoin(c, t);
        c, t := c.c, Join(c, t);
      }
    }

    method SetVec(p: Ptr, vec: Vec)
      requires Valid() && p in Ptrs(tree)
      modifies this
      ensures Valid() && p < |m| == |old(m)| && Ptrs(tree) == old(Ptrs(tree))
      ensures vars == old(vars)[m[p].v_name := vec] && m[p].v_name == old(m)[p].v_name
    {
      hide At, Sorted, Holds, Plug, Inorder, Avl, Ptrs, AvlCtx;
      ghost var c, t := Locate(Top, tree, p);
      StartSearch(tree, []);
      PlugAt(m, c, t);
      AtNode(m, c, t);
      m := m[p := m[p].(vec := vec)];
      ghost var t' := t.(e := t.e.(vec := vec));
      AtEntry(old(m), c, t, t'.e);
      AtPlug(m, c, t');
      AvlPlug(c, t);
      AvlEntry(t, t'.e);
      PlugAvl(c, t');
      EntryReplaced(c, t, vec, vars);
      tree, vars := Plug(c, t'), vars[t.e.name := vec];
    }

    /** A variable gets a value; its node is new if there was none. */
    method Setq(name: Name, vec: Vec)
      requires Valid() && Word(name)
      modifies this
      ensures Valid() && vars == old(vars)[name := vec]
    {
      hide At, Sorted, Holds, Between, Plug, Inorder, Avl, Cmp, Ptrs;
      var p, f := HEAD, false;
      ghost var c, t := Top, tree;
      StartSearch(tree, name);
      AtNode(m, c, t);
      var v := m[HEAD].v_left;
      while v != 0
        invariant Plug(c, t) == tree && At(m, c, t) && p == Up(c) && f == c.Right? && v == Root(t) && (t.Node? <==> v != 0)
        invariant Between(Before(c), name, After(c))
        decreases t
        modifies {}
      {
        AtNode(m, c, t);
        EntryIn(c, t);
        SearchStep(c, t, name);
        AroundNode(c, t);
        CmpEqual(name, t.e.name);
        CmpFirst(name, t.e.name);
        var cmp := First(name) - First(m[v].v_name);
        if cmp == 0 {
          cmp := Cmp(name, m[v].v_name);
        }
        if cmp == 0 {
          break;
        }
        p := v;
        f := cmp > 0;
        if f {
          PlugJoin(RightOf(c, t), t.r);
          c, t := RightOf(c, t), t.r;
        } else {
          PlugJoin(LeftOf(c, t), t.l);
          c, t := LeftOf(c, t), t.l;
        }
        AtNode(m, c, t);
        v := if f then m[p].v_right else m[p].v_left;
      }
      if v == 0 {
        v := AddNode(name, p, f, c);
      }
      SetVec(v, vec);
    }

    /** A new node at a free place, with an empty value. */
    method AddNode(name: Name, p: Ptr, f: bool, ghost c: Ctx) returns (v: Ptr)
      requires Valid() && Plug(c, Leaf) == tree && At(m, c, Leaf) && p == Up(c) && f == c.Right? && Between(Before(c), name, After(c))
      modifies this
      ensures Valid() && vars == old(vars)[name := []] && v in Ptrs(tree) && v < |m| && m[v].v_name == name
    {
      hide At, Sorted, Holds, Between, Plug, Inorder, Avl, Ptrs, Changed;
      ghost var e := Entry(name, []);
      AtNew(m, c, e);
      NodeAdded(c, |m|, e, vars);
      v := |m|;
      ghost var t := Node(v, e, 0, Leaf, Leaf);
      NewGrew(c, t, v, e);
      EntryIn(c, t);
      m := SetLink(m + [Varent(name, [], 0, 0, p, 0)], p, f, v);
      tree := Balance(p, f, false, c, t);
      vars := vars[name := []];
    }

    /** A variable is removed. */
    method Unsetv1(p: Ptr)
      requires Valid() && p in Ptrs(tree)
      modifies this
      ensures p < |old(m)| && old(m)[p].v_name in old(vars)
      ensures Valid() && vars == old(vars) - {old(m)[p].v_name}
    {
      hide At, Sorted, Holds, Plug, Inorder, Avl, Ptrs, Last, Without, Changed;
      ghost var c, t := Locate(Top, tree, p);
      StartSearch(tree, []);
      PlugAt(m, c, t);
      AtNode(m, c, t);
      EntryIn(c, t);
      HoldsAt(Inorder(tree), vars, t.e);
      WithoutHolds(c, t, vars);
      vars := vars - {t.e.name};
      if m[p].v_right == 0 || m[p].v_left == 0 {
        NoChild(m, c, t);
        Pull(p, if m[p].v_right == 0 then m[p].v_left else m[p].v_right, c, t, if t.r.Leaf? then t.l else t.r);
      } else {
        ghost var q, c2;
        var last;
        last, q, c2 := CopyLast(p, c, t);
        Pull(last, m[last].v_left, c2, q, q.l);
      }
    }

    /** The predecessor of a node with two children, after its entry has gone to the node. */
    method CopyLast(p: Ptr, ghost c: Ctx, ghost t: Tree) returns (last: Ptr, ghost q: Tree, ghost c2: Ctx)
      requires At(m, c, t) && t.Node? && t.p == p && p < |m| && m[p].v_left != 0 && Avl(Plug(c, t))
      modifies this`m
      ensures At(m, c2, q) && q.Node? && q.r.Leaf? && q.p == last && last < |m| && m[last].v_left == Root(q.l)
      ensures Avl(Plug(c2, q)) && Without(c2, q) == Without(c, t)
    {
      hide At, Plug, Avl, Without;
      AtNode(m, c, t);
      AtNode(m, LeftOf(c, t), t.l);
      last := m[p].v_left;
      ghost var cc;
      cc, q := LeftOf(c, t), t.l;
      while true
        invariant At(m, cc, q) && q.Node? && last == q.p && Last(cc, q) == Last(LeftOf(c, t), t.l)
        decreases q
        modifies {}
      {
        AtNode(m, cc, q);
        AtNode(m, RightOf(cc, q), q.r);
        if m[last].v_right == 0 {
          break;
        }
        last := m[last].v_right;
        cc, q := RightOf(cc, q), q.r;
      }
      PullLast(c, t);
      ghost var t' := t.(e := EntryOf(q));
      c2 := Last(LeftOf(c, t'), t.l).0;
      AtEntry(m, c, t, q.e);
      m := m[p := m[p].(v_name := m[last].v_name, vec := m[last].vec)];
      AtPlug(m, c, t');
      PlugAt(m, c2, q);
      AtNode(m, c2, q);
    }

    /** Node p, with the child x at most, goes, and the tree is rebalanced. */
    method Pull(p: Ptr, ch: Ptr, ghost c: Ctx, ghost t: Tree, ghost x: Tree)
      requires At(m, c, t) && t.Node? && t.p == p && ch == Root(x) && Avl(Plug(c, t))
      requires (t.r.Leaf? && x == t.l) || (t.l.Leaf? && x == t.r)
      requires Sorted(Without(c, t)) && Holds(Without(c, t), vars)
      modifies this`m, this`tree
      ensures Valid()
    {
      hide At, Sorted, Holds, Plug, Inorder, Avl, Ptrs, Changed, Without;
      AtNode(m, c, t);
      PulledWay(m, c, t);
      AtPull(m, c, t, x);
      PullOne(c, t, x);
      var pp := m[p].v_parent;
      var f := m[pp].v_right == p;
      m := SetLink(m, pp, f, ch);
      m := Reparent(m, ch, pp);
      tree := Balance(pp, f, true, c, x);
    }

    /** From a changed subtree up, until the height is the old one again. */
    method Balance(p0: Ptr, f0: bool, d: bool, ghost c0: Ctx, ghost t0: Tree) returns (ghost t': Tree)
      requires At(m, c0, t0) && Changed(c0, t0, d) && p0 == Up(c0) && f0 == c0.Right?
      modifies this`m
      ensures At(m, Top, t') && Avl(t') && SameEntries(old(m), m)
      ensures Inorder(t') == Inorder(Plug(c0, t0)) && Ptrs(t') == Ptrs(Plug(c0, t0))
    {
      hide At, Changed, Plug, Heavy, Join, Avl, AvlCtx, Inorder, Ptrs, Turnable;
      var p, f := p0, f0;
      ghost var c, t := c0, t0;
      while true
        invariant At(m, c, t) && Changed(c, t, d) && p == Up(c) && f == c.Right? && SameEntries(old(m), m)
        invariant Inorder(Plug(c, t)) == Inorder(Plug(c0, t0)) && Ptrs(Plug(c, t)) == Ptrs(Plug(c0, t0))
        decreases c
      {
        WhichWay(m, c, t);
        var pp := m[p].v_parent;
        if pp == 0 {
          ChangedTop(c, t, d);
          break;
        }
        var ff := m[pp].v_right == p;
        ghost var j := Join(c, t);
        HeavyStep(c, t, d);
        Zip(m, c, t);
        PlugJoin(c, t);
        HeavyIs(j, f != d);
        HeavyAlike(j, f != d);
        PlugAlike(c.c, j, Heavy(j, f != d));
        if f != d {
          p := LeanRight(p, pp, ff, c.c, j);
        } else {
          p := LeanLeft(p, pp, ff, c.c, j);
        }
        c, t := c.c, Heavy(j, f != d);
        AtBal(m, c, t, 0);
        if (m[p].v_bal == 0) != d {
          break;
        }
        p, f := pp, ff;
      }
      AtPlug(m, c, t);
      PlugAvl(c, t);
      t' := Plug(c, t);
    }

    /** p has become heavier on the right: the new top of its subtree. */
    method LeanRight(p0: Ptr, pp: Ptr, ff: bool, ghost c: Ctx, ghost t: Tree) returns (p: Ptr)
      requires At(m, c, t) && Turnable(t, true) && p0 == t.p && pp == Up(c) && ff == c.Right?
      modifies this`m
      ensures At(m, c, HeavyRight(t)) && HeavyRight(t).Node? && p == HeavyRight(t).p && SameEntries(old(m), m)
    {
      hide At, RLeft, RRight;
      p := p0;
      AtBal(m, c, t, 0);
      if m[p].v_bal == -1 {
        m := PutBal(m, p, 0);
      } else if m[p].v_bal == 0 {
        AtBal(m, c, t, 1);
        m := PutBal(m, p, 1);
      } else {
        AtRight(m, c, t, 0);
        var bal := m[m[p].v_right].v_bal;
        if bal == 1 {
          p := LeanRightOnce(p, pp, ff, c, t, 0, 0);
        } else if bal == 0 {
          p := LeanRightOnce(p, pp, ff, c, t, 1, -1);
        } else {
          p := LeanRightTwice(p, pp, ff, c, t);
        }
      }
    }

    /** A single rotation, and the balances of the node that went down and of the new top. */
    method LeanRightOnce(p0: Ptr, pp: Ptr, ff: bool, ghost c: Ctx, ghost t: Tree, below: int, top: int) returns (p: Ptr)
      requires At(m, c, t) && t.Node? && t.r.Node? && p0 == t.p && pp == Up(c) && ff == c.Right?
      modifies this`m
      ensures At(m, c, SetBal(SetLeft(RotL(t), below), top)) && p == t.r.p && SameEntries(old(m), m)
    {
      hide At, RLeft, RRight;
      TurnLeft(m, c, t);
      p := m[p0].v_right;
      RotationEntries(m, p0);
      m := SetLink(RLeft(m, p0), pp, ff, p);
      AtLeft(m, c, RotL(t), below);
      m := PutBal(m, m[p].v_left, below);
      AtBal(m, c, SetLeft(RotL(t), below), top);
      m := PutBal(m, p, top);
    }

    /** A double rotation. */
    method LeanRightTwice(p0: Ptr, pp: Ptr, ff: bool, ghost c: Ctx, ghost t: Tree) returns (p: Ptr)
      requires At(m, c, t) && t.Node? && t.r.Node? && t.r.l.Node? && p0 == t.p && pp == Up(c) && ff == c.Right?
      modifies this`m
      ensures At(m, c, Settle(RotL(t.(r := RotR(t.r))))) && p == t.r.l.p && SameEntries(old(m), m)
    {
      hide At, RLeft, RRight, RotL, RotR;
      ghost var inner := Right(t.p, t.e, t.bal, t.l, c);
      Zip(m, inner, t.r);
      TurnRight(m, inner, t.r);
      AtRight(m, c, t, 0);
      var q := m[p0].v_right;
      var s := m[q].v_left;
      RotationEntries(m, q);
      m := SetLink(RRight(m, q), p0, true, s);
      ghost var t1 := t.(r := RotR(t.r));
      Zip(m, inner, RotR(t.r));
      RotTop(t.r);
      RotTop(t1);
      TurnLeft(m, c, t1);
      p := m[p0].v_right;
      RotationEntries(m, p0);
      m := SetLink(RLeft(m, p0), pp, ff, p);
      SettleBalances(p, c, RotL(t1));
    }

    /** p has become heavier on the left: the new top of its subtree. */
    method LeanLeft(p0: Ptr, pp: Ptr, ff: bool, ghost c: Ctx, ghost t: Tree) returns (p: Ptr)
      requires At(m, c, t) && Turnable(t, false) && p0 == t.p && pp == Up(c) && ff == c.Right?
      modifies this`m
      ensures At(m, c, HeavyLeft(t)) && HeavyLeft(t).Node? && p == HeavyLeft(t).p && SameEntries(old(m), m)
    {
      hide At, RLeft, RRight;
      p := p0;
      AtBal(m, c, t, 0);
      if m[p].v_bal == 1 {
        m := PutBal(m, p, 0);
      } else if m[p].v_bal == 0 {
        AtBal(m, c, t, -1);
        m := PutBal(m, p, -1);
      } else {
        AtLeft(m, c, t, 0);
        var bal := m[m[p].v_left].v_bal;
        if bal == -1 {
          p := LeanLeftOnce(p, pp, ff, c, t, 0, 0);
        } else if bal == 0 {
          p := LeanLeftOnce(p, pp, ff, c, t, -1, 1);
        } else {
          p := LeanLeftTwice(p, pp, ff, c, t);
        }
      }
    }

    /** A single rotation, and the balances of the node that went down and of the new top. */
    method LeanLeftOnce(p0: Ptr, pp: Ptr, ff: bool, ghost c: Ctx, ghost t: Tree, below: int, top: int) returns (p: Ptr)
      requires At(m, c, t) && t.Node? && t.l.Node? && p0 == t.p && pp == Up(c) && ff == c.Right?
      modifies this`m
      ensures At(m, c, SetBal(SetRight(RotR(t), below), top)) && p == t.l.p && SameEntries(old(m), m)
    {
      hide At, RLeft, RRight;
      TurnRight(m, c, t);
      p := m[p0].v_left;
      RotationEntries(m, p0);
      m := SetLink(RRight(m, p0), pp, ff, p);
      AtRight(m, c, RotR(t), below);
      m := PutBal(m, m[p].v_right, below);
      AtBal(m, c, SetRight(RotR(t), below), top);
      m := PutBal(m, p, top);
    }

    /** A double rotation. */
    method LeanLeftTwice(p0: Ptr, pp: Ptr, ff: bool, ghost c: Ctx, ghost t: Tree) returns (p: Ptr)
      requires At(m, c, t) && t.Node? && t.l.Node? && t.l.r.Node? && p0 == t.p && pp == Up(c) && ff == c.Right?
      modifies this`m
      ensures At(m, c, Settle(RotR(t.(l := RotL(t.l))))) && p == t.l.r.p && SameEntries(old(m), m)
    {
      hide At, RLeft, RRight, RotL, RotR;
      ghost var inner := Left(t.p, t.e, t.bal, t.r, c);
      Zip(m, inner, t.l);
      TurnLeft(m, inner, t.l);
      AtLeft(m, c, t, 0);
      var q := m[p0].v_left;
      var s := m[q].v_right;
      RotationEntries(m, q);
      m := SetLink(RLeft(m, q), p0, false, s);
      ghost var t1 := t.(l := RotL(t.l));
      Zip(m, inner, RotL(t.l));
      RotTop(t.l);
      RotTop(t1);
      TurnRight(m, c, t1);
      p := m[p0].v_left;
      RotationEntries(m, p0);
      m := SetLink(RRight(m, p0), pp, ff, p);
      SettleBalances(p, c, RotR(t1));
    }

    method SettleBalances(p: Ptr, ghost c: Ctx, ghost t: Tree)
      requires At(m, c, t) && t.Node? && t.l.Node? && t.r.Node? && p == t.p
      modifies this`m
      ensures At(m, c, Settle(t)) && SameEntries(old(m), m)
    {
      hide At;
      AtBal(m, c, t, 0);
      ghost var a, b := if t.bal < 1 then 0 else -1, if t.bal > -1 then 0 else 1;
      AtLeft(m, c, t, a);
      m := PutBal(m, m[p].v_left, if m[p].v_bal < 1 then 0 else -1);
      AtBal(m, c, SetLeft(t, a), 0);
      AtRight(m, c, SetLeft(t, a), b);
      m := PutBal(m, m[p].v_right, if m[p].v_bal > -1 then 0 else 1);
      AtBal(m, c, SetRight(SetLeft(t, a), b), 0);
      m := PutBal(m, p, 0);
    }
  }

  lemma RotTop(t: Tree)
    requires t.Node?
    ensures t.r.Node? ==> RotL(t).Node? && RotL(t).p == t.r.p && RotL(t).l.Node? && (t.r.r.Node? ==> RotL(t).r.Node?)
    ensures t.l.Node? ==> RotR(t).Node? && RotR(t).p == t.l.p && RotR(t).r.Node? && (t.l.l.Node? ==> RotR(t).l.Node?)
    ensures t.r.Node? ==> RotL(t).r == t.r.r
    ensures t.l.Node? ==> RotR(t).l == t.l.l
  {
  }
}
