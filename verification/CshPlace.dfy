/** Places in a tree that lies in memory: what a local change does to the whole, for setq, unsetv1, balance and plist of sh.set.c. */
module CshPlace {
  import opened CshTree
  import opened CshMem
  import opened CshNames

  // ---- one subtree changes, the way up stays ----

  /** p->v_link[ff] = v */
  function SetLink(m: Mem, p: Ptr, ff: bool, v: Ptr): Mem
    requires p < |m|
  {
    m[p := if ff then m[p].(v_right := v) else m[p].(v_left := v)]
  }

  function Join(c: Ctx, t: Tree): Tree
    requires !c.Top?
  {
    match c
    case Left(p, e, bal, r, _) => Node(p, e, bal, t, r)
    case Right(p, e, bal, l, _) => Node(p, e, bal, l, t)
  }

  lemma Zip(m: Mem, c: Ctx, t: Tree)
    requires !c.Top?
    ensures At(m, c, t) <==> At(m, c.c, Join(c, t))
  {
  }

  lemma CtxBounds(m: Mem, c: Ctx, hole: Ptr)
    requires RepCtx(m, c, hole)
    ensures 0 < Up(c) < |m|
    ensures m[Up(c)].v_parent == (if c.Top? then 0 else Up(c.c))
    ensures if c.Right? then m[Up(c)].v_right == hole else m[Up(c)].v_left == hole
  {
  }

  lemma {:induction false} HeadApart(m: Mem, c: Ctx, hole: Ptr)
    requires RepCtx(m, c, hole)
    ensures forall z :: z in CtxPtrs(c) ==> HEAD < z < |m|
    decreases c
  {
    match c
    case Top =>
    case Left(p, e, bal, r, c') =>
      RepBounds(m, r, p);
      HeadApart(m, c', p);
    case Right(p, e, bal, l, c') =>
      RepBounds(m, l, p);
      HeadApart(m, c', p);
  }

  /** Memory changes in the subtree, and its top stays. */
  lemma AtInside(m: Mem, m': Mem, c: Ctx, t: Tree, t': Tree)
    requires At(m, c, t) && Rep(m', t', Up(c)) && Alike(t, t') && Root(t') == Root(t) && |m'| == |m|
    requires forall z :: 0 <= z < |m| && z !in Ptrs(t) ==> m'[z] == m[z]
    ensures At(m', c, t')
  {
    RepBounds(m, t, Up(c));
    CtxFrame(m, m', c, Root(t));
  }

  lemma {:induction false} CtxLink(m: Mem, m': Mem, c: Ctx, hole: Ptr, hole': Ptr)
    requires RepCtx(m, c, hole) && ApartCtx(c) && |m'| == |m|
    requires forall z :: 0 <= z < |m| && (z in CtxPtrs(c) || z == HEAD) && z != Up(c) ==> m'[z] == m[z]
    requires 0 < Up(c) < |m| && m'[Up(c)] == SetLink(m, Up(c), c.Right?, hole')[Up(c)]
    ensures RepCtx(m', c, hole')
  {
    match c
    case Top =>
    case Left(p, e, bal, r, c') =>
      HeadApart(m, c', p);
      RepFrame(m, m', r, p);
      CtxFrame(m, m', c', p);
    case Right(p, e, bal, l, c') =>
      HeadApart(m, c', p);
      RepFrame(m, m', l, p);
      CtxFrame(m, m', c', p);
  }

  /** Memory changes in the subtree, and the link to it follows its new top. */
  lemma AtTop(m: Mem, m': Mem, c: Ctx, t: Tree, t': Tree)
    requires At(m, c, t) && Rep(m', t', Up(c)) && Alike(t, t') && |m'| == |m| && Up(c) < |m|
    requires forall z :: 0 <= z < |m| && z !in Ptrs(t) ==> m'[z] == m[z]
    ensures At(SetLink(m', Up(c), c.Right?, Root(t')), c, t')
  {
    hide Rep, RepCtx, Inorder, Apart, ApartCtx;
    UpOutside(m, c, t);
    var m2 := SetLink(m', Up(c), c.Right?, Root(t'));
    RepFrame(m', m2, t', Up(c));
    CtxLink(m, m2, c, Root(t), Root(t'));
  }

  lemma UpOutside(m: Mem, c: Ctx, t: Tree)
    requires At(m, c, t)
    ensures 0 < Up(c) < |m| && Up(c) !in Ptrs(t) && HEAD !in Ptrs(t) && (forall z :: z in CtxPtrs(c) ==> z !in Ptrs(t))
  {
    CtxBounds(m, c, Root(t));
    RepBounds(m, t, Up(c));
    if !c.Top? {
      assert Up(c) in CtxPtrs(c);
    }
  }

  lemma TurnLeft(m: Mem, c: Ctx, t: Tree)
    requires At(m, c, t) && t.Node? && t.r.Node?
    ensures Up(c) < |m| && t.p < |m| && m[t.p].v_right == t.r.p < |m| && m[t.r.p].v_left == Root(t.r.l) < |m|
    ensures |RLeft(m, t.p)| == |m|
    ensures At(SetLink(RLeft(m, t.p), Up(c), c.Right?, t.r.p), c, RotL(t))
  {
    CtxBounds(m, c, Root(t));
    RepBounds(m, t, Up(c));
    assert Rep(m, t.r, t.p);
    RepBounds(m, t.r.l, t.r.p);
    RLeftRep(m, t, Up(c));
    RotLAlike(t);
    AtTop(m, RLeft(m, t.p), c, t, RotL(t));
  }

  lemma TurnRight(m: Mem, c: Ctx, t: Tree)
    requires At(m, c, t) && t.Node? && t.l.Node?
    ensures Up(c) < |m| && t.p < |m| && m[t.p].v_left == t.l.p < |m| && m[t.l.p].v_right == Root(t.l.r) < |m|
    ensures |RRight(m, t.p)| == |m|
    ensures At(SetLink(RRight(m, t.p), Up(c), c.Right?, t.l.p), c, RotR(t))
  {
    CtxBounds(m, c, Root(t));
    RepBounds(m, t, Up(c));
    assert Rep(m, t.l, t.p);
    RepBounds(m, t.l.r, t.l.p);
    RRightRep(m, t, Up(c));
    RotRAlike(t);
    AtTop(m, RRight(m, t.p), c, t, RotR(t));
  }

  lemma AtBal(m: Mem, c: Ctx, t: Tree, bal: int)
    requires At(m, c, t) && t.Node?
    ensures 0 < t.p < |m| && m[t.p].v_bal == t.bal
    ensures At(PutBal(m, t.p, bal), c, SetBal(t, bal))
  {
    PutBalRep(m, t, Up(c), bal);
    SetAlike(t, bal);
    AtInside(m, PutBal(m, t.p, bal), c, t, SetBal(t, bal));
  }

  lemma AtLeft(m: Mem, c: Ctx, t: Tree, bal: int)
    requires At(m, c, t) && t.Node? && t.l.Node?
    ensures 0 < t.p < |m| && m[t.p].v_left == t.l.p && 0 < t.l.p < |m| && m[t.l.p].v_bal == t.l.bal
    ensures At(PutBal(m, t.l.p, bal), c, SetLeft(t, bal))
  {
    RepBounds(m, t, Up(c));
    RepBounds(m, t.l, t.p);
    PutLeftRep(m, t, Up(c), bal);
    SetAlike(t, bal);
    AtInside(m, PutBal(m, t.l.p, bal), c, t, SetLeft(t, bal));
  }

  lemma AtRight(m: Mem, c: Ctx, t: Tree, bal: int)
    requires At(m, c, t) && t.Node? && t.r.Node?
    ensures 0 < t.p < |m| && m[t.p].v_right == t.r.p && 0 < t.r.p < |m| && m[t.r.p].v_bal == t.r.bal
    ensures At(PutBal(m, t.r.p, bal), c, SetRight(t, bal))
  {
    RepBounds(m, t, Up(c));
    RepBounds(m, t.r, t.p);
    PutRightRep(m, t, Up(c), bal);
    SetAlike(t, bal);
    AtInside(m, PutBal(m, t.r.p, bal), c, t, SetRight(t, bal));
  }

  /** No node gets another name or value. */
  ghost predicate SameEntries(m: Mem, m': Mem) {
    |m'| == |m| && forall z :: 0 <= z < |m| ==> m'[z].v_name == m[z].v_name && m'[z].vec == m[z].vec
  }

  lemma RotationEntries(m: Mem, p: Ptr)
    requires p < |m|
    ensures m[p].v_right < |m| && m[m[p].v_right].v_left < |m| ==> SameEntries(m, RLeft(m, p))
    ensures m[p].v_left < |m| && m[m[p].v_left].v_right < |m| ==> SameEntries(m, RRight(m, p))
  {
    if m[p].v_right < |m| && m[m[p].v_right].v_left < |m| {
      RLeftEntries(m, p);
    }
    if m[p].v_left < |m| && m[m[p].v_left].v_right < |m| {
      RRightEntries(m, p);
    }
  }

  lemma RLeftEntries(m: Mem, p: Ptr)
    requires p < |m| && m[p].v_right < |m| && m[m[p].v_right].v_left < |m|
    ensures SameEntries(m, RLeft(m, p))
  {
  }

  lemma RRightEntries(m: Mem, p: Ptr)
    requires p < |m| && m[p].v_left < |m| && m[m[p].v_left].v_right < |m|
    ensures SameEntries(m, RRight(m, p))
  {
  }

  // ---- balance ----

  /** The subtree t has been changed: the balances above are those for the old height. */
  ghost predicate Changed(c: Ctx, t: Tree, d: bool) {
    Avl(t) && if d then AvlCtx(c, H(t) + 1) else Grew(t) && AvlCtx(c, H(t) - 1)
  }

  function Heavy(t: Tree, right: bool): Tree
    requires t.Node?
  {
    if right then HeavyRight(t) else HeavyLeft(t)
  }

  /** The nodes that a rotation needs are there. */
  predicate Turnable(t: Tree, right: bool) {
    && t.Node? && -1 <= t.bal <= 1
    && (right && t.bal == 1 ==> t.r.Node? && -1 <= t.r.bal <= 1 && (t.r.bal == -1 ==> t.r.l.Node?))
    && (!right && t.bal == -1 ==> t.l.Node? && -1 <= t.l.bal <= 1 && (t.l.bal == 1 ==> t.l.r.Node?))
  }

  /** A node one of whose sides is heavier than its balance says. */
  predicate Leaning(j: Tree, right: bool, d: bool) {
    && j.Node? && Avl(j.l) && Avl(j.r) && -1 <= j.bal <= 1
    && if right then H(j.r) == H(j.l) + j.bal + 1 && (!d ==> Grew(j.r)) else H(j.l) == H(j.r) - j.bal + 1 && (!d ==> Grew(j.l))
  }

  /** The height of its subtree before the change. */
  function OldHeight(j: Tree, right: bool, d: bool): nat
    requires Leaning(j, right, d)
  {
    if right == d then 1 + Max(H(j.l) + (if d then 1 else -1), H(j.r)) else 1 + Max(H(j.l), H(j.r) + (if d then 1 else -1))
  }

  lemma JoinLeans(c: Ctx, t: Tree, d: bool)
    requires !c.Top? && Changed(c, t, d)
    ensures Leaning(Join(c, t), c.Right? != d, d)
    ensures AvlCtx(c.c, OldHeight(Join(c, t), c.Right? != d, d))
  {
  }

  lemma LeaningTurns(j: Tree, right: bool, d: bool)
    requires Leaning(j, right, d)
    ensures Turnable(j, right)
  {
  }

  lemma LeaningHeavy(j: Tree, right: bool, d: bool)
    requires Leaning(j, right, d)
    ensures Rebalanced(Heavy(j, right), d, OldHeight(j, right, d))
  {
    hide HeavyRight, HeavyLeft;
    if right {
      HeavyRightAvl(j, d);
    } else {
      HeavyLeftAvl(j, d);
    }
  }

  lemma ChangedTop(c: Ctx, t: Tree, d: bool)
    requires Changed(c, t, d) && c.Top?
    ensures Avl(t) && AvlCtx(c, H(t))
  {
  }

  lemma HeavyIs(t: Tree, right: bool)
    requires Turnable(t, right)
    ensures t.Node? && Heavy(t, right) == if right then HeavyRight(t) else HeavyLeft(t)
  {
  }

  /** One turn of the loop: the subtree is rebalanced, and its balance tells whether to go on. */
  lemma HeavyStep(c: Ctx, t: Tree, d: bool)
    requires !c.Top? && Changed(c, t, d)
    ensures Turnable(Join(c, t), c.Right? != d)
    ensures var t' := Heavy(Join(c, t), c.Right? != d);
            Avl(t') && t'.Node? && if (t'.bal == 0) != d then AvlCtx(c.c, H(t')) else Changed(c.c, t', d)
  {
    hide HeavyRight, HeavyLeft, Heavy, Turnable, Leaning, Grew, Avl, H;
    JoinLeans(c, t, d);
    LeaningTurns(Join(c, t), c.Right? != d, d);
    LeaningHeavy(Join(c, t), c.Right? != d, d);
  }

  lemma HeavyAlike(t: Tree, right: bool)
    requires t.Node?
    ensures Alike(t, Heavy(t, right))
  {
    if right {
      HeavyRightAlike(t);
    } else {
      HeavyLeftAlike(t);
    }
  }

  lemma {:induction false} PlugPtrs(c: Ctx, t: Tree)
    ensures Ptrs(Plug(c, t)) == Ptrs(t) + CtxPtrs(c)
    decreases c
  {
    match c
    case Top =>
    case Left(p, e, bal, r, c') => PlugPtrs(c', Node(p, e, bal, t, r));
    case Right(p, e, bal, l, c') => PlugPtrs(c', Node(p, e, bal, l, t));
  }

  lemma PlugAlike(c: Ctx, t: Tree, t': Tree)
    requires Alike(t, t')
    ensures Inorder(Plug(c, t')) == Inorder(Plug(c, t)) && Ptrs(Plug(c, t')) == Ptrs(Plug(c, t))
  {
    PlugInorder(c, t);
    PlugInorder(c, t');
    PlugPtrs(c, t);
    PlugPtrs(c, t');
  }

  lemma {:induction false} AtPlug(m: Mem, c: Ctx, t: Tree)
    requires At(m, c, t)
    ensures At(m, Top, Plug(c, t))
    decreases c
  {
    if !c.Top? {
      Zip(m, c, t);
      AtPlug(m, c.c, Join(c, t));
    }
  }

  lemma {:induction false} PlugAt(m: Mem, c: Ctx, t: Tree)
    requires At(m, Top, Plug(c, t))
    ensures At(m, c, t)
    decreases c
  {
    if !c.Top? {
      PlugAt(m, c.c, Join(c, t));
      Zip(m, c, t);
    }
  }

  lemma {:induction false} AvlPlug(c: Ctx, t: Tree)
    requires Avl(Plug(c, t))
    ensures Avl(t) && AvlCtx(c, H(t))
    decreases c
  {
    if !c.Top? {
      AvlPlug(c.c, Join(c, t));
    }
  }

  lemma PlugJoin(c: Ctx, t: Tree)
    requires !c.Top?
    ensures Plug(c, t) == Plug(c.c, Join(c, t))
  {
  }

  /** The links tell which way the place lies. */
  lemma WhichWay(m: Mem, c: Ctx, t: Tree)
    requires At(m, c, t)
    ensures 0 < Up(c) < |m| && (m[Up(c)].v_parent == 0 <==> c.Top?)
    ensures !c.Top? ==> m[Up(c)].v_parent == Up(c.c) < |m| && (m[Up(c.c)].v_right == Up(c) <==> c.c.Right?) && Join(c, t).p == Up(c)
  {
    CtxBounds(m, c, Root(t));
    if !c.Top? {
      CtxBounds(m, c.c, c.p);
      OtherSide(m, c.c, c.p);
    }
  }

  lemma OtherSide(m: Mem, c: Ctx, hole: Ptr)
    requires RepCtx(m, c, hole) && hole != 0 && hole !in CtxPtrs(c)
    ensures Up(c) < |m| && (m[Up(c)].v_right == hole <==> c.Right?)
  {
    if c.Left? && c.r.Node? {
      assert c.r.p in Ptrs(c.r);
    }
  }

  // ---- going down ----

  function LeftOf(c: Ctx, t: Tree): Ctx
    requires t.Node?
  {
    Left(t.p, t.e, t.bal, t.r, c)
  }

  function RightOf(c: Ctx, t: Tree): Ctx
    requires t.Node?
  {
    Right(t.p, t.e, t.bal, t.l, c)
  }

  lemma AtNode(m: Mem, c: Ctx, t: Tree)
    requires At(m, c, t)
    ensures 0 < Up(c) < |m| && (t.Node? <==> Root(t) != 0)
    ensures Root(t) == if c.Right? then m[Up(c)].v_right else m[Up(c)].v_left
    ensures t.Node? ==> HEAD < t.p < |m| && m[t.p] == Varent(t.e.name, t.e.vec, Root(t.l), Root(t.r), Up(c), t.bal)
    ensures t.Node? ==> At(m, LeftOf(c, t), t.l) && At(m, RightOf(c, t), t.r)
  {
    CtxBounds(m, c, Root(t));
    RepBounds(m, t, Up(c));
    if t.Node? {
      Zip(m, LeftOf(c, t), t.l);
      Zip(m, RightOf(c, t), t.r);
    }
  }

  /** The entry of a node of the tree. */
  lemma EntryIn(c: Ctx, t: Tree)
    requires t.Node?
    ensures t.e in Inorder(Plug(c, t)) && t.p in Ptrs(Plug(c, t))
  {
    PlugInorder(c, t);
    PlugPtrs(c, t);
  }

  /** The entries around a node. */
  lemma AroundNode(c: Ctx, t: Tree)
    requires t.Node? && Sorted(Inorder(Plug(c, t)))
    ensures Inorder(Plug(c, t)) == (Before(c) + Inorder(t.l)) + [t.e] + (Inorder(t.r) + After(c))
    ensures Word(t.e.name) && Between(Before(c) + Inorder(t.l), t.e.name, Inorder(t.r) + After(c))
    ensures Sorted(Before(c) + Inorder(t.l)) && Sorted(Inorder(t.r) + After(c))
  {
    hide Sorted, Between, Before, After, Plug;
    PlugInorder(c, t);
    Around(Before(c), Inorder(t.l), [t.e], Inorder(t.r), After(c));
    var a, b := Before(c) + Inorder(t.l), Inorder(t.r) + After(c);
    assert Inorder(Plug(c, t)) == a + [t.e] + b by {
      assert a + [t.e] + b == Before(c) + Inorder(t.l) + ([t.e] + Inorder(t.r) + After(c));
    }
    SortedBetween(a, b, t.e);
    SortedParts(a, b);
    BetweenWord(a, t.e.name, b);
  }

  lemma BetweenWord(a: seq<Entry>, name: Name, b: seq<Entry>)
    requires Between(a, name, b)
    ensures Word(name)
  {
  }

  lemma BetweenLess(a: seq<Entry>, e: Name, b: seq<Entry>, b': seq<Entry>, name: Name)
    requires Between(a, e, b + b') && Sorted(b + b') && Word(name) && Cmp(name, e) < 0
    ensures forall i :: 0 <= i < |b| ==> Cmp(name, b[i].name) < 0
  {
    forall i | 0 <= i < |b| ensures Cmp(name, b[i].name) < 0 {
      assert (b + b')[i] == b[i];
      CmpLess(name, e, b[i].name);
    }
  }

  lemma BetweenMore(a: seq<Entry>, a': seq<Entry>, e: Name, b: seq<Entry>, name: Name)
    requires Between(a + a', e, b) && Sorted(a + a') && Word(name) && Cmp(name, e) > 0
    ensures forall i :: 0 <= i < |a'| ==> Cmp(a'[i].name, name) < 0
  {
    CmpMirror(name, e);
    forall i | 0 <= i < |a'| ensures Cmp(a'[i].name, name) < 0 {
      assert (a + a')[|a| + i] == a'[i];
      CmpLess(a'[i].name, e, name);
    }
  }

  /** Where a name may be below a node. */
  lemma SearchStep(c: Ctx, t: Tree, name: Name)
    requires t.Node? && Sorted(Inorder(Plug(c, t))) && Between(Before(c), name, After(c))
    ensures Cmp(name, t.e.name) < 0 ==> Between(Before(LeftOf(c, t)), name, After(LeftOf(c, t)))
    ensures Cmp(name, t.e.name) > 0 ==> Between(Before(RightOf(c, t)), name, After(RightOf(c, t)))
  {
    hide Plug, Sorted, Cmp;
    AroundNode(c, t);
    if Cmp(name, t.e.name) < 0 {
      BetweenLess(Before(c) + Inorder(t.l), t.e.name, Inorder(t.r), After(c), name);
    }
    if Cmp(name, t.e.name) > 0 {
      CmpMirror(name, t.e.name);
      BetweenMore(Before(c), Inorder(t.l), t.e.name, Inorder(t.r) + After(c), name);
    }
  }

  lemma StartSearch(t: Tree, name: Name)
    requires Word(name)
    ensures Plug(Top, t) == t && Between(Before(Top), name, After(Top))
  {
  }

  lemma CmpFirst(a: Name, b: Name)
    ensures First(a) != First(b) ==> Cmp(a, b) == First(a) - First(b)
  {
  }

  lemma HoldsAt(s: seq<Entry>, vars: map<Name, Vec>, e: Entry)
    requires Holds(s, vars) && e in s
    ensures e.name in vars && vars[e.name] == e.vec
  {
  }

  /** The search has ended at a free place. */
  lemma NotThere(c: Ctx, name: Name, vars: map<Name, Vec>)
    requires Sorted(Inorder(Plug(c, Leaf))) && Holds(Inorder(Plug(c, Leaf)), vars) && Between(Before(c), name, After(c))
    ensures name !in vars
  {
    PlugInorder(c, Leaf);
    assert Before(c) + [] + After(c) == Before(c) + After(c);
    if name in vars {
      BetweenOther(Before(c), After(c), name, Entry(name, vars[name]));
    }
  }

  // ---- changing entries, and new nodes ----

  function PutEntry(m: Mem, p: Ptr, e: Entry): Mem {
    if p < |m| then m[p := m[p].(v_name := e.name, vec := e.vec)] else m
  }

  lemma AtEntry(m: Mem, c: Ctx, t: Tree, e: Entry)
    requires At(m, c, t) && t.Node?
    ensures At(PutEntry(m, t.p, e), c, t.(e := e))
  {
    var m' := PutEntry(m, t.p, e);
    UpOutside(m, c, t);
    RepFrame(m, m', t.l, t.p);
    RepFrame(m, m', t.r, t.p);
    CtxFrame(m, m', c, Root(t));
  }

  lemma AtNew(m: Mem, c: Ctx, e: Entry)
    requires At(m, c, Leaf)
    ensures Up(c) < |m|
    ensures At(SetLink(m + [Varent(e.name, e.vec, 0, 0, Up(c), 0)], Up(c), c.Right?, |m|), c, Node(|m|, e, 0, Leaf, Leaf))
  {
    CtxBounds(m, c, 0);
    HeadApart(m, c, 0);
    var m1 := m + [Varent(e.name, e.vec, 0, 0, Up(c), 0)];
    CtxFrame(m, m1, c, 0);
    CtxLink(m1, SetLink(m1, Up(c), c.Right?, |m|), c, 0, |m|);
  }

  /** The place of a node in the tree. */
  lemma {:induction false} Locate(c: Ctx, t: Tree, p: Ptr) returns (c': Ctx, t': Tree)
    requires p in Ptrs(t)
    ensures Plug(c', t') == Plug(c, t) && t'.Node? && t'.p == p
    decreases t
  {
    if t.p == p {
      c', t' := c, t;
    } else if p in Ptrs(t.l) {
      c', t' := Locate(LeftOf(c, t), t.l, p);
    } else {
      c', t' := Locate(RightOf(c, t), t.r, p);
    }
  }

  lemma EntryReplaced(c: Ctx, t: Tree, vec: Vec, vars: map<Name, Vec>)
    requires t.Node? && Sorted(Inorder(Plug(c, t))) && Holds(Inorder(Plug(c, t)), vars)
    ensures var t' := t.(e := t.e.(vec := vec));
            Sorted(Inorder(Plug(c, t'))) && Holds(Inorder(Plug(c, t')), vars[t.e.name := vec]) && Ptrs(Plug(c, t')) == Ptrs(Plug(c, t))
  {
    var t' := t.(e := t.e.(vec := vec));
    AroundNode(c, t);
    ReplacedHolds(Before(c) + Inorder(t.l), Inorder(t.r) + After(c), t.e, vec, vars);
    InorderAt(c, t');
    PlugPtrs(c, t);
    PlugPtrs(c, t');
  }

  lemma InorderAt(c: Ctx, t: Tree)
    requires t.Node?
    ensures Inorder(Plug(c, t)) == (Before(c) + Inorder(t.l)) + [t.e] + (Inorder(t.r) + After(c))
  {
    PlugInorder(c, t);
    Around(Before(c), Inorder(t.l), [t.e], Inorder(t.r), After(c));
  }

  lemma NodeAdded(c: Ctx, p: Ptr, e: Entry, vars: map<Name, Vec>)
    requires Sorted(Inorder(Plug(c, Leaf))) && Holds(Inorder(Plug(c, Leaf)), vars) && Between(Before(c), e.name, After(c))
    ensures var t := Node(p, e, 0, Leaf, Leaf);
            Sorted(Inorder(Plug(c, t))) && Holds(Inorder(Plug(c, t)), vars[e.name := e.vec])
  {
    var t := Node(p, e, 0, Leaf, Leaf);
    PlugInorder(c, Leaf);
    PlugInorder(c, t);
    assert Before(c) + [] + After(c) == Before(c) + After(c);
    assert Inorder(t) == [e];
    InsertedHolds(Before(c), After(c), e, vars);
  }

  lemma AvlEntry(t: Tree, e: Entry)
    requires Avl(t) && t.Node?
    ensures Avl(t.(e := e)) && H(t.(e := e)) == H(t)
  {
  }

  lemma NewGrew(c: Ctx, t: Tree, p: Ptr, e: Entry)
    requires Avl(Plug(c, Leaf)) && t == Node(p, e, 0, Leaf, Leaf)
    ensures Changed(c, t, false)
  {
    AvlPlug(c, Leaf);
  }

  // ---- taking a node out ----

  /** One child of the node takes its place. */
  lemma AtPull(m: Mem, c: Ctx, t: Tree, x: Tree)
    requires At(m, c, t) && t.Node? && (x == t.l || x == t.r)
    ensures Up(c) < |m|
    ensures At(Reparent(SetLink(m, Up(c), c.Right?, Root(x)), Root(x), Up(c)), c, x)
  {
    UpOutside(m, c, t);
    RepBounds(m, x, t.p);
    var m1 := Reparent(m, Root(x), Up(c));
    var m2 := Reparent(SetLink(m, Up(c), c.Right?, Root(x)), Root(x), Up(c));
    RepReparent(m, x, t.p, Up(c));
    assert x.Node? ==> Root(x) in Ptrs(x);
    RepFrame(m1, m2, x, Up(c));
    CtxLink(m, m2, c, t.p, Root(x));
  }

  lemma PulledWay(m: Mem, c: Ctx, t: Tree)
    requires At(m, c, t) && t.Node?
    ensures Up(c) < |m| && (m[Up(c)].v_right == t.p <==> c.Right?)
  {
    AtNode(m, c, t);
    OtherSide(m, c, t.p);
  }

  lemma NoChild(m: Mem, c: Ctx, t: Tree)
    requires At(m, c, t) && t.Node?
    ensures t.p < |m| && (m[t.p].v_right == 0 <==> t.r.Leaf?) && (m[t.p].v_left == 0 <==> t.l.Leaf?)
    ensures m[t.p].v_right == Root(t.r) && m[t.p].v_left == Root(t.l)
  {
    AtNode(m, c, t);
    AtNode(m, LeftOf(c, t), t.l);
    AtNode(m, RightOf(c, t), t.r);
  }

  /** The last node below. */
  function Last(c: Ctx, t: Tree): (Ctx, Tree)
    decreases t
  {
    if t.Node? && t.r.Node? then Last(RightOf(c, t), t.r) else (c, t)
  }

  lemma {:induction false} LastFacts(c: Ctx, t: Tree)
    requires t.Node?
    ensures var (c', t') := Last(c, t);
            Plug(c', t') == Plug(c, t) && After(c') == After(c) && t'.Node? && t'.r.Leaf?
    decreases t
  {
    if t.r.Node? {
      LastFacts(RightOf(c, t), t.r);
      PlugJoin(RightOf(c, t), t.r);
    }
  }

  lemma {:induction false} LastTree(c: Ctx, c': Ctx, t: Tree)
    ensures Last(c, t).1 == Last(c', t).1
    decreases t
  {
    if t.Node? && t.r.Node? {
      LastTree(RightOf(c, t), RightOf(c', t), t.r);
    }
  }

  /** The entries without that of a node. */
  function Without(c: Ctx, t: Tree): seq<Entry>
    requires t.Node?
  {
    (Before(c) + Inorder(t.l)) + (Inorder(t.r) + After(c))
  }

  lemma WithoutHolds(c: Ctx, t: Tree, vars: map<Name, Vec>)
    requires t.Node? && Sorted(Inorder(Plug(c, t))) && Holds(Inorder(Plug(c, t)), vars)
    ensures Sorted(Without(c, t)) && Holds(Without(c, t), vars - {t.e.name})
  {
    AroundNode(c, t);
    RemovedHolds(Before(c) + Inorder(t.l), Inorder(t.r) + After(c), t.e, vars);
  }

  function EntryOf(t: Tree): Entry { if t.Node? then t.e else Entry([], []) }

  /** Taking out a node with one child at most. */
  lemma PullOne(c: Ctx, t: Tree, x: Tree)
    requires t.Node? && Avl(Plug(c, t)) && ((t.r.Leaf? && x == t.l) || (t.l.Leaf? && x == t.r))
    ensures Changed(c, x, true) && Inorder(Plug(c, x)) == Without(c, t)
  {
    AvlPlug(c, t);
    PullOneSame(c, t, x);
  }

  lemma PullOneSame(c: Ctx, t: Tree, x: Tree)
    requires t.Node? && ((t.r.Leaf? && x == t.l) || (t.l.Leaf? && x == t.r))
    ensures Inorder(Plug(c, x)) == Without(c, t)
  {
    hide Before, After, Plug;
    PlugInorder(c, x);
    if t.r.Leaf? && x == t.l {
      assert Inorder(t.r) + After(c) == After(c);
    } else {
      assert Before(c) + Inorder(t.l) == Before(c);
      assert Before(c) + Inorder(t.r) + After(c) == Before(c) + (Inorder(t.r) + After(c));
    }
  }

  /** The predecessor is taken out after its entry has been copied to the node. */
  lemma PullLast(c: Ctx, t: Tree)
    requires t.Node? && t.l.Node? && Avl(Plug(c, t))
    ensures var q := Last(LeftOf(c, t), t.l).1;
            var t' := t.(e := EntryOf(q));
            var c2 := Last(LeftOf(c, t'), t.l).0;
            q.Node? && q.r.Leaf? && Plug(c2, q) == Plug(c, t') && Avl(Plug(c2, q)) && Without(c2, q) == Without(c, t)
  {
    LastFacts(LeftOf(c, t), t.l);
    var q := Last(LeftOf(c, t), t.l).1;
    var t' := t.(e := q.e);
    LastTree(LeftOf(c, t), LeftOf(c, t'), t.l);
    LastFacts(LeftOf(c, t'), t.l);
    var c2 := Last(LeftOf(c, t'), t.l).0;
    PlugJoin(LeftOf(c, t'), t.l);
    AvlPlug(c, t);
    AvlEntry(t, q.e);
    PlugAvl(c, t');
    InorderAt(c2, q);
    InorderAt(c, t');
    Cancel(Before(c2) + Inorder(q.l), Before(c) + Inorder(t.l), [q.e], Inorder(t.r) + After(c), Inorder(q.r) + After(c2));
  }

  lemma Cancel(a: seq<Entry>, b: seq<Entry>, e: seq<Entry>, z: seq<Entry>, y: seq<Entry>)
    requires a + e + y == b + e + z && y == e + z
    ensures a + y == b + z
  {
    assert a + e + y == a + e + (e + z);
    assert |a + e + e| == |b + e|;
    assert (a + e + y)[..|a + e + e|] == a + e + e;
    assert (b + e + z)[..|a + e + e|] == b + e;
    assert (a + e + e)[..|a + e|] == a + e && (b + e)[..|b|] == b;
    assert a + y == a + e + z;
  }

  // ---- the walk in order ----

  lemma StartList(t: Tree)
    ensures Plug(Top, t) == t && Before(Top) == [] && Inorder(Leaf) == []
  {
  }

  lemma ListedAll(c: Ctx, t: Tree)
    requires c.Top?
    ensures Before(c) + Inorder(t) == Inorder(Plug(c, t))
  {
  }

  lemma BeforeLeft(c: Ctx, t: Tree)
    requires t.Node?
    ensures Before(LeftOf(c, t)) == Before(c) && Before(c) + Inorder(Leaf) == Before(c)
  {
  }

  lemma BeforeJoin(c: Ctx, t: Tree)
    requires c.Right?
    ensures Before(c.c) + Inorder(Join(c, t)) == Before(c) + Inorder(t)
  {
    assert Before(c.c) + (Inorder(c.l) + [c.e] + Inorder(t)) == Before(c.c) + Inorder(c.l) + [c.e] + Inorder(t);
  }

  /** After the left side of a node comes its entry. */
  lemma NextEntry(c: Ctx, t: Tree)
    requires c.Left?
    ensures var j, out := Join(c, t), Before(c) + Inorder(t) + [c.e];
            && out == Before(RightOf(c.c, j))
            && (j.r.Leaf? ==> out == Before(c.c) + Inorder(j))
            && |Before(c) + Inorder(t)| < |Inorder(Plug(c, t))|
  {
    PlugInorder(c, t);
    var j := Join(c, t);
    if j.r.Leaf? {
      assert Inorder(j) == Inorder(t) + [c.e];
    }
  }
}
