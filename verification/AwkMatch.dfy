/** makedfa and match of awk's b.c: a string is accepted exactly when part of it is in the language. */
module AwkMatch {
  import opened AwkRe
  import opened AwkRuns
  import opened AwkFollow
  import opened AwkDfa

  /** A string as match reads it: a zero after the last character. */
  function At(s: seq<int>, i: nat): int
    requires i <= |s|
  {
    if i < |s| then s[i] else 0
  }

  /** Where the transitions of a state lead; 0 when there is none for c. */
  method Next(trans: seq<(int, nat)>, c: int) returns (t: nat)
    ensures (exists e :: 0 <= e < |trans| && trans[e] == (c, t)) || (t == 0 && !HasChar(trans, c))
  {
    var count := |trans|;
    while count > 0
      invariant 0 <= count <= |trans|
      invariant forall e :: count <= e < |trans| ==> trans[e].0 != c
    {
      if trans[count - 1].0 == c {
        return trans[count - 1].1;
      }
      count := count - 1;
    }
    t := 0;
  }

  /** The text read so far has led to state t without a match. */
  ghost predicate Reading(re: Re, syms: seq<Symbol>, states: seq<seq<nat>>, d: seq<Fa>, s: seq<int>, i: nat, t: nat) {
    && |syms| == Line(re) && i <= |s| && t < |states| == |d|
    && Act(re, states[t]) == Active(re, syms, s[..i])
    && forall k :: 0 <= k < i ==> Line(re) !in Active(re, syms, s[..k])
  }

  /** Some prefix of the text ends in a match. */
  ghost predicate Hit(re: Re, syms: seq<Symbol>, s: seq<int>) {
    |syms| == Line(re) && exists k :: 0 <= k <= |s| && Line(re) in Active(re, syms, s[..k])
  }

  lemma ReadingStart(re: Re, syms: seq<Symbol>, states: seq<seq<nat>>, d: seq<Fa>, s: seq<int>)
    requires DfaOk(re, syms, states, d) && |syms| == Line(re)
    ensures Reading(re, syms, states, d, s, 0, 0)
  {
    assert s[..0] == [];
  }

  lemma StateAt(re: Re, syms: seq<Symbol>, states: seq<seq<nat>>, d: seq<Fa>, t: nat)
    requires DfaOk(re, syms, states, d) && t < |d|
    ensures StateOk(re, syms, states, t, d[t]) && |states| == |d|
  {
  }

  lemma FinalHit(re: Re, syms: seq<Symbol>, states: seq<seq<nat>>, d: seq<Fa>, s: seq<int>, i: nat, t: nat)
    requires DfaOk(re, syms, states, d) && Reading(re, syms, states, d, s, i, t) && d[t].final
    ensures Hit(re, syms, s)
  {
    StateAt(re, syms, states, d, t);
  }

  lemma NoHit(re: Re, syms: seq<Symbol>, states: seq<seq<nat>>, d: seq<Fa>, s: seq<int>, t: nat)
    requires DfaOk(re, syms, states, d) && Reading(re, syms, states, d, s, |s|, t) && !d[t].final
    ensures !Hit(re, syms, s)
  {
    StateAt(re, syms, states, d, t);
    forall k | 0 <= k <= |s| ensures Line(re) !in Active(re, syms, s[..k]) {
    }
  }

  /** One character of the text. */
  lemma ReadOne(re: Re, syms: seq<Symbol>, states: seq<seq<nat>>, d: seq<Fa>, s: seq<int>, i: nat, t: nat, t': nat)
    requires DfaOk(re, syms, states, d) && Reading(re, syms, states, d, s, i, t) && !d[t].final && i < |s|
    requires (exists e :: 0 <= e < |d[t].trans| && d[t].trans[e] == (s[i], t')) || (t' == 0 && !HasChar(d[t].trans, s[i]))
    ensures t' < |d| && Reading(re, syms, states, d, s, i + 1, t')
  {
    StateAt(re, syms, states, d, t);
    StateAt(re, syms, states, d, 0);
    var S := Act(re, states[t]);
    assert s[..i + 1][..i] == s[..i] && s[..i + 1][i] == s[i];
    assert Active(re, syms, s[..i + 1]) == Init(re) + Move(re, syms, S, s[i]);
    hide Move, Init, Active;
    if e :| 0 <= e < |d[t].trans| && d[t].trans[e] == (s[i], t') {
      assert Leads(re, syms, states, S, d[t].trans[e].0, d[t].trans[e].1);
    } else {
      assert HasChar(d[t].trans, s[i]) || Stays(re, syms, S, s[i]);
    }
  }

  /** A zero has no transitions: it leads to state 0. */
  lemma ReadZero(re: Re, syms: seq<Symbol>, states: seq<seq<nat>>, d: seq<Fa>, t: nat)
    requires DfaOk(re, syms, states, d) && t < |d| && !d[t].final
    ensures !HasChar(d[t].trans, 0)
  {
    StateAt(re, syms, states, d, t);
    forall e | 0 <= e < |d[t].trans| ensures d[t].trans[e].0 != 0 {
      assert Leads(re, syms, states, Act(re, states[t]), d[t].trans[e].0, d[t].trans[e].1);
    }
  }

  lemma ZeroState(re: Re, syms: seq<Symbol>, states: seq<seq<nat>>, d: seq<Fa>, s: seq<int>)
    requires DfaOk(re, syms, states, d) && |syms| == Line(re) && d[0].final
    ensures Hit(re, syms, s)
  {
    ReadingStart(re, syms, states, d, s);
    FinalHit(re, syms, states, d, s, 0, 0);
  }

  /** The loop of match from the label adv on. */
  method Run(d: seq<Fa>, s: seq<int>, i0: nat, t0: nat, ghost re: Re, ghost syms: seq<Symbol>, ghost states: seq<seq<nat>>)
    returns (r: int)
    requires DfaOk(re, syms, states, d) && |syms| == Line(re) && i0 <= |s| && t0 < |d|
    requires forall k :: 0 <= k < |s| ==> s[k] != 0
    requires Reading(re, syms, states, d, s, i0, t0)
    ensures r == 1 || r == 0
    ensures r == 1 <==> Hit(re, syms, s)
  {
    hide DfaOk, Reading, Hit, HasChar;
    var i, t := i0, t0;
    if d[t].final {
      FinalHit(re, syms, states, d, s, i, t);
      return 1;
    }
    while true
      invariant i <= |s| && t < |d| && !d[t].final && Reading(re, syms, states, d, s, i, t)
      decreases |s| - i
    {
      var c := At(s, i);
      var t' := Next(d[t].trans, c);
      if i < |s| {
        ReadOne(re, syms, states, d, s, i, t, t');
        if d[t'].final {
          FinalHit(re, syms, states, d, s, i + 1, t');
        }
      } else {
        ReadZero(re, syms, states, d, t);
        NoHit(re, syms, states, d, s, t);
        NoZeroEntry(d[t].trans);
        DfaNonempty(re, syms, states, d, s);
      }
      t := t';
      if d[t].final {
        return 1;
      }
      if c == 0 {
        return 0;
      }
      i := i + 1;
    }
  }

  lemma NoZeroEntry(trans: seq<(int, nat)>)
    requires !HasChar(trans, 0)
    ensures forall e :: 0 <= e < |trans| ==> trans[e].0 != 0
  {
  }

  lemma DfaNonempty(re: Re, syms: seq<Symbol>, states: seq<seq<nat>>, d: seq<Fa>, s: seq<int>)
    requires DfaOk(re, syms, states, d) && |syms| == Line(re)
    ensures d != [] && (d[0].final ==> Hit(re, syms, s))
  {
    if d[0].final {
      ZeroState(re, syms, states, d, s);
    }
  }

  /** match: 1 when some prefix of the text ends in a match. */
  method Match(d: seq<Fa>, s: seq<int>, ghost re: Re, ghost syms: seq<Symbol>, ghost states: seq<seq<nat>>) returns (r: int)
    requires DfaOk(re, syms, states, d) && |syms| == Line(re)
    requires forall k :: 0 <= k < |s| ==> s[k] != 0
    ensures r == 1 || r == 0
    ensures r == 1 <==> Hit(re, syms, s)
  {
    hide DfaOk, Reading, Hit, HasChar;
    DfaNonempty(re, syms, states, d, s);
    ReadingStart(re, syms, states, d, s);
    var i := 0;
    if !d[0].final && |d[0].trans| == 1 {
      // only one character leads out of state 0: look for it
      var (c, t) := d[0].trans[0];
      while At(s, i) != c
        invariant i <= |s| && Reading(re, syms, states, d, s, i, 0)
        decreases |s| - i
      {
        if i == |s| {
          NoHit(re, syms, states, d, s, 0);
          return 0;
        }
        OnlyChar(d[0].trans, s[i]);
        ReadOne(re, syms, states, d, s, i, 0, 0);
        i := i + 1;
      }
      ReadZero(re, syms, states, d, 0);
      NoZeroEntry(d[0].trans);
      assert d[0].trans[0] == (s[i], t);
      ReadOne(re, syms, states, d, s, i, 0, t);
      r := Run(d, s, i + 1, t, re, syms, states);
    } else {
      r := Run(d, s, 0, 0, re, syms, states);
    }
  }

  lemma OnlyChar(trans: seq<(int, nat)>, c: int)
    requires |trans| == 1 && trans[0].0 != c
    ensures !HasChar(trans, c)
  {
  }

  /** The leaves of the tree carry the symbols of the table. */
  ghost predicate Labelled(s: Shape, syms: seq<Symbol>) {
    match s
    case SLeaf(n, i) => i < |syms| && n.kind == KLeaf(syms[i])
    case SUn(_, e) => Labelled(e, syms)
    case SBin(_, l, r) => Labelled(l, syms) && Labelled(r, syms)
  }

  lemma {:induction false} NumberedBelow(s: Shape, lo: nat, line: nat)
    requires Numbered(ReOf(s), lo) && lo + Size(ReOf(s)) <= line
    ensures LeavesBelow(s, line) && Size(ReOf(s)) >= 1
  {
    match s
    case SLeaf(_, _) =>
    case SUn(_, e) => NumberedBelow(e, lo, line);
    case SBin(_, l, r) =>
      FirstInside(ReOf(r), lo + Size(ReOf(l)));
      NumberedBelow(l, lo, line);
      NumberedBelow(r, lo + Size(ReOf(l)), line);
  }

  lemma {:induction false} LabelledPoints(s: Shape, lo: nat, pt: seq<Node?>, syms: seq<Symbol>)
    requires Numbered(ReOf(s), lo) && Pointed(s, pt) && Labelled(s, syms) && WellShaped(s)
    ensures lo + Size(ReOf(s)) <= |pt| && lo + Size(ReOf(s)) <= |syms|
    ensures forall i :: lo <= i < lo + Size(ReOf(s)) ==> LeafIs(pt[i], syms[i])
  {
    match s
    case SLeaf(_, _) =>
    case SUn(_, e) =>
      LabelledPoints(e, lo, pt, syms);
    case SBin(_, l, r) =>
      LabelledPoints(l, lo, pt, syms);
      LabelledPoints(r, lo + Size(ReOf(l)), pt, syms);
  }

  /** The lists of the whole tree, DOT STAR in front, are those of the expression itself. */
  lemma WholeFollow(re: Re, i: nat)
    requires Numbered(re, 1) && i < Line(re)
    ensures AwkRe.Follow(Cat(Star(Leaf(0)), re), 0, {Line(re)}, i) - {0} == if i == 0 then Init(re) else After(re, i)
  {
    FirstInside(re, 1);
    if i > 0 {
      FollowInside(re, 1, {Line(re)}, i);
    }
  }

  method Hang(n: Node, above: Node, ghost s: Shape)
    requires s.n == n && Entered(s) && WellShaped(s) && above !in Nodes(s)
    modifies n`parent
    ensures Entered(s) && n.parent == above
  {
    NodesAllocated(s);
    n.parent := above;
    EnteredKept(s);
  }

  /** The shape of the tree that makedfa builds around p. */
  ghost function Whole(cat: Node, star: Node, dot: Node, s: Shape): Shape {
    SBin(cat, SUn(star, SLeaf(dot, 0)), s)
  }

  lemma WholeShape(cat: Node, star: Node, dot: Node, fin: Node, s: Shape, syms: seq<Symbol>)
    requires WellShaped(s) && Numbered(ReOf(s), 1) && cat != star && cat != dot && star != dot && {cat, star, dot} !! Nodes(s)
    requires cat.kind == KCat && cat.left == star && cat.right == s.n && star.kind == KStar && star.left == dot
    requires dot.kind == KLeaf(Dot) && Labelled(s, syms) && |syms| == Line(ReOf(s)) && syms[0] == Dot
    ensures var w := Whole(cat, star, dot, s);
      && WellShaped(w) && Numbered(ReOf(w), 0) && Labelled(w, syms) && Size(ReOf(w)) == Line(ReOf(s))
      && ReOf(w) == Cat(Star(Leaf(0)), ReOf(s)) && Nodes(w) == {cat, star, dot} + Nodes(s) && LeavesBelow(w, Line(ReOf(s)))
      && w.n == cat
  {
    var w := Whole(cat, star, dot, s);
    var leaf := SLeaf(dot, 0);
    var front := SUn(star, leaf);
    assert ReOf(leaf) == Leaf(0) && Nodes(leaf) == {dot} && WellShaped(leaf) && Numbered(Leaf(0), 0) && Labelled(leaf, syms);
    assert ReOf(front) == Star(Leaf(0)) && Nodes(front) == {star, dot} && WellShaped(front) && Labelled(front, syms);
    assert Numbered(Star(Leaf(0)), 0) && Size(Leaf(0)) == 1 && Size(Star(Leaf(0))) == 1;
    assert ReOf(w) == Cat(Star(Leaf(0)), ReOf(s)) && WellShaped(w);
    NumberedBelow(w, 0, Line(ReOf(s)));
  }

  lemma TablesReady(g: Sets, re: Re, w: Shape, syms: seq<Symbol>, pt: seq<Node?>)
    requires Numbered(re, 1) && Numbered(ReOf(w), 0) && ReOf(w) == Cat(Star(Leaf(0)), re) && WellShaped(w)
    requires g.line == Line(re) < MAXLIN == g.foll.Length == g.point.Length == |pt| && |syms| == g.line
    requires (forall i :: 0 <= i < g.line ==> ValidSym(syms[i])) && Pointed(w, pt) && Labelled(w, syms)
    requires g.point[g.line] != null && g.point[g.line].kind == KFinal && forall i :: 0 <= i < g.line ==> g.point[i] == pt[i]
    requires forall i :: 0 <= i < g.line ==> IsSorted(g.foll[i], g.line)
    requires FollOk(g.foll[..], g.line, ReOf(w), 0, {g.line})
    ensures Tables(g, re, syms)
  {
    hide IsSorted, IsList, ValidSym, LeafIs, AwkRe.Follow, Init, After;
    LabelledPoints(w, 0, pt, syms);
    assert Size(ReOf(w)) == g.line;
    var fs := g.foll[..];
    forall i | 0 <= i < g.line ensures IsList(g.foll[i], if i == 0 then Init(re) else After(re, i)) {
      WholeFollow(re, i);
      assert IsList(fs[i], AwkRe.Follow(ReOf(w), 0, {g.line}, i) - {0});
    }
  }

  /** The tree around p: DOT STAR in front, FINAL above. */
  method Wrap(p: Node, ghost s: Shape, ghost syms: seq<Symbol>) returns (cat: Node, fin: Node, ghost w: Shape)
    requires s.n == p && WellShaped(s) && Numbered(ReOf(s), 1)
    requires |syms| == Line(ReOf(s)) && syms[0] == Dot && Labelled(s, syms)
    ensures fresh(cat) && fresh(Nodes(w) - Nodes(s)) && Nodes(s) <= Nodes(w) && fresh(fin) && fin !in Nodes(w) && fin.kind == KFinal
    ensures w.n == cat && WellShaped(w) && Numbered(ReOf(w), 0) && Labelled(w, syms) && LeavesBelow(w, Line(ReOf(s)))
    ensures ReOf(w) == Cat(Star(Leaf(0)), ReOf(s)) && Size(ReOf(w)) == Line(ReOf(s))
  {
    hide *;
    NodesAllocated(s);
    var dot := new Node.Op2(KLeaf(Dot), null, null);
    var star := new Node.Op2(KStar, dot, null);
    cat := new Node.Op2(KCat, star, p);
    fin := new Node.Op2(KFinal, cat, null);
    w := Whole(cat, star, dot, s);
    WholeShape(cat, star, dot, fin, s, syms);
  }

  /** Build the tree around p, number its leaves and link it up to FINAL. */
  method EnterTree(p: Node, ghost s: Shape, ghost syms: seq<Symbol>)
    returns (g: Sets, cat: Node, fin: Node, ghost w: Shape, ghost pt: seq<Node?>)
    requires s.n == p && WellShaped(s) && Numbered(ReOf(s), 1) && Line(ReOf(s)) < MAXLIN
    requires |syms| == Line(ReOf(s)) && syms[0] == Dot && Labelled(s, syms)
    modifies Nodes(s)
    ensures fresh(g) && fresh(g.setvec) && fresh(g.foll) && fresh(g.point)
    ensures w.n == cat && WellShaped(w) && Entered(w) && Numbered(ReOf(w), 0) && LeavesBelow(w, g.line)
    ensures ReOf(w) == Cat(Star(Leaf(0)), ReOf(s)) && Size(ReOf(w)) == g.line == Line(ReOf(s))
    ensures cat.parent == fin && fin.kind == KFinal && Pointed(w, pt) && Labelled(w, syms)
    ensures g.setvec.Length == g.foll.Length == g.point.Length == |pt| == MAXLIN && g.setvec[0] == 1
    ensures g.point[g.line] == fin && forall i :: 0 <= i < g.line ==> g.point[i] == pt[i]
  {
    hide *;
    cat, fin, w := Wrap(p, s, syms);
    g := new Sets();
    g.PEnter(cat, w);
    Hang(cat, fin, w);
    pt := g.point[..];
    g.point[g.line] := fin;
    g.setvec[0] := 1;
    NodesAllocated(w);
  }

  /** The automaton of the tree at p.  s and syms name its nodes and its leaves; leaf 0 is the DOT put in front. */
  method MakeDfa(p: Node, ghost s: Shape, ghost syms: seq<Symbol>) returns (r: Option<seq<Fa>>, ghost states: seq<seq<nat>>)
    requires s.n == p && WellShaped(s) && Numbered(ReOf(s), 1) && Line(ReOf(s)) < MAXLIN
    requires |syms| == Line(ReOf(s)) && syms[0] == Dot && Labelled(s, syms)
    requires forall i :: 0 <= i < |syms| ==> ValidSym(syms[i])
    modifies Nodes(s)
    ensures r.None? <==> Overflow(ReOf(s), syms)
    ensures r.Some? ==> DfaOk(ReOf(s), syms, states, r.value)
  {
    hide WellShaped, Numbered, Labelled, Pointed, ReOf, Nodes, Line, ValidSym, DfaOk, Entered, Hangs, IsSorted, FollOk, LeavesBelow, Cont, InLine, Tables, Size, Overflow;
    var g, cat, fin, w, pt := EnterTree(p, s, syms);
    TopContext(w, fin, g.line);
    g.CFoll(cat, w, CTop(fin), 0);
    TablesReady(g, ReOf(s), w, syms, pt);
    r, states := CGotoFn(g, ReOf(s), syms);
  }

  lemma TopContext(w: Shape, fin: Node, line: nat)
    requires w.n.parent == fin && fin.kind == KFinal
    ensures Hangs(w, CTop(fin)) && InLine(CTop(fin), line) && Cont(ReOf(w), CTop(fin), line) == {line}
  {
  }

  /** A prefix ends in a match exactly when some part of the text is in the language. */
  lemma HitIffPart(re: Re, syms: seq<Symbol>, s: seq<int>)
    requires Numbered(re, 1) && |syms| == Line(re)
    ensures Hit(re, syms, s) <==> exists i, j :: 0 <= i <= j <= |s| && Matches(re, syms, s[i..j])
  {
    hide Matches, Active, Line;
    if Hit(re, syms, s) {
      var k :| 0 <= k <= |s| && Line(re) in Active(re, syms, s[..k]);
      FinalIffSuffix(re, syms, s[..k]);
      var i :| 0 <= i <= k && Matches(re, syms, s[..k][i..]);
      assert s[..k][i..] == s[i..k];
    }
    if i, j :| 0 <= i <= j <= |s| && Matches(re, syms, s[i..j]) {
      assert s[..j][i..] == s[i..j];
      FinalIffSuffix(re, syms, s[..j]);
    }
  }

  /** An awk pattern applied to a string: match(makedfa(p), text). */
  method MatchText(p: Node, text: seq<int>, ghost s: Shape, ghost syms: seq<Symbol>) returns (r: Option<int>)
    requires s.n == p && WellShaped(s) && Numbered(ReOf(s), 1) && Line(ReOf(s)) < MAXLIN
    requires |syms| == Line(ReOf(s)) && syms[0] == Dot && Labelled(s, syms)
    requires forall i :: 0 <= i < |syms| ==> ValidSym(syms[i])
    requires forall k :: 0 <= k < |text| ==> text[k] != 0
    modifies Nodes(s)
    ensures r.None? <==> Overflow(ReOf(s), syms)
    ensures r.Some? ==> (r.value == 1 || r.value == 0)
    ensures r.Some? ==> (r.value == 1 <==> exists i, j :: 0 <= i <= j <= |text| && Matches(ReOf(s), syms, text[i..j]))
  {
    hide WellShaped, Labelled, ReOf, Nodes, ValidSym, DfaOk, Hit, Matches, Line, Numbered, Overflow;
    var d, states := MakeDfa(p, s, syms);
    HitIffPart(ReOf(s), syms, text);
    match d
    case None => r := None;
    case Some(fa) =>
      var m := Match(fa, text, ReOf(s), syms, states);
      r := Some(m);
  }
}
