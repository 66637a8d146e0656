/** The subset construction and the matcher of awk's b.c: cgotofn and match.
    A state keeps only the positions beyond those that are always active. */
module AwkDfa {
  import opened AwkRe
  import opened AwkRuns
  import opened AwkFollow

  const NSTATES := 256

  /** A state's transitions; any other character leads back to state 0. */
  datatype Fa = Fa(final: bool, trans: seq<(int, nat)>)

  /** Characters the tables can hold. */
  ghost predicate ValidSym(s: Symbol) {
    match s
    case Char(c) => 1 <= c < NCHARS && c != HAT
    case Dot => true
    case Ccl(chars) => chars != [] && forall c :: c in chars ==> 1 <= c < NCHARS
    case Nccl(chars) => forall c :: c in chars ==> 1 <= c < NCHARS
  }

  /** The comparison made in computing a next state. */
  predicate Test(s: Symbol, c: int) {
    match s
    case Char(k) => c == k
    case Dot => true
    case Ccl(chars) => c in chars
    case Nccl(chars) => c !in chars
  }

  ghost predicate CanMove(syms: seq<Symbol>, S: set<nat>, c: int) {
    exists q :: q in S && Reads(syms, q, c)
  }

  ghost predicate Reads(syms: seq<Symbol>, q: nat, c: int) {
    q < |syms| && Accepts(syms[q], c)
  }

  ghost function Elements(l: seq<nat>): set<nat> {
    set x | x in l
  }

  /** The list of characters noted so far: those in l0, and those of P that were not blocked. */
  ghost predicate Noted(block: seq<int>, m0: seq<int>, l0: seq<int>, m: seq<int>, l: seq<int>, P: set<int>) {
    && |block| == |m0| == |m| == NCHARS && l0 <= l
    && (forall k :: 0 <= k < NCHARS ==> m[k] == if k in P && block[k] == 0 then 1 else m0[k])
    && (forall x :: x in l <==> x in l0 || (0 <= x < NCHARS && x in P && block[x] == 0 && m0[x] == 0))
  }

  method Note(k: int, block: seq<int>, mark: array<int>, l: seq<int>, ghost m0: seq<int>, ghost l0: seq<int>, ghost P: set<int>)
    returns (l': seq<int>)
    requires 0 <= k < NCHARS == mark.Length && Noted(block, m0, l0, mark[..], l, P)
    requires forall i :: 0 <= i < NCHARS ==> m0[i] == 0 || m0[i] == 1
    modifies mark
    ensures Noted(block, m0, l0, mark[..], l', P + {k})
  {
    l' := l;
    if block[k] == 0 && mark[k] == 0 {
      mark[k] := 1;
      l' := l + [k];
    }
  }

  /** Note the characters of one leaf. */
  method Collect(s: Symbol, block: seq<int>, mark: array<int>, l: seq<int>) returns (l': seq<int>)
    requires ValidSym(s) && |block| == mark.Length == NCHARS
    requires forall i :: 0 <= i < NCHARS ==> mark[i] == 0 || mark[i] == 1
    modifies mark
    ensures Noted(block, old(mark[..]), l, mark[..], l', set c | 1 <= c < NCHARS && Accepts(s, c))
  {
    ghost var m0 := mark[..];
    l' := l;
    ghost var P: set<int> := {};
    match s {
      case Char(k) =>
        l' := Note(k, block, mark, l', m0, l, P);
        P := P + {k};
      case Ccl(chars) =>
        for i := 0 to |chars|
          invariant mark.Length == NCHARS && Noted(block, m0, l, mark[..], l', P)
          invariant forall c :: c in P <==> c != HAT && c in chars[..i]
        {
          assert chars[i] in chars && chars[..i + 1] == chars[..i] + [chars[i]];
          if chars[i] != HAT {
            l' := Note(chars[i], block, mark, l', m0, l, P);
            P := P + {chars[i]};
          }
        }
      case _ =>
        for k := 1 to NCHARS
          invariant mark.Length == NCHARS && Noted(block, m0, l, mark[..], l', P)
          invariant P == set c | 1 <= c < k && Accepts(s, c)
        {
          if k != HAT && Test(s, k) {
            l' := Note(k, block, mark, l', m0, l, P);
            P := P + {k};
          }
        }
    }
    if s.Ccl? { assert s.chars[..|s.chars|] == s.chars; }
    assert P == (set c | 1 <= c < NCHARS && Accepts(s, c)) by {
      forall c ensures c in P <==> Accepts(s, c) {
      }
    }
  }

  /** What cfoll and penter have left: the follow lists and the leaves by number. */
  ghost predicate Tables(g: Sets, re: Re, syms: seq<Symbol>)
    reads g`line, g.foll, g.point
  {
    && g.line == Line(re) < MAXLIN == g.foll.Length == g.point.Length && |syms| == g.line && Numbered(re, 1)
    && (forall i :: 0 <= i < g.line ==> ValidSym(syms[i]))
    && (forall i :: 0 <= i < g.line ==> LeafIs(g.point[i], syms[i]))
    && g.point[g.line] != null && g.point[g.line].kind == KFinal
    && (forall i :: 0 <= i < g.line ==> IsSorted(g.foll[i], g.line))
    && IsList(g.foll[0], Init(re))
    && (forall i :: 1 <= i < g.line ==> IsList(g.foll[i], After(re, i)))
  }

  ghost predicate LeafIs(n: Node?, s: Symbol) {
    n != null && n.kind == KLeaf(s)
  }

  /** The flags of the positions that are always active. */
  ghost predicate InitFlags(iposns: seq<int>, line: nat, I: set<nat>) {
    line < |iposns| && forall q :: 1 <= q <= line ==> (iposns[q] == 1 <==> q in I)
  }

  lemma MoveAdds(re: Re, syms: seq<Symbol>, l: seq<nat>, i: nat, c: int)
    requires |syms| == Line(re) && i < |l|
    ensures Move(re, syms, Elements(l[..i + 1]), c)
         == if l[i] < Line(re) && Accepts(syms[l[i]], c) then Move(re, syms, Elements(l[..i]), c) + After(re, l[i])
            else Move(re, syms, Elements(l[..i]), c)
  {
    var q := l[i];
    assert l[..i + 1] == l[..i] + [q];
    assert Elements(l[..i + 1]) == Elements(l[..i]) + {q};
    MoveUnion(re, syms, Elements(l[..i]), q, c);
  }

  lemma MoveUnion(re: Re, syms: seq<Symbol>, S: set<nat>, q: nat, c: int)
    requires |syms| == Line(re)
    ensures Move(re, syms, S + {q}, c)
         == if q < Line(re) && Accepts(syms[q], c) then Move(re, syms, S, c) + After(re, q) else Move(re, syms, S, c)
  {
    hide Accepts, After;
    var A, B := Move(re, syms, S + {q}, c), Move(re, syms, S, c);
    forall j ensures j in A <==> j in B || (q < Line(re) && Accepts(syms[q], c) && j in After(re, q)) {
    }
    if q < Line(re) && Accepts(syms[q], c) {
      assert A == B + After(re, q);
    } else {
      assert A == B;
    }
  }

  lemma MoveMarks(re: Re, syms: seq<Symbol>, l: seq<nat>, i: nat, c: int, M: set<nat>, M': set<nat>)
    requires |syms| == Line(re) && i < |l| && M == Move(re, syms, Elements(l[..i]), c) - Init(re)
    requires M' == if l[i] < Line(re) && Accepts(syms[l[i]], c) then M + (After(re, l[i]) - Init(re)) else M
    ensures M' == Move(re, syms, Elements(l[..i + 1]), c) - Init(re)
  {
    hide Move, Elements, After, Init, Accepts;
    MoveAdds(re, syms, l, i, c);
  }

  method MarkNew(g: Sets, x: nat, iposns: array<int>, ghost I: set<nat>)
    requires g.Tallied() && 1 <= x <= g.line && InitFlags(iposns[..], g.line, I)
    modifies g.setvec, g`setcnt
    ensures g.Tallied() && Marked(g.setvec[..], g.line) == old(Marked(g.setvec[..], g.line)) + ({x} - I)
  {
    hide Marked, IsMarked;
    ghost var v := g.setvec[..];
    MarkedStore(v, g.line, x);
    if g.setvec[x] != 1 && iposns[x] != 1 {
      g.setvec[x] := 1;
      g.setcnt := g.setcnt + 1;
      assert g.setvec[..] == v[x := 1];
    } else if g.setvec[x] == 1 {
      assert v[x := 1] == v;
    }
  }

  lemma ElementsTake(l: seq<nat>, k: nat)
    requires k < |l|
    ensures Elements(l[..k + 1]) == Elements(l[..k]) + {l[k]}
    ensures Elements(l[..|l|]) == Elements(l) && Elements(l[..0]) == {}
  {
    assert l[..k + 1] == l[..k] + [l[k]] && l[..|l|] == l;
  }

  lemma ListElements(l: seq<nat>, A: set<nat>)
    requires IsList(l, A)
    ensures Elements(l) == A
  {
  }

  lemma ListEntry(l: seq<nat>, line: nat, k: nat)
    requires IsSorted(l, line) && k < |l|
    ensures 1 <= l[k] <= line
  {
    assert l[k] in l;
  }

  /** Mark the positions of a follow list that are not always active. */
  method MarkList(g: Sets, l: seq<nat>, iposns: array<int>, ghost I: set<nat>)
    requires g.Tallied() && IsSorted(l, g.line) && InitFlags(iposns[..], g.line, I) && iposns != g.setvec
    modifies g.setvec, g`setcnt
    ensures g.Tallied() && Marked(g.setvec[..], g.line) == old(Marked(g.setvec[..], g.line)) + (Elements(l) - I)
  {
    hide Marked, IsSorted, Elements, InitFlags;
    ghost var M0, fl := Marked(g.setvec[..], g.line), iposns[..];
    var k := 0;
    assert l[..0] == [];
    NoElements();
    while k < |l|
      invariant k <= |l| && g.Tallied() && iposns[..] == fl
      invariant Marked(g.setvec[..], g.line) == M0 + (Elements(l[..k]) - I)
    {
      ListEntry(l, g.line, k);
      ElementsTake(l, k);
      MarkNew(g, l[k], iposns, I);
      k := k + 1;
    }
    assert l[..|l|] == l;
  }

  lemma NoElements()
    ensures Elements([]) == {}
  {
  }

  /** Positions of a list lie within 1..line. */
  ghost predicate Within(l: seq<nat>, line: nat) {
    forall k :: 0 <= k < |l| ==> 1 <= l[k] <= line
  }

  /** nextstate(s, c): the new positions that c leads to from sposns, as marks. */
  method NextState(g: Sets, c: int, sposns: seq<nat>, iposns: array<int>, index: array<int>,
                   ghost re: Re, ghost syms: seq<Symbol>)
    requires Tables(g, re, syms) && g.setvec.Length == MAXLIN && index.Length == MAXLIN
    requires Within(sposns, g.line) && InitFlags(iposns[..], g.line, Init(re))
    requires iposns != g.setvec && index != g.setvec && iposns != index && 1 <= c < NCHARS && c != HAT
    modifies g.setvec, g`setcnt, index
    ensures g.Tallied() && Marked(g.setvec[..], g.line) == Move(re, syms, Elements(sposns), c) - Init(re)
    ensures forall q :: 0 <= q < MAXLIN ==> index[q] == if q in Elements(sposns) then 0 else old(index[q])
  {
    hide Marked, IsSorted, Elements, InitFlags, Tables, Move, Init, After, Within;
    TablesLine(g, re, syms);
    ClearAll(g);
    NoMove(re, syms, c);
    ghost var x0, fl, I := index[..], iposns[..], Init(re);
    var i := 0;
    assert sposns[..0] == [];
    NoElements();
    while i < |sposns|
      invariant i <= |sposns| && g.Tallied() && iposns[..] == fl
      invariant forall q :: 0 <= q < MAXLIN ==> index[q] == if q in Elements(sposns[..i]) then 0 else x0[q]
      invariant Marked(g.setvec[..], g.line) == Move(re, syms, Elements(sposns[..i]), c) - I
    {
      ElementsTake(sposns, i);
      WithinAt(sposns, g.line, i);
      ghost var M := Marked(g.setvec[..], g.line);
      index[sposns[i]] := 0;
      MovePosition(g, c, sposns, i, iposns, re, syms);
      MoveMarks(re, syms, sposns, i, c, M, Marked(g.setvec[..], g.line));
      i := i + 1;
    }
    assert sposns[..|sposns|] == sposns;
  }

  lemma WithinAt(l: seq<nat>, line: nat, i: nat)
    requires Within(l, line) && i < |l|
    ensures 1 <= l[i] <= line
  {
  }

  /** One position: if it reads c, those that follow it are marked. */
  method MovePosition(g: Sets, c: int, sposns: seq<nat>, i: nat, iposns: array<int>, ghost re: Re, ghost syms: seq<Symbol>)
    requires Tables(g, re, syms) && g.Tallied() && i < |sposns| && |syms| == Line(re)
    requires Within(sposns, g.line) && InitFlags(iposns[..], g.line, Init(re)) && iposns != g.setvec && 1 <= c < NCHARS && c != HAT
    modifies g.setvec, g`setcnt
    ensures g.Tallied()
    ensures Marked(g.setvec[..], g.line) ==
              if sposns[i] < Line(re) && Accepts(syms[sposns[i]], c) then old(Marked(g.setvec[..], g.line)) + (After(re, sposns[i]) - Init(re))
              else old(Marked(g.setvec[..], g.line))
  {
    hide Marked, IsSorted, Elements, InitFlags, Tables, Init, After, Within;
    var q := sposns[i];
    LeafAt(g, re, syms, sposns, i);
    if g.point[q].kind != KFinal && Test(g.point[q].kind.sym, c) {
      MarkList(g, g.foll[q], iposns, Init(re));
    }
  }

  lemma TablesLine(g: Sets, re: Re, syms: seq<Symbol>)
    requires Tables(g, re, syms)
    ensures 0 < g.line == Line(re) < MAXLIN && |syms| == g.line && g.foll.Length == g.point.Length == MAXLIN
  {
  }

  lemma NoMove(re: Re, syms: seq<Symbol>, c: int)
    requires |syms| == Line(re)
    ensures Move(re, syms, Elements([]), c) == {}
  {
  }

  /** The node and the follow list of a position. */
  lemma LeafAt(g: Sets, re: Re, syms: seq<Symbol>, sposns: seq<nat>, i: nat)
    requires Tables(g, re, syms) && Within(sposns, g.line) && i < |sposns|
    ensures var q := sposns[i];
      && 1 <= q <= g.line == |syms| == Line(re) < g.point.Length == g.foll.Length && g.point[q] != null
      && (q == g.line <==> g.point[q].kind == KFinal)
      && (q < g.line ==> g.point[q].kind == KLeaf(syms[q]) && ValidSym(syms[q]))
      && (q < g.line ==> IsSorted(g.foll[q], g.line) && Elements(g.foll[q]) == After(re, q))
  {
    var q := sposns[i];
    if q < g.line {
      assert LeafIs(g.point[q], syms[q]);
      ListElements(g.foll[q], After(re, q));
    }
  }

  method ClearAll(g: Sets)
    requires g.line < g.setvec.Length == MAXLIN
    modifies g.setvec, g`setcnt
    ensures g.Tallied() && Marked(g.setvec[..], g.line) == {}
  {
    g.setcnt := 0;
    for k := 0 to g.line + 1
      invariant g.setcnt == 0 && forall t :: 0 <= t < k ==> g.setvec[t] == 0
    {
      g.setvec[k] := 0;
    }
    assert Marked(g.setvec[..], g.line) == {};
  }

  /** The characters that can be read from E are noted, those that can be read from I being blocked. */
  ghost predicate SymState(syms: seq<Symbol>, I: set<nat>, E: set<nat>, block: seq<int>, mark: seq<int>, l: seq<int>) {
    && |block| == |mark| == NCHARS
    && (forall k :: 0 <= k < NCHARS ==> (block[k] == 0 <==> !CanMove(syms, I, k)))
    && (forall k :: 0 <= k < NCHARS ==>
          mark[k] == if CanMove(syms, E, k) && !CanMove(syms, I, k) then 1 else 0)
    && (forall x :: x in l <==> CanMove(syms, I, x) || CanMove(syms, E, x))
  }

  lemma CanMoveAdds(syms: seq<Symbol>, E: set<nat>, q: nat, x: int)
    ensures CanMove(syms, E + {q}, x) <==> CanMove(syms, E, x) || Reads(syms, q, x)
  {
    assert q in E + {q};
  }

  lemma SymStep(syms: seq<Symbol>, I: set<nat>, E: set<nat>, block: seq<int>, m0: seq<int>, l0: seq<int>,
                m: seq<int>, l: seq<int>, q: nat)
    requires SymState(syms, I, E, block, m0, l0) && q < |syms|
    requires Noted(block, m0, l0, m, l, set c | 1 <= c < NCHARS && Accepts(syms[q], c))
    ensures SymState(syms, I, E + {q}, block, m, l)
  {
    hide CanMove;
    forall x ensures CanMove(syms, E + {q}, x) <==> CanMove(syms, E, x) || Accepts(syms[q], x) {
      CanMoveAdds(syms, E, q, x);
    }
  }

  lemma SymSkip(syms: seq<Symbol>, I: set<nat>, E: set<nat>, block: seq<int>, m: seq<int>, l: seq<int>, q: nat)
    requires SymState(syms, I, E, block, m, l) && q >= |syms|
    ensures SymState(syms, I, E + {q}, block, m, l)
  {
    hide CanMove;
    forall x ensures CanMove(syms, E + {q}, x) <==> CanMove(syms, E, x) {
      CanMoveAdds(syms, E, q, x);
    }
  }

  lemma SymFlags(syms: seq<Symbol>, I: set<nat>, E: set<nat>, block: seq<int>, m: seq<int>, l: seq<int>)
    requires SymState(syms, I, E, block, m, l)
    ensures |m| == |block| == NCHARS && forall k :: 0 <= k < NCHARS ==> m[k] == 0 || m[k] == 1
  {
  }

  /** Note the characters of the leaf at position q. */
  method NotePosition(g: Sets, q: nat, block: seq<int>, mark: array<int>, l0: seq<int>,
                      ghost re: Re, ghost syms: seq<Symbol>, ghost I: set<nat>, ghost E: set<nat>)
    returns (l: seq<int>)
    requires Tables(g, re, syms) && 1 <= q <= g.line && SymState(syms, I, E, block, mark[..], l0)
    modifies mark
    ensures SymState(syms, I, E + {q}, block, mark[..], l) && l0 <= l
  {
    hide SymState, Tables, IsSorted, Elements, After, Init, Accepts;
    TablesLine(g, re, syms);
    assert Within([q], g.line);
    LeafAt(g, re, syms, [q], 0);
    SymFlags(syms, I, E, block, mark[..], l0);
    ghost var m0 := mark[..];
    l := l0;
    if g.point[q].kind != KFinal {
      l := Collect(g.point[q].kind.sym, block, mark, l0);
      SymStep(syms, I, E, block, m0, l0, mark[..], l, q);
    } else {
      SymSkip(syms, I, E, block, m0, l0, q);
    }
  }

  /** The positions and characters of state 0. */
  method StartSymbols(g: Sets, iposns: array<int>, isyms: array<int>, ghost re: Re, ghost syms: seq<Symbol>)
    returns (ssyms: seq<int>)
    requires Tables(g, re, syms) && iposns.Length == MAXLIN && isyms.Length == NCHARS && iposns != isyms
    requires (forall q :: 0 <= q < MAXLIN ==> iposns[q] == 0) && (forall k :: 0 <= k < NCHARS ==> isyms[k] == 0)
    modifies iposns, isyms
    ensures InitFlags(iposns[..], g.line, Init(re))
    ensures SymState(syms, {}, Init(re), seq(NCHARS, _ => 0), isyms[..], ssyms)
  {
    hide Tables, IsSorted, Elements, After, Init, SymState, IsList;
    TablesLine(g, re, syms);
    var l, none := g.foll[0], seq(NCHARS, _ => 0);
    StartList(g, re, syms);
    ssyms := [];
    NoSymbols(syms, isyms[..]);
    NoElements();
    var i := 0;
    assert l[..0] == [];
    while i < |l|
      invariant i <= |l| && SymState(syms, {}, Elements(l[..i]), none, isyms[..], ssyms)
      invariant forall q :: 0 <= q < MAXLIN ==> iposns[q] == if q in Elements(l[..i]) then 1 else 0
    {
      ListEntry(l, g.line, i);
      ElementsTake(l, i);
      iposns[l[i]] := 1;
      ssyms := NotePosition(g, l[i], none, isyms, ssyms, re, syms, {}, Elements(l[..i]));
      i := i + 1;
    }
    assert l[..|l|] == l;
  }

  lemma StartList(g: Sets, re: Re, syms: seq<Symbol>)
    requires Tables(g, re, syms)
    ensures g.foll.Length > 0 && IsSorted(g.foll[0], g.line) && Elements(g.foll[0]) == Init(re)
  {
    ListElements(g.foll[0], Init(re));
  }

  lemma NoSymbols(syms: seq<Symbol>, mark: seq<int>)
    requires |mark| == NCHARS && forall k :: 0 <= k < NCHARS ==> mark[k] == 0
    ensures SymState(syms, {}, {}, seq(NCHARS, _ => 0), mark, [])
  {
  }

  /** The positions and characters of a state, after those of state 0. */
  method StateSymbols(g: Sets, l: seq<nat>, iposns: array<int>, isyms: array<int>, index: array<int>, symbol: array<int>,
                      sposns0: seq<nat>, ssyms0: seq<int>, ghost re: Re, ghost syms: seq<Symbol>)
    returns (sposns: seq<nat>, ssyms: seq<int>)
    requires Tables(g, re, syms) && IsSorted(l, g.line) && iposns.Length == index.Length == MAXLIN
    requires isyms.Length == symbol.Length == NCHARS && symbol != isyms && symbol != index && symbol != iposns && index != iposns && index != isyms
    requires InitFlags(iposns[..], g.line, Init(re)) && Within(sposns0, g.line) && Elements(sposns0) == Init(re)
    requires forall q :: 1 <= q <= g.line && q in Elements(l) && q !in Init(re) ==> index[q] == 0
    requires SymState(syms, Init(re), {}, isyms[..], symbol[..], ssyms0)
    modifies index, symbol
    ensures Within(sposns, g.line) && Elements(sposns) == Init(re) + Elements(l)
    ensures SymState(syms, Init(re), Elements(l), isyms[..], symbol[..], ssyms) && ssyms0 <= ssyms
    ensures forall q :: 0 <= q < MAXLIN ==> index[q] == if q in Elements(l) && q !in Init(re) then 1 else old(index[q])
    ensures (forall k :: 0 <= k < |l| ==> l[k] in Init(re)) ==> sposns == sposns0
  {
    hide Tables, IsSorted, Elements, After, Init, SymState, InitFlags, Within;
    TablesLine(g, re, syms);
    ghost var x0, fl, I, blk := index[..], iposns[..], Init(re), isyms[..];
    sposns, ssyms := sposns0, ssyms0;
    NoElements();
    var i := 0;
    assert l[..0] == [];
    while i < |l|
      invariant i <= |l| && iposns[..] == fl && isyms[..] == blk
      invariant Within(sposns, g.line) && Elements(sposns) == I + Elements(l[..i])
      invariant SymState(syms, I, Elements(l[..i]), blk, symbol[..], ssyms) && ssyms0 <= ssyms
      invariant forall q :: 0 <= q < MAXLIN ==> index[q] == if q in Elements(l[..i]) && q !in I then 1 else x0[q]
      invariant (forall k :: 0 <= k < |l| ==> l[k] in I) ==> sposns == sposns0
    {
      var q := l[i];
      ListEntry(l, g.line, i);
      ElementsTake(l, i);
      FreshEntry(l, g.line, i);
      FlagAt(fl, g.line, I, q);
      if iposns[q] != 1 && index[q] != 1 {
        index[q] := 1;
        AddPosition(sposns, q, g.line);
        sposns := sposns + [q];
      }
      ssyms := NotePosition(g, q, isyms[..], symbol, ssyms, re, syms, I, Elements(l[..i]));
      i := i + 1;
    }
    assert l[..|l|] == l;
  }

  lemma FlagAt(iposns: seq<int>, line: nat, I: set<nat>, q: nat)
    requires InitFlags(iposns, line, I) && 1 <= q <= line
    ensures q < |iposns| && (iposns[q] == 1 <==> q in I)
  {
  }

  lemma AddPosition(sposns: seq<nat>, q: nat, line: nat)
    requires Within(sposns, line) && 1 <= q <= line
    ensures Within(sposns + [q], line) && Elements(sposns + [q]) == Elements(sposns) + {q}
  {
  }

  lemma FreshEntry(l: seq<nat>, line: nat, i: nat)
    requires IsSorted(l, line) && i < |l|
    ensures l[i] !in Elements(l[..i]) && l[i] in Elements(l)
  {
  }

  /** All positions active in a state that keeps the list l. */
  ghost function Act(re: Re, l: seq<nat>): set<nat> {
    Init(re) + Elements(l)
  }

  /** Reading c with S active makes state t's positions active. */
  ghost predicate Leads(re: Re, syms: seq<Symbol>, states: seq<seq<nat>>, S: set<nat>, c: int, t: nat) {
    && |syms| == Line(re) && t < |states| && c != 0
    && Act(re, states[t]) == Init(re) + Move(re, syms, S, c)
  }

  ghost predicate Stays(re: Re, syms: seq<Symbol>, S: set<nat>, c: int) {
    |syms| == Line(re) && Init(re) + Move(re, syms, S, c) == Init(re)
  }

  ghost predicate HasChar(trans: seq<(int, nat)>, c: int) {
    exists e :: 0 <= e < |trans| && trans[e].0 == c
  }

  /** Some state keeps the positions of E. */
  ghost predicate Present(states: seq<seq<nat>>, E: set<nat>) {
    exists t :: 0 <= t < |states| && Elements(states[t]) == E
  }

  /** The new positions that c leads to from S are those of a state. */
  ghost predicate Reaches(re: Re, syms: seq<Symbol>, states: seq<seq<nat>>, S: set<nat>, c: int) {
    |syms| == Line(re) && Present(states, Move(re, syms, S, c) - Init(re))
  }

  lemma ReachesGrow(re: Re, syms: seq<Symbol>, states: seq<seq<nat>>, states': seq<seq<nat>>, S: set<nat>)
    requires states <= states'
    ensures forall c :: Reaches(re, syms, states, S, c) ==> Reaches(re, syms, states', S, c)
  {
    hide Move, Init, Elements;
    forall c | Reaches(re, syms, states, S, c) ensures Reaches(re, syms, states', S, c) {
      var t :| 0 <= t < |states| && Elements(states[t]) == Move(re, syms, S, c) - Init(re);
      assert states'[t] == states[t];
    }
  }

  lemma ReachesAt(re: Re, syms: seq<Symbol>, states: seq<seq<nat>>, S: set<nat>, c: int, t: nat)
    requires |syms| == Line(re) && t < |states| && IsList(states[t], Move(re, syms, S, c) - Init(re))
    ensures Reaches(re, syms, states, S, c)
  {
    ListElements(states[t], Move(re, syms, S, c) - Init(re));
  }

  /** Every transition leads where it should, where there is none nothing new becomes active, and no state is missing. */
  ghost predicate TransOk(re: Re, syms: seq<Symbol>, states: seq<seq<nat>>, S: set<nat>, trans: seq<(int, nat)>) {
    && (forall e :: 0 <= e < |trans| ==> Leads(re, syms, states, S, trans[e].0, trans[e].1))
    && (forall c :: HasChar(trans, c) || Stays(re, syms, S, c))
    && (forall c :: CanMove(syms, S, c) ==> Reaches(re, syms, states, S, c))
  }

  ghost predicate AllSorted(states: seq<seq<nat>>, line: nat) {
    forall t :: 0 <= t < |states| ==> IsSorted(states[t], line)
  }

  lemma LeadsTo(re: Re, syms: seq<Symbol>, states: seq<seq<nat>>, S: set<nat>, c: int, t: nat)
    requires |syms| == Line(re) && t < |states| && c != 0 && IsList(states[t], Move(re, syms, S, c) - Init(re))
    ensures Leads(re, syms, states, S, c, t)
  {
    ListElements(states[t], Move(re, syms, S, c) - Init(re));
  }

  /** State 0 keeps just the initial positions. */
  ghost predicate Starts(re: Re, states: seq<seq<nat>>) {
    states != [] && Act(re, states[0]) == Init(re)
  }

  lemma LeadsHome(re: Re, syms: seq<Symbol>, states: seq<seq<nat>>, S: set<nat>, c: int)
    requires Leads(re, syms, states, S, c, 0) && Starts(re, states)
    ensures Stays(re, syms, S, c)
  {
  }

  lemma TransGrow(re: Re, syms: seq<Symbol>, states: seq<seq<nat>>, states': seq<seq<nat>>, S: set<nat>, trans: seq<(int, nat)>)
    requires states <= states' && forall e :: 0 <= e < |trans| ==> Leads(re, syms, states, S, trans[e].0, trans[e].1)
    ensures forall e :: 0 <= e < |trans| ==> Leads(re, syms, states', S, trans[e].0, trans[e].1)
  {
    forall e | 0 <= e < |trans| ensures Leads(re, syms, states', S, trans[e].0, trans[e].1) {
      assert Leads(re, syms, states, S, trans[e].0, trans[e].1);
    }
  }

  /** What the loop over the characters of a state keeps: those before the j-th are dealt with. */
  ghost predicate Dealt(re: Re, syms: seq<Symbol>, states: seq<seq<nat>>, S: set<nat>, trans: seq<(int, nat)>,
                        ssyms: seq<int>, j: nat) {
    && j <= |ssyms| && |syms| == Line(re) && Starts(re, states) && AllSorted(states, Line(re))
    && (forall e :: 0 <= e < |trans| ==> Leads(re, syms, states, S, trans[e].0, trans[e].1))
    && (forall u :: 0 <= u < j ==> HasChar(trans, ssyms[u]) || Stays(re, syms, S, ssyms[u]))
    && (forall u :: 0 <= u < j ==> Reaches(re, syms, states, S, ssyms[u]))
  }

  lemma DealtNew(re: Re, syms: seq<Symbol>, states: seq<seq<nat>>, S: set<nat>, trans: seq<(int, nat)>,
                 ssyms: seq<int>, j: nat, l: seq<nat>)
    requires Dealt(re, syms, states, S, trans, ssyms, j) && j < |ssyms| && ssyms[j] != 0
    requires IsSorted(l, Line(re)) && IsList(l, Move(re, syms, S, ssyms[j]) - Init(re))
    ensures Dealt(re, syms, states + [l], S, trans + [(ssyms[j], |states|)], ssyms, j + 1)
  {
    hide Leads, Stays, HasChar, Reaches, Move, Init, Elements;
    TransGrow(re, syms, states, states + [l], S, trans);
    ReachesGrow(re, syms, states, states + [l], S);
    ReachesAt(re, syms, states + [l], S, ssyms[j], |states|);
    LeadsTo(re, syms, states + [l], S, ssyms[j], |states|);
    DealtChars(trans, (ssyms[j], |states|), ssyms, j);
    StartsGrow(re, states, states + [l]);
  }

  lemma StartsGrow(re: Re, states: seq<seq<nat>>, states': seq<seq<nat>>)
    requires Starts(re, states) && states <= states'
    ensures Starts(re, states')
  {
  }

  lemma DealtChars(trans: seq<(int, nat)>, e: (int, nat), ssyms: seq<int>, j: nat)
    requires j < |ssyms| && e.0 == ssyms[j]
    ensures HasChar(trans + [e], ssyms[j]) && forall c :: HasChar(trans, c) ==> HasChar(trans + [e], c)
  {
    var trans' := trans + [e];
    assert trans'[|trans|] == e;
    forall c | HasChar(trans, c) ensures HasChar(trans', c) {
      var u :| 0 <= u < |trans| && trans[u].0 == c;
      assert trans'[u].0 == c;
    }
  }

  lemma DealtOld(re: Re, syms: seq<Symbol>, states: seq<seq<nat>>, S: set<nat>, trans: seq<(int, nat)>,
                 ssyms: seq<int>, j: nat, prev: nat)
    requires Dealt(re, syms, states, S, trans, ssyms, j) && j < |ssyms| && ssyms[j] != 0 && prev < |states|
    requires IsList(states[prev], Move(re, syms, S, ssyms[j]) - Init(re))
    ensures prev != 0 ==> Dealt(re, syms, states, S, trans + [(ssyms[j], prev)], ssyms, j + 1)
    ensures prev == 0 ==> Dealt(re, syms, states, S, trans, ssyms, j + 1)
  {
    hide Leads, Stays, HasChar, Reaches, Move, Init, Elements;
    LeadsTo(re, syms, states, S, ssyms[j], prev);
    ReachesAt(re, syms, states, S, ssyms[j], prev);
    DealtChars(trans, (ssyms[j], prev), ssyms, j);
    if prev == 0 {
      LeadsHome(re, syms, states, S, ssyms[j]);
    }
  }

  /** No part of the text so far is in the language. */
  ghost predicate Quiet(re: Re, syms: seq<Symbol>, w: seq<int>) {
    |syms| == Line(re) && forall k :: 0 <= k <= |w| ==> Line(re) !in Active(re, syms, w[..k])
  }

  /** S is active after a text without a match. */
  ghost predicate Live(re: Re, syms: seq<Symbol>, S: set<nat>) {
    |syms| == Line(re) && exists w :: Quiet(re, syms, w) && Active(re, syms, w) == S
  }

  /** E is what one more character, which some position reads, adds to the initial positions after a text without a match. */
  ghost predicate Made(re: Re, syms: seq<Symbol>, E: set<nat>) {
    |syms| == Line(re) && exists S, c :: Live(re, syms, S) && CanMove(syms, S, c) && E == Move(re, syms, S, c) - Init(re)
  }

  /** All states are different; the first keeps the initial positions, and the others are made by texts. */
  ghost predicate Listed(re: Re, syms: seq<Symbol>, states: seq<seq<nat>>) {
    && |syms| == Line(re)
    && (forall t, u :: 0 <= t < u < |states| ==> Elements(states[t]) != Elements(states[u]))
    && (forall t :: 0 <= t < |states| ==> if t == 0 then Elements(states[t]) == Init(re) else Made(re, syms, Elements(states[t])))
  }

  /** There are more states than the table has room for. */
  ghost predicate Overflow(re: Re, syms: seq<Symbol>) {
    exists states :: |states| > NSTATES + 1 && Listed(re, syms, states)
  }

  lemma ListedStart(re: Re, syms: seq<Symbol>, l: seq<nat>)
    requires |syms| == Line(re) && Elements(l) == Init(re)
    ensures Listed(re, syms, [l])
  {
  }

  lemma LiveStart(re: Re, syms: seq<Symbol>)
    requires |syms| == Line(re) && Line(re) !in Init(re)
    ensures Live(re, syms, Init(re))
  {
    assert Quiet(re, syms, []) && Active(re, syms, []) == Init(re);
  }

  lemma LiveNext(re: Re, syms: seq<Symbol>, S: set<nat>, c: int)
    requires |syms| == Line(re) && Live(re, syms, S) && Line(re) !in Init(re) + Move(re, syms, S, c)
    ensures Live(re, syms, Init(re) + Move(re, syms, S, c))
  {
    hide Move, Init;
    var w :| Quiet(re, syms, w) && Active(re, syms, w) == S;
    var w' := w + [c];
    assert w'[..|w|] == w && w'[..|w'|] == w';
    assert Active(re, syms, w') == Init(re) + Move(re, syms, S, c);
    forall k | 0 <= k <= |w'| ensures Line(re) !in Active(re, syms, w'[..k]) {
      if k <= |w| {
        assert w'[..k] == w[..k];
      }
    }
    assert Quiet(re, syms, w');
  }

  /** A state that is not final is active after a text without a match. */
  lemma ListedAt(re: Re, syms: seq<Symbol>, states: seq<seq<nat>>, t: nat)
    requires Listed(re, syms, states) && t < |states| && Line(re) !in Init(re) + Elements(states[t])
    ensures Live(re, syms, Init(re) + Elements(states[t]))
  {
    hide Live, Init, Move, Elements;
    var E := Elements(states[t]);
    if t == 0 {
      LiveStart(re, syms);
      assert Init(re) + E == Init(re);
    } else {
      assert Made(re, syms, E);
      var S, c :| Live(re, syms, S) && CanMove(syms, S, c) && E == Move(re, syms, S, c) - Init(re);
      assert Init(re) + E == Init(re) + Move(re, syms, S, c);
      LiveNext(re, syms, S, c);
    }
  }

  lemma ListedMore(re: Re, syms: seq<Symbol>, states: seq<seq<nat>>, l: seq<nat>, S: set<nat>, c: int)
    requires Listed(re, syms, states) && states != [] && Live(re, syms, S) && CanMove(syms, S, c) && AllSorted(states, Line(re))
    requires Elements(l) == Move(re, syms, S, c) - Init(re)
    requires forall t :: 0 <= t < |states| ==> !IsList(states[t], Move(re, syms, S, c) - Init(re))
    ensures Listed(re, syms, states + [l])
  {
    hide Move, Init, Live, CanMove;
    forall t | 0 <= t < |states| ensures Elements(states[t]) != Elements(l) {
      assert !IsList(states[t], Move(re, syms, S, c) - Init(re)) && IsSorted(states[t], Line(re));
      SortedIsList(states[t], Line(re));
    }
    assert Made(re, syms, Elements(l));
  }

  lemma SortedIsList(l: seq<nat>, line: nat)
    requires IsSorted(l, line)
    ensures IsList(l, Elements(l))
  {
  }

  lemma {:induction false} SomeList(M: set<nat>) returns (l: seq<nat>)
    ensures Elements(l) == M
  {
    if M == {} {
      l := [];
      NoElements();
    } else {
      var x :| x in M;
      var l' := SomeList(M - {x});
      l := [x] + l';
      forall y ensures y in Elements(l) <==> y in M {
        assert y in l' <==> y in Elements(l');
      }
    }
  }

  lemma ListedLine(re: Re, syms: seq<Symbol>, states: seq<seq<nat>>)
    requires Listed(re, syms, states)
    ensures |syms| == Line(re)
  {
  }

  /** A full table, and one more state. */
  lemma TooMany(re: Re, syms: seq<Symbol>, states: seq<seq<nat>>, S: set<nat>, c: int)
    requires Listed(re, syms, states) && Live(re, syms, S) && CanMove(syms, S, c) && AllSorted(states, Line(re)) && |states| > NSTATES
    requires forall t :: 0 <= t < |states| ==> !IsList(states[t], Move(re, syms, S, c) - Init(re))
    ensures Overflow(re, syms)
  {
    hide Move, Init, Elements, IsList, AllSorted, Listed, Live, CanMove;
    ListedLine(re, syms, states);
    var l := SomeList(Move(re, syms, S, c) - Init(re));
    ListedMore(re, syms, states, l, S, c);
    assert |states + [l]| > NSTATES + 1;
  }

  /** The transitions of one state; new states are appended.  Fails when there are too many. */
  method Transitions(g: Sets, states: seq<seq<nat>>, sposns: seq<nat>, ssyms: seq<int>, iposns: array<int>,
                     index: array<int>, symbol: array<int>, ghost re: Re, ghost syms: seq<Symbol>)
    returns (ok: bool, states': seq<seq<nat>>, trans: seq<(int, nat)>)
    requires Tables(g, re, syms) && g.setvec.Length == index.Length == MAXLIN && symbol.Length == NCHARS
    requires Within(sposns, g.line) && InitFlags(iposns[..], g.line, Init(re)) && Starts(re, states) && AllSorted(states, g.line)
    requires iposns != g.setvec && index != g.setvec && iposns != index && symbol != g.setvec && symbol != index && symbol != iposns
    requires forall x :: x in ssyms ==> 1 <= x < NCHARS && x != HAT
    requires Listed(re, syms, states) && Live(re, syms, Elements(sposns))
    requires forall x :: x in ssyms ==> CanMove(syms, Elements(sposns), x)
    modifies g.setvec, g`setcnt, index, symbol
    ensures ok ==> states <= states' && Dealt(re, syms, states', Elements(sposns), trans, ssyms, |ssyms|)
    ensures if ok then Listed(re, syms, states') else Overflow(re, syms)
    ensures ok && |states| <= NSTATES + 1 ==> |states'| <= NSTATES + 1
    ensures ok && ssyms == [] ==> states' == states
    ensures ok ==> forall k :: 0 <= k < NCHARS ==> symbol[k] == if k in ssyms then 0 else old(symbol[k])
    ensures ok ==> forall q :: 0 <= q < MAXLIN ==> index[q] == if ssyms != [] && q in Elements(sposns) then 0 else old(index[q])
  {
    hide Tables, IsSorted, Elements, After, Init, InitFlags, Within, Dealt, Marked, IsList, AllSorted, Move, Starts, Listed, Live, Overflow, CanMove;
    TablesLine(g, re, syms);
    states', trans := states, [];
    ghost var x0, y0, fl, S := index[..], symbol[..], iposns[..], Elements(sposns);
    NothingDealt(re, syms, states, S, ssyms, g.line);
    var j := 0;
    while j < |ssyms|
      invariant j <= |ssyms| && iposns[..] == fl && states <= states' && states != []
      invariant (|states| <= NSTATES + 1 ==> |states'| <= NSTATES + 1) && (j == 0 ==> states' == states)
      invariant Listed(re, syms, states')
      invariant Dealt(re, syms, states', S, trans, ssyms, j)
      invariant forall k :: 0 <= k < NCHARS ==> symbol[k] == if k in ssyms[..j] then 0 else y0[k]
      invariant forall q :: 0 <= q < MAXLIN ==> index[q] == if j > 0 && q in S then 0 else x0[q]
    {
      var c := ssyms[j];
      assert c in ssyms && ssyms[..j + 1] == ssyms[..j] + [c];
      symbol[c] := 0;
      NextState(g, c, sposns, iposns, index, re, syms);
      DealtSorted(re, syms, states', S, trans, ssyms, j, g.line);
      var absent, prev := g.NotIn(states', |states'| - 1);
      if absent {
        if |states'| - 1 >= NSTATES {
          DealtOrder(re, syms, states', S, trans, ssyms, j);
          TooMany(re, syms, states', S, c);
          return false, states', trans;
        }
        var l := g.Add(g.setcnt);
        NewListed(re, syms, states', l, S, c, ssyms, trans, j);
        DealtNew(re, syms, states', S, trans, ssyms, j, l);
        trans := trans + [(c, |states'|)];
        states' := states' + [l];
      } else {
        DealtOld(re, syms, states', S, trans, ssyms, j, prev);
        if prev != 0 {
          trans := trans + [(c, prev)];
        }
      }
      j := j + 1;
    }
    assert ssyms[..|ssyms|] == ssyms;
    ok := true;
  }

  lemma NewListed(re: Re, syms: seq<Symbol>, states: seq<seq<nat>>, l: seq<nat>, S: set<nat>, c: int,
                  ssyms: seq<int>, trans: seq<(int, nat)>, j: nat)
    requires Listed(re, syms, states) && Live(re, syms, S) && CanMove(syms, S, c) && Dealt(re, syms, states, S, trans, ssyms, j)
    requires IsList(l, Move(re, syms, S, c) - Init(re))
    requires forall t :: 0 <= t < |states| ==> !IsList(states[t], Move(re, syms, S, c) - Init(re))
    ensures Listed(re, syms, states + [l])
  {
    hide Move, Init, Listed, Live, CanMove, AllSorted;
    ListElements(l, Move(re, syms, S, c) - Init(re));
    ListedMore(re, syms, states, l, S, c);
  }

  lemma NothingDealt(re: Re, syms: seq<Symbol>, states: seq<seq<nat>>, S: set<nat>, ssyms: seq<int>, line: nat)
    requires |syms| == Line(re) == line && Starts(re, states) && AllSorted(states, line)
    ensures Dealt(re, syms, states, S, [], ssyms, 0) && states != []
  {
  }

  lemma DealtSorted(re: Re, syms: seq<Symbol>, states: seq<seq<nat>>, S: set<nat>, trans: seq<(int, nat)>,
                    ssyms: seq<int>, j: nat, line: nat)
    requires Dealt(re, syms, states, S, trans, ssyms, j) && line == Line(re)
    ensures forall t :: 0 <= t < |states| ==> IsSorted(states[t], line)
  {
  }

  lemma DealtOrder(re: Re, syms: seq<Symbol>, states: seq<seq<nat>>, S: set<nat>, trans: seq<(int, nat)>, ssyms: seq<int>, j: nat)
    requires Dealt(re, syms, states, S, trans, ssyms, j)
    ensures AllSorted(states, Line(re))
  {
  }

  datatype Option<+T> = None | Some(value: T)

  /** State t: final when the marker is active, and otherwise with the right transitions. */
  ghost predicate StateOk(re: Re, syms: seq<Symbol>, states: seq<seq<nat>>, t: nat, fa: Fa) {
    && t < |states| && |syms| == Line(re)
    && (fa.final <==> Line(re) in Act(re, states[t]))
    && (!fa.final ==> TransOk(re, syms, states, Act(re, states[t]), fa.trans))
  }

  ghost predicate StatesOk(re: Re, syms: seq<Symbol>, states: seq<seq<nat>>, d: seq<Fa>) {
    |d| <= |states| && forall t :: 0 <= t < |d| ==> StateOk(re, syms, states, t, d[t])
  }

  lemma StatesGrow(re: Re, syms: seq<Symbol>, states: seq<seq<nat>>, states': seq<seq<nat>>, d: seq<Fa>)
    requires StatesOk(re, syms, states, d) && states <= states'
    ensures StatesOk(re, syms, states', d)
  {
    hide Leads, Stays, HasChar, Act;
    forall t | 0 <= t < |d| ensures StateOk(re, syms, states', t, d[t]) {
      assert StateOk(re, syms, states, t, d[t]);
      if !d[t].final {
        TransGrow(re, syms, states, states', Act(re, states[t]), d[t].trans);
      }
    }
  }

  lemma NoCharStays(re: Re, syms: seq<Symbol>, S: set<nat>, c: int)
    requires |syms| == Line(re) && !CanMove(syms, S, c)
    ensures Stays(re, syms, S, c)
  {
    forall j ensures j !in Move(re, syms, S, c) {
      if j in Move(re, syms, S, c) {
        var q := MoveSource(re, syms, S, c, j);
        assert Reads(syms, q, c);
      }
    }
    assert Move(re, syms, S, c) == {};
  }

  lemma DealtAll(re: Re, syms: seq<Symbol>, states: seq<seq<nat>>, S: set<nat>, trans: seq<(int, nat)>, ssyms: seq<int>)
    requires Dealt(re, syms, states, S, trans, ssyms, |ssyms|) && forall x :: CanMove(syms, S, x) ==> x in ssyms
    ensures TransOk(re, syms, states, S, trans)
  {
    hide CanMove, Leads, Stays, HasChar, Starts, AllSorted;
    forall c ensures HasChar(trans, c) || Stays(re, syms, S, c) {
      if c !in ssyms {
        NoCharStays(re, syms, S, c);
      }
    }
  }

  lemma CanMoveBoth(syms: seq<Symbol>, A: set<nat>, B: set<nat>, x: int)
    ensures CanMove(syms, A + B, x) <==> CanMove(syms, A, x) || CanMove(syms, B, x)
  {
    if CanMove(syms, A, x) {
      var q :| q in A && Reads(syms, q, x);
      assert q in A + B;
    }
    if CanMove(syms, B, x) {
      var q :| q in B && Reads(syms, q, x);
      assert q in A + B;
    }
  }

  lemma SymsRange(syms: seq<Symbol>, I: set<nat>, E: set<nat>, block: seq<int>, m: seq<int>, l: seq<int>)
    requires SymState(syms, I, E, block, m, l)
    ensures forall x :: x in l <==> CanMove(syms, I + E, x)
    ensures forall x :: x in l ==> 1 <= x < NCHARS && x != HAT
    ensures forall k :: 0 <= k < NCHARS && m[k] != 0 ==> k in l
  {
    forall x ensures CanMove(syms, I + E, x) <==> CanMove(syms, I, x) || CanMove(syms, E, x) {
      CanMoveBoth(syms, I, E, x);
    }
  }

  lemma SymReset(syms: seq<Symbol>, I: set<nat>, isyms: seq<int>, symbol: seq<int>, ssyms: seq<int>)
    requires SymState(syms, {}, I, seq(NCHARS, _ => 0), isyms, ssyms)
    requires |symbol| == NCHARS && forall k :: 0 <= k < NCHARS ==> symbol[k] == 0
    ensures SymState(syms, I, {}, isyms, symbol, ssyms)
  {
  }

  lemma StartIsInit(re: Re, l: seq<nat>)
    requires Elements(l) == Init(re)
    ensures Starts(re, [l]) && Act(re, l) == Init(re)
  {
  }

  /** The last entry of an ascending list is the marker exactly when the marker is listed. */
  lemma LastIsFinal(l: seq<nat>, line: nat)
    requires IsSorted(l, line) && line > 0
    ensures (if l == [] then 0 else l[|l| - 1]) == line <==> line in Elements(l)
  {
    if line in Elements(l) {
      var k :| 0 <= k < |l| && l[k] == line;
      assert l[|l| - 1] in l;
    }
  }

  /** The states found so far, between one state and the next. */
  ghost predicate Found(re: Re, states: seq<seq<nat>>, ssyms0: seq<int>) {
    && Starts(re, states) && AllSorted(states, Line(re)) && |states| <= NSTATES + 1
    && (|states| > 1 ==> ssyms0 != [] && Line(re) !in Init(re))
    && Elements(states[0]) == Init(re)
  }

  /** The work arrays between one state and the next. */
  ghost predicate Clean(re: Re, syms: seq<Symbol>, iposns: seq<int>, isyms: seq<int>, index: seq<int>, symbol: seq<int>,
                        sposns0: seq<nat>, ssyms0: seq<int>) {
    && |index| == |iposns| == MAXLIN && (forall q :: 0 <= q < MAXLIN ==> index[q] == 0)
    && SymState(syms, Init(re), {}, isyms, symbol, ssyms0)
    && InitFlags(iposns, Line(re), Init(re)) && Within(sposns0, Line(re)) && Elements(sposns0) == Init(re)
  }

  lemma StateList(re: Re, states: seq<seq<nat>>, ssyms0: seq<int>, s: nat)
    requires Found(re, states, ssyms0) && s < |states|
    ensures IsSorted(states[s], Line(re)) && (s == 0 ==> Elements(states[s]) == Init(re))
    ensures s == 0 ==> forall k :: 0 <= k < |states[s]| ==> states[s][k] in Init(re)
    ensures s > 0 ==> ssyms0 != [] && Line(re) !in Init(re)
  {
    if s == 0 {
      forall k | 0 <= k < |states[s]| ensures states[s][k] in Init(re) {
        assert states[s][k] in Elements(states[s]);
      }
    }
  }

  lemma FinalState(re: Re, syms: seq<Symbol>, states: seq<seq<nat>>, ssyms0: seq<int>, s: nat)
    requires Found(re, states, ssyms0) && s < |states| && |syms| == Line(re) && Line(re) in Elements(states[s])
    ensures StateOk(re, syms, states, s, Fa(true, []))
  {
  }

  /** After the transitions of a state that is not final. */
  lemma StateDone(re: Re, syms: seq<Symbol>, states: seq<seq<nat>>, states': seq<seq<nat>>, s: nat, ssyms0: seq<int>,
                  sposns: seq<nat>, ssyms: seq<int>, trans: seq<(int, nat)>, isyms: seq<int>, m: seq<int>)
    requires Found(re, states, ssyms0) && s < |states| && states <= states' && |states'| <= NSTATES + 1
    requires Line(re) !in Elements(states[s]) && Elements(sposns) == Init(re) + Elements(states[s])
    requires SymState(syms, Init(re), Elements(states[s]), isyms, m, ssyms) && ssyms0 <= ssyms
    requires forall x :: x in ssyms0 <==> CanMove(syms, Init(re), x)
    requires Dealt(re, syms, states', Elements(sposns), trans, ssyms, |ssyms|) && (ssyms == [] ==> states' == states)
    ensures Found(re, states', ssyms0) && StateOk(re, syms, states', s, Fa(false, trans))
  {
    StateList(re, states, ssyms0, s);
    SymsRange(syms, Init(re), Elements(states[s]), isyms, m, ssyms);
    DealtAll(re, syms, states', Elements(sposns), trans, ssyms);
    assert Starts(re, states') && AllSorted(states', Line(re));
    if ssyms != [] && s == 0 {
      assert ssyms[0] in ssyms;
      assert Init(re) + Elements(states[s]) == Init(re);
      assert ssyms[0] in ssyms0;
    }
  }

  /** One state of the construction. */
  method OneState(g: Sets, states: seq<seq<nat>>, s: nat, iposns: array<int>, isyms: array<int>, index: array<int>,
                  symbol: array<int>, sposns0: seq<nat>, ssyms0: seq<int>, ghost re: Re, ghost syms: seq<Symbol>)
    returns (ok: bool, states': seq<seq<nat>>, fa: Fa)
    requires Tables(g, re, syms) && g.setvec.Length == MAXLIN && s < |states| && Found(re, states, ssyms0)
    requires Clean(re, syms, iposns[..], isyms[..], index[..], symbol[..], sposns0, ssyms0)
    requires {iposns, isyms, index, symbol} !! {g.setvec} && iposns != isyms && iposns != index && iposns != symbol
    requires isyms != index && isyms != symbol && index != symbol && isyms.Length == symbol.Length == NCHARS
    requires forall x :: x in ssyms0 <==> CanMove(syms, Init(re), x)
    requires Listed(re, syms, states)
    modifies g.setvec, g`setcnt, index, symbol
    ensures ok ==> states <= states' && Found(re, states', ssyms0) && StateOk(re, syms, states', s, fa)
    ensures if ok then Listed(re, syms, states') else Overflow(re, syms)
    ensures ok ==> Clean(re, syms, iposns[..], isyms[..], index[..], symbol[..], sposns0, ssyms0)
  {
    hide *;
    TablesLine(g, re, syms);
    StateList(re, states, ssyms0, s);
    CleanParts(re, syms, iposns[..], isyms[..], index[..], symbol[..], sposns0, ssyms0);
    FoundParts(re, states, ssyms0);
    ghost var I, is0, fl := Init(re), isyms[..], iposns[..];
    var l := states[s];
    LastIsFinal(l, g.line);
    if (if l == [] then 0 else l[|l| - 1]) == g.line {
      FinalState(re, syms, states, ssyms0, s);
      return true, states, Fa(true, []);
    }
    var sposns, ssyms := StateSymbols(g, l, iposns, isyms, index, symbol, sposns0, ssyms0, re, syms);
    ghost var m := symbol[..];
    UnionHas(Elements(sposns), l, I);
    if s == 0 { AllInside(l, I); }
    SymsRange(syms, I, Elements(l), is0, m, ssyms);
    ListedAt(re, syms, states, s);
    var trans;
    ok, states', trans := Transitions(g, states, sposns, ssyms, iposns, index, symbol, re, syms);
    fa := Fa(false, trans);
    if ok {
      StateDone(re, syms, states, states', s, ssyms0, sposns, ssyms, trans, is0, m);
      assert s > 0 ==> ssyms != [];
      assert forall q :: 0 <= q < MAXLIN ==> index[q] == 0;
      assert forall k :: 0 <= k < NCHARS ==> symbol[k] == 0;
      CleanAgain(re, syms, fl, is0, old(index[..]), old(symbol[..]), sposns0, ssyms0, index[..], symbol[..]);
    }
  }

  lemma CleanAgain(re: Re, syms: seq<Symbol>, iposns: seq<int>, isyms: seq<int>, index: seq<int>, symbol: seq<int>,
                   sposns0: seq<nat>, ssyms0: seq<int>, index': seq<int>, symbol': seq<int>)
    requires Clean(re, syms, iposns, isyms, index, symbol, sposns0, ssyms0) && |index'| == MAXLIN && |symbol'| == NCHARS
    requires (forall q :: 0 <= q < MAXLIN ==> index'[q] == 0) && (forall k :: 0 <= k < NCHARS ==> symbol'[k] == 0)
    ensures Clean(re, syms, iposns, isyms, index', symbol', sposns0, ssyms0)
  {
  }

  lemma UnionHas(A: set<nat>, l: seq<nat>, B: set<nat>)
    requires A == B + Elements(l)
    ensures forall q :: q in Elements(l) ==> q in A
  {
  }

  lemma AllInside(l: seq<nat>, I: set<nat>)
    requires forall k :: 0 <= k < |l| ==> l[k] in I
    ensures forall q :: q in Elements(l) ==> q in I
  {
  }

  lemma CleanParts(re: Re, syms: seq<Symbol>, iposns: seq<int>, isyms: seq<int>, index: seq<int>, symbol: seq<int>,
                   sposns0: seq<nat>, ssyms0: seq<int>)
    requires Clean(re, syms, iposns, isyms, index, symbol, sposns0, ssyms0)
    ensures |index| == |iposns| == MAXLIN && (forall q :: 0 <= q < MAXLIN ==> index[q] == 0)
    ensures SymState(syms, Init(re), {}, isyms, symbol, ssyms0)
    ensures InitFlags(iposns, Line(re), Init(re)) && Within(sposns0, Line(re)) && Elements(sposns0) == Init(re)
  {
  }

  lemma FoundParts(re: Re, states: seq<seq<nat>>, ssyms0: seq<int>)
    requires Found(re, states, ssyms0)
    ensures Starts(re, states) && AllSorted(states, Line(re)) && |states| <= NSTATES + 1
  {
  }

  lemma CleanStart(re: Re, syms: seq<Symbol>, states: seq<seq<nat>>, l: seq<nat>, iposns: seq<int>, isyms: seq<int>,
                   index: seq<int>, symbol: seq<int>, ssyms0: seq<int>)
    requires IsSorted(l, Line(re)) && Elements(l) == Init(re) && states == [l]
    requires |index| == |iposns| == MAXLIN && |symbol| == NCHARS && InitFlags(iposns, Line(re), Init(re))
    requires (forall q :: 0 <= q < MAXLIN ==> index[q] == 0) && (forall k :: 0 <= k < NCHARS ==> symbol[k] == 0)
    requires SymState(syms, {}, Init(re), seq(NCHARS, _ => 0), isyms, ssyms0)
    ensures Found(re, states, ssyms0) && Clean(re, syms, iposns, isyms, index, symbol, l, ssyms0)
    ensures forall x :: x in ssyms0 <==> CanMove(syms, Init(re), x)
  {
    StartIsInit(re, l);
    SymReset(syms, Init(re), isyms, symbol, ssyms0);
    forall k | 0 <= k < |l| ensures 1 <= l[k] <= Line(re) {
      ListEntry(l, Line(re), k);
    }
    forall x ensures !CanMove(syms, {}, x) {
    }
  }

  lemma StateAppended(re: Re, syms: seq<Symbol>, states: seq<seq<nat>>, states': seq<seq<nat>>, d: seq<Fa>, fa: Fa)
    requires StatesOk(re, syms, states, d) && states <= states' && |d| < |states| && StateOk(re, syms, states', |d|, fa)
    ensures StatesOk(re, syms, states', d + [fa])
  {
    StatesGrow(re, syms, states, states', d);
  }

  /** The automaton: one entry for each state, all as they should be, and state 0 to start in. */
  ghost predicate DfaOk(re: Re, syms: seq<Symbol>, states: seq<seq<nat>>, d: seq<Fa>) {
    d != [] && |d| == |states| && StatesOk(re, syms, states, d) && Starts(re, states)
  }

  // ---- when the table is too small ----

  /** Every text without a match leads to a state. */
  lemma {:induction false} LiveState(re: Re, syms: seq<Symbol>, states: seq<seq<nat>>, d: seq<Fa>, w: seq<int>) returns (t: nat)
    requires DfaOk(re, syms, states, d) && Quiet(re, syms, w)
    ensures t < |states| && Act(re, states[t]) == Active(re, syms, w)
    decreases |w|
  {
    hide Move, Init, CanMove;
    if w == [] {
      t := 0;
    } else {
      var c, w' := w[|w| - 1], w[..|w| - 1];
      forall k | 0 <= k <= |w'| ensures Line(re) !in Active(re, syms, w'[..k]) {
        assert w'[..k] == w[..k];
      }
      var u := LiveState(re, syms, states, d, w');
      assert w'[..|w'|] == w' && StateOk(re, syms, states, u, d[u]);
      if CanMove(syms, Active(re, syms, w'), c) {
        t := ReachedState(re, syms, states, Active(re, syms, w'), c);
      } else {
        NoCharStays(re, syms, Active(re, syms, w'), c);
        t := 0;
      }
    }
  }

  lemma ReachedState(re: Re, syms: seq<Symbol>, states: seq<seq<nat>>, S: set<nat>, c: int) returns (t: nat)
    requires Reaches(re, syms, states, S, c)
    ensures |syms| == Line(re) && t < |states| && Act(re, states[t]) == Init(re) + Move(re, syms, S, c)
  {
    hide Move, Init, Elements;
    t :| t < |states| && Elements(states[t]) == Move(re, syms, S, c) - Init(re);
  }

  /** What texts make, the automaton has. */
  lemma MadePresent(re: Re, syms: seq<Symbol>, states: seq<seq<nat>>, d: seq<Fa>, E: set<nat>)
    requires DfaOk(re, syms, states, d) && Made(re, syms, E)
    ensures Present(states, E)
  {
    hide Move, Init, CanMove, Present;
    var S, c :| Live(re, syms, S) && CanMove(syms, S, c) && E == Move(re, syms, S, c) - Init(re);
    var w :| Quiet(re, syms, w) && Active(re, syms, w) == S;
    var t := LiveState(re, syms, states, d, w);
    assert w[..|w|] == w && StateOk(re, syms, states, t, d[t]);
    assert Reaches(re, syms, states, S, c);
  }

  ghost function Kept(states: seq<seq<nat>>): set<set<nat>> {
    set t | 0 <= t < |states| :: Elements(states[t])
  }

  lemma {:induction false} KeptSize(states: seq<seq<nat>>)
    ensures |Kept(states)| <= |states|
    ensures (forall t, u :: 0 <= t < u < |states| ==> Elements(states[t]) != Elements(states[u])) ==> |Kept(states)| == |states|
    decreases |states|
  {
    hide Elements;
    if states != [] {
      var n := |states| - 1;
      KeptSize(states[..n]);
      KeptLast(states);
    }
  }

  lemma KeptLast(states: seq<seq<nat>>)
    requires states != []
    ensures Kept(states) == Kept(states[..|states| - 1]) + {Elements(states[|states| - 1])}
  {
    hide Elements;
    var n := |states| - 1;
    forall E ensures E in Kept(states) <==> E in Kept(states[..n]) || E == Elements(states[n]) {
      if E in Kept(states[..n]) {
        var t :| 0 <= t < n && Elements(states[..n][t]) == E;
        assert states[t] == states[..n][t];
      }
      if E in Kept(states) && E != Elements(states[n]) {
        var t :| 0 <= t < |states| && Elements(states[t]) == E;
        assert states[t] == states[..n][t];
      }
    }
  }

  /** An automaton leaves no room for more different states than it has. */
  lemma ListedFew(re: Re, syms: seq<Symbol>, states: seq<seq<nat>>, d: seq<Fa>, others: seq<seq<nat>>)
    requires DfaOk(re, syms, states, d) && Elements(states[0]) == Init(re) && Listed(re, syms, others)
    ensures |others| <= |states|
  {
    hide Made, Elements;
    forall E | E in Kept(others) ensures E in Kept(states) {
      var t :| 0 <= t < |others| && Elements(others[t]) == E;
      if t == 0 {
        assert E == Elements(states[0]);
      } else {
        MadePresent(re, syms, states, d, E);
      }
    }
    KeptSize(states);
    KeptSize(others);
    SubsetSize(Kept(others), Kept(states));
  }

  lemma {:induction false} SubsetSize(A: set<set<nat>>, B: set<set<nat>>)
    requires A <= B
    ensures |A| <= |B|
    decreases A
  {
    if x :| x in A {
      SubsetSize(A - {x}, B - {x});
    }
  }

  lemma NoOverflow(re: Re, syms: seq<Symbol>, states: seq<seq<nat>>, d: seq<Fa>, ssyms0: seq<int>)
    requires DfaOk(re, syms, states, d) && Found(re, states, ssyms0)
    ensures !Overflow(re, syms)
  {
    hide Listed, StatesOk, Starts;
    if Overflow(re, syms) {
      var others :| |others| > NSTATES + 1 && Listed(re, syms, others);
      ListedFew(re, syms, states, d, others);
    }
  }

  /** The whole construction; None exactly when there are more different states than the table has room for. */
  method CGotoFn(g: Sets, ghost re: Re, ghost syms: seq<Symbol>) returns (r: Option<seq<Fa>>, ghost states: seq<seq<nat>>)
    requires Tables(g, re, syms) && g.setvec.Length == MAXLIN
    modifies g.setvec, g`setcnt
    ensures r.None? <==> Overflow(re, syms)
    ensures r.Some? ==> DfaOk(re, syms, states, r.value)
  {
    hide Tables, IsSorted, Elements, Init, Found, Clean, StatesOk, StateOk, SymState, InitFlags, Starts, CanMove, Listed, Overflow;
    TablesLine(g, re, syms);
    StartList(g, re, syms);
    var iposns := new int[MAXLIN](_ => 0);
    var index := new int[MAXLIN](_ => 0);
    var isyms := new int[NCHARS](_ => 0);
    var symbol := new int[NCHARS](_ => 0);
    var ssyms0 := StartSymbols(g, iposns, isyms, re, syms);
    SymFlags(syms, {}, Init(re), seq(NCHARS, _ => 0), isyms[..], ssyms0);
    var state := [g.foll[0]];
    CleanStart(re, syms, state, g.foll[0], iposns[..], isyms[..], index[..], symbol[..], ssyms0);
    ListedStart(re, syms, g.foll[0]);
    r, states := BuildStates(g, state, iposns, isyms, index, symbol, g.foll[0], ssyms0, re, syms);
  }

  method BuildStates(g: Sets, state0: seq<seq<nat>>, iposns: array<int>, isyms: array<int>, index: array<int>,
                     symbol: array<int>, sposns0: seq<nat>, ssyms0: seq<int>, ghost re: Re, ghost syms: seq<Symbol>)
    returns (r: Option<seq<Fa>>, ghost states: seq<seq<nat>>)
    requires Tables(g, re, syms) && g.setvec.Length == MAXLIN && |state0| == 1 && Found(re, state0, ssyms0)
    requires Clean(re, syms, iposns[..], isyms[..], index[..], symbol[..], sposns0, ssyms0)
    requires {iposns, isyms, index, symbol} !! {g.setvec} && iposns != isyms && iposns != index && iposns != symbol
    requires isyms != index && isyms != symbol && index != symbol && isyms.Length == symbol.Length == NCHARS
    requires forall x :: x in ssyms0 <==> CanMove(syms, Init(re), x)
    requires Listed(re, syms, state0)
    modifies g.setvec, g`setcnt, index, symbol
    ensures r.None? <==> Overflow(re, syms)
    ensures r.Some? ==> DfaOk(re, syms, states, r.value)
  {
    hide Tables, Found, Clean, StatesOk, StateOk, Starts, CanMove, Init, AllSorted, Listed, Overflow;
    var state := state0;
    var d: seq<Fa> := [];
    NoStates(re, syms, state);
    FoundParts(re, state, ssyms0);
    while |d| < |state|
      invariant Tables(g, re, syms) && state != [] && |d| <= |state| <= NSTATES + 1
      invariant Found(re, state, ssyms0) && Clean(re, syms, iposns[..], isyms[..], index[..], symbol[..], sposns0, ssyms0)
      invariant Listed(re, syms, state)
      invariant StatesOk(re, syms, state, d)
      decreases NSTATES + 1 - |d|
    {
      var ok, state', fa := OneState(g, state, |d|, iposns, isyms, index, symbol, sposns0, ssyms0, re, syms);
      if !ok {
        return None, state;
      }
      StateAppended(re, syms, state, state', d, fa);
      FoundParts(re, state', ssyms0);
      state, d := state', d + [fa];
    }
    FoundParts(re, state, ssyms0);
    NoOverflow(re, syms, state, d, ssyms0);
    r, states := Some(d), state;
  }

  lemma NoStates(re: Re, syms: seq<Symbol>, states: seq<seq<nat>>)
    ensures StatesOk(re, syms, states, [])
  {
  }
}
