/** Choosing between short and long jumps, and the size of the aligns: jxxxfix and jxxxbump of asjxxx.c, for one segment. */
module AsJxxx {

  const JXACTIVE := 0xFF         // jump, size unknown
  const JXNOTYET := 0xFE         // size known, but not yet expanded
  const JXALIGN := 0xFD          // align
  const JXINACTIVE := 0xFC       // size known and expanded
  const JXQUESTIONABLE := 0xFB
  const OKTOBUMP := 0xF5

  const MINBYTE := -128
  const MAXBYTE := 127

  /** The fields of a symbol table entry; a destination is an index into the sorted table, -1 for none. */
  datatype Symtab = Symtab(s_tag: nat, s_value: int, s_jxbump: int, s_jxfear: int, s_dest: int) {
    predicate Mark() { s_tag > JXQUESTIONABLE }
    predicate Moves() { s_tag >= OKTOBUMP }
    predicate Jump() { Mark() && s_dest >= 0 }
    predicate Align() { Mark() && s_dest < 0 }
  }

  // ---- sums over a stretch of the table ----

  type Weight = Symtab -> int

  function NotYet(e: Symtab): int { if e.s_tag == JXNOTYET then e.s_jxfear else 0 }
  function Pending(e: Symtab): int { if e.Mark() && e.s_tag != JXINACTIVE then e.s_jxfear else 0 }
  function Fear(e: Symtab): int { if e.Mark() then e.s_jxfear else 0 }
  function Grown(e: Symtab): int { if e.s_jxbump != 0 then e.s_jxfear else 0 }
  function Active(e: Symtab): int { if e.s_tag == JXACTIVE then 1 else 0 }

  ghost function Sum(es: seq<Symtab>, lo: nat, hi: nat, w: Weight): int
    requires lo <= hi <= |es|
  {
    if lo == hi then 0 else Sum(es, lo, hi - 1, w) + w(es[hi - 1])
  }

  lemma {:induction false} SumSplit(es: seq<Symtab>, lo: nat, mid: nat, hi: nat, w: Weight)
    requires lo <= mid <= hi <= |es|
    ensures Sum(es, lo, hi, w) == Sum(es, lo, mid, w) + Sum(es, mid, hi, w)
  {
    if mid < hi {
      SumSplit(es, lo, mid, hi - 1, w);
    }
  }

  lemma {:induction false} SumLe(es: seq<Symtab>, w: Weight, es': seq<Symtab>, w': Weight, lo: nat, hi: nat)
    requires lo <= hi <= |es| && hi <= |es'|
    requires forall k :: lo <= k < hi ==> w(es[k]) <= w'(es'[k])
    ensures Sum(es, lo, hi, w) <= Sum(es', lo, hi, w')
  {
    if lo < hi {
      SumLe(es, w, es', w', lo, hi - 1);
    }
  }

  lemma {:induction false} SumAdd(es: seq<Symtab>, w: Weight, a: seq<Symtab>, u: Weight, b: seq<Symtab>, v: Weight, lo: nat, hi: nat)
    requires lo <= hi <= |es| && hi <= |a| && hi <= |b|
    requires forall k :: lo <= k < hi ==> w(es[k]) == u(a[k]) + v(b[k])
    ensures Sum(es, lo, hi, w) == Sum(a, lo, hi, u) + Sum(b, lo, hi, v)
  {
    if lo < hi {
      SumAdd(es, w, a, u, b, v, lo, hi - 1);
    }
  }

  lemma {:induction false} SumZero(es: seq<Symtab>, lo: nat, hi: nat, w: Weight)
    requires lo <= hi <= |es| && forall k :: lo <= k < hi ==> w(es[k]) == 0
    ensures Sum(es, lo, hi, w) == 0
  {
    if lo < hi {
      SumZero(es, lo, hi - 1, w);
    }
  }

  // ---- what pass 1 leaves ----

  /** The order in which the table is sorted, within one segment. */
  function SymCmp(p: Symtab, q: Symtab): int {
    if p.s_value < q.s_value then -1
    else if p.s_value > q.s_value then 1
    else if p.Mark() then -1
    else if q.Mark() then 1
    else 0
  }

  /** A jump is active, short and aimed at a label that moves with the text; an align has its mask as fear. */
  predicate Recorded(es: seq<Symtab>, k: nat)
    requires k < |es|
  {
    && es[k].s_jxbump == 0
    && (es[k].Jump() ==> es[k].s_tag == JXACTIVE && es[k].s_jxfear > 0 && es[k].s_dest < |es| && !es[es[k].s_dest].Mark() && es[es[k].s_dest].Moves())
    && (es[k].Align() ==> es[k].s_tag == JXALIGN && exists n: nat :: n <= 15 && es[k].s_jxfear == Power(n) - 1)
  }

  function Power(n: nat): (p: nat)
    ensures p > 0
  {
    if n == 0 then 1 else 2 * Power(n - 1)
  }

  ghost predicate Start(es: seq<Symtab>) {
    && (forall k :: 0 <= k < |es| ==> Recorded(es, k))
    && (forall j, k :: 0 <= j < k < |es| ==> SymCmp(es[k], es[j]) >= 0)
    && (forall j, k :: 0 <= j < k < |es| && es[j].Mark() && es[k].Mark() ==> es[j].s_value != es[k].s_value)
  }

  /** The growth of a jump that becomes long. */
  function Expansion(e: Symtab): int { if e.Jump() then e.s_jxfear else 0 }

  /** Entry k, which keeps its value, hides no jump or align behind destination D: there is none between them, or the
      destination never gets up to the value of k, even when all jumps in front of it become long. */
  ghost predicate Harmless(es: seq<Symtab>, D: nat, k: nat)
    requires D < |es| && k < |es|
  {
    (forall j :: D < j < k ==> !es[j].Mark()) || es[k].s_value > es[D].s_value + Sum(es, 0, D + 1, Expansion)
  }

  /** Entries that keep their value between a jump and a destination in front of it hide nothing from the search. */
  ghost predicate ClearBehind(es: seq<Symtab>) {
    forall i, k :: 0 <= i < |es| && es[i].Jump() && es[i].s_dest < k < i && !es[k].Moves() ==> Harmless(es, es[i].s_dest, k)
  }

  /** The values of entries that move ascend, and from position p on strictly at every jump and align; at first, an
      entry that does not move is not above a later one that does. */
  ghost predicate Order(es: seq<Symtab>, p: nat) {
    && (forall j, k :: 0 <= j <= k < |es| && es[j].Moves() && es[k].Moves() ==> es[j].s_value <= es[k].s_value)
    && (forall j, k :: 0 <= j < k < |es| && p <= k && es[j].Moves() && es[k].Mark() ==> es[j].s_value < es[k].s_value)
    && (p == 0 ==> forall j, k :: 0 <= j <= k < |es| && es[k].Moves() ==> es[j].s_value <= es[k].s_value)
  }

  lemma StartOrder(es: seq<Symtab>)
    requires Start(es)
    ensures Order(es, 0)
  {
    forall j, k | 0 <= j < k < |es| && es[k].Mark() && es[j].Moves() ensures es[j].s_value < es[k].s_value {
      assert SymCmp(es[k], es[j]) >= 0;
    }
    forall j, k | 0 <= j <= k < |es| ensures es[j].s_value <= es[k].s_value {
      if j < k {
        assert SymCmp(es[k], es[j]) >= 0;
      }
    }
  }

  // ---- what holds between two passes ----

  /** How far entry k has moved. */
  ghost function Grew(es: seq<Symtab>, k: nat): int
    requires k < |es|
  {
    Sum(es, 0, k + 1, Grown)
  }

  function Displ(es: seq<Symtab>, i: nat): int
    requires i < |es| && 0 <= es[i].s_dest < |es|
  {
    es[es[i].s_dest].s_value - es[i].s_value
  }

  function InByte(d: int): bool { MINBYTE <= d <= MAXBYTE }

  /** The entries lo..hi-1 lie between jump i, short, and its destination. */
  function Lo(es: seq<Symtab>, i: nat): nat
    requires i < |es| && 0 <= es[i].s_dest
  {
    if es[i].s_dest > i then i + 1 else es[i].s_dest + 1
  }

  function Hi(es: seq<Symtab>, i: nat): nat
    requires i < |es| && 0 <= es[i].s_dest
  {
    if es[i].s_dest > i then es[i].s_dest + 1 else i
  }

  predicate Aimed(es: seq<Symtab>, i: nat)
    requires i < |es|
  {
    es[i].Jump() ==> es[i].s_dest < |es| && es[i].s_dest != i && es[es[i].s_dest].Moves()
  }

  /** The displacement of jump i after everything in between has grown by its weight. */
  ghost function Worst(es: seq<Symtab>, i: nat, w: Weight): int
    requires i < |es| && es[i].Jump() && Aimed(es, i)
  {
    if es[i].s_dest > i
    then Displ(es, i) + Sum(es, Lo(es, i), Hi(es, i), w)
    else Displ(es, i) - Sum(es, Lo(es, i), Hi(es, i), w)
  }

  /** A jump fixed as short reaches whatever the undecided entries do. */
  ghost predicate Settled(es: seq<Symtab>, i: nat)
    requires i < |es|
  {
    es[i].Jump() && es[i].s_tag == JXINACTIVE && es[i].s_jxbump == 0 ==>
      Aimed(es, i) && (if es[i].s_dest > i then Worst(es, i, Pending) <= MAXBYTE else Worst(es, i, Pending) >= MINBYTE)
  }

  /** An align that has its final size: the padding is the least that makes the value a multiple of the power of two. */
  predicate Fitted(e0: Symtab, e: Symtab)
    requires e0.s_jxfear >= 0
  {
    e.s_value % (e0.s_jxfear + 1) == 0 && 0 <= 1 + Grown(e) <= e0.s_jxfear
  }

  predicate Kept(e0: Symtab, e: Symtab, done: bool) {
    && e.s_dest == e0.s_dest && (e.Mark() <==> e0.Mark()) && (e.Moves() <==> e0.Moves()) && (!e0.Moves() ==> e == e0)
    && (!e0.Mark() ==> e.s_tag == e0.s_tag && e.s_jxbump == 0)
    && (e0.Jump() ==> e.s_jxfear == e0.s_jxfear > 0 && (e.s_tag == JXACTIVE || e.s_tag == JXNOTYET || e.s_tag == JXINACTIVE) &&
                      (e.s_tag != JXINACTIVE ==> e.s_jxbump == 0))
    && (e0.Align() ==> e0.s_jxfear >= 0 &&
                       if done then Fitted(e0, e) && (e.s_tag == JXINACTIVE || (e.s_tag == JXALIGN && e.s_jxfear == 1))
                       else e.s_tag == JXALIGN && e.s_jxfear == e0.s_jxfear && e.s_jxbump == 0)
  }

  /** An entry that moves has moved by all the growth up to it. */
  ghost predicate Placed(es0: seq<Symtab>, es: seq<Symtab>, k: nat)
    requires k < |es| == |es0|
  {
    es[k].Moves() ==> es[k].s_value == es0[k].s_value + Grew(es, k)
  }

  /** Where fixed entries hide nothing, a jump fixed as short is sure to reach. */
  ghost predicate Sure(es0: seq<Symtab>, es: seq<Symtab>, i: nat)
    requires i < |es|
  {
    ClearBehind(es0) ==> Settled(es, i)
  }

  /** Aligns before position p have their final size. */
  ghost predicate Inv(es0: seq<Symtab>, es: seq<Symtab>, p: nat) {
    && |es| == |es0|
    && (forall k :: 0 <= k < |es| ==> Kept(es0[k], es[k], k < p))
    && (forall k :: 0 <= k < |es| ==> Aimed(es, k))
    && (forall k :: 0 <= k < |es| ==> Placed(es0, es, k))
    && Order(es, p)
    && (forall i :: 0 <= i < |es| ==> Sure(es0, es, i))
  }

  lemma StartInv(es: seq<Symtab>)
    requires Start(es)
    ensures Inv(es, es, 0)
  {
    StartOrder(es);
    forall k | 0 <= k < |es| ensures Kept(es[k], es[k], k < 0) && Aimed(es, k) && Sure(es, es, k) {
      assert Recorded(es, k);
    }
    forall k | 0 <= k < |es| ensures Grew(es, k) == 0 {
      forall j | 0 <= j < k + 1 ensures Grown(es[j]) == 0 {
        assert Recorded(es, j);
      }
      SumZero(es, 0, k + 1, Grown);
    }
  }

  // ---- jxxxbump ----

  function Bumped(e: Symtab, cum_bump: int): Symtab {
    e.(s_tag := if e.s_tag == JXNOTYET then JXINACTIVE else e.s_tag,
       s_jxbump := if e.s_tag == JXNOTYET then 1 else e.s_jxbump,
       s_value := if e.s_tag >= OKTOBUMP then e.s_value + cum_bump else e.s_value)
  }

  /** Entries start..c-1 have moved by all the growth announced from start on. */
  ghost predicate BumpedUpTo(es: seq<Symtab>, es': seq<Symtab>, start: nat, c: nat) {
    && |es'| == |es| && start <= c <= |es|
    && (forall k :: 0 <= k < start || c <= k < |es| ==> es'[k] == es[k])
    && (forall k :: start <= k < c ==> es'[k] == Bumped(es[k], Sum(es, start, k + 1, NotYet)))
  }

  ghost predicate BumpedFrom(es: seq<Symtab>, es': seq<Symtab>, start: nat) {
    BumpedUpTo(es, es', start, |es|)
  }

  lemma BumpedNone(es: seq<Symtab>, start: nat)
    requires start <= |es|
    ensures BumpedUpTo(es, es, start, start)
  {
  }

  /** Growth announced before start does not exist, and nothing announced has been bumped. */
  ghost predicate Announced(es: seq<Symtab>, start: nat) {
    && (forall k :: 0 <= k < |es| && es[k].s_tag == JXNOTYET ==> start <= k && es[k].s_jxbump == 0)
  }

  lemma BumpShift(es: seq<Symtab>, es': seq<Symtab>, start: nat, k: nat)
    requires BumpedFrom(es, es', start) && Announced(es, start) && k < |es|
    ensures es'[k] == Bumped(es[k], Sum(es, 0, k + 1, NotYet))
  {
    if k < start {
      SumZero(es, 0, k + 1, NotYet);
    } else {
      SumSplit(es, 0, start, k + 1, NotYet);
      SumZero(es, 0, start, NotYet);
    }
  }

  lemma BumpTotal(es: seq<Symtab>, es': seq<Symtab>, start: nat)
    requires BumpedFrom(es, es', start) && Announced(es, start)
    ensures Total(es') == Total(es) + Sum(es, start, |es|, NotYet)
  {
    forall j | 0 <= j < |es| ensures Grown(es'[j]) == Grown(es[j]) + NotYet(es[j]) {
      BumpShift(es, es', start, j);
    }
    SumAdd(es', Grown, es, Grown, es, NotYet, 0, |es|);
    SumSplit(es, 0, start, |es|, NotYet);
    SumZero(es, 0, start, NotYet);
  }

  lemma BumpValue(es0: seq<Symtab>, es: seq<Symtab>, es': seq<Symtab>, start: nat, k: nat)
    requires BumpedFrom(es, es', start) && Announced(es, start) && k < |es| == |es0|
    requires Placed(es0, es, k)
    ensures Placed(es0, es', k)
  {
    BumpShift(es, es', start, k);
    forall j | 0 <= j < k + 1 ensures Grown(es'[j]) == Grown(es[j]) + NotYet(es[j]) {
      BumpShift(es, es', start, j);
    }
    SumAdd(es', Grown, es, Grown, es, NotYet, 0, k + 1);
  }

  /** Growth only moves from what may happen to what has happened. */
  lemma BumpWorst(es: seq<Symtab>, es': seq<Symtab>, start: nat, i: nat)
    requires BumpedFrom(es, es', start) && Announced(es, start)
    requires i < |es| && es[i].Jump() && es[i].s_tag != JXNOTYET && Aimed(es, i)
    ensures es'[i].Jump() && Aimed(es', i) && Worst(es', i, Pending) == Worst(es, i, Pending)
  {
    var D: nat := es[i].s_dest;
    BumpShift(es, es', start, i);
    BumpShift(es, es', start, D);
    forall j | 0 <= j < |es| ensures Pending(es[j]) == Pending(es'[j]) + NotYet(es[j]) {
      BumpShift(es, es', start, j);
    }
    SumAdd(es, Pending, es', Pending, es, NotYet, Lo(es, i), Hi(es, i));
    if D > i {
      SumSplit(es, 0, i + 1, D + 1, NotYet);
    } else {
      SumSplit(es, 0, D + 1, i + 1, NotYet);
    }
  }

  lemma BumpSettled(es: seq<Symtab>, es': seq<Symtab>, start: nat, i: nat)
    requires BumpedFrom(es, es', start) && Announced(es, start)
    requires i < |es| && Aimed(es, i) && Settled(es, i)
    ensures Aimed(es', i) && Settled(es', i)
  {
    BumpShift(es, es', start, i);
    if es[i].Jump() && es[i].s_tag != JXNOTYET {
      BumpWorst(es, es', start, i);
    }
  }

  /** All values move by what was announced up to them. */
  lemma BumpOrder(es: seq<Symtab>, es': seq<Symtab>)
    requires BumpedFrom(es, es', 0) && Announced(es, 0) && Order(es, 0)
    requires forall k :: 0 <= k < |es| ==> NotYet(es[k]) >= 0
    ensures Order(es', 0)
  {
    hide BumpedFrom, Announced, NotYet;
    BumpSize(es, es');
    forall j, k | 0 <= j <= k < |es| && es[k].Moves()
      ensures es'[k].s_value - es'[j].s_value >= es[k].s_value - es[j].s_value
      ensures (es'[k].Mark() <==> es[k].Mark()) && (es'[k].Moves() <==> es[k].Moves()) && (es'[j].Moves() <==> es[j].Moves())
    {
      BumpPair(es, es', j, k);
    }
    forall k | 0 <= k < |es| ensures (es'[k].Mark() <==> es[k].Mark()) && (es'[k].Moves() <==> es[k].Moves()) {
      BumpTags(es, es', k);
    }
  }

  lemma BumpSize(es: seq<Symtab>, es': seq<Symtab>)
    requires BumpedFrom(es, es', 0)
    ensures |es'| == |es|
  {
  }

  lemma BumpTags(es: seq<Symtab>, es': seq<Symtab>, k: nat)
    requires BumpedFrom(es, es', 0) && Announced(es, 0) && k < |es|
    ensures (es'[k].Mark() <==> es[k].Mark()) && (es'[k].Moves() <==> es[k].Moves())
  {
    BumpShift(es, es', 0, k);
  }

  lemma BumpPair(es: seq<Symtab>, es': seq<Symtab>, j: nat, k: nat)
    requires BumpedFrom(es, es', 0) && Announced(es, 0) && j <= k < |es| && es[k].Moves()
    requires forall i :: 0 <= i < |es| ==> NotYet(es[i]) >= 0
    ensures es'[k].s_value - es'[j].s_value >= es[k].s_value - es[j].s_value
    ensures (es'[k].Mark() <==> es[k].Mark()) && (es'[k].Moves() <==> es[k].Moves()) && (es'[j].Moves() <==> es[j].Moves())
  {
    BumpShift(es, es', 0, j);
    BumpShift(es, es', 0, k);
    SumSplit(es, 0, j + 1, k + 1, NotYet);
    SumNonneg(es, j + 1, k + 1, NotYet);
    SumNonneg(es, 0, j + 1, NotYet);
  }

  lemma {:induction false} SumNonneg(es: seq<Symtab>, lo: nat, hi: nat, w: Weight)
    requires lo <= hi <= |es| && forall k :: lo <= k < hi ==> w(es[k]) >= 0
    ensures Sum(es, lo, hi, w) >= 0
  {
    if lo < hi {
      SumNonneg(es, lo, hi - 1, w);
    }
  }

  lemma BumpInv(es0: seq<Symtab>, es: seq<Symtab>, es': seq<Symtab>)
    requires Inv(es0, es, 0) && BumpedFrom(es, es', 0)
    ensures Inv(es0, es', 0)
    ensures forall k :: 0 <= k < |es| ==> es'[k].s_tag == if es[k].s_tag == JXNOTYET then JXINACTIVE else es[k].s_tag
    ensures forall k :: 0 <= k < |es| ==> es'[k].s_jxbump == if es[k].s_tag == JXNOTYET then 1 else es[k].s_jxbump
  {
    hide Settled, Order, ClearBehind;
    forall k | 0 <= k < |es| ensures Kept(es0[k], es[k], false) && NotYet(es[k]) >= 0 {
      assert Kept(es0[k], es[k], k < 0);
    }
    BumpOrder(es, es');
    forall k | 0 <= k < |es|
      ensures Kept(es0[k], es'[k], k < 0) && Aimed(es', k) && Placed(es0, es', k) && Sure(es0, es', k)
    {
      assert Aimed(es, k);
      BumpShift(es, es', 0, k);
      BumpValue(es0, es, es', 0, k);
      if ClearBehind(es0) {
        assert Sure(es0, es, k);
        BumpSettled(es, es', 0, k);
      }
    }
  }

  // ---- one look at a jump ----

  lemma {:induction false} SumSame(es: seq<Symtab>, es': seq<Symtab>, lo: nat, hi: nat, w: Weight)
    requires lo <= hi <= |es| && hi <= |es'| && forall k :: lo <= k < hi ==> w(es[k]) == w(es'[k])
    ensures Sum(es, lo, hi, w) == Sum(es', lo, hi, w)
  {
    if lo < hi {
      SumSame(es, es', lo, hi - 1, w);
    }
  }

  /** es' has the values of es, and no entry may grow more than before. */
  ghost predicate Calmer(es: seq<Symtab>, es': seq<Symtab>) {
    && |es'| == |es|
    && forall k :: 0 <= k < |es| ==>
         es'[k].s_value == es[k].s_value && es'[k].s_dest == es[k].s_dest && es'[k].Mark() == es[k].Mark() && es'[k].Moves() == es[k].Moves() &&
         Pending(es'[k]) <= Pending(es[k]) && Grown(es'[k]) == Grown(es[k])
  }

  lemma CalmerWorst(es: seq<Symtab>, es': seq<Symtab>, i: nat)
    requires Calmer(es, es') && i < |es| && es[i].Jump() && Aimed(es, i)
    ensures es'[i].Jump() && Aimed(es', i)
    ensures if es[i].s_dest > i then Worst(es', i, Pending) <= Worst(es, i, Pending) else Worst(es', i, Pending) >= Worst(es, i, Pending)
  {
    SumLe(es', Pending, es, Pending, Lo(es, i), Hi(es, i));
  }

  /** The tag a pass gives to an active jump. */
  ghost function Verdict(es: seq<Symtab>, i: nat): nat
    requires i < |es| && es[i].Jump() && Aimed(es, i)
  {
    if !InByte(Displ(es, i)) then JXNOTYET
    else if es[i].s_dest > i then (if Worst(es, i, Fear) <= MAXBYTE then JXINACTIVE else JXACTIVE)
    else (if Worst(es, i, Fear) >= MINBYTE then JXINACTIVE else JXACTIVE)
  }

  ghost predicate Tagged(es: seq<Symtab>, es': seq<Symtab>, i: nat, tag: nat) {
    i < |es| && es' == es[i := es[i].(s_tag := tag)]
  }

  lemma VerdictCalmer(es0: seq<Symtab>, es: seq<Symtab>, es': seq<Symtab>, i: nat)
    requires Inv(es0, es, 0) && i < |es| && es[i].s_tag == JXACTIVE && es[i].Jump() && Aimed(es, i)
    requires Tagged(es, es', i, Look(es, i))
    ensures Calmer(es, es') && Order(es', 0) && Kept(es0[i], es'[i], false)
  {
    assert Kept(es0[i], es[i], i < 0);
  }

  lemma VerdictSettled(es0: seq<Symtab>, es: seq<Symtab>, es': seq<Symtab>, i: nat)
    requires Inv(es0, es, 0) && i < |es| && es[i].s_tag == JXACTIVE && es[i].Jump() && Aimed(es, i)
    requires Tagged(es, es', i, Verdict(es, i))
    ensures Settled(es', i)
  {
    forall k | 0 <= k < |es| ensures Pending(es'[k]) <= Fear(es[k]) {
      assert Kept(es0[k], es[k], k < 0);
    }
    SumLe(es', Pending, es, Fear, Lo(es, i), Hi(es, i));
  }

  lemma VerdictInv(es0: seq<Symtab>, es: seq<Symtab>, es': seq<Symtab>, i: nat)
    requires Inv(es0, es, 0) && i < |es| && es[i].s_tag == JXACTIVE && es[i].Jump() && Aimed(es, i)
    requires Tagged(es, es', i, Look(es, i))
    ensures Inv(es0, es', 0)
  {
    hide Verdict, Look, SymCmp, Recorded, InByte, Fear, ClearBehind;
    VerdictCalmer(es0, es, es', i);
    if ClearBehind(es0) {
      LookIsVerdict(es0, es, i);
      VerdictSettled(es0, es, es', i);
    }
    forall k | 0 <= k < |es|
      ensures Kept(es0[k], es'[k], k < 0) && Aimed(es', k) && Sure(es0, es', k)
      ensures Placed(es0, es', k)
    {
      assert Kept(es0[k], es[k], k < 0) && Aimed(es, k) && Sure(es0, es, k) && Placed(es0, es, k);
      SumSame(es, es', 0, k + 1, Grown);
      if es[k].Jump() {
        CalmerWorst(es, es', k);
      }
    }
  }

  // ---- the least safe assignment ----

  ghost function SumIn(es: seq<Symtab>, long: set<nat>, lo: nat, hi: nat): int
    requires lo <= hi <= |es|
  {
    if lo == hi then 0 else SumIn(es, long, lo, hi - 1) + if es[hi - 1].Jump() && hi - 1 in long then es[hi - 1].s_jxfear else 0
  }

  /** The value of entry k when exactly the jumps in long are long. */
  ghost function ValueIn(es: seq<Symtab>, long: set<nat>, k: nat): int
    requires k < |es|
  {
    es[k].s_value + SumIn(es, long, 0, k + 1)
  }

  /** All jumps that are not in long reach their destination with one byte. */
  ghost predicate Safe(es: seq<Symtab>, long: set<nat>) {
    forall i: nat :: i < |es| && es[i].Jump() && Aimed(es, i) && i !in long ==>
      InByte(ValueIn(es, long, es[i].s_dest) - ValueIn(es, long, i))
  }

  ghost predicate Decided(e: Symtab) {
    e.s_jxbump != 0 || e.s_tag == JXNOTYET
  }

  ghost predicate Within(es: seq<Symtab>, long: set<nat>) {
    forall k: nat :: k < |es| && es[k].Jump() && Decided(es[k]) ==> k in long
  }

  /** Every jump made long so far is long in every safe assignment. */
  ghost predicate Forced(es0: seq<Symtab>, es: seq<Symtab>) {
    forall long: set<nat> :: Safe(es0, long) ==> Within(es, long)
  }

  ghost predicate Unaligned(es: seq<Symtab>, lo: nat, hi: nat) {
    forall k :: lo <= k < hi && k < |es| ==> !es[k].Align()
  }

  /** No align lies between jump i and its destination, when these are near enough for a short jump. */
  ghost predicate Uncrossing(es: seq<Symtab>, i: nat)
    requires i < |es|
  {
    es[i].Jump() && Aimed(es, i) && InByte(Displ(es, i)) ==> Unaligned(es, Lo(es, i), Hi(es, i))
  }

  ghost predicate Uncrossed(es: seq<Symtab>) {
    forall i :: 0 <= i < |es| ==> Uncrossing(es, i)
  }

  /** Growth moves a jump and its destination apart. */
  lemma DisplWidens(es0: seq<Symtab>, es: seq<Symtab>, i: nat)
    requires Start(es0) && Inv(es0, es, 0) && i < |es| && es[i].Jump() && Aimed(es, i)
    ensures es0[i].Jump() && Aimed(es0, i) && es0[i].s_dest == es[i].s_dest && Lo(es0, i) == Lo(es, i) && Hi(es0, i) == Hi(es, i)
    ensures if es[i].s_dest > i then 0 <= Displ(es0, i) <= Displ(es, i) else 0 > Displ(es0, i) >= Displ(es, i)
    ensures Worst(es0, i, Fear) - Displ(es0, i) == Worst(es, i, Fear) - Displ(es, i)
    ensures if es[i].s_dest > i then Displ(es0, i) <= Worst(es0, i, Fear) else Displ(es0, i) >= Worst(es0, i, Fear)
  {
    hide Start, SymCmp, Order, Sure, ClearBehind;
    var D: nat := es[i].s_dest;
    StartSigns(es0, i);
    assert Kept(es0[i], es[i], i < 0) && Kept(es0[D], es[D], D < 0) && Placed(es0, es, i) && Placed(es0, es, D);
    var lo, hi := if i < D then i + 1 else D + 1, if i < D then D + 1 else i + 1;
    forall k | 0 <= k < |es| ensures Grown(es[k]) >= 0 && Fear(es[k]) == Fear(es0[k]) {
      assert Kept(es0[k], es[k], k < 0);
      StartSigns(es0, k);
    }
    SumSplit(es, 0, lo, hi, Grown);
    SumNonneg(es, lo, hi, Grown);
    SumSame(es, es0, Lo(es, i), Hi(es, i), Fear);
    forall k | 0 <= k < |es| ensures Fear(es0[k]) >= 0 {
      StartSigns(es0, k);
    }
    SumNonneg(es0, Lo(es, i), Hi(es, i), Fear);
  }

  lemma StartSigns(es: seq<Symtab>, i: nat)
    requires Start(es) && i < |es|
    ensures Aimed(es, i) && Fear(es[i]) >= 0 && (es[i].Jump() ==> es[i].s_tag == JXACTIVE)
    ensures es[i].Jump() ==> if es[i].s_dest > i then Displ(es, i) >= 0 else Displ(es, i) < 0
  {
    assert Recorded(es, i);
    if es[i].Jump() {
      StartOrder(es);
    }
  }

  lemma {:induction false} SumInSplit(es: seq<Symtab>, long: set<nat>, lo: nat, mid: nat, hi: nat)
    requires lo <= mid <= hi <= |es|
    ensures SumIn(es, long, lo, hi) == SumIn(es, long, lo, mid) + SumIn(es, long, mid, hi)
  {
    if mid < hi {
      SumInSplit(es, long, lo, mid, hi - 1);
    }
  }

  lemma {:induction false} SumInAtLeast(es0: seq<Symtab>, es: seq<Symtab>, long: set<nat>, lo: nat, hi: nat)
    requires Inv(es0, es, 0) && Unaligned(es0, lo, hi) && Within(es, long) && lo <= hi <= |es|
    ensures SumIn(es0, long, lo, hi) >= Sum(es, lo, hi, Grown)
  {
    if lo < hi {
      SumInAtLeast(es0, es, long, lo, hi - 1);
      assert Kept(es0[hi - 1], es[hi - 1], hi - 1 < 0);
    }
  }

  lemma {:induction false} SumInNonneg(es: seq<Symtab>, long: set<nat>, lo: nat, hi: nat)
    requires Start(es) && lo <= hi <= |es|
    ensures SumIn(es, long, lo, hi) >= 0
  {
    hide SymCmp;
    if lo < hi {
      SumInNonneg(es, long, lo, hi - 1);
      assert Recorded(es, hi - 1);
    }
  }

  /** A jump that does not reach now reaches in no assignment with more long jumps. */
  lemma OutForGood(es0: seq<Symtab>, es: seq<Symtab>, long: set<nat>, i: nat)
    requires Start(es0) && Inv(es0, es, 0) && Uncrossed(es0) && Within(es, long) && Safe(es0, long)
    requires i < |es| && es[i].s_tag == JXACTIVE && es[i].Jump() && Aimed(es, i) && !InByte(Displ(es, i))
    ensures i in long
  {
    hide Start, ClearBehind, Order, Sure, Within;
    DisplWidens(es0, es, i);
    assert Uncrossing(es0, i);
    if i !in long {
      assert InByte(ValueIn(es0, long, es[i].s_dest) - ValueIn(es0, long, i));
      AddedBetween(es0, es, long, i);
    }
  }

  /** What the long jumps add between a jump and its destination. */
  lemma AddedBetween(es0: seq<Symtab>, es: seq<Symtab>, long: set<nat>, i: nat)
    requires Start(es0) && Inv(es0, es, 0) && Within(es, long) && i !in long
    requires i < |es| && es[i].s_tag == JXACTIVE && es[i].Jump() && Aimed(es, i) && Aimed(es0, i) && es0[i].Jump()
    requires es0[i].s_dest == es[i].s_dest
    ensures var d := ValueIn(es0, long, es[i].s_dest) - ValueIn(es0, long, i);
            && (if es[i].s_dest > i then d >= Displ(es0, i) else d <= Displ(es0, i))
            && (Unaligned(es0, Lo(es, i), Hi(es, i)) ==> if es[i].s_dest > i then d >= Displ(es, i) else d <= Displ(es, i))
  {
    hide Start, ClearBehind, Order, Sure;
    var D: nat := es[i].s_dest;
    assert Kept(es0[i], es[i], i < 0) && Kept(es0[D], es[D], D < 0) && Placed(es0, es, i) && Placed(es0, es, D);
    var lo, hi := if i < D then i + 1 else D + 1, if i < D then D + 1 else i + 1;
    SumSplit(es, 0, lo, hi, Grown);
    SumInSplit(es0, long, 0, lo, hi);
    SumInNonneg(es0, long, lo, hi);
    if Unaligned(es0, Lo(es, i), Hi(es, i)) {
      assert Unaligned(es0, lo, hi);
      SumInAtLeast(es0, es, long, lo, hi);
    }
  }

  lemma VerdictForced(es0: seq<Symtab>, es: seq<Symtab>, es': seq<Symtab>, i: nat)
    requires Inv(es0, es, 0) && i < |es| && es[i].s_tag == JXACTIVE && es[i].Jump() && Aimed(es, i)
    requires Tagged(es, es', i, Look(es, i)) && Start(es0) && Uncrossed(es0) && Forced(es0, es)
    ensures Forced(es0, es')
  {
    forall long: set<nat> | Safe(es0, long) ensures Within(es', long) {
      assert Within(es, long);
      if !InByte(Displ(es, i)) {
        OutForGood(es0, es, long, i);
      }
    }
  }

  // ---- one pass ----

  ghost predicate Crosses(es: seq<Symtab>, i: nat)
    requires i < |es| && es[i].Jump() && Aimed(es, i)
  {
    exists k :: Lo(es, i) <= k < Hi(es, i) && es[k].s_tag == JXALIGN
  }

  /** An active jump reaches with the present values, and crosses no align when badjxalign is 0 and nothing is hidden. */
  ghost predicate Stuck(es0: seq<Symtab>, es: seq<Symtab>, j: nat, badjxalign: nat)
    requires j < |es|
  {
    es[j].s_tag == JXACTIVE && es[j].Jump() && Aimed(es, j) ==>
      InByte(Displ(es, j)) && (badjxalign == 0 && ClearBehind(es0) ==> !Crosses(es, j))
  }

  /** The counters after the first i entries were looked at. */
  ghost predicate Counted(es0: seq<Symtab>, es: seq<Symtab>, i: nat, nchange: nat, stillactives: nat, badjxalign: nat) {
    && i <= |es|
    && (forall j :: 0 <= j < i ==> Stuck(es0, es, j, badjxalign))
    && (stillactives == 0 ==> forall j :: 0 <= j < i ==> es[j].s_tag != JXACTIVE)
    && (nchange == 0 ==> forall j :: 0 <= j < |es| ==> es[j].s_tag != JXNOTYET)
  }

  lemma CountedTagged(es0: seq<Symtab>, es: seq<Symtab>, es': seq<Symtab>, i: nat, nchange: nat, stillactives: nat, badjxalign: nat,
                      nchange': nat, stillactives': nat, badjxalign': nat)
    requires Counted(es0, es, i, nchange, stillactives, badjxalign) && i < |es|
    requires es[i].s_tag == JXACTIVE && es[i].Jump() && Aimed(es, i) && Tagged(es, es', i, Look(es, i))
    requires badjxalign' >= badjxalign && (badjxalign' == 0 && ClearBehind(es0) && InByte(Displ(es, i)) ==> !Crosses(es, i))
    requires stillactives' >= stillactives && (stillactives' == 0 ==> Look(es, i) != JXACTIVE)
    requires nchange' >= nchange && (nchange' == 0 ==> Look(es, i) != JXNOTYET)
    ensures Counted(es0, es', i + 1, nchange', stillactives', badjxalign')
  {
    hide ClearBehind;
    forall j | 0 <= j < i + 1 ensures Stuck(es0, es', j, badjxalign') {
      if j < i {
        assert Stuck(es0, es, j, badjxalign);
      }
    }
  }

  lemma {:induction false} ActiveTagged(es: seq<Symtab>, es': seq<Symtab>, i: nat, tag: nat, hi: nat)
    requires Tagged(es, es', i, tag) && es[i].s_tag == JXACTIVE && hi <= |es|
    ensures Sum(es', 0, hi, Active) == Sum(es, 0, hi, Active) - if i < hi && tag != JXACTIVE then 1 else 0
  {
    if hi > 0 {
      ActiveTagged(es, es', i, tag, hi - 1);
    }
  }

  // ---- where the searches stop ----

  ghost function StopAhead(es: seq<Symtab>, i: nat, c: nat): nat
    requires i < |es| && es[i].Jump() && Aimed(es, i) && c <= |es|
    decreases |es| - c
  {
    if c < |es| && es[c].s_value <= es[es[i].s_dest].s_value then StopAhead(es, i, c + 1) else c
  }

  ghost function StopBehind(es: seq<Symtab>, i: nat, c: int): int
    requires i < |es| && es[i].Jump() && Aimed(es, i) && -1 <= c < |es|
    decreases c
  {
    if c >= 0 && es[c].s_value > es[es[i].s_dest].s_value then StopBehind(es, i, c - 1) else c
  }

  lemma {:induction false} StopAheadFacts(es: seq<Symtab>, i: nat, c: nat)
    requires i < |es| && es[i].Jump() && Aimed(es, i) && c <= |es|
    ensures c <= StopAhead(es, i, c) <= |es|
    ensures forall k :: c <= k < StopAhead(es, i, c) ==> es[k].s_value <= es[es[i].s_dest].s_value
    ensures StopAhead(es, i, c) < |es| ==> es[StopAhead(es, i, c)].s_value > es[es[i].s_dest].s_value
    decreases |es| - c
  {
    if c < |es| && es[c].s_value <= es[es[i].s_dest].s_value {
      StopAheadFacts(es, i, c + 1);
    }
  }

  lemma {:induction false} StopBehindFacts(es: seq<Symtab>, i: nat, c: int)
    requires i < |es| && es[i].Jump() && Aimed(es, i) && -1 <= c < |es|
    ensures -1 <= StopBehind(es, i, c) <= c
    ensures forall k :: StopBehind(es, i, c) < k <= c ==> es[k].s_value > es[es[i].s_dest].s_value
    ensures StopBehind(es, i, c) >= 0 ==> es[StopBehind(es, i, c)].s_value <= es[es[i].s_dest].s_value
    decreases c
  {
    if c >= 0 && es[c].s_value > es[es[i].s_dest].s_value {
      StopBehindFacts(es, i, c - 1);
    }
  }

  /** The displacement that the search computes. */
  ghost function Searched(es: seq<Symtab>, i: nat): int
    requires i < |es| && es[i].Jump() && Aimed(es, i)
  {
    StopAheadFacts(es, i, i + 1);
    StopBehindFacts(es, i, i - 1);
    if Displ(es, i) >= 0 then Displ(es, i) + Sum(es, i + 1, StopAhead(es, i, i + 1), Fear)
    else Displ(es, i) - Sum(es, StopBehind(es, i, i - 1) + 1, i, Fear)
  }

  /** The search meets an align. */
  ghost predicate Seen(es: seq<Symtab>, i: nat)
    requires i < |es| && es[i].Jump() && Aimed(es, i)
  {
    StopAheadFacts(es, i, i + 1);
    StopBehindFacts(es, i, i - 1);
    if Displ(es, i) >= 0 then exists k :: i + 1 <= k < StopAhead(es, i, i + 1) && es[k].s_tag == JXALIGN
    else exists k :: StopBehind(es, i, i - 1) + 1 <= k < i && es[k].s_tag == JXALIGN
  }

  /** The tag that one look gives to an active jump, in any table. */
  ghost function Look(es: seq<Symtab>, i: nat): nat
    requires i < |es| && es[i].Jump() && Aimed(es, i)
  {
    if !InByte(Displ(es, i)) then JXNOTYET
    else if (if Displ(es, i) >= 0 then Searched(es, i) <= MAXBYTE else Searched(es, i) >= MINBYTE) then JXINACTIVE
    else JXACTIVE
  }

  /** An entry after a pass. */
  ghost function LookedAt(es: seq<Symtab>, i: nat): Symtab
    requires i < |es|
  {
    if es[i].s_tag == JXACTIVE && es[i].Jump() && Aimed(es, i) then es[i].(s_tag := Look(es, i)) else es[i]
  }

  /** es' differs from es in nothing that a look takes notice of. */
  ghost predicate LooksLike(es: seq<Symtab>, es': seq<Symtab>) {
    && |es'| == |es|
    && forall k :: 0 <= k < |es| ==> es'[k] == es[k] || (es[k].Mark() && es'[k] == es[k].(s_tag := es'[k].s_tag) && es'[k].Mark())
  }

  lemma {:induction false} SameStopAhead(es: seq<Symtab>, es': seq<Symtab>, i: nat, c: nat)
    requires LooksLike(es, es') && i < |es| && es[i].Jump() && Aimed(es, i) && Aimed(es', i) && c <= |es|
    ensures StopAhead(es', i, c) == StopAhead(es, i, c)
    decreases |es| - c
  {
    if c < |es| {
      SameStopAhead(es, es', i, c + 1);
    }
  }

  lemma {:induction false} SameStopBehind(es: seq<Symtab>, es': seq<Symtab>, i: nat, c: int)
    requires LooksLike(es, es') && i < |es| && es[i].Jump() && Aimed(es, i) && Aimed(es', i) && -1 <= c < |es|
    ensures StopBehind(es', i, c) == StopBehind(es, i, c)
    decreases c
  {
    if c >= 0 {
      SameStopBehind(es, es', i, c - 1);
    }
  }

  lemma SameLook(es: seq<Symtab>, es': seq<Symtab>, i: nat)
    requires LooksLike(es, es') && i < |es| && es[i].Jump() && Aimed(es, i)
    ensures es'[i].Jump() && Aimed(es', i) && Look(es', i) == Look(es, i)
  {
    SameStopAhead(es, es', i, i + 1);
    SameStopBehind(es, es', i, i - 1);
    StopAheadFacts(es, i, i + 1);
    StopBehindFacts(es, i, i - 1);
    if Displ(es, i) >= 0 {
      SumSame(es, es', i + 1, StopAhead(es, i, i + 1), Fear);
    } else {
      SumSame(es, es', StopBehind(es, i, i - 1) + 1, i, Fear);
    }
  }

  /** The first i entries have been looked at. */
  ghost predicate LookedUpTo(es: seq<Symtab>, es': seq<Symtab>, i: nat) {
    && |es'| == |es| && i <= |es|
    && forall k :: 0 <= k < |es| ==> es'[k] == if k < i then LookedAt(es, k) else es[k]
  }

  lemma LookedNone(es: seq<Symtab>)
    ensures LookedUpTo(es, es, 0)
  {
  }

  lemma LookedSkip(es: seq<Symtab>, now: seq<Symtab>, i: nat)
    requires LookedUpTo(es, now, i) && i < |es| && now[i].s_tag != JXACTIVE
    ensures LookedUpTo(es, now, i + 1)
  {
  }

  lemma LookedStep(es: seq<Symtab>, now: seq<Symtab>, es': seq<Symtab>, i: nat)
    requires LookedUpTo(es, now, i) && i < |es| && now[i].s_tag == JXACTIVE && now[i].Jump() && Aimed(now, i)
    requires Tagged(now, es', i, Look(now, i))
    ensures LookedUpTo(es, es', i + 1)
  {
    hide Look;
    assert LooksLike(now, es) by {
      forall k | 0 <= k < |es| ensures es[k] == now[k] || (now[k].Mark() && es[k] == now[k].(s_tag := es[k].s_tag) && es[k].Mark()) {
        LookTags(es, k);
      }
    }
    SameLook(now, es, i);
  }

  lemma LookTags(es: seq<Symtab>, k: nat)
    requires k < |es|
    ensures LookedAt(es, k) == es[k] || (es[k].Mark() && LookedAt(es, k).Mark() && LookedAt(es, k) == es[k].(s_tag := LookedAt(es, k).s_tag))
  {
  }

  lemma AheadExact(es: seq<Symtab>, i: nat)
    requires Order(es, 0) && i < |es| && es[i].Jump() && Aimed(es, i) && es[i].s_dest > i && Displ(es, i) >= 0
    ensures Searched(es, i) == Worst(es, i, Fear) && (Seen(es, i) <==> Crosses(es, i))
  {
    StopAheadFacts(es, i, i + 1);
    var D, s := es[i].s_dest, StopAhead(es, i, i + 1);
    assert s >= D + 1;
    SumSplit(es, i + 1, D + 1, s, Fear);
    SumZero(es, D + 1, s, Fear);
  }

  /** The backward search adds up all fears between jump and destination exactly when it does not stop behind an
      entry that may grow. */
  lemma BehindSees(es: seq<Symtab>, i: nat)
    requires i < |es| && es[i].Jump() && Aimed(es, i) && es[i].s_dest < i && Displ(es, i) < 0
    requires forall k :: 0 <= k < |es| ==> Fear(es[k]) >= 0
    ensures es[i].s_dest <= StopBehind(es, i, i - 1) < i
    ensures Searched(es, i) == Worst(es, i, Fear) <==>
            forall k :: es[i].s_dest < k <= StopBehind(es, i, i - 1) ==> Fear(es[k]) == 0
  {
    hide *;
    BehindGap(es, i);
    SumZeroIff(es, es[i].s_dest + 1, StopBehind(es, i, i - 1) + 1, Fear);
  }

  /** What the search misses. */
  lemma BehindGap(es: seq<Symtab>, i: nat)
    requires i < |es| && es[i].Jump() && Aimed(es, i) && es[i].s_dest < i && Displ(es, i) < 0
    ensures 0 <= es[i].s_dest <= StopBehind(es, i, i - 1) < i
    ensures Searched(es, i) - Worst(es, i, Fear) == Sum(es, es[i].s_dest + 1, StopBehind(es, i, i - 1) + 1, Fear)
  {
    hide Fear, StopBehind, Sum;
    StopBehindFacts(es, i, i - 1);
    SumSplit(es, es[i].s_dest + 1, StopBehind(es, i, i - 1) + 1, i, Fear);
  }

  lemma {:induction false} SumZeroIff(es: seq<Symtab>, lo: nat, hi: nat, w: Weight)
    requires lo <= hi <= |es| && forall k :: lo <= k < hi ==> w(es[k]) >= 0
    ensures Sum(es, lo, hi, w) == 0 <==> forall k :: lo <= k < hi ==> w(es[k]) == 0
  {
    if lo < hi {
      SumNonneg(es, lo, hi - 1, w);
      SumZeroIff(es, lo, hi - 1, w);
    }
  }

  lemma BehindExact(es: seq<Symtab>, i: nat)
    requires Order(es, 0) && i < |es| && es[i].Jump() && Aimed(es, i) && es[i].s_dest < i && Displ(es, i) < 0
    requires forall s :: es[i].s_dest < s < i && es[s].s_value <= es[es[i].s_dest].s_value && !es[s].Moves() ==>
               forall j :: es[i].s_dest < j < s ==> !es[j].Mark()
    ensures Searched(es, i) == Worst(es, i, Fear) && (Seen(es, i) <==> Crosses(es, i))
  {
    StopBehindFacts(es, i, i - 1);
    var D, s := es[i].s_dest, StopBehind(es, i, i - 1);
    assert s >= D;
    if es[s].Moves() {
      NoMarks(es, D, s);
    } else {
      SumZero(es, D + 1, s + 1, Fear);
    }
    SumSplit(es, D + 1, s + 1, i, Fear);
  }

  /** A destination has not moved further than all jumps in front of it can push it. */
  lemma GrewLittle(es0: seq<Symtab>, es: seq<Symtab>, D: nat)
    requires Inv(es0, es, 0) && D < |es|
    ensures Grew(es, D) <= Sum(es0, 0, D + 1, Expansion)
  {
    forall k | 0 <= k < D + 1 ensures Grown(es[k]) <= Expansion(es0[k]) {
      assert Kept(es0[k], es[k], k < 0);
    }
    SumLe(es, Grown, es0, Expansion, 0, D + 1);
  }

  /** What may hide something has nothing to hide. */
  lemma NothingHidden(es0: seq<Symtab>, es: seq<Symtab>, i: nat, s: nat)
    requires Inv(es0, es, 0) && ClearBehind(es0) && i < |es| && es[i].Jump() && Aimed(es, i) && es[i].s_dest < s < i
    requires es[s].s_value <= es[es[i].s_dest].s_value && !es[s].Moves()
    ensures forall j :: es[i].s_dest < j < s ==> !es[j].Mark()
  {
    var D := es[i].s_dest;
    assert Kept(es0[s], es[s], s < 0) && Kept(es0[i], es[i], i < 0) && Placed(es0, es, D);
    assert es0[i].Jump() && es0[i].s_dest == D && !es0[s].Moves() && es0[s] == es[s];
    assert Harmless(es0, D, s);
    GrewLittle(es0, es, D);
    assert Kept(es0[D], es[D], D < 0) && es0[D].Moves();
    forall j | D < j < s ensures !es[j].Mark() {
      assert Kept(es0[j], es[j], j < 0);
    }
  }

  /** Where no fixed entry hides something, the searches see all that lies in between. */
  lemma LookIsVerdict(es0: seq<Symtab>, es: seq<Symtab>, i: nat)
    requires Inv(es0, es, 0) && ClearBehind(es0) && i < |es| && es[i].Jump() && Aimed(es, i)
    ensures InByte(Displ(es, i)) ==> (Seen(es, i) <==> Crosses(es, i))
    ensures Look(es, i) == Verdict(es, i)
  {
    hide Inv, ClearBehind, Seen, Crosses, Searched;
    InvOrder(es0, es, i);
    if InByte(Displ(es, i)) {
      if Displ(es, i) >= 0 {
        AheadExact(es, i);
      } else {
        forall s | es[i].s_dest < s < i && es[s].s_value <= es[es[i].s_dest].s_value && !es[s].Moves()
          ensures forall j :: es[i].s_dest < j < s ==> !es[j].Mark()
        {
          NothingHidden(es0, es, i, s);
        }
        BehindExact(es, i);
      }
    }
  }

  class Segment {
    const symptrs: array<Symtab>  // the sorted entries of the segment
    var usedot: int               // its size

    constructor (symptrs: array<Symtab>, usedot: int)
      ensures this.symptrs == symptrs && this.usedot == usedot
    {
      this.symptrs := symptrs;
      this.usedot := usedot;
    }

    /** The forward search for intervening entries, assuming the worst of them. */
    method Ahead(i: nat) returns (displ: int, crossed: nat)
      requires i < symptrs.Length && symptrs[i].Jump() && Aimed(symptrs[..], i) && Displ(symptrs[..], i) >= 0
      ensures displ == Searched(symptrs[..], i)
      ensures crossed == 0 <==> !Seen(symptrs[..], i)
    {
      ghost var es := symptrs[..];
      var D := symptrs[i].s_dest;
      displ, crossed := symptrs[D].s_value - symptrs[i].s_value, 0;
      var c := i + 1;
      while c < symptrs.Length && symptrs[c].s_value <= symptrs[D].s_value
        invariant i < c <= symptrs.Length && StopAhead(es, i, i + 1) == StopAhead(es, i, c)
        invariant displ == Displ(es, i) + Sum(es, i + 1, c, Fear)
        invariant crossed == 0 <==> forall k :: i + 1 <= k < c ==> es[k].s_tag != JXALIGN
      {
        if symptrs[c].s_tag > JXQUESTIONABLE {
          if symptrs[c].s_tag == JXALIGN {
            crossed := crossed + 1;
          }
          displ := displ + symptrs[c].s_jxfear;
        }
        c := c + 1;
      }
    }

    /** The backward search. */
    method Behind(i: nat) returns (displ: int, crossed: nat)
      requires i < symptrs.Length && symptrs[i].Jump() && Aimed(symptrs[..], i) && Displ(symptrs[..], i) < 0
      ensures displ == Searched(symptrs[..], i)
      ensures crossed == 0 <==> !Seen(symptrs[..], i)
    {
      ghost var es := symptrs[..];
      var D: nat := symptrs[i].s_dest;
      displ, crossed := symptrs[D].s_value - symptrs[i].s_value, 0;
      var c := i - 1;
      while c >= 0 && symptrs[c].s_value > symptrs[D].s_value
        invariant -1 <= c < i && StopBehind(es, i, i - 1) == StopBehind(es, i, c)
        invariant displ == Displ(es, i) - Sum(es, c + 1, i, Fear)
        invariant crossed == 0 <==> forall k :: c + 1 <= k < i ==> es[k].s_tag != JXALIGN
      {
        SumSplit(es, c, c + 1, i, Fear);
        if symptrs[c].s_tag > JXQUESTIONABLE {
          if symptrs[c].s_tag == JXALIGN {
            crossed := crossed + 1;
          }
          displ := displ - symptrs[c].s_jxfear;
        }
        c := c - 1;
      }
    }

    /** One look at an active jump. */
    method Consider(i: nat) returns (nchange: nat, stillactives: nat, crossed: nat)
      requires i < symptrs.Length && symptrs[i].s_tag == JXACTIVE && symptrs[i].Jump() && Aimed(symptrs[..], i)
      modifies symptrs
      ensures Tagged(old(symptrs[..]), symptrs[..], i, Look(old(symptrs[..]), i))
      ensures nchange == if Look(old(symptrs[..]), i) == JXNOTYET then 1 else 0
      ensures stillactives == if Look(old(symptrs[..]), i) == JXACTIVE then 1 else 0
      ensures crossed != 0 <==> InByte(Displ(old(symptrs[..]), i)) && Seen(old(symptrs[..]), i)
    {
      hide Searched, Seen;
      nchange, stillactives, crossed := 0, 0, 0;
      var dest := symptrs[i].s_dest;
      var displ := symptrs[dest].s_value - symptrs[i].s_value;
      var tag := JXACTIVE;
      if displ < MINBYTE || displ > MAXBYTE {
        tag := JXNOTYET;
        nchange := 1;
      } else if displ >= 0 {
        displ, crossed := Ahead(i);
        if displ <= MAXBYTE {
          tag := JXINACTIVE;
        } else {
          stillactives := 1;
        }
      } else {
        displ, crossed := Behind(i);
        if displ >= MINBYTE {
          tag := JXINACTIVE;
        } else {
          stillactives := 1;
        }
      }
      ghost var es := symptrs[..];
      symptrs[i] := symptrs[i].(s_tag := tag);
      assert symptrs[..] == es[i := es[i].(s_tag := tag)];
    }

    /** One pass over the segment. */
    method Pass(badjxalign0: nat, ghost es0: seq<Symtab>) returns (nchange: nat, stillactives: nat, badjxalign: nat)
      requires Start(es0) && Inv(es0, symptrs[..], 0) && Counted(es0, symptrs[..], 0, 0, 0, badjxalign0)
      modifies symptrs
      ensures Inv(es0, symptrs[..], 0) && Counted(es0, symptrs[..], symptrs.Length, nchange, stillactives, badjxalign)
      ensures Actives(symptrs[..]) + nchange <= Actives(old(symptrs[..])) && Total(symptrs[..]) == Total(old(symptrs[..]))
      ensures Uncrossed(es0) && badjxalign0 == 0 ==> badjxalign == 0
      ensures Uncrossed(es0) && Forced(es0, old(symptrs[..])) ==> Forced(es0, symptrs[..])
      ensures LookedUpTo(old(symptrs[..]), symptrs[..], symptrs.Length)
      ensures old(symptrs[..]) == es0 && ClearBehind(es0) && badjxalign == 0 ==> Uncrossed(es0)
      ensures badjxalign >= badjxalign0
    {
      hide Start, UncrossedUpTo, Uncrossed, Inv, ClearBehind, Counted, Uncrossed, Forced, Actives, Total, Verdict, Look, Seen, Tagged, LookedUpTo;
      nchange, stillactives, badjxalign := 0, 0, badjxalign0;
      LookedNone(symptrs[..]);
      AllUncrossed(es0);
      var i := 0;
      while i < symptrs.Length
        invariant i <= symptrs.Length
        invariant Inv(es0, symptrs[..], 0) && Counted(es0, symptrs[..], i, nchange, stillactives, badjxalign)
        invariant Actives(symptrs[..]) + nchange <= Actives(old(symptrs[..])) && Total(symptrs[..]) == Total(old(symptrs[..]))
        invariant badjxalign >= badjxalign0 && (Uncrossed(es0) && badjxalign0 == 0 ==> badjxalign == 0)
        invariant Uncrossed(es0) && Forced(es0, old(symptrs[..])) ==> Forced(es0, symptrs[..])
        invariant LookedUpTo(old(symptrs[..]), symptrs[..], i)
        invariant old(symptrs[..]) == es0 && ClearBehind(es0) && badjxalign == 0 ==> UncrossedUpTo(es0, i)
      {
        ghost var es := symptrs[..];
        if symptrs[i].s_tag == JXACTIVE {
          ActiveJump(es0, es, i);
          if ClearBehind(es0) {
            LookIsVerdict(es0, es, i);
          }
          var changed, still, crossed := Consider(i);
          if old(symptrs[..]) == es0 && ClearBehind(es0) && badjxalign + crossed == 0 {
            LookedAlign(es0, es, i);
          }
          Considered(es0, es, symptrs[..], i, nchange, stillactives, badjxalign, crossed);
          LookedStep(old(symptrs[..]), es, symptrs[..], i);
          nchange, stillactives, badjxalign := nchange + changed, stillactives + still, badjxalign + crossed;
        } else {
          CountedSkip(es0, es, i, nchange, stillactives, badjxalign);
          LookedSkip(old(symptrs[..]), es, i);
          if old(symptrs[..]) == es0 && ClearBehind(es0) && badjxalign == 0 {
            SkippedAlign(es0, es, i);
          }
        }
        i := i + 1;
      }
    }

    /** All pending growth from position start on takes place. */
    method JxxxBump(start: nat)
      requires start <= symptrs.Length
      modifies symptrs, this`usedot
      ensures BumpedFrom(old(symptrs[..]), symptrs[..], start)
      ensures usedot == old(usedot) + Sum(old(symptrs[..]), start, symptrs.Length, NotYet)
    {
      hide BumpedUpTo;
      ghost var es := symptrs[..];
      BumpedNone(es, start);
      var cum_bump := 0;
      var c := start;
      while c < symptrs.Length
        invariant start <= c <= symptrs.Length
        invariant cum_bump == Sum(es, start, c, NotYet) && usedot == old(usedot)
        invariant BumpedUpTo(es, symptrs[..], start, c)
      {
        BumpedGrows(es, symptrs[..], start, c);
        ghost var now := symptrs[..];
        var sp := symptrs[c];
        var tag := sp.s_tag;
        if tag == JXNOTYET {
          sp := sp.(s_tag := JXINACTIVE, s_jxbump := 1);
          cum_bump := cum_bump + sp.s_jxfear;
        }
        if tag >= OKTOBUMP {
          sp := sp.(s_value := sp.s_value + cum_bump);
        }
        symptrs[c] := sp;
        assert symptrs[..] == now[c := Bumped(es[c], Sum(es, start, c + 1, NotYet))];
        c := c + 1;
      }
      usedot := usedot + cum_bump;
    }

    /** The jumps that wait for each other are fixed: long when some jump crosses an align. */
    method Deadlock(badjxalign: nat)
      modifies symptrs
      ensures |old(symptrs[..])| == symptrs.Length
      ensures Resolved(old(symptrs[..]), symptrs[..], if badjxalign != 0 then JXNOTYET else JXINACTIVE)
    {
      ghost var es := symptrs[..];
      var c := 0;
      while c < symptrs.Length
        invariant c <= symptrs.Length
        invariant forall k :: c <= k < |es| ==> symptrs[k] == es[k]
        invariant forall k :: 0 <= k < c ==> symptrs[k] == Resolve(es[k], if badjxalign != 0 then JXNOTYET else JXINACTIVE)
      {
        if symptrs[c].s_tag == JXACTIVE {
          symptrs[c] := symptrs[c].(s_tag := if badjxalign != 0 then JXNOTYET else JXINACTIVE);
        }
        c := c + 1;
      }
    }

    /** Every align gets its final size, first to last. */
    method FixAligns(ghost es0: seq<Symtab>)
      requires Inv(es0, symptrs[..], 0) && Quiet(symptrs[..])
      modifies symptrs, this`usedot
      ensures Inv(es0, symptrs[..], symptrs.Length) && Quiet(symptrs[..])
      ensures usedot - Total(symptrs[..]) == old(usedot) - Total(old(symptrs[..]))
      ensures SameJumps(es0, old(symptrs[..]), symptrs[..])
    {
      hide Inv, Quiet, BumpedUpTo, Total;
      InvSize(es0, symptrs[..], 0);
      var p := 0;
      while p < symptrs.Length
        invariant p <= symptrs.Length
        invariant Inv(es0, symptrs[..], p) && Quiet(symptrs[..])
        invariant usedot - Total(symptrs[..]) == old(usedot) - Total(old(symptrs[..]))
        invariant SameJumps(es0, old(symptrs[..]), symptrs[..])
      {
        if symptrs[p].s_tag == JXALIGN {
          FixAlign(p, es0);
        } else {
          NoAlign(es0, symptrs[..], p);
        }
        p := p + 1;
      }
    }

    method FixAlign(p: nat, ghost es0: seq<Symtab>)
      requires p < symptrs.Length && Inv(es0, symptrs[..], p) && Quiet(symptrs[..]) && symptrs[p].s_tag == JXALIGN
      modifies symptrs, this`usedot
      ensures Inv(es0, symptrs[..], p + 1) && Quiet(symptrs[..]) && SameJumps(es0, old(symptrs[..]), symptrs[..])
      ensures usedot - Total(symptrs[..]) == old(usedot) - Total(old(symptrs[..]))
    {
      hide Inv, Quiet, BumpedUpTo, Total;
      ghost var es := symptrs[..];
      FearOfAlign(es0, es, p);
      var sp := symptrs[p];
      var displ := (sp.s_value - 1) % (sp.s_jxfear + 1);
      if displ == 0 {
        sp := sp.(s_jxfear := -1);
      } else {
        sp := sp.(s_jxfear := sp.s_jxfear + 1 - displ);
        if sp.s_jxfear == 1 {
          symptrs[p] := sp;
          assert symptrs[..] == es[p := sp];
          AlignGuessed(es0, es, symptrs[..], p);
          return;
        }
        sp := sp.(s_jxfear := sp.s_jxfear - 1);
      }
      symptrs[p] := sp.(s_tag := JXNOTYET);
      ghost var es1 := symptrs[..];
      assert es1 == es[p := sp.(s_tag := JXNOTYET)];
      JxxxBump(p);
      AlignInv(es0, es, es1, symptrs[..], p);
      AlignTotal(es0, es, es1, symptrs[..], p);
      ghost var es' := symptrs[..];
      symptrs[p] := symptrs[p].(s_tag := JXINACTIVE);
      assert symptrs[..] == es';
    }

    /** Pass 1.5 on one segment: the end of the loop over the passes. */
    method Finish(stillactives: nat, badjxalign: nat, ghost es0: seq<Symtab>)
      requires Inv(es0, symptrs[..], 0) && Counted(es0, symptrs[..], symptrs.Length, 0, stillactives, badjxalign)
      requires Uncrossed(es0) ==> badjxalign == 0
      modifies symptrs, this`usedot
      ensures Inv(es0, symptrs[..], symptrs.Length) && Quiet(symptrs[..])
      ensures usedot - Total(symptrs[..]) == old(usedot) - Total(old(symptrs[..]))
      ensures Uncrossed(es0) && Forced(es0, old(symptrs[..])) ==> Forced(es0, symptrs[..])
      ensures Early(es0, old(symptrs[..])) ==> Early(es0, symptrs[..])
      ensures badjxalign != 0 && Only(es0, old(symptrs[..])) ==> Only(es0, symptrs[..])
    {
      hide Inv, Quiet, Uncrossed, BumpedUpTo, Total, Counted, Forced, Resolved, Early, Only, SameJumps;
      if stillactives != 0 {
        Break(stillactives, badjxalign, es0);
      } else {
        CountedQuiet(es0, symptrs[..], badjxalign);
      }
      ghost var es := symptrs[..];
      FixAligns(es0);
      SameJumpsDecide(es0, es, symptrs[..]);
      if Forced(es0, es) {
        SameForced(es0, es, symptrs[..], symptrs.Length);
      }
    }

    /** The jumps that wait for each other are decided, and have grown. */
    method Break(stillactives: nat, badjxalign: nat, ghost es0: seq<Symtab>)
      requires Inv(es0, symptrs[..], 0) && Counted(es0, symptrs[..], symptrs.Length, 0, stillactives, badjxalign)
      requires Uncrossed(es0) ==> badjxalign == 0
      modifies symptrs, this`usedot
      ensures Inv(es0, symptrs[..], 0) && Quiet(symptrs[..])
      ensures usedot - Total(symptrs[..]) == old(usedot) - Total(old(symptrs[..]))
      ensures Uncrossed(es0) && Forced(es0, old(symptrs[..])) ==> Forced(es0, symptrs[..])
      ensures Early(es0, old(symptrs[..])) ==> Early(es0, symptrs[..])
      ensures badjxalign != 0 && Only(es0, old(symptrs[..])) ==> Only(es0, symptrs[..])
    {
      hide Inv, Quiet, Uncrossed, BumpedUpTo, Total, Counted, Forced, Resolved, Early, Only;
      ghost var es := symptrs[..];
      Deadlock(badjxalign);
      ghost var es' := symptrs[..];
      ResolvedInv(es0, es, es', if badjxalign != 0 then JXNOTYET else JXINACTIVE, stillactives, badjxalign);
      ResolvedRest(es0, es, es', if badjxalign != 0 then JXNOTYET else JXINACTIVE, stillactives, badjxalign);
      ResolvedDecides(es0, es, es', if badjxalign != 0 then JXNOTYET else JXINACTIVE);
      if badjxalign != 0 {
        JxxxBump(0);
        PassDone(es0, es', symptrs[..], badjxalign);
        BumpQuiet(es', symptrs[..]);
        BumpDecides(es0, es', symptrs[..]);
      }
    }

    /** Pass 1.5 on one segment: all jumps are decided and aligns are aligned. Where fixed entries hide nothing, short
        jumps reach, and are those that were certain from the start when some near jump crosses an align. When none
        does, no smaller choice of long jumps would do. */
    method JxxxFix(ghost es0: seq<Symtab>)
      requires es0 == symptrs[..] && Start(es0)
      modifies symptrs, this`usedot
      ensures Moved(es0, symptrs[..]) && usedot == old(usedot) + Total(symptrs[..])
      ensures Padded(es0, symptrs[..]) && AllDecided(symptrs[..])
      ensures OutLong(es0, LongJumps(symptrs[..]))
      ensures ClearBehind(es0) ==> ShortReach(symptrs[..]) && LongJumps(symptrs[..]) <= Uncertain(es0)
      ensures ClearBehind(es0) && !Uncrossed(es0) ==> LongJumps(symptrs[..]) == Uncertain(es0)
      ensures Uncrossed(es0) ==> (Safe(es0, LongJumps(symptrs[..])) <==> ShortReach(symptrs[..]))
      ensures Uncrossed(es0) ==> forall long: set<nat> :: Safe(es0, long) ==> LongJumps(symptrs[..]) <= long
    {
      hide Start, ClearBehind, Early, Only, Inv, Quiet, Uncrossed, BumpedUpTo, LookedUpTo, Total, Counted, Forced, Actives;
      StartInv(es0);
      StartCounted(es0);
      StartOnly(es0);
      var nchange, badjxalign := 1, 0;
      ghost var first := true;
      while nchange != 0
        invariant nchange != 0 ==> Inv(es0, symptrs[..], 0) && Counted(es0, symptrs[..], 0, 0, 0, badjxalign)
        invariant nchange == 0 ==> Inv(es0, symptrs[..], symptrs.Length) && Quiet(symptrs[..])
        invariant Uncrossed(es0) ==> badjxalign == 0 && Forced(es0, symptrs[..])
        invariant usedot - Total(symptrs[..]) == old(usedot)
        invariant first ==> symptrs[..] == es0 && nchange != 0
        invariant !first ==> Early(es0, symptrs[..]) && (ClearBehind(es0) && badjxalign == 0 ==> Uncrossed(es0))
        invariant nchange != 0 || badjxalign != 0 ==> Only(es0, symptrs[..])
        decreases if nchange != 0 then Actives(symptrs[..]) + 1 else 0
      {
        var stillactives;
        ghost var es1 := symptrs[..];
        nchange, stillactives, badjxalign := Pass(badjxalign, es0);
        ghost var es := symptrs[..];
        PassDecides(es0, es1, es);
        first := false;
        if nchange == 0 {
          Finish(stillactives, badjxalign, es0);
        } else {
          JxxxBump(0);
          PassDone(es0, es, symptrs[..], badjxalign);
          BumpDecides(es0, es, symptrs[..]);
        }
      }
      Finished(es0, symptrs[..]);
    }
  }

  /** How much the whole segment has grown. */
  ghost function Total(es: seq<Symtab>): int {
    Sum(es, 0, |es|, Grown)
  }

  lemma BumpedGrows(es: seq<Symtab>, now: seq<Symtab>, start: nat, c: nat)
    requires start <= c < |es| && BumpedUpTo(es, now, start, c)
    ensures c < |now| && now[c] == es[c]
    ensures BumpedUpTo(es, now[c := Bumped(es[c], Sum(es, start, c + 1, NotYet))], start, c + 1)
  {
  }

  function Resolve(e: Symtab, tag: nat): Symtab {
    if e.s_tag == JXACTIVE then e.(s_tag := tag) else e
  }

  ghost predicate Resolved(es: seq<Symtab>, es': seq<Symtab>, tag: nat) {
    |es'| == |es| && forall k :: 0 <= k < |es| ==> es'[k] == Resolve(es[k], tag)
  }

  ghost function Actives(es: seq<Symtab>): nat {
    SumNonneg(es, 0, |es|, Active);
    Sum(es, 0, |es|, Active)
  }

  lemma ActiveJump(es0: seq<Symtab>, es: seq<Symtab>, i: nat)
    requires Inv(es0, es, 0) && i < |es| && es[i].s_tag == JXACTIVE
    ensures es[i].Jump() && Aimed(es, i)
  {
    assert Kept(es0[i], es[i], i < 0);
  }

  lemma CountedSkip(es0: seq<Symtab>, es: seq<Symtab>, i: nat, nchange: nat, stillactives: nat, badjxalign: nat)
    requires Counted(es0, es, i, nchange, stillactives, badjxalign) && i < |es| && es[i].s_tag != JXACTIVE
    ensures Counted(es0, es, i + 1, nchange, stillactives, badjxalign)
  {
  }

  lemma NothingSeen(es0: seq<Symtab>, es: seq<Symtab>, i: nat)
    requires Start(es0) && Inv(es0, es, 0) && Uncrossed(es0) && i < |es| && es[i].Jump() && Aimed(es, i)
    requires InByte(Displ(es, i))
    ensures !Seen(es, i)
  {
    hide Start, Inv;
    InvOrder(es0, es, i);
    assert Uncrossing(es0, i) by { InvSize(es0, es, 0); }
    NotCrossed(es0, es, i);
    if Displ(es, i) >= 0 {
      AheadExact(es, i);
    } else {
      BehindGap(es, i);
    }
  }

  lemma NotCrossed(es0: seq<Symtab>, es: seq<Symtab>, i: nat)
    requires Start(es0) && Inv(es0, es, 0) && i < |es| && Uncrossing(es0, i) && es[i].Jump() && Aimed(es, i)
    requires InByte(Displ(es, i))
    ensures !Crosses(es, i)
  {
    hide Start, ClearBehind, Order, Sure;
    DisplWidens(es0, es, i);
    forall k | Lo(es, i) <= k < Hi(es, i) ensures es[k].s_tag != JXALIGN {
      assert Kept(es0[k], es[k], k < 0);
    }
  }

  lemma Considered(es0: seq<Symtab>, es: seq<Symtab>, es': seq<Symtab>, i: nat,
                   nchange: nat, stillactives: nat, badjxalign: nat, crossed: nat)
    requires Start(es0) && Inv(es0, es, 0) && Counted(es0, es, i, nchange, stillactives, badjxalign) && i < |es|
    requires es[i].s_tag == JXACTIVE && es[i].Jump() && Aimed(es, i) && Tagged(es, es', i, Look(es, i))
    requires crossed == 0 && ClearBehind(es0) && InByte(Displ(es, i)) ==> !Crosses(es, i)
    requires crossed != 0 ==> InByte(Displ(es, i)) && Seen(es, i)
    ensures Inv(es0, es', 0)
    ensures Counted(es0, es', i + 1, nchange + (if Look(es, i) == JXNOTYET then 1 else 0),
                    stillactives + (if Look(es, i) == JXACTIVE then 1 else 0), badjxalign + crossed)
    ensures Actives(es') + (if Look(es, i) == JXNOTYET then 1 else 0) <= Actives(es) && Total(es') == Total(es)
    ensures Uncrossed(es0) ==> crossed == 0
    ensures Uncrossed(es0) && Forced(es0, es) ==> Forced(es0, es')
  {
    hide Start, Inv, Forced, Look, Seen, Crosses, InByte, Uncrossed, Counted, ClearBehind;
    VerdictInv(es0, es, es', i);
    ActiveTagged(es, es', i, Look(es, i), |es|);
    SumSame(es, es', 0, |es|, Grown);
    CountedTagged(es0, es, es', i, nchange, stillactives, badjxalign,
                  nchange + (if Look(es, i) == JXNOTYET then 1 else 0),
                  stillactives + (if Look(es, i) == JXACTIVE then 1 else 0), badjxalign + crossed);
    if Uncrossed(es0) {
      if crossed != 0 {
        NothingSeen(es0, es, i);
      }
      if Forced(es0, es) {
        VerdictForced(es0, es, es', i);
      }
    }
  }

  ghost predicate UncrossedUpTo(es: seq<Symtab>, n: nat) {
    forall i :: 0 <= i < n && i < |es| ==> Uncrossing(es, i)
  }

  lemma AllUncrossed(es: seq<Symtab>)
    ensures UncrossedUpTo(es, 0)
    ensures UncrossedUpTo(es, |es|) ==> Uncrossed(es)
  {
  }

  /** In the first pass, a jump that has met no align crosses none. */
  lemma LookedAlign(es0: seq<Symtab>, es: seq<Symtab>, i: nat)
    requires Start(es0) && Inv(es0, es, 0) && LookedUpTo(es0, es, i) && UncrossedUpTo(es0, i)
    requires i < |es| && es[i].Jump() && Aimed(es, i) && (InByte(Displ(es, i)) ==> !Crosses(es, i))
    ensures UncrossedUpTo(es0, i + 1)
  {
    hide Start, Look, ClearBehind, Order, Sure, Placed;
    if es0[i].Jump() && Aimed(es0, i) && InByte(Displ(es0, i)) {
      assert Displ(es, i) == Displ(es0, i);
      forall k | Lo(es0, i) <= k < Hi(es0, i) && k < |es0| ensures !es0[k].Align() {
        assert Kept(es0[k], es[k], k < 0);
      }
    }
  }

  lemma SkippedAlign(es0: seq<Symtab>, es: seq<Symtab>, i: nat)
    requires Start(es0) && LookedUpTo(es0, es, i) && UncrossedUpTo(es0, i) && i < |es| && es[i].s_tag != JXACTIVE
    ensures UncrossedUpTo(es0, i + 1)
  {
    hide Start, Look;
    StartSigns(es0, i);
  }

  /** Nothing that may grow lies between a label and the last entry with its value. */
  lemma NoMarks(es: seq<Symtab>, D: nat, c: nat)
    requires Order(es, 0) && D <= c < |es| && es[c].s_value <= es[D].s_value && es[c].Moves() && es[D].Moves()
    ensures Sum(es, D + 1, c + 1, Fear) == 0
    ensures forall k :: D + 1 <= k < c + 1 ==> !es[k].Mark()
  {
    SumZero(es, D + 1, c + 1, Fear);
  }

  lemma InvOrder(es0: seq<Symtab>, es: seq<Symtab>, i: nat)
    requires Inv(es0, es, 0) && i < |es|
    ensures Order(es, 0) && Aimed(es, i)
    ensures es[i].Jump() ==> (Displ(es, i) >= 0 <==> es[i].s_dest > i)
  {
  }

  // ---- the end of the passes ----

  ghost predicate Quiet(es: seq<Symtab>) {
    forall k :: 0 <= k < |es| ==> es[k].s_tag != JXACTIVE && es[k].s_tag != JXNOTYET
  }

  lemma ResolvedWorst(es0: seq<Symtab>, es: seq<Symtab>, es': seq<Symtab>, i: nat, stillactives: nat)
    requires Inv(es0, es, 0) && ClearBehind(es0) && Counted(es0, es, |es|, 0, stillactives, 0) && Resolved(es, es', JXINACTIVE)
    requires i < |es| && es[i].s_tag == JXACTIVE && es[i].Jump() && Aimed(es, i)
    ensures Worst(es', i, Pending) == Displ(es, i) && InByte(Displ(es, i))
  {
    assert Stuck(es0, es, i, 0);
    forall k | Lo(es, i) <= k < Hi(es, i) ensures Pending(es'[k]) == 0 {
      assert Kept(es0[k], es[k], k < 0);
    }
    SumZero(es', Lo(es, i), Hi(es, i), Pending);
  }

  lemma ResolvedCalmer(es0: seq<Symtab>, es: seq<Symtab>, es': seq<Symtab>, tag: nat)
    requires Inv(es0, es, 0) && (tag == JXNOTYET || tag == JXINACTIVE) && Resolved(es, es', tag)
    ensures Calmer(es, es') && Order(es', 0)
  {
    forall k | 0 <= k < |es| ensures Kept(es0[k], es[k], k < 0) {
    }
  }

  lemma ResolvedSettled(es0: seq<Symtab>, es: seq<Symtab>, es': seq<Symtab>, tag: nat, stillactives: nat, badjxalign: nat, k: nat)
    requires Inv(es0, es, 0) && Counted(es0, es, |es|, 0, stillactives, badjxalign) && k < |es|
    requires tag == (if badjxalign != 0 then JXNOTYET else JXINACTIVE) && Resolved(es, es', tag) && Calmer(es, es')
    ensures Aimed(es', k) && Sure(es0, es', k) && Placed(es0, es', k)
  {
    hide ClearBehind;
    assert Aimed(es, k) && Sure(es0, es, k) && Placed(es0, es, k);
    SumSame(es, es', 0, k + 1, Grown);
    if es[k].Jump() && es[k].s_tag == JXACTIVE && tag == JXINACTIVE {
      if ClearBehind(es0) {
        ResolvedWorst(es0, es, es', k, stillactives);
      }
    } else if es[k].Jump() {
      CalmerWorst(es, es', k);
    }
  }

  /** Jumps that only wait for each other may all stay short. */
  lemma ResolvedInv(es0: seq<Symtab>, es: seq<Symtab>, es': seq<Symtab>, tag: nat, stillactives: nat, badjxalign: nat)
    requires Inv(es0, es, 0) && Counted(es0, es, |es|, 0, stillactives, badjxalign)
    requires tag == (if badjxalign != 0 then JXNOTYET else JXINACTIVE) && Resolved(es, es', tag)
    ensures Inv(es0, es', 0)
  {
    hide Sure, Placed, Aimed, Order, Counted, Calmer;
    ResolvedCalmer(es0, es, es', tag);
    forall k | 0 <= k < |es| ensures Kept(es0[k], es'[k], k < 0) && Aimed(es', k) && Sure(es0, es', k) && Placed(es0, es', k) {
      assert Kept(es0[k], es[k], k < 0);
      ResolvedSettled(es0, es, es', tag, stillactives, badjxalign, k);
    }
  }

  lemma ResolvedRest(es0: seq<Symtab>, es: seq<Symtab>, es': seq<Symtab>, tag: nat, stillactives: nat, badjxalign: nat)
    requires Inv(es0, es, 0) && Counted(es0, es, |es|, 0, stillactives, badjxalign)
    requires tag == (if badjxalign != 0 then JXNOTYET else JXINACTIVE) && Resolved(es, es', tag)
    ensures Total(es') == Total(es)
    ensures tag == JXINACTIVE ==> Quiet(es')
    ensures forall k :: 0 <= k < |es'| ==> es'[k].s_tag != JXACTIVE
    ensures tag == JXINACTIVE && Forced(es0, es) ==> Forced(es0, es')
  {
    SumSame(es, es', 0, |es|, Grown);
    if tag == JXINACTIVE && Forced(es0, es) {
      forall long: set<nat> | Safe(es0, long) ensures Within(es', long) {
        assert Within(es, long);
      }
    }
  }

  lemma BumpQuiet(es: seq<Symtab>, es': seq<Symtab>)
    requires BumpedFrom(es, es', 0) && forall k :: 0 <= k < |es| ==> es[k].s_tag != JXACTIVE
    ensures Quiet(es')
  {
  }

  lemma CountedQuiet(es0: seq<Symtab>, es: seq<Symtab>, badjxalign: nat)
    requires Counted(es0, es, |es|, 0, 0, badjxalign)
    ensures Quiet(es)
  {
  }

  // ---- what the first pass decides ----

  ghost predicate Short(e: Symtab) {
    e.s_tag == JXINACTIVE && e.s_jxbump == 0
  }

  /** Jump i reaches even if everything up to its destination grows. */
  ghost predicate Certain(es: seq<Symtab>, i: nat)
    requires i < |es|
  {
    es[i].Jump() && Aimed(es, i) && InByte(Worst(es, i, Fear))
  }

  ghost function Uncertain(es: seq<Symtab>): set<nat> {
    set k: nat | k < |es| && es[k].Jump() && !Certain(es, k)
  }

  /** What e is, a later form of entry i. */
  ghost predicate Foreseen(es0: seq<Symtab>, e: Symtab, i: nat)
    requires i < |es0|
  {
    es0[i].Jump() && Aimed(es0, i) ==>
      (!InByte(Displ(es0, i)) ==> Decided(e)) && (ClearBehind(es0) && Certain(es0, i) ==> Short(e))
  }

  /** Jumps that are out of reach at first will be long, and certain ones are short. */
  ghost predicate Early(es0: seq<Symtab>, es: seq<Symtab>) {
    |es| == |es0| && forall i :: 0 <= i < |es0| ==> Foreseen(es0, es[i], i)
  }

  /** No other jump is short yet. */
  ghost predicate Only(es0: seq<Symtab>, es: seq<Symtab>) {
    |es| == |es0| && (ClearBehind(es0) ==> forall i :: 0 <= i < |es0| && es0[i].Jump() && Short(es[i]) ==> Certain(es0, i))
  }

  /** What has been decided stays. */
  ghost predicate Onward(es0: seq<Symtab>, es: seq<Symtab>, es': seq<Symtab>) {
    && |es'| == |es| == |es0|
    && forall i :: 0 <= i < |es0| && es0[i].Jump() ==> (Decided(es[i]) ==> Decided(es'[i])) && (Short(es[i]) ==> Short(es'[i]))
  }

  ghost predicate NoneShorter(es0: seq<Symtab>, es: seq<Symtab>, es': seq<Symtab>) {
    && |es'| == |es| == |es0|
    && forall i :: 0 <= i < |es0| && es0[i].Jump() && Short(es'[i]) ==> Short(es[i])
  }

  lemma OnwardEarly(es0: seq<Symtab>, es: seq<Symtab>, es': seq<Symtab>)
    requires Early(es0, es) && Onward(es0, es, es')
    ensures Early(es0, es')
  {
    hide ClearBehind, Certain, Aimed, Decided, Short;
    forall i | 0 <= i < |es0| ensures Foreseen(es0, es'[i], i) {
      assert Foreseen(es0, es[i], i);
    }
  }

  lemma ShorterOnly(es0: seq<Symtab>, es: seq<Symtab>, es': seq<Symtab>)
    requires Only(es0, es) && NoneShorter(es0, es, es')
    ensures Only(es0, es')
  {
    hide ClearBehind, Certain, Short;
  }

  lemma StartOnly(es: seq<Symtab>)
    requires Start(es)
    ensures Only(es, es)
  {
    hide ClearBehind, SymCmp;
    forall i | 0 <= i < |es| && es[i].Jump() ensures !Short(es[i]) {
      assert Recorded(es, i);
    }
  }

  lemma LookedActive(es: seq<Symtab>, i: nat)
    requires i < |es| && es[i].s_tag == JXACTIVE && es[i].Jump() && Aimed(es, i)
    ensures LookedAt(es, i) == es[i].(s_tag := Look(es, i))
    ensures !InByte(Displ(es, i)) ==> Look(es, i) == JXNOTYET
  {
  }

  lemma FirstLook(es: seq<Symtab>, i: nat)
    requires Start(es) && i < |es| && es[i].Jump()
    ensures Foreseen(es, LookedAt(es, i), i)
  {
    hide Start, SymCmp, ClearBehind, Look, LookedAt, Inv;
    StartInv(es);
    StartSigns(es, i);
    DisplWidens(es, es, i);
    LookedActive(es, i);
    NoBump(es, i);
    if ClearBehind(es) && Certain(es, i) {
      LookIsVerdict(es, es, i);
    }
  }

  lemma NoBump(es: seq<Symtab>, i: nat)
    requires Start(es) && i < |es|
    ensures es[i].s_jxbump == 0
  {
    assert Recorded(es, i);
  }

  /** A jump that a pass makes short was certain from the start. */
  lemma ShortCertain(es0: seq<Symtab>, es: seq<Symtab>, i: nat)
    requires Start(es0) && Inv(es0, es, 0) && ClearBehind(es0) && i < |es| && es[i].s_tag == JXACTIVE
    requires es[i].Jump() && Aimed(es, i) && Look(es, i) == JXINACTIVE
    ensures Certain(es0, i)
  {
    hide Start, Inv, ClearBehind, Look;
    LookIsVerdict(es0, es, i);
    DisplWidens(es0, es, i);
  }

  /** After a pass; the first one starts from the first table. */
  lemma PassDecides(es0: seq<Symtab>, es: seq<Symtab>, es': seq<Symtab>)
    requires Start(es0) && Inv(es0, es, 0) && LookedUpTo(es, es', |es|) && Only(es0, es)
    requires es == es0 || Early(es0, es)
    ensures Early(es0, es') && Only(es0, es')
  {
    hide Start, Look, LookedAt, Inv, ClearBehind, Certain, Foreseen, Aimed, Short;
    InvSize(es0, es, 0);
    if Early(es0, es) {
      PassOnward(es0, es, es');
      OnwardEarly(es0, es, es');
    } else {
      forall i | 0 <= i < |es0| ensures Foreseen(es0, es'[i], i) {
        FirstLooks(es0, i);
      }
    }
    if ClearBehind(es0) {
      forall i | 0 <= i < |es0| && es0[i].Jump() && Short(es'[i]) ensures Certain(es0, i) {
        PassShort(es0, es, i);
      }
    }
  }

  lemma FirstLooks(es: seq<Symtab>, i: nat)
    requires Start(es) && i < |es|
    ensures Foreseen(es, LookedAt(es, i), i)
  {
    hide Start, LookedAt, ClearBehind;
    if es[i].Jump() {
      FirstLook(es, i);
    }
  }

  lemma PassShort(es0: seq<Symtab>, es: seq<Symtab>, i: nat)
    requires Start(es0) && Inv(es0, es, 0) && ClearBehind(es0) && Only(es0, es) && i < |es|
    requires es0[i].Jump() && Short(LookedAt(es, i))
    ensures Certain(es0, i)
  {
    hide Start, Look, ClearBehind, Order, Sure, Placed, Certain, Aimed;
    if es[i].s_tag == JXACTIVE && es[i].Jump() && Aimed(es, i) {
      ShortCertain(es0, es, i);
    }
  }

  lemma PassOnward(es0: seq<Symtab>, es: seq<Symtab>, es': seq<Symtab>)
    requires Inv(es0, es, 0) && LookedUpTo(es, es', |es|)
    ensures Onward(es0, es, es')
  {
    hide Look;
    forall i | 0 <= i < |es0| && es0[i].Jump() ensures (Decided(es[i]) ==> Decided(es'[i])) && (Short(es[i]) ==> Short(es'[i])) {
      assert Kept(es0[i], es[i], i < 0);
    }
  }

  lemma BumpOnward(es0: seq<Symtab>, es: seq<Symtab>, es': seq<Symtab>)
    requires Inv(es0, es, 0) && BumpedFrom(es, es', 0)
    ensures Onward(es0, es, es') && NoneShorter(es0, es, es')
  {
    hide Placed, Order, Sure, Aimed;
    BumpInv(es0, es, es');
    forall i | 0 <= i < |es0| && es0[i].Jump()
      ensures (Decided(es[i]) ==> Decided(es'[i])) && (Short(es[i]) <==> Short(es'[i]))
    {
      assert Kept(es0[i], es[i], i < 0);
    }
  }

  lemma BumpDecides(es0: seq<Symtab>, es: seq<Symtab>, es': seq<Symtab>)
    requires Inv(es0, es, 0) && BumpedFrom(es, es', 0)
    ensures Early(es0, es) ==> Early(es0, es')
    ensures Only(es0, es) ==> Only(es0, es')
  {
    hide Inv, BumpedFrom, Early, Only, Onward, NoneShorter;
    BumpOnward(es0, es, es');
    if Early(es0, es) {
      OnwardEarly(es0, es, es');
    }
    if Only(es0, es) {
      ShorterOnly(es0, es, es');
    }
  }

  lemma ResolvedOnward(es0: seq<Symtab>, es: seq<Symtab>, es': seq<Symtab>, tag: nat)
    requires Inv(es0, es, 0) && Resolved(es, es', tag)
    ensures Onward(es0, es, es') && (tag == JXNOTYET ==> NoneShorter(es0, es, es'))
  {
    hide Placed, Order, Sure, Aimed;
    forall i | 0 <= i < |es0| ensures Kept(es0[i], es[i], i < 0) {
    }
  }

  lemma ResolvedDecides(es0: seq<Symtab>, es: seq<Symtab>, es': seq<Symtab>, tag: nat)
    requires Inv(es0, es, 0) && Resolved(es, es', tag)
    ensures Early(es0, es) ==> Early(es0, es')
    ensures tag == JXNOTYET && Only(es0, es) ==> Only(es0, es')
  {
    hide Inv, Resolved, Early, Only, Onward, NoneShorter;
    ResolvedOnward(es0, es, es', tag);
    if Early(es0, es) {
      OnwardEarly(es0, es, es');
    }
    if tag == JXNOTYET && Only(es0, es) {
      ShorterOnly(es0, es, es');
    }
  }

  lemma SameJumpsDecide(es0: seq<Symtab>, es: seq<Symtab>, es': seq<Symtab>)
    requires SameJumps(es0, es, es')
    ensures Early(es0, es) ==> Early(es0, es')
    ensures Only(es0, es) ==> Only(es0, es')
  {
    hide Early, Only;
    assert Onward(es0, es, es') && NoneShorter(es0, es, es');
    if Early(es0, es) {
      OnwardEarly(es0, es, es');
    }
    if Only(es0, es) {
      ShorterOnly(es0, es, es');
    }
  }

  // ---- the aligns ----

  /** The correction of the one byte guessed for an align with the given mask. */
  function Correction(value: int, mask: nat): (g: int)
    ensures (value + g) % (mask + 1) == 0 && 0 <= 1 + g <= mask
  {
    var displ := (value - 1) % (mask + 1);
    if displ == 0 then -1
    else
      NextMultiple(value, mask);
      mask - displ
  }

  lemma NextMultiple(value: int, mask: nat)
    ensures (value + mask - (value - 1) % (mask + 1)) % (mask + 1) == 0
  {
    var q := (value - 1) / (mask + 1);
    assert value + mask - (value - 1) % (mask + 1) == (q + 1) * (mask + 1);
    MultipleOf(q + 1, mask + 1);
  }

  lemma AtLeastOnce(t: int, m: nat)
    requires t >= 1
    ensures t * m >= m
  {
  }

  lemma SmallMultiple(t: int, m: nat, r: nat)
    requires t * m == r < m
    ensures r == 0
  {
    if t >= 1 {
      AtLeastOnce(t, m);
    } else if t < 0 {
      AtLeastOnce(-t, m);
    }
  }

  lemma MultipleOf(q: int, m: nat)
    requires m > 0
    ensures (q * m) % m == 0
  {
    var r := (q * m) % m;
    var d := (q * m) / m;
    calc {
      r;
      q * m - d * m;
      (q - d) * m;
    }
    SmallMultiple(q - d, m, r);
  }

  lemma FearOfAlign(es0: seq<Symtab>, es: seq<Symtab>, p: nat)
    requires Inv(es0, es, p) && p < |es| && es[p].s_tag == JXALIGN
    ensures es[p].Align() && es0[p].Align() && es[p].s_jxfear == es0[p].s_jxfear >= 0 && es[p].s_jxbump == 0
  {
    assert Kept(es0[p], es[p], p < p);
  }

  /** Nothing but values has changed, except at aligns. */
  ghost predicate SameJumps(es0: seq<Symtab>, es: seq<Symtab>, es': seq<Symtab>) {
    |es'| == |es| == |es0| && forall k :: 0 <= k < |es| && !es0[k].Align() ==> es'[k] == es[k].(s_value := es'[k].s_value)
  }

  lemma InvSize(es0: seq<Symtab>, es: seq<Symtab>, p: nat)
    requires Inv(es0, es, p)
    ensures |es| == |es0|
  {
  }

  lemma SameForced(es0: seq<Symtab>, es: seq<Symtab>, es': seq<Symtab>, p: nat)
    requires Inv(es0, es, 0) && SameJumps(es0, es, es') && Inv(es0, es', p) && Forced(es0, es)
    ensures Forced(es0, es')
  {
    forall long: set<nat> | Safe(es0, long) ensures Within(es', long) {
      assert Within(es, long);
      forall k: nat | k < |es| && es'[k].Jump() && Decided(es'[k]) ensures k in long {
        assert Kept(es0[k], es'[k], k < p);
      }
    }
  }

  /** Only align p is announced, with its correction. */
  ghost predicate AlignSet(es: seq<Symtab>, es1: seq<Symtab>, p: nat) {
    && p < |es| && es[p].s_tag == JXALIGN && es[p].s_jxfear >= 0
    && es1 == es[p := es[p].(s_jxfear := Correction(es[p].s_value, es[p].s_jxfear), s_tag := JXNOTYET)]
  }

  lemma AlignShift(es0: seq<Symtab>, es: seq<Symtab>, es1: seq<Symtab>, es': seq<Symtab>, p: nat, k: nat)
    requires Inv(es0, es, p) && Quiet(es) && AlignSet(es, es1, p) && BumpedFrom(es1, es', p) && k < |es|
    ensures Announced(es1, p)
    ensures es'[k] == if k < p then es[k] else Bumped(es1[k], Correction(es[p].s_value, es[p].s_jxfear))
  {
    FearOfAlign(es0, es, p);
    if k >= p {
      SumSplit(es1, p, p + 1, k + 1, NotYet);
      SumZero(es1, p + 1, k + 1, NotYet);
    }
  }

  lemma AlignSettled(es0: seq<Symtab>, es: seq<Symtab>, es1: seq<Symtab>, es': seq<Symtab>, p: nat, k: nat)
    requires Inv(es0, es, p) && Quiet(es) && AlignSet(es, es1, p) && BumpedFrom(es1, es', p) && k < |es|
    ensures Aimed(es', k) && Sure(es0, es', k) && Placed(es0, es', k)
  {
    FearOfAlign(es0, es, p);
    AlignShift(es0, es, es1, es', p, k);
    assert Aimed(es, k) && Sure(es0, es, k) && Placed(es0, es, k);
    assert Calmer(es, es1);
    SumSame(es, es1, 0, k + 1, Grown);
    BumpValue(es0, es1, es', p, k);
    if es[k].Jump() {
      CalmerWorst(es, es1, k);
    }
    if ClearBehind(es0) {
      BumpSettled(es1, es', p, k);
    }
  }

  lemma AlignInv(es0: seq<Symtab>, es: seq<Symtab>, es1: seq<Symtab>, es': seq<Symtab>, p: nat)
    requires Inv(es0, es, p) && Quiet(es) && AlignSet(es, es1, p) && BumpedFrom(es1, es', p)
    ensures Inv(es0, es', p + 1) && Quiet(es') && es'[p].s_tag == JXINACTIVE
    ensures SameJumps(es0, es, es')
  {
    hide Sure, Placed, Correction;
    FearOfAlign(es0, es, p);
    forall k | 0 <= k < |es|
      ensures Kept(es0[k], es'[k], k < p + 1)
      ensures es'[k] == if k < p then es[k] else Bumped(es1[k], Correction(es[p].s_value, es[p].s_jxfear))
      ensures Aimed(es', k) && Sure(es0, es', k) && Placed(es0, es', k)
    {
      assert Kept(es0[k], es[k], k < p);
      AlignShift(es0, es, es1, es', p, k);
      AlignSettled(es0, es, es1, es', p, k);
    }
  }

  /** The guess of one byte was right. */
  lemma AlignGuessed(es0: seq<Symtab>, es: seq<Symtab>, es': seq<Symtab>, p: nat)
    requires Inv(es0, es, p) && Quiet(es) && p < |es| && es[p].s_tag == JXALIGN && es[p].s_jxfear >= 0
    requires Correction(es[p].s_value, es[p].s_jxfear) == 0 && es' == es[p := es[p].(s_jxfear := 1)]
    ensures Inv(es0, es', p + 1) && Quiet(es') && Total(es') == Total(es) && SameJumps(es0, es, es')
  {
    FearOfAlign(es0, es, p);
    SumSame(es, es', 0, |es|, Grown);
    forall k | 0 <= k < |es|
      ensures Kept(es0[k], es'[k], k < p + 1)
      ensures Aimed(es', k) && Sure(es0, es', k) && Placed(es0, es', k)
    {
      assert Kept(es0[k], es[k], k < p);
      GuessedSettled(es0, es, es', p, k);
    }
  }

  lemma GuessedSettled(es0: seq<Symtab>, es: seq<Symtab>, es': seq<Symtab>, p: nat, k: nat)
    requires Inv(es0, es, p) && p < |es| && es[p].s_tag == JXALIGN && es[p].s_jxfear >= 1 && es[p].s_jxbump == 0 && k < |es|
    requires es' == es[p := es[p].(s_jxfear := 1)]
    ensures Aimed(es', k) && Sure(es0, es', k) && Placed(es0, es', k)
  {
    assert Aimed(es, k) && Sure(es0, es, k) && Placed(es0, es, k);
    assert Calmer(es, es');
    SumSame(es, es', 0, k + 1, Grown);
    if es[k].Jump() {
      CalmerWorst(es, es', k);
    }
  }

  lemma AlignTotal(es0: seq<Symtab>, es: seq<Symtab>, es1: seq<Symtab>, es': seq<Symtab>, p: nat)
    requires Inv(es0, es, p) && Quiet(es) && AlignSet(es, es1, p) && BumpedFrom(es1, es', p)
    ensures Total(es') == Total(es) + Sum(es1, p, |es1|, NotYet)
  {
    FearOfAlign(es0, es, p);
    AlignShift(es0, es, es1, es', p, p);
    BumpTotal(es1, es', p);
    SumSame(es, es1, 0, |es|, Grown);
  }

  lemma NoAlign(es0: seq<Symtab>, es: seq<Symtab>, p: nat)
    requires Inv(es0, es, p) && p < |es| && es[p].s_tag != JXALIGN
    ensures Inv(es0, es, p + 1)
  {
    forall k | 0 <= k < |es| ensures Kept(es0[k], es[k], k < p + 1) {
      assert Kept(es0[k], es[k], k < p);
    }
  }

  lemma StartCounted(es: seq<Symtab>)
    requires Start(es)
    ensures Counted(es, es, 0, 0, 0, 0) && Total(es) == 0 && Actives(es) >= 0 && Forced(es, es)
  {
    forall k | 0 <= k < |es| ensures Recorded(es, k) && es[k].s_tag != JXNOTYET && Grown(es[k]) == 0 {
    }
    SumZero(es, 0, |es|, Grown);
    SumNonneg(es, 0, |es|, Active);
  }

  lemma PassDone(es0: seq<Symtab>, es: seq<Symtab>, es': seq<Symtab>, badjxalign: nat)
    requires Inv(es0, es, 0) && BumpedFrom(es, es', 0)
    ensures Inv(es0, es', 0) && Counted(es0, es', 0, 0, 0, badjxalign)
    ensures Actives(es') == Actives(es) >= 0
    ensures Total(es') == Total(es) + Sum(es, 0, |es|, NotYet)
    ensures Forced(es0, es) ==> Forced(es0, es')
  {
    BumpInv(es0, es, es');
    InvAnnounced(es0, es);
    BumpTotal(es, es', 0);
    SumSame(es', es, 0, |es|, Active);
    SumNonneg(es, 0, |es|, Active);
    if Forced(es0, es) {
      forall long: set<nat> | Safe(es0, long) ensures Within(es', long) {
        assert Within(es, long);
      }
    }
  }

  lemma InvAnnounced(es0: seq<Symtab>, es: seq<Symtab>)
    requires Inv(es0, es, 0)
    ensures Announced(es, 0)
  {
    forall k | 0 <= k < |es| ensures Kept(es0[k], es[k], k < 0) {
    }
  }

  // ---- the result ----

  ghost function LongJumps(es: seq<Symtab>): set<nat> {
    set k: nat | k < |es| && es[k].Jump() && es[k].s_jxbump != 0
  }

  ghost predicate AllDecided(es: seq<Symtab>) {
    forall i :: 0 <= i < |es| && es[i].Jump() ==> es[i].s_tag == JXINACTIVE && Aimed(es, i)
  }

  /** Every jump is decided, and a jump left short reaches its destination with one byte. */
  ghost predicate ShortReach(es: seq<Symtab>) {
    forall i :: 0 <= i < |es| && es[i].Jump() ==>
      es[i].s_tag == JXINACTIVE && Aimed(es, i) && (es[i].s_jxbump == 0 ==> InByte(Displ(es, i)))
  }

  /** Every align ends on a multiple of its power of two, and adds less than that. */
  ghost predicate Padded(es0: seq<Symtab>, es: seq<Symtab>) {
    |es| == |es0| && forall k :: 0 <= k < |es| && es0[k].Align() ==> es0[k].s_jxfear >= 0 && Fitted(es0[k], es[k])
  }

  /** Each entry moves by the growth of the entries up to it; a long jump grows by its fear. */
  ghost predicate Moved(es0: seq<Symtab>, es: seq<Symtab>) {
    && |es| == |es0|
    && forall k :: 0 <= k < |es| ==>
         Placed(es0, es, k) && es[k].s_dest == es0[k].s_dest && es[k].Mark() == es0[k].Mark() && es[k].Moves() == es0[k].Moves() &&
         (es0[k].Jump() ==> es[k].s_jxfear == es0[k].s_jxfear) && (!es0[k].Mark() ==> es[k].s_jxbump == 0)
  }

  lemma FinishedMoved(es0: seq<Symtab>, es: seq<Symtab>)
    requires Inv(es0, es, |es|)
    ensures Moved(es0, es) && Padded(es0, es)
  {
    forall k | 0 <= k < |es| ensures Kept(es0[k], es[k], true) {
      assert Kept(es0[k], es[k], k < |es|);
    }
  }

  lemma FinishedReach(es0: seq<Symtab>, es: seq<Symtab>)
    requires Inv(es0, es, |es|) && ClearBehind(es0) && Quiet(es)
    ensures ShortReach(es)
  {
    forall i | 0 <= i < |es| && es[i].Jump()
      ensures es[i].s_tag == JXINACTIVE && Aimed(es, i) && (es[i].s_jxbump == 0 ==> InByte(Displ(es, i)))
    {
      assert Kept(es0[i], es[i], i < |es|) && Aimed(es, i) && Sure(es0, es, i);
      forall k | 0 <= k < |es| ensures Pending(es[k]) >= 0 {
        assert Kept(es0[k], es[k], k < |es|);
      }
      SumNonneg(es, Lo(es, i), Hi(es, i), Pending);
    }
  }

  lemma {:induction false} GrownIsLong(es0: seq<Symtab>, es: seq<Symtab>, lo: nat, hi: nat)
    requires Moved(es0, es) && Unaligned(es0, lo, hi) && lo <= hi <= |es|
    ensures SumIn(es0, LongJumps(es), lo, hi) == Sum(es, lo, hi, Grown)
  {
    if lo < hi {
      GrownIsLong(es0, es, lo, hi - 1);
    }
  }

  /** The displacement of a jump that crosses no align is as the long jumps alone would have it. */
  lemma DisplIs(es0: seq<Symtab>, es: seq<Symtab>, i: nat)
    requires Moved(es0, es) && i < |es| && es[i].Jump() && Aimed(es, i) && Unaligned(es0, Lo(es, i), Hi(es, i))
    ensures Displ(es, i) == ValueIn(es0, LongJumps(es), es[i].s_dest) - ValueIn(es0, LongJumps(es), i)
  {
    hide LongJumps;
    var D: nat := es[i].s_dest;
    assert es0[i].Jump() && Placed(es0, es, i) && Placed(es0, es, D);
    var lo, hi := if i < D then i + 1 else D + 1, if i < D then D + 1 else i + 1;
    GrownIsLong(es0, es, lo, hi);
    SumSplit(es, 0, lo, hi, Grown);
    SumInSplit(es0, LongJumps(es), 0, lo, hi);
  }

  /** Jumps that are out of reach before anything has grown are long. */
  ghost predicate OutLong(es0: seq<Symtab>, long: set<nat>) {
    forall i: nat :: i < |es0| && es0[i].Jump() && Aimed(es0, i) && !InByte(Displ(es0, i)) ==> i in long
  }

  lemma FinishedSafe(es0: seq<Symtab>, es: seq<Symtab>)
    requires Moved(es0, es) && ShortReach(es) && Uncrossed(es0) && OutLong(es0, LongJumps(es))
    ensures Safe(es0, LongJumps(es))
  {
    forall i: nat | i < |es0| && es0[i].Jump() && Aimed(es0, i) && i !in LongJumps(es)
      ensures InByte(ValueIn(es0, LongJumps(es), es0[i].s_dest) - ValueIn(es0, LongJumps(es), i))
    {
      assert Uncrossing(es0, i);
      DisplIs(es0, es, i);
    }
  }

  /** The converse: where the long jumps make a safe assignment, short jumps reach. */
  lemma SafeReach(es0: seq<Symtab>, es: seq<Symtab>)
    requires Moved(es0, es) && AllDecided(es) && Uncrossed(es0) && OutLong(es0, LongJumps(es)) && Safe(es0, LongJumps(es))
    ensures ShortReach(es)
  {
    forall i: nat | i < |es| && es[i].Jump() && es[i].s_jxbump == 0 ensures Aimed(es, i) && InByte(Displ(es, i)) {
      assert Aimed(es0, i) && i !in LongJumps(es) && Uncrossing(es0, i);
      DisplIs(es0, es, i);
    }
  }

  lemma FinishedDecided(es0: seq<Symtab>, es: seq<Symtab>)
    requires Inv(es0, es, |es|) && Quiet(es)
    ensures AllDecided(es)
  {
    forall i | 0 <= i < |es| && es[i].Jump() ensures es[i].s_tag == JXINACTIVE {
      assert Kept(es0[i], es[i], i < |es|);
    }
  }

  lemma FinishedEarly(es0: seq<Symtab>, es: seq<Symtab>)
    requires Start(es0) && Moved(es0, es) && AllDecided(es) && Early(es0, es)
    ensures OutLong(es0, LongJumps(es))
    ensures ClearBehind(es0) ==> LongJumps(es) <= Uncertain(es0)
    ensures ClearBehind(es0) && Only(es0, es) ==> LongJumps(es) == Uncertain(es0)
  {
    hide Start, ClearBehind, Placed, Certain, InByte;
    forall i: nat | i < |es0| && es0[i].Jump()
      ensures Aimed(es0, i) && es[i].Jump() && es[i].s_tag == JXINACTIVE && Foreseen(es0, es[i], i)
    {
      StartSigns(es0, i);
    }
  }

  lemma Finished(es0: seq<Symtab>, es: seq<Symtab>)
    requires Start(es0) && Inv(es0, es, |es|) && Quiet(es) && Early(es0, es)
    ensures Moved(es0, es) && Padded(es0, es) && AllDecided(es) && OutLong(es0, LongJumps(es))
    ensures ClearBehind(es0) ==> ShortReach(es) && LongJumps(es) <= Uncertain(es0)
    ensures ClearBehind(es0) && Only(es0, es) ==> LongJumps(es) == Uncertain(es0)
    ensures Uncrossed(es0) ==> (Safe(es0, LongJumps(es)) <==> ShortReach(es))
    ensures Forced(es0, es) ==> forall long: set<nat> :: Safe(es0, long) ==> LongJumps(es) <= long
  {
    hide Start, Early, Only, Inv, ClearBehind, Moved, Padded, AllDecided, OutLong, ShortReach, Safe;
    FinishedMoved(es0, es);
    FinishedDecided(es0, es);
    FinishedEarly(es0, es);
    if ClearBehind(es0) {
      FinishedReach(es0, es);
    }
    if Uncrossed(es0) {
      if ShortReach(es) {
        FinishedSafe(es0, es);
      }
      if Safe(es0, LongJumps(es)) {
        SafeReach(es0, es);
      }
    }
    if Forced(es0, es) {
      forall long: set<nat> | Safe(es0, long) ensures LongJumps(es) <= long {
        assert Within(es, long);
      }
    }
  }

  // ---- a fixed entry hides a jump ----

  const LABELID := 0xF6
  const STABFIXED := 0xF4

  const START: seq<Symtab> := [
    Symtab(JXACTIVE, 10, 0, 3, 9),
    Symtab(LABELID, 100, 0, 0, -1),
    Symtab(JXACTIVE, 102, 0, 3, 6),
    Symtab(STABFIXED, 103, 0, 0, -1),
    Symtab(JXACTIVE, 227, 0, 3, 1),
    Symtab(JXACTIVE, 229, 0, 3, 8),
    Symtab(LABELID, 229, 0, 0, -1),
    Symtab(JXACTIVE, 300, 0, 3, 9),
    Symtab(LABELID, 354, 0, 0, -1),
    Symtab(LABELID, 700, 0, 0, -1)]

  const TABLE1: seq<Symtab> := [
    Symtab(JXINACTIVE, 13, 1, 3, 9),
    Symtab(LABELID, 103, 0, 0, -1),
    Symtab(JXACTIVE, 105, 0, 3, 6),
    Symtab(STABFIXED, 103, 0, 0, -1),
    Symtab(JXACTIVE, 230, 0, 3, 1),
    Symtab(JXACTIVE, 232, 0, 3, 8),
    Symtab(LABELID, 232, 0, 0, -1),
    Symtab(JXINACTIVE, 306, 1, 3, 9),
    Symtab(LABELID, 360, 0, 0, -1),
    Symtab(LABELID, 706, 0, 0, -1)]

  const TABLE2: seq<Symtab> := [
    Symtab(JXINACTIVE, 13, 1, 3, 9),
    Symtab(LABELID, 103, 0, 0, -1),
    Symtab(JXACTIVE, 105, 0, 3, 6),
    Symtab(STABFIXED, 103, 0, 0, -1),
    Symtab(JXINACTIVE, 230, 0, 3, 1),
    Symtab(JXINACTIVE, 235, 1, 3, 8),
    Symtab(LABELID, 235, 0, 0, -1),
    Symtab(JXINACTIVE, 309, 1, 3, 9),
    Symtab(LABELID, 363, 0, 0, -1),
    Symtab(LABELID, 709, 0, 0, -1)]

  const TABLE3: seq<Symtab> := [
    Symtab(JXINACTIVE, 13, 1, 3, 9),
    Symtab(LABELID, 103, 0, 0, -1),
    Symtab(JXINACTIVE, 108, 1, 3, 6),
    Symtab(STABFIXED, 103, 0, 0, -1),
    Symtab(JXINACTIVE, 233, 0, 3, 1),
    Symtab(JXINACTIVE, 238, 1, 3, 8),
    Symtab(LABELID, 238, 0, 0, -1),
    Symtab(JXINACTIVE, 312, 1, 3, 9),
    Symtab(LABELID, 366, 0, 0, -1),
    Symtab(LABELID, 712, 0, 0, -1)]

  const PASS1: seq<Symtab> := [
    Symtab(JXNOTYET, 10, 0, 3, 9),
    Symtab(LABELID, 100, 0, 0, -1),
    Symtab(JXACTIVE, 102, 0, 3, 6),
    Symtab(STABFIXED, 103, 0, 0, -1),
    Symtab(JXACTIVE, 227, 0, 3, 1),
    Symtab(JXACTIVE, 229, 0, 3, 8),
    Symtab(LABELID, 229, 0, 0, -1),
    Symtab(JXNOTYET, 300, 0, 3, 9),
    Symtab(LABELID, 354, 0, 0, -1),
    Symtab(LABELID, 700, 0, 0, -1)]

  const PASS2: seq<Symtab> := [
    Symtab(JXINACTIVE, 13, 1, 3, 9),
    Symtab(LABELID, 103, 0, 0, -1),
    Symtab(JXACTIVE, 105, 0, 3, 6),
    Symtab(STABFIXED, 103, 0, 0, -1),
    Symtab(JXINACTIVE, 230, 0, 3, 1),
    Symtab(JXNOTYET, 232, 0, 3, 8),
    Symtab(LABELID, 232, 0, 0, -1),
    Symtab(JXINACTIVE, 306, 1, 3, 9),
    Symtab(LABELID, 360, 0, 0, -1),
    Symtab(LABELID, 706, 0, 0, -1)]

  const PASS3: seq<Symtab> := [
    Symtab(JXINACTIVE, 13, 1, 3, 9),
    Symtab(LABELID, 103, 0, 0, -1),
    Symtab(JXNOTYET, 105, 0, 3, 6),
    Symtab(STABFIXED, 103, 0, 0, -1),
    Symtab(JXINACTIVE, 230, 0, 3, 1),
    Symtab(JXINACTIVE, 235, 1, 3, 8),
    Symtab(LABELID, 235, 0, 0, -1),
    Symtab(JXINACTIVE, 309, 1, 3, 9),
    Symtab(LABELID, 363, 0, 0, -1),
    Symtab(LABELID, 709, 0, 0, -1)]

  lemma AheadIs(es: seq<Symtab>, i: nat, c: nat, s: nat)
    requires i < |es| && es[i].Jump() && Aimed(es, i) && c <= s <= |es|
    requires forall k :: c <= k < s ==> es[k].s_value <= es[es[i].s_dest].s_value
    requires s < |es| ==> es[s].s_value > es[es[i].s_dest].s_value
    ensures StopAhead(es, i, c) == s
  {
    StopAheadFacts(es, i, c);
  }

  lemma BehindIs(es: seq<Symtab>, i: nat, c: int, s: int)
    requires i < |es| && es[i].Jump() && Aimed(es, i) && -1 <= s <= c < |es|
    requires forall k :: s < k <= c ==> es[k].s_value > es[es[i].s_dest].s_value
    requires s >= 0 ==> es[s].s_value <= es[es[i].s_dest].s_value
    ensures StopBehind(es, i, c) == s
  {
    StopBehindFacts(es, i, c);
  }

  lemma StartLooks()
    ensures Look(START, 0) == JXNOTYET && Look(START, 7) == JXNOTYET
    ensures Look(START, 2) == JXACTIVE && Look(START, 5) == JXACTIVE
  {
    AheadIs(START, 2, 3, 7);
    assert Sum(START, 3, 4, Fear) == 0;
    assert Sum(START, 3, 5, Fear) == 3;
    assert Sum(START, 3, 6, Fear) == 6;
    assert Sum(START, 3, 7, Fear) == 6;
    AheadIs(START, 5, 6, 9);
    assert Sum(START, 6, 7, Fear) == 0;
    assert Sum(START, 6, 8, Fear) == 3;
    assert Sum(START, 6, 9, Fear) == 3;
  }

  lemma StartLooksBack()
    ensures Look(START, 4) == JXACTIVE
  {
    BehindIs(START, 4, 3, 1);
    assert Sum(START, 2, 3, Fear) == 3;
    assert Sum(START, 2, 4, Fear) == 3;
  }

  lemma FirstPass()
    ensures |PASS1| == |START| && forall i :: 0 <= i < |START| ==> PASS1[i] == LookedAt(START, i)
  {
    hide Look;
    StartLooks();
    StartLooksBack();
  }

  lemma SecondLooks()
    ensures Look(TABLE1, 2) == JXACTIVE && Look(TABLE1, 4) == JXINACTIVE && Look(TABLE1, 5) == JXNOTYET
  {
    AheadIs(TABLE1, 2, 3, 7);
    assert Sum(TABLE1, 3, 4, Fear) == 0;
    assert Sum(TABLE1, 3, 5, Fear) == 3;
    assert Sum(TABLE1, 3, 6, Fear) == 6;
    assert Sum(TABLE1, 3, 7, Fear) == 6;
    BehindIs(TABLE1, 4, 3, 3);
    assert Sum(TABLE1, 4, 4, Fear) == 0;
  }

  lemma SecondPass()
    ensures |PASS2| == |TABLE1| && forall i :: 0 <= i < |TABLE1| ==> PASS2[i] == LookedAt(TABLE1, i)
  {
    hide Look;
    SecondLooks();
  }

  lemma ThirdPass()
    ensures |PASS3| == |TABLE2| && forall i :: 0 <= i < |TABLE2| ==> PASS3[i] == LookedAt(TABLE2, i)
  {
  }

  lemma FirstBump()
    ensures BumpedFrom(PASS1, TABLE1, 0)
  {
    assert Sum(PASS1, 0, 1, NotYet) == 3;
    assert Sum(PASS1, 0, 2, NotYet) == 3;
    assert Sum(PASS1, 0, 3, NotYet) == 3;
    assert Sum(PASS1, 0, 4, NotYet) == 3;
    assert Sum(PASS1, 0, 5, NotYet) == 3;
    assert Sum(PASS1, 0, 6, NotYet) == 3;
    assert Sum(PASS1, 0, 7, NotYet) == 3;
    assert Sum(PASS1, 0, 8, NotYet) == 6;
    assert Sum(PASS1, 0, 9, NotYet) == 6;
    assert Sum(PASS1, 0, 10, NotYet) == 6;
  }

  lemma SecondBump()
    ensures BumpedFrom(PASS2, TABLE2, 0)
  {
    assert Sum(PASS2, 0, 1, NotYet) == 0;
    assert Sum(PASS2, 0, 2, NotYet) == 0;
    assert Sum(PASS2, 0, 3, NotYet) == 0;
    assert Sum(PASS2, 0, 4, NotYet) == 0;
    assert Sum(PASS2, 0, 5, NotYet) == 0;
    assert Sum(PASS2, 0, 6, NotYet) == 3;
    assert Sum(PASS2, 0, 7, NotYet) == 3;
    assert Sum(PASS2, 0, 8, NotYet) == 3;
    assert Sum(PASS2, 0, 9, NotYet) == 3;
    assert Sum(PASS2, 0, 10, NotYet) == 3;
  }

  lemma ThirdBump()
    ensures BumpedFrom(PASS3, TABLE3, 0)
  {
    assert Sum(PASS3, 0, 1, NotYet) == 0;
    assert Sum(PASS3, 0, 2, NotYet) == 0;
    assert Sum(PASS3, 0, 3, NotYet) == 3;
    assert Sum(PASS3, 0, 4, NotYet) == 3;
    assert Sum(PASS3, 0, 5, NotYet) == 3;
    assert Sum(PASS3, 0, 6, NotYet) == 3;
    assert Sum(PASS3, 0, 7, NotYet) == 3;
    assert Sum(PASS3, 0, 8, NotYet) == 3;
    assert Sum(PASS3, 0, 9, NotYet) == 3;
    assert Sum(PASS3, 0, 10, NotYet) == 3;
  }

  /** Without the condition on fixed entries the result is wrong: after the first bump the backward search of jump 4
      stops at the fixed entry 3, does not see jump 2, and fixes jump 4 as short; when jump 2 grows, jump 4 no longer
      reaches. */
  lemma FixedEntryHidesJump()
    ensures Start(START) && !ClearBehind(START) && Uncrossed(START)
    ensures forall i :: 0 <= i < |START| ==> PASS1[i] == LookedAt(START, i)
    ensures BumpedFrom(PASS1, TABLE1, 0) && forall i :: 0 <= i < |TABLE1| ==> PASS2[i] == LookedAt(TABLE1, i)
    ensures BumpedFrom(PASS2, TABLE2, 0) && forall i :: 0 <= i < |TABLE2| ==> PASS3[i] == LookedAt(TABLE2, i)
    ensures BumpedFrom(PASS3, TABLE3, 0) && Quiet(TABLE3)
    ensures TABLE3[4].Jump() && TABLE3[4].s_jxbump == 0 && !InByte(Displ(TABLE3, 4))
  {
    hide LookedAt, BumpedFrom, Start, ClearBehind, Uncrossed, Quiet;
    StartTable();
    FirstPass();
    FirstBump();
    SecondPass();
    SecondBump();
    ThirdPass();
    ThirdBump();
    LastTable();
  }

  lemma StartTable()
    ensures Start(START) && !ClearBehind(START) && Uncrossed(START)
  {
    StartStart();
    assert Sum(START, 0, 1, Expansion) == 3;
    assert Sum(START, 0, 2, Expansion) == 3;
    assert START[2].Mark() && START[3].s_value == START[1].s_value + 3;
    assert !Harmless(START, 1, 3);
    assert START[4].Jump() && START[4].s_dest < 3 < 4 && !START[3].Moves();
  }

  lemma StartStart()
    ensures Start(START) && Uncrossed(START)
  {
    hide Displ, InByte;
    assert forall k :: 0 <= k < |START| ==> !START[k].Align();
  }

  lemma LastTable()
    ensures Quiet(TABLE3) && TABLE3[4].Jump() && TABLE3[4].s_jxbump == 0 && !InByte(Displ(TABLE3, 4))
  {
  }
}
