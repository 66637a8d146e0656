/** The segmented symbol table of the assembler: lookup and htaballoc of assyms.c. */
module AsSyms {
  import opened AsPrime

  const HASHCLOGGED := NHASH / 2

  type Name = seq<int>

  class Symbol {
    const name: Name
    constructor (name: Name)
      ensures this.name == name
    {
      this.name := name;
    }
  }

  class Segment {
    var h_nused: nat
    const h_htab: array<Symbol?>

    constructor ()
      ensures fresh(h_htab) && h_htab.Length == NHASH && h_nused == 0
      ensures forall i :: 0 <= i < NHASH ==> h_htab[i] == null
    {
      h_htab := new Symbol?[NHASH](_ => null);
      h_nused := 0;
    }
  }

  /** C's int arithmetic on the VAX. */
  function Wrap(x: int): int {
    (x + 0x8000_0000) % 0x1_0000_0000 - 0x8000_0000
  }

  function Fold(name: Name, n: int): int {
    if name == [] then n else Fold(name[1..], Wrap(Wrap(n * 4) + name[0]))
  }

  /** The initial probe: a remainder that C may leave negative is brought into range. */
  function Hash(name: Name): (h: nat)
    requires name != []
    ensures h < NHASH
  {
    Wrap(Fold(name, 0) + name[|name| - 1] * 32) % NHASH
  }

  ghost predicate Named(sl: seq<Symbol?>, i: nat, name: Name) {
    i < |sl| && sl[i] != null && sl[i].name == name
  }

  ghost function Occupied(sl: seq<Symbol?>): set<nat> {
    set i: nat | i < |sl| && sl[i] != null
  }

  /** Probes 0..k-1 for h hit occupied slots. */
  ghost predicate Crowded(sl: seq<Symbol?>, h: nat, k: nat) {
    |sl| == NHASH && forall j: nat :: j < k ==> sl[Probe(h, j)] != null
  }

  /** A symbol sits at the first slot of its probe sequence that was free. */
  ghost predicate Placed(sl: seq<Symbol?>, i: nat) {
    && |sl| == NHASH && i < NHASH && sl[i] != null && sl[i].name != []
    && exists k: nat :: k <= HASHCLOGGED && Probe(Hash(sl[i].name), k) == i && Crowded(sl, Hash(sl[i].name), k)
  }

  ghost predicate SegOk(sl: seq<Symbol?>, nused: nat) {
    && |sl| == NHASH && nused == |Occupied(sl)| <= HASHCLOGGED
    && forall i: nat :: i < NHASH && sl[i] != null ==> Placed(sl, i)
  }

  ghost function ProbeSet(h: nat, n: nat): set<nat> {
    if n == 0 then {} else ProbeSet(h, n - 1) + {Probe(h, n - 1)}
  }

  lemma {:induction false} ProbeSetSize(h: nat, n: nat)
    requires n <= HASHCLOGGED + 1
    ensures |ProbeSet(h, n)| == n
    ensures forall p :: p in ProbeSet(h, n) <==> exists j: nat :: j < n && p == Probe(h, j)
  {
    if n > 0 {
      ProbeSetSize(h, n - 1);
      forall j: nat | j < n - 1 ensures Probe(h, j) != Probe(h, n - 1) {
        ProbesDiffer(h, j, n - 1);
      }
    }
  }

  lemma {:induction false} SubsetSize(A: set<nat>, B: set<nat>)
    requires A <= B
    ensures |A| <= |B|
  {
    assert B == A + (B - A);
  }

  /** 552 different slots cannot all be occupied when 551 are. */
  lemma NotAllCrowded(sl: seq<Symbol?>, nused: nat, h: nat)
    requires SegOk(sl, nused)
    ensures !Crowded(sl, h, HASHCLOGGED + 1)
  {
    if Crowded(sl, h, HASHCLOGGED + 1) {
      ProbeSetSize(h, HASHCLOGGED + 1);
      forall p | p in ProbeSet(h, HASHCLOGGED + 1) ensures p in Occupied(sl) {
        var j: nat :| j < HASHCLOGGED + 1 && p == Probe(h, j);
      }
      SubsetSize(ProbeSet(h, HASHCLOGGED + 1), Occupied(sl));
    }
  }

  /** A stored name is met before the first free slot of its probe sequence. */
  lemma FoundBeforeFree(sl: seq<Symbol?>, nused: nat, name: Name, k: nat, i: nat)
    requires SegOk(sl, nused) && name != [] && sl[Probe(Hash(name), k)] == null
    requires forall j: nat :: j < k ==> !Named(sl, Probe(Hash(name), j), name)
    ensures !Named(sl, i, name)
  {
  }

  lemma StepModulo(x: nat, m: nat)
    requires m < NHASH
    ensures (x + m) % NHASH == if x % NHASH + m >= NHASH then x % NHASH + m - NHASH else x % NHASH + m
  {
  }

  /** Probe numbers go up by odd steps. */
  lemma ProbeNext(h: nat, k: nat)
    requires 2 * k + 1 < NHASH
    ensures var p := Probe(h, k) + (2 * k + 1);
            Probe(h, k + 1) == if p >= NHASH then p - NHASH else p
  {
    assert (k + 1) * (k + 1) == k * k + (2 * k + 1);
    StepModulo(h + k * k, 2 * k + 1);
  }

  /** The probe loop over one segment. */
  method Search(seg: Segment, name: Name, initialprobe: nat) returns (found: bool, hp: nat, ghost k: nat)
    requires SegOk(seg.h_htab[..], seg.h_nused) && name != [] && initialprobe == Hash(name)
    ensures hp < NHASH && (found <==> seg.h_htab[hp] != null)
    ensures found ==> Named(seg.h_htab[..], hp, name)
    ensures !found ==> forall i: nat :: !Named(seg.h_htab[..], i, name)
    ensures !found ==> k <= HASHCLOGGED && hp == Probe(initialprobe, k) && Crowded(seg.h_htab[..], initialprobe, k)
  {
    var nprobes := 1;
    hp := initialprobe;
    k := 0;
    ghost var sl := seg.h_htab[..];
    while seg.h_htab[hp] != null && nprobes < NHASH
      invariant nprobes == 2 * k + 1 && k <= HASHCLOGGED && hp == Probe(initialprobe, k)
      invariant Crowded(sl, initialprobe, k)
      invariant forall j: nat :: j < k ==> !Named(sl, Probe(initialprobe, j), name)
      decreases NHASH - nprobes
    {
      if seg.h_htab[hp].name == name {
        return true, hp, k;
      }
      ProbeNext(initialprobe, k);
      hp := hp + nprobes;
      if hp >= NHASH {
        hp := hp - NHASH;
      }
      nprobes := nprobes + 2;
      k := k + 1;
    }
    NotAllCrowded(sl, seg.h_nused, initialprobe);
    forall i: nat ensures !Named(sl, i, name) {
      FoundBeforeFree(sl, seg.h_nused, name, k, i);
    }
    found := false;
  }

  /** Slot p is the first free one, number k, of the probe sequence from h in a segment that is not clogged. */
  ghost predicate Free(sl: seq<Symbol?>, nused: nat, h: nat, k: nat, p: nat) {
    k <= HASHCLOGGED && nused < HASHCLOGGED && |sl| == NHASH && p == Probe(h, k) && sl[p] == null && Crowded(sl, h, k)
  }

  /** Filling the first free slot of a probe sequence. */
  lemma Install(sl: seq<Symbol?>, nused: nat, sym: Symbol, k: nat, p: nat)
    requires SegOk(sl, nused) && sym.name != [] && Free(sl, nused, Hash(sym.name), k, p)
    ensures p < |sl| && sl[p] == null && SegOk(sl[p := sym], nused + 1)
  {
    var sl' := sl[p := sym];
    assert Occupied(sl') == Occupied(sl) + {p};
    forall i: nat | i < NHASH && sl'[i] != null ensures Placed(sl', i) {
      if i == p {
        assert Crowded(sl', Hash(sym.name), k);
      } else {
        assert Placed(sl, i);
        var k0: nat :| k0 <= HASHCLOGGED && Probe(Hash(sl[i].name), k0) == i && Crowded(sl, Hash(sl[i].name), k0);
        assert Crowded(sl', Hash(sl[i].name), k0);
      }
    }
  }

  lemma EmptySegment(sl: seq<Symbol?>, h: nat)
    requires |sl| == NHASH && h < NHASH && forall i :: 0 <= i < NHASH ==> sl[i] == null
    ensures Free(sl, 0, h, 0, h) && SegOk(sl, 0)
  {
    assert Occupied(sl) == {};
  }

  /** A symbol and the slot that points to it. */
  datatype Entry = Entry(seg: Segment, slot: nat, sym: Symbol)

  ghost predicate Holds(e: Entry)
    reads e.seg, e.seg.h_htab
  {
    e.slot < e.seg.h_htab.Length && e.seg.h_htab[e.slot] == e.sym
  }

  /** The slots of a segment and Entries agree. */
  ghost predicate Listed(seg: Segment, Entries: set<Entry>)
    reads seg, seg.h_htab
  {
    && SegOk(seg.h_htab[..], seg.h_nused)
    && forall i :: 0 <= i < NHASH && seg.h_htab[i] != null ==> Entry(seg, i, seg.h_htab[i]) in Entries
  }

  ghost predicate Apart(segs: seq<Segment>) {
    forall i, j :: 0 <= i < j < |segs| ==> segs[i] != segs[j] && segs[i].h_htab != segs[j].h_htab
  }

  ghost predicate OneEach(Entries: set<Entry>) {
    forall e, f :: e in Entries && f in Entries && e.sym.name == f.sym.name ==> e == f
  }

  ghost predicate Known(Entries: set<Entry>, name: Name) {
    exists e :: e in Entries && e.sym.name == name
  }

  class SymbolTable {
    var segs: seq<Segment>         // the first segment stays first, the latest comes right after it
    ghost var Entries: set<Entry>  // all symbols installed

    ghost function Repr(): set<object>
      reads this
    {
      {this as object} + (set s | s in segs :: s as object) + (set s | s in segs :: s.h_htab as object)
    }

    ghost predicate Valid()
      reads this, set s | s in segs, set s | s in segs :: s.h_htab
    {
      && segs != []
      && Apart(segs)
      && (forall s :: s in segs ==> Listed(s, Entries))
      && (forall e :: e in Entries ==> e.seg in segs && Holds(e))
      && OneEach(Entries)
    }

    constructor ()
      ensures Valid() && Entries == {} && fresh(Repr())
    {
      var s := new Segment();
      segs := [s];
      Entries := {};
      new;
      EmptySegment(s.h_htab[..], 0);
    }

    /** A segment is added after the first one. */
    method HtabAlloc() returns (s: Segment)
      requires Valid()
      modifies this`segs
      ensures Valid() && fresh(s) && fresh(s.h_htab)
      ensures segs == [old(segs)[0], s] + old(segs)[1..] && fresh(Repr() - old(Repr()))
      ensures s in segs && s.h_htab.Length == NHASH && s.h_nused == 0 && forall i :: 0 <= i < NHASH ==> s.h_htab[i] == null
    {
      s := new Segment();
      EmptySegment(s.h_htab[..], 0);
      segs := [segs[0], s] + segs[1..];
      assert forall x :: x in segs ==> x == s || x in old(segs);
    }

    /** The loop over the segments: the slot of the name, or else the first free slot of a segment that is not clogged. */
    method Scan(yytext: Name, initialprobe: nat)
      returns (found: bool, seg: Segment?, hp: nat, ghost k: nat)
      requires Valid() && yytext != [] && initialprobe == Hash(yytext)
      ensures seg != null ==> seg in segs && hp < seg.h_htab.Length
      ensures found ==> seg != null && Named(seg.h_htab[..], hp, yytext)
      ensures !found ==> !Known(Entries, yytext)
      ensures !found && seg != null ==> seg.h_htab[hp] == null && Free(seg.h_htab[..], seg.h_nused, initialprobe, k, hp)
    {
      found, seg, hp, k := false, null, 0, 0;
      var i := 0;
      while i < |segs|
        invariant i <= |segs|
        invariant forall t, j: nat :: 0 <= t < i ==> !Named(segs[t].h_htab[..], j, yytext)
        invariant seg != null ==> seg in segs && hp < seg.h_htab.Length && Free(seg.h_htab[..], seg.h_nused, initialprobe, k, hp)
      {
        var hdallop := segs[i];
        assert Listed(hdallop, Entries);
        var hit, p, n := Search(hdallop, yytext, initialprobe);
        if hit {
          return true, hdallop, p, n;
        }
        if seg == null && hdallop.h_nused < HASHCLOGGED {
          seg, hp, k := hdallop, p, n;
        }
        i := i + 1;
      }
      forall e | e in Entries ensures e.sym.name != yytext {
        assert e.seg in segs && Holds(e);
        var t :| 0 <= t < |segs| && segs[t] == e.seg;
        assert Listed(segs[t], Entries);
        assert !Named(segs[t].h_htab[..], e.slot, yytext);
      }
    }

    /** The slot of a name; with instflg set, an absent name is installed there. */
    method Lookup(yytext: Name, instflg: bool) returns (seg: Segment, hp: nat)
      requires Valid() && yytext != []
      modifies Repr()
      ensures Valid() && seg in segs && hp < seg.h_htab.Length
      ensures fresh(Repr() - old(Repr()))
      ensures Entries >= old(Entries) && (instflg ==> Owner(Entries, (seg, hp), yytext))
      ensures Known(old(Entries), yytext) ==> Entries == old(Entries) && Named(seg.h_htab[..], hp, yytext)
      ensures !Known(old(Entries), yytext) && instflg ==>
                Named(seg.h_htab[..], hp, yytext) && Entries == old(Entries) + {Entry(seg, hp, seg.h_htab[hp])}
      ensures !Known(old(Entries), yytext) && !instflg ==> seg.h_htab[hp] == null && Entries == old(Entries)
    {
      hide SegOk, Free, Apart, OneEach, Listed;
      var initialprobe := Hash(yytext);
      var found, hd, p, k := Scan(yytext, initialprobe);
      if found {
        FoundIsKnown(hd, p);
        return hd, p;
      }
      if hd == null {
        seg := HtabAlloc();
        hp := initialprobe;
        k := 0;
        EmptySegment(seg.h_htab[..], hp);
      } else {
        seg := hd;
        hp := p;
      }
      if instflg {
        var sym := new Symbol(yytext);
        InstallAt(seg, hp, sym, k);
      }
    }

    lemma FoundIsKnown(seg: Segment, hp: nat)
      requires Valid() && seg in segs && hp < seg.h_htab.Length && seg.h_htab[hp] != null
      ensures Known(Entries, seg.h_htab[hp].name) && Owner(Entries, (seg, hp), seg.h_htab[hp].name)
    {
      assert Listed(seg, Entries);
      assert Entry(seg, hp, seg.h_htab[hp]) in Entries;
    }

    method InstallAt(seg: Segment, hp: nat, sym: Symbol, ghost k: nat)
      requires Valid() && seg in segs && sym.name != [] && !Known(Entries, sym.name) && hp < seg.h_htab.Length
      requires Free(seg.h_htab[..], seg.h_nused, Hash(sym.name), k, hp)
      modifies this`Entries, seg`h_nused, seg.h_htab
      ensures Valid() && Repr() == old(Repr()) && seg.h_htab[hp] == sym && Entries == old(Entries) + {Entry(seg, hp, sym)}
    {
      hide Free, SegOk, Hash;
      ghost var sl := seg.h_htab[..];
      Install(sl, seg.h_nused, sym, k, hp);
      seg.h_htab[hp] := sym;
      seg.h_nused := seg.h_nused + 1;
      Entries := Entries + {Entry(seg, hp, sym)};
      assert seg.h_htab[..] == sl[hp := sym];
    }
  }

  /** Any run of installing lookups: a slot keeps its symbol, equal names share a slot and different names do not. */
  method LookupAll(table: SymbolTable, names: seq<Name>) returns (slots: seq<(Segment, nat)>)
    requires table.Valid() && forall i :: 0 <= i < |names| ==> names[i] != []
    modifies table.Repr()
    ensures table.Valid() && table.Entries >= old(table.Entries)
    ensures |slots| == |names|
    ensures forall i, j :: 0 <= i < |names| && 0 <= j < |names| ==> (names[i] == names[j] <==> slots[i] == slots[j])
  {
    slots := [];
    while |slots| < |names|
      invariant |slots| <= |names|
      invariant table.Valid() && table.Entries >= old(table.Entries) && fresh(table.Repr() - old(table.Repr()))
      invariant Owners(table.Entries, slots, names[..|slots|])
    {
      hide *;
      ghost var before := table.Entries;
      var seg, hp := table.Lookup(names[|slots|], true);
      OwnersGrow(before, table.Entries, slots, names, (seg, hp));
      slots := slots + [(seg, hp)];
    }
    assert names[..|slots|] == names;
    OwnersDiffer(table, slots, names);
  }

  /** Each slot holds the symbol of its name. */
  ghost predicate Owners(Entries: set<Entry>, slots: seq<(Segment, nat)>, names: seq<Name>) {
    |slots| == |names| && forall i :: 0 <= i < |slots| ==> Owner(Entries, slots[i], names[i])
  }

  ghost predicate Owner(Entries: set<Entry>, slot: (Segment, nat), name: Name) {
    exists e :: e in Entries && e.seg == slot.0 && e.slot == slot.1 && e.sym.name == name
  }

  lemma OwnersGrow(Entries: set<Entry>, Entries': set<Entry>, slots: seq<(Segment, nat)>, names: seq<Name>, slot: (Segment, nat))
    requires |slots| < |names| && Entries <= Entries'
    requires Owners(Entries, slots, names[..|slots|]) && Owner(Entries', slot, names[|slots|])
    ensures Owners(Entries', slots + [slot], names[..|slots| + 1])
  {
    forall i | 0 <= i < |slots| ensures Owner(Entries', slots[i], names[i]) {
      assert Owner(Entries, slots[i], names[..|slots|][i]);
    }
  }

  lemma OwnersDiffer(table: SymbolTable, slots: seq<(Segment, nat)>, names: seq<Name>)
    requires table.Valid() && Owners(table.Entries, slots, names)
    ensures forall i, j :: 0 <= i < |names| && 0 <= j < |names| ==> (names[i] == names[j] <==> slots[i] == slots[j])
  {
    forall i, j | 0 <= i < |names| && 0 <= j < |names|
      ensures names[i] == names[j] <==> slots[i] == slots[j]
    {
      assert Owner(table.Entries, slots[i], names[i]) && Owner(table.Entries, slots[j], names[j]);
      var e :| e in table.Entries && e.seg == slots[i].0 && e.slot == slots[i].1 && e.sym.name == names[i];
      var f :| f in table.Entries && f.seg == slots[j].0 && f.slot == slots[j].1 && f.sym.name == names[j];
      assert Holds(e) && Holds(f);
    }
  }
}
