/** The pattern compiler of grep: compile in grep.c, for patterns without groups, back references and word anchors. */
module GrepCompile {
  import opened GrepRe
  import opened GrepMatch
  import opened GrepText
  import opened GrepParse

  const CBRA := 1
  const CKET := 12
  const CBRC := 14
  const CLET := 15

  // ---- the code written so far ----

  ghost predicate Emitted(code: seq<nat>, items: seq<Item>) {
    if items == [] then code == []
    else
      var n := CodeSize(items[|items| - 1]);
      n <= |code| && CodeOf(code[|code| - n..], items[|items| - 1]) && Emitted(code[..|code| - n], items[..|items| - 1])
  }

  lemma EmitItem(code: seq<nat>, items: seq<Item>, part: seq<nat>, item: Item)
    requires Emitted(code, items) && CodeOf(part, item) && |part| == CodeSize(item)
    ensures Emitted(code + part, items + [item])
  {
    assert (items + [item])[..|items|] == items;
    assert (code + part)[..|code|] == code && (code + part)[|code|..] == part;
  }

  lemma {:induction false} EmittedSize(code: seq<nat>, items: seq<Item>)
    requires Emitted(code, items)
    ensures |code| == Size(items)
  {
    if items != [] {
      EmittedSize(code[..|code| - CodeSize(items[|items| - 1])], items[..|items| - 1]);
    }
  }

  /** Setting the star bit of the last operation. */
  lemma EmitStar(code: seq<nat>, items: seq<Item>, lastep: nat)
    requires Emitted(code, items) && items != [] && !items[|items| - 1].Eol?
    requires lastep == |code| - CodeSize(items[|items| - 1])
    ensures Emitted(code[lastep := SetBit(code[lastep], 0)], items[..|items| - 1] + [Closure(items[|items| - 1])])
    ensures CodeSize(Closure(items[|items| - 1])) == CodeSize(items[|items| - 1])
    ensures code[lastep] != CBRA && code[lastep] != CKET && code[lastep] != CBRC && code[lastep] != CLET
  {
    hide Emitted, CodeOf, CodeSize, SetBit, Closure;
    var item := items[|items| - 1];
    var part := code[lastep..];
    EmittedLast(code, items);
    StarBit(part, item);
    var part' := part[0 := SetBit(part[0], 0)];
    EmitItem(code[..lastep], items[..|items| - 1], part', Closure(item));
    assert code[..lastep] + part' == code[lastep := SetBit(code[lastep], 0)];
  }

  lemma EmittedLast(code: seq<nat>, items: seq<Item>)
    requires Emitted(code, items) && items != []
    ensures var item := items[|items| - 1];
            var n := |code| - CodeSize(item);
            0 <= n && CodeOf(code[n..], item) && |code[n..]| == CodeSize(item) && Emitted(code[..n], items[..|items| - 1])
  {
  }

  lemma StarBit(part: seq<nat>, item: Item)
    requires CodeOf(part, item) && !item.Eol? && |part| == CodeSize(item)
    ensures part != [] && part[0] in {2, 3, 4, 5, 6, 7}
    ensures CodeOf(part[0 := SetBit(part[0], 0)], Closure(item)) && CodeSize(Closure(item)) == |part|
  {
    assert part[0 := SetBit(part[0], 0)][1..] == part[1..];
  }

  /** Code that has been written can be run. */
  lemma {:induction false} EmittedCoded(code: seq<nat>, n: nat, items: seq<Item>, rest: seq<Item>)
    requires n <= |code| && Emitted(code[..n], items) && Coded(code, n, rest)
    ensures Coded(code, 0, items + rest)
    decreases |items|
  {
    if items != [] {
      var item := items[|items| - 1];
      var m := n - CodeSize(item);
      assert code[..n][..m] == code[..m] && code[..n][m..] == code[m..n];
      assert ([item] + rest)[1..] == rest;
      EmittedCoded(code, m, items[..|items| - 1], [item] + rest);
      assert items[..|items| - 1] + ([item] + rest) == items + rest;
    } else {
      assert items + rest == rest;
    }
  }

  // ---- bracket classes ----

  ghost predicate MapMembers(map16: seq<nat>, ms: seq<Member>) {
    Bytes(map16) && forall d: nat :: d < 128 ==> (InMap(map16, d) <==> InMembers(ms, d))
  }

  ghost predicate Added(map16: seq<nat>, map16': seq<nat>, lo: nat, hi: nat) {
    Bytes(map16) && Bytes(map16') && forall d: nat :: d < 128 ==> (InMap(map16', d) <==> lo <= d < hi || InMap(map16, d))
  }

  lemma AddedMember(map16: seq<nat>, map16': seq<nat>, lo: nat, hi: nat, ms: seq<Member>, m: Member)
    requires MapMembers(map16, ms) && Added(map16, map16', lo, hi)
    requires forall d: nat :: InMember(m, d) <==> lo <= d < hi
    ensures MapMembers(map16', ms + [m])
  {
    forall d: nat | d < 128 ensures InMap(map16', d) <==> InMembers(ms + [m], d) {
      MemberAppended(ms, m, d);
    }
  }

  lemma MemberAppended(ms: seq<Member>, m: Member, d: nat)
    ensures InMembers(ms + [m], d) <==> InMembers(ms, d) || InMember(m, d)
  {
    if InMembers(ms, d) {
      var k :| 0 <= k < |ms| && InMember(ms[k], d);
      assert InMember((ms + [m])[k], d);
    }
    if InMember(m, d) {
      assert InMember((ms + [m])[|ms|], d);
    }
  }

  method PutBit(expbuf: array<nat>, ep: nat, c: nat)
    requires ep + 16 <= expbuf.Length && c < 128
    modifies expbuf
    ensures expbuf[..] == old(expbuf[..])[ep + c / 8 := SetBit(old(expbuf[ep + c / 8]), c % 8)]
    ensures expbuf[ep..ep + 16] == Put(old(expbuf[ep..ep + 16]), c)
  {
    expbuf[ep + c / 8] := SetBit(expbuf[ep + c / 8], c % 8);
  }

  /** Only the map at ep has changed. */
  twostate predicate MapOnly(expbuf: array<nat>, ep: nat)
    requires ep + 16 <= expbuf.Length
    reads expbuf
  {
    forall k :: 0 <= k < ep || ep + 16 <= k < expbuf.Length ==> expbuf[k] == old(expbuf[k])
  }

  /** The bits from lo up to, but not with, hi; and where the loop ends. */
  method PutRange(expbuf: array<nat>, ep: nat, lo: nat, hi: nat) returns (c: nat)
    requires ep + 16 <= expbuf.Length && lo < 128 && hi < 128 && Bytes(expbuf[ep..ep + 16])
    modifies expbuf
    ensures MapOnly(expbuf, ep) && Added(old(expbuf[ep..ep + 16]), expbuf[ep..ep + 16], lo, hi)
    ensures c == if lo < hi then hi else lo
  {
    hide InMap, Put, SetBit;
    ghost var map0 := expbuf[ep..ep + 16];
    c := lo;
    while c < hi
      invariant lo <= c && (c == lo || c <= hi)
      invariant MapOnly(expbuf, ep) && Added(map0, expbuf[ep..ep + 16], lo, c)
    {
      PutMeaning(expbuf[ep..ep + 16], c);
      PutBit(expbuf, ep, c);
      c := c + 1;
    }
  }

  /** One more character after a range. */
  lemma AddedMore(map16: seq<nat>, mid: seq<nat>, map16': seq<nat>, lo: nat, hi: nat, c: nat)
    requires c < 128 && c == (if lo < hi then hi else lo) && Added(map16, mid, lo, hi) && map16' == Put(mid, c)
    ensures Added(map16, map16', lo, c + 1)
  {
    PutMeaning(mid, c);
  }

  lemma {:induction false} PrependTwice(ms: seq<Member>, more: seq<Member>, p: ClassParse)
    ensures Prepend(ms, Prepend(more, p)) == Prepend(ms + more, p)
  {
    if p.ClassOk? {
      assert ms + (more + p.members) == ms + more + p.members;
    }
  }

  lemma ClassEnds(z: seq<nat>, i: nat, first: bool)
    requires Pattern(z) && i < |z| && (!first ==> i > 0) && z[i] == 0
    ensures ClassFrom(z, i, first) == ClassBad
  {
  }

  lemma InRange(z: seq<nat>, i: nat, first: bool)
    requires Pattern(z) && i < |z| && (!first ==> i > 0) && ClassFrom(z, i, first) != ClassOverrun && z[i] != 0
    ensures i + 1 < |z|
    ensures z[i] == '-' as nat && !first && z[i + 1] != ']' as nat ==> z[i + 1] != 0
  {
  }

  lemma ClassStep(z: seq<nat>, i: nat, first: bool, m: Member, n: nat)
    requires Pattern(z) && i < |z| && (!first ==> i > 0) && ClassFrom(z, i, first) != ClassOverrun && z[i] != 0
    requires z[i] == '-' as nat && !first && i + 1 < |z| && z[i + 1] != ']' as nat ==> m == Range(z[i - 1], z[i + 1]) && n == i + 2
    requires !(z[i] == '-' as nat && !first && i + 1 < |z| && z[i + 1] != ']' as nat) ==> m == Single(z[i]) && n == i + 1
    ensures n < |z|
    ensures ClassFrom(z, i, first) == if z[n] == ']' as nat then ClassOk([m], n + 1) else Prepend([m], ClassFrom(z, n, false))
  {
  }

  /** The members of a class are set in the map at ep; sp is the position after its end. */
  method PutMembers(z: seq<nat>, sp0: nat, expbuf: array<nat>, ep: nat) returns (ok: bool, sp: nat, ghost ms: seq<Member>)
    requires Pattern(z) && sp0 < |z| && ep + 16 <= expbuf.Length && MapMembers(expbuf[ep..ep + 16], [])
    requires ClassFrom(z, sp0, true) != ClassOverrun
    modifies expbuf
    ensures ok == ClassFrom(z, sp0, true).ClassOk? && MapOnly(expbuf, ep)
    ensures ok ==> ClassFrom(z, sp0, true) == ClassOk(ms, sp) && MapMembers(expbuf[ep..ep + 16], ms)
  {
    hide InMap, Put, SetBit, InMembers, MapMembers, Added, Bytes, ClassFrom, ClassMore;
    ms := [];
    sp := sp0 + 1;
    var c := z[sp0];
    var cstart := sp;
    while true
      invariant sp0 < sp <= |z| && c == z[sp - 1] && cstart == sp0 + 1
      invariant ClassFrom(z, sp0, true) == Prepend(ms, ClassFrom(z, sp - 1, sp == cstart))
      invariant MapOnly(expbuf, ep) && MapMembers(expbuf[ep..ep + 16], ms)
      decreases |z| - sp
    {
      if c == 0 {
        ClassEnds(z, sp - 1, sp == cstart);
        return false, sp, ms;
      }
      ghost var i := sp - 1;
      ghost var map0 := expbuf[ep..ep + 16];
      ghost var m := Single(c);
      ghost var lo, hi := c, c;
      BytesOf(map0, ms, c);
      InRange(z, i, i == sp0);
      if c == '-' as nat && sp > cstart && z[sp] != ']' as nat {
        m := Range(z[sp - 2], z[sp]);
        lo, hi := z[sp - 2], z[sp];
        assert hi != 0;
        c := PutRange(expbuf, ep, z[sp - 2], z[sp]);
        sp := sp + 1;
      }
      ghost var map1 := expbuf[ep..ep + 16];
      PutBit(expbuf, ep, c);
      AddedMore(map0, map1, expbuf[ep..ep + 16], lo, hi, c);
      AddedMember(map0, expbuf[ep..ep + 16], lo, c + 1, ms, m);
      ms := ms + [m];
      ClassStep(z, i, i == sp0, m, sp);
      PrependTwice(ms[..|ms| - 1], [m], ClassFrom(z, sp, false));
      c := z[sp];
      sp := sp + 1;
      if c == ']' as nat {
        return true, sp, ms;
      }
    }
  }

  lemma BytesOf(map16: seq<nat>, ms: seq<Member>, c: nat)
    requires MapMembers(map16, ms)
    ensures Bytes(map16) && Added(map16, map16, c, c)
  {
  }

  /** A bracket class, from behind its [ to behind its ]. */
  method PutClass(z: seq<nat>, sp0: nat, expbuf: array<nat>, ep: nat) returns (ok: bool, sp: nat, ghost item: Item)
    requires Pattern(z) && 0 < sp0 < |z| && z[sp0 - 1] == '[' as nat
    requires ep + 17 <= expbuf.Length && forall k :: ep <= k < expbuf.Length ==> expbuf[k] == 0
    requires Next(z, sp0 - 1, [], false) != Stop(Overrun)
    modifies expbuf
    ensures forall k :: 0 <= k < ep || ep + 17 <= k < expbuf.Length ==> expbuf[k] == old(expbuf[k])
    ensures !ok ==> Next(z, sp0 - 1, [], false) == Stop(Bad)
    ensures ok ==> Next(z, sp0 - 1, [], false) == Go(sp, [item], true)
    ensures ok ==> item.One? && CodeSize(item) == 17 && CodeOf(expbuf[ep..ep + 17], item)
  {
    hide Negate, MapMembers, InMembers, InMap, CodeOf, AtomCode;
    expbuf[ep] := CCL;
    sp := sp0;
    var neg := z[sp] == '^' as nat;
    if neg {
      sp := sp + 1;
    }
    EmptyMap(expbuf[ep + 1..ep + 17]);
    ghost var ms;
    ok, sp, ms := PutMembers(z, sp, expbuf, ep + 1);
    item := One(Class(neg, ms));
    if ok {
      ghost var map16 := expbuf[ep + 1..ep + 17];
      BytesOf(map16, ms, 0);
      if neg {
        Complement(expbuf, ep + 1);
      }
      assert expbuf[ep..ep + 17][1..] == expbuf[ep + 1..ep + 17];
      ClassCode(map16, expbuf[ep..ep + 17], neg, ms);
    }
  }

  lemma ClassCode(map16: seq<nat>, code: seq<nat>, neg: bool, ms: seq<Member>)
    requires MapMembers(map16, ms) && NoNull(ms) && |code| == 17 && code[0] == CCL
    requires code[1..] == if neg then Negate(map16) else map16
    ensures CodeOf(code, One(Class(neg, ms)))
  {
    forall d: nat | d < 128 ensures InMap(code[1..], d) <==> d != 0 && InMembers(ms, d) != neg {
      NegateMeaning(map16, d);
    }
  }

  lemma EmptyMap(map16: seq<nat>)
    requires |map16| == 16 && forall k :: 0 <= k < 16 ==> map16[k] == 0
    ensures MapMembers(map16, [])
  {
  }

  /** All bits change, but the null character stays out. */
  method Complement(expbuf: array<nat>, ep: nat)
    requires ep + 16 <= expbuf.Length && Bytes(expbuf[ep..ep + 16])
    modifies expbuf
    ensures MapOnly(expbuf, ep) && expbuf[ep..ep + 16] == Negate(old(expbuf[ep..ep + 16]))
  {
    ghost var map0 := expbuf[ep..ep + 16];
    var cclcnt := 0;
    while cclcnt < 16
      invariant cclcnt <= 16 && MapOnly(expbuf, ep)
      invariant forall k :: 0 <= k < cclcnt ==> expbuf[ep + k] == Ones(8) - map0[k]
      invariant forall k :: cclcnt <= k < 16 ==> expbuf[ep + k] == map0[k]
    {
      assert map0[cclcnt] <= Ones(8);
      expbuf[ep + cclcnt] := Ones(8) - expbuf[ep + cclcnt];
      cclcnt := cclcnt + 1;
    }
    expbuf[ep] := expbuf[ep] - expbuf[ep] % 2;
  }

  // ---- the compiler ----

  lemma Appended(code: seq<nat>, code': seq<nat>, ep: nat, items: seq<Item>, item: Item)
    requires ep <= |code| == |code'| && ep + CodeSize(item) <= |code| && code'[..ep] == code[..ep]
    requires Emitted(code[..ep], items) && CodeOf(code'[ep..ep + CodeSize(item)], item)
    ensures Emitted(code'[..ep + CodeSize(item)], items + [item])
  {
    EmitItem(code[..ep], items, code'[ep..ep + CodeSize(item)], item);
    assert code'[..ep + CodeSize(item)] == code[..ep] + code'[ep..ep + CodeSize(item)];
  }

  lemma NextClass(z: seq<nat>, i: nat, acc: seq<Item>, last: bool)
    requires Pattern(z) && i < |z| && (last ==> acc != []) && z[i] == '[' as nat
    ensures match Next(z, i, [], false)
            case Stop(p) => Next(z, i, acc, last) == Stop(p)
            case Go(j, items, l) => Next(z, i, acc, last) == Go(j, acc + items, l)
  {
  }

  /** The code in front of ep is that of the items read so far; lastep is where the last one starts, -1 for none. */
  ghost predicate Progress(z: seq<nat>, sp: nat, code: seq<nat>, ep: nat, lastep: int, acc: seq<Item>)
    requires Pattern(z)
  {
    && sp < |z| && ep <= |code| && Emitted(code[..ep], acc) && (forall k :: ep <= k < |code| ==> code[k] == 0)
    && lastep >= -1 && (lastep >= 0 ==> acc != [] && lastep == ep - CodeSize(acc[|acc| - 1]))
    && (acc != [] && acc[|acc| - 1].Eol? ==> z[sp] == 0)
    && Parse(z) == ParseFrom(z, sp, acc, lastep >= 0)
  }

  /** One turn that writes an item. */
  lemma WrittenItem(z: seq<nat>, sp: nat, code: seq<nat>, ep: nat, lastep: int, acc: seq<Item>,
                    item: Item, sp': nat, code': seq<nat>, last: bool)
    requires Pattern(z) && Progress(z, sp, code, ep, lastep, acc)
    requires Next(z, sp, acc, lastep >= 0) == Go(sp', acc + [item], last)
    requires |code'| == |code| && ep + CodeSize(item) <= |code| && CodeOf(code'[ep..ep + CodeSize(item)], item)
    requires code'[..ep] == code[..ep] && forall k :: ep + CodeSize(item) <= k < |code| ==> code'[k] == code[k]
    requires item.Eol? ==> z[sp'] == 0
    ensures Progress(z, sp', code', ep + CodeSize(item), if last then ep else -1, acc + [item])
  {
    Appended(code, code', ep, acc, item);
  }

  lemma WrittenStar(z: seq<nat>, sp: nat, code: seq<nat>, ep: nat, lastep: nat, acc: seq<Item>)
    requires Pattern(z) && Progress(z, sp, code, ep, lastep, acc) && z[sp] == '*' as nat
    ensures lastep < ep
    ensures code[lastep] != CBRA && code[lastep] != CKET && code[lastep] != CBRC && code[lastep] != CLET
    ensures Next(z, sp, acc, true) == Go(sp + 1, acc[..|acc| - 1] + [Closure(acc[|acc| - 1])], true)
    ensures Progress(z, sp + 1, code[lastep := SetBit(code[lastep], 0)], ep, lastep, acc[..|acc| - 1] + [Closure(acc[|acc| - 1])])
  {
    assert !acc[|acc| - 1].Eol?;
    EmitStar(code[..ep], acc, lastep);
    var code' := code[lastep := SetBit(code[lastep], 0)];
    assert code'[..ep] == code[..ep][lastep := SetBit(code[lastep], 0)];
  }

  /** When the buffer is full the pattern does not fit, however it goes on. */
  lemma TooLong(z: seq<nat>, sp: nat, code: seq<nat>, ep: nat, lastep: int, acc: seq<Item>)
    requires Pattern(z) && Progress(z, sp, code, ep, lastep, acc)
    ensures Parse(z).Good? ==> Size(Parse(z).items) >= ep
  {
    EmittedSize(code[..ep], acc);
    if Parse(z).Good? {
      ParseGrows(z, sp, acc, lastep >= 0);
    }
  }

  lemma WrittenEnd(z: seq<nat>, sp: nat, code: seq<nat>, ep: nat, lastep: int, acc: seq<Item>)
    requires Pattern(z) && Progress(z, sp, code, ep, lastep, acc) && z[sp] == 0 && ep < |code|
    ensures Parse(z) == Good(acc) && Size(acc) == ep && Coded(code[ep := CEOF], 0, acc)
  {
    EmittedSize(code[..ep], acc);
    var code' := code[ep := CEOF];
    assert code'[..ep] == code[..ep];
    EmittedCoded(code', ep, acc, []);
    assert acc + [] == acc;
  }

  /** The buffer is longer than ESIZE, because the test for its end lets one byte be written behind it. */
  method Compile(astr: seq<nat>, expbuf: array<nat>) returns (ok: bool, circf: bool)
    requires Pattern(astr) && expbuf.Length == ESIZE + 1 && forall k :: 0 <= k < expbuf.Length ==> expbuf[k] == 0
    requires Covered(astr)
    modifies expbuf
    ensures circf == (astr[0] == '^' as nat)
    ensures ok <==> Parse(astr).Good? && Size(Parse(astr).items) < ESIZE
    ensures ok ==> Coded(expbuf[..], 0, Parse(astr).items)
    ensures ok ==> exists ps :: Spells(astr, ps)
    ensures forall ps :: Spells(astr, ps) ==> (ok <==> Size(Items(ps)) < ESIZE) && (ok ==> Coded(expbuf[..], 0, Items(ps)))
  {
    hide Spells, Parse, Emitted, Progress, ParseFrom, Coded, Size, CodeOf, Fills, Next;
    ParsedMeans(astr);
    var ep: nat, sp: nat, lastep := 0, 0, -1;
    circf := false;
    if astr[sp] == '^' as nat {
      circf := true;
      sp := sp + 1;
    }
    ghost var acc: seq<Item> := [];
    WrittenStart(astr, expbuf[..]);
    while true
      invariant sp < |astr| && Progress(astr, sp, expbuf[..], ep, lastep, acc) && (lastep >= 0 ==> acc != [])
      invariant LeftOut(Parse(astr)) ==> Fills(astr, sp, acc, lastep >= 0)
      decreases |astr| - sp
    {
      TooLong(astr, sp, expbuf[..], ep, lastep, acc);
      if ep >= ESIZE {
        return false, circf;
      }
      var c := astr[sp];
      if c == 0 {
        WrittenEnd(astr, sp, expbuf[..], ep, lastep, acc);
        expbuf[ep] := CEOF;
        return true, circf;
      }
      if c == '[' as nat && ep + 17 >= ESIZE {
        ClassTooLong(astr, sp, expbuf[..], ep, lastep, acc);
        return false, circf;
      }
      NotYetFull(astr, sp, expbuf[..], ep, lastep, acc);
      ok, sp, ep, lastep, acc := Turn(astr, sp, expbuf, ep, lastep, acc);
      if !ok {
        return false, circf;
      }
    }
  }

  /** While there is room, the compiler has not met what is left out. */
  lemma NotYetFull(z: seq<nat>, sp: nat, code: seq<nat>, ep: nat, lastep: int, acc: seq<Item>)
    requires Pattern(z) && Progress(z, sp, code, ep, lastep, acc) && !FullAt(z, sp, ep)
    requires LeftOut(Parse(z)) ==> Fills(z, sp, acc, lastep >= 0)
    ensures match Next(z, sp, acc, lastep >= 0)
            case Stop(p) => !LeftOut(p)
            case Go(j, acc', last') => LeftOut(Parse(z)) ==> Fills(z, j, acc', last')
  {
    EmittedSize(code[..ep], acc);
  }

  lemma WrittenStart(z: seq<nat>, code: seq<nat>)
    requires Pattern(z) && forall k :: 0 <= k < |code| ==> code[k] == 0
    ensures Progress(z, if z[0] == '^' as nat then 1 else 0, code, 0, -1, [])
  {
  }

  lemma ClassTooLong(z: seq<nat>, sp: nat, code: seq<nat>, ep: nat, lastep: int, acc: seq<Item>)
    requires Pattern(z) && Progress(z, sp, code, ep, lastep, acc) && z[sp] == '[' as nat
    ensures Parse(z).Good? ==> Size(Parse(z).items) >= ep + 17
  {
    EmittedSize(code[..ep], acc);
    var step := Next(z, sp, acc, lastep >= 0);
    if step.Go? {
      SizeAdd(acc, step.acc[|acc|]);
      assert step.acc == acc + [step.acc[|acc|]];
      if Parse(z).Good? {
        ParseGrows(z, step.i, step.acc, step.last);
      }
    }
  }

  lemma WrittenStop(z: seq<nat>, sp: nat, code: seq<nat>, ep: nat, lastep: int, acc: seq<Item>, p: Parsed)
    requires Pattern(z) && Progress(z, sp, code, ep, lastep, acc) && Next(z, sp, acc, lastep >= 0) == Stop(p)
    ensures Parse(z) == p
  {
  }

  /** One character of the pattern, with what belongs to it. */
  method Turn(astr: seq<nat>, sp0: nat, expbuf: array<nat>, ep0: nat, lastep0: int, ghost acc0: seq<Item>)
    returns (ok: bool, sp: nat, ep: nat, lastep: int, ghost acc: seq<Item>)
    requires Pattern(astr) && sp0 < |astr| && Progress(astr, sp0, expbuf[..], ep0, lastep0, acc0) && astr[sp0] != 0 && (lastep0 >= 0 ==> acc0 != [])
    requires Next(astr, sp0, acc0, lastep0 >= 0) != Stop(Overrun) && Next(astr, sp0, acc0, lastep0 >= 0) != Stop(Other)
    requires expbuf.Length == ESIZE + 1 && if astr[sp0] == '[' as nat then ep0 + 17 < ESIZE else ep0 < ESIZE
    modifies expbuf
    ensures ok ==> sp0 < sp < |astr| && Progress(astr, sp, expbuf[..], ep, lastep, acc)
    ensures ok ==> Next(astr, sp0, acc0, lastep0 >= 0) == Go(sp, acc, lastep >= 0)
    ensures !ok ==> Parse(astr) == Bad
  {
    hide Emitted, Progress, ParseFrom, Coded, Size, ClassFrom, Next, CodeOf, SetBit;
    ghost var code := expbuf[..];
    WrittenBounds(astr, sp0, code, ep0, lastep0, acc0);
    if astr[sp0] == '*' as nat && lastep0 >= 0 {
      WrittenStar(astr, sp0, code, ep0, lastep0, acc0);
      if expbuf[lastep0] != CBRA && expbuf[lastep0] != CKET && expbuf[lastep0] != CBRC && expbuf[lastep0] != CLET {
        ok, sp, ep, lastep, acc := true, sp0 + 1, ep0, lastep0, acc0[..|acc0| - 1] + [Closure(acc0[|acc0| - 1])];
        expbuf[lastep] := SetBit(expbuf[lastep], 0);
        assert expbuf[..] == code[lastep := SetBit(code[lastep], 0)];
        return;
      }
    }
    lastep := if astr[sp0] != '*' as nat then ep0 else lastep0;
    ghost var item;
    ok, sp, ep, item := PutItem(astr, sp0, expbuf, ep0, acc0, lastep0 >= 0);
    acc := acc0 + [item];
    if ok {
      WrittenItem(astr, sp0, code, ep0, lastep0, acc0, item, sp, expbuf[..], lastep >= 0);
    } else {
      WrittenStop(astr, sp0, code, ep0, lastep0, acc0, Bad);
    }
  }

  /** The code of one item. */
  method PutItem(astr: seq<nat>, sp0: nat, expbuf: array<nat>, ep0: nat, ghost acc: seq<Item>, ghost last: bool)
    returns (ok: bool, sp: nat, ep: nat, ghost item: Item)
    requires Pattern(astr) && sp0 < |astr| && astr[sp0] != 0 && (last ==> acc != []) && !(astr[sp0] == '*' as nat && last)
    requires Next(astr, sp0, acc, last) != Stop(Overrun) && Next(astr, sp0, acc, last) != Stop(Other)
    requires expbuf.Length == ESIZE + 1 && if astr[sp0] == '[' as nat then ep0 + 17 < ESIZE else ep0 < ESIZE
    requires forall k :: ep0 <= k < expbuf.Length ==> expbuf[k] == 0
    modifies expbuf
    ensures ok ==> Next(astr, sp0, acc, last) == Go(sp, acc + [item], astr[sp0] != '*' as nat)
    ensures ok ==> ep == ep0 + CodeSize(item) <= expbuf.Length && CodeOf(expbuf[ep0..ep], item)
    ensures ok ==> forall k :: 0 <= k < ep0 || ep <= k < expbuf.Length ==> expbuf[k] == old(expbuf[k])
    ensures ok && item.Eol? ==> sp < |astr| && astr[sp] == 0
    ensures !ok ==> Next(astr, sp0, acc, last) == Stop(Bad)
  {
    hide ClassFrom;
    ok, sp, ep, item := true, sp0 + 1, ep0, Eol;
    var c := astr[sp0];
    if c == '.' as nat {
      expbuf[ep] := CDOT;
      ep, item := ep + 1, One(Dot);
    } else if c == '$' as nat && astr[sp] == 0 {
      expbuf[ep] := CDOL;
      ep := ep + 1;
    } else if c == '[' as nat {
      NextClass(astr, sp0, acc, last);
      ok, sp, item := PutClass(astr, sp, expbuf, ep);
      ep := ep + 17;
    } else {
      if c == '\\' as nat {
        c := astr[sp];
        sp := sp + 1;
        if c == 0 {
          return false, sp, ep, item;
        }
      }
      expbuf[ep], expbuf[ep + 1] := CCHR, c;
      ep, item := ep + 2, One(Chr(c));
    }
  }

  lemma WrittenBounds(z: seq<nat>, sp: nat, code: seq<nat>, ep: nat, lastep: int, acc: seq<Item>)
    requires Pattern(z) && Progress(z, sp, code, ep, lastep, acc)
    ensures -1 <= lastep < ep && (lastep >= 0 ==> acc != [])
    ensures forall k :: ep <= k < |code| ==> code[k] == 0
  {
  }

  ghost predicate Finds(items: seq<Item>, circ: bool, line: seq<nat>) {
    if circ then Succeeds(items, line, 0) else exists i: nat :: i <= |line| && Succeeds(items, line, i)
  }

  lemma ShownFinds(circ: bool, items: seq<Item>, line: seq<nat>)
    requires Writable(items)
    ensures Spells(Written(circ, Show(items)), Pieces(items)) && Size(Items(Pieces(items))) == Size(items)
    ensures Finds(Items(Pieces(items)), circ, line) <==> Finds(items, circ, line)
  {
    hide Succeeds, Spells;
    ShowSpells(circ, items);
    SizeShown(items);
    forall i: nat ensures Succeeds(Items(Pieces(items)), line, i) <==> Succeeds(items, line, i) {
      ShowMeaning(items, line, i);
    }
  }

  /** A pattern compiled and tried on one line finds a match exactly when some stretch of the line matches what the
      pattern says; and so for the shown form of any items. */
  method GrepLine(astr: seq<nat>, linebuf: seq<nat>) returns (ok: bool, found: bool)
    requires Pattern(astr) && CString(linebuf) && Covered(astr)
    ensures ok ==> exists ps :: Spells(astr, ps)
    ensures forall ps :: Spells(astr, ps) ==>
              (ok <==> Size(Items(ps)) < ESIZE) && (ok ==> (found <==> Finds(Items(ps), astr[0] == '^' as nat, Line(linebuf))))
    ensures forall items :: Writable(items) && astr == Written(astr[0] == '^' as nat, Show(items)) ==>
              (ok <==> Size(items) < ESIZE) && (ok ==> (found <==> Finds(items, astr[0] == '^' as nat, Line(linebuf))))
  {
    hide Coded, Succeeds, Size, Parse, Spells, Writable, Show, Items, Pieces;
    var expbuf := new nat[ESIZE + 1](_ => 0);
    var circf;
    found := false;
    ParsedMeans(astr);
    ok, circf := Compile(astr, expbuf);
    if ok {
      found := SearchLine(linebuf, expbuf[..], circf, Parse(astr).items);
    }
    forall items | Writable(items) && astr == Written(astr[0] == '^' as nat, Show(items))
      ensures (ok <==> Size(items) < ESIZE) && (ok ==> (found <==> Finds(items, astr[0] == '^' as nat, Line(linebuf))))
    {
      ShownFinds(astr[0] == '^' as nat, items, Line(linebuf));
    }
  }
}
