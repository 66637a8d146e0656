/** The matcher of grep: advance, and the search of execute in one line (grep.c). */
module GrepMatch {
  import opened GrepRe

  /** A C string with its null. */
  predicate CString(z: seq<nat>) {
    z != [] && z[|z| - 1] == 0 && forall i :: 0 <= i < |z| - 1 ==> z[i] != 0
  }

  function Line(z: seq<nat>): seq<nat>
    requires z != []
  {
    z[..|z| - 1]
  }

  lemma StepOne(items: seq<Item>, s: seq<nat>, i: nat)
    requires items != [] && items[0].One?
    ensures Succeeds(items, s, i) <==> i < |s| && InAtom(items[0].a, s[i]) && Succeeds(items[1..], s, i + 1)
  {
    if Succeeds(items, s, i) {
      var j :| Matches(items, s, i, j);
      assert Matches(items[1..], s, i + 1, j);
    }
    if i < |s| && InAtom(items[0].a, s[i]) && Succeeds(items[1..], s, i + 1) {
      var j :| Matches(items[1..], s, i + 1, j);
      MatchesBounds(items[1..], s, i + 1, j);
      assert Matches(items, s, i, j);
    }
  }

  lemma MatchesBounds(items: seq<Item>, s: seq<nat>, i: nat, j: nat)
    requires Matches(items, s, i, j)
    ensures i <= j <= |s|
  {
  }

  lemma StepEol(items: seq<Item>, s: seq<nat>, i: nat)
    requires items != [] && items[0].Eol?
    ensures Succeeds(items, s, i) <==> i == |s| && Succeeds(items[1..], s, i)
  {
    if Succeeds(items, s, i) {
      var j :| Matches(items, s, i, j);
      assert Matches(items[1..], s, i, j);
    }
    if i == |s| && Succeeds(items[1..], s, i) {
      var j :| Matches(items[1..], s, i, j);
      assert Matches(items, s, i, j);
    }
  }

  /** Some number of repetitions between lo and hi leaves a rest that matches. */
  ghost predicate Tried(items: seq<Item>, s: seq<nat>, lo: nat, hi: int) {
    exists k: nat :: lo <= k <= hi && Succeeds(items, s, k)
  }

  /** The first m characters repeat the atom, and no more than these. */
  ghost predicate Longest(a: Atom, s: seq<nat>, i: nat, m: nat) {
    Repeats(a, s, i, m) && (m < |s| ==> !InAtom(a, s[m]))
  }

  lemma LongestRun(a: Atom, s: seq<nat>, i: nat, m: nat, k: nat)
    requires Longest(a, s, i, m) && Repeats(a, s, i, k)
    ensures k <= m
  {
  }

  lemma StepMany(items: seq<Item>, s: seq<nat>, i: nat, m: nat)
    requires items != [] && items[0].Many? && Longest(items[0].a, s, i, m)
    ensures Succeeds(items, s, i) <==> Tried(items[1..], s, i, m)
  {
    var a := items[0].a;
    if Succeeds(items, s, i) {
      var j :| Matches(items, s, i, j);
      var k: nat :| Repeats(a, s, i, k) && Matches(items[1..], s, k, j);
      LongestRun(a, s, i, m, k);
      assert Succeeds(items[1..], s, k);
    }
    if Tried(items[1..], s, i, m) {
      var k: nat :| i <= k <= m && Succeeds(items[1..], s, k);
      var j :| Matches(items[1..], s, k, j);
      MatchesBounds(items[1..], s, k, j);
      assert Repeats(a, s, i, k);
      assert Matches(items, s, i, j);
    }
  }

  // ---- what the code says about the first item ----

  predicate Starred(item: Item, star: bool) {
    if star then item.Many? else item.One?
  }

  function Op(op: nat, star: bool): nat { if star then op + STAR else op }

  lemma HeadChr(code: seq<nat>, ep: nat, items: seq<Item>, star: bool)
    requires Coded(code, ep, items) && ep < |code| && code[ep] == Op(CCHR, star)
    ensures items != [] && Starred(items[0], star) && ep + 1 < |code|
    ensures items[0].a == Chr(code[ep + 1]) && code[ep + 1] != 0 && Coded(code, ep + 2, items[1..])
  {
    if items != [] {
      var part := code[ep..ep + CodeSize(items[0])];
      assert part[0] == code[ep];
      assert items[0] != Eol && items[0].a.Chr? ==> part[1] == code[ep + 1];
    }
  }

  lemma HeadDot(code: seq<nat>, ep: nat, items: seq<Item>, star: bool)
    requires Coded(code, ep, items) && ep < |code| && code[ep] == Op(CDOT, star)
    ensures items != [] && Starred(items[0], star) && items[0].a == Dot && Coded(code, ep + 1, items[1..])
  {
    if items != [] {
      assert code[ep..ep + CodeSize(items[0])][0] == code[ep];
    }
  }

  lemma HeadClass(code: seq<nat>, ep: nat, items: seq<Item>, star: bool)
    requires Coded(code, ep, items) && ep < |code| && code[ep] == Op(CCL, star)
    ensures items != [] && Starred(items[0], star) && items[0].a.Class? && ep + 17 <= |code| && Coded(code, ep + 17, items[1..])
    ensures forall c: nat :: InMap(code[ep + 1..ep + 17], c % 128) <==> InAtom(items[0].a, c)
  {
    if items != [] {
      var part := code[ep..ep + CodeSize(items[0])];
      assert part[0] == code[ep];
      assert items[0] != Eol && items[0].a.Class? ==> part[1..] == code[ep + 1..ep + 17];
    }
  }

  /** The other operations. */
  lemma HeadOther(code: seq<nat>, ep: nat, items: seq<Item>)
    requires Coded(code, ep, items)
    ensures ep < |code|
    ensures code[ep] == CEOF <==> items == []
    ensures code[ep] == CDOL ==> items != [] && items[0] == Eol && Coded(code, ep + 1, items[1..])
    ensures code[ep] == CEOF || code[ep] == CDOL || exists op, star :: code[ep] == Op(op, star) && (op == CCHR || op == CDOT || op == CCL)
  {
    if items != [] {
      assert code[ep..ep + CodeSize(items[0])][0] == code[ep];
      match items[0]
      case Eol =>
      case One(a) => assert code[ep] == Op(if a.Chr? then CCHR else if a.Dot? then CDOT else CCL, false);
      case Many(a) => assert code[ep] == Op(if a.Chr? then CCHR else if a.Dot? then CDOT else CCL, true);
    }
  }

  /** The bit test on a character without its top bit. */
  method TestBit(expbuf: seq<nat>, ep: nat, ch: nat) returns (r: bool)
    requires ep + 16 <= |expbuf|
    ensures r == InMap(expbuf[ep..ep + 16], ch % 128)
  {
    var c := ch % 128;
    r := Bit(expbuf[ep + c / 8], c % 8);
  }

  method Advance(linebuf: seq<nat>, lp0: nat, expbuf: seq<nat>, ep0: nat, ghost items0: seq<Item>) returns (r: bool)
    requires CString(linebuf) && lp0 < |linebuf| && Coded(expbuf, ep0, items0)
    ensures r <==> Succeeds(items0, Line(linebuf), lp0)
    decreases |items0|, 0
  {
    hide Succeeds, Coded, Matches, InMap, Tried, InMembers;
    ghost var s := Line(linebuf);
    var lp: nat, ep: nat := lp0, ep0;
    ghost var items := items0;
    while true
      invariant lp < |linebuf| && Coded(expbuf, ep, items) && |items| <= |items0|
      invariant Succeeds(items0, s, lp0) <==> Succeeds(items, s, lp)
      decreases |items|
    {
      HeadOther(expbuf, ep, items);
      var op := expbuf[ep];
      if op == CEOF {
        SucceedsNone(s, lp);
        return true;
      } else if op == CDOL {
        StepEol(items, s, lp);
        if linebuf[lp] != 0 {
          return false;
        }
        ep := ep + 1;
      } else if op == CCHR {
        HeadChr(expbuf, ep, items, false);
        StepOne(items, s, lp);
        if expbuf[ep + 1] != linebuf[lp] {
          return false;
        }
        lp, ep := lp + 1, ep + 2;
      } else if op == CDOT {
        HeadDot(expbuf, ep, items, false);
        StepOne(items, s, lp);
        if linebuf[lp] == 0 {
          return false;
        }
        lp, ep := lp + 1, ep + 1;
      } else if op == CCL {
        HeadClass(expbuf, ep, items, false);
        StepOne(items, s, lp);
        var ok := TestBit(expbuf, ep + 1, linebuf[lp]);
        assert ok == InAtom(items[0].a, linebuf[lp]);
        if !ok {
          return false;
        }
        lp, ep := lp + 1, ep + 17;
      } else {
        var curlp := lp;
        lp, ep := Run(linebuf, curlp, expbuf, ep, items);
        StepMany(items, s, curlp, lp);
        if lp != curlp {
          r := Star(linebuf, curlp, lp, expbuf, ep, items[1..]);
          return;
        }
        TriedOne(items[1..], s, lp);
      }
      items := items[1..];
    }
  }

  /** The longest run for a starred operation; the position after it, and that of the next operation. */
  method Run(linebuf: seq<nat>, curlp: nat, expbuf: seq<nat>, ep0: nat, ghost items: seq<Item>) returns (lp: nat, ep: nat)
    requires CString(linebuf) && curlp < |linebuf| && Coded(expbuf, ep0, items) && ep0 < |expbuf|
    requires exists op :: expbuf[ep0] == Op(op, true) && (op == CCHR || op == CDOT || op == CCL)
    ensures items != [] && items[0].Many? && lp < |linebuf| && Longest(items[0].a, Line(linebuf), curlp, lp)
    ensures Coded(expbuf, ep, items[1..])
  {
    hide Coded, InMap, InMembers;
    ghost var s := Line(linebuf);
    lp, ep := curlp, ep0 + 1;
    if expbuf[ep0] == CDOT + STAR {
      HeadDot(expbuf, ep0, items, true);
      while linebuf[lp] != 0
        invariant curlp <= lp < |linebuf| && Repeats(Dot, s, curlp, lp)
        decreases |linebuf| - lp
      {
        lp := lp + 1;
      }
    } else if expbuf[ep0] == CCHR + STAR {
      HeadChr(expbuf, ep0, items, true);
      while linebuf[lp] == expbuf[ep]
        invariant curlp <= lp < |linebuf| && Repeats(Chr(expbuf[ep]), s, curlp, lp)
        decreases |linebuf| - lp
      {
        lp := lp + 1;
      }
      ep := ep + 1;
    } else {
      HeadClass(expbuf, ep0, items, true);
      var more := TestBit(expbuf, ep, linebuf[lp]);
      while more
        invariant curlp <= lp < |linebuf| && Repeats(items[0].a, s, curlp, lp) && more == InAtom(items[0].a, linebuf[lp])
        decreases |linebuf| - lp
      {
        lp := lp + 1;
        more := TestBit(expbuf, ep, linebuf[lp]);
      }
      ep := ep + 16;
    }
  }

  /** All lengths of the run are tried, the longest first. */
  method Star(linebuf: seq<nat>, curlp: nat, lp0: nat, expbuf: seq<nat>, ep: nat, ghost rest: seq<Item>) returns (r: bool)
    requires CString(linebuf) && curlp <= lp0 < |linebuf| && Coded(expbuf, ep, rest)
    ensures r <==> Tried(rest, Line(linebuf), curlp, lp0)
    decreases |rest|, 1
  {
    hide Succeeds, Coded, Matches, InMap, InMembers;
    ghost var s := Line(linebuf);
    HeadOther(expbuf, ep, rest);
    var lp := lp0 as int;
    if expbuf[ep] == CCHR {
      HeadChr(expbuf, ep, rest, false);
      var c := expbuf[ep + 1];
      while lp >= curlp
        invariant curlp - 1 <= lp <= lp0
        invariant !Tried(rest, s, lp + 1, lp0)
      {
        StepOne(rest, s, lp);
        if linebuf[lp] == c {
          r := Advance(linebuf, lp, expbuf, ep, rest);
          if r {
            return;
          }
        }
        lp := lp - 1;
      }
      return false;
    }
    while lp >= curlp
      invariant curlp - 1 <= lp <= lp0
      invariant !Tried(rest, s, lp + 1, lp0)
    {
      r := Advance(linebuf, lp, expbuf, ep, rest);
      if r {
        return;
      }
      lp := lp - 1;
    }
    return false;
  }

  lemma TriedOne(items: seq<Item>, s: seq<nat>, i: nat)
    ensures Tried(items, s, i, i) <==> Succeeds(items, s, i)
  {
  }

  lemma SucceedsNone(s: seq<nat>, i: nat)
    requires i <= |s|
    ensures Succeeds([], s, i)
  {
    assert Matches([], s, i, i);
  }

  /** The part of execute that looks at one line: from every start, or from the first when the pattern began with ^. */
  method SearchLine(linebuf: seq<nat>, expbuf: seq<nat>, circf: bool, ghost items: seq<Item>) returns (found: bool)
    requires CString(linebuf) && Coded(expbuf, 0, items)
    ensures found <==> if circf then Succeeds(items, Line(linebuf), 0) else Tried(items, Line(linebuf), 0, |Line(linebuf)|)
  {
    hide Succeeds, Coded, Matches, InMap, InMembers;
    ghost var s := Line(linebuf);
    var p1 := 0;
    if circf {
      found := Advance(linebuf, p1, expbuf, 0, items);
      return;
    }
    HeadOther(expbuf, 0, items);
    if expbuf[0] == CCHR {
      HeadChr(expbuf, 0, items, false);
      var c := expbuf[1];
      while p1 < |linebuf|
        invariant p1 <= |linebuf| && !Tried(items, s, 0, p1 - 1)
      {
        StepOne(items, s, p1);
        if linebuf[p1] == c {
          found := Advance(linebuf, p1, expbuf, 0, items);
          if found {
            return;
          }
        }
        p1 := p1 + 1;
      }
      return false;
    }
    while p1 < |linebuf|
      invariant p1 <= |linebuf| && !Tried(items, s, 0, p1 - 1)
    {
      found := Advance(linebuf, p1, expbuf, 0, items);
      if found {
        return;
      }
      p1 := p1 + 1;
    }
    return false;
  }
}
