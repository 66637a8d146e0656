/** The line store of the editor: putline, getline and getblock of ed.c, with the temporary file as a sequence of blocks. */
module EdStore {

  const BLOCK := 512
  const NL := 10

  function BlockNo(atl: nat): nat { atl / 256 % 256 }

  function Offset(atl: nat): (off: nat)
    ensures off < BLOCK
  {
    atl * 2 % BLOCK / 4 * 4
  }

  lemma BlockStart(b: nat)
    requires b < 256
    ensures BlockNo(256 * b) == b && Offset(256 * b) == 0
  {
  }

  /** The part of a buffer that one call of putline stores. */
  function Text(s: seq<int>): (t: seq<int>)
    ensures |t| <= |s| && t == s[..|t|] && 0 !in t && NL !in t
    ensures |t| < |s| ==> s[|t|] == 0 || s[|t|] == NL
  {
    if s == [] || s[0] == 0 || s[0] == NL then [] else [s[0]] + Text(s[1..])
  }

  /** Line l, with its final null, lies in the flat file at address a, which counts two bytes. */
  ghost predicate LineAt(flat: seq<int>, tline: nat, a: nat, l: seq<int>) {
    && a % 2 == 0 && |l| < BLOCK && 0 !in l
    && 2 * a + |l| + 1 <= 2 * tline && 2 * a + |l| < |flat|
    && flat[2 * a..2 * a + |l|] == l && flat[2 * a + |l|] == 0
  }

  /** flat' still has all that was written in front of position q. */
  ghost predicate Keeps(flat: seq<int>, flat': seq<int>, q: nat) {
    |flat| <= |flat'| && forall i :: 0 <= i < q && i < |flat| ==> flat'[i] == flat[i]
  }

  ghost predicate Holds(block: seq<int>, flat: seq<int>, b: nat) {
    |block| == BLOCK && BLOCK * b + BLOCK <= |flat| && flat[BLOCK * b..BLOCK * b + BLOCK] == block
  }

  lemma KeepsLine(flat: seq<int>, flat': seq<int>, q: nat, tline: nat, tline': nat, a: nat, l: seq<int>)
    requires LineAt(flat, tline, a, l) && 2 * tline <= q && Keeps(flat, flat', q) && tline <= tline'
    ensures LineAt(flat', tline', a, l)
  {
  }

  /** A byte written to the last block. */
  lemma Poke(flat: seq<int>, block: seq<int>, b: nat, o: nat, c: int)
    requires Holds(block, flat, b) && o < BLOCK
    ensures Holds(block[o := c], flat[BLOCK * b + o := c], b)
    ensures forall b': nat, blk :: b' < b && Holds(blk, flat, b') ==> Holds(blk, flat[BLOCK * b + o := c], b')
  {
  }

  lemma HoldsLonger(block: seq<int>, flat: seq<int>, more: seq<int>, b: nat)
    requires Holds(block, flat, b)
    ensures Holds(block, flat + more, b)
  {
    assert (flat + more)[BLOCK * b..BLOCK * b + BLOCK] == flat[BLOCK * b..BLOCK * b + BLOCK];
  }

  lemma HoldsNew(flat: seq<int>, block: seq<int>, b: nat)
    requires |flat| == BLOCK * b && |block| == BLOCK
    ensures Holds(block, flat + block, b)
  {
  }

  lemma HoldsBound(flat: seq<int>, block: seq<int>, b: nat)
    requires Holds(block, flat, b)
    ensures |block| == BLOCK && BLOCK * b + BLOCK <= |flat|
  {
  }

  lemma {:induction false} TextEnds(s: seq<int>)
    requires 0 in s || NL in s
    ensures |Text(s)| < |s|
  {
    if s[0] != 0 && s[0] != NL {
      TextEnds(s[1..]);
    }
  }

  lemma TextAt(s: seq<int>, i: nat)
    requires i <= |Text(s)| < |s|
    ensures i < |Text(s)| <==> s[i] != 0 && s[i] != NL
    ensures i < |Text(s)| ==> Text(s)[i] == s[i]
  {
  }

  class Store {
    var tfile: seq<seq<int>>
    const ibuff: array<int>
    const obuff: array<int>
    var iblock: int
    var oblock: int
    var ichanged: bool
    var tline: nat
    var nleft: nat
    var linebp: nat
    ghost var flat: seq<int>            // the file without buffers
    ghost var lines: map<nat, seq<int>> // what putline has stored

    ghost predicate Cached()
      reads this`tfile, this`iblock, this`oblock, this`ichanged, this`flat, ibuff, obuff
    {
      && ibuff.Length == obuff.Length == BLOCK && ibuff != obuff
      && -1 <= oblock < 255 && |tfile| == (if oblock < 0 then 0 else oblock) && |flat| == BLOCK * (oblock + 1)
      && (forall b :: 0 <= b < |tfile| ==> |tfile[b]| == BLOCK && ((ichanged && b == iblock) || Holds(tfile[b], flat, b)))
      && (oblock >= 0 ==> Holds(obuff[..], flat, oblock))
      && -1 <= iblock < |tfile| && (ichanged ==> iblock >= 0)
      && (iblock >= 0 ==> Holds(ibuff[..], flat, iblock))
    }

    ghost predicate Valid()
      reads this, ibuff, obuff
    {
      && Cached()
      && tline >= 2 && tline % 2 == 0
      && (if oblock < 0 then tline == 2 else BLOCK * oblock <= 2 * tline <= |flat|)
      && (forall a :: a in lines ==> LineAt(flat, tline, a, lines[a]))
    }

    constructor ()
      ensures Valid() && lines == map[] && fresh(ibuff) && fresh(obuff)
    {
      ibuff := new int[BLOCK];
      obuff := new int[BLOCK];
      tfile, iblock, oblock, ichanged, tline, nleft, linebp := [], -1, -1, false, 2, 0, 0;
      flat, lines := [], map[];
    }

    method BlkWrite(b: nat, buf: array<int>)
      requires buf.Length == BLOCK
      modifies this`tfile
      ensures b < |old(tfile)| ==> tfile == old(tfile)[b := buf[..]]
      ensures b == |old(tfile)| ==> tfile == old(tfile) + [buf[..]]
    {
      if b < |tfile| {
        tfile := tfile[b := buf[..]];
      } else {
        tfile := tfile + seq(b - |tfile|, _ => seq(BLOCK, _ => 0)) + [buf[..]];
      }
    }

    /** A read behind the end of the file fails. */
    method BlkRead(b: nat) returns (ok: bool)
      requires ibuff.Length == BLOCK && forall k :: 0 <= k < |tfile| ==> |tfile[k]| == BLOCK
      modifies ibuff
      ensures ok == (b < |tfile|)
      ensures ok ==> ibuff[..] == tfile[b]
    {
      ok := b < |tfile|;
      if ok {
        for i := 0 to BLOCK
          invariant ibuff[..i] == tfile[b][..i]
        {
          ibuff[i] := tfile[b][i];
        }
        assert ibuff[..] == ibuff[..BLOCK] && tfile[b] == tfile[b][..BLOCK];
      }
    }

    /** The buffer for an address, and the offset in it; false above the limit. */
    method GetBlock(atl: nat, iof: bool) returns (ok: bool, buf: array<int>, off: nat)
      requires Cached()
      requires BlockNo(atl) < 255 ==> if iof then oblock <= BlockNo(atl) <= oblock + 1 else BlockNo(atl) <= oblock
      modifies this`tfile, this`iblock, this`oblock, this`ichanged, this`nleft, this`flat, ibuff
      ensures Cached() && ok == (BlockNo(atl) < 255)
      ensures Keeps(old(flat), flat, |old(flat)|) && (!iof || !ok ==> flat == old(flat) && oblock == old(oblock))
      ensures ok ==> off == Offset(atl) && nleft == BLOCK - off && (buf == ibuff || buf == obuff)
      ensures ok ==> buf.Length == BLOCK && Holds(buf[..], flat, BlockNo(atl))
      ensures ok && iof ==> buf == obuff && oblock == BlockNo(atl)
    {
      hide Holds;
      var bno := BlockNo(atl);
      off := Offset(atl);
      if bno >= 255 {
        return false, obuff, off;
      }
      nleft := BLOCK - off;
      if bno == iblock {
        ichanged := ichanged || iof;
        return true, ibuff, off;
      }
      if bno == oblock {
        return true, obuff, off;
      }
      if !iof {
        ok := Fetch(bno);
        return ok, ibuff, off;
      }
      StartBlock(bno);
      return true, obuff, off;
    }

    /** Another block comes into the read buffer. */
    method Fetch(bno: nat) returns (ok: bool)
      requires Cached() && bno < oblock && bno != iblock
      modifies this`tfile, this`iblock, this`ichanged, ibuff
      ensures Cached() && ok && Holds(ibuff[..], flat, bno)
    {
      hide Holds;
      if ichanged {
        BlkWrite(iblock, ibuff);
      }
      ichanged := false;
      iblock := bno;
      ok := BlkRead(bno);
    }

    /** The write buffer goes to the file and is used for the next block, with its old contents. */
    method StartBlock(bno: nat)
      requires Cached() && bno == oblock + 1 < 255
      modifies this`tfile, this`oblock, this`flat
      ensures Cached() && Keeps(old(flat), flat, |old(flat)|)
      ensures oblock == bno && Holds(obuff[..], flat, bno)
    {
      hide Holds;
      if oblock >= 0 {
        BlkWrite(oblock, obuff);
      }
      oblock := bno;
      forall blk: seq<int>, b: nat | Holds(blk, flat, b) ensures Holds(blk, flat + obuff[..], b) {
        HoldsLonger(blk, flat, obuff[..], b);
      }
      HoldsNew(flat, obuff[..], bno);
      flat := flat + obuff[..];
    }

    /** One character goes to the last block. */
    method PutByte(bp: nat, c: int)
      requires Cached() && oblock >= 0 && bp < BLOCK
      modifies obuff, this`flat
      ensures Cached() && flat == old(flat)[BLOCK * oblock + bp := c]
    {
      hide Holds;
      Poke(flat, obuff[..], oblock, bp, c);
      HoldsBound(flat, obuff[..], oblock);
      ghost var block := obuff[..];
      obuff[bp] := c;
      assert obuff[..] == block[bp := c];
      flat := flat[BLOCK * oblock + bp := c];
    }

    /** The copying loop of putline, from offset bp of the last block on. */
    method PutText(linebuf: seq<int>, bp0: nat, ghost q: nat) returns (ok: bool, lp: nat)
      requires Cached() && oblock >= 0 && bp0 < BLOCK && nleft == BLOCK - bp0 && q == BLOCK * oblock + bp0 && tline / 256 == oblock
      requires |Text(linebuf)| < |linebuf| <= BLOCK
      modifies this`tfile, this`iblock, this`oblock, this`ichanged, this`nleft, this`flat, this`linebp, ibuff, obuff
      ensures Cached() && oblock >= old(oblock)
      ensures ok == ((q + |Text(linebuf)|) / BLOCK < 255)
      ensures Copied(old(flat), flat, q, Text(linebuf), if ok then |Text(linebuf)| else 0)
      ensures ok ==> lp == |Text(linebuf)| + 1 && BLOCK * oblock <= q + lp - 1 < |flat| && flat[q + lp - 1] == 0
      ensures ok && linebuf[|Text(linebuf)|] == NL ==> linebp == lp
      ensures !ok ==> BLOCK * oblock <= q
    {
      hide Cached, Copied, Keeps, Holds, Text, BlockNo, Offset;
      ghost var T := Text(linebuf);
      var bp: nat := bp0;
      var nl, tl := nleft, tline / 256 * 256;
      lp := 0;
      CopiedNone(flat, q, T);
      while true
        invariant lp <= |T| && bp < BLOCK && nl == BLOCK - bp
        invariant Cached() && old(oblock) <= oblock && q + lp == BLOCK * oblock + bp && tl == 256 * oblock
        invariant Copied(old(flat), flat, q, T, lp)
        decreases |linebuf| - lp
      {
        ghost var flat0 := flat;
        var c := linebuf[lp];
        FlatSize();
        PutByte(bp, c);
        TextAt(linebuf, lp);
        CopiedByte(old(flat), flat0, q, T, lp, c);
        lp := lp + 1;
        if c == 0 {
          break;
        }
        bp := bp + 1;
        if c == NL {
          bp := bp - 1;
          PutByte(bp, 0);
          CopiedTwice(old(flat), flat0, q, T, lp - 1, c);
          linebp := lp;
          break;
        }
        nl := nl - 1;
        if nl == 0 {
          var buf;
          tl := tl + 256;
          ghost var flat1 := flat;
          BlockStart(oblock + 1);
          ok, buf, bp := GetBlock(tl, true);
          CopiedMore(old(flat), flat1, flat, q, T, lp);
          if !ok {
            return;
          }
          nl := nleft;
        }
      }
      FlatSize();
      ok := true;
    }

    lemma FlatSize()
      requires Cached() && oblock >= 0
      ensures |flat| == BLOCK * (oblock + 1) && oblock < 255
    {
    }

    /** The text of the line is copied to where the last line ended. */
    method PutAll(linebuf: seq<int>) returns (ok: bool, lp: nat)
      requires Valid() && |Text(linebuf)| < |linebuf| <= BLOCK
      modifies this`tfile, this`iblock, this`oblock, this`ichanged, this`nleft, this`flat, this`linebp, ibuff, obuff
      ensures Cached() && oblock >= old(oblock) && ok == ((2 * tline + |Text(linebuf)|) / BLOCK < 255)
      ensures Keeps(old(flat), flat, 2 * tline)
      ensures ok ==> lp == |Text(linebuf)| + 1 && Copied(old(flat), flat, 2 * tline, Text(linebuf), lp - 1)
      ensures ok ==> oblock >= 0 && BLOCK * oblock < 2 * tline + lp <= |flat| && flat[2 * tline + lp - 1] == 0
      ensures ok && linebuf[|Text(linebuf)|] == NL ==> linebp == lp
      ensures !ok ==> if oblock < 0 then tline == 2 else BLOCK * oblock <= 2 * tline <= |flat|
    {
      hide Cached, Holds, LineAt, Keeps, Copied, Text, BlockNo, Offset;
      lp := 0;
      FlatSizes();
      ghost var flat0 := flat;
      WriteAddress(tline, oblock);
      var buf, bp;
      ok, buf, bp := GetBlock(tline, true);
      KeepsAll(flat0, flat, 2 * tline);
      if !ok {
        return;
      }
      ghost var flat1 := flat;
      ok, lp := PutText(linebuf, bp, 2 * tline);
      CopiedAfter(flat0, flat1, flat, 2 * tline, Text(linebuf), if ok then |Text(linebuf)| else 0);
      FlatSizes();
    }

    /** Everything up to a null or newline goes to the file; the address tells where. */
    method PutLine(linebuf: seq<int>) returns (ok: bool, nl: nat)
      requires Valid() && |linebuf| <= BLOCK && (0 in linebuf || NL in linebuf)
      modifies this, ibuff, obuff
      ensures Valid()
      ensures ok == ((2 * old(tline) + |Text(linebuf)|) / BLOCK < 255)
      ensures lines == if ok then old(lines)[old(tline) := Text(linebuf)] else old(lines)
      ensures ok ==> nl == old(tline) && nl !in old(lines)
      ensures ok && linebuf[|Text(linebuf)|] == NL ==> linebp == |Text(linebuf)| + 1
      ensures tline % 2 == 0 && if ok then |Text(linebuf)| < 2 * (tline - nl) < |Text(linebuf)| + 5 else tline == old(tline)
    {
      hide Cached, Holds, LineAt, Keeps, Copied, Text;
      TextEnds(linebuf);
      nl := tline;
      ghost var flat0 := flat;
      var lp;
      ok, lp := PutAll(linebuf);
      if !ok {
        KeepsLines(lines, flat0, flat, tline, tline);
        return;
      }
      FlatSizes();
      NextAddress(tline, lp, oblock);
      var next := tline + (lp + 3) / 2 / 2 * 2 % 0x8000;
      NewLine(flat0, flat, tline, Text(linebuf), next);
      KeepsLines(lines, flat0, flat, tline, next);
      tline := next;
      lines := lines[nl := Text(linebuf)];
    }

    lemma FlatSizes()
      requires Cached()
      ensures |flat| == BLOCK * (oblock + 1) && -1 <= oblock < 255
    {
    }

    /** The line that putline stored at an address; the lowest bit of the address does not count. */
    method GetLine(tl0: nat) returns (linebuf: seq<int>)
      requires Valid() && tl0 - tl0 % 2 in lines
      modifies this`tfile, this`iblock, this`oblock, this`ichanged, this`nleft, this`flat, ibuff
      ensures Valid() && lines == old(lines) && tline == old(tline)
      ensures linebuf == lines[tl0 - tl0 % 2] + [0]
    {
      hide Cached, Holds, Keeps, BlockNo, Offset, LineAt;
      ghost var a := tl0 - tl0 % 2;
      ghost var l := lines[a];
      LineSize(flat, tline, a, l);
      FlatSizes();
      ReadAddress(tl0, oblock);
      ghost var b := BlockNo(tl0);
      var tl := tl0 / 256 * 256;
      var ok, buf, bp := GetBlock(tl0, false);
      var nl := nleft;
      linebuf := [];
      while true
        invariant Cached() && flat == old(flat) && oblock == old(oblock)
        invariant 0 <= bp < BLOCK && nl == BLOCK - bp && tl == 256 * b && BLOCK * b + bp == 2 * a + |linebuf|
        invariant buf.Length == BLOCK && Holds(buf[..], flat, b)
        invariant |linebuf| <= |l| && linebuf == l[..|linebuf|]
        decreases |l| - |linebuf|
      {
        HoldsAt(buf[..], flat, b, bp);
        LineChar(flat, tline, a, l, |linebuf|);
        var c := buf[bp];
        linebuf := linebuf + [c];
        bp := bp + 1;
        if c == 0 {
          break;
        }
        nl := nl - 1;
        if nl == 0 {
          tl := tl + 256;
          b := b + 1;
          BlockStart(b);
          ok, buf, bp := GetBlock(tl, false);
          nl := nleft;
        }
      }
    }
  }

  lemma LineSize(flat: seq<int>, tline: nat, a: nat, l: seq<int>)
    requires LineAt(flat, tline, a, l)
    ensures |l| < BLOCK && 2 * a + |l| < |flat|
  {
  }

  lemma LineChar(flat: seq<int>, tline: nat, a: nat, l: seq<int>, i: nat)
    requires LineAt(flat, tline, a, l) && i <= |l| && 2 * a + i < |flat|
    ensures flat[2 * a + i] == if i < |l| then l[i] else 0
    ensures flat[2 * a + i] == 0 <==> i == |l|
  {
    if i < |l| {
      assert flat[2 * a + i] == flat[2 * a..2 * a + |l|][i];
    }
  }

  lemma HoldsAt(block: seq<int>, flat: seq<int>, b: nat, o: nat)
    requires Holds(block, flat, b) && o < BLOCK
    ensures |block| == BLOCK && BLOCK * b + o < |flat| && block[o] == flat[BLOCK * b + o]
  {
    assert block[o] == flat[BLOCK * b..BLOCK * b + BLOCK][o];
  }

  /** The block number and offset of an address made of a block and half an offset. */
  lemma Address(b: nat, r: nat)
    requires b < 256 && r < 256
    ensures BlockNo(256 * b + r) == b && Offset(256 * b + r) == 2 * (r - r % 2)
  {
    assert (256 * b + r) * 2 == BLOCK * b + 2 * r;
    assert (BLOCK * b + 2 * r) % BLOCK == 2 * r;
  }

  lemma WriteAddress(tline: nat, oblock: int)
    requires tline % 2 == 0 && -1 <= oblock < 255
    requires if oblock < 0 then tline == 2 else BLOCK * oblock <= 2 * tline <= BLOCK * (oblock + 1)
    ensures oblock <= BlockNo(tline) == tline / 256 <= oblock + 1
    ensures BLOCK * BlockNo(tline) + Offset(tline) == 2 * tline
  {
    hide BlockNo, Offset;
    var b, r := tline / 256, tline % 256;
    assert oblock >= 0 ==> 256 * oblock <= tline <= 256 * (oblock + 1);
    Address(b, r);
  }

  lemma ReadAddress(tl: nat, oblock: int)
    requires -1 <= oblock < 255 && 2 * (tl - tl % 2) < BLOCK * (oblock + 1)
    ensures BlockNo(tl) == tl / 256 <= oblock
    ensures BLOCK * BlockNo(tl) + Offset(tl) == 2 * (tl - tl % 2)
  {
    hide BlockNo, Offset;
    var b, r := tl / 256, tl % 256;
    Address(b, r);
  }

  lemma NextAddress(tline: nat, lp: nat, oblock: nat)
    requires tline % 2 == 0 && lp <= BLOCK && 2 * tline + lp <= BLOCK * (oblock + 1)
    ensures var next := tline + (lp + 3) / 2 / 2 * 2 % 0x8000;
            next % 2 == 0 && 2 * tline + lp <= 2 * next <= BLOCK * (oblock + 1) && 2 * next < 2 * tline + lp + 4
  {
  }

  lemma KeepsAll(flat: seq<int>, flat': seq<int>, q: nat)
    requires Keeps(flat, flat', |flat|)
    ensures Keeps(flat, flat', q)
  {
  }

  lemma KeepsLines(lines: map<nat, seq<int>>, flat: seq<int>, flat': seq<int>, tline: nat, tline': nat)
    requires forall a :: a in lines ==> LineAt(flat, tline, a, lines[a])
    requires Keeps(flat, flat', 2 * tline) && tline <= tline'
    ensures forall a :: a in lines ==> LineAt(flat', tline', a, lines[a])
    ensures tline !in lines
  {
    forall a | a in lines ensures LineAt(flat', tline', a, lines[a]) {
      KeepsLine(flat, flat', 2 * tline, tline, tline', a, lines[a]);
    }
  }

  lemma NewLine(flat: seq<int>, flat': seq<int>, tline: nat, text: seq<int>, tline': nat)
    requires Copied(flat, flat', 2 * tline, text, |text|) && tline % 2 == 0 && |text| < BLOCK && 0 !in text
    requires 2 * tline + |text| < |flat'| && flat'[2 * tline + |text|] == 0 && 2 * tline + |text| + 1 <= 2 * tline'
    ensures LineAt(flat', tline', tline, text)
  {
  }

  lemma CopiedAfter(flat: seq<int>, flat': seq<int>, flat'': seq<int>, q: nat, text: seq<int>, n: nat)
    requires Keeps(flat, flat', q) && Copied(flat', flat'', q, text, n)
    ensures Copied(flat, flat'', q, text, n) && Keeps(flat, flat'', q)
  {
  }

  /** The first n characters of text have been copied to position q of the flat file. */
  ghost predicate Copied(flat: seq<int>, flat': seq<int>, q: nat, text: seq<int>, n: nat) {
    && Keeps(flat, flat', q) && n <= |text| && (n > 0 ==> q + n <= |flat'| && flat'[q..q + n] == text[..n])
  }

  lemma CopiedNone(flat: seq<int>, q: nat, text: seq<int>)
    ensures Copied(flat, flat, q, text, 0)
  {
  }

  /** The next byte: a character of the text, or whatever follows it. */
  lemma CopiedByte(flat: seq<int>, flat': seq<int>, q: nat, text: seq<int>, n: nat, c: int)
    requires Copied(flat, flat', q, text, n) && q + n < |flat'|
    ensures Copied(flat, flat'[q + n := c], q, text, if n < |text| && c == text[n] then n + 1 else n)
  {
    var f := flat'[q + n := c];
    assert n > 0 ==> f[q..q + n] == flat'[q..q + n];
    if n < |text| && c == text[n] {
      assert f[q..q + n + 1] == f[q..q + n] + [c];
      assert text[..n + 1] == text[..n] + [c];
    }
  }

  lemma CopiedTwice(flat: seq<int>, flat': seq<int>, q: nat, text: seq<int>, n: nat, c: int)
    requires Copied(flat, flat', q, text, n) && q + n < |flat'| && n == |text|
    ensures Copied(flat, flat'[q + n := c][q + n := 0], q, text, n)
  {
    CopiedByte(flat, flat', q, text, n, 0);
    assert flat'[q + n := c][q + n := 0] == flat'[q + n := 0];
  }

  lemma CopiedMore(flat: seq<int>, flat': seq<int>, flat'': seq<int>, q: nat, text: seq<int>, n: nat)
    requires Copied(flat, flat', q, text, n) && Keeps(flat', flat'', |flat'|)
    ensures Copied(flat, flat'', q, text, n) && Copied(flat, flat'', q, text, 0)
  {
    assert n > 0 ==> flat''[q..q + n] == flat'[q..q + n];
  }
}
