/** How grep reads its patterns: the cases of compile in grep.c, and that they read exactly the patterns of GrepText. */
module GrepParse {
  import opened GrepRe
  import opened GrepMatch
  import opened GrepText

  // ---- how a pattern is read ----

  /** Overrun: the pattern ends inside a range, where the program reads on behind its end. */
  datatype Parsed = Good(items: seq<Item>) | Bad | Overrun | Other

  datatype ClassParse = ClassOk(members: seq<Member>, next: nat) | ClassBad | ClassOverrun

  predicate Pattern(z: seq<nat>) {
    CString(z) && forall i :: 0 <= i < |z| ==> z[i] < 128
  }

  predicate NoNull(ms: seq<Member>) {
    forall k :: 0 <= k < |ms| ==> !InMember(ms[k], 0)
  }

  /** The members of a bracket class from position i on, up to and past its end. */
  function ClassFrom(z: seq<nat>, i: nat, first: bool): (r: ClassParse)
    requires Pattern(z) && i < |z| && (!first ==> i > 0)
    ensures r.ClassOk? ==> i < r.next < |z| && NoNull(r.members)
    decreases |z| - i, 1
  {
    if z[i] == 0 then ClassBad
    else if z[i] == '-' as nat && !first && z[i + 1] != ']' as nat then
      if z[i + 1] == 0 then ClassOverrun else ClassMore(z, i + 2, Range(z[i - 1], z[i + 1]))
    else ClassMore(z, i + 1, Single(z[i]))
  }

  function ClassMore(z: seq<nat>, n: nat, m: Member): (r: ClassParse)
    requires Pattern(z) && 0 < n < |z|
    ensures r.ClassOk? && !InMember(m, 0) ==> n < r.next < |z| && NoNull(r.members)
    decreases |z| - n, 2
  {
    if z[n] == ']' as nat then ClassOk([m], n + 1) else Prepend([m], ClassFrom(z, n, false))
  }

  function Prepend(ms: seq<Member>, p: ClassParse): ClassParse {
    match p
    case ClassOk(more, next) => ClassOk(ms + more, next)
    case _ => p
  }

  function Closure(item: Item): Item {
    match item
    case One(a) => Many(a)
    case _ => item
  }

  datatype Step = Stop(result: Parsed) | Go(i: nat, acc: seq<Item>, last: bool)

  /** One turn of the compiler; a star belongs to the item before it, if there is one. */
  function Next(z: seq<nat>, i: nat, acc: seq<Item>, last: bool): (r: Step)
    requires Pattern(z) && i < |z| && (last ==> acc != [])
    ensures r.Go? ==> i < r.i < |z| && (r.last ==> r.acc != [])
  {
    var c := z[i];
    if c == 0 then Stop(Good(acc))
    else if c == '.' as nat then Go(i + 1, acc + [One(Dot)], true)
    else if c == '*' as nat then
      if last then Go(i + 1, acc[..|acc| - 1] + [Closure(acc[|acc| - 1])], true)
      else Go(i + 1, acc + [One(Chr(c))], false)
    else if c == '$' as nat && z[i + 1] == 0 then Go(i + 1, acc + [Eol], true)
    else if c == '[' as nat then
      var neg := z[i + 1] == '^' as nat;
      (match ClassFrom(z, if neg then i + 2 else i + 1, true)
       case ClassOk(ms, next) => Go(next, acc + [One(Class(neg, ms))], true)
       case ClassBad => Stop(Bad)
       case ClassOverrun => Stop(Overrun))
    else if c == '\\' as nat then
      if z[i + 1] == 0 then Stop(Bad)
      else if Special(z[i + 1]) then Stop(Other)
      else Go(i + 2, acc + [One(Chr(z[i + 1]))], true)
    else Go(i + 1, acc + [One(Chr(c))], true)
  }

  function ParseFrom(z: seq<nat>, i: nat, acc: seq<Item>, last: bool): Parsed
    requires Pattern(z) && i < |z| && (last ==> acc != [])
    decreases |z| - i
  {
    match Next(z, i, acc, last)
    case Stop(p) => p
    case Go(j, acc', last') => ParseFrom(z, j, acc', last')
  }

  /** A leading ^ ties the pattern to the start of the line. */
  function Parse(z: seq<nat>): Parsed
    requires Pattern(z)
  {
    ParseFrom(z, if z[0] == '^' as nat then 1 else 0, [], false)
  }

  function Size(items: seq<Item>): nat {
    if items == [] then 0 else Size(items[..|items| - 1]) + CodeSize(items[|items| - 1])
  }

  /** The buffer has no room for more, or not for a class. */
  predicate FullAt(z: seq<nat>, i: nat, size: nat)
    requires i < |z|
  {
    size >= ESIZE || (z[i] == '[' as nat && size + 17 >= ESIZE)
  }

  /** The buffer gets full before the compiler has read all that ParseFrom reads. */
  predicate Fills(z: seq<nat>, i: nat, acc: seq<Item>, last: bool)
    requires Pattern(z) && i < |z| && (last ==> acc != [])
    decreases |z| - i
  {
    FullAt(z, i, Size(acc)) ||
    match Next(z, i, acc, last)
    case Stop(p) => false
    case Go(j, acc', last') => Fills(z, j, acc', last')
  }

  predicate LeftOut(p: Parsed) {
    p == Overrun || p == Other
  }

  /** The compiler stops before it gets to a part of the pattern that is left out here. */
  predicate Covered(z: seq<nat>)
    requires Pattern(z)
  {
    LeftOut(Parse(z)) ==> Fills(z, if z[0] == '^' as nat then 1 else 0, [], false)
  }

  lemma SizeAdd(acc: seq<Item>, item: Item)
    ensures Size(acc + [item]) == Size(acc) + CodeSize(item)
  {
    assert (acc + [item])[..|acc|] == acc;
  }

  lemma NextGrows(z: seq<nat>, i: nat, acc: seq<Item>, last: bool)
    requires Pattern(z) && i < |z| && (last ==> acc != []) && Next(z, i, acc, last).Go?
    ensures Size(Next(z, i, acc, last).acc) >= Size(acc)
  {
    var acc' := Next(z, i, acc, last).acc;
    if |acc'| == |acc| {
      SizeAdd(acc[..|acc| - 1], Closure(acc[|acc| - 1]));
    } else {
      SizeAdd(acc, acc'[|acc|]);
    }
  }

  /** What has been read stays. */
  lemma {:induction false} ParseGrows(z: seq<nat>, i: nat, acc: seq<Item>, last: bool)
    requires Pattern(z) && i < |z| && (last ==> acc != []) && ParseFrom(z, i, acc, last).Good?
    ensures Size(ParseFrom(z, i, acc, last).items) >= Size(acc)
    decreases |z| - i
  {
    var step := Next(z, i, acc, last);
    if step.Go? {
      NextGrows(z, i, acc, last);
      ParseGrows(z, step.i, step.acc, step.last);
    }
  }

  // ---- bracket classes read what is written ----

  ghost predicate At(z: seq<nat>, i: nat, t: seq<nat>) {
    i + |t| <= |z| && z[i..i + |t|] == t
  }

  lemma AtJoin(z: seq<nat>, i: nat, a: seq<nat>, b: seq<nat>)
    ensures At(z, i, a + b) <==> At(z, i, a) && At(z, i + |a|, b)
  {
    if i + |a| + |b| <= |z| {
      assert z[i..i + |a| + |b|] == z[i..i + |a|] + z[i + |a|..i + |a| + |b|];
      assert z[i..i + |a| + |b|][..|a|] == z[i..i + |a|];
      assert z[i..i + |a| + |b|][|a|..] == z[i + |a|..i + |a| + |b|];
    }
  }

  lemma MembersTail(ms: seq<Member>, first: bool, prev: nat)
    requires MembersSpelt(ms, first, prev) && |ms| > 1
    ensures MembersSpelt(ms[1..], false, EndOf(ms[0])) && MembersText(ms[1..]) != [] && MembersText(ms[1..])[0] != ']' as nat
  {
    forall k | 0 <= k < |ms[1..]| ensures SpeltAt(ms[1..], k, false, true, EndOf(ms[0])) {
      assert SpeltAt(ms, k + 1, first, true, prev);
    }
    assert SpeltAt(ms[1..], 0, false, true, EndOf(ms[0]));
  }

  lemma MemberRead(z: seq<nat>, i: nat, first: bool, m: Member, final: bool)
    requires Pattern(z) && i < |z| && (!first ==> i > 0) && At(z, i, MemberText(m)) && i + |MemberText(m)| < |z|
    requires MemberSpelt(m, first, final, if first then 0 else z[i - 1])
    requires final <==> z[i + |MemberText(m)|] == ']' as nat
    ensures ClassFrom(z, i, first) == ClassMore(z, i + |MemberText(m)|, m)
    ensures z[i + |MemberText(m)| - 1] == EndOf(m)
  {
    assert z[i] == MemberText(m)[0];
    if m.Range? {
      assert z[i + 1] == MemberText(m)[1];
    }
  }

  /** A class that is well spelt is read as it was written. */
  lemma {:induction false} ClassReads(z: seq<nat>, i: nat, first: bool, ms: seq<Member>)
    requires Pattern(z) && i < |z| && (!first ==> i > 0) && At(z, i, MembersText(ms) + [']' as nat])
    requires MembersSpelt(ms, first, if first then 0 else z[i - 1])
    ensures ClassFrom(z, i, first) == ClassOk(ms, i + |MembersText(ms)| + 1)
    decreases |ms|
  {
    hide ClassFrom, At;
    var m, rest := ms[0], ms[1..];
    assert SpeltAt(ms, 0, first, true, if first then 0 else z[i - 1]);
    assert MembersText(ms) + [']' as nat] == MemberText(m) + (MembersText(rest) + [']' as nat]);
    AtJoin(z, i, MemberText(m), MembersText(rest) + [']' as nat]);
    var n := i + |MemberText(m)|;
    AtHead(z, n, MembersText(rest) + [']' as nat]);
    if |ms| > 1 {
      MembersTail(ms, first, if first then 0 else z[i - 1]);
    }
    MemberRead(z, i, first, m, |ms| == 1);
    if |ms| > 1 {
      ClassReads(z, n, false, rest);
      assert [m] + rest == ms;
    } else {
      assert [m] == ms;
    }
  }

  lemma AtHead(z: seq<nat>, i: nat, t: seq<nat>)
    requires At(z, i, t) && t != []
    ensures i < |z| && z[i] == t[0]
  {
    assert z[i] == z[i..i + |t|][0];
  }

  /** One member, as it was read. */
  lemma MemberWasSpelt(z: seq<nat>, i: nat, first: bool) returns (m: Member, n: nat)
    requires Pattern(z) && i < |z| && (!first ==> i > 0) && ClassFrom(z, i, first).ClassOk?
    requires !first ==> z[i] != ']' as nat
    ensures i < n < |z| && ClassFrom(z, i, first) == ClassMore(z, n, m)
    ensures At(z, i, MemberText(m)) && n == i + |MemberText(m)| && z[n - 1] == EndOf(m)
    ensures MemberSpelt(m, first, z[n] == ']' as nat, if first then 0 else z[i - 1])
  {
    if z[i] == '-' as nat && !first && z[i + 1] != ']' as nat {
      m, n := Range(z[i - 1], z[i + 1]), i + 2;
      assert z[i..i + 2] == [z[i], z[i + 1]];
    } else {
      m, n := Single(z[i]), i + 1;
      assert z[i..i + 1] == [z[i]];
    }
  }

  lemma ClassMoreIs(z: seq<nat>, n: nat, m: Member)
    requires Pattern(z) && 0 < n < |z| && ClassMore(z, n, m).ClassOk?
    ensures z[n] == ']' as nat ==> ClassMore(z, n, m) == ClassOk([m], n + 1) && At(z, n, [']' as nat])
    ensures z[n] != ']' as nat ==> ClassFrom(z, n, false).ClassOk?
    ensures z[n] != ']' as nat ==>
              ClassMore(z, n, m) == ClassOk([m] + ClassFrom(z, n, false).members, ClassFrom(z, n, false).next)
  {
    if z[n] == ']' as nat {
      assert z[n..n + 1] == [']' as nat];
    }
  }

  /** What is read as a class was well spelt. */
  lemma {:induction false} ClassWasSpelt(z: seq<nat>, i: nat, first: bool)
    requires Pattern(z) && i < |z| && (!first ==> i > 0) && ClassFrom(z, i, first).ClassOk?
    requires !first ==> z[i] != ']' as nat
    ensures var ms, next := ClassFrom(z, i, first).members, ClassFrom(z, i, first).next;
            && MembersSpelt(ms, first, if first then 0 else z[i - 1])
            && At(z, i, MembersText(ms) + [']' as nat]) && next == i + |MembersText(ms)| + 1
    decreases |z| - i
  {
    hide ClassFrom, ClassMore, At, MembersSpelt, MembersText;
    var m, n := MemberWasSpelt(z, i, first);
    ClassMoreIs(z, n, m);
    var rest := if z[n] == ']' as nat then [] else ClassFrom(z, n, false).members;
    if z[n] != ']' as nat {
      ClassWasSpelt(z, n, false);
    } else {
      NoText();
      assert MembersText(rest) + [']' as nat] == [']' as nat];
    }
    TextCons(m, rest);
    assert [m] + rest == ClassFrom(z, i, first).members;
    assert MembersText([m] + rest) + [']' as nat] == MemberText(m) + (MembersText(rest) + [']' as nat]);
    AtJoin(z, i, MemberText(m), MembersText(rest) + [']' as nat]);
    SpeltJoin([m], rest, first, rest == [], if first then 0 else z[i - 1]);
  }

  // ---- items read what is written ----

  lemma CharAt(z: seq<nat>, i: nat, c: nat)
    requires i < |z| && z[i] == c
    ensures At(z, i, [c])
  {
    assert z[i..i + 1] == [c];
  }

  /** The text of a piece without its stars. */
  function HeadText(p: Piece): (t: seq<nat>)
    ensures |t| > 0
  {
    match p.item
    case One(a) => AtomText(a, p.escaped)
    case Many(a) => AtomText(a, p.escaped)
    case Eol => ['$' as nat]
  }

  lemma PieceParts(p: Piece)
    requires PieceSpelt(p)
    ensures PieceText(p) == HeadText(p) + Stars(p.stars)
    ensures PieceSpelt(p) ==> PieceText(p) != []
  {
  }

  function Once(item: Item): Item {
    match item
    case Many(a) => One(a)
    case _ => item
  }

  /** Where a piece stands that is read as it was written: what its text needs of its surroundings. */
  predicate Fits(z: seq<nat>, n: nat, p: Piece, last: bool) {
    && n < |z| && (Bare(p, '*') ==> !last)
    && (p.item.Eol? ==> z[n] == 0) && (Bare(p, '$') ==> z[n] != 0)
  }

  lemma HeadRead(z: seq<nat>, i: nat, acc: seq<Item>, last: bool, p: Piece)
    requires Pattern(z) && i < |z| && (last ==> acc != []) && PieceSpelt(p)
    requires At(z, i, HeadText(p)) && Fits(z, i + |HeadText(p)|, p, last)
    ensures Next(z, i, acc, last) == Go(i + |HeadText(p)|, acc + [Once(p.item)], !Bare(p, '*'))
  {
    hide ClassFrom, MembersText, MembersSpelt;
    AtHead(z, i, HeadText(p));
    if p.item.Eol? {
    } else if p.item.a.Class? {
      ClassHeadRead(z, i, p.item.a.neg, p.item.a.members);
    } else if p.escaped {
      assert z[i + 1] == HeadText(p)[1];
    }
  }

  lemma ClassHeadRead(z: seq<nat>, i: nat, neg: bool, ms: seq<Member>)
    requires Pattern(z) && i < |z| && AtomSpelt(Class(neg, ms), false) && At(z, i, AtomText(Class(neg, ms), false))
    ensures i + 1 < |z| && z[i] == '[' as nat && (neg <==> z[i + 1] == '^' as nat)
    ensures neg ==> i + 2 < |z|
    ensures ClassFrom(z, if neg then i + 2 else i + 1, true) == ClassOk(ms, i + |AtomText(Class(neg, ms), false)|)
  {
    hide ClassFrom, MembersSpelt;
    var n := if neg then i + 2 else i + 1;
    var front := ['['as nat] + if neg then ['^' as nat] else [];
    assert AtomText(Class(neg, ms), false) == front + (MembersText(ms) + [']' as nat]);
    AtJoin(z, i, front, MembersText(ms) + [']' as nat]);
    AtHead(z, i, front);
    AtHead(z, n, MembersText(ms) + [']' as nat]);
    MembersStart(ms);
    if neg {
      assert z[i + 1] == z[i..i + 2][1];
    }
    ClassReads(z, n, true, ms);
  }

  lemma MembersStart(ms: seq<Member>)
    requires MembersSpelt(ms, true, 0)
    ensures MembersText(ms) != []
  {
    assert SpeltAt(ms, 0, true, true, 0);
  }

  function Closed(acc: seq<Item>, n: nat): seq<Item>
    requires n > 0 ==> acc != []
  {
    if n == 0 then acc else acc[..|acc| - 1] + [Closure(acc[|acc| - 1])]
  }

  lemma StarsOne(n: nat)
    ensures Stars(n + 1) == ['*' as nat] + Stars(n)
  {
  }

  lemma {:induction false} StarsRead(z: seq<nat>, i: nat, acc: seq<Item>, n: nat)
    requires Pattern(z) && acc != [] && At(z, i, Stars(n)) && i + n < |z|
    ensures ParseFrom(z, i, acc, true) == ParseFrom(z, i + n, Closed(acc, n), true)
    decreases n
  {
    if n > 0 {
      StarsOne(n - 1);
      AtJoin(z, i, ['*' as nat], Stars(n - 1));
      AtHead(z, i, ['*' as nat]);
      StarsRead(z, i + 1, Closed(acc, 1), n - 1);
    }
  }

  lemma SpeltRest(ps: seq<Piece>, last: bool)
    requires Spelt(ps, last) && ps != []
    ensures PieceSpelt(ps[0]) && Spelt(ps[1..], !Bare(ps[0], '*'))
    ensures Bare(ps[0], '*') ==> !last && ps[0].stars == 0
    ensures ps[0].item.Eol? ==> |ps| == 1 && ps[0].stars == 0
    ensures Bare(ps[0], '$') ==> |ps| > 1 || ps[0].stars > 0
    ensures |ps| > 1 ==> PieceSpelt(ps[1])
  {
    hide AtomSpelt;
    var rest := ps[1..];
    if rest != [] && !Bare(ps[0], '*') {
      assert !Bare(rest[0], '*') by {
        assert rest[0] == ps[1];
      }
    }
    forall j, k | 0 <= j < k < |rest| && Bare(rest[k], '*') ensures Bare(rest[j], '*') {
      assert Bare(ps[k + 1], '*');
    }
  }

  /** One piece is read, stars and all. */
  lemma PieceRead(z: seq<nat>, i: nat, acc: seq<Item>, last: bool, p: Piece)
    requires Pattern(z) && i < |z| && (last ==> acc != []) && PieceSpelt(p) && At(z, i, PieceText(p))
    requires i + |PieceText(p)| < |z| && Fits(z, i + |HeadText(p)|, p, last)
    ensures ParseFrom(z, i, acc, last) == ParseFrom(z, i + |PieceText(p)|, acc + [p.item], !Bare(p, '*'))
  {
    hide HeadText, PieceText, Bare, Next, At, PieceSpelt, Stars, Fits;
    var n, acc' := i + |HeadText(p)|, acc + [Once(p.item)];
    PieceParts(p);
    StarsAre(p);
    AtJoin(z, i, HeadText(p), Stars(p.stars));
    HeadRead(z, i, acc, last, p);
    if p.stars > 0 {
      StarsRead(z, n, acc', p.stars);
    }
  }

  /** The pieces that stand at i up to the end are read as they were written. */
  lemma {:induction false} Reads(z: seq<nat>, i: nat, acc: seq<Item>, last: bool, ps: seq<Piece>)
    requires Pattern(z) && (last ==> acc != []) && Spelt(ps, last)
    requires At(z, i, Text(ps) + [0]) && i + |Text(ps)| + 1 == |z|
    ensures ParseFrom(z, i, acc, last) == Good(acc + Items(ps))
    decreases |ps|
  {
    hide Spelt, PieceText, HeadText, Bare, Next, At, PieceSpelt, Fits;
    if ps == [] {
      AtHead(z, i, Text(ps) + [0]);
      NextEnd(z, i, acc, last);
    } else {
      var p, rest := ps[0], ps[1..];
      SpeltRest(ps, last);
      assert Text(ps) + [0] == PieceText(p) + (Text(rest) + [0]);
      AtJoin(z, i, PieceText(p), Text(rest) + [0]);
      PieceFits(z, i + |HeadText(p)|, p, last, rest);
      PieceRead(z, i, acc, last, p);
      Reads(z, i + |PieceText(p)|, acc + [p.item], !Bare(p, '*'), rest);
      assert acc + [p.item] + Items(rest) == acc + Items(ps);
    }
  }

  lemma NextEnd(z: seq<nat>, i: nat, acc: seq<Item>, last: bool)
    requires Pattern(z) && i < |z| && (last ==> acc != []) && z[i] == 0
    ensures Next(z, i, acc, last) == Stop(Good(acc))
  {
  }

  lemma StarsAre(p: Piece)
    requires PieceSpelt(p)
    ensures |Stars(p.stars)| == p.stars && (p.stars > 0 ==> !Bare(p, '*'))
    ensures p.item == if p.stars > 0 then Closure(Once(p.item)) else Once(p.item)
  {
  }

  lemma PieceFits(z: seq<nat>, n: nat, p: Piece, last: bool, rest: seq<Piece>)
    requires Pattern(z) && PieceSpelt(p) && (Bare(p, '*') ==> !last) && n - |HeadText(p)| + |PieceText(p)| + |Text(rest)| + 1 == |z|
    requires p.item.Eol? ==> rest == [] && p.stars == 0
    requires Bare(p, '$') ==> rest != [] || p.stars > 0
    requires rest != [] ==> PieceSpelt(rest[0])
    ensures Fits(z, n, p, last)
  {
    hide PieceSpelt, Bare, PieceText, HeadText;
    PieceParts(p);
    if rest != [] {
      PieceParts(rest[0]);
    }
  }

  // ---- what is read was written so ----

  /** The piece, without stars, that one turn reads. */
  lemma HeadWasSpelt(z: seq<nat>, i: nat, acc: seq<Item>, last: bool) returns (p: Piece)
    requires Pattern(z) && i < |z| && (last ==> acc != []) && Next(z, i, acc, last).Go? && !(z[i] == '*' as nat && last)
    ensures PieceSpelt(p) && p.stars == 0 && At(z, i, HeadText(p)) && Fits(z, i + |HeadText(p)|, p, last)
    ensures Next(z, i, acc, last) == Go(i + |HeadText(p)|, acc + [p.item], !Bare(p, '*'))
  {
    hide ClassFrom, MembersSpelt, MembersText;
    if z[i] == '[' as nat {
      p := ClassHeadWasSpelt(z, i, acc, last);
    } else if z[i] == '\\' as nat {
      p := Piece(One(Chr(z[i + 1])), true, 0);
      assert z[i..i + 2] == [z[i], z[i + 1]];
    } else {
      p := Piece(if z[i] == '.' as nat then One(Dot) else if z[i] == '$' as nat && z[i + 1] == 0 then Eol else One(Chr(z[i])), false, 0);
      CharAt(z, i, z[i]);
    }
  }

  lemma ClassHeadWasSpelt(z: seq<nat>, i: nat, acc: seq<Item>, last: bool) returns (p: Piece)
    requires Pattern(z) && i < |z| && (last ==> acc != []) && Next(z, i, acc, last).Go? && z[i] == '[' as nat
    ensures PieceSpelt(p) && p.stars == 0 && At(z, i, HeadText(p)) && Fits(z, i + |HeadText(p)|, p, last)
    ensures Next(z, i, acc, last) == Go(i + |HeadText(p)|, acc + [p.item], !Bare(p, '*'))
  {
    hide ClassFrom, MembersSpelt, MembersText, AtomSpelt, AtomText, At;
    var neg := z[i + 1] == '^' as nat;
    var ms := ClassFrom(z, if neg then i + 2 else i + 1, true).members;
    BracketWasSpelt(z, i, neg);
    p := Piece(One(Class(neg, ms)), false, 0);
  }

  lemma BracketWasSpelt(z: seq<nat>, i: nat, neg: bool)
    requires Pattern(z) && i + 1 < |z| && z[i] == '[' as nat && neg == (z[i + 1] == '^' as nat) && (neg ==> i + 2 < |z|)
    requires ClassFrom(z, if neg then i + 2 else i + 1, true).ClassOk?
    ensures var p := ClassFrom(z, if neg then i + 2 else i + 1, true);
            var a := Class(neg, p.members);
            AtomSpelt(a, false) && At(z, i, AtomText(a, false)) && p.next == i + |AtomText(a, false)| < |z|
  {
    hide ClassFrom, MembersSpelt, At, MembersText;
    var n := if neg then i + 2 else i + 1;
    var ms := ClassFrom(z, n, true).members;
    var front := ['[' as nat] + if neg then ['^' as nat] else [];
    ClassWasSpelt(z, n, true);
    MembersStart(ms);
    FrontAt(z, i, neg);
    AtJoin(z, i, front, MembersText(ms) + [']' as nat]);
    AtHead(z, n, MembersText(ms) + [']' as nat]);
    assert AtomText(Class(neg, ms), false) == front + (MembersText(ms) + [']' as nat]);
  }

  lemma FrontAt(z: seq<nat>, i: nat, neg: bool)
    requires i + 1 < |z| && z[i] == '[' as nat && (neg ==> i + 2 < |z| && z[i + 1] == '^' as nat)
    ensures At(z, i, ['[' as nat] + if neg then ['^' as nat] else [])
  {
    assert z[i..if neg then i + 2 else i + 1] == ['[' as nat] + if neg then ['^' as nat] else [];
  }

  /** A star that closes the item before it. */
  lemma StarNext(z: seq<nat>, i: nat, acc: seq<Item>)
    requires Pattern(z) && i < |z| && acc != [] && z[i] == '*' as nat
    ensures i + 1 < |z| && Next(z, i, acc, true) == Go(i + 1, Closed(acc, 1), true)
    ensures forall n: nat :: n > 0 ==> Closed(Closed(acc, 1), n) == Closed(acc, n)
  {
  }

  /** The piece with its stars. */
  function With(p: Piece, n: nat): Piece {
    if n == 0 then p else Piece(Closure(p.item), p.escaped, n)
  }

  lemma WithSpelt(p: Piece, n: nat, acc: seq<Item>)
    requires PieceSpelt(p) && p.stars == 0 && (n > 0 ==> !p.item.Eol? && !Bare(p, '*'))
    ensures PieceSpelt(With(p, n)) && PieceText(With(p, n)) == HeadText(p) + Stars(n)
    ensures Bare(With(p, n), '*') <==> Bare(p, '*')
    ensures Bare(With(p, n), '$') <==> Bare(p, '$')
    ensures Closed(acc + [p.item], n) == acc + [With(p, n).item]
    ensures With(p, n).item.Eol? <==> p.item.Eol?
    ensures With(p, n).item.One? ==> n == 0
  {
  }

  /** Well spelt pieces with one more in front. */
  lemma SpeltCons(p: Piece, rest: seq<Piece>, last: bool)
    requires PieceSpelt(p) && Spelt(rest, !Bare(p, '*')) && (Bare(p, '*') ==> !last)
    requires (p.item.Eol? ==> rest == []) && (Bare(p, '$') && p.item.One? ==> rest != [])
    ensures Spelt([p] + rest, last)
  {
    hide PieceSpelt, Bare;
    var ps := [p] + rest;
    forall j, k | 0 <= j < k < |ps| && Bare(ps[k], '*') ensures Bare(ps[j], '*') {
      assert Bare(rest[k - 1], '*');
      if j > 0 {
        assert Bare(rest[j - 1], '*');
      } else if k > 1 {
        assert Bare(rest[0], '*');
      }
    }
  }

  lemma TextEnds(z: seq<nat>, i: nat, n: nat, ps: seq<Piece>)
    requires Pattern(z) && At(z, i, Stars(n) + (Text(ps) + [0])) && i + n + |Text(ps)| + 1 == |z|
    requires ps != [] ==> PieceSpelt(ps[0])
    ensures i < |z| && (z[i] == 0 <==> n == 0 && ps == [])
  {
    hide PieceSpelt, PieceText;
    if ps != [] {
      PieceParts(ps[0]);
    }
  }

  /** The text from i on: stars that close the item before it, and well spelt pieces. */
  lemma {:induction false} WasSpelt(z: seq<nat>, i: nat, acc: seq<Item>, last: bool) returns (n: nat, ps: seq<Piece>)
    requires Pattern(z) && i < |z| && (last ==> acc != []) && ParseFrom(z, i, acc, last).Good?
    ensures At(z, i, Stars(n) + (Text(ps) + [0])) && i + n + |Text(ps)| + 1 == |z| && (n > 0 ==> last)
    ensures Spelt(ps, last) && ParseFrom(z, i, acc, last) == Good(Closed(acc, n) + Items(ps))
    decreases |z| - i
  {
    hide Next, At, Spelt, Stars, PieceSpelt, PieceText, HeadText, Bare, With, Closed, Fits;
    if z[i] == 0 {
      n, ps := 0, [];
      EndWasSpelt(z, i, acc, last);
    } else if z[i] == '*' as nat && last {
      StarNext(z, i, acc);
      n, ps := WasSpelt(z, i + 1, Closed(acc, 1), true);
      StarWasSpelt(z, i, acc, n, ps);
      n := n + 1;
    } else {
      GoesOn(z, i, acc, last);
      var p := HeadWasSpelt(z, i, acc, last);
      var j := i + |HeadText(p)|;
      var k, rest := WasSpelt(z, j, acc + [p.item], !Bare(p, '*'));
      n, ps := 0, [With(p, k)] + rest;
      PieceWasSpelt(z, i, acc, last, p, k, rest);
    }
  }

  lemma GoesOn(z: seq<nat>, i: nat, acc: seq<Item>, last: bool)
    requires Pattern(z) && i < |z| && (last ==> acc != []) && ParseFrom(z, i, acc, last).Good? && z[i] != 0
    ensures Next(z, i, acc, last).Go?
  {
  }

  lemma EndWasSpelt(z: seq<nat>, i: nat, acc: seq<Item>, last: bool)
    requires Pattern(z) && i < |z| && (last ==> acc != []) && z[i] == 0
    ensures At(z, i, Stars(0) + (Text([]) + [0])) && i + 1 == |z| && Spelt([], last)
    ensures ParseFrom(z, i, acc, last) == Good(Closed(acc, 0) + Items([]))
  {
    NextEnd(z, i, acc, last);
    CharAt(z, i, 0);
    assert Stars(0) + (Text([]) + [0]) == [0];
  }

  lemma StarWasSpelt(z: seq<nat>, i: nat, acc: seq<Item>, n: nat, ps: seq<Piece>)
    requires Pattern(z) && i < |z| && z[i] == '*' as nat && acc != []
    requires At(z, i + 1, Stars(n) + (Text(ps) + [0]))
    ensures At(z, i, Stars(n + 1) + (Text(ps) + [0]))
    ensures Closed(Closed(acc, 1), n) == Closed(acc, n + 1)
  {
    hide Text, At;
    CharAt(z, i, '*' as nat);
    StarsOne(n);
    AtJoin(z, i, ['*' as nat], Stars(n) + (Text(ps) + [0]));
    assert ['*' as nat] + (Stars(n) + (Text(ps) + [0])) == Stars(n + 1) + (Text(ps) + [0]);
    StarNext(z, i, acc);
  }

  lemma PieceWasSpelt(z: seq<nat>, i: nat, acc: seq<Item>, last: bool, p: Piece, k: nat, rest: seq<Piece>)
    requires Pattern(z) && PieceSpelt(p) && p.stars == 0 && At(z, i, HeadText(p)) && Fits(z, i + |HeadText(p)|, p, last)
    requires At(z, i + |HeadText(p)|, Stars(k) + (Text(rest) + [0])) && i + |HeadText(p)| + k + |Text(rest)| + 1 == |z|
    requires (k > 0 ==> !Bare(p, '*')) && Spelt(rest, !Bare(p, '*'))
    ensures var ps := [With(p, k)] + rest;
            && Spelt(ps, last) && At(z, i, Stars(0) + (Text(ps) + [0])) && i + |Text(ps)| + 1 == |z|
            && Closed(acc + [p.item], k) + Items(rest) == Closed(acc, 0) + Items(ps)
  {
    hide *;
    PieceSpeltSo(z, i, last, p, k, rest);
    TextOf(p, k, rest);
    AtJoin(z, i, HeadText(p), Stars(k) + (Text(rest) + [0]));
    ItemsOf(acc, p, k, rest);
  }

  lemma ItemsOf(acc: seq<Item>, p: Piece, k: nat, rest: seq<Piece>)
    requires PieceSpelt(p) && p.stars == 0 && (k > 0 ==> !p.item.Eol? && !Bare(p, '*'))
    ensures Closed(acc + [p.item], k) + Items(rest) == Closed(acc, 0) + Items([With(p, k)] + rest)
  {
    hide PieceSpelt, PieceText, HeadText, Bare, With, Closed;
    WithSpelt(p, k, acc);
    Closed0(acc);
    assert acc + [With(p, k).item] + Items(rest) == acc + Items([With(p, k)] + rest);
  }

  lemma PieceSpeltSo(z: seq<nat>, i: nat, last: bool, p: Piece, k: nat, rest: seq<Piece>)
    requires Pattern(z) && PieceSpelt(p) && p.stars == 0 && Fits(z, i + |HeadText(p)|, p, last)
    requires At(z, i + |HeadText(p)|, Stars(k) + (Text(rest) + [0])) && i + |HeadText(p)| + k + |Text(rest)| + 1 == |z|
    requires (k > 0 ==> !Bare(p, '*')) && Spelt(rest, !Bare(p, '*'))
    ensures Spelt([With(p, k)] + rest, last) && (p.item.Eol? ==> k == 0)
  {
    hide At, Spelt, Stars, PieceSpelt, PieceText, HeadText, Bare, With, Closed, Text, Items, CString;
    RestSpelt(rest, !Bare(p, '*'));
    TextEnds(z, i + |HeadText(p)|, k, rest);
    WithSpelt(p, k, []);
    SpeltCons(With(p, k), rest, last);
  }

  lemma RestSpelt(ps: seq<Piece>, last: bool)
    requires Spelt(ps, last)
    ensures ps != [] ==> PieceSpelt(ps[0])
  {
  }

  lemma Closed0(acc: seq<Item>)
    ensures Closed(acc, 0) == acc
  {
  }

  lemma TextOf(p: Piece, k: nat, rest: seq<Piece>)
    requires PieceSpelt(p) && p.stars == 0 && (k > 0 ==> !p.item.Eol? && !Bare(p, '*'))
    ensures var ps := [With(p, k)] + rest;
            && Stars(0) + (Text(ps) + [0]) == HeadText(p) + (Stars(k) + (Text(rest) + [0]))
            && |Text(ps)| == |HeadText(p)| + k + |Text(rest)|
  {
    hide PieceSpelt, PieceText, HeadText, Bare, With;
    WithSpelt(p, k, []);
    assert ([With(p, k)] + rest)[1..] == rest;
  }

  // ---- whole patterns ----

  predicate Tied(z: seq<nat>)
    requires z != []
  {
    z[0] == '^' as nat
  }

  lemma Whole(z: seq<nat>, t: seq<nat>)
    requires Pattern(z)
    ensures var n := if Tied(z) then 1 else 0;
            n < |z| && (At(z, n, t + [0]) && n + |t| + 1 == |z| <==> z == Written(Tied(z), t))
  {
    if Tied(z) {
      assert z == ['^' as nat] + z[1..];
    }
  }

  /** A pattern is read as it was written. */
  lemma SpeltReads(z: seq<nat>, ps: seq<Piece>)
    requires Pattern(z) && Spells(z, ps)
    ensures Parse(z) == Good(Items(ps))
  {
    hide Spelt, At, ParseFrom;
    Whole(z, Text(ps));
    Reads(z, if Tied(z) then 1 else 0, [], false, ps);
    assert [] + Items(ps) == Items(ps);
  }

  /** What is read as a pattern was written as one. */
  lemma ReadsSpelt(z: seq<nat>) returns (ps: seq<Piece>)
    requires Pattern(z) && Parse(z).Good?
    ensures Spells(z, ps) && Parse(z) == Good(Items(ps))
  {
    hide Spelt, At, ParseFrom;
    var n;
    n, ps := WasSpelt(z, if Tied(z) then 1 else 0, [], false);
    assert Stars(0) + (Text(ps) + [0]) == Text(ps) + [0];
    Whole(z, Text(ps));
    assert [] + Items(ps) == Items(ps);
  }

  /** The items that are read are exactly those that were written. */
  lemma ReadIffWritten(z: seq<nat>, items: seq<Item>)
    requires Pattern(z)
    ensures Parse(z) == Good(items) <==> exists ps :: Spells(z, ps) && Items(ps) == items
  {
    hide Spells, Parse;
    if Parse(z) == Good(items) {
      var ps := ReadsSpelt(z);
    }
    if ps :| Spells(z, ps) && Items(ps) == items {
      SpeltReads(z, ps);
    }
  }

  lemma AllPlain(a: seq<nat>, b: seq<nat>)
    requires (forall k :: 0 <= k < |a| ==> Plain(a[k])) && (forall k :: 0 <= k < |b| ==> Plain(b[k]))
    ensures forall k :: 0 <= k < |a + b| ==> Plain((a + b)[k])
  {
  }

  lemma {:induction false} MembersPlain(ms: seq<Member>)
    requires forall k :: 0 <= k < |ms| ==> Plain(EndOf(ms[k]))
    ensures forall k :: 0 <= k < |MembersText(ms)| ==> Plain(MembersText(ms)[k])
  {
    if ms != [] {
      MembersPlain(ms[1..]);
      AllPlain(MemberText(ms[0]), MembersText(ms[1..]));
    }
  }

  lemma PiecePlain(p: Piece)
    requires PieceSpelt(p)
    ensures forall k :: 0 <= k < |PieceText(p)| ==> Plain(PieceText(p)[k])
  {
    if !p.item.Eol? && p.item.a.Class? {
      var ms := p.item.a.members;
      forall k | 0 <= k < |ms| ensures Plain(EndOf(ms[k])) {
        assert SpeltAt(ms, k, true, true, 0);
      }
      MembersPlain(ms);
    }
  }

  lemma {:induction false} TextPlain(ps: seq<Piece>)
    requires forall k :: 0 <= k < |ps| ==> PieceSpelt(ps[k])
    ensures forall k :: 0 <= k < |Text(ps)| ==> Plain(Text(ps)[k])
  {
    hide PieceSpelt, PieceText;
    if ps != [] {
      TextPlain(ps[1..]);
      PiecePlain(ps[0]);
      AllPlain(PieceText(ps[0]), Text(ps[1..]));
    }
  }

  /** Everything that is written as a pattern is one that the model covers. */
  lemma SpeltCovered(z: seq<nat>, ps: seq<Piece>)
    requires Spells(z, ps)
    ensures Pattern(z) && Covered(z)
  {
    hide PieceSpelt, Text, ParseFrom, Fills;
    TextPlain(ps);
    WrittenPattern(z[0] == '^' as nat, Text(ps));
    SpeltReads(z, ps);
  }

  lemma WrittenPattern(circ: bool, t: seq<nat>)
    requires forall k :: 0 <= k < |t| ==> Plain(t[k])
    ensures Pattern(Written(circ, t))
  {
  }

  /** What the contracts of the compiler need. */
  lemma ParsedMeans(z: seq<nat>)
    requires Pattern(z)
    ensures Parse(z).Good? ==> exists ps :: Spells(z, ps)
    ensures forall ps :: Spells(z, ps) ==> Parse(z) == Good(Items(ps))
  {
    hide Spells, Parse;
    if Parse(z).Good? {
      var ps := ReadsSpelt(z);
    }
    forall ps | Spells(z, ps) ensures Parse(z) == Good(Items(ps)) {
      SpeltReads(z, ps);
    }
  }

  lemma {:induction false} SizeShown(items: seq<Item>)
    ensures Size(Items(Pieces(items))) == Size(items)
  {
    ItemsShown(items);
    SizeSame(Items(Pieces(items)), items);
  }

  lemma {:induction false} ItemsShown(items: seq<Item>)
    ensures |Items(Pieces(items))| == |items|
    ensures forall k :: 0 <= k < |items| ==> CodeSize(Items(Pieces(items))[k]) == CodeSize(items[k])
  {
    if items != [] {
      ItemsShown(items[1..]);
      PiecesHead(items);
    }
  }

  lemma {:induction false} SizeSame(a: seq<Item>, b: seq<Item>)
    requires |a| == |b| && forall k :: 0 <= k < |a| ==> CodeSize(a[k]) == CodeSize(b[k])
    ensures Size(a) == Size(b)
  {
    if a != [] {
      SizeSame(a[..|a| - 1], b[..|b| - 1]);
    }
  }
}
