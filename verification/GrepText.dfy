/** How the patterns of grep are written: the text of a pattern, apart from how the program reads it. */
module GrepText {
  import opened GrepRe

  /** An item as it is written: a character may stand behind a backslash, and a star may be repeated. */
  datatype Piece = Piece(item: Item, escaped: bool, stars: nat)

  predicate Special(c: nat) {
    c == '<' as nat || c == '>' as nat || c == '(' as nat || c == ')' as nat || '1' as nat <= c <= '9' as nat
  }

  /** A character that may be part of a pattern. */
  predicate Plain(c: nat) {
    0 < c < 128
  }

  // ---- bracket classes ----

  /** A range goes on from the character in front of it. */
  function MemberText(m: Member): seq<nat> {
    match m
    case Single(c) => [c]
    case Range(_, hi) => ['-' as nat, hi]
  }

  function MembersText(ms: seq<Member>): seq<nat> {
    if ms == [] then [] else MemberText(ms[0]) + MembersText(ms[1..])
  }

  function EndOf(m: Member): nat {
    match m
    case Single(c) => c
    case Range(_, hi) => hi
  }

  /** A closing bracket stands first, a minus sign first or last; nothing is in front of a range but where it starts. */
  predicate MemberSpelt(m: Member, first: bool, final: bool, prev: nat) {
    match m
    case Single(c) => Plain(c) && (c == ']' as nat ==> first) && (c == '-' as nat ==> first || final)
    case Range(lo, hi) => !first && lo == prev && Plain(hi) && hi != ']' as nat
  }

  /** Member k of a class, or of a part of it that begins behind the character prev; the bracket closes a closed part. */
  predicate SpeltAt(ms: seq<Member>, k: nat, first: bool, closed: bool, prev: nat)
    requires k < |ms|
  {
    MemberSpelt(ms[k], first && k == 0, closed && k == |ms| - 1, if k == 0 then prev else EndOf(ms[k - 1]))
  }

  predicate MembersSpelt(ms: seq<Member>, first: bool, prev: nat) {
    ms != [] && forall k :: 0 <= k < |ms| ==> SpeltAt(ms, k, first, true, prev)
  }

  // ---- items ----

  function AtomText(a: Atom, escaped: bool): seq<nat> {
    match a
    case Chr(c) => if escaped then ['\\' as nat, c] else [c]
    case Dot => ['.' as nat]
    case Class(neg, ms) => ['[' as nat] + (if neg then ['^' as nat] else []) + MembersText(ms) + [']' as nat]
  }

  predicate AtomSpelt(a: Atom, escaped: bool) {
    match a
    case Chr(c) => Plain(c) && if escaped then !Special(c) else c != '.' as nat && c != '[' as nat && c != '\\' as nat
    case Dot => !escaped
    case Class(neg, ms) => !escaped && MembersSpelt(ms, true, 0) && (!neg ==> MembersText(ms)[..1] != ['^' as nat])
  }

  function Stars(n: nat): (r: seq<nat>) {
    seq(n, _ => '*' as nat)
  }

  function PieceText(p: Piece): seq<nat> {
    match p.item
    case One(a) => AtomText(a, p.escaped)
    case Many(a) => AtomText(a, p.escaped) + Stars(p.stars)
    case Eol => ['$' as nat]
  }

  /** A character that stands for itself without a backslash. */
  predicate Bare(p: Piece, c: char) {
    !p.escaped && (p.item == One(Chr(c as nat)) || p.item == Many(Chr(c as nat)))
  }

  predicate PieceSpelt(p: Piece) {
    match p.item
    case One(a) => AtomSpelt(a, p.escaped) && p.stars == 0
    case Many(a) => AtomSpelt(a, p.escaped) && p.stars > 0 && !Bare(p, '*')
    case Eol => !p.escaped && p.stars == 0
  }

  function Text(ps: seq<Piece>): seq<nat> {
    if ps == [] then [] else PieceText(ps[0]) + Text(ps[1..])
  }

  function Items(ps: seq<Piece>): seq<Item> {
    if ps == [] then [] else [ps[0].item] + Items(ps[1..])
  }

  /** A star stands for itself where there is nothing to repeat: at the start, or after such a star. A dollar sign stands
      for the end of the line when it is the last character, and for itself elsewhere. */
  predicate Spelt(ps: seq<Piece>, starred: bool) {
    && (forall k :: 0 <= k < |ps| ==> PieceSpelt(ps[k]))
    && (forall j, k :: 0 <= j < k < |ps| && Bare(ps[k], '*') ==> Bare(ps[j], '*'))
    && (starred && ps != [] ==> !Bare(ps[0], '*'))
    && (forall k :: 0 <= k < |ps| && ps[k].item.Eol? ==> k == |ps| - 1)
    && (ps != [] ==> !(Bare(ps[|ps| - 1], '$') && ps[|ps| - 1].item.One?))
  }

  function Written(circ: bool, text: seq<nat>): seq<nat> {
    (if circ then ['^' as nat] else []) + text + [0]
  }

  /** z is a pattern, with its null, written as the pieces ps. */
  predicate Spells(z: seq<nat>, ps: seq<Piece>) {
    && z != [] && Spelt(ps, false)
    && z == Written(z[0] == '^' as nat, Text(ps))
  }

  // ---- a way to write every pattern ----

  predicate Meta(c: nat) {
    c == '.' as nat || c == '*' as nat || c == '$' as nat || c == '[' as nat || c == '\\' as nat || c == '^' as nat
  }

  /** Members that can be written one after the other, a range as its ends with a minus sign in between. */
  predicate WritableMember(m: Member, first: bool, final: bool) {
    match m
    case Single(c) => Plain(c) && (c == ']' as nat ==> first) && (c == '-' as nat ==> first || final)
    case Range(lo, hi) => Plain(lo) && Plain(hi) && hi != ']' as nat && (lo == ']' as nat || lo == '-' as nat ==> first)
  }

  function FirstOf(m: Member): nat {
    match m
    case Single(c) => c
    case Range(lo, _) => lo
  }

  predicate WritableAtom(a: Atom) {
    match a
    case Chr(c) => Plain(c)
    case Dot => true
    case Class(neg, ms) =>
      && ms != [] && (neg || FirstOf(ms[0]) != '^' as nat)
      && forall k :: 0 <= k < |ms| ==> WritableMember(ms[k], k == 0, k == |ms| - 1)
  }

  predicate Writable(items: seq<Item>) {
    && (forall k :: 0 <= k < |items| && items[k] != Eol ==> WritableAtom(items[k].a))
    && (forall k :: 0 <= k < |items| && items[k] == Eol ==> k == |items| - 1)
  }

  function ShowMembers(ms: seq<Member>): seq<nat> {
    if ms == [] then []
    else (match ms[0] case Single(c) => [c] case Range(lo, hi) => [lo, '-' as nat, hi]) + ShowMembers(ms[1..])
  }

  function ShowAtom(a: Atom): seq<nat> {
    match a
    case Chr(c) => if Meta(c) then ['\\' as nat, c] else [c]
    case Dot => ['.' as nat]
    case Class(neg, ms) => ['[' as nat] + (if neg then ['^' as nat] else []) + ShowMembers(ms) + [']' as nat]
  }

  function ShowItem(item: Item): seq<nat> {
    match item
    case One(a) => ShowAtom(a)
    case Many(a) => ShowAtom(a) + ['*' as nat]
    case Eol => ['$' as nat]
  }

  /** The text of the items. */
  function Show(items: seq<Item>): seq<nat> {
    if items == [] then [] else ShowItem(items[0]) + Show(items[1..])
  }

  // ---- the shown text as pieces ----

  function Expand(ms: seq<Member>): seq<Member> {
    if ms == [] then []
    else (match ms[0] case Single(c) => [Single(c)] case Range(lo, hi) => [Single(lo), Range(lo, hi)]) + Expand(ms[1..])
  }

  function AtomAs(a: Atom): Atom {
    match a
    case Class(neg, ms) => Class(neg, Expand(ms))
    case _ => a
  }

  function PieceOf(item: Item): Piece {
    match item
    case One(a) => Piece(One(AtomAs(a)), a.Chr? && Meta(a.c), 0)
    case Many(a) => Piece(Many(AtomAs(a)), a.Chr? && Meta(a.c), 1)
    case Eol => Piece(Eol, false, 0)
  }

  function Pieces(items: seq<Item>): seq<Piece> {
    if items == [] then [] else [PieceOf(items[0])] + Pieces(items[1..])
  }

  lemma TextCons(m: Member, rest: seq<Member>)
    ensures MembersText([m] + rest) == MemberText(m) + MembersText(rest)
  {
    assert ([m] + rest)[1..] == rest;
  }

  lemma {:induction false} ExpandText(ms: seq<Member>)
    ensures MembersText(Expand(ms)) == ShowMembers(ms)
  {
    hide MembersText;
    if ms != [] {
      ExpandText(ms[1..]);
      match ms[0]
      case Single(c) =>
        TextCons(Single(c), Expand(ms[1..]));
      case Range(lo, hi) =>
        TextCons(Range(lo, hi), Expand(ms[1..]));
        TextCons(Single(lo), [Range(lo, hi)] + Expand(ms[1..]));
        assert Expand(ms) == [Single(lo)] + ([Range(lo, hi)] + Expand(ms[1..]));
    } else {
      NoText();
    }
  }

  lemma NoText()
    ensures MembersText([]) == []
  {
  }

  lemma {:induction false} ExpandMembers(ms: seq<Member>, c: nat)
    ensures InMembers(Expand(ms), c) <==> InMembers(ms, c)
  {
    if ms != [] {
      var head := match ms[0] case Single(d) => [Single(d)] case Range(lo, hi) => [Single(lo), Range(lo, hi)];
      ExpandMembers(ms[1..], c);
      MembersJoin([ms[0]], ms[1..], c);
      MembersJoin(head, Expand(ms[1..]), c);
      assert [ms[0]] + ms[1..] == ms;
      HeadMembers(ms[0], c);
    }
  }

  lemma HeadMembers(m: Member, c: nat)
    ensures InMembers([m], c) <==> InMember(m, c)
    ensures m.Range? ==> (InMembers([Single(m.lo), m], c) <==> InMember(m, c))
  {
    assert InMember(m, c) ==> InMember([m][0], c);
    if m.Range? {
      assert InMember(m, c) ==> InMember([Single(m.lo), m][1], c);
    }
  }

  lemma MembersJoin(a: seq<Member>, b: seq<Member>, c: nat)
    ensures InMembers(a + b, c) <==> InMembers(a, c) || InMembers(b, c)
  {
    if InMembers(a, c) {
      var i :| 0 <= i < |a| && InMember(a[i], c);
      assert InMember((a + b)[i], c);
    }
    if InMembers(b, c) {
      var i :| 0 <= i < |b| && InMember(b[i], c);
      assert InMember((a + b)[|a| + i], c);
    }
    if InMembers(a + b, c) {
      var i :| 0 <= i < |a + b| && InMember((a + b)[i], c);
      assert if i < |a| then InMember(a[i], c) else InMember(b[i - |a|], c);
    }
  }

  /** From a place in a class on, the members as pieces are well spelt. */
  lemma {:induction false} ExpandSpelt(ms: seq<Member>, first: bool, prev: nat)
    requires ms != [] && forall k :: 0 <= k < |ms| ==> WritableMember(ms[k], first && k == 0, k == |ms| - 1)
    ensures MembersSpelt(Expand(ms), first, prev)
  {
    var rest := ms[1..];
    var head := match ms[0] case Single(c) => [Single(c)] case Range(lo, hi) => [Single(lo), Range(lo, hi)];
    assert WritableMember(ms[0], first, |ms| == 1);
    assert Expand(ms) == head + Expand(rest);
    if rest != [] {
      forall k | 0 <= k < |rest| ensures WritableMember(rest[k], false, k == |rest| - 1) {
        assert WritableMember(ms[k + 1], false, k + 1 == |ms| - 1);
      }
      ExpandSpelt(rest, false, EndOf(head[|head| - 1]));
    }
    var closed := rest == [];
    forall k | 0 <= k < |head| ensures SpeltAt(head, k, first, closed, prev) {
    }
    SpeltJoin(head, Expand(rest), first, closed, prev);
  }

  lemma SpeltJoin(head: seq<Member>, tail: seq<Member>, first: bool, closed: bool, prev: nat)
    requires head != [] && forall k :: 0 <= k < |head| ==> SpeltAt(head, k, first, closed, prev)
    requires if closed then tail == [] else MembersSpelt(tail, false, EndOf(head[|head| - 1]))
    ensures MembersSpelt(head + tail, first, prev)
  {
    var ms := head + tail;
    forall k | 0 <= k < |ms| ensures SpeltAt(ms, k, first, true, prev) {
      if k < |head| {
        assert SpeltAt(head, k, first, closed, prev);
      } else {
        assert SpeltAt(tail, k - |head|, false, true, EndOf(head[|head| - 1]));
      }
    }
  }

  lemma AtomShown(a: Atom)
    requires WritableAtom(a)
    ensures AtomSpelt(AtomAs(a), a.Chr? && Meta(a.c)) && AtomText(AtomAs(a), a.Chr? && Meta(a.c)) == ShowAtom(a)
  {
    if a.Class? {
      ExpandText(a.members);
      ExpandSpelt(a.members, true, 0);
    }
  }

  lemma PieceShown(item: Item)
    requires item != Eol ==> WritableAtom(item.a)
    ensures PieceSpelt(PieceOf(item)) && PieceText(PieceOf(item)) == ShowItem(item)
    ensures !Bare(PieceOf(item), '*') && !Bare(PieceOf(item), '$')
  {
    if item != Eol {
      AtomShown(item.a);
    }
  }

  lemma {:induction false} ShowPieces(items: seq<Item>)
    requires Writable(items)
    ensures Text(Pieces(items)) == Show(items) && |Pieces(items)| == |items|
    ensures forall k :: 0 <= k < |items| ==> Pieces(items)[k] == PieceOf(items[k])
  {
    if items != [] {
      ShowPieces(items[1..]);
      PieceShown(items[0]);
    }
  }

  /** What Show writes is a pattern, with or without ^ in front. */
  lemma ShowSpells(circ: bool, items: seq<Item>)
    requires Writable(items)
    ensures Spells(Written(circ, Show(items)), Pieces(items))
  {
    hide PieceSpelt, PieceText, ShowItem;
    ShowPieces(items);
    var ps := Pieces(items);
    forall k | 0 <= k < |ps| ensures PieceSpelt(ps[k]) && !Bare(ps[k], '*') && !Bare(ps[k], '$') {
      PieceShown(items[k]);
    }
    if items != [] {
      ShowStart(items[0]);
    }
  }

  lemma ShowStart(item: Item)
    ensures ShowItem(item) != [] && ShowItem(item)[0] != '^' as nat
  {
  }

  // ---- the shown items mean the same ----

  lemma AtomMeaning(a: Atom, c: nat)
    ensures InAtom(AtomAs(a), c) <==> InAtom(a, c)
  {
    if a.Class? {
      ExpandMembers(a.members, c % 128);
    }
  }

  lemma RepeatsMeaning(a: Atom, s: seq<nat>, i: nat, k: nat)
    ensures Repeats(AtomAs(a), s, i, k) <==> Repeats(a, s, i, k)
  {
    forall c: nat ensures InAtom(AtomAs(a), c) <==> InAtom(a, c) {
      AtomMeaning(a, c);
    }
  }

  lemma {:induction false} MatchMeaning(items: seq<Item>, s: seq<nat>, i: nat, j: nat)
    ensures Matches(Items(Pieces(items)), s, i, j) <==> Matches(items, s, i, j)
    decreases |items|
  {
    if items != [] {
      var rest := items[1..];
      PiecesHead(items);
      match items[0]
      case One(a) =>
        if i < |s| {
          AtomMeaning(a, s[i]);
          MatchMeaning(rest, s, i + 1, j);
        }
      case Many(a) =>
        forall k: nat ensures Repeats(AtomAs(a), s, i, k) <==> Repeats(a, s, i, k) {
          RepeatsMeaning(a, s, i, k);
        }
        forall k: nat ensures Matches(Items(Pieces(rest)), s, k, j) <==> Matches(rest, s, k, j) {
          MatchMeaning(rest, s, k, j);
        }
      case Eol =>
        MatchMeaning(rest, s, i, j);
    }
  }

  lemma PiecesHead(items: seq<Item>)
    requires items != []
    ensures Items(Pieces(items)) == [PieceOf(items[0]).item] + Items(Pieces(items[1..]))
    ensures Items(Pieces(items))[1..] == Items(Pieces(items[1..]))
  {
    assert Pieces(items)[1..] == Pieces(items[1..]);
  }

  lemma ShowMeaning(items: seq<Item>, s: seq<nat>, i: nat)
    ensures Succeeds(Items(Pieces(items)), s, i) <==> Succeeds(items, s, i)
  {
    forall j: nat ensures Matches(Items(Pieces(items)), s, i, j) <==> Matches(items, s, i, j) {
      MatchMeaning(items, s, i, j);
    }
  }
}
