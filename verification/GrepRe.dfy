/** The patterns of grep: what they mean, and the code they are compiled to (grep.c). */
module GrepRe {

  const CCHR := 2
  const CDOT := 4
  const CCL := 6
  const CDOL := 10
  const CEOF := 11
  const STAR := 1
  const ESIZE := 256

  // ---- what a pattern means ----

  datatype Member = Single(c: nat) | Range(lo: nat, hi: nat)

  datatype Atom = Chr(c: nat) | Dot | Class(neg: bool, members: seq<Member>)

  /** One: the atom once. Many: its closure. Eol: the end of the line. */
  datatype Item = One(a: Atom) | Many(a: Atom) | Eol

  /** A range that goes down contains its first character only. */
  predicate InMember(m: Member, c: nat) {
    match m
    case Single(d) => c == d
    case Range(lo, hi) => c == lo || lo <= c <= hi
  }

  predicate InMembers(ms: seq<Member>, c: nat) {
    exists i :: 0 <= i < |ms| && InMember(ms[i], c)
  }

  /** Bracket classes ignore the top bit of a character. */
  predicate InAtom(a: Atom, c: nat) {
    match a
    case Chr(d) => c == d
    case Dot => c != 0
    case Class(neg, ms) => c % 128 != 0 && InMembers(ms, c % 128) != neg
  }

  /** Positions i..j-1 of the line match the items. */
  ghost predicate Matches(items: seq<Item>, s: seq<nat>, i: nat, j: nat)
    decreases |items|
  {
    i <= j <= |s| &&
    if items == [] then i == j
    else match items[0]
      case One(a) => i < |s| && InAtom(a, s[i]) && Matches(items[1..], s, i + 1, j)
      case Many(a) => exists k :: Repeats(a, s, i, k) && Matches(items[1..], s, k, j)
      case Eol => i == |s| && Matches(items[1..], s, i, j)
  }

  ghost predicate Repeats(a: Atom, s: seq<nat>, i: nat, k: nat) {
    i <= k <= |s| && forall t :: i <= t < k ==> InAtom(a, s[t])
  }

  /** Some stretch of the line from position i on matches. */
  ghost predicate Succeeds(items: seq<Item>, s: seq<nat>, i: nat) {
    exists j :: Matches(items, s, i, j)
  }

  // ---- bit maps ----

  predicate Bit(b: nat, k: nat) {
    if k == 0 then b % 2 == 1 else Bit(b / 2, k - 1)
  }

  /** b | bittab[k] */
  function SetBit(b: nat, k: nat): nat {
    if k == 0 then b - b % 2 + 1 else b % 2 + 2 * SetBit(b / 2, k - 1)
  }

  lemma {:induction false} SetBitMeaning(b: nat, k: nat, j: nat)
    ensures Bit(SetBit(b, k), j) <==> j == k || Bit(b, j)
  {
    if k > 0 && j > 0 {
      SetBitMeaning(b / 2, k - 1, j - 1);
    }
  }

  function Ones(n: nat): (r: nat) {
    if n == 0 then 0 else 2 * Ones(n - 1) + 1
  }

  lemma {:induction false} SetBitBound(b: nat, k: nat, n: nat)
    requires k < n && b <= Ones(n)
    ensures SetBit(b, k) <= Ones(n)
  {
    if k > 0 {
      SetBitBound(b / 2, k - 1, n - 1);
    }
  }

  /** b ^ -1 in n bits */
  lemma {:induction false} FlipMeaning(b: nat, n: nat, j: nat)
    requires b <= Ones(n) && j < n
    ensures Bit(Ones(n) - b, j) <==> !Bit(b, j)
  {
    if j > 0 {
      FlipMeaning(b / 2, n - 1, j - 1);
    }
  }

  /** Character c is in a map of 16 bytes. */
  predicate InMap(map16: seq<nat>, c: nat)
    requires |map16| == 16 && c < 128
  {
    Bit(map16[c / 8], c % 8)
  }

  predicate Bytes(map16: seq<nat>) {
    |map16| == 16 && forall k :: 0 <= k < 16 ==> map16[k] <= Ones(8)
  }

  function Put(map16: seq<nat>, c: nat): seq<nat>
    requires |map16| == 16 && c < 128
  {
    map16[c / 8 := SetBit(map16[c / 8], c % 8)]
  }

  lemma PutMeaning(map16: seq<nat>, c: nat)
    requires Bytes(map16) && c < 128
    ensures Bytes(Put(map16, c))
    ensures forall d: nat :: d < 128 ==> (InMap(Put(map16, c), d) <==> d == c || InMap(map16, d))
  {
    SetBitBound(map16[c / 8], c % 8, 8);
    forall d: nat | d < 128 ensures InMap(Put(map16, c), d) <==> d == c || InMap(map16, d) {
      if d / 8 == c / 8 {
        SetBitMeaning(map16[c / 8], c % 8, d % 8);
      }
    }
  }

  /** The complement, without the null character. */
  function Negate(map16: seq<nat>): seq<nat>
    requires Bytes(map16)
  {
    var flipped := seq(16, k requires 0 <= k < 16 => Ones(8) - map16[k]);
    flipped[0 := flipped[0] - flipped[0] % 2]
  }

  lemma NegateMeaning(map16: seq<nat>, d: nat)
    requires Bytes(map16) && d < 128
    ensures InMap(Negate(map16), d) <==> d != 0 && !InMap(map16, d)
  {
    FlipMeaning(map16[d / 8], 8, d % 8);
    if d / 8 == 0 {
      ClearLow(Ones(8) - map16[0], d % 8);
    }
  }

  lemma {:induction false} ClearLow(b: nat, j: nat)
    ensures Bit(b - b % 2, j) <==> j != 0 && Bit(b, j)
  {
  }

  // ---- the code ----

  /** The map holds exactly the members. */
  ghost predicate MapOf(map16: seq<nat>, neg: bool, ms: seq<Member>) {
    |map16| == 16 && forall c: nat :: c < 128 ==> (InMap(map16, c) <==> c != 0 && InMembers(ms, c) != neg)
  }

  /** A stretch of code for one item. */
  ghost predicate CodeOf(code: seq<nat>, item: Item) {
    match item
    case One(a) => AtomCode(code, a, 0)
    case Many(a) => AtomCode(code, a, STAR)
    case Eol => code == [CDOL]
  }

  ghost predicate AtomCode(code: seq<nat>, a: Atom, star: nat) {
    match a
    case Chr(c) => c != 0 && code == [CCHR + star, c]
    case Dot => code == [CDOT + star]
    case Class(neg, ms) => |code| == 17 && code[0] == CCL + star && MapOf(code[1..], neg, ms)
  }

  function CodeSize(item: Item): nat {
    match item
    case One(a) => AtomSize(a)
    case Many(a) => AtomSize(a)
    case Eol => 1
  }

  function AtomSize(a: Atom): nat {
    match a
    case Chr(_) => 2
    case Dot => 1
    case Class(_, _) => 17
  }

  /** The items are coded one after the other from position ep on, up to the end mark. */
  ghost predicate Coded(code: seq<nat>, ep: nat, items: seq<Item>)
    decreases |items|
  {
    if items == [] then ep < |code| && code[ep] == CEOF
    else
      && ep + CodeSize(items[0]) <= |code|
      && CodeOf(code[ep..ep + CodeSize(items[0])], items[0])
      && Coded(code, ep + CodeSize(items[0]), items[1..])
  }
}
