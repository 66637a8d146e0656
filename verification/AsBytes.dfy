/** Bytes, bits and weights of the 128-bit numbers. */
module AsBytes {
  import opened AsNum

  /** 256 to the power i. */
  function Weight(i: nat): (w: nat)
    requires i <= 16
    ensures w > 0
  {
    if i == 0 then 1 else if i == 1 then 0x100 else if i == 2 then 0x1_0000 else if i == 3 then 0x100_0000
    else if i == 4 then B else if i == 5 then B * 0x100 else if i == 6 then B * 0x1_0000 else if i == 7 then B * 0x100_0000
    else if i == 8 then B * B else if i == 9 then B * B * 0x100 else if i == 10 then B * B * 0x1_0000 else if i == 11 then B * B * 0x100_0000
    else if i == 12 then B * B * B else if i == 13 then B * B * B * 0x100 else if i == 14 then B * B * B * 0x1_0000
    else if i == 15 then B * B * B * 0x100_0000 else W
  }

  lemma Powers()
    ensures Power(0) == 1 && Power(1) == 2 && Power(2) == 4 && Power(3) == 8 && Power(4) == 16 && Power(5) == 32
    ensures Power(6) == 64 && Power(7) == 128 && Power(8) == 256
  {
  }

  lemma {:induction false} PowerWeight(m: nat)
    requires m <= 16
    ensures Power(8 * m) == Weight(m)
  {
    if m > 0 {
      PowerWeight(m - 1);
      PowerSum(8, 8 * (m - 1));
      Powers();
      NextWeight(m);
    }
  }

  lemma NextWeight(m: nat)
    requires 0 < m <= 16
    ensures Weight(m) == 256 * Weight(m - 1)
  {
  }

  /** The number that the bytes from i on make, and the one below. */
  function Tail(s: seq<nat>, i: nat): nat
    requires Num(s) && i <= 16
    decreases 16 - i
  {
    if i == 16 then 0 else s[i] + 256 * Tail(s, i + 1)
  }

  function Below(s: seq<nat>, i: nat): nat
    requires Num(s) && i <= 16
  {
    if i == 0 then 0 else Below(s, i - 1) + Weight(i - 1) * s[i - 1]
  }

  lemma {:induction false} TailFrom(s: seq<nat>, i: nat)
    requires Num(s) && i <= 4
    ensures Tail(s, 4 * i) == From(s, i)
    decreases 4 - i
  {
    if i < 4 {
      TailFrom(s, i + 1);
      TailFour(s, i);
    }
  }

  lemma TailFour(s: seq<nat>, i: nat)
    requires Num(s) && i < 4
    ensures Tail(s, 4 * i) == Chunk(s, i) + B * Tail(s, 4 * i + 4)
  {
    hide Weight;
    var k := 4 * i;
    var rest := Tail(s, k + 4);
    assert Tail(s, k + 3) == s[k + 3] + 256 * rest;
    assert Tail(s, k + 2) == s[k + 2] + 256 * Tail(s, k + 3);
    assert Tail(s, k + 1) == s[k + 1] + 256 * Tail(s, k + 2);
  }

  lemma {:induction false} SplitAt(s: seq<nat>, k: nat)
    requires Num(s) && k <= 16
    ensures Val(s) == Weight(k) * Tail(s, k) + Below(s, k) && Below(s, k) < Weight(k)
  {
    if k == 0 {
      TailFrom(s, 0);
    } else {
      SplitAt(s, k - 1);
      NextWeight(k);
      SplitSum(Weight(k - 1), Tail(s, k), Below(s, k - 1), s[k - 1]);
    }
  }

  lemma SplitSum(w: nat, tail: nat, below: nat, b: nat)
    requires below < w && b < 256
    ensures w * (b + 256 * tail) + below == (256 * w) * tail + (below + w * b) && below + w * b < 256 * w
  {
    assert w * (b + 256 * tail) == w * b + (256 * w) * tail;
    Product(b + 1, 256, w);
  }

  lemma {:induction false} TailSame(s: seq<nat>, s': seq<nat>, k: nat)
    requires Num(s) && Num(s') && k <= 16 && forall i :: k <= i < 16 ==> s[i] == s'[i]
    ensures Tail(s, k) == Tail(s', k)
    decreases 16 - k
  {
    if k < 16 {
      TailSame(s, s', k + 1);
    }
  }

  lemma {:induction false} BelowZero(s: seq<nat>, k: nat)
    requires Num(s) && k <= 16 && forall i :: 0 <= i < k ==> s[i] == 0
    ensures Below(s, k) == 0
  {
    if k > 0 {
      BelowZero(s, k - 1);
    }
  }

  /** Clearing the low bytes takes the number down to a multiple of their weight. */
  lemma LowCleared(s: seq<nat>, s': seq<nat>, k: nat)
    requires Num(s) && Num(s') && k <= 16
    requires forall i :: 0 <= i < 16 ==> s'[i] == if i < k then 0 else s[i]
    ensures Val(s') == Weight(k) * (Val(s) / Weight(k))
  {
    hide Weight, Val;
    SplitAt(s, k);
    SplitAt(s', k);
    TailSame(s, s', k);
    BelowZero(s', k);
    Quotient(Val(s), Weight(k), Tail(s, k), Below(s, k));
  }

  /** A number has one sequence of bytes. */
  lemma {:induction false} OneTail(s: seq<nat>, s': seq<nat>, i: nat)
    requires Num(s) && Num(s') && i <= 16 && Tail(s, i) == Tail(s', i)
    ensures forall k :: i <= k < 16 ==> s[k] == s'[k]
    decreases 16 - i
  {
    if i < 16 {
      OneTail(s, s', i + 1);
    }
  }

  lemma OneNum(s: seq<nat>, s': seq<nat>)
    requires Num(s) && Num(s') && Val(s) == Val(s')
    ensures s == s'
  {
    TailFrom(s, 0);
    TailFrom(s', 0);
    OneTail(s, s', 0);
  }

  lemma TopByte(s: seq<nat>)
    requires Num(s)
    ensures s[15] * Weight(15) <= Val(s) < (s[15] + 1) * Weight(15)
  {
    hide Val, Weight;
    SplitAt(s, 15);
    assert Tail(s, 16) == 0;
    assert Tail(s, 15) == s[15];
  }

  /** Another value for one byte. */
  lemma ByteChanged(s: seq<nat>, i: nat, v: nat)
    requires Num(s) && i < 16 && v < 256
    ensures Num(s[i := v])
    ensures Val(s[i := v]) == Val(s) + (v - s[i]) * Weight(i)
  {
    hide Chunk, Val;
    ChunkChanged(s, i / 4, i % 4, v);
    ValChanged(s, s[i := v], i / 4);
    Weights(i / 4, i % 4, v - s[i]);
  }

  lemma Weights(c: nat, k: nat, d: int)
    requires c < 4 && k < 4
    ensures (d * Weight(k)) * Weight(4 * c) == d * Weight(4 * c + k)
  {
  }

  lemma ValChanged(s: seq<nat>, s': seq<nat>, c: nat)
    requires Num(s) && Num(s') && c < 4 && forall j: nat :: j < 4 && j != c ==> Chunk(s', j) == Chunk(s, j)
    ensures Val(s') == Val(s) + (Chunk(s', c) - Chunk(s, c)) * Weight(4 * c)
  {
    hide Chunk, Val;
    ValIs(s);
    ValIs(s');
  }

  lemma ChunkChanged(s: seq<nat>, c: nat, k: nat, v: nat)
    requires Num(s) && c < 4 && k < 4 && v < 256
    ensures Num(s[4 * c + k := v])
    ensures Chunk(s[4 * c + k := v], c) == Chunk(s, c) + (v - s[4 * c + k]) * Weight(k)
    ensures forall j: nat :: j < 4 && j != c ==> Chunk(s[4 * c + k := v], j) == Chunk(s, j)
  {
  }

  /** x | y */
  function Or(x: nat, y: nat): nat {
    if x == 0 then y else if y == 0 then x else (if x % 2 == 1 || y % 2 == 1 then 1 else 0) + 2 * Or(x / 2, y / 2)
  }

  lemma {:induction false} OrApart(x: nat, y: nat, n: nat)
    requires x < Power(n) && exists q: nat :: y == q * Power(n)
    ensures Or(x, y) == x + y
    decreases n
  {
    var q: nat :| y == q * Power(n);
    if x != 0 && y != 0 {
      assert y == 2 * (q * Power(n - 1));
      OrApart(x / 2, y / 2, n - 1);
    }
  }

  lemma ModMod(x: nat, d: nat, f: nat)
    requires W == f * d && d > 0 && f > 0
    ensures x % W % d == x % d
  {
    var hi, y := x / W, x % W;
    var a, b := y / d, y % d;
    assert y == d * a + b;
    calc {
      x;
      hi * (f * d) + (d * a + b);
      d * (hi * f + a) + b;
    }
    Quotient(x, d, hi * f + a, b);
  }

  lemma ThreeChunks(c0: nat, c1: nat, c2: nat)
    requires c0 < B && c1 < B && c2 < B
    ensures c0 + B * c1 + B * B * c2 < B * B * B
  {
  }

  /** The bits of byte 15 from n up are clear exactly below n bits of it. */
  lemma TopBits(s: seq<nat>, b: nat)
    requires Num(s) && b <= 256
    ensures s[15] < b <==> Val(s) < b * Weight(15)
  {
    hide Weight, Val;
    TopByte(s);
    if s[15] < b {
      Product(s[15] + 1, b, Weight(15));
    } else {
      Product(b, s[15], Weight(15));
    }
  }

  /** x & (1 << n) */
  predicate Bit(x: nat, n: nat) { x / Power(n) % 2 == 1 }

  lemma HighestBit(x: nat, n: nat)
    requires n <= 7 && x < Power(n + 1)
    ensures Bit(x, n) <==> x >= Power(n)
  {
    Powers();
  }

  lemma OneTimes(x: nat)
    ensures exists q: nat :: x == q * x
  {
    assert x == 1 * x;
  }

  lemma ZeroVal(s: seq<nat>)
    requires |s| == 16 && forall i :: 0 <= i < 16 ==> s[i] == 0
    ensures Num(s) && Val(s) == 0
  {
    ValIs(s);
  }

  /** x & ONES(n) */
  function Keep(x: nat, n: nat): nat { x % Power(n) }

  lemma Kept(x: nat, n: nat) returns (hi: nat)
    ensures x == Power(n) * hi + Keep(x, n) && Keep(x, n) < Power(n) && Keep(x, n) <= x
  {
    hide Power;
    DivRest(x, Power(n));
    hi := x / Power(n);
  }

  lemma DivRest(x: nat, p: nat)
    requires p > 0
    ensures x == p * (x / p) + x % p && x % p < p && x % p <= x && x / p >= 0
  {
  }

  lemma PowerBound(n: nat)
    requires n <= 7
    ensures Power(n) <= 128 && Power(n + 1) <= 256
  {
    Powers();
  }

  lemma TwoShifts(x: nat)
    ensures Power(1) * x == 2 * x && Power(2) * x == 4 * x
  {
    Powers();
  }

  lemma OnlyPowers()
    ensures Power(1) == 2 && Power(2) == 4
  {
    Powers();
  }

  method SetByte(number: array<nat>, i: nat, v: nat)
    requires Num(number[..]) && i < 16 && v < 256
    modifies number
    ensures number[..] == old(number[..])[i := v] && Num(number[..])
  {
    number[i] := v;
  }

  lemma {:induction false} OrBound(x: nat, y: nat, n: nat)
    requires x < Power(n) && y < Power(n)
    ensures Or(x, y) < Power(n)
    decreases n
  {
    if x != 0 && y != 0 {
      OrBound(x / 2, y / 2, n - 1);
    }
  }

  lemma OrByte(x: nat, y: nat)
    requires x < 256 && y < 256
    ensures Or(x, y) < 256
  {
    Powers();
    OrBound(x, y, 8);
  }

  function Zeros(): (z: seq<nat>)
    ensures Num(z)
  {
    [0, 0, 0, 0, 0, 0, 0, 0, 0, 0, 0, 0, 0, 0, 0, 0]
  }

  lemma Scale(p: nat, x: nat, y: nat)
    requires x < y && p > 0
    ensures p * x < p * y
  {
  }

  lemma ScaledIff(p: nat, x: nat, y: nat)
    requires p > 0
    ensures p * x >= p * y <==> x >= y
  {
    if x >= y {
      Product(y, x, p);
    } else {
      Scale(p, x, y);
    }
  }

  lemma {:induction false} PowerMono(m: nat, n: nat)
    requires m <= n
    ensures Power(m) <= Power(n)
  {
    if m < n {
      PowerMono(m, n - 1);
    }
  }

  lemma GreaterProduct(a: nat, b: nat, c: nat, d: nat)
    requires a >= c && b >= d
    ensures a * b >= c * d
  {
    Product(c, a, b);
    Product(d, b, c);
  }

  lemma Small(x: nat)
    requires x < W
    ensures x % W == x
  {
  }

  lemma ZerosVal()
    ensures Val(Zeros()) == 0
  {
    ZeroVal(Zeros());
  }

  lemma HalfIsPower()
    ensures Power(127) == W / 2 && Power(1) == 2
  {
    PowerSum(120, 7);
    PowerWeight(15);
    Powers();
  }

  lemma DivDiv(x: nat, a: nat, b: nat)
    ensures x / Power(a) / Power(b) == x / Power(a + b)
  {
    hide Power;
    PowerSum(a, b);
    var p, q := Power(a), Power(b);
    var y := x / p;
    DivRest(x, p);
    DivRest(y, q);
    var lo := p * (y % q) + x % p;
    Product(y % q + 1, q, p);
    assert x == (p * q) * (y / q) + lo && lo < p * q;
    Quotient(x, p * q, y / q, lo);
  }

  method NumClear(dst: array<nat>)
    requires Num(dst[..])
    modifies dst
    ensures dst[..] == Zeros()
  {
    for i := 0 to 16
      invariant forall j :: 0 <= j < i ==> dst[j] == 0
    {
      dst[i] := 0;
    }
  }

  lemma WholeByte()
    ensures Weight(1) * Weight(15) == W && Weight(1) == 0x100
  {
  }
}
