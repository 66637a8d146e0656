/** The 128-bit numbers of the assembler, four chunks of 32 bits laid over sixteen bytes: numshift, numaddv,
    num1comp and numnegate of bignum1.c. */
module AsNum {

  const CH_N := 4
  const CH_BITS := 32
  const B: nat := 0x1_0000_0000
  const W: nat := 0x1_0000_0000_0000_0000_0000_0000_0000_0000

  /** Sixteen bytes, the lowest first. */
  predicate Num(s: seq<nat>) {
    |s| == 16 && forall i :: 0 <= i < 16 ==> s[i] < 256
  }

  /** Chunk i, as the union shows it. */
  function Chunk(s: seq<nat>, i: nat): (v: nat)
    requires Num(s) && i < CH_N
    ensures v < B
  {
    s[4 * i] + 0x100 * s[4 * i + 1] + 0x1_0000 * s[4 * i + 2] + 0x100_0000 * s[4 * i + 3]
  }

  function PutChunk(s: seq<nat>, i: nat, v: nat): (r: seq<nat>)
    requires Num(s) && i < CH_N && v < B
    ensures Num(r)
  {
    s[4 * i := v % 0x100][4 * i + 1 := v / 0x100 % 0x100][4 * i + 2 := v / 0x1_0000 % 0x100][4 * i + 3 := v / 0x100_0000]
  }

  lemma ChunkPut(s: seq<nat>, i: nat, v: nat, j: nat)
    requires Num(s) && i < CH_N && v < B && j < CH_N
    ensures Chunk(PutChunk(s, i, v), j) == if j == i then v else Chunk(s, j)
  {
    if j == i {
      FourParts(v);
    }
  }

  lemma FourParts(v: nat)
    requires v < B
    ensures v % 0x100 + 0x100 * (v / 0x100 % 0x100) + 0x1_0000 * (v / 0x1_0000 % 0x100) + 0x100_0000 * (v / 0x100_0000) == v
  {
  }

  /** The number that the chunks from i on make. */
  function From(s: seq<nat>, i: nat): nat
    requires Num(s) && i <= CH_N
    decreases CH_N - i
  {
    if i == CH_N then 0 else Chunk(s, i) + B * From(s, i + 1)
  }

  function Val(s: seq<nat>): nat
    requires Num(s)
  {
    From(s, 0)
  }

  function Power(n: nat): (p: nat)
    ensures p > 0
  {
    if n == 0 then 1 else 2 * Power(n - 1)
  }

  lemma {:induction false} PowerSum(m: nat, n: nat)
    ensures Power(m + n) == Power(m) * Power(n)
  {
    if m > 0 {
      PowerSum(m - 1, n);
    }
  }

  lemma PowerChunk()
    ensures Power(32) == B
  {
    assert Power(8) == 0x100;
    PowerSum(8, 8);
    PowerSum(16, 16);
  }

  lemma ValIs(s: seq<nat>)
    requires Num(s)
    ensures Val(s) == Chunk(s, 0) + B * Chunk(s, 1) + B * B * Chunk(s, 2) + B * B * B * Chunk(s, 3)
    ensures Val(s) < W
  {
    assert From(s, 4) == 0;
    assert From(s, 3) == Chunk(s, 3);
    assert From(s, 2) == Chunk(s, 2) + B * Chunk(s, 3);
    assert From(s, 1) == Chunk(s, 1) + B * From(s, 2);
  }

  // ---- what the loops establish, chunk by chunk ----

  function Times(p: nat, x: nat): nat { p * x }

  /** Chunk j of d, and the carry out of it, are p times chunk j of s and the carry into it. */
  ghost predicate Scaled(d: seq<nat>, s: seq<nat>, p: nat, c: seq<nat>, j: nat)
    requires Num(d) && Num(s) && j < CH_N
  {
    j + 1 < |c| && Chunk(d, j) + B * c[j + 1] == Times(p, Chunk(s, j)) + c[j]
  }

  lemma ScaledVal(d: seq<nat>, s: seq<nat>, p: nat, c: seq<nat>)
    requires Num(d) && Num(s) && |c| == 5 && c[0] == 0 && forall j :: 0 <= j < CH_N ==> Scaled(d, s, p, c, j)
    ensures Val(d) + W * c[4] == p * Val(s)
  {
    hide Chunk, Val;
    ValIs(d);
    ValIs(s);
    assert Scaled(d, s, p, c, 0) && Scaled(d, s, p, c, 1) && Scaled(d, s, p, c, 2) && Scaled(d, s, p, c, 3);
    FourTimes(p, Chunk(s, 0), Chunk(s, 1), Chunk(s, 2), Chunk(s, 3));
  }

  lemma FourTimes(p: nat, s0: nat, s1: nat, s2: nat, s3: nat)
    ensures p * (s0 + B * s1 + B * B * s2 + B * B * B * s3) == p * s0 + B * (p * s1) + B * B * (p * s2) + B * B * B * (p * s3)
  {
    calc {
      p * (s0 + B * s1 + B * B * s2 + B * B * B * s3);
      p * s0 + p * (B * s1) + p * (B * B * s2) + p * (B * B * B * s3);
    }
  }

  /** Chunk j of d times p, and the rest r[j], are chunk j of s and the rest from above. */
  ghost predicate Divided(d: seq<nat>, s: seq<nat>, p: nat, r: seq<nat>, j: nat)
    requires Num(d) && Num(s) && j < CH_N
  {
    j + 1 < |r| && B * r[j + 1] + Chunk(s, j) == Times(p, Chunk(d, j)) + r[j]
  }

  lemma DividedVal(d: seq<nat>, s: seq<nat>, p: nat, r: seq<nat>)
    requires Num(d) && Num(s) && |r| == 5 && r[4] == 0 && forall j :: 0 <= j < CH_N ==> Divided(d, s, p, r, j)
    ensures Val(s) == p * Val(d) + r[0]
  {
    hide Chunk, Val;
    ValIs(d);
    ValIs(s);
    assert Divided(d, s, p, r, 0) && Divided(d, s, p, r, 1) && Divided(d, s, p, r, 2) && Divided(d, s, p, r, 3);
    FourTimes(p, Chunk(d, 0), Chunk(d, 1), Chunk(d, 2), Chunk(d, 3));
  }

  // ---- numshift ----

  /** value << n and value >> n, for p = 1 << n. */
  function Shl(value: nat, p: nat): nat { value * p % B }

  function Shr(value: nat, p: nat): nat
    requires p > 0
  {
    value / p
  }

  /** value & (p - 1) */
  function Rest(value: nat, p: nat): nat
    requires p > 0
  {
    value % p
  }

  lemma LeftChunk(value: nat, p: nat, q: nat)
    requires value < B && p * q == B && p > 0 && q > 0
    ensures Shr(value, q) < p && Shl(value, p) + p <= B && Shl(value, p) + B * Shr(value, q) == Times(p, value)
  {
    LeftSum(value, p, q);
  }

  lemma LeftSum(value: nat, p: nat, q: nat)
    requires value < B && p * q == B && p > 0 && q > 0
    ensures value / q < p && value * p % B == (value % q) * p && (value % q) * p + p <= B
    ensures (value % q) * p + B * (value / q) == p * value
  {
    var hi, lo := value / q, value % q;
    LeftParts(hi, lo, p, q);
    Unique(value * p, hi, lo * p);
  }

  lemma LeftParts(hi: nat, lo: nat, p: nat, q: nat)
    requires lo < q && p > 0 && p * q == B && hi * q + lo < B
    ensures hi < p && lo * p + p <= B && lo * p + B * hi == p * (hi * q + lo)
  {
    if hi >= p {
      Product(p, hi, q);
    }
    Product(lo + 1, q, p);
    assert p * (hi * q) == hi * (p * q);
  }

  lemma Product(a: nat, b: nat, c: nat)
    requires a <= b
    ensures a * c <= b * c
  {
  }

  lemma Unique(x: nat, hi: nat, lo: nat)
    requires x == hi * B + lo && lo < B
    ensures x % B == lo
  {
  }

  /** carry is the rest r of the chunk above, in front of this one. */
  lemma RightChunk(value: nat, p: nat, q: nat, r: nat, carry: nat)
    requires value < B && p * q == B && p > 0 && q > 0 && r < p && carry == r * q
    ensures Rest(value, p) < p && Shl(value, q) == Rest(value, p) * q && (Shl(value, q) == 0 <==> Rest(value, p) == 0)
    ensures Shr(value, p) + carry < B && Times(p, Shr(value, p) + carry) + Rest(value, p) == B * r + value
  {
    RightSum(value, p, q, r);
    if Rest(value, p) > 0 {
      Product(1, Rest(value, p), q);
    }
  }

  lemma RightSum(value: nat, p: nat, q: nat, r: nat)
    requires value < B && p * q == B && p > 0 && q > 0 && r < p
    ensures value % p < p && value * q % B == (value % p) * q
    ensures value / p + r * q < B && p * (value / p + r * q) + value % p == B * r + value
  {
    var hi, lo := value / p, value % p;
    assert value == hi * p + lo;
    if hi >= q {
      Product(q, hi, p);
    }
    Product(lo + 1, p, q);
    calc {
      value * q;
      (hi * p + lo) * q;
      hi * (p * q) + lo * q;
      hi * B + lo * q;
    }
    Unique(value * q, hi, lo * q);
    Product(r + 1, p, q);
    calc {
      p * (hi + r * q);
      p * hi + r * (p * q);
      p * hi + r * B;
    }
  }

  method NumShift(n: int, dst: array<nat>, src: array<nat>) returns (ovf: bool)
    requires -CH_BITS < n < CH_BITS && Num(dst[..]) && Num(src[..])
    modifies dst
    ensures Num(dst[..])
    ensures n >= 0 ==> Val(dst[..]) == Power(n) * old(Val(src[..])) % W && ovf == (Power(n) * old(Val(src[..])) >= W)
    ensures n < 0 ==> Val(dst[..]) == old(Val(src[..])) / Power(-n) && ovf == (old(Val(src[..])) % Power(-n) != 0)
  {
    hide Power, Val, Num;
    if n == 0 {
      ValIs(src[..]);
      PowerZero(Val(src[..]));
      CopyNum(dst, src);
      ovf := false;
    } else if n > 0 {
      ovf := ShiftLeft(n, dst, src);
    } else {
      ovf := ShiftRight(-n, dst, src);
    }
  }

  lemma PowerZero(v: nat)
    requires v < W
    ensures Power(0) * v == v && v % W == v
  {
  }

  method CopyNum(dst: array<nat>, src: array<nat>)
    requires Num(dst[..]) && Num(src[..])
    modifies dst
    ensures Num(dst[..]) && Val(dst[..]) == old(Val(src[..]))
  {
    hide Num, Chunk, Val, PutChunk;
    ghost var s := src[..];
    var i := 0;
    while i < CH_N
      invariant 0 <= i <= CH_N && Num(dst[..]) && Num(src[..])
      invariant forall j: nat :: i <= j < CH_N ==> Chunk(src[..], j) == Chunk(s, j)
      invariant forall j: nat :: j < i ==> Chunk(dst[..], j) == Chunk(s, j)
    {
      SetChunk(dst, i, Chunk(src[..], i));
      i := i + 1;
    }
    SameVal(dst[..], s);
  }

  lemma SameVal(s: seq<nat>, s': seq<nat>)
    requires Num(s) && Num(s') && forall j: nat :: j < CH_N ==> Chunk(s, j) == Chunk(s', j)
    ensures Val(s) == Val(s')
  {
    hide Chunk, Val;
    ValIs(s);
    ValIs(s');
  }

  method SetChunk(dst: array<nat>, i: nat, v: nat)
    requires Num(dst[..]) && i < CH_N && v < B
    modifies dst
    ensures dst[..] == PutChunk(old(dst[..]), i, v)
    ensures Num(dst[..]) && Chunk(dst[..], i) == v
    ensures forall j: nat :: j < CH_N && j != i ==> Chunk(dst[..], j) == Chunk(old(dst[..]), j)
  {
    ghost var s := dst[..];
    forall j: nat | j < CH_N ensures Chunk(PutChunk(s, i, v), j) == if j == i then v else Chunk(s, j) {
      ChunkPut(s, i, v, j);
    }
    dst[4 * i], dst[4 * i + 1], dst[4 * i + 2], dst[4 * i + 3] := v % 0x100, v / 0x100 % 0x100, v / 0x1_0000 % 0x100, v / 0x100_0000;
    assert dst[..] == PutChunk(s, i, v);
  }

  method ShiftLeft(n: nat, dst: array<nat>, src: array<nat>) returns (ovf: bool)
    requires 0 < n < CH_BITS && Num(dst[..]) && Num(src[..])
    modifies dst
    ensures Num(dst[..]) && Val(dst[..]) == Power(n) * old(Val(src[..])) % W && ovf == (Power(n) * old(Val(src[..])) >= W)
  {
    hide Num, Chunk, Power, Val, Shl, Shr, PutChunk, Times;
    ghost var s := src[..];
    PowerChunk();
    PowerSum(n, CH_BITS - n);
    var p, q := Power(n), Power(CH_BITS - n);
    var carryi: nat, i := 0, 0;
    ghost var c: seq<nat> := [0];
    while i < CH_N
      invariant 0 <= i <= CH_N && Num(dst[..]) && Num(src[..]) && carryi < p
      invariant |c| == i + 1 && c[0] == 0 && c[i] == carryi
      invariant forall j :: i <= j < CH_N ==> Chunk(src[..], j) == Chunk(s, j)
      invariant forall j: nat :: j < i ==> Chunk(dst[..], j) + B * c[j + 1] == Times(p, Chunk(s, j)) + c[j]
    {
      var value := Chunk(src[..], i);
      LeftChunk(Chunk(s, i), p, q);
      SetChunk(dst, i, Shl(value, p) + carryi);
      carryi := Shr(value, q);
      c := c + [carryi];
      i := i + 1;
    }
    ScaledVal(dst[..], s, p, c);
    ValIs(dst[..]);
    Modulo(p * Val(s), c[4], Val(dst[..]));
    ovf := carryi != 0;
  }

  lemma Modulo(x: nat, hi: nat, lo: nat)
    requires x == lo + W * hi && lo < W
    ensures x % W == lo && (x >= W <==> hi != 0)
  {
  }

  /** The rests r[j] of the chunks, the lowest first; those below i are still to come. */
  method ShiftRight(n: nat, dst: array<nat>, src: array<nat>) returns (ovf: bool)
    requires 0 < n < CH_BITS && Num(dst[..]) && Num(src[..])
    modifies dst
    ensures Num(dst[..]) && Val(dst[..]) == old(Val(src[..])) / Power(n) && ovf == (old(Val(src[..])) % Power(n) != 0)
  {
    hide Num, Chunk, Power, Val, Shl, Shr, Rest, PutChunk, Times;
    ghost var s := src[..];
    PowerChunk();
    PowerSum(n, CH_BITS - n);
    var p, q := Power(n), Power(CH_BITS - n);
    var carryi: nat, i := 0, CH_N;
    ghost var r: seq<nat> := [0, 0, 0, 0, 0];
    while i > 0
      invariant 0 <= i <= CH_N && Num(dst[..]) && Num(src[..])
      invariant |r| == 5 && r[4] == 0 && r[i] < p && carryi == r[i] * q
      invariant forall j :: 0 <= j < i ==> Chunk(src[..], j) == Chunk(s, j)
      invariant forall j: nat :: i <= j < CH_N ==> B * r[j + 1] + Chunk(s, j) == Times(p, Chunk(dst[..], j)) + r[j]
    {
      i := i - 1;
      var value := Chunk(src[..], i);
      RightChunk(Chunk(s, i), p, q, r[i + 1], carryi);
      SetChunk(dst, i, Shr(value, p) + carryi);
      carryi := Shl(value, q);
      r := r[i := Rest(value, p)];
    }
    DividedVal(dst[..], s, p, r);
    Quotient(Val(s), p, Val(dst[..]), r[0]);
    Zero(r[0], q, carryi);
    ovf := carryi != 0;
  }

  lemma Zero(r: nat, q: nat, carry: nat)
    requires q > 0 && carry == r * q
    ensures carry == 0 <==> r == 0
  {
    if r > 0 {
      Product(1, r, q);
    }
  }

  lemma Quotient(x: nat, p: nat, hi: nat, lo: nat)
    requires x == p * hi + lo && lo < p
    ensures x / p == hi && x % p == lo
  {
    assert x == p * (x / p) + x % p;
    NotAbove(p, hi, x / p, lo, x % p);
    NotAbove(p, x / p, hi, x % p, lo);
  }

  lemma NotAbove(p: nat, a: nat, b: nat, lo: nat, lo': nat)
    requires p * a + lo == p * b + lo' && lo < p && lo' < p
    ensures a <= b
  {
    if a > b {
      Product(b + 1, a, p);
    }
  }

  // ---- numaddv, num1comp, numnegate ----

  /** The carry that numaddv finds by comparing: wrong exactly when both chunks are all ones and there is a carry in. */
  function CarryOut(a: nat, b: nat, value: nat): nat {
    if value < a || value < b then 1 else 0
  }

  lemma CarryExact(a: nat, b: nat, carry: nat)
    requires a < B && b < B && carry <= 1
    ensures (a + b + carry) % B + B * CarryOut(a, b, (a + b + carry) % B) == a + b + carry <==> !(a == B - 1 && b == B - 1 && carry == 1)
  {
  }

  /** The carry into chunk i, as numaddv finds it. */
  function CarryIn(a: seq<nat>, b: seq<nat>, i: nat): nat
    requires Num(a) && Num(b) && i <= CH_N
  {
    if i == 0 then 0
    else CarryOut(Chunk(a, i - 1), Chunk(b, i - 1), (Chunk(a, i - 1) + Chunk(b, i - 1) + CarryIn(a, b, i - 1)) % B)
  }

  /** The carry out of chunk i is missed. */
  predicate Missed(a: seq<nat>, b: seq<nat>, i: nat)
    requires Num(a) && Num(b) && i < CH_N
  {
    Chunk(a, i) == B - 1 && Chunk(b, i) == B - 1 && CarryIn(a, b, i) == 1
  }

  ghost predicate Exact(a: seq<nat>, b: seq<nat>)
    requires Num(a) && Num(b)
  {
    forall i: nat :: i < CH_N ==> !Missed(a, b, i)
  }

  /** The sum is right exactly when no carry is missed. */
  method NumAddV(dst: array<nat>, src1: array<nat>, src2: array<nat>) returns (ovf: bool)
    requires Num(dst[..]) && Num(src1[..]) && Num(src2[..])
    modifies dst
    ensures Num(dst[..])
    ensures Val(dst[..]) + (if ovf then W else 0) <= old(Val(src1[..])) + old(Val(src2[..]))
    ensures Exact(old(src1[..]), old(src2[..])) <==>
              Val(dst[..]) + (if ovf then W else 0) == old(Val(src1[..])) + old(Val(src2[..]))
  {
    hide Num, Chunk, Val, PutChunk, CarryOut, CarryIn, Missed, Exact;
    ghost var a, b := src1[..], src2[..];
    CarryNone(a, b);
    var carry: nat, i := 0, 0;
    while i < CH_N
      invariant 0 <= i <= CH_N && Num(dst[..]) && Num(src1[..]) && Num(src2[..]) && carry == CarryIn(a, b, i)
      invariant forall j: nat :: i <= j < CH_N ==> Chunk(src1[..], j) == Chunk(a, j) && Chunk(src2[..], j) == Chunk(b, j)
      invariant forall j: nat :: j < i ==> Chunk(dst[..], j) == (Chunk(a, j) + Chunk(b, j) + CarryIn(a, b, j)) % B
    {
      var x, y := Chunk(src1[..], i), Chunk(src2[..], i);
      var value := (x + y + carry) % B;
      CarryNext(a, b, i);
      SetChunk(dst, i, value);
      carry := CarryOut(x, y, value);
      i := i + 1;
    }
    SumVal(dst[..], a, b);
    ovf := carry != 0;
  }

  /** Chunk i of the sum as numaddv computes it. */
  ghost predicate Summed(d: seq<nat>, a: seq<nat>, b: seq<nat>, i: nat)
    requires Num(d) && Num(a) && Num(b) && i < CH_N
  {
    Chunk(d, i) == (Chunk(a, i) + Chunk(b, i) + CarryIn(a, b, i)) % B
  }

  lemma CarryNone(a: seq<nat>, b: seq<nat>)
    requires Num(a) && Num(b)
    ensures CarryIn(a, b, 0) == 0
  {
  }

  lemma CarryNext(a: seq<nat>, b: seq<nat>, i: nat)
    requires Num(a) && Num(b) && i < CH_N
    ensures CarryIn(a, b, i) <= 1
    ensures CarryIn(a, b, i + 1) == CarryOut(Chunk(a, i), Chunk(b, i), (Chunk(a, i) + Chunk(b, i) + CarryIn(a, b, i)) % B)
  {
    hide Num, Chunk;
    if i > 0 {
      CarryBound(Chunk(a, i - 1), Chunk(b, i - 1), (Chunk(a, i - 1) + Chunk(b, i - 1) + CarryIn(a, b, i - 1)) % B);
    }
  }

  lemma CarryBound(a: nat, b: nat, value: nat)
    ensures CarryOut(a, b, value) <= 1
  {
  }

  /** What chunk i and its carry come to: a missed carry is lost. */
  lemma ChunkSum(d: seq<nat>, a: seq<nat>, b: seq<nat>, i: nat)
    requires Num(a) && Num(b) && i < CH_N
    ensures CarryIn(a, b, i + 1) <= 1
    requires Num(d) && Summed(d, a, b, i)
    ensures Chunk(d, i) + B * CarryIn(a, b, i + 1) + Lost(a, b, i) == Chunk(a, i) + Chunk(b, i) + CarryIn(a, b, i)
  {
    hide Num, Chunk, CarryIn;
    CarryNext(a, b, i);
    CarryExact(Chunk(a, i), Chunk(b, i), CarryIn(a, b, i));
  }

  lemma FourChunks(d0: nat, d1: nat, d2: nat, d3: nat, a0: nat, a1: nat, a2: nat, a3: nat, b0: nat, b1: nat, b2: nat, b3: nat,
                   c1: nat, c2: nat, c3: nat, c4: nat, e0: nat, e1: nat, e2: nat, e3: nat) returns (lost: nat)
    requires d0 + B * c1 + e0 == a0 + b0 && d1 + B * c2 + e1 == a1 + b1 + c1
    requires d2 + B * c3 + e2 == a2 + b2 + c2 && d3 + B * c4 + e3 == a3 + b3 + c3
    ensures lost == 0 <==> e0 == e1 == e2 == e3 == 0
    ensures d0 + B * d1 + B * B * d2 + B * B * B * d3 + W * c4 + lost
         == (a0 + B * a1 + B * B * a2 + B * B * B * a3) + (b0 + B * b1 + B * B * b2 + B * B * B * b3)
  {
    lost := e0 + B * e1 + B * B * e2 + B * B * B * e3;
  }

  /** What is lost of chunk i. */
  function Lost(a: seq<nat>, b: seq<nat>, i: nat): nat
    requires Num(a) && Num(b) && i < CH_N
  {
    if Missed(a, b, i) then B else 0
  }

  lemma SumVal(d: seq<nat>, a: seq<nat>, b: seq<nat>)
    requires Num(d) && Num(a) && Num(b)
    requires forall j: nat :: j < CH_N ==> Summed(d, a, b, j)
    ensures CarryIn(a, b, CH_N) <= 1 && Val(d) + W * CarryIn(a, b, CH_N) <= Val(a) + Val(b)
    ensures Exact(a, b) <==> Val(d) + W * CarryIn(a, b, CH_N) == Val(a) + Val(b)
  {
    hide Num, Chunk, Val, CarryIn, Lost, Summed, Exact;
    ExactIs(a, b);
    ValIs(d);
    ValIs(a);
    ValIs(b);
    CarryNone(a, b);
    ChunkSum(d, a, b, 0);
    ChunkSum(d, a, b, 1);
    ChunkSum(d, a, b, 2);
    ChunkSum(d, a, b, 3);
    var lost := FourChunks(Chunk(d, 0), Chunk(d, 1), Chunk(d, 2), Chunk(d, 3),
               Chunk(a, 0), Chunk(a, 1), Chunk(a, 2), Chunk(a, 3), Chunk(b, 0), Chunk(b, 1), Chunk(b, 2), Chunk(b, 3),
               CarryIn(a, b, 1), CarryIn(a, b, 2), CarryIn(a, b, 3), CarryIn(a, b, 4),
               Lost(a, b, 0), Lost(a, b, 1), Lost(a, b, 2), Lost(a, b, 3));
  }

  lemma ExactIs(a: seq<nat>, b: seq<nat>)
    requires Num(a) && Num(b)
    ensures Exact(a, b) <==> Lost(a, b, 0) == Lost(a, b, 1) == Lost(a, b, 2) == Lost(a, b, 3) == 0
  {
    hide Chunk, CarryIn, Num;
  }

  const ONES: seq<nat> := [255, 255, 255, 255, 255, 255, 255, 255, 255, 255, 255, 255, 255, 255, 255, 255]

  /** All ones twice: the carry out of the second chunk is missed. */
  lemma OnesMissed()
    ensures Num(ONES) && CarryIn(ONES, ONES, 1) == 1 && Missed(ONES, ONES, 1) && !Exact(ONES, ONES)
  {
    assert Chunk(ONES, 0) == B - 1 && Chunk(ONES, 1) == B - 1;
    assert CarryIn(ONES, ONES, 0) == 0;
    assert Missed(ONES, ONES, 1);
  }

  /** No carry is missed when no chunk is all ones in both numbers. */
  lemma NoneMissed(a: seq<nat>, b: seq<nat>)
    requires Num(a) && Num(b) && forall i: nat :: i < CH_N ==> Chunk(a, i) != B - 1 || Chunk(b, i) != B - 1
    ensures Exact(a, b)
  {
  }

  method Num1Comp(dst: array<nat>, src: array<nat>)
    requires Num(dst[..]) && Num(src[..])
    modifies dst
    ensures Num(dst[..]) && Val(dst[..]) == W - 1 - old(Val(src[..]))
  {
    hide Num, Chunk, Val, PutChunk;
    ghost var s := src[..];
    var i := 0;
    while i < CH_N
      invariant 0 <= i <= CH_N && Num(dst[..]) && Num(src[..])
      invariant forall j: nat :: i <= j < CH_N ==> Chunk(src[..], j) == Chunk(s, j)
      invariant forall j: nat :: j < i ==> Chunk(dst[..], j) == B - 1 - Chunk(s, j)
    {
      SetChunk(dst, i, B - 1 - Chunk(src[..], i));
      i := i + 1;
    }
    ValIs(dst[..]);
    ValIs(s);
  }

  /** The two's complement. */
  method NumNegate(dst: array<nat>, src: array<nat>) returns (ovf: bool)
    requires Num(dst[..]) && Num(src[..])
    modifies dst
    ensures Num(dst[..]) && Val(dst[..]) == (W - old(Val(src[..]))) % W
    ensures ovf == (old(Val(src[..])) == 0)
  {
    hide Num, Chunk, Val;
    ValIs(src[..]);
    Num1Comp(dst, src);
    var work := new nat[16](i => if i == 0 then 1 else 0);
    OneVal(work[..], dst[..]);
    ovf := NumAddV(dst, dst, work);
    ValIs(dst[..]);
  }

  lemma OneVal(s: seq<nat>, d: seq<nat>)
    requires |s| == 16 && (forall i :: 0 <= i < 16 ==> s[i] == if i == 0 then 1 else 0) && Num(d)
    ensures Num(s) && Val(s) == 1 && Exact(d, s)
  {
    assert Chunk(s, 0) == 1 && Chunk(s, 1) == 0 && Chunk(s, 2) == 0 && Chunk(s, 3) == 0;
    ValIs(s);
    NoneMissed(d, s);
  }

  lemma ClearVal(s: seq<nat>)
    requires Num(s)
    ensures Val(s) == 0 <==> forall i: nat :: i < CH_N ==> Chunk(s, i) == 0
  {
    ValIs(s);
  }

  method IsClear(src: array<nat>) returns (clear: bool)
    requires Num(src[..])
    ensures clear <==> Val(src[..]) == 0
  {
    hide Num, Chunk, Val;
    ClearVal(src[..]);
    var i := 0;
    while i < CH_N
      invariant 0 <= i <= CH_N && forall j: nat :: j < i ==> Chunk(src[..], j) == 0
    {
      if Chunk(src[..], i) != 0 {
        return false;
      }
      i := i + 1;
    }
    clear := true;
  }
}
