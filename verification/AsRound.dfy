/** Rounding: upround of bignum2.c. */
module AsRound {
  import opened AsNum
  import opened AsBytes
  import opened AsDesc

  /** The lowest byte of the mantissa, when its fraction ends on a byte. */
  function Lowest(p: Desc): int { 16 - (p.msigbits - 1 + p.mlshift) / 8 }

  /** One unit in the last place of the shifted mantissa, and the weight of the bit in front of it. */
  function Ulp(t: Type): nat
    requires !Integer(t)
  {
    match t
    case TYPF => Weight(13)
    case TYPD => Weight(9)
    case TYPG => Weight(9)
    case TYPH => Weight(2)
  }

  function Limit(t: Type): nat
    requires !Integer(t)
  {
    match t
    case TYPF => Weight(15) * 0x80
    case TYPD => Weight(15) * 0x80
    case TYPG => Weight(15) * 0x10
    case TYPH => W
  }

  lemma FloatDesc(t: Type)
    requires !Integer(t)
    ensures var p := TyBigdesc(t);
            && (p.mlshift == 0 || p.mlshift == 1 || p.mlshift == 4) && (p.msigbits - 1 + p.mlshift) % 8 == 0
            && 2 <= Lowest(p) <= 13 && Ulp(t) == Weight(Lowest(p))
            && Limit(t) == Weight(15) * Power(8 - p.mlshift)
  {
    Powers();
  }

  /** What is left of a number after a shift, without the trash in its high order byte. */
  function Wrapped(f: nat, x: nat, t: Type): nat
    requires !Integer(t)
  {
    f * x % W % Limit(t)
  }

  /** What the sum of upround comes to. */
  lemma RoundSum(t: Type, T: nat, S: nat)
    requires !Integer(t) && T < Limit(t) && S == T / 4 + Limit(t) / 4 + Ulp(t) / 8
    ensures S < Limit(t)
    ensures 2 * S >= Limit(t) <==> T + Ulp(t) / 2 >= Limit(t)
    ensures T + Ulp(t) / 2 < Limit(t) ==> Wrapped(4, S, t) == T - T % 4 + Ulp(t) / 2
    ensures T + Ulp(t) / 2 >= Limit(t) ==> Wrapped(2, S, t) < Ulp(t)
  {
    var d, k, f := Sixteenths(t);
    RoundConst(T / 4, T % 4, S, d, k, f);
  }

  lemma Sixteenths(t: Type) returns (d: nat, k: nat, f: nat)
    requires !Integer(t)
    ensures Limit(t) == 16 * d && Ulp(t) == 16 * k && W == f * (16 * d) && 0 < 2 * k <= d && f > 0
    ensures Limit(t) / 4 == 4 * d && Ulp(t) / 8 == 2 * k && Ulp(t) / 2 == 8 * k
  {
    d, k := Limit(t) / 16, Ulp(t) / 16;
    match t
    case TYPF => f := 2;
    case TYPD => f := 2;
    case TYPG => f := 16;
    case TYPH => f := 1;
  }

  /** t4 and t0 are the quotient and the rest of the mantissa divided by 4. */
  lemma RoundConst(t4: nat, t0: nat, S: nat, d: nat, k: nat, f: nat)
    requires 0 < 2 * k <= d && W == f * (16 * d) && f > 0
    requires t0 < 4 && 4 * t4 + t0 < 16 * d && S == t4 + 4 * d + 2 * k
    ensures S < 16 * d
    ensures 2 * S >= 16 * d <==> 4 * t4 + t0 + 8 * k >= 16 * d
    ensures 4 * t4 + t0 + 8 * k < 16 * d ==> 4 * S % W % (16 * d) == 4 * t4 + 8 * k
    ensures 4 * t4 + t0 + 8 * k >= 16 * d ==> 2 * S % W % (16 * d) < 16 * k
  {
    if 4 * t4 + t0 + 8 * k < 16 * d {
      ModMod(4 * S, 16 * d, f);
      Quotient(4 * S, 16 * d, 1, 4 * t4 + 8 * k);
    } else {
      ModMod(2 * S, 16 * d, f);
      Quotient(2 * S, 16 * d, 1, 2 * S - 16 * d);
    }
  }

  lemma LimitIs(t: Type)
    requires !Integer(t)
    ensures var ml := TyBigdesc(t).mlshift;
            ml <= 4 && Limit(t) == Power(8 - ml) * Weight(15) && Limit(t) / 4 == Power(6 - ml) * Weight(15) &&
            Limit(t) == 2 * (Power(7 - ml) * Weight(15)) && Power(6 - ml) <= 64 && Limit(t) % 4 == 0
  {
    Powers();
  }

  /** The assumed fraction bit goes in front of a mantissa shifted right by two. */
  lemma HiddenBit(s: seq<nat>, t: Type, T: nat)
    requires !Integer(t) && Num(s) && T < Limit(t) && Val(s) == T / 4
    ensures var bit := Power(6 - TyBigdesc(t).mlshift);
            Or(s[15], bit) < 256 && Val(s[15 := Or(s[15], bit)]) == T / 4 + Limit(t) / 4
  {
    hide Val, TyBigdesc, Weight, Power;
    LimitIs(t);
    var n := 6 - TyBigdesc(t).mlshift;
    TopBits(s, Power(n));
    OneTimes(Power(n));
    OrApart(s[15], Power(n), n);
    ByteChanged(s, 15, s[15] + Power(n));
  }

  lemma UlpVal(s: seq<nat>, i: nat, d: seq<nat>, t: Type)
    requires !Integer(t) && |s| == 16 && i == Lowest(TyBigdesc(t)) - 1 < 16 && Num(d)
    requires forall j :: 0 <= j < 16 ==> s[j] == if j == i then 0x20 else 0
    ensures Num(s) && Val(s) == Ulp(t) / 8 && Exact(d, s)
  {
    var zero := seq(16, _ => 0);
    ZeroVal(zero);
    ByteChanged(zero, i, 0x20);
    assert zero[i := 0x20] == s;
    forall c: nat | c < CH_N ensures Chunk(s, c) != B - 1 {
    }
    NoneMissed(d, s);
    UlpEighth(t);
  }

  lemma UlpEighth(t: Type)
    requires !Integer(t)
    ensures 1 <= Lowest(TyBigdesc(t)) <= 16 && Ulp(t) / 8 == 0x20 * Weight(Lowest(TyBigdesc(t)) - 1)
  {
  }

  /** The trash is cleared off the highest byte. */
  lemma MaskTop(s: seq<nat>, t: Type)
    requires !Integer(t) && Num(s)
    ensures var m := Keep(s[15], 8 - TyBigdesc(t).mlshift);
            m < 256 && Num(s[15 := m]) && Val(s[15 := m]) == Val(s) % Limit(t)
  {
    hide Val, TyBigdesc, Weight, Power, Keep;
    LimitIs(t);
    var n := 8 - TyBigdesc(t).mlshift;
    var m := Keep(s[15], n);
    var hi := Kept(s[15], n);
    TopByte(s);
    ByteChanged(s, 15, m);
    TopByte(s[15 := m]);
    MaskSum(Val(s), Val(s[15 := m]), Power(n), Weight(15), s[15], m, hi);
    Quotient(Val(s), Limit(t), hi, Val(s[15 := m]));
  }

  lemma MaskSum(v: nat, v': nat, a: nat, w: nat, b: nat, m: nat, hi: nat)
    requires b == a * hi + m && m < a && v' == v + (m - b) * w && v' < (m + 1) * w
    ensures v == (a * w) * hi + v' && v' < a * w
  {
    Product(m + 1, a, w);
    assert (b - m) * w == (a * hi) * w;
  }

  lemma OverflowBit(s: seq<nat>, t: Type)
    requires !Integer(t) && Num(s) && Val(s) < Limit(t)
    ensures |s| == 16 && TyBigdesc(t).mlshift <= 7
    ensures Bit(s[15], 7 - TyBigdesc(t).mlshift) <==> 2 * Val(s) >= Limit(t)
  {
    hide Val, TyBigdesc, Weight, Power, Bit;
    LimitIs(t);
    var n := 7 - TyBigdesc(t).mlshift;
    PowerBound(n);
    TopBits(s, Power(n + 1));
    TopBits(s, Power(n));
    HighestBit(s[15], n);
  }

  /** 1/2 ulp is added to a mantissa in place; a carry out of the fraction raises the exponent. */
  method UpRound(number: array<nat>, p: Desc, exponent: int, ghost t: Type) returns (e: int)
    requires !Integer(t) && p == TyBigdesc(t) && Num(number[..]) && Val(number[..]) < Limit(t)
    modifies number
    ensures Num(number[..])
    ensures var T, half := old(Val(number[..])), Ulp(t) / 2;
            if T + half < Limit(t) then e == exponent && Val(number[..]) == T - T % 4 + half
            else e == exponent + 1 && Val(number[..]) < Ulp(t)
  {
    hide Val, TyBigdesc, Weight, Power, Or, Bit, Ulp, Limit, Chunk, Num, Keep, Wrapped;
    ghost var T := Val(number[..]);
    ghost var S := T / 4 + Limit(t) / 4 + Ulp(t) / 8;
    RoundSum(t, T, S);
    AddHalf(number, p, t);
    LimitIs(t);
    OverflowBit(number[..], t);
    e := exponent;
    if Bit(number[15], 7 - p.mlshift) {
      e := exponent + 1;
      ShiftBack(number, 2 - 1, p, t);
    } else {
      ShiftBack(number, 2, p, t);
    }
  }

  /** The shift back, and the trash in the unused bits of the high order byte cleared. */
  method ShiftBack(number: array<nat>, n: nat, p: Desc, ghost t: Type)
    requires !Integer(t) && p == TyBigdesc(t) && Num(number[..]) && (n == 1 || n == 2)
    modifies number
    ensures Num(number[..]) && Val(number[..]) == Wrapped(if n == 1 then 2 else 4, old(Val(number[..])), t)
  {
    hide Val, TyBigdesc, Weight, Power, Limit, Keep;
    TwoShifts(Val(number[..]));
    LimitIs(t);
    var ovf := NumShift(n, number, number);
    MaskTop(number[..], t);
    SetByte(number, 15, Keep(number[15], 8 - p.mlshift));
  }

  /** The number shifted right by two, with the assumed fraction bit, and 1/2 ulp more. */
  method AddHalf(number: array<nat>, p: Desc, ghost t: Type)
    requires !Integer(t) && p == TyBigdesc(t) && Num(number[..]) && Val(number[..]) < Limit(t)
    requires Val(number[..]) / 4 + Limit(t) / 4 + Ulp(t) / 8 < Limit(t)
    modifies number
    ensures Num(number[..]) && Val(number[..]) == old(Val(number[..])) / 4 + Limit(t) / 4 + Ulp(t) / 8
  {
    hide Val, TyBigdesc, Weight, Power, Or, Ulp, Limit, Chunk;
    ghost var T := Val(number[..]);
    FloatDesc(t);
    OnlyPowers();
    var nbytes := (p.msigbits - 1 + p.mlshift) / 8;
    var byteindex := 15 - nbytes;
    var ovf := NumShift(-2, number, number);
    HiddenBit(number[..], t, T);
    SetByte(number, 15, Or(number[15], Power(6 - p.mlshift)));
    var ulp := new nat[16](_ => 0);
    ulp[byteindex] := 0x20;
    UlpVal(ulp[..], byteindex, number[..], t);
    LimitSmall(t);
    ovf := NumAddV(number, number, ulp);
  }

  lemma LimitSmall(t: Type)
    requires !Integer(t)
    ensures Limit(t) <= W
  {
  }
}
