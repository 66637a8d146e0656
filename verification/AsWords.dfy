/** The packed types as words of 16 bits, the lowest byte of a word first: what the bytes of each type say, without the
    tables by which the program finds them. */
module AsWords {
  import opened AsNum
  import opened AsBytes
  import opened AsDesc
  import opened AsRound
  import opened AsPack
  import opened AsTrip

  function Word(s: seq<nat>, k: nat): nat
    requires Num(s) && k < 8
  {
    s[2 * k] + 0x100 * s[2 * k + 1]
  }

  /** The fraction: what the first word holds of it, then the other words. */
  function FractionField(t: Type, s: seq<nat>): nat
    requires !Integer(t) && Num(s)
  {
    match t
    case TYPF => Word(s, 0) % 0x80 * 0x1_0000 + Word(s, 1)
    case TYPD => Word(s, 0) % 0x80 * 0x1_0000_0000_0000 + Word(s, 1) * 0x1_0000_0000 + Word(s, 2) * 0x1_0000 + Word(s, 3)
    case TYPG => Word(s, 0) % 0x10 * 0x1_0000_0000_0000 + Word(s, 1) * 0x1_0000_0000 + Word(s, 2) * 0x1_0000 + Word(s, 3)
    case TYPH =>
      Word(s, 1) * 0x1_0000_0000_0000_0000_0000_0000 + Word(s, 2) * 0x1_0000_0000_0000_0000_0000
      + Word(s, 3) * 0x1_0000_0000_0000_0000 + Word(s, 4) * 0x1_0000_0000_0000
      + Word(s, 5) * 0x1_0000_0000 + Word(s, 6) * 0x1_0000 + Word(s, 7)
  }

  /** One unit of that fraction, in the fraction of 128 bits. */
  function Unit(t: Type): nat
    requires !Integer(t)
  {
    match t
    case TYPF => Power(105)
    case TYPD => Power(73)
    case TYPG => Power(76)
    case TYPH => Power(16)
  }

  function ExponentField(t: Type, s: seq<nat>): nat
    requires !Integer(t) && Num(s)
  {
    match t
    case TYPF => Word(s, 0) / 0x80 % 0x100
    case TYPD => Word(s, 0) / 0x80 % 0x100
    case TYPG => Word(s, 0) / 0x10 % 0x800
    case TYPH => Word(s, 0) % 0x8000
  }

  function ExponentLimit(t: Type): nat
    requires !Integer(t)
  {
    match t
    case TYPF => 0x100
    case TYPD => 0x100
    case TYPG => 0x800
    case TYPH => 0x8000
  }

  function Excess(t: Type): nat
    requires !Integer(t)
  {
    match t
    case TYPF => 128
    case TYPD => 128
    case TYPG => 1024
    case TYPH => 16384
  }

  predicate SignBitOf(s: seq<nat>)
    requires Num(s)
  {
    Word(s, 0) >= 0x8000
  }

  // ---- unpacking ----

  /** u is the float that the words say. */
  ghost predicate ReadFloat(t: Type, packed: seq<nat>, u: Unpacked)
    requires !Integer(t) && Num(packed)
  {
    && Num(u.frac) && Val(u.frac) == FractionField(t, packed) * Unit(t)
    && u.exponent == ExponentField(t, packed) - Excess(t)
    && u.sign == (if SignBitOf(packed) then -1 else 0)
  }

  /** u is the integer in n bits, in two's complement: half of the fraction with the assumed one in front, times two
      to the exponent. */
  ghost predicate ReadInteger(n: nat, packed: seq<nat>, u: Unpacked)
    requires 0 < n <= 128 && Num(packed)
  {
    var V := Val(packed);
    var A := if V >= Power(n - 1) then Power(n) - V else V;
    && Num(u.frac) && u.sign == (if V >= Power(n - 1) then -1 else 0)
    && 1 <= u.exponent <= n && A * Power(129 - u.exponent) == W + Val(u.frac)
  }

  lemma BytesOfF(packed: seq<nat>)
    requires Num(packed)
    ensures var m := Mantissa(TYPF, packed); m[13] == packed[2] && m[14] == packed[3] && m[15] == packed[0]
  {
    hide Mantissa;
    MantissaByte(TYPF, packed, 13);
    MantissaByte(TYPF, packed, 14);
    MantissaByte(TYPF, packed, 15);
  }

  lemma BytesOfD(t: Type, packed: seq<nat>)
    requires Num(packed) && (t.TYPD? || t.TYPG?)
    ensures var m := Mantissa(t, packed);
            && m[9] == packed[6] && m[10] == packed[7] && m[11] == packed[4] && m[12] == packed[5]
            && m[13] == packed[2] && m[14] == packed[3] && m[15] == packed[0]
  {
    hide Mantissa;
    forall j | 9 <= j < 16 ensures Mantissa(t, packed)[j] == packed[D_P[j]] {
      MantissaByte(t, packed, j);
    }
  }

  /** Word k of the packed number is in the mantissa, last word first. */
  predicate Copied(m: seq<nat>, packed: seq<nat>, k: nat)
    requires Num(m) && Num(packed) && 1 <= k < 8
  {
    m[16 - 2 * k] == packed[2 * k] && m[17 - 2 * k] == packed[2 * k + 1]
  }

  lemma BytesOfH(packed: seq<nat>, k: nat)
    requires Num(packed) && 1 <= k < 8
    ensures Copied(Mantissa(TYPH, packed), packed, k)
  {
    hide Mantissa;
    MantissaByte(TYPH, packed, 16 - 2 * k);
    MantissaByte(TYPH, packed, 17 - 2 * k);
  }

  /** The number that the bytes of two words make, from byte k on. */
  lemma TailWord(m: seq<nat>, k: nat, lo: nat, hi: nat)
    requires Num(m) && k + 2 <= 16 && m[k] == lo && m[k + 1] == hi
    ensures Tail(m, k) == lo + 0x100 * hi + 0x1_0000 * Tail(m, k + 2)
  {
    assert Tail(m, k + 1) == hi + 256 * Tail(m, k + 2);
  }

  lemma TailEnd(m: seq<nat>)
    requires Num(m)
    ensures Tail(m, 15) == m[15] && Tail(m, 16) == 0
  {
    assert Tail(m, 16) == 0;
  }

  lemma LowBits(p0: nat, p1: nat)
    ensures (p0 + 0x100 * p1) % 0x80 == p0 % 0x80 && (p0 + 0x100 * p1) % 0x10 == p0 % 0x10
  {
    Quotient(p0 + 0x100 * p1, 0x80, 2 * p1 + p0 / 0x80, p0 % 0x80);
    Quotient(p0 + 0x100 * p1, 0x10, 0x10 * p1 + p0 / 0x10, p0 % 0x10);
  }

  lemma FieldF(packed: seq<nat>, mt: seq<nat>)
    requires Num(packed) && Num(mt) && mt[13] == packed[2] && mt[14] == packed[3] && mt[15] == packed[0] % 0x80
    ensures Tail(mt, 13) == FractionField(TYPF, packed)
  {
    hide Tail;
    LowBits(packed[0], packed[1]);
    TailWord(mt, 13, packed[2], packed[3]);
    TailEnd(mt);
  }

  lemma FieldD(t: Type, packed: seq<nat>, mt: seq<nat>)
    requires Num(packed) && Num(mt) && (t.TYPD? || t.TYPG?)
    requires mt[9] == packed[6] && mt[10] == packed[7] && mt[11] == packed[4] && mt[12] == packed[5]
    requires mt[13] == packed[2] && mt[14] == packed[3] && mt[15] == packed[0] % (if t.TYPD? then 0x80 else 0x10)
    ensures Tail(mt, 9) == FractionField(t, packed)
  {
    hide Tail, FractionField;
    LowBits(packed[0], packed[1]);
    TailWord(mt, 9, packed[6], packed[7]);
    TailWord(mt, 11, packed[4], packed[5]);
    TailWord(mt, 13, packed[2], packed[3]);
    TailEnd(mt);
    FieldIsD(t, packed, mt[15]);
  }

  lemma FieldIsD(t: Type, packed: seq<nat>, top: nat)
    requires Num(packed) && (t.TYPD? || t.TYPG?) && top == Word(packed, 0) % (if t.TYPD? then 0x80 else 0x10)
    ensures FractionField(t, packed)
         == Word(packed, 3) + 0x1_0000 * (Word(packed, 2) + 0x1_0000 * (Word(packed, 1) + 0x1_0000 * top))
  {
  }

  lemma FieldH(packed: seq<nat>, mt: seq<nat>)
    requires Num(packed) && Num(mt) && forall k: nat :: 1 <= k < 8 ==> Copied(mt, packed, k)
    ensures Tail(mt, 2) == FractionField(TYPH, packed)
  {
    hide Tail, Copied;
    assert Tail(mt, 16) == 0 by { TailEnd(mt); }
    TailCopied(mt, packed, 1);
    TailCopied(mt, packed, 2);
    TailCopied(mt, packed, 3);
    TailCopied(mt, packed, 4);
    TailCopied(mt, packed, 5);
    TailCopied(mt, packed, 6);
    TailCopied(mt, packed, 7);
  }

  lemma TailCopied(mt: seq<nat>, packed: seq<nat>, k: nat)
    requires Num(packed) && Num(mt) && 1 <= k < 8 && Copied(mt, packed, k)
    ensures Tail(mt, 16 - 2 * k) == Word(packed, k) + 0x1_0000 * Tail(mt, 18 - 2 * k)
  {
    TailWord(mt, 16 - 2 * k, packed[2 * k], packed[2 * k + 1]);
  }

  /** The bytes of the mantissa without exponent bits. */
  lemma TrimmedBytes(t: Type, packed: seq<nat>)
    requires !Integer(t) && Num(packed)
    ensures var m, mt := Mantissa(t, packed), Trimmed(t, Mantissa(t, packed));
            && (forall j: nat :: j < 15 ==> mt[j] == m[j])
            && mt[15] == m[15] % (if t.TYPH? then 0x100 else if t.TYPG? then 0x10 else 0x80)
  {
    hide Mantissa, Trimmed;
    var m := Mantissa(t, packed);
    Powers();
    TrimmedVal(t, m);
    forall j: nat | j < 15 ensures Trimmed(t, m)[j] == m[j] {
      TrimmedByte(t, m, j);
    }
  }

  lemma TailF(packed: seq<nat>)
    requires Num(packed)
    ensures Tail(Trimmed(TYPF, Mantissa(TYPF, packed)), 13) == FractionField(TYPF, packed)
  {
    hide Mantissa, Trimmed, Tail, FractionField;
    TrimmedBytes(TYPF, packed);
    BytesOfF(packed);
    FieldF(packed, Trimmed(TYPF, Mantissa(TYPF, packed)));
  }

  lemma TailD(t: Type, packed: seq<nat>)
    requires Num(packed) && (t.TYPD? || t.TYPG?)
    ensures Tail(Trimmed(t, Mantissa(t, packed)), 9) == FractionField(t, packed)
  {
    hide Mantissa, Trimmed, Tail, FractionField;
    TrimmedBytes(t, packed);
    BytesOfD(t, packed);
    FieldD(t, packed, Trimmed(t, Mantissa(t, packed)));
  }

  lemma TailH(packed: seq<nat>)
    requires Num(packed)
    ensures Tail(Trimmed(TYPH, Mantissa(TYPH, packed)), 2) == FractionField(TYPH, packed)
  {
    hide Mantissa, Trimmed, Tail, FractionField;
    TrimmedBytes(TYPH, packed);
    var m := Mantissa(TYPH, packed);
    forall k: nat | 1 <= k < 8 ensures Copied(Trimmed(TYPH, m), packed, k) {
      BytesOfH(packed, k);
      assert 17 - 2 * k == 15 ==> Trimmed(TYPH, m)[15] == m[15] % 0x100 == m[15];
    }
    FieldH(packed, Trimmed(TYPH, m));
  }

  /** The mantissa without exponent bits is the fraction field above the bytes that the type does not have. */
  lemma FieldTail(t: Type, packed: seq<nat>)
    requires !Integer(t) && Num(packed)
    ensures 2 <= Lowest(TyBigdesc(t)) <= 13
    ensures Tail(Trimmed(t, Mantissa(t, packed)), Lowest(TyBigdesc(t))) == FractionField(t, packed)
  {
    hide Mantissa, Trimmed, Tail, FractionField;
    match t {
      case TYPF => TailF(packed);
      case TYPD => TailD(t, packed);
      case TYPG => TailD(t, packed);
      case TYPH => TailH(packed);
    }
  }

  lemma UnitIs(t: Type)
    requires !Integer(t)
    ensures Unit(t) == Power(TyBigdesc(t).mlshift) * Ulp(t) == UlpOfFraction(t)
  {
    hide Power, Weight;
    PowerWeight(13);
    PowerWeight(9);
    PowerWeight(2);
    PowerSum(1, 104);
    PowerSum(1, 72);
    PowerSum(4, 72);
    PowerSum(0, 16);
  }

  /** The value of the mantissa without exponent bits. */
  lemma TrimmedField(t: Type, packed: seq<nat>)
    requires !Integer(t) && Num(packed)
    ensures Val(Trimmed(t, Mantissa(t, packed))) == Ulp(t) * FractionField(t, packed)
  {
    hide Val, TyBigdesc, Mantissa, Weight, Power, Ulp, Limit, Trimmed, FractionField, Lowest;
    var m, k := Mantissa(t, packed), Lowest(TyBigdesc(t));
    var mt := Trimmed(t, m);
    FieldTail(t, packed);
    FloatDesc(t);
    forall j | 0 <= j < k ensures mt[j] == 0 {
      FloatByte(t, packed, j);
      TrimmedByte(t, m, j);
    }
    SplitAt(mt, k);
    BelowZero(mt, k);
  }

  lemma HeadFields(t: Type, packed: seq<nat>)
    requires !Integer(t) && Num(packed)
    ensures Biased(t, packed) == ExponentField(t, packed) && (Negative(packed) <==> SignBitOf(packed))
    ensures TyBigdesc(t).eexcess == Excess(t) && Power(TyBigdesc(t).esigbits) == ExponentLimit(t)
  {
    Powers();
    PowerSum(8, 3);
    PowerSum(8, 7);
    HeadField(Head(packed));
  }

  lemma HeadField(h: nat)
    requires h < 0x1_0000
    ensures h % 0x8000 / 0x80 % 0x100 == h / 0x80 % 0x100
    ensures h % 0x8000 / 0x10 % 0x800 == h / 0x10 % 0x800
    ensures h % 0x8000 / 1 % 0x8000 == h % 0x8000
  {
    FieldOf(h, 0x80, 0x100);
    FieldOf(h, 0x10, 0x800);
  }

  lemma FieldOf(h: nat, e: nat, n: nat)
    requires e > 0 && n > 0 && e * n == 0x8000
    ensures h % 0x8000 / e % n == h / e % n
  {
    var s, r := h / 0x8000, h % 0x8000;
    DivRest(r, e);
    assert h == 0x8000 * s + r;
    assert (e * n) * s == e * (n * s);
    Quotient(h, e, n * s + r / e, r % e);
    if r / e >= n {
      Product(n, r / e, e);
    }
    Quotient(n * s + r / e, n, s, r / e);
    Quotient(r / e, n, 0, r / e);
  }

  /** Unpacking a float reads its words. */
  lemma FloatWords(t: Type, packed: seq<nat>, u: Unpacked)
    requires !Integer(t) && Num(packed)
    ensures UnpackedFloat(t, packed, u) <==> ReadFloat(t, packed, u)
  {
    hide Val, TyBigdesc, Mantissa, Weight, Power, Ulp, Limit, Trimmed, FractionField, Biased, Negative, Unit, UlpOfFraction, ExponentField, Excess, SignBitOf;
    var m := Val(Mantissa(t, packed));
    HeadFields(t, packed);
    BackAndForth(t, m);
    TrimmedVal(t, Mantissa(t, packed));
    TrimmedField(t, packed);
    UnitIs(t);
    Assoc(Power(TyBigdesc(t).mlshift), Ulp(t), FractionField(t, packed));
  }

  // ---- integers ----

  /** Bytes from s on, moved down to the first one. */
  lemma {:induction false} TailMoved(m: seq<nat>, packed: seq<nat>, s: nat, i: nat)
    requires Num(m) && Num(packed) && i + s <= 16
    requires forall j :: 0 <= j < 16 ==> packed[j] == if j + s < 16 then m[j + s] else 0
    ensures Tail(m, i + s) == Tail(packed, i)
    decreases 16 - i
  {
    if i + s == 16 {
      TailClear(packed, i);
    } else {
      TailMoved(m, packed, s, i + 1);
    }
  }

  lemma {:induction false} TailClear(s: seq<nat>, i: nat)
    requires Num(s) && i <= 16 && forall j :: i <= j < 16 ==> s[j] == 0
    ensures Tail(s, i) == 0
    decreases 16 - i
  {
    if i < 16 {
      TailClear(s, i + 1);
    }
  }

  predicate Moved(m: seq<nat>, packed: seq<nat>, s: nat)
    requires Num(m) && Num(packed)
  {
    forall j :: 0 <= j < 16 ==> packed[j] == if j + s < 16 then m[j + s] else 0
  }

  /** The highest bytes of a number make a quotient. */
  lemma HighBytes(m: seq<nat>, packed: seq<nat>, s: nat)
    requires Num(m) && Num(packed) && s <= 16 && Moved(m, packed, s)
    ensures Val(packed) == Val(m) / Power(8 * s) == Tail(m, s)
  {
    TailMoved(m, packed, s, 0);
    TailFrom(packed, 0);
    hide *;
    HighQuotient(m, s);
  }

  lemma HighQuotient(m: seq<nat>, s: nat)
    requires Num(m) && s <= 16
    ensures Tail(m, s) == Val(m) / Power(8 * s) && Val(m) == Power(8 * s) * Tail(m, s) + Below(m, s)
  {
    hide Val, Power, Weight, Tail, Below;
    SplitAt(m, s);
    PowerWeight(s);
    Quotient(Val(m), Weight(s), Tail(m, s), Below(m, s));
  }

  lemma MantissaVal(t: Type, packed: seq<nat>)
    requires Integer(t) && Packed(t, packed)
    ensures Val(Mantissa(t, packed)) == Power(128 - 8 * Size(t)) * Val(packed)
  {
    hide Val, Power, Mantissa, Tail, Below;
    var s := 16 - Size(t);
    forall j | 0 <= j < 16
      ensures packed[j] == if j + s < 16 then Mantissa(t, packed)[j + s] else 0
      ensures j < s ==> Mantissa(t, packed)[j] == 0
    {
      IntegerByte(t, packed, j);
      if j + s < 16 {
        IntegerByte(t, packed, j + s);
      }
    }
    HighBytes(Mantissa(t, packed), packed, s);
    HighQuotient(Mantissa(t, packed), s);
    BelowZero(Mantissa(t, packed), s);
  }

  lemma HalfOf(n: nat)
    requires 0 < n <= 128
    ensures Power(128 - n) * Power(n - 1) == W / 2 && Power(128 - n) * Power(n) == W
  {
    hide Power;
    PowerSum(128 - n, n - 1);
    PowerSum(128 - n, n);
    HalfIsPower();
    PowerWeight(16);
  }

  lemma IntegerScale(A: nat, n: nat, e: nat, x: nat)
    requires 0 < e <= n <= 128 && 2 * ((Power(128 - n) * A) * Power(n - e)) == x
    ensures A * Power(129 - e) == x
  {
    hide Power;
    PowerSum(128 - n, n - e);
    PowerSum(1, 128 - e);
    OnlyPowers();
    var p, q, r := Power(128 - n), Power(n - e), Power(128 - e);
    assert r == p * q;
    assert (p * A) * q == A * (p * q);
    assert 2 * (A * r) == A * (2 * r);
  }

  lemma ScaledRest(p: nat, x: nat, y: nat, z: nat)
    requires p * y == z
    ensures z - p * x == p * (y - x)
  {
  }

  /** Unpacking an integer reads it in two's complement. */
  lemma IntegerWords(t: Type, packed: seq<nat>, u: Unpacked)
    requires Integer(t) && Packed(t, packed) && UnpackedInteger(t, packed, u)
    ensures ReadInteger(8 * Size(t), packed, u)
  {
    hide Val, Power, Mantissa, Size, TyBigdesc;
    var n := WidthOf(t);
    var p, V := Power(128 - n), Val(packed);
    IntegerMaps(t, 0);
    MantissaVal(t, packed);
    HalfOf(n);
    ScaledIff(p, V, Power(n - 1));
    ScaledRest(p, V, Power(n), W);
    PackedSmall(t, packed, n);
    var A := if V >= Power(n - 1) then Power(n) - V else V;
    IntegerScale(A, n, u.exponent, W + Val(u.frac));
  }

  lemma PackedSmall(t: Type, packed: seq<nat>, n: nat)
    requires Integer(t) && Packed(t, packed) && 0 < n == 8 * Size(t) <= 128
    ensures Val(packed) < Power(n)
  {
    hide Val, Power, Mantissa, Size, Num;
    MantissaVal(t, packed);
    HalfOf(n);
    MantissaBound(t, packed);
    ScaledIff(Power(128 - n), Val(packed), Power(n));
  }

  lemma MantissaBound(t: Type, packed: seq<nat>)
    requires Num(packed)
    ensures Val(Mantissa(t, packed)) < W
  {
    ValIs(Mantissa(t, packed));
  }

  lemma WidthOf(t: Type) returns (n: nat)
    requires Integer(t)
    ensures n == 8 * Size(t) && 0 < n <= 128
  {
    n := 8 * Size(t);
  }

  /** What packing stores for n bits, at the top of 128: the magnitude without what is behind the binary point, and its
      complement when it is negative; too large, the largest one. */
  function Stored(n: nat, u: Unpacked): int
    requires Num(u.frac)
  {
    if u.exponent > n then (if u.sign != 0 then W / 2 + 1 else W / 2 - 1)
    else if u.exponent <= 0 then 0
    else var m := Chopped(Val(u.frac), n - u.exponent);
         if u.sign != 0 then W - m else m
  }

  ghost predicate WrittenInteger(n: nat, u: Unpacked, back: seq<nat>, ovf: nat)
    requires 0 < n <= 128 && Num(u.frac)
  {
    && Num(back) && Val(back) == Stored(n, u) / Power(128 - n)
    && ovf == (if u.exponent > n then OVF_OVERFLOW else if u.exponent <= 0 then OVF_UNDERFLOW else 0)
  }

  lemma IntegerOfByte(t: Type, temp: seq<nat>, j: nat)
    requires Integer(t) && Num(temp) && j < 16
    ensures Num(IntegerOf(t, temp))
    ensures IntegerOf(t, temp)[j] == if j < Size(t) then temp[16 - Size(t) + j] else 0
  {
    hide TyBigdesc;
    IntegerOfIs(t, temp);
    IntegerMaps(t, j);
    MappedNum(Zeros(), temp, TyBigdesc(t).upmap);
  }

  lemma IntegerWritten(t: Type, u: Unpacked, temp: seq<nat>, ovf: nat)
    requires Integer(t) && Num(u.frac) && PackedInteger(t, u, temp, ovf)
    ensures WrittenInteger(8 * Size(t), u, IntegerOf(t, temp), ovf) && Packed(t, IntegerOf(t, temp))
  {
    hide Val, Power, IntegerOf, Chopped;
    IntegerMaps(t, 0);
    IntegerOfByte(t, temp, 0);
    forall j | 0 <= j < 16
      ensures IntegerOf(t, temp)[j] == if j + (16 - Size(t)) < 16 then temp[j + (16 - Size(t))] else 0
    {
      IntegerOfByte(t, temp, j);
    }
    HighBytes(temp, IntegerOf(t, temp), 16 - Size(t));
  }

  // ---- floats ----

  /** Half a unit more carries out of the fraction. */
  predicate Carries(t: Type, u: Unpacked)
    requires !Integer(t) && Num(u.frac)
  {
    Val(u.frac) + Unit(t) / 2 >= W
  }

  function NewExponent(t: Type, u: Unpacked): int
    requires !Integer(t) && Num(u.frac)
  {
    u.exponent + (if Carries(t, u) then 1 else 0) + Excess(t)
  }

  /** The float that back says is u, rounded. */
  ghost predicate WrittenFloat(t: Type, u: Unpacked, back: seq<nat>)
    requires !Integer(t) && Num(u.frac)
  {
    && Packed(t, back) && (SignBitOf(back) <==> u.sign != 0) && ExponentField(t, back) == NewExponent(t, u)
    && FractionField(t, back) == if Carries(t, u) then 0 else (Val(u.frac) + Unit(t) / 2) / Unit(t)
  }

  /** The largest magnitude. */
  predicate Largest(t: Type, sign: int, back: seq<nat>) {
    Packed(t, back) && forall j :: 0 <= j < Size(t) ==> back[j] == if j == 1 && sign == 0 then 0x7f else 0xff
  }

  lemma CarryWords(F: nat, p: nat, h: nat, L: nat)
    requires p > 0
    ensures F / p + h >= L <==> F + p * h >= p * L
  {
    DivRest(F, p);
    if F / p + h >= L {
      Product(L, F / p + h, p);
    } else {
      Product(F / p + h + 1, L, p);
    }
  }

  lemma DivProduct(x: nat, p: nat, k: nat)
    requires p > 0 && k > 0
    ensures x / p / k == x / (p * k)
  {
    var y := x / p;
    DivRest(x, p);
    DivRest(y, k);
    var lo := p * (y % k) + x % p;
    Product(y % k + 1, k, p);
    assert p * (k * (y / k)) == (p * k) * (y / k);
    Quotient(x, p * k, y / k, lo);
  }

  lemma QuotientWords(F: nat, p: nat, h: nat, k: nat)
    requires p > 0 && k > 0
    ensures (F / p + h) / k == (F + p * h) / (p * k)
  {
    DivRest(F, p);
    Quotient(F + p * h, p, F / p + h, F % p);
    DivProduct(F + p * h, p, k);
  }

  /** Rounding in the words of the type. */
  lemma RoundedWords(t: Type, u: Unpacked)
    requires !Integer(t) && Num(u.frac)
    ensures CarriesOut(t, Shifted(t, u)) <==> Carries(t, u)
    ensures Ulp(t) > 0 && (Shifted(t, u) + Ulp(t) / 2) / Ulp(t) == (Val(u.frac) + Unit(t) / 2) / Unit(t)
  {
    hide Val, Power, TyBigdesc, Unit;
    var d, k, f := Sixteenths(t);
    hide Ulp, Limit;
    var p := Power(TyBigdesc(t).mlshift);
    UnitIs(t);
    LimitTimes(t);
    assert p * (16 * k) == 2 * (p * (8 * k));
    CarryWords(Val(u.frac), p, 8 * k, Limit(t));
    QuotientWords(Val(u.frac), p, 8 * k, 16 * k);
  }

  /** The fraction field of an assembled float. */
  lemma AssembledField(t: Type, h: nat, temp: seq<nat>)
    requires !Integer(t) && Num(temp) && Val(temp) < Limit(t) && h < 0x1_0000 && ExponentOnly(t, h)
    requires Num(Assembled(t, h, temp))
    ensures FractionField(t, Assembled(t, h, temp)) == Units(t, temp)
  {
    hide TyBigdesc, Mantissa, Val, Limit, Power, Trimmed, Assembled, Weight, Ulp, FractionField;
    var back := Assembled(t, h, temp);
    var m := Mantissa(t, back);
    FloatDesc(t);
    SmallTop(t, temp);
    forall j | 0 <= j < 16 ensures Trimmed(t, m)[j] == if j < Lowest(TyBigdesc(t)) then 0 else temp[j] {
      AssembledTrimmed(t, h, temp, j);
    }
    LowCleared(temp, Trimmed(t, m), Lowest(TyBigdesc(t)));
    TrimmedField(t, back);
    SameFactor(Ulp(t), FractionField(t, back), Units(t, temp));
  }

  lemma SameFactor(k: nat, x: nat, y: nat)
    requires k > 0 && k * x == k * y
    ensures x == y
  {
    if x < y {
      Scale(k, x, y);
    } else if y < x {
      Scale(k, y, x);
    }
  }

  lemma AssembledPacked(t: Type, h: nat, temp: seq<nat>)
    requires !Integer(t) && Num(temp) && h < 0x1_0000
    ensures Packed(t, Assembled(t, h, temp))
  {
    hide TyBigdesc, Assembled;
    AssembledNum(t, h, temp);
    forall j | Size(t) <= j < 16 ensures Assembled(t, h, temp)[j] == 0 {
      AssembledByte(t, h, temp, j);
      FloatMaps(t, j);
    }
  }

  lemma UnitsWords(t: Type, u: Unpacked, temp: seq<nat>)
    requires !Integer(t) && Num(u.frac) && Num(temp) && Rounded(t, Shifted(t, u), Val(temp))
    ensures Units(t, temp) == if Carries(t, u) then 0 else (Val(u.frac) + Unit(t) / 2) / Unit(t)
  {
    hide Val, Limit, Shifted, Unit, Carries;
    RoundedWords(t, u);
    var d, k, f := Sixteenths(t);
    hide Ulp;
    if Carries(t, u) {
      Quotient(Val(temp), Ulp(t), 0, Val(temp));
    } else {
      DropQuarter(Shifted(t, u), k);
    }
  }

  /** A float that fits is written rounded. */
  lemma FloatWritten(t: Type, u: Unpacked, back: seq<nat>, temp: seq<nat>)
    requires !Integer(t) && Num(u.frac) && InRange(t, u) && PackedFloat(t, u, back, temp)
    ensures WrittenFloat(t, u, back)
  {
    hide TyBigdesc, Mantissa, Val, Limit, Power, Assembled, Weight, Ulp, Biased, Negative, Shifted, HeadOf, CarriesOut, Rounded, Units,
      FractionField, ExponentField, SignBitOf, Excess, Carries, Unit, ExponentLimit;
    var biased := Raised(t, u) + TyBigdesc(t).eexcess;
    var h := HeadOf(t, biased, u.sign);
    AssembledNum(t, h, temp);
    AssembledPacked(t, h, temp);
    ShiftedSmall(t, u);
    RoundedSmall(t, Shifted(t, u), Val(temp));
    SmallTop(t, temp);
    AssembledHead(t, h, temp, biased, u.sign);
    AssembledField(t, h, temp);
    UnitsWords(t, u, temp);
    RoundedWords(t, u);
    HeadFields(t, back);
  }

  lemma RangeWords(t: Type, u: Unpacked)
    requires !Integer(t) && Num(u.frac)
    ensures InRange(t, u) <==> 0 < NewExponent(t, u) < ExponentLimit(t)
    ensures Raised(t, u) + TyBigdesc(t).eexcess == NewExponent(t, u)
  {
    hide TyBigdesc, Val, Power, Ulp, Shifted, CarriesOut, ExponentLimit, Excess, Carries, Biased, ExponentField;
    RoundedWords(t, u);
    HeadFields(t, Zeros());
  }

  // ---- the largest magnitude, and zero ----

  lemma OrOnes(x: nat)
    requires x < 256
    ensures Or(x, 0xff) == 0xff
  {
    OrFull(x, 8);
  }

  lemma {:induction false} OrFull(x: nat, n: nat)
    requires x < Power(n)
    ensures Or(x, Power(n) - 1) == Power(n) - 1
  {
    if n > 0 {
      OrFull(x / 2, n - 1);
    }
  }

  lemma OnesAre(s: seq<nat>, j: nat)
    requires Num(s) && Val(s) == W - 1 && j < 16
    ensures s[j] == 0xff
  {
    hide Val, Weight;
    var ones := seq(16, _ => 0xff);
    OnesVal(ones);
    OneNum(s, ones);
  }

  lemma OnesVal(s: seq<nat>)
    requires |s| == 16 && forall j :: 0 <= j < 16 ==> s[j] == 0xff
    ensures Num(s) && Val(s) == W - 1
  {
    ValIs(s);
  }

  lemma LargestHead(t: Type, sign: int)
    requires !Integer(t)
    ensures var h := HeadOf(t, Power(TyBigdesc(t).esigbits) - 1, sign);
            && h < 0x1_0000 && h / 0x100 == (if sign == 0 then 0x7f else 0xff) && (t.TYPH? ==> h % 0x100 == 0xff)
  {
    Powers();
    PowerSum(8, 3);
    PowerSum(8, 7);
  }

  lemma LargestByte(t: Type, sign: int, h: nat, temp: seq<nat>, j: nat)
    requires !Integer(t) && Num(temp) && Val(temp) == W - 1 && h < 0x1_0000 && j < Size(t)
    requires h / 0x100 == (if sign == 0 then 0x7f else 0xff) && (t.TYPH? ==> h % 0x100 == 0xff)
    ensures |Assembled(t, h, temp)| == 16
    ensures Assembled(t, h, temp)[j] == if j == 1 && sign == 0 then 0x7f else 0xff
  {
    hide TyBigdesc, Assembled, Val, Or;
    AssembledByte(t, h, temp, j);
    FloatUp(t, j);
    if TyBigdesc(t).upmap[j] != NOTAKE {
      OnesAre(temp, TyBigdesc(t).upmap[j]);
      OrOnes(HeadNum(h)[j]);
    } else {
      TakenFrom(t, j);
    }
  }

  /** Only the bytes of sign and exponent do not come from the mantissa. */
  lemma TakenFrom(t: Type, j: nat)
    requires !Integer(t) && j < Size(t) && TyBigdesc(t).upmap[j] == NOTAKE
    ensures j == 1 || (j == 0 && t.TYPH?)
  {
  }

  /** A float that is too large or too small. */
  lemma OutWritten(t: Type, u: Unpacked, back: seq<nat>, ovf: nat, temp: seq<nat>)
    requires !Integer(t) && Num(u.frac) && OutOfRange(t, u, back, ovf, temp)
    ensures 0 < NewExponent(t, u) < 0x8000 ==> ovf == OVF_OVERFLOW && Largest(t, u.sign, back)
    ensures !(0 < NewExponent(t, u) < 0x8000) ==> ovf == OVF_UNDERFLOW && back == Zeros()
  {
    hide TyBigdesc, Val, Power, Assembled, HeadOf, NewExponent, Raised;
    RangeWords(t, u);
    if 0 < NewExponent(t, u) < 0x8000 {
      var h := HeadOf(t, Power(TyBigdesc(t).esigbits) - 1, u.sign);
      LargestHead(t, u.sign);
      AssembledPacked(t, h, temp);
      forall j | 0 <= j < Size(t) ensures back[j] == if j == 1 && u.sign == 0 then 0x7f else 0xff {
        LargestByte(t, u.sign, h, temp, j);
      }
    } else {
      ZerosAssembled(t);
    }
  }
}
