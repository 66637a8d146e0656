/** What packing and unpacking keep: every number survives the way there and back, and packing a float rounds to the nearest. */
module AsTrip {
  import opened AsNum
  import opened AsBytes
  import opened AsDesc
  import opened AsRound
  import opened AsPack

  // ---- integers ----

  lemma Halved(x: nat, y: nat)
    requires 2 * x == y
    ensures y / 2 == x
  {
  }

  /** Packing undoes what unpacking did to an integer. */
  lemma IntegerTemp(t: Type, packed: seq<nat>, u: Unpacked, temp: seq<nat>, ovf: nat)
    requires Integer(t) && Packed(t, packed) && Val(packed) != 0
    requires UnpackedInteger(t, packed, u) && PackedInteger(t, u, temp, ovf)
    ensures temp == Mantissa(t, packed) && ovf == 0
  {
    hide Val, Power, TyBigdesc, Mantissa, Chopped;
    var M := Val(Mantissa(t, packed));
    var A := if M >= W / 2 then W - M else M;
    var shift := TyBigdesc(t).eexcess - u.exponent;
    IntegerMaps(t, 0);
    IntegerMantissa(t, packed);
    ChoppedIs(Val(u.frac), shift);
    Halved(A * Power(shift), W + Val(u.frac));
    Quotient(A * Power(shift), Power(shift), A, 0);
    OneNum(temp, Mantissa(t, packed));
  }

  lemma IntegerBack(t: Type, packed: seq<nat>, back: seq<nat>)
    requires Integer(t) && Packed(t, packed)
    requires |TyBigdesc(t).upmap| == 16 && forall j :: 0 <= j < 16 ==> NOTAKE <= TyBigdesc(t).upmap[j] < 16
    requires back == Mapped(Zeros(), Mantissa(t, packed), TyBigdesc(t).upmap)
    ensures back == packed
  {
    hide TyBigdesc, Mantissa;
    forall j | 0 <= j < 16 ensures back[j] == packed[j] {
      IntegerMaps(t, j);
      if j < Size(t) {
        IntegerByte(t, packed, 16 - Size(t) + j);
      }
    }
  }

  // ---- floats ----

  /** Where the bytes of a float go. */
  lemma FloatMaps(t: Type, j: nat)
    requires !Integer(t) && j < 16
    ensures var p := TyBigdesc(t);
            && |p.upmap| == |p.pmap| == 16
            && p.upmap[0] == (if t.TYPH? then NOTAKE else 15) && p.upmap[1] == NOTAKE
            && (j >= 2 ==> if j >= Size(t) then p.upmap[j] == NOTAKE else Lowest(p) <= p.upmap[j] <= (if t.TYPH? then 15 else 14))
            && (if j < Lowest(p) then p.pmap[j] == NOTAKE else 0 <= p.pmap[j] < Size(t) && p.upmap[p.pmap[j]] == j)
            && (j == 15 && !t.TYPH? ==> p.pmap[j] == 0)
            && (j >= Lowest(p) && !(j == 15 && !t.TYPH?) ==> p.pmap[j] >= 2)
  {
    FloatUp(t, j);
    FloatDown(t, j);
  }

  lemma FloatUp(t: Type, j: nat)
    requires !Integer(t) && j < 16
    ensures var p := TyBigdesc(t);
            && |p.upmap| == |p.pmap| == 16
            && p.upmap[0] == (if t.TYPH? then NOTAKE else 15) && p.upmap[1] == NOTAKE
            && (j >= 2 ==> if j >= Size(t) then p.upmap[j] == NOTAKE else Lowest(p) <= p.upmap[j] <= (if t.TYPH? then 15 else 14))
  {
  }

  lemma FloatDown(t: Type, j: nat)
    requires !Integer(t) && j < 16
    ensures var p := TyBigdesc(t);
            && |p.upmap| == |p.pmap| == 16
            && (if j < Lowest(p) then p.pmap[j] == NOTAKE else 0 <= p.pmap[j] < Size(t) && p.upmap[p.pmap[j]] == j)
            && (j == 15 && !t.TYPH? ==> p.pmap[j] == 0)
            && (j >= Lowest(p) && !(j == 15 && !t.TYPH?) ==> p.pmap[j] >= 2)
  {
  }

  lemma FloatShifts(t: Type)
    requires !Integer(t)
    ensures var p := TyBigdesc(t);
            && p.ershift + p.esigbits == 15 && p.ershift <= 7 && p.mlshift <= 4
            && (if t.TYPH? then p.ershift == p.mlshift == 0 else p.ershift == 8 - p.mlshift)
  {
  }

  /** The mantissa of a packed float without the exponent bits in its highest byte. */
  function Trimmed(t: Type, m: seq<nat>): (r: seq<nat>)
    requires !Integer(t) && Num(m)
    ensures Num(r)
  {
    FloatShifts(t);
    DivRest(m[15], Power(8 - TyBigdesc(t).mlshift));
    m[15 := Keep(m[15], 8 - TyBigdesc(t).mlshift)]
  }

  lemma TrimmedVal(t: Type, m: seq<nat>)
    requires !Integer(t) && Num(m)
    ensures Trimmed(t, m)[15] == Keep(m[15], 8 - TyBigdesc(t).mlshift)
    ensures Val(Trimmed(t, m)) == Val(m) % Limit(t)
  {
    hide Val, Keep, Limit;
    FloatShifts(t);
    MaskTop(m, t);
  }

  /** Shifting the mantissa left and right again only drops the exponent bits. */
  lemma BackAndForth(t: Type, m: nat)
    requires !Integer(t)
    ensures Power(TyBigdesc(t).mlshift) * m % W == Power(TyBigdesc(t).mlshift) * (m % Limit(t))
    ensures Power(TyBigdesc(t).mlshift) * m % W / Power(TyBigdesc(t).mlshift) == m % Limit(t)
  {
    hide Power, Limit;
    var p, L := Power(TyBigdesc(t).mlshift), Limit(t);
    LimitTimes(t);
    DivRest(m, L);
    assert p * m == (p * L) * (m / L) + p * (m % L);
    Product(m % L + 1, L, p);
    Quotient(p * m, p * L, m / L, p * (m % L));
    Quotient(p * (m % L), p, m % L, 0);
  }

  lemma LimitTimes(t: Type)
    requires !Integer(t)
    ensures Limit(t) > 0 && Power(TyBigdesc(t).mlshift) * Limit(t) == W
  {
    Powers();
  }

  // ---- the way back of a float ----

  lemma FloatByte(t: Type, packed: seq<nat>, j: nat)
    requires !Integer(t) && Num(packed) && j < 16
    ensures j < Lowest(TyBigdesc(t)) ==> Mantissa(t, packed)[j] == 0
    ensures j >= Lowest(TyBigdesc(t)) ==> 0 <= TyBigdesc(t).pmap[j] < 16 && Mantissa(t, packed)[j] == packed[TyBigdesc(t).pmap[j]]
  {
    hide TyBigdesc, Mantissa;
    FloatMaps(t, j);
    MantissaByte(t, packed, j);
  }

  /** A mantissa without low bits is far enough from the limit. */
  lemma RoomToRound(t: Type, T: nat)
    requires !Integer(t) && T < Limit(t) && exists x: nat :: T == Ulp(t) * x
    ensures T % 4 == 0 && !CarriesOut(t, T) && Ulp(t) % 2 == 0
  {
    var x: nat :| T == Ulp(t) * x;
    var d, k, f := Sixteenths(t);
    hide Ulp, Limit;
    var n := LimitUlps(t);
    if x >= n {
      Product(n, x, Ulp(t));
    } else {
      Product(x + 1, n, Ulp(t));
    }
    assert T == 4 * (4 * k * x);
  }

  lemma LimitUlps(t: Type) returns (n: nat)
    requires !Integer(t)
    ensures Limit(t) == n * Ulp(t) && Ulp(t) > 0
  {
    match t
    case TYPF => n := 0x80 * Weight(2);
    case TYPD => n := 0x80 * Weight(6);
    case TYPG => n := 0x10 * Weight(6);
    case TYPH => n := Weight(14);
  }

  /** An unpacked mantissa needs no rounding. */
  lemma FloatStays(t: Type, packed: seq<nat>, u: Unpacked)
    requires !Integer(t) && Num(packed) && UnpackedFloat(t, packed, u)
    ensures !CarriesOut(t, Shifted(t, u)) && Shifted(t, u) % 4 == 0 && Ulp(t) % 2 == 0
    ensures Shifted(t, u) == Val(Trimmed(t, Mantissa(t, packed)))
    ensures 0 < Lowest(TyBigdesc(t)) <= 15 && Trimmed(t, Mantissa(t, packed))[Lowest(TyBigdesc(t)) - 1] == 0
  {
    hide Val, TyBigdesc, Mantissa, Weight, Power, Ulp, Limit, Trimmed, CarriesOut;
    var m, k := Mantissa(t, packed), Lowest(TyBigdesc(t));
    FloatDesc(t);
    var mt := Trimmed(t, m);
    TrimmedVal(t, m);
    BackAndForth(t, Val(m));
    ShiftedIs(t, u);
    ValIs(m);
    LimitPositive(t);
    forall j | 0 <= j < k ensures mt[j] == 0 {
      FloatByte(t, packed, j);
      TrimmedByte(t, m, j);
    }
    SplitAt(mt, k);
    BelowZero(mt, k);
    RoomToRound(t, Val(mt));
  }

  /** The packed bytes of a mantissa that needs no rounding. */
  lemma FloatTemp(t: Type, packed: seq<nat>, u: Unpacked, temp: seq<nat>)
    requires !Integer(t) && Num(packed) && UnpackedFloat(t, packed, u) && Num(temp)
    requires Val(temp) == Shifted(t, u) - Shifted(t, u) % 4 + Ulp(t) / 2
    ensures 0 < Lowest(TyBigdesc(t)) <= 15 && temp == Trimmed(t, Mantissa(t, packed))[Lowest(TyBigdesc(t)) - 1 := 0x80]
  {
    hide Val, TyBigdesc, Mantissa, Weight, Power, Ulp, Limit, Trimmed, CarriesOut;
    var m, k := Mantissa(t, packed), Lowest(TyBigdesc(t));
    FloatDesc(t);
    FloatStays(t, packed, u);
    ByteChanged(Trimmed(t, m), k - 1, 0x80);
    NextWeight(k);
    OneNum(temp, Trimmed(t, m)[k - 1 := 0x80]);
  }

  lemma LimitPositive(t: Type)
    requires !Integer(t)
    ensures Limit(t) > 0
  {
  }

  lemma TrimmedByte(t: Type, m: seq<nat>, j: nat)
    requires !Integer(t) && Num(m) && j < 15
    ensures Trimmed(t, m)[j] == m[j]
  {
  }

  lemma {:induction false} OrSwap(x: nat, y: nat)
    ensures Or(x, y) == Or(y, x)
  {
    if x != 0 && y != 0 {
      OrSwap(x / 2, y / 2);
    }
  }

  /** The exponent field of a head, and the head made of it. */
  lemma HeadSplit(p0: nat, p1: nat, e: nat, f: nat, s: nat)
    requires p0 < 256 && p1 < 256 && e * f == 256 && e * s == 0x8000 && e > 0 && s > 0
    ensures (p0 + 0x100 * p1) % 0x8000 / e % s * e == p0 - p0 % e + 0x100 * (p1 % 0x80)
  {
    var h := p1 % 0x80;
    HeadModulo(p0, p1);
    HeadDigits(p0, h, e, f);
    FieldSmall(p0 + 0x100 * h, e, s, p0 / e + f * h);
    FieldIs(p0 + 0x100 * h, e, s, p0 / e + f * h, p0 % e);
  }

  lemma FieldIs(r: nat, e: nat, s: nat, d: nat, rest: nat)
    requires r == e * d + rest && rest < e && d < s
    ensures r / e % s * e == r - rest
  {
    Quotient(r, e, d, rest);
    Quotient(d, s, 0, d);
  }

  lemma HeadDigits(p0: nat, high: nat, e: nat, f: nat)
    requires e * f == 256 && e > 0
    ensures p0 + 0x100 * high == e * (p0 / e + f * high) + p0 % e && p0 % e < e
  {
    DivRest(p0, e);
    assert e * (f * high) == (e * f) * high;
  }

  lemma FieldSmall(r: nat, e: nat, s: nat, d: nat)
    requires e * s == 0x8000 && r < 0x8000 && e * d <= r
    ensures d < s
  {
    if d >= s {
      Product(s, d, e);
    }
  }

  lemma HeadModulo(p0: nat, p1: nat)
    requires p0 < 256 && p1 < 256
    ensures (p0 + 0x100 * p1) % 0x8000 == p0 + 0x100 * (p1 % 0x80)
  {
  }

  lemma BiasedTimes(t: Type, packed: seq<nat>)
    requires !Integer(t) && Num(packed)
    ensures Biased(t, packed) < Power(TyBigdesc(t).esigbits) && Keep(packed[0], TyBigdesc(t).ershift) <= packed[0]
    ensures Biased(t, packed) * Power(TyBigdesc(t).ershift)
         == packed[0] - Keep(packed[0], TyBigdesc(t).ershift) + 0x100 * (packed[1] % 0x80)
  {
    hide Power, TyBigdesc;
    FloatShifts(t);
    var e, s := TyBigdesc(t).ershift, TyBigdesc(t).esigbits;
    PowerSum(e, 8 - e);
    PowerSum(e, s);
    HeadPowers();
    RestSmall(packed[0], Power(e));
    HeadSplit(packed[0], packed[1], Power(e), Power(8 - e), Power(s));
    RestSmall(Head(packed) % 0x8000 / Power(e), Power(s));
  }

  lemma RestSmall(x: nat, p: nat)
    requires p > 0
    ensures x % p < p && x % p <= x
  {
  }

  lemma HeadBack(t: Type, packed: seq<nat>)
    requires !Integer(t) && Num(packed)
    ensures var h := HeadOf(t, Biased(t, packed), if Negative(packed) then -1 else 0);
            h == packed[0] - Keep(packed[0], TyBigdesc(t).ershift) + 0x100 * packed[1] && Keep(packed[0], TyBigdesc(t).ershift) <= packed[0]
    ensures Biased(t, packed) < Power(TyBigdesc(t).esigbits)
  {
    hide Power, TyBigdesc, Biased, Keep;
    BiasedTimes(t, packed);
    SignSplit(packed[1]);
  }

  lemma HeadPowers()
    ensures Power(8) == 256 && Power(15) == 0x8000
  {
    Powers();
    PowerSum(8, 7);
  }

  lemma SignSplit(p1: nat)
    requires p1 < 256
    ensures p1 == p1 % 0x80 + if p1 >= 0x80 then 0x80 else 0
  {
  }

  /** The bytes of an assembled float. */
  lemma AssembledByte(t: Type, h: nat, temp: seq<nat>, j: nat)
    requires !Integer(t) && Num(temp) && h < 0x1_0000 && j < 16
    ensures var up := TyBigdesc(t).upmap;
            |up| == 16 && NOTAKE <= up[j] < 16 && |Assembled(t, h, temp)| == 16 &&
            Assembled(t, h, temp)[j] == if up[j] == NOTAKE then HeadNum(h)[j] else Or(HeadNum(h)[j], temp[up[j]])
  {
    hide TyBigdesc;
    MapsE();
    MapsInverse(t);
    InverseBounds(TyBigdesc(t).pmap, TyBigdesc(t).upmap);
  }

  lemma FloatBackByte(t: Type, packed: seq<nat>, h: nat, temp: seq<nat>, j: nat)
    requires !Integer(t) && Packed(t, packed) && j < 16 && h < 0x1_0000
    requires Keep(packed[0], TyBigdesc(t).ershift) <= packed[0] && h == packed[0] - Keep(packed[0], TyBigdesc(t).ershift) + 0x100 * packed[1]
    requires 0 < Lowest(TyBigdesc(t)) <= 15 && temp == Trimmed(t, Mantissa(t, packed))[Lowest(TyBigdesc(t)) - 1 := 0x80]
    ensures var up := TyBigdesc(t).upmap;
            |up| == 16 && NOTAKE <= up[j] < 16 &&
            packed[j] == if up[j] == NOTAKE then HeadNum(h)[j] else Or(HeadNum(h)[j], temp[up[j]])
  {
    hide TyBigdesc, Mantissa, Keep, Or, Trimmed;
    FloatMaps(t, j);
    HeadBytes(packed[0], packed[1], Keep(packed[0], TyBigdesc(t).ershift), h);
    if j == 0 {
      FirstByteBack(t, packed, temp);
    } else if j >= 2 && j < Size(t) {
      LaterByteBack(t, packed, temp, j);
    }
  }

  lemma FirstByteBack(t: Type, packed: seq<nat>, temp: seq<nat>)
    requires !Integer(t) && Num(packed)
    requires 0 < Lowest(TyBigdesc(t)) <= 15 && temp == Trimmed(t, Mantissa(t, packed))[Lowest(TyBigdesc(t)) - 1 := 0x80]
    ensures var low := Keep(packed[0], TyBigdesc(t).ershift);
            low <= packed[0] && if t.TYPH? then low == 0 else Or(packed[0] - low, temp[15]) == packed[0]
  {
    hide TyBigdesc, Mantissa, Keep, Or, Trimmed;
    FloatMaps(t, 15);
    FloatShifts(t);
    FloatDesc(t);
    FloatByte(t, packed, 15);
    TrimmedVal(t, Mantissa(t, packed));
    HighByteBack(packed[0], TyBigdesc(t).ershift);
  }

  lemma LaterByteBack(t: Type, packed: seq<nat>, temp: seq<nat>, j: nat)
    requires !Integer(t) && Num(packed) && 2 <= j < Size(t)
    requires 0 < Lowest(TyBigdesc(t)) <= 15 && temp == Trimmed(t, Mantissa(t, packed))[Lowest(TyBigdesc(t)) - 1 := 0x80]
    ensures var up := TyBigdesc(t).upmap;
            |up| == 16 && 0 <= up[j] < 16 && packed[j] == temp[up[j]] && Or(0, temp[up[j]]) == packed[j]
  {
    hide TyBigdesc, Mantissa, Keep, Or, Trimmed;
    FloatMaps(t, j);
    InverseAt(t, j);
    var k := TyBigdesc(t).upmap[j];
    FloatByte(t, packed, k);
    FloatShifts(t);
    if k < 15 {
      TrimmedByte(t, Mantissa(t, packed), k);
    } else {
      TrimmedVal(t, Mantissa(t, packed));
    }
    HighByteBack(packed[j], 0);
  }

  lemma InverseAt(t: Type, j: nat)
    requires j < 16
    ensures |TyBigdesc(t).upmap| == |TyBigdesc(t).pmap| == 16
    ensures TyBigdesc(t).upmap[j] != NOTAKE ==> 0 <= TyBigdesc(t).upmap[j] < 16 && TyBigdesc(t).pmap[TyBigdesc(t).upmap[j]] == j
  {
    MapsInverse(t);
  }

  lemma HeadBytes(p0: nat, p1: nat, low: nat, h: nat)
    requires p0 < 256 && p1 < 256 && low <= p0 && h == p0 - low + 0x100 * p1
    ensures h % 0x100 == p0 - low && h / 0x100 == p1
  {
  }

  /** The fraction bits of the highest byte, over the exponent bits. */
  lemma HighByteBack(p0: nat, e: nat)
    ensures Keep(p0, e) <= p0 && Or(p0 - Keep(p0, e), Keep(p0, e)) == p0
    ensures Keep(p0, 0) == 0 && (p0 < 256 ==> Keep(p0, 8) == p0) && Or(0, p0) == p0
  {
    hide Power, Or, Keep;
    KeepEnds(p0);
    var hi := Kept(p0, e);
    MultipleExists(p0 - Keep(p0, e), hi, Power(e));
    OrApart(Keep(p0, e), p0 - Keep(p0, e), e);
    OrSwap(p0 - Keep(p0, e), Keep(p0, e));
  }

  lemma MultipleExists(x: nat, q: nat, p: nat)
    requires x == p * q
    ensures exists r: nat :: x == r * p
  {
    assert x == q * p;
  }

  lemma KeepEnds(x: nat)
    ensures Keep(x, 0) == 0 && (x < 256 ==> Keep(x, 8) == x) && Or(0, x) == x
  {
    Powers();
  }

  /** Packing undoes what unpacking did to a float with a nonzero exponent field. */
  lemma FloatBack(t: Type, packed: seq<nat>, u: Unpacked, back: seq<nat>, temp: seq<nat>)
    requires !Integer(t) && Packed(t, packed) && Biased(t, packed) != 0 && UnpackedFloat(t, packed, u)
    ensures InRange(t, u)
    ensures PackedFloat(t, u, back, temp) ==> back == packed
  {
    hide Val, TyBigdesc, Mantissa, Weight, Power, Ulp, Limit, Trimmed, Biased, Negative, Assembled, HeadOf, Or, HeadNum, Shifted, CarriesOut, Keep;
    HeadBack(t, packed);
    FloatStays(t, packed, u);
    if PackedFloat(t, u, back, temp) {
      FloatTemp(t, packed, u, temp);
      var h := HeadOf(t, Biased(t, packed), u.sign);
      forall j | 0 <= j < 16 ensures |back| == 16 && back[j] == packed[j] {
        AssembledByte(t, h, temp, j);
        FloatBackByte(t, packed, h, temp, j);
      }
    }
  }

  /** A float with nothing but zeroes in its exponent field is out of range once it is unpacked. */
  lemma FloatGone(t: Type, packed: seq<nat>, u: Unpacked)
    requires !Integer(t) && Num(packed) && Biased(t, packed) == 0 && UnpackedFloat(t, packed, u)
    ensures !InRange(t, u) && Raised(t, u) + TyBigdesc(t).eexcess == 0
    ensures Assembled(t, 0, Zeros()) == Zeros()
  {
    hide Val, TyBigdesc, Mantissa, Weight, Power, Ulp, Limit, Trimmed, Biased, Negative, Assembled, Or, Shifted, CarriesOut;
    FloatStays(t, packed, u);
    ZerosAssembled(t);
  }

  lemma ZerosAssembled(t: Type)
    requires !Integer(t)
    ensures Assembled(t, 0, Zeros()) == Zeros()
  {
    hide TyBigdesc, Assembled, Or;
    assert HeadNum(0) == Zeros();
    forall j | 0 <= j < 16 ensures |Assembled(t, 0, Zeros())| == 16 && Assembled(t, 0, Zeros())[j] == Zeros()[j] {
      AssembledByte(t, 0, Zeros(), j);
      KeepEnds(0);
      var k := if TyBigdesc(t).upmap[j] == NOTAKE then j else TyBigdesc(t).upmap[j];
      assert Zeros()[k] == 0 && Zeros()[j] == 0;
    }
    AssembledByte(t, 0, Zeros(), 0);
    assert Assembled(t, 0, Zeros()) == Zeros();
  }

  lemma IntegerOfIs(t: Type, temp: seq<nat>)
    requires Num(temp)
    ensures |TyBigdesc(t).upmap| == 16 && (forall j :: 0 <= j < 16 ==> NOTAKE <= TyBigdesc(t).upmap[j] < 16)
    ensures IntegerOf(t, temp) == Mapped(Zeros(), temp, TyBigdesc(t).upmap)
  {
    MapsInverse(t);
  }

  lemma UnpackedBounds(t: Type, packed: seq<nat>, u: Unpacked)
    requires Packed(t, packed)
    requires if Integer(t) then UnpackedInteger(t, packed, u) else UnpackedFloat(t, packed, u)
    ensures Num(u.frac) && MINEXP < u.exponent < 0x8000
  {
    hide Val, Mantissa, Power;
    if Integer(t) {
      IntegerMaps(t, 0);
    } else {
      HeadBack(t, packed);
      FloatBits(t);
    }
  }

  // ---- rounding to the nearest ----

  /** One unit in the last place, within the fraction of 128 bits. */
  function UlpOfFraction(t: Type): nat
    requires !Integer(t)
  {
    Times(Power(TyBigdesc(t).mlshift), Ulp(t))
  }

  /** The new fraction is a multiple of the ulp and no more than half an ulp away, ties going up; when it carries
      out, the next power of two is that near. */
  ghost predicate Nearest(ulp: nat, frac: nat, frac': nat, carry: bool) {
    && (exists q: nat :: frac' == ulp * q)
    && if carry then frac' == 0 && 2 * (W - frac) <= ulp
       else 2 * (frac' - frac) <= ulp && 2 * (frac - frac') < ulp
  }

  lemma NearestQuotient(p: nat, K: nat, F: nat, T: nat, q: nat)
    requires p > 0 && K > 0 && T == F / p && K % 2 == 0 && q == (T + K / 2) / K
    ensures 2 * ((p * K) * q - F) <= p * K && 2 * (F - (p * K) * q) < p * K
  {
    DivRest(F, p);
    DivRest(T + K / 2, K);
    var h := K / 2;
    // K q <= T + h, and T + 1 <= K q + K - h
    Product(K * q, T + h, p);
    Product(T + 1, K * q + h, p);
    assert p * (K * q) == (p * K) * q && p * (T + h) == p * T + p * h && p * (K * q + h) == (p * K) * q + p * h && p * (T + 1) == p * T + p;
    assert 2 * (p * h) == p * K;
  }

  lemma NearestCarry(p: nat, K: nat, L: nat, F: nat, T: nat)
    requires p > 0 && T == F / p && K % 2 == 0 && T + K / 2 >= L && p * L == W
    ensures 2 * (W - F) <= p * K
  {
    DivRest(F, p);
    var h := K / 2;
    Product(L, T + h, p);
    assert p * (T + h) == p * T + p * h && 2 * (p * h) == p * K;
  }

  /** What is kept of the rounded mantissa, in units of the last place. */
  function Units(t: Type, temp: seq<nat>): nat
    requires !Integer(t) && Num(temp)
  {
    Val(temp) / Ulp(t)
  }

  lemma UnitsNearest(t: Type, u: Unpacked, temp: seq<nat>)
    requires !Integer(t) && Num(u.frac) && Num(temp)
    requires Rounded(t, Shifted(t, u), Val(temp))
    ensures Nearest(UlpOfFraction(t), Val(u.frac), Times(UlpOfFraction(t), Units(t, temp)), CarriesOut(t, Shifted(t, u)))
  {
    hide Val, Power, TyBigdesc, Limit;
    var T, K, p := Shifted(t, u), Ulp(t), Power(TyBigdesc(t).mlshift);
    var d, k, f := Sixteenths(t);
    LimitTimes(t);
    hide Ulp;
    DivRest(Val(temp), K);
    if CarriesOut(t, T) {
      Quotient(Val(temp), K, 0, Val(temp));
      NearestCarry(p, K, Limit(t), Val(u.frac), T);
    } else {
      DropQuarter(T, k);
      NearestQuotient(p, K, Val(u.frac), T, (T + K / 2) / K);
    }
  }

  /** The lowest two bits do not matter. */
  lemma DropQuarter(T: nat, k: nat)
    requires k > 0
    ensures (T - T % 4 + 16 * k / 2) / (16 * k) == (T + 16 * k / 2) / (16 * k)
  {
    var y := T - T % 4 + 8 * k;
    var q, r := y / (16 * k), y % (16 * k);
    assert y == 4 * (T / 4 + 2 * k);
    RestQuarter(T / 4 + 2 * k, 4 * k, q, r);
    Quotient(T + 8 * k, 16 * k, q, r + T % 4);
  }

  lemma RestQuarter(x: nat, n: nat, q: nat, r: nat)
    requires 4 * x == (4 * n) * q + r && r < 4 * n
    ensures r + 3 < 4 * n
  {
    assert r == 4 * (x - n * q);
  }

  // ---- what the packed float unpacks to ----

  lemma SmallTop(t: Type, temp: seq<nat>)
    requires !Integer(t) && Num(temp) && Val(temp) < Limit(t)
    ensures temp[15] < Power(8 - TyBigdesc(t).mlshift)
  {
    hide Val, Power, Weight;
    LimitIs(t);
    PowerBound(7 - TyBigdesc(t).mlshift);
    TopBits(temp, Power(8 - TyBigdesc(t).mlshift));
  }

  lemma RoundedSmall(t: Type, T: nat, v: nat)
    requires !Integer(t) && T < Limit(t) && Rounded(t, T, v)
    ensures v < Limit(t)
  {
    var d, k, f := Sixteenths(t);
  }

  ghost predicate ExponentOnly(t: Type, h: nat) {
    exists b: nat :: h % 0x100 == b * Power(TyBigdesc(t).ershift)
  }

  lemma OrKeep(y: nat, x: nat, n: nat)
    requires x < Power(n) && exists b: nat :: y == b * Power(n)
    ensures Keep(Or(y, x), n) == x
  {
    hide Power, Or;
    var b: nat :| y == b * Power(n);
    OrApart(x, y, n);
    OrSwap(y, x);
    assert y + x == Power(n) * b + x;
    Quotient(y + x, Power(n), b, x);
  }

  lemma OrZero(x: nat)
    ensures Or(0, x) == x
  {
  }

  /** Byte j of the mantissa that unpacking finds in an assembled float. */
  lemma AssembledMantissa(t: Type, h: nat, temp: seq<nat>, j: nat)
    requires !Integer(t) && Num(temp) && h < 0x1_0000 && j < 16 && Num(Assembled(t, h, temp))
    ensures j < Lowest(TyBigdesc(t)) ==> Mantissa(t, Assembled(t, h, temp))[j] == 0
    ensures Lowest(TyBigdesc(t)) <= j && (j < 15 || t.TYPH?) ==> Mantissa(t, Assembled(t, h, temp))[j] == temp[j]
    ensures j == 15 && !t.TYPH? ==> Mantissa(t, Assembled(t, h, temp))[j] == Or(h % 0x100, temp[15])
  {
    hide TyBigdesc, Mantissa, Or, Assembled;
    var back := Assembled(t, h, temp);
    FloatDesc(t);
    FloatMaps(t, j);
    FloatByte(t, back, j);
    if j >= Lowest(TyBigdesc(t)) {
      AssembledByte(t, h, temp, TyBigdesc(t).pmap[j]);
      OrZero(temp[j]);
    }
  }

  /** That mantissa without the exponent bits is temp, as far as the type has its bytes. */
  lemma AssembledTrimmed(t: Type, h: nat, temp: seq<nat>, j: nat)
    requires !Integer(t) && Num(temp) && h < 0x1_0000 && j < 16 && Num(Assembled(t, h, temp))
    requires temp[15] < Power(8 - TyBigdesc(t).mlshift) && ExponentOnly(t, h)
    ensures Trimmed(t, Mantissa(t, Assembled(t, h, temp)))[j] == if j < Lowest(TyBigdesc(t)) then 0 else temp[j]
  {
    hide TyBigdesc, Mantissa, Keep, Or, Trimmed, Power, Assembled;
    var m := Mantissa(t, Assembled(t, h, temp));
    FloatDesc(t);
    FloatShifts(t);
    AssembledMantissa(t, h, temp, j);
    if j < 15 {
      TrimmedByte(t, m, j);
    } else {
      TrimmedVal(t, m);
      if t.TYPH? {
        HighByteBack(temp[15], 8);
      } else {
        OrKeep(h % 0x100, temp[15], TyBigdesc(t).ershift);
      }
    }
  }

  /** A head of exponent and sign, with fraction bits x in front of the exponent. */
  lemma HeadParts(biased: nat, e: nat, s: nat, f: nat, sgn: nat, x: nat, h: nat)
    requires e > 0 && e * s == 0x8000 && e * f == 0x100 && biased < s && sgn <= 1 && x < e && h == biased * e + 0x8000 * sgn
    ensures (h + x) % 0x8000 / e % s == biased && h < 0x1_0000 && (h >= 0x8000 <==> sgn == 1)
    ensures exists b: nat :: h % 0x100 == b * e
  {
    var y := biased * e;
    Product(biased + 1, s, e);
    Quotient(h + x, 0x8000, sgn, y + x);
    Quotient(y + x, e, biased, x);
    Quotient(biased, s, 0, biased);
    HeadLow(biased, e, s, f, sgn, h);
  }

  lemma HeadLow(biased: nat, e: nat, s: nat, f: nat, sgn: nat, h: nat)
    requires e > 0 && f > 0 && e * s == 0x8000 && e * f == 0x100 && h == biased * e + 0x8000 * sgn && sgn <= 1
    ensures exists b: nat :: h % 0x100 == b * e
  {
    var b := if sgn == 1 then biased + s else biased;
    assert h == e * b;
    DivRest(b, f);
    var q, r := b / f, b % f;
    calc {
      h;
      e * (f * q + r);
      (e * f) * q + e * r;
      0x100 * q + e * r;
    }
    Product(r + 1, f, e);
    Quotient(h, 0x100, q, e * r);
    MultipleExists(h % 0x100, r, e);
  }

  lemma TwoBytes(h: nat, y: nat, x: nat)
    requires h < 0x1_0000 && y == h % 0x100 + x
    ensures y + 0x100 * (h / 0x100) == h + x && (h / 0x100 >= 0x80 <==> h >= 0x8000)
  {
  }

  /** The first two bytes of an assembled float. */
  lemma AssembledFirst(t: Type, h: nat, temp: seq<nat>)
    requires !Integer(t) && Num(temp) && temp[15] < Power(8 - TyBigdesc(t).mlshift)
    requires h < 0x1_0000 && Num(Assembled(t, h, temp)) && ExponentOnly(t, h)
    ensures Assembled(t, h, temp)[1] == h / 0x100
    ensures var x := if t.TYPH? then 0 else temp[15];
            x < Power(TyBigdesc(t).ershift) && Assembled(t, h, temp)[0] == h % 0x100 + x
  {
    hide TyBigdesc, Or, Assembled, Power;
    FloatShifts(t);
    FloatMaps(t, 0);
    AssembledByte(t, h, temp, 0);
    AssembledByte(t, h, temp, 1);
    if !t.TYPH? {
      OrApart(temp[15], h % 0x100, TyBigdesc(t).ershift);
      OrSwap(h % 0x100, temp[15]);
    }
  }

  /** The sign and the exponent come back as well. */
  lemma AssembledHead(t: Type, h: nat, temp: seq<nat>, biased: nat, sign: int)
    requires !Integer(t) && Num(temp) && temp[15] < Power(8 - TyBigdesc(t).mlshift)
    requires biased < Power(TyBigdesc(t).esigbits) && h == HeadOf(t, biased, sign) && h < 0x1_0000 && Num(Assembled(t, h, temp))
    ensures Biased(t, Assembled(t, h, temp)) == biased && (Negative(Assembled(t, h, temp)) <==> sign != 0)
    ensures ExponentOnly(t, h)
  {
    hide TyBigdesc, Assembled, Power;
    FloatShifts(t);
    var e := TyBigdesc(t).ershift;
    PowerSum(e, 8 - e);
    PowerSum(e, TyBigdesc(t).esigbits);
    HeadPowers();
    HeadParts(biased, Power(e), Power(TyBigdesc(t).esigbits), Power(8 - e), if sign != 0 then 1 else 0, 0, h);
    AssembledFirst(t, h, temp);
    var x := if t.TYPH? then 0 else temp[15];
    HeadParts(biased, Power(e), Power(TyBigdesc(t).esigbits), Power(8 - e), if sign != 0 then 1 else 0, x, h);
    TwoBytes(h, Assembled(t, h, temp)[0], x);
  }

  lemma AssembledNum(t: Type, h: nat, temp: seq<nat>)
    requires Num(temp) && h < 0x1_0000
    ensures Num(Assembled(t, h, temp))
  {
    hide Mapped;
    MapsE();
    MappedNum(Zeros(), HeadNum(h), EMAP);
    MapsInverse(t);
    MappedNum(Mapped(Zeros(), HeadNum(h), EMAP), temp, TyBigdesc(t).upmap);
  }

  /** The fraction that unpacking finds. */
  lemma AssembledFraction(t: Type, h: nat, temp: seq<nat>, u': Unpacked)
    requires !Integer(t) && Num(temp) && Val(temp) < Limit(t) && h < 0x1_0000 && ExponentOnly(t, h)
    requires Num(Assembled(t, h, temp)) && UnpackedFloat(t, Assembled(t, h, temp), u')
    ensures Val(u'.frac) == Times(UlpOfFraction(t), Units(t, temp))
  {
    hide TyBigdesc, Mantissa, Val, Limit, Power, Trimmed, Assembled, Weight, Ulp, Biased, Negative;
    var m := Mantissa(t, Assembled(t, h, temp));
    FloatDesc(t);
    SmallTop(t, temp);
    BackAndForth(t, Val(m));
    TrimmedVal(t, m);
    forall j | 0 <= j < 16 ensures Trimmed(t, m)[j] == if j < Lowest(TyBigdesc(t)) then 0 else temp[j] {
      AssembledTrimmed(t, h, temp, j);
    }
    LowCleared(temp, Trimmed(t, m), Lowest(TyBigdesc(t)));
    Assoc(Power(TyBigdesc(t).mlshift), Ulp(t), Val(temp) / Ulp(t));
  }

  lemma Assoc(a: nat, b: nat, c: nat)
    ensures a * (b * c) == (a * b) * c
  {
  }

  /** Packing a float that fits and unpacking it again rounds to the nearest: same sign, and the next exponent exactly
      when rounding carries out of the fraction. */
  lemma PackNearest(t: Type, u: Unpacked, back: seq<nat>, temp: seq<nat>, u': Unpacked)
    requires !Integer(t) && Num(u.frac) && InRange(t, u) && PackedFloat(t, u, back, temp)
    ensures Num(back) && Biased(t, back) == Raised(t, u) + TyBigdesc(t).eexcess != 0
    ensures UnpackedFloat(t, back, u') ==>
              Nearest(UlpOfFraction(t), Val(u.frac), Val(u'.frac), CarriesOut(t, Shifted(t, u))) &&
              u'.exponent == Raised(t, u) && (u'.sign != 0 <==> u.sign != 0)
  {
    hide TyBigdesc, Mantissa, Val, Limit, Power, Assembled, Weight, Ulp, Biased, Negative, Shifted, HeadOf, CarriesOut, Rounded, UlpOfFraction, Units, Nearest;
    var biased := Raised(t, u) + TyBigdesc(t).eexcess;
    var h := HeadOf(t, biased, u.sign);
    AssembledNum(t, h, temp);
    ShiftedSmall(t, u);
    RoundedSmall(t, Shifted(t, u), Val(temp));
    SmallTop(t, temp);
    AssembledHead(t, h, temp, biased, u.sign);
    if UnpackedFloat(t, back, u') {
      UnitsNearest(t, u, temp);
      AssembledFraction(t, h, temp, u');
    }
  }
}
