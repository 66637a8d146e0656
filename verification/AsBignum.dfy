/** bignumunpack and bignumpack of bignum2.c, and the way there and back. */
module AsBignum {
  import opened AsNum
  import opened AsBytes
  import opened AsDesc
  import opened AsRound
  import opened AsPack
  import opened AsTrip
  import opened AsWords

  method BignumUnpack(packed: seq<nat>, t: Type) returns (u: Unpacked)
    requires Packed(t, packed)
    ensures Val(packed) == 0 ==> UnpackedZero(u)
    ensures Val(packed) != 0 && Integer(t) ==> UnpackedInteger(t, packed, u)
    ensures Val(packed) != 0 && !Integer(t) ==> UnpackedFloat(t, packed, u)
    ensures Val(packed) != 0 && Integer(t) ==> ReadInteger(8 * Size(t), packed, u)
    ensures Val(packed) != 0 && !Integer(t) ==> ReadFloat(t, packed, u)
  {
    hide ReadInteger, ReadFloat, Val, TyBigdesc, Mantissa, Inverse, Mapped, UnpackedInteger, UnpackedFloat;
    var p := TyBigdesc(t);
    var number := new nat[16](i requires 0 <= i < 16 => packed[i]);
    assert number[..] == packed;
    var clear := IsClear(number);
    if clear {
      return Unpacked(Zeros(), 0, MINEXP);
    }
    var mantissa := new nat[16](_ => 0);
    MapsInverse(t);
    MapIsMantissa(t, packed);
    assert mantissa[..] == Zeros();
    MapNumber(mantissa, number, 16, p.upmap, p.pmap);
    if Integer(t) {
      u := UnpackInteger(mantissa, t, packed);
      IntegerWords(t, packed, u);
    } else {
      u := UnpackFloat(mantissa, t, packed);
    }
  }

  method UnpackFloat(mantissa: array<nat>, t: Type, packed: seq<nat>) returns (u: Unpacked)
    requires !Integer(t) && Num(packed) && mantissa[..] == Mantissa(t, packed)
    modifies mantissa
    ensures UnpackedFloat(t, packed, u) && ReadFloat(t, packed, u)
  {
    hide ReadFloat, Val, Power, TyBigdesc, Mantissa, Biased, Negative;
    var p := TyBigdesc(t);
    ShiftSmall(t);
    var ovf := NumShift(p.mlshift, mantissa, mantissa);
    var exponent := Biased(t, packed) - p.eexcess;
    u := Unpacked(mantissa[..], if Negative(packed) then -1 else 0, exponent);
    FloatWords(t, packed, u);
  }

  /** Zero is zero in every type. */
  method BignumPack(u: Unpacked, t: Type) returns (back: seq<nat>, ovf: nat, ghost temp: seq<nat>)
    requires Num(u.frac) && -0x8000 <= u.exponent < 0x8000
    ensures u.exponent == MINEXP ==> back == Zeros() && ovf == 0
    ensures u.exponent != MINEXP && Integer(t) ==> PackedInteger(t, u, temp, ovf) && back == IntegerOf(t, temp)
    ensures u.exponent != MINEXP && !Integer(t) ==> (ovf == 0 <==> InRange(t, u))
    ensures u.exponent != MINEXP && !Integer(t) ==>
              if InRange(t, u) then PackedFloat(t, u, back, temp) else OutOfRange(t, u, back, ovf, temp)
    ensures u.exponent != MINEXP && Integer(t) ==> Packed(t, back) && WrittenInteger(8 * Size(t), u, back, ovf)
    ensures u.exponent != MINEXP && !Integer(t) && 0 < NewExponent(t, u) < ExponentLimit(t) ==> WrittenFloat(t, u, back) && ovf == 0
    ensures u.exponent != MINEXP && !Integer(t) && ExponentLimit(t) <= NewExponent(t, u) < 0x8000 ==>
              Largest(t, u.sign, back) && ovf == OVF_OVERFLOW
    ensures u.exponent != MINEXP && !Integer(t) && !(0 < NewExponent(t, u) < 0x8000) ==> back == Zeros() && ovf == OVF_UNDERFLOW
  {
    hide Size, Packed, WrittenInteger, WrittenFloat, Largest, NewExponent, ExponentLimit, IntegerOf, OutOfRange, Val, TyBigdesc, Mapped, InRange, PackedFloat, PackedInteger, Raised;
    if u.exponent == MINEXP {
      return Zeros(), 0, Zeros();
    }
    if Integer(t) {
      back, ovf, temp := PackInteger(u, t);
      IntegerWritten(t, u, temp, ovf);
    } else {
      back, ovf, temp := PackFloat(u, t);
      RangeWords(t, u);
      LimitsFit(t);
      if InRange(t, u) {
        FloatWritten(t, u, back, temp);
      } else {
        OutWritten(t, u, back, ovf, temp);
      }
    }
  }

  lemma LimitsFit(t: Type)
    requires !Integer(t)
    ensures 0 < ExponentLimit(t) <= 0x8000
  {
  }

  /** Exactly the integers, the floats with a nonzero exponent field and zero come back; other floats become zero. */
  method RoundTrip(packed: seq<nat>, t: Type) returns (back: seq<nat>, ovf: nat)
    requires Packed(t, packed)
    ensures back == packed && ovf == 0 <==> Integer(t) || ExponentField(t, packed) != 0 || Val(packed) == 0
    ensures back == packed || (back == Zeros() && ovf == OVF_UNDERFLOW)
  {
    hide ReadInteger, ReadFloat, WrittenInteger, WrittenFloat, Largest, NewExponent, ExponentLimit, ExponentField, Val, TyBigdesc, Mapped, InRange, PackedFloat, PackedInteger, UnpackedInteger, UnpackedFloat, Biased, IntegerOf;
    if !Integer(t) {
      HeadFields(t, packed);
    }
    var u := BignumUnpack(packed, t);
    if Val(packed) != 0 {
      UnpackedBounds(t, packed, u);
    }
    ghost var temp;
    back, ovf, temp := BignumPack(u, t);
    if Val(packed) == 0 {
      ZerosVal();
      OneNum(packed, Zeros());
    } else if Integer(t) {
      IntegerTemp(t, packed, u, temp, ovf);
      IntegerOfIs(t, temp);
      IntegerBack(t, packed, back);
    } else if Biased(t, packed) != 0 {
      FloatBack(t, packed, u, back, temp);
    } else {
      FloatGone(t, packed, u);
      ZerosVal();
    }
  }
}
