/** Packing and unpacking of the assembler's numbers: bignumunpack and bignumpack of bignum2.c. */
module AsPack {
  import opened AsNum
  import opened AsBytes
  import opened AsDesc
  import opened AsRound

  const MINEXP := -32768

  // ---- what the numbers mean ----

  /** An unpacked number: a fraction of 128 bits behind an assumed one, a sign and an exponent; MINEXP for zero. */
  datatype Unpacked = Unpacked(frac: seq<nat>, sign: int, exponent: int)

  /** The mantissa bytes of a packed number, where unpacking puts them. */
  function Mantissa(t: Type, packed: seq<nat>): (m: seq<nat>)
    requires Num(packed)
    ensures Num(m)
  {
    MapsInverse(t);
    MappedNum(Zeros(), packed, TyBigdesc(t).pmap);
    Mapped(Zeros(), packed, TyBigdesc(t).pmap)
  }

  /** The first two bytes of a float: sign, exponent and perhaps the highest fraction bits. */
  function Head(packed: seq<nat>): nat
    requires Num(packed)
  {
    packed[0] + 0x100 * packed[1]
  }

  function Biased(t: Type, packed: seq<nat>): nat
    requires Num(packed)
  {
    Head(packed) % 0x8000 / Power(TyBigdesc(t).ershift) % Power(TyBigdesc(t).esigbits)
  }

  predicate Negative(packed: seq<nat>)
    requires Num(packed)
  {
    packed[1] >= 0x80
  }

  /** What a float with a nonzero exponent field unpacks to. */
  ghost predicate UnpackedFloat(t: Type, packed: seq<nat>, u: Unpacked)
    requires Num(packed)
  {
    && Num(u.frac) && Val(u.frac) == Power(TyBigdesc(t).mlshift) * Val(Mantissa(t, packed)) % W
    && u.exponent == Biased(t, packed) - TyBigdesc(t).eexcess
    && u.sign == (if Negative(packed) then -1 else 0)
  }

  /** The number is zero. */
  ghost predicate UnpackedZero(u: Unpacked) {
    u == Unpacked(Zeros(), 0, MINEXP)
  }

  /** What a nonzero integer unpacks to: its magnitude, at the top of the number, shifted until the first one drops off. */
  ghost predicate UnpackedInteger(t: Type, packed: seq<nat>, u: Unpacked)
    requires Num(packed)
  {
    var M, w := Val(Mantissa(t, packed)), TyBigdesc(t).msigbits;
    var A := if M >= W / 2 then W - M else M;
    && Num(u.frac) && u.sign == (if M >= W / 2 then -1 else 0)
    && 1 <= u.exponent <= w && 2 * (A * Power(w - u.exponent)) == W + Val(u.frac)
  }

  // ---- bignumunpack ----

  /** value & (ONES(n) << (CH_BITS - n)) on the highest chunk. */
  predicate HighBits(s: seq<nat>, n: nat)
    requires Num(s) && 0 < n < CH_BITS
  {
    Chunk(s, 3) / Power(CH_BITS - n) != 0
  }

  lemma HighBitsVal(s: seq<nat>, n: nat)
    requires Num(s) && 0 < n < CH_BITS
    ensures HighBits(s, n) <==> Val(s) >= Power(128 - n)
    ensures !HighBits(s, n) ==> Power(n) * Val(s) < W
  {
    var q := Power(CH_BITS - n);
    ValIs(s);
    PowerSum(96, CH_BITS - n);
    PowerSum(n, 128 - n);
    PowerWeight(12);
    PowerWeight(16);
    ChunkHigh(s, q);
    if !HighBits(s, n) {
      Scale(Power(n), Val(s), Power(128 - n));
    }
  }

  lemma ChunkHigh(s: seq<nat>, q: nat)
    requires Num(s) && q > 0
    ensures Chunk(s, 3) / q != 0 <==> Chunk(s, 3) >= q
    ensures Chunk(s, 3) >= q <==> Val(s) >= Weight(12) * q
  {
    var low := Chunk(s, 0) + B * Chunk(s, 1) + B * B * Chunk(s, 2);
    ThreeChunks(Chunk(s, 0), Chunk(s, 1), Chunk(s, 2));
    ValIs(s);
    HighPart(Chunk(s, 3), q, low, Weight(12));
  }

  lemma HighPart(c: nat, q: nat, low: nat, w: nat)
    requires low < w && q > 0
    ensures c / q != 0 <==> c >= q
    ensures c >= q <==> low + w * c >= w * q
  {
    if c >= q {
      Product(q, c, w);
    } else {
      Product(c + 1, q, w);
    }
  }

  /** A nonzero number of w bits at the top cannot be shifted by w. */
  lemma ShiftBound(A: nat, w: nat, k: nat)
    requires w <= 128 && A >= Power(128 - w) && A * Power(k) < W
    ensures k < w
  {
    hide Power;
    if k >= w {
      PowerMono(w, k);
      PowerSum(128 - w, w);
      PowerWeight(16);
      GreaterProduct(A, Power(k), Power(128 - w), Power(w));
    }
  }

  lemma ShiftMore(A: nat, k: nat, i: nat, v: nat)
    requires v == A * Power(k) && Power(i) * v < W
    ensures Power(i) * v % W == A * Power(k + i)
  {
    PowerSum(k, i);
    assert A * Power(k + i) == Power(i) * (A * Power(k));
    Small(Power(i) * v);
  }

  /** The number is shifted left until its highest bit is set. */
  method Normalize(mantissa: array<nat>, msigbits: nat, exponent0: int) returns (exponent: int)
    requires Num(mantissa[..]) && 0 < msigbits <= 128 && Val(mantissa[..]) >= Power(128 - msigbits)
    modifies mantissa
    ensures Num(mantissa[..]) && Val(mantissa[..]) >= Power(127)
    ensures exponent0 - msigbits < exponent <= exponent0
    ensures Val(mantissa[..]) == old(Val(mantissa[..])) * Power(exponent0 - exponent)
  {
    hide Num, Val, Power, HighBits;
    ghost var A := Val(mantissa[..]);
    var k: nat := 0;
    exponent := exponent0;
    TimesOne(A);
    ValIs(mantissa[..]);
    var i := 16;
    while i > 0
      invariant i in {0, 1, 2, 4, 8, 16}
      invariant Num(mantissa[..]) && Val(mantissa[..]) == A * Power(k) && exponent == exponent0 - k && k < msigbits
      invariant i == 0 ==> Val(mantissa[..]) >= Power(127)
    {
      while true
        invariant Num(mantissa[..]) && Val(mantissa[..]) == A * Power(k) && exponent == exponent0 - k && k < msigbits
        decreases msigbits - k
      {
        if k >= msigbits {
          break;
        }
        HighBitsVal(mantissa[..], i);
        if HighBits(mantissa[..], i) {
          break;
        }
        ShiftMore(A, k, i, Val(mantissa[..]));
        var ovf := NumShift(i, mantissa, mantissa);
        ValIs(mantissa[..]);
        ShiftBound(A, msigbits, k + i);
        k := k + i;
        exponent := exponent - i;
      }
      i := i / 2;
    }
  }

  lemma TimesOne(A: nat)
    ensures A * Power(0) == A
  {
  }

  /** Bytes behind those of the type are clear. */
  predicate Packed(t: Type, s: seq<nat>) {
    Num(s) && forall i :: Size(t) <= i < 16 ==> s[i] == 0
  }

  lemma MapIsMantissa(t: Type, packed: seq<nat>)
    requires Num(packed)
    ensures |TyBigdesc(t).pmap| == 16 && (forall j :: 0 <= j < 16 ==> NOTAKE <= TyBigdesc(t).pmap[j] < 16)
    ensures Mantissa(t, packed) == Mapped(Zeros(), packed, TyBigdesc(t).pmap)
  {
    MapsInverse(t);
  }

  lemma MantissaByte(t: Type, packed: seq<nat>, j: nat)
    requires Num(packed) && j < 16
    ensures |TyBigdesc(t).pmap| == 16
    ensures TyBigdesc(t).pmap[j] == NOTAKE ==> Mantissa(t, packed)[j] == 0
    ensures TyBigdesc(t).pmap[j] != NOTAKE ==> 0 <= TyBigdesc(t).pmap[j] < 16 && Mantissa(t, packed)[j] == packed[TyBigdesc(t).pmap[j]]
  {
    hide TyBigdesc, Mantissa;
    MapIsMantissa(t, packed);
  }

  lemma IntegerMaps(t: Type, j: nat)
    requires Integer(t) && j < 16
    ensures TyBigdesc(t).upmap[j] == if j < Size(t) then 16 - Size(t) + j else NOTAKE
    ensures TyBigdesc(t).pmap[j] == if j >= 16 - Size(t) then j - (16 - Size(t)) else NOTAKE
    ensures TyBigdesc(t).msigbits == 8 * Size(t) && TyBigdesc(t).mlshift == 0 && TyBigdesc(t).eexcess == 8 * Size(t)
  {
    IntegerUp(t, j);
    IntegerDown(t, j);
  }

  lemma IntegerUp(t: Type, j: nat)
    requires Integer(t) && j < 16
    ensures TyBigdesc(t).upmap[j] == if j < Size(t) then 16 - Size(t) + j else NOTAKE
  {
  }

  lemma IntegerDown(t: Type, j: nat)
    requires Integer(t) && j < 16
    ensures TyBigdesc(t).pmap[j] == if j >= 16 - Size(t) then j - (16 - Size(t)) else NOTAKE
  {
  }

  lemma IntegerByte(t: Type, packed: seq<nat>, j: nat)
    requires Integer(t) && Num(packed) && j < 16
    ensures Mantissa(t, packed)[j] == if j >= 16 - Size(t) then packed[j - (16 - Size(t))] else 0
  {
    hide TyBigdesc, Mantissa;
    IntegerMaps(t, j);
    MantissaByte(t, packed, j);
  }

  lemma IntegerNonzero(t: Type, packed: seq<nat>)
    requires Integer(t) && Packed(t, packed) && Val(packed) != 0
    ensures Val(Mantissa(t, packed)) != 0
  {
    hide TyBigdesc, Mantissa, Val;
    var n := Size(t);
    if Val(Mantissa(t, packed)) == 0 {
      ZerosVal();
      OneNum(Mantissa(t, packed), Zeros());
      forall j | 0 <= j < 16 ensures packed[j] == 0 {
        if j < n {
          IntegerByte(t, packed, 16 - n + j);
        }
      }
      ZeroVal(packed);
    }
  }

  /** The mantissa of an integer fills the highest bytes. */
  lemma IntegerMantissa(t: Type, packed: seq<nat>)
    requires Integer(t) && Packed(t, packed) && Val(packed) != 0
    ensures var M, L := Val(Mantissa(t, packed)), Power(128 - TyBigdesc(t).msigbits);
            0 < M < W && M >= L && W - M >= L && L > 0
  {
    hide TyBigdesc, Mantissa, Val, Weight, Power;
    var m, n := Mantissa(t, packed), Size(t);
    IntegerMaps(t, 0);
    forall j | 0 <= j < 16 - n ensures m[j] == 0 {
      IntegerByte(t, packed, j);
    }
    IntegerNonzero(t, packed);
    SplitAt(m, 16 - n);
    BelowZero(m, 16 - n);
    PowerWeight(16 - n);
    PowerWeight(n);
    WholePower(n);
    ValIs(m);
    MultipleOf(Val(m), Weight(16 - n), Tail(m, 16 - n), Weight(n));
  }

  lemma WholePower(n: nat)
    requires n <= 16
    ensures W == Power(8 * (16 - n)) * Power(8 * n)
  {
    PowerWeight(16);
    PowerSum(8 * (16 - n), 8 * n);
  }

  lemma MultipleOf(M: nat, L: nat, x: nat, n: nat)
    requires M == L * x && 0 < M < W && W == L * n && L > 0
    ensures M >= L && W - M >= L
  {
    if x == 0 {
    } else if x >= n {
      Product(n, x, L);
    } else {
      Product(1, x, L);
      Product(x + 1, n, L);
    }
  }

  lemma ShiftSmall(t: Type)
    ensures TyBigdesc(t).mlshift < CH_BITS
  {
  }

  /** Sign and magnitude, then the shift that drops the highest bit. */
  method UnpackInteger(mantissa: array<nat>, t: Type, ghost packed: seq<nat>) returns (u: Unpacked)
    requires Integer(t) && Packed(t, packed) && Val(packed) != 0 && mantissa[..] == Mantissa(t, packed)
    modifies mantissa
    ensures UnpackedInteger(t, packed, u)
  {
    hide Val, Power, TyBigdesc, Mantissa, Chunk, Num;
    var p := TyBigdesc(t);
    IntegerMaps(t, 0);
    IntegerMantissa(t, packed);
    SignBit(mantissa[..]);
    ghost var M := Val(mantissa[..]);
    var sign := 0;
    if Chunk(mantissa[..], 3) >= 0x8000_0000 {
      sign := -1;
      var ovf := NumNegate(mantissa, mantissa);
      Small(W - M);
    }
    ghost var A := Val(mantissa[..]);
    var exponent := Normalize(mantissa, p.msigbits, p.eexcess);
    HalfIsPower();
    ValIs(mantissa[..]);
    DropFirst(Val(mantissa[..]));
    var ovf := NumShift(1, mantissa, mantissa);
    u := Unpacked(mantissa[..], sign, exponent);
  }

  lemma SignBit(s: seq<nat>)
    requires Num(s)
    ensures Chunk(s, 3) >= 0x8000_0000 <==> Val(s) >= W / 2
  {
    ValIs(s);
    ThreeChunks(Chunk(s, 0), Chunk(s, 1), Chunk(s, 2));
  }

  lemma DropFirst(v: nat)
    requires W / 2 <= v < W
    ensures W + 2 * v % W == 2 * v
  {
  }

  // ---- bignumpack ----

  const OVF_OVERFLOW := 0x200
  const OVF_UNDERFLOW := 0x400

  /** A signed word of 16 bits. */
  function Short(x: int): int { (x + 0x8000) % 0x1_0000 - 0x8000 }

  /** The magnitude of an integer: the fraction with the assumed bit, chopped at the binary point. */
  function Chopped(frac: nat, shift: nat): nat {
    (W + frac) / 2 / Power(shift)
  }

  /** v, of which the type takes its bytes. */
  ghost predicate PackedValue(t: Type, u: Unpacked, v: int, ovf: nat)
    requires Num(u.frac)
  {
    var w := TyBigdesc(t).eexcess;
    if u.exponent > w then v == (if u.sign != 0 then W / 2 + 1 else W / 2 - 1) && ovf == OVF_OVERFLOW
    else if u.exponent <= 0 then v == 0 && ovf == OVF_UNDERFLOW
    else var m := Chopped(Val(u.frac), w - u.exponent);
         v == (if u.sign != 0 then W - m else m) && ovf == 0
  }

  ghost predicate PackedInteger(t: Type, u: Unpacked, temp: seq<nat>, ovf: nat)
    requires Num(u.frac)
  {
    Num(temp) && PackedValue(t, u, Val(temp), ovf)
  }

  /** The fraction moves right by one, and the assumed first bit comes back. */
  method PutFirst(number: array<nat>)
    requires Num(number[..])
    modifies number
    ensures Num(number[..]) && Val(number[..]) == (W + old(Val(number[..]))) / 2
  {
    hide Val, Weight, Power, Or, Chunk;
    ghost var v := Val(number[..]);
    ValIs(number[..]);
    HalfIsPower();
    var ovf := NumShift(-1, number, number);
    FirstBit(number[..], v);
    SetByte(number, 15, Or(number[15], 0x80));
  }

  lemma FirstBit(s: seq<nat>, v: nat)
    requires Num(s) && v < W && Val(s) == v / 2
    ensures Or(s[15], 0x80) < 256 && Val(s[15 := Or(s[15], 0x80)]) == (W + v) / 2
  {
    hide Val, Or;
    TopBits(s, 0x80);
    Powers();
    OneTimes(0x80);
    OrApart(s[15], 0x80, 7);
    ByteChanged(s, 15, s[15] + 0x80);
  }

  /** The largest positive integer. */
  method PutLargest(number: array<nat>)
    requires Num(number[..])
    modifies number
    ensures Num(number[..]) && Val(number[..]) == W / 2 - 1
  {
    hide Val, Weight;
    NumClear(number);
    ZerosVal();
    Num1Comp(number, number);
    TopByte(number[..]);
    AllOnes(number[..]);
    ByteChanged(number[..], 15, 0x7f);
    SetByte(number, 15, number[15] % 0x80);
  }

  lemma AllOnes(s: seq<nat>)
    requires Num(s) && Val(s) == W - 1
    ensures s[15] == 0xff && Weight(15) * 0x80 == W / 2
  {
    TopBits(s, 0xff);
  }

  /** The number moves right until the binary point is at its end. */
  method Denormalize(number: array<nat>, eexcess: nat, exponent0: int)
    requires Num(number[..]) && 0 < exponent0 <= eexcess <= 128
    modifies number
    ensures Num(number[..]) && Val(number[..]) == old(Val(number[..])) / Power(eexcess - exponent0)
  {
    hide Num, Val, Power;
    ghost var V := Val(number[..]);
    var exponent := exponent0;
    var i := 16;
    DivOne(V);
    while i > 0
      invariant i in {0, 1, 2, 4, 8, 16} && exponent0 <= exponent <= eexcess
      invariant Num(number[..]) && Val(number[..]) == V / Power(exponent - exponent0)
      invariant i == 0 ==> exponent == eexcess
    {
      while exponent + i <= eexcess
        invariant exponent0 <= exponent <= eexcess
        invariant Num(number[..]) && Val(number[..]) == V / Power(exponent - exponent0)
        decreases eexcess - exponent
      {
        DivDiv(V, exponent - exponent0, i);
        var ovf := NumShift(-i, number, number);
        exponent := exponent + i;
      }
      i := i / 2;
    }
  }

  lemma DivOne(x: nat)
    ensures x / Power(0) == x
  {
  }

  lemma ChoppedIs(frac: nat, shift: nat)
    ensures Chopped(frac, shift) == (W + frac) / 2 / Power(shift)
  {
  }

  lemma ChoppedBound(frac: nat, shift: nat)
    requires frac < W && shift < 128
    ensures 0 < Chopped(frac, shift) < W
  {
    hide Power;
    var x, p := (W + frac) / 2, Power(shift);
    PowerMono(shift, 127);
    HalfIsPower();
    DivRest(x, p);
    if x / p == 0 {
    } else {
      Product(1, p, x / p);
    }
  }

  /** Sign and magnitude of the integer; too large, it is the largest one, too small, it is zero. */
  method Magnitude(u: Unpacked, t: Type) returns (number: array<nat>, sign: int, ovf: nat)
    requires Integer(t) && Num(u.frac)
    ensures fresh(number) && Num(number[..]) && (sign != 0 ==> 0 < Val(number[..]) < W)
    ensures PackedValue(t, u, if sign != 0 then W - Val(number[..]) else Val(number[..]), ovf)
  {
    hide Val, TyBigdesc, Chopped, Power, Chunk;
    var p := TyBigdesc(t);
    IntegerMaps(t, 0);
    ValIs(u.frac);
    number := new nat[16](i requires 0 <= i < 16 => u.frac[i]);
    assert number[..] == u.frac;
    sign, ovf := u.sign, 0;
    PutFirst(number);
    if u.exponent > p.eexcess {
      PutLargest(number);
      ovf := OVF_OVERFLOW;
    } else if u.exponent <= 0 {
      NumClear(number);
      ZerosVal();
      sign := 0;
      ovf := OVF_UNDERFLOW;
    } else {
      Denormalize(number, p.eexcess, u.exponent);
      ChoppedIs(Val(u.frac), p.eexcess - u.exponent);
      ChoppedBound(Val(u.frac), p.eexcess - u.exponent);
    }
  }

  method PackInteger(u: Unpacked, t: Type) returns (back: seq<nat>, ovf: nat, ghost temp: seq<nat>)
    requires Integer(t) && Num(u.frac) && u.exponent != MINEXP
    ensures PackedInteger(t, u, temp, ovf)
    ensures back == IntegerOf(t, temp)
  {
    hide Val, TyBigdesc, Mapped, Inverse, PackedValue;
    var p := TyBigdesc(t);
    var number, sign;
    number, sign, ovf := Magnitude(u, t);
    if sign != 0 {
      Small(W - Val(number[..]));
      var carry := NumNegate(number, number);
    }
    temp := number[..];
    var result := new nat[16](_ => 0);
    assert result[..] == Zeros();
    MapsInverse(t);
    InverseBounds(p.pmap, p.upmap);
    MapNumber(result, number, 16, p.pmap, p.upmap);
    back := result[..];
  }

  /** The bytes that an integer type takes of a number. */
  function IntegerOf(t: Type, temp: seq<nat>): seq<nat> {
    MapsInverse(t);
    if Num(temp) then Mapped(Zeros(), temp, TyBigdesc(t).upmap) else Zeros()
  }

  /** The two bytes of a sign and a shifted exponent. */
  function HeadNum(h: nat): (s: seq<nat>)
    requires h < 0x1_0000
    ensures Num(s)
  {
    [h % 0x100, h / 0x100, 0, 0, 0, 0, 0, 0, 0, 0, 0, 0, 0, 0, 0, 0]
  }

  /** The packed number of a head and a mantissa. */
  function Assembled(t: Type, h: nat, temp: seq<nat>): seq<nat>
    requires Num(temp) && h < 0x1_0000
  {
    MapsE();
    MappedNum(Zeros(), HeadNum(h), EMAP);
    MapsInverse(t);
    Mapped(Mapped(Zeros(), HeadNum(h), EMAP), temp, TyBigdesc(t).upmap)
  }

  /** 1/2 ulp more carries out of the fraction. */
  predicate CarriesOut(t: Type, T: nat)
    requires !Integer(t)
  {
    T + Ulp(t) / 2 >= Limit(t)
  }

  /** What upround makes of a mantissa. */
  predicate Rounded(t: Type, T: nat, v: nat)
    requires !Integer(t)
  {
    if CarriesOut(t, T) then v < Ulp(t) else v == T - T % 4 + Ulp(t) / 2
  }

  /** The mantissa, and the biased exponent after rounding. */
  function Shifted(t: Type, u: Unpacked): nat
    requires Num(u.frac)
  {
    Val(u.frac) / Power(TyBigdesc(t).mlshift)
  }

  function Raised(t: Type, u: Unpacked): int
    requires !Integer(t) && Num(u.frac)
  {
    u.exponent + (if CarriesOut(t, Shifted(t, u)) then 1 else 0)
  }

  /** The biased exponent fits its field. */
  predicate InRange(t: Type, u: Unpacked)
    requires !Integer(t) && Num(u.frac)
  {
    0 < Raised(t, u) + TyBigdesc(t).eexcess < Power(TyBigdesc(t).esigbits)
  }

  function HeadOf(t: Type, biased: nat, sign: int): nat {
    biased * Power(TyBigdesc(t).ershift) + (if sign != 0 then 0x8000 else 0)
  }

  /** A float that fits: rounded mantissa, biased exponent, sign. */
  ghost predicate PackedFloat(t: Type, u: Unpacked, back: seq<nat>, temp: seq<nat>)
    requires !Integer(t) && Num(u.frac) && InRange(t, u)
  {
    var T, h := Shifted(t, u), HeadOf(t, Raised(t, u) + TyBigdesc(t).eexcess, u.sign);
    && Num(temp) && h < 0x1_0000 && back == Assembled(t, h, temp)
    && Rounded(t, T, Val(temp))
  }

  /** An exponent that does not fit: too small, or beyond 16 bits, it makes zero; too large, the largest magnitude. */
  ghost predicate OutOfRange(t: Type, u: Unpacked, back: seq<nat>, ovf: nat, temp: seq<nat>)
    requires !Integer(t) && Num(u.frac)
  {
    var biased := Raised(t, u) + TyBigdesc(t).eexcess;
    var largest := HeadOf(t, Power(TyBigdesc(t).esigbits) - 1, u.sign);
    if 0 < biased < 0x8000
    then ovf == OVF_OVERFLOW && Num(temp) && Val(temp) == W - 1 && largest < 0x1_0000 && back == Assembled(t, largest, temp)
    else ovf == OVF_UNDERFLOW && back == Assembled(t, 0, Zeros())
  }

  lemma HeadBound(t: Type, biased: nat, sign: int)
    requires !Integer(t) && biased < Power(TyBigdesc(t).esigbits)
    ensures biased * Power(TyBigdesc(t).ershift) < 0x8000 && HeadOf(t, biased, sign) < 0x1_0000
  {
    var e, s := TyBigdesc(t).ershift, TyBigdesc(t).esigbits;
    PowerSum(s, e);
    Powers();
    assert s + e == 15;
    PowerSum(8, 7);
    Product(biased + 1, Power(s), Power(e));
  }

  lemma ShiftedSmall(t: Type, u: Unpacked)
    requires !Integer(t) && Num(u.frac)
    ensures Shifted(t, u) < Limit(t) && TyBigdesc(t).mlshift < CH_BITS
  {
    hide Val, Weight, Power;
    ValIs(u.frac);
    LimitIs(t);
    var n := TyBigdesc(t).mlshift;
    PowerSum(n, 8 - n);
    PowerWeight(1);
    WholeByte();
    DivRest(Val(u.frac), Power(n));
    assert Power(n) * Limit(t) == (Power(n) * Power(8 - n)) * Weight(15);
    ScaledIff(Power(n), Shifted(t, u), Limit(t));
  }

  lemma FloatBits(t: Type)
    requires !Integer(t)
    ensures Power(TyBigdesc(t).esigbits) <= 0x8000 && TyBigdesc(t).eexcess <= 0x4000 && TyBigdesc(t).esigbits <= 15
    ensures Power(TyBigdesc(t).esigbits) > 1
  {
    Powers();
    PowerSum(8, 7);
    PowerSum(8, 3);
  }

  /** The mantissa, shifted to the right end of its bytes and rounded. */
  method RoundFloat(u: Unpacked, t: Type) returns (number: array<nat>, exponent: int)
    requires !Integer(t) && Num(u.frac)
    ensures fresh(number) && Num(number[..]) && exponent == Raised(t, u)
    ensures Rounded(t, Shifted(t, u), Val(number[..]))
  {
    hide Val, TyBigdesc, Power, Ulp, Limit, Chunk, Shifted;
    var p := TyBigdesc(t);
    ShiftedSmall(t, u);
    ShiftedIs(t, u);
    var source := new nat[16](i requires 0 <= i < 16 => u.frac[i]);
    assert source[..] == u.frac;
    number := new nat[16](_ => 0);
    var lost := NumShift(0 - p.mlshift, number, source);
    exponent := UpRound(number, p, u.exponent, t);
  }

  method PackFloat(u: Unpacked, t: Type) returns (back: seq<nat>, ovf: nat, ghost temp: seq<nat>)
    requires !Integer(t) && Num(u.frac) && -0x8000 < u.exponent < 0x8000
    ensures ovf == 0 <==> InRange(t, u)
    ensures InRange(t, u) ==> PackedFloat(t, u, back, temp)
    ensures !InRange(t, u) ==> OutOfRange(t, u, back, ovf, temp)
  {
    hide Val, TyBigdesc, Power, Mapped, Inverse, Ulp, Limit, Chunk, HeadNum, Shifted, Assembled, CarriesOut, Rounded, HeadOf;
    var p := TyBigdesc(t);
    FloatBits(t);
    var number, exponent := RoundFloat(u, t);
    exponent := Short(exponent);
    var sign := u.sign;
    ovf := 0;
    if Short(exponent + p.eexcess) <= 0 {
      NumClear(number);
      exponent := 0;
      sign := 0;
      ovf := OVF_UNDERFLOW;
    } else if exponent + p.eexcess >= Power(p.esigbits) {
      ZerosVal();
      NumClear(number);
      Num1Comp(number, number);
      exponent := Power(p.esigbits) - 1;
      ovf := OVF_OVERFLOW;
    } else {
      exponent := exponent + p.eexcess;
    }
    HeadBound(t, exponent, sign);
    HeadZero(t);
    temp := number[..];
    back := Assemble(number, t, HeadOf(t, exponent, sign));
  }

  lemma HeadZero(t: Type)
    ensures HeadOf(t, 0, 0) == 0
  {
  }

  lemma ShiftedIs(t: Type, u: Unpacked)
    requires Num(u.frac)
    ensures TyBigdesc(t).mlshift == 0 ==> Shifted(t, u) == Power(0) * Val(u.frac) % W
    ensures Shifted(t, u) == Val(u.frac) / Power(TyBigdesc(t).mlshift)
  {
    ValIs(u.frac);
  }

  /** The head and the mantissa go to their bytes. */
  method Assemble(number: array<nat>, t: Type, h: nat) returns (back: seq<nat>)
    requires Num(number[..]) && h < 0x1_0000
    ensures back == Assembled(t, h, number[..])
  {
    hide TyBigdesc, Mapped, Inverse;
    var p := TyBigdesc(t);
    MapsE();
    MapsInverse(t);
    InverseBounds(EMAP, EMAP);
    InverseBounds(p.pmap, p.upmap);
    var result := new nat[16](_ => 0);
    var enumber := new nat[16](i requires 0 <= i < 16 => HeadNum(h)[i]);
    assert enumber[..] == HeadNum(h) && result[..] == Zeros();
    MapNumber(result, enumber, 2, EMAP, EMAP);
    MapNumber(result, number, 16, p.pmap, p.upmap);
    back := result[..];
  }

  /** The least exponent too large for the H format makes zero, not the largest magnitude. */
  lemma LargeHIsZero(u: Unpacked)
    requires u == Unpacked(Zeros(), 0, 0x4000)
    ensures Raised(TYPH, u) + TyBigdesc(TYPH).eexcess == 0x8000 && !InRange(TYPH, u)
    ensures forall back, ovf, temp :: OutOfRange(TYPH, u, back, ovf, temp) <==> ovf == OVF_UNDERFLOW && back == Assembled(TYPH, 0, Zeros())
  {
    hide Val, Power, Assembled, HeadOf;
    ZerosVal();
    FloatBits(TYPH);
    LargeHRaised(u);
  }

  lemma LargeHRaised(u: Unpacked)
    requires u == Unpacked(Zeros(), 0, 0x4000)
    ensures Raised(TYPH, u) == 0x4000
  {
    hide Val;
    ZerosVal();
    Powers();
  }
}
