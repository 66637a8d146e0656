/** The descriptions of the packed types (floattab.c), and mapnumber of bignum2.c. */
module AsDesc {
  import opened AsNum
  import opened AsBytes

  const NOTAKE := -1

  datatype Type = TYPB | TYPW | TYPL | TYPQ | TYPO | TYPF | TYPD | TYPG | TYPH

  /** Byte i of the packed number goes to byte upmap[i] of the mantissa; pmap is the way back. */
  datatype Desc = Desc(upmap: seq<int>, pmap: seq<int>, mlshift: nat, ershift: nat, msigbits: nat, esigbits: nat, eexcess: nat)

  // the maps, as the program lists them
  const B_UP: seq<int> := [15, -1, -1, -1, -1, -1, -1, -1, -1, -1, -1, -1, -1, -1, -1, -1]

  const B_P: seq<int> := [-1, -1, -1, -1, -1, -1, -1, -1, -1, -1, -1, -1, -1, -1, -1, 0]
  const W_UP: seq<int> := [14, 15, -1, -1, -1, -1, -1, -1, -1, -1, -1, -1, -1, -1, -1, -1]
  const W_P: seq<int> := [-1, -1, -1, -1, -1, -1, -1, -1, -1, -1, -1, -1, -1, -1, 0, 1]
  const L_UP: seq<int> := [12, 13, 14, 15, -1, -1, -1, -1, -1, -1, -1, -1, -1, -1, -1, -1]
  const L_P: seq<int> := [-1, -1, -1, -1, -1, -1, -1, -1, -1, -1, -1, -1, 0, 1, 2, 3]
  const Q_UP: seq<int> := [8, 9, 10, 11, 12, 13, 14, 15, -1, -1, -1, -1, -1, -1, -1, -1]
  const Q_P: seq<int> := [-1, -1, -1, -1, -1, -1, -1, -1, 0, 1, 2, 3, 4, 5, 6, 7]
  const O_UP: seq<int> := [0, 1, 2, 3, 4, 5, 6, 7, 8, 9, 10, 11, 12, 13, 14, 15]
  const O_P: seq<int> := [0, 1, 2, 3, 4, 5, 6, 7, 8, 9, 10, 11, 12, 13, 14, 15]
  const F_UP: seq<int> := [15, -1, 13, 14, -1, -1, -1, -1, -1, -1, -1, -1, -1, -1, -1, -1]
  const F_P: seq<int> := [-1, -1, -1, -1, -1, -1, -1, -1, -1, -1, -1, -1, -1, 2, 3, 0]
  const D_UP: seq<int> := [15, -1, 13, 14, 11, 12, 9, 10, -1, -1, -1, -1, -1, -1, -1, -1]
  const D_P: seq<int> := [-1, -1, -1, -1, -1, -1, -1, -1, -1, 6, 7, 4, 5, 2, 3, 0]
  const H_MAP: seq<int> := [-1, -1, 14, 15, 12, 13, 10, 11, 8, 9, 6, 7, 4, 5, 2, 3]

  function TyBigdesc(t: Type): Desc {
    match t
    case TYPB => Desc(B_UP, B_P, 0, 0, 8, 0, 8)
    case TYPW => Desc(W_UP, W_P, 0, 0, 16, 0, 16)
    case TYPL => Desc(L_UP, L_P, 0, 0, 32, 0, 32)
    case TYPQ => Desc(Q_UP, Q_P, 0, 0, 64, 0, 64)
    case TYPO => Desc(O_UP, O_P, 0, 0, 128, 0, 128)
    case TYPF => Desc(F_UP, F_P, 1, 7, 24, 8, 128)
    case TYPD => Desc(D_UP, D_P, 1, 7, 56, 8, 128)
    case TYPG => Desc(D_UP, D_P, 4, 4, 53, 11, 1024)
    case TYPH => Desc(H_MAP, H_MAP, 0, 0, 113, 15, 16384)
  }

  predicate Integer(t: Type) { t.TYPB? || t.TYPW? || t.TYPL? || t.TYPQ? || t.TYPO? }

  /** The bytes of a packed number. */
  function Size(t: Type): nat {
    match t
    case TYPB => 1
    case TYPW => 2
    case TYPL => 4
    case TYPF => 4
    case TYPQ => 8
    case TYPD => 8
    case TYPG => 8
    case TYPO => 16
    case TYPH => 16
  }

  /** A map and its inverse, NOTAKE where a byte is not taken. */
  predicate Inverse(themap: seq<int>, inv: seq<int>) {
    && |themap| == |inv| == 16
    && (forall i :: 0 <= i < 16 ==> themap[i] == NOTAKE || (0 <= themap[i] < 16 && inv[themap[i]] == i))
    && (forall j :: 0 <= j < 16 ==> inv[j] == NOTAKE || (0 <= inv[j] < 16 && themap[inv[j]] == j))
  }

  lemma MapsB()
    ensures Inverse(B_UP, B_P)
  {
  }

  lemma MapsW()
    ensures Inverse(W_UP, W_P)
  {
  }

  lemma MapsL()
    ensures Inverse(L_UP, L_P)
  {
  }

  lemma MapsQ()
    ensures Inverse(Q_UP, Q_P)
  {
  }

  lemma MapsO()
    ensures Inverse(O_UP, O_P)
  {
  }

  lemma MapsF()
    ensures Inverse(F_UP, F_P)
  {
  }

  lemma MapsD()
    ensures Inverse(D_UP, D_P)
  {
  }

  lemma MapsH()
    ensures Inverse(H_MAP, H_MAP)
  {
  }

  lemma InverseTwice(a: seq<int>, b: seq<int>)
    requires Inverse(a, b)
    ensures Inverse(b, a)
  {
  }

  /** The maps of every type are inverse to each other. */
  lemma MapsInverse(t: Type)
    ensures Inverse(TyBigdesc(t).upmap, TyBigdesc(t).pmap) && Inverse(TyBigdesc(t).pmap, TyBigdesc(t).upmap)
  {
    hide Inverse;
    match t {
      case TYPB => MapsB();
      case TYPW => MapsW();
      case TYPL => MapsL();
      case TYPQ => MapsQ();
      case TYPO => MapsO();
      case TYPF => MapsF();
      case TYPD => MapsD();
      case TYPG => MapsD();
      case TYPH => MapsH();
    }
    InverseTwice(TyBigdesc(t).upmap, TyBigdesc(t).pmap);
  }

  const EMAP: seq<int> := [0, 1, -1, -1, -1, -1, -1, -1, -1, -1, -1, -1, -1, -1, -1, -1]

  /** Every byte of the source that is taken is put over a byte of the destination. */
  function Mapped(dst: seq<nat>, src: seq<nat>, inv: seq<int>): (r: seq<nat>)
    requires Num(dst) && Num(src) && |inv| == 16 && forall j :: 0 <= j < 16 ==> NOTAKE <= inv[j] < 16
  {
    seq(16, j requires 0 <= j < 16 => if inv[j] == NOTAKE then dst[j] else Or(dst[j], src[inv[j]]))
  }

  lemma MappedNum(dst: seq<nat>, src: seq<nat>, inv: seq<int>)
    requires Num(dst) && Num(src) && |inv| == 16 && forall j :: 0 <= j < 16 ==> NOTAKE <= inv[j] < 16
    ensures Num(Mapped(dst, src, inv))
  {
    forall j | 0 <= j < 16 && inv[j] != NOTAKE ensures Or(dst[j], src[inv[j]]) < 256 {
      OrByte(dst[j], src[inv[j]]);
    }
  }

  /** The bytes from nbytes on are not taken. */
  method MapNumber(chp1: array<nat>, chp2: array<nat>, nbytes: nat, themap: seq<int>, ghost inv: seq<int>)
    requires chp1 != chp2 && Num(chp1[..]) && Num(chp2[..]) && nbytes <= 16 && Inverse(themap, inv)
    requires forall i :: nbytes <= i < 16 ==> themap[i] == NOTAKE
    modifies chp1
    ensures Num(chp1[..]) && chp1[..] == Mapped(old(chp1[..]), chp2[..], inv)
  {
    hide Or;
    ghost var d, s := chp1[..], chp2[..];
    MappedNum(d, s, inv);
    var i := 0;
    while i < nbytes
      invariant 0 <= i <= nbytes && chp2[..] == s
      invariant forall j :: 0 <= j < 16 ==> chp1[j] == if inv[j] != NOTAKE && inv[j] < i then Or(d[j], s[inv[j]]) else d[j]
    {
      if themap[i] != NOTAKE {
        chp1[themap[i]] := Or(chp1[themap[i]], chp2[i]);
      }
      i := i + 1;
    }
    assert forall j :: 0 <= j < 16 && inv[j] != NOTAKE ==> themap[inv[j]] == j && inv[j] < nbytes;
    assert forall j :: 0 <= j < 16 ==> chp1[j] == Mapped(d, s, inv)[j];
  }

  lemma InverseBounds(themap: seq<int>, inv: seq<int>)
    requires Inverse(themap, inv)
    ensures |inv| == 16 && forall j :: 0 <= j < 16 ==> NOTAKE <= inv[j] < 16
    ensures |themap| == 16
  {
  }

  lemma MapsE()
    ensures Inverse(EMAP, EMAP) && forall i :: 2 <= i < 16 ==> EMAP[i] == NOTAKE
  {
  }
}
