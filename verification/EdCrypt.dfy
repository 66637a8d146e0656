/** The rotor machine of the editor: crinit and crblock of ed.c. */
module EdCrypt {

  /** A signed char. */
  function SChar(x: int): int { (x + 128) % 256 - 128 }

  /** x & 0377, also for negative x. */
  function Byte(x: int): (b: nat)
    ensures b < 256
  {
    x % 256
  }

  /** A 32-bit long. */
  function Long(x: int): int { (x + 0x8000_0000) % 0x1_0000_0000 - 0x8000_0000 }

  /** The remainder of C, assigned to an unsigned variable. */
  function Random(seed: int): (r: nat) {
    if seed >= 0 then seed % 65521 else (0x1_0000_0000 - (-seed) % 65521) % 0x1_0000_0000
  }

  lemma ByteFacts(x: int)
    ensures Byte(SChar(x)) == Byte(x)
    ensures 0 <= x < 256 ==> Byte(x) == x && (SChar(x) == 0 <==> x == 0)
    ensures -128 <= x < 128 ==> SChar(x) == x
  {
  }

  /** Taking a byte early makes no difference. */
  lemma ByteSum(x: int, y: int)
    ensures Byte(Byte(x) + y) == Byte(x + y)
  {
  }

  predicate Chars(s: seq<int>) {
    forall i :: 0 <= i < |s| ==> -128 <= s[i] < 128
  }

  // ---- the tables ----

  /** inv is the inverse of t, entries taken as bytes. */
  ghost predicate Inverse(t: seq<int>, inv: seq<int>) {
    && |t| == |inv| == 256
    && (forall i :: 0 <= i < 256 ==> Byte(inv[Byte(t[i])]) == i)
    && (forall v :: 0 <= v < 256 ==> Byte(t[Byte(inv[v])]) == v)
  }

  ghost predicate Mated(t3: seq<int>, j: nat)
    requires |t3| == 256 && j < 256
  {
    Byte(t3[j]) != j && Byte(t3[Byte(t3[j])]) == j
  }

  /** An involution without fixed points. */
  ghost predicate Involution(t3: seq<int>) {
    |t3| == 256 && forall j :: 0 <= j < 256 ==> Mated(t3, j)
  }

  /** The entries below k that have no mate yet. */
  ghost function Single(t3: seq<int>, k: nat): set<nat>
    requires k <= |t3|
  {
    set j: nat | j < k && t3[j] == 0
  }

  /** All entries from k on, and those below k that are not zero, form pairs; an even number is left. */
  ghost predicate Paired(t3: seq<int>, k: nat) {
    && |t3| == 256 && k <= 256
    && (forall j :: 0 <= j < 256 && (j >= k || t3[j] != 0) ==> Mated(t3, j))
    && (forall j :: 0 <= j < k && t3[j] != 0 ==> Byte(t3[j]) >= k)
    && |Single(t3, k)| % 2 == 0
  }

  lemma {:induction false} SingleAll(t3: seq<int>, k: nat)
    requires k <= |t3| && forall j :: 0 <= j < |t3| ==> t3[j] == 0
    ensures |Single(t3, k)| == k
  {
    if k > 0 {
      SingleAll(t3, k - 1);
      assert Single(t3, k) == Single(t3, k - 1) + {k - 1};
    }
  }

  /** An unpaired entry is not the only one. */
  lemma OtherSingle(t3: seq<int>, k: nat) returns (z: nat)
    requires 0 < k <= 256 && Paired(t3, k) && t3[k - 1] == 0
    ensures z < k - 1 && t3[z] == 0
  {
    var rest := Single(t3, k) - {k - 1};
    assert Single(t3, k) == rest + {k - 1};
    assert |Single(t3, k)| == |rest| + 1;
    assert rest != {};
    z :| z in rest;
  }

  lemma PairedSkip(t3: seq<int>, k: nat)
    requires 0 < k && Paired(t3, k) && t3[k - 1] != 0
    ensures Paired(t3, k - 1)
  {
    assert Single(t3, k - 1) == Single(t3, k);
  }

  lemma SingleLess(t3: seq<int>, t: seq<int>, k: nat, ic: nat)
    requires 0 < k <= |t3| == |t| && ic < k - 1 && t3[k - 1] == 0 && t3[ic] == 0 && t[ic] != 0
    requires forall j :: 0 <= j < k - 1 && j != ic ==> t[j] == t3[j]
    ensures |Single(t3, k)| == |Single(t, k - 1)| + 2
  {
    assert Single(t3, k) == Single(t, k - 1) + {k - 1, ic};
  }

  lemma PairedStep(t3: seq<int>, k: nat, ic: nat)
    requires 0 < k && Paired(t3, k) && ic < k - 1 && t3[k - 1] == 0 && t3[ic] == 0
    ensures Paired(t3[k - 1 := SChar(ic)][ic := SChar(k - 1)], k - 1)
  {
    hide Byte, SChar, Single;
    ByteFacts(ic);
    ByteFacts(k - 1);
    ByteFacts(0);
    var t := t3[k - 1 := SChar(ic)][ic := SChar(k - 1)];
    SingleLess(t3, t, k, ic);
    forall j | 0 <= j < 256 && (j >= k - 1 || t[j] != 0) ensures Mated(t, j) && (j < k - 1 ==> Byte(t[j]) >= k - 1) {
      if j != k - 1 && j != ic {
        KeepsMate(t3, k, ic, j);
      }
    }
  }

  /** The mate of another entry is not one of the two paired now. */
  lemma KeepsMate(t3: seq<int>, k: nat, ic: nat, j: nat)
    requires 0 < k && Paired(t3, k) && ic < k - 1 && t3[k - 1] == 0 && t3[ic] == 0 && j != k - 1 && j != ic
    requires j < 256 && (j >= k || t3[j] != 0)
    ensures Mated(t3, j) && Byte(t3[j]) != k - 1 && Byte(t3[j]) != ic
    ensures j < k ==> Byte(t3[j]) >= k
  {
    hide Byte;
    ByteFacts(0);
    assert Mated(t3, j);
  }

  lemma SwapInverse(t: seq<int>, inv: seq<int>, k: nat, ic: nat) returns (inv': seq<int>)
    requires Inverse(t, inv) && k < 256 && ic < 256
    ensures Inverse(t[k := t[ic]][ic := t[k]], inv')
  {
    hide Byte;
    ByteFacts(k);
    ByteFacts(ic);
    inv' := inv[Byte(t[k]) := ic][Byte(t[ic]) := k];
  }

  lemma StartTables(t1: seq<int>, t3: seq<int>, inv: seq<int>)
    requires |t1| == |t3| == |inv| == 256
    requires forall j :: 0 <= j < 256 ==> t1[j] == SChar(j) && t3[j] == 0 && inv[j] == j
    ensures Inverse(t1, inv) && Paired(t3, 256)
  {
    hide Byte, SChar;
    forall j | 0 <= j < 256 ensures Byte(SChar(j)) == j && Byte(j) == j {
      ByteFacts(j);
    }
    SingleAll(t3, 256);
  }

  lemma AllPaired(t3: seq<int>)
    requires Paired(t3, 0)
    ensures Involution(t3)
  {
  }

  // ---- the tables of a key ----

  datatype Wheels = Wheels(t1: seq<int>, t3: seq<int>)

  /** The seed after n bytes of the key, and after n rounds of the set-up. */
  function KeySeed(buf: seq<int>, n: nat): int
    requires n <= |buf|
  {
    if n == 0 then 123 else Long(KeySeed(buf, n - 1) * buf[n - 1] + (n - 1))
  }

  function RoundSeed(buf: seq<int>, n: nat): int
    requires |buf| == 13
  {
    if n == 0 then KeySeed(buf, 13) else Long(5 * RoundSeed(buf, n - 1) + buf[(n - 1) % 13])
  }

  /** The first of the next n entries below k, from ic on and round, that is zero. */
  function Find(t3: seq<int>, k: nat, ic: nat, n: nat): (r: nat)
    requires ic < k <= |t3|
    ensures r < k
    decreases n
  {
    if n == 0 || t3[ic] == 0 then ic else Find(t3, k, (ic + 1) % k, n - 1)
  }

  /** Round i takes place k = 255 - i: a swap below it, and a mate for it when it has none. */
  function Turned(w: Wheels, i: nat, random: nat): (w': Wheels)
    requires |w.t1| == |w.t3| == 256 && i < 256
    ensures |w'.t1| == |w'.t3| == 256
  {
    var k := 256 - 1 - i;
    var ic := Byte(random) % (k + 1);
    var t1 := w.t1[k := w.t1[ic]][ic := w.t1[k]];
    if w.t3[k] != 0 || k == 0 then Wheels(t1, w.t3)
    else
      var jc := Find(w.t3, k, Byte(random / 256) % k, k);
      Wheels(t1, w.t3[k := SChar(jc)][jc := SChar(k)])
  }

  /** The wheels after n rounds. */
  function WheelsOf(buf: seq<int>, n: nat): (w: Wheels)
    requires |buf| == 13 && n <= 256
    ensures |w.t1| == |w.t3| == 256
  {
    if n == 0 then Wheels(seq(256, j requires 0 <= j < 256 => SChar(j)), seq(256, _ => 0))
    else Turned(WheelsOf(buf, n - 1), n - 1, Random(RoundSeed(buf, n)))
  }

  method CrInit(key: seq<int>, buf: seq<int>, t1: array<int>, t2: array<int>, t3: array<int>) returns (ok: bool)
    requires |buf| == 13 && t1.Length == t2.Length == t3.Length == 256 && t1 != t2 && t2 != t3 && t1 != t3
    modifies t1, t2, t3
    ensures ok <==> key != [] && key[0] != 0
    ensures ok ==> Inverse(t1[..], t2[..]) && Involution(t3[..])
    ensures ok ==> Wheels(t1[..], t3[..]) == WheelsOf(buf, 256)
  {
    hide Turned, Byte, SChar, Long, Random, Inverse, Paired, Involution;
    if key == [] || key[0] == 0 {
      return false;
    }
    var seed := 123;
    for i := 0 to 13
      invariant seed == KeySeed(buf, i)
    {
      seed := Long(seed * buf[i] + i);
    }
    for i := 0 to 256
      invariant forall j :: 0 <= j < i ==> t1[j] == SChar(j) && t3[j] == 0
    {
      t1[i] := SChar(i);
      t3[i] := 0;
    }
    ghost var inv := seq(256, j => j);
    StartTables(t1[..], t3[..], inv);
    assert Wheels(t1[..], t3[..]) == WheelsOf(buf, 0);
    for i := 0 to 256
      invariant Inverse(t1[..], inv) && Paired(t3[..], 256 - i)
      invariant seed == RoundSeed(buf, i) && Wheels(t1[..], t3[..]) == WheelsOf(buf, i)
    {
      seed := Long(5 * seed + buf[i % 13]);
      inv := Turn(t1, t3, Random(seed), i, inv);
    }
    AllPaired(t3[..]);
    Invert(t1, t2, inv);
    ok := true;
  }

  /** One round of the set-up loop: a swap in t1, and a mate for t3[k]. */
  method Turn(t1: array<int>, t3: array<int>, random0: nat, i: nat, ghost inv: seq<int>) returns (ghost inv': seq<int>)
    requires t1.Length == t3.Length == 256 && t1 != t3 && i < 256
    requires Inverse(t1[..], inv) && Paired(t3[..], 256 - i)
    modifies t1, t3
    ensures Inverse(t1[..], inv') && Paired(t3[..], 256 - i - 1)
    ensures Wheels(t1[..], t3[..]) == Turned(Wheels(old(t1[..]), old(t3[..])), i, random0)
  {
    hide Find, Byte, SChar, Inverse, Paired;
    var random := random0;
    var k := 256 - 1 - i;
    var ic := Byte(random) % (k + 1);
    random := random / 256;
    ghost var a := t1[..];
    inv' := SwapInverse(t1[..], inv, k, ic);
    t1[k], t1[ic] := t1[ic], t1[k];
    assert t1[..] == a[k := a[ic]][ic := a[k]];
    if t3[k] != 0 {
      PairedSkip(t3[..], k + 1);
      return;
    }
    ghost var z := OtherSingle(t3[..], k + 1);
    ic := FirstSingle(t3, k, Byte(random) % k, z);
    PairedStep(t3[..], k + 1, ic);
    ghost var b := t3[..];
    t3[k] := SChar(ic);
    t3[ic] := SChar(k);
    assert t3[..] == b[k := SChar(ic)][ic := SChar(k)];
  }

  lemma NextModulo(ic: nat, k: nat)
    requires ic < k
    ensures (ic + 1) % k == if ic + 1 == k then 0 else ic + 1
  {
  }

  /** The search loop: it ends because an entry below k is still zero. */
  method FirstSingle(t3: array<int>, k: nat, start: nat, ghost z: nat) returns (ic: nat)
    requires start < k <= t3.Length && z < k && t3[z] == 0
    ensures ic < k && t3[ic] == 0 && ic == Find(t3[..], k, start, k)
  {
    ic := start;
    ghost var n: nat := k;
    while t3[ic] != 0
      invariant ic < k && Find(t3[..], k, start, k) == Find(t3[..], k, ic, n)
      invariant n >= if ic <= z then z - ic else z - ic + k
      decreases if ic <= z then z - ic else z - ic + k
    {
      NextModulo(ic, k);
      ic := (ic + 1) % k;
      n := n - 1;
    }
  }

  method Invert(t1: array<int>, t2: array<int>, ghost inv: seq<int>)
    requires t1.Length == t2.Length == 256 && t1 != t2 && Inverse(t1[..], inv)
    modifies t2
    ensures Inverse(t1[..], t2[..])
  {
    for i := 0 to 256
      invariant t1[..] == old(t1[..])
      invariant forall j :: 0 <= j < i ==> Byte(t2[Byte(t1[j])]) == j
    {
      assert forall j :: 0 <= j < i ==> Byte(t1[j]) != Byte(t1[i]);
      t2[Byte(t1[i])] := SChar(i);
    }
    forall v | 0 <= v < 256 ensures Byte(t1[Byte(t2[v])]) == v {
      assert Byte(t1[Byte(inv[v])]) == v;
    }
  }

  // ---- the block cipher ----

  /** One character at stream position n. */
  function Rotor(t1: seq<int>, t2: seq<int>, t3: seq<int>, c: int, n: nat): int
    requires |t1| == |t2| == |t3| == 256
  {
    var n1, n2 := n % 256, n / 256 % 256;
    SChar(t2[Byte(t3[Byte(t1[Byte(c + n1)] + n2)] - n2)] - n1)
  }

  function Crypt(t1: seq<int>, t2: seq<int>, t3: seq<int>, buf: seq<int>, startn: nat): seq<int>
    requires |t1| == |t2| == |t3| == 256
  {
    seq(|buf|, i requires 0 <= i < |buf| => Rotor(t1, t2, t3, buf[i], startn + i))
  }

  lemma NextPosition(n: nat)
    ensures (n + 1) % 256 == if n % 256 == 255 then 0 else n % 256 + 1
    ensures (n + 1) / 256 % 256 == if n % 256 < 255 then n / 256 % 256 else if n / 256 % 256 == 255 then 0 else n / 256 % 256 + 1
  {
  }

  method CrBlock(t1: array<int>, t2: array<int>, t3: array<int>, buf: array<int>, startn: nat)
    requires t1.Length == t2.Length == t3.Length == 256 && buf != t1 && buf != t2 && buf != t3
    modifies buf
    ensures buf[..] == Crypt(t1[..], t2[..], t3[..], old(buf[..]), startn)
  {
    hide Byte, SChar;
    var n1 := startn % 256;
    var n2 := startn / 256 % 256;
    for i := 0 to buf.Length
      invariant n1 == (startn + i) % 256 && n2 == (startn + i) / 256 % 256
      invariant forall j :: 0 <= j < i ==> buf[j] == Rotor(t1[..], t2[..], t3[..], old(buf[j]), startn + j)
      invariant forall j :: i <= j < buf.Length ==> buf[j] == old(buf[j])
    {
      buf[i] := SChar(t2[Byte(t3[Byte(t1[Byte(buf[i] + n1)] + n2)] - n2)] - n1);
      NextPosition(startn + i);
      n1 := n1 + 1;
      if n1 == 256 {
        n1 := 0;
        n2 := n2 + 1;
        if n2 == 256 {
          n2 := 0;
        }
      }
    }
  }

  /** Going through the machine twice at the same position restores the character. */
  lemma RotorTwice(t1: seq<int>, t2: seq<int>, t3: seq<int>, c: int, n: nat)
    requires Inverse(t1, t2) && Involution(t3) && -128 <= c < 128
    ensures Rotor(t1, t2, t3, Rotor(t1, t2, t3, c, n), n) == c
  {
    hide Byte, SChar;
    var n1, n2 := n % 256, n / 256 % 256;
    var a := Byte(c + n1);
    var b := Byte(t1[a] + n2);
    var d := Byte(t3[b] - n2);
    var r := Rotor(t1, t2, t3, c, n);
    Shift(r, t2[d] - n1, n1);
    assert Byte(r + n1) == Byte(t2[d]);
    assert Byte(t1[Byte(t2[d])]) == d;
    Shift(t1[Byte(t2[d])], t3[b] - n2, n2);
    assert Byte(t1[Byte(r + n1)] + n2) == Byte(t3[b]);
    assert Mated(t3, b);
    Shift(t3[Byte(t3[b])], t1[a] + n2, -n2);
    assert Byte(t3[Byte(t3[b])] - n2) == Byte(t1[a]);
    assert Byte(t2[Byte(t1[a])]) == a;
    Shift(t2[Byte(t1[a])], c + n1, -n1);
    BackToChar(t2[Byte(t1[a])] - n1, c);
  }

  lemma Shift(x: int, y: int, d: int)
    requires Byte(x) == Byte(y) || x == SChar(y)
    ensures Byte(x + d) == Byte(y + d)
  {
    ByteFacts(y);
    ByteSum(x, d);
    ByteSum(y, d);
  }

  lemma BackToChar(x: int, c: int)
    requires Byte(x) == Byte(c) && -128 <= c < 128
    ensures SChar(x) == c
  {
  }

  /** Encryption is its own inverse. */
  lemma CryptTwice(t1: seq<int>, t2: seq<int>, t3: seq<int>, buf: seq<int>, startn: nat)
    requires Inverse(t1, t2) && Involution(t3) && Chars(buf)
    ensures Crypt(t1, t2, t3, Crypt(t1, t2, t3, buf, startn), startn) == buf
  {
    forall i | 0 <= i < |buf|
      ensures Crypt(t1, t2, t3, Crypt(t1, t2, t3, buf, startn), startn)[i] == buf[i]
    {
      RotorTwice(t1, t2, t3, buf[i], startn + i);
    }
  }

  /** The tables that another session makes of the same key decrypt as well. */
  lemma LaterSession(t1: seq<int>, t2: seq<int>, t2': seq<int>, t3: seq<int>, buf: seq<int>, startn: nat)
    requires Inverse(t1, t2) && Inverse(t1, t2') && Involution(t3) && Chars(buf)
    ensures Crypt(t1, t2', t3, Crypt(t1, t2, t3, buf, startn), startn) == buf
  {
    hide Chars, Rotor;
    CryptTwice(t1, t2, t3, buf, startn);
    var crypted := Crypt(t1, t2, t3, buf, startn);
    forall i | 0 <= i < |buf| ensures Rotor(t1, t2', t3, crypted[i], startn + i) == Rotor(t1, t2, t3, crypted[i], startn + i) {
      SameRotor(t1, t2, t2', t3, crypted[i], startn + i);
    }
    assert Crypt(t1, t2', t3, crypted, startn) == Crypt(t1, t2, t3, crypted, startn);
  }

  lemma SameRotor(t1: seq<int>, t2: seq<int>, t2': seq<int>, t3: seq<int>, c: int, n: nat)
    requires Inverse(t1, t2) && Inverse(t1, t2') && |t3| == 256
    ensures Rotor(t1, t2', t3, c, n) == Rotor(t1, t2, t3, c, n)
  {
    hide Byte, SChar;
    var d := Byte(t3[Byte(t1[Byte(c + n % 256)] + n / 256 % 256)] - n / 256 % 256);
    assert Byte(t1[Byte(t2[d])]) == d && Byte(t2'[Byte(t1[Byte(t2[d])])]) == Byte(t2[d]);
    SameChar(t2'[d], t2[d], n % 256);
  }

  lemma SameChar(x: int, y: int, n: int)
    requires Byte(x) == Byte(y)
    ensures SChar(x - n) == SChar(y - n)
  {
  }
}
