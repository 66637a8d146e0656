/** The number theory behind the probe sequence of the assembler's symbol table:
    1103 is prime, so the first 552 squares differ modulo 1103. */
module AsPrime {

  const NHASH := 1103

  lemma NoSmallFactor(d: nat, e: nat)
    requires 2 <= e <= 33
    ensures d * e != NHASH
  {
    if e <= 9 {
      if e == 2 {} else if e == 3 {} else if e == 4 {} else if e == 5 {} else if e == 6 {} else if e == 7 {} else if e == 8 {} else {}
    } else if e <= 17 {
      if e == 10 {} else if e == 11 {} else if e == 12 {} else if e == 13 {} else if e == 14 {} else if e == 15 {} else if e == 16 {} else {}
    } else if e <= 25 {
      if e == 18 {} else if e == 19 {} else if e == 20 {} else if e == 21 {} else if e == 22 {} else if e == 23 {} else if e == 24 {} else {}
    } else {
      if e == 26 {} else if e == 27 {} else if e == 28 {} else if e == 29 {} else if e == 30 {} else if e == 31 {} else if e == 32 {} else {}
    }
  }

  /** 1103 is prime. */
  lemma Prime(d: nat)
    requires 1 < d < NHASH
    ensures NHASH % d != 0
  {
    var e := NHASH / d;
    if d <= 33 {
      NoSmallFactor(e, d);
    } else if e >= 2 {
      NoSmallFactor(d, e);
    }
  }

  /** A multiple of 1103 with factor a leaves one with the smaller factor 1103 % a. */
  lemma RemainderMultiple(a: nat, b: nat, m: nat)
    requires a > 0 && a * b == NHASH * m
    ensures ((NHASH % a) * b) % NHASH == 0
  {
    var q := NHASH / a;
    calc {
      (NHASH % a) * b;
      (NHASH - a * q) * b;
      NHASH * b - q * (a * b);
      NHASH * b - q * (NHASH * m);
      NHASH * (b - q * m);
    }
    Multiple(b - q * m);
  }

  /** No product of smaller numbers is a multiple of 1103. */
  lemma {:induction false} NoZeroProduct(a: nat, b: nat)
    requires 0 < a < NHASH && 0 < b < NHASH
    ensures (a * b) % NHASH != 0
    decreases a
  {
    if a > 1 {
      Prime(a);
      NoZeroProduct(NHASH % a, b);
      if (a * b) % NHASH == 0 {
        RemainderMultiple(a, b, (a * b) / NHASH);
      }
    }
  }

  lemma Multiple(x: int)
    ensures (NHASH * x) % NHASH == 0
  {
  }

  /** Probe number k for a name that hashes to h. */
  function Probe(h: nat, k: nat): (p: nat)
    ensures p < NHASH
  {
    (h + k * k) % NHASH
  }

  /** Two of the first 552 probes never meet. */
  lemma ProbesDiffer(h: nat, i: nat, j: nat)
    requires i < j <= NHASH / 2
    ensures Probe(h, i) != Probe(h, j)
  {
    if Probe(h, i) == Probe(h, j) {
      var d := (h + j * j) - (h + i * i);
      SameRemainder(h + i * i, h + j * j);
      assert d == (j - i) * (j + i);
      NoZeroProduct(j - i, j + i);
    }
  }

  lemma SameRemainder(x: nat, y: nat)
    requires x % NHASH == y % NHASH
    ensures (y - x) % NHASH == 0
  {
    assert y - x == NHASH * (y / NHASH - x / NHASH);
    Multiple(y / NHASH - x / NHASH);
  }
}
