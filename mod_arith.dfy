/** Natural-number exponentiation and the modular identities the accumulator rests on.
    Bignum::pow_mod is modelled by its mathematical meaning, Pow(b, e) % m. */
module ModArith {

  /** b raised to the e-th power (Pow(0, 0) == 1, as for Bignum's pow_mod). */
  function Pow(b: nat, e: nat): nat
    decreases e
  {
    if e == 0 then 1 else b * Pow(b, e - 1)
  }

  /** b^e mod m; the result is always a residue of m. */
  function PowMod(b: nat, e: nat, m: nat): (r: nat)
    requires m > 0
    ensures r < m
  {
    Pow(b, e) % m
  }

  lemma {:induction false} PowAdd(b: nat, x: nat, y: nat)
    ensures Pow(b, x + y) == Pow(b, x) * Pow(b, y)
  {
    if x > 0 {
      PowAdd(b, x - 1, y);
      assert Pow(b, x + y) == b * Pow(b, x - 1 + y);
    }
  }

  /** Raising to x and then to y is raising to x * y. */
  lemma {:induction false} PowMul(b: nat, x: nat, y: nat)
    ensures Pow(b, x * y) == Pow(Pow(b, x), y)
  {
    if y > 0 {
      PowMul(b, x, y - 1);
      assert x * y == x + x * (y - 1);
      PowAdd(b, x, x * (y - 1));
    }
  }

  /** A positive multiple of a positive m is at least m (kept apart so the solver sees it alone). */
  lemma MulAtLeast(k: int, m: int)
    requires k >= 1 && m > 0
    ensures k * m >= m
  {
  }

  /** Division by a positive m has a unique remainder. */
  lemma ModUnique(x: int, m: int, q: int, r: int)
    requires m > 0 && 0 <= r < m && x == q * m + r
    ensures x % m == r
  {
    var q0, r0 := x / m, x % m;
    assert x == q0 * m + r0;
    assert (q - q0) * m == r0 - r;
    if q > q0 {
      MulAtLeast(q - q0, m);
    } else if q < q0 {
      MulAtLeast(q0 - q, m);
    }
  }

  /** Reducing a factor modulo m before multiplying does not change the product modulo m. */
  lemma MulModLeft(a: nat, b: nat, m: nat)
    requires m > 0
    ensures ((a % m) * b) % m == (a * b) % m
  {
    var q, r := a / m, a % m;
    var s, t := (r * b) / m, (r * b) % m;
    assert a * b == (q * b + s) * m + t by {
      assert a == q * m + r;
      assert a * b == q * m * b + r * b;
    }
    ModUnique(a * b, m, q * b + s, t);
  }

  /** The base of a power can be reduced modulo m first. */
  lemma {:induction false} PowReduce(b: nat, e: nat, m: nat)
    requires m > 0
    ensures Pow(b % m, e) % m == Pow(b, e) % m
  {
    if e > 0 {
      var r, pr, pb := b % m, Pow(b % m, e - 1), Pow(b, e - 1);
      assert Pow(r, e) == pr * r;
      assert Pow(b, e) == b * pb;
      MulModLeft(pr, r, m);
      PowReduce(b, e - 1, m);
      assert (pr * r) % m == ((pb % m) * r) % m;
      MulModLeft(pb, r, m);
      assert (pb * r) % m == (r * pb) % m;
      MulModLeft(b, pb, m);
    }
  }

  /** Two successive modular exponentiations compose into one by the product of the exponents. */
  lemma PowModCompose(b: nat, x: nat, y: nat, m: nat)
    requires m > 0
    ensures PowMod(PowMod(b, x, m), y, m) == PowMod(b, x * y, m)
  {
    PowReduce(Pow(b, x), y, m);
    PowMul(b, x, y);
  }

  /** The order of two modular exponentiations does not matter. */
  lemma PowModCommutes(b: nat, x: nat, y: nat, m: nat)
    requires m > 0
    ensures PowMod(PowMod(b, x, m), y, m) == PowMod(PowMod(b, y, m), x, m)
  {
    PowModCompose(b, x, y, m);
    PowModCompose(b, y, x, m);
    assert x * y == y * x;
  }
}
