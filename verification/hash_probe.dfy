/** Arithmetic under the bucketed hash of `goes/elib/hash.go`: displacement by exclusive or, buckets of a
  * power of two slots, and the base index computed from a key's 128-bit hash.
  */
module HashProbe {
  import opened Basics

  function Xor(a: nat, b: nat): nat
    decreases a + b
  {
    if a == 0 && b == 0 then 0 else 2 * Xor(a / 2, b / 2) + (a % 2 + b % 2) % 2
  }

  lemma XorStep(a: nat, b: nat)
    ensures Xor(a, b) / 2 == Xor(a / 2, b / 2) && Xor(a, b) % 2 == (a % 2 + b % 2) % 2
  {
  }

  lemma BitBack(p: nat, q: nat)
    requires p < 2 && q < 2
    ensures ((p + q) % 2 + q) % 2 == p
  {
  }

  lemma Halves(a: nat, b: nat)
    requires a / 2 == b / 2 && a % 2 == b % 2
    ensures a == b
  {
  }

  lemma {:induction false} XorSelf(a: nat, b: nat)
    ensures Xor(Xor(a, b), b) == a
    decreases a + b
  {
    if a != 0 || b != 0 {
      hide Xor;
      XorSelf(a / 2, b / 2);
      XorStep(a, b);
      XorStep(Xor(a, b), b);
      BitBack(a % 2, b % 2);
      Halves(Xor(Xor(a, b), b), a);
    } else {
      assert Xor(0, 0) == 0;
    }
  }

  lemma {:induction false} XorSwap(a: nat, b: nat)
    ensures Xor(a, b) == Xor(b, a)
    decreases a + b
  {
    if a != 0 || b != 0 {
      XorSwap(a / 2, b / 2);
    }
  }

  lemma XorOneToOne(a: nat, d: nat, e: nat)
    requires Xor(a, d) == Xor(a, e)
    ensures d == e
  {
    XorSwap(a, d);
    XorSwap(a, e);
    XorSelf(d, a);
    XorSelf(e, a);
  }

  lemma {:induction false} XorZero(a: nat)
    ensures Xor(a, 0) == a
  {
    if a != 0 { XorZero(a / 2); }
  }

  lemma DivTwice(x: nat, m: nat)
    requires m > 0
    ensures x / (2 * m) == x / 2 / m
  {
    var q, r := x / 2 / m, x / 2 % m;
    assert x / 2 == q * m + r;
    assert x == q * (2 * m) + (2 * r + x % 2);
    DivUnique(x, 2 * m, q, 2 * r + x % 2);
  }

  lemma DivUnique(x: nat, m: nat, q: nat, r: nat)
    requires x == q * m + r && r < m
    ensures x / m == q
  {
    var q', r' := x / m, x % m;
    assert x == q' * m + r';
    assert q' < q ==> (q' + 1) * m <= q * m;
    assert q < q' ==> (q + 1) * m <= q' * m;
  }

  /** A displacement below the bucket size stays in the bucket. */
  lemma {:induction false} XorSameBucket(a: nat, d: nat, l: nat)
    requires d < Pow2(l)
    ensures Xor(a, d) / Pow2(l) == a / Pow2(l)
    decreases l
  {
    if l == 0 {
      XorZero(a);
    } else {
      XorSameBucket(a / 2, d / 2, l - 1);
      DivTwice(a, Pow2(l - 1));
      DivTwice(Xor(a, d), Pow2(l - 1));
      XorStep(a, d);
    }
  }

  lemma {:induction false} Pow2Divides(l: nat, c: nat)
    requires l <= c
    ensures Pow2(c) % Pow2(l) == 0 && Pow2(l) <= Pow2(c)
    decreases c
  {
    if l < c {
      Pow2Divides(l, c - 1);
      var q := Pow2(c - 1) / Pow2(l);
      assert Pow2(c) == (2 * q) * Pow2(l);
      DivUnique(Pow2(c), Pow2(l), 2 * q, 0);
    } else {
      DivUnique(Pow2(c), Pow2(l), 1, 0);
    }
  }

  function Quotient(a: nat, n: nat): nat
    requires n > 0
  {
    a / n
  }

  /** Bit by bit, the exclusive or. */
  lemma {:induction false} XorBits(a: nat, b: nat, k: nat)
    ensures Quotient(Xor(a, b), Pow2(k)) % 2 == 1
      <==> (Quotient(a, Pow2(k)) % 2 == 1) != (Quotient(b, Pow2(k)) % 2 == 1)
  {
    if k > 0 {
      XorBits(a / 2, b / 2, k - 1);
      DivTwice(a, Pow2(k - 1));
      DivTwice(b, Pow2(k - 1));
      DivTwice(Xor(a, b), Pow2(k - 1));
      XorStep(a, b);
    }
  }

  // ---- Geometry ----

  /** Shape of the table: Pow2(log2Cap0) slots, then Pow2(log2Cap1) more when there is a second part. */
  datatype Geometry = Geometry(log2Cap0: nat, log2Cap1: nat, two: bool, log2Bucket: nat, limit0: nat, seed: nat)
  {
    function Cap(): nat { Pow2(log2Cap0) + if two then Pow2(log2Cap1) else 0 }

    function Bucket(): (n: nat) ensures n > 0 { Pow2(log2Bucket) }

    function BucketOf(i: nat): nat { Quotient(i, Bucket()) }

    function Buckets(): nat { Quotient(Cap(), Bucket()) }

    predicate Ok() {
      && log2Bucket <= 7 && log2Bucket <= log2Cap0
      && (two ==> log2Bucket <= log2Cap1)
      && (!two ==> limit0 == WORD_LIMIT - 1)
    }
  }

  const WORD_LIMIT := 0x1_0000_0000

  /** `alloc`: bucket size and table split for a capacity of one or two powers of two. */
  function Alloc(log2Cap0: nat, log2Cap1: nat, two: bool, seed: nat): (g: Geometry)
    requires 0 < log2Cap0 && (two ==> log2Cap1 < log2Cap0)
    ensures g.Ok() && g.log2Cap0 == log2Cap0 && g.two == two
    ensures two ==> g.log2Cap1 >= log2Cap1
  {
    var l := if (log2Cap0 - 1) / 2 > 7 then 7 else (log2Cap0 - 1) / 2;
    var c1 := if two && l > log2Cap1 then l else log2Cap1;
    var cap := Pow2(log2Cap0) + if two then Pow2(c1) else 0;
    Geometry(log2Cap0, c1, two, l, if two then WORD_LIMIT * Pow2(log2Cap0) / cap else WORD_LIMIT - 1, seed)
  }

  /** `baseIndex` of the two 64-bit words that a key hashes to. */
  function BaseIndex(g: Geometry, h: (nat, nat)): nat {
    if h.0 / WORD_LIMIT % WORD_LIMIT > g.limit0
    then h.1 % Pow2(g.log2Cap1) + Pow2(g.log2Cap0)
    else h.1 % Pow2(g.log2Cap0)
  }

  /** The bucket is the largest of 2^l slots, l at most 7, with 2l + 1 within the first part's power; the second part
    * holds a bucket at least; the first part's share of the 32-bit range is its share of the slots. */
  lemma AllocSays(log2Cap0: nat, log2Cap1: nat, two: bool, seed: nat)
    requires 0 < log2Cap0 && (two ==> log2Cap1 < log2Cap0)
    ensures var g := Alloc(log2Cap0, log2Cap1, two, seed); var l := g.log2Bucket;
      && l <= 7 && 2 * l + 1 <= log2Cap0 && (l == 7 || 2 * (l + 1) + 1 > log2Cap0) && g.seed == seed
      && (two ==> g.log2Cap1 == if l > log2Cap1 then l else log2Cap1)
      && (two ==> g.limit0 * g.Cap() <= WORD_LIMIT * Pow2(log2Cap0) < (g.limit0 + 1) * g.Cap())
  {
    hide Pow2, Geometry.Cap, Geometry.Ok;
    var g := Alloc(log2Cap0, log2Cap1, two, seed);
    if two {
      CapOfTwo(g);
      DivBounds(WORD_LIMIT * Pow2(log2Cap0), g.Cap());
    }
  }

  lemma CapOfTwo(g: Geometry)
    requires g.two
    ensures g.Cap() == Pow2(g.log2Cap0) + Pow2(g.log2Cap1) > 0
  {
  }

  lemma DivBounds(a: nat, n: nat)
    requires n > 0
    ensures a / n * n <= a < (a / n + 1) * n
  {
  }

  /** The high half of the first word chooses the part of the table, and the second word the slot in it. */
  lemma BaseSays(g: Geometry, high: nat, low: nat, offset: nat)
    requires g.Ok() && high < WORD_LIMIT && low < WORD_LIMIT
    ensures var b := BaseIndex(g, (high * WORD_LIMIT + low, offset));
      if high <= g.limit0 then b < Pow2(g.log2Cap0) && b == offset % Pow2(g.log2Cap0)
      else g.two && b >= Pow2(g.log2Cap0) && b - Pow2(g.log2Cap0) == offset % Pow2(g.log2Cap1)
  {
    hide Pow2;
    assert (high * WORD_LIMIT + low) / WORD_LIMIT == high;
  }

  lemma SumDivides(a: nat, b: nat, n: nat)
    requires n > 0 && a % n == 0 && b % n == 0
    ensures (a + b) % n == 0
  {
    var p, q := a / n, b / n;
    assert a == p * n && b == q * n;
    assert a + b == (p + q) * n;
    DivUnique(a + b, n, p + q, 0);
  }

  lemma BucketsFill(g: Geometry)
    requires g.Ok()
    ensures g.Cap() % g.Bucket() == 0
    ensures (g.Cap() / g.Bucket()) * g.Bucket() == g.Cap()
  {
    hide Pow2;
    Pow2Divides(g.log2Bucket, g.log2Cap0);
    if g.two {
      Pow2Divides(g.log2Bucket, g.log2Cap1);
      SumDivides(Pow2(g.log2Cap0), Pow2(g.log2Cap1), g.Bucket());
    }
  }

  /** Every probe of a key stays inside the table and inside the bucket of the key's base index. */
  lemma ProbeInRange(g: Geometry, base: nat, d: nat)
    requires g.Ok() && base < g.Cap() && d < g.Bucket()
    ensures Xor(base, d) < g.Cap()
    ensures g.BucketOf(Xor(base, d)) == g.BucketOf(base) < g.Buckets()
  {
    hide Xor, Pow2;
    XorSameBucket(base, d, g.log2Bucket);
    BucketsFill(g);
    SameQuotient(base, Xor(base, d), g.Cap() / g.Bucket(), g.Bucket());
  }

  lemma SameQuotient(a: nat, b: nat, q: nat, n: nat)
    requires n > 0 && a < q * n && a / n == b / n
    ensures b < q * n && a / n < q
  {
    var k := a / n;
    assert a == k * n + a % n && b == k * n + b % n;
    assert k >= q ==> k * n >= q * n;
    assert k < q ==> (k + 1) * n <= q * n;
  }

  lemma BaseInRange(g: Geometry, h: (nat, nat))
    requires g.Ok()
    ensures BaseIndex(g, h) < g.Cap()
  {
  }
}
