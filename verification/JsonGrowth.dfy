/** How the print buffer chooses its next size: `pow2gt` smears the highest bit of its argument
    downwards with shifts and ors. */
module JsonGrowth {

  function Pow2(k: nat): (p: nat)
    ensures p >= 1
  {
    if k == 0 then 1 else 2 * Pow2(k - 1)
  }

  /** Bitwise or. */
  function Or(a: nat, b: nat): nat {
    if a == 0 then b else if b == 0 then a
    else 2 * Or(a / 2, b / 2) + if a % 2 == 1 || b % 2 == 1 then 1 else 0
  }

  /** Shift right by k. */
  function Shr(a: nat, k: nat): nat { if k == 0 then a else Shr(a / 2, k - 1) }

  function Smear(a: nat, k: nat): nat { Or(a, Shr(a, k)) }

  function Pow2Gt(x: nat): nat
    requires x >= 1
  {
    Smear(Smear(Smear(Smear(Smear(x - 1, 1), 2), 4), 8), 16) + 1
  }

  const LARGEST: int := 0x4000_0000

  /** Bit `k` of a number. */
  predicate Bit(n: nat, k: nat) { if k == 0 then n % 2 == 1 else Bit(n / 2, k - 1) }

  lemma {:induction false} ZeroBits(k: nat)
    ensures !Bit(0, k)
    decreases k
  {
    if k > 0 { ZeroBits(k - 1); }
  }

  /** Or is or on every bit. */
  lemma {:induction false} OrBits(a: nat, b: nat, k: nat)
    ensures Bit(Or(a, b), k) <==> Bit(a, k) || Bit(b, k)
    decreases k
  {
    ZeroBits(k);
    if k > 0 && a != 0 && b != 0 { OrBits(a / 2, b / 2, k - 1); }
  }

  /** A shift to the right moves every bit down. */
  lemma {:induction false} ShrBits(a: nat, k: nat, j: nat)
    ensures Bit(Shr(a, k), j) <==> Bit(a, k + j)
    decreases k
  {
    if k > 0 { ShrBits(a / 2, k - 1, j); }
  }

  // ------------------------------------------------------------ shifts

  lemma {:induction false} Pow2Grows(i: nat, j: nat)
    requires i <= j
    ensures Pow2(i) <= Pow2(j)
    decreases j
  {
    if i < j { Pow2Grows(i, j - 1); }
  }

  lemma {:induction false} ShrShr(a: nat, i: nat, j: nat)
    ensures Shr(Shr(a, i), j) == Shr(a, i + j)
    decreases i
  {
    if i > 0 { ShrShr(a / 2, i - 1, j); }
  }

  lemma {:induction false} ShrBelow(a: nat, k: nat)
    ensures Shr(a, k) <= a
    decreases k
  {
    if k > 0 { ShrBelow(a / 2, k - 1); }
  }

  lemma {:induction false} ShrAll(a: nat, k: nat)
    requires a < Pow2(k)
    ensures Shr(a, k) == 0
    decreases k
  {
    if k > 0 { ShrAll(a / 2, k - 1); }
  }

  lemma {:induction false} ShrOnes(w: nat, d: nat)
    requires d <= w
    ensures Shr(Pow2(w) - 1, w - d) == Pow2(d) - 1
    decreases w
  {
    if d < w {
      ShrOnes(w - 1, d);
      assert (Pow2(w) - 1) / 2 == Pow2(w - 1) - 1;
    }
  }

  lemma {:induction false} ShrTop(a: nat, n: nat)
    requires n >= 1 && Pow2(n - 1) <= a < Pow2(n)
    ensures Shr(a, n - 1) == 1
    decreases n
  {
    if n > 1 { ShrTop(a / 2, n - 1); }
  }

  // ------------------------------------------------------------ or

  lemma {:induction false} OrHalf(a: nat, b: nat)
    ensures Or(a, b) / 2 == Or(a / 2, b / 2)
  {
  }

  lemma {:induction false} ShrOr(a: nat, b: nat, m: nat)
    ensures Shr(Or(a, b), m) == Or(Shr(a, m), Shr(b, m))
    decreases m
  {
    if m > 0 {
      OrHalf(a, b);
      ShrOr(a / 2, b / 2, m - 1);
    }
  }

  lemma {:induction false} OrBound(a: nat, b: nat, n: nat)
    requires a < Pow2(n) && b < Pow2(n)
    ensures Or(a, b) < Pow2(n)
    decreases n
  {
    if n > 0 && a > 0 && b > 0 { OrBound(a / 2, b / 2, n - 1); }
  }

  /** Or with d ones below w ones gives w + d ones. */
  lemma {:induction false} OrOnes(a: nat, w: nat, d: nat)
    requires Shr(a, d) == Pow2(w) - 1
    ensures Or(a, Pow2(d) - 1) == Pow2(w + d) - 1
    decreases d
  {
    if d > 0 {
      OrOnes(a / 2, w, d - 1);
      var ones := Pow2(d) - 1;
      assert ones / 2 == Pow2(d - 1) - 1 && ones % 2 == 1;
      assert Pow2(w + d) == 2 * Pow2(w + (d - 1));
    }
  }

  // ------------------------------------------------------------ smearing

  /** Of the n bits of `a`, the highest w are ones. */
  predicate Lead(a: nat, n: nat, w: nat) {
    w <= n && a < Pow2(n) && Shr(a, n - w) == Pow2(w) - 1
  }

  lemma {:induction false} SmearTop(a: nat, n: nat, w: nat, d: nat)
    requires Lead(a, n, w) && d <= w && w + d <= n
    ensures Lead(Smear(a, w), n, w + d)
  {
    hide Or, Shr, Pow2;
    var m := n - w - d;
    ShrOr(a, Shr(a, w), m);
    ShrShr(a, w, m);
    ShrShr(a, n - w, w - d);
    assert w + m == n - w + (w - d);
    ShrOnes(w, d);
    ShrShr(a, m, d);
    assert m + d == n - w;
    OrOnes(Shr(a, m), w, d);
    ShrBelow(a, w);
    OrBound(a, Shr(a, w), n);
  }

  function Min(a: nat, b: nat): nat { if a <= b then a else b }

  /** One turn doubles the run of ones; once all n bits are ones it changes nothing. */
  lemma {:induction false} SmearMore(a: nat, n: nat, w: nat)
    requires Lead(a, n, Min(w, n))
    ensures Lead(Smear(a, w), n, Min(2 * w, n))
  {
    if w <= n {
      SmearTop(a, n, w, Min(w, n - w));
    } else {
      Pow2Grows(n, w);
      ShrAll(a, w);
      assert Or(a, 0) == a;
    }
  }

  lemma {:induction false} AllOnes(a: nat, n: nat)
    requires 1 <= n <= 32 && Lead(a, n, 1)
    ensures Pow2Gt(a + 1) == Pow2(n)
  {
    hide Lead, Smear;
    var b := Smear(a, 1);
    var c := Smear(b, 2);
    var d := Smear(c, 4);
    var e := Smear(d, 8);
    SmearMore(a, n, 1);
    SmearMore(b, n, 2);
    SmearMore(c, n, 4);
    SmearMore(d, n, 8);
    SmearMore(e, n, 16);
    LeadAll(Smear(e, 16), n);
  }

  lemma {:induction false} LeadAll(a: nat, n: nat)
    requires Lead(a, n, n)
    ensures a == Pow2(n) - 1
  {
    assert Shr(a, 0) == a;
  }

  // ------------------------------------------------------------ the result

  /** The number of bits of a positive number. */
  lemma {:induction false} BitsOf(a: nat) returns (n: nat)
    requires a >= 1
    ensures n >= 1 && Pow2(n - 1) <= a < Pow2(n)
  {
    n := 1;
    while a >= Pow2(n)
      invariant n >= 1 && Pow2(n - 1) <= a
      decreases a - Pow2(n - 1)
    {
      n := n + 1;
    }
  }

  lemma {:induction false} TwoTo30()
    ensures Pow2(30) == LARGEST
  {
    assert Pow2(10) == 1024;
    assert Pow2(20) == 1024 * Pow2(10);
    assert Pow2(30) == 1024 * Pow2(20);
  }

  /** `pow2gt` gives the least power of two not below its argument. */
  lemma {:induction false} LeastPowerOfTwo(x: nat) returns (n: nat)
    requires 1 <= x <= LARGEST
    ensures Pow2Gt(x) == Pow2(n) && x <= Pow2(n) <= LARGEST
    ensures forall j: nat :: x <= Pow2(j) ==> Pow2(n) <= Pow2(j)
  {
    hide Pow2Gt, Smear, Shr, Or;
    TwoTo30();
    if x == 1 {
      n := 0;
      OneIsPower();
    } else {
      n := BitsOf(x - 1);
      if n > 30 { Pow2Grows(30, n - 1); }
      Pow2Grows(n, 30);
      ShrTop(x - 1, n);
      assert Pow2(1) == 2;
      AllOnes(x - 1, n);
    }
    forall j: nat | x <= Pow2(j) ensures Pow2(n) <= Pow2(j) {
      if j < n { Pow2Grows(j, n - 1); } else { Pow2Grows(n, j); }
    }
  }

  lemma {:induction false} OneIsPower()
    ensures Pow2Gt(1) == 1
  {
    ShrBelow(0, 1);
    ShrBelow(0, 2);
    ShrBelow(0, 4);
    ShrBelow(0, 8);
    ShrBelow(0, 16);
  }

  lemma {:induction false} LargeEnough(x: nat)
    requires 1 <= x <= LARGEST
    ensures x <= Pow2Gt(x)
  {
    hide Pow2Gt;
    var n := LeastPowerOfTwo(x);
  }
}
