/** The hyperperiod: the least common multiple of the task periods. */
module Hyperperiod {

  ghost predicate Divides(d: int, n: int) {
    exists k: int :: IsMultiple(n, k, d)
  }

  ghost predicate IsMultiple(n: int, k: int, d: int) {
    n == k * d
  }

  ghost predicate IsSum(g: int, a: int, b: int, x: int, y: int) {
    g == x * a + y * b
  }

  /** c is a sum of multiples of a and b. */
  ghost predicate Spanned(c: int, a: int, b: int) {
    exists x: int, y: int :: IsSum(c, a, b, x, y)
  }

  /** g divides a and b, and is a sum of their multiples. */
  ghost predicate IsGcd(g: int, a: int, b: int) {
    g > 0 && Divides(g, a) && Divides(g, b) && Spanned(g, a, b)
  }

  /** What Euclid's algorithm keeps. */
  ghost predicate Euclid(a: int, b: int, c: int, d: int) {
    var spanned, common := Spanned(c, a, b) && Spanned(d, a, b), Common(a, b, c, d);
    spanned && common
  }

  /** What divides c and d divides a and b. */
  ghost predicate Common(a: int, b: int, c: int, d: int) {
    forall h: int :: Divides(h, c) && Divides(h, d) ==> Divides(h, a) && Divides(h, b)
  }

  lemma RemainderSpanned(a: int, b: int, c: int, d: int)
    requires d > 0 && Spanned(c, a, b) && Spanned(d, a, b)
    ensures Spanned(c % d, a, b)
  {
    var x: int, y: int :| IsSum(c, a, b, x, y);
    var z: int, w: int :| IsSum(d, a, b, z, w);
    var q := c / d;
    calc {
      c % d;
      c - q * d;
      x * a + y * b - q * (z * a + w * b);
      { Distribute(x, z, q, a); Distribute(y, w, q, b); }
      (x - q * z) * a + (y - q * w) * b;
    }
    assert IsSum(c % d, a, b, x - q * z, y - q * w);
  }

  lemma Distribute(x: int, z: int, q: int, a: int)
    ensures (x - q * z) * a == x * a - q * (z * a)
  {
  }

  lemma RemainderCommon(a: int, b: int, c: int, d: int)
    requires d > 0 && Common(a, b, c, d)
    ensures Common(a, b, d, c % d)
  {
    forall h: int | Divides(h, d) && Divides(h, c % d)
      ensures Divides(h, c)
    {
      var i: int :| IsMultiple(d, i, h);
      var j: int :| IsMultiple(c % d, j, h);
      var q := c / d;
      calc {
        c;
        q * d + c % d;
        q * (i * h) + j * h;
        (q * i + j) * h;
      }
      assert IsMultiple(c, q * i + j, h);
    }
  }

  function Abs(a: int): nat {
    if a < 0 then -a else a
  }

  /** An argument and its absolute value have the same divisors. */
  lemma AbsDivides(h: int, a: int)
    ensures Divides(h, Abs(a)) ==> Divides(h, a)
  {
    if k: int :| IsMultiple(Abs(a), k, h) {
      assert IsMultiple(a, if a < 0 then -k else k, h);
    }
  }

  lemma EuclidStart(a: int, b: int)
    ensures Euclid(a, b, Abs(a), Abs(b))
  {
    assert IsSum(Abs(a), a, b, if a < 0 then -1 else 1, 0) && IsSum(Abs(b), a, b, 0, if b < 0 then -1 else 1);
    forall h: int | Divides(h, Abs(a)) && Divides(h, Abs(b))
      ensures Divides(h, a) && Divides(h, b)
    {
      AbsDivides(h, a);
      AbsDivides(h, b);
    }
  }

  lemma EuclidStep(a: int, b: int, c: int, d: int)
    requires d > 0 && Euclid(a, b, c, d)
    ensures Euclid(a, b, d, c % d)
  {
    RemainderSpanned(a, b, c, d);
    RemainderCommon(a, b, c, d);
  }

  lemma EuclidDone(a: int, b: int, c: int)
    requires c > 0 && Euclid(a, b, c, 0)
    ensures IsGcd(c, a, b)
  {
    assert IsMultiple(c, 1, c) && IsMultiple(0, 0, c);
    assert Common(a, b, c, 0);
  }

  /** 0 for two zeros, and otherwise the greatest common divisor. */
  method Gcd(a: int, b: int) returns (g: nat)
    ensures if a == 0 && b == 0 then g == 0 else IsGcd(g, a, b)
  {
    var d: nat := Abs(b);
    g := Abs(a);
    EuclidStart(a, b);
    while d != 0
      invariant (g == 0 && d == 0 <==> a == 0 && b == 0) && Euclid(a, b, g, d)
      decreases d
    {
      EuclidStep(a, b, g, d);
      g, d := d, g % d;
    }
    if g > 0 {
      EuclidDone(a, b, g);
    }
  }

  /** l is a common multiple of a and b, and divides all others. */
  ghost predicate IsLcm(l: int, a: int, b: int) {
    Divides(a, l) && Divides(b, l) && forall m: int :: Divides(a, m) && Divides(b, m) ==> Divides(l, m)
  }

  lemma LcmOfGcd(a: int, b: int, g: int, i: int, j: int)
    requires g > 0 && IsMultiple(a, i, g) && IsMultiple(b, j, g) && IsGcd(g, a, b)
    ensures IsLcm(i * b, a, b)
  {
    var l := i * b;
    assert l == j * a by {
      assert i * (j * g) == j * (i * g);
    }
    assert IsMultiple(l, j, a) && IsMultiple(l, i, b);
    var x: int, y: int :| IsSum(g, a, b, x, y);
    forall m: int | Divides(a, m) && Divides(b, m)
      ensures Divides(l, m)
    {
      var s: int :| IsMultiple(m, s, a);
      var t: int :| IsMultiple(m, t, b);
      CommonMultiple(a, b, g, i, j, x, y, m, s, t);
      assert IsMultiple(m, x * t + y * s, l);
    }
  }

  /** A common multiple m is a multiple of i * b. */
  lemma CommonMultiple(a: int, b: int, g: int, i: int, j: int, x: int, y: int, m: int, s: int, t: int)
    requires g > 0 && a == i * g && b == j * g && g == x * a + y * b && m == s * a && m == t * b
    ensures m == (x * t + y * s) * (i * b)
  {
    var l := i * b;
    assert g * l == a * b by {
      assert g * (i * b) == (i * g) * b;
    }
    calc {
      g * m;
      (x * a + y * b) * m;
      { Spread(x * a, y * b, m); }
      (x * a) * m + (y * b) * m;
      (x * a) * (t * b) + (y * b) * (s * a);
      { Regroup(x, a, t, b); Regroup(y, b, s, a); }
      (x * t) * (a * b) + (y * s) * (a * b);
      { Spread(x * t, y * s, a * b); }
      (x * t + y * s) * (a * b);
      (x * t + y * s) * (g * l);
      { Swap(x * t + y * s, g, l); }
      g * ((x * t + y * s) * l);
    }
    Cancel(g, m, (x * t + y * s) * l);
  }

  lemma Spread(p: int, q: int, m: int)
    ensures (p + q) * m == p * m + q * m
  {
  }

  lemma Regroup(x: int, a: int, t: int, b: int)
    ensures (x * a) * (t * b) == (x * t) * (a * b)
  {
    assert (x * a) * (t * b) == x * (a * (t * b));
    assert a * (t * b) == t * (a * b);
    assert x * (t * (a * b)) == (x * t) * (a * b);
  }

  lemma Swap(p: int, g: int, l: int)
    ensures p * (g * l) == g * (p * l)
  {
  }

  lemma Cancel(g: int, p: int, q: int)
    requires g > 0 && g * p == g * q
    ensures p == q
  {
    assert g * (p - q) == 0;
  }

  method Lcm(a: nat, b: nat) returns (l: nat)
    requires a > 0 && b > 0
    ensures l > 0 && IsLcm(l, a, b)
  {
    var g := Gcd(a, b);
    ghost var i: int :| IsMultiple(a, i, g);
    ghost var j: int :| IsMultiple(b, j, g);
    LcmOfGcd(a, b, g, i, j);
    ExactQuotient(a, i, g);
    l := a / g * b;
    LcmPositive(a / g, b);
  }

  lemma ExactQuotient(a: int, i: int, g: int)
    requires g > 0 && a > 0 && IsMultiple(a, i, g)
    ensures a / g == i && i > 0
  {
    var q := a / g;
    assert a == q * g + a % g;
    Distribute(i, 1, q, g);
    NoMultipleBelow(i - q * 1, g);
    NonPositive(i, g);
  }

  lemma NoMultipleBelow(k: int, g: int)
    requires g > 0 && 0 <= k * g < g
    ensures k == 0
  {
    NonPositive(k + 1, g);
    NonPositive(1 - k, g);
  }

  lemma NonPositive(k: int, g: int)
    requires g > 0
    ensures k <= 0 ==> k * g <= 0
  {
  }

  lemma LcmPositive(i: int, b: int)
    requires i > 0 && b > 0
    ensures i * b > 0
  {
  }

  /** l is 0 without positive periods, and otherwise their least common multiple. */
  ghost predicate IsHyperperiod(periods: seq<int>, l: nat) {
    && (l == 0 <==> forall k :: 0 <= k < |periods| ==> periods[k] <= 0)
    && (forall k :: 0 <= k < |periods| && periods[k] > 0 ==> Divides(periods[k], l))
    && (l > 0 ==> forall m: int :: CommonOf(periods, m) ==> Divides(l, m))
  }

  ghost predicate CommonOf(periods: seq<int>, m: int) {
    forall k :: 0 <= k < |periods| && periods[k] > 0 ==> Divides(periods[k], m)
  }

  lemma DividesTwice(a: int, b: int, c: int)
    requires Divides(a, b) && Divides(b, c)
    ensures Divides(a, c)
  {
    var i: int :| IsMultiple(b, i, a);
    var j: int :| IsMultiple(c, j, b);
    assert j * (i * a) == (j * i) * a;
    assert IsMultiple(c, j * i, a);
  }

  lemma HyperperiodNext(periods: seq<int>, l: nat, p: int, more: nat)
    requires IsHyperperiod(periods, l) && p > 0 && more > 0
    requires if l == 0 then more == p else IsLcm(more, l, p)
    ensures IsHyperperiod(periods + [p], more)
  {
    var all := periods + [p];
    assert IsMultiple(p, 1, p);
    forall k | 0 <= k < |all| && all[k] > 0
      ensures Divides(all[k], more)
    {
      if k < |periods| {
        DividesTwice(periods[k], l, more);
      }
    }
    forall m: int | CommonOf(all, m)
      ensures Divides(more, m)
    {
      assert Divides(all[|periods|], m);
      forall k | 0 <= k < |periods| && periods[k] > 0
        ensures Divides(periods[k], m)
      {
        assert Divides(all[k], m);
      }
      assert CommonOf(periods, m);
    }
    assert all[|periods|] > 0;
  }

  /** The hyperperiod of all tasks; every period goes into it a whole number of
      times. */
  method ComputeHyperperiod(periods: seq<int>) returns (hyper: nat)
    ensures IsHyperperiod(periods, hyper)
  {
    hyper := 0;
    for k := 0 to |periods|
      invariant IsHyperperiod(periods[..k], hyper)
    {
      var p := periods[k];
      ghost var before := periods[..k];
      assert periods[..k + 1] == before + [p];
      if p > 0 {
        var next := p;
        if hyper != 0 {
          next := Lcm(hyper, p);
        }
        HyperperiodNext(before, hyper, p, next);
        hyper := next;
      } else {
        HyperperiodSkip(before, hyper, p);
      }
    }
    assert periods[..|periods|] == periods;
  }

  lemma HyperperiodSkip(periods: seq<int>, l: nat, p: int)
    requires IsHyperperiod(periods, l) && p <= 0
    ensures IsHyperperiod(periods + [p], l)
  {
    var all := periods + [p];
    forall m: int | CommonOf(all, m)
      ensures CommonOf(periods, m)
    {
      forall k | 0 <= k < |periods| && periods[k] > 0
        ensures Divides(periods[k], m)
      {
        assert Divides(all[k], m);
      }
    }
    if k :| 0 <= k < |periods| && periods[k] > 0 {
      assert all[k] > 0;
    }
  }
}
