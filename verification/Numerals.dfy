/** Positional notation: the arithmetic under dotted quads, hextets and prefixes. */
module Numerals {
  import opened Prelude

  function Pow(b: nat, k: nat): nat {
    if k == 0 then 1 else b * Pow(b, k - 1)
  }

  /** v / b and v % b, by repeated subtraction. */
  function Quot(v: nat, b: nat): nat
    requires b > 0
  {
    if v < b then 0 else 1 + Quot(v - b, b)
  }

  function Rem(v: nat, b: nat): (r: nat)
    requires b > 0
    ensures r < b
  {
    if v < b then v else Rem(v - b, b)
  }

  /** The last k base-b digits of v, most significant first. */
  function Digits(v: nat, b: nat, k: nat): (ds: seq<nat>)
    requires b > 0
    ensures |ds| == k
    ensures forall i :: 0 <= i < k ==> ds[i] < b
    decreases k
  {
    if k == 0 then [] else Digits(Quot(v, b), b, k - 1) + [Rem(v, b)]
  }

  function Horner(ds: seq<nat>, b: nat): nat {
    if ds == [] then 0 else Horner(ds[..|ds| - 1], b) * b + ds[|ds| - 1]
  }

  // ---- products ------------------------------------------------------------------------------------------

  lemma Positive(x: nat, y: nat)
    requires x > 0 && y > 0
    ensures x * y > 0
  {
  }

  lemma ScaleUp(b: nat, x: nat, y: nat)
    requires x <= y
    ensures b * x <= b * y
  {
  }

  lemma Distribute(b: nat, x: nat, y: nat)
    ensures b * (x + y) == b * x + b * y
  {
  }

  lemma Associate(x: nat, y: nat, z: nat)
    ensures x * (y * z) == (x * y) * z
  {
  }

  lemma Commute(x: nat, y: nat)
    ensures x * y == y * x
  {
  }

  lemma {:induction false} PowPositive(b: nat, k: nat)
    requires b > 0
    ensures Pow(b, k) > 0
  {
    if k > 0 {
      PowPositive(b, k - 1);
      Positive(b, Pow(b, k - 1));
    }
  }

  lemma {:induction false} PowAdds(b: nat, m: nat, n: nat)
    ensures Pow(b, m + n) == Pow(b, m) * Pow(b, n)
  {
    if m > 0 {
      PowAdds(b, m - 1, n);
      Associate(b, Pow(b, m - 1), Pow(b, n));
    }
  }

  // ---- division ------------------------------------------------------------------------------------------

  lemma {:induction false} Divided(v: nat, b: nat)
    requires b > 0
    ensures v == b * Quot(v, b) + Rem(v, b)
    decreases v
  {
    if v >= b {
      Divided(v - b, b);
      Distribute(b, 1, Quot(v - b, b));
    }
  }

  /** Quotient and remainder are determined by the equation they satisfy. */
  lemma {:induction false} QuotUnique(q: nat, r: nat, b: nat)
    requires r < b
    ensures Quot(b * q + r, b) == q && Rem(b * q + r, b) == r
    decreases q
  {
    if q > 0 {
      QuotUnique(q - 1, r, b);
      Distribute(b, 1, q - 1);
      assert b * q + r - b == b * (q - 1) + r && b * q + r >= b;
    }
  }

  lemma QuotBelow(v: nat, b: nat, m: nat)
    requires b > 0 && v < b * m
    ensures Quot(v, b) < m
  {
    Divided(v, b);
    if Quot(v, b) >= m {
      ScaleUp(b, m, Quot(v, b));
    }
  }

  lemma DivMod(v: nat, b: nat)
    requires b > 0
    ensures v == b * (v / b) + v % b && v % b < b
  {
  }

  /** The quotient is the language's own division. */
  lemma QuotIsDiv(v: nat, b: nat)
    requires b > 0
    ensures Quot(v, b) == v / b && Rem(v, b) == v % b
  {
    DivMod(v, b);
    QuotUnique(v / b, v % b, b);
  }

  /** Dividing twice is dividing by the product. */
  lemma QuotTwice(v: nat, b: nat, c: nat)
    requires b > 0 && c > 0
    ensures b * c > 0 && Quot(Quot(v, b), c) == Quot(v, b * c)
  {
    Positive(b, c);
    Divided(v, b);
    Divided(Quot(v, b), c);
    TwoSteps(v, b, Quot(v, b), Rem(v, b), c, Quot(Quot(v, b), c), Rem(Quot(v, b), c));
  }

  lemma TwoSteps(v: nat, b: nat, u: nat, s: nat, c: nat, q: nat, r: nat)
    requires b > 0 && c > 0 && v == b * u + s && s < b && u == c * q + r && r < c
    ensures b * c > 0 && Quot(v, b * c) == q
  {
    Positive(b, c);
    Distribute(b, c * q, r);
    Associate(b, c, q);
    var rest := b * r + s;
    ScaleUp(b, r + 1, c);
    Distribute(b, r, 1);
    QuotUnique(q, rest, b * c);
  }

  // ---- digits --------------------------------------------------------------------------------------------

  lemma HornerSnoc(front: seq<nat>, d: nat, b: nat)
    ensures Horner(front + [d], b) == Horner(front, b) * b + d
  {
  }

  /** Reading the digits of v gives v back. */
  lemma {:induction false} HornerDigits(v: nat, b: nat, k: nat)
    requires b > 0 && v < Pow(b, k)
    ensures Horner(Digits(v, b, k), b) == v
    decreases k
  {
    if k > 0 {
      var q := Quot(v, b);
      QuotBelow(v, b, Pow(b, k - 1));
      HornerDigits(q, b, k - 1);
      HornerSnoc(Digits(q, b, k - 1), Rem(v, b), b);
      Divided(v, b);
      Commute(q, b);
    }
  }

  lemma BelowNext(h: nat, d: nat, b: nat, p: nat)
    requires h < p && d < b
    ensures h * b + d < b * p
  {
    ScaleUp(b, h + 1, p);
    Distribute(b, h, 1);
    Commute(h, b);
  }

  lemma {:induction false} HornerBound(ds: seq<nat>, b: nat)
    requires b > 0 && forall i :: 0 <= i < |ds| ==> ds[i] < b
    ensures Horner(ds, b) < Pow(b, |ds|)
  {
    if ds != [] {
      var front, d := ds[..|ds| - 1], ds[|ds| - 1];
      HornerBound(front, b);
      BelowNext(Horner(front, b), d, b, Pow(b, |front|));
    }
  }

  /** Digits and Horner are inverse on digit strings. */
  lemma {:induction false} DigitsHorner(ds: seq<nat>, b: nat)
    requires b > 0 && forall i :: 0 <= i < |ds| ==> ds[i] < b
    ensures Digits(Horner(ds, b), b, |ds|) == ds
  {
    if ds != [] {
      var front, last := ds[..|ds| - 1], ds[|ds| - 1];
      DigitsHorner(front, b);
      QuotUnique(Horner(front, b), last, b);
      Commute(Horner(front, b), b);
      assert ds == front + [last];
    }
  }

  /** The leading digits of v are the digits of v with the trailing ones divided away. */
  lemma {:induction false} LeadingDigits(v: nat, b: nat, k: nat, n: nat)
    requires b > 0
    ensures Pow(b, n) > 0 && Digits(v, b, k + n)[..k] == Digits(Quot(v, Pow(b, n)), b, k)
    decreases n
  {
    PowPositive(b, n);
    if n == 0 {
      QuotUnique(v, 0, 1);
    } else {
      PowPositive(b, n - 1);
      LeadingDigits(Quot(v, b), b, k, n - 1);
      QuotTwice(v, b, Pow(b, n - 1));
      assert Digits(v, b, k + n)[..k] == Digits(Quot(v, b), b, k + n - 1)[..k];
    }
  }

  lemma {:induction false} HornerAppend(xs: seq<nat>, ys: seq<nat>, b: nat)
    ensures Horner(xs + ys, b) == Horner(xs, b) * Pow(b, |ys|) + Horner(ys, b)
  {
    if ys == [] {
      assert xs + ys == xs;
    } else {
      var front, d := ys[..|ys| - 1], ys[|ys| - 1];
      HornerAppend(xs, front, b);
      assert xs + ys == (xs + front) + [d] && ys == front + [d];
      HornerSnoc(xs + front, d, b);
      HornerSnoc(front, d, b);
      assert Pow(b, |ys|) == b * Pow(b, |front|);
      Regroup(Horner(xs, b), Pow(b, |front|), Horner(front, b), b);
    }
  }

  lemma Regroup(h: nat, p: nat, t: nat, b: nat)
    ensures (h * p + t) * b == h * (b * p) + t * b
  {
  }
}
