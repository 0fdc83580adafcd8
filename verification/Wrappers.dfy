/** A value that may be missing: a null pointer, an empty `std::optional`. */
module Wrappers {
  datatype Option<+T> = None | Some(value: T)
}

module Powers {
  predicate IsPowerOfTwo(n: nat) { n == 1 || (n > 1 && n % 2 == 0 && IsPowerOfTwo(n / 2)) }

  function Power(base: nat, n: nat): (p: nat)
    ensures base > 0 ==> p > 0
  {
    if n == 0 then 1 else base * Power(base, n - 1)
  }

  function Sum(terms: seq<nat>): nat { if terms == [] then 0 else terms[0] + Sum(terms[1..]) }

  lemma Positive(x: int, d: nat)
    requires x >= 1
    ensures x * d >= d
  {
  }

  lemma Quotient(q: nat, r: nat, d: nat)
    requires r < d
    ensures (d * q + r) / d == q && (d * q + r) % d == r
  {
    var n := d * q + r;
    var x := n / d - q;
    assert x * d == r - n % d by { assert n == d * (n / d) + n % d; }
    assert x >= 1 ==> x * d >= d by { if x >= 1 { Positive(x, d); } }
    assert x <= -1 ==> -x * d >= d by { if x <= -1 { Positive(-x, d); } }
  }

  lemma DividedTwice(h: nat, a: nat, d: nat)
    requires a > 0 && d > 0
    ensures a * d > 0 && h / a / d == h / (a * d)
  {
    Positive(a, d);
    var q, r := h / (a * d), h % (a * d);
    assert h == a * d * q + r;
    var low := r % a;
    assert r == a * (r / a) + low;
    Regrouped(a, d, q, r / a, low);
    Quotient(d * q + r / a, low, a);
    Below(r / a, a, d, low);
    Quotient(q, r / a, d);
  }

  lemma Regrouped(a: nat, d: nat, q: nat, k: nat, low: nat)
    ensures a * d * q + (a * k + low) == a * (d * q + k) + low
  {
  }

  lemma Below(k: nat, a: nat, d: nat, low: nat)
    requires a * k + low < a * d
    ensures k < d
  {
    assert k >= d ==> a * k >= a * d by { if k >= d { Grows(a, d, k); } }
  }

  lemma Grows(a: nat, d: nat, k: nat)
    requires k >= d
    ensures a * k >= a * d
  {
    assert a * k == a * d + a * (k - d);
  }
}
