/** Small shared datatypes: optional values, fallible results and the extended reals that a
    float64 with `+Inf` stands for. */
module Common {
  datatype Option<+T> = None | Some(value: T)

  datatype Result<+T> = Ok(value: T) | Err(message: string)

  /** A non-negative float64 that may be +Inf: a cell's cost multiplier or a search score. */
  datatype Extended = PosInf | Fin(val: real) {
    /** `this < that` in the order in which PosInf is above every finite value. */
    predicate Less(that: Extended) {
      Fin? && (that.PosInf? || val < that.val)
    }
  }

  function Abs(x: int): int { if x < 0 then -x else x }

  function Max(x: int, y: int): int { if x > y then x else y }

  function RealMin(x: real, y: real): real { if x < y then x else y }

  function RealMax(x: real, y: real): real { if x > y then x else y }

  function RealAbs(x: real): real { if x < 0.0 then -x else x }

  lemma MultipleIsLarge(d: int, n: int)
    requires n > 0 && d >= 1
    ensures d * n >= n
  {
    assert (d - 1) * n >= 0;
  }

  lemma DivisionIsUnique(i: int, n: int, q: int, r: int)
    requires n > 0 && 0 <= r < n && i == q * n + r
    ensures i / n == q && i % n == r
  {
    QuotientIsUnique(n, i / n, i % n, q, r);
  }

  lemma QuotientIsUnique(n: int, p: int, s: int, q: int, r: int)
    requires 0 <= r < n && 0 <= s < n && p * n + s == q * n + r
    ensures p == q && s == r
  {
    if p > q {
      assert (p - q) * n == p * n - q * n;
      MultipleIsLarge(p - q, n);
    } else if p < q {
      assert (q - p) * n == q * n - p * n;
      MultipleIsLarge(q - p, n);
    }
  }

  lemma Distribute(m: nat, n: nat, size: nat)
    ensures (m + n) * size == m * size + n * size
  {}
}
