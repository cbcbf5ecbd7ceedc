/** The priced grid as a value: what the search and the smoothing passes read of a navGrid. Cell
    (x, y) is number y*nx + x; `cost` is its multiplier, PosInf where it is impassable. */
module Charts {
  import opened Common
  import opened Metric

  function Index(nx: int, x: int, y: int): int { y * nx + x }

  function Col(nx: int, i: int): int
    requires nx > 0
  { i % nx }

  function Row(nx: int, i: int): int
    requires nx > 0
  { i / nx }

  lemma IndexOf(nx: int, ny: int, x: int, y: int)
    requires 0 <= x < nx && 0 <= y < ny
    ensures 0 <= Index(nx, x, y) < nx * ny
    ensures Col(nx, Index(nx, x, y)) == x && Row(nx, Index(nx, x, y)) == y
  {
    assert 0 <= y * nx <= (ny - 1) * nx;
    DivisionIsUnique(y * nx + x, nx, y, x);
  }

  lemma CellOf(nx: int, ny: int, i: int)
    requires 0 < nx && 0 <= i < nx * ny
    ensures 0 <= Col(nx, i) < nx && 0 <= Row(nx, i) < ny
    ensures Index(nx, Col(nx, i), Row(nx, i)) == i
  {
    assert i == (i / nx) * nx + i % nx;
    if i / nx >= ny { assert (i / nx) * nx >= ny * nx; }
  }

  lemma LaterRow(nx: int, q: int, y: int)
    requires nx > 0 && q + 1 <= y
    ensures q * nx + nx <= y * nx
  {
    assert (y - q - 1) * nx == y * nx - q * nx - nx;
    assert (y - q - 1) * nx >= 0;
  }

  lemma ScaleNegates(x: int, m: real)
    ensures (-x) as real * m == -(x as real * m)
  {}

  lemma ScaleAdds(x: int, y: int, m: real)
    ensures (x + y) as real * m == x as real * m + y as real * m
  {}

  datatype Chart = Chart(nx: int, ny: int, mx: real, my: real, hypot: (real, real) -> real, cost: seq<Extended>) {
    ghost predicate Valid(): (valid: bool)
      ensures valid ==> nx > 0
    {
      && 0 < nx && 0 < ny && |cost| == nx * ny
      && 0.0 < mx && 0.0 < my
      && IsHypot(hypot)
    }

    predicate InGrid(i: int) { 0 <= i < |cost| }

    predicate Passable(i: int) { InGrid(i) && cost[i].Fin? }

    /** No multiplier is below 1: water is never cheaper than its length. */
    ghost predicate CostsAtLeastOne() {
      forall i :: Passable(i) ==> cost[i].val >= 1.0
    }

    /** Eastward and northward metres from the centre of one cell to that of another. */
    function East(a: int, b: int): real
      requires nx > 0
    { (Col(nx, b) - Col(nx, a)) as real * mx }

    function North(a: int, b: int): real
      requires nx > 0
    { (Row(nx, b) - Row(nx, a)) as real * my }

    /** Straight-line metres between the centres of two cells. */
    function Length(a: int, b: int): real
      requires nx > 0
    {
      hypot(East(a, b), North(a, b))
    }

    lemma LengthSymmetric(a: int, b: int)
      requires Valid()
      ensures Length(a, b) == Length(b, a)
    {
      assert East(a, b) == -East(b, a) by { ScaleNegates(Col(nx, b) - Col(nx, a), mx); }
      assert North(a, b) == -North(b, a) by { ScaleNegates(Row(nx, b) - Row(nx, a), my); }
      Even(hypot, East(a, b), North(a, b));
    }

    lemma LengthTriangle(a: int, b: int, c: int)
      requires Valid()
      ensures Length(a, c) <= Length(a, b) + Length(b, c)
    {
      assert East(a, c) == East(a, b) + East(b, c) by {
        ScaleAdds(Col(nx, b) - Col(nx, a), Col(nx, c) - Col(nx, b), mx);
      }
      assert North(a, c) == North(a, b) + North(b, c) by {
        ScaleAdds(Row(nx, b) - Row(nx, a), Row(nx, c) - Row(nx, b), my);
      }
      Triangle(hypot, East(a, b), North(a, b), East(b, c), North(b, c));
    }
  }
}
