/**
 * The coordinate normalizer `round_coords`.
 *
 * Coordinates are integer tenths of a degree, i.e. the value after the
 * `round(coord, ndigits=1)` step; the grid resolution `res` is an integer
 * number of tenths as well (0.5 degree is 5). The snap is then Python's
 * `(x // res) * res`, with `//` the floor of the exact quotient.
 */
module Coords {
  import opened Results

  /** `x // 0.0` raises ZeroDivisionError. */
  datatype RoundError = ZeroDivision

  /** The resolution every caller passes: 0.5 degree, in tenths. */
  const GridTenths: int := 5

  /** Python's `a // b`: the floor of a / b, whatever the signs. */
  function FloorDiv(a: int, b: int): (q: int)
    requires b != 0
    ensures b > 0 ==> q * b <= a < q * b + b
    ensures b < 0 ==> q * b + b < a <= q * b
  {
    if b > 0 then a / b else (-a) / (-b)
  }

  /** One coordinate snapped down (for a negative grid, up) to a multiple of `res`. */
  function Snap(x: int, res: int): (r: int)
    requires res != 0
    ensures r % res == 0
    ensures res > 0 ==> x - res < r <= x
    ensures res < 0 ==> x <= r < x - res
  {
    var q := FloorDiv(x, res);
    MultipleMod(q, res);
    q * res
  }

  /** A multiple of `res` no further from `x` than `Snap` allows is `Snap(x, res)` itself. */
  lemma SnapUnique(x: int, res: int, m: int)
    requires res != 0 && m % res == 0
    requires res > 0 ==> x - res < m <= x
    requires res < 0 ==> x <= m < x - res
    ensures m == Snap(x, res)
  {
    var q := FloorDiv(x, res);
    var j := m / res;
    assert m == j * res;
    assert Snap(x, res) == q * res;
    assert (j - q) * res == m - q * res;
    SmallMultipleIsZero(j - q, res);
  }

  /** Every integer multiple of `b` is divisible by `b`. */
  lemma MultipleMod(k: int, b: int)
    requires b != 0
    ensures (k * b) % b == 0
  {
    var d, m := (k * b) / b, (k * b) % b;
    assert k * b == d * b + m;
    assert (k - d) * b == m;
    SmallMultipleIsZero(k - d, b);
  }

  /** The only multiple of `b` strictly between -|b| and |b| is 0. */
  lemma SmallMultipleIsZero(k: int, b: int)
    requires b != 0
    requires -(if b > 0 then b else -b) < k * b < (if b > 0 then b else -b)
    ensures k == 0
  {
  }

  /** Snapping an already snapped coordinate changes nothing. */
  lemma SnapIdempotent(x: int, res: int)
    requires res != 0
    ensures Snap(Snap(x, res), res) == Snap(x, res)
  {
    var r := Snap(x, res);
    SnapUnique(r, res, r);
  }

  /**
   * `round_coords(*coords, res)`: one snapped value per coordinate, in order.
   * A zero resolution fails on the first coordinate; with no coordinates
   * there is nothing to divide and the result is the empty tuple.
   */
  function RoundCoords(coords: seq<int>, res: int): (r: Result<seq<int>, RoundError>)
    ensures r.Err? <==> res == 0 && |coords| > 0
    ensures r.Ok? ==> |r.value| == |coords|
    ensures r.Ok? ==> forall i :: 0 <= i < |coords| ==> r.value[i] % res == 0
    ensures r.Ok? && res > 0 ==> forall i :: 0 <= i < |coords| ==> coords[i] - res < r.value[i] <= coords[i]
    ensures r.Ok? && res < 0 ==> forall i :: 0 <= i < |coords| ==> coords[i] <= r.value[i] < coords[i] - res
  {
    if res == 0 && |coords| > 0 then Err(ZeroDivision)
    else Ok(seq(|coords|, i requires 0 <= i < |coords| => Snap(coords[i], res)))
  }

  /** Rounding rounded coordinates again gives the same coordinates. */
  lemma RoundCoordsIdempotent(coords: seq<int>, res: int)
    requires RoundCoords(coords, res).Ok?
    ensures RoundCoords(RoundCoords(coords, res).value, res) == RoundCoords(coords, res)
  {
    var once := RoundCoords(coords, res).value;
    var twice := RoundCoords(once, res).value;
    forall i | 0 <= i < |coords| ensures twice[i] == once[i] {
      SnapIdempotent(coords[i], res);
    }
    assert twice == once;
  }

  /**
   * The grid cells: `y` normalizes to the same value as `x` exactly when it
   * lies in the half-open cell of width `res` that starts at `x`'s value.
   */
  lemma SameCell(x: int, y: int, res: int)
    requires res > 0
    ensures Snap(x, res) == Snap(y, res) <==> Snap(x, res) <= y < Snap(x, res) + res
  {
    if Snap(x, res) <= y < Snap(x, res) + res {
      SnapUnique(y, res, Snap(x, res));
    }
  }

  /**
   * The doctests: (45.4451574, 11.1331589) rounds to (45.4, 11.1) and snaps to
   * (45.0, 11.0); Plant's setters map 45.2345678 to 45.0 and 10.8945678 to 10.5;
   * a negative coordinate -0.3 floors to -0.5.
   */
  lemma RoundCoordsExamples()
    ensures RoundCoords([454, 111], GridTenths) == Ok([450, 110])
    ensures RoundCoords([452], GridTenths) == Ok([450])
    ensures RoundCoords([109], GridTenths) == Ok([105])
    ensures RoundCoords([-3], GridTenths) == Ok([-5])
    ensures RoundCoords([], 0) == Ok([])
  {
    assert RoundCoords([454, 111], GridTenths).value == [450, 110] by {
      assert Snap(454, 5) == 450 && Snap(111, 5) == 110;
    }
    assert RoundCoords([452], GridTenths).value == [450] by { assert Snap(452, 5) == 450; }
    assert RoundCoords([109], GridTenths).value == [105] by { assert Snap(109, 5) == 105; }
    assert RoundCoords([-3], GridTenths).value == [-5] by { assert Snap(-3, 5) == -5; }
  }
}
