/**
 * The two lookups the pitch-frequency formula feeds on: air density by altitude,
 * interpolated in a fixed table of the standard atmosphere, and the longitudinal
 * moment of inertia, which switches from the full-tank to the dry value at burnout.
 */
module Physics {
  import opened Common
  import opened Events

  // ---------------------------------------------------------------- air density

  /** `ALTITUDES`, in metres. */
  const Altitudes: seq<real> :=
    [0.0, 1000.0, 2000.0, 3000.0, 4000.0, 5000.0, 6000.0, 7000.0, 8000.0, 9000.0, 10000.0,
     15000.0, 20000.0, 25000.0, 30000.0, 40000.0, 50000.0, 60000.0, 70000.0, 80000.0]

  /** `DENSITIES`, in kg/m³, one per altitude. */
  const Densities: seq<real> :=
    [1.225, 1.112, 1.007, 0.9093, 0.8194, 0.7364, 0.6601, 0.5900,
     0.5258, 0.4671, 0.4135, 0.1948, 0.08891, 0.04008, 0.01841,
     0.003996, 0.001027, 0.0003097, 0.00008283, 0.00001846]

  /** The density returned above the last altitude of the table. */
  const FloorDensity: real := 0.00001

  predicate Ascending(xs: seq<real>)
  {
    forall i :: 0 <= i < |xs| - 1 ==> xs[i] < xs[i + 1]
  }

  predicate Descending(ys: seq<real>)
  {
    forall i :: 0 <= i < |ys| - 1 ==> ys[i] >= ys[i + 1]
  }

  /** A table `np.interp` can read: as many values as abscissae, at least one, abscissae ascending. */
  predicate Knots(xs: seq<real>, ys: seq<real>)
  {
    |xs| == |ys| >= 1 && Ascending(xs)
  }

  /** The straight line through `(x0, y0)` and `(x1, y1)`, at `x`. */
  function Lerp(x: real, x0: real, x1: real, y0: real, y1: real): real
    requires x0 < x1
  {
    y0 + (y1 - y0) * ((x - x0) / (x1 - x0))
  }

  /**
   * `np.interp(x, xs, ys)`: the first value left of the table, the last value right of
   * it, and in between the straight line through the two knots around `x`.
   */
  function Interp(x: real, xs: seq<real>, ys: seq<real>): real
    requires Knots(xs, ys)
    decreases |xs|
  {
    if x <= xs[0] || |xs| == 1 then ys[0]
    else if x <= xs[1] then Lerp(x, xs[0], xs[1], ys[0], ys[1])
    else Interp(x, xs[1..], ys[1..])
  }

  /** The fixed table is well formed: altitudes ascending, densities descending. */
  lemma TableShape()
    ensures |Altitudes| == |Densities| == 20
    ensures Knots(Altitudes, Densities) && Descending(Densities)
  {
    forall i | 0 <= i < 19
      ensures Altitudes[i] < Altitudes[i + 1] && Densities[i] >= Densities[i + 1]
    {
      assert i == 0 || i == 1 || i == 2 || i == 3 || i == 4 || i == 5 || i == 6 || i == 7 || i == 8 || i == 9
          || i == 10 || i == 11 || i == 12 || i == 13 || i == 14 || i == 15 || i == 16 || i == 17 || i == 18;
    }
  }

  /** `get_air_density`: the floor value above 80 km, the interpolated table below. */
  function AirDensity(altitude: real): (r: real)
    ensures FloorDensity <= r <= Densities[0]
  {
    TableShape();
    if altitude > Altitudes[|Altitudes| - 1] then FloorDensity
    else
      InterpBetween(altitude, Altitudes, Densities);
      Interp(altitude, Altitudes, Densities)
  }

  /** On a descending table, interpolation stays between the last and the first value. */
  lemma {:induction false} InterpBetween(x: real, xs: seq<real>, ys: seq<real>)
    requires Knots(xs, ys) && Descending(ys)
    ensures ys[|ys| - 1] <= Interp(x, xs, ys) <= ys[0]
    decreases |xs|
  {
    if x <= xs[0] || |xs| == 1 {
      DescendingEnds(ys);
    } else if x <= xs[1] {
      LerpBetween(x, xs[0], xs[1], ys[0], ys[1]);
      DescendingEnds(ys[1..]);
    } else {
      InterpBetween(x, xs[1..], ys[1..]);
    }
  }

  lemma {:induction false} DescendingEnds(ys: seq<real>)
    requires |ys| >= 1 && Descending(ys)
    ensures ys[|ys| - 1] <= ys[0]
    decreases |ys|
  {
    if |ys| > 1 {
      DescendingEnds(ys[1..]);
    }
  }

  /** Between two knots the line stays between their values, and falls as `x` grows when `y1 <= y0`. */
  lemma LerpBetween(x: real, x0: real, x1: real, y0: real, y1: real)
    requires x0 <= x <= x1 && x0 < x1 && y1 <= y0
    ensures y1 <= Lerp(x, x0, x1, y0, y1) <= y0
  {
    var f := (x - x0) / (x1 - x0);
    Fraction(x - x0, x1 - x0);
    NonNegativeProduct(y0 - y1, f);
    NonNegativeProduct(y0 - y1, 1.0 - f);
  }

  lemma NonNegativeProduct(a: real, b: real)
    requires a >= 0.0 && b >= 0.0
    ensures a * b >= 0.0
  {
  }

  /** A part of a positive whole, divided by it, lies in [0, 1]. */
  lemma Fraction(part: real, whole: real)
    requires 0.0 <= part <= whole && whole > 0.0
    ensures 0.0 <= part / whole <= 1.0
  {
    var f := part / whole;
    assert f * whole == part;
  }

  lemma LerpFalls(x: real, x': real, x0: real, x1: real, y0: real, y1: real)
    requires x0 <= x <= x' <= x1 && x0 < x1 && y1 <= y0
    ensures Lerp(x', x0, x1, y0, y1) <= Lerp(x, x0, x1, y0, y1)
  {
    var f := (x - x0) / (x1 - x0);
    var f' := (x' - x0) / (x1 - x0);
    assert f' - f == (x' - x) / (x1 - x0);
    Fraction(x' - x, x1 - x0);
    assert f <= f';
    assert Lerp(x, x0, x1, y0, y1) == y0 + (y1 - y0) * f;
    assert Lerp(x', x0, x1, y0, y1) == y0 + (y1 - y0) * f';
    assert (y1 - y0) * f' <= (y1 - y0) * f;
  }

  /** Interpolation returns the table's own value at every knot. */
  lemma {:induction false} InterpAtKnot(xs: seq<real>, ys: seq<real>, k: nat)
    requires Knots(xs, ys) && k < |xs|
    ensures Interp(xs[k], xs, ys) == ys[k]
    decreases |xs|
  {
    if k > 0 {
      assert xs[0] < xs[1];
      AscendingFrom(xs, 1, k);
      if k == 1 {
        assert xs[k] == xs[1];
      } else {
        assert xs[1] < xs[k];
        InterpAtKnot(xs[1..], ys[1..], k - 1);
      }
    }
  }

  lemma {:induction false} AscendingFrom(xs: seq<real>, i: nat, k: nat)
    requires Ascending(xs) && i <= k < |xs|
    ensures xs[i] <= xs[k]
    ensures i < k ==> xs[i] < xs[k]
    decreases k - i
  {
    if i < k {
      AscendingFrom(xs, i + 1, k);
    }
  }

  /** Between two neighbouring knots, interpolation is the straight line through them. */
  lemma {:induction false} InterpOnSegment(x: real, xs: seq<real>, ys: seq<real>, k: nat)
    requires Knots(xs, ys) && k + 1 < |xs| && xs[k] <= x <= xs[k + 1]
    ensures Interp(x, xs, ys) == Lerp(x, xs[k], xs[k + 1], ys[k], ys[k + 1])
    decreases |xs|
  {
    if k == 0 {
      if x <= xs[0] {
        assert x == xs[0];
      }
    } else {
      AscendingFrom(xs, 1, k);
      AscendingFrom(xs, 0, k);
      if x <= xs[1] {
        assert k == 1 && x == xs[1];
      } else {
        InterpOnSegment(x, xs[1..], ys[1..], k - 1);
      }
    }
  }

  /** On a descending table, interpolation is non-increasing in `x`. */
  lemma {:induction false} InterpFalls(x: real, y: real, xs: seq<real>, ys: seq<real>)
    requires Knots(xs, ys) && Descending(ys) && x <= y
    ensures Interp(y, xs, ys) <= Interp(x, xs, ys)
    decreases |xs|
  {
    InterpBetween(x, xs, ys);
    InterpBetween(y, xs, ys);
    if y <= xs[0] || |xs| == 1 {
    } else if x <= xs[0] {
    } else if y <= xs[1] {
      LerpFalls(x, y, xs[0], xs[1], ys[0], ys[1]);
    } else if x <= xs[1] {
      LerpBetween(x, xs[0], xs[1], ys[0], ys[1]);
      InterpBetween(y, xs[1..], ys[1..]);
    } else {
      InterpFalls(x, y, xs[1..], ys[1..]);
    }
  }

  /** The density at each altitude of the table is the table's own value. */
  lemma AirDensityAtTable(k: nat)
    requires k < |Altitudes|
    ensures AirDensity(Altitudes[k]) == Densities[k]
  {
    TableShape();
    AscendingFrom(Altitudes, k, |Altitudes| - 1);
    InterpAtKnot(Altitudes, Densities, k);
  }

  /** Between two altitudes of the table, density is the straight line through their densities. */
  lemma AirDensityOnSegment(altitude: real, k: nat)
    requires k + 1 < |Altitudes| && Altitudes[k] <= altitude <= Altitudes[k + 1]
    ensures AirDensity(altitude) == Lerp(altitude, Altitudes[k], Altitudes[k + 1], Densities[k], Densities[k + 1])
  {
    TableShape();
    AscendingFrom(Altitudes, k + 1, |Altitudes| - 1);
    InterpOnSegment(altitude, Altitudes, Densities, k);
  }

  /** Below sea level the first value applies. */
  lemma AirDensityBelowSeaLevel(altitude: real)
    requires altitude <= 0.0
    ensures AirDensity(altitude) == 1.225
  {
  }

  /** Air thins with height: density never increases with altitude, across the 80 km cut-off too. */
  lemma AirDensityFalls(low: real, high: real)
    requires low <= high
    ensures AirDensity(high) <= AirDensity(low)
  {
    TableShape();
    if high <= Altitudes[|Altitudes| - 1] {
      InterpFalls(low, high, Altitudes, Densities);
    }
  }

  /** Sea level is densest, 10 km thinner, 80 km thinner still, and beyond it the floor value holds. */
  lemma AirDensitySamples()
    ensures AirDensity(0.0) == 1.225
    ensures AirDensity(10000.0) == 0.4135
    ensures AirDensity(80000.0) == 0.00001846
    ensures AirDensity(90000.0) == FloorDensity
    ensures AirDensity(0.0) > AirDensity(10000.0) > AirDensity(80000.0) > AirDensity(90000.0)
  {
    AirDensityAtTable(0);
    AirDensityAtTable(10);
    AirDensityAtTable(19);
  }

  // ---------------------------------------------------------------- moment of inertia

  /**
   * `get_inertia(time)` with `BURNOUT_TIME` as `burnout`: the full-tank value before
   * burnout, the dry value from burnout on. When the burnout time is NaN both
   * comparisons are false and the function falls off its end, returning `None`.
   */
  function Inertia(time: real, burnout: Timestamp, full: real, dry: real): (r: Option<real>)
    ensures r.None? <==> burnout.NotANumber?
    ensures burnout.At? && time < burnout.t ==> r == Some(full)
    ensures burnout.At? && time >= burnout.t ==> r == Some(dry)
  {
    match burnout
    case NotANumber => None
    case At(b) => if time < b then Some(full) else if time >= b then Some(dry) else None
  }

  /** The tank only empties: once the dry value applies, it applies at every later time. */
  lemma DryStaysDry(early: real, late: real, burnout: Timestamp, full: real, dry: real)
    requires early <= late && full != dry
    requires Inertia(early, burnout, full, dry) == Some(dry)
    ensures Inertia(late, burnout, full, dry) == Some(dry)
  {
  }

  /** With the placeholder burnout time of 0 (no burnout marker), every time from 0 on gets the dry value. */
  lemma PlaceholderBurnoutMeansDry(time: real, full: real, dry: real)
    requires time >= 0.0
    ensures Inertia(time, At(0.0), full, dry) == Some(dry)
  {
  }
}
