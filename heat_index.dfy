/**
 * `add_heat_index` of plot_graph.py: the heat index of one reading is the dot
 * product of the nine Rothfusz regression coefficients (Celsius form) with the
 * feature vector [1, T, H, T*H, T^2, H^2, T^2*H, T*H^2, T^2*H^2] built from the
 * reading's own temperature T and relative humidity H.
 */
module HeatIndex {

  /** HI_COEF, in the order of the feature vector. */
  const Coefficients: seq<real> :=
    [-8.784695, 1.61139411, 2.338549, -0.14611605, -0.012308094,
     -0.016424828, 0.002211732, 0.00072546, -0.000003582]

  /** The row of the design matrix for one reading. */
  function Features(t: real, h: real): (x: seq<real>)
    ensures |x| == |Coefficients|
  {
    [1.0, t, h, t * h, t * t, h * h, t * t * h, t * h * h, t * t * h * h]
  }

  function Dot(a: seq<real>, b: seq<real>): real
    requires |a| == |b|
  {
    if a == [] then 0.0 else a[0] * b[0] + Dot(a[1..], b[1..])
  }

  /** One entry of `np.matmul(x, HI_COEF.T)`: the heat index of one reading. */
  function HeatIndexOf(t: real, h: real): real {
    Dot(Features(t, h), Coefficients)
  }

  /** Dot products split over a prefix and the rest. */
  lemma {:induction false} DotSplit(a: seq<real>, b: seq<real>, k: nat)
    requires |a| == |b| && k <= |a|
    ensures Dot(a, b) == Dot(a[..k], b[..k]) + Dot(a[k..], b[k..])
  {
    if k > 0 {
      DotSplit(a[1..], b[1..], k - 1);
      assert a[1..][..k - 1] == a[..k][1..];
      assert b[1..][..k - 1] == b[..k][1..];
      assert a[1..][k - 1..] == a[k..];
      assert b[1..][k - 1..] == b[k..];
    }
  }

  lemma {:induction false} DotOfThree(a: seq<real>, b: seq<real>)
    requires |a| == |b| == 3
    ensures Dot(a, b) == a[0] * b[0] + a[1] * b[1] + a[2] * b[2]
  {
    var a1, b1 := a[1..], b[1..];
    var a2, b2 := a1[1..], b1[1..];
    assert Dot(a2[1..], b2[1..]) == 0.0;
    assert Dot(a2, b2) == a[2] * b[2];
    assert Dot(a1, b1) == a[1] * b[1] + a[2] * b[2];
  }

  /**
   * The heat index is the nine-term polynomial
   *   c0 + c1 T + c2 H + c3 T H + c4 T^2 + c5 H^2 + c6 T^2 H + c7 T H^2 + c8 T^2 H^2.
   */
  lemma HeatIndexPolynomial(t: real, h: real)
    ensures HeatIndexOf(t, h)
            == -8.784695 + 1.61139411 * t + 2.338549 * h - 0.14611605 * (t * h)
               - 0.012308094 * (t * t) - 0.016424828 * (h * h)
               + 0.002211732 * (t * t * h) + 0.00072546 * (t * h * h)
               - 0.000003582 * (t * t * h * h)
  {
    var x, c := Features(t, h), Coefficients;
    DotSplit(x, c, 3);
    DotSplit(x[3..], c[3..], 3);
    DotOfThree(x[..3], c[..3]);
    DotOfThree(x[3..][..3], c[3..][..3]);
    DotOfThree(x[3..][3..], c[3..][3..]);
  }

  /** At zero temperature and zero humidity only the intercept c0 remains. */
  lemma HeatIndexAtOrigin()
    ensures HeatIndexOf(0.0, 0.0) == -8.784695
  {
    HeatIndexPolynomial(0.0, 0.0);
  }

  /** A hot, half-saturated reading: T = 30 degrees C and H = 50 % give 31.0490887. */
  lemma HeatIndexAt30And50()
    ensures HeatIndexOf(30.0, 50.0) == 31.0490887
  {
    HeatIndexPolynomial(30.0, 50.0);
  }
}
