/** The pinch-to-thickness mapping `int(np.interp(length, [30, 200], [5, 50]))`
    (Homepage.py, lines 133-134). */
module StrokeWidth {

  const MinLength: real := 30.0
  const MaxLength: real := 200.0
  const MinThickness: real := 5.0
  const MaxThickness: real := 50.0

  /** One-segment piecewise-linear interpolation: the end values outside the
      sample range, the straight line between them inside. */
  function Interp(length: real): (t: real)
    ensures MinThickness <= t <= MaxThickness
  {
    if length <= MinLength then MinThickness
    else if length >= MaxLength then MaxThickness
    else MinThickness + (length - MinLength) * (MaxThickness - MinThickness) / (MaxLength - MinLength)
  }

  /** Python's int() on a real: truncation toward zero. */
  function Trunc(r: real): (n: int)
    ensures r >= 0.0 ==> n as real <= r < n as real + 1.0
    ensures r < 0.0 ==> n as real - 1.0 < r <= n as real
  {
    if r >= 0.0 then r.Floor else -((-r).Floor)
  }

  /** The stroke thickness for a thumb-to-index distance `length`. */
  function ThicknessFor(length: real): (t: int)
    ensures 5 <= t <= 50
    ensures length <= 30.0 ==> t == 5
    ensures length >= 200.0 ==> t == 50
    ensures 30.0 <= length <= 200.0 ==> t == (5.0 + (length - 30.0) * 45.0 / 170.0).Floor
  {
    Trunc(Interp(length))
  }

  /** A wider pinch never gives a thinner stroke. */
  lemma ThicknessMonotone(a: real, b: real)
    requires a <= b
    ensures ThicknessFor(a) <= ThicknessFor(b)
  {
    assert Interp(a) <= Interp(b);
  }

  /** The midpoint of the distance range lands on 27, the truncated midpoint of 5..50. */
  lemma ThicknessAtMidpoint()
    ensures ThicknessFor(115.0) == 27
  {
  }
}
