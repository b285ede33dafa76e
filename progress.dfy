/** The progress bar: the drawn width `pct` (the value rounded and clamped
    to 0..100) and the colour band chosen for it. */
module Progress {

  /** `Math.round(v)`: the nearest integer, a half rounded up. */
  function Round(v: real): (r: int)
    ensures r as real - 0.5 <= v < r as real + 0.5
  {
    (v + 0.5).Floor
  }

  function Max(a: int, b: int): int {
    if a >= b then a else b
  }

  function Min(a: int, b: int): int {
    if a <= b then a else b
  }

  /** `Math.min(100, Math.max(0, Math.round(value)))`: always a width between
      0 and 100; an integer in range is kept, anything at or below 0 draws
      nothing and anything at or above 100 draws the whole bar. */
  function Pct(value: real): (pct: int)
    ensures 0 <= pct <= 100
    ensures value <= 0.0 ==> pct == 0
    ensures value >= 100.0 ==> pct == 100
    ensures 0 <= Round(value) <= 100 ==> pct == Round(value)
  {
    Min(100, Max(0, Round(value)))
  }

  /** A whole number from 0 to 100 is drawn as itself. */
  lemma PctOfPercent(n: int)
    requires 0 <= n <= 100
    ensures Pct(n as real) == n
  {
    assert Round(n as real) == n;
  }

  /** A larger value never draws a shorter bar. */
  lemma PctMonotone(a: real, b: real)
    requires a <= b
    ensures Pct(a) <= Pct(b)
  {
    assert Round(a) <= Round(b);
  }

  /** The colour classes, from the lowest band to the highest:
      `bg-gray-300`, `bg-yellow-500`, `bg-blue-500`, `bg-green-500`. */
  datatype Band = Gray | Yellow | Blue | Green

  function BandRank(b: Band): nat {
    match b
    case Gray => 0
    case Yellow => 1
    case Blue => 2
    case Green => 3
  }

  /** `colorForValue(v)`. */
  function ColorForValue(v: int): Band {
    if v >= 80 then Green
    else if v >= 50 then Blue
    else if v >= 20 then Yellow
    else Gray
  }

  /** Each band is exactly one interval: [80, ∞), [50, 80), [20, 50), below 20. */
  lemma BandIntervals(v: int)
    ensures ColorForValue(v) == Green <==> 80 <= v
    ensures ColorForValue(v) == Blue <==> 50 <= v < 80
    ensures ColorForValue(v) == Yellow <==> 20 <= v < 50
    ensures ColorForValue(v) == Gray <==> v < 20
  {
  }

  /** A larger value never falls in a lower band. */
  lemma BandMonotone(a: int, b: int)
    requires a <= b
    ensures BandRank(ColorForValue(a)) <= BandRank(ColorForValue(b))
  {
  }

  /** The colour the bar is drawn in: the band of the clamped width. */
  function BarColor(value: real): Band {
    ColorForValue(Pct(value))
  }

  /** The drawn colour is monotone in the value too. */
  lemma BarColorMonotone(a: real, b: real)
    requires a <= b
    ensures BandRank(BarColor(a)) <= BandRank(BarColor(b))
  {
    PctMonotone(a, b);
    BandMonotone(Pct(a), Pct(b));
  }
}
