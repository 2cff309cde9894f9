/**
 * Day schedules shared by SilkRoad(int[][]) and SilkRoadContest.solve. Row 0
 * is a header; every later row is an event [1, x] (robot at x) or
 * [2, x, c] (store at x with c tenges). A null row behaves like a row that
 * is too short on every path, so rows are plain sequences here.
 */
module Schedule {
  import opened JavaLang

  /** The largest event position, over rows 1.. that have a position; 0 when there is none. */
  function MaxPosition(days: seq<seq<int>>): (m: int)
    ensures m >= 0
    ensures forall i :: 1 <= i < |days| && |days[i]| > 1 ==> days[i][1] <= m
    ensures m == 0 || exists i :: 1 <= i < |days| && |days[i]| > 1 && days[i][1] == m
    decreases |days|
  {
    if |days| <= 1 then 0
    else
      var rest := MaxPosition(days[..|days| - 1]);
      var last := days[|days| - 1];
      if |last| > 1 then Max(rest, last[1]) else rest
  }

  /** The running maximum is what the constructors' loop computes. */
  method ComputeMaxPosition(days: seq<seq<int>>) returns (m: int)
    ensures m == MaxPosition(days)
  {
    m := 0;
    var i := 1;
    while i < |days|
      invariant 1 <= i
      invariant i <= |days| || |days| == 0
      invariant m == MaxPosition(days[..if i <= |days| then i else |days|])
    {
      assert days[..i + 1][..i] == days[..i];
      if |days[i]| > 1 {
        m := Max(m, days[i][1]);
      }
      i := i + 1;
    }
    assert |days| == 0 || days[..|days|] == days;
  }
}
