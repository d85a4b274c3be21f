/**
 * The backoff schedule: two fixed tables of delays in milliseconds and the two
 * index functions into them. Only one side of each index is clamped, as in the
 * source, so the other side is a precondition.
 */
module RetryDelay {
  import opened Results

  const DelayIntervals: seq<nat> := [100, 200, 400, 800, 1600, 3200, 6400]

  const InverseDelayIntervals: seq<nat> := [6400, 3200, 1600, 800, 400, 200, 100]

  function Min(a: int, b: int): int { if a <= b then a else b }

  function Max(a: int, b: int): int { if a >= b then a else b }

  /** `calculateRetryDelay(retries)`: `DELAY_INTERVALS[min(retries, 6)]`. */
  function CalculateRetryDelay(retries: int): (delay: nat)
    requires retries >= 0
    ensures retries <= 6 ==> delay == DelayIntervals[retries]
    ensures retries >= 6 ==> delay == 6400
  {
    DelayIntervals[Min(retries, |DelayIntervals| - 1)]
  }

  /** `calculateInverseRetryDelay(retries)`: `INVERSE_DELAY_INTERVALS[max(retries, 0)]`. */
  function CalculateInverseRetryDelay(retries: int): (delay: nat)
    requires retries <= 6
    ensures retries <= 0 ==> delay == 6400
    ensures 0 <= retries ==> delay == InverseDelayIntervals[retries]
  {
    InverseDelayIntervals[Max(retries, 0)]
  }

  /**
   * What reading `INVERSE_DELAY_INTERVALS[max(retries, 0)]` yields for any index:
   * the table entry, or `undefined` (None) past the end of the table.
   */
  function InverseDelayLookup(retries: int): (delay: Option<nat>)
    ensures retries <= 6 <==> delay.Some?
    ensures retries <= 6 ==> delay == Some(CalculateInverseRetryDelay(retries))
  {
    if retries <= 6 then Some(CalculateInverseRetryDelay(retries)) else None
  }

  function Reverse(s: seq<nat>): (r: seq<nat>)
    ensures |r| == |s|
  {
    if s == [] then [] else Reverse(s[1..]) + [s[0]]
  }

  /** Both tables have seven entries; each forward entry doubles the one before. */
  lemma TablesShape()
    ensures |DelayIntervals| == 7 && |InverseDelayIntervals| == 7
    ensures DelayIntervals[0] == 100
    ensures forall i :: 0 < i < 7 ==> DelayIntervals[i] == 2 * DelayIntervals[i - 1]
    ensures forall i, j :: 0 <= i < j < 7 ==> DelayIntervals[i] < DelayIntervals[j]
  {
  }

  /** The inverse table is the forward table read backwards. */
  lemma InverseIsReverse()
    ensures InverseDelayIntervals == Reverse(DelayIntervals)
    ensures forall i :: 0 <= i < 7 ==> InverseDelayIntervals[i] == DelayIntervals[6 - i]
  {
    assert Reverse(DelayIntervals[6..]) == [6400];
    assert Reverse(DelayIntervals[5..]) == [6400, 3200];
    assert Reverse(DelayIntervals[4..]) == [6400, 3200, 1600];
    assert Reverse(DelayIntervals[3..]) == [6400, 3200, 1600, 800];
    assert Reverse(DelayIntervals[2..]) == [6400, 3200, 1600, 800, 400];
    assert Reverse(DelayIntervals[1..]) == [6400, 3200, 1600, 800, 400, 200];
  }

  /** The forward delay never shrinks as the retry count grows. */
  lemma RetryDelayMonotone(i: int, j: int)
    requires 0 <= i <= j
    ensures CalculateRetryDelay(i) <= CalculateRetryDelay(j)
  {
    TablesShape();
  }

  /** The inverse delay never grows as the count of attempts remaining grows. */
  lemma InverseRetryDelayAntitone(i: int, j: int)
    requires i <= j <= 6
    ensures CalculateInverseRetryDelay(i) >= CalculateInverseRetryDelay(j)
  {
    InverseIsReverse();
    TablesShape();
  }

  /** The two schedules mirror each other: waiting with r left equals attempt 6 - r. */
  lemma InverseMirrorsForward(r: int)
    requires 0 <= r <= 6
    ensures CalculateInverseRetryDelay(r) == CalculateRetryDelay(6 - r)
  {
    InverseIsReverse();
  }
}
