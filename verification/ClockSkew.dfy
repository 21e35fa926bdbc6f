/** `CheckClock`: how far the database's clock may be off when the check accepts it. Instants and
    durations are counted in nanoseconds. */
module ClockSkew {
  import opened Options

  const MICROSECOND := 1000
  const MAX_DURATION := 0x7FFF_FFFF_FFFF_FFFF
  const MIN_DURATION := -0x8000_0000_0000_0000

  /** The clock reads whole microseconds. */
  function ToContract(t: int): int {
    t - t % MICROSECOND
  }

  /** A difference of instants is a 64-bit duration and stops at its ends. */
  function Sub(t: int, u: int): int {
    if t - u > MAX_DURATION then MAX_DURATION
    else if t - u < MIN_DURATION then MIN_DURATION
    else t - u
  }

  /** The least duration has no positive counterpart: its negation is itself. */
  function Negate(d: int): int {
    if d == MIN_DURATION then MIN_DURATION else -d
  }

  /** Division by two goes toward zero. */
  function Half(d: int): int {
    if d >= 0 then d / 2 else -(-d / 2)
  }

  function Midpoint(first: int, second: int): int {
    ToContract(first) + Half(Sub(ToContract(second), ToContract(first)))
  }

  predicate IsDuration(d: int) {
    MIN_DURATION <= d <= MAX_DURATION
  }

  /** The check's outcome in terms of the distance from the midpoint: the distance is within bounds,
      or so far in the past that its absolute value is lost, or nothing is out of bounds. */
  predicate Near(distance: int, maximum: int) {
    -maximum <= distance <= maximum || distance <= MIN_DURATION || maximum == MAX_DURATION
  }

  datatype Verdict = Accepted | Unavailable | Skewed

  /** `first` and `second` are the local instants of the two readings, `sample` the database's answer. */
  method CheckClock(first: int, sample: Option<int>, second: int, maximum: int) returns (v: Verdict)
    requires -0x8000_0000_0000_0000 <= maximum <= 0x7FFF_FFFF_FFFF_FFFF
    ensures v.Unavailable? <==> sample.None?
    ensures sample.Some? ==> (v.Accepted? <==> Near(sample.value - Midpoint(first, second), maximum))
  {
    var before := ToContract(first);
    if sample.None? { return Unavailable; }
    var after := ToContract(second);
    var midpoint := before + Half(Sub(after, before));
    var skew := Sub(sample.value, midpoint);
    if skew < 0 {
      skew := Negate(skew);
    }
    if skew > maximum { return Skewed; }
    return Accepted;
  }

  /** Half the round trip as the check sees it. */
  function Width(first: int, second: int): int {
    (ToContract(second) - ToContract(first)) / 2
  }

  /** The midpoint is within half the round trip of the instant the sample was taken, but for the
      digits the clock cuts off. */
  lemma MidpointIsClose(first: int, local: int, second: int)
    requires first <= local <= second && second - first < 0x7FFF_FFFF_FFFF_FFFF
    ensures -Width(first, second) <= local - Midpoint(first, second) <= Width(first, second) + 999
  {
    var before, after := ToContract(first), ToContract(second);
    assert before <= first < before + MICROSECOND && after <= second < after + MICROSECOND;
    Ordered(first, second);
    assert 0 <= after - before <= second - first + MICROSECOND - 1;
    WholeHalf(first, second);
  }

  lemma Ordered(t: int, u: int)
    requires t <= u
    ensures ToContract(t) <= ToContract(u)
  {
    assert ToContract(t) == MICROSECOND * (t / MICROSECOND) && ToContract(u) == MICROSECOND * (u / MICROSECOND);
    assert t / MICROSECOND <= u / MICROSECOND;
  }

  lemma WholeMicroseconds(t: int) returns (n: int)
    ensures ToContract(t) == 1000 * n
  {
    n := t / MICROSECOND;
  }

  lemma Doubled(d: int, n: int)
    requires d == 2 * n
    ensures 2 * (d / 2) == d
  {
  }

  lemma WholeHalf(first: int, second: int)
    ensures 2 * Width(first, second) == ToContract(second) - ToContract(first)
  {
    hide ToContract;
    var p := WholeMicroseconds(first);
    var q := WholeMicroseconds(second);
    Doubled(ToContract(second) - ToContract(first), 500 * q - 500 * p);
  }

  /** An accepted database clock is off by at most the configured skew, half the round trip, and less
      than a microsecond; one that is off by that much less than the skew is accepted. The first
      reading is not after the sample nor the sample after the second. */
  lemma SkewIsBounded(first: int, local: int, second: int, sample: int, maximum: int)
    requires first <= local <= second && second - first < 0x7FFF_FFFF_FFFF_FFFF
    requires 0 <= maximum < 0x7FFF_FFFF_FFFF_FFFF && sample - Midpoint(first, second) > -0x8000_0000_0000_0000
    ensures var offset, width := sample - local, Width(first, second);
            var accepted := Near(sample - Midpoint(first, second), maximum);
            && (accepted ==> -(maximum + width + 999) <= offset <= maximum + width)
            && (-(maximum - width) <= offset <= maximum - width - 999 ==> accepted)
  {
    MidpointIsClose(first, local, second);
  }

  /** A round trip of `n` microseconds that starts on a whole one. */
  lemma RoundTrip(n: nat)
    requires 1000 * n < 0x7FFF_FFFF_FFFF_FFFF
    ensures var second := 1000 * n + 999;
            Width(0, second) == 500 * n && Midpoint(0, second) == 500 * n
  {
    var second := 1000 * n + 999;
    assert second / 1000 == n;
    assert ToContract(second) == 1000 * n;
  }

  /** None of the four bounds can be tightened, for any configured skew and any round trip. */
  lemma BoundsAreReached(n: nat, maximum: int)
    requires 0 <= maximum < 0x7FFF_FFFF_FFFF_FFFF && 1000 * n < 0x7FFF_FFFF_FFFF_FFFF
    ensures var second := 1000 * n + 999;
            var mid, width := Midpoint(0, second), Width(0, second);
            && Near(0 + (maximum + width) - mid, maximum)
            && Near(second - (maximum + width + 999) - mid, maximum)
            && (-(maximum - width) - 1 - mid > -0x8000_0000_0000_0000 ==>
                  !Near(0 - (maximum - width) - 1 - mid, maximum))
            && !Near(second + (maximum - width - 999) + 1 - mid, maximum)
  {
    RoundTrip(n);
  }

  /** The lower limit on the distance is needed, and is exact: beyond the bound the check accepts just
      those databases whose distance into the past no duration holds the absolute value of. */
  lemma FarPastIsAccepted(first: int, second: int, sample: int, maximum: int)
    requires 0 <= maximum < 0x7FFF_FFFF_FFFF_FFFF
    ensures var distance := sample - Midpoint(first, second);
            Near(distance, maximum) && !(-maximum <= distance <= maximum) <==> distance <= -0x8000_0000_0000_0000
  {
  }
}
