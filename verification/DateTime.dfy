/** Points in time with an infinity at either end and not-a-date-time, kept as a count of seconds and one
    of microseconds: normalisation in wrapping arithmetic, order and arithmetic. */
module DateTimes {
  import opened Common
  import opened DivRem

  const MICROSECONDS_PER_SECOND: int := 1000000
  const INT32_MAX: int := 0x7FFF_FFFF
  const INT32_MIN: int := -0x8000_0000
  const INT64_MAX: int := 0x7FFF_FFFF_FFFF_FFFF

  /** The greatest time_t, which is a two's complement number; the configured limits of a DateTime; and
      whether division rounds down. */
  datatype Platform = Platform(timeMax: int, min: int, max: int, down: bool) {
    const timeMin: int := -timeMax - 1
    const span: int := 2 * timeMax + 2

    /** time_t has 32 bits at least and 64 at most. The limits are time_t values, and wide of the ends of
        a 64-bit number. */
    predicate Sound() {
      && INT32_MAX <= timeMax <= INT64_MAX
      && timeMin <= min <= max <= timeMax
      && -INT64_MAX / 4 <= min && max <= INT64_MAX / 4
    }

    predicate HasTime(t: int) {
      timeMin <= t <= timeMax
    }

    predicate InLimits(t: int) {
      min <= t <= max
    }

    /** What arithmetic in time_t makes of a number. */
    function Wrap(x: int): (t: int)
      requires Sound()
      ensures HasTime(t)
    {
      (x - timeMin) % span + timeMin
    }
  }

  predicate IsInt32(m: int) {
    INT32_MIN <= m <= INT32_MAX
  }

  predicate IsInt64(n: int) {
    -INT64_MAX - 1 <= n <= INT64_MAX
  }

  /** What arithmetic in 64 bits makes of a number. */
  function Wrap64(n: int): (r: int)
    ensures IsInt64(r)
    ensures IsInt64(n) <==> r == n
  {
    (n + INT64_MAX + 1) % 0x1_0000_0000_0000_0000 - INT64_MAX - 1
  }

  // ----- normalisation -------------------------------------------------------------------

  datatype Stamp = Stamp(seconds: int, microseconds: int)

  /** normalizeTime; None where it throws. */
  function Normalize(p: Platform, t: int, m: int): Option<Stamp>
    requires p.Sound()
  {
    var t1 := p.Wrap(t + DivFloor(p.down, m, MICROSECONDS_PER_SECOND));
    var m1 := RemFloor(p.down, m, MICROSECONDS_PER_SECOND);
    if t1 < p.min || t1 > p.max then None else Some(Stamp(t1, m1))
  }

  function Total(t: int, m: int): int {
    t * MICROSECONDS_PER_SECOND + m
  }

  /** Carrying without a limit on the numbers: the time is accepted if the carried seconds are within the
      limits, and then it is the same time. */
  predicate IsExact(p: Platform, t: int, m: int, r: Option<Stamp>) {
    var carried := t + m / MICROSECONDS_PER_SECOND;
    if p.InLimits(carried) then
      r.Some? && Total(r.value.seconds, r.value.microseconds) == Total(t, m)
      && 0 <= r.value.microseconds < MICROSECONDS_PER_SECOND
    else r.None?
  }

  predicate HasHeadroom(p: Platform) {
    p.min >= p.timeMin + 2147 && p.max <= p.timeMax - 2148
  }

  lemma CarryIsFloor(down: bool, m: int)
    ensures DivFloor(down, m, MICROSECONDS_PER_SECOND) == m / MICROSECONDS_PER_SECOND
    ensures RemFloor(down, m, MICROSECONDS_PER_SECOND) == m % MICROSECONDS_PER_SECOND
  {
    FloorIsRight(down, m, MICROSECONDS_PER_SECOND);
  }

  lemma WrapOnce(p: Platform, x: int)
    requires p.Sound()
    ensures p.HasTime(x) ==> p.Wrap(x) == x
    ensures p.timeMax < x <= p.timeMax + p.span ==> p.Wrap(x) == x - p.span
    ensures p.timeMin - p.span <= x < p.timeMin ==> p.Wrap(x) == x + p.span
  {
    if p.HasTime(x) {
      QuotientIsUnique(x - p.timeMin, p.span, 0, x - p.timeMin);
    }
    if p.timeMax < x <= p.timeMax + p.span {
      QuotientIsUnique(x - p.timeMin, p.span, 1, x - p.timeMin - p.span);
    }
    if p.timeMin - p.span <= x < p.timeMin {
      QuotientIsUnique(x - p.timeMin, p.span, -1, x - p.timeMin + p.span);
    }
  }

  lemma ExactWithHeadroom(p: Platform, t: int, m: int)
    requires p.Sound() && HasHeadroom(p) && p.HasTime(t) && IsInt32(m)
    ensures IsExact(p, t, m, Normalize(p, t, m))
  {
    CarryIsFloor(p.down, m);
    WrapOnce(p, t + m / MICROSECONDS_PER_SECOND);
  }

  /** A time that wraps around into the limits. */
  lemma InexactWithout(p: Platform) returns (t: int, m: int)
    requires p.Sound() && !HasHeadroom(p)
    ensures p.HasTime(t) && IsInt32(m) && !IsExact(p, t, m, Normalize(p, t, m))
  {
    if p.min < p.timeMin + 2147 {
      t := p.timeMax;
      m := (p.min - p.timeMin + 1) * MICROSECONDS_PER_SECOND;
    } else {
      t := p.timeMin;
      var d := p.max - p.timeMax - 1;
      m := if d == -2148 then INT32_MIN else d * MICROSECONDS_PER_SECOND;
    }
    CarryIsFloor(p.down, m);
    WrapOnce(p, t + m / MICROSECONDS_PER_SECOND);
  }

  /** Normalisation is exact for every time_t and every 32-bit count of microseconds, in spite of
      wrap-around, exactly if the limits keep this much distance from the ends of time_t. */
  lemma ExactIffHeadroom(p: Platform)
    requires p.Sound()
    ensures (forall t, m :: p.HasTime(t) && IsInt32(m) ==> IsExact(p, t, m, Normalize(p, t, m))) <==> HasHeadroom(p)
  {
    if HasHeadroom(p) {
      forall t, m | p.HasTime(t) && IsInt32(m) ensures IsExact(p, t, m, Normalize(p, t, m)) {
        ExactWithHeadroom(p, t, m);
      }
    } else {
      var t, m := InexactWithout(p);
    }
  }

  // ----- values --------------------------------------------------------------------------

  datatype Flag = NotSpecial | NegInfinity | PosInfinity | Nadt

  predicate IsNormal(p: Platform, x: Stamp) {
    p.InLimits(x.seconds) && 0 <= x.microseconds < MICROSECONDS_PER_SECOND
  }

  function Special(p: Platform, flag: Flag): Stamp {
    match flag
    case NotSpecial => Stamp(0, 0)
    case PosInfinity => Stamp(p.timeMax, INT32_MAX)
    case NegInfinity => Stamp(p.timeMin, INT32_MIN)
    case Nadt => Stamp(0, MICROSECONDS_PER_SECOND)
  }

  /** The class invariant. */
  predicate IsValue(p: Platform, x: Stamp) {
    IsNormal(p, x) || x == Special(p, PosInfinity) || x == Special(p, NegInfinity) || x == Special(p, Nadt)
  }

  function FlagOf(x: Stamp): Flag {
    if x.microseconds < 0 then NegInfinity
    else if x.microseconds < MICROSECONDS_PER_SECOND then NotSpecial
    else if x.microseconds > MICROSECONDS_PER_SECOND then PosInfinity
    else Nadt
  }

  /** Integers with infinities, and with NaN for what is not defined. */
  datatype Extended = NaN | Low | Fin(n: int) | High

  function Add(a: Extended, b: Extended): Extended {
    if a.NaN? || b.NaN? || (a.Low? && b.High?) || (a.High? && b.Low?) then NaN
    else if a.Fin? && b.Fin? then Fin(a.n + b.n)
    else if a.Fin? then b
    else a
  }

  function Negate(a: Extended): Extended {
    match a
    case NaN => NaN
    case Low => High
    case High => Low
    case Fin(n) => Fin(-n)
  }

  predicate Below(a: Extended, b: Extended) {
    match (a, b)
    case (Low, Fin(_)) => true
    case (Low, High) => true
    case (Fin(_), High) => true
    case (Fin(m), Fin(n)) => m < n
    case _ => false
  }

  /** The point on the line, in microseconds. */
  function Point(x: Stamp): Extended {
    match FlagOf(x)
    case NotSpecial => Fin(Total(x.seconds, x.microseconds))
    case NegInfinity => Low
    case PosInfinity => High
    case Nadt => NaN
  }

  lemma PointIsFaithful(p: Platform, x: Stamp, y: Stamp)
    requires p.Sound() && IsValue(p, x) && IsValue(p, y)
    ensures Point(x) == Point(y) <==> x == y
  {
  }

  // ----- order ---------------------------------------------------------------------------

  predicate Less(x: Stamp, y: Stamp) {
    if FlagOf(x) == Nadt || FlagOf(y) == Nadt then false
    else if x.seconds == y.seconds then x.microseconds < y.microseconds
    else x.seconds < y.seconds
  }

  predicate LessOrEqual(x: Stamp, y: Stamp) {
    x == y || Less(x, y)
  }

  /** The comparison of the fields is that of the points; the infinities need no case of their own. */
  lemma LessIsBelow(p: Platform, x: Stamp, y: Stamp)
    requires p.Sound() && IsValue(p, x) && IsValue(p, y)
    ensures Less(x, y) <==> Below(Point(x), Point(y))
  {
  }

  /** The order with equality, which every value has to itself, not-a-date-time included. */
  lemma LessOrEqualIsNotAbove(p: Platform, x: Stamp, y: Stamp)
    requires p.Sound() && IsValue(p, x) && IsValue(p, y)
    ensures LessOrEqual(x, y) <==> Point(x) == Point(y) || Below(Point(x), Point(y))
    ensures FlagOf(x) != Nadt && FlagOf(y) != Nadt ==> (LessOrEqual(x, y) <==> !Less(y, x))
  {
    PointIsFaithful(p, x, y);
    LessIsBelow(p, x, y);
    LessIsBelow(p, y, x);
  }

  /** The order of the values other than not-a-date-time is strict and total. */
  lemma LessIsStrictTotalOrder(p: Platform, x: Stamp, y: Stamp, z: Stamp)
    requires p.Sound() && IsValue(p, x) && IsValue(p, y) && IsValue(p, z)
    ensures !Less(x, x)
    ensures Less(x, y) && Less(y, z) ==> Less(x, z)
    ensures FlagOf(x) != Nadt && FlagOf(y) != Nadt ==> Less(x, y) || x == y || Less(y, x)
    ensures FlagOf(x) == Nadt ==> !Less(x, y) && !Less(y, x)
  {
    LessIsBelow(p, x, y);
    LessIsBelow(p, y, z);
    LessIsBelow(p, x, z);
    LessIsBelow(p, y, x);
    PointIsFaithful(p, x, y);
  }

  // ----- arithmetic ----------------------------------------------------------------------

  /** A duration: microseconds, unless it is special. */
  datatype TimeDuration = TimeDuration(microseconds: int, special: Flag)

  /** The durations whose microseconds can be negated and split into seconds without overflow. */
  predicate IsDuration(td: TimeDuration) {
    && (td.special != NotSpecial ==> td.microseconds == 0)
    && -INT64_MAX - 1 + MICROSECONDS_PER_SECOND <= td.microseconds <= INT64_MAX
  }

  function Length(td: TimeDuration): Extended {
    match td.special
    case NotSpecial => Fin(td.microseconds)
    case NegInfinity => Low
    case PosInfinity => High
    case Nadt => NaN
  }

  function MicrosecondInSecond(td: TimeDuration): int {
    if td.microseconds < 0 then MICROSECONDS_PER_SECOND - (-td.microseconds) % MICROSECONDS_PER_SECOND
    else td.microseconds % MICROSECONDS_PER_SECOND
  }

  /** Unary minus; None where the result is out of range. */
  function Minus(p: Platform, x: Stamp): Option<Stamp>
    requires p.Sound()
  {
    match FlagOf(x)
    case NotSpecial =>
      if x.microseconds > 0 then Normalize(p, -x.seconds - 1, MICROSECONDS_PER_SECOND - x.microseconds)
      else Normalize(p, -x.seconds, 0)
    case Nadt => Some(x)
    case PosInfinity => Some(Special(p, NegInfinity))
    case NegInfinity => Some(Special(p, PosInfinity))
  }

  function Difference(x: Stamp, y: Stamp): TimeDuration {
    var flag1, flag2 := FlagOf(x), FlagOf(y);
    if flag1 != NotSpecial || flag2 != NotSpecial then
      if flag1 == Nadt || flag2 == Nadt then TimeDuration(0, Nadt)
      else if flag1 == flag2 then TimeDuration(0, Nadt)
      else if flag2 == NegInfinity then TimeDuration(0, PosInfinity)
      else if flag2 == PosInfinity then TimeDuration(0, NegInfinity)
      else TimeDuration(0, flag1)
    else
      var product := Wrap64((x.seconds - y.seconds) * MICROSECONDS_PER_SECOND);
      TimeDuration(Wrap64(product + (x.microseconds - y.microseconds)), NotSpecial)
  }

  function Plus(p: Platform, x: Stamp, td: TimeDuration): Option<Stamp>
    requires p.Sound()
  {
    var flag1, flag2 := FlagOf(x), td.special;
    if flag1 == Nadt || flag2 == Nadt then Some(Special(p, Nadt))
    else if (flag1 == PosInfinity && flag2 == NegInfinity) || (flag1 == NegInfinity && flag2 == PosInfinity) then
      Some(Special(p, Nadt))
    else if flag1 != NotSpecial then Some(x)
    else
      match flag2
      case NotSpecial =>
        // The division leaves no remainder, so its rounding does not matter.
        var seconds := (td.microseconds - MicrosecondInSecond(td)) / MICROSECONDS_PER_SECOND;
        Normalize(p, p.Wrap(x.seconds + seconds), x.microseconds + MicrosecondInSecond(td))
      case NegInfinity => Some(Special(p, NegInfinity))
      case PosInfinity => Some(Special(p, PosInfinity))
      case Nadt => Some(Special(p, Nadt))
  }

  /** r is the value at point e, or there is none because e is beyond the limits. */
  predicate IsAt(p: Platform, r: Option<Stamp>, e: Extended) {
    match r
    case Some(x) => IsValue(p, x) && Point(x) == e
    case None => e.Fin? && !p.InLimits(e.n / MICROSECONDS_PER_SECOND)
  }

  /** Unary minus is that of the line. */
  lemma MinusIsNegation(p: Platform, x: Stamp)
    requires p.Sound() && HasHeadroom(p) && IsValue(p, x)
    ensures IsAt(p, Minus(p, x), Negate(Point(x)))
  {
    if FlagOf(x) == NotSpecial {
      if x.microseconds > 0 {
        ExactWithHeadroom(p, -x.seconds - 1, MICROSECONDS_PER_SECOND - x.microseconds);
      } else {
        ExactWithHeadroom(p, -x.seconds, 0);
      }
    }
  }

  /** It is its own inverse and reverses the order. */
  lemma MinusReverses(p: Platform, x: Stamp, y: Stamp)
    requires p.Sound() && HasHeadroom(p) && IsValue(p, x) && IsValue(p, y)
    requires Minus(p, x).Some? && Minus(p, y).Some?
    ensures Minus(p, Minus(p, x).value) == Some(x)
    ensures Less(x, y) <==> Less(Minus(p, y).value, Minus(p, x).value)
  {
    var x', y' := Minus(p, x).value, Minus(p, y).value;
    MinusIsNegation(p, x);
    MinusIsNegation(p, y);
    MinusIsNegation(p, x');
    LessIsBelow(p, x, y);
    LessIsBelow(p, y', x');
    PointIsFaithful(p, x, Minus(p, x').value);
  }

  /** The microseconds from y to x. */
  function Between(x: Stamp, y: Stamp): int {
    Total(x.seconds, x.microseconds) - Total(y.seconds, y.microseconds)
  }

  lemma WrapSum64(a: int, b: int)
    ensures Wrap64(Wrap64(a) + b) == Wrap64(a + b)
  {
    var c := INT64_MAX + 1;
    RemainderOfSum(a + c, b, 0x1_0000_0000_0000_0000);
    assert Wrap64(a) + b + c == (a + c) % 0x1_0000_0000_0000_0000 + b;
  }

  lemma DifferenceWraps(x: Stamp, y: Stamp)
    requires FlagOf(x) == NotSpecial && FlagOf(y) == NotSpecial
    ensures Difference(x, y) == TimeDuration(Wrap64(Between(x, y)), NotSpecial)
  {
    WrapSum64((x.seconds - y.seconds) * MICROSECONDS_PER_SECOND, x.microseconds - y.microseconds);
  }

  /** The difference of two values is that of their points, undefined forms included, exactly if 64 bits hold
      it. */
  lemma DifferenceIsExact(p: Platform, x: Stamp, y: Stamp)
    requires p.Sound() && IsValue(p, x) && IsValue(p, y)
    ensures Length(Difference(x, y)) == Add(Point(x), Negate(Point(y))) <==>
            (IsNormal(p, x) && IsNormal(p, y) ==> IsInt64(Between(x, y)))
  {
    if IsNormal(p, x) && IsNormal(p, y) {
      DifferenceWraps(x, y);
    }
  }

  /** The span between the limits, in microseconds, fits in 64 bits. */
  predicate IsNarrow(p: Platform) {
    (p.max - p.min) * MICROSECONDS_PER_SECOND + MICROSECONDS_PER_SECOND - 1 <= INT64_MAX
  }

  ghost predicate DifferencesAreRight(p: Platform) {
    forall x, y :: IsValue(p, x) && IsValue(p, y) ==> Length(Difference(x, y)) == Add(Point(x), Negate(Point(y)))
  }

  /** The difference is right for all values exactly if the limits are close enough; the configured limits,
      which lie within the years 0 and 9999, are. */
  lemma DifferencesAreRightIffNarrow(p: Platform)
    requires p.Sound()
    ensures DifferencesAreRight(p) <==> IsNarrow(p)
    ensures p.min >= -62167219200 && p.max <= 253402300799 ==> IsNarrow(p)
  {
    if IsNarrow(p) {
      forall x, y | IsValue(p, x) && IsValue(p, y)
        ensures Length(Difference(x, y)) == Add(Point(x), Negate(Point(y)))
      {
        DifferenceIsExact(p, x, y);
      }
    } else {
      var x, y := Stamp(p.max, MICROSECONDS_PER_SECOND - 1), Stamp(p.min, 0);
      assert IsNormal(p, x) && IsNormal(p, y);
      DifferenceIsExact(p, x, y);
    }
  }

  /** The most seconds that a duration has. */
  const MOST_SECONDS: int := 9223372036854

  /** time_t is wide enough for a sum of seconds not to come around into the limits. */
  predicate IsWide(p: Platform) {
    p.span > p.max - p.min + MOST_SECONDS + 1
  }

  lemma SecondsOf(td: TimeDuration)
    ensures var m := MicrosecondInSecond(td);
            0 <= m <= MICROSECONDS_PER_SECOND &&
            Total((td.microseconds - m) / MICROSECONDS_PER_SECOND, m) == td.microseconds
  {
  }

  lemma CarrySum(t: int, m: int)
    ensures t + m / MICROSECONDS_PER_SECOND == Total(t, m) / MICROSECONDS_PER_SECOND
    ensures m % MICROSECONDS_PER_SECOND == Total(t, m) % MICROSECONDS_PER_SECOND
  {
  }

  /** Where the sum of a normal value and a normal duration wraps to. */
  lemma PlusWraps(p: Platform, x: Stamp, td: TimeDuration)
    requires p.Sound() && FlagOf(x) == NotSpecial && td.special == NotSpecial
    ensures var total := Total(x.seconds, x.microseconds) + td.microseconds;
            var t := p.Wrap(total / MICROSECONDS_PER_SECOND);
            Plus(p, x, td) ==
              if p.InLimits(t) then Some(Stamp(t, total % MICROSECONDS_PER_SECOND)) else None
  {
    var m := x.microseconds + MicrosecondInSecond(td);
    var s := x.seconds + (td.microseconds - MicrosecondInSecond(td)) / MICROSECONDS_PER_SECOND;
    SecondsOf(td);
    CarryIsFloor(p.down, m);
    CarrySum(s, m);
    WrapTwice(p, s, m / MICROSECONDS_PER_SECOND);
  }

  lemma WrapTwice(p: Platform, x: int, d: int)
    requires p.Sound()
    ensures p.Wrap(p.Wrap(x) + d) == p.Wrap(x + d)
  {
    RemainderOfSum(x - p.timeMin, d, p.span);
  }

  lemma RemainderOfSum(y: int, d: int, n: int)
    requires n > 0
    ensures (y % n + d) % n == (y + d) % n
  {
    var k, z := y / n, y % n + d;
    var j := z / n;
    assert y == k * n + y % n;
    assert z == j * n + z % n;
    assert (k + j) * n == k * n + j * n;
    QuotientIsUnique(y + d, n, k + j, z % n);
  }

  lemma WrapBack(p: Platform, x: int)
    requires p.Sound() && IsWide(p)
    requires p.min - MOST_SECONDS <= x <= p.max + MOST_SECONDS + 1
    ensures p.InLimits(p.Wrap(x)) ==> p.Wrap(x) == x
  {
    var y := x - p.timeMin;
    var k := y / p.span;
    assert x - p.Wrap(x) == k * p.span;
    if k > 0 {
      MulGrows(0, k, p.span);
    } else if k < 0 {
      MulGrows(k, 0, p.span);
    }
  }

  lemma NormalSum(p: Platform, x: Stamp, td: TimeDuration)
    requires p.Sound() && IsWide(p) && IsNormal(p, x) && IsDuration(td) && td.special == NotSpecial
    ensures IsAt(p, Plus(p, x, td), Fin(Total(x.seconds, x.microseconds) + td.microseconds))
  {
    var total := Total(x.seconds, x.microseconds) + td.microseconds;
    PlusWraps(p, x, td);
    WrapBack(p, total / MICROSECONDS_PER_SECOND);
    WrapOnce(p, total / MICROSECONDS_PER_SECOND);
    CarrySum(0, total);
  }

  /** A value plus a duration is the sum on the line, undefined forms included. */
  lemma PlusIsAddition(p: Platform, x: Stamp, td: TimeDuration)
    requires p.Sound() && IsWide(p) && IsValue(p, x) && IsDuration(td)
    ensures IsAt(p, Plus(p, x, td), Add(Point(x), Length(td)))
  {
    if IsNormal(p, x) && td.special == NotSpecial {
      NormalSum(p, x, td);
    } else {
      SpecialSum(p, x, td);
    }
  }

  lemma SpecialSum(p: Platform, x: Stamp, td: TimeDuration)
    requires p.Sound() && IsValue(p, x) && !(IsNormal(p, x) && td.special == NotSpecial)
    ensures Plus(p, x, td).Some? && IsValue(p, Plus(p, x, td).value)
    ensures Point(Plus(p, x, td).value) == Add(Point(x), Length(td))
  {
  }

  /** One sum of a normal value and a normal duration: it is right exactly if its second is within the
      limits or does not come around into them. */
  lemma SumIsRightExactly(p: Platform, x: Stamp, td: TimeDuration)
    requires p.Sound() && IsNormal(p, x) && IsDuration(td) && td.special == NotSpecial
    ensures var second := (Total(x.seconds, x.microseconds) + td.microseconds) / MICROSECONDS_PER_SECOND;
            IsAt(p, Plus(p, x, td), Add(Point(x), Length(td))) <==>
            p.InLimits(second) || !p.InLimits(p.Wrap(second))
  {
    var total := Total(x.seconds, x.microseconds) + td.microseconds;
    PlusWraps(p, x, td);
    WrapOnce(p, total / MICROSECONDS_PER_SECOND);
    CarrySum(0, total);
  }

  /** On a narrower platform there is a sum that comes around into the limits. */
  lemma NarrowSum(p: Platform) returns (x: Stamp, td: TimeDuration)
    requires p.Sound() && !IsWide(p)
    ensures IsNormal(p, x) && IsDuration(td) && td.special == NotSpecial
    ensures !IsAt(p, Plus(p, x, td), Add(Point(x), Length(td)))
  {
    if p.span <= MOST_SECONDS {
      x := Stamp(p.min, 0);
      td := TimeDuration(p.span * MICROSECONDS_PER_SECOND, NotSpecial);
    } else {
      x := Stamp(p.min + p.span - MOST_SECONDS - 1, MICROSECONDS_PER_SECOND - 1);
      td := TimeDuration(INT64_MAX, NotSpecial);
    }
    var total := Total(x.seconds, x.microseconds) + td.microseconds;
    assert total / MICROSECONDS_PER_SECOND == p.min + p.span;
    PlusWraps(p, x, td);
    WrapOnce(p, p.min + p.span);
  }

  ghost predicate SumsAreRight(p: Platform)
    requires p.Sound()
  {
    forall x, td :: IsValue(p, x) && IsDuration(td) ==> IsAt(p, Plus(p, x, td), Add(Point(x), Length(td)))
  }

  /** Addition is right for all values and durations exactly on wide platforms: with a time_t of 64 bits
      it is, and with one of 32 bits it is not. */
  lemma SumsAreRightIffWide(p: Platform)
    requires p.Sound()
    ensures SumsAreRight(p) <==> IsWide(p)
    ensures p.timeMax == INT64_MAX ==> IsWide(p)
    ensures p.timeMax == INT32_MAX ==> !IsWide(p)
  {
    if IsWide(p) {
      forall x, td | IsValue(p, x) && IsDuration(td) ensures IsAt(p, Plus(p, x, td), Add(Point(x), Length(td))) {
        PlusIsAddition(p, x, td);
      }
    } else {
      var x, td := NarrowSum(p);
    }
  }

  /** Adding the difference leads from one value to the other, if the difference is a duration. */
  lemma DifferenceLeadsBack(p: Platform, x: Stamp, y: Stamp)
    requires p.Sound() && IsWide(p) && IsValue(p, x) && IsNormal(p, y)
    requires IsNormal(p, x) ==> IsDuration(TimeDuration(Between(x, y), NotSpecial))
    ensures Plus(p, y, Difference(x, y)) == Some(x)
  {
    var r := Plus(p, y, Difference(x, y));
    DifferenceIsExact(p, x, y);
    if IsNormal(p, x) {
      DifferenceWraps(x, y);
    }
    PlusIsAddition(p, y, Difference(x, y));
    if r.Some? {
      PointIsFaithful(p, x, r.value);
    }
  }

  function MinusDuration(td: TimeDuration): TimeDuration {
    match td.special
    case NotSpecial => TimeDuration(-td.microseconds, NotSpecial)
    case NegInfinity => TimeDuration(0, PosInfinity)
    case PosInfinity => TimeDuration(0, NegInfinity)
    case Nadt => td
  }

  /** The negation of durations, special ones included, and special durations have no microseconds. */
  lemma MinusDurationIsNegation(td: TimeDuration, x: Stamp, y: Stamp)
    ensures Length(MinusDuration(td)) == Negate(Length(td))
    ensures IsDuration(td) ==> MinusDuration(MinusDuration(td)) == td
    ensures td.special == Nadt || (MinusDuration(td).special != NotSpecial ==> MinusDuration(td).microseconds == 0)
    ensures Difference(x, y).special != NotSpecial ==> Difference(x, y).microseconds == 0
  {
  }

  /** dt - td is dt + -td in the code, and goes back what dt + td went. */
  lemma MinusUndoesPlus(p: Platform, x: Stamp, td: TimeDuration)
    requires p.Sound() && IsWide(p) && IsValue(p, x) && IsDuration(td) && IsDuration(MinusDuration(td))
    requires td.special == NotSpecial && Plus(p, x, td).Some?
    ensures Plus(p, Plus(p, x, td).value, MinusDuration(td)) == Some(x)
  {
    var y := Plus(p, x, td).value;
    var r := Plus(p, y, MinusDuration(td));
    PlusIsAddition(p, x, td);
    PlusIsAddition(p, y, MinusDuration(td));
    if r.Some? {
      PointIsFaithful(p, x, r.value);
    }
  }

  /** A later value plus the same duration is later, and so is a value plus a longer duration. */
  lemma PlusIsMonotone(p: Platform, x: Stamp, y: Stamp, td: TimeDuration, longer: TimeDuration)
    requires p.Sound() && IsWide(p) && IsNormal(p, x) && IsNormal(p, y)
    requires IsDuration(td) && IsDuration(longer) && td.special == NotSpecial && longer.special == NotSpecial
    requires Plus(p, x, td).Some? && Plus(p, y, td).Some? && Plus(p, x, longer).Some?
    ensures Less(x, y) <==> Less(Plus(p, x, td).value, Plus(p, y, td).value)
    ensures td.microseconds < longer.microseconds <==> Less(Plus(p, x, td).value, Plus(p, x, longer).value)
  {
    NormalSum(p, x, td);
    NormalSum(p, y, td);
    NormalSum(p, x, longer);
    LessIsBelow(p, x, y);
    LessIsBelow(p, Plus(p, x, td).value, Plus(p, y, td).value);
    LessIsBelow(p, Plus(p, x, td).value, Plus(p, x, longer).value);
  }

  // ----- the object ----------------------------------------------------------------------

  /** What assigning a long to an Int32 makes of it. */
  function Narrow(m: int): (r: int)
    ensures IsInt32(r)
    ensures IsInt32(m) ==> r == m
  {
    (m - INT32_MIN) % 0x1_0000_0000 + INT32_MIN
  }

  class DateTime {
    const p: Platform
    var seconds: int
    var microseconds: int

    ghost predicate Valid()
      reads this
    {
      p.Sound() && IsValue(p, Value())
    }

    function Value(): Stamp
      reads this
    {
      Stamp(seconds, microseconds)
    }

    constructor (p: Platform)
      requires p.Sound() && p.InLimits(0)
      ensures this.p == p && Valid() && Value() == Stamp(0, 0)
    {
      this.p, seconds, microseconds := p, 0, 0;
    }

    /** set: a time out of range leaves the object as it was. */
    method Set(t: int, m: int) returns (ok: bool)
      requires Valid() && HasHeadroom(p) && p.HasTime(t) && IsInt32(m)
      modifies this
      ensures Valid()
      ensures ok <==> p.InLimits(t + m / MICROSECONDS_PER_SECOND)
      ensures ok ==> Point(Value()) == Fin(Total(t, m))
      ensures !ok ==> Value() == old(Value())
    {
      ExactWithHeadroom(p, t, m);
      var t1 := p.Wrap(t + DivFloor(p.down, m, MICROSECONDS_PER_SECOND));
      var m1 := RemFloor(p.down, m, MICROSECONDS_PER_SECOND);
      if t1 < p.min || t1 > p.max {
        return false;
      }
      seconds, microseconds := t1, m1;
      return true;
    }

    /** operator+= */
    method Advance(td: TimeDuration) returns (ok: bool)
      requires Valid() && IsWide(p) && IsDuration(td)
      modifies this
      ensures Valid()
      ensures if ok then Point(Value()) == Add(old(Point(Value())), Length(td))
              else Value() == old(Value()) && IsAt(p, None, Add(Point(Value()), Length(td)))
    {
      PlusIsAddition(p, Value(), td);
      var sum := Plus(p, Value(), td);
      if sum.None? {
        return false;
      }
      seconds, microseconds := sum.value.seconds, sum.value.microseconds;
      return true;
    }

    /** addMicroseconds: the sum is narrowed before it is normalised, so the object does not always end up
        where it should; and where it should not move out of range, it has changed already. A sum that wraps
        around in 64 bits narrows to the same. */
    method AddMicroseconds(n: int) returns (ok: bool)
      requires Valid() && HasHeadroom(p) && IsInt64(n)
      modifies this
      ensures FlagOf(old(Value())) != NotSpecial ==> ok && Value() == old(Value())
      ensures FlagOf(old(Value())) == NotSpecial ==>
                (ok <==> p.InLimits(old(seconds) + Narrow(old(microseconds) + n) / MICROSECONDS_PER_SECOND)) &&
                (ok ==> IsNormal(p, Value()) &&
                        Point(Value()) == Fin(Total(old(seconds), Narrow(old(microseconds) + n)))) &&
                (!ok ==> Value() == Stamp(old(seconds), Narrow(old(microseconds) + n)))
    {
      if FlagOf(Value()) == NotSpecial {
        microseconds := Narrow(microseconds + n);
        ExactWithHeadroom(p, seconds, microseconds);
        var r := Normalize(p, seconds, microseconds);
        if r.None? {
          return false;
        }
        seconds, microseconds := r.value.seconds, r.value.microseconds;
      }
      return true;
    }
  }

  /** addMicroseconds moves by n microseconds exactly if the count of microseconds can hold the sum. */
  lemma AddsExactlyIffNotNarrowed(s: int, m: int, n: int)
    ensures Total(s, Narrow(m + n)) == Total(s, m) + n <==> IsInt32(m + n)
  {
  }

  /** When addMicroseconds throws, the object is left with a count that marks special values. */
  lemma FailedAddLooksSpecial(p: Platform, s: int, m: int, n: int)
    requires p.Sound() && IsNormal(p, Stamp(s, m))
    requires !p.InLimits(s + Narrow(m + n) / MICROSECONDS_PER_SECOND)
    ensures FlagOf(Stamp(s, Narrow(m + n))) != NotSpecial
  {
    var narrow := Narrow(m + n);
    assert narrow == narrow / MICROSECONDS_PER_SECOND * MICROSECONDS_PER_SECOND + narrow % MICROSECONDS_PER_SECOND;
  }
}
