/**
 * The count-up of a statistic (`animateNumber`): an interval that every
 * 16 ms adds a fixed increment to a running value, shows its floor while it
 * is below the target, and on the first tick that reaches the target shows
 * the exact target followed by the suffix and clears itself.
 *
 * Arithmetic is exact (`real`): the increment is `target / (2000 / 16)`.
 */
module CountUp {
  import opened Wrappers
  import opened NumberText

  /** Length of the animation in milliseconds. */
  const Duration: int := 2000
  /** Interval period in milliseconds. */
  const TickMs: int := 16
  /** `duration / 16`, the number of increments that add up to the target (see `StepsFromTiming`). */
  const Steps: real := 125.0

  /** The increment count is the animation length over the interval period. */
  lemma StepsFromTiming()
    ensures Steps == (Duration / TickMs) as real && Duration % TickMs == 0
  {
  }

  /** The state of one running interval. */
  datatype Counter = Counter(current: real, increment: real, target: int, suffix: string)

  /** What one tick writes to the element's text. */
  datatype Write = Shown(value: int) | Done(target: int, suffix: string)

  /** The text a write leaves in the element. */
  function Text(w: Write): (t: string)
    ensures w.Shown? && w.value >= 0 ==> AllDigits(t) && DigitsValue(t) == w.value && (|t| > 1 ==> t[0] != '0')
    ensures w.Done? ==> var n := |IntText(w.target)|;
      n <= |t| && t[..n] == IntText(w.target) && t[n..] == w.suffix
  {
    NatTextRoundTrip(if w.Shown? && w.value >= 0 then w.value else 0);
    match w
    case Shown(v) => IntText(v)
    case Done(t, s) => IntText(t) + s
  }

  /** `animateNumber(el, target, suffix)`: a fresh interval starting from 0. */
  function Start(target: int, suffix: string): (c: Counter)
    ensures c.current == 0.0 && c.target == target && c.suffix == suffix
    ensures c.increment * Steps == target as real
    ensures target > 0 ==> c.increment > 0.0
    ensures target <= 0 ==> c.increment <= 0.0
  {
    Counter(0.0, target as real / Steps, target, suffix)
  }

  /**
   * One firing of the interval. It returns the write, and the interval's
   * next state or `None` once it has cleared itself.
   */
  function Tick(c: Counter): (r: (Write, Option<Counter>))
    ensures r.1.None? <==> c.current + c.increment >= c.target as real
    ensures r.1.None? ==> r.0 == Done(c.target, c.suffix)
    ensures r.1.Some? ==> r.1.value == c.(current := c.current + c.increment)
    ensures r.1.Some? ==> r.0.Shown? && r.0.value as real <= r.1.value.current < c.target as real
    ensures r.1.Some? ==> r.0 == Shown(r.1.value.current.Floor)
  {
    var current := c.current + c.increment;
    if current >= c.target as real then (Done(c.target, c.suffix), None)
    else (Shown(current.Floor), Some(c.(current := current)))
  }

  /** The interval reaches its stopping branch: it moves up, or its next tick already stops it. */
  predicate Progresses(c: Counter) {
    c.increment > 0.0 || c.current + c.increment >= c.target as real
  }

  /** Ticks still needed before the stopping branch, minus one. */
  function Remaining(c: Counter): nat {
    if c.increment <= 0.0 || c.current >= c.target as real then 0
    else ((c.target as real - c.current) / c.increment).Floor + 1
  }

  lemma QuotientOfProduct(a: real, b: real, q: real)
    requires b != 0.0 && q * b == a
    ensures a / b == q
  {
  }

  /** A tick that does not stop the interval brings the stopping tick one nearer. */
  lemma TickBringsStopNearer(c: Counter)
    requires c.increment > 0.0 && c.current + c.increment < c.target as real
    ensures Remaining(c.(current := c.current + c.increment)) < Remaining(c)
  {
    var d := c.target as real - c.current;
    var x := d / c.increment;
    assert x * c.increment == d;
    assert (x - 1.0) * c.increment == d - c.increment;
    QuotientOfProduct(d - c.increment, c.increment, x - 1.0);
  }

  /** Every write of the interval from state `c` until it clears itself; the last one shows the target with its suffix. */
  function Run(c: Counter): (ws: seq<Write>)
    requires Progresses(c)
    ensures |ws| >= 1 && ws[|ws| - 1] == Done(c.target, c.suffix)
    decreases Remaining(c)
  {
    var (w, next) := Tick(c);
    match next
    case None => [w]
    case Some(c') =>
      TickBringsStopNearer(c);
      [w] + Run(c')
  }

  /** Every write before the last shows a number from `lo` up to below `hi`. */
  predicate ShownWithin(ws: seq<Write>, lo: int, hi: int) {
    forall k :: 0 <= k < |ws| - 1 ==> ws[k].Shown? && lo <= ws[k].value < hi
  }

  lemma ConsWithin(w: Write, rest: seq<Write>, lo: int, mid: int, hi: int)
    requires w.Shown? && lo <= w.value < hi && lo <= mid && |rest| >= 1 && ShownWithin(rest, mid, hi)
    ensures ShownWithin([w] + rest, lo, hi)
  {
    var ws := [w] + rest;
    forall k | 0 <= k < |ws| - 1
      ensures ws[k].Shown? && lo <= ws[k].value < hi
    {
      if k > 0 { assert ws[k] == rest[k - 1]; }
    }
  }

  /** Every write but the last shows a number from the floor of the starting value up to below the target. */
  lemma {:induction false} RunBounds(c: Counter)
    requires Progresses(c)
    ensures ShownWithin(Run(c), c.current.Floor, c.target)
    decreases Remaining(c)
  {
    RunUnfolds(c);
    if c.current + c.increment < c.target as real {
      var c' := c.(current := c.current + c.increment);
      TickBringsStopNearer(c);
      RunBounds(c');
      assert Run(c) == [Shown(c'.current.Floor)] + Run(c');
      FloorMonotone(c.current, c'.current);
      assert c'.current.Floor as real <= c'.current < c.target as real;
      ConsWithin(Shown(c'.current.Floor), Run(c'), c.current.Floor, c'.current.Floor, c.target);
    }
  }

  lemma FloorMonotone(x: real, y: real)
    requires x <= y
    ensures x.Floor <= y.Floor
  {
  }

  /** The numbers shown before the last write never decrease. */
  predicate ShownNondecreasing(ws: seq<Write>) {
    forall k, l :: 0 <= k < l < |ws| - 1 ==> ws[k].Shown? && ws[l].Shown? && ws[k].value <= ws[l].value
  }

  lemma ConsNondecreasing(w: Write, rest: seq<Write>, hi: int)
    requires w.Shown? && |rest| >= 1 && ShownNondecreasing(rest) && ShownWithin(rest, w.value, hi)
    ensures ShownNondecreasing([w] + rest)
  {
    var ws := [w] + rest;
    forall k, l | 0 <= k < l < |ws| - 1
      ensures ws[k].Shown? && ws[l].Shown? && ws[k].value <= ws[l].value
    {
      assert ws[l] == rest[l - 1];
      if k > 0 { assert ws[k] == rest[k - 1]; }
    }
  }

  /** The numbers a run shows before its last write never decrease. */
  lemma {:induction false} RunMonotone(c: Counter)
    requires Progresses(c)
    ensures ShownNondecreasing(Run(c))
    decreases Remaining(c)
  {
    RunUnfolds(c);
    if c.current + c.increment < c.target as real {
      var c' := c.(current := c.current + c.increment);
      TickBringsStopNearer(c);
      RunMonotone(c');
      RunBounds(c');
      assert Run(c) == [Shown(c'.current.Floor)] + Run(c');
      ConsNondecreasing(Shown(c'.current.Floor), Run(c'), c.target);
    }
  }

  /** The run from `c` is the write of its first tick, then the run from the state that tick leaves. */
  lemma RunUnfolds(c: Counter)
    requires Progresses(c)
    ensures Tick(c).1.Some? ==> Progresses(Tick(c).1.value)
    ensures Run(c) == [Tick(c).0] + (if Tick(c).1.Some? then Run(Tick(c).1.value) else [])
  {
  }

  /**
   * One more tick of a run in progress: what has been written so far,
   * followed by the rest of the run, is still the whole run.
   */
  lemma RunStep(c0: Counter, written: seq<Write>, c: Counter)
    requires Progresses(c0) && Progresses(c) && written + Run(c) == Run(c0)
    ensures Tick(c).1.None? ==> written + [Tick(c).0] == Run(c0)
    ensures Tick(c).1.Some? ==>
      (Progresses(Tick(c).1.value) &&
       (written + [Tick(c).0]) + Run(Tick(c).1.value) == Run(c0) &&
       Remaining(Tick(c).1.value) < Remaining(c))
  {
    RunUnfolds(c);
    if Tick(c).1.Some? {
      TickBringsStopNearer(c);
    }
  }

  /** Every count-up the component starts reaches its stopping branch. */
  lemma StartProgresses(target: int, suffix: string)
    ensures Progresses(Start(target, suffix))
  {
  }

  /**
   * A started count-up ends showing exactly the target and the suffix; a
   * positive target is approached through numbers from 0 up to below it,
   * and a target of 0 or below is written on the first tick.
   */
  lemma StartedRunEnds(target: int, suffix: string)
    ensures Progresses(Start(target, suffix))
    ensures var ws := Run(Start(target, suffix));
      Text(ws[|ws| - 1]) == IntText(target) + suffix &&
      (forall k :: 0 <= k < |ws| - 1 ==> ws[k].Shown? && 0 <= ws[k].value < target) &&
      (target <= 0 ==> ws == [Done(target, suffix)])
  {
    var c := Start(target, suffix);
    StartProgresses(target, suffix);
    RunBounds(c);
    assert c.current == 0.0 && (0.0).Floor == 0;
    assert ShownWithin(Run(c), 0, target);
    if target <= 0 {
      RunUnfolds(c);
      NonPositiveStartStops(target, suffix);
    }
  }

  /** A target of 0 or below is reached by the first tick. */
  lemma NonPositiveStartStops(target: int, suffix: string)
    requires target <= 0
    ensures Tick(Start(target, suffix)).1.None?
  {
    var c := Start(target, suffix);
    assert c.increment == target as real / 125.0;
    assert c.current + c.increment >= target as real;
  }

  /** `n` increments of size `x`, added one at a time as the interval adds them. */
  function Increments(n: nat, x: real): (r: real)
    ensures x > 0.0 && n >= 1 ==> r > 0.0
  {
    if n == 0 then 0.0 else Increments(n - 1, x) + x
  }

  lemma {:induction false} IncrementsProduct(n: nat, x: real)
    ensures Increments(n, x) == n as real * x
  {
    if n > 0 {
      IncrementsProduct(n - 1, x);
      assert (n - 1) as real * x + x == n as real * x;
    }
  }

  /**
   * With exact arithmetic, an interval that is `n` increments short of its
   * target writes exactly `n` more times.
   */
  lemma {:induction false} RunLength(c: Counter, n: nat)
    requires c.increment > 0.0 && n >= 1
    requires c.current + Increments(n, c.increment) == c.target as real
    ensures |Run(c)| == n
    decreases n
  {
    if n > 1 {
      RunContinues(c);
      RunLength(c.(current := c.current + c.increment), n - 1);
    } else {
      RunStops(c);
    }
  }

  /** A tick that reaches the target is the last write. */
  lemma RunStops(c: Counter)
    requires c.increment > 0.0 && c.current + c.increment >= c.target as real
    ensures |Run(c)| == 1
  {
    assert Run(c) == [Tick(c).0];
  }

  /** A tick below the target is followed by the run from the advanced state. */
  lemma RunContinues(c: Counter)
    requires c.increment > 0.0 && c.current + c.increment < c.target as real
    ensures |Run(c)| == 1 + |Run(c.(current := c.current + c.increment))|
  {
    assert Run(c) == [Tick(c).0] + Run(c.(current := c.current + c.increment));
  }

  /** A count-up of a positive target writes exactly 125 times: 2000 ms at one write per 16 ms. */
  lemma PositiveRunLength(target: int, suffix: string)
    requires target > 0
    ensures Progresses(Start(target, suffix)) && |Run(Start(target, suffix))| == 125
  {
    IncrementsProduct(125, Start(target, suffix).increment);
    RunLength(Start(target, suffix), 125);
  }

  /** A statistic of 98 with suffix `%` ends showing `98%`. */
  lemma NinetyEightPercent(target: int, suffix: string)
    requires target == 98 && suffix == "%"
    ensures Progresses(Start(target, suffix))
    ensures var ws := Run(Start(target, suffix)); Text(ws[|ws| - 1]) == "98%"
  {
    StartedRunEnds(target, suffix);
    NinetyEightText();
  }

  lemma NinetyEightText()
    ensures IntText(98) + "%" == "98%"
  {
    assert NatText(98) == NatText(9) + [DigitChar(8)];
  }
}
