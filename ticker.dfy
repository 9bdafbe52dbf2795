/**
 * The adaptive polling schedule (ticker/dynamic_ticker.go): registration
 * deadlines are expanded into windows of denser polling, and the wait
 * before the next tick is chosen from the window list. Instants and
 * durations are whole seconds.
 */
module Ticker {
  const Minute: int := 60
  const Hour: int := 3600

  /** A registration deadline and the label shown for it. */
  datatype TickerIntervalConfig = TickerIntervalConfig(till: int, name: string)

  /** Poll every `interval` seconds while the clock is in [from, till]. */
  datatype TickerInterval = TickerInterval(from: int, till: int, interval: int, name: string)

  /** `isWithin`: both ends of the window belong to it. */
  predicate IsWithin(t: int, w: TickerInterval) {
    w.from <= t <= w.till
  }

  // ----- ParseTimeConfig -----

  /** The four windows the last hour before one deadline is cut into. */
  function Windows(c: TickerIntervalConfig): seq<TickerInterval> {
    [ TickerInterval(c.till - Hour, c.till - 30 * Minute, 30 * Minute, c.name),
      TickerInterval(c.till - 30 * Minute, c.till - 15 * Minute, 15 * Minute, c.name),
      TickerInterval(c.till - 15 * Minute, c.till - 5 * Minute, 5 * Minute, c.name),
      TickerInterval(c.till - 5 * Minute, c.till, 1 * Minute, c.name) ]
  }

  /** The windows of all deadlines, deadline by deadline in input order. */
  function Expand(cs: seq<TickerIntervalConfig>): seq<TickerInterval> {
    if cs == [] then [] else Expand(cs[..|cs| - 1]) + Windows(cs[|cs| - 1])
  }

  /** `ParseTimeConfig`: appends the four windows of each deadline. */
  method ParseTimeConfig(cs: seq<TickerIntervalConfig>) returns (tt: seq<TickerInterval>)
    ensures tt == Expand(cs)
  {
    tt := [];
    for i := 0 to |cs|
      invariant tt == Expand(cs[..i])
    {
      assert cs[..i + 1][..i] == cs[..i];
      tt := tt + Windows(cs[i]);
    }
    assert cs[..|cs|] == cs;
  }

  /**
   * The windows of one deadline start an hour before it, follow each other
   * without a gap (each ends where the next begins), end exactly at the
   * deadline, carry its name and poll ever more often: every 30, 15, 5
   * and 1 minutes. No interval is longer than its window.
   */
  lemma WindowsShape(c: TickerIntervalConfig)
    ensures var w := Windows(c);
      && |w| == 4
      && w[0].from == c.till - Hour
      && (forall j :: 0 <= j < 3 ==> w[j].till == w[j + 1].from && w[j + 1].interval < w[j].interval)
      && w[3].till == c.till
      && (forall j :: 0 <= j < 4 ==> w[j].name == c.name && 0 < w[j].interval <= w[j].till - w[j].from)
      && w[0].interval == 30 * Minute && w[3].interval == Minute
  {
  }

  /** Deadline `i` owns windows 4i .. 4i+3 of the expansion. */
  lemma {:induction false} ExpandLayout(cs: seq<TickerIntervalConfig>, i: int)
    requires 0 <= i < |cs|
    ensures |Expand(cs)| == 4 * |cs|
    ensures Expand(cs)[4 * i .. 4 * i + 4] == Windows(cs[i])
  {
    var n := |cs| - 1;
    ExpandLength(cs[..n]);
    if i < n {
      ExpandLayout(cs[..n], i);
      assert Expand(cs)[4 * i .. 4 * i + 4] == Expand(cs[..n])[4 * i .. 4 * i + 4];
    }
  }

  lemma {:induction false} ExpandLength(cs: seq<TickerIntervalConfig>)
    ensures |Expand(cs)| == 4 * |cs|
  {
    if cs != [] {
      ExpandLength(cs[..|cs| - 1]);
    }
  }

  lemma ExpandOne(c: TickerIntervalConfig)
    ensures Expand([c]) == Windows(c)
  {
    assert [c][..0] == [];
  }

  // ----- getDuration -----

  /**
   * One iteration of `getDuration`'s loop: a window holding `now` sets the
   * wait to its interval; otherwise a window holding the instant the
   * current wait would land on stretches the wait up to that window's end.
   */
  function Step(now: int, cur: int, w: TickerInterval): int {
    if IsWithin(now, w) then w.interval
    else if IsWithin(now + cur, w) then w.till - now
    else cur
  }

  /** The wait after scanning the windows `ts` in order, starting from the default. */
  function DurationAfter(now: int, default: int, ts: seq<TickerInterval>): int {
    if ts == [] then default
    else Step(now, DurationAfter(now, default, ts[..|ts| - 1]), ts[|ts| - 1])
  }

  /** Scanning four windows is four steps. */
  lemma DurationOfFour(now: int, default: int, w: seq<TickerInterval>)
    requires |w| == 4
    ensures DurationAfter(now, default, w)
      == Step(now, Step(now, Step(now, Step(now, default, w[0]), w[1]), w[2]), w[3])
  {
    assert w[..4] == w;
    assert w[..3][..2] == w[..2];
    assert w[..2][..1] == w[..1];
    assert w[..1][..0] == [];
    assert DurationAfter(now, default, w[..1]) == Step(now, default, w[0]);
    assert DurationAfter(now, default, w[..2]) == Step(now, DurationAfter(now, default, w[..1]), w[1]);
    assert DurationAfter(now, default, w[..3]) == Step(now, DurationAfter(now, default, w[..2]), w[2]);
  }

  /** `getDuration` for the clock reading `now`. */
  method GetDuration(now: int, default: int, ts: seq<TickerInterval>) returns (cur: int)
    ensures cur == DurationAfter(now, default, ts)
  {
    cur := default;
    for i := 0 to |ts|
      invariant cur == DurationAfter(now, default, ts[..i])
    {
      assert ts[..i + 1][..i] == ts[..i];
      if IsWithin(now, ts[i]) {
        cur := ts[i].interval;
      } else if IsWithin(now + cur, ts[i]) {
        cur := ts[i].till - now;
      }
    }
    assert ts[..|ts|] == ts;
  }

  /** When neither `now` nor `now + default` is in any window, the default is kept. */
  lemma {:induction false} NoWindowKeepsDefault(now: int, default: int, ts: seq<TickerInterval>)
    requires forall i :: 0 <= i < |ts| ==> !IsWithin(now, ts[i]) && !IsWithin(now + default, ts[i])
    ensures DurationAfter(now, default, ts) == default
  {
    if ts != [] {
      NoWindowKeepsDefault(now, default, ts[..|ts| - 1]);
    }
  }

  /** The last window (in list order) that holds `now` decides, unless a later one stretches it. */
  lemma ContainingWindowSets(now: int, default: int, ts: seq<TickerInterval>, k: int)
    requires 0 <= k < |ts| && IsWithin(now, ts[k])
    ensures DurationAfter(now, default, ts[..k + 1]) == ts[k].interval
  {
    assert ts[..k + 1][..k] == ts[..k];
  }

  /**
   * The stretch never shortens: if no window holds `now`, the wait is at
   * least the default.
   */
  lemma {:induction false} LookAheadNeverShortens(now: int, default: int, ts: seq<TickerInterval>)
    requires forall i :: 0 <= i < |ts| ==> !IsWithin(now, ts[i])
    ensures DurationAfter(now, default, ts) >= default
  {
    if ts != [] {
      LookAheadNeverShortens(now, default, ts[..|ts| - 1]);
    }
  }

  /** With a positive default and positive intervals the wait is positive. */
  lemma {:induction false} DurationPositive(now: int, default: int, ts: seq<TickerInterval>)
    requires default > 0
    requires forall i :: 0 <= i < |ts| ==> ts[i].interval > 0
    ensures DurationAfter(now, default, ts) > 0
  {
    if ts != [] {
      DurationPositive(now, default, ts[..|ts| - 1]);
    }
  }

  /**
   * Only the landing instant is tested: when no window holds `now`, any
   * window lying strictly between `now` and `now + default` has ended
   * before the next tick, so it is never polled at its own interval.
   */
  lemma WindowJumpedOver(now: int, default: int, ts: seq<TickerInterval>, w: TickerInterval)
    requires forall i :: 0 <= i < |ts| ==> !IsWithin(now, ts[i])
    requires w in ts && now < w.from && w.till < now + default
    ensures now + DurationAfter(now, default, ts) > w.till
  {
    LookAheadNeverShortens(now, default, ts);
  }

  /**
   * At the boundary D-30m the 15-minute window wins over the 30-minute
   * one, but the look-ahead then stretches the wait across the 5-minute
   * and 1-minute windows up to the deadline itself.
   */
  lemma BoundaryOfDeadline(c: TickerIntervalConfig, default: int)
    requires default >= 0
    ensures var ts := Expand([c]); var now := c.till - 30 * Minute;
      && DurationAfter(now, default, ts[..2]) == 15 * Minute
      && DurationAfter(now, default, ts) == 30 * Minute
  {
    ExpandOne(c);
    var w := Windows(c);
    var now := c.till - 30 * Minute;
    DurationOfTwo(now, default, w);
    DurationOfFour(now, default, w);
  }

  /** Scanning the first two of the windows is two steps. */
  lemma DurationOfTwo(now: int, default: int, w: seq<TickerInterval>)
    requires |w| >= 2
    ensures DurationAfter(now, default, w[..2]) == Step(now, Step(now, default, w[0]), w[1])
  {
    assert w[..2][..1] == [w[0]];
    assert [w[0]][..0] == [];
    assert DurationAfter(now, default, [w[0]]) == Step(now, default, w[0]);
  }

  /**
   * The deadline T with a 30-minute default, decided at T-31m: the
   * 30-minute window holds the clock, the landing instant T-1m lies in the
   * last window, and the stretch makes the wait 31 minutes, so the next
   * tick comes at T itself and the 15-, 5- and 1-minute windows are never
   * polled.
   */
  lemma OvershootAtDeadline(c: TickerIntervalConfig)
    ensures var now := c.till - 31 * Minute;
      && DurationAfter(now, 30 * Minute, Expand([c])) == 31 * Minute
      && now + DurationAfter(now, 30 * Minute, Expand([c])) == c.till
  {
    ExpandOne(c);
    DurationOfFour(c.till - 31 * Minute, 30 * Minute, Windows(c));
  }

  // ----- the look-ahead as the schedule intends it -----

  /**
   * The intended iteration: a window holding `now` sets the wait to its
   * interval; otherwise, when the current wait would carry the clock past
   * the start of a window, the wait is cut so that the tick lands exactly
   * on that start.
   */
  function IntendedStep(now: int, cur: int, w: TickerInterval): int {
    if IsWithin(now, w) then w.interval
    else if now < w.from <= now + cur then w.from - now
    else cur
  }

  function IntendedDurationAfter(now: int, default: int, ts: seq<TickerInterval>): int {
    if ts == [] then default
    else IntendedStep(now, IntendedDurationAfter(now, default, ts[..|ts| - 1]), ts[|ts| - 1])
  }

  lemma IntendedDurationOfFour(now: int, default: int, w: seq<TickerInterval>)
    requires |w| == 4
    ensures IntendedDurationAfter(now, default, w)
      == IntendedStep(now, IntendedStep(now, IntendedStep(now, IntendedStep(now, default, w[0]), w[1]), w[2]), w[3])
  {
    assert w[..4] == w;
    assert w[..3][..2] == w[..2];
    assert w[..2][..1] == w[..1];
    assert w[..1][..0] == [];
    assert IntendedDurationAfter(now, default, w[..1]) == IntendedStep(now, default, w[0]);
    assert IntendedDurationAfter(now, default, w[..2]) == IntendedStep(now, IntendedDurationAfter(now, default, w[..1]), w[1]);
    assert IntendedDurationAfter(now, default, w[..3]) == IntendedStep(now, IntendedDurationAfter(now, default, w[..2]), w[2]);
  }

  /**
   * With the intended look-ahead and no window holding `now`, the wait is
   * positive and no window that starts later is jumped over.
   */
  lemma {:induction false} IntendedNeverSkips(now: int, default: int, ts: seq<TickerInterval>)
    requires default > 0
    requires forall i :: 0 <= i < |ts| ==> !IsWithin(now, ts[i])
    ensures IntendedDurationAfter(now, default, ts) > 0
    ensures forall i :: 0 <= i < |ts| && now < ts[i].from ==> now + IntendedDurationAfter(now, default, ts) <= ts[i].from
  {
    if ts != [] {
      var n := |ts| - 1;
      IntendedNeverSkips(now, default, ts[..n]);
      forall i | 0 <= i < |ts| && now < ts[i].from
        ensures now + IntendedDurationAfter(now, default, ts) <= ts[i].from
      {
        if i < n {
          assert ts[i] == ts[..n][i];
        }
      }
    }
  }

  /** At T-31m with the 30-minute default the intended wait is one minute: the tick lands at T-30m. */
  lemma IntendedAtDeadline(c: TickerIntervalConfig)
    ensures IntendedDurationAfter(c.till - 31 * Minute, 30 * Minute, Expand([c])) == Minute
  {
    ExpandOne(c);
    IntendedDurationOfFour(c.till - 31 * Minute, 30 * Minute, Windows(c));
  }
}
