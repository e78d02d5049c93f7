/** The bounds of LoginAttempts and LoginStretches are reached, and what follows for the plain bound. */
module WorstAttempts {
  import opened LoginThrottle
  import opened LoginAttempts
  import opened LoginStretches
  import opened LoginSchedules

  const EMPTY_TRACK := Track(map[], 0, [], 0, 0)

  /** For all limits, widths and durations some run that begins with nothing under way verifies exactly
      that many wrong passwords. */
  lemma FromRestIsReached(l: Limits, x: string, width: nat, ordered: bool, seconds: nat) returns (events: seq<Event>)
    requires Enabled(l) && width >= 1
    ensures AtRest(l, x, EMPTY_TRACK) && LegalRun(l, x, width, ordered, EMPTY_TRACK, events)
    ensures Run(l, x, EMPTY_TRACK, events).clock <= seconds
    ensures Run(l, x, EMPTY_TRACK, events).failures == Most(l, width, ordered, seconds)
  {
    var v, m := Scene(l, x, width, ordered, EMPTY_TRACK), l.maxFailures;
    var so := FailInTurn(v, [], 0, Spot(UNKNOWN, [], 0), m - 1);
    events := WorstRest(v, so, 0, Entry(m - 1, 0), m - 1, seconds);
  }

  /** The bound that ignores overlapping attempts: m * (T / L + 1) + (m - 1). */
  function Plain(l: Limits, seconds: nat): nat
    requires Enabled(l)
  {
    (seconds / l.lockoutSeconds) * l.maxFailures + l.maxFailures + (l.maxFailures - 1)
  }

  /** In every run from rest no more than `limit` wrong passwords are verified. */
  ghost predicate KeepsFromRest(l: Limits, width: nat, ordered: bool, seconds: nat, limit: nat) {
    forall x: string, start: Track, events: seq<Event> ::
      AtRest(l, x, start) && LegalRun(l, x, width, ordered, start, events)
      && Run(l, x, start, events).clock <= start.clock + seconds
      ==> Run(l, x, start, events).failures <= limit
  }

  lemma KeepsFromRestExactly(l: Limits, width: nat, ordered: bool, seconds: nat, limit: nat)
    requires Enabled(l) && width >= 1
    ensures KeepsFromRest(l, width, ordered, seconds, limit) <==> Most(l, width, ordered, seconds) <= limit
  {
    if Most(l, width, ordered, seconds) <= limit {
      forall x: string, start: Track, events: seq<Event> |
        AtRest(l, x, start) && LegalRun(l, x, width, ordered, start, events)
        && Run(l, x, start, events).clock <= start.clock + seconds
        ensures Run(l, x, start, events).failures <= limit
      {
        FromRestIsBounded(l, x, width, ordered, start, events, seconds);
      }
    } else {
      var events := FromRestIsReached(l, "", width, ordered, seconds);
    }
  }

  /** From rest, the bound that ignores overlap is kept exactly where attempts do not overlap, or no more overlap than
      failures are allowed and no older second is recorded after a newer one, or the time is shorter
      than a lockout. */
  lemma PlainBoundFromRestExactly(l: Limits, width: nat, ordered: bool, seconds: nat)
    requires Enabled(l) && width >= 1
    ensures KeepsFromRest(l, width, ordered, seconds, Plain(l, seconds))
            <==> width == 1 || (width <= l.maxFailures && (ordered || seconds < l.lockoutSeconds))
  {
    KeepsFromRestExactly(l, width, ordered, seconds, Plain(l, seconds));
    var turns, m, k := seconds / l.lockoutSeconds, l.maxFailures, SeriesPerPeriod(l, width, ordered);
    FewTurns(seconds, l.lockoutSeconds);
    SeriesAtLeast(l, width, ordered);
    if k == 1 {
    } else {
      Monotone(2, k, m);
      if turns > 0 { MonotoneRight(turns, 2 * m, k * m); Twice(turns, m); }
    }
  }

  lemma FewTurns(n: nat, d: nat)
    requires d > 0
    ensures n / d == 0 <==> n < d
    ensures n / d >= 0
  {
    QuotientBound(n, d);
    if n >= d { FewLocks(1, n, d); }
  }

  /** One series per period exactly without overlap, or in order and within the limit. */
  lemma SeriesAtLeast(l: Limits, width: nat, ordered: bool)
    requires Enabled(l) && width >= 1
    ensures SeriesPerPeriod(l, width, ordered) >= 1
    ensures SeriesPerPeriod(l, width, ordered) == 1 <==> width == 1 || (ordered && width <= l.maxFailures)
  {
    FewTurns(width - 1, l.maxFailures);
    if !ordered {
      QuotientBound(0, l.maxFailures);
      if width >= 2 {
        GainGrows(l, width, 1, width - 1);
        assert Gain(l, width, 1) == Gain(l, width, 0) + 1 + (width - 1) / l.maxFailures;
      } else {
        assert Gain(l, width, 1) == Gain(l, width, 0) + 1 + 0 / l.maxFailures;
        Divided(0, l.maxFailures, 0, 0);
      }
    }
  }

  lemma MonotoneRight(p: nat, a: nat, b: nat)
    requires a <= b
    ensures p * a <= p * b
  {}

  lemma Twice(turns: nat, m: nat)
    requires turns > 0
    ensures turns * (2 * m) >= turns * m + m
  {
    Monotone(1, turns, m);
  }

  /** The shipped configuration (include/remote_server.h:95-100): a worker serves one connection, so no
      more attempts overlap than there are workers. */
  const DEFAULT_LIMITS := Limits(5, 60)
  const DEFAULT_WORKERS: nat := 4

  lemma DefaultsFromRestExactly(ordered: bool, seconds: nat)
    ensures KeepsFromRest(DEFAULT_LIMITS, DEFAULT_WORKERS, ordered, seconds, Plain(DEFAULT_LIMITS, seconds))
            <==> ordered || seconds < 60
  {
    PlainBoundFromRestExactly(DEFAULT_LIMITS, DEFAULT_WORKERS, ordered, seconds);
  }

  /** With no more attempts than failures allowed, each of them is worth a whole series per period. */
  lemma {:induction false} OneSeriesEach(l: Limits, width: nat, olds: nat)
    requires Enabled(l) && olds <= width <= l.maxFailures
    ensures Gain(l, width, olds) == olds
  {
    if olds > 0 {
      OneSeriesEach(l, width, olds - 1);
      Divided(width - olds, l.maxFailures, 0, width - olds);
    }
  }

  /** From rest, the shipped limits let 28 wrong passwords through within a minute, where the plain bound is 14. */
  lemma DefaultsFromRestInAMinute()
    ensures Most(DEFAULT_LIMITS, DEFAULT_WORKERS, false, 60) == 28 && Plain(DEFAULT_LIMITS, 60) == 14
  {
    OneSeriesEach(DEFAULT_LIMITS, DEFAULT_WORKERS, DEFAULT_WORKERS);
  }

  // ----- any stretch -----

  /** `held` failures are held against x, whose whole width was admitted a lockout period ago. */
  predicate Stalled(l: Limits, x: string, width: nat, held: nat, s: Track) {
    && s.table.Keys <= {x} && EntryOf(s.table, x) == Entry(held, 0) && s.under == Copies(width, 0)
    && s.last <= 0 && s.clock == l.lockoutSeconds && s.failures == 0
  }

  lemma StalledStart(l: Limits, x: string, width: nat, ordered: bool, held: nat) returns (before: seq<Event>)
    requires Enabled(l) && width >= 1 && held < l.maxFailures
    ensures LegalRun(l, x, width, ordered, EMPTY_TRACK, before)
    ensures Stalled(l, x, width, held, Run(l, x, EMPTY_TRACK, before).(failures := 0))
  {
    var v := Scene(l, x, width, ordered, EMPTY_TRACK);
    before := FailInTurn(v, [], 0, Spot(UNKNOWN, [], 0), held);
    before := AdmitMany(v, before, 0, Spot(Entry(held, 0), [], held), width);
    assert [] + Copies(width, 0) == Copies(width, 0);
    before := Wait(v, before, 0, l.lockoutSeconds, Spot(Entry(held, 0), Copies(width, 0), held));
  }

  /** In order: all who are under way record their old second and leave no failure held. */
  lemma StaleThenWorst(v: Scene, held: nat, seconds: nat) returns (more: seq<Event>)
    requires Set(v) && v.ordered && Stalled(v.l, v.x, v.width, held, v.start)
    requires held < v.l.maxFailures && (held + v.width) % v.l.maxFailures == 0
    ensures Played(v, more) && End(v, more).clock <= v.l.lockoutSeconds + seconds
    ensures End(v, more).failures == MostInStretch(v.l, v.width, true, seconds)
  {
    var l, now := v.l, v.l.lockoutSeconds;
    var after := After(l, Entry(held, 0), v.width, 0);
    assert [] + Copies(v.width, 0) == Copies(v.width, 0);
    more := FailMany(v, [], 0, now, Spot(Entry(held, 0), [], 0), v.width);
    more := FailInTurn(v, more, now, Spot(after, [], v.width), l.maxFailures - 1);
    more := WorstRest(v, more, now, Entry(l.maxFailures - 1, after.lockedUntil), v.width + l.maxFailures - 1, seconds);
  }

  /** Out of order: each of them lifts a lock. */
  lemma LiftThenWorst(v: Scene, seconds: nat) returns (more: seq<Event>)
    requires Set(v) && !v.ordered && Stalled(v.l, v.x, v.width, v.l.maxFailures - 1, v.start)
    ensures Played(v, more) && End(v, more).clock <= v.l.lockoutSeconds + seconds
    ensures End(v, more).failures == MostInStretch(v.l, v.width, false, seconds)
  {
    var l, now, e := v.l, v.l.lockoutSeconds, Entry(v.l.maxFailures - 1, 0);
    var f;
    more, f := LiftAll(v, [], now, e, v.width, 0);
    more := WorstRest(v, more, now, f, PerPeriod(l, v.width, false), seconds);
    OneMore(seconds / l.lockoutSeconds, PerPeriod(l, v.width, false));
  }

  /** The failures which those who fill the width complete to whole series. */
  function Missing(l: Limits, width: nat): (held: nat)
    requires Enabled(l) && width >= 1
    ensures held < l.maxFailures
  {
    l.maxFailures - 1 - (width - 1) % l.maxFailures
  }

  lemma MissingCompletes(l: Limits, width: nat)
    requires Enabled(l) && width >= 1
    ensures Missing(l, width) + width == PerPeriod(l, width, true) && (Missing(l, width) + width) % l.maxFailures == 0
  {
    var m, q := l.maxFailures, (width - 1) / l.maxFailures;
    assert width - 1 == q * m + (width - 1) % m;
    OneMore(q, m);
    Divided((q + 1) * m, m, q + 1, 0);
  }

  /** For all limits, widths and durations a run of the server has a stretch that records exactly that
      many wrong passwords, and no more are possible with those held against the name before it. */
  lemma TheBoundIsReached(l: Limits, x: string, width: nat, ordered: bool, seconds: nat)
    returns (before: seq<Event>, more: seq<Event>)
    requires Enabled(l) && width >= 1
    ensures AtRest(l, x, EMPTY_TRACK) && LegalRun(l, x, width, ordered, EMPTY_TRACK, before)
    ensures
      var start := Run(l, x, EMPTY_TRACK, before).(failures := 0);
      && Midway(l, x, width, start) && LegalRun(l, x, width, ordered, start, more)
      && Run(l, x, start, more).clock <= start.clock + seconds
      && Run(l, x, start, more).failures == MostInStretch(l, width, ordered, seconds)
      && Run(l, x, start, more).failures + EntryOf(start.table, x).failures
         == Most(l, width, ordered, seconds + l.lockoutSeconds)
  {
    before := StalledStart(l, x, width, ordered, HeldAtWorst(l, width, ordered));
    more := WorstStretch(Scene(l, x, width, ordered, Run(l, x, EMPTY_TRACK, before).(failures := 0)), seconds);
  }

  function HeldAtWorst(l: Limits, width: nat, ordered: bool): (held: nat)
    requires Enabled(l) && width >= 1
    ensures held < l.maxFailures
  {
    if ordered then Missing(l, width) else l.maxFailures - 1
  }

  lemma WorstStretch(v: Scene, seconds: nat) returns (more: seq<Event>)
    requires Set(v) && Stalled(v.l, v.x, v.width, HeldAtWorst(v.l, v.width, v.ordered), v.start)
    ensures Played(v, more) && End(v, more).clock <= v.l.lockoutSeconds + seconds
    ensures End(v, more).failures == MostInStretch(v.l, v.width, v.ordered, seconds)
    ensures End(v, more).failures + HeldAtWorst(v.l, v.width, v.ordered)
            == Most(v.l, v.width, v.ordered, seconds + v.l.lockoutSeconds)
  {
    HeldMakesUp(v.l, v.width, v.ordered, seconds);
    if v.ordered {
      MissingCompletes(v.l, v.width);
      more := StaleThenWorst(v, Missing(v.l, v.width), seconds);
    } else {
      more := LiftThenWorst(v, seconds);
    }
  }

  lemma HeldMakesUp(l: Limits, width: nat, ordered: bool, seconds: nat)
    requires Enabled(l) && width >= 1
    ensures MostInStretch(l, width, ordered, seconds) + HeldAtWorst(l, width, ordered)
            == Most(l, width, ordered, seconds + l.lockoutSeconds)
  {
    OnePeriodMore(l, width, ordered, seconds);
    if ordered { MissingCompletes(l, width); }
  }

  /** From every moment of every run, `seconds` seconds record no more than `limit` wrong passwords. */
  ghost predicate Keeps(l: Limits, width: nat, ordered: bool, seconds: nat, limit: nat) {
    forall x: string, start: Track, events: seq<Event> ::
      Midway(l, x, width, start) && LegalRun(l, x, width, ordered, start, events)
      && Run(l, x, start, events).clock <= start.clock + seconds
      ==> Run(l, x, start, events).failures <= limit
  }

  lemma KeepsExactly(l: Limits, width: nat, ordered: bool, seconds: nat, limit: nat)
    requires Enabled(l) && width >= 1
    ensures Keeps(l, width, ordered, seconds, limit) <==> MostInStretch(l, width, ordered, seconds) <= limit
  {
    if MostInStretch(l, width, ordered, seconds) <= limit {
      forall x: string, start: Track, events: seq<Event> |
        Midway(l, x, width, start) && LegalRun(l, x, width, ordered, start, events)
        && Run(l, x, start, events).clock <= start.clock + seconds
        ensures Run(l, x, start, events).failures <= limit
      {
        WrongPasswordsAreBounded(l, x, width, ordered, start, events, seconds);
      }
    } else {
      var before, more := TheBoundIsReached(l, "", width, ordered, seconds);
    }
  }

  /** In every stretch the bound that ignores overlap is kept exactly where twice as many attempts as can
      overlap stay within the limit, and none overlap or no older second is recorded after a newer one. */
  lemma PlainBoundIsKeptExactly(l: Limits, width: nat, ordered: bool, seconds: nat)
    requires Enabled(l) && width >= 1
    ensures Keeps(l, width, ordered, seconds, Plain(l, seconds)) <==> 2 * width <= l.maxFailures && (ordered || width == 1)
  {
    KeepsExactly(l, width, ordered, seconds, Plain(l, seconds));
    var turns, m, k := seconds / l.lockoutSeconds, l.maxFailures, SeriesPerPeriod(l, width, ordered);
    FewTurns(seconds, l.lockoutSeconds);
    SeriesAtLeast(l, width, ordered);
    OneMore(turns, k * m);
    OneMore(turns, m);
    if k >= 2 {
      Monotone(2, k, m);
      MonotoneRight(turns, m, k * m);
    }
  }

  /** The shipped configuration never keeps it: stretches of no time at all, and of a minute. */
  lemma DefaultsBreakThePlainBound(ordered: bool, seconds: nat)
    ensures !Keeps(DEFAULT_LIMITS, DEFAULT_WORKERS, ordered, seconds, Plain(DEFAULT_LIMITS, seconds))
    ensures MostInStretch(DEFAULT_LIMITS, DEFAULT_WORKERS, ordered, 0) == (if ordered then 12 else 24)
    ensures MostInStretch(DEFAULT_LIMITS, DEFAULT_WORKERS, ordered, 60) == (if ordered then 17 else 44)
    ensures Plain(DEFAULT_LIMITS, 0) == 9 && Plain(DEFAULT_LIMITS, 60) == 14
  {
    PlainBoundIsKeptExactly(DEFAULT_LIMITS, DEFAULT_WORKERS, ordered, seconds);
    OneSeriesEach(DEFAULT_LIMITS, DEFAULT_WORKERS, DEFAULT_WORKERS);
  }
}
