/**
 How many wrong passwords the login throttle lets through: HandleLogin, server/remote_server.cpp:994-1079,
 over every run of attempts for a name. Both the check and the record read the clock before they take
 the mutex (server/remote_server.cpp:936-937 and 955-956), so the second they use may be an older one.
*/
module LoginAttempts {
  import opened LoginThrottle

  // ----- runs -----

  /** An attempt passes the check, and later, in a critical section of its own, its password turns
      out wrong and is recorded, or right and clears the name; an internal error ends it unrecorded.
      `stamp` is the second read before the mutex, `now` the time under it; `i` says which attempt. */
  datatype Event =
    | Admitted(name: string, stamp: int, now: int)
    | Failed(name: string, i: nat, stamp: int, now: int)
    | Succeeded(name: string, now: int)
    | Abandoned(name: string, i: nat, now: int)

  /** What happened to the name watched: when the attempts under way were admitted, the second recorded
      last and the wrong passwords verified. */
  datatype Track = Track(table: Table, clock: int, under: seq<int>, last: int, failures: nat)

  function Without(under: seq<int>, i: nat): seq<int> { if i < |under| then under[..i] + under[i + 1..] else under }

  function Step(l: Limits, x: string, s: Track, e: Event): Track {
    match e
    case Admitted(name, _, now) => s.(clock := now, under := if name == x then s.under + [now] else s.under)
    case Failed(name, i, stamp, now) =>
      var s1 := s.(clock := now, table := Recorded(l, s.table, name, stamp));
      if name == x then s1.(under := Without(s.under, i), last := stamp, failures := s.failures + 1) else s1
    case Succeeded(name, now) => s.(clock := now, table := s.table - {name})
    case Abandoned(name, i, now) => s.(clock := now, under := if name == x then Without(s.under, i) else s.under)
  }

  /** The step respects the check, keeps at most `width` attempts for x under way, finds room in the
      table, and is no successful login for x. The clock does not go back, and is read for the record
      between admission and recording; `ordered` demands that recorded seconds do not go back either. */
  predicate Legal(l: Limits, x: string, width: nat, ordered: bool, s: Track, e: Event) {
    && e.now >= s.clock
    && match e
       case Admitted(name, stamp, now) =>
         stamp <= now && (name == x ==> Remaining(l, s.table, x, stamp) == 0 && |s.under| < width)
       case Failed(name, i, stamp, now) =>
         && stamp <= now && !Full(s.table, name)
         && (name == x ==> i < |s.under| && s.under[i] <= stamp && (ordered ==> s.last <= stamp))
       case Succeeded(name, _) => name != x
       case Abandoned(name, i, _) => name == x ==> i < |s.under|
  }

  function Run(l: Limits, x: string, start: Track, events: seq<Event>): Track {
    if events == [] then start
    else Step(l, x, Run(l, x, start, events[..|events| - 1]), events[|events| - 1])
  }

  predicate LegalRun(l: Limits, x: string, width: nat, ordered: bool, start: Track, events: seq<Event>) {
    events == []
    || (LegalRun(l, x, width, ordered, start, events[..|events| - 1])
        && Legal(l, x, width, ordered, Run(l, x, start, events[..|events| - 1]), events[|events| - 1]))
  }

  /** Nothing is under way and no series is complete. Runs that begin like this are the subject here;
      LoginStretches is about runs that begin at any moment. */
  predicate AtRest(l: Limits, x: string, s: Track) {
    s.under == [] && s.last <= s.clock && s.failures == 0 && EntryOf(s.table, x).failures < l.maxFailures
  }

  // ----- the bound -----

  /** The series of m failures that `olds` attempts can make possible which were under way before the
      present lockout period: the k-th from the end, recording a second from before the period, lifts
      the lock once more and so ends its own series and those of the k attempts beside it. */
  function Gain(l: Limits, width: nat, olds: nat): nat
    requires Enabled(l) && olds <= width
  {
    if olds == 0 then 0 else Gain(l, width, olds - 1) + 1 + (width - olds) / l.maxFailures
  }

  /** How many series can end in one lockout period. In order, only the one that starts it and those
      that the attempts then under way complete. */
  function SeriesPerPeriod(l: Limits, width: nat, ordered: bool): nat
    requires Enabled(l) && width >= 1
  {
    if ordered then (width - 1) / l.maxFailures + 1 else Gain(l, width, width)
  }

  function PerPeriod(l: Limits, width: nat, ordered: bool): nat
    requires Enabled(l) && width >= 1
  {
    SeriesPerPeriod(l, width, ordered) * l.maxFailures
  }

  /** The most wrong passwords that `seconds` seconds without a success allow from rest. */
  function Most(l: Limits, width: nat, ordered: bool, seconds: nat): nat
    requires Enabled(l) && width >= 1
  {
    (seconds / l.lockoutSeconds) * PerPeriod(l, width, ordered) + l.maxFailures + width - 1
  }

  // ----- counting attempts -----

  /** How many were admitted before t. */
  function Before(under: seq<int>, t: int): (n: nat)
    ensures n <= |under|
  {
    if under == [] then 0
    else Before(under[..|under| - 1], t) + if under[|under| - 1] < t then 1 else 0
  }

  lemma {:induction false} OneGone(under: seq<int>, i: nat, t: int)
    requires i < |under|
    ensures |Without(under, i)| == |under| - 1
    ensures Before(Without(under, i), t) == Before(under, t) - if under[i] < t then 1 else 0
  {
    var n := |under| - 1;
    if i == n {
      assert Without(under, i) == under[..n];
    } else {
      OneGone(under[..n], i, t);
      GoneBeforeLast(under, i);
      OneMoreUnder(Without(under[..n], i), under[n], t);
    }
  }

  lemma GoneBeforeLast(under: seq<int>, i: nat)
    requires i < |under| - 1
    ensures Without(under, i) == Without(under[..|under| - 1], i) + [under[|under| - 1]]
  {
    var n := |under| - 1;
    assert under[..n][..i] == under[..i] && under[i + 1..] == under[..n][i + 1..] + [under[n]];
  }

  lemma OneMoreUnder(under: seq<int>, now: int, t: int)
    ensures Before(under + [now], t) == Before(under, t) + if now < t then 1 else 0
  {
    assert (under + [now])[..|under|] == under;
  }

  predicate NoneBefore(under: seq<int>, start: int) { forall i :: 0 <= i < |under| ==> under[i] >= start }

  /** No second before `start` can be recorded any more while recorded seconds do not go back. */
  predicate Recent(s: Track, start: int) { s.last >= start || NoneBefore(s.under, start) }

  // ----- arithmetic -----

  lemma OneMore(n: nat, p: nat)
    ensures (n + 1) * p == n * p + p
  {}

  lemma Monotone(a: nat, b: nat, p: nat)
    requires a <= b
    ensures a * p <= b * p
  {}

  lemma QuotientBound(n: nat, d: nat)
    requires d > 0
    ensures n < (n / d + 1) * d && n / d >= 0
  {}

  /** Periods that start d seconds apart within n seconds. */
  lemma FewLocks(k: nat, n: nat, d: nat)
    requires d > 0 && k * d <= n
    ensures k <= n / d
  {
    QuotientBound(n, d);
    if k > n / d { Monotone(n / d + 1, k, d); }
  }

  // ----- what every step leaves alone -----

  lemma OtherNamesDoNotMatter(l: Limits, x: string, width: nat, ordered: bool, s: Track, e: Event)
    requires Legal(l, x, width, ordered, s, e) && e.name != x
    ensures
      var n := Step(l, x, s, e);
      && EntryOf(n.table, x) == EntryOf(s.table, x) && (x in s.table <==> x in n.table)
      && n.under == s.under && n.last == s.last && n.failures == s.failures && n.clock == e.now
  {}

  /** The entry of x completes a series. */
  predicate Completes(l: Limits, x: string, s: Track, e: Event) {
    e.Failed? && e.name == x && EntryOf(s.table, x).failures + 1 >= l.maxFailures
  }

  // ----- the bound when recorded seconds do not go back -----

  /** Bookkeeping of the proof: `periods` lockout periods at least L seconds apart, the last begun at
      `begun`; `earlier` failures in series ended before it, `series` series ended since. */
  datatype Books = Books(periods: nat, begun: int, earlier: nat, series: nat)

  /** Whether the last period counted in `b` has run out when second t is recorded. */
  predicate RunOut(l: Limits, b: Books, t: int) { b.periods == 0 || t >= b.begun + l.lockoutSeconds }

  /** Every failure belongs to a series that has ended or to the one being counted. */
  predicate Accounted(l: Limits, x: string, credit: nat, s: Track, b: Books) {
    s.failures + credit == b.earlier + b.series * l.maxFailures + EntryOf(s.table, x).failures
  }

  /** Inside a period nobody is admitted: what fails was under way when it began. */
  predicate Confined(l: Limits, x: string, width: nat, s: Track, b: Books) {
    && b.series >= 1
    && (b.series - 1) * l.maxFailures + EntryOf(s.table, x).failures + Before(s.under, b.begun + l.lockoutSeconds) < width
  }

  predicate Periods(l: Limits, x: string, width: nat, start: int, s: Track, b: Books)
    requires Enabled(l) && width >= 1
  {
    if b.periods == 0 then b.earlier == 0 && b.series == 0
    else
      && b.earlier <= (b.periods - 1) * PerPeriod(l, width, true) && b.series * l.maxFailures <= PerPeriod(l, width, true)
      && start + (b.periods - 1) * l.lockoutSeconds <= b.begun <= s.last
      && x in s.table && s.table[x].lockedUntil >= b.begun + l.lockoutSeconds
  }

  predicate Balanced(l: Limits, x: string, width: nat, start: int, credit: nat, s: Track, b: Books)
    requires Enabled(l) && width >= 1
  {
    && |s.under| <= width && s.last <= s.clock && s.clock >= start && Recent(s, start)
    && EntryOf(s.table, x).failures < l.maxFailures
    && Accounted(l, x, credit, s, b) && Periods(l, x, width, start, s, b)
    && (!RunOut(l, b, s.last) ==> Confined(l, x, width, s, b))
  }

  function NextBooks(l: Limits, x: string, s: Track, e: Event, b: Books): Books
    requires Enabled(l)
  {
    if !Completes(l, x, s, e) then b
    else if !RunOut(l, b, e.stamp) then b.(series := b.series + 1)
    else Books(b.periods + 1, e.stamp, b.earlier + b.series * l.maxFailures, 1)
  }

  lemma StepKeepsBalance(l: Limits, x: string, width: nat, start: int, credit: nat, s: Track, b: Books, e: Event)
    requires Enabled(l) && width >= 1 && Balanced(l, x, width, start, credit, s, b) && Legal(l, x, width, true, s, e)
    ensures Balanced(l, x, width, start, credit, Step(l, x, s, e), NextBooks(l, x, s, e, b))
  {
    if e.name != x {
      OtherNamesDoNotMatter(l, x, width, true, s, e);
    } else {
      match e
      case Admitted(_, stamp, now) => AdmissionBalances(l, x, width, start, credit, s, b, e);
      case Abandoned(_, i, now) => AbandonBalances(l, x, width, start, credit, s, b, e);
      case Failed(_, i, stamp, now) =>
        if !Completes(l, x, s, e) {
          FailureBalances(l, x, width, start, credit, s, b, e);
        } else if RunOut(l, b, stamp) {
          PeriodBegins(l, x, width, start, credit, s, b, e);
        } else {
          SeriesEnds(l, x, width, start, credit, s, b, e);
        }
      case Succeeded(_, _) =>
    }
  }

  lemma AdmissionBalances(l: Limits, x: string, width: nat, start: int, credit: nat, s: Track, b: Books, e: Event)
    requires Enabled(l) && width >= 1 && Balanced(l, x, width, start, credit, s, b) && Legal(l, x, width, true, s, e)
    requires e.Admitted? && e.name == x
    ensures Balanced(l, x, width, start, credit, Step(l, x, s, e), b)
  {
    OneMoreUnder(s.under, e.now, b.begun + l.lockoutSeconds);
  }

  lemma AbandonBalances(l: Limits, x: string, width: nat, start: int, credit: nat, s: Track, b: Books, e: Event)
    requires Enabled(l) && width >= 1 && Balanced(l, x, width, start, credit, s, b) && Legal(l, x, width, true, s, e)
    requires e.Abandoned? && e.name == x
    ensures Balanced(l, x, width, start, credit, Step(l, x, s, e), b)
  {
    OneGone(s.under, e.i, b.begun + l.lockoutSeconds);
  }

  lemma FailureBalances(l: Limits, x: string, width: nat, start: int, credit: nat, s: Track, b: Books, e: Event)
    requires Enabled(l) && width >= 1 && Balanced(l, x, width, start, credit, s, b) && Legal(l, x, width, true, s, e)
    requires e.Failed? && e.name == x && !Completes(l, x, s, e)
    ensures Balanced(l, x, width, start, credit, Step(l, x, s, e), b)
  {
    OneGone(s.under, e.i, b.begun + l.lockoutSeconds);
  }

  lemma PeriodBegins(l: Limits, x: string, width: nat, start: int, credit: nat, s: Track, b: Books, e: Event)
    requires Enabled(l) && width >= 1 && Balanced(l, x, width, start, credit, s, b) && Legal(l, x, width, true, s, e)
    requires Completes(l, x, s, e) && RunOut(l, b, e.stamp)
    ensures Balanced(l, x, width, start, credit, Step(l, x, s, e),
                     Books(b.periods + 1, e.stamp, b.earlier + b.series * l.maxFailures, 1))
  {
    if b.periods > 0 {
      OneMore(b.periods - 1, PerPeriod(l, width, true));
      OneMore(b.periods - 1, l.lockoutSeconds);
    }
    SeriesFit(l, width, 1);
    OneGone(s.under, e.i, e.stamp + l.lockoutSeconds);
  }

  lemma SeriesEnds(l: Limits, x: string, width: nat, start: int, credit: nat, s: Track, b: Books, e: Event)
    requires Enabled(l) && width >= 1 && Balanced(l, x, width, start, credit, s, b) && Legal(l, x, width, true, s, e)
    requires Completes(l, x, s, e) && !RunOut(l, b, e.stamp)
    ensures Balanced(l, x, width, start, credit, Step(l, x, s, e), b.(series := b.series + 1))
  {
    var m, over := l.maxFailures, b.begun + l.lockoutSeconds;
    OneGone(s.under, e.i, over);
    OneMore(b.series, m);
    OneMore(b.series - 1, m);
    assert b.series * m + Before(Without(s.under, e.i), over) < width;
    SeriesFit(l, width, b.series + 1);
  }

  /** As many series as leave the last attempt's place inside the width. */
  lemma SeriesFit(l: Limits, width: nat, series: nat)
    requires Enabled(l) && width >= 1 && series >= 1 && (series - 1) * l.maxFailures < width
    ensures series * l.maxFailures <= PerPeriod(l, width, true)
  {
    FewLocks(series - 1, width - 1, l.maxFailures);
    Monotone(series, SeriesPerPeriod(l, width, true), l.maxFailures);
  }

  lemma {:induction false} RunStaysBalanced(l: Limits, x: string, width: nat, start: Track, events: seq<Event>) returns (b: Books)
    requires Enabled(l) && width >= 1 && AtRest(l, x, start) && LegalRun(l, x, width, true, start, events)
    ensures Balanced(l, x, width, start.clock, EntryOf(start.table, x).failures, Run(l, x, start, events), b)
  {
    var credit := EntryOf(start.table, x).failures;
    if events == [] {
      b := Books(0, 0, 0, 0);
    } else {
      var before := events[..|events| - 1];
      b := RunStaysBalanced(l, x, width, start, before);
      StepKeepsBalance(l, x, width, start.clock, credit, Run(l, x, start, before), b, events[|events| - 1]);
      b := NextBooks(l, x, Run(l, x, start, before), events[|events| - 1], b);
    }
  }

  lemma BalancedIsBounded(l: Limits, x: string, width: nat, start: int, credit: nat, s: Track, b: Books, seconds: nat)
    requires Enabled(l) && width >= 1 && Balanced(l, x, width, start, credit, s, b) && s.clock <= start + seconds
    ensures s.failures + credit <= Most(l, width, true, seconds)
  {
    var turns, each := seconds / l.lockoutSeconds, PerPeriod(l, width, true);
    QuotientBound(seconds, l.lockoutSeconds);
    if b.periods == 0 {
    } else if RunOut(l, b, s.last) {
      OneMore(b.periods - 1, l.lockoutSeconds);
      OneMore(b.periods - 1, each);
      FewLocks(b.periods, seconds, l.lockoutSeconds);
      Monotone(b.periods, turns, each);
    } else {
      FewLocks(b.periods - 1, seconds, l.lockoutSeconds);
      Monotone(b.periods - 1, turns, each);
      OneMore(b.series - 1, l.maxFailures);
    }
  }

  // ----- the bound when they may -----

  /** Time falls into windows of L seconds. In window `window` an attempt admitted before it may still
      record an older second and so cut a lock short; every other completed series locks the name to
      the end of the window. While it is locked, `base` series had ended when it was unlocked last, with
      `olds` such attempts under way. */
  datatype Ledger = Ledger(window: nat, series: nat, locked: bool, base: nat, olds: nat)

  function Opening(l: Limits, start: int, window: nat): int { start + window * l.lockoutSeconds }

  function Budget(l: Limits, width: nat, window: nat): nat
    requires Enabled(l) && width >= 1
  {
    window * SeriesPerPeriod(l, width, false)
  }

  /** Unlocked: the series so far and those the old attempts can still bring. */
  predicate Affordable(l: Limits, width: nat, window: nat, series: nat, olds: nat)
    requires Enabled(l) && width >= 1
  {
    olds <= width && series + Gain(l, width, olds) <= Budget(l, width, window)
  }

  /** Locked to the end of the window: only attempts already under way can fail. */
  predicate Shut(l: Limits, x: string, width: nat, opening: int, s: Track, g: Ledger) {
    && x in s.table && s.table[x].lockedUntil >= opening + l.lockoutSeconds
    && g.series > g.base && (g.series - g.base - 1) * l.maxFailures + EntryOf(s.table, x).failures + |s.under| < width
    && Before(s.under, opening) <= g.olds
  }

  predicate Kept(l: Limits, x: string, width: nat, start: int, credit: nat, s: Track, g: Ledger)
    requires Enabled(l) && width >= 1
  {
    var opening := Opening(l, start, g.window);
    && |s.under| <= width && EntryOf(s.table, x).failures < l.maxFailures
    && s.failures + credit == g.series * l.maxFailures + EntryOf(s.table, x).failures
    && opening <= s.clock < opening + l.lockoutSeconds
    && if g.locked then Affordable(l, width, g.window, g.base, g.olds) && Shut(l, x, width, opening, s, g)
       else Affordable(l, width, g.window, g.series, Before(s.under, opening))
  }

  lemma {:induction false} GainGrows(l: Limits, width: nat, a: nat, b: nat)
    requires Enabled(l) && a <= b <= width
    ensures Gain(l, width, a) <= Gain(l, width, b)
  {
    if a < b { GainGrows(l, width, a, b - 1); }
  }

  /** Ending a lock takes an old attempt, and with `left` of them remaining no more than the others'
      places have been used. */
  lemma LockPays(l: Limits, width: nat, base: nat, series: nat, olds: nat, left: nat)
    requires Enabled(l) && left < olds <= width && series > base && (series - base - 1) * l.maxFailures + left < width
    ensures series + Gain(l, width, left) <= base + Gain(l, width, olds)
  {
    FewLocks(series - base - 1, width - 1 - left, l.maxFailures);
    GainGrows(l, width, left + 1, olds);
  }

  /** A later window: whoever is under way is old now, and one more period is paid for. */
  lemma WindowOpens(l: Limits, x: string, width: nat, start: int, credit: nat, s: Track, g: Ledger, later: nat)
    requires Enabled(l) && width >= 1 && Kept(l, x, width, start, credit, s, g) && later > g.window
    ensures Affordable(l, width, later, g.series, Before(s.under, Opening(l, start, later)))
  {
    var olds := Before(s.under, Opening(l, start, later));
    if g.locked {
      LockEndsWithWindow(l, width, g, later, |s.under|, olds);
    } else {
      NextWindowPays(l, width, g.window, later, g.series, Before(s.under, Opening(l, start, g.window)), olds);
    }
  }

  lemma NextWindowPays(l: Limits, width: nat, window: nat, later: nat, series: nat, before: nat, olds: nat)
    requires Enabled(l) && width >= 1 && Affordable(l, width, window, series, before) && later > window && olds <= width
    ensures Affordable(l, width, later, series, olds)
  {
    BudgetGrows(l, width, window, later);
    GainGrows(l, width, olds, width);
  }

  lemma LockEndsWithWindow(l: Limits, width: nat, g: Ledger, later: nat, underWay: nat, olds: nat)
    requires Enabled(l) && width >= 1 && Affordable(l, width, g.window, g.base, g.olds) && later > g.window
    requires g.series > g.base && (g.series - g.base - 1) * l.maxFailures + underWay < width && olds <= underWay
    ensures Affordable(l, width, later, g.series, olds)
  {
    Underway(g.series - g.base - 1, l.maxFailures, underWay, width);
    BudgetGrows(l, width, g.window, later);
    LockPays(l, width, g.base, g.series, width, underWay);
    GainGrows(l, width, olds, underWay);
  }

  lemma Underway(a: nat, m: nat, underWay: nat, width: nat)
    requires a * m + underWay < width
    ensures underWay < width
  {
    Monotone(0, a, m);
  }

  lemma BudgetGrows(l: Limits, width: nat, a: nat, b: nat)
    requires Enabled(l) && width >= 1 && a < b
    ensures Budget(l, width, a) + Gain(l, width, width) <= Budget(l, width, b)
  {
    OneMore(a, Gain(l, width, width));
    Monotone(a + 1, b, Gain(l, width, width));
  }

  function WindowOf(l: Limits, start: int, now: int): nat
    requires Enabled(l) && now >= start
  {
    (now - start) / l.lockoutSeconds
  }

  lemma WindowContains(l: Limits, start: int, now: int)
    requires Enabled(l) && now >= start
    ensures
      var opening := Opening(l, start, WindowOf(l, start, now));
      opening <= now < opening + l.lockoutSeconds
  {
    var d := now - start;
    assert d == d / l.lockoutSeconds * l.lockoutSeconds + d % l.lockoutSeconds;
  }

  /** The ledger at a later time at which nothing has happened yet. */
  lemma ClockMoves(l: Limits, x: string, width: nat, start: int, credit: nat, s: Track, g: Ledger, now: int) returns (n: Ledger)
    requires Enabled(l) && width >= 1 && Kept(l, x, width, start, credit, s, g) && s.clock >= start && now >= s.clock
    ensures Kept(l, x, width, start, credit, s.(clock := now), n)
  {
    var later := WindowOf(l, start, now);
    WindowContains(l, start, now);
    if now < Opening(l, start, g.window) + l.lockoutSeconds {
      n := g;
    } else {
      LaterWindow(l, start, g.window, later, now);
      WindowOpens(l, x, width, start, credit, s, g, later);
      n := Ledger(later, g.series, false, 0, 0);
    }
  }

  lemma LaterWindow(l: Limits, start: int, window: nat, later: nat, now: int)
    requires Enabled(l) && Opening(l, start, window) + l.lockoutSeconds <= now < Opening(l, start, later) + l.lockoutSeconds
    ensures later > window
  {
    if later <= window { Monotone(later, window, l.lockoutSeconds); }
  }

  /** A failure of x under the ledger of its own second. */
  lemma FailureKept(l: Limits, x: string, width: nat, start: int, credit: nat, s: Track, g: Ledger, e: Event) returns (n: Ledger)
    requires Enabled(l) && width >= 1 && Kept(l, x, width, start, credit, s, g) && s.clock == e.now
    requires e.Failed? && e.name == x && Legal(l, x, width, false, s, e)
    ensures Kept(l, x, width, start, credit, Step(l, x, s, e), n)
  {
    var opening := Opening(l, start, g.window);
    var olds := Before(s.under, opening);
    OneGone(s.under, e.i, opening);
    if !Completes(l, x, s, e) {
      n := g;
      if !g.locked { GainGrows(l, width, Before(Without(s.under, e.i), opening), olds); }
    } else if e.stamp >= opening {
      n := SeriesLocks(l, x, width, start, credit, s, g, e);
    } else {
      n := OldLifts(l, x, width, start, credit, s, g, e);
    }
  }

  /** A series ended in a second of this window: locked to its end. */
  lemma SeriesLocks(l: Limits, x: string, width: nat, start: int, credit: nat, s: Track, g: Ledger, e: Event) returns (n: Ledger)
    requires Enabled(l) && width >= 1 && Kept(l, x, width, start, credit, s, g) && s.clock == e.now
    requires Completes(l, x, s, e) && Legal(l, x, width, false, s, e) && e.stamp >= Opening(l, start, g.window)
    ensures Kept(l, x, width, start, credit, Step(l, x, s, e), n)
  {
    var opening := Opening(l, start, g.window);
    OneGone(s.under, e.i, opening);
    OneMore(g.series, l.maxFailures);
    if g.locked {
      OneMore(g.series - g.base - 1, l.maxFailures);
      n := g.(series := g.series + 1);
    } else {
      n := Ledger(g.window, g.series + 1, true, g.series, Before(s.under, opening));
    }
  }

  /** A series ended by an old attempt: the lock, if any, may be over. */
  lemma OldLifts(l: Limits, x: string, width: nat, start: int, credit: nat, s: Track, g: Ledger, e: Event) returns (n: Ledger)
    requires Enabled(l) && width >= 1 && Kept(l, x, width, start, credit, s, g) && s.clock == e.now
    requires Completes(l, x, s, e) && Legal(l, x, width, false, s, e) && e.stamp < Opening(l, start, g.window)
    ensures Kept(l, x, width, start, credit, Step(l, x, s, e), n)
  {
    OneGone(s.under, e.i, Opening(l, start, g.window));
    OneMore(g.series, l.maxFailures);
    n := Ledger(g.window, g.series + 1, false, 0, 0);
    if g.locked {
      LiftPays(l, x, width, start, credit, s, g, e);
    } else {
      OldPays(l, width, g.window, g.series, Before(s.under, Opening(l, start, g.window)));
    }
  }

  lemma OldPays(l: Limits, width: nat, window: nat, series: nat, olds: nat)
    requires Enabled(l) && width >= 1 && olds >= 1 && Affordable(l, width, window, series, olds)
    ensures Affordable(l, width, window, series + 1, olds - 1)
  {
    QuotientBound(width - olds, l.maxFailures);
  }

  lemma LiftPays(l: Limits, x: string, width: nat, start: int, credit: nat, s: Track, g: Ledger, e: Event)
    requires Enabled(l) && width >= 1 && Kept(l, x, width, start, credit, s, g) && g.locked
    requires Completes(l, x, s, e) && e.i < |s.under| && s.under[e.i] < Opening(l, start, g.window)
    ensures Affordable(l, width, g.window, g.series + 1, Before(Without(s.under, e.i), Opening(l, start, g.window)))
  {
    var left := Before(Without(s.under, e.i), Opening(l, start, g.window));
    OneGone(s.under, e.i, Opening(l, start, g.window));
    OneMore(g.series - g.base - 1, l.maxFailures);
    assert (g.series - g.base) * l.maxFailures + left < width;
    LockPays(l, width, g.base, g.series + 1, g.olds, left);
  }

  lemma StepIsKept(l: Limits, x: string, width: nat, start: int, credit: nat, s: Track, g: Ledger, e: Event) returns (n: Ledger)
    requires Enabled(l) && width >= 1 && Kept(l, x, width, start, credit, s, g) && s.clock >= start
    requires Legal(l, x, width, false, s, e)
    ensures Kept(l, x, width, start, credit, Step(l, x, s, e), n) && Step(l, x, s, e).clock >= start
  {
    var m := ClockMoves(l, x, width, start, credit, s, g, e.now);
    var opening := Opening(l, start, m.window);
    n := m;
    if e.name != x {
      OtherNamesDoNotMatter(l, x, width, false, s, e);
    } else {
      match e
      case Admitted(_, stamp, now) => OneMoreUnder(s.under, now, opening);
      case Abandoned(_, i, now) =>
        OneGone(s.under, i, opening);
        if !m.locked { GainGrows(l, width, Before(Without(s.under, i), opening), Before(s.under, opening)); }
      case Failed(_, i, stamp, now) =>
        n := FailureKept(l, x, width, start, credit, s.(clock := now), m, e);
      case Succeeded(_, _) =>
    }
  }

  lemma {:induction false} RunIsKept(l: Limits, x: string, width: nat, start: Track, events: seq<Event>) returns (g: Ledger)
    requires Enabled(l) && width >= 1 && AtRest(l, x, start) && LegalRun(l, x, width, false, start, events)
    ensures Kept(l, x, width, start.clock, EntryOf(start.table, x).failures, Run(l, x, start, events), g)
    ensures Run(l, x, start, events).clock >= start.clock
  {
    if events == [] {
      g := Ledger(0, 0, false, 0, 0);
    } else {
      var before := events[..|events| - 1];
      g := RunIsKept(l, x, width, start, before);
      g := StepIsKept(l, x, width, start.clock, EntryOf(start.table, x).failures, Run(l, x, start, before), g, events[|events| - 1]);
    }
  }

  lemma KeptIsBounded(l: Limits, x: string, width: nat, start: int, credit: nat, s: Track, g: Ledger, seconds: nat)
    requires Enabled(l) && width >= 1 && Kept(l, x, width, start, credit, s, g) && s.clock <= start + seconds
    ensures s.failures + credit <= Most(l, width, false, seconds)
  {
    var turns, each, m := seconds / l.lockoutSeconds, SeriesPerPeriod(l, width, false), l.maxFailures;
    QuotientBound(seconds, l.lockoutSeconds);
    FewLocks(g.window, seconds, l.lockoutSeconds);
    Monotone(g.window, turns, each);
    Monotone(if g.locked then g.base else g.series, turns * each, m);
    Regrouped(turns, each, m);
    if g.locked { SeriesApart(g.series - g.base - 1, g.base, m); }
  }

  lemma Regrouped(a: nat, b: nat, c: nat)
    ensures a * b * c == a * (b * c)
  {}

  lemma SeriesApart(a: nat, b: nat, m: nat)
    ensures (a + b + 1) * m == a * m + b * m + m
  {}

  /** From a moment with nothing under way for a name, and never more than `width` attempts at once,
      `seconds` seconds without a successful login verify at most `Most` wrong passwords, counting those
      already held against the name. */
  lemma FromRestIsBounded(l: Limits, x: string, width: nat, ordered: bool, start: Track, events: seq<Event>, seconds: nat)
    requires Enabled(l) && width >= 1 && AtRest(l, x, start) && LegalRun(l, x, width, ordered, start, events)
    requires Run(l, x, start, events).clock <= start.clock + seconds
    ensures Run(l, x, start, events).failures + EntryOf(start.table, x).failures <= Most(l, width, ordered, seconds)
  {
    var credit, s := EntryOf(start.table, x).failures, Run(l, x, start, events);
    if ordered {
      var b := RunStaysBalanced(l, x, width, start, events);
      BalancedIsBounded(l, x, width, start.clock, credit, s, b, seconds);
    } else {
      var g := RunIsKept(l, x, width, start, events);
      KeptIsBounded(l, x, width, start.clock, credit, s, g, seconds);
    }
  }
}
