/** The same bound for any stretch of the server's life: it may begin with attempts under way that were
    admitted, or have read the clock, long before. */
module LoginStretches {
  import opened LoginThrottle
  import opened LoginAttempts

  /** Any moment of any run, from which failures are counted: up to `width` attempts of any age are under
      way, the name may be locked or have failures held against it. */
  predicate Midway(l: Limits, x: string, width: nat, s: Track) {
    |s.under| <= width && s.last <= s.clock && s.failures == 0 && EntryOf(s.table, x).failures < l.maxFailures
  }

  /** Every state of a run is one, also when a login succeeds there. */
  lemma {:induction false} EveryMomentIsMidway(l: Limits, x: string, width: nat, ordered: bool, start: Track, events: seq<Event>)
    requires Enabled(l) && Midway(l, x, width, start) && LegalRun(l, x, width, ordered, start, events)
    ensures
      var s := Run(l, x, start, events).(failures := 0);
      Midway(l, x, width, s) && Midway(l, x, width, s.(table := s.table - {x}))
  {
    if events != [] {
      var before, e := events[..|events| - 1], events[|events| - 1];
      EveryMomentIsMidway(l, x, width, ordered, start, before);
      if e.name == x && (e.Failed? || e.Abandoned?) { OneGone(Run(l, x, start, before).under, e.i, 0); }
    }
  }

  /** The most wrong passwords recorded in such a stretch of `seconds` seconds. In order, every attempt
      already under way may record an older second that locks nothing any more, and then all goes as from
      the start; otherwise they are worth a whole period. */
  function MostInStretch(l: Limits, width: nat, ordered: bool, seconds: nat): nat
    requires Enabled(l) && width >= 1
  {
    if ordered then Most(l, width, true, seconds) + width
    else (seconds / l.lockoutSeconds + 1) * PerPeriod(l, width, false) + width
  }

  lemma OnePeriodMore(l: Limits, width: nat, ordered: bool, seconds: nat)
    requires Enabled(l) && width >= 1
    ensures Most(l, width, ordered, seconds + l.lockoutSeconds) == Most(l, width, ordered, seconds) + PerPeriod(l, width, ordered)
    ensures !ordered ==> Most(l, width, ordered, seconds + l.lockoutSeconds)
                         == MostInStretch(l, width, ordered, seconds) + l.maxFailures - 1
  {
    NextQuotient(seconds, l.lockoutSeconds);
    OneMore(seconds / l.lockoutSeconds, PerPeriod(l, width, ordered));
  }

  lemma NextQuotient(n: nat, d: nat)
    requires d > 0
    ensures (n + d) / d == n / d + 1
  {
    QuotientBound(n, d);
    QuotientBound(n + d, d);
    assert n == n / d * d + n % d && n + d == (n + d) / d * d + (n + d) % d;
    OneMore(n / d, d);
    FewLocks(n / d + 1, n + d, d);
    if (n + d) / d > n / d + 1 { Monotone(n / d + 2, (n + d) / d, d); OneMore(n / d + 1, d); }
  }

  // ----- when recorded seconds do not go back -----

  /** Bookkeeping of the proof: `stale` failures were recorded with a second from before the stretch; they
      ended `series` series and left `rest` failures in the entry. From there on `books` counts. */
  datatype Split = Split(stale: nat, series: nat, rest: nat, books: Books)

  /** The state as if the stretch had begun after the stale failures. */
  function Since(start: int, s: Track, p: Split): Track
    requires s.failures >= p.stale
  {
    s.(last := if s.last < start then start else s.last, failures := s.failures - p.stale)
  }

  /** As long as nothing recent is recorded, stale failures are of attempts admitted before the stretch. */
  predicate StaleOnly(l: Limits, x: string, width: nat, start: int, s: Track, p: Split) {
    s.last < start ==>
      && p.stale == s.failures && p.rest == EntryOf(s.table, x).failures && p.books == Books(0, 0, 0, 0)
      && p.stale + Before(s.under, start) <= width
  }

  predicate Divides(l: Limits, x: string, width: nat, start: int, credit: nat, s: Track, p: Split)
    requires Enabled(l) && width >= 1
  {
    && p.stale <= s.failures && p.stale <= width && p.stale + credit == p.series * l.maxFailures + p.rest
    && StaleOnly(l, x, width, start, s, p) && Balanced(l, x, width, start, p.rest, Since(start, s, p), p.books)
  }

  function NextSplit(l: Limits, x: string, start: int, s: Track, e: Event, p: Split): Split
    requires Enabled(l) && s.failures >= p.stale
  {
    if e.Failed? && e.name == x && e.stamp < start then
      if Completes(l, x, s, e) then Split(p.stale + 1, p.series + 1, 0, p.books)
      else p.(stale := p.stale + 1, rest := p.rest + 1)
    else p.(books := NextBooks(l, x, Since(start, s, p), e, p.books))
  }

  lemma StepDivides(l: Limits, x: string, width: nat, start: int, credit: nat, s: Track, p: Split, e: Event)
    requires Enabled(l) && width >= 1 && Divides(l, x, width, start, credit, s, p) && Legal(l, x, width, true, s, e)
    ensures Divides(l, x, width, start, credit, Step(l, x, s, e), NextSplit(l, x, start, s, e, p))
  {
    if e.Failed? && e.name == x && e.stamp < start {
      StaleDivides(l, x, width, start, credit, s, p, e);
    } else {
      RecentDivides(l, x, width, start, credit, s, p, e);
    }
  }

  lemma StaleDivides(l: Limits, x: string, width: nat, start: int, credit: nat, s: Track, p: Split, e: Event)
    requires Enabled(l) && width >= 1 && Divides(l, x, width, start, credit, s, p) && Legal(l, x, width, true, s, e)
    requires e.Failed? && e.name == x && e.stamp < start
    ensures Divides(l, x, width, start, credit, Step(l, x, s, e), NextSplit(l, x, start, s, e, p))
  {
    OneGone(s.under, e.i, start);
    OneMore(p.series, l.maxFailures);
  }

  lemma RecentDivides(l: Limits, x: string, width: nat, start: int, credit: nat, s: Track, p: Split, e: Event)
    requires Enabled(l) && width >= 1 && Divides(l, x, width, start, credit, s, p) && Legal(l, x, width, true, s, e)
    requires !(e.Failed? && e.name == x && e.stamp < start)
    ensures Divides(l, x, width, start, credit, Step(l, x, s, e), NextSplit(l, x, start, s, e, p))
  {
    var lifted := Since(start, s, p);
    var n := NextSplit(l, x, start, s, e, p);
    StepKeepsBalance(l, x, width, start, p.rest, lifted, p.books, e);
    assert Step(l, x, lifted, e) == Since(start, Step(l, x, s, e), n);
    StaleOnlyStays(l, x, width, start, s, p, e);
  }

  lemma StaleOnlyStays(l: Limits, x: string, width: nat, start: int, s: Track, p: Split, e: Event)
    requires Enabled(l) && s.failures >= p.stale && StaleOnly(l, x, width, start, s, p) && Legal(l, x, width, true, s, e)
    requires s.clock >= start && !(e.Failed? && e.name == x && e.stamp < start)
    ensures StaleOnly(l, x, width, start, Step(l, x, s, e), NextSplit(l, x, start, s, e, p))
  {
    if e.name != x {
      OtherNamesDoNotMatter(l, x, width, true, s, e);
    } else if e.Admitted? {
      OneMoreUnder(s.under, e.now, start);
    } else if e.Abandoned? {
      OneGone(s.under, e.i, start);
    }
  }

  lemma {:induction false} RunDivides(l: Limits, x: string, width: nat, start: Track, events: seq<Event>) returns (p: Split)
    requires Enabled(l) && width >= 1 && Midway(l, x, width, start) && LegalRun(l, x, width, true, start, events)
    ensures Divides(l, x, width, start.clock, EntryOf(start.table, x).failures, Run(l, x, start, events), p)
  {
    var credit := EntryOf(start.table, x).failures;
    if events == [] {
      p := Split(0, 0, credit, Books(0, 0, 0, 0));
    } else {
      var before := events[..|events| - 1];
      p := RunDivides(l, x, width, start, before);
      StepDivides(l, x, width, start.clock, credit, Run(l, x, start, before), p, events[|events| - 1]);
      p := NextSplit(l, x, start.clock, Run(l, x, start, before), events[|events| - 1], p);
    }
  }

  lemma DividedIsBounded(l: Limits, x: string, width: nat, start: int, credit: nat, s: Track, p: Split, seconds: nat)
    requires Enabled(l) && width >= 1 && Divides(l, x, width, start, credit, s, p) && credit < l.maxFailures
    requires s.clock <= start + seconds
    ensures s.failures <= MostInStretch(l, width, true, seconds)
    ensures s.failures + credit <= Most(l, width, true, seconds) + PerPeriod(l, width, true)
  {
    BalancedIsBounded(l, x, width, start, p.rest, Since(start, s, p), p.books, seconds);
    if p.series == 0 {
      SeriesFit(l, width, 1);
    } else {
      OneMore(p.series - 1, l.maxFailures);
      SeriesFit(l, width, p.series);
    }
  }

  // ----- when they may -----

  /** Time is counted from one period before the stretch, so that all who are under way are old. */
  lemma StretchBegins(l: Limits, x: string, width: nat, start: Track)
    requires Enabled(l) && width >= 1 && Midway(l, x, width, start)
    ensures Kept(l, x, width, start.clock - l.lockoutSeconds, EntryOf(start.table, x).failures, start, Ledger(1, 0, false, 0, 0))
  {
    GainGrows(l, width, Before(start.under, start.clock), width);
  }

  lemma {:induction false} StretchIsKept(l: Limits, x: string, width: nat, start: Track, events: seq<Event>) returns (g: Ledger)
    requires Enabled(l) && width >= 1 && Midway(l, x, width, start) && LegalRun(l, x, width, false, start, events)
    ensures Kept(l, x, width, start.clock - l.lockoutSeconds, EntryOf(start.table, x).failures, Run(l, x, start, events), g)
    ensures Run(l, x, start, events).clock >= start.clock
  {
    if events == [] {
      g := Ledger(1, 0, false, 0, 0);
      StretchBegins(l, x, width, start);
    } else {
      var before := events[..|events| - 1];
      g := StretchIsKept(l, x, width, start, before);
      var from, credit := start.clock - l.lockoutSeconds, EntryOf(start.table, x).failures;
      g := StepIsKept(l, x, width, from, credit, Run(l, x, start, before), g, events[|events| - 1]);
    }
  }

  /** A place is free: one old attempt fewer, so one series fewer. */
  lemma RoomIsKept(l: Limits, x: string, width: nat, from: int, s: Track) returns (g: Ledger)
    requires Enabled(l) && width >= 1 && |s.under| < width && EntryOf(s.table, x).failures < l.maxFailures
    requires s.clock >= from + l.lockoutSeconds
    ensures Kept(l, x, width, from, l.maxFailures + EntryOf(s.table, x).failures, s.(failures := 0), g)
  {
    var window := WindowOf(l, from, s.clock);
    WindowContains(l, from, s.clock);
    FewLocks(1, s.clock - from, l.lockoutSeconds);
    g := Ledger(window, 1, false, 0, 0);
    var olds := Before(s.under, Opening(l, from, window));
    Remainder(l, width);
    GainGrows(l, width, olds, width - 1);
    BudgetGrows(l, width, 0, window);
  }

  lemma Remainder(l: Limits, width: nat)
    requires Enabled(l) && width >= 1
    ensures Gain(l, width, width) >= Gain(l, width, width - 1) + 1
  {
    QuotientBound(0, l.maxFailures);
  }

  /** What is under way fills the width and the entry is not about to lock: until one of the attempts
      ends nothing happens, and then a place is free. */
  predicate Waiting(l: Limits, x: string, start: Track, s: Track) {
    s.under == start.under && s.failures == 0 && EntryOf(s.table, x) == EntryOf(start.table, x)
  }

  lemma {:induction false} CrowdedIsKept(l: Limits, x: string, width: nat, start: Track, events: seq<Event>)
    returns (waiting: bool, g: Ledger)
    requires Enabled(l) && width >= 1 && Midway(l, x, width, start) && LegalRun(l, x, width, false, start, events)
    requires |start.under| < width || EntryOf(start.table, x).failures + 1 < l.maxFailures
    ensures
      var s, credit := Run(l, x, start, events), EntryOf(start.table, x).failures;
      && s.clock >= start.clock
      && if waiting then |start.under| == width && Waiting(l, x, start, s)
         else Kept(l, x, width, start.clock - l.lockoutSeconds, l.maxFailures + credit, s, g)
  {
    var from, credit := start.clock - l.lockoutSeconds, EntryOf(start.table, x).failures;
    if events == [] {
      waiting, g := |start.under| == width, Ledger(0, 0, false, 0, 0);
      if !waiting { g := RoomIsKept(l, x, width, from, start); }
    } else {
      var before, e := events[..|events| - 1], events[|events| - 1];
      waiting, g := CrowdedIsKept(l, x, width, start, before);
      if waiting {
        waiting, g := CrowdedStep(l, x, width, start, Run(l, x, start, before), e);
      } else {
        g := StepIsKept(l, x, width, from, l.maxFailures + credit, Run(l, x, start, before), g, e);
      }
    }
  }

  lemma CrowdedStep(l: Limits, x: string, width: nat, start: Track, s: Track, e: Event) returns (waiting: bool, g: Ledger)
    requires Enabled(l) && width >= 1 && |start.under| == width && EntryOf(start.table, x).failures + 1 < l.maxFailures
    requires Waiting(l, x, start, s) && s.clock >= start.clock && Legal(l, x, width, false, s, e)
    ensures
      var n, credit := Step(l, x, s, e), EntryOf(start.table, x).failures;
      && n.clock >= start.clock
      && if waiting then Waiting(l, x, start, n)
         else Kept(l, x, width, start.clock - l.lockoutSeconds, l.maxFailures + credit, n, g)
  {
    var n := Step(l, x, s, e);
    waiting, g := e.name != x, Ledger(0, 0, false, 0, 0);
    if waiting {
      OtherNamesDoNotMatter(l, x, width, false, s, e);
    } else {
      OneGone(s.under, e.i, 0);
      g := RoomIsKept(l, x, width, start.clock - l.lockoutSeconds, n);
    }
  }

  lemma StretchIsBounded(l: Limits, x: string, width: nat, start: Track, events: seq<Event>, seconds: nat)
    requires Enabled(l) && width >= 1 && Midway(l, x, width, start) && LegalRun(l, x, width, false, start, events)
    requires Run(l, x, start, events).clock <= start.clock + seconds
    ensures Run(l, x, start, events).failures <= MostInStretch(l, width, false, seconds)
  {
    HeldIsBounded(l, x, width, start, events, seconds + l.lockoutSeconds);
    OnePeriodMore(l, width, false, seconds);
  }

  lemma HeldIsBounded(l: Limits, x: string, width: nat, start: Track, events: seq<Event>, seconds: nat)
    requires Enabled(l) && width >= 1 && Midway(l, x, width, start) && LegalRun(l, x, width, false, start, events)
    requires Run(l, x, start, events).clock <= start.clock - l.lockoutSeconds + seconds
    ensures Run(l, x, start, events).failures == 0
            || Run(l, x, start, events).failures + l.maxFailures - 1 <= Most(l, width, false, seconds)
  {
    var credit := EntryOf(start.table, x).failures;
    var held := if |start.under| < width || credit + 1 < l.maxFailures then l.maxFailures + credit else credit;
    var waiting, g := HeldIsKept(l, x, width, start, events, held);
    if !waiting {
      KeptIsBounded(l, x, width, start.clock - l.lockoutSeconds, held, Run(l, x, start, events), g, seconds);
    }
  }

  lemma HeldIsKept(l: Limits, x: string, width: nat, start: Track, events: seq<Event>, held: nat) returns (waiting: bool, g: Ledger)
    requires Enabled(l) && width >= 1 && Midway(l, x, width, start) && LegalRun(l, x, width, false, start, events)
    requires
      var credit := EntryOf(start.table, x).failures;
      held == if |start.under| < width || credit + 1 < l.maxFailures then l.maxFailures + credit else credit
    ensures
      var s := Run(l, x, start, events);
      if waiting then s.failures == 0 else Kept(l, x, width, start.clock - l.lockoutSeconds, held, s, g)
  {
    waiting := false;
    if |start.under| < width || EntryOf(start.table, x).failures + 1 < l.maxFailures {
      waiting, g := CrowdedIsKept(l, x, width, start, events);
    } else {
      g := StretchIsKept(l, x, width, start, events);
    }
  }

  // ----- the bound -----

  /** From any moment of any run, `seconds` seconds without a successful login record at most
      `MostInStretch` wrong passwords; with those already held against the name at most what a run that
      begins with nothing under way allows in one lockout period more. */
  lemma WrongPasswordsAreBounded(l: Limits, x: string, width: nat, ordered: bool, start: Track, events: seq<Event>, seconds: nat)
    requires Enabled(l) && width >= 1 && Midway(l, x, width, start) && LegalRun(l, x, width, ordered, start, events)
    requires Run(l, x, start, events).clock <= start.clock + seconds
    ensures Run(l, x, start, events).failures <= MostInStretch(l, width, ordered, seconds)
    ensures Run(l, x, start, events).failures + EntryOf(start.table, x).failures
            <= Most(l, width, ordered, seconds + l.lockoutSeconds)
  {
    var credit, s := EntryOf(start.table, x).failures, Run(l, x, start, events);
    OnePeriodMore(l, width, ordered, seconds);
    if ordered {
      var p := RunDivides(l, x, width, start, events);
      DividedIsBounded(l, x, width, start.clock, credit, s, p, seconds);
    } else {
      var g := StretchIsKept(l, x, width, start, events);
      KeptIsBounded(l, x, width, start.clock - l.lockoutSeconds, credit, s, g, seconds + l.lockoutSeconds);
      StretchIsBounded(l, x, width, start, events, seconds);
    }
  }
}
