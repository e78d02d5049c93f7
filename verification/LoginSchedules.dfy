/** Schedules of login attempts that let as many wrong passwords through as possible. */
module LoginSchedules {
  import opened LoginThrottle
  import opened LoginAttempts

  /** n attempts admitted at t. */
  function Copies(n: nat, t: int): (r: seq<int>)
    ensures |r| == n && forall i :: 0 <= i < n ==> r[i] == t
  {
    seq(n, _ => t)
  }

  lemma RoomForOne(t: Table, x: string)
    requires t.Keys <= {x}
    ensures !Full(t, x)
  {
    SubmapIsSmaller(t, map[x := UNKNOWN]);
  }

  // ----- steps of a schedule -----

  /** Whose attempts, under which limits, and from which state on. */
  datatype Scene = Scene(l: Limits, x: string, width: nat, ordered: bool, start: Track)

  predicate Set(v: Scene) { Enabled(v.l) && v.width >= 1 }

  function End(v: Scene, events: seq<Event>): Track { Run(v.l, v.x, v.start, events) }

  predicate Played(v: Scene, events: seq<Event>) { LegalRun(v.l, v.x, v.width, v.ordered, v.start, events) }

  lemma OneEventMore(v: Scene, events: seq<Event>, e: Event)
    ensures End(v, events + [e]) == Step(v.l, v.x, End(v, events), e)
    ensures Played(v, events) && Legal(v.l, v.x, v.width, v.ordered, End(v, events), e) ==> Played(v, events + [e])
  {
    assert (events + [e])[..|events|] == events;
  }

  /** Where a run stands: the entry of x, the attempts under way, the failures so far. */
  datatype Spot = Spot(entry: Entry, under: seq<int>, failures: nat)

  /** A run that stands there, no later than `clock`, and knows no other name. */
  ghost predicate Reached(v: Scene, events: seq<Event>, clock: int, p: Spot) {
    var s := End(v, events);
    && Played(v, events) && s.table.Keys <= {v.x} && EntryOf(s.table, v.x) == p.entry
    && s.last <= s.clock <= clock && s.under == p.under && s.failures == p.failures
  }

  lemma Admit(v: Scene, events: seq<Event>, now: int, p: Spot) returns (r: seq<Event>)
    requires Reached(v, events, now, p) && |p.under| < v.width && p.entry.lockedUntil <= now
    ensures Reached(v, r, now, p.(under := p.under + [now]))
  {
    r := events + [Admitted(v.x, now, now)];
    OneEventMore(v, events, Admitted(v.x, now, now));
  }

  lemma Fail(v: Scene, events: seq<Event>, now: int, p: Spot, i: nat, stamp: int) returns (r: seq<Event>)
    requires Enabled(v.l) && Reached(v, events, now, p) && i < |p.under| && p.under[i] <= stamp <= now
    requires v.ordered ==> stamp == now || End(v, events).last <= stamp
    ensures Reached(v, r, now, Spot(Counted(v.l, p.entry, stamp), Without(p.under, i), p.failures + 1))
    ensures End(v, r).last == stamp
  {
    r := events + [Failed(v.x, i, stamp, now)];
    RoomForOne(End(v, events).table, v.x);
    OneEventMore(v, events, Failed(v.x, i, stamp, now));
  }

  /** n more are admitted at once. */
  lemma AdmitMany(v: Scene, events: seq<Event>, now: int, p: Spot, n: nat) returns (r: seq<Event>)
    requires Reached(v, events, now, p) && |p.under| + n <= v.width && p.entry.lockedUntil <= now
    ensures Reached(v, r, now, p.(under := p.under + Copies(n, now)))
  {
    r := events;
    assert p.under + Copies(0, now) == p.under;
    for k := 0 to n
      invariant Reached(v, r, now, p.(under := p.under + Copies(k, now)))
    {
      r := Admit(v, r, now, p.(under := p.under + Copies(k, now)));
      assert p.under + Copies(k, now) + [now] == p.under + Copies(k + 1, now);
    }
  }

  /** Time passes: somebody else is admitted at `now`. */
  lemma Wait(v: Scene, events: seq<Event>, before: int, now: int, p: Spot) returns (r: seq<Event>)
    requires Reached(v, events, before, p) && before <= now
    ensures Reached(v, r, now, p) && End(v, r).clock == now && End(v, r).last <= before
  {
    var e := Admitted(v.x + "x", now, now);
    assert |e.name| != |v.x|;
    r := events + [e];
    OneEventMore(v, events, e);
  }

  /** What an entry is after n more failures recorded at `now`. */
  function After(l: Limits, e: Entry, n: nat, now: int): Entry
    requires Enabled(l)
  {
    Entry((e.failures + n) % l.maxFailures, if e.failures + n >= l.maxFailures then now + l.lockoutSeconds else e.lockedUntil)
  }

  lemma OneMoreFailure(l: Limits, e: Entry, n: nat, now: int)
    requires Enabled(l) && e.failures < l.maxFailures
    ensures After(l, e, 0, now) == e
    ensures Counted(l, After(l, e, n, now), now) == After(l, e, n + 1, now)
  {
    var m := l.maxFailures;
    Divided(e.failures, m, 0, e.failures);
    NextRemainder(e.failures + n, m);
    if e.failures + n < m { Divided(e.failures + n, m, 0, e.failures + n); }
  }

  lemma NextRemainder(a: nat, m: nat)
    requires m > 0
    ensures (a + 1) % m == if a % m + 1 == m then 0 else a % m + 1
  {
    var q := a / m;
    assert a == q * m + a % m;
    OneMore(q, m);
    if a % m + 1 == m { Divided(a + 1, m, q + 1, 0); } else { Divided(a + 1, m, q, a % m + 1); }
  }

  lemma Divided(a: nat, m: nat, q: nat, r: nat)
    requires m > 0 && a == q * m + r && r < m
    ensures a / m == q && a % m == r
  {
    QuotientBound(a, m);
    if a / m > q { Monotone(q + 1, a / m, m); OneMore(q, m); }
    if a / m < q { Monotone(a / m + 1, q, m); }
  }

  /** The n attempts admitted last, at `stamp`, all record that second, far into the series to come. */
  lemma FailMany(v: Scene, events: seq<Event>, stamp: int, now: int, p: Spot, n: nat) returns (r: seq<Event>)
    requires Enabled(v.l) && Reached(v, events, now, p.(under := p.under + Copies(n, stamp))) && stamp <= now
    requires v.ordered ==> stamp == now || End(v, events).last <= stamp
    requires p.entry.failures < v.l.maxFailures
    ensures Reached(v, r, now, Spot(After(v.l, p.entry, n, stamp), p.under, p.failures + n))
  {
    r := events;
    OneMoreFailure(v.l, p.entry, 0, stamp);
    for k := 0 to n
      invariant Reached(v, r, now, Spot(After(v.l, p.entry, k, stamp), p.under + Copies(n - k, stamp), p.failures + k))
      invariant v.ordered ==> stamp == now || End(v, r).last <= stamp
    {
      var under := p.under + Copies(n - k, stamp);
      r := Fail(v, r, now, Spot(After(v.l, p.entry, k, stamp), under, p.failures + k), |under| - 1, stamp);
      assert Without(under, |under| - 1) == p.under + Copies(n - k - 1, stamp);
      OneMoreFailure(v.l, p.entry, k, stamp);
    }
    assert p.under + Copies(0, stamp) == p.under;
  }

  /** n wrong passwords one after the other, short of completing the series. */
  lemma FailInTurn(v: Scene, events: seq<Event>, now: int, p: Spot, n: nat) returns (r: seq<Event>)
    requires Enabled(v.l) && |p.under| < v.width && Reached(v, events, now, p)
    requires p.entry.lockedUntil <= now && p.entry.failures + n < v.l.maxFailures
    ensures Reached(v, r, now, InTurn(p, n))
  {
    r := events;
    for k := 0 to n
      invariant Reached(v, r, now, InTurn(p, k))
    {
      var q := InTurn(p, k);
      r := Admit(v, r, now, q);
      r := Fail(v, r, now, q.(under := q.under + [now]), |q.under|, now);
      assert Without(q.under + [now], |q.under|) == q.under;
    }
  }

  function InTurn(p: Spot, n: nat): Spot { Spot(p.entry.(failures := p.entry.failures + n), p.under, p.failures + n) }

  // ----- in order: everybody fails at the end of every series -----

  /** One failure short of a lock, the name open at `now`. */
  predicate Ready(l: Limits, e: Entry, now: int) { e.failures == l.maxFailures - 1 && e.lockedUntil <= now }

  /** One failure short of a lock, the whole width is admitted and fails. */
  lemma AllFail(v: Scene, events: seq<Event>, now: int, e: Entry, failures: nat) returns (r: seq<Event>)
    requires Set(v) && Ready(v.l, e, now) && Reached(v, events, now, Spot(e, [], failures))
    ensures Reached(v, r, now, Spot(AfterPeriod(v.l, v.width, now), [], failures + v.width))
  {
    r := AdmitMany(v, events, now, Spot(e, [], failures), v.width);
    r := FailMany(v, r, now, now, Spot(e, [], failures), v.width);
  }

  function AfterPeriod(l: Limits, width: nat, now: int): Entry
    requires Enabled(l)
  {
    Entry((l.maxFailures - 1 + width) % l.maxFailures, now + l.lockoutSeconds)
  }

  lemma PeriodGain(l: Limits, width: nat)
    requires Enabled(l) && width >= 1
    ensures l.maxFailures - 1 - (l.maxFailures - 1 + width) % l.maxFailures + width == PerPeriod(l, width, true)
    ensures (l.maxFailures - 1 + width) % l.maxFailures < l.maxFailures
  {
    var m, q := l.maxFailures, (width - 1) / l.maxFailures;
    var r := (width - 1) % m;
    assert width - 1 == q * m + r;
    OneMore(q, m);
    Divided(m - 1 + width, m, q + 1, r);
  }

  lemma OrderedPeriod(v: Scene, events: seq<Event>, before: int, e: Entry, failures: nat)
    returns (r: seq<Event>, f: Entry)
    requires Set(v) && v.ordered && Ready(v.l, e, before) && Reached(v, events, before, Spot(e, [], failures))
    ensures
      var now := before + v.l.lockoutSeconds;
      Ready(v.l, f, now) && Reached(v, r, now, Spot(f, [], failures + PerPeriod(v.l, v.width, true)))
  {
    var open, now := AfterPeriod(v.l, v.width, before), before + v.l.lockoutSeconds;
    PeriodGain(v.l, v.width);
    r := AllFail(v, events, before, e, failures);
    r := FailInTurn(v, r, now, Spot(open, [], failures + v.width), v.l.maxFailures - 1 - open.failures);
    f := Entry(v.l.maxFailures - 1, open.lockedUntil);
  }

  // ----- out of order: every lock is lifted by an attempt that read the clock a period ago -----

  /** The attempts there is room for beside `olds` others, in whole series. */
  function Beside(l: Limits, width: nat, olds: nat): nat
    requires Enabled(l) && olds <= width
  {
    (width - olds) / l.maxFailures * l.maxFailures
  }

  lemma BesideFits(l: Limits, width: nat, olds: nat, e: Entry, now: int)
    requires Enabled(l) && 1 <= olds <= width && Ready(l, e, now)
    ensures olds + Beside(l, width, olds) <= width
    ensures After(l, e, Beside(l, width, olds), now).failures == l.maxFailures - 1
    ensures Gain(l, width, olds) * l.maxFailures == Gain(l, width, olds - 1) * l.maxFailures + Beside(l, width, olds) + l.maxFailures
  {
    var m, k := l.maxFailures, (width - olds) / l.maxFailures;
    assert width - olds == k * m + (width - olds) % m;
    Divided(m - 1 + k * m, m, k, m - 1);
    Sum(Gain(l, width, olds - 1), k + 1, m);
    OneMore(k, m);
  }

  lemma Sum(a: nat, b: nat, m: nat)
    ensures (a + b) * m == a * m + b * m
  {}

  /** Beside the old attempts, whole series fail. */
  lemma SeriesBeside(v: Scene, events: seq<Event>, now: int, e: Entry, olds: seq<int>, failures: nat, n: nat)
    returns (r: seq<Event>, f: Entry)
    requires Enabled(v.l) && Ready(v.l, e, now) && |olds| + n <= v.width
    requires After(v.l, e, n, now).failures == v.l.maxFailures - 1
    requires Reached(v, events, now, Spot(e, olds, failures))
    ensures f.failures == v.l.maxFailures - 1 && Reached(v, r, now, Spot(f, olds, failures + n))
  {
    var p := Spot(e, olds, failures);
    r := AdmitMany(v, events, now, p, n);
    r := FailMany(v, r, now, now, p, n);
    f := After(v.l, e, n, now);
  }

  /** Attempts admitted a period before `now`. */
  function Olds(v: Scene, n: nat, now: int): seq<int> { Copies(n, now - v.l.lockoutSeconds) }

  /** The first old attempt completes a series with its old second, which leaves the name open, and the
      next series is brought one short of its end. */
  lemma OldFails(v: Scene, events: seq<Event>, now: int, e: Entry, olds: nat, failures: nat) returns (r: seq<Event>)
    requires Enabled(v.l) && !v.ordered && 1 <= olds <= v.width && e.failures == v.l.maxFailures - 1
    requires Reached(v, events, now, Spot(e, Olds(v, olds, now), failures))
    ensures Reached(v, r, now, Spot(Entry(v.l.maxFailures - 1, now), Olds(v, olds - 1, now), failures + v.l.maxFailures))
  {
    var left := Olds(v, olds - 1, now);
    r := Fail(v, events, now, Spot(e, Olds(v, olds, now), failures), 0, now - v.l.lockoutSeconds);
    assert Without(Olds(v, olds, now), 0) == left;
    r := FailInTurn(v, r, now, Spot(Entry(0, now), left, failures + 1), v.l.maxFailures - 1);
  }

  /** One old attempt, after the series there is room for beside it and the others. */
  lemma LiftOne(v: Scene, events: seq<Event>, now: int, e: Entry, olds: nat, failures: nat) returns (r: seq<Event>)
    requires Set(v) && !v.ordered && 1 <= olds <= v.width && Ready(v.l, e, now)
    requires Reached(v, events, now, Spot(e, Olds(v, olds, now), failures))
    ensures Reached(v, r, now, Spot(Entry(v.l.maxFailures - 1, now), Olds(v, olds - 1, now),
                                    failures + Beside(v.l, v.width, olds) + v.l.maxFailures))
  {
    var n, f := Beside(v.l, v.width, olds), e;
    BesideFits(v.l, v.width, olds, e, now);
    r, f := SeriesBeside(v, events, now, e, Olds(v, olds, now), failures, n);
    r := OldFails(v, r, now, f, olds, failures + n);
  }

  /** All old attempts, one after the other. */
  lemma {:induction false} LiftAll(v: Scene, events: seq<Event>, now: int, e: Entry, olds: nat, failures: nat)
    returns (r: seq<Event>, f: Entry)
    requires Set(v) && !v.ordered && olds <= v.width && Ready(v.l, e, now)
    requires Reached(v, events, now, Spot(e, Olds(v, olds, now), failures))
    ensures Ready(v.l, f, now)
    ensures Reached(v, r, now, Spot(f, [], failures + Gain(v.l, v.width, olds) * v.l.maxFailures))
    decreases olds
  {
    if olds == 0 {
      assert Olds(v, 0, now) == [];
      r, f := events, e;
    } else {
      BesideFits(v.l, v.width, olds, e, now);
      r := LiftOne(v, events, now, e, olds, failures);
      var after := failures + Beside(v.l, v.width, olds) + v.l.maxFailures;
      r, f := LiftAll(v, r, now, Entry(v.l.maxFailures - 1, now), olds - 1, after);
    }
  }

  lemma UnorderedPeriod(v: Scene, events: seq<Event>, before: int, e: Entry, failures: nat)
    returns (r: seq<Event>, f: Entry)
    requires Set(v) && !v.ordered && Ready(v.l, e, before) && Reached(v, events, before, Spot(e, [], failures))
    ensures
      var now := before + v.l.lockoutSeconds;
      Ready(v.l, f, now) && Reached(v, r, now, Spot(f, [], failures + PerPeriod(v.l, v.width, false)))
  {
    r := AdmitMany(v, events, before, Spot(e, [], failures), v.width);
    assert [] + Copies(v.width, before) == Olds(v, v.width, before + v.l.lockoutSeconds);
    r, f := LiftAll(v, r, before + v.l.lockoutSeconds, e, v.width, failures);
  }

  // ----- any number of periods -----

  /** From one failure short of a lock, `turns` lockout periods, up to the moment before everybody fails
      in the last. */
  lemma {:induction false} WorstRun(v: Scene, events: seq<Event>, base: int, e: Entry, failures: nat, turns: nat)
    returns (r: seq<Event>, f: Entry)
    requires Set(v) && Ready(v.l, e, base) && Reached(v, events, base, Spot(e, [], failures))
    ensures
      var now := base + turns * v.l.lockoutSeconds;
      Ready(v.l, f, now) && Reached(v, r, now, Spot(f, [], failures + turns * PerPeriod(v.l, v.width, v.ordered)))
  {
    if turns == 0 {
      r, f := events, e;
    } else {
      r, f := WorstRun(v, events, base, e, failures, turns - 1);
      var before, so := base + (turns - 1) * v.l.lockoutSeconds, failures + (turns - 1) * PerPeriod(v.l, v.width, v.ordered);
      OneMore(turns - 1, v.l.lockoutSeconds);
      OneMore(turns - 1, PerPeriod(v.l, v.width, v.ordered));
      if v.ordered {
        r, f := OrderedPeriod(v, r, before, f, so);
      } else {
        r, f := UnorderedPeriod(v, r, before, f, so);
      }
    }
  }

  /** From one failure short of a lock, the rest of the worst run of `seconds` seconds. */
  lemma WorstRest(v: Scene, events: seq<Event>, base: int, e: Entry, failures: nat, seconds: nat) returns (r: seq<Event>)
    requires Set(v) && Ready(v.l, e, base) && Reached(v, events, base, Spot(e, [], failures))
    ensures Played(v, r) && End(v, r).clock <= base + seconds
    ensures End(v, r).failures + v.l.maxFailures - 1 == failures + Most(v.l, v.width, v.ordered, seconds)
  {
    var turns := seconds / v.l.lockoutSeconds;
    assert seconds == turns * v.l.lockoutSeconds + seconds % v.l.lockoutSeconds;
    var so, f := WorstRun(v, events, base, e, failures, turns);
    r := AllFail(v, so, base + turns * v.l.lockoutSeconds, f, failures + turns * PerPeriod(v.l, v.width, v.ordered));
  }
}
