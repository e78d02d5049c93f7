/** The login throttle: server/remote_server.cpp:941-991 and its use in HandleLogin. */
module LoginThrottle {
  const MAX_TRACKED: nat := 4096

  datatype Limits = Limits(maxFailures: int, lockoutSeconds: int)

  datatype Entry = Entry(failures: nat, lockedUntil: int)

  const UNKNOWN := Entry(0, 0)

  type Table = map<string, Entry>

  predicate Enabled(l: Limits) { l.maxFailures > 0 && l.lockoutSeconds > 0 }

  function EntryOf(t: Table, name: string): Entry { if name in t then t[name] else UNKNOWN }

  /** Seconds the name stays locked; 0 admits the attempt. */
  function Remaining(l: Limits, t: Table, name: string, now: int): int {
    if !Enabled(l) || name !in t || t[name].lockedUntil <= now then 0 else t[name].lockedUntil - now
  }

  function Full(t: Table, name: string): bool { name !in t && |t| >= MAX_TRACKED }

  /** The entries that are still locking something at `now`. */
  function StillLocked(t: Table, now: int): Table {
    map k | k in t && t[k].lockedUntil > now :: t[k]
  }

  /** One more failure: the last of a series starts a lockout and a new series. */
  function Counted(l: Limits, e: Entry, now: int): Entry {
    if e.failures + 1 >= l.maxFailures then Entry(0, now + l.lockoutSeconds) else e.(failures := e.failures + 1)
  }

  function Recorded(l: Limits, t: Table, name: string, now: int): Table {
    if !Enabled(l) then t
    else
      var kept := if Full(t, name) then StillLocked(t, now) else t;
      if Full(kept, name) then kept else kept[name := Counted(l, EntryOf(kept, name), now)]
  }

  lemma {:induction false} SubmapIsSmaller(a: Table, b: Table)
    requires a.Keys <= b.Keys
    ensures |a| <= |b|
  {
    SubsetIsSmaller(a.Keys, b.Keys);
    assert |a| == |a.Keys| && |b| == |b.Keys|;
  }

  lemma {:induction false} SubsetIsSmaller(a: set<string>, b: set<string>)
    requires a <= b
    ensures |a| <= |b|
  {
    if exists x :: x in a {
      var x :| x in a;
      SubsetIsSmaller(a - {x}, b - {x});
      assert |a| == |a - {x}| + 1 && |b| == |b - {x}| + 1;
    } else {
      assert a == {};
    }
  }

  /** The table never tracks more than 4096 names. */
  lemma TableStaysBounded(l: Limits, t: Table, name: string, now: int)
    requires |t| <= MAX_TRACKED
    ensures |Recorded(l, t, name, now)| <= MAX_TRACKED
  {
    var kept := if Full(t, name) then StillLocked(t, now) else t;
    SubmapIsSmaller(kept, t);
    var e := Counted(l, EntryOf(kept, name), now);
    assert kept[name := e].Keys == kept.Keys + {name};
    assert |kept[name := e]| == |kept[name := e].Keys|;
  }

  class Throttle {
    const limits: Limits
    var table: Table

    constructor (limits: Limits)
      ensures this.limits == limits && table == map[]
    {
      this.limits := limits;
      table := map[];
    }

    method LoginLockRemainingSeconds(name: string, now: int) returns (seconds: int)
      ensures seconds == Remaining(limits, table, name, now)
    {
      if limits.maxFailures <= 0 || limits.lockoutSeconds <= 0 { return 0; }
      if name !in table { return 0; }
      return if table[name].lockedUntil > now then table[name].lockedUntil - now else 0;
    }

    /** The pass over the table that erases what locks nothing any more. */
    method EraseExpired(now: int)
      modifies this
      ensures table == StillLocked(old(table), now)
    {
      var rest := table.Keys;
      while exists k :: k in rest
        invariant rest <= table.Keys
        invariant forall k :: k in table ==> k in old(table) && table[k] == old(table)[k]
        invariant forall k :: k in old(table) && k !in table ==> old(table)[k].lockedUntil <= now
        invariant forall k :: k in table && k !in rest ==> table[k].lockedUntil > now
        decreases rest
      {
        var k :| k in rest;
        if table[k].lockedUntil <= now { table := table - {k}; }
        rest := rest - {k};
      }
    }

    method RecordLoginFailure(name: string, now: int)
      modifies this
      ensures table == Recorded(limits, old(table), name, now)
    {
      if limits.maxFailures <= 0 || limits.lockoutSeconds <= 0 { return; }
      if name !in table && |table| >= MAX_TRACKED {
        EraseExpired(now);
        if |table| >= MAX_TRACKED { return; }
      }
      var entry := if name in table then table[name] else UNKNOWN;
      entry := entry.(failures := entry.failures + 1);
      if entry.failures >= limits.maxFailures {
        entry := Entry(0, now + limits.lockoutSeconds);
      }
      table := table[name := entry];
    }

    method ClearLoginFailures(name: string)
      modifies this
      ensures table == old(table) - {name}
    {
      table := table - {name};
    }
  }
}
