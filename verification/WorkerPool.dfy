/**
 The accept loop and its workers: Run, WorkerLoop and RequestStop, server/remote_server.cpp:2348-2477.
 A connection is named by a number that is never used again (the kernel reuses descriptors). One
 action is one acquisition or release of work_mutex_ with what happens under it, or one read of
 stop_requested_, which anyone may set at any time. A timed wait may end at any moment.
*/
module WorkerPool {
  import opened Common

  // ----- state -----

  /** The main thread; `client` is an accepted connection not yet handed over. */
  datatype Main =
    | Polling
    | Accepted(client: nat)
    | Checking(client: nat)
    | SlotWait(client: nat)
    | Deciding(client: nat)
    | Pushing(client: nat)
    | Stopping
    | Joining
    | Returned

  datatype Worker =
    | Idle
    | Locked
    | Serving(client: nat)
    | Done
    | Exited

  datatype Holder = Nobody | MainThread | WorkerThread(i: nat)

  datatype Pool = Pool(
    main: Main, workers: seq<Worker>, holder: Holder, stop: bool, busy: nat, pending: seq<nat>,
    accepted: set<nat>, closed: seq<nat>)

  function Start(workerCount: nat): Pool {
    Pool(Polling, seq(workerCount, _ => Idle), Nobody, false, 0, [], {}, [])
  }

  // ----- actions -----

  datatype Action =
    | RequestStop
    | Poll(fails: bool, client: Option<nat>)
    | MainStep
    | WorkerStep(i: nat)

  function Next(s: Pool, a: Action): Pool {
    match a
    case RequestStop => s.(stop := true)
    case Poll(fails, client) =>
      if s.main != Polling then s
      else if s.stop || fails then s.(main := Stopping)
      else if client.None? || client.value in s.accepted then s
      else s.(main := Accepted(client.value), accepted := s.accepted + {client.value})
    case MainStep => NextMain(s)
    case WorkerStep(i) => if i < |s.workers| then NextWorker(s, i) else s
  }

  function NextMain(s: Pool): Pool {
    match s.main
    case Polling => s
    case Accepted(c) => if s.holder == Nobody then s.(main := Checking(c), holder := MainThread) else s
    case Checking(c) =>
      if s.busy >= |s.workers| && !s.stop then s.(main := SlotWait(c), holder := Nobody) else s.(main := Deciding(c))
    case SlotWait(c) => if s.holder == Nobody then s.(main := Checking(c), holder := MainThread) else s
    case Deciding(c) => if s.stop then Turn(s, c) else s.(main := Pushing(c))
    case Pushing(c) => Hand(s, c)
    case Stopping => if s.holder == Nobody then s.(main := Joining, stop := true) else s
    case Joining => if forall i :: 0 <= i < |s.workers| ==> s.workers[i] == Exited then s.(main := Returned) else s
    case Returned => s
  }

  /** The server is stopping: the connection just accepted is closed. */
  function Turn(s: Pool, c: nat): Pool { s.(main := Stopping, holder := Nobody, closed := s.closed + [c]) }

  /** The connection takes a slot and waits for a worker. */
  function Hand(s: Pool, c: nat): Pool {
    s.(main := Polling, holder := Nobody, busy := s.busy + 1, pending := s.pending + [c])
  }

  function NextWorker(s: Pool, i: nat): Pool
    requires i < |s.workers|
  {
    match s.workers[i]
    case Idle =>
      if s.holder == Nobody then s.(workers := s.workers[i := Locked], holder := WorkerThread(i)) else s
    case Locked =>
      if s.pending != [] then
        s.(workers := s.workers[i := Serving(s.pending[0])], holder := Nobody, pending := s.pending[1..])
      else s.(workers := s.workers[i := if s.stop then Exited else Idle], holder := Nobody)
    case Serving(c) => s.(workers := s.workers[i := Done], closed := s.closed + [c])
    case Done =>
      if s.holder == Nobody then s.(workers := s.workers[i := Idle], busy := if s.busy > 0 then s.busy - 1 else 0) else s
    case Exited => s
  }

  function Run(workerCount: nat, actions: seq<Action>): Pool {
    if actions == [] then Start(workerCount)
    else Next(Run(workerCount, actions[..|actions| - 1]), actions[|actions| - 1])
  }

  // ----- counting -----

  /** A worker is engaged from taking a connection until it has given its slot back. */
  function Engaged(w: Worker): nat { if w.Serving? || w == Done then 1 else 0 }

  function Carries(w: Worker, c: nat): nat { if w == Serving(c) then 1 else 0 }

  function Carrying(w: Worker): nat { if w.Serving? then 1 else 0 }

  function Sum(f: Worker -> nat, ws: seq<Worker>): nat {
    if ws == [] then 0 else Sum(f, ws[..|ws| - 1]) + f(ws[|ws| - 1])
  }

  function Count(ws: seq<Worker>): nat { Sum(Engaged, ws) }

  function Occurs(xs: seq<nat>, c: nat): nat {
    if xs == [] then 0 else Occurs(xs[..|xs| - 1], c) + (if xs[|xs| - 1] == c then 1 else 0)
  }

  lemma OccursAtEnd(xs: seq<nat>, x: nat, c: nat)
    ensures Occurs(xs + [x], c) == Occurs(xs, c) + if x == c then 1 else 0
  {
    assert (xs + [x])[..|xs|] == xs;
  }

  lemma {:induction false} OccursAtFront(xs: seq<nat>, c: nat)
    requires xs != []
    ensures Occurs(xs, c) == (if xs[0] == c then 1 else 0) + Occurs(xs[1..], c)
  {
    if |xs| > 1 {
      OccursAtFront(xs[..|xs| - 1], c);
      assert xs[..|xs| - 1][1..] == xs[1..][..|xs| - 2];
    }
  }

  lemma {:induction false} OneChanges(f: Worker -> nat, ws: seq<Worker>, i: nat, w: Worker)
    requires i < |ws|
    ensures Sum(f, ws[i := w]) + f(ws[i]) == Sum(f, ws) + f(w)
  {
    var init := ws[..|ws| - 1];
    if i < |init| {
      OneChanges(f, init, i, w);
      assert ws[i := w][..|ws| - 1] == init[i := w];
    } else {
      assert ws[i := w][..|ws| - 1] == init;
    }
  }

  lemma {:induction false} SumBounds(f: Worker -> nat, g: Worker -> nat, ws: seq<Worker>)
    requires forall w :: f(w) <= g(w) <= 1
    ensures Sum(f, ws) <= Sum(g, ws) <= |ws|
  {
    if ws != [] { SumBounds(f, g, ws[..|ws| - 1]); }
  }

  lemma {:induction false} SumOfZeros(f: Worker -> nat, ws: seq<Worker>)
    requires forall i :: 0 <= i < |ws| ==> f(ws[i]) == 0
    ensures Sum(f, ws) == 0
  {
    if ws != [] { SumOfZeros(f, ws[..|ws| - 1]); }
  }

  lemma {:induction false} SumAtLeast(f: Worker -> nat, ws: seq<Worker>, i: nat)
    requires i < |ws|
    ensures Sum(f, ws) >= f(ws[i])
  {
    if i < |ws| - 1 { SumAtLeast(f, ws[..|ws| - 1], i); }
  }

  /** How many workers serve connection c. */
  function Servers(ws: seq<Worker>, c: nat): nat {
    if ws == [] then 0 else Servers(ws[..|ws| - 1], c) + Carries(ws[|ws| - 1], c)
  }

  lemma {:induction false} ServersChange(ws: seq<Worker>, i: nat, w: Worker, c: nat)
    requires i < |ws|
    ensures Servers(ws[i := w], c) + Carries(ws[i], c) == Servers(ws, c) + Carries(w, c)
  {
    var init := ws[..|ws| - 1];
    if i < |init| {
      ServersChange(init, i, w, c);
      assert ws[i := w][..|ws| - 1] == init[i := w];
    } else {
      assert ws[i := w][..|ws| - 1] == init;
    }
  }

  lemma {:induction false} NobodyServes(ws: seq<Worker>, c: nat)
    requires forall i :: 0 <= i < |ws| ==> !ws[i].Serving?
    ensures Servers(ws, c) == 0
  {
    if ws != [] { NobodyServes(ws[..|ws| - 1], c); }
  }

  // ----- the invariant -----

  predicate HasClient(m: Main) { m.Accepted? || m.Checking? || m.SlotWait? || m.Deciding? || m.Pushing? }

  function Holds(m: Main, c: nat): nat { if HasClient(m) && m.client == c then 1 else 0 }

  function Holding(m: Main): nat { if HasClient(m) then 1 else 0 }

  predicate MainHolds(m: Main) { m.Checking? || m.Deciding? || m.Pushing? }

  predicate LockOk(s: Pool) {
    && (s.holder.WorkerThread? ==> s.holder.i < |s.workers|)
    && (s.holder == MainThread <==> MainHolds(s.main))
    && (forall i :: 0 <= i < |s.workers| ==> (s.workers[i] == Locked <==> s.holder == WorkerThread(i)))
  }

  /** A worker leaves only under the lock, with the stop flag set and nothing pending. */
  predicate ExitOk(s: Pool) {
    (exists i :: 0 <= i < |s.workers| && s.workers[i] == Exited) ==> s.stop && s.pending == [] && !s.main.Pushing?
  }

  predicate MainOk(s: Pool) {
    && (s.main.Deciding? ==> s.busy < |s.workers| || s.stop)
    && (s.main.Pushing? ==> s.busy < |s.workers|)
    && (s.main.Joining? || s.main.Returned? ==> s.stop)
    && (s.main.Returned? ==> forall i :: 0 <= i < |s.workers| ==> s.workers[i] == Exited)
  }

  /** In how many places connection c is: with main, pending, being served, closed. */
  function Places(s: Pool, c: nat): nat {
    Holds(s.main, c) + Occurs(s.pending, c) + Servers(s.workers, c) + Occurs(s.closed, c)
  }

  /** busy_workers_ counts the pending connections and the engaged workers. */
  predicate Accounted(s: Pool) {
    && s.busy == |s.pending| + Count(s.workers) && s.busy <= |s.workers|
    && Holding(s.main) + |s.pending| + Sum(Carrying, s.workers) + |s.closed| == |s.accepted|
  }

  /** An accepted connection is in exactly one place, any other in none. */
  ghost predicate OnePlaceEach(s: Pool) {
    forall c: nat :: Places(s, c) == if c in s.accepted then 1 else 0
  }

  ghost predicate Inv(s: Pool) {
    |s.workers| >= 1 && LockOk(s) && ExitOk(s) && MainOk(s) && Accounted(s) && OnePlaceEach(s)
  }

  lemma StartIsInv(workerCount: nat)
    requires workerCount >= 1
    ensures Inv(Start(workerCount))
  {
    var s := Start(workerCount);
    SumOfZeros(Engaged, s.workers);
    SumOfZeros(Carrying, s.workers);
    forall c: nat ensures Places(s, c) == 0 { NobodyServes(s.workers, c); }
  }

  lemma MainKeepsControl(s: Pool)
    requires LockOk(s) && ExitOk(s) && MainOk(s)
    ensures LockOk(NextMain(s)) && ExitOk(NextMain(s)) && MainOk(NextMain(s))
  {}

  lemma MainKeepsAccounts(s: Pool)
    requires Accounted(s) && MainOk(s)
    ensures Accounted(NextMain(s))
  {}

  lemma MainKeepsPlaces(s: Pool, c: nat)
    ensures Places(NextMain(s), c) == Places(s, c)
  {
    match s.main
    case Pushing(client) => HandKeepsPlaces(s, client, c);
    case Deciding(client) => TurnKeepsPlaces(s, client, c);
    case _ => assert Holds(NextMain(s).main, c) == Holds(s.main, c);
  }

  lemma HandKeepsPlaces(s: Pool, client: nat, c: nat)
    requires s.main == Pushing(client)
    ensures Places(Hand(s, client), c) == Places(s, c)
  {
    OccursAtEnd(s.pending, client, c);
  }

  lemma TurnKeepsPlaces(s: Pool, client: nat, c: nat)
    requires s.main == Deciding(client)
    ensures Places(Turn(s, client), c) == Places(s, c)
  {
    OccursAtEnd(s.closed, client, c);
  }

  lemma WorkerKeepsControl(s: Pool, i: nat)
    requires LockOk(s) && ExitOk(s) && MainOk(s) && i < |s.workers|
    ensures LockOk(NextWorker(s, i)) && MainOk(NextWorker(s, i))
  {
    if s.workers[i] == Done && s.busy > 0 {}
  }

  lemma WorkerKeepsExit(s: Pool, i: nat)
    requires LockOk(s) && ExitOk(s) && i < |s.workers|
    ensures ExitOk(NextWorker(s, i))
  {}

  lemma WorkerKeepsAccounts(s: Pool, i: nat)
    requires Accounted(s) && i < |s.workers|
    ensures Accounted(NextWorker(s, i))
  {
    var n := NextWorker(s, i);
    if n.workers != s.workers { CountsFollow(s.workers, i, n.workers[i]); }
    match s.workers[i]
    case Idle =>
    case Locked =>
    case Serving(_) =>
    case Done =>
    case Exited =>
  }

  lemma CountsFollow(ws: seq<Worker>, i: nat, w: Worker)
    requires i < |ws|
    ensures Count(ws[i := w]) == Count(ws) + Engaged(w) - Engaged(ws[i]) && Count(ws) >= Engaged(ws[i])
    ensures Sum(Carrying, ws[i := w]) == Sum(Carrying, ws) + Carrying(w) - Carrying(ws[i])
  {
    OneChanges(Engaged, ws, i, w);
    OneChanges(Carrying, ws, i, w);
    SumAtLeast(Engaged, ws, i);
  }

  lemma WorkerKeepsPlaces(s: Pool, i: nat, c: nat)
    requires i < |s.workers|
    ensures Places(NextWorker(s, i), c) == Places(s, c)
  {
    var n := NextWorker(s, i);
    if n.workers != s.workers { ServersChange(s.workers, i, n.workers[i], c); }
    if s.pending != [] { OccursAtFront(s.pending, c); }
    if s.workers[i].Serving? { OccursAtEnd(s.closed, s.workers[i].client, c); }
  }

  lemma PollKeepsInv(s: Pool, fails: bool, client: Option<nat>)
    requires Inv(s)
    ensures Inv(Next(s, Poll(fails, client)))
  {
    var n := Next(s, Poll(fails, client));
    forall c: nat ensures Places(n, c) == if c in n.accepted then 1 else 0 {
      assert Places(s, c) == if c in s.accepted then 1 else 0;
    }
  }

  lemma MainKeepsInv(s: Pool)
    requires Inv(s)
    ensures Inv(NextMain(s))
  {
    MainKeepsControl(s);
    MainKeepsAccounts(s);
    forall c: nat ensures Places(NextMain(s), c) == if c in s.accepted then 1 else 0 { MainKeepsPlaces(s, c); }
  }

  lemma WorkerKeepsInv(s: Pool, i: nat)
    requires Inv(s) && i < |s.workers|
    ensures Inv(NextWorker(s, i))
  {
    WorkerKeepsControl(s, i);
    WorkerKeepsExit(s, i);
    WorkerKeepsAccounts(s, i);
    forall c: nat ensures Places(NextWorker(s, i), c) == if c in s.accepted then 1 else 0 { WorkerKeepsPlaces(s, i, c); }
  }

  lemma StopKeepsInv(s: Pool)
    requires Inv(s)
    ensures Inv(s.(stop := true))
  {
    forall c: nat ensures Places(s.(stop := true), c) == if c in s.accepted then 1 else 0 {
      assert Places(s, c) == if c in s.accepted then 1 else 0;
    }
  }

  lemma NextKeepsInv(s: Pool, a: Action)
    requires Inv(s)
    ensures Inv(Next(s, a))
  {
    match a
    case RequestStop => StopKeepsInv(s);
    case Poll(fails, client) => PollKeepsInv(s, fails, client);
    case MainStep => MainKeepsInv(s);
    case WorkerStep(i) => if i < |s.workers| { WorkerKeepsInv(s, i); }
  }

  lemma NextKeepsWorkers(s: Pool, a: Action)
    ensures |Next(s, a).workers| == |s.workers|
  {}

  lemma {:induction false} RunKeepsInv(workerCount: nat, actions: seq<Action>)
    requires workerCount >= 1
    ensures Inv(Run(workerCount, actions)) && |Run(workerCount, actions).workers| == workerCount
  {
    if actions == [] {
      StartIsInv(workerCount);
    } else {
      RunKeepsInv(workerCount, actions[..|actions| - 1]);
      NextKeepsInv(Run(workerCount, actions[..|actions| - 1]), actions[|actions| - 1]);
      NextKeepsWorkers(Run(workerCount, actions[..|actions| - 1]), actions[|actions| - 1]);
    }
  }

  // ----- what it means -----

  /** In every interleaving at most worker_count connections are pending or being served, and at most
      one more is accepted but not finished. */
  lemma NeverMoreThanTheWorkersCanTake(workerCount: nat, actions: seq<Action>)
    requires workerCount >= 1
    ensures
      var s := Run(workerCount, actions);
      && s.busy == |s.pending| + Count(s.workers) <= workerCount
      && |s.pending| + Sum(Carrying, s.workers) <= s.busy
      && |s.accepted| - |s.closed| <= workerCount + 1
  {
    RunKeepsInv(workerCount, actions);
    SumBounds(Carrying, Engaged, Run(workerCount, actions).workers);
  }

  /** Only accepted connections are closed, and none twice. */
  lemma NothingIsClosedTwice(workerCount: nat, actions: seq<Action>, client: nat)
    requires workerCount >= 1
    ensures
      var s := Run(workerCount, actions);
      Occurs(s.closed, client) <= (if client in s.accepted then 1 else 0)
  {
    RunKeepsInv(workerCount, actions);
    assert Places(Run(workerCount, actions), client) <= 1;
  }

  /** When Run returns, nothing is pending and every accepted connection has been closed exactly once. */
  lemma ReturnedMeansEverythingClosed(workerCount: nat, actions: seq<Action>, client: nat)
    requires workerCount >= 1 && Run(workerCount, actions).main == Returned
    ensures
      var s := Run(workerCount, actions);
      s.pending == [] && s.busy == 0 && Occurs(s.closed, client) == if client in s.accepted then 1 else 0
  {
    RunKeepsInv(workerCount, actions);
    var s := Run(workerCount, actions);
    assert s.workers[0] == Exited;
    SumOfZeros(Engaged, s.workers);
    NobodyServes(s.workers, client);
    assert Places(s, client) == if client in s.accepted then 1 else 0;
  }

  // ----- shutting down -----

  function Rank(w: Worker): nat {
    match w
    case Exited => 0
    case Locked => 1
    case Idle => 2
    case Done => 3
    case Serving(_) => 4
  }

  /** What is left to do once the stop flag is set. */
  function Work(s: Pool): nat { 5 * |s.pending| + Sum(Rank, s.workers) }

  /** After the stop flag is set, every worker step that does anything brings the shutdown closer. */
  lemma ShutdownAdvances(s: Pool, i: nat)
    requires Inv(s) && s.stop && i < |s.workers|
    ensures NextWorker(s, i) == s || Work(NextWorker(s, i)) < Work(s)
  {
    var n := NextWorker(s, i);
    if n.workers != s.workers {
      OneChanges(Rank, s.workers, i, n.workers[i]);
    }
  }

  /** While main waits in join, main or some worker can always move. */
  lemma JoinNeverHangs(s: Pool)
    requires Inv(s) && s.main == Joining
    ensures NextMain(s) != s || exists i: nat :: i < |s.workers| && NextWorker(s, i) != s
  {
    if i: nat :| i < |s.workers| && s.workers[i] != Exited {
      MovableWorker(s, i);
    }
  }

  /** Whoever holds the lock can move, and with the lock free everybody can. */
  lemma MovableWorker(s: Pool, i: nat)
    requires Inv(s) && s.main == Joining && i < |s.workers| && s.workers[i] != Exited
    ensures exists j: nat :: j < |s.workers| && NextWorker(s, j) != s
  {
    if s.holder.WorkerThread? && s.holder.i < |s.workers| {
      assert s.workers[s.holder.i] == Locked;
      assert NextWorker(s, s.holder.i).holder == Nobody;
    } else {
      assert s.workers[i] != Locked && s.holder != MainThread;
      assert NextWorker(s, i) != s;
    }
  }

  function MainRank(m: Main): nat {
    match m
    case Returned => 0
    case Joining => 1
    case Stopping => 2
    case Polling | Deciding(_) => 3
    case Checking(_) => 4
    case Accepted(_) | SlotWait(_) => 5
    case Pushing(_) => 9
  }

  /** What all threads together have left to do once the stop flag is set. */
  function Left(s: Pool): nat { Work(s) + MainRank(s.main) }

  lemma StepAdvances(s: Pool, a: Action)
    requires Inv(s) && s.stop
    ensures Next(s, a).stop && (Next(s, a) == s || Left(Next(s, a)) < Left(s))
  {
    if a.WorkerStep? && a.i < |s.workers| { ShutdownAdvances(s, a.i); }
  }

  /** Nothing can move any more exactly when Run has returned. */
  lemma NobodyMovesExactlyWhenReturned(s: Pool)
    requires Inv(s) && s.stop
    ensures (forall a :: Next(s, a) == s) <==> s.main == Returned
  {
    if s.main == Returned {
      forall a ensures Next(s, a) == s {
        if a.WorkerStep? && a.i < |s.workers| { assert s.workers[a.i] == Exited; }
      }
    } else if s.main == Polling {
      assert Next(s, Poll(true, None)) != s;
    } else if s.main == Joining {
      JoinNeverHangs(s);
      if i: nat :| i < |s.workers| && NextWorker(s, i) != s { assert Next(s, WorkerStep(i)) != s; }
      assert NextMain(s) != s ==> Next(s, MainStep) != s;
    } else if s.holder.WorkerThread? && !MainHolds(s.main) {
      assert s.workers[s.holder.i] == Locked;
      assert Next(s, WorkerStep(s.holder.i)).holder == Nobody;
    } else {
      assert Next(s, MainStep) != s;
    }
  }

  /** How many of `more` change anything when they follow `actions`. */
  function Effective(workerCount: nat, actions: seq<Action>, more: seq<Action>): nat {
    if more == [] then 0
    else
      var before := more[..|more| - 1];
      var s := Run(workerCount, actions + before);
      Effective(workerCount, actions, before) + if Next(s, more[|more| - 1]) == s then 0 else 1
  }

  lemma RunGoesOn(workerCount: nat, actions: seq<Action>, more: seq<Action>)
    requires more != []
    ensures Run(workerCount, actions + more)
            == Next(Run(workerCount, actions + more[..|more| - 1]), more[|more| - 1])
  {
    assert (actions + more)[..|actions + more| - 1] == actions + more[..|more| - 1];
  }

  /** One more action: what it costs is taken from what is left. */
  lemma OneMoreStep(workerCount: nat, actions: seq<Action>, more: seq<Action>)
    requires workerCount >= 1 && more != []
    requires Run(workerCount, actions + more[..|more| - 1]).stop
    ensures
      var s := Run(workerCount, actions + more[..|more| - 1]);
      var n := Run(workerCount, actions + more);
      && n.stop
      && Effective(workerCount, actions, more) + Left(n) <= Effective(workerCount, actions, more[..|more| - 1]) + Left(s)
  {
    var s := Run(workerCount, actions + more[..|more| - 1]);
    RunKeepsInv(workerCount, actions + more[..|more| - 1]);
    StepAdvances(s, more[|more| - 1]);
    RunGoesOn(workerCount, actions, more);
  }

  lemma {:induction false} EffectiveIsBounded(workerCount: nat, actions: seq<Action>, more: seq<Action>)
    requires workerCount >= 1 && Run(workerCount, actions).stop
    ensures
      var n := Run(workerCount, actions + more);
      n.stop && Effective(workerCount, actions, more) + Left(n) <= Left(Run(workerCount, actions))
  {
    if more == [] {
      assert actions + more == actions;
    } else {
      EffectiveIsBounded(workerCount, actions, more[..|more| - 1]);
      OneMoreStep(workerCount, actions, more);
    }
  }

  /** Once stop has been requested, whatever the threads do in whatever order: no more than Left steps
      have any effect, and when none has an effect any more, Run has returned. */
  lemma StopLeadsToReturn(workerCount: nat, actions: seq<Action>, more: seq<Action>)
    requires workerCount >= 1 && Run(workerCount, actions).stop
    ensures
      var n := Run(workerCount, actions + more);
      && n.stop && Effective(workerCount, actions, more) + Left(n) <= Left(Run(workerCount, actions))
      && ((forall a :: Next(n, a) == n) <==> n.main == Returned)
  {
    EffectiveIsBounded(workerCount, actions, more);
    RunKeepsInv(workerCount, actions + more);
    NobodyMovesExactlyWhenReturned(Run(workerCount, actions + more));
  }
}
