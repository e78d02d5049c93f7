/** What the service promises over whole runs: any number of connections, interleaved at every
    shared access, with any access failing and the process stopping at any point. */
module ServiceTheorems {
  import opened Common
  import opened MetadataTables
  import opened Auth
  import opened Service
  import opened ServiceInvariant
  import opened ServiceSteps

  // ----- the snapshot forest -----

  /** Every incremental row's parent is a row of the same user and lineage one generation up, no row
      has two children, and following parents meets a full root after exactly `generation` links. */
  lemma EveryRunKeepsChainsRestorable(cfg: Config, actions: seq<Action>, id: string)
    requires id in Run(cfg, actions).world.tables.snapshots
    ensures
      var t := Run(cfg, actions).world.tables;
      var row := t.snapshots[id];
      && row.generation <= MAX_CHAIN_GENERATION
      && (row.kind == INCREMENTAL ==> HangsBelow(t, row) && row.generation >= 1)
      && (forall other :: other in t.snapshots && other != id && row.kind == INCREMENTAL
                  && t.snapshots[other].kind == INCREMENTAL
            ==> t.snapshots[other].parent != row.parent)
      && var root := Ancestor(t, id, row.generation);
         root.Some? && root.value.kind == FULL && root.value.user == row.user
  {
    RunKeepsInv(cfg, actions);
    var w := Run(cfg, actions).world;
    assert RowFits(w.tables, w.tables.snapshots[id]);
    assert RowOk(w, id) && Known(w, id);
    ChainReachesFullRoot(w.tables, id, w.tables.snapshots[id].generation);
  }

  // ----- which actions reach the tables and the history -----

  /** The action is a request between two requests or the next access of a request. */
  predicate Reaches(s: Server, a: Action) {
    (a.Frame? && a.c in s.conns && s.conns[a.c].pc == Idle) || (a.Proceed? && a.c in s.conns)
  }

  lemma OthersReachNothing(cfg: Config, s: Server, a: Action)
    requires !Reaches(s, a)
    ensures Next(cfg, s, a).world.tables == s.world.tables && Next(cfg, s, a).world.past == s.world.past
  {}

  /** The four accesses that write to a table or to the history of uploads. */
  predicate Writes(p: Pc) {
    || p.BeginOpen? || p == EndInsert
    || (p.Deleting? && p.snapshot.DelRow?) || (p.Leaving? && p.account.AccRow?)
  }

  lemma OtherAccess(cfg: Config, s: Server, c: nat, drawn: string, now: U64, ok: bool)
    requires c in s.conns && !Writes(s.conns[c].pc)
    ensures var n := Continue(cfg, s, c, drawn, now, ok).world; n.tables == s.world.tables && n.past == s.world.past
  {
    ContinueOutcome(cfg, s, c, drawn, now, ok);
    if s.conns[c].pc.Deleting? {
      OtherDelete(s, c, drawn, ok);
    } else if s.conns[c].pc.Leaving? {
      OtherLeave(s, c, drawn, ok);
    }
  }

  lemma OtherDelete(s: Server, c: nat, drawn: string, ok: bool)
    requires c in s.conns && s.conns[c].pc.Deleting? && !s.conns[c].pc.snapshot.DelRow?
    ensures var n := ContinueDelete(s, c, s.conns[c].pc.snapshot, drawn, ok).world;
            n.tables == s.world.tables && n.past == s.world.past
  {}

  lemma OtherLeave(s: Server, c: nat, drawn: string, ok: bool)
    requires c in s.conns && s.conns[c].pc.Leaving? && !s.conns[c].pc.account.AccRow?
    ensures var n := ContinueAccount(s, c, s.conns[c].pc.account, drawn, ok).world;
            n.tables == s.world.tables && n.past == s.world.past
  {}

  predicate Untouched(w: World, n: World) { n.tables == w.tables && n.past == w.past }

  predicate Opened(w: World, n: World, k: Conn, drawn: string) {
    && k.pc.BeginOpen? && n.tables == w.tables && drawn !in w.past.began
    && n.past == w.past.(began := w.past.began[drawn := Begun(drawn, k.user, k.pc.want, k.pc.generation)],
                         accepted := w.past.accepted[drawn := []])
  }

  predicate Inserted(w: World, n: World, k: Conn, now: U64) {
    && k.pc == EndInsert && k.upload.Some? && n.tables.tombstones == w.tables.tombstones
    && var b := k.upload.value.begun;
       n.tables.snapshots == w.tables.snapshots[b.id := RowOf(b, k.user, now)]
       && n.past == w.past.(recorded := w.past.recorded + {b.id})
  }

  predicate Removed(w: World, n: World) {
    n.tables.snapshots.Keys <= w.tables.snapshots.Keys && w.tables.tombstones <= n.tables.tombstones && n.past == w.past
  }

  /** What one access of a request does to the tables and to the history of uploads. */
  lemma AccessEffect(cfg: Config, s: Server, c: nat, drawn: string, now: U64, ok: bool)
    requires c in s.conns
    ensures
      var n := Continue(cfg, s, c, drawn, now, ok).world;
      || Untouched(s.world, n) || Opened(s.world, n, s.conns[c], drawn)
      || Inserted(s.world, n, s.conns[c], now) || Removed(s.world, n)
  {
    if !Writes(s.conns[c].pc) {
      OtherAccess(cfg, s, c, drawn, now, ok);
    } else if s.conns[c].pc.Deleting? || s.conns[c].pc.Leaving? {
      RemovingAccess(cfg, s, c, drawn, now, ok);
    } else if s.conns[c].pc == EndInsert {
      InsertAccess(cfg, s, c, drawn, now, ok);
    }
  }

  lemma InsertAccess(cfg: Config, s: Server, c: nat, drawn: string, now: U64, ok: bool)
    requires c in s.conns && s.conns[c].pc == EndInsert
    ensures var n := Continue(cfg, s, c, drawn, now, ok).world;
            Untouched(s.world, n) || Inserted(s.world, n, s.conns[c], now)
  {
    ContinueOutcome(cfg, s, c, drawn, now, ok);
  }

  lemma RemovingAccess(cfg: Config, s: Server, c: nat, drawn: string, now: U64, ok: bool)
    requires c in s.conns && Writes(s.conns[c].pc) && (s.conns[c].pc.Deleting? || s.conns[c].pc.Leaving?)
    ensures Removed(s.world, Continue(cfg, s, c, drawn, now, ok).world)
  {
    ContinueOutcome(cfg, s, c, drawn, now, ok);
    if s.conns[c].pc.Deleting? {
      RowOutcome(s, c, drawn, ok);
    } else {
      UserOutcome(s, c, drawn, ok);
    }
  }

  // ----- the bytes -----

  /** At every stopping point every row's bytes are under the user's directory, the user's trash or
      the account's quarantine, complete and with the recorded size and digest. */
  lemma EveryRunKeepsBytes(cfg: Config, actions: seq<Action>, id: string)
    requires id in Run(cfg, actions).world.tables.snapshots
    ensures
      var w := Run(cfg, actions).world;
      var row := w.tables.snapshots[id];
      && Located(w, id, row.user)
      && id in w.files && |w.files[id]| == row.size && cfg.sha256(w.files[id]) == row.sha256
  {
    RunKeepsInv(cfg, actions);
    assert RowOk(Run(cfg, actions).world, id);
    assert Settled(cfg, Run(cfg, actions).world, id);
  }

  /** The frame is an UPLOAD_CHUNK of the upload `id` that the server stores and acknowledges. */
  predicate Acknowledged(s: Server, a: Action, id: string) {
    && a.Frame? && a.request.UploadChunk? && a.c in s.conns
    && var k := s.conns[a.c];
    && k.pc == Idle && k.phase == Uploading && k.upload.Some? && k.upload.value.begun.id == id
    && var n := |a.request.payload|;
    && 0 < n <= TRANSFER_CHUNK && k.upload.value.received + n <= k.upload.value.begun.want.size
    && (a.request.written.Some? ==> a.request.written.value >= n)
  }

  /** The acknowledged chunks of upload `id`, in order. */
  ghost function ChunkLog(cfg: Config, actions: seq<Action>, id: string): Bytes {
    if actions == [] then []
    else
      var before, a := actions[..|actions| - 1], actions[|actions| - 1];
      ChunkLog(cfg, before, id) + (if Acknowledged(Run(cfg, before), a, id) then a.request.payload else [])
  }

  /** The action is the open() of an UPLOAD_BEGIN that drew `id`. */
  predicate Opens(s: Server, a: Action, id: string) {
    a.Proceed? && a.drawn == id && a.c in s.conns && s.conns[a.c].pc.BeginOpen?
  }

  /** What a frame or a continuation adds to the history of upload `id`. */
  ghost predicate Adds(s: Server, n: Server, id: string, bytes: Bytes) {
    id in s.world.past.began ==>
      && id in n.world.past.began && n.world.past.began[id] == s.world.past.began[id]
      && id in s.world.past.accepted && id in n.world.past.accepted
      && n.world.past.accepted[id] == s.world.past.accepted[id] + bytes
  }

  /** Histories grow only by acknowledged chunks and by opened uploads, in the opener's name. */
  lemma HistoryGrowth(cfg: Config, s: Server, a: Action, id: string)
    requires Inv(cfg, s)
    ensures Adds(s, Next(cfg, s, a), id, if Acknowledged(s, a, id) then a.request.payload else [])
    ensures var n := Next(cfg, s, a).world.past;
            id !in s.world.past.began && id in n.began
            ==> Opens(s, a, id) && n.began[id].user == s.conns[a.c].user && s.conns[a.c].phase == Authenticated
                && id in n.accepted && n.accepted[id] == []
  {
    BegunIsKnown(cfg, s, id);
    if !Reaches(s, a) {
      OthersReachNothing(cfg, s, a);
    } else if a.Frame? {
      FrameGrowth(cfg, s, a.c, a.request, id);
    } else {
      ProceedGrowth(cfg, s, a.c, a.drawn, a.now, a.ok, id);
    }
  }

  lemma BegunIsKnown(cfg: Config, s: Server, id: string)
    requires Inv(cfg, s)
    ensures id in s.world.past.began ==> Known(s.world, id)
  {}

  lemma AcknowledgedIsBegun(cfg: Config, s: Server, a: Action, id: string)
    requires Inv(cfg, s) && Acknowledged(s, a, id)
    ensures id in s.world.past.began
  {
    assert ConnOk(cfg, s.world, s.conns[a.c]);
  }

  lemma FrameGrowth(cfg: Config, s: Server, c: nat, r: Request, id: string)
    requires c in s.conns && s.conns[c].pc == Idle && ConnOk(cfg, s.world, s.conns[c])
    requires id in s.world.past.began ==> Known(s.world, id)
    ensures var n := Handle(cfg, s, c, r);
            && n.world.past.began == s.world.past.began && n.world.past.recorded == s.world.past.recorded
            && n.world.tables.snapshots == s.world.tables.snapshots
            && Adds(s, n, id, if Acknowledged(s, Frame(c, r), id) then r.payload else [])
  {
    if r.UploadChunk? {
      ChunkGrowth(cfg, s, c, r.payload, r.written, id);
    } else {
      OtherFrame(cfg, s, c, r);
    }
  }

  lemma OtherFrame(cfg: Config, s: Server, c: nat, r: Request)
    requires c in s.conns && !r.UploadChunk?
    ensures var n := Handle(cfg, s, c, r).world;
            && n.past == s.world.past.(created := n.past.created, order := n.past.order, grants := n.past.grants)
            && n.tables.snapshots == s.world.tables.snapshots
  {}

  lemma ChunkGrowth(cfg: Config, s: Server, c: nat, payload: Bytes, written: Option<nat>, id: string)
    requires c in s.conns && s.conns[c].pc == Idle && ConnOk(cfg, s.world, s.conns[c])
    requires id in s.world.past.began ==> Known(s.world, id)
    ensures Adds(s, DoChunk(s, c, payload, written), id,
                 if Acknowledged(s, Frame(c, UploadChunk(payload, written)), id) then payload else [])
  {}

  lemma ProceedGrowth(cfg: Config, s: Server, c: nat, drawn: string, now: U64, ok: bool, id: string)
    requires c in s.conns && ConnOk(cfg, s.world, s.conns[c])
    requires id in s.world.past.began ==> Known(s.world, id)
    ensures var n := Continue(cfg, s, c, drawn, now, ok);
            && Adds(s, n, id, [])
            && (id !in s.world.past.began && id in n.world.past.began
                ==> s.conns[c].pc.BeginOpen? && drawn == id && s.conns[c].phase == Authenticated
                    && n.world.past.began[id].user == s.conns[c].user
                    && id in n.world.past.accepted && n.world.past.accepted[id] == [])
  {
    AccessEffect(cfg, s, c, drawn, now, ok);
  }

  lemma {:induction false} AcceptedIsChunkLog(cfg: Config, actions: seq<Action>, id: string)
    ensures var past := Run(cfg, actions).world.past;
            if id in past.began then id in past.accepted && past.accepted[id] == ChunkLog(cfg, actions, id)
            else ChunkLog(cfg, actions, id) == []
  {
    if actions != [] {
      var before, a := actions[..|actions| - 1], actions[|actions| - 1];
      AcceptedIsChunkLog(cfg, before, id);
      RunKeepsInv(cfg, before);
      HistoryGrowth(cfg, Run(cfg, before), a, id);
      if Acknowledged(Run(cfg, before), a, id) { AcknowledgedIsBegun(cfg, Run(cfg, before), a, id); }
    }
  }

  /** A row's file is the concatenation of the chunks acknowledged since its UPLOAD_BEGIN, of the
      declared length and digest, and the row is exactly what that UPLOAD_BEGIN declared, owned by
      the account whose session began it. */
  lemma EveryRowIsItsUpload(cfg: Config, actions: seq<Action>, id: string)
    requires id in Run(cfg, actions).world.tables.snapshots
    ensures
      var w := Run(cfg, actions).world;
      && id in w.files && w.files[id] == ChunkLog(cfg, actions, id)
      && id in w.past.began
      && var b := w.past.began[id];
      && w.tables.snapshots[id] == RowOf(b, b.user, w.tables.snapshots[id].createdAt)
      && |ChunkLog(cfg, actions, id)| == b.want.size && cfg.sha256(ChunkLog(cfg, actions, id)) == b.want.sha256
  {
    RunKeepsInv(cfg, actions);
    assert RowOk(Run(cfg, actions).world, id);
    assert Settled(cfg, Run(cfg, actions).world, id);
    AcceptedIsChunkLog(cfg, actions, id);
  }

  // ----- rows appear only through their uploader, and a deleted row stays deleted -----

  /** The action is the InsertSnapshot of the UPLOAD_END of upload `id`. */
  predicate Inserts(s: Server, a: Action, id: string) {
    && a.Proceed? && a.c in s.conns
    && var k := s.conns[a.c];
    k.pc == EndInsert && k.phase == Uploading && k.upload.Some? && k.upload.value.begun.id == id
  }

  lemma RowsAppearOnlyThroughTheirUploader(cfg: Config, actions: seq<Action>, a: Action, id: string)
    requires id !in Run(cfg, actions).world.tables.snapshots
    requires id in Next(cfg, Run(cfg, actions), a).world.tables.snapshots
    ensures
      var s := Run(cfg, actions);
      && Inserts(s, a, id) && id !in s.world.past.recorded && id in s.world.past.began
      && Next(cfg, s, a).world.tables.snapshots[id].user == s.conns[a.c].user == s.world.past.began[id].user
  {
    RunKeepsInv(cfg, actions);
    NewRow(cfg, Run(cfg, actions), a, id);
  }

  lemma NewRow(cfg: Config, s: Server, a: Action, id: string)
    requires Inv(cfg, s) && id !in s.world.tables.snapshots && id in Next(cfg, s, a).world.tables.snapshots
    ensures
      && Inserts(s, a, id) && id !in s.world.past.recorded && id in s.world.past.began
      && Next(cfg, s, a).world.tables.snapshots[id].user == s.conns[a.c].user == s.world.past.began[id].user
  {
    if !Reaches(s, a) {
      OthersReachNothing(cfg, s, a);
    } else if a.Frame? {
      FrameRows(cfg, s, a.c, a.request);
    } else {
      ProceedRows(cfg, s, a.c, a.drawn, a.now, a.ok, id);
    }
  }

  lemma FrameRows(cfg: Config, s: Server, c: nat, r: Request)
    requires c in s.conns
    ensures Handle(cfg, s, c, r).world.tables.snapshots == s.world.tables.snapshots
    ensures Handle(cfg, s, c, r).world.past.recorded == s.world.past.recorded
  {
    if !r.UploadChunk? { OtherFrame(cfg, s, c, r); }
  }

  lemma ProceedRows(cfg: Config, s: Server, c: nat, drawn: string, now: U64, ok: bool, id: string)
    requires c in s.conns && ConnOk(cfg, s.world, s.conns[c])
    ensures var n := Continue(cfg, s, c, drawn, now, ok).world;
            id in n.tables.snapshots && id !in s.world.tables.snapshots
            ==> Inserts(s, Proceed(c, drawn, now, ok), id) && id !in s.world.past.recorded && id in s.world.past.began
                && n.tables.snapshots[id].user == s.conns[c].user == s.world.past.began[id].user
  {
    AccessEffect(cfg, s, c, drawn, now, ok);
  }

  lemma ProceedRecorded(cfg: Config, s: Server, c: nat, drawn: string, now: U64, ok: bool)
    requires c in s.conns
    ensures s.world.past.recorded <= Continue(cfg, s, c, drawn, now, ok).world.past.recorded
  {
    AccessEffect(cfg, s, c, drawn, now, ok);
  }

  /** A snapshot whose row has been deleted never gets a row again. */
  lemma DeletedRowsStayDeleted(cfg: Config, actions: seq<Action>, more: seq<Action>, id: string)
    requires id in Run(cfg, actions).world.past.recorded && id !in Run(cfg, actions).world.tables.snapshots
    ensures var w := Run(cfg, actions + more).world; id in w.past.recorded && id !in w.tables.snapshots
    decreases |more|
  {
    if more == [] {
      assert actions + more == actions;
    } else {
      var before, a := more[..|more| - 1], more[|more| - 1];
      DeletedRowsStayDeleted(cfg, actions, before, id);
      RunKeepsInv(cfg, actions + before);
      DeletedRowStays(cfg, Run(cfg, actions + before), a, id);
      RunGoesOn(cfg, actions, more);
    }
  }

  lemma DeletedRowStays(cfg: Config, s: Server, a: Action, id: string)
    requires Inv(cfg, s) && id in s.world.past.recorded && id !in s.world.tables.snapshots
    ensures id in Next(cfg, s, a).world.past.recorded && id !in Next(cfg, s, a).world.tables.snapshots
  {
    RecordedStays(cfg, s, a, id);
    if id in Next(cfg, s, a).world.tables.snapshots {
      NewRow(cfg, s, a, id);
    }
  }

  lemma RecordedStays(cfg: Config, s: Server, a: Action, id: string)
    requires id in s.world.past.recorded
    ensures id in Next(cfg, s, a).world.past.recorded
  {
    if !Reaches(s, a) {
      OthersReachNothing(cfg, s, a);
    } else if a.Frame? {
      FrameRows(cfg, s, a.c, a.request);
    } else {
      ProceedRecorded(cfg, s, a.c, a.drawn, a.now, a.ok);
    }
  }

  // ----- accounts and tokens -----

  /** No user id is allocated twice, and every id in use or given up was allocated. */
  lemma NoUserIdTwice(cfg: Config, actions: seq<Action>)
    ensures var w := Run(cfg, actions).world;
            && (forall i, j :: 0 <= i < j < |w.past.order| ==> w.past.order[i] != w.past.order[j])
            && (forall u :: u in w.past.order <==> u in w.tables.users || u in w.tables.tombstones)
            && w.tables.users.Keys !! w.tables.tombstones
  {
    RunKeepsInv(cfg, actions);
  }

  /** A token handed out by a login opens a session exactly while its account exists and its expiry
      second has not been reached, and the session is that of the very account record the login saw. */
  lemma IssuedTokenResumesItsAccount(cfg: Config, actions: seq<Action>, g: Grant, c: nat, now: U64)
    requires g in Run(cfg, actions).world.past.grants && MaySignIn(Run(cfg, actions), c)
    ensures
      var s := Run(cfg, actions);
      var n := Next(cfg, s, Frame(c, Resume(g.token, now, true)));
      var resumed := n.conns[c].phase == Authenticated;
      && c in n.conns && n.world == s.world
      && (resumed <==> g.user in s.world.tables.users && now < Expiry(g.at))
      && (resumed ==> n.conns[c].user == g.user && s.world.tables.users[g.user] == g.account
                      && g.user !in s.world.tables.tombstones)
      && (!resumed ==> n == s)
  {
    var s := Run(cfg, actions);
    GrantsAreOk(cfg, actions, g);
    ResumeFrame(cfg, s, c, g.token, now);
    ResumeOutcome(cfg, s, g, c, now);
  }

  lemma GrantsAreOk(cfg: Config, actions: seq<Action>, g: Grant)
    requires g in Run(cfg, actions).world.past.grants
    ensures
      var w := Run(cfg, actions).world;
      && GrantOk(cfg, w, g) && 1 <= g.user <= MAX_USER_ID
      && (g.user in w.tables.users ==> w.tables.users[g.user] == g.account && g.user !in w.tables.tombstones)
  {
    RunKeepsInv(cfg, actions);
    assert GrantOk(cfg, Run(cfg, actions).world, g);
  }

  lemma ResumeFrame(cfg: Config, s: Server, c: nat, token: Bytes, now: U64)
    requires MaySignIn(s, c)
    ensures Next(cfg, s, Frame(c, Resume(token, now, true))) == DoResume(cfg, s, c, token, now)
  {}

  predicate MaySignIn(s: Server, c: nat) {
    c in s.conns && s.conns[c].pc == Idle && s.conns[c].phase == Connected
  }

  lemma ResumeOutcome(cfg: Config, s: Server, g: Grant, c: nat, now: U64)
    requires MaySignIn(s, c) && GrantOk(cfg, s.world, g) && 1 <= g.user <= MAX_USER_ID
    ensures DoResume(cfg, s, c, g.token, now)
            == if g.user in s.world.tables.users && now < Expiry(g.at)
               then Put(s, c, s.conns[c].(phase := Authenticated, user := g.user)) else s
  {
    CastUnchanged(g.user);
    GrantVerdict(cfg, s.world, g, now);
    ResumeByVerdict(cfg, s, c, g.token, now, g.user, g.at);
  }

  lemma CastUnchanged(user: int)
    requires 1 <= user <= MAX_USER_ID
    ensures ToU64(user) == user && ToI64(user) == user
  {}

  lemma GrantVerdict(cfg: Config, w: World, g: Grant, now: U64)
    requires GrantOk(cfg, w, g) && ToU64(g.user) == g.user && g.user >= 1
    ensures |g.token| == TOKEN_HEX_BYTES
    ensures Verify(cfg.key, g.token, now) == if now < Expiry(g.at) then Some(Payload(g.user, g.at, Expiry(g.at))) else None
  {
    var user: U64 := g.user;
    var nonce :| g.token == Token(cfg.key, user, g.at, nonce);
    IssuedTokenVerifiesUntilExpiry(cfg.key, user, g.at, nonce, now);
  }

  lemma ResumeByVerdict(cfg: Config, s: Server, c: nat, token: Bytes, now: U64, user: U64, at: U64)
    requires MaySignIn(s, c) && |token| == TOKEN_HEX_BYTES && user <= MAX_USER_ID
    requires Verify(cfg.key, token, now) == if now < Expiry(at) then Some(Payload(user, at, Expiry(at))) else None
    ensures DoResume(cfg, s, c, token, now)
            == if user in s.world.tables.users && now < Expiry(at)
               then Put(s, c, s.conns[c].(phase := Authenticated, user := user)) else s
  {}

  /** Once an account is deleted its id is in no later users table. */
  lemma DeletedAccountsStayDeleted(cfg: Config, actions: seq<Action>, more: seq<Action>, u: int)
    requires u in Run(cfg, actions).world.tables.tombstones
    ensures var w := Run(cfg, actions + more).world; u in w.tables.tombstones && u !in w.tables.users
    decreases |more|
  {
    if more == [] {
      assert actions + more == actions;
    } else {
      var before, a := more[..|more| - 1], more[|more| - 1];
      DeletedAccountsStayDeleted(cfg, actions, before, u);
      TombstonesStay(cfg, Run(cfg, actions + before), a, u);
      RunGoesOn(cfg, actions, more);
    }
    DeletedIsNoUser(cfg, actions + more, u);
  }

  lemma RunGoesOn(cfg: Config, actions: seq<Action>, more: seq<Action>)
    requires more != []
    ensures Run(cfg, actions + more) == Next(cfg, Run(cfg, actions + more[..|more| - 1]), more[|more| - 1])
  {
    var whole := actions + more;
    assert whole[..|whole| - 1] == actions + more[..|more| - 1] && whole[|whole| - 1] == more[|more| - 1];
    RunUnfolds(cfg, whole);
  }

  lemma RunUnfolds(cfg: Config, actions: seq<Action>)
    requires actions != []
    ensures Run(cfg, actions) == Next(cfg, Run(cfg, actions[..|actions| - 1]), actions[|actions| - 1])
  {}

  lemma DeletedIsNoUser(cfg: Config, actions: seq<Action>, u: int)
    ensures u in Run(cfg, actions).world.tables.tombstones ==> u !in Run(cfg, actions).world.tables.users
  {
    RunKeepsInv(cfg, actions);
    assert IdsApart(Run(cfg, actions).world.tables);
  }

  lemma TombstonesStay(cfg: Config, s: Server, a: Action, u: int)
    requires u in s.world.tables.tombstones
    ensures u in Next(cfg, s, a).world.tables.tombstones
  {
    if !Reaches(s, a) {
      OthersReachNothing(cfg, s, a);
    } else if a.Frame? {
      FrameTombstones(cfg, s, a.c, a.request);
    } else {
      ProceedTombstones(cfg, s, a.c, a.drawn, a.now, a.ok, u);
    }
  }

  lemma FrameTombstones(cfg: Config, s: Server, c: nat, r: Request)
    requires c in s.conns
    ensures Handle(cfg, s, c, r).world.tables.tombstones == s.world.tables.tombstones
  {}

  lemma ProceedTombstones(cfg: Config, s: Server, c: nat, drawn: string, now: U64, ok: bool, u: int)
    requires c in s.conns && u in s.world.tables.tombstones
    ensures u in Continue(cfg, s, c, drawn, now, ok).world.tables.tombstones
  {
    AccessEffect(cfg, s, c, drawn, now, ok);
  }

  /** So a token of a deleted account never resumes again, whatever happens afterwards. */
  lemma DeletedAccountsTokensAreDead(cfg: Config, actions: seq<Action>, more: seq<Action>, g: Grant, c: nat, now: U64)
    requires g in Run(cfg, actions + more).world.past.grants && g.user in Run(cfg, actions).world.tables.tombstones
    requires MaySignIn(Run(cfg, actions + more), c)
    ensures var s := Run(cfg, actions + more); Next(cfg, s, Frame(c, Resume(g.token, now, true))) == s
  {
    DeletedAccountsStayDeleted(cfg, actions, more, g.user);
    IssuedTokenResumesItsAccount(cfg, actions + more, g, c, now);
  }

  // ----- downloads -----

  /** What a download has sent is a prefix of the bytes acknowledged for a snapshot the downloading
      account uploaded itself. */
  lemma DownloadsServeTheUploadedBytes(cfg: Config, actions: seq<Action>, c: nat)
    requires c in Run(cfg, actions).conns && Run(cfg, actions).conns[c].phase == Downloading
    ensures
      var s := Run(cfg, actions);
      && s.conns[c].download.Some?
      && var d := s.conns[c].download.value;
      && d.id in s.world.past.began && s.world.past.began[d.id].user == s.conns[c].user
      && d.served <= ChunkLog(cfg, actions, d.id)
      && (d.sent == d.size ==> d.served == ChunkLog(cfg, actions, d.id))
  {
    RunKeepsInv(cfg, actions);
    var s := Run(cfg, actions);
    assert ConnOk(cfg, s.world, s.conns[c]);
    var d := s.conns[c].download.value;
    assert Settled(cfg, s.world, d.id);
    AcceptedIsChunkLog(cfg, actions, d.id);
  }
}
