/** Each action of module Service keeps the invariant. */
module ServiceSteps {
  import opened Common
  import opened MetadataTables
  import opened Auth
  import opened Service
  import opened ServiceInvariant

  // ----- steps that touch only the data directory -----

  /** A disk-only step: it suffices that what is still needed stays located. */
  lemma DiskStep(cfg: Config, s: Server, n: World, c: nat, k: Conn, own: string)
    requires Inv(cfg, s) && c in s.conns
    requires n == s.world.(disk := n.disk, quarantine := n.quarantine) && Keeps(s.world, n, own)
    requires own !in s.world.past.recorded && forall d :: d in s.conns && d != c ==> NotIts(s.conns[d], own)
    requires k.upload == s.conns[c].upload || k.upload.None?
    requires ConnOk(cfg, n, k)
    ensures Inv(cfg, Act(s, n, c, k))
  {
    assert HistoryOk(cfg, n) by {
      forall g | g in n.past.grants ensures GrantOk(cfg, n, g) { assert GrantOk(cfg, s.world, g); }
    }
    assert TablesOk(n);
    Assemble(cfg, s, n, c, k, own);
  }

  /** Away from EndInsert a connection's condition does not read the directory tree. */
  lemma DiskFree(cfg: Config, w: World, n: World, k: Conn)
    requires n == w.(disk := n.disk, quarantine := n.quarantine) && ConnOk(cfg, w, k) && k.pc != EndInsert
    ensures ConnOk(cfg, n, k)
  {}

  predicate Needed(w: World, id: string) { id in w.tables.snapshots || id !in w.past.recorded }

  /** A step that replaces one user's directory by one holding every id still needed. */
  lemma DirStep(cfg: Config, s: Server, u: int, d: Dir, c: nat, k: Conn)
    requires Inv(cfg, s) && c in s.conns && ConnOk(cfg, s.world, k) && k.pc != EndInsert
    requires u in s.world.disk ==> forall id: string :: Needed(s.world, id) && InDir(s.world.disk[u], id) ==> InDir(d, id)
    requires k.upload == s.conns[c].upload || k.upload.None?
    ensures Inv(cfg, Act(s, s.world.(disk := s.world.disk[u := d]), c, k))
  {
    var n := s.world.(disk := s.world.disk[u := d]);
    DirReplaced(s.world, u, d);
    DiskFree(cfg, s.world, n, k);
    DiskStep(cfg, s, n, c, k, "");
  }

  lemma DirReplaced(w: World, u: int, d: Dir)
    requires u in w.disk ==> forall id: string :: Needed(w, id) && InDir(w.disk[u], id) ==> InDir(d, id)
    ensures Keeps(w, w.(disk := w.disk[u := d]), "")
  {
    var n := w.(disk := w.disk[u := d]);
    forall id: string, x: int | Needed(w, id) && Located(w, id, x) ensures Located(n, id, x) {
      if y: string :| InQuarantine(w, (x, y), id) { assert InQuarantine(n, (x, y), id); }
    }
  }

  lemma RemovePartKeeps(w: World, k: Conn, ok: bool)
    ensures Keeps(w, RemovePart(w, k, ok), "")
  {
    if ok && k.upload.Some? && k.upload.value.begun.user in w.disk {
      var u := k.upload.value.begun.user;
      var d := w.disk[u];
      if d.tmp.Some? { DirReplaced(w, u, d.(tmp := Some(d.tmp.value - {k.upload.value.begun.id}))); }
    }
  }

  lemma AbortStep(cfg: Config, s: Server, c: nat, ok: bool)
    requires Inv(cfg, s) && c in s.conns && s.conns[c].pc == Aborting
    ensures Inv(cfg, Act(s, RemovePart(s.world, s.conns[c], ok), c, ResetUpload(s.conns[c])))
  {
    var k := s.conns[c];
    RemovePartKeeps(s.world, k, ok);
    DiskStep(cfg, s, RemovePart(s.world, k, ok), c, ResetUpload(k), "");
  }

  lemma DisconnectStep(cfg: Config, s: Server, c: nat, ok: bool)
    requires Inv(cfg, s) && c in s.conns
    ensures Inv(cfg, DoDisconnect(s, c, ok))
  {
    var k := s.conns[c];
    var n := if k.phase == Uploading || k.fdOpen then RemovePart(s.world, k, ok) else s.world;
    RemovePartKeeps(s.world, k, ok);
    DiskStep(cfg, s, n, c, NEW_CONN, "");
    var m := Act(s, n, c, NEW_CONN);
    assert s.conns - {c} == m.conns - {c};
    DropConn(cfg, m, c);
  }

  lemma DropConn(cfg: Config, s: Server, c: nat)
    requires Inv(cfg, s)
    ensures Inv(cfg, Server(s.world, s.conns - {c}))
  {}

  lemma DirsStep(cfg: Config, s: Server, c: nat, w: Want, g: nat, stage: nat, ok: bool)
    requires Inv(cfg, s) && c in s.conns && s.conns[c].pc == BeginDirs(w, g, stage)
    ensures Inv(cfg, ContinueDirs(s, c, w, g, stage, ok))
  {
    var k := s.conns[c];
    var u := k.user;
    if !ok {
      LocalStep(cfg, s, c, k.(pc := Idle));
    } else if u !in s.world.disk {
      DirStep(cfg, s, u, EMPTY_DIR, c, k.(pc := BeginDirs(w, g, if stage == 0 then 1 else stage)));
    } else {
      var d := s.world.disk[u];
      var d1 := if stage == 0 then d else if stage == 1 then (if d.tmp.None? then d.(tmp := Some({})) else d) else WithTrash(d);
      var k1 := k.(pc := if stage == 0 then BeginDirs(w, g, 1) else if stage == 1 then BeginDirs(w, g, 2) else BeginOpen(w, g));
      DirStep(cfg, s, u, d1, c, k1);
    }
  }

  /** A step that only moves on within its request. */
  lemma PcStep(cfg: Config, s: Server, c: nat, p: Pc)
    requires Inv(cfg, s) && c in s.conns && PcOk(cfg, s.world, s.conns[c].(pc := p))
    requires s.conns[c].pc == Aborting ==> p == Aborting
    ensures Inv(cfg, Put(s, c, s.conns[c].(pc := p)))
  {
    LocalStep(cfg, s, c, s.conns[c].(pc := p));
  }

  // ----- deleting a snapshot -----

  lemma RenameToTrashKeeps(d: Dir, id: string, suffix: string)
    requires d.trash.Some?
    ensures var n := d.(blobs := d.blobs - {id}, trash := Some(d.trash.value + {(id, suffix)}));
            forall x: string :: InDir(d, x) ==> InDir(n, x)
  {
    var n := d.(blobs := d.blobs - {id}, trash := Some(d.trash.value + {(id, suffix)}));
    assert (id, suffix) in n.trash.value;
    forall x: string | InDir(d, x) ensures InDir(n, x) {
      if p :| p in d.trash.value && p.0 == x { assert p in n.trash.value; }
    }
  }

  lemma LeaveTrashKeeps(d: Dir, id: string, suffix: string)
    requires d.trash.Some?
    ensures var n := d.(trash := Some(d.trash.value - {(id, suffix)}));
            forall x: string :: x != id && InDir(d, x) ==> InDir(n, x)
  {
    var n := d.(trash := Some(d.trash.value - {(id, suffix)}));
    forall x: string | x != id && InDir(d, x) ensures InDir(n, x) {
      if p :| p in d.trash.value && p.0 == x { assert p in n.trash.value; }
    }
  }

  lemma DeleteRenameStep(cfg: Config, s: Server, c: nat, drawn: string, ok: bool)
    requires Inv(cfg, s) && c in s.conns && s.conns[c].pc.Deleting? && s.conns[c].pc.snapshot.DelRename?
    ensures Inv(cfg, ContinueDelete(s, c, s.conns[c].pc.snapshot, drawn, ok))
  {
    var k := s.conns[c];
    var u, id := k.user, k.pc.snapshot.id;
    if !ok || u !in s.world.disk || id !in s.world.disk[u].blobs || s.world.disk[u].trash.None? {
      LocalStep(cfg, s, c, k.(pc := Idle));
    } else {
      var d := s.world.disk[u];
      RenameToTrashKeeps(d, id, drawn);
      var d1 := d.(blobs := d.blobs - {id}, trash := Some(d.trash.value + {(id, drawn)}));
      DirStep(cfg, s, u, d1, c, k.(pc := Deleting(DelRow(id, drawn))));
    }
  }

  lemma DeleteRestoreStep(cfg: Config, s: Server, c: nat, drawn: string, ok: bool)
    requires Inv(cfg, s) && c in s.conns && s.conns[c].pc.Deleting? && s.conns[c].pc.snapshot.DelRestore?
    ensures Inv(cfg, ContinueDelete(s, c, s.conns[c].pc.snapshot, drawn, ok))
  {
    var k := s.conns[c];
    var u, id, suffix := k.user, k.pc.snapshot.id, k.pc.snapshot.suffix;
    if !ok || u !in s.world.disk || s.world.disk[u].trash.None? || (id, suffix) !in s.world.disk[u].trash.value {
      LocalStep(cfg, s, c, k.(pc := Idle));
    } else {
      var d := s.world.disk[u];
      var d1 := d.(blobs := d.blobs + {id}, trash := Some(d.trash.value - {(id, suffix)}));
      LeaveTrashKeeps(d, id, suffix);
      forall x: string | InDir(d, x) ensures InDir(d1, x) {
        if x != id { assert InDir(d.(trash := d1.trash), x); }
      }
      DirStep(cfg, s, u, d1, c, k.(pc := Idle));
    }
  }

  lemma DeleteUnlinkStep(cfg: Config, s: Server, c: nat, drawn: string, ok: bool)
    requires Inv(cfg, s) && c in s.conns && s.conns[c].pc.Deleting? && s.conns[c].pc.snapshot.DelUnlink?
    ensures Inv(cfg, ContinueDelete(s, c, s.conns[c].pc.snapshot, drawn, ok))
  {
    var k := s.conns[c];
    var u, id, suffix := k.user, k.pc.snapshot.id, k.pc.snapshot.suffix;
    if !ok || u !in s.world.disk || s.world.disk[u].trash.None? {
      LocalStep(cfg, s, c, k.(pc := Idle));
    } else {
      var d := s.world.disk[u];
      var d1 := d.(trash := Some(d.trash.value - {(id, suffix)}));
      LeaveTrashKeeps(d, id, suffix);
      DirStep(cfg, s, u, d1, c, k.(pc := Idle));
    }
  }

  lemma DeleteRowStep(cfg: Config, s: Server, c: nat, drawn: string, ok: bool)
    requires Inv(cfg, s) && c in s.conns && s.conns[c].pc.Deleting? && s.conns[c].pc.snapshot.DelRow?
    ensures Inv(cfg, ContinueDelete(s, c, s.conns[c].pc.snapshot, drawn, ok))
  {
    var k := s.conns[c];
    var u, id, suffix := k.user, k.pc.snapshot.id, k.pc.snapshot.suffix;
    var (t, r) := DeleteSnapshot(s.world.tables, u, id);
    RowOutcome(s, c, drawn, ok);
    if !ok || r != Done {
      PcStep(cfg, s, c, Deleting(DelRestore(id, suffix)));
    } else {
      RowGone(cfg, s, c);
    }
  }

  lemma RowGone(cfg: Config, s: Server, c: nat)
    requires Inv(cfg, s) && c in s.conns && s.conns[c].pc.Deleting? && s.conns[c].pc.snapshot.DelRow?
    requires DeleteSnapshot(s.world.tables, s.conns[c].user, s.conns[c].pc.snapshot.id).1 == Done
    ensures
      var k := s.conns[c];
      var id, suffix := k.pc.snapshot.id, k.pc.snapshot.suffix;
      Inv(cfg, Act(s, s.world.(tables := DeleteSnapshot(s.world.tables, k.user, id).0), c, k.(pc := Deleting(DelUnlink(id, suffix)))))
  {
    var k := s.conns[c];
    var id, suffix := k.pc.snapshot.id, k.pc.snapshot.suffix;
    var n := s.world.(tables := DeleteSnapshot(s.world.tables, k.user, id).0);
    RowRemoved(cfg, s, k.user, id);
    OtherConnKept(cfg, s.world, n, "", k.(pc := Idle));
    Assemble(cfg, s, n, c, k.(pc := Deleting(DelUnlink(id, suffix))), "");
  }

  lemma RowOutcome(s: Server, c: nat, drawn: string, ok: bool)
    requires c in s.conns && s.conns[c].pc.Deleting? && s.conns[c].pc.snapshot.DelRow?
    ensures
      var k := s.conns[c];
      var id, suffix := k.pc.snapshot.id, k.pc.snapshot.suffix;
      var (t, r) := DeleteSnapshot(s.world.tables, k.user, id);
      ContinueDelete(s, c, k.pc.snapshot, drawn, ok)
      == if !ok || r != Done then Put(s, c, k.(pc := Deleting(DelRestore(id, suffix))))
         else Act(s, s.world.(tables := t), c, k.(pc := Deleting(DelUnlink(id, suffix))))
  {}

  lemma RowRemoved(cfg: Config, s: Server, u: int, id: string)
    requires WorldOk(cfg, s.world) && DeleteSnapshot(s.world.tables, u, id).1 == Done
    ensures var n := s.world.(tables := DeleteSnapshot(s.world.tables, u, id).0);
            TablesOk(n) && Gentle(s.world, n, "") && HistoryOk(cfg, n) && id in n.past.recorded && id !in n.tables.snapshots
  {
    var n := s.world.(tables := DeleteSnapshot(s.world.tables, u, id).0);
    RowRemovedTables(s.world, n, u, id);
    assert RowOk(s.world, id);
    FewerRows(cfg, s, n);
  }

  lemma RowRemovedTables(w: World, n: World, u: int, id: string)
    requires TablesOk(w) && DeleteSnapshot(w.tables, u, id) == (n.tables, Done) && n.past == w.past
    ensures TablesOk(n)
  {
    DeleteAcceptsExactlyForests(w.tables, u, id);
  }

  /** Removing rows, and possibly giving up accounts, disturbs nobody. */
  lemma FewerRows(cfg: Config, s: Server, n: World)
    requires WorldOk(cfg, s.world) && n == s.world.(tables := n.tables) && TablesOk(n)
    requires forall id :: id in n.tables.snapshots ==>
               id in s.world.tables.snapshots && n.tables.snapshots[id] == s.world.tables.snapshots[id]
    requires forall u :: u in s.world.tables.tombstones ==> u in n.tables.tombstones
    ensures Gentle(s.world, n, "") && HistoryOk(cfg, n)
  {
    forall g | g in n.past.grants ensures GrantOk(cfg, n, g) { assert GrantOk(cfg, s.world, g); }
    SamePlaces(s.world, n);
  }

  lemma DeleteFindStep(cfg: Config, s: Server, c: nat, drawn: string, ok: bool)
    requires Inv(cfg, s) && c in s.conns && s.conns[c].pc.Deleting? && s.conns[c].pc.snapshot.DelFind?
    ensures Inv(cfg, ContinueDelete(s, c, s.conns[c].pc.snapshot, drawn, ok))
  {
    var k := s.conns[c];
    var found := FindSnapshot(s.world.tables, k.user, k.pc.snapshot.id);
    FindOutcome(s, c, drawn, ok);
    LocalStep(cfg, s, c, k.(pc := if ok && found.Some? then Deleting(DelCount(found.value)) else Idle));
  }

  lemma FindOutcome(s: Server, c: nat, drawn: string, ok: bool)
    requires c in s.conns && s.conns[c].pc.Deleting? && s.conns[c].pc.snapshot.DelFind?
    ensures
      var k := s.conns[c];
      var found := FindSnapshot(s.world.tables, k.user, k.pc.snapshot.id);
      ContinueDelete(s, c, k.pc.snapshot, drawn, ok)
      == Put(s, c, k.(pc := if ok && found.Some? then Deleting(DelCount(found.value)) else Idle))
  {}

  lemma DeleteTrashStep(cfg: Config, s: Server, c: nat, drawn: string, ok: bool)
    requires Inv(cfg, s) && c in s.conns && s.conns[c].pc.Deleting? && s.conns[c].pc.snapshot.DelTrashDir?
    ensures Inv(cfg, ContinueDelete(s, c, s.conns[c].pc.snapshot, drawn, ok))
  {
    var k := s.conns[c];
    if !ok || k.user !in s.world.disk {
      LocalStep(cfg, s, c, k.(pc := Idle));
    } else {
      DirStep(cfg, s, k.user, WithTrash(s.world.disk[k.user]), c, k.(pc := Deleting(DelRename(k.pc.snapshot.id))));
    }
  }

  lemma DeleteSteps(cfg: Config, s: Server, c: nat, drawn: string, ok: bool)
    requires Inv(cfg, s) && c in s.conns && s.conns[c].pc.Deleting?
    ensures Inv(cfg, ContinueDelete(s, c, s.conns[c].pc.snapshot, drawn, ok))
  {
    var k := s.conns[c];
    match k.pc.snapshot
    case DelFind(_) => DeleteFindStep(cfg, s, c, drawn, ok);
    case DelCount(row) =>
      CountOutcome(s, c, drawn, ok);
      LocalStep(cfg, s, c, k.(pc := if !ok || HasChildren(s.world.tables, k.user, row.id) || !Canonical(row) then Idle
                                    else Deleting(DelTrashDir(row.id))));
    case DelTrashDir(_) => DeleteTrashStep(cfg, s, c, drawn, ok);
    case DelRename(_) => DeleteRenameStep(cfg, s, c, drawn, ok);
    case DelRow(_, _) => DeleteRowStep(cfg, s, c, drawn, ok);
    case DelUnlink(_, _) => DeleteUnlinkStep(cfg, s, c, drawn, ok);
    case DelRestore(_, _) => DeleteRestoreStep(cfg, s, c, drawn, ok);
  }

  lemma CountOutcome(s: Server, c: nat, drawn: string, ok: bool)
    requires c in s.conns && s.conns[c].pc.Deleting? && s.conns[c].pc.snapshot.DelCount?
    ensures
      var k := s.conns[c];
      var row := k.pc.snapshot.row;
      ContinueDelete(s, c, k.pc.snapshot, drawn, ok)
      == Put(s, c, k.(pc := if !ok || HasChildren(s.world.tables, k.user, row.id) || !Canonical(row) then Idle
                            else Deleting(DelTrashDir(row.id))))
  {}

  // ----- deleting an account -----

  lemma QuarantineStep(cfg: Config, s: Server, c: nat, drawn: string)
    requires Inv(cfg, s) && c in s.conns && s.conns[c].pc == Leaving(AccRename) && s.conns[c].user in s.world.disk
    requires (s.conns[c].user, drawn) in s.world.quarantine ==> s.world.quarantine[(s.conns[c].user, drawn)] == EMPTY_DIR
    ensures Inv(cfg, ContinueAccount(s, c, s.conns[c].pc.account, drawn, true))
  {
    var k := s.conns[c];
    var u := k.user;
    var n := s.world.(disk := s.world.disk - {u}, quarantine := s.world.quarantine[(u, drawn) := s.world.disk[u]]);
    forall id: string, x: int | Located(s.world, id, x) ensures Located(n, id, x) {
      if x == u && InDir(s.world.disk[u], id) {
        assert InQuarantine(n, (u, drawn), id);
      } else if y: string :| InQuarantine(s.world, (x, y), id) {
        assert InQuarantine(n, (x, y), id);
      }
    }
    var k1 := k.(pc := Leaving(AccRow(Some(drawn))));
    DiskFree(cfg, s.world, n, k1);
    DiskStep(cfg, s, n, c, k1, "");
  }

  lemma AccountRestoreStep(cfg: Config, s: Server, c: nat, suffix: string, drawn: string, ok: bool)
    requires Inv(cfg, s) && c in s.conns && s.conns[c].pc == Leaving(AccRestore(suffix))
    ensures Inv(cfg, ContinueAccount(s, c, s.conns[c].pc.account, drawn, ok))
  {
    var k := s.conns[c];
    var u := k.user;
    var q := (u, suffix);
    if !ok || q !in s.world.quarantine || (u in s.world.disk && s.world.disk[u] != EMPTY_DIR) {
      LocalStep(cfg, s, c, k.(pc := Idle));
    } else {
      var n := s.world.(disk := s.world.disk[u := s.world.quarantine[q]], quarantine := s.world.quarantine - {q});
      forall id: string, x: int | Located(s.world, id, x) ensures Located(n, id, x) {
        if y: string :| InQuarantine(s.world, (x, y), id) {
          if (x, y) != q { assert InQuarantine(n, (x, y), id); }
        }
      }
      DiskFree(cfg, s.world, n, k.(pc := Idle));
      DiskStep(cfg, s, n, c, k.(pc := Idle), "");
    }
  }

  lemma DeleteUserStep(cfg: Config, s: Server, c: nat, drawn: string, ok: bool)
    requires Inv(cfg, s) && c in s.conns && s.conns[c].pc.Leaving? && s.conns[c].pc.account.AccRow?
    ensures Inv(cfg, ContinueAccount(s, c, s.conns[c].pc.account, drawn, ok))
  {
    var k := s.conns[c];
    var moved := k.pc.account.moved;
    var (t, r) := DeleteUser(s.world.tables, k.user);
    UserOutcome(s, c, drawn, ok);
    assert k.phase == Authenticated;
    if ok && r == Done {
      UserGone(cfg, s, c, if moved.Some? then k.(pc := Leaving(AccClean(moved.value))) else SignedOut(k));
    } else {
      UserStays(cfg, s, c);
    }
  }

  lemma UserStays(cfg: Config, s: Server, c: nat)
    requires Inv(cfg, s) && c in s.conns && s.conns[c].pc.Leaving? && s.conns[c].pc.account.AccRow?
    ensures
      var k := s.conns[c];
      var moved := k.pc.account.moved;
      Inv(cfg, Put(s, c, k.(pc := if moved.Some? then Leaving(AccRestore(moved.value)) else Idle)))
  {
    var moved := s.conns[c].pc.account.moved;
    PcStep(cfg, s, c, if moved.Some? then Leaving(AccRestore(moved.value)) else Idle);
  }

  lemma UserOutcome(s: Server, c: nat, drawn: string, ok: bool)
    requires c in s.conns && s.conns[c].pc.Leaving? && s.conns[c].pc.account.AccRow?
    ensures
      var k := s.conns[c];
      var moved := k.pc.account.moved;
      var (t, r) := DeleteUser(s.world.tables, k.user);
      ContinueAccount(s, c, k.pc.account, drawn, ok)
      == if ok && r == Done then
           Act(s, s.world.(tables := t), c, if moved.Some? then k.(pc := Leaving(AccClean(moved.value))) else SignedOut(k))
         else Put(s, c, k.(pc := if moved.Some? then Leaving(AccRestore(moved.value)) else Idle))
  {}

  lemma UserGone(cfg: Config, s: Server, c: nat, k: Conn)
    requires Inv(cfg, s) && c in s.conns && DeleteUser(s.world.tables, s.conns[c].user).1 == Done
    requires k == SignedOut(s.conns[c])
             || (s.conns[c].phase == Authenticated && k == s.conns[c].(pc := k.pc) && k.pc.Leaving? && k.pc.account.AccClean?)
    ensures Inv(cfg, Act(s, s.world.(tables := DeleteUser(s.world.tables, s.conns[c].user).0), c, k))
  {
    var n := s.world.(tables := DeleteUser(s.world.tables, s.conns[c].user).0);
    UserRemoved(cfg, s, s.conns[c].user);
    Assemble(cfg, s, n, c, k, "");
  }

  lemma UserRemoved(cfg: Config, s: Server, u: int)
    requires WorldOk(cfg, s.world) && DeleteUser(s.world.tables, u).1 == Done
    ensures var n := s.world.(tables := DeleteUser(s.world.tables, u).0);
            TablesOk(n) && Gentle(s.world, n, "") && HistoryOk(cfg, n) && u in n.tables.tombstones
  {
    var n := s.world.(tables := DeleteUser(s.world.tables, u).0);
    DeleteUserKeepsForest(s.world.tables, u);
    assert TablesOk(n);
    FewerRows(cfg, s, n);
  }

  /** Only a directory of a given-up account is ever emptied. */
  lemma EmptyQuarantine(w: World, n: World, q: (int, string))
    requires q.0 in w.tables.tombstones
    requires n == w.(quarantine := n.quarantine)
    requires forall x :: x in w.quarantine && x != q ==> x in n.quarantine && n.quarantine[x] == w.quarantine[x]
    ensures Keeps(w, n, "")
  {
    forall id: string, u: int | Located(w, id, u) && u != q.0 ensures Located(n, id, u) {
      if y: string :| InQuarantine(w, (u, y), id) { assert InQuarantine(n, (u, y), id); }
    }
  }

  lemma CleanStep(cfg: Config, s: Server, c: nat, drawn: string, ok: bool)
    requires Inv(cfg, s) && c in s.conns && s.conns[c].pc.Leaving? && s.conns[c].pc.account.AccClean?
    ensures Inv(cfg, ContinueAccount(s, c, s.conns[c].pc.account, drawn, ok))
  {
    var k := s.conns[c];
    var q := (k.user, k.pc.account.suffix);
    var n := if ok && q in s.world.quarantine && NoFiles(s.world.quarantine[q])
             then s.world.(quarantine := s.world.quarantine - {q}) else s.world;
    EmptyQuarantine(s.world, n, q);
    DiskFree(cfg, s.world, n, SignedOut(k));
    DiskStep(cfg, s, n, c, SignedOut(k), "");
  }

  lemma SweepStep(cfg: Config, s: Server, c: nat, name: string)
    requires Inv(cfg, s) && c in s.conns
    ensures Inv(cfg, SweepQuarantine(s, c, name))
  {
    var k := s.conns[c];
    if k.pc.Leaving? && k.pc.account.AccClean? && (k.user, k.pc.account.suffix) in s.world.quarantine {
      var q := (k.user, k.pc.account.suffix);
      var n := s.world.(quarantine := s.world.quarantine[q := Without(s.world.quarantine[q], name)]);
      EmptyQuarantine(s.world, n, q);
      DiskFree(cfg, s.world, n, k);
      DiskStep(cfg, s, n, c, k, "");
      assert Act(s, n, c, k) == SweepQuarantine(s, c, name);
    }
  }

  lemma AccountRenameStep(cfg: Config, s: Server, c: nat, drawn: string, ok: bool)
    requires Inv(cfg, s) && c in s.conns && s.conns[c].pc == Leaving(AccRename)
    ensures Inv(cfg, ContinueAccount(s, c, s.conns[c].pc.account, drawn, ok))
  {
    var k := s.conns[c];
    RenameOutcome(s, c, drawn, ok);
    if !ok {
      LocalStep(cfg, s, c, k.(pc := Idle));
    } else if k.user !in s.world.disk {
      LocalStep(cfg, s, c, k.(pc := Leaving(AccRow(None))));
    } else if (k.user, drawn) in s.world.quarantine && s.world.quarantine[(k.user, drawn)] != EMPTY_DIR {
      LocalStep(cfg, s, c, k.(pc := Idle));
    } else {
      QuarantineStep(cfg, s, c, drawn);
    }
  }

  lemma RenameOutcome(s: Server, c: nat, drawn: string, ok: bool)
    requires c in s.conns && s.conns[c].pc == Leaving(AccRename)
    ensures
      var k := s.conns[c];
      var after := ContinueAccount(s, c, k.pc.account, drawn, ok);
      && (!ok ==> after == Put(s, c, k.(pc := Idle)))
      && (ok && k.user !in s.world.disk ==> after == Put(s, c, k.(pc := Leaving(AccRow(None)))))
      && (ok && k.user in s.world.disk && (k.user, drawn) in s.world.quarantine && s.world.quarantine[(k.user, drawn)] != EMPTY_DIR
          ==> after == Put(s, c, k.(pc := Idle)))
  {}

  lemma AccountSteps(cfg: Config, s: Server, c: nat, drawn: string, ok: bool)
    requires Inv(cfg, s) && c in s.conns && s.conns[c].pc.Leaving?
    ensures Inv(cfg, ContinueAccount(s, c, s.conns[c].pc.account, drawn, ok))
  {
    var k := s.conns[c];
    match k.pc.account
    case AccLook =>
      LookOutcome(s, c, drawn, ok);
      PcStep(cfg, s, c, Leaving(if k.user in s.world.disk then AccTrash else AccRow(None)));
    case AccTrash =>
      LookOutcome(s, c, drawn, ok);
      PcStep(cfg, s, c, if ok then Leaving(AccRename) else Idle);
    case AccRename => AccountRenameStep(cfg, s, c, drawn, ok);
    case AccRow(_) => DeleteUserStep(cfg, s, c, drawn, ok);
    case AccRestore(suffix) => AccountRestoreStep(cfg, s, c, suffix, drawn, ok);
    case AccClean(_) => CleanStep(cfg, s, c, drawn, ok);
  }

  lemma LookOutcome(s: Server, c: nat, drawn: string, ok: bool)
    requires c in s.conns && s.conns[c].pc in {Leaving(AccLook), Leaving(AccTrash)}
    ensures
      var k := s.conns[c];
      ContinueAccount(s, c, k.pc.account, drawn, ok)
      == Put(s, c, k.(pc := if k.pc == Leaving(AccLook) then Leaving(if k.user in s.world.disk then AccTrash else AccRow(None))
                            else if ok then Leaving(AccRename) else Idle))
  {}

  // ----- uploads -----

  lemma OpenStep(cfg: Config, s: Server, c: nat, w: Want, g: nat, drawn: string, ok: bool)
    requires Inv(cfg, s) && c in s.conns && s.conns[c].pc == BeginOpen(w, g)
    ensures Inv(cfg, ContinueOpen(s, c, w, g, drawn, ok))
  {
    var k := s.conns[c];
    var u := k.user;
    if !IsLowerHex(drawn, SNAPSHOT_ID_CHARS) || drawn in s.world.past.began {
    } else if !ok || u !in s.world.disk || s.world.disk[u].tmp.None? {
      LocalStep(cfg, s, c, k.(pc := Idle));
    } else {
      var n := ContinueOpen(s, c, w, g, drawn, ok);
      assert n.conns[c].upload == Some(Upload(Begun(drawn, u, w, g), 0, []));
      NewFile(cfg, s, n.world, drawn);
      Assemble(cfg, s, n.world, c, n.conns[c], drawn);
    }
  }

  /** A fresh id, or more bytes for an id that has no row: nothing recorded is affected. */
  lemma NewFile(cfg: Config, s: Server, n: World, own: string)
    requires WorldOk(cfg, s.world) && own != "" && own !in s.world.past.recorded && own !in s.world.tables.snapshots
    requires n.tables == s.world.tables && n.past.recorded == s.world.past.recorded && n.past.created == s.world.past.created
    requires n.past.order == s.world.past.order && n.past.grants == s.world.past.grants && n.quarantine == s.world.quarantine
    requires Known(n, own)
    requires n.past.began.Keys == s.world.past.began.Keys + {own}
    requires forall id :: id in s.world.past.began && id != own ==> n.past.began[id] == s.world.past.began[id]
    requires forall id :: id in s.world.past.accepted && id != own ==>
               id in n.past.accepted && n.past.accepted[id] == s.world.past.accepted[id]
    requires forall id :: id in s.world.files && id != own ==> id in n.files && n.files[id] == s.world.files[id]
    requires forall u, id: string :: u in s.world.disk && InDir(s.world.disk[u], id) ==> u in n.disk && InDir(n.disk[u], id)
    ensures Gentle(s.world, n, own) && TablesOk(n) && HistoryOk(cfg, n)
  {
    forall g | g in n.past.grants ensures GrantOk(cfg, n, g) { assert GrantOk(cfg, s.world, g); }
    KnownStay(cfg, s.world, n, own);
    MorePlaces(s.world, n);
  }

  lemma KnownStay(cfg: Config, w: World, n: World, own: string)
    requires HistoryOk(cfg, w) && own !in w.past.recorded && Known(n, own) && n.past.recorded == w.past.recorded
    requires n.past.began.Keys == w.past.began.Keys + {own}
    requires forall id :: id in w.past.began && id != own ==> n.past.began[id] == w.past.began[id]
    requires forall id :: id in w.past.accepted && id != own ==> id in n.past.accepted && n.past.accepted[id] == w.past.accepted[id]
    requires forall id :: id in w.files && id != own ==> id in n.files && n.files[id] == w.files[id]
    ensures forall id :: id in n.past.began ==> Known(n, id)
    ensures forall id :: id in n.past.recorded ==> Settled(cfg, n, id)
  {
    forall id | id in n.past.began ensures Known(n, id) { if id != own { assert Known(w, id); } }
    forall id | id in n.past.recorded ensures Settled(cfg, n, id) { assert Settled(cfg, w, id); }
  }

  lemma MorePlaces(w: World, n: World)
    requires n.quarantine == w.quarantine
    requires forall u, id: string :: u in w.disk && InDir(w.disk[u], id) ==> u in n.disk && InDir(n.disk[u], id)
    ensures forall id: string, u: int :: Located(w, id, u) ==> Located(n, id, u)
  {
    forall id: string, u: int | Located(w, id, u) ensures Located(n, id, u) {
      if y: string :| InQuarantine(w, (u, y), id) { assert InQuarantine(n, (u, y), id); }
    }
  }

  lemma ChunkStep(cfg: Config, s: Server, c: nat, payload: Bytes, written: Option<nat>)
    requires Inv(cfg, s) && c in s.conns && s.conns[c].pc == Idle
    ensures Inv(cfg, DoChunk(s, c, payload, written))
  {
    var k := s.conns[c];
    if k.phase != Uploading || k.upload.None? || |payload| == 0 || |payload| > TRANSFER_CHUNK {
    } else if k.upload.value.received + |payload| > k.upload.value.begun.want.size {
      LocalStep(cfg, s, c, k.(pc := Aborting));
    } else {
      var id := k.upload.value.begun.id;
      assert UploadOk(s.world, k.upload.value);
      if written.Some? && written.value < |payload| {
        ChunkCut(cfg, s, c, id, payload[..written.value]);
      } else {
        TakenConn(cfg, s.world, k, id, payload);
        ChunkTaken(cfg, s, c, id, payload, Counted(k, payload));
      }
    }
  }

  lemma ChunkCut(cfg: Config, s: Server, c: nat, id: string, part: Bytes)
    requires Inv(cfg, s) && c in s.conns && s.conns[c].phase == Uploading && s.conns[c].upload.Some?
    requires s.conns[c].upload.value.begun.id == id
    ensures Inv(cfg, Act(s, Append(s.world, id, part), c, s.conns[c].(pc := Aborting)))
  {
    var n := Append(s.world, id, part);
    assert UploadOk(s.world, s.conns[c].upload.value);
    NewFile(cfg, s, n, id);
    Assemble(cfg, s, n, c, s.conns[c].(pc := Aborting), id);
  }

  lemma ChunkTaken(cfg: Config, s: Server, c: nat, id: string, payload: Bytes, k: Conn)
    requires Inv(cfg, s) && c in s.conns && Known(s.world, id) && id !in s.world.past.recorded && id !in s.world.tables.snapshots
    requires s.conns[c].upload.Some? && k.upload.Some? && k.upload.value.begun == s.conns[c].upload.value.begun
    requires k.upload.value.begun.id == id && ConnOk(cfg, Accept(s.world, id, payload), k)
    ensures Inv(cfg, Act(s, Accept(s.world, id, payload), c, k))
  {
    TakenWorld(cfg, s, id, payload);
    StaysApart(cfg, s, c, k);
    Assemble(cfg, s, Accept(s.world, id, payload), c, k, id);
  }

  lemma StaysApart(cfg: Config, s: Server, c: nat, k: Conn)
    requires Inv(cfg, s) && c in s.conns && s.conns[c].upload.Some? && k.upload.Some?
    requires k.upload.value.begun == s.conns[c].upload.value.begun
    ensures forall d :: d in s.conns && d != c ==> NotIts(s.conns[d], k.upload.value.begun.id) && Apart(k, s.conns[d])
  {
    forall d | d in s.conns && d != c
      ensures NotIts(s.conns[d], k.upload.value.begun.id) && Apart(k, s.conns[d])
    {
      assert Apart(s.conns[c], s.conns[d]);
    }
  }

  lemma TakenWorld(cfg: Config, s: Server, id: string, payload: Bytes)
    requires WorldOk(cfg, s.world) && Known(s.world, id) && id !in s.world.past.recorded && id !in s.world.tables.snapshots
    ensures var n := Accept(s.world, id, payload); Gentle(s.world, n, id) && TablesOk(n) && HistoryOk(cfg, n)
  {
    NewFile(cfg, s, Accept(s.world, id, payload), id);
  }

  lemma TakenConn(cfg: Config, w: World, k: Conn, id: string, payload: Bytes)
    requires ConnOk(cfg, w, k) && k.phase == Uploading && k.pc == Idle
    requires k.upload.Some? && k.upload.value.begun.id == id
    requires k.upload.value.received + |payload| <= k.upload.value.begun.want.size
    ensures ConnOk(cfg, Accept(w, id, payload), Counted(k, payload))
    ensures Known(w, id) && id !in w.past.recorded && id !in w.tables.snapshots
  {
    assert UploadOk(w, k.upload.value) && InStep(w, k.upload.value);
  }

  lemma PublishStep(cfg: Config, s: Server, c: nat, now: U64, ok: bool)
    requires Inv(cfg, s) && c in s.conns && s.conns[c].pc == EndRename
    ensures Inv(cfg, ContinueEnd(s, c, now, ok))
  {
    var k := s.conns[c];
    var b := k.upload.value.begun;
    match Publish(s.world, b.user, k.user, b.id, ok)
    case None => LocalStep(cfg, s, c, k.(pc := Aborting));
    case Some(n) =>
      var d := s.world.disk[k.user];
      var d1 := d.(tmp := Some(d.tmp.value - {b.id}), blobs := d.blobs + {b.id});
      assert n == s.world.(disk := s.world.disk[k.user := d1]);
      DirReplaced(s.world, k.user, d1);
      DiskFree(cfg, s.world, n, k);
      DiskStep(cfg, s, n, c, k.(pc := EndInsert), "");
  }

  lemma InsertStep(cfg: Config, s: Server, c: nat, now: U64, ok: bool)
    requires Inv(cfg, s) && c in s.conns && s.conns[c].pc == EndInsert
    ensures Inv(cfg, ContinueEnd(s, c, now, ok))
  {
    var k := s.conns[c];
    var b := k.upload.value.begun;
    var (t, r) := InsertSnapshot(s.world.tables, RowOf(b, k.user, now));
    if !ok || r != Done {
      LocalStep(cfg, s, c, k.(pc := EndUnpublish));
    } else {
      var n := s.world.(tables := t, past := s.world.past.(recorded := s.world.past.recorded + {b.id}));
      VerifiedIsSettled(cfg, s.world, k);
      RowAdded(cfg, s.world, n, RowOf(b, k.user, now));
      RowAddedOk(cfg, s.world, n, k, now);
      Assemble(cfg, s, n, c, ResetUpload(k), b.id);
    }
  }

  lemma RowAdded(cfg: Config, w: World, n: World, r: Row)
    requires WorldOk(cfg, w) && InsertSnapshot(w.tables, r) == (n.tables, Done)
    requires Settled(cfg, w, r.id) && r.id !in w.past.recorded && r.id !in w.tables.snapshots
    requires n == w.(tables := n.tables, past := w.past.(recorded := w.past.recorded + {r.id}))
    ensures Gentle(w, n, r.id) && TablesOk(n) && HistoryOk(cfg, n)
  {
    RowAddedTables(w, n, r);
    RowAddedGently(w, n, r.id);
    RowAddedHistory(cfg, w, n, r.id);
  }

  lemma VerifiedIsSettled(cfg: Config, w: World, k: Conn)
    requires ConnOk(cfg, w, k) && k.pc == EndInsert
    ensures
      var id := k.upload.value.begun.id;
      Settled(cfg, w, id) && id !in w.past.recorded && id !in w.tables.snapshots && id != ""
  {}

  lemma RowAddedOk(cfg: Config, w: World, n: World, k: Conn, now: U64)
    requires TablesOk(w) && ConnOk(cfg, w, k) && k.pc == EndInsert
    requires InsertSnapshot(w.tables, RowOf(k.upload.value.begun, k.user, now)) == (n.tables, Done)
    requires n == w.(tables := n.tables, past := w.past.(recorded := w.past.recorded + {k.upload.value.begun.id}))
    ensures RowOk(n, k.upload.value.begun.id)
  {
    UserPresent(w.tables, RowOf(k.upload.value.begun, k.user, now));
    SamePlaces(w, n);
  }

  lemma RowAddedGently(w: World, n: World, id: string)
    requires id !in w.past.recorded && id in n.tables.snapshots && n.tables == w.tables.(snapshots := n.tables.snapshots)
    requires forall x :: x in n.tables.snapshots && x != id ==>
               x in w.tables.snapshots && n.tables.snapshots[x] == w.tables.snapshots[x]
    requires n == w.(tables := n.tables, past := w.past.(recorded := w.past.recorded + {id}))
    ensures Gentle(w, n, id)
  {
    SamePlaces(w, n);
  }

  lemma RowAddedHistory(cfg: Config, w: World, n: World, id: string)
    requires HistoryOk(cfg, w) && n.files == w.files && n.past == w.past.(recorded := w.past.recorded + {id}) && Settled(cfg, w, id)
    ensures HistoryOk(cfg, n)
  {
    forall g | g in n.past.grants ensures GrantOk(cfg, n, g) { assert GrantOk(cfg, w, g); }
    forall x | x in n.past.recorded ensures Settled(cfg, n, x) { assert Settled(cfg, w, x); }
    forall x | x in n.past.began ensures Known(n, x) { assert Known(w, x); }
  }

  lemma RowAddedTables(w: World, n: World, r: Row)
    requires TablesOk(w) && r.id !in w.tables.snapshots && r.id != "" && InsertSnapshot(w.tables, r) == (n.tables, Done)
    requires n.past.created == w.past.created && n.past.order == w.past.order
    ensures TablesOk(n)
  {
    InsertAcceptsExactlyForests(w.tables, r);
  }

  lemma UserPresent(t: Tables, r: Row)
    requires Forest(t) && IdsApart(t) && InsertSnapshot(t, r).1 == Done
    ensures r.user !in t.tombstones
  {
    if r.kind == INCREMENTAL { assert RowFits(t, t.snapshots[r.parent]); }
  }

  lemma SamePlaces(w: World, n: World)
    requires n.disk == w.disk && n.quarantine == w.quarantine
    ensures forall id: string, u: int :: Located(w, id, u) ==> Located(n, id, u)
  {
    forall id: string, u: int | Located(w, id, u) ensures Located(n, id, u) {
      if y: string :| InQuarantine(w, (u, y), id) { assert InQuarantine(n, (u, y), id); }
    }
  }

  lemma UnpublishStep(cfg: Config, s: Server, c: nat, now: U64, ok: bool)
    requires Inv(cfg, s) && c in s.conns && s.conns[c].pc == EndUnpublish
    ensures Inv(cfg, ContinueEnd(s, c, now, ok))
  {
    var k := s.conns[c];
    var id := k.upload.value.begun.id;
    var n := Unpublish(s.world, k.user, id, ok);
    forall x: string, u: int | x != id && Located(s.world, x, u) ensures Located(n, x, u) {
      if y: string :| InQuarantine(s.world, (u, y), x) { assert InQuarantine(n, (u, y), x); }
    }
    DiskFree(cfg, s.world, n, ResetUpload(k));
    DiskStep(cfg, s, n, c, ResetUpload(k), id);
  }

  lemma EndStep(cfg: Config, s: Server, c: nat, ok: bool, flushed: bool)
    requires Inv(cfg, s) && c in s.conns && s.conns[c].pc == Idle
    ensures Inv(cfg, Handle(cfg, s, c, UploadEnd(ok, flushed)))
  {
    var k := s.conns[c];
    EndOutcome(cfg, s, c, ok, flushed);
    if Checked(s, k, Uploading, ok) {
      LocalStep(cfg, s, c, Verified(cfg, k, flushed));
    } else {
      RefusedStep(cfg, s, c, Uploading, ok);
    }
  }

  lemma EndOutcome(cfg: Config, s: Server, c: nat, ok: bool, flushed: bool)
    requires c in s.conns
    ensures
      var k := s.conns[c];
      Handle(cfg, s, c, UploadEnd(ok, flushed))
      == if Checked(s, k, Uploading, ok) && k.upload.Some? then Put(s, c, Verified(cfg, k, flushed)) else Refused(s, c, Uploading, ok)
  {}

  lemma RefusedStep(cfg: Config, s: Server, c: nat, phase: Phase, ok: bool)
    requires Inv(cfg, s) && c in s.conns
    ensures Inv(cfg, Refused(s, c, phase, ok))
  {
    LocalStep(cfg, s, c, SignedOut(s.conns[c]));
  }

  lemma BeginSteps(cfg: Config, s: Server, c: nat, ok: bool)
    requires Inv(cfg, s) && c in s.conns && s.conns[c].pc.BeginParent?
    ensures Inv(cfg, ContinueParent(cfg, s, c, s.conns[c].pc.want, ok))
  {
    ParentIsChecked(cfg, s, c, ok);
    LocalStep(cfg, s, c, AfterParent(cfg, s, c, ok));
  }

  lemma ParentIsChecked(cfg: Config, s: Server, c: nat, ok: bool)
    requires c in s.conns && s.conns[c].pc.BeginParent?
    ensures ContinueParent(cfg, s, c, s.conns[c].pc.want, ok) == Put(s, c, AfterParent(cfg, s, c, ok))
  {}

  function AfterParent(cfg: Config, s: Server, c: nat, ok: bool): Conn
    requires c in s.conns && s.conns[c].pc.BeginParent?
  {
    var k := s.conns[c];
    var parent := FindSnapshot(s.world.tables, k.user, k.pc.want.parent);
    k.(pc := if !ok || parent.None? || parent.value.lineage != k.pc.want.lineage then Idle
             else AfterChain(cfg, k.pc.want, parent.value.generation + 1))
  }

  // ----- accounts and sessions -----

  lemma RegisterStep(cfg: Config, s: Server, c: nat, name: string, password: string, salt: Option<Nonce>, now: U64, ok: bool)
    requires Inv(cfg, s) && c in s.conns
    ensures Inv(cfg, DoRegister(cfg, s, c, name, password, salt, now, ok))
  {
    var n := DoRegister(cfg, s, c, name, password, salt, now, ok);
    if n != s {
      var account := RegisterOutcome(cfg, s, c, name, password, salt, now, ok);
      AccountAdded(cfg, s.world, account, n.world);
      SamePlaces(s.world, n.world);
      Assemble(cfg, s, n.world, c, s.conns[c], "");
    }
  }

  lemma RegisterOutcome(cfg: Config, s: Server, c: nat, name: string, password: string, salt: Option<Nonce>, now: U64, ok: bool)
    returns (account: User)
    requires c in s.conns && DoRegister(cfg, s, c, name, password, salt, now, ok) != s
    ensures
      var n := DoRegister(cfg, s, c, name, password, salt, now, ok);
      var w, id := s.world, NextUserId(s.world.tables);
      && n == Act(s, n.world, c, s.conns[c]) && id <= MAX_USER_ID && CreateUser(w.tables, account) == (n.world.tables, Done)
      && n.world == w.(tables := n.world.tables,
                       past := w.past.(created := w.past.created[id := account], order := w.past.order + [id]))
  {
    account := User(name, PasswordRecord(salt.value, cfg.derive(password, salt.value, PASSWORD_ITERATIONS), PASSWORD_ITERATIONS), now);
    assert s.conns[c := s.conns[c]] == s.conns;
  }

  lemma AccountAdded(cfg: Config, w: World, account: User, n: World)
    requires WorldOk(cfg, w) && CreateUser(w.tables, account) == (n.tables, Done)
    requires NextUserId(w.tables) <= MAX_USER_ID
    requires n == w.(tables := n.tables,
                     past := w.past.(created := w.past.created[NextUserId(w.tables) := account],
                                     order := w.past.order + [NextUserId(w.tables)]))
    ensures TablesOk(n) && HistoryOk(cfg, n) && NextUserId(w.tables) !in w.past.created
  {
    CreateUserAllocatesFreshId(w.tables, account);
    forall i | 0 <= i < |w.past.order| ensures w.past.order[i] < NextUserId(w.tables) {
      assert w.past.order[i] in w.past.order;
    }
    assert Ascending(n.past.order);
    forall g | g in n.past.grants ensures GrantOk(cfg, n, g) { assert GrantOk(cfg, w, g); }
    assert TablesOk(n);
  }

  lemma LoginStep(cfg: Config, s: Server, c: nat, name: string, password: string, now: U64, nonce: Option<Nonce>)
    requires Inv(cfg, s) && c in s.conns && s.conns[c].pc == Idle
    ensures Inv(cfg, DoLogin(cfg, s, c, name, password, now, nonce))
  {
    var n := DoLogin(cfg, s, c, name, password, now, nonce);
    if n != s {
      var user := n.conns[c].user;
      var g := Grant(Token(cfg.key, ToU64(user), now, nonce.value), user, s.world.tables.users[user], now);
      assert n.world == s.world.(past := s.world.past.(grants := s.world.past.grants + {g}));
      forall h | h in n.world.past.grants ensures GrantOk(cfg, n.world, h) {
        if h != g { assert GrantOk(cfg, s.world, h); }
      }
      SamePlaces(s.world, n.world);
      Assemble(cfg, s, n.world, c, n.conns[c], "");
    }
  }

  lemma ResumeStep(cfg: Config, s: Server, c: nat, token: Bytes, now: U64)
    requires Inv(cfg, s) && c in s.conns && s.conns[c].pc == Idle
    ensures Inv(cfg, DoResume(cfg, s, c, token, now))
  {
    var n := DoResume(cfg, s, c, token, now);
    if n != s { LocalStep(cfg, s, c, n.conns[c]); }
  }

  // ----- downloads -----

  lemma DownFindStep(cfg: Config, s: Server, c: nat, id: string, ok: bool)
    requires Inv(cfg, s) && c in s.conns && s.conns[c].pc == DownFind(id)
    ensures Inv(cfg, ContinueDownFind(s, c, id, ok))
  {
    var found := FindSnapshot(s.world.tables, s.conns[c].user, id);
    if ok && found.Some? && Canonical(found.value) {
      assert RowOk(s.world, id);
      LocalStep(cfg, s, c, s.conns[c].(pc := DownOpen(found.value)));
    } else {
      LocalStep(cfg, s, c, s.conns[c].(pc := Idle));
    }
  }

  lemma DownOpenStep(cfg: Config, s: Server, c: nat, row: Row, ok: bool)
    requires Inv(cfg, s) && c in s.conns && s.conns[c].pc == DownOpen(row)
    ensures Inv(cfg, ContinueDownOpen(s, c, row, ok))
  {
    LocalStep(cfg, s, c, ContinueDownOpen(s, c, row, ok).conns[c]);
  }

  lemma DownloadChunkStep(cfg: Config, s: Server, c: nat, got: Option<nat>)
    requires Inv(cfg, s) && c in s.conns && s.conns[c].pc == Idle
    ensures Inv(cfg, DoDownloadChunk(s, c, got))
  {
    assert Put(s, c, s.conns[c]) == s;
    DownloadConn(cfg, s, c, got);
    LocalStep(cfg, s, c, DoDownloadChunk(s, c, got).conns[c]);
  }

  lemma DownloadConn(cfg: Config, s: Server, c: nat, got: Option<nat>)
    requires c in s.conns && ConnOk(cfg, s.world, s.conns[c]) && s.conns[c].pc == Idle
    ensures ConnOk(cfg, s.world, DoDownloadChunk(s, c, got).conns[c])
  {}

  // ----- every action -----

  lemma ContinueStep(cfg: Config, s: Server, c: nat, drawn: string, now: U64, ok: bool)
    requires Inv(cfg, s) && c in s.conns
    ensures Inv(cfg, Continue(cfg, s, c, drawn, now, ok))
  {
    ContinueOutcome(cfg, s, c, drawn, now, ok);
    match s.conns[c].pc
    case Idle =>
    case BeginParent(_) => BeginSteps(cfg, s, c, ok);
    case BeginDirs(w, g, stage) => DirsStep(cfg, s, c, w, g, stage, ok);
    case BeginOpen(w, g) => OpenStep(cfg, s, c, w, g, drawn, ok);
    case Aborting => AbortStep(cfg, s, c, ok);
    case EndRename => PublishStep(cfg, s, c, now, ok);
    case EndInsert => InsertStep(cfg, s, c, now, ok);
    case EndUnpublish => UnpublishStep(cfg, s, c, now, ok);
    case Deleting(_) => DeleteSteps(cfg, s, c, drawn, ok);
    case Leaving(_) => AccountSteps(cfg, s, c, drawn, ok);
    case DownFind(id) => DownFindStep(cfg, s, c, id, ok);
    case DownOpen(row) => DownOpenStep(cfg, s, c, row, ok);
  }

  lemma ContinueOutcome(cfg: Config, s: Server, c: nat, drawn: string, now: U64, ok: bool)
    requires c in s.conns
    ensures
      var k := s.conns[c];
      Continue(cfg, s, c, drawn, now, ok)
      == match k.pc
         case Idle => s
         case BeginParent(w) => ContinueParent(cfg, s, c, w, ok)
         case BeginDirs(w, g, stage) => ContinueDirs(s, c, w, g, stage, ok)
         case BeginOpen(w, g) => ContinueOpen(s, c, w, g, drawn, ok)
         case Aborting => Act(s, RemovePart(s.world, k, ok), c, ResetUpload(k))
         case EndRename | EndInsert | EndUnpublish => if k.upload.Some? then ContinueEnd(s, c, now, ok) else s
         case Deleting(step) => ContinueDelete(s, c, step, drawn, ok)
         case Leaving(step) => ContinueAccount(s, c, step, drawn, ok)
         case DownFind(id) => ContinueDownFind(s, c, id, ok)
         case DownOpen(row) => ContinueDownOpen(s, c, row, ok)
  {}

  lemma CheckedStep(cfg: Config, s: Server, c: nat, r: Request)
    requires Inv(cfg, s) && c in s.conns && s.conns[c].pc == Idle
    requires r.UploadBegin? || r.Delete? || r.DeleteAccount? || r.DownloadBegin?
    ensures Inv(cfg, Handle(cfg, s, c, r))
  {
    var k := s.conns[c];
    if Checked(s, k, Authenticated, r.ok) {
      CheckedConn(cfg, s, c, r);
      LocalStep(cfg, s, c, Handle(cfg, s, c, r).conns[c]);
    } else {
      RefusedStep(cfg, s, c, Authenticated, r.ok);
    }
  }

  lemma CheckedConn(cfg: Config, s: Server, c: nat, r: Request)
    requires c in s.conns && ConnOk(cfg, s.world, s.conns[c]) && s.conns[c].pc == Idle
    requires r.UploadBegin? || r.Delete? || r.DeleteAccount? || r.DownloadBegin?
    requires Checked(s, s.conns[c], Authenticated, r.ok)
    ensures var n := Handle(cfg, s, c, r);
            c in n.conns && n == Put(s, c, n.conns[c]) && n.conns[c].upload == s.conns[c].upload
            && ConnOk(cfg, s.world, n.conns[c])
  {
    assert ConnOk(cfg, s.world, s.conns[c]);
    assert Put(s, c, s.conns[c]) == s;
  }

  lemma HandleStep(cfg: Config, s: Server, c: nat, r: Request)
    requires Inv(cfg, s) && c in s.conns && s.conns[c].pc == Idle
    ensures Inv(cfg, Handle(cfg, s, c, r))
  {
    match r
    case Register(name, password, salt, now, ok) => RegisterStep(cfg, s, c, name, password, salt, now, ok);
    case Login(name, password, now, nonce, throttled, ok) => LoginStep(cfg, s, c, name, password, now, nonce);
    case Logout => LocalStep(cfg, s, c, SignedOut(s.conns[c]));
    case Resume(token, now, ok) => ResumeStep(cfg, s, c, token, now);
    case UploadBegin(_, _) => CheckedStep(cfg, s, c, r);
    case UploadChunk(payload, written) => ChunkStep(cfg, s, c, payload, written);
    case UploadEnd(ok, flushed) => EndStep(cfg, s, c, ok, flushed);
    case Delete(_, _) => CheckedStep(cfg, s, c, r);
    case DeleteAccount(_, _) => CheckedStep(cfg, s, c, r);
    case DownloadBegin(_, _) => CheckedStep(cfg, s, c, r);
    case DownloadChunk(got) => DownloadChunkStep(cfg, s, c, got);
    case DownloadEnd => LocalStep(cfg, s, c, CloseDownload(s.conns[c]));
  }

  lemma ConnectStep(cfg: Config, s: Server, c: nat)
    requires Inv(cfg, s) && c !in s.conns
    ensures Inv(cfg, Put(s, c, NEW_CONN))
  {}

  /** Whatever happens next, the invariant survives it. */
  lemma NextKeepsInv(cfg: Config, s: Server, a: Action)
    requires Inv(cfg, s)
    ensures Inv(cfg, Next(cfg, s, a))
  {
    match a
    case Connect(c) => if c !in s.conns { ConnectStep(cfg, s, c); }
    case Disconnect(c, ok) => if c in s.conns { DisconnectStep(cfg, s, c, ok); }
    case Crash =>
    case Frame(c, r) => if c in s.conns && s.conns[c].pc == Idle { HandleStep(cfg, s, c, r); }
    case Proceed(c, drawn, now, ok) => if c in s.conns { ContinueStep(cfg, s, c, drawn, now, ok); }
    case Sweep(c, name) => if c in s.conns { SweepStep(cfg, s, c, name); }
  }

  /** Every run of any number of connections, with any failures and crashes, keeps the invariant. */
  lemma {:induction false} RunKeepsInv(cfg: Config, actions: seq<Action>)
    ensures Inv(cfg, Run(cfg, actions))
  {
    if actions != [] {
      RunKeepsInv(cfg, actions[..|actions| - 1]);
      NextKeepsInv(cfg, Run(cfg, actions[..|actions| - 1]), actions[|actions| - 1]);
    }
  }
}
