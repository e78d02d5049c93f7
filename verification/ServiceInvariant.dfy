/** What every action of module Service keeps. */
module ServiceInvariant {
  import opened MetadataTables
  import opened Auth
  import opened Service

  // ----- where bytes are -----

  predicate InTrash(d: Dir, id: string) {
    d.trash.Some? && exists p :: p in d.trash.value && p.0 == id
  }

  predicate InDir(d: Dir, id: string) { id in d.blobs || InTrash(d, id) }

  predicate InQuarantine(w: World, q: (int, string), id: string) {
    q in w.quarantine && InDir(w.quarantine[q], id)
  }

  /** The published bytes of `id` are under the user's directory, its trash, or one of the
      account's quarantined directories. */
  ghost predicate Located(w: World, id: string, u: int) {
    (u in w.disk && InDir(w.disk[u], id)) || exists x: string :: InQuarantine(w, (u, x), id)
  }

  // ----- the invariant -----

  predicate Ascending(order: seq<int>) {
    forall i, j :: 0 <= i < j < |order| ==> order[i] < order[j]
  }

  ghost predicate TablesOk(w: World) {
    var t, past := w.tables, w.past;
    && Forest(t) && IdsApart(t)
    && (forall u :: u in past.created <==> u in t.users || u in t.tombstones)
    && (forall u :: u in past.created ==> 1 <= u <= MAX_USER_ID)
    && (forall u :: u in t.users ==> t.users[u] == past.created[u])
    && Ascending(past.order)
    && (forall u :: u in past.order <==> u in past.created)
  }

  predicate KindKnown(w: Want) { w.kind == FULL || w.kind == INCREMENTAL }

  predicate Known(w: World, id: string) {
    && id != "" && id in w.past.began && id in w.past.accepted && id in w.files && w.past.began[id].id == id
    && KindKnown(w.past.began[id].want)
  }

  /** Everything received for `id` is on disk and is what UPLOAD_BEGIN declared. */
  predicate Settled(cfg: Config, w: World, id: string) {
    && Known(w, id)
    && w.files[id] == w.past.accepted[id]
    && |w.files[id]| == w.past.began[id].want.size
    && cfg.sha256(w.files[id]) == w.past.began[id].want.sha256
  }

  ghost predicate RowOk(w: World, id: string) {
    && id in w.tables.snapshots && id in w.past.recorded && id in w.past.began
    && var row := w.tables.snapshots[id];
    && row == RowOf(w.past.began[id], w.past.began[id].user, row.createdAt)
    && Located(w, id, row.user)
  }

  predicate UploadOk(w: World, up: Upload) {
    var id := up.begun.id;
    Known(w, id) && w.past.began[id] == up.begun && id !in w.past.recorded && id !in w.tables.snapshots
  }

  /** The file, the hasher and the history agree on what arrived. */
  predicate InStep(w: World, up: Upload) {
    var id := up.begun.id;
    && Known(w, id) && w.files[id] == up.hashed && w.past.accepted[id] == up.hashed
    && up.received == |up.hashed| && up.received <= up.begun.want.size
  }

  predicate Complete(cfg: Config, up: Upload) {
    up.received == up.begun.want.size && cfg.sha256(up.hashed) == up.begun.want.sha256
  }

  predicate DownloadOk(w: World, user: int, d: Download) {
    && d.id in w.past.recorded && Known(w, d.id) && w.past.began[d.id].user == user
    && d.size == |w.files[d.id]| && d.sent == |d.served| && d.sent <= d.size
    && d.served == w.files[d.id][..d.sent]
  }

  ghost predicate PcOk(cfg: Config, w: World, k: Conn) {
    match k.pc
    case Idle => true
    case BeginParent(want) => k.phase == Authenticated && KindKnown(want)
    case BeginDirs(want, _, _) => k.phase == Authenticated && KindKnown(want)
    case BeginOpen(want, _) => k.phase == Authenticated && KindKnown(want)
    case Aborting | EndUnpublish => k.phase == Uploading
    case EndRename => k.phase == Uploading && k.upload.Some? && Complete(cfg, k.upload.value)
    case EndInsert =>
      && k.phase == Uploading && k.upload.Some? && Complete(cfg, k.upload.value)
      && (k.user in w.tables.tombstones || Located(w, k.upload.value.begun.id, k.user))
    case Deleting(DelUnlink(id, _)) => k.phase == Authenticated && id in w.past.recorded && id !in w.tables.snapshots
    case Leaving(AccClean(_)) => k.phase == Authenticated && k.user in w.tables.tombstones
    case DownOpen(row) =>
      k.phase == Authenticated && row.id in w.past.recorded && Known(w, row.id) && w.past.began[row.id].user == k.user
    case _ => k.phase == Authenticated
  }

  ghost predicate ConnOk(cfg: Config, w: World, k: Conn) {
    && (k.phase != Connected ==> k.user in w.past.created)
    && (k.upload.Some? ==> UploadOk(w, k.upload.value))
    && (k.phase == Uploading ==>
          && k.upload.Some? && k.user == k.upload.value.begun.user
          && (k.pc != Aborting ==> InStep(w, k.upload.value)))
    && (k.phase == Downloading ==> k.download.Some? && DownloadOk(w, k.user, k.download.value))
    && PcOk(cfg, w, k)
  }

  predicate Apart(k: Conn, l: Conn) {
    k.upload.Some? && l.upload.Some? ==> k.upload.value.begun.id != l.upload.value.begun.id
  }

  ghost predicate GrantOk(cfg: Config, w: World, g: Grant) {
    && cfg.key.secret != []
    && g.user in w.past.created && g.account == w.past.created[g.user]
    && exists nonce :: g.token == Token(cfg.key, ToU64(g.user), g.at, nonce)
  }

  ghost predicate HistoryOk(cfg: Config, w: World) {
    && (forall id :: id in w.past.began ==> Known(w, id))
    && (forall id :: id in w.past.recorded ==> Settled(cfg, w, id))
    && (forall g :: g in w.past.grants ==> GrantOk(cfg, w, g))
  }

  ghost predicate WorldOk(cfg: Config, w: World) {
    TablesOk(w) && HistoryOk(cfg, w) && forall id :: id in w.tables.snapshots ==> RowOk(w, id)
  }

  ghost predicate Inv(cfg: Config, s: Server) {
    && WorldOk(cfg, s.world)
    && (forall c :: c in s.conns ==> ConnOk(cfg, s.world, s.conns[c]))
    && (forall c, d :: c in s.conns && d in s.conns && c != d ==> Apart(s.conns[c], s.conns[d]))
  }

  // ----- what one action may do to the rest of the server -----

  /** `own` is the id of the acting connection's upload, "" if it touches none: no other id's bytes
      or history change, and bytes that a row or an upload still needs stay located. */
  ghost predicate Gentle(w: World, n: World, own: string) {
    && own !in w.past.recorded
    && (forall id :: id in w.past.began && id != own ==> id in n.past.began && n.past.began[id] == w.past.began[id])
    && (forall id :: id in w.past.accepted && id != own ==> id in n.past.accepted && n.past.accepted[id] == w.past.accepted[id])
    && (forall id :: id in w.files && id != own ==> id in n.files && n.files[id] == w.files[id])
    && (forall id :: id in w.past.recorded ==> id in n.past.recorded)
    && (forall id :: id in n.past.recorded ==> id in w.past.recorded || id == own)
    && (forall u :: u in w.past.created ==> u in n.past.created && n.past.created[u] == w.past.created[u])
    && (forall u :: u in w.tables.tombstones ==> u in n.tables.tombstones)
    && (forall id :: id in n.tables.snapshots ==>
          id == own || (id in w.tables.snapshots && n.tables.snapshots[id] == w.tables.snapshots[id]))
    && Keeps(w, n, own)
  }

  ghost predicate Keeps(w: World, n: World, own: string) {
    forall id: string, u: int :: Located(w, id, u) && id != own && (id in n.tables.snapshots || id !in w.past.recorded)
      ==> u in n.tables.tombstones || Located(n, id, u)
  }

  lemma OtherConnKept(cfg: Config, w: World, n: World, own: string, k: Conn)
    requires ConnOk(cfg, w, k) && Gentle(w, n, own) && NotIts(k, own)
    ensures ConnOk(cfg, n, k)
  {
  }

  lemma OldRowKept(w: World, n: World, own: string, id: string)
    requires RowOk(w, id) && Gentle(w, n, own) && TablesOk(n)
    requires id in n.tables.snapshots && n.tables.snapshots[id] == w.tables.snapshots[id]
    ensures RowOk(n, id)
  {
    assert RowFits(n.tables, n.tables.snapshots[id]);
  }

  lemma Assemble(cfg: Config, s: Server, n: World, c: nat, k: Conn, own: string)
    requires Inv(cfg, s) && Gentle(s.world, n, own) && TablesOk(n) && HistoryOk(cfg, n) && ConnOk(cfg, n, k)
    requires own in n.tables.snapshots ==> RowOk(n, own)
    requires forall d :: d in s.conns && d != c ==> NotIts(s.conns[d], own) && Apart(k, s.conns[d])
    ensures Inv(cfg, Act(s, n, c, k))
  {
    WorldKept(cfg, s.world, n, own);
    forall d | d in s.conns && d != c ensures ConnOk(cfg, n, s.conns[d]) {
      OtherConnKept(cfg, s.world, n, own, s.conns[d]);
    }
  }

  lemma WorldKept(cfg: Config, w: World, n: World, own: string)
    requires WorldOk(cfg, w) && Gentle(w, n, own) && TablesOk(n) && HistoryOk(cfg, n)
    requires own in n.tables.snapshots ==> RowOk(n, own)
    ensures WorldOk(cfg, n)
  {
    forall id | id in n.tables.snapshots ensures RowOk(n, id) {
      if id != own { OldRowKept(w, n, own, id); }
    }
  }

  predicate NotIts(k: Conn, own: string) {
    k.upload.Some? ==> k.upload.value.begun.id != own
  }

  /** A step that changes only its own connection. */
  lemma LocalStep(cfg: Config, s: Server, c: nat, k: Conn)
    requires Inv(cfg, s) && c in s.conns && ConnOk(cfg, s.world, k)
    requires k.upload == s.conns[c].upload || k.upload.None?
    ensures Inv(cfg, Put(s, c, k))
  {
  }
}
