/**
 The snapshot service as a transition system: server/remote_server.cpp's handlers and
 server/remote_maintenance.cpp's deletes, over shared tables and a shared data directory.
 One action is one shared access (a store call, a mkdir, open, rename or unlink) together with
 the connection-local work up to the next one; `ok == false` makes that access fail. A handler that
 needs several accesses leaves its place in `Conn.pc`, so actions of other connections and a
 crash come between any two.

 A file is identified by the snapshot id it was created for: every path the server builds for it
 carries that id, and renames keep it.
*/
module Service {
  import opened Common
  import opened ByteOrder
  import opened MetadataTables
  import opened Auth

  // ----- state -----

  /** users/<id>: the *.bak files, tmp/ and trash/ (id, random suffix). */
  datatype Dir = Dir(blobs: set<string>, tmp: Option<set<string>>, trash: Option<set<(string, string)>>)

  const EMPTY_DIR := Dir({}, None, None)

  /** What UPLOAD_BEGIN asks for. */
  datatype Want = Want(displayName: string, size: nat, sha256: string, kind: nat, parent: string, lineage: string)

  /** What an accepted UPLOAD_BEGIN settled; the file is users/<user>/tmp/<id>.part. */
  datatype Begun = Begun(id: string, user: int, want: Want, generation: nat)

  datatype Upload = Upload(begun: Begun, received: nat, hashed: Bytes)

  datatype Download = Download(id: string, size: nat, sent: nat, served: Bytes)

  datatype Phase = Connected | Authenticated | Uploading | Downloading

  /** Where RemoteMaintenance::DeleteSnapshot is. */
  datatype DeleteStep =
    | DelFind(id: string)
    | DelCount(row: Row)
    | DelTrashDir(id: string)
    | DelRename(id: string)
    | DelRow(id: string, suffix: string)
    | DelUnlink(id: string, suffix: string)
    | DelRestore(id: string, suffix: string)

  /** Where RemoteMaintenance::DeleteAccount is. */
  datatype AccountStep =
    | AccLook
    | AccTrash
    | AccRename
    | AccRow(moved: Option<string>)
    | AccRestore(suffix: string)
    | AccClean(suffix: string)

  /** Where a handler is between two shared accesses. */
  datatype Pc =
    | Idle
    | BeginParent(want: Want)
    | BeginDirs(want: Want, generation: nat, stage: nat)
    | BeginOpen(want: Want, generation: nat)
    | Aborting
    | EndRename | EndInsert | EndUnpublish
    | Deleting(snapshot: DeleteStep)
    | Leaving(account: AccountStep)
    | DownFind(id: string)
    | DownOpen(row: Row)

  datatype Conn = Conn(
    phase: Phase, user: int, upload: Option<Upload>, fdOpen: bool, download: Option<Download>, pc: Pc)

  const NEW_CONN := Conn(Connected, 0, None, false, None, Idle)

  /** A token handed out by a login, with the account record it was handed out for. */
  datatype Grant = Grant(token: Bytes, user: int, account: User, at: U64)

  /** What has happened so far; no action reads it except to keep snapshot ids fresh. */
  datatype Past = Past(
    began: map<string, Begun>, accepted: map<string, Bytes>, recorded: set<string>,
    created: map<int, User>, order: seq<int>, grants: set<Grant>)

  /** What the connections share. */
  datatype World = World(
    tables: Tables, disk: map<int, Dir>, quarantine: map<(int, string), Dir>, files: map<string, Bytes>, past: Past)

  datatype Server = Server(world: World, conns: map<nat, Conn>)

  const BOOT := Server(World(EMPTY, map[], map[], map[], Past(map[], map[], {}, map[], [], {})), map[])

  /** PBKDF2 and SHA-256 are parameters, like the configured limits. */
  datatype Config = Config(
    key: Key, derive: (string, Bytes, nat) -> Mac, sha256: Bytes -> string,
    validName: string -> bool, validDisplayName: string -> bool, maxUpload: nat)

  // ----- actions -----

  /** A request frame with the outcome of the first shared access its handler makes. */
  datatype Request =
    | Register(name: string, password: string, salt: Option<Nonce>, now: U64, ok: bool)
    | Login(name: string, password: string, now: U64, nonce: Option<Nonce>, throttled: bool, ok: bool)
    | Logout
    | Resume(token: Bytes, now: U64, ok: bool)
    | UploadBegin(want: Want, ok: bool)
    | UploadChunk(payload: Bytes, written: Option<nat>)
    | UploadEnd(ok: bool, flushed: bool)
    | Delete(id: string, ok: bool)
    | DeleteAccount(password: string, ok: bool)
    | DownloadBegin(id: string, ok: bool)
    | DownloadChunk(got: Option<nat>)
    | DownloadEnd

  datatype Action =
    | Connect(c: nat)
    | Disconnect(c: nat, ok: bool)
    | Crash
    | Frame(c: nat, request: Request)
    | Proceed(c: nat, drawn: string, now: U64, ok: bool)
    | Sweep(c: nat, name: string)

  const PASSWORD_ITERATIONS: nat := 200_000
  const MAX_USER_ID: nat := 0x7FFF_FFFF_FFFF_FFFF
  const TRANSFER_CHUNK: nat := 256 * 1024
  const SNAPSHOT_ID_CHARS: nat := 32
  const SHA256_HEX_CHARS: nat := 64

  predicate IsLowerHex(s: string, n: nat) {
    |s| == n && forall i :: 0 <= i < n ==> '0' <= s[i] <= '9' || 'a' <= s[i] <= 'f'
  }

  ghost function Next(cfg: Config, s: Server, a: Action): Server {
    match a
    case Connect(c) => if c in s.conns then s else Put(s, c, NEW_CONN)
    case Disconnect(c, ok) => if c in s.conns && s.conns[c].pc == Idle then DoDisconnect(s, c, ok) else s
    case Crash => s.(conns := map[])
    case Frame(c, r) => if c in s.conns && s.conns[c].pc == Idle then Handle(cfg, s, c, r) else s
    case Proceed(c, drawn, now, ok) => if c in s.conns then Continue(cfg, s, c, drawn, now, ok) else s
    case Sweep(c, name) => if c in s.conns then SweepQuarantine(s, c, name) else s
  }

  /** HandleFrame. */
  ghost function Handle(cfg: Config, s: Server, c: nat, r: Request): Server
    requires c in s.conns
  {
    var k := s.conns[c];
    match r
    case Register(name, password, salt, now, ok) => DoRegister(cfg, s, c, name, password, salt, now, ok)
    case Login(name, password, now, nonce, throttled, ok) =>
      if throttled || !ok then s else DoLogin(cfg, s, c, name, password, now, nonce)
    case Logout => if k.phase != Authenticated then s else Put(s, c, SignedOut(k))
    case Resume(token, now, ok) => if ok then DoResume(cfg, s, c, token, now) else s
    case UploadBegin(want, ok) =>
      if Checked(s, k, Authenticated, ok) then DoUploadBegin(cfg, s, c, want) else Refused(s, c, Authenticated, ok)
    case UploadChunk(payload, written) => DoChunk(s, c, payload, written)
    case UploadEnd(ok, flushed) =>
      if Checked(s, k, Uploading, ok) && k.upload.Some? then Put(s, c, Verified(cfg, k, flushed)) else Refused(s, c, Uploading, ok)
    case Delete(id, ok) =>
      if !Checked(s, k, Authenticated, ok) then Refused(s, c, Authenticated, ok)
      else if IsLowerHex(id, SNAPSHOT_ID_CHARS) then Put(s, c, k.(pc := Deleting(DelFind(id)))) else s
    case DeleteAccount(password, ok) =>
      if !Checked(s, k, Authenticated, ok) then Refused(s, c, Authenticated, ok)
      else if VerifyPassword(cfg, password, s.world.tables.users[k.user].password) == Some(true) then
        Put(s, c, k.(pc := Leaving(AccLook)))
      else s
    case DownloadBegin(id, ok) =>
      if !Checked(s, k, Authenticated, ok) then Refused(s, c, Authenticated, ok)
      else if IsLowerHex(id, SNAPSHOT_ID_CHARS) then Put(s, c, k.(pc := DownFind(id))) else s
    case DownloadChunk(got) => DoDownloadChunk(s, c, got)
    case DownloadEnd => if k.phase != Downloading then s else Put(s, c, CloseDownload(k))
  }

  /** The state check of a handler followed by the look-up of its own account. */
  predicate Checked(s: Server, k: Conn, phase: Phase, ok: bool) {
    k.phase == phase && ok && k.user in s.world.tables.users
  }

  /** RejectIfAccountMissing signs the connection out when the account is gone. */
  function Refused(s: Server, c: nat, phase: Phase, ok: bool): Server
    requires c in s.conns
  {
    var k := s.conns[c];
    if k.phase == phase && ok && k.user !in s.world.tables.users then Put(s, c, SignedOut(k)) else s
  }

  function Put(s: Server, c: nat, k: Conn): Server {
    s.(conns := s.conns[c := k])
  }

  /** One access: the new shared state and the connection's new state. */
  function Act(s: Server, w: World, c: nat, k: Conn): Server {
    Server(w, s.conns[c := k])
  }

  /** The session ends; an upload in progress keeps its file and its descriptor. */
  function SignedOut(k: Conn): Conn { k.(phase := Connected, user := 0, pc := Idle) }

  function ResetUpload(k: Conn): Conn { k.(phase := Authenticated, upload := None, fdOpen := false, pc := Idle) }

  function CloseDownload(k: Conn): Conn {
    k.(download := None, phase := if k.phase == Downloading then Authenticated else k.phase)
  }

  // ----- accounts and sessions -----

  function VerifyPassword(cfg: Config, password: string, p: PasswordRecord): Option<bool> {
    if |p.salt| != PASSWORD_SALT_BYTES || |p.hash| != PASSWORD_HASH_BYTES then None
    else if p.iterations < PASSWORD_ITERATIONS then None
    else Some(cfg.derive(password, p.salt, p.iterations) == p.hash)
  }

  ghost function DoRegister(cfg: Config, s: Server, c: nat, name: string, password: string,
    salt: Option<Nonce>, now: U64, ok: bool): Server
    requires c in s.conns
  {
    if s.conns[c].phase != Connected || !cfg.validName(name) then s
    else if |password| < 8 || |password| > 256 || '\0' in password || salt.None? then s
    else
      var hash := cfg.derive(password, salt.value, PASSWORD_ITERATIONS);
      var account := User(name, PasswordRecord(salt.value, hash, PASSWORD_ITERATIONS), now);
      var id := NextUserId(s.world.tables);
      var (t, r) := CreateUser(s.world.tables, account);
      if !ok || r != Done || id > MAX_USER_ID then s
      else
        var past := s.world.past;
        s.(world := s.world.(tables := t, past := past.(created := past.created[id := account], order := past.order + [id])))
  }

  ghost function DoLogin(cfg: Config, s: Server, c: nat, name: string, password: string, now: U64,
    nonce: Option<Nonce>): Server
    requires c in s.conns
  {
    if s.conns[c].phase != Connected then s
    else if !NameTaken(s.world.tables, name) then s
    else
      var user :| user in s.world.tables.users && s.world.tables.users[user].name == name;
      var account := s.world.tables.users[user];
      if VerifyPassword(cfg, password, account.password) != Some(true) || cfg.key.secret == [] || nonce.None? then s
      else
        var token := Token(cfg.key, ToU64(user), now, nonce.value);
        var past := s.world.past;
        Act(s, s.world.(past := past.(grants := past.grants + {Grant(token, user, account, now)})),
            c, s.conns[c].(phase := Authenticated, user := user))
  }

  /** The casts between the table's int64 ids and the context's uint64. */
  function ToU64(id: int): U64 { id % (U64_MAX + 1) }

  function ToI64(id: U64): int { if id > MAX_USER_ID then id - (U64_MAX + 1) else id }

  function DoResume(cfg: Config, s: Server, c: nat, token: Bytes, now: U64): Server
    requires c in s.conns
  {
    if s.conns[c].phase != Connected || |token| > 512 then s
    else
      match Verify(cfg.key, token, now)
      case None => s
      case Some(p) =>
        if ToI64(p.user) !in s.world.tables.users then s
        else Put(s, c, s.conns[c].(phase := Authenticated, user := ToI64(p.user)))
  }

  function DoDisconnect(s: Server, c: nat, ok: bool): Server
    requires c in s.conns
  {
    var k := s.conns[c];
    Server(if k.phase == Uploading || k.fdOpen then RemovePart(s.world, k, ok) else s.world, s.conns - {c})
  }

  // ----- uploads -----

  function DoUploadBegin(cfg: Config, s: Server, c: nat, want: Want): Server
    requires c in s.conns
  {
    var k := s.conns[c];
    if !WantOk(cfg, want) then s
    else if want.kind == INCREMENTAL then Put(s, c, k.(pc := BeginParent(want)))
    else Put(s, c, k.(pc := AfterChain(cfg, want, 0)))
  }

  predicate WantOk(cfg: Config, w: Want) {
    && cfg.validDisplayName(w.displayName) && IsLowerHex(w.sha256, SHA256_HEX_CHARS)
    && (w.kind == FULL || w.kind == INCREMENTAL)
    && (w.lineage != "" ==> IsLowerHex(w.lineage, SHA256_HEX_CHARS))
    && (w.kind == INCREMENTAL ==> w.lineage != "" && IsLowerHex(w.parent, SNAPSHOT_ID_CHARS))
    && (w.kind == FULL ==> w.parent == "")
  }

  function AfterChain(cfg: Config, w: Want, generation: nat): Pc {
    if w.size == 0 || w.size > cfg.maxUpload then Idle else BeginDirs(w, generation, 0)
  }

  function RemovePart(w: World, k: Conn, ok: bool): World {
    if ok && k.upload.Some? && k.upload.value.begun.user in w.disk then
      var u := k.upload.value.begun.user;
      var d := w.disk[u];
      if d.tmp.Some? then w.(disk := w.disk[u := d.(tmp := Some(d.tmp.value - {k.upload.value.begun.id}))]) else w
    else w
  }

  function DoChunk(s: Server, c: nat, payload: Bytes, written: Option<nat>): Server
    requires c in s.conns
  {
    var k := s.conns[c];
    if k.phase != Uploading || k.upload.None? || |payload| == 0 || |payload| > TRANSFER_CHUNK then s
    else
      var up := k.upload.value;
      var id := up.begun.id;
      if up.received + |payload| > up.begun.want.size then Put(s, c, k.(pc := Aborting))
      else if written.Some? && written.value < |payload| then
        Act(s, Append(s.world, id, payload[..written.value]), c, k.(pc := Aborting))
      else
        Act(s, Accept(s.world, id, payload), c, Counted(k, payload))
  }

  function Counted(k: Conn, payload: Bytes): Conn
    requires k.upload.Some?
  {
    var up := k.upload.value;
    k.(upload := Some(up.(received := up.received + |payload|, hashed := up.hashed + payload)))
  }

  /** A chunk written in full and acknowledged. */
  function Accept(w: World, id: string, payload: Bytes): World {
    var log := if id in w.past.accepted then w.past.accepted[id] else [];
    Append(w, id, payload).(past := w.past.(accepted := w.past.accepted[id := log + payload]))
  }

  function Append(w: World, id: string, bytes: Bytes): World {
    w.(files := w.files[id := (if id in w.files then w.files[id] else []) + bytes])
  }

  function Verified(cfg: Config, k: Conn, flushed: bool): Conn
    requires k.upload.Some?
  {
    var up := k.upload.value;
    if up.received != up.begun.want.size || cfg.sha256(up.hashed) != up.begun.want.sha256 || !flushed
    then k.(pc := Aborting)
    else k.(fdOpen := false, pc := EndRename)
  }

  /** The row UPLOAD_END builds from the context. */
  function RowOf(b: Begun, user: int, now: int): Row {
    Row(b.id, user, b.want.displayName, b.want.size, b.want.sha256, now, b.id + ".bak",
        b.want.kind, b.want.parent, b.generation, b.want.lineage)
  }

  /** Renames the temporary file of `from` to the final name under `to`. */
  function Publish(w: World, from: int, to: int, id: string, ok: bool): Option<World> {
    if !ok || from !in w.disk || to !in w.disk || w.disk[from].tmp.None? || id !in w.disk[from].tmp.value then None
    else
      var d := w.disk[from];
      var taken := w.disk[from := d.(tmp := Some(d.tmp.value - {id}))];
      Some(w.(disk := taken[to := taken[to].(blobs := taken[to].blobs + {id})]))
  }

  function Unpublish(w: World, user: int, id: string, ok: bool): World {
    if !ok || user !in w.disk then w
    else w.(disk := w.disk[user := w.disk[user].(blobs := w.disk[user].blobs - {id})])
  }

  // ----- downloads -----

  function DoDownloadChunk(s: Server, c: nat, got: Option<nat>): Server
    requires c in s.conns
  {
    var k := s.conns[c];
    if k.phase != Downloading || k.download.None? then s
    else
      var d := k.download.value;
      var content := if d.id in s.world.files then s.world.files[d.id] else [];
      if got.None? || |d.served| > |content| then Put(s, c, CloseDownload(k))
      else
        var n := Least(got.value, Least(TRANSFER_CHUNK, |content| - |d.served|));
        if d.sent + n > d.size then Put(s, c, CloseDownload(k))
        else
          var chunk := content[|d.served|..|d.served| + n];
          Put(s, c, k.(download := Some(d.(sent := d.sent + n, served := d.served + chunk))))
  }

  function ContinueDownFind(s: Server, c: nat, id: string, ok: bool): Server
    requires c in s.conns
  {
    var found := FindSnapshot(s.world.tables, s.conns[c].user, id);
    if ok && found.Some? && Canonical(found.value) then Put(s, c, s.conns[c].(pc := DownOpen(found.value)))
    else Stop(s, c)
  }

  /** Opens the final path and compares its size with the row's. */
  function ContinueDownOpen(s: Server, c: nat, row: Row, ok: bool): Server
    requires c in s.conns
  {
    var k := s.conns[c];
    if ok && k.user in s.world.disk && row.id in s.world.disk[k.user].blobs && row.id in s.world.files
        && |s.world.files[row.id]| == row.size
    then Put(s, c, k.(phase := Downloading, download := Some(Download(row.id, row.size, 0, [])), pc := Idle))
    else Stop(s, c)
  }

  function Least(a: nat, b: nat): nat { if a < b then a else b }

  // ----- the remaining steps of the handlers -----

  function Stop(s: Server, c: nat): Server
    requires c in s.conns
  {
    Put(s, c, s.conns[c].(pc := Idle))
  }

  function Continue(cfg: Config, s: Server, c: nat, drawn: string, now: U64, ok: bool): Server
    requires c in s.conns
  {
    var k := s.conns[c];
    match k.pc
    case Idle => s
    case BeginParent(w) => ContinueParent(cfg, s, c, w, ok)
    case BeginDirs(w, g, stage) => ContinueDirs(s, c, w, g, stage, ok)
    case BeginOpen(w, g) => ContinueOpen(s, c, w, g, drawn, ok)
    case Aborting => Act(s, RemovePart(s.world, k, ok), c, ResetUpload(k))
    case EndRename | EndInsert | EndUnpublish => if k.upload.Some? then ContinueEnd(s, c, now, ok) else s
    case Deleting(step) => ContinueDelete(s, c, step, drawn, ok)
    case Leaving(step) => ContinueAccount(s, c, step, drawn, ok)
    case DownFind(id) => ContinueDownFind(s, c, id, ok)
    case DownOpen(row) => ContinueDownOpen(s, c, row, ok)
  }

  function ContinueParent(cfg: Config, s: Server, c: nat, w: Want, ok: bool): Server
    requires c in s.conns
  {
    var k := s.conns[c];
    var parent := FindSnapshot(s.world.tables, k.user, w.parent);
    if !ok || parent.None? || parent.value.lineage != w.lineage then Stop(s, c)
    else Put(s, c, k.(pc := AfterChain(cfg, w, parent.value.generation + 1)))
  }

  /** EnsureDirectory on users/<id>, users/<id>/tmp and users/<id>/trash: it accepts what exists and
      creates what is missing on the way, so a users/<id> that was moved away comes back empty. */
  function ContinueDirs(s: Server, c: nat, w: Want, g: nat, stage: nat, ok: bool): Server
    requires c in s.conns
  {
    var k := s.conns[c];
    var u := k.user;
    if !ok then Stop(s, c)
    else if stage == 0 || u !in s.world.disk then
      var d := if u in s.world.disk then s.world.disk[u] else EMPTY_DIR;
      Act(s, s.world.(disk := s.world.disk[u := d]), c, k.(pc := BeginDirs(w, g, if stage == 0 then 1 else stage)))
    else
      var d := s.world.disk[u];
      if stage == 1 then
        Act(s, s.world.(disk := s.world.disk[u := if d.tmp.None? then d.(tmp := Some({})) else d]), c, k.(pc := BeginDirs(w, g, 2)))
      else
        Act(s, s.world.(disk := s.world.disk[u := WithTrash(d)]), c, k.(pc := BeginOpen(w, g)))
  }

  function WithTrash(d: Dir): Dir { if d.trash.None? then d.(trash := Some({})) else d }

  /** The random id is new: an id already drawn is not offered again. */
  function ContinueOpen(s: Server, c: nat, w: Want, g: nat, drawn: string, ok: bool): Server
    requires c in s.conns
  {
    var k := s.conns[c];
    var u := k.user;
    if !IsLowerHex(drawn, SNAPSHOT_ID_CHARS) || drawn in s.world.past.began then s
    else if !ok || u !in s.world.disk || s.world.disk[u].tmp.None? then Stop(s, c)
    else
      var d := s.world.disk[u];
      var b := Begun(drawn, u, w, g);
      var past := s.world.past;
      var world := s.world.(disk := s.world.disk[u := d.(tmp := Some(d.tmp.value + {drawn}))],
                            files := s.world.files[drawn := []],
                            past := past.(began := past.began[drawn := b], accepted := past.accepted[drawn := []]));
      Act(s, world, c, k.(phase := Uploading, upload := Some(Upload(b, 0, [])), fdOpen := true, pc := Idle))
  }

  function ContinueEnd(s: Server, c: nat, now: U64, ok: bool): Server
    requires c in s.conns && s.conns[c].upload.Some?
  {
    var k := s.conns[c];
    var b := k.upload.value.begun;
    if k.pc == EndRename then
      match Publish(s.world, b.user, k.user, b.id, ok)
      case None => Put(s, c, k.(pc := Aborting))
      case Some(w) => Act(s, w, c, k.(pc := EndInsert))
    else if k.pc == EndInsert then
      var (t, r) := InsertSnapshot(s.world.tables, RowOf(b, k.user, now));
      if !ok || r != Done then Put(s, c, k.(pc := EndUnpublish))
      else Act(s, s.world.(tables := t, past := s.world.past.(recorded := s.world.past.recorded + {b.id})), c, ResetUpload(k))
    else Act(s, Unpublish(s.world, k.user, b.id, ok), c, ResetUpload(k))
  }

  predicate Canonical(row: Row) {
    row.storage != "" && '/' !in row.storage && '\\' !in row.storage && row.storage == row.id + ".bak"
  }

  /** RemoteMaintenance::DeleteSnapshot. Its EnsureDirectory is RemoteMaintenance's own, which makes one
      level (server/remote_maintenance.cpp:73-89): without users/<id> the mkdir of trash fails. */
  function ContinueDelete(s: Server, c: nat, step: DeleteStep, drawn: string, ok: bool): Server
    requires c in s.conns
  {
    var k := s.conns[c];
    var u := k.user;
    match step
    case DelFind(id) =>
      (match FindSnapshot(s.world.tables, u, id)
       case Some(row) => if ok then Put(s, c, k.(pc := Deleting(DelCount(row)))) else Stop(s, c)
       case None => Stop(s, c))
    case DelCount(row) =>
      if !ok || HasChildren(s.world.tables, u, row.id) || !Canonical(row) then Stop(s, c)
      else Put(s, c, k.(pc := Deleting(DelTrashDir(row.id))))
    case DelTrashDir(id) =>
      if !ok || u !in s.world.disk then Stop(s, c)
      else Act(s, s.world.(disk := s.world.disk[u := WithTrash(s.world.disk[u])]), c, k.(pc := Deleting(DelRename(id))))
    case DelRename(id) =>
      if !ok || u !in s.world.disk || id !in s.world.disk[u].blobs || s.world.disk[u].trash.None? then Stop(s, c)
      else
        var d := s.world.disk[u];
        var d1 := d.(blobs := d.blobs - {id}, trash := Some(d.trash.value + {(id, drawn)}));
        Act(s, s.world.(disk := s.world.disk[u := d1]), c, k.(pc := Deleting(DelRow(id, drawn))))
    case DelRow(id, suffix) =>
      var (t, r) := DeleteSnapshot(s.world.tables, u, id);
      if !ok || r != Done then Put(s, c, k.(pc := Deleting(DelRestore(id, suffix))))
      else Act(s, s.world.(tables := t), c, k.(pc := Deleting(DelUnlink(id, suffix))))
    case DelUnlink(id, suffix) =>
      if !ok || u !in s.world.disk || s.world.disk[u].trash.None? then Stop(s, c)
      else
        var d := s.world.disk[u];
        Act(s, s.world.(disk := s.world.disk[u := d.(trash := Some(d.trash.value - {(id, suffix)}))]), c, k.(pc := Idle))
    case DelRestore(id, suffix) =>
      if !ok || u !in s.world.disk || s.world.disk[u].trash.None? || (id, suffix) !in s.world.disk[u].trash.value then Stop(s, c)
      else
        var d := s.world.disk[u];
        var d1 := d.(blobs := d.blobs + {id}, trash := Some(d.trash.value - {(id, suffix)}));
        Act(s, s.world.(disk := s.world.disk[u := d1]), c, k.(pc := Idle))
  }

  /** RemoteMaintenance::DeleteAccount. Renaming a directory onto another succeeds only when the
      other is absent or empty. */
  function ContinueAccount(s: Server, c: nat, step: AccountStep, drawn: string, ok: bool): Server
    requires c in s.conns
  {
    var k := s.conns[c];
    var u := k.user;
    match step
    case AccLook => Put(s, c, k.(pc := Leaving(if u in s.world.disk then AccTrash else AccRow(None))))
    case AccTrash => if ok then Put(s, c, k.(pc := Leaving(AccRename))) else Stop(s, c)
    case AccRename =>
      if !ok then Stop(s, c)
      else if u !in s.world.disk then Put(s, c, k.(pc := Leaving(AccRow(None))))
      else if (u, drawn) in s.world.quarantine && s.world.quarantine[(u, drawn)] != EMPTY_DIR then Stop(s, c)
      else
        var quarantine := s.world.quarantine[(u, drawn) := s.world.disk[u]];
        Act(s, s.world.(disk := s.world.disk - {u}, quarantine := quarantine), c, k.(pc := Leaving(AccRow(Some(drawn)))))
    case AccRow(moved) =>
      var (t, r) := DeleteUser(s.world.tables, u);
      if ok && r == Done then
        Act(s, s.world.(tables := t), c, if moved.Some? then k.(pc := Leaving(AccClean(moved.value))) else SignedOut(k))
      else Put(s, c, k.(pc := if moved.Some? then Leaving(AccRestore(moved.value)) else Idle))
    case AccRestore(suffix) =>
      if !ok || (u, suffix) !in s.world.quarantine || (u in s.world.disk && s.world.disk[u] != EMPTY_DIR) then Stop(s, c)
      else
        Act(s, s.world.(disk := s.world.disk[u := s.world.quarantine[(u, suffix)]],
                        quarantine := s.world.quarantine - {(u, suffix)}), c, k.(pc := Idle))
    case AccClean(suffix) =>
      var w := if ok && (u, suffix) in s.world.quarantine && NoFiles(s.world.quarantine[(u, suffix)])
               then s.world.(quarantine := s.world.quarantine - {(u, suffix)}) else s.world;
      Act(s, w, c, SignedOut(k))
  }

  predicate NoFiles(d: Dir) {
    d.blobs == {} && (d.tmp.Some? ==> d.tmp.value == {}) && (d.trash.Some? ==> d.trash.value == {})
  }

  /** One file removed by RemoveDirectoryTree on the quarantined directory. */
  function SweepQuarantine(s: Server, c: nat, name: string): Server
    requires c in s.conns
  {
    var k := s.conns[c];
    if k.pc.Leaving? && k.pc.account.AccClean? && (k.user, k.pc.account.suffix) in s.world.quarantine then
      var q := (k.user, k.pc.account.suffix);
      s.(world := s.world.(quarantine := s.world.quarantine[q := Without(s.world.quarantine[q], name)]))
    else s
  }

  function Without(d: Dir, name: string): Dir {
    Dir(d.blobs - {name},
        if d.tmp.Some? then Some(d.tmp.value - {name}) else None,
        if d.trash.Some? then Some(set p | p in d.trash.value && p.0 != name) else None)
  }

  /** The state after a sequence of actions. */
  ghost function Run(cfg: Config, actions: seq<Action>): Server {
    if actions == [] then BOOT
    else Next(cfg, Run(cfg, actions[..|actions| - 1]), actions[|actions| - 1])
  }
}
