/**
 Runs that reach what the service does not keep: a snapshot delete that meets a child after counting
 none (server/remote_maintenance.cpp:255-280), and a descriptor that outlives its session
 (server/remote_server.cpp:1616-1640). Both are played for every configuration that admits the cast.
*/
module ServiceScenarios {
  import opened Common
  import opened MetadataTables
  import opened Auth
  import opened Service
  import opened ServiceInvariant

  /** Two clients signed in to one account, a full snapshot and an incremental one on top. */
  datatype Cast = Cast(
    name: string, password: string, salt: Nonce, nonce: Nonce,
    displayName: string, lineage: string, content: Bytes, id: string, childId: string)

  predicate Playable(cfg: Config, v: Cast) {
    && cfg.key.secret != [] && cfg.validName(v.name) && cfg.validDisplayName(v.displayName)
    && 8 <= |v.password| <= 256 && '\0' !in v.password
    && IsLowerHex(v.lineage, SHA256_HEX_CHARS) && IsLowerHex(cfg.sha256(v.content), SHA256_HEX_CHARS)
    && 1 <= |v.content| <= TRANSFER_CHUNK && |v.content| <= cfg.maxUpload
    && IsLowerHex(v.id, SNAPSHOT_ID_CHARS) && IsLowerHex(v.childId, SNAPSHOT_ID_CHARS) && v.id != v.childId
  }

  /** Such configurations and casts exist. */
  lemma SomeCast() returns (cfg: Config, v: Cast)
    ensures Playable(cfg, v)
  {
    var zeros: Mac := Fill(MAC_BYTES, 0);
    var hex, id := seq(SHA256_HEX_CHARS, _ => '0'), seq(SNAPSHOT_ID_CHARS, _ => '0');
    cfg := Config(Key([1], (_, _) => zeros), (_, _, _) => zeros, _ => hex, _ => true, _ => true, 1);
    v := Cast("a", seq(8, _ => 'a'), Fill(NONCE_BYTES, 0), Fill(NONCE_BYTES, 0), "a", hex, [0], id, id[0 := '1']);
    assert v.id[0] != v.childId[0];
  }

  function Account(cfg: Config, v: Cast): User {
    User(v.name, PasswordRecord(v.salt, cfg.derive(v.password, v.salt, PASSWORD_ITERATIONS), PASSWORD_ITERATIONS), 0)
  }

  function FullWant(cfg: Config, v: Cast): Want {
    Want(v.displayName, |v.content|, cfg.sha256(v.content), FULL, "", v.lineage)
  }

  function ChildWant(cfg: Config, v: Cast): Want {
    Want(v.displayName, |v.content|, cfg.sha256(v.content), INCREMENTAL, v.id, v.lineage)
  }

  // ----- playing a script -----

  /** The state after more actions. */
  ghost function From(cfg: Config, s: Server, actions: seq<Action>): Server {
    if actions == [] then s
    else Next(cfg, From(cfg, s, actions[..|actions| - 1]), actions[|actions| - 1])
  }

  lemma {:induction false} RunGoesOnFrom(cfg: Config, before: seq<Action>, more: seq<Action>)
    ensures Run(cfg, before + more) == From(cfg, Run(cfg, before), more)
  {
    if more == [] {
      assert before + more == before;
    } else {
      RunGoesOnFrom(cfg, before, more[..|more| - 1]);
      assert (before + more)[..|before + more| - 1] == before + more[..|more| - 1];
    }
  }

  lemma {:induction false} FromJoins(cfg: Config, s: Server, a: seq<Action>, b: seq<Action>)
    ensures From(cfg, s, a + b) == From(cfg, From(cfg, s, a), b)
  {
    if b == [] {
      assert a + b == a;
    } else {
      FromJoins(cfg, s, a, b[..|b| - 1]);
      assert (a + b)[..|a + b| - 1] == a + b[..|b| - 1];
    }
  }

  lemma FromOne(cfg: Config, s: Server, a: Action)
    ensures From(cfg, s, [a]) == Next(cfg, s, a)
  {
    assert [a][..0] == [];
    assert From(cfg, s, []) == s;
  }

  lemma FromTwo(cfg: Config, s: Server, a: Action, b: Action)
    ensures From(cfg, s, [a, b]) == Next(cfg, Next(cfg, s, a), b)
  {
    assert [a, b][..1] == [a];
    FromOne(cfg, s, a);
  }

  lemma FromThree(cfg: Config, s: Server, a: Action, b: Action, c: Action)
    ensures From(cfg, s, [a, b, c]) == Next(cfg, Next(cfg, Next(cfg, s, a), b), c)
  {
    assert [a, b, c][..2] == [a, b];
    FromTwo(cfg, s, a, b);
  }

  /** The sixteen digits drawn for names in trash and quarantine. */
  const SUFFIX: string := "0123456789abcdef"

  /** The store call, rename or mkdir the connection stands before succeeds. */
  function Go(c: nat): Action { Proceed(c, SUFFIX, 0, true) }

  /** Signed in and between two requests. */
  function SignedIn(u: int): Conn { Conn(Authenticated, u, None, false, None, Idle) }

  // ----- two sessions of one account -----

  function SignInScript(v: Cast): seq<Action> {
    [Connect(0), Connect(1), Frame(0, Register(v.name, v.password, Some(v.salt), 0, true))]
    + [LogIn(v, 0), LogIn(v, 1)]
  }

  function LogIn(v: Cast, c: nat): Action { Frame(c, Login(v.name, v.password, 0, Some(v.nonce), false, true)) }

  /** The two sessions of account 1, with the snapshots recorded so far. */
  predicate OnStage(cfg: Config, v: Cast, s: Server) {
    && s.conns == map[0 := SignedIn(1), 1 := SignedIn(1)]
    && s.world.tables == Tables(map[1 := Account(cfg, v)], map[], {})
    && s.world.past.began == map[] && s.world.quarantine == map[]
  }

  lemma SignInPlays(cfg: Config, v: Cast)
    requires Playable(cfg, v)
    ensures OnStage(cfg, v, Run(cfg, SignInScript(v)))
  {
    var registered := [Connect(0), Connect(1), Frame(0, Register(v.name, v.password, Some(v.salt), 0, true))];
    assert [] + registered == registered;
    RunGoesOnFrom(cfg, [], registered);
    RunGoesOnFrom(cfg, registered, [LogIn(v, 0), LogIn(v, 1)]);
    RegistrationPlays(cfg, v);
    LogInPlays(cfg, v, From(cfg, BOOT, registered));
  }

  lemma RegistrationPlays(cfg: Config, v: Cast)
    requires Playable(cfg, v)
    ensures
      var n := From(cfg, BOOT, [Connect(0), Connect(1), Frame(0, Register(v.name, v.password, Some(v.salt), 0, true))]);
      && n.conns == map[0 := NEW_CONN, 1 := NEW_CONN] && n.world.past.began == map[] && n.world.quarantine == map[]
      && n.world.tables == Tables(map[1 := Account(cfg, v)], map[], {})
  {
    FromThree(cfg, BOOT, Connect(0), Connect(1), Frame(0, Register(v.name, v.password, Some(v.salt), 0, true)));
    FirstId();
    assert !NameTaken(EMPTY, v.name);
  }

  lemma FirstId()
    ensures NextUserId(EMPTY) == 1
  {
    assert EMPTY.users.Keys == {} && MaxId({}) == 0;
  }

  lemma LogInPlays(cfg: Config, v: Cast, s: Server)
    requires Playable(cfg, v) && s.conns == map[0 := NEW_CONN, 1 := NEW_CONN]
    requires s.world.past.began == map[] && s.world.quarantine == map[]
    requires s.world.tables == Tables(map[1 := Account(cfg, v)], map[], {})
    ensures OnStage(cfg, v, From(cfg, s, [LogIn(v, 0), LogIn(v, 1)]))
  {
    FromTwo(cfg, s, LogIn(v, 0), LogIn(v, 1));
    OneLogsIn(cfg, v, s, 0);
    OneLogsIn(cfg, v, Next(cfg, s, LogIn(v, 0)), 1);
  }

  lemma OneLogsIn(cfg: Config, v: Cast, s: Server, c: nat)
    requires Playable(cfg, v) && c in s.conns && s.conns[c] == NEW_CONN
    requires s.world.tables.users == map[1 := Account(cfg, v)]
    ensures
      var n := Next(cfg, s, LogIn(v, c));
      && n.conns == s.conns[c := SignedIn(1)] && n.world.tables == s.world.tables
      && n.world.past.began == s.world.past.began && n.world.quarantine == s.world.quarantine
  {
    assert s.world.tables.users[1].name == v.name;
  }

  // ----- an upload, up to the row -----

  /** mkdir three times, then open the temporary file. */
  function OpenScript(c: nat, id: string): seq<Action> { [Go(c), Go(c), Go(c)] + [Proceed(c, id, 0, true)] }

  function Blobs(w: World, u: int): set<string> { if u in w.disk then w.disk[u].blobs else {} }

  predicate DirsMade(w: World, u: int) { u in w.disk && w.disk[u].tmp.Some? && w.disk[u].trash.Some? }

  /** Only the files and directories of u differ, and no published file of u is lost. */
  predicate OnlyDisk(w: World, n: World, u: int) {
    n.tables == w.tables && n.past.began == w.past.began && n.quarantine == w.quarantine && Blobs(w, u) <= Blobs(n, u)
  }

  lemma DirsPlay(cfg: Config, s: Server, c: nat, u: int, want: Want, g: nat)
    requires c in s.conns && s.conns[c] == SignedIn(u).(pc := BeginDirs(want, g, 0))
    ensures
      var n := From(cfg, s, [Go(c), Go(c), Go(c)]);
      n.conns == s.conns[c := SignedIn(u).(pc := BeginOpen(want, g))] && DirsMade(n.world, u) && OnlyDisk(s.world, n.world, u)
  {
    FromThree(cfg, s, Go(c), Go(c), Go(c));
    var s1 := Next(cfg, s, Go(c));
    assert s1.conns == s.conns[c := SignedIn(u).(pc := BeginDirs(want, g, 1))];
    var s2 := Next(cfg, s1, Go(c));
    assert s2.conns == s.conns[c := SignedIn(u).(pc := BeginDirs(want, g, 2))];
  }

  function Started(u: int, want: Want, g: nat, id: string): Conn {
    Conn(Uploading, u, Some(Upload(Begun(id, u, want, g), 0, [])), true, None, Idle)
  }

  /** The upload `id` is under way on `c`, nothing received yet. */
  predicate UnderWay(s: Server, n: Server, c: nat, u: int, want: Want, g: nat, id: string) {
    && n.conns == s.conns[c := Started(u, want, g, id)]
    && n.world.tables == s.world.tables && n.world.past.began.Keys == s.world.past.began.Keys + {id}
    && n.world.quarantine == s.world.quarantine
    && DirsMade(n.world, u) && id in n.world.disk[u].tmp.value && Blobs(s.world, u) <= Blobs(n.world, u)
  }

  lemma OpenPlays(cfg: Config, s: Server, c: nat, u: int, want: Want, g: nat, id: string)
    requires c in s.conns && s.conns[c] == SignedIn(u).(pc := BeginDirs(want, g, 0))
    requires IsLowerHex(id, SNAPSHOT_ID_CHARS) && id !in s.world.past.began
    ensures UnderWay(s, From(cfg, s, OpenScript(c, id)), c, u, want, g, id)
  {
    FromJoins(cfg, s, [Go(c), Go(c), Go(c)], [Proceed(c, id, 0, true)]);
    DirsPlay(cfg, s, c, u, want, g);
    var n := From(cfg, s, [Go(c), Go(c), Go(c)]);
    FromOne(cfg, n, Proceed(c, id, 0, true));
    FileOpens(cfg, n, c, u, want, g, id);
  }

  lemma FileOpens(cfg: Config, s: Server, c: nat, u: int, want: Want, g: nat, id: string)
    requires c in s.conns && s.conns[c] == SignedIn(u).(pc := BeginOpen(want, g)) && DirsMade(s.world, u)
    requires IsLowerHex(id, SNAPSHOT_ID_CHARS) && id !in s.world.past.began
    ensures UnderWay(s, Next(cfg, s, Proceed(c, id, 0, true)), c, u, want, g, id)
  {}

  /** One chunk, UPLOAD_END and the rename to the final name. */
  function FillScript(c: nat, content: Bytes): seq<Action> {
    [Frame(c, UploadChunk(content, None)), Frame(c, UploadEnd(true, true)), Go(c)]
  }

  function Received(u: int, want: Want, g: nat, id: string, content: Bytes, pc: Pc): Conn {
    Conn(Uploading, u, Some(Upload(Begun(id, u, want, g), |content|, content)), false, None, pc)
  }

  lemma FillPlays(cfg: Config, s: Server, c: nat, u: int, want: Want, g: nat, id: string, content: Bytes)
    requires c in s.conns && s.conns[c] == Started(u, want, g, id) && u in s.world.tables.users
    requires 1 <= |content| == want.size <= TRANSFER_CHUNK && cfg.sha256(content) == want.sha256
    requires DirsMade(s.world, u) && id in s.world.disk[u].tmp.value
    ensures
      var n := From(cfg, s, FillScript(c, content));
      && n.conns == s.conns[c := Received(u, want, g, id, content, EndInsert)]
      && OnlyDisk(s.world, n.world, u) && DirsMade(n.world, u) && id in Blobs(n.world, u)
  {
    FromThree(cfg, s, Frame(c, UploadChunk(content, None)), Frame(c, UploadEnd(true, true)), Go(c));
    var s1 := Next(cfg, s, Frame(c, UploadChunk(content, None)));
    ChunkPlays(cfg, s, c, u, want, g, id, content);
    var s2 := Next(cfg, s1, Frame(c, UploadEnd(true, true)));
    assert s2 == Put(s1, c, Received(u, want, g, id, content, EndRename));
    assert s2.conns == s.conns[c := Received(u, want, g, id, content, EndRename)];
    RenamePlays(cfg, s2, c, u, want, g, id, content);
  }

  lemma ChunkPlays(cfg: Config, s: Server, c: nat, u: int, want: Want, g: nat, id: string, content: Bytes)
    requires c in s.conns && s.conns[c] == Started(u, want, g, id) && 1 <= |content| == want.size <= TRANSFER_CHUNK
    ensures
      var n := Next(cfg, s, Frame(c, UploadChunk(content, None)));
      && n.conns == s.conns[c := Received(u, want, g, id, content, Idle).(fdOpen := true)]
      && n.world.tables == s.world.tables && n.world.disk == s.world.disk && n.world.past.began == s.world.past.began
  {
    assert [] + content == content;
  }

  lemma RenamePlays(cfg: Config, s: Server, c: nat, u: int, want: Want, g: nat, id: string, content: Bytes)
    requires c in s.conns && s.conns[c] == Received(u, want, g, id, content, EndRename)
    requires DirsMade(s.world, u) && id in s.world.disk[u].tmp.value
    ensures
      var n := Next(cfg, s, Go(c));
      && n.conns == s.conns[c := Received(u, want, g, id, content, EndInsert)]
      && OnlyDisk(s.world, n.world, u) && DirsMade(n.world, u) && id in Blobs(n.world, u)
  {}

  lemma InsertPlays(cfg: Config, s: Server, c: nat, u: int, want: Want, g: nat, id: string, content: Bytes)
    requires c in s.conns && s.conns[c] == Received(u, want, g, id, content, EndInsert)
    requires InsertSnapshot(s.world.tables, RowOf(Begun(id, u, want, g), u, 0)).1 == Done
    ensures
      var n := Next(cfg, s, Go(c));
      && n.conns == s.conns[c := SignedIn(u)] && n.world.disk == s.world.disk && n.world.past.began == s.world.past.began
      && n.world.tables == InsertSnapshot(s.world.tables, RowOf(Begun(id, u, want, g), u, 0)).0
  {}

  // ----- a delete, up to the row -----

  function DeleteScript(c: nat, id: string): seq<Action> {
    [Frame(c, Delete(id, true)), Go(c), Go(c)] + [Go(c), Go(c)]
  }

  lemma DeletePlays(cfg: Config, s: Server, c: nat, u: int, id: string)
    requires c in s.conns && s.conns[c] == SignedIn(u) && u in s.world.tables.users
    requires IsLowerHex(id, SNAPSHOT_ID_CHARS) && FindSnapshot(s.world.tables, u, id).Some?
    requires
      var row := FindSnapshot(s.world.tables, u, id).value;
      row.id == id && row.storage == id + ".bak" && !HasChildren(s.world.tables, u, id)
    requires DirsMade(s.world, u) && id in Blobs(s.world, u)
    ensures
      var n := From(cfg, s, DeleteScript(c, id));
      n.conns == s.conns[c := SignedIn(u).(pc := Deleting(DelRow(id, SUFFIX)))] && n.world.tables == s.world.tables
  {
    var first, second := [Frame(c, Delete(id, true)), Go(c), Go(c)], [Go(c), Go(c)];
    FromJoins(cfg, s, first, second);
    FromThree(cfg, s, Frame(c, Delete(id, true)), Go(c), Go(c));
    CountPlays(cfg, s, c, u, id);
    var n := From(cfg, s, first);
    FromTwo(cfg, n, Go(c), Go(c));
    TrashPlays(cfg, n, c, u, id);
  }

  lemma CountPlays(cfg: Config, s: Server, c: nat, u: int, id: string)
    requires c in s.conns && s.conns[c] == SignedIn(u) && u in s.world.tables.users
    requires IsLowerHex(id, SNAPSHOT_ID_CHARS) && FindSnapshot(s.world.tables, u, id).Some?
    requires
      var row := FindSnapshot(s.world.tables, u, id).value;
      row.id == id && row.storage == id + ".bak" && !HasChildren(s.world.tables, u, id)
    ensures Next(cfg, Next(cfg, Next(cfg, s, Frame(c, Delete(id, true))), Go(c)), Go(c))
            == Put(s, c, SignedIn(u).(pc := Deleting(DelTrashDir(id))))
  {
    var row := FindSnapshot(s.world.tables, u, id).value;
    HexIsCanonical(row);
    var s1 := Next(cfg, s, Frame(c, Delete(id, true)));
    assert s1 == Put(s, c, SignedIn(u).(pc := Deleting(DelFind(id))));
    var s2 := Next(cfg, s1, Go(c));
    assert s2 == Put(s, c, SignedIn(u).(pc := Deleting(DelCount(row))));
  }

  lemma HexIsCanonical(row: Row)
    requires IsLowerHex(row.id, SNAPSHOT_ID_CHARS) && row.storage == row.id + ".bak"
    ensures Canonical(row)
  {
    assert forall i :: 0 <= i < |row.storage| ==> row.storage[i] == if i < |row.id| then row.id[i] else ".bak"[i - |row.id|];
  }

  lemma TrashPlays(cfg: Config, s: Server, c: nat, u: int, id: string)
    requires c in s.conns && s.conns[c] == SignedIn(u).(pc := Deleting(DelTrashDir(id)))
    requires DirsMade(s.world, u) && id in Blobs(s.world, u)
    ensures
      var n := Next(cfg, Next(cfg, s, Go(c)), Go(c));
      n.conns == s.conns[c := SignedIn(u).(pc := Deleting(DelRow(id, SUFFIX)))] && n.world.tables == s.world.tables
  {
    var s1 := Next(cfg, s, Go(c));
    assert s1.conns == s.conns[c := SignedIn(u).(pc := Deleting(DelRename(id)))];
  }

  // ----- a child appears during a delete -----

  function FullRow(cfg: Config, v: Cast): Row { RowOf(Begun(v.id, 1, FullWant(cfg, v), 0), 1, 0) }

  function ChildRow(cfg: Config, v: Cast): Row { RowOf(Begun(v.childId, 1, ChildWant(cfg, v), 1), 1, 0) }

  function FullScript(cfg: Config, v: Cast): seq<Action> {
    [Frame(0, UploadBegin(FullWant(cfg, v), true))] + OpenScript(0, v.id) + FillScript(0, v.content) + [Go(0)]
  }

  function ChildScript(cfg: Config, v: Cast): seq<Action> {
    [Frame(1, UploadBegin(ChildWant(cfg, v), true)), Go(1)] + OpenScript(1, v.childId) + FillScript(1, v.content)
  }

  /** The full snapshot is recorded and its file published. */
  predicate FullRecorded(cfg: Config, v: Cast, s: Server) {
    && s.world.tables == Tables(map[1 := Account(cfg, v)], map[v.id := FullRow(cfg, v)], {})
    && DirsMade(s.world, 1) && v.id in Blobs(s.world, 1)
  }

  lemma UploadPlays(cfg: Config, s: Server, c: nat, want: Want, g: nat, id: string, content: Bytes)
    requires c in s.conns && s.conns[c] == SignedIn(1).(pc := BeginDirs(want, g, 0)) && 1 in s.world.tables.users
    requires IsLowerHex(id, SNAPSHOT_ID_CHARS) && id !in s.world.past.began
    requires 1 <= |content| == want.size <= TRANSFER_CHUNK && cfg.sha256(content) == want.sha256
    ensures
      var n := From(cfg, s, OpenScript(c, id) + FillScript(c, content));
      && n.conns == s.conns[c := Received(1, want, g, id, content, EndInsert)]
      && n.world.tables == s.world.tables && n.world.past.began.Keys == s.world.past.began.Keys + {id}
      && Blobs(s.world, 1) <= Blobs(n.world, 1) && DirsMade(n.world, 1) && id in Blobs(n.world, 1)
  {
    FromJoins(cfg, s, OpenScript(c, id), FillScript(c, content));
    OpenPlays(cfg, s, c, 1, want, g, id);
    FillPlays(cfg, From(cfg, s, OpenScript(c, id)), c, 1, want, g, id, content);
  }

  lemma FullPlays(cfg: Config, v: Cast, s: Server)
    requires Playable(cfg, v) && OnStage(cfg, v, s)
    ensures
      var n := From(cfg, s, FullScript(cfg, v));
      FullRecorded(cfg, v, n) && n.conns == s.conns && n.world.past.began.Keys == {v.id}
  {
    var want := FullWant(cfg, v);
    var begin, upload := [Frame(0, UploadBegin(want, true))], OpenScript(0, v.id) + FillScript(0, v.content);
    assert FullScript(cfg, v) == begin + upload + [Go(0)];
    FromJoins(cfg, s, begin + upload, [Go(0)]);
    FromJoins(cfg, s, begin, upload);
    FromOne(cfg, s, begin[0]);
    var s1 := From(cfg, s, begin);
    assert s1 == Put(s, 0, SignedIn(1).(pc := BeginDirs(want, 0, 0)));
    UploadPlays(cfg, s1, 0, want, 0, v.id, v.content);
    var s2 := From(cfg, s, begin + upload);
    FromOne(cfg, s2, Go(0));
    FullIsInserted(cfg, v);
    InsertPlays(cfg, s2, 0, 1, want, 0, v.id, v.content);
    assert s.conns[0 := SignedIn(1)] == s.conns;
  }

  lemma FullIsInserted(cfg: Config, v: Cast)
    ensures InsertSnapshot(Tables(map[1 := Account(cfg, v)], map[], {}), FullRow(cfg, v))
            == (Tables(map[1 := Account(cfg, v)], map[v.id := FullRow(cfg, v)], {}), Done)
  {}

  lemma ChildPlays(cfg: Config, v: Cast, s: Server)
    requires Playable(cfg, v) && FullRecorded(cfg, v, s) && 1 in s.conns && s.conns[1] == SignedIn(1)
    requires s.world.past.began.Keys == {v.id}
    ensures
      var n := From(cfg, s, ChildScript(cfg, v));
      && FullRecorded(cfg, v, n)
      && n.conns == s.conns[1 := Received(1, ChildWant(cfg, v), 1, v.childId, v.content, EndInsert)]
  {
    var want := ChildWant(cfg, v);
    var begin, upload := [Frame(1, UploadBegin(want, true)), Go(1)], OpenScript(1, v.childId) + FillScript(1, v.content);
    assert ChildScript(cfg, v) == begin + upload;
    FromJoins(cfg, s, begin, upload);
    ChildBegins(cfg, v, s);
    UploadPlays(cfg, From(cfg, s, begin), 1, want, 1, v.childId, v.content);
  }

  lemma ChildBegins(cfg: Config, v: Cast, s: Server)
    requires Playable(cfg, v) && FullRecordedRow(cfg, v, s) && 1 in s.conns && s.conns[1] == SignedIn(1)
    ensures From(cfg, s, [Frame(1, UploadBegin(ChildWant(cfg, v), true)), Go(1)])
            == Put(s, 1, SignedIn(1).(pc := BeginDirs(ChildWant(cfg, v), 1, 0)))
  {
    var want := ChildWant(cfg, v);
    FromTwo(cfg, s, Frame(1, UploadBegin(want, true)), Go(1));
    var s1 := Next(cfg, s, Frame(1, UploadBegin(want, true)));
    assert s1 == Put(s, 1, SignedIn(1).(pc := BeginParent(want)));
    NoChildYet(cfg, v, s);
    assert Next(cfg, s1, Go(1)).conns == s.conns[1 := SignedIn(1).(pc := BeginDirs(want, 1, 0))];
  }

  /** The delete stands before its row, which the child's row is about to reference. */
  predicate Poised(cfg: Config, v: Cast, s: Server) {
    && FullRecordedRow(cfg, v, s)
    && s.conns == map[0 := SignedIn(1).(pc := Deleting(DelRow(v.id, SUFFIX))),
                      1 := Received(1, ChildWant(cfg, v), 1, v.childId, v.content, EndInsert)]
  }

  predicate FullRecordedRow(cfg: Config, v: Cast, s: Server) {
    s.world.tables == Tables(map[1 := Account(cfg, v)], map[v.id := FullRow(cfg, v)], {})
  }

  function PoiseScript(cfg: Config, v: Cast): seq<Action> {
    SignInScript(v) + (FullScript(cfg, v) + ChildScript(cfg, v) + DeleteScript(0, v.id))
  }

  lemma PoisePlays(cfg: Config, v: Cast)
    requires Playable(cfg, v)
    ensures Poised(cfg, v, Run(cfg, PoiseScript(cfg, v)))
  {
    var full, child, delete := FullScript(cfg, v), ChildScript(cfg, v), DeleteScript(0, v.id);
    RunGoesOnFrom(cfg, SignInScript(v), full + child + delete);
    SignInPlays(cfg, v);
    var s0 := Run(cfg, SignInScript(v));
    FromJoins(cfg, s0, full + child, delete);
    FromJoins(cfg, s0, full, child);
    FullPlays(cfg, v, s0);
    var s1 := From(cfg, s0, full);
    ChildPlays(cfg, v, s1);
    var s2 := From(cfg, s1, child);
    NoChildYet(cfg, v, s2);
    DeletePlays(cfg, s2, 0, 1, v.id);
  }

  lemma NoChildYet(cfg: Config, v: Cast, s: Server)
    requires FullRecordedRow(cfg, v, s) && IsLowerHex(v.id, SNAPSHOT_ID_CHARS)
    ensures FindSnapshot(s.world.tables, 1, v.id) == Some(FullRow(cfg, v)) && !HasChildren(s.world.tables, 1, v.id)
  {
    assert |v.id| != |""|;
  }

  /** From the start of the service: two sessions of one account, a full snapshot, an incremental upload
      on one session and the delete of the full snapshot on the other. The delete counts no child and
      moves the file away; the child's insert succeeds; the row delete is refused with HasDependents
      although every call works, and the delete turns back (server/remote_maintenance.cpp:274). */
  lemma ChildMayAppearDuringDelete(cfg: Config, v: Cast)
    requires Playable(cfg, v)
    ensures
      var poised := Run(cfg, PoiseScript(cfg, v));
      var inserted := Run(cfg, PoiseScript(cfg, v) + [Go(1)]);
      var refused := Run(cfg, PoiseScript(cfg, v) + [Go(1), Go(0)]);
      && 0 in poised.conns && poised.conns[0].pc == Deleting(DelRow(v.id, SUFFIX)) && !HasChildren(poised.world.tables, 1, v.id)
      && v.childId in inserted.world.tables.snapshots && inserted.world.tables.snapshots[v.childId].parent == v.id
      && DeleteSnapshot(inserted.world.tables, 1, v.id).1 == HasDependents
      && 0 in refused.conns && refused.conns[0].pc == Deleting(DelRestore(v.id, SUFFIX))
  {
    var script := PoiseScript(cfg, v);
    PoisePlays(cfg, v);
    var s := Run(cfg, script);
    NoChildYet(cfg, v, s);
    RunGoesOnFrom(cfg, script, [Go(1)]);
    RunGoesOnFrom(cfg, script, [Go(1), Go(0)]);
    FromOne(cfg, s, Go(1));
    FromTwo(cfg, s, Go(1), Go(0));
    ChildIsInserted(cfg, v, s.world.tables);
    InsertPlays(cfg, s, 1, 1, ChildWant(cfg, v), 1, v.childId, v.content);
    RollBackExactly(cfg, Next(cfg, s, Go(1)), 0, v.id, SUFFIX, SUFFIX, 0, true);
  }

  lemma ChildIsInserted(cfg: Config, v: Cast, t: Tables)
    requires Playable(cfg, v) && t == Tables(map[1 := Account(cfg, v)], map[v.id := FullRow(cfg, v)], {})
    ensures
      var (n, r) := InsertSnapshot(t, ChildRow(cfg, v));
      && r == Done && v.childId in n.snapshots && n.snapshots[v.childId].parent == v.id
      && DeleteSnapshot(n, 1, v.id).1 == HasDependents
  {
    var n := t.(snapshots := t.snapshots[v.childId := ChildRow(cfg, v)]);
    assert !HasChildren(t, 1, v.id);
    assert IsChild(n, 1, v.id, v.childId);
  }

  /** At its row, a delete turns back exactly when the store call fails, the row is gone, or some row
      has it as parent, whatever was counted before. */
  lemma RollBackExactly(cfg: Config, s: Server, c: nat, id: string, suffix: string, drawn: string, now: U64, ok: bool)
    requires c in s.conns && s.conns[c].pc == Deleting(DelRow(id, suffix))
    ensures
      var n := Next(cfg, s, Proceed(c, drawn, now, ok));
      var u := s.conns[c].user;
      c in n.conns
      && (n.conns[c].pc == Deleting(DelRestore(id, suffix))
          <==> !ok || FindSnapshot(s.world.tables, u, id).None? || HasChildren(s.world.tables, u, id))
  {}

  /** No step of a delete creates or removes a users/<id>, so a delete under way never stands in the
      way of an account's restoring rename. */
  lemma DeletesKeepUserDirectories(s: Server, c: nat, drawn: string, ok: bool, u: int)
    requires c in s.conns && s.conns[c].pc.Deleting?
    ensures
      var n := ContinueDelete(s, c, s.conns[c].pc.snapshot, drawn, ok).world;
      (u in n.disk <==> u in s.world.disk) && n.quarantine == s.world.quarantine
  {}

  // ----- a descriptor outlives its session -----

  /** Session 0 begins an upload; session 1 deletes the account, up to and including its row. */
  function OutliveScript(cfg: Config, v: Cast): seq<Action> {
    SignInScript(v) + ([Frame(0, UploadBegin(FullWant(cfg, v), true))] + OpenScript(0, v.id) + LeaveScript(v))
  }

  function LeaveScript(v: Cast): seq<Action> {
    [Frame(1, DeleteAccount(v.password, true)), Go(1), Go(1)] + [Go(1), Go(1)]
  }

  lemma LeavePlays(cfg: Config, v: Cast, s: Server)
    requires 1 in s.conns && s.conns[1] == SignedIn(1) && 1 in s.world.disk && s.world.quarantine == map[]
    requires s.world.tables == Tables(map[1 := Account(cfg, v)], map[], {})
    ensures
      var n := From(cfg, s, LeaveScript(v));
      1 !in n.world.tables.users && forall c :: c in s.conns && c != 1 ==> c in n.conns && n.conns[c] == s.conns[c]
  {
    var first, second := [Frame(1, DeleteAccount(v.password, true)), Go(1), Go(1)], [Go(1), Go(1)];
    FromJoins(cfg, s, first, second);
    FromThree(cfg, s, first[0], Go(1), Go(1));
    LookPlays(cfg, v, s);
    var s3 := From(cfg, s, first);
    FromTwo(cfg, s3, Go(1), Go(1));
    RowPlays(cfg, v, s3);
  }

  lemma LookPlays(cfg: Config, v: Cast, s: Server)
    requires 1 in s.conns && s.conns[1] == SignedIn(1) && 1 in s.world.disk
    requires s.world.tables == Tables(map[1 := Account(cfg, v)], map[], {})
    ensures Next(cfg, Next(cfg, Next(cfg, s, Frame(1, DeleteAccount(v.password, true))), Go(1)), Go(1))
            == Put(s, 1, SignedIn(1).(pc := Leaving(AccRename)))
  {
    var s1 := Next(cfg, s, Frame(1, DeleteAccount(v.password, true)));
    assert s1 == Put(s, 1, SignedIn(1).(pc := Leaving(AccLook)));
    var s2 := Next(cfg, s1, Go(1));
    assert s2 == Put(s, 1, SignedIn(1).(pc := Leaving(AccTrash)));
  }

  lemma RowPlays(cfg: Config, v: Cast, s: Server)
    requires 1 in s.conns && s.conns[1] == SignedIn(1).(pc := Leaving(AccRename)) && 1 in s.world.disk
    requires s.world.quarantine == map[] && s.world.tables == Tables(map[1 := Account(cfg, v)], map[], {})
    ensures
      var n := Next(cfg, Next(cfg, s, Go(1)), Go(1));
      1 !in n.world.tables.users && forall c :: c in s.conns && c != 1 ==> c in n.conns && n.conns[c] == s.conns[c]
  {
    var s1 := Next(cfg, s, Go(1));
    assert s1.conns == s.conns[1 := SignedIn(1).(pc := Leaving(AccRow(Some(SUFFIX))))] && s1.world.tables == s.world.tables;
  }

  lemma OutlivePlays(cfg: Config, v: Cast)
    requires Playable(cfg, v)
    ensures
      var s := Run(cfg, OutliveScript(cfg, v));
      && 0 in s.conns && s.conns[0] == Started(1, FullWant(cfg, v), 0, v.id) && 1 !in s.world.tables.users
  {
    var want := FullWant(cfg, v);
    var begin, open, leave := [Frame(0, UploadBegin(want, true))], OpenScript(0, v.id), LeaveScript(v);
    RunGoesOnFrom(cfg, SignInScript(v), begin + open + leave);
    SignInPlays(cfg, v);
    var s0 := Run(cfg, SignInScript(v));
    FromJoins(cfg, s0, begin + open, leave);
    BeginPlays(cfg, v, s0);
    LeavePlays(cfg, v, From(cfg, s0, begin + open));
  }

  /** Session 0 stands in the middle of its upload. */
  lemma BeginPlays(cfg: Config, v: Cast, s: Server)
    requires Playable(cfg, v) && OnStage(cfg, v, s)
    ensures
      var n := From(cfg, s, [Frame(0, UploadBegin(FullWant(cfg, v), true))] + OpenScript(0, v.id));
      && n.conns == s.conns[0 := Started(1, FullWant(cfg, v), 0, v.id)] && 1 in n.world.disk
      && n.world.quarantine == map[] && n.world.tables == s.world.tables
  {
    var want := FullWant(cfg, v);
    var begin, open := [Frame(0, UploadBegin(want, true))], OpenScript(0, v.id);
    FromJoins(cfg, s, begin, open);
    FromOne(cfg, s, begin[0]);
    var s1 := From(cfg, s, begin);
    assert s1 == Put(s, 0, SignedIn(1).(pc := BeginDirs(want, 0, 0)));
    OpenPlays(cfg, s1, 0, 1, want, 0, v.id);
  }

  /** From the start of the service: an upload under way on one session, its account deleted on the
      other. The UPLOAD_END that follows signs the session out with the descriptor still open. */
  lemma HandleOutlivesSession(cfg: Config, v: Cast)
    requires Playable(cfg, v)
    ensures
      var before := Run(cfg, OutliveScript(cfg, v));
      var after := Run(cfg, OutliveScript(cfg, v) + [Frame(0, UploadEnd(true, true))]);
      && 0 in before.conns && before.conns[0].phase == Uploading && before.conns[0].fdOpen
      && 0 in after.conns && after.conns[0].phase == Connected && after.conns[0].fdOpen
  {
    var script, end := OutliveScript(cfg, v), Frame(0, UploadEnd(true, true));
    OutlivePlays(cfg, v);
    RunGoesOnFrom(cfg, script, [end]);
    FromOne(cfg, Run(cfg, script), end);
  }

  /** Whatever happens in the service, a connection leaves the uploading state with its descriptor open
      exactly when its own UPLOAD_END finds the account missing. */
  lemma DescriptorOutlivesExactly(cfg: Config, s: Server, a: Action, c: nat)
    requires c in s.conns && c in Next(cfg, s, a).conns && ConnOk(cfg, s.world, s.conns[c])
    requires s.conns[c].phase == Uploading && s.conns[c].fdOpen
    ensures
      var k := Next(cfg, s, a).conns[c];
      k.phase != Uploading && k.fdOpen
      <==> a.Frame? && a.c == c && s.conns[c].pc == Idle && a.request.UploadEnd? && a.request.ok
           && s.conns[c].user !in s.world.tables.users
  {
    match a
    case Connect(_) =>
    case Disconnect(_, _) =>
    case Crash =>
    case Frame(d, r) => if d == c && s.conns[c].pc == Idle { FrameKeepsDescriptor(cfg, s, c, r); }
    case Proceed(d, drawn, now, ok) => if d == c { AccessKeepsDescriptor(cfg, s, c, drawn, now, ok); }
    case Sweep(_, _) =>
  }

  lemma FrameKeepsDescriptor(cfg: Config, s: Server, c: nat, r: Request)
    requires c in s.conns && ConnOk(cfg, s.world, s.conns[c])
    requires s.conns[c].phase == Uploading && s.conns[c].fdOpen && s.conns[c].pc == Idle
    ensures
      var n := Handle(cfg, s, c, r).conns;
      c in n && (n[c].phase != Uploading && n[c].fdOpen
                 <==> r.UploadEnd? && r.ok && s.conns[c].user !in s.world.tables.users)
  {}

  lemma AccessKeepsDescriptor(cfg: Config, s: Server, c: nat, drawn: string, now: U64, ok: bool)
    requires c in s.conns && ConnOk(cfg, s.world, s.conns[c])
    requires s.conns[c].phase == Uploading && s.conns[c].fdOpen
    ensures var n := Continue(cfg, s, c, drawn, now, ok).conns; c in n && (n[c].phase == Uploading || !n[c].fdOpen)
  {}
}
