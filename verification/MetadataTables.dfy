/**
 The three tables of the server's metadata database (server/remote_metadata_store.cpp).
 A `Tables` value is a committed database and every store call a function on it; module
 MetadataStore runs the same calls statement by statement, with failures.
*/
module MetadataTables {
  import opened Common

  const MAX_CHAIN_GENERATION: nat := 64
  const FULL: nat := 0
  const INCREMENTAL: nat := 1
  const PASSWORD_SALT_BYTES: nat := 16
  const PASSWORD_HASH_BYTES: nat := 32

  datatype StoreResult = Done | NotFound | AlreadyExists | Error | HasDependents | ChainConflict

  datatype PasswordRecord = PasswordRecord(salt: Bytes, hash: Bytes, iterations: nat)

  datatype User = User(name: string, password: PasswordRecord, createdAt: int)

  datatype Row = Row(
    id: string, user: int, displayName: string, size: nat, sha256: string, createdAt: int,
    storage: string, kind: nat, parent: string, generation: nat, lineage: string)

  /** users and snapshots by primary key; tombstones keep the ids of deleted accounts. */
  datatype Tables = Tables(users: map<int, User>, snapshots: map<string, Row>, tombstones: set<int>)

  const EMPTY := Tables(map[], map[], {})

  // ----- the calls -----

  /** The largest element of a finite set of ids, 0 for the empty set. */
  ghost function MaxId(s: set<int>): (m: int)
    ensures forall x :: x in s ==> x <= m
    ensures if exists x :: x in s then m in s else m == 0
  {
    if exists x :: x in s then
      var x :| x in s;
      var m := MaxId(s - {x});
      assert forall y :: y in s ==> y == x || y in s - {x};
      if m < x || m !in s then x else m
    else 0
  }

  function Max(a: int, b: int): int { if a < b then b else a }

  predicate NameTaken(t: Tables, name: string) {
    exists u :: u in t.users && t.users[u].name == name
  }

  /** The id the next account gets. */
  ghost function NextUserId(t: Tables): int {
    Max(MaxId(t.users.Keys), MaxId(t.tombstones)) + 1
  }

  ghost function CreateUser(t: Tables, user: User): (r: (Tables, StoreResult)) {
    if |user.password.salt| != PASSWORD_SALT_BYTES || |user.password.hash| != PASSWORD_HASH_BYTES then (t, Error)
    else if NameTaken(t, user.name) then (t, AlreadyExists)
    else (t.(users := t.users[NextUserId(t) := user]), Done)
  }

  function FindSnapshot(t: Tables, user: int, id: string): Option<Row> {
    if id in t.snapshots && t.snapshots[id].user == user then Some(t.snapshots[id]) else None
  }

  predicate IsChild(t: Tables, user: int, id: string, k: string) {
    k in t.snapshots && t.snapshots[k].user == user && t.snapshots[k].parent == id
  }

  /** What the child count of the store compares with zero. */
  predicate HasChildren(t: Tables, user: int, id: string) {
    exists k :: k in t.snapshots && IsChild(t, user, id, k)
  }

  /** The chain rules InsertSnapshot re-checks inside the inserting transaction. */
  function ChainCheck(t: Tables, r: Row): StoreResult {
    if r.kind != INCREMENTAL then
      if r.parent != "" || r.generation != 0 then ChainConflict else Done
    else if r.parent == "" || r.generation == 0 || r.generation > MAX_CHAIN_GENERATION then ChainConflict
    else
      match FindSnapshot(t, r.user, r.parent)
      case None => NotFound
      case Some(p) =>
        if p.kind != FULL && p.kind != INCREMENTAL then ChainConflict
        else if p.lineage != r.lineage || p.generation + 1 != r.generation then ChainConflict
        else if HasChildren(t, r.user, r.parent) then ChainConflict
        else Done
  }

  function InsertSnapshot(t: Tables, r: Row): (Tables, StoreResult) {
    var check := ChainCheck(t, r);
    if check != Done then (t, check)
    else if r.id in t.snapshots || r.user !in t.users then (t, AlreadyExists)
    else (t.(snapshots := t.snapshots[r.id := r]), Done)
  }

  function DeleteSnapshot(t: Tables, user: int, id: string): (Tables, StoreResult) {
    if FindSnapshot(t, user, id).None? then (t, NotFound)
    else if HasChildren(t, user, id) then (t, HasDependents)
    else (t.(snapshots := t.snapshots - {id}), Done)
  }

  function WithoutUser(t: Tables, user: int): map<string, Row> {
    map k | k in t.snapshots && t.snapshots[k].user != user :: t.snapshots[k]
  }

  function DeleteUser(t: Tables, user: int): (Tables, StoreResult) {
    if user !in t.users then (t, NotFound)
    else (Tables(t.users - {user}, WithoutUser(t, user), t.tombstones + {user}), Done)
  }

  // ----- what the tables always satisfy -----

  /** A row hangs below its parent: same user, same lineage, one generation deeper, parent known. */
  predicate HangsBelow(t: Tables, r: Row) {
    && r.parent in t.snapshots
    && var p := t.snapshots[r.parent];
    && p.user == r.user && p.lineage == r.lineage && r.generation == p.generation + 1
    && (p.kind == FULL || p.kind == INCREMENTAL)
  }

  predicate RowFits(t: Tables, r: Row) {
    && r.user in t.users
    && (r.kind == INCREMENTAL ==> r.parent != "" && r.generation <= MAX_CHAIN_GENERATION && HangsBelow(t, r))
    && (r.kind != INCREMENTAL ==> r.parent == "" && r.generation == 0)
  }

  /** The snapshot forest: ids are never empty, every row fits and no two rows share a parent. */
  ghost predicate Forest(t: Tables) {
    && (forall k :: k in t.snapshots ==> k != "" && t.snapshots[k].id == k && RowFits(t, t.snapshots[k]))
    && (forall k, l :: k in t.snapshots && l in t.snapshots && k != l
          && t.snapshots[k].kind == INCREMENTAL && t.snapshots[l].kind == INCREMENTAL
          ==> t.snapshots[k].parent != t.snapshots[l].parent)
  }

  /** Ids in use and ids given up never overlap, no id is below 1, and names are unique. */
  ghost predicate IdsApart(t: Tables) {
    && t.users.Keys !! t.tombstones
    && (forall u :: u in t.users ==> u >= 1)
    && (forall u :: u in t.tombstones ==> u >= 1)
    && (forall u, v :: u in t.users && v in t.users && t.users[u].name == t.users[v].name ==> u == v)
  }

  /** Given a forest, a fresh non-empty id and an existing user, the insert is accepted exactly
      when the database with the row added is still a forest. */
  lemma InsertAcceptsExactlyForests(t: Tables, r: Row)
    requires Forest(t) && r.id !in t.snapshots && r.id != ""
    ensures InsertSnapshot(t, r).1 == Done <==> Forest(t.(snapshots := t.snapshots[r.id := r]))
  {
    var t' := t.(snapshots := t.snapshots[r.id := r]);
    if InsertSnapshot(t, r).1 == Done {
      forall k | k in t'.snapshots ensures k != "" && t'.snapshots[k].id == k && RowFits(t', t'.snapshots[k]) {
        if k != r.id { assert RowFits(t, t.snapshots[k]); }
      }
      forall k, l | k in t'.snapshots && l in t'.snapshots && k != l
          && t'.snapshots[k].kind == INCREMENTAL && t'.snapshots[l].kind == INCREMENTAL
        ensures t'.snapshots[k].parent != t'.snapshots[l].parent
      {
        ListedAsChild(t, if k == r.id then l else k);
        assert k != r.id ==> RowFits(t, t.snapshots[k]);
        assert l != r.id ==> RowFits(t, t.snapshots[l]);
      }
    }
    if Forest(t') { ForestRowIsAccepted(t, r, t'); }
  }

  lemma ForestRowIsAccepted(t: Tables, r: Row, t': Tables)
    requires Forest(t) && r.id !in t.snapshots && r.id != ""
    requires t' == t.(snapshots := t.snapshots[r.id := r]) && Forest(t')
    ensures InsertSnapshot(t, r).1 == Done
  {
    assert RowFits(t', t'.snapshots[r.id]);
    if r.kind == INCREMENTAL {
      ParentIsOld(t, r, t');
      NoSibling(t, r, t');
    }
  }

  lemma ParentIsOld(t: Tables, r: Row, t': Tables)
    requires t' == t.(snapshots := t.snapshots[r.id := r]) && HangsBelow(t', r)
    ensures r.parent in t.snapshots && HangsBelow(t, r)
  {
  }

  lemma NoSibling(t: Tables, r: Row, t': Tables)
    requires Forest(t) && r.id !in t.snapshots && r.kind == INCREMENTAL && r.parent != ""
    requires t' == t.(snapshots := t.snapshots[r.id := r]) && Forest(t')
    ensures !HasChildren(t, r.user, r.parent)
  {
    forall k | k in t.snapshots ensures !IsChild(t, r.user, r.parent, k) {
      RowKind(t, k);
      ParentsDiffer(t', k, r.id);
    }
  }

  lemma RowKind(t: Tables, k: string)
    requires Forest(t) && k in t.snapshots
    ensures t.snapshots[k].kind == INCREMENTAL <==> t.snapshots[k].parent != ""
  {
    assert RowFits(t, t.snapshots[k]);
  }

  lemma ParentsDiffer(t: Tables, k: string, l: string)
    requires Forest(t) && k in t.snapshots && l in t.snapshots && k != l
    ensures t.snapshots[k].kind == INCREMENTAL && t.snapshots[l].kind == INCREMENTAL
            ==> t.snapshots[k].parent != t.snapshots[l].parent
  {
  }

  lemma ListedAsChild(t: Tables, k: string)
    requires k in t.snapshots
    ensures IsChild(t, t.snapshots[k].user, t.snapshots[k].parent, k)
  {
  }

  /** A delete is accepted exactly when the row is this user's and the rest is still a forest. */
  lemma DeleteAcceptsExactlyForests(t: Tables, user: int, id: string)
    requires Forest(t)
    ensures DeleteSnapshot(t, user, id).1 == Done
            <==> FindSnapshot(t, user, id).Some? && Forest(t.(snapshots := t.snapshots - {id}))
  {
    var t' := t.(snapshots := t.snapshots - {id});
    if DeleteSnapshot(t, user, id).1 == Done {
      forall k | k in t'.snapshots ensures k != "" && t'.snapshots[k].id == k && RowFits(t', t'.snapshots[k]) {
        assert RowFits(t, t.snapshots[k]);
        ListedAsChild(t, k);
      }
    } else if k :| FindSnapshot(t, user, id).Some? && IsChild(t, user, id, k) {
      RowKind(t, k);
      NotItsOwnParent(t, k);
      RowFitsIn(t', k);
    }
  }

  lemma NotItsOwnParent(t: Tables, k: string)
    requires Forest(t) && k in t.snapshots
    ensures t.snapshots[k].kind == INCREMENTAL ==> t.snapshots[k].parent != k
  {
    assert RowFits(t, t.snapshots[k]);
  }

  lemma RowFitsIn(t: Tables, k: string)
    ensures Forest(t) && k in t.snapshots ==> RowFits(t, t.snapshots[k])
  {
  }

  lemma DeleteUserKeepsForest(t: Tables, user: int)
    requires Forest(t) && IdsApart(t)
    ensures Forest(DeleteUser(t, user).0) && IdsApart(DeleteUser(t, user).0)
  {
    var t' := DeleteUser(t, user).0;
    forall k | k in t'.snapshots ensures k != "" && t'.snapshots[k].id == k && RowFits(t', t'.snapshots[k]) {
      assert RowFits(t, t.snapshots[k]);
    }
  }

  /** The allocated id was never in use and never given up. */
  lemma CreateUserAllocatesFreshId(t: Tables, user: User)
    requires Forest(t) && IdsApart(t)
    ensures NextUserId(t) >= 1 && NextUserId(t) !in t.users && NextUserId(t) !in t.tombstones
    ensures forall u :: u in t.users || u in t.tombstones ==> u < NextUserId(t)
    ensures Forest(CreateUser(t, user).0) && IdsApart(CreateUser(t, user).0)
  {
    var t' := CreateUser(t, user).0;
    forall k | k in t'.snapshots ensures k != "" && t'.snapshots[k].id == k && RowFits(t', t'.snapshots[k]) {
      assert RowFits(t, t.snapshots[k]);
    }
  }

  // ----- restoring a chain -----

  /** The row reached from `id` by following `steps` parent links. */
  function Ancestor(t: Tables, id: string, steps: nat): Option<Row>
    decreases steps
  {
    if id !in t.snapshots then None
    else if steps == 0 then Some(t.snapshots[id])
    else Ancestor(t, t.snapshots[id].parent, steps - 1)
  }

  /** Following parents from any row stays inside the user's lineage, one generation per link,
      and meets a full snapshot after exactly `generation` links and not before. */
  lemma {:induction false} ChainReachesFullRoot(t: Tables, id: string, steps: nat)
    requires Forest(t) && id in t.snapshots && steps <= t.snapshots[id].generation
    ensures t.snapshots[id].generation <= MAX_CHAIN_GENERATION
    ensures
      var row := t.snapshots[id];
      var a := Ancestor(t, id, steps);
      && a.Some? && a.value.user == row.user
      && (row.kind == INCREMENTAL ==> a.value.lineage == row.lineage)
      && a.value.generation == row.generation - steps
      && (a.value.kind == INCREMENTAL <==> steps < row.generation)
      && (row.kind == INCREMENTAL && steps == row.generation ==> a.value.kind == FULL)
    decreases steps
  {
    var row := t.snapshots[id];
    assert RowFits(t, row);
    if steps > 0 {
      ChainReachesFullRoot(t, row.parent, steps - 1);
    }
  }
}
