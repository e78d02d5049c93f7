/** server/remote_metadata_store.cpp: the store object behind its mutex. */
module MetadataStore {
  import opened Common
  import opened MetadataTables
  import Calls = MetadataTables

  /** The store behind its mutex: each method is one critical section. A statement may fail
      wherever `*` is read; COMMIT failing is followed by ROLLBACK. */
  class RemoteMetadataStore {
    var users: map<int, User>
    var snapshots: map<string, Row>
    var tombstones: set<int>

    ghost function Contents(): Tables reads this { Tables(users, snapshots, tombstones) }

    constructor ()
      ensures Contents() == EMPTY
    {
      users, snapshots, tombstones := map[], map[], {};
    }

    method CreateUser(user: User) returns (result: StoreResult, id: int)
      modifies this
      ensures (result == Error && Contents() == old(Contents()))
              || (Contents(), result) == Calls.CreateUser(old(Contents()), user)
      ensures result == Done ==> id == NextUserId(old(Contents()))
    {
      id := 0;
      if |user.password.salt| != PASSWORD_SALT_BYTES || |user.password.hash| != PASSWORD_HASH_BYTES {
        return Error, id;
      }
      var allocateFails := *;
      if allocateFails { return Error, id; }
      var usersMax := MaxKey(users.Keys);
      var deletedMax := MaxKey(tombstones);
      id := Max(usersMax, deletedMax) + 1;
      var insertFails := *;
      if insertFails { return Error, id; }
      if exists u :: u in users && users[u].name == user.name { return AlreadyExists, id; }
      users := users[id := user];
      return Done, id;
    }

    method MaxKey(keys: set<int>) returns (m: int)
      ensures m == MaxId(keys)
    {
      m := 0;
      var rest := keys;
      var found := false;
      while exists x :: x in rest
        invariant rest <= keys
        invariant if found then m in keys else m == 0 && rest == keys
        invariant forall x :: x in keys && x !in rest ==> x <= m
        decreases rest
      {
        var x :| x in rest;
        if !found || m < x { m, found := x, true; }
        rest := rest - {x};
      }
      MaxIdUnique(keys, m);
    }

    method InsertSnapshot(r: Row) returns (result: StoreResult)
      modifies this
      ensures (result == Error && Contents() == old(Contents()))
              || (Contents(), result) == Calls.InsertSnapshot(old(Contents()), r)
    {
      var saved := snapshots;
      if r.kind == INCREMENTAL {
        if r.parent == "" || r.generation == 0 { return ChainConflict; }
        if r.generation > MAX_CHAIN_GENERATION { return ChainConflict; }
        var readFails := *;
        if readFails { return Error; }
        if r.parent !in snapshots || snapshots[r.parent].user != r.user { return NotFound; }
        var parent := snapshots[r.parent];
        if parent.kind != FULL && parent.kind != INCREMENTAL { return ChainConflict; }
        if parent.lineage != r.lineage { return ChainConflict; }
        if parent.generation + 1 != r.generation { return ChainConflict; }
        if exists k :: k in snapshots && IsChild(Tables(users, snapshots, tombstones), r.user, r.parent, k) {
          return ChainConflict;
        }
      } else if r.parent != "" || r.generation != 0 {
        return ChainConflict;
      }
      var insertFails := *;
      if insertFails { return Error; }
      if r.id in snapshots || r.user !in users { return AlreadyExists; }
      snapshots := snapshots[r.id := r];
      if r.kind == INCREMENTAL {
        var commitFails := *;
        if commitFails {
          snapshots := saved;
          return Error;
        }
      }
      return Done;
    }

    method DeleteSnapshot(user: int, id: string) returns (result: StoreResult, removed: Option<Row>)
      modifies this
      ensures (result == Error && Contents() == old(Contents()))
              || (Contents(), result) == Calls.DeleteSnapshot(old(Contents()), user, id)
      ensures removed == if result == Done then FindSnapshot(old(Contents()), user, id) else None
    {
      removed := None;
      var readFails := *;
      if readFails { return Error, None; }
      if id !in snapshots || snapshots[id].user != user { return NotFound, None; }
      var existing := snapshots[id];
      if exists k :: k in snapshots && IsChild(Tables(users, snapshots, tombstones), user, id, k) {
        return HasDependents, None;
      }
      var deleteFails := *;
      if deleteFails { return Error, None; }
      snapshots := snapshots - {id};
      return Done, Some(existing);
    }

    method DeleteUser(user: int) returns (result: StoreResult)
      modifies this
      ensures (result == Error && Contents() == old(Contents()))
              || (Contents(), result) == Calls.DeleteUser(old(Contents()), user)
    {
      var savedUsers, savedSnapshots, savedTombstones := users, snapshots, tombstones;
      var beginFails := *;
      if beginFails { return Error; }
      snapshots := map k | k in snapshots && snapshots[k].user != user :: snapshots[k];
      if user !in users {
        snapshots := savedSnapshots;
        return NotFound;
      }
      users := users - {user};
      tombstones := tombstones + {user};
      var commitFails := *;
      if commitFails {
        users, snapshots, tombstones := savedUsers, savedSnapshots, savedTombstones;
        return Error;
      }
      return Done;
    }
  }

  lemma MaxIdUnique(s: set<int>, m: int)
    requires forall x :: x in s ==> x <= m
    requires if exists x :: x in s then m in s else m == 0
    ensures m == MaxId(s)
  {
  }
}
