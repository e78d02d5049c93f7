/** PreflightArchive, src/archive/archive.cpp:829-1025. Reads of the archive succeed. */
module V01Preflight {
  import opened Common
  import opened ByteOrder
  import opened Layout
  import opened ArchivePath
  import opened OrderedPaths
  import opened V01Format

  // ----- headers -----

  method DecodeGlobalHeader(b: Bytes) returns (count: Option<nat>)
    requires |b| == GLOBAL_HEADER
    ensures count == DecodeGlobal(b)
  {
    if b[..8] != MAGIC { return None; }
    var ok, version, cursor := ReadLE(b, 8, 2);
    var flags, headerSize, entries;
    ok, flags, cursor := ReadLE(b, cursor, 2);
    ok, headerSize, cursor := ReadLE(b, cursor, 4);
    ok, entries, cursor := ReadLE(b, cursor, 8);
    if version != VERSION || flags != FLAGS || headerSize != GLOBAL_HEADER { return None; }
    return Some(entries);
  }

  method DecodeEntryHeader(b: Bytes) returns (fields: Option<Fields>)
    requires |b| == ENTRY_HEADER
    ensures fields == DecodeEntry(b)
  {
    var ok, reserved1, cursor := ReadLE(b, 2, 2);
    var pathLength, mode, nsec, sec, size;
    ok, pathLength, cursor := ReadLE(b, cursor, 4);
    ok, mode, cursor := ReadLE(b, cursor, 4);
    ok, nsec, cursor := ReadLE(b, cursor, 4);
    ok, sec, cursor := ReadLE(b, cursor, 8);
    ok, size, cursor := ReadLE(b, cursor, 8);
    if b[0] != 1 && b[0] != 2 { return None; }
    if b[1] != 0 || reserved1 != 0 { return None; }
    if pathLength == 0 || pathLength > MAX_PATH_LENGTH { return None; }
    if mode > PERMISSION_MASK || nsec > MAX_MTIME_NSEC { return None; }
    if b[0] == 1 && size != 0 { return None; }
    return Some(Fields(b[0] == 1, pathLength, mode, nsec, ToSigned(sec), size));
  }

  method ReadEntry(file: Bytes, position: nat) returns (p: Option<Parsed>)
    requires position <= |file|
    ensures p == EntryAt(file, position)
  {
    if position + ENTRY_HEADER > |file| { return None; }
    var fields := DecodeEntryHeader(file[position..position + ENTRY_HEADER]);
    if fields.None? { return None; }
    var f := fields.value;
    var names := position + ENTRY_HEADER;
    if names + f.pathLength > |file| { return None; }
    var data := names + f.pathLength;
    if f.payloadSize > |file| - data { return None; }
    return Some(Parsed(Item(file[names..data], f.directory, f.mode, f.mtimeSec, f.mtimeNsec, file[data..data + f.payloadSize]), data));
  }

  // ----- the walk -----

  /** `ps` are the first entries of the archive, and the others follow at `position`. */
  predicate Remaining(file: Bytes, count: nat, position: nat, ps: seq<Parsed>) {
    && |file| >= GLOBAL_HEADER && position <= |file| && |ps| <= count
    && DecodeGlobal(file[..GLOBAL_HEADER]) == Some(count)
    && EntriesFrom(file, GLOBAL_HEADER, count) == Follows(ps, EntriesFrom(file, position, count - |ps|))
  }

  /** The types seen so far are a strict registry of the entries seen so far. */
  ghost predicate Types(types: map<Bytes, bool>, ps: seq<Parsed>) {
    && PathsOk(ItemsOf(ps))
    && AddAll(true, Listing(ItemsOf(ps))) == Some(Registered(types.Keys, Directories(types)))
  }

  lemma Unsound(file: Bytes, count: nat, position: nat, ps: seq<Parsed>)
    requires Remaining(file, count, position, ps)
    requires !PathsOk(ItemsOf(ps)) || AddAll(true, Listing(ItemsOf(ps))).None?
    ensures Preflighted(file).None?
  {
    var rest := EntriesFrom(file, position, count - |ps|);
    if rest.Some? {
      var all := ItemsOf(ps + rest.value);
      assert all[..|ps|] == ItemsOf(ps) && Listing(all)[..|ps|] == Listing(ItemsOf(ps));
      AddAllPrefix(true, Listing(all), |ps|);
      assert forall i :: 0 <= i < |ps| ==> all[i] == ItemsOf(ps)[i];
    }
  }

  lemma RemainingNext(file: Bytes, count: nat, position: nat, ps: seq<Parsed>, p: Parsed)
    requires Remaining(file, count, position, ps) && |ps| < count && EntryAt(file, position) == Some(p)
    ensures Remaining(file, count, End(p), ps + [p])
  {
    OneStep(EntryAt, End, file, position, count - |ps|, p);
    FollowsOneMore(ps, p, EntriesFrom(file, End(p), count - |ps| - 1));
    assert |ps + [p]| == |ps| + 1;
  }

  lemma NothingRemains(file: Bytes, count: nat, position: nat, ps: seq<Parsed>)
    requires Remaining(file, count, position, ps) && |ps| < count && EntryAt(file, position).None?
    ensures Preflighted(file).None?
  {}

  predicate Fits(types: map<Bytes, bool>, first: bool, e: Item) {
    && ValidArchivePath(e.path, first, e.directory, MAX_PATH_LENGTH) && e.path !in types
    && (e.path != ROOT ==> ParentOf(e.path) in types && types[ParentOf(e.path)])
  }

  lemma PathNext(ps: seq<Parsed>, p: Parsed)
    requires PathsOk(ItemsOf(ps))
    ensures PathsOk(ItemsOf(ps + [p])) <==> ValidArchivePath(p.item.path, |ps| == 0, p.item.directory, MAX_PATH_LENGTH)
  {
    var all := ItemsOf(ps + [p]);
    assert all[|ps|] == p.item && forall i :: 0 <= i < |ps| ==> all[i] == ItemsOf(ps)[i];
  }

  lemma AddNext(ps: seq<Parsed>, p: Parsed)
    requires AddAll(true, Listing(ItemsOf(ps))).Some?
    ensures AddAll(true, Listing(ItemsOf(ps + [p])))
            == AddTo(true, AddAll(true, Listing(ItemsOf(ps))).value, Added(p.item.path, p.item.directory))
  {
    assert ItemsOf(ps + [p]) == ItemsOf(ps) + [p.item];
    assert Listing(ItemsOf(ps + [p]))[..|ps|] == Listing(ItemsOf(ps));
  }

  function Directories(types: map<Bytes, bool>): set<Bytes> { set q | q in types && types[q] }

  lemma DirectoriesNext(types: map<Bytes, bool>, path: Bytes, directory: bool)
    requires path !in types
    ensures Directories(types[path := directory]) == if directory then Directories(types) + {path} else Directories(types)
    ensures types[path := directory].Keys == types.Keys + {path}
  {}

  /** What registering one more entry takes. */
  lemma TypesNext(types: map<Bytes, bool>, ps: seq<Parsed>, p: Parsed)
    requires Types(types, ps)
    ensures if Fits(types, |ps| == 0, p.item) then Types(types[p.item.path := p.item.directory], ps + [p])
            else !PathsOk(ItemsOf(ps + [p])) || AddAll(true, Listing(ItemsOf(ps + [p]))).None?
  {
    PathNext(ps, p);
    AddNext(ps, p);
    if p.item.path !in types { DirectoriesNext(types, p.item.path, p.item.directory); }
  }

  /** Parents come first, so nothing can already lie below a new path: the backward probe of the
      preflight never fires. */
  lemma NothingBelowNew(types: map<Bytes, bool>, ps: seq<Parsed>, path: Bytes)
    requires Types(types, ps) && path !in types && path != ROOT
    ensures forall q :: q in types.Keys ==> !Below(path, q)
  {
    var list := Listing(ItemsOf(ps));
    StrictKeepsWholeChains(list);
    AddAllDescribes(true, list);
    forall q | q in types.Keys ensures !Below(path, q) {
      if q != ROOT {
        var i :| 0 <= i < |list| && list[i].path == q;
        assert ItemsOf(ps)[i].path == q;
        AncestorsAreTheWay(q, path);
      }
    }
  }

  method PreflightArchive(file: Bytes) returns (r: Option<seq<Parsed>>)
    ensures r == Preflighted(file)
  {
    if |file| < GLOBAL_HEADER { return None; }
    var count := DecodeGlobalHeader(file[..GLOBAL_HEADER]);
    if count.None? { return None; }
    var ps: seq<Parsed> := [];
    var types: map<Bytes, bool> := map[];
    var position: nat := GLOBAL_HEADER;
    Begins(file, count.value);
    for index := 0 to count.value
      invariant |ps| == index && Remaining(file, count.value, position, ps) && Types(types, ps)
    {
      var read := ReadEntry(file, position);
      if read.None? {
        NothingRemains(file, count.value, position, ps);
        return None;
      }
      var p := read.value;
      RemainingNext(file, count.value, position, ps, p);
      TypesNext(types, ps, p);
      var fits := EntryFits(types, ps, p, index == 0);
      if !fits {
        Unsound(file, count.value, End(p), ps + [p]);
        return None;
      }
      types := types[p.item.path := p.item.directory];
      ps, position := ps + [p], End(p);
    }
    Ends(file, count.value, position, ps, types);
    if position != |file| { return None; }
    if ps == [] || ps[0].item.path != ROOT || !ps[0].item.directory { return None; }
    return Some(ps);
  }

  /** The checks on one decoded entry. */
  method EntryFits(types: map<Bytes, bool>, ghost ps: seq<Parsed>, p: Parsed, first: bool) returns (ok: bool)
    requires Types(types, ps)
    ensures ok <==> Fits(types, first, p.item)
  {
    var path := p.item.path;
    ok := IsValidArchivePath(path, first, p.item.directory, MAX_PATH_LENGTH);
    if !ok { return; }
    if path in types { return false; }
    if path != ROOT {
      var parent := ParentOf(path);
      if parent !in types { return false; }
      if !types[parent] { return false; }
      NothingBelowNew(types, ps, path);
    }
    if !p.item.directory {
      var below := AnythingBelow(types.Keys, path);
      if below { return false; }
    }
    return true;
  }

  lemma Begins(file: Bytes, count: nat)
    requires |file| >= GLOBAL_HEADER && DecodeGlobal(file[..GLOBAL_HEADER]) == Some(count)
    ensures Remaining(file, count, GLOBAL_HEADER, []) && Types(map[], [])
  {
    var rest := EntriesFrom(file, GLOBAL_HEADER, count);
    if rest.Some? { assert [] + rest.value == rest.value; }
    var none: map<Bytes, bool> := map[];
    assert Listing(ItemsOf([])) == [];
    assert none.Keys == {} && Directories(none) == {};
    assert Registered(none.Keys, Directories(none)) == NOTHING;
  }

  lemma Ends(file: Bytes, count: nat, position: nat, ps: seq<Parsed>, types: map<Bytes, bool>)
    requires Remaining(file, count, position, ps) && |ps| == count && Types(types, ps)
    ensures Preflighted(file) == if position == |file| && RootFirst(ItemsOf(ps)) then Some(ps) else None
  {
    assert ps + [] == ps;
  }
}
