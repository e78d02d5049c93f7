/**
 ArchiveReader::Extract, src/archive/archive.cpp:1046-1110 and 1298-1357. The disk below the
 destination is a map from archive paths to objects; permissions are those of an ordinary owner.
 Names and paths have limits; running out of space and changes from outside are not modelled.
*/
module V01Extract {
  import opened Common
  import opened Entries
  import opened Layout
  import opened ArchivePath
  import opened V01Format
  import opened V01Preflight

  datatype Stamp = Stamp(sec: int, nsec: nat)

  datatype Object =
    | DirObject(mode: nat, mtime: Stamp)
    | FileObject(mode: nat, mtime: Stamp, content: Bytes)

  const STAGING_MODE: nat := 448
  const NEW_FILE_MODE: nat := 384

  predicate OwnerMaySearch(mode: nat) { mode / 64 % 2 == 1 }

  predicate OwnerMayWrite(mode: nat) { mode / 128 % 2 == 1 }

  function WithMetadata(o: Object, mode: nat, mtime: Stamp): Object {
    match o
    case DirObject(_, _) => DirObject(mode, mtime)
    case FileObject(_, _, content) => FileObject(mode, mtime, content)
  }

  type Tree = map<Bytes, Object>

  /** Every directory on the way can be searched. */
  predicate Reachable(t: Tree, path: Bytes) {
    forall a :: a in Ancestors(path) ==> a in t && t[a].DirObject? && OwnerMaySearch(t[a].mode)
  }

  /** A create succeeds: nothing has the name, and the parent is there and writable. */
  predicate CanCreate(t: Tree, path: Bytes) {
    && path !in t && path != ROOT && Reachable(t, path)
    && ParentOf(path) in t && t[ParentOf(path)].DirObject? && OwnerMayWrite(t[ParentOf(path)].mode)
  }

  /** What a file system can name: components up to one length, and paths up to what the destination's
      own path leaves of the other. */
  datatype NameLimits = NameLimits(component: nat, path: nat)

  predicate Nameable(limits: NameLimits, path: Bytes) {
    |path| <= limits.path && forall i :: 0 <= i < |Components(path)| ==> |Components(path)[i]| <= limits.component
  }

  function Touched(t: Tree, path: Bytes, now: Stamp): Tree {
    if path in t then t[path := WithMetadata(t[path], t[path].mode, now)] else t
  }

  /** The directory below the destination and the system calls on it. */
  class Disk {
    const limits: NameLimits
    var tree: Tree
    var clock: Stamp

    constructor (limits: NameLimits)
      ensures tree == map[] && this.limits == limits
    {
      this.limits := limits;
      tree, clock := map[], Stamp(0, 0);
    }

    /** Time passes as it likes. */
    method Tick()
      modifies this`clock
    {
      var sec: int, nsec: int :| nsec >= 0;
      clock := Stamp(sec, nsec);
    }

    method Mkdir(path: Bytes, mode: nat) returns (ok: bool)
      modifies this
      ensures ok <==> Nameable(limits, path) && CanCreate(old(tree), path)
      ensures tree == if ok then Touched(old(tree), ParentOf(path), old(clock))[path := DirObject(mode, old(clock))] else old(tree)
    {
      if !Nameable(limits, path) || !CanCreate(tree, path) { return false; }
      tree := Touched(tree, ParentOf(path), clock)[path := DirObject(mode, clock)];
      Tick();
      return true;
    }

    method CreateFile(path: Bytes) returns (ok: bool)
      modifies this
      ensures ok <==> Nameable(limits, path) && CanCreate(old(tree), path)
      ensures tree == if ok then Touched(old(tree), ParentOf(path), old(clock))[path := FileObject(NEW_FILE_MODE, old(clock), [])]
                      else old(tree)
    {
      if !Nameable(limits, path) || !CanCreate(tree, path) { return false; }
      tree := Touched(tree, ParentOf(path), clock)[path := FileObject(NEW_FILE_MODE, clock, [])];
      Tick();
      return true;
    }

    /** write(2) through the descriptor of an open file. */
    method AppendToFile(path: Bytes, bytes: Bytes)
      requires path in tree && tree[path].FileObject?
      modifies this
      ensures path in old(tree) && old(tree)[path].FileObject?
      ensures tree == old(tree)[path := FileObject(old(tree)[path].mode, old(clock), old(tree)[path].content + bytes)]
    {
      tree := tree[path := FileObject(tree[path].mode, clock, tree[path].content + bytes)];
      Tick();
    }

    /** chmod and utimensat. */
    method SetMetadata(path: Bytes, mode: nat, mtime: Stamp) returns (ok: bool)
      modifies this
      ensures ok <==> path in old(tree) && Reachable(old(tree), path)
      ensures ok ==> path in old(tree) && tree == old(tree)[path := WithMetadata(old(tree)[path], mode, mtime)]
      ensures !ok ==> tree == old(tree)
    {
      if path !in tree || !Reachable(tree, path) { return false; }
      tree := tree[path := WithMetadata(tree[path], mode, mtime)];
      return true;
    }
  }

  // ----- what a restore must produce -----

  function ObjectOf(e: Item): Object {
    if e.directory then DirObject(e.mode, Stamp(e.mtimeSec, e.mtimeNsec))
    else FileObject(e.mode, Stamp(e.mtimeSec, e.mtimeNsec), e.content)
  }

  /** Exactly the items, each with its content, mode and modification time. */
  predicate Restored(items: seq<Item>, t: Tree) {
    && (forall p :: p in t ==> exists i :: 0 <= i < |items| && items[i].path == p)
    && (forall i :: 0 <= i < |items| ==> items[i].path in t && t[items[i].path] == ObjectOf(items[i]))
  }

  // ----- what the preflight guarantees -----

  predicate DistinctPaths(items: seq<Item>) {
    forall i, j :: 0 <= i < j < |items| ==> items[i].path != items[j].path
  }

  predicate IsDirectory(items: seq<Item>, i: nat, path: Bytes) {
    i < |items| && items[i].directory && items[i].path == path
  }

  predicate DirectoryBefore(items: seq<Item>, i: nat, a: Bytes) { exists j :: 0 <= j < i && IsDirectory(items, j, a) }

  predicate WayListed(items: seq<Item>, i: nat) {
    i < |items| ==> forall a :: a in Ancestors(items[i].path) ==> DirectoryBefore(items, i, a)
  }

  /** The whole way to every item consists of directories listed before it. */
  ghost predicate WaysListed(items: seq<Item>) { forall i: nat :: WayListed(items, i) }

  lemma StructuredIsDistinct(items: seq<Item>)
    requires Structured(items)
    ensures DistinctPaths(items)
  {
    var list := Listing(items);
    AddAllDescribes(true, list);
    assert forall i :: 0 <= i < |items| ==> list[i].path == items[i].path;
  }

  lemma StructuredHasWays(items: seq<Item>)
    requires Structured(items)
    ensures WaysListed(items)
  {
    forall i: nat ensures WayListed(items, i) {
      if i < |items| {
        forall a | a in Ancestors(items[i].path) ensures DirectoryBefore(items, i, a) { AncestorListed(items, i, a); }
      }
    }
  }

  lemma AncestorListed(items: seq<Item>, i: nat, a: Bytes)
    requires Structured(items) && i < |items| && a in Ancestors(items[i].path)
    ensures DirectoryBefore(items, i, a)
  {
    var list := Listing(items);
    AddAllPrefix(true, list, i + 1);
    AncestorAddedBefore(list[..i + 1], a);
    var j :| 0 <= j < i && list[..i + 1][j] == Added(a, true);
    assert list[j] == Added(items[j].path, items[j].directory);
    assert IsDirectory(items, j, a);
  }

  /** In a strict registry the ancestors of the last path were added before it, as directories. */
  lemma AncestorAddedBefore(list: seq<Added>, a: Bytes)
    requires list != [] && AddAll(true, list).Some? && a in Ancestors(list[|list| - 1].path)
    ensures exists j :: 0 <= j < |list| - 1 && list[j] == Added(a, true)
  {
    var before, last := list[..|list| - 1], list[|list| - 1];
    StrictKeepsWholeChains(list);
    NotItsOwnAncestor(last.path);
    assert a in AddAll(true, before).value.directories;
    AddAllDescribes(true, before);
    var j :| 0 <= j < |before| && before[j] == Added(a, true);
    assert list[j] == before[j];
  }

  lemma {:induction false} AncestorsAreLower(p: Bytes, a: Bytes)
    requires a in Ancestors(p)
    ensures Height(a) < Height(p)
    decreases Height(p)
  {
    if a != ParentOf(p) { AncestorsAreLower(ParentOf(p), a); }
  }

  lemma NotItsOwnAncestor(p: Bytes)
    ensures p !in Ancestors(p)
  {
    if p in Ancestors(p) { AncestorsAreLower(p, p); }
  }

  lemma {:induction false} AncestorsAreShallower(p: Bytes, a: Bytes)
    requires a in Ancestors(p) && (p == ROOT || AllPlain(Components(p)))
    ensures Depth(a) < Depth(p)
    decreases Height(p)
  {
    ParentIsShallower(p);
    if a != ParentOf(p) { AncestorsAreShallower(ParentOf(p), a); }
  }

  // ----- phase one: objects in archive order -----

  predicate Named(items: seq<Item>, i: nat, p: Bytes) { exists j :: 0 <= j < i && j < |items| && items[j].path == p }

  /** The item is on disk: a file finished, a directory still in staging mode. */
  predicate Placed(items: seq<Item>, j: nat, t: Tree) {
    j < |items| && items[j].path in t
    && if items[j].directory then t[items[j].path].DirObject? && t[items[j].path].mode == STAGING_MODE
       else t[items[j].path] == ObjectOf(items[j])
  }

  /** The first i items are on disk, and nothing else. */
  ghost predicate Staged(items: seq<Item>, i: nat, t: Tree) {
    i <= |items| && (forall p :: p in t ==> Named(items, i, p)) && (forall j: nat :: j < i ==> Placed(items, j, t))
  }

  /** A directory still in staging mode. */
  predicate Open(t: Tree, a: Bytes) { a in t && t[a].DirObject? && t[a].mode == STAGING_MODE }

  predicate WayOpen(t: Tree, path: Bytes) { forall a :: a in Ancestors(path) ==> Open(t, a) }

  lemma OpenWayIsReachable(t: Tree, path: Bytes)
    requires WayOpen(t, path)
    ensures Reachable(t, path)
    ensures path !in t && path != ROOT ==> CanCreate(t, path)
  {
    if path != ROOT { assert ParentOf(path) in Ancestors(path) && Open(t, ParentOf(path)); }
  }

  lemma StagedWayIsOpen(items: seq<Item>, i: nat, t: Tree)
    requires WayListed(items, i) && i < |items| && Staged(items, i, t)
    ensures WayOpen(t, items[i].path)
  {
    forall a | a in Ancestors(items[i].path) ensures Open(t, a) {
      assert DirectoryBefore(items, i, a);
      var j :| 0 <= j < i && IsDirectory(items, j, a);
      assert Placed(items, j, t);
    }
  }

  lemma NameIsFree(items: seq<Item>, i: nat, t: Tree)
    requires DistinctPaths(items) && i < |items| && Staged(items, i, t)
    ensures items[i].path !in t
  {
    assert items[i].path in t ==> Named(items, i, items[i].path);
  }

  /** No create meets a missing parent or an existing name. */
  lemma NextCanBeCreated(items: seq<Item>, i: nat, t: Tree)
    requires DistinctPaths(items) && WaysListed(items) && RootFirst(items) && 0 < i < |items| && Staged(items, i, t)
    ensures CanCreate(t, items[i].path)
  {
    assert WayListed(items, i) && items[0].path == ROOT;
    StagedWayIsOpen(items, i, t);
    NameIsFree(items, i, t);
    OpenWayIsReachable(t, items[i].path);
  }

  lemma StagedNext(items: seq<Item>, i: nat, t: Tree, n: Tree, now: Stamp, o: Object)
    requires DistinctPaths(items) && i < |items| && Staged(items, i, t) && CanCreate(t, items[i].path)
    requires n == Touched(t, ParentOf(items[i].path), now)[items[i].path := o]
    requires if items[i].directory then o.DirObject? && o.mode == STAGING_MODE else o == ObjectOf(items[i])
    ensures Staged(items, i + 1, n)
  {
    forall j: nat | j < i + 1 ensures Placed(items, j, n) {
      if j < i { OthersStayPlaced(items, i, j, t, n, now, o); }
    }
    forall p | p in n ensures Named(items, i + 1, p) {
      if p == items[i].path { assert items[i].path == p; } else { assert p in t && Named(items, i, p); }
    }
  }

  lemma OthersStayPlaced(items: seq<Item>, i: nat, j: nat, t: Tree, n: Tree, now: Stamp, o: Object)
    requires DistinctPaths(items) && j < i < |items| && Placed(items, j, t) && CanCreate(t, items[i].path)
    requires n == Touched(t, ParentOf(items[i].path), now)[items[i].path := o]
    ensures Placed(items, j, n)
  {
    assert items[j].path != items[i].path;
  }

  lemma NextPiece(file: Bytes, from: nat, content: Bytes, copied: nat, got: nat)
    requires copied + got <= |content| && from + |content| <= |file| && content == file[from..from + |content|]
    ensures content[..copied + got] == content[..copied] + file[from + copied..from + copied + got]
  {
    var piece := file[from + copied..from + copied + got];
    forall k | 0 <= k < got ensures piece[k] == content[copied + k] { assert content[copied + k] == file[from + (copied + k)]; }
    assert content[..copied + got] == content[..copied] + piece;
  }

  /** Creating the file and writing the payload in pieces. */
  method ExtractRegularFile(disk: Disk, file: Bytes, p: Parsed) returns (ok: bool)
    requires ContentInFile(file, p)
    modifies disk
    ensures ok <==> Nameable(disk.limits, p.item.path) && CanCreate(old(disk.tree), p.item.path)
    ensures ok ==> exists now, written: Stamp :: disk.tree == Touched(old(disk.tree), ParentOf(p.item.path), now)
                     [p.item.path := FileObject(NEW_FILE_MODE, written, p.item.content)]
    ensures !ok ==> disk.tree == old(disk.tree)
  {
    var path, size := p.item.path, |p.item.content|;
    ghost var now := disk.clock;
    ok := disk.CreateFile(path);
    if !ok { return; }
    ghost var base := disk.tree;
    ghost var written := now;
    var copied: nat := 0;
    while copied < size
      invariant copied <= size && path in base
      invariant disk.tree == base[path := FileObject(NEW_FILE_MODE, written, p.item.content[..copied])]
    {
      var got := Read(file[..End(p)], p.payloadOffset + copied, if size - copied < 65536 then size - copied else 65536);
      var bytes := file[p.payloadOffset + copied..p.payloadOffset + copied + got];
      NextPiece(file, p.payloadOffset, p.item.content, copied, got);
      written := disk.clock;
      disk.AppendToFile(path, bytes);
      copied := copied + got;
    }
    assert p.item.content[..copied] == p.item.content;
    assert disk.tree == Touched(old(disk.tree), ParentOf(path), now)[path := FileObject(NEW_FILE_MODE, written, p.item.content)];
  }

  // ----- phase two: directory metadata, deep before shallow -----

  function InsertByDepth(items: seq<Item>, x: nat, sorted: seq<nat>): (r: seq<nat>)
    requires x < |items| && forall k :: 0 <= k < |sorted| ==> sorted[k] < |items|
    ensures |r| == |sorted| + 1 && forall k :: 0 <= k < |r| ==> r[k] < |items|
  {
    if sorted == [] || Depth(items[x].path) >= Depth(items[sorted[0]].path) then [x] + sorted
    else [sorted[0]] + InsertByDepth(items, x, sorted[1..])
  }

  /** std::sort by descending depth. */
  function SortByDepth(items: seq<Item>, xs: seq<nat>): (r: seq<nat>)
    requires forall k :: 0 <= k < |xs| ==> xs[k] < |items|
    ensures |r| == |xs| && forall k :: 0 <= k < |r| ==> r[k] < |items|
  {
    if xs == [] then [] else InsertByDepth(items, xs[0], SortByDepth(items, xs[1..]))
  }

  predicate NotShallower(items: seq<Item>, x: nat, y: nat) {
    x < |items| && y < |items| && Depth(items[x].path) >= Depth(items[y].path)
  }

  predicate DeepFirst(items: seq<Item>, order: seq<nat>) {
    && (forall k :: 0 <= k < |order| ==> order[k] < |items|)
    && (forall k, l :: 0 <= k < l < |order| ==> NotShallower(items, order[k], order[l]))
  }

  predicate Has(xs: seq<nat>, y: nat) { exists k :: 0 <= k < |xs| && xs[k] == y }

  lemma HasInFront(x: nat, xs: seq<nat>, y: nat)
    ensures Has([x] + xs, y) <==> x == y || Has(xs, y)
  {
    var all := [x] + xs;
    if k :| 0 <= k < |xs| && xs[k] == y { assert all[k + 1] == y; }
    if k :| 0 <= k < |all| && all[k] == y { if k > 0 { assert xs[k - 1] == y; } }
    assert all[0] == x;
  }

  lemma HasAtEnd(xs: seq<nat>, x: nat, y: nat)
    ensures Has(xs + [x], y) <==> x == y || Has(xs, y)
  {
    var all := xs + [x];
    if k :| 0 <= k < |xs| && xs[k] == y { assert all[k] == y; }
    if k :| 0 <= k < |all| && all[k] == y { if k < |xs| { assert xs[k] == y; } }
    assert all[|xs|] == x;
  }

  lemma {:induction false} InsertHas(items: seq<Item>, x: nat, sorted: seq<nat>, y: nat)
    requires x < |items| && forall k :: 0 <= k < |sorted| ==> sorted[k] < |items|
    ensures Has(InsertByDepth(items, x, sorted), y) <==> y == x || Has(sorted, y)
  {
    if sorted == [] || Depth(items[x].path) >= Depth(items[sorted[0]].path) {
      HasInFront(x, sorted, y);
    } else {
      InsertHas(items, x, sorted[1..], y);
      HasInFront(sorted[0], InsertByDepth(items, x, sorted[1..]), y);
      HasInFront(sorted[0], sorted[1..], y);
      assert sorted == [sorted[0]] + sorted[1..];
    }
  }

  lemma {:induction false} InsertKeepsOrder(items: seq<Item>, x: nat, sorted: seq<nat>)
    requires x < |items| && DeepFirst(items, sorted)
    ensures DeepFirst(items, InsertByDepth(items, x, sorted))
  {
    if sorted != [] && Depth(items[x].path) < Depth(items[sorted[0]].path) {
      var tail := sorted[1..];
      InsertKeepsOrder(items, x, tail);
      var rest := InsertByDepth(items, x, tail);
      forall l | 0 <= l < |rest| ensures NotShallower(items, sorted[0], rest[l]) {
        InsertHas(items, x, tail, rest[l]);
        assert Has(rest, rest[l]);
        if k :| 0 <= k < |tail| && tail[k] == rest[l] { assert sorted[k + 1] == rest[l]; }
      }
    }
  }

  lemma {:induction false} SortIsDeepFirst(items: seq<Item>, xs: seq<nat>)
    requires forall k :: 0 <= k < |xs| ==> xs[k] < |items|
    ensures DeepFirst(items, SortByDepth(items, xs))
  {
    if xs != [] {
      SortIsDeepFirst(items, xs[1..]);
      InsertKeepsOrder(items, xs[0], SortByDepth(items, xs[1..]));
    }
  }

  lemma {:induction false} SortHas(items: seq<Item>, xs: seq<nat>, y: nat)
    requires forall k :: 0 <= k < |xs| ==> xs[k] < |items|
    ensures Has(SortByDepth(items, xs), y) <==> Has(xs, y)
  {
    if xs != [] {
      SortHas(items, xs[1..], y);
      InsertHas(items, xs[0], SortByDepth(items, xs[1..]), y);
      HasInFront(xs[0], xs[1..], y);
      assert xs == [xs[0]] + xs[1..];
    }
  }

  /** The list of directory indexes collected in phase one. */
  ghost predicate ListsDirectories(items: seq<Item>, xs: seq<nat>, from: nat, to: nat) {
    forall j: nat :: Has(xs, j) <==> from <= j < to && j < |items| && items[j].directory
  }

  predicate Settled(items: seq<Item>, j: nat, t: Tree) {
    j < |items| && items[j].path in t && t[items[j].path] == ObjectOf(items[j])
  }

  /** After k directories: those, and the files, are final; the others still in staging mode. */
  ghost predicate Settling(items: seq<Item>, order: seq<nat>, k: nat, t: Tree) {
    && k <= |order|
    && (forall p :: p in t ==> Named(items, |items|, p))
    && (forall j: nat :: j < |items| ==>
          if items[j].directory && !Has(order[..k], j) then Placed(items, j, t) else Settled(items, j, t))
  }

  predicate PlainPath(p: Bytes) { p == ROOT || AllPlain(Components(p)) }

  /** When a directory's metadata is set, every directory on the way to it is still in staging mode. */
  lemma WayStillOpen(items: seq<Item>, order: seq<nat>, k: nat, t: Tree)
    requires k < |order| && DeepFirst(items, order) && Settling(items, order, k, t)
    requires WayListed(items, order[k]) && PlainPath(items[order[k]].path)
    ensures WayOpen(t, items[order[k]].path)
  {
    forall a | a in Ancestors(items[order[k]].path) ensures Open(t, a) {
      assert DirectoryBefore(items, order[k], a);
      AncestorStillOpen(items, order, k, t, a);
    }
  }

  lemma AncestorStillOpen(items: seq<Item>, order: seq<nat>, k: nat, t: Tree, a: Bytes)
    requires k < |order| && DeepFirst(items, order) && Settling(items, order, k, t) && PlainPath(items[order[k]].path)
    requires a in Ancestors(items[order[k]].path) && DirectoryBefore(items, order[k], a)
    ensures Open(t, a)
  {
    var j :| 0 <= j < order[k] && IsDirectory(items, j, a);
    AncestorsAreShallower(items[order[k]].path, a);
    NotYetSettled(items, order, k, j);
    assert Placed(items, j, t);
  }

  lemma NotYetSettled(items: seq<Item>, order: seq<nat>, k: nat, j: nat)
    requires DeepFirst(items, order) && k < |order| && j < |items| && Depth(items[j].path) < Depth(items[order[k]].path)
    ensures !Has(order[..k], j)
  {
    forall l | 0 <= l < k ensures order[..k][l] != j { assert NotShallower(items, order[l], order[k]); }
  }

  lemma SettlingNext(items: seq<Item>, order: seq<nat>, k: nat, t: Tree, n: Tree)
    requires DistinctPaths(items) && DeepFirst(items, order) && Settling(items, order, k, t) && k < |order|
    requires
      var e := items[order[k]];
      e.directory && e.path in t && t[e.path].DirObject? && n == t[e.path := ObjectOf(e)]
    ensures Settling(items, order, k + 1, n)
  {
    var x := order[k];
    assert order[..k + 1] == order[..k] + [x];
    forall j: nat | j < |items|
      ensures if items[j].directory && !Has(order[..k + 1], j) then Placed(items, j, n) else Settled(items, j, n)
    {
      HasAtEnd(order[..k], x, j);
      if j != x { assert items[j].path != items[x].path; }
    }
    forall p | p in n ensures Named(items, |items|, p) { assert p in t; }
  }

  predicate EmptyDestination(t: Tree) {
    forall p :: p in t ==> p == ROOT && t[p].DirObject?
  }

  /** What phase one relies on. */
  ghost predicate Sound(items: seq<Item>) {
    && RootFirst(items) && DistinctPaths(items) && WaysListed(items)
    && forall i :: 0 <= i < |items| ==> PlainPath(items[i].path)
  }

  predicate ContentsInFile(file: Bytes, ps: seq<Parsed>) {
    forall i :: 0 <= i < |ps| ==> ContentInFile(file, ps[i])
  }

  predicate ContentInFile(file: Bytes, p: Parsed) {
    End(p) <= |file| && p.item.content == file[p.payloadOffset..End(p)]
  }

  lemma ListGrows(items: seq<Item>, xs: seq<nat>, index: nat)
    requires 1 <= index < |items| && ListsDirectories(items, xs, 1, index)
    ensures ListsDirectories(items, if items[index].directory then xs + [index] else xs, 1, index + 1)
  {
    forall j: nat ensures Has(xs + [index], j) <==> j == index || Has(xs, j) { HasAtEnd(xs, index, j); }
  }

  /** Every item but the root, which is the destination itself, has a name the file system takes. */
  predicate AllNameable(limits: NameLimits, items: seq<Item>) {
    forall i :: 0 < i < |items| ==> Nameable(limits, items[i].path)
  }

  predicate FirstUnnameable(limits: NameLimits, items: seq<Item>, i: nat) {
    0 < i < |items| && !Nameable(limits, items[i].path) && AllNameable(limits, items[..i])
  }

  /** Phase one stopped short of the first item that cannot be named. */
  ghost predicate Stopped(limits: NameLimits, items: seq<Item>, t: Tree) {
    exists i: nat :: FirstUnnameable(limits, items, i) && Staged(items, i, t)
  }

  lemma NamesGrow(limits: NameLimits, items: seq<Item>, i: nat)
    requires 0 < i < |items| && AllNameable(limits, items[..i])
    ensures if Nameable(limits, items[i].path) then AllNameable(limits, items[..i + 1]) else FirstUnnameable(limits, items, i)
    ensures FirstUnnameable(limits, items, i) ==> !AllNameable(limits, items)
  {}

  /** Phase one. */
  method CreateObjects(disk: Disk, file: Bytes, ps: seq<Parsed>) returns (ok: bool, directories: seq<nat>)
    requires Sound(ItemsOf(ps)) && Staged(ItemsOf(ps), 1, disk.tree) && ContentsInFile(file, ps)
    modifies disk
    ensures ok <==> AllNameable(disk.limits, ItemsOf(ps))
    ensures ok ==> Staged(ItemsOf(ps), |ps|, disk.tree) && ListsDirectories(ItemsOf(ps), directories, 1, |ps|)
    ensures !ok ==> Stopped(disk.limits, ItemsOf(ps), disk.tree)
  {
    directories := [];
    for index := 1 to |ps|
      invariant Staged(ItemsOf(ps), index, disk.tree) && ListsDirectories(ItemsOf(ps), directories, 1, index)
      invariant AllNameable(disk.limits, ItemsOf(ps)[..index])
    {
      ok := CreateObject(disk, file, ps, index);
      NamesGrow(disk.limits, ItemsOf(ps), index);
      if !ok { return false, directories; }
      ListGrows(ItemsOf(ps), directories, index);
      if ps[index].item.directory { directories := directories + [index]; }
    }
    assert ItemsOf(ps)[..|ps|] == ItemsOf(ps);
    return true, directories;
  }

  method CreateObject(disk: Disk, file: Bytes, ps: seq<Parsed>, index: nat) returns (ok: bool)
    requires 0 < index < |ps| && Sound(ItemsOf(ps)) && Staged(ItemsOf(ps), index, disk.tree) && ContentInFile(file, ps[index])
    modifies disk
    ensures ok <==> Nameable(disk.limits, ps[index].item.path)
    ensures Staged(ItemsOf(ps), if ok then index + 1 else index, disk.tree)
  {
    ghost var items, before := ItemsOf(ps), disk.tree;
    var e := ps[index].item;
    NextCanBeCreated(items, index, before);
    if e.directory {
      ghost var now := disk.clock;
      ok := disk.Mkdir(e.path, STAGING_MODE);
      if !ok { return; }
      StagedNext(items, index, before, disk.tree, now, DirObject(STAGING_MODE, now));
    } else {
      ok := ExtractRegularFile(disk, file, ps[index]);
      if !ok { return; }
      ghost var now, written: Stamp :| disk.tree == Touched(before, ParentOf(e.path), now)
                                                    [e.path := FileObject(NEW_FILE_MODE, written, e.content)];
      StillReachable(before, disk.tree, e.path, now, FileObject(NEW_FILE_MODE, written, e.content));
      ok := disk.SetMetadata(e.path, e.mode, Stamp(e.mtimeSec, e.mtimeNsec));
      StagedNext(items, index, before, disk.tree, now, ObjectOf(e));
    }
  }

  lemma StillReachable(t: Tree, n: Tree, path: Bytes, now: Stamp, o: Object)
    requires CanCreate(t, path) && n == Touched(t, ParentOf(path), now)[path := o]
    ensures Reachable(n, path)
  {
    NotItsOwnAncestor(path);
  }

  /** The root joins the list, and the list is sorted. */
  method InRestoreOrder(items: seq<Item>, directories: seq<nat>) returns (order: seq<nat>)
    requires RootFirst(items) && ListsDirectories(items, directories, 1, |items|)
    ensures DeepFirst(items, order) && ListsDirectories(items, order, 0, |items|)
  {
    var all := directories + [0];
    forall j: nat ensures Has(all, j) <==> j == 0 || Has(directories, j) { HasAtEnd(directories, 0, j); }
    forall k | 0 <= k < |all| ensures all[k] < |items| { assert Has(all, all[k]); }
    SortIsDeepFirst(items, all);
    order := SortByDepth(items, all);
    forall j: nat ensures Has(order, j) <==> Has(all, j) { SortHas(items, all, j); }
  }

  lemma AllStagedIsSettling(items: seq<Item>, order: seq<nat>, t: Tree)
    requires Staged(items, |items|, t)
    ensures Settling(items, order, 0, t)
  {
    forall j: nat | j < |items|
      ensures if items[j].directory && !Has(order[..0], j) then Placed(items, j, t) else Settled(items, j, t)
    {
      assert Placed(items, j, t);
    }
  }

  lemma AllSettledIsRestored(items: seq<Item>, order: seq<nat>, t: Tree)
    requires Settling(items, order, |order|, t) && ListsDirectories(items, order, 0, |items|)
    ensures Restored(items, t)
  {
    assert order[..|order|] == order;
    forall i | 0 <= i < |items| ensures items[i].path in t && t[items[i].path] == ObjectOf(items[i]) {
      assert items[i].directory ==> Has(order, i);
      assert Settled(items, i, t);
    }
    forall p | p in t ensures exists i :: 0 <= i < |items| && items[i].path == p {
      assert Named(items, |items|, p);
    }
  }

  /** Phase two. */
  method SettleDirectories(disk: Disk, items: seq<Item>, directories: seq<nat>) returns (ok: bool)
    requires Sound(items) && Staged(items, |items|, disk.tree) && ListsDirectories(items, directories, 1, |items|)
    modifies disk
    ensures ok && Restored(items, disk.tree)
  {
    var order := InRestoreOrder(items, directories);
    AllStagedIsSettling(items, order, disk.tree);
    for k := 0 to |order|
      invariant Settling(items, order, k, disk.tree)
    {
      OrderedDirectory(items, order, k);
      ok := SettleOne(disk, items, order, k);
    }
    AllSettledIsRestored(items, order, disk.tree);
    return true;
  }

  method SettleOne(disk: Disk, items: seq<Item>, order: seq<nat>, k: nat) returns (ok: bool)
    requires Sound(items) && DeepFirst(items, order) && k < |order| && items[order[k]].directory
    requires Settling(items, order, k, disk.tree)
    modifies disk
    ensures ok && Settling(items, order, k + 1, disk.tree)
  {
    ghost var before := disk.tree;
    assert WayListed(items, order[k]);
    WayStillOpen(items, order, k, before);
    OpenWayIsReachable(before, items[order[k]].path);
    StillADirectory(items, order, k, before);
    var e := items[order[k]];
    ok := disk.SetMetadata(e.path, e.mode, Stamp(e.mtimeSec, e.mtimeNsec));
    SettlingNext(items, order, k, before, disk.tree);
  }

  lemma OrderedDirectory(items: seq<Item>, order: seq<nat>, k: nat)
    requires k < |order| && ListsDirectories(items, order, 0, |items|)
    ensures order[k] < |items| && items[order[k]].directory
  {
    assert Has(order, order[k]);
  }

  lemma StillADirectory(items: seq<Item>, order: seq<nat>, k: nat, t: Tree)
    requires Settling(items, order, k, t) && k < |order| && order[k] < |items| && items[order[k]].directory
    ensures items[order[k]].path in t && t[items[order[k]].path].DirObject?
  {
    assert if Has(order[..k], order[k]) then Settled(items, order[k], t) else Placed(items, order[k], t);
  }

  lemma {:induction false} ParsedContents(file: Bytes, position: nat, left: nat)
    requires EntriesFrom(file, position, left).Some?
    ensures ContentsInFile(file, EntriesFrom(file, position, left).value)
    decreases left
  {
    if left > 0 {
      var p := EntryAt(file, position).value;
      ParsedContents(file, End(p), left - 1);
      OneStep(EntryAt, End, file, position, left, p);
    }
  }

  /** An archive that passes the preflight is restored into an empty or missing destination without
      any create or metadata call failing, provided the file system can name its items: the preflight does
      not look at that, and the items before the first too long name are left behind. An archive that
      does not pass leaves the destination untouched. */
  method Extract(file: Bytes, disk: Disk) returns (ok: bool)
    modifies disk
    ensures ok <==> Preflighted(file).Some? && EmptyDestination(old(disk.tree))
                    && AllNameable(disk.limits, ItemsOf(Preflighted(file).value))
    ensures ok ==> Restored(ItemsOf(Preflighted(file).value), disk.tree)
    ensures Preflighted(file).None? || !EmptyDestination(old(disk.tree)) ==> disk.tree == old(disk.tree)
    ensures !ok && Preflighted(file).Some? && EmptyDestination(old(disk.tree))
            ==> Stopped(disk.limits, ItemsOf(Preflighted(file).value), disk.tree)
  {
    var parsed := PreflightArchive(file);
    if parsed.None? { return false; }
    var ps := parsed.value;
    if !EmptyDestination(disk.tree) { return false; }
    disk.tree := map[ROOT := DirObject(STAGING_MODE, disk.clock)];
    ParsedContents(file, GLOBAL_HEADER, |ps|);
    StructuredIsDistinct(ItemsOf(ps));
    StructuredHasWays(ItemsOf(ps));
    assert ItemsOf(ps)[0] == ps[0].item;
    var directories;
    ok, directories := CreateObjects(disk, file, ps);
    if !ok { return; }
    ok := SettleDirectories(disk, ItemsOf(ps), directories);
  }
}
