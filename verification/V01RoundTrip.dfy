/** Writing a tree and extracting the archive gives the tree back. */
module V01RoundTrip {
  import opened Common
  import opened ByteOrder
  import opened Layout
  import opened ArchivePath
  import opened OrderedPaths
  import opened V01Format
  import opened V01Extract
  import opened V01Tree
  import opened V01Write

  // ----- a strict registry in order-free terms -----

  predicate ParentAdded(list: seq<Added>, i: nat) {
    i < |list| && (list[i].path == ROOT || AddedBefore(list, i, ParentOf(list[i].path)))
  }

  predicate AddedBefore(list: seq<Added>, i: nat, path: Bytes) {
    exists j :: 0 <= j < i && j < |list| && list[j] == Added(path, true)
  }

  ghost predicate ParentsFirst(list: seq<Added>) {
    && (forall i, j :: 0 <= i < j < |list| ==> list[i].path != list[j].path)
    && (forall i: nat :: i < |list| ==> ParentAdded(list, i))
  }

  lemma ParentsFirstPrefix(list: seq<Added>)
    requires list != []
    ensures ParentsFirst(list) <==> ParentsFirst(list[..|list| - 1]) && ParentAdded(list, |list| - 1)
                                    && forall i :: 0 <= i < |list| - 1 ==> list[i].path != list[|list| - 1].path
  {
    var init := list[..|list| - 1];
    forall i: nat | i < |init| ensures ParentAdded(init, i) <==> ParentAdded(list, i) {
      var p := ParentOf(list[i].path);
      if AddedBefore(list, i, p) {
        var j :| 0 <= j < i && j < |list| && list[j] == Added(p, true);
        assert init[j] == Added(p, true);
      }
      if AddedBefore(init, i, p) {
        var j :| 0 <= j < i && j < |init| && init[j] == Added(p, true);
        assert list[j] == Added(p, true);
      }
    }
  }

  /** Strict adding accepts exactly distinct paths whose parents were added before, as directories. */
  lemma {:induction false} StrictAcceptsExactly(list: seq<Added>)
    ensures AddAll(true, list).Some? <==> ParentsFirst(list)
  {
    if list != [] {
      var n := |list| - 1;
      var init, last := list[..n], list[n];
      StrictAcceptsExactly(init);
      ParentsFirstPrefix(list);
      AddAllDescribes(true, init);
      if AddAll(true, init).Some? {
        var r := AddAll(true, init).value;
        LastFits(list, r);
      }
    }
  }

  lemma LastFits(list: seq<Added>, r: Registered)
    requires list != [] && Describes(r, list[..|list| - 1])
    ensures AddTo(true, r, list[|list| - 1]).Some?
            <==> ParentAdded(list, |list| - 1) && forall i :: 0 <= i < |list| - 1 ==> list[i].path != list[|list| - 1].path
  {
    var n := |list| - 1;
    var init, path := list[..n], list[n].path;
    var parent := ParentOf(path);
    if path in r.all {
      var i :| 0 <= i < n && (init[i] == Added(path, true) || init[i] == Added(path, false));
      assert list[i].path == path;
    }
    forall i | 0 <= i < n ensures list[i].path in r.all {
      assert init[i] == Added(list[i].path, list[i].directory) && init[i] in init;
    }
    if parent in r.directories {
      var j :| 0 <= j < n && init[j] == Added(parent, true);
      assert list[j] == Added(parent, true);
    }
    if AddedBefore(list, n, parent) {
      var j :| 0 <= j < n && j < |list| && list[j] == Added(parent, true);
      assert init[j] == Added(parent, true);
    }
  }

  // ----- what Write accepts -----

  /** The object the walk along `parts` reaches, if any, can be stored. */
  predicate StorableAt(root: Node, parts: seq<Bytes>) {
    Walk(root, parts).Some? ==> Storable(Entry(parts, Walk(root, parts).value))
  }

  ghost predicate AllStorable(root: Node) { forall parts :: StorableAt(root, parts) }

  /** A tree has an archive exactly when it holds only directories and regular files and every path of
      it obeys the grammar. */
  lemma ArchivedExactly(root: Node)
    requires FromDisk(root)
    ensures ArchiveOf(root).Some? <==> AllStorable(root)
  {
    var es := EntriesOf(root);
    EntriesAreTheTree(root);
    if AllStorable(root) {
      forall i | 0 <= i < |es| ensures Mapped(StoredBytes, es)[i].Some? {
        EntryIsWalked(root, i);
        assert StorableAt(root, es[i].parts);
        WalkedNames(root, es[i].parts);
        EntryIsStored(es[i].parts, es[i].node);
        MappedAt(StoredBytes, es, i);
      }
    }
    if ArchiveOf(root).Some? {
      forall parts ensures StorableAt(root, parts) {
        if Walk(root, parts).Some? {
          var e := Entry(parts, Walk(root, parts).value);
          assert Holds(es, e);
          var k: nat :| k < |es| && es[k] == e;
          EncodeNeedsEach(StoredBytes, es, k);
        }
      }
    }
  }

  /** Write succeeds exactly when no child of a directory it enters has too long a path, dropped or not,
      and what the filter leaves has an archive. */
  lemma WriteSucceedsExactly(f: Filter, root: Node)
    requires FromDisk(root)
    ensures Delivered(f, root).Some?
            <==> root.Dir? && PathsFit(f, ROOT, root) && AllStorable(Selected(f, ROOT, root))
  {
    SelectedFromDisk(f, ROOT, root);
    ArchivedExactly(Selected(f, ROOT, root));
  }

  // ----- what the filter leaves -----

  /** The object is there and the filter does not drop it. */
  predicate KeptAt(f: Filter, root: Node, parts: seq<Bytes>) {
    Walk(root, parts).Some? && !Dropped(f, PathOf(parts), Walk(root, parts).value)
  }

  predicate KeptOnTheWay(f: Filter, root: Node, parts: seq<Bytes>) {
    forall i :: 0 < i <= |parts| ==> KeptAt(f, root, parts[..i])
  }

  /** The filter leaves exactly what neither it nor anything above it is dropped for. */
  lemma {:induction false} SelectedExactly(f: Filter, root: Node, parts: seq<Bytes>)
    requires FromDisk(root)
    ensures Walk(Selected(f, ROOT, root), parts)
            == if Walk(root, parts).Some? && KeptOnTheWay(f, root, parts)
               then Some(Selected(f, PathOf(parts), Walk(root, parts).value)) else None
  {
    if parts != [] {
      var above, name := parts[..|parts| - 1], parts[|parts| - 1];
      assert parts == above + [name];
      SelectedExactly(f, root, above);
      WalkOneMore(root, above, name);
      WalkOneMore(Selected(f, ROOT, root), above, name);
      WayGrows(f, root, above, name);
      if Walk(root, parts).Some? {
        WalkedNames(root, parts);
        NamesSplit(above, name);
        ChildPathIsPathOf(above, name);
      }
    }
  }

  lemma WayGrows(f: Filter, root: Node, above: seq<Bytes>, name: Bytes)
    ensures KeptOnTheWay(f, root, above + [name]) <==> KeptOnTheWay(f, root, above) && KeptAt(f, root, above + [name])
  {
    var parts := above + [name];
    assert parts[..|parts|] == parts;
    forall i | 0 < i <= |above| ensures parts[..i] == above[..i] {}
    if KeptOnTheWay(f, root, parts) {
      forall i | 0 < i <= |above| ensures KeptAt(f, root, above[..i]) { assert KeptAt(f, root, parts[..i]); }
    }
  }

  /** No path below the directory is too long. */
  ghost predicate ShortBelow(parts: seq<Bytes>, n: Node) {
    forall more :: Walk(n, more).Some? ==> |PathOf(parts + more)| <= MAX_PATH_LENGTH
  }

  lemma {:induction false} ShortPathsFit(f: Filter, parts: seq<Bytes>, n: Node)
    requires FromDisk(n) && AllNames(parts) && ShortBelow(parts, n)
    ensures PathsFit(f, PathOf(parts), n)
    decreases n
  {
    if n.Dir? {
      forall name | name in n.children ensures ChildFits(f, PathOf(parts), n, name) {
        ChildPathIsPathOf(parts, name);
        ShortOneDown(parts, n, name);
        ShortPathsFit(f, parts + [name], n.children[name]);
      }
    }
  }

  lemma ShortOneDown(parts: seq<Bytes>, n: Node, name: Bytes)
    requires n.Dir? && name in n.children && ShortBelow(parts, n)
    ensures ShortBelow(parts + [name], n.children[name]) && |PathOf(parts + [name])| <= MAX_PATH_LENGTH
  {
    forall more | Walk(n.children[name], more).Some? ensures |PathOf(parts + [name] + more)| <= MAX_PATH_LENGTH {
      OneNameDown(n, name, more);
      assert parts + ([name] + more) == parts + [name] + more;
    }
    assert Walk(n.children[name], []).Some? && parts + [name] + [] == parts + [name];
  }

  lemma OneNameDown(n: Node, name: Bytes, more: seq<Bytes>)
    requires n.Dir? && name in n.children
    ensures Walk(n, [name] + more) == Walk(n.children[name], more)
  {
    assert ([name] + more)[1..] == more;
  }

  /** Without a filter Write delivers the archive of the whole tree. */
  lemma WithoutFilter(root: Node)
    requires FromDisk(root) && root.Dir?
    ensures Delivered(NO_FILTER, root) == ArchiveOf(root)
  {
    NoFilterDropsNothing(ROOT, root);
    ArchivedExactly(root);
    if ArchiveOf(root).Some? {
      forall more | Walk(root, more).Some? ensures |PathOf([] + more)| <= MAX_PATH_LENGTH {
        assert StorableAt(root, more) && [] + more == more;
      }
      ShortPathsFit(NO_FILTER, [], root);
    }
  }

  // ----- the preflight accepts it -----

  ghost function ItemsOfTree(root: Node): (r: seq<Item>)
    ensures |r| == |EntriesOf(root)|
  {
    Mapped(ItemOf, EntriesOf(root))
  }

  lemma TreeItem(root: Node, i: nat)
    requires FromDisk(root) && i < |EntriesOf(root)|
    ensures
      var e := EntriesOf(root)[i];
      ItemsOfTree(root)[i] == ItemOf(e) && AllNames(e.parts) && Walk(root, e.parts) == Some(e.node) && FromDisk(e.node)
  {
    MappedAt(ItemOf, EntriesOf(root), i);
    EntryIsWalked(root, i);
    WalkedNames(root, EntriesOf(root)[i].parts);
  }

  lemma ArchiveOfItems(root: Node)
    requires ArchiveOf(root).Some?
    ensures ArchiveBytes(ItemsOfTree(root)) == ArchiveOf(root)
  {
    EncodeMapped(StoredBytes, EntryBytes, ItemOf, EntriesOf(root));
  }

  /** Two entries at one path are one entry. */
  lemma PathsDiffer(root: Node, i: nat, j: nat)
    requires FromDisk(root) && i < j < |EntriesOf(root)|
    ensures ItemsOfTree(root)[i].path != ItemsOfTree(root)[j].path
  {
    var es := EntriesOf(root);
    TreeItem(root, i);
    TreeItem(root, j);
    EntriesAreTheTree(root);
    PartsNotBelowThemselves(es[i].parts);
    PathReadsBack(es[i].parts);
    PathReadsBack(es[j].parts);
  }

  lemma ListedAs(root: Node, i: nat)
    requires FromDisk(root) && i < |EntriesOf(root)|
    ensures Listing(ItemsOfTree(root))[i] == Added(PathOf(EntriesOf(root)[i].parts), EntriesOf(root)[i].node.Dir?)
  {
    TreeItem(root, i);
  }

  lemma ParentIsEarlier(root: Node, i: nat)
    requires FromDisk(root) && i < |EntriesOf(root)|
    ensures ParentAdded(Listing(ItemsOfTree(root)), i)
  {
    var list := Listing(ItemsOfTree(root));
    if list[i].path != ROOT {
      var j := ParentListed(root, i);
      AddedAt(list, i, j, ParentOf(list[i].path));
    }
  }

  lemma AddedAt(list: seq<Added>, i: nat, j: nat, path: Bytes)
    requires j < i <= |list| && list[j] == Added(path, true)
    ensures AddedBefore(list, i, path)
  {}

  lemma ParentListed(root: Node, i: nat) returns (j: nat)
    requires FromDisk(root) && i < |EntriesOf(root)| && Listing(ItemsOfTree(root))[i].path != ROOT
    ensures j < i && Listing(ItemsOfTree(root))[j] == Added(ParentOf(Listing(ItemsOfTree(root))[i].path), true)
  {
    var parts := EntriesOf(root)[i].parts;
    ListedAs(root, i);
    assert PathOf([]) == ROOT;
    var above, name := parts[..|parts| - 1], parts[|parts| - 1];
    assert parts == above + [name];
    j := ParentEntry(root, i, above, name);
    ListedAs(root, j);
    ParentPath(root, i, above, name);
  }

  lemma ParentPath(root: Node, i: nat, above: seq<Bytes>, name: Bytes)
    requires FromDisk(root) && i < |EntriesOf(root)| && EntriesOf(root)[i].parts == above + [name]
    ensures ParentOf(PathOf(EntriesOf(root)[i].parts)) == PathOf(above)
  {
    TreeItem(root, i);
    NamesSplit(above, name);
    ChildPathIsPathOf(above, name);
  }

  lemma ParentEntry(root: Node, i: nat, above: seq<Bytes>, name: Bytes) returns (j: nat)
    requires i < |EntriesOf(root)| && EntriesOf(root)[i].parts == above + [name]
    ensures j < i && EntriesOf(root)[j].parts == above && EntriesOf(root)[j].node.Dir?
  {
    EntryIsWalked(root, i);
    WalkOneMore(root, above, name);
    var e := Entry(above, Walk(root, above).value);
    EntriesAreTheTree(root);
    assert Holds(EntriesOf(root), e);
    j :| j < |EntriesOf(root)| && EntriesOf(root)[j] == e;
    NotLessBackwards(above, name);
  }

  lemma {:induction false} NotLessBackwards(above: seq<Bytes>, name: Bytes)
    ensures !PartsLess(above + [name], above)
  {
    if above != [] {
      NothingBelowItself(above[0]);
      assert (above + [name])[1..] == above[1..] + [name];
      NotLessBackwards(above[1..], name);
    }
  }

  lemma StorableEntry(root: Node, i: nat)
    requires ArchiveOf(root).Some? && i < |EntriesOf(root)|
    ensures Storable(EntriesOf(root)[i])
  {
    EncodeNeedsEach(StoredBytes, EntriesOf(root), i);
  }

  lemma OnlyTheFirstIsRoot(root: Node, i: nat)
    requires i < |EntriesOf(root)|
    ensures EntriesOf(root)[i].parts == [] <==> i == 0
  {
    EntriesAreTheTree(root);
    PartsNotBelowThemselves([]);
  }

  lemma WrittenIsStructured(root: Node)
    requires FromDisk(root) && root.Dir? && ArchiveOf(root).Some?
    ensures Structured(ItemsOfTree(root))
  {
    var es, items := EntriesOf(root), ItemsOfTree(root);
    var list := Listing(items);
    TreeItem(root, 0);
    forall i | 0 <= i < |items| ensures ValidArchivePath(items[i].path, i == 0, items[i].directory, MAX_PATH_LENGTH) {
      TreeItem(root, i);
      StorableEntry(root, i);
      OnlyTheFirstIsRoot(root, i);
    }
    forall i, j | 0 <= i < j < |list| ensures list[i].path != list[j].path { PathsDiffer(root, i, j); }
    forall i: nat | i < |list| ensures ParentAdded(list, i) { ParentIsEarlier(root, i); }
    StrictAcceptsExactly(list);
  }

  // ----- the restored tree -----

  /** What the format keeps of an object. */
  function Kept(n: Node): Object
    requires !n.Special?
  {
    var mode, mtime := n.stat.mode % (PERMISSION_MASK + 1), Stamp(n.stat.mtimeSec, n.stat.mtimeNsec);
    if n.Dir? then DirObject(mode, mtime) else FileObject(mode, mtime, n.content)
  }

  /** The path names the same object in the tree and on the disk, or nothing in either. */
  predicate SameAt(root: Node, t: Tree, path: Bytes) {
    match Walk(root, PartsOf(path))
    case None => path !in t
    case Some(n) => path in t && !n.Special? && t[path] == Kept(n)
  }

  lemma ListedIsRestored(root: Node, t: Tree, path: Bytes)
    requires FromDisk(root) && ArchiveOf(root).Some? && Restored(ItemsOfTree(root), t) && Walk(root, PartsOf(path)).Some?
    ensures SameAt(root, t, path)
  {
    var es, e := EntriesOf(root), Entry(PartsOf(path), Walk(root, PartsOf(path)).value);
    EntriesAreTheTree(root);
    assert Holds(es, e);
    var k: nat :| k < |es| && es[k] == e;
    PartsReadBack(path);
    TreeItem(root, k);
    StorableEntry(root, k);
    assert ItemsOfTree(root)[k].path == path;
  }

  lemma RestoredIsListed(root: Node, t: Tree, path: Bytes)
    requires FromDisk(root) && Restored(ItemsOfTree(root), t) && path in t
    ensures Walk(root, PartsOf(path)).Some?
  {
    var k: nat :| k < |ItemsOfTree(root)| && ItemsOfTree(root)[k].path == path;
    TreeItem(root, k);
    PathReadsBack(EntriesOf(root)[k].parts);
  }

  lemma RestoredTreeIsTheSource(root: Node, t: Tree)
    requires FromDisk(root) && ArchiveOf(root).Some? && Restored(ItemsOfTree(root), t)
    ensures forall path :: SameAt(root, t, path)
  {
    forall path ensures SameAt(root, t, path) {
      if Walk(root, PartsOf(path)).Some? { ListedIsRestored(root, t, path); }
      if path in t { RestoredIsListed(root, t, path); }
    }
  }

  /** Whatever Write produces, the preflight accepts, and every tree that Extract may leave behind is the
      source tree: the same paths, kinds, contents, permissions and modification times. */
  lemma ArchivesRestoreTheirTree(root: Node)
    requires FromDisk(root) && root.Dir? && ArchiveOf(root).Some? && |EntriesOf(root)| <= U64_MAX
    ensures Preflighted(ArchiveOf(root).value).Some?
    ensures forall t, path :: Restored(ItemsOf(Preflighted(ArchiveOf(root).value).value), t) ==> SameAt(root, t, path)
  {
    var items := ItemsOfTree(root);
    ArchiveOfItems(root);
    WrittenIsStructured(root);
    PreflightSeesWhatWasWritten(items);
    assert ItemsOf(Expected(items)) == items;
    forall t, path | Restored(items, t) ensures SameAt(root, t, path) { RestoredTreeIsTheSource(root, t); }
  }

  /** The same for what the filter leaves. */
  lemma ArchivesRestoreTheSelection(f: Filter, root: Node)
    requires FromDisk(root) && Delivered(f, root).Some? && |EntriesOf(Selected(f, ROOT, root))| <= U64_MAX
    ensures Preflighted(Delivered(f, root).value).Some?
    ensures forall t, path :: Restored(ItemsOf(Preflighted(Delivered(f, root).value).value), t)
              ==> SameAt(Selected(f, ROOT, root), t, path)
  {
    SelectedFromDisk(f, ROOT, root);
    ArchivesRestoreTheirTree(Selected(f, ROOT, root));
  }

  /** Every path of the tree has a name the file system takes. */
  predicate NameableAt(limits: NameLimits, root: Node, parts: seq<Bytes>) {
    Walk(root, parts).Some? && parts != [] ==> Nameable(limits, PathOf(parts))
  }

  ghost predicate TreeNameable(limits: NameLimits, root: Node) { forall parts :: NameableAt(limits, root, parts) }

  lemma NameableExactly(limits: NameLimits, root: Node)
    requires FromDisk(root)
    ensures AllNameable(limits, ItemsOfTree(root)) <==> TreeNameable(limits, root)
  {
    var es, items := EntriesOf(root), ItemsOfTree(root);
    EntriesAreTheTree(root);
    if TreeNameable(limits, root) {
      forall i | 0 < i < |items| ensures Nameable(limits, items[i].path) {
        TreeItem(root, i);
        OnlyTheFirstIsRoot(root, i);
        assert NameableAt(limits, root, es[i].parts);
      }
    }
    if AllNameable(limits, items) {
      forall parts ensures NameableAt(limits, root, parts) {
        if Walk(root, parts).Some? && parts != [] {
          var e := Entry(parts, Walk(root, parts).value);
          assert Holds(es, e);
          var k: nat :| k < |es| && es[k] == e;
          TreeItem(root, k);
          OnlyTheFirstIsRoot(root, k);
        }
      }
    }
  }

  lemma DeliveredItems(f: Filter, root: Node)
    requires FromDisk(root) && Delivered(f, root).Some? && |EntriesOf(Selected(f, ROOT, root))| <= U64_MAX
    ensures Preflighted(Delivered(f, root).value).Some?
    ensures ItemsOf(Preflighted(Delivered(f, root).value).value) == ItemsOfTree(Selected(f, ROOT, root))
  {
    var sel := Selected(f, ROOT, root);
    SelectedFromDisk(f, ROOT, root);
    ArchiveOfItems(sel);
    WrittenIsStructured(sel);
    PreflightSeesWhatWasWritten(ItemsOfTree(sel));
    assert ItemsOf(Expected(ItemsOfTree(sel))) == ItemsOfTree(sel);
  }

  /** Back up what the filter leaves, then restore into an empty destination. */
  method BackUpAndRestore(root: Node, f: Filter, target: Target, disk: Disk) returns (saved: bool, restored: bool)
    requires FromDisk(root) && |EntriesOf(Selected(f, ROOT, root))| <= U64_MAX && EmptyDestination(disk.tree)
    modifies disk
    ensures saved <==> Free(target) && root.Dir? && PathsFit(f, ROOT, root) && AllStorable(Selected(f, ROOT, root))
    ensures restored <==> saved && TreeNameable(disk.limits, Selected(f, ROOT, root))
    ensures restored ==> forall path :: SameAt(Selected(f, ROOT, root), disk.tree, path)
    ensures !saved ==> disk.tree == old(disk.tree)
  {
    var archive := Write(root, f, target);
    WriteSucceedsExactly(f, root);
    if archive.None? { return false, false; }
    DeliveredItems(f, root);
    ArchivesRestoreTheSelection(f, root);
    SelectedFromDisk(f, ROOT, root);
    NameableExactly(disk.limits, Selected(f, ROOT, root));
    restored := Extract(archive.value, disk);
    saved := true;
  }
}
