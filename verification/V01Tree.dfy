/** A source directory tree and the v0.1 archive of it: src/archive/archive.cpp:272-288 and 584-719. */
module V01Tree {
  import opened Common
  import opened Entries
  import opened ByteOrder
  import opened ArchivePath
  import opened OrderedPaths
  import opened V01Format

  datatype Stat = Stat(mode: nat, mtimeSec: int, mtimeNsec: nat)

  /** What lstat and readdir show; Special stands for links, pipes, devices and sockets. A file is steady
      when its size and time are the same after reading. */
  datatype Node =
    | File(stat: Stat, content: Bytes, steady: bool)
    | Dir(stat: Stat, children: map<Bytes, Node>)
    | Special

  predicate IsName(name: Bytes) { Plain(name) && forall k :: 0 <= k < |name| ==> name[k] != SLASH }

  predicate StatOk(s: Stat) { FitsI64(s.mtimeSec) && s.mtimeNsec <= MAX_MTIME_NSEC }

  /** What every file system keeps: names are single components, stat fields have their widths. */
  ghost predicate FromDisk(n: Node) {
    match n
    case Special => true
    case File(s, content, _) => StatOk(s) && |content| <= U64_MAX
    case Dir(s, children) => StatOk(s) && forall name :: name in children ==> IsName(name) && FromDisk(children[name])
  }

  /** The node reached from `n` by following names. */
  function Walk(n: Node, parts: seq<Bytes>): Option<Node> {
    if parts == [] then Some(n)
    else if n.Dir? && parts[0] in n.children then Walk(n.children[parts[0]], parts[1..])
    else None
  }

  predicate AllNames(parts: seq<Bytes>) { forall i :: 0 <= i < |parts| ==> IsName(parts[i]) }

  lemma NamesSplit(above: seq<Bytes>, name: Bytes)
    requires AllNames(above + [name])
    ensures AllNames(above) && IsName(name)
  {
    var all := above + [name];
    assert IsName(all[|above|]);
    forall i | 0 <= i < |above| ensures IsName(above[i]) { assert IsName(all[i]); }
  }

  lemma {:induction false} WalkedNames(n: Node, parts: seq<Bytes>)
    requires FromDisk(n) && Walk(n, parts).Some?
    ensures AllNames(parts) && FromDisk(Walk(n, parts).value)
  {
    if parts != [] {
      WalkedNames(n.children[parts[0]], parts[1..]);
      assert parts == [parts[0]] + parts[1..];
    }
  }

  lemma {:induction false} WalkSplits(n: Node, a: seq<Bytes>, b: seq<Bytes>)
    ensures Walk(n, a + b) == match Walk(n, a) case None => None case Some(m) => Walk(m, b)
  {
    if a == [] {
      assert a + b == b;
    } else {
      assert (a + b)[1..] == a[1..] + b;
      if n.Dir? && a[0] in n.children { WalkSplits(n.children[a[0]], a[1..], b); }
    }
  }

  lemma WalkOneMore(n: Node, a: seq<Bytes>, name: Bytes)
    ensures Walk(n, a + [name])
            == match Walk(n, a) case None => None case Some(m) => if m.Dir? && name in m.children then Some(m.children[name]) else None
  {
    WalkSplits(n, a, [name]);
    if Walk(n, a).Some? {
      assert [name][1..] == [];
    }
  }

  // ----- paths -----

  function PathOf(parts: seq<Bytes>): Bytes { if parts == [] then ROOT else Join(parts) }

  function PartsOf(path: Bytes): seq<Bytes> { if path == ROOT then [] else Components(path) }

  function ChildPath(path: Bytes, name: Bytes): Bytes { if path == ROOT then name else path + [SLASH] + name }

  lemma {:induction false} ComponentsJoin(parts: seq<Bytes>)
    requires parts != [] && AllNames(parts)
    ensures Components(Join(parts)) == parts && AllPlain(parts)
  {
    OnePart(parts[0]);
    if |parts| == 1 {
      PlainSingle(parts[0]);
      assert parts == [parts[0]];
    } else {
      ComponentsJoin(parts[1..]);
      ComponentsConcat(parts[0], Join(parts[1..]));
      assert parts == [parts[0]] + parts[1..];
    }
  }

  lemma PathReadsBack(parts: seq<Bytes>)
    requires AllNames(parts)
    ensures PartsOf(PathOf(parts)) == parts
    ensures PathOf(parts) == ROOT <==> parts == []
    ensures PathOf(parts) != ROOT ==> AllPlain(Components(PathOf(parts)))
  {
    if parts != [] {
      ComponentsJoin(parts);
      RootNotPlain(Join(parts));
    }
  }

  lemma PartsReadBack(path: Bytes)
    ensures PathOf(PartsOf(path)) == path
  {
    JoinComponents(path);
  }

  lemma {:induction false} JoinGrows(parts: seq<Bytes>, name: Bytes)
    requires parts != []
    ensures Join(parts + [name]) == Join(parts) + [SLASH] + name
  {
    JoinSplits(parts + [name], |parts|);
    assert (parts + [name])[..|parts|] == parts && (parts + [name])[|parts|..] == [name];
  }

  /** The writer's paths, and the parent the preflight computes from them. */
  lemma ChildPathIsPathOf(parts: seq<Bytes>, name: Bytes)
    requires AllNames(parts) && IsName(name)
    ensures AllNames(parts + [name])
    ensures PathOf(parts + [name]) == ChildPath(PathOf(parts), name)
    ensures ParentOf(PathOf(parts + [name])) == PathOf(parts)
  {
    PathReadsBack(parts);
    if parts == [] {
      assert parts + [name] == [name];
    } else {
      JoinGrows(parts, name);
      ParentOfChild(Join(parts), name);
    }
  }

  lemma ParentOfChild(path: Bytes, name: Bytes)
    requires IsName(name)
    ensures ParentOf(path + [SLASH] + name) == path
  {
    var p := path + [SLASH] + name;
    assert p[|path|] == SLASH && p[..|path|] == path;
    assert forall k :: |path| < k < |p| ==> p[k] == name[k - |path| - 1];
  }

  // ----- name order -----

  lemma {:induction false} LessIsTotal(a: Bytes, b: Bytes)
    ensures a == b || Less(a, b) || Less(b, a)
  {
    if a != [] && b != [] && a[0] == b[0] {
      LessIsTotal(a[1..], b[1..]);
      assert a == [a[0]] + a[1..] && b == [b[0]] + b[1..];
    }
  }

  predicate Ascending(names: seq<Bytes>) { forall i, j :: 0 <= i < j < |names| ==> Less(names[i], names[j]) }

  predicate Lists(names: seq<Bytes>, s: set<Bytes>) {
    (forall i :: 0 <= i < |names| ==> names[i] in s) && (forall x :: x in s ==> Listed(names, x))
  }

  predicate Listed(names: seq<Bytes>, x: Bytes) { exists i :: 0 <= i < |names| && names[i] == x }

  /** std::sort of distinct names, by insertion. */
  function Insert(sorted: seq<Bytes>, x: Bytes): seq<Bytes> {
    if sorted == [] || Less(x, sorted[0]) then [x] + sorted else [sorted[0]] + Insert(sorted[1..], x)
  }

  lemma {:induction false} InsertLists(sorted: seq<Bytes>, x: Bytes, y: Bytes)
    ensures Listed(Insert(sorted, x), y) <==> y == x || Listed(sorted, y)
  {
    if sorted == [] || Less(x, sorted[0]) {
      ListedInFront(x, sorted, y);
    } else {
      InsertLists(sorted[1..], x, y);
      ListedInFront(sorted[0], Insert(sorted[1..], x), y);
      ListedInFront(sorted[0], sorted[1..], y);
      assert sorted == [sorted[0]] + sorted[1..];
    }
  }

  lemma ListedInFront(x: Bytes, rest: seq<Bytes>, y: Bytes)
    ensures Listed([x] + rest, y) <==> y == x || Listed(rest, y)
  {
    var all := [x] + rest;
    if i :| 0 <= i < |rest| && rest[i] == y { assert all[i + 1] == y; }
    if i :| 0 <= i < |all| && all[i] == y { if i > 0 { assert rest[i - 1] == y; } }
    assert all[0] == x;
  }

  lemma {:induction false} InsertAscends(sorted: seq<Bytes>, x: Bytes)
    requires Ascending(sorted) && !Listed(sorted, x)
    ensures Ascending(Insert(sorted, x))
  {
    if sorted != [] {
      var tail := sorted[1..];
      LessIsTotal(x, sorted[0]);
      assert sorted[0] != x;
      ListedInFront(sorted[0], tail, x);
      assert sorted == [sorted[0]] + tail;
      if Less(x, sorted[0]) {
        forall j | 0 <= j < |sorted| ensures Less(x, sorted[j]) { if j > 0 { LessIsTransitive(x, sorted[0], sorted[j]); } }
      } else {
        InsertAscends(tail, x);
        var rest := Insert(tail, x);
        forall j | 0 <= j < |rest| ensures Less(sorted[0], rest[j]) {
          InsertLists(tail, x, rest[j]);
          assert Listed(rest, rest[j]);
          if i :| 0 <= i < |tail| && tail[i] == rest[j] { assert sorted[i + 1] == rest[j]; }
        }
      }
    }
  }

  lemma InsertedLists(sorted: seq<Bytes>, s: set<Bytes>, x: Bytes)
    requires Lists(sorted, s)
    ensures Lists(Insert(sorted, x), s + {x})
  {
    var r := Insert(sorted, x);
    forall i | 0 <= i < |r| ensures r[i] in s + {x} {
      assert Listed(r, r[i]);
      InsertLists(sorted, x, r[i]);
    }
    forall y | y in s + {x} ensures Listed(r, y) { InsertLists(sorted, x, y); }
  }

  /** A set of names in ascending order. */
  ghost function InOrder(s: set<Bytes>): (r: seq<Bytes>)
    ensures Ascending(r) && Lists(r, s)
  {
    if s == {} then []
    else
      var x :| x in s;
      var sorted := InOrder(s - {x});
      InsertedLists(sorted, s - {x}, x);
      InsertAscends(sorted, x);
      assert s - {x} + {x} == s;
      Insert(sorted, x)
  }

  /** Whatever order readdir delivers, sorting gives the same list. */
  lemma {:induction false} OneOrder(a: seq<Bytes>, b: seq<Bytes>, s: set<Bytes>)
    requires Ascending(a) && Lists(a, s) && Ascending(b) && Lists(b, s)
    ensures a == b
    decreases |a|
  {
    if s == {} {
      assert a == [] && b == [];
    } else {
      var x :| x in s;
      assert Listed(a, x) && Listed(b, x);
      assert a[0] in s;
      assert Listed(b, a[0]) && b[0] in s;
      assert Listed(a, b[0]);
      SameFirst(a, b);
      NothingBelowItself(a[0]);
      RestLists(a, s);
      RestLists(b, s);
      OneOrder(a[1..], b[1..], s - {a[0]});
      assert a == [a[0]] + a[1..] && b == [b[0]] + b[1..];
    }
  }

  lemma SameFirst(a: seq<Bytes>, b: seq<Bytes>)
    requires Ascending(a) && Ascending(b) && a != [] && b != [] && Listed(b, a[0]) && Listed(a, b[0])
    ensures a[0] == b[0]
  {
    var i :| 0 <= i < |b| && b[i] == a[0];
    var j :| 0 <= j < |a| && a[j] == b[0];
    if i > 0 && j > 0 {
      LessIsTransitive(a[0], b[0], a[0]);
      NothingBelowItself(a[0]);
    }
  }

  lemma RestLists(a: seq<Bytes>, s: set<Bytes>)
    requires Ascending(a) && a != [] && Lists(a, s)
    ensures Ascending(a[1..]) && Lists(a[1..], s - {a[0]})
  {
    NothingBelowItself(a[0]);
    forall x | x in s - {a[0]} ensures Listed(a[1..], x) {
      assert Listed(a, x);
      ListedInFront(a[0], a[1..], x);
      assert a == [a[0]] + a[1..];
    }
  }

  // ----- the entries of a tree -----

  datatype Entry = Entry(parts: seq<Bytes>, node: Node)

  /** A directory before its children, children in name order. */
  ghost function Preorder(parts: seq<Bytes>, n: Node): (r: seq<Entry>)
    ensures |r| > 0 && r[0] == Entry(parts, n)
    decreases n, 1, 0
  {
    [Entry(parts, n)] + if n.Dir? then Under(parts, n, InOrder(n.children.Keys)) else []
  }

  ghost function Under(parts: seq<Bytes>, n: Node, names: seq<Bytes>): seq<Entry>
    requires n.Dir?
    decreases n, 0, |names|
  {
    if names == [] then []
    else
      var last := names[|names| - 1];
      Under(parts, n, names[..|names| - 1]) + if last in n.children then Preorder(parts + [last], n.children[last]) else []
  }

  predicate StartsWithParts(all: seq<Bytes>, parts: seq<Bytes>) { |parts| <= |all| && all[..|parts|] == parts }

  /** The entry's node is the one its names lead to from `n`, which stands at `parts`. */
  predicate Reached(parts: seq<Bytes>, n: Node, e: Entry) {
    StartsWithParts(e.parts, parts) && Walk(n, e.parts[|parts|..]) == Some(e.node)
  }

  predicate AllReached(parts: seq<Bytes>, n: Node, es: seq<Entry>) { forall k :: 0 <= k < |es| ==> Reached(parts, n, es[k]) }

  lemma ReachedFromAbove(parts: seq<Bytes>, n: Node, name: Bytes, e: Entry)
    requires n.Dir? && name in n.children && Reached(parts + [name], n.children[name], e)
    ensures Reached(parts, n, e) && |e.parts| > |parts| && e.parts[|parts|] == name
  {
    assert e.parts[..|parts| + 1] == parts + [name];
    assert e.parts[..|parts|] == e.parts[..|parts| + 1][..|parts|] == parts;
    assert e.parts[|parts|] == e.parts[..|parts| + 1][|parts|];
    assert e.parts[|parts|..][1..] == e.parts[|parts| + 1..];
  }

  lemma {:induction false} EntriesAreReached(parts: seq<Bytes>, n: Node)
    ensures AllReached(parts, n, Preorder(parts, n))
    decreases n, 1, 0
  {
    ReachedItself(parts, n);
    if n.Dir? { ChildrenAreReached(parts, n, InOrder(n.children.Keys)); }
    ReachedInFront(parts, n, Entry(parts, n), if n.Dir? then Under(parts, n, InOrder(n.children.Keys)) else []);
  }

  lemma ReachedInFront(parts: seq<Bytes>, n: Node, e: Entry, rest: seq<Entry>)
    requires Reached(parts, n, e) && AllReached(parts, n, rest)
    ensures AllReached(parts, n, [e] + rest)
  {
    var all := [e] + rest;
    forall k | 0 <= k < |all| ensures Reached(parts, n, all[k]) { if k > 0 { assert all[k] == rest[k - 1]; } }
  }

  lemma ReachedItself(parts: seq<Bytes>, n: Node)
    ensures Reached(parts, n, Entry(parts, n))
  {
    assert parts[..|parts|] == parts && parts[|parts|..] == [];
  }

  predicate HasBranch(parts: seq<Bytes>, names: seq<Bytes>, e: Entry) {
    |e.parts| > |parts| && Listed(names, e.parts[|parts|])
  }

  lemma {:induction false} ChildrenAreReached(parts: seq<Bytes>, n: Node, names: seq<Bytes>)
    requires n.Dir?
    ensures AllReached(parts, n, Under(parts, n, names))
    ensures forall k :: 0 <= k < |Under(parts, n, names)| ==> HasBranch(parts, names, Under(parts, n, names)[k])
    decreases n, 0, |names|
  {
    if names != [] {
      var init, last := names[..|names| - 1], names[|names| - 1];
      ChildrenAreReached(parts, n, init);
      var es := Under(parts, n, names);
      if last in n.children { EntriesAreReached(parts + [last], n.children[last]); }
      forall k | 0 <= k < |es| ensures Reached(parts, n, es[k]) && HasBranch(parts, names, es[k]) {
        if k < |Under(parts, n, init)| {
          StillListed(names, es[k].parts[|parts|]);
        } else {
          ReachedFromAbove(parts, n, last, es[k]);
        }
      }
    }
  }

  lemma StillListed(names: seq<Bytes>, x: Bytes)
    requires names != [] && Listed(names[..|names| - 1], x)
    ensures Listed(names, x)
  {
    var i :| 0 <= i < |names| - 1 && names[..|names| - 1][i] == x;
    assert names[i] == x;
  }

  predicate Holds(es: seq<Entry>, e: Entry) { exists k :: 0 <= k < |es| && es[k] == e }

  lemma HoldsConcat(a: seq<Entry>, b: seq<Entry>, e: Entry)
    requires Holds(a, e) || Holds(b, e)
    ensures Holds(a + b, e)
  {
    if k :| 0 <= k < |a| && a[k] == e { assert (a + b)[k] == e; }
    if k :| 0 <= k < |b| && b[k] == e { assert (a + b)[|a| + k] == e; }
  }

  lemma {:induction false} ReachedIsListed(parts: seq<Bytes>, n: Node, e: Entry)
    requires Reached(parts, n, e)
    ensures Holds(Preorder(parts, n), e)
    decreases n
  {
    var rest := e.parts[|parts|..];
    if rest == [] {
      assert e.parts == parts;
      assert Preorder(parts, n)[0] == e;
    } else {
      var name := rest[0];
      var names := InOrder(n.children.Keys);
      assert e.parts[..|parts| + 1] == parts + [name];
      assert e.parts[|parts| + 1..] == rest[1..];
      ReachedIsListed(parts + [name], n.children[name], e);
      assert Listed(names, name);
      var i :| 0 <= i < |names| && names[i] == name;
      ChildIsUnder(parts, n, names, i, e);
      HoldsConcat([Entry(parts, n)], Under(parts, n, names), e);
    }
  }

  lemma {:induction false} ChildIsUnder(parts: seq<Bytes>, n: Node, names: seq<Bytes>, i: nat, e: Entry)
    requires n.Dir? && i < |names| && names[i] in n.children
    requires Holds(Preorder(parts + [names[i]], n.children[names[i]]), e)
    ensures Holds(Under(parts, n, names), e)
    decreases |names|
  {
    var init, last := names[..|names| - 1], names[|names| - 1];
    if i < |names| - 1 { ChildIsUnder(parts, n, init, i, e); }
    HoldsConcat(Under(parts, n, init), if last in n.children then Preorder(parts + [last], n.children[last]) else [], e);
  }

  /** Component by component, a directory before what lies in it. */
  predicate PartsLess(a: seq<Bytes>, b: seq<Bytes>) {
    b != [] && (a == [] || Less(a[0], b[0]) || (a[0] == b[0] && PartsLess(a[1..], b[1..])))
  }

  lemma {:induction false} PartsNotBelowThemselves(a: seq<Bytes>)
    ensures !PartsLess(a, a)
  {
    if a != [] {
      NothingBelowItself(a[0]);
      PartsNotBelowThemselves(a[1..]);
    }
  }

  lemma {:induction false} PrefixIsLess(a: seq<Bytes>, b: seq<Bytes>)
    requires StartsWithParts(b, a) && |a| < |b|
    ensures PartsLess(a, b)
  {
    if a != [] {
      assert b[0] == b[..|a|][0] && b[1..][..|a| - 1] == b[..|a|][1..];
      PrefixIsLess(a[1..], b[1..]);
    }
  }

  lemma {:induction false} BranchIsLess(common: seq<Bytes>, a: seq<Bytes>, b: seq<Bytes>)
    requires StartsWithParts(a, common) && StartsWithParts(b, common) && |common| < |a| && |common| < |b|
    requires Less(a[|common|], b[|common|])
    ensures PartsLess(a, b)
  {
    if common != [] {
      assert a[0] == a[..|common|][0] && b[0] == b[..|common|][0];
      assert a[1..][..|common| - 1] == a[..|common|][1..] && b[1..][..|common| - 1] == b[..|common|][1..];
      BranchIsLess(common[1..], a[1..], b[1..]);
    }
  }

  predicate Ordered(es: seq<Entry>) { forall i, j :: 0 <= i < j < |es| ==> PartsLess(es[i].parts, es[j].parts) }

  lemma {:induction false} EntriesAreOrdered(parts: seq<Bytes>, n: Node)
    ensures Ordered(Preorder(parts, n))
    decreases n, 1, 0
  {
    if n.Dir? {
      var names := InOrder(n.children.Keys);
      ChildrenAreOrdered(parts, n, names);
      ChildrenAreReached(parts, n, names);
      var es := Under(parts, n, names);
      forall j | 0 <= j < |es| ensures PartsLess(parts, es[j].parts) {
        assert HasBranch(parts, names, es[j]) && Reached(parts, n, es[j]);
        PrefixIsLess(parts, es[j].parts);
      }
    }
  }

  lemma {:induction false} ChildrenAreOrdered(parts: seq<Bytes>, n: Node, names: seq<Bytes>)
    requires n.Dir? && Ascending(names)
    ensures Ordered(Under(parts, n, names))
    decreases n, 0, |names|
  {
    if names != [] {
      var init, last := names[..|names| - 1], names[|names| - 1];
      ChildrenAreOrdered(parts, n, init);
      ChildrenAreReached(parts, n, init);
      if last in n.children {
        var a, b := Under(parts, n, init), Preorder(parts + [last], n.children[last]);
        EntriesAreOrdered(parts + [last], n.children[last]);
        EntriesAreReached(parts + [last], n.children[last]);
        forall i, j | 0 <= i < |a| && 0 <= j < |b| ensures PartsLess(a[i].parts, b[j].parts) {
          assert HasBranch(parts, init, a[i]) && Reached(parts, n, a[i]);
          ReachedFromAbove(parts, n, last, b[j]);
          var k :| 0 <= k < |init| && init[k] == a[i].parts[|parts|];
          assert Less(names[k], names[|names| - 1]);
          BranchIsLess(parts, a[i].parts, b[j].parts);
        }
      }
    }
  }

  /** The entries of a source tree. */
  ghost function EntriesOf(root: Node): seq<Entry> { Preorder([], root) }

  /** They are what can be reached from the root, each once, in component order: reading the
      directories in another order cannot change the archive. */
  lemma EntriesAreTheTree(root: Node)
    ensures Ordered(EntriesOf(root))
    ensures forall e :: Holds(EntriesOf(root), e) <==> Walk(root, e.parts) == Some(e.node)
  {
    EntriesAreOrdered([], root);
    EntriesAreReached([], root);
    forall e ensures Holds(EntriesOf(root), e) <==> Walk(root, e.parts) == Some(e.node) {
      assert e.parts[..0] == [] && e.parts[0..] == e.parts;
      if Walk(root, e.parts) == Some(e.node) { ReachedIsListed([], root, e); }
      if Holds(EntriesOf(root), e) { assert Reached([], root, e); }
    }
  }

  lemma EntryIsWalked(root: Node, k: nat)
    requires k < |EntriesOf(root)|
    ensures Walk(root, EntriesOf(root)[k].parts) == Some(EntriesOf(root)[k].node)
  {
    EntriesAreTheTree(root);
    assert Holds(EntriesOf(root), EntriesOf(root)[k]);
  }

  // ----- what the filter leaves -----

  /** Filter's three questions about a child: src/archive/archive.cpp:683-716. */
  datatype Filter = Filter(prunes: (Bytes, Node) -> bool, includes: (Bytes, Node) -> bool, skips: (Bytes, Node) -> bool)

  const NO_FILTER := Filter((_, _) => false, (_, _) => true, (_, _) => false)

  predicate Dropped(f: Filter, path: Bytes, n: Node) {
    match n
    case Dir(_, _) => f.prunes(path, n)
    case File(_, _, _) => !f.includes(path, n)
    case Special => f.skips(path, n)
  }

  /** The tree without what the filter drops; the root always stays. */
  function Selected(f: Filter, path: Bytes, n: Node): (r: Node)
    ensures r.Dir? <==> n.Dir?
    ensures r.Special? <==> n.Special?
    ensures !n.Special? ==> r.stat == n.stat
    decreases n
  {
    match n
    case File(_, _, _) => n
    case Special => n
    case Dir(stat, children) =>
      Dir(stat, map name | name in children && !Dropped(f, ChildPath(path, name), children[name])
                  :: Selected(f, ChildPath(path, name), children[name]))
  }

  lemma {:induction false} SelectedFromDisk(f: Filter, path: Bytes, n: Node)
    requires FromDisk(n)
    ensures FromDisk(Selected(f, path, n))
    decreases n
  {
    if n.Dir? {
      forall name | name in Selected(f, path, n).children ensures FromDisk(Selected(f, path, n).children[name]) {
        SelectedFromDisk(f, ChildPath(path, name), n.children[name]);
      }
    }
  }

  lemma {:induction false} NoFilterDropsNothing(path: Bytes, n: Node)
    ensures Selected(NO_FILTER, path, n) == n
    decreases n
  {
    if n.Dir? {
      forall name | name in n.children ensures Selected(NO_FILTER, path, n).children[name] == n.children[name] {
        NoFilterDropsNothing(ChildPath(path, name), n.children[name]);
      }
    }
  }

  /** The length of a child's path is looked at before the filter is asked. */
  ghost predicate PathsFit(f: Filter, path: Bytes, n: Node)
    decreases n, 1
  {
    n.Dir? ==> forall name :: name in n.children ==> ChildFits(f, path, n, name)
  }

  ghost predicate ChildFits(f: Filter, path: Bytes, n: Node, name: Bytes)
    requires n.Dir? && name in n.children
    decreases n, 0
  {
    var childPath := ChildPath(path, name);
    |childPath| <= MAX_PATH_LENGTH && (!Dropped(f, childPath, n.children[name]) ==> PathsFit(f, childPath, n.children[name]))
  }

  /** The names of the list that the tree still has. */
  function Remaining(names: seq<Bytes>, children: map<Bytes, Node>): seq<Bytes> {
    if names == [] then []
    else Remaining(names[..|names| - 1], children) + if names[|names| - 1] in children then [names[|names| - 1]] else []
  }

  lemma {:induction false} RemainingLists(names: seq<Bytes>, children: map<Bytes, Node>, x: Bytes)
    ensures Listed(Remaining(names, children), x) <==> Listed(names, x) && x in children
  {
    if names != [] {
      var init, last := names[..|names| - 1], names[|names| - 1];
      RemainingLists(init, children, x);
      ListedAtEnd(init, last, x);
      assert names == init + [last];
      if last in children {
        ListedAtEnd(Remaining(init, children), last, x);
      } else {
        assert Remaining(init, children) + [] == Remaining(init, children);
      }
    }
  }

  lemma ListedAtEnd(init: seq<Bytes>, last: Bytes, x: Bytes)
    ensures Listed(init + [last], x) <==> Listed(init, x) || x == last
  {
    var all := init + [last];
    if i :| 0 <= i < |init| && init[i] == x { assert all[i] == x; }
    if i :| 0 <= i < |all| && all[i] == x { if i < |init| { assert init[i] == x; } }
    assert all[|init|] == last;
  }

  lemma {:induction false} RemainingAscends(names: seq<Bytes>, children: map<Bytes, Node>)
    requires Ascending(names)
    ensures Ascending(Remaining(names, children))
  {
    if names != [] {
      var init, last := names[..|names| - 1], names[|names| - 1];
      RemainingAscends(init, children);
      var r := Remaining(init, children);
      forall i | 0 <= i < |r| ensures Less(r[i], last) {
        RemainingLists(init, children, r[i]);
        assert Listed(r, r[i]);
        var k :| 0 <= k < |init| && init[k] == r[i];
        assert Less(names[k], names[|names| - 1]);
      }
    }
  }

  lemma {:induction false} UnderRemaining(parts: seq<Bytes>, n: Node, names: seq<Bytes>)
    requires n.Dir?
    ensures Under(parts, n, Remaining(names, n.children)) == Under(parts, n, names)
  {
    if names != [] {
      var init, last := names[..|names| - 1], names[|names| - 1];
      UnderRemaining(parts, n, init);
      var r := Remaining(init, n.children);
      if last in n.children { assert (r + [last])[..|r|] == r; } else { assert r + [] == r; }
    }
  }

  /** Walking all names of the directory and passing over those that are gone lists the same entries. */
  lemma UnderMore(parts: seq<Bytes>, n: Node, s: set<Bytes>)
    requires n.Dir? && n.children.Keys <= s
    ensures Under(parts, n, InOrder(s)) == Under(parts, n, InOrder(n.children.Keys))
  {
    var names := InOrder(s);
    var r := Remaining(names, n.children);
    UnderRemaining(parts, n, names);
    RemainingAscends(names, n.children);
    forall x | x in n.children.Keys ensures Listed(r, x) { RemainingLists(names, n.children, x); }
    forall i | 0 <= i < |r| ensures r[i] in n.children.Keys {
      assert Listed(r, r[i]);
      RemainingLists(names, n.children, r[i]);
    }
    OneOrder(r, InOrder(n.children.Keys), n.children.Keys);
  }
}
