/** src/archive/archive_path.cpp: the path grammar of the archive formats and the registry that keeps
    the paths of one archive consistent. */
module ArchivePath {
  import opened Common
  import opened Entries

  const ROOT: Bytes := [DOT]
  const MAX_ARCHIVE_PATH_LENGTH: nat := 4096
  const BACKSLASH: byte := 92
  const COLON: byte := 58

  // ----- components -----

  /** The parts between slashes, in order; there is always at least one. */
  function Components(p: Bytes): (r: seq<Bytes>)
    ensures |r| >= 1
  {
    if p == [] then [[]]
    else
      var rest := Components(p[1..]);
      if p[0] == SLASH then [[]] + rest else [[p[0]] + rest[0]] + rest[1..]
  }

  function Join(parts: seq<Bytes>): Bytes
    requires |parts| >= 1
  {
    if |parts| == 1 then parts[0] else parts[0] + [SLASH] + Join(parts[1..])
  }

  lemma {:induction false} JoinComponents(p: Bytes)
    ensures Join(Components(p)) == p
  {
    if p != [] {
      var rest := Components(p[1..]);
      JoinComponents(p[1..]);
      if p[0] == SLASH {
        assert ([[]] + rest)[1..] == rest;
        assert p == [] + [SLASH] + p[1..];
      } else {
        assert ([[p[0]] + rest[0]] + rest[1..])[1..] == rest[1..];
        assert p == [p[0]] + p[1..];
      }
    }
  }

  lemma {:induction false} OnePart(p: Bytes)
    requires forall k :: 0 <= k < |p| ==> p[k] != SLASH
    ensures Components(p) == [p]
  {
    if p != [] {
      OnePart(p[1..]);
      assert p == [p[0]] + p[1..];
    }
  }

  lemma {:induction false} ComponentsConcat(a: Bytes, b: Bytes)
    ensures Components(a + [SLASH] + b) == Components(a) + Components(b)
  {
    var p := a + [SLASH] + b;
    if a == [] {
      assert p[1..] == b;
    } else {
      ComponentsConcat(a[1..], b);
      assert p[1..] == a[1..] + [SLASH] + b;
      var rest := Components(a[1..]);
      if a[0] == SLASH {
        assert [[]] + (rest + Components(b)) == [[]] + rest + Components(b);
      } else {
        LetterInFront(a[0], rest, Components(b));
      }
    }
  }

  lemma LetterInFront(c: byte, rest: seq<Bytes>, more: seq<Bytes>)
    requires |rest| >= 1
    ensures [[c] + (rest + more)[0]] + (rest + more)[1..] == [[c] + rest[0]] + rest[1..] + more
  {
    assert (rest + more)[1..] == rest[1..] + more;
  }

  lemma ComponentsSplit(p: Bytes, i: nat)
    requires i < |p| && p[i] == SLASH
    ensures Components(p) == Components(p[..i]) + Components(p[i + 1..])
  {
    AroundByte(p, i);
    ComponentsConcat(p[..i], p[i + 1..]);
  }

  lemma AroundByte(p: Bytes, i: nat)
    requires i < |p|
    ensures p[..i] + [p[i]] + p[i + 1..] == p
  {}

  /** `a` names a directory on the way to `p`. */
  predicate Below(a: Bytes, p: Bytes) {
    |a| < |p| && p[..|a|] == a && p[|a|] == SLASH
  }

  /** On bytes and on components, "lies below" is the same relation. */
  lemma BelowIsComponentPrefix(a: Bytes, p: Bytes)
    ensures Below(a, p) <==> |Components(a)| < |Components(p)| && Components(p)[..|Components(a)|] == Components(a)
  {
    var n := |Components(a)|;
    if Below(a, p) {
      assert p == a + [SLASH] + p[|a| + 1..];
      ComponentsConcat(a, p[|a| + 1..]);
    }
    if n < |Components(p)| && Components(p)[..n] == Components(a) {
      JoinComponents(a);
      JoinComponents(p);
      JoinSplits(Components(p), n);
    }
  }

  lemma {:induction false} JoinSplits(parts: seq<Bytes>, n: nat)
    requires 0 < n < |parts|
    ensures Join(parts) == Join(parts[..n]) + [SLASH] + Join(parts[n..])
  {
    if n > 1 {
      JoinSplits(parts[1..], n - 1);
      assert parts[1..][..n - 1] == parts[..n][1..] && parts[1..][n - 1..] == parts[n..];
    } else {
      assert parts[..1] == [parts[0]];
    }
  }

  // ----- the grammar -----

  /** Neither empty nor "." nor "..". */
  predicate Plain(c: Bytes) {
    |c| > 0 && !(|c| == 1 && c[0] == DOT) && !(|c| == 2 && c[0] == DOT && c[1] == DOT)
  }

  predicate AllPlain(parts: seq<Bytes>) { parts == [] || (Plain(parts[0]) && AllPlain(parts[1..])) }

  predicate IsAlpha(b: byte) { 65 <= b <= 90 || 97 <= b <= 122 }

  /** The paths an archive may contain. */
  predicate ValidArchivePath(p: Bytes, firstEntry: bool, directory: bool, maxLength: nat) {
    && p != [] && |p| <= maxLength && 0 !in p && BACKSLASH !in p
    && !(|p| >= 2 && p[1] == COLON && IsAlpha(p[0]))
    && if p == ROOT then firstEntry && directory else AllPlain(Components(p))
  }

  method IsValidArchivePath(p: Bytes, firstEntry: bool, directory: bool, maxLength: nat) returns (ok: bool)
    ensures ok <==> ValidArchivePath(p, firstEntry, directory, maxLength)
  {
    if p == [] || |p| > maxLength || 0 in p { return false; }
    if p[0] == SLASH {
      SlashMakesEmptyComponent(p);
      return false;
    }
    if p[|p| - 1] == SLASH {
      SlashMakesEmptyComponent(p);
      return false;
    }
    if BACKSLASH in p { return false; }
    if |p| >= 2 && p[1] == COLON && IsAlpha(p[0]) { return false; }
    if p == ROOT { return firstEntry && directory; }
    ok := ComponentsArePlain(p);
  }

  /** An absolute path or one with a trailing slash has an empty component. */
  lemma SlashMakesEmptyComponent(p: Bytes)
    requires p != [] && (p[0] == SLASH || p[|p| - 1] == SLASH)
    ensures !AllPlain(Components(p)) && p != ROOT
  {
    var i := if p[0] == SLASH then 0 else |p| - 1;
    ComponentsSplit(p, i);
    PlainConcat(Components(p[..i]), Components(p[i + 1..]));
    NothingIsNotPlain();
    assert p[..i] == [] || p[i + 1..] == [];
  }

  lemma NothingIsNotPlain()
    ensures !AllPlain(Components([]))
  {
    OnePart([]);
    PlainSingle([]);
  }

  lemma {:induction false} PlainConcat(a: seq<Bytes>, b: seq<Bytes>)
    ensures AllPlain(a + b) <==> AllPlain(a) && AllPlain(b)
  {
    if a == [] {
      assert a + b == b;
    } else {
      PlainConcat(a[1..], b);
      assert (a + b)[1..] == a[1..] + b;
    }
  }

  lemma PlainSingle(c: Bytes)
    ensures AllPlain([c]) <==> Plain(c)
  {
    assert [c][1..] == [];
  }

  method ComponentsArePlain(p: Bytes) returns (ok: bool)
    ensures ok <==> AllPlain(Components(p))
  {
    ghost var verdict := AllPlain(Components(p));
    var start := 0;
    assert p[0..] == p;
    while true
      invariant 0 <= start <= |p|
      invariant verdict == AllPlain(Components(p[start..]))
      decreases |p| - start
    {
      var slash := FindSlash(p, start);
      NextComponent(p, start, slash);
      if !Plain(p[start..slash]) { return false; }
      if slash == |p| { return true; }
      start := slash + 1;
    }
  }

  /** std::string::find('/', start); |p| when there is none. */
  method FindSlash(p: Bytes, start: nat) returns (i: nat)
    requires start <= |p|
    ensures start <= i <= |p| && (i < |p| ==> p[i] == SLASH) && forall k :: start <= k < i ==> p[k] != SLASH
  {
    i := start;
    while i < |p| && p[i] != SLASH
      invariant start <= i <= |p| && forall k :: start <= k < i ==> p[k] != SLASH
    {
      i := i + 1;
    }
  }

  lemma NextComponent(p: Bytes, start: nat, slash: nat)
    requires start <= slash <= |p| && (slash < |p| ==> p[slash] == SLASH)
    requires forall k :: start <= k < slash ==> p[k] != SLASH
    ensures AllPlain(Components(p[start..]))
            <==> Plain(p[start..slash]) && (slash < |p| ==> AllPlain(Components(p[slash + 1..])))
  {
    var rest := p[start..];
    if slash == |p| {
      OnePart(rest);
      PlainSingle(rest);
    } else {
      assert rest[slash - start] == SLASH;
      assert rest[..slash - start] == p[start..slash] && rest[slash - start + 1..] == p[slash + 1..];
      HeadComponent(rest, slash - start);
    }
  }

  lemma HeadComponent(p: Bytes, i: nat)
    requires i < |p| && p[i] == SLASH && forall k :: 0 <= k < i ==> p[k] != SLASH
    ensures AllPlain(Components(p)) <==> Plain(p[..i]) && AllPlain(Components(p[i + 1..]))
  {
    ComponentsSplit(p, i);
    OnePart(p[..i]);
    PlainConcat([p[..i]], Components(p[i + 1..]));
    PlainSingle(p[..i]);
  }

  // ----- depth and parents -----

  function Depth(p: Bytes): nat {
    if p == [] || p == ROOT then 0 else |Components(p)|
  }

  method ArchivePathDepth(p: Bytes) returns (depth: nat)
    ensures depth == Depth(p)
  {
    if p == [] || p == ROOT { return 0; }
    depth := 1;
    for i := 0 to |p|
      invariant depth == |Components(p[..i])|
    {
      if p[i] == SLASH {
        assert p[..i + 1] == p[..i] + [SLASH] + [];
        ComponentsConcat(p[..i], []);
        depth := depth + 1;
      } else {
        OneMoreByte(p[..i], p[i]);
        assert p[..i + 1] == p[..i] + [p[i]];
      }
    }
    assert p[..|p|] == p;
  }

  lemma {:induction false} OneMoreByte(a: Bytes, b: byte)
    requires b != SLASH
    ensures |Components(a + [b])| == |Components(a)|
  {
    if a == [] {
      OnePart([b]);
    } else {
      OneMoreByte(a[1..], b);
      assert (a + [b])[1..] == a[1..] + [b];
    }
  }

  /** Position after the last '/' when searching below `end`; 0 when there is none. */
  function LastSlash(p: Bytes, end: nat): (i: Option<nat>)
    requires end <= |p|
    ensures i.Some? ==> i.value < end && p[i.value] == SLASH && forall k :: i.value < k < end ==> p[k] != SLASH
    ensures i.None? ==> forall k :: 0 <= k < end ==> p[k] != SLASH
  {
    if end == 0 then None else if p[end - 1] == SLASH then Some(end - 1) else LastSlash(p, end - 1)
  }

  function ParentOf(p: Bytes): (r: Bytes)
    ensures r == ROOT || |r| < |p|
  {
    match LastSlash(p, |p|)
    case None => ROOT
    case Some(i) => p[..i]
  }

  function Height(p: Bytes): nat { if p == ROOT then 0 else |p| + 1 }

  /** Every directory on the way from the root to `p`, the root included. */
  function Ancestors(p: Bytes): set<Bytes>
    decreases Height(p)
  {
    if p == ROOT then {} else {ParentOf(p)} + Ancestors(ParentOf(p))
  }

  /** For a path of the grammar these are the root and the paths it lies below. */
  lemma {:induction false} AncestorsAreTheWay(p: Bytes, a: Bytes)
    requires p != ROOT && AllPlain(Components(p))
    ensures a in Ancestors(p) <==> a == ROOT || Below(a, p)
    decreases Height(p)
  {
    match LastSlash(p, |p|)
    case None => assert Ancestors(ROOT) == {};
    case Some(i) =>
      ComponentsSplit(p, i);
      PlainConcat(Components(p[..i]), Components(p[i + 1..]));
      RootNotPlain(p[..i]);
      AncestorsAreTheWay(p[..i], a);
      BelowParent(p, i, a);
  }

  lemma BelowParent(p: Bytes, i: nat, a: Bytes)
    requires LastSlash(p, |p|) == Some(i)
    ensures Below(a, p) <==> a == p[..i] || Below(a, p[..i])
  {
    if Below(a, p) && |a| < i { assert p[..i][..|a|] == p[..|a|]; }
    if Below(a, p[..i]) { assert p[..i][..|a|] == p[..|a|]; }
  }

  lemma RootNotPlain(q: Bytes)
    requires AllPlain(Components(q))
    ensures q != ROOT && q != []
  {
    OnePart(ROOT);
    OnePart([]);
    PlainSingle(ROOT);
    PlainSingle([]);
  }

  lemma ParentIsShallower(p: Bytes)
    requires p != ROOT && AllPlain(Components(p))
    ensures Depth(p) == Depth(ParentOf(p)) + 1
    ensures ParentOf(p) == ROOT || AllPlain(Components(ParentOf(p)))
  {
    RootNotPlain(p);
    match LastSlash(p, |p|)
    case None => OnePart(p);
    case Some(i) =>
      var q, tail := p[..i], p[i + 1..];
      assert p == q + [SLASH] + tail;
      ComponentsConcat(q, tail);
      OnePart(tail);
      PlainConcat(Components(q), Components(tail));
      RootNotPlain(q);
  }

  // ----- the registry -----

  datatype Registered = Registered(all: set<Bytes>, directories: set<Bytes>)

  const NOTHING := Registered({}, {})

  datatype Added = Added(path: Bytes, directory: bool)

  function AddTo(strict: bool, r: Registered, e: Added): Option<Registered> {
    var parent := ParentOf(e.path);
    if e.path in r.all then None
    else if e.path != ROOT && strict && parent !in r.directories then None
    else if e.path != ROOT && !strict && parent in r.all && parent !in r.directories then None
    else Some(Registered(r.all + {e.path}, if e.directory then r.directories + {e.path} else r.directories))
  }

  predicate ChainsAreDirectories(r: Registered) {
    forall p :: p in r.all ==> forall a :: a in Ancestors(p) && a in r.all ==> a in r.directories
  }

  function AddAll(strict: bool, list: seq<Added>): Option<Registered> {
    if list == [] then Some(NOTHING)
    else
      match AddAll(strict, list[..|list| - 1])
      case None => None
      case Some(r) => AddTo(strict, r, list[|list| - 1])
  }

  lemma {:induction false} AddAllPrefix(strict: bool, list: seq<Added>, i: nat)
    requires i <= |list|
    ensures AddAll(strict, list).Some? ==> AddAll(strict, list[..i]).Some?
    decreases |list|
  {
    if i == |list| {
      assert list[..i] == list;
    } else {
      AddAllPrefix(strict, list[..|list| - 1], i);
      assert list[..|list| - 1][..i] == list[..i];
    }
  }

  /** Adding the whole list and finalizing succeeds. */
  predicate Accepts(strict: bool, list: seq<Added>) {
    var r := AddAll(strict, list);
    r.Some? && (strict || ChainsAreDirectories(r.value))
  }

  /** The order-free meaning of the lenient registry. */
  predicate Consistent(m: multiset<Added>) {
    && (forall e, f :: e in m && f in m && e.path == f.path ==> e == f)
    && (forall e :: e in m ==> m[e] == 1)
    && (forall e, f :: e in m && f in m && f.path in Ancestors(e.path) ==> f.directory)
  }

  ghost predicate Describes(r: Registered, list: seq<Added>) {
    && (forall p :: p in r.all <==> Added(p, true) in list || Added(p, false) in list)
    && (forall p :: p in r.directories <==> Added(p, true) in list)
    && (forall i, j :: 0 <= i < j < |list| ==> list[i].path != list[j].path)
  }

  lemma {:induction false} AddAllDescribes(strict: bool, list: seq<Added>)
    ensures AddAll(strict, list).Some? ==> Describes(AddAll(strict, list).value, list)
  {
    if list != [] {
      var init, last := list[..|list| - 1], list[|list| - 1];
      AddAllDescribes(strict, init);
      assert list == init + [last];
      if AddAll(strict, list).Some? {
        var before := AddAll(strict, init).value;
        forall i | 0 <= i < |init| ensures init[i].path != last.path {
          assert init[i] in init && (init[i] == Added(init[i].path, true) || init[i] == Added(init[i].path, false));
        }
      }
    }
  }

  lemma DescribedIsConsistent(r: Registered, list: seq<Added>)
    requires Describes(r, list)
    ensures Consistent(multiset(list)) <==> ChainsAreDirectories(r)
  {
    var m := multiset(list);
    forall e | e in m ensures m[e] == 1 { OnlyOnce(list, e); }
    forall e, f | e in m && f in m && e.path == f.path ensures e == f {
      var i :| 0 <= i < |list| && list[i] == e;
      var j :| 0 <= j < |list| && list[j] == f;
    }
    if ChainsAreDirectories(r) {
      forall e, f | e in m && f in m && f.path in Ancestors(e.path) ensures f.directory {
        InAll(r, list, e);
        InAll(r, list, f);
        assert Added(f.path, true) in m;
      }
    }
    if Consistent(m) {
      forall p, a | p in r.all && a in Ancestors(p) && a in r.all ensures a in r.directories {
        var e := if Added(p, true) in list then Added(p, true) else Added(p, false);
        var f := if Added(a, true) in list then Added(a, true) else Added(a, false);
        assert e in m && f in m;
      }
    }
  }

  lemma InAll(r: Registered, list: seq<Added>, e: Added)
    requires Describes(r, list) && e in list
    ensures e.path in r.all
  {
    assert e == Added(e.path, e.directory);
  }

  lemma {:induction false} OnlyOnce(list: seq<Added>, e: Added)
    requires e in list && forall i, j :: 0 <= i < j < |list| ==> list[i].path != list[j].path
    ensures multiset(list)[e] == 1
  {
    var init, last := list[..|list| - 1], list[|list| - 1];
    assert list == init + [last];
    if e in init {
      OnlyOnce(init, e);
      var i :| 0 <= i < |init| && init[i] == e;
    } else {
      assert multiset(init)[e] == 0;
    }
  }

  lemma PathUnused(r: Registered, init: seq<Added>, last: Added)
    requires Describes(r, init) && Consistent(multiset(init + [last]))
    ensures last.path !in r.all
  {
    var m := multiset(init + [last]);
    assert m == multiset(init) + multiset{last};
    assert last in m && multiset(init)[last] == 0;
    forall e | e in init ensures e.path != last.path { assert e in m; }
  }

  /** A lenient Add that is refused would have been refused by Finalize as well. */
  lemma {:induction false} ConsistentIsAdded(list: seq<Added>)
    requires Consistent(multiset(list))
    ensures AddAll(false, list).Some?
  {
    if list != [] {
      var init, last := list[..|list| - 1], list[|list| - 1];
      assert list == init + [last];
      assert multiset(list) == multiset(init) + multiset{last};
      forall e | e in multiset(init) ensures multiset(init)[e] == 1 { assert e in multiset(list); }
      ConsistentIsAdded(init);
      AddAllDescribes(false, init);
      var r := AddAll(false, init).value;
      var parent := ParentOf(last.path);
      PathUnused(r, init, last);
      if last.path != ROOT && parent in r.all {
        assert parent in Ancestors(last.path);
        var f := if Added(parent, true) in init then Added(parent, true) else Added(parent, false);
        assert f in multiset(list) && last in multiset(list);
      }
    }
  }

  /** Lenient Add plus Finalize accepts exactly the consistent collections, whatever their order. */
  lemma LenientAcceptsExactlyConsistent(list: seq<Added>)
    ensures Accepts(false, list) <==> Consistent(multiset(list))
  {
    AddAllDescribes(false, list);
    if Consistent(multiset(list)) { ConsistentIsAdded(list); }
    if AddAll(false, list).Some? { DescribedIsConsistent(AddAll(false, list).value, list); }
  }

  lemma LenientIgnoresOrder(list: seq<Added>, shuffled: seq<Added>)
    requires multiset(list) == multiset(shuffled)
    ensures Accepts(false, list) <==> Accepts(false, shuffled)
  {
    LenientAcceptsExactlyConsistent(list);
    LenientAcceptsExactlyConsistent(shuffled);
  }

  /** A strict registry holds, for every path, the whole chain of directories up to the root. */
  lemma {:induction false} StrictKeepsWholeChains(list: seq<Added>)
    requires AddAll(true, list).Some?
    ensures var r := AddAll(true, list).value;
            r.directories <= r.all && forall p :: p in r.all ==> Ancestors(p) <= r.directories
  {
    if list != [] {
      StrictKeepsWholeChains(list[..|list| - 1]);
      var before := AddAll(true, list[..|list| - 1]).value;
      var last := list[|list| - 1];
      if last.path != ROOT {
        assert Ancestors(last.path) == {ParentOf(last.path)} + Ancestors(ParentOf(last.path));
        assert ParentOf(last.path) in before.all;
      }
    }
  }

  lemma {:induction false} StrictImpliesLenientAdds(list: seq<Added>)
    requires AddAll(true, list).Some?
    ensures AddAll(false, list) == AddAll(true, list)
  {
    if list != [] { StrictImpliesLenientAdds(list[..|list| - 1]); }
  }

  lemma StrictImpliesLenient(list: seq<Added>)
    ensures Accepts(true, list) ==> Accepts(false, list)
  {
    if Accepts(true, list) {
      StrictImpliesLenientAdds(list);
      StrictKeepsWholeChains(list);
    }
  }

  class ArchivePathRegistry {
    const requireParentFirst: bool
    var all: set<Bytes>
    var directories: set<Bytes>

    ghost function Contents(): Registered reads this { Registered(all, directories) }

    constructor (requireParentFirst: bool)
      ensures Contents() == NOTHING && this.requireParentFirst == requireParentFirst
    {
      this.requireParentFirst := requireParentFirst;
      all, directories := {}, {};
    }

    method Add(path: Bytes, directory: bool) returns (ok: bool)
      modifies this
      ensures var after := AddTo(requireParentFirst, old(Contents()), Added(path, directory));
              ok == after.Some? && Contents() == if ok then after.value else old(Contents())
    {
      if path in all { return false; }
      if path != ROOT {
        var parent := ParentOf(path);
        var listed, isDirectory := parent in all, parent in directories;
        if requireParentFirst {
          if !isDirectory { return false; }
        } else if listed && !isDirectory {
          return false;
        }
      }
      all := all + {path};
      if directory { directories := directories + {path}; }
      return true;
    }

    method Finalize() returns (ok: bool)
      ensures ok <==> requireParentFirst || ChainsAreDirectories(Contents())
    {
      if requireParentFirst { return true; }
      var rest := all;
      while exists p :: p in rest
        invariant rest <= all
        invariant forall p, a :: p in all && p !in rest && a in Ancestors(p) && a in all ==> a in directories
        decreases rest
      {
        var path :| path in rest;
        rest := rest - {path};
        if path == ROOT { continue; }
        var parent := ParentOf(path);
        while true
          invariant forall a :: a in Ancestors(path) && a in all && a !in directories ==> a == parent || a in Ancestors(parent)
          invariant parent in Ancestors(path) && Ancestors(parent) <= Ancestors(path)
          decreases Height(parent)
        {
          if parent in all && parent !in directories { return false; }
          if parent == ROOT { break; }
          parent := ParentOf(parent);
        }
      }
      return true;
    }
  }
}
