/** Reading a ustar archive: Scan, src/archive/ustar.cpp:1575-1835. Reads of the file succeed. */
module UstarScan {
  import opened Common
  import opened Entries
  import opened Layout
  import opened ArchivePath
  import opened UstarPath
  import opened UstarHeader
  import opened HardLinks
  import opened OrderedPaths

  const MAX_MEMBERS: nat := 1_000_000

  function RoundUp(size: nat): (r: nat)
    ensures size <= r < size + BLOCK && r % BLOCK == 0
  {
    var blocks := (size + BLOCK - 1) / BLOCK;
    assert size + BLOCK - 1 == blocks * BLOCK + (size + BLOCK - 1) % BLOCK;
    blocks * BLOCK
  }

  predicate ZeroFrom(file: Bytes, offset: nat) { forall k :: offset <= k < |file| ==> file[k] == 0 }

  predicate ZeroBlock(file: Bytes, offset: nat)
    requires offset + BLOCK <= |file|
  {
    forall k :: offset <= k < offset + BLOCK ==> file[k] == 0
  }

  // ----- what the block chain says -----

  function TargetOf(h: Header, kind: EntryType): Option<Bytes> {
    if kind == HardLink then Normalize(h.linkname) else if kind == Symlink then Some(h.linkname) else Some([])
  }

  /** The member a decoded header at `offset` describes, if its path and link target are acceptable. */
  function MemberOf(h: Header, offset: nat): Option<Member> {
    var kind := TypeFromFlag(h.typeflag);
    var raw := Joined(SplitName(h.prefix, h.name));
    var path := Normalize(raw);
    if kind.None? || path.None? then None
    else if |raw| > 1 && raw[|raw| - 1] == SLASH && kind.value != Directory then None
    else
      match TargetOf(h, kind.value)
      case None => None
      case Some(target) =>
        var size := if kind.value == RegularFile then h.size else 0;
        Some(Member(ArchiveEntry(path.value, kind.value, h.mode, h.uid, h.gid, h.mtime, 0, size, target,
                                 h.devmajor, h.devminor, h.uname, h.gname), offset + BLOCK, size))
  }

  predicate InBounds(m: Member, fileSize: nat) {
    && m.dataOffset % BLOCK == 0 && m.dataOffset <= fileSize
    && m.dataSize <= fileSize - m.dataOffset && RoundUp(m.dataSize) <= fileSize - m.dataOffset
  }

  function MemberAt(file: Bytes, offset: nat): (r: Option<Member>)
    requires offset + BLOCK <= |file|
    ensures r.Some? ==> r.value.dataOffset == offset + BLOCK && InBounds(r.value, |file|)
  {
    match Decode(file[offset..offset + BLOCK])
    case None => None
    case Some(h) =>
      var m := MemberOf(h, offset);
      if m.Some? && InBounds(m.value, |file|) then m else None
  }

  function After(m: Member): nat { m.dataOffset + RoundUp(m.dataSize) }

  /** The members from `offset` to the end marker when `count` members came before. */
  function Members(file: Bytes, offset: nat, count: nat): Option<seq<Member>>
    decreases |file| - offset
  {
    if count >= MAX_MEMBERS || offset >= |file| || |file| - offset < BLOCK then None
    else if ZeroBlock(file, offset) then
      if |file| - offset >= 2 * BLOCK && ZeroFrom(file, offset) then Some([]) else None
    else
      match MemberAt(file, offset)
      case None => None
      case Some(m) => Follows([m], Members(file, After(m), count + 1))
  }

  // ----- what Scan demands of the members together -----

  predicate Distinct(ms: seq<Member>) {
    forall i, j :: 0 <= i < j < |ms| ==> ms[i].entry.path != ms[j].entry.path
  }

  predicate Conflict(a: Member, b: Member) {
    a.entry.kind != Directory && Below(a.entry.path, b.entry.path)
  }

  /** No path lies below the path of something that is not a directory. */
  predicate Compatible(ms: seq<Member>) {
    forall i, j :: 0 <= i < |ms| && 0 <= j < |ms| ==> !Conflict(ms[i], ms[j])
  }

  function IndexOf(ms: seq<Member>): (index: map<Bytes, nat>)
    ensures forall p :: p in index ==> index[p] < |ms| && ms[index[p]].entry.path == p
    ensures forall i :: 0 <= i < |ms| ==> ms[i].entry.path in index
  {
    if ms == [] then map[]
    else IndexOf(ms[..|ms| - 1])[ms[|ms| - 1].entry.path := |ms| - 1]
  }

  ghost predicate Sound(ms: seq<Member>) {
    Distinct(ms) && Compatible(ms) && AllLinksResolve(ms, IndexOf(ms))
  }

  /** The members of an acceptable archive. */
  ghost function Scanned(file: Bytes): Option<seq<Member>> {
    match Members(file, 0, 0)
    case None => None
    case Some(ms) => if Sound(ms) then Some(ms) else None
  }

  /** Member `j` is no directory although `path` lies below it. */
  predicate BlocksWay(members: seq<Member>, j: nat, path: Bytes) {
    j < |members| && members[j].entry.kind != Directory && Below(members[j].entry.path, path)
  }

  method AncestorIsNoDirectory(path: Bytes, members: seq<Member>, index: map<Bytes, nat>) returns (found: bool)
    requires index == IndexOf(members) && Distinct(members)
    ensures found <==> exists j: nat :: BlocksWay(members, j, path)
  {
    for i := 0 to |path|
      invariant forall j: nat :: BlocksWay(members, j, path) ==> |members[j].entry.path| >= i
    {
      if path[i] == SLASH {
        var parent := path[..i];
        if parent in index && members[index[parent]].entry.kind != Directory {
          assert BlocksWay(members, index[parent], path);
          return true;
        }
        OnlyTheParent(path, i, members, index);
      }
    }
    return false;
  }

  lemma OnlyTheParent(path: Bytes, i: nat, members: seq<Member>, index: map<Bytes, nat>)
    requires i < |path| && index == IndexOf(members) && Distinct(members)
    requires path[..i] in index ==> members[index[path[..i]]].entry.kind == Directory
    ensures forall j: nat :: BlocksWay(members, j, path) ==> |members[j].entry.path| != i
  {
    forall j: nat | BlocksWay(members, j, path) ensures |members[j].entry.path| != i {
      assert index[members[j].entry.path] == j;
    }
  }

  // ----- the scan -----

  lemma SoundPrefix(ms: seq<Member>, rest: seq<Member>)
    requires Distinct(ms + rest) && Compatible(ms + rest)
    ensures Distinct(ms) && Compatible(ms)
  {
    forall i | 0 <= i < |ms| ensures ms[i] == (ms + rest)[i] {}
  }

  lemma OneMore(ms: seq<Member>, m: Member)
    requires Distinct(ms) && Compatible(ms)
    ensures Distinct(ms + [m]) <==> forall i :: 0 <= i < |ms| ==> ms[i].entry.path != m.entry.path
    ensures Compatible(ms + [m]) <==> forall i :: 0 <= i < |ms| ==> !Conflict(ms[i], m) && !Conflict(m, ms[i])
  {
    var all := ms + [m];
    assert all[|ms|] == m && forall i :: 0 <= i < |ms| ==> all[i] == ms[i];
  }

  method CheckTrailingZeros(file: Bytes, offset: nat) returns (ok: bool)
    ensures ok <==> ZeroFrom(file, offset)
  {
    var position := offset;
    while position < |file|
      invariant offset <= position && forall k :: offset <= k < position && k < |file| ==> file[k] == 0
    {
      var want := if |file| - position < 65536 then |file| - position else 65536;
      for i := 0 to want
        invariant forall k :: offset <= k < position + i ==> file[k] == 0
      {
        if file[position + i] != 0 { return false; }
      }
      position := position + want;
    }
    return true;
  }

  /** Decoding one header block and turning it into a member. */
  method ReadMember(file: Bytes, offset: nat) returns (m: Option<Member>)
    requires offset + BLOCK <= |file|
    ensures m == MemberAt(file, offset)
  {
    var block := new byte[BLOCK](i requires 0 <= i < BLOCK => file[offset + i]);
    assert block[..] == file[offset..offset + BLOCK];
    var header := DecodeHeader(block);
    if header.None? { return None; }
    m := BuildMember(header.value, offset);
    if m.Some? && !InBounds(m.value, |file|) { return None; }
  }

  method BuildMember(h: Header, offset: nat) returns (m: Option<Member>)
    ensures m == MemberOf(h, offset)
  {
    var kind := TypeFromFlag(h.typeflag);
    if kind.None? { return None; }
    var raw := if h.prefix == [] then h.name else h.prefix + [SLASH] + h.name;
    var path := NormalizeMemberPath(raw);
    if path.None? { return None; }
    if |raw| > 1 && raw[|raw| - 1] == SLASH && kind.value != Directory { return None; }
    var target: Bytes := [];
    if kind.value == HardLink {
      var normalized := NormalizeMemberPath(h.linkname);
      if normalized.None? { return None; }
      target := normalized.value;
    } else if kind.value == Symlink {
      target := h.linkname;
    }
    var size := if kind.value == RegularFile then h.size else 0;
    return Some(Member(ArchiveEntry(path.value, kind.value, h.mode, h.uid, h.gid, h.mtime, 0, size, target,
                                    h.devmajor, h.devminor, h.uname, h.gname), offset + BLOCK, size));
  }

  method Clashes(m: Member, members: seq<Member>, index: map<Bytes, nat>) returns (clash: bool)
    requires index == IndexOf(members) && Distinct(members) && Compatible(members)
    ensures clash <==> !(Distinct(members + [m]) && Compatible(members + [m]))
  {
    OneMore(members, m);
    NotBelowItself(m.entry.path);
    if m.entry.path in index { return true; }
    clash := AncestorIsNoDirectory(m.entry.path, members, index);
    if clash {
      ghost var j: nat :| BlocksWay(members, j, m.entry.path);
      assert Conflict(members[j], m);
      return true;
    }
    forall i | 0 <= i < |members| ensures !Conflict(members[i], m) {
      assert !BlocksWay(members, i, m.entry.path);
    }
    if m.entry.kind != Directory {
      clash := AnythingBelow(index.Keys, m.entry.path);
      if clash {
        ghost var k :| k in index.Keys && Below(m.entry.path, k);
        assert Conflict(m, members[index[k]]);
      } else {
        forall i | 0 <= i < |members| ensures !Conflict(m, members[i]) { assert members[i].entry.path in index.Keys; }
      }
    }
    assert !clash ==> forall i :: 0 <= i < |members| ==> !Conflict(m, members[i]);
  }

  lemma NotBelowItself(p: Bytes)
    ensures !Below(p, p)
  {}

  /** The loop invariant of Scan: what is still to be read completes what was read. */
  predicate Continues(file: Bytes, members: seq<Member>, offset: nat) {
    Members(file, 0, 0) == Follows(members, Members(file, offset, |members|))
  }

  lemma Advance(file: Bytes, members: seq<Member>, offset: nat, m: Member)
    requires Continues(file, members, offset) && |members| < MAX_MEMBERS
    requires offset + BLOCK <= |file| && !ZeroBlock(file, offset) && MemberAt(file, offset) == Some(m)
    ensures Continues(file, members + [m], After(m))
  {
    FollowsOneMore(members, m, Members(file, After(m), |members| + 1));
  }

  /** A member that clashes with an earlier one spoils every continuation. */
  lemma Spoiled(file: Bytes, ms: seq<Member>, m: Member)
    requires Continues(file, ms + [m], After(m))
    requires !Distinct(ms + [m]) || !Compatible(ms + [m])
    ensures Scanned(file).None?
  {
    var rest := Members(file, After(m), |ms| + 1);
    if rest.Some? && Distinct(ms + [m] + rest.value) && Compatible(ms + [m] + rest.value) {
      SoundPrefix(ms + [m], rest.value);
    }
  }

  /** Where the chain of blocks breaks off. */
  predicate Broken(file: Bytes, offset: nat, count: nat) {
    || count >= MAX_MEMBERS || offset >= |file| || |file| - offset < BLOCK
    || (ZeroBlock(file, offset) && !EndMarker(file, offset))
    || (!ZeroBlock(file, offset) && MemberAt(file, offset).None?)
  }

  predicate EndMarker(file: Bytes, offset: nat) { offset + 2 * BLOCK <= |file| && ZeroFrom(file, offset) }

  lemma Refused(file: Bytes, members: seq<Member>, offset: nat)
    requires Continues(file, members, offset) && Broken(file, offset, |members|)
    ensures Scanned(file).None?
  {}

  lemma Finished(file: Bytes, members: seq<Member>, offset: nat)
    requires Continues(file, members, offset) && |members| < MAX_MEMBERS && EndMarker(file, offset)
    requires Distinct(members) && Compatible(members)
    ensures Scanned(file) == if AllLinksResolve(members, IndexOf(members)) then Some(members) else None
  {
    assert members + [] == members;
  }

  method AtEndMarker(file: Bytes, offset: nat) returns (ok: bool)
    requires offset + BLOCK <= |file| && ZeroBlock(file, offset)
    ensures ok <==> EndMarker(file, offset)
  {
    if |file| - offset < 2 * BLOCK { return false; }
    if !ZeroBlock(file, offset + BLOCK) { return false; }
    ok := CheckTrailingZeros(file, offset + 2 * BLOCK);
  }

  method Scan(file: Bytes) returns (r: Option<seq<Member>>)
    ensures r == Scanned(file)
  {
    var members: seq<Member> := [];
    var index: map<Bytes, nat> := map[];
    var offset := 0;
    FollowsNothing(Members(file, 0, 0));
    while true
      invariant index == IndexOf(members) && Distinct(members) && Compatible(members)
      invariant Continues(file, members, offset)
      decreases |file| - offset
    {
      if |members| >= MAX_MEMBERS || offset >= |file| || |file| - offset < BLOCK {
        Refused(file, members, offset);
        return None;
      }
      if ZeroBlock(file, offset) {
        var clean := AtEndMarker(file, offset);
        if !clean {
          Refused(file, members, offset);
          return None;
        }
        break;
      }
      var read := ReadMember(file, offset);
      if read.None? {
        Refused(file, members, offset);
        return None;
      }
      var m := read.value;
      Advance(file, members, offset, m);
      var clash := Clashes(m, members, index);
      if clash {
        Spoiled(file, members, m);
        return None;
      }
      IndexGrows(members, m);
      members, index, offset := members + [m], index[m.entry.path := |members|], After(m);
    }
    Finished(file, members, offset);
    var resolved := ResolveHardLinks(members, index);
    return if resolved then Some(members) else None;
  }

  lemma IndexGrows(ms: seq<Member>, m: Member)
    ensures IndexOf(ms + [m]) == IndexOf(ms)[m.entry.path := |ms|]
  {
    assert (ms + [m])[..|ms|] == ms;
  }
}
