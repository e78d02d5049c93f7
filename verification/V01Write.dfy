/**
 ArchiveWriter::Write, src/archive/archive.cpp:207-365, 441-535, 573-719 and
 1168-1265. Directories do not change while they are listed; writing to the archive succeeds.
*/
module V01Write {
  import opened Common
  import opened ByteOrder
  import opened Layout
  import opened ArchivePath
  import opened V01Format
  import opened V01Tree

  // ----- what the archive must be -----

  function ItemOf(e: Entry): Item {
    var path := PathOf(e.parts);
    match e.node
    case File(s, content, _) => Item(path, false, s.mode % (PERMISSION_MASK + 1), s.mtimeSec, s.mtimeNsec, content)
    case Dir(s, _) => Item(path, true, s.mode % (PERMISSION_MASK + 1), s.mtimeSec, s.mtimeNsec, [])
    case Special => Item(path, false, 0, 0, 0, [])
  }

  predicate Storable(e: Entry) {
    && !e.node.Special? && (e.node.File? ==> e.node.steady)
    && ValidArchivePath(PathOf(e.parts), e.parts == [], e.node.Dir?, MAX_PATH_LENGTH)
  }

  function StoredBytes(e: Entry): Option<Bytes> { if Storable(e) then EntryBytes(ItemOf(e)) else None }

  ghost function Stored(es: seq<Entry>): Option<Bytes> { Encode(StoredBytes, es) }

  /** The archive that holds a tree; None when the format cannot hold it. */
  ghost function ArchiveOf(root: Node): Option<Bytes> {
    match Stored(EntriesOf(root))
    case None => None
    case Some(body) => Some(GlobalHeader(|EntriesOf(root)|) + body)
  }

  /** What Write delivers: the archive of what the filter leaves. */
  ghost function Delivered(f: Filter, root: Node): Option<Bytes> {
    if root.Dir? && PathsFit(f, ROOT, root) then ArchiveOf(Selected(f, ROOT, root)) else None
  }

  // ----- the archive file -----

  class ArchiveOutput {
    var file: Bytes
    var offset: nat

    ghost predicate Valid() reads this { offset == |file| }

    constructor ()
      ensures Valid() && file == []
    {
      file, offset := [], 0;
    }

    /** pwrite in pieces of any size. */
    method Write(bytes: Bytes)
      requires Valid()
      modifies this
      ensures Valid() && file == old(file) + bytes
    {
      var done := 0;
      while done < |bytes|
        invariant done <= |bytes| && Valid() && file == old(file) + bytes[..done]
      {
        var n: nat :| 1 <= n <= |bytes| - done;
        file := file[..offset] + bytes[done..done + n];
        assert bytes[..done + n] == bytes[..done] + bytes[done..done + n];
        done, offset := done + n, offset + n;
      }
      assert bytes[..done] == bytes;
    }

    method PatchU64(position: nat, value: nat)
      requires position + 8 <= |file|
      modifies this`file
      ensures file == Overwritten(old(file), position, LittleEndian(value, 8))
    {
      var encoded := AppendLE([], value, 8);
      assert [] + LittleEndian(value, 8) == LittleEndian(value, 8);
      ghost var was := file;
      var done := 0;
      assert Overwritten(was, position, encoded[..0]) == was;
      while done < 8
        invariant done <= 8 && file == Overwritten(was, position, encoded[..done])
      {
        var n: nat :| 1 <= n <= 8 - done;
        OverwrittenFurther(was, position, encoded, done, n);
        file := Overwritten(file, position + done, encoded[done..done + n]);
        done := done + n;
      }
      assert encoded[..done] == encoded;
    }
  }

  function Overwritten(file: Bytes, at: nat, bytes: Bytes): (r: Bytes)
    requires at + |bytes| <= |file|
    ensures |r| == |file|
  {
    file[..at] + bytes + file[at + |bytes|..]
  }

  lemma OverwrittenFurther(was: Bytes, at: nat, bytes: Bytes, done: nat, n: nat)
    requires at + |bytes| <= |was| && done + n <= |bytes|
    ensures Overwritten(Overwritten(was, at, bytes[..done]), at + done, bytes[done..done + n])
            == Overwritten(was, at, bytes[..done + n])
  {
    var file := Overwritten(was, at, bytes[..done]);
    assert file[..at + done] == was[..at] + bytes[..done];
    assert file[at + done + n..] == was[at + done + n..];
    assert bytes[..done + n] == bytes[..done] + bytes[done..done + n];
  }

  // ----- entries -----

  method WriteGlobalHeader(out: ArchiveOutput)
    requires out.Valid()
    modifies out
    ensures out.Valid() && out.file == old(out.file) + GlobalHeader(0)
  {
    var header := AppendLE(MAGIC, VERSION, 2);
    header := AppendLE(header, FLAGS, 2);
    header := AppendLE(header, GLOBAL_HEADER, 4);
    header := AppendLE(header, 0, 8);
    out.Write(header);
  }

  method BuildEntryHeader(f: Fields) returns (header: Bytes)
    ensures header == EntryHeader(f)
  {
    header := [if f.directory then 1 else 2, 0];
    header := AppendLE(header, 0, 2);
    header := AppendLE(header, f.pathLength, 4);
    header := AppendLE(header, f.mode, 4);
    header := AppendLE(header, f.mtimeNsec, 4);
    header := AppendLE(header, ToUnsigned(f.mtimeSec), 8);
    header := AppendLE(header, f.payloadSize, 8);
  }

  method WriteEntryPrefix(out: ArchiveOutput, path: Bytes, n: Node, count: nat) returns (ok: bool)
    requires out.Valid() && !n.Special?
    modifies out
    ensures ok <==> ValidArchivePath(path, count == 0, n.Dir?, MAX_PATH_LENGTH)
    ensures ok ==> out.Valid() && out.file == old(out.file) + (EntryHeader(HeaderFields(path, n)) + path)
  {
    ok := IsValidArchivePath(path, count == 0, n.Dir?, MAX_PATH_LENGTH);
    if !ok { return; }
    var header := BuildEntryHeader(HeaderFields(path, n));
    ghost var before := out.file;
    out.Write(header);
    out.Write(path);
    Regrouped(before, header, path, []);
  }

  /** MetadataOf with the sizes. */
  function HeaderFields(path: Bytes, n: Node): Fields
    requires !n.Special?
  {
    Fields(n.Dir?, |path|, n.stat.mode % (PERMISSION_MASK + 1), n.stat.mtimeNsec, n.stat.mtimeSec, if n.Dir? then 0 else |n.content|)
  }

  /** The content in pieces of any size. */
  method WriteFilePayload(out: ArchiveOutput, content: Bytes)
    requires out.Valid()
    modifies out
    ensures out.Valid() && out.file == old(out.file) + content
  {
    var copied := 0;
    while copied < |content|
      invariant copied <= |content| && out.Valid() && out.file == old(out.file) + content[..copied]
    {
      var got: nat :| 1 <= got <= |content| - copied;
      out.Write(content[copied..copied + got]);
      assert content[..copied + got] == content[..copied] + content[copied..copied + got];
      copied := copied + got;
    }
    assert content[..copied] == content;
  }

  /** What a successful prefix and payload amount to. */
  lemma EntryIsStored(parts: seq<Bytes>, n: Node)
    requires FromDisk(n) && !n.Special?
    ensures
      var path := PathOf(parts);
      StoredBytes(Entry(parts, n))
      == if ValidArchivePath(path, parts == [], n.Dir?, MAX_PATH_LENGTH) && (n.File? ==> n.steady)
         then Some(EntryHeader(HeaderFields(path, n)) + path + if n.Dir? then [] else n.content)
         else None
  {
    var e := Entry(parts, n);
    assert FieldsOf(ItemOf(e)) == HeaderFields(PathOf(parts), n);
  }

  lemma StoredOne(e: Entry)
    ensures Stored([e]) == StoredBytes(e)
  {
    EncodeGrows(StoredBytes, [e], 0);
    assert [e][..0] == [] && [e][..1] == [e];
    assert Concat([]) == [];
    if StoredBytes(e).Some? { assert [] + StoredBytes(e).value == StoredBytes(e).value; }
  }

  // ----- the walk -----

  /** `es` are the entries written since the file was `head`. */
  ghost predicate Written(head: Bytes, es: seq<Entry>, file: Bytes) {
    Stored(es).Some? && file == head + Stored(es).value
  }

  lemma WrittenNext(head: Bytes, es: seq<Entry>, file: Bytes, more: seq<Entry>)
    requires Written(head, es, file)
    ensures Stored(more).Some? ==> Written(head, es + more, file + Stored(more).value)
    ensures Stored(more).None? ==> Stored(es + more).None?
  {
    EncodeGoesOn(StoredBytes, es, more, head, file);
  }

  /** The directory itself and what the tree has of the first i names. */
  ghost function Partial(parts: seq<Bytes>, n: Node, names: seq<Bytes>, i: nat): seq<Entry>
    requires n.Dir? && i <= |names|
  {
    [Entry(parts, n)] + Under(parts, n, names[..i])
  }

  /** The entries that one child adds. */
  ghost function ChildEntries(parts: seq<Bytes>, n: Node, name: Bytes): seq<Entry>
    requires n.Dir?
  {
    if name in n.children then Preorder(parts + [name], n.children[name]) else []
  }

  lemma PartialNext(parts: seq<Bytes>, n: Node, names: seq<Bytes>, i: nat)
    requires n.Dir? && i < |names|
    ensures Partial(parts, n, names, i + 1) == Partial(parts, n, names, i) + ChildEntries(parts, n, names[i])
  {
    var longer := names[..i + 1];
    assert longer[..|longer| - 1] == names[..i] && longer[|longer| - 1] == names[i];
    InFront(Entry(parts, n), Under(parts, n, names[..i]), ChildEntries(parts, n, names[i]));
  }

  lemma InFront(e: Entry, a: seq<Entry>, b: seq<Entry>)
    ensures [e] + (a + b) == [e] + a + b
  {}

  lemma {:induction false} PartialFails(parts: seq<Bytes>, n: Node, names: seq<Bytes>, i: nat)
    requires n.Dir? && i <= |names| && Stored(Partial(parts, n, names, i)).None?
    ensures Stored(Partial(parts, n, names, |names|)).None?
    decreases |names| - i
  {
    if i < |names| {
      PartialNext(parts, n, names, i);
      EncodeJoins(StoredBytes, Partial(parts, n, names, i), ChildEntries(parts, n, names[i]));
      PartialFails(parts, n, names, i + 1);
    }
  }

  /** All names walked, dropped ones included: the entries of the selected tree. */
  lemma PartialEnds(parts: seq<Bytes>, n: Node, s: set<Bytes>)
    requires n.Dir? && n.children.Keys <= s
    ensures Partial(parts, n, InOrder(s), 0) == [Entry(parts, n)]
    ensures Partial(parts, n, InOrder(s), |InOrder(s)|) == Preorder(parts, n)
  {
    var names := InOrder(s);
    assert names[..0] == [] && names[..|names|] == names;
    UnderMore(parts, n, s);
  }

  lemma ChildFails(parts: seq<Bytes>, n: Node, s: set<Bytes>, i: nat)
    requires n.Dir? && n.children.Keys <= s && i < |InOrder(s)| && Stored(ChildEntries(parts, n, InOrder(s)[i])).None?
    ensures Stored(Preorder(parts, n)).None?
  {
    var names := InOrder(s);
    PartialNext(parts, n, names, i);
    EncodeJoins(StoredBytes, Partial(parts, n, names, i), ChildEntries(parts, n, names[i]));
    PartialFails(parts, n, names, i + 1);
    PartialEnds(parts, n, s);
  }

  /** An entry that cannot be stored spoils its whole subtree. */
  lemma EntryFails(parts: seq<Bytes>, n: Node)
    requires StoredBytes(Entry(parts, n)).None?
    ensures Stored(Preorder(parts, n)).None?
  {
    EncodeNeedsEach(StoredBytes, Preorder(parts, n), 0);
  }

  lemma NothingIsStored()
    ensures Stored([]) == Some([])
  {
    assert Mapped(StoredBytes, []) == [];
  }

  /** readdir in any order, then std::sort. */
  method SortedNames(children: map<Bytes, Node>) returns (names: seq<Bytes>)
    ensures names == InOrder(children.Keys)
  {
    names := [];
    var rest := children.Keys;
    while exists x :: x in rest
      invariant rest <= children.Keys && Ascending(names) && Lists(names, children.Keys - rest)
      decreases rest
    {
      var x :| x in rest;
      assert !Listed(names, x);
      InsertedLists(names, children.Keys - rest, x);
      InsertAscends(names, x);
      names := Insert(names, x);
      assert children.Keys - rest + {x} == children.Keys - (rest - {x});
      rest := rest - {x};
    }
    assert children.Keys - rest == children.Keys;
    OneOrder(names, InOrder(children.Keys), children.Keys);
  }

  method WriteDirectoryTree(out: ArchiveOutput, f: Filter, ghost parts: seq<Bytes>, path: Bytes, n: Node, count: nat)
    returns (ok: bool, after: nat)
    requires out.Valid() && n.Dir? && FromDisk(n) && AllNames(parts) && path == PathOf(parts) && (count == 0 <==> parts == [])
    modifies out
    ensures ok <==> PathsFit(f, path, n) && Stored(Preorder(parts, Selected(f, path, n))).Some?
    ensures ok ==> out.Valid() && after == count + |Preorder(parts, Selected(f, path, n))|
    ensures ok ==> Written(old(out.file), Preorder(parts, Selected(f, path, n)), out.file)
    decreases n, 0
  {
    ghost var sel := Selected(f, path, n);
    PartialEnds(parts, sel, n.children.Keys);
    SelectedFromDisk(f, path, n);
    ok, after := WriteDirectoryEntry(out, parts, path, n, sel, count);
    if !ok { return; }
    var names := SortedNames(n.children);
    for i := 0 to |names|
      invariant out.Valid() && after == count + |Partial(parts, sel, names, i)|
      invariant Written(old(out.file), Partial(parts, sel, names, i), out.file)
      invariant forall j :: 0 <= j < i ==> names[j] in n.children && ChildFits(f, path, n, names[j])
    {
      var name := names[i];
      ghost var was := out.file;
      assert name in n.children.Keys;
      PartialNext(parts, sel, names, i);
      ok, after := WriteChild(out, f, parts, path, n, name, after);
      WrittenNext(old(out.file), Partial(parts, sel, names, i), was, ChildEntries(parts, sel, name));
      if !ok {
        if Stored(ChildEntries(parts, sel, name)).None? { ChildFails(parts, sel, n.children.Keys, i); }
        return false, after;
      }
    }
    AllChildrenFit(f, path, n, names);
    ok := true;
  }

  lemma AllChildrenFit(f: Filter, path: Bytes, n: Node, names: seq<Bytes>)
    requires n.Dir? && Lists(names, n.children.Keys)
    requires forall j :: 0 <= j < |names| ==> names[j] in n.children && ChildFits(f, path, n, names[j])
    ensures PathsFit(f, path, n)
  {
    forall name | name in n.children ensures ChildFits(f, path, n, name) { assert Listed(names, name); }
  }

  /** The entry of the directory itself. */
  method WriteDirectoryEntry(out: ArchiveOutput, ghost parts: seq<Bytes>, path: Bytes, n: Node, ghost sel: Node, count: nat)
    returns (ok: bool, after: nat)
    requires out.Valid() && n.Dir? && sel.Dir? && sel.stat == n.stat && FromDisk(sel) && path == PathOf(parts)
    requires count == 0 <==> parts == []
    modifies out
    ensures !ok ==> Stored(Preorder(parts, sel)).None?
    ensures ok ==> out.Valid() && after == count + 1 && Written(old(out.file), [Entry(parts, sel)], out.file)
  {
    EntryIsStored(parts, sel);
    StoredOne(Entry(parts, sel));
    ok := WriteEntryPrefix(out, path, n, count);
    after := if ok then count + 1 else count;
    if !ok { EntryFails(parts, sel); }
  }

  /** One name of the listing: too long a path fails before the filter is asked. */
  method WriteChild(out: ArchiveOutput, f: Filter, ghost parts: seq<Bytes>, path: Bytes, n: Node, name: Bytes, count: nat)
    returns (ok: bool, after: nat)
    requires out.Valid() && n.Dir? && name in n.children && FromDisk(n) && AllNames(parts) && path == PathOf(parts) && count > 0
    modifies out
    ensures ok <==> ChildFits(f, path, n, name) && Stored(ChildEntries(parts, Selected(f, path, n), name)).Some?
    ensures ok ==> out.Valid() && after == count + |ChildEntries(parts, Selected(f, path, n), name)|
    ensures ok ==> Written(old(out.file), ChildEntries(parts, Selected(f, path, n), name), out.file)
    decreases n.children[name], 1
  {
    var child, childPath := n.children[name], ChildPath(path, name);
    ChildPathIsPathOf(parts, name);
    NothingIsStored();
    assert out.file + [] == out.file;
    if |childPath| > MAX_PATH_LENGTH { return false, count; }
    match child {
      case Dir(_, _) =>
        if f.prunes(childPath, child) { return true, count; }
        ok, after := WriteDirectoryTree(out, f, parts + [name], childPath, child, count);
      case File(_, _, _) =>
        if !f.includes(childPath, child) { return true, count; }
        ok := WriteRegularFileEntry(out, parts + [name], childPath, child, count);
        after := count + 1;
      case Special =>
        if f.skips(childPath, child) { return true, count; }
        EntryFails(parts + [name], child);
        return false, count;
    }
  }

  method WriteRegularFileEntry(out: ArchiveOutput, ghost parts: seq<Bytes>, path: Bytes, n: Node, count: nat) returns (ok: bool)
    requires out.Valid() && n.File? && FromDisk(n) && path == PathOf(parts) && (count == 0 <==> parts == [])
    modifies out
    ensures ok <==> Stored(Preorder(parts, n)).Some?
    ensures ok ==> out.Valid() && |Preorder(parts, n)| == 1 && Written(old(out.file), Preorder(parts, n), out.file)
  {
    ok := WriteEntryPrefix(out, path, n, count);
    if ok {
      WriteFilePayload(out, n.content);
      ok := n.steady;
    }
    PrefixAndPayload(parts, n, old(out.file));
  }

  lemma PrefixAndPayload(parts: seq<Bytes>, n: Node, head: Bytes)
    requires FromDisk(n) && n.File?
    ensures |Preorder(parts, n)| == 1
    ensures
      var path := PathOf(parts);
      if ValidArchivePath(path, parts == [], false, MAX_PATH_LENGTH) && n.steady
      then Written(head, Preorder(parts, n), head + (EntryHeader(HeaderFields(path, n)) + path) + n.content)
      else Stored(Preorder(parts, n)).None?
  {
    EntryIsStored(parts, n);
    StoredOne(Entry(parts, n));
    assert Preorder(parts, n) == [Entry(parts, n)];
    Regrouped(head, EntryHeader(HeaderFields(PathOf(parts), n)), PathOf(parts), n.content);
  }

  lemma Regrouped(head: Bytes, a: Bytes, b: Bytes, c: Bytes)
    ensures head + a + b == head + (a + b) && head + (a + b) + c == head + (a + b + c)
  {}

  /** Where the archive file is to stand: outside the source, and not there yet. */
  datatype Target = Target(outside: bool, taken: bool)

  predicate Free(target: Target) { target.outside && !target.taken }

  /** None, and no file is left, when the target is refused or some entry cannot be stored. */
  method Write(root: Node, f: Filter, target: Target) returns (archive: Option<Bytes>)
    requires FromDisk(root)
    ensures archive == if Free(target) then Delivered(f, root) else None
  {
    if !root.Dir? { return None; }
    if !target.outside { return None; }
    if target.taken { return None; }
    var out := new ArchiveOutput();
    WriteGlobalHeader(out);
    assert out.file == GlobalHeader(0);
    var ok, count := WriteDirectoryTree(out, f, [], ROOT, root, 0);
    if !ok { return None; }
    ArchiveCompleted(f, root, out.file, count);
    out.PatchU64(COUNT_OFFSET, count);
    return Some(out.file);
  }

  lemma ArchiveCompleted(f: Filter, root: Node, file: Bytes, count: nat)
    requires root.Dir? && PathsFit(f, ROOT, root) && count == |EntriesOf(Selected(f, ROOT, root))|
    requires Written(GlobalHeader(0), EntriesOf(Selected(f, ROOT, root)), file)
    ensures |file| >= GLOBAL_HEADER && Delivered(f, root) == Some(Overwritten(file, COUNT_OFFSET, LittleEndian(count, 8)))
  {
    HeaderCompleted(file, Stored(EntriesOf(Selected(f, ROOT, root))).value, count);
  }

  lemma HeaderCompleted(file: Bytes, body: Bytes, count: nat)
    requires file == GlobalHeader(0) + body
    ensures |file| >= GLOBAL_HEADER && Overwritten(file, COUNT_OFFSET, LittleEndian(count, 8)) == GlobalHeader(count) + body
  {
    assert file[..GLOBAL_HEADER] == GlobalHeader(0) && file[GLOBAL_HEADER..] == body;
    PatchedHeader(file, count);
  }
}
