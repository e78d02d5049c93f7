/**
 The two ustar writers: src/archive/ustar.cpp:644-989 and 1458-1561. Writing to the output file
 succeeds; a read may return fewer bytes than asked for, and the checks of a source file after it was
 read are `Source.steady`.
*/
module UstarWrite {
  import opened Common
  import opened Entries
  import opened Layout
  import opened UstarPath
  import opened UstarHeader
  import opened UstarScan

  const BASELINE_BUFFER: nat := 64 * 1024
  const BASELINE_CHUNK: nat := 64 * 1024
  const FAST_BUFFER: nat := 1024 * 1024
  const FAST_CHUNK: nat := 256 * 1024

  // ----- the bytes of an archive -----

  function BuildHeader(e: ArchiveEntry): Option<Header> {
    if e.kind == Socket then None
    else
      match Split(e.path)
      case None => None
      case Some(parts) =>
        if NamesTarget(e.kind) && e.linkTarget == [] then None
        else
          Some(Header(TypeFlagFor(e.kind), parts.name, parts.prefix, if NamesTarget(e.kind) then e.linkTarget else [],
                      e.mode, e.uid, e.gid, if e.kind == RegularFile then e.size else 0, e.mtimeSec,
                      e.devMajor, e.devMinor, e.userName, e.groupName))
  }

  predicate Representable(e: ArchiveEntry) {
    var h := BuildHeader(e);
    h.Some? && Encodable(h.value)
  }

  function Payload(s: Source): Bytes {
    if s.entry.kind == RegularFile then s.content + Fill(RoundUp(|s.content|) - |s.content|, 0) else []
  }

  function HeaderBlock(e: ArchiveEntry): (r: Option<Bytes>)
    ensures r.Some? ==> |r.value| == BLOCK
  {
    if Representable(e) then Some(Encoded(BuildHeader(e).value)) else None
  }

  /** The regular file has its announced size and passes the checks after reading. */
  predicate Unchanged(s: Source) { |s.content| == s.entry.size && s.steady }

  /** Header, content and padding; None without a header or when the file is not what was scanned. */
  function Framed(block: Option<Bytes>, s: Source): (r: Option<Bytes>)
    requires block.Some? ==> |block.value| == BLOCK
    ensures r.Some? ==> |r.value| % BLOCK == 0
  {
    if block.None? || (s.entry.kind == RegularFile && !Unchanged(s)) then None
    else
      PayloadAligned(s);
      Some(block.value + Payload(s))
  }

  function EntryBytes(s: Source): (r: Option<Bytes>)
    ensures r.Some? ==> |r.value| % BLOCK == 0
  {
    Framed(HeaderBlock(s.entry), s)
  }

  lemma PayloadAligned(s: Source)
    ensures |Payload(s)| % BLOCK == 0
  {}

  /** The whole archive: the entries in order, closed by two zero blocks. */
  function ArchiveBytes(sources: seq<Source>): Option<Bytes> {
    match Encode(EntryBytes, sources)
    case None => None
    case Some(body) => Some(body + Fill(2 * BLOCK, 0))
  }

  // ----- buffering -----

  /** OutputBuffer over the file it fills: `written` is the file, data[..used] not yet in it. */
  class OutputBuffer {
    const data: array<byte>
    var used: nat
    var written: Bytes

    ghost predicate Valid() reads this { used <= data.Length && data.Length > 0 }

    /** Everything appended so far. */
    ghost function Contents(): Bytes
      reads this, data
      requires Valid()
    {
      written + data[..used]
    }

    constructor (capacity: nat)
      requires capacity > 0
      ensures Valid() && fresh(data) && Contents() == [] && data.Length == capacity
    {
      data := new byte[capacity](_ => 0);
      used, written := 0, [];
    }

    method Flush()
      requires Valid()
      modifies this
      ensures Valid() && used == 0 && Contents() == old(Contents()) && written == old(Contents())
    {
      written, used := written + data[..used], 0;
    }

    method Append(bytes: Bytes)
      requires Valid()
      modifies this, data
      ensures Valid() && Contents() == old(Contents()) + bytes
    {
      var copied := 0;
      while copied < |bytes|
        invariant Valid() && copied <= |bytes| && Contents() == old(Contents()) + bytes[..copied]
      {
        if used == data.Length { Flush(); }
        var chunk := if |bytes| - copied < data.Length - used then |bytes| - copied else data.Length - used;
        Store(bytes[copied..copied + chunk]);
        assert bytes[..copied + chunk] == bytes[..copied] + bytes[copied..copied + chunk];
        copied := copied + chunk;
      }
      assert bytes[..copied] == bytes;
    }

    /** memcpy into the free area, or a read straight into it, and the commit. */
    method Store(bytes: Bytes)
      requires Valid() && |bytes| <= data.Length - used
      modifies this, data
      ensures Valid() && Contents() == old(Contents()) + bytes && used == old(used) + |bytes|
    {
      forall i | 0 <= i < |bytes| { data[used + i] := bytes[i]; }
      used := used + |bytes|;
      assert data[..used] == old(data[..used]) + bytes;
    }

    method AppendZeros(length: nat)
      requires Valid()
      modifies this, data
      ensures Valid() && Contents() == old(Contents()) + Fill(length, 0)
    {
      var left: nat := length;
      ghost var before := Contents();
      while left > 0
        invariant Valid() && left <= length && Contents() == before + Fill(length - left, 0)
      {
        var chunk := if left < BLOCK then left else BLOCK;
        Append(Fill(chunk, 0));
        assert Fill(length - left, 0) + Fill(chunk, 0) == Fill(length - left + chunk, 0);
        left := left - chunk;
      }
    }
  }

  /** The two payload strategies. */
  datatype PayloadSink = Buffered | Direct

  method ReadPayload(sink: PayloadSink, out: OutputBuffer, content: Bytes, position: nat, length: nat) returns (got: nat)
    requires out.Valid() && position <= |content| && length > 0
    modifies out, out.data
    ensures out.Valid() && got <= length && position + got <= |content| && (got == 0 <==> position == |content|)
    ensures out.Contents() == old(out.Contents()) + content[position..position + got]
  {
    match sink
    case Buffered =>
      got := Read(content, position, if length < BASELINE_CHUNK then length else BASELINE_CHUNK);
      out.Append(content[position..position + got]);
    case Direct =>
      var wanted := if length < FAST_CHUNK then length else FAST_CHUNK;
      if out.data.Length - out.used < wanted { out.Flush(); }
      var free := out.data.Length - out.used;
      got := Read(content, position, if length < free then length else free);
      out.Store(content[position..position + got]);
  }

  /** Fails when the file is shorter or, at the closing fstat, longer than the entry says. */
  method CopyVerifiedPayload(sink: PayloadSink, out: OutputBuffer, s: Source) returns (ok: bool)
    requires out.Valid()
    modifies out, out.data
    ensures out.Valid() && (ok <==> Unchanged(s))
    ensures ok ==> out.Contents() == old(out.Contents()) + s.content
  {
    var position, remaining := 0, s.entry.size;
    while remaining > 0
      invariant out.Valid() && position <= |s.content| && position + remaining == s.entry.size
      invariant out.Contents() == old(out.Contents()) + s.content[..position]
      decreases remaining
    {
      var got := ReadPayload(sink, out, s.content, position, remaining);
      if got == 0 { return false; }
      assert s.content[..position + got] == s.content[..position] + s.content[position..position + got];
      position, remaining := position + got, remaining - got;
    }
    ok := |s.content| == s.entry.size && s.steady;
    if ok { assert s.content[..position] == s.content; }
  }

  method PrepareEntry(e: ArchiveEntry) returns (block: Option<Bytes>)
    ensures block == HeaderBlock(e)
  {
    if e.kind == Socket { return None; }
    var parts := SplitPath(e.path);
    if parts.None? { return None; }
    var linkname: Bytes := [];
    if NamesTarget(e.kind) {
      if e.linkTarget == [] { return None; }
      linkname := e.linkTarget;
    }
    var h := Header(TypeFlagFor(e.kind), parts.value.name, parts.value.prefix, linkname, e.mode, e.uid, e.gid,
                    if e.kind == RegularFile then e.size else 0, e.mtimeSec, e.devMajor, e.devMinor, e.userName, e.groupName);
    var bytes := new byte[BLOCK](_ => 0);
    var ok := EncodeHeader(h, bytes);
    if !ok { return None; }
    return Some(bytes[..]);
  }

  method ValidateEntries(sources: seq<Source>) returns (ok: bool)
    ensures !ok ==> Encode(EntryBytes, sources).None?
  {
    for i := 0 to |sources| {
      var block := PrepareEntry(sources[i].entry);
      if block.None? {
        EncodeNeedsEach(EntryBytes, sources, i);
        return false;
      }
    }
    return true;
  }

  /** One turn of either writer's loop. */
  method WriteEntry(sink: PayloadSink, out: OutputBuffer, s: Source) returns (ok: bool)
    requires out.Valid()
    modifies out, out.data
    ensures out.Valid() && (ok <==> EntryBytes(s).Some?)
    ensures ok ==> out.Contents() == old(out.Contents()) + EntryBytes(s).value
  {
    var block := PrepareEntry(s.entry);
    if block.None? { return false; }
    ok := WriteBlock(sink, out, block.value, s);
  }

  method WriteBlock(sink: PayloadSink, out: OutputBuffer, block: Bytes, s: Source) returns (ok: bool)
    requires out.Valid() && |block| == BLOCK
    modifies out, out.data
    ensures out.Valid() && (ok <==> Framed(Some(block), s).Some?)
    ensures ok ==> out.Contents() == old(out.Contents()) + Framed(Some(block), s).value
  {
    out.Append(block);
    if s.entry.kind != RegularFile {
      assert block + [] == block;
      return true;
    }
    ok := WritePayload(sink, out, s);
  }

  method WritePayload(sink: PayloadSink, out: OutputBuffer, s: Source) returns (ok: bool)
    requires out.Valid() && s.entry.kind == RegularFile
    modifies out, out.data
    ensures out.Valid() && (ok <==> Unchanged(s))
    ensures ok ==> out.Contents() == old(out.Contents()) + Payload(s)
  {
    ok := CopyVerifiedPayload(sink, out, s);
    if ok { out.AppendZeros(RoundUp(s.entry.size) - s.entry.size); }
  }

  /** None is a failed call, which leaves no file behind. */
  method WriteBaseline(sources: seq<Source>) returns (file: Option<Bytes>)
    ensures file == ArchiveBytes(sources)
  {
    var valid := ValidateEntries(sources);
    if !valid { return None; }
    var buffer := new OutputBuffer(BASELINE_BUFFER);
    for i := 0 to |sources|
      invariant buffer.Valid() && fresh(buffer) && fresh(buffer.data)
      invariant Encode(EntryBytes, sources[..i]) == Some(buffer.Contents())
    {
      var ok := WriteEntry(Buffered, buffer, sources[i]);
      EncodeGrows(EntryBytes, sources, i);
      if !ok { return None; }
      buffer.Flush();
    }
    assert sources[..|sources|] == sources;
    buffer.AppendZeros(2 * BLOCK);
    buffer.Flush();
    return Some(buffer.written);
  }

  method WriteFast(sources: seq<Source>) returns (file: Option<Bytes>)
    ensures file == ArchiveBytes(sources)
  {
    var valid := ValidateEntries(sources);
    if !valid { return None; }
    var buffer := new OutputBuffer(FAST_BUFFER);
    for i := 0 to |sources|
      invariant buffer.Valid() && fresh(buffer) && fresh(buffer.data)
      invariant Encode(EntryBytes, sources[..i]) == Some(buffer.Contents())
    {
      var ok := WriteEntry(Direct, buffer, sources[i]);
      EncodeGrows(EntryBytes, sources, i);
      if !ok { return None; }
    }
    assert sources[..|sources|] == sources;
    buffer.AppendZeros(2 * BLOCK);
    buffer.Flush();
    return Some(buffer.written);
  }
}
