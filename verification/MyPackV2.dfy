/**
 Writing and scanning MyPack v2 streams: src/archive/mypack_v2.cpp:131-344 and 564-816. Reads and
 writes succeed; what the writer checks again about a source after reading it is `Source.steady`.
*/
module MyPackV2 {
  import opened Common
  import opened Entries
  import opened ByteOrder
  import opened Layout
  import opened ArchivePath
  import opened MyPackFormat

  // ----- one entry -----

  function PayloadSize(e: ArchiveEntry): nat { if e.kind == RegularFile then e.size else 0 }

  function FieldsOf(e: ArchiveEntry): Fields {
    Fields(e.kind, |e.path|, |e.linkTarget|, e.mode, e.uid, e.gid, e.mtimeNsec, e.mtimeSec, PayloadSize(e), e.devMajor, e.devMinor)
  }

  /** A file of recorded size zero is not opened at all. */
  function Payload(s: Source): Bytes { if PayloadSize(s.entry) > 0 then s.content else [] }

  /** What the writer looks at again: contents, link targets, and the metadata of special files. */
  predicate Rechecked(e: ArchiveEntry) { PayloadSize(e) > 0 || e.kind in {Symlink, Fifo, CharDevice, BlockDevice} }

  /** Header, path, link target and content; None for what the writer refuses. */
  function EntryBytes(s: Source): Option<Bytes> {
    if FieldsOk(FieldsOf(s.entry)) && |Payload(s)| == PayloadSize(s.entry) && (Rechecked(s.entry) ==> s.steady)
    then Some(EntryHeader(FieldsOf(s.entry)) + s.entry.path + s.entry.linkTarget + Payload(s)) else None
  }

  /** What the format keeps: no owner names, a size only for regular files. */
  function Kept(e: ArchiveEntry): ArchiveEntry { e.(userName := [], groupName := [], size := PayloadSize(e)) }

  function MetaSize(e: ArchiveEntry): nat { ENTRY_HEADER + |e.path| + |e.linkTarget| }

  function PackedFor(e: ArchiveEntry, offset: nat): Member { Member(Kept(e), offset + MetaSize(e), PayloadSize(e)) }

  /** The entry a header with these fields, followed by these names, stands for. */
  function EntryFrom(f: Fields, path: Bytes, link: Bytes): ArchiveEntry {
    ArchiveEntry(path, f.kind, f.mode, f.uid, f.gid, f.mtimeSec, f.mtimeNsec, f.payloadSize, link, f.devMajor, f.devMinor, [], [])
  }

  function EntryAt(file: Bytes, cursor: nat): (r: Option<Member>)
    ensures r.Some? ==> cursor < End(r.value) <= |file|
  {
    if cursor + ENTRY_HEADER > |file| then None
    else
      match DecodeEntry(file[cursor..cursor + ENTRY_HEADER])
      case None => None
      case Some(f) =>
        var names := cursor + ENTRY_HEADER;
        var data := names + f.pathLength + f.linkLength;
        if data > |file| || f.payloadSize > |file| - data then None
        else
          Some(Member(EntryFrom(f, file[names..names + f.pathLength], file[names + f.pathLength..data]), data, f.payloadSize))
  }

  function End(m: Member): nat { m.dataOffset + m.dataSize }

  /** The bytes of the payload range. */
  function ContentOf(file: Bytes, m: Member): Bytes {
    if End(m) <= |file| then file[m.dataOffset..End(m)] else []
  }

  /** What the writer put between `cursor` and `end` is read back as that entry. */
  lemma EntryReadsBackInPlace(file: Bytes, cursor: nat, end: nat, s: Source)
    requires cursor <= end <= |file| && EntryBytes(s) == Some(file[cursor..end])
    ensures EntryAt(file, cursor) == Some(PackedFor(s.entry, cursor)) && End(PackedFor(s.entry, cursor)) == end
  {
    var f, e := FieldsOf(s.entry), s.entry;
    EntryReadsBack(f);
    PartsInPlace(file, cursor, end, EntryHeader(f), e.path, e.linkTarget, Payload(s));
    DecodedAt(file, cursor, f, e.path, e.linkTarget);
    assert EntryFrom(f, e.path, e.linkTarget) == Kept(e);
  }

  lemma DecodedAt(file: Bytes, cursor: nat, f: Fields, path: Bytes, link: Bytes)
    requires f.pathLength == |path| && f.linkLength == |link|
    requires cursor + ENTRY_HEADER + |path| + |link| + f.payloadSize <= |file|
    requires DecodeEntry(file[cursor..cursor + ENTRY_HEADER]) == Some(f)
    requires
      var names := cursor + ENTRY_HEADER;
      file[names..names + |path|] == path && file[names + |path|..names + |path| + |link|] == link
    ensures EntryAt(file, cursor)
            == Some(Member(EntryFrom(f, path, link), cursor + ENTRY_HEADER + |path| + |link|, f.payloadSize))
  {}

  lemma PartsInPlace(file: Bytes, from: nat, end: nat, a: Bytes, b: Bytes, c: Bytes, d: Bytes)
    requires from <= end <= |file| && file[from..end] == a + b + c + d
    ensures
      var p, q, r := from + |a|, from + |a| + |b|, from + |a| + |b| + |c|;
      r + |d| == end && file[from..p] == a && file[p..q] == b && file[q..r] == c
  {
    SplitPart(a, b, c, d);
    Within(file, from, end, 0, |a|);
    Within(file, from, end, |a|, |a| + |b|);
    Within(file, from, end, |a| + |b|, |a| + |b| + |c|);
  }

  lemma SplitPart(a: Bytes, b: Bytes, c: Bytes, d: Bytes)
    ensures
      var s := a + b + c + d;
      && s[0..|a|] == a && s[|a|..|a| + |b|] == b && s[|a| + |b|..|a| + |b| + |c|] == c
  {}

  /** And whatever is read is what the writer would write for it. */
  lemma EntryWritesBackInPlace(file: Bytes, cursor: nat)
    requires EntryAt(file, cursor).Some?
    ensures
      var m := EntryAt(file, cursor).value;
      EntryBytes(Source(m.entry, ContentOf(file, m), true)) == Some(file[cursor..End(m)]) && PackedFor(m.entry, cursor) == m
  {
    var m := EntryAt(file, cursor).value;
    var header := file[cursor..cursor + ENTRY_HEADER];
    var f := DecodeEntry(header).value;
    DecodedFieldsAreOk(header);
    MyPackFormat.EntryWritesBack(header);
    JoinPart(file, cursor, cursor + ENTRY_HEADER, f.pathLength, f.linkLength, End(m));
    EntryBytesAre(Source(m.entry, ContentOf(file, m), true), f);
  }

  lemma EntryBytesAre(s: Source, f: Fields)
    requires FieldsOk(f) && FieldsOf(s.entry) == f && |Payload(s)| == f.payloadSize && s.steady
    ensures EntryBytes(s) == Some(EntryHeader(f) + s.entry.path + s.entry.linkTarget + Payload(s))
  {}

  lemma JoinPart(file: Bytes, cursor: nat, names: nat, pathLength: nat, linkLength: nat, end: nat)
    requires cursor <= names && names + pathLength + linkLength <= end <= |file|
    ensures file[cursor..end] == file[cursor..names] + file[names..names + pathLength]
                                 + file[names + pathLength..names + pathLength + linkLength]
                                 + file[names + pathLength + linkLength..end]
  {
    var links := names + pathLength;
    Adjacent(file, cursor, names, links);
    Adjacent(file, cursor, links, links + linkLength);
    Adjacent(file, cursor, links + linkLength, end);
  }

  // ----- what makes a stream consistent -----

  function Listed(e: ArchiveEntry): Added { Added(e.path, e.kind == Directory) }

  function Listing(entries: seq<ArchiveEntry>): (r: seq<Added>)
    ensures |r| == |entries|
  {
    seq(|entries|, i requires 0 <= i < |entries| => Listed(entries[i]))
  }

  predicate PathsOk(entries: seq<ArchiveEntry>) {
    forall i :: 0 <= i < |entries| ==>
      ValidArchivePath(entries[i].path, i == 0, entries[i].kind == Directory, MAX_ARCHIVE_PATH_LENGTH)
  }

  predicate RootFirst(entries: seq<ArchiveEntry>) {
    entries != [] && entries[0].path == ROOT && entries[0].kind == Directory
  }

  /** The root directory first, valid and distinct paths, parents before children. */
  predicate Structured(entries: seq<ArchiveEntry>) {
    && RootFirst(entries) && PathsOk(entries) && AddAll(true, Listing(entries)).Some?
  }

  /** Every hard link names a regular file of the stream. */
  predicate LinksOk(entries: seq<ArchiveEntry>) {
    forall i :: 0 <= i < |entries| && entries[i].kind == HardLink ==> NamesRegular(entries, entries[i].linkTarget)
  }

  predicate NamesRegular(entries: seq<ArchiveEntry>, target: Bytes) {
    exists j :: 0 <= j < |entries| && entries[j].kind == RegularFile && entries[j].path == target
  }

  function EntriesOf(ms: seq<Member>): (r: seq<ArchiveEntry>)
    ensures |r| == |ms|
  {
    seq(|ms|, i requires 0 <= i < |ms| => ms[i].entry)
  }

  function SourceEntries(sources: seq<Source>): (r: seq<ArchiveEntry>)
    ensures |r| == |sources|
  {
    seq(|sources|, i requires 0 <= i < |sources| => sources[i].entry)
  }

  // ----- whole streams -----

  /** What WriteMyPackV2 leaves in its sink; None when it fails. */
  function Written(sources: seq<Source>): Option<Bytes> {
    if Structured(SourceEntries(sources)) && Encode(EntryBytes, sources).Some?
    then Some(GlobalHeader(|sources|) + Encode(EntryBytes, sources).value) else None
  }

  function EntriesFrom(file: Bytes, cursor: nat, left: nat): (r: Option<seq<Member>>)
    ensures r.Some? ==> |r.value| == left
  {
    ReadAll(EntryAt, End, file, cursor, left)
  }

  /** What ScanMyPackV2 delivers; None when it fails. */
  function Scanned(file: Bytes): Option<seq<Member>> {
    if |file| < GLOBAL_HEADER then None
    else
      match DecodeGlobal(file[..GLOBAL_HEADER])
      case None => None
      case Some(count) =>
        match EntriesFrom(file, GLOBAL_HEADER, count)
        case None => None
        case Some(ms) => if Structured(EntriesOf(ms)) && LinksOk(EntriesOf(ms)) then Some(ms) else None
  }

  // ----- scanning what was written -----

  /** Where entry i starts in the written stream. */
  function StartOf(sources: seq<Source>, i: nat): nat
    requires i <= |sources|
  {
    GLOBAL_HEADER + ItemOffset(EntryBytes, sources, i)
  }

  function Expected(sources: seq<Source>): (r: seq<Member>)
    ensures |r| == |sources|
  {
    seq(|sources|, i requires 0 <= i < |sources| => PackedFor(sources[i].entry, StartOf(sources, i)))
  }

  lemma EntryStands(sources: seq<Source>, i: nat)
    requires Written(sources).Some? && i < |sources|
    ensures
      var file, from, to := Written(sources).value, StartOf(sources, i), StartOf(sources, i + 1);
      from <= to <= |file| && EntryBytes(sources[i]) == Some(file[from..to])
  {
    ItemInPlace(EntryBytes, sources, [], i);
    var body := Encode(EntryBytes, sources).value;
    assert body + [] == body;
    BehindHead(GlobalHeader(|sources|), body, ItemOffset(EntryBytes, sources, i), ItemOffset(EntryBytes, sources, i + 1));
  }

  function Starts(sources: seq<Source>): (r: seq<nat>)
    ensures |r| == |sources| + 1
  {
    seq(|sources| + 1, i requires 0 <= i <= |sources| => StartOf(sources, i))
  }

  lemma EntryIsFound(sources: seq<Source>, i: nat)
    requires Written(sources).Some? && i < |sources|
    ensures Found(EntryAt, End, Written(sources).value, Starts(sources)[i], Starts(sources)[i + 1], Expected(sources)[i])
  {
    EntryStands(sources, i);
    EntryReadsBackInPlace(Written(sources).value, StartOf(sources, i), StartOf(sources, i + 1), sources[i]);
  }

  lemma WrittenChain(sources: seq<Source>)
    requires Written(sources).Some?
    ensures Chained(EntryAt, End, Written(sources).value, Starts(sources), Expected(sources)) && Starts(sources)[0] == GLOBAL_HEADER
  {
    ItemsEnd(EntryBytes, sources);
    forall i | 0 <= i < |sources|
      ensures Found(EntryAt, End, Written(sources).value, Starts(sources)[i], Starts(sources)[i + 1], Expected(sources)[i])
    {
      EntryIsFound(sources, i);
    }
  }

  lemma KeptKeepsStructure(a: seq<ArchiveEntry>, b: seq<ArchiveEntry>)
    requires |a| == |b| && forall i :: 0 <= i < |a| ==> b[i] == Kept(a[i])
    ensures Structured(a) <==> Structured(b)
    ensures LinksOk(a) <==> LinksOk(b)
  {
    assert Listing(a) == Listing(b);
    forall target ensures NamesRegular(a, target) <==> NamesRegular(b, target) { SameTargets(a, b, target); }
    if LinksOk(b) {
      forall i | 0 <= i < |a| && a[i].kind == HardLink ensures NamesRegular(a, a[i].linkTarget) {
        assert b[i].kind == HardLink;
      }
    }
    if LinksOk(a) {
      forall i | 0 <= i < |b| && b[i].kind == HardLink ensures NamesRegular(b, b[i].linkTarget) {
        assert a[i].kind == HardLink;
      }
    }
  }

  lemma SameTargets(a: seq<ArchiveEntry>, b: seq<ArchiveEntry>, target: Bytes)
    requires |a| == |b| && forall i :: 0 <= i < |a| ==> b[i] == Kept(a[i])
    ensures NamesRegular(a, target) <==> NamesRegular(b, target)
  {
    if j :| 0 <= j < |a| && a[j].kind == RegularFile && a[j].path == target { assert b[j].kind == RegularFile; }
    if j :| 0 <= j < |b| && b[j].kind == RegularFile && b[j].path == target { assert a[j].kind == RegularFile; }
  }

  /** Scanning a written stream gives back the entries, as far as the format keeps them, exactly when
      their hard links name regular files, which the writer does not check. */
  lemma ScanReadsBackWhatWasWritten(sources: seq<Source>)
    requires Written(sources).Some? && |sources| <= U64_MAX
    ensures Scanned(Written(sources).value) == if LinksOk(SourceEntries(sources)) then Some(Expected(sources)) else None
  {
    WrittenHeader(sources);
    WrittenEntries(sources);
    WrittenStructure(sources);
    ScannedAre(Written(sources).value, |sources|, Expected(sources));
  }

  lemma WrittenEntries(sources: seq<Source>)
    requires Written(sources).Some?
    ensures EntriesFrom(Written(sources).value, GLOBAL_HEADER, |sources|) == Some(Expected(sources))
  {
    WrittenChain(sources);
    ChainIsRead(EntryAt, End, Written(sources).value, Starts(sources), Expected(sources), 0);
    assert Expected(sources)[0..] == Expected(sources);
  }

  lemma WrittenStructure(sources: seq<Source>)
    requires Written(sources).Some?
    ensures Structured(EntriesOf(Expected(sources)))
    ensures LinksOk(EntriesOf(Expected(sources))) <==> LinksOk(SourceEntries(sources))
  {
    ExpectedKeepsStructure(sources);
  }

  lemma ScannedAre(file: Bytes, count: nat, ms: seq<Member>)
    requires |file| >= GLOBAL_HEADER && DecodeGlobal(file[..GLOBAL_HEADER]) == Some(count)
    requires EntriesFrom(file, GLOBAL_HEADER, count) == Some(ms)
    ensures Scanned(file) == if Structured(EntriesOf(ms)) && LinksOk(EntriesOf(ms)) then Some(ms) else None
  {}

  lemma WrittenHeader(sources: seq<Source>)
    requires Written(sources).Some? && |sources| <= U64_MAX
    ensures
      var file := Written(sources).value;
      |file| >= GLOBAL_HEADER && DecodeGlobal(file[..GLOBAL_HEADER]) == Some(|sources|)
  {
    GlobalHeaderIsExact(GlobalHeader(|sources|), |sources|);
    assert Written(sources).value[..GLOBAL_HEADER] == GlobalHeader(|sources|);
  }

  lemma ExpectedKeepsStructure(sources: seq<Source>)
    ensures Structured(SourceEntries(sources)) <==> Structured(EntriesOf(Expected(sources)))
    ensures LinksOk(SourceEntries(sources)) <==> LinksOk(EntriesOf(Expected(sources)))
  {
    KeptKeepsStructure(SourceEntries(sources), EntriesOf(Expected(sources)));
  }

  // ----- writing what was scanned -----

  /** The packed entries with the content their ranges hold. */
  function Unpacked(file: Bytes, ms: seq<Member>): (r: seq<Source>)
    ensures |r| == |ms|
  {
    seq(|ms|, i requires 0 <= i < |ms| => Source(ms[i].entry, ContentOf(file, ms[i]), true))
  }

  /** Each member is where a writer using `f` would put it, counted from `cursor`. */
  predicate InOrder(f: Source -> Option<Bytes>, file: Bytes, cursor: nat, ms: seq<Member>) {
    forall i :: 0 <= i < |ms| ==> StandsAt(file, cursor + ItemOffset(f, Unpacked(file, ms), i), ms[i])
  }

  predicate StandsAt(file: Bytes, start: nat, m: Member) { m == PackedFor(m.entry, start) && End(m) <= |file| }

  /** The entries read from `cursor` on re-encode to the rest of the file. */
  lemma {:induction false} ReadEntriesAreWritten(file: Bytes, cursor: nat, left: nat)
    requires EntriesFrom(file, cursor, left).Some?
    ensures
      var ms := EntriesFrom(file, cursor, left).value;
      Encode(EntryBytes, Unpacked(file, ms)) == Some(file[cursor..]) && InOrder(EntryBytes, file, cursor, ms)
    decreases left
  {
    if left == 0 {
      assert file[cursor..] == [];
    } else {
      var m := EntryAt(file, cursor).value;
      ReadEntriesAreWritten(file, End(m), left - 1);
      EntryWritesBackInPlace(file, cursor);
      OneMoreInFront(EntryBytes, file, cursor, m, EntriesFrom(file, End(m), left - 1).value);
    }
  }

  lemma OneMoreInFront(f: Source -> Option<Bytes>, file: Bytes, cursor: nat, m: Member, rest: seq<Member>)
    requires cursor <= End(m) <= |file| && PackedFor(m.entry, cursor) == m && InOrder(f, file, End(m), rest)
    requires f(Source(m.entry, ContentOf(file, m), true)) == Some(file[cursor..End(m)])
    requires Encode(f, Unpacked(file, rest)) == Some(file[End(m)..])
    ensures Encode(f, Unpacked(file, [m] + rest)) == Some(file[cursor..]) && InOrder(f, file, cursor, [m] + rest)
  {
    var ms, first := [m] + rest, Source(m.entry, ContentOf(file, m), true);
    assert Unpacked(file, ms) == [first] + Unpacked(file, rest);
    EncodeInFront(f, file, cursor, End(m), first, Unpacked(file, rest));
    forall i | 0 <= i < |ms| ensures StandsAt(file, cursor + ItemOffset(f, Unpacked(file, ms), i), ms[i]) {
      if i > 0 { assert StandsAt(file, End(m) + ItemOffset(f, Unpacked(file, rest), i - 1), rest[i - 1]); }
    }
  }

  /** Any file the scanner accepts is, byte for byte, what the writer makes of what was scanned, and
      scanning that again gives the same entries. */
  lemma AcceptedFilesAreExactlyWritten(file: Bytes)
    requires Scanned(file).Some?
    ensures
      var ms := Scanned(file).value;
      && Written(Unpacked(file, ms)) == Some(file) && Expected(Unpacked(file, ms)) == ms
      && LinksOk(SourceEntries(Unpacked(file, ms))) && (forall i :: 0 <= i < |ms| ==> End(ms[i]) <= |file|)
  {
    var ms := Scanned(file).value;
    var count := DecodeGlobal(file[..GLOBAL_HEADER]).value;
    ReadEntriesAreWritten(file, GLOBAL_HEADER, count);
    GlobalHeaderIsExact(file[..GLOBAL_HEADER], count);
    assert SourceEntries(Unpacked(file, ms)) == EntriesOf(ms);
    assert file == file[..GLOBAL_HEADER] + file[GLOBAL_HEADER..];
    InOrderIsExpected(file, ms);
  }

  lemma InOrderIsExpected(file: Bytes, ms: seq<Member>)
    requires InOrder(EntryBytes, file, GLOBAL_HEADER, ms)
    ensures Expected(Unpacked(file, ms)) == ms
  {
    forall i | 0 <= i < |ms| ensures Expected(Unpacked(file, ms))[i] == ms[i] {}
  }

  /** The payload ranges are disjoint, in order, and with the headers and names between them cover the
      file without a gap. */
  lemma PayloadsTileTheFile(file: Bytes)
    requires Scanned(file).Some?
    ensures
      var ms := Scanned(file).value;
      && ms != [] && ms[0].dataOffset == GLOBAL_HEADER + MetaSize(ms[0].entry)
      && (forall i :: 0 <= i < |ms| - 1 ==> End(ms[i]) + MetaSize(ms[i + 1].entry) == ms[i + 1].dataOffset)
      && End(ms[|ms| - 1]) == |file|
  {
    Tiles(file, GLOBAL_HEADER, DecodeGlobal(file[..GLOBAL_HEADER]).value);
  }

  lemma {:induction false} Tiles(file: Bytes, cursor: nat, left: nat)
    requires EntriesFrom(file, cursor, left).Some?
    ensures
      var ms := EntriesFrom(file, cursor, left).value;
      && (ms != [] ==> ms[0].dataOffset == cursor + MetaSize(ms[0].entry) && End(ms[|ms| - 1]) == |file|)
      && (forall i :: 0 <= i < |ms| - 1 ==> End(ms[i]) + MetaSize(ms[i + 1].entry) == ms[i + 1].dataOffset)
    decreases left
  {
    if left > 0 {
      var m := EntryAt(file, cursor).value;
      Tiles(file, End(m), left - 1);
    }
  }

  // ----- the writer -----

  /** The ranges of the C++ field types. */
  predicate InWidth(e: ArchiveEntry) {
    && e.uid <= U32_MAX && e.gid <= U32_MAX && e.devMajor <= U32_MAX && e.devMinor <= U32_MAX
    && FitsI64(e.mtimeSec) && e.size <= U64_MAX
  }

  method ValidateEntryForWriting(e: ArchiveEntry, first: bool) returns (ok: bool)
    requires InWidth(e)
    ensures ok <==> ValidArchivePath(e.path, first, e.kind == Directory, MAX_ARCHIVE_PATH_LENGTH) && FieldsOk(FieldsOf(e))
  {
    if e.kind == Socket { return false; }
    ok := IsValidArchivePath(e.path, first, e.kind == Directory, MAX_ARCHIVE_PATH_LENGTH);
    if !ok { return; }
    if e.mode > PERMISSION_MASK || e.mtimeNsec > MAX_MTIME_NSEC || |e.linkTarget| > MAX_LINK_LENGTH { return false; }
    match e.kind {
      case RegularFile | Directory | Fifo | CharDevice | BlockDevice => return e.linkTarget == [];
      case Symlink | HardLink => return e.linkTarget != [];
      case Socket => assert false;
    }
  }

  method WriteRegularPayload(sink: Bytes, s: Source) returns (ok: bool, out: Bytes)
    ensures ok <==> |s.content| == s.entry.size
    ensures ok ==> out == sink + s.content
  {
    out := sink;
    var copied: nat := 0;
    while copied < s.entry.size
      invariant copied <= s.entry.size && copied <= |s.content| && out == sink + s.content[..copied]
    {
      var remaining := s.entry.size - copied;
      var got := Read(s.content, copied, if remaining < 65536 then remaining else 65536);
      if got == 0 { return false, out; }
      assert s.content[..copied + got] == s.content[..copied] + s.content[copied..copied + got];
      out := out + s.content[copied..copied + got];
      copied := copied + got;
    }
    ok := |s.content| == s.entry.size;
    if ok { assert s.content[..copied] == s.content; }
  }

  method WriteEntry(sink: Bytes, s: Source) returns (ok: bool, out: Bytes)
    requires FieldsOk(FieldsOf(s.entry))
    ensures ok <==> EntryBytes(s).Some?
    ensures ok ==> out == sink + EntryBytes(s).value
  {
    var header := EncodeEntryHeader(FieldsOf(s.entry));
    out := sink + header + s.entry.path + s.entry.linkTarget;
    if PayloadSize(s.entry) > 0 {
      ok, out := WriteRegularPayload(out, s);
    } else {
      ok := true;
    }
    if Rechecked(s.entry) && !s.steady { ok := false; }
    Grouped(sink, header, s.entry.path, s.entry.linkTarget, Payload(s));
  }

  lemma Grouped(sink: Bytes, a: Bytes, b: Bytes, c: Bytes, d: Bytes)
    ensures sink + a + b + c + d == sink + (a + b + c + d)
    ensures d == [] ==> sink + a + b + c == sink + (a + b + c + d)
  {}

  lemma AddNext(entries: seq<ArchiveEntry>, i: nat)
    requires i < |entries| && AddAll(true, Listing(entries[..i])).Some?
    ensures AddAll(true, Listing(entries[..i + 1])) == AddTo(true, AddAll(true, Listing(entries[..i])).value, Listed(entries[i]))
    ensures AddAll(true, Listing(entries[..i + 1])).None? ==> !Structured(entries)
  {
    assert Listing(entries[..i + 1])[..i] == Listing(entries[..i]);
    assert Listing(entries)[..i + 1] == Listing(entries[..i + 1]);
    AddAllPrefix(true, Listing(entries), i + 1);
  }

  lemma PathNext(entries: seq<ArchiveEntry>, i: nat)
    requires i < |entries| && PathsOk(entries[..i])
    ensures ValidArchivePath(entries[i].path, i == 0, entries[i].kind == Directory, MAX_ARCHIVE_PATH_LENGTH)
            <==> PathsOk(entries[..i + 1])
    ensures !PathsOk(entries[..i + 1]) ==> !Structured(entries)
  {
    var upTo := entries[..i + 1];
    assert upTo[i] == entries[i] && forall j :: 0 <= j < i ==> upTo[j] == entries[..i][j] == entries[j];
  }

  /** The registry after the first i entries. */
  ghost predicate Registers(entries: seq<ArchiveEntry>, i: nat, registered: Registered) {
    i <= |entries| && PathsOk(entries[..i]) && AddAll(true, Listing(entries[..i])) == Some(registered)
  }

  lemma RegistersEnds(entries: seq<ArchiveEntry>, registered: Registered)
    ensures Registers(entries, 0, NOTHING)
    ensures Registers(entries, |entries|, registered) && RootFirst(entries) ==> Structured(entries)
  {
    assert entries[..0] == [] && Listing(entries[..0]) == [];
    assert entries[..|entries|] == entries;
  }

  /** What the next entry adds, or why it is refused. */
  lemma RegistersNext(entries: seq<ArchiveEntry>, i: nat, registered: Registered)
    requires Registers(entries, i, registered) && i < |entries|
    ensures
      var e := entries[i];
      var valid := ValidArchivePath(e.path, i == 0, e.kind == Directory, MAX_ARCHIVE_PATH_LENGTH);
      var added := AddTo(true, registered, Listed(e));
      if valid && added.Some? then Registers(entries, i + 1, added.value) else !Structured(entries)
  {
    PathNext(entries, i);
    AddNext(entries, i);
  }

  /** One turn of the writer's loop. */
  method PackOne(sources: seq<Source>, i: nat, sink: Bytes, registry: ArchivePathRegistry) returns (ok: bool, out: Bytes)
    requires i < |sources| && InWidth(sources[i].entry) && registry.requireParentFirst
    requires Registers(SourceEntries(sources), i, registry.Contents())
    requires Laid(EntryBytes, sources, i, GlobalHeader(|sources|), sink)
    modifies registry
    ensures ok ==> Registers(SourceEntries(sources), i + 1, registry.Contents())
    ensures ok ==> Laid(EntryBytes, sources, i + 1, GlobalHeader(|sources|), out)
    ensures !ok ==> Written(sources).None?
  {
    out := sink;
    var e := sources[i].entry;
    RegistersNext(SourceEntries(sources), i, registry.Contents());
    LaidNext(EntryBytes, sources, i, GlobalHeader(|sources|), sink);
    ok := ValidateEntryForWriting(e, i == 0);
    if !ok { return; }
    ok := registry.Add(e.path, e.kind == Directory);
    if !ok { return; }
    ok, out := WriteEntry(out, sources[i]);
  }

  method WriteMyPackV2(sources: seq<Source>) returns (sink: Option<Bytes>)
    requires |sources| <= U64_MAX && forall i :: 0 <= i < |sources| ==> InWidth(sources[i].entry)
    ensures sink == Written(sources)
  {
    RootMustBeFirst(sources);
    if sources == [] || sources[0].entry.path != ROOT || sources[0].entry.kind != Directory { return None; }
    var out := EncodeGlobalHeader(|sources|);
    var registry := new ArchivePathRegistry(true);
    NothingPacked(sources);
    for i := 0 to |sources|
      invariant fresh(registry) && registry.requireParentFirst
      invariant Registers(SourceEntries(sources), i, registry.Contents())
      invariant Laid(EntryBytes, sources, i, GlobalHeader(|sources|), out)
    {
      var ok;
      ok, out := PackOne(sources, i, out, registry);
      if !ok { return None; }
    }
    AllPacked(sources, registry.Contents(), out);
    return Some(out);
  }

  lemma RootMustBeFirst(sources: seq<Source>)
    ensures if sources == [] || sources[0].entry.path != ROOT || sources[0].entry.kind != Directory then Written(sources).None?
            else RootFirst(SourceEntries(sources))
  {}

  lemma NothingPacked(sources: seq<Source>)
    ensures Registers(SourceEntries(sources), 0, NOTHING)
    ensures Laid(EntryBytes, sources, 0, GlobalHeader(|sources|), GlobalHeader(|sources|))
  {
    RegistersEnds(SourceEntries(sources), NOTHING);
    LaidEnds(EntryBytes, sources, GlobalHeader(|sources|), GlobalHeader(|sources|));
  }

  lemma AllPacked(sources: seq<Source>, registered: Registered, out: Bytes)
    requires RootFirst(SourceEntries(sources)) && Registers(SourceEntries(sources), |sources|, registered)
    requires Laid(EntryBytes, sources, |sources|, GlobalHeader(|sources|), out)
    ensures Written(sources) == Some(out)
  {
    RegistersEnds(SourceEntries(sources), registered);
    LaidEnds(EntryBytes, sources, GlobalHeader(|sources|), out);
  }

  // ----- the scanner -----

  method ReadEntry(file: Bytes, cursor: nat) returns (m: Option<Member>)
    requires cursor <= |file|
    ensures m == EntryAt(file, cursor)
  {
    if ENTRY_HEADER > |file| - cursor { return None; }
    var fields := DecodeEntryHeader(file[cursor..cursor + ENTRY_HEADER]);
    if fields.None? { return None; }
    var f := fields.value;
    var next := cursor + ENTRY_HEADER;
    var metadata := f.pathLength + f.linkLength;
    if metadata > |file| - next { return None; }
    var path, link := file[next..next + f.pathLength], file[next + f.pathLength..next + metadata];
    next := next + metadata;
    if f.payloadSize > |file| - next { return None; }
    return Some(Member(EntryFrom(f, path, link), next, f.payloadSize));
  }

  /** The structure of a longer stream needs that of every beginning. */
  lemma BrokenBeginning(ms: seq<Member>, rest: Option<seq<Member>>)
    requires !PathsOk(EntriesOf(ms)) || AddAll(true, Listing(EntriesOf(ms))).None?
    ensures rest.Some? ==> !Structured(EntriesOf(ms + rest.value))
  {
    if rest.Some? {
      var all := ms + rest.value;
      var mine := EntriesOf(ms);
      assert EntriesOf(all)[..|ms|] == mine;
      assert Listing(EntriesOf(all))[..|ms|] == Listing(mine);
      AddAllPrefix(true, Listing(EntriesOf(all)), |ms|);
      assert forall i :: 0 <= i < |ms| ==> EntriesOf(all)[i] == mine[i];
    }
  }

  /** The map of declared paths agrees with the entries read so far. */
  predicate Declares(declared: map<Bytes, EntryType>, ms: seq<Member>) {
    && (forall p :: p in declared ==> exists j :: 0 <= j < |ms| && ms[j].entry.path == p && ms[j].entry.kind == declared[p])
    && (forall j :: 0 <= j < |ms| ==> ms[j].entry.path in declared)
  }

  /** The list names exactly the positions of the hard links. */
  predicate HardLinksListed(hardlinks: seq<nat>, ms: seq<Member>) {
    && (forall k :: 0 <= k < |hardlinks| ==> hardlinks[k] < |ms| && ms[hardlinks[k]].entry.kind == HardLink)
    && (forall i :: 0 <= i < |ms| && ms[i].entry.kind == HardLink ==> exists k :: 0 <= k < |hardlinks| && hardlinks[k] == i)
  }

  lemma RegisteredOnce(ms: seq<Member>)
    requires AddAll(true, Listing(EntriesOf(ms))).Some?
    ensures forall i, j :: 0 <= i < j < |ms| ==> ms[i].entry.path != ms[j].entry.path
  {
    var list := Listing(EntriesOf(ms));
    AddAllDescribes(true, list);
    assert forall i :: 0 <= i < |ms| ==> list[i].path == ms[i].entry.path;
  }

  lemma DeclaredRegular(declared: map<Bytes, EntryType>, ms: seq<Member>, target: Bytes)
    requires Declares(declared, ms) && forall i, j :: 0 <= i < j < |ms| ==> ms[i].entry.path != ms[j].entry.path
    ensures DeclaredAsRegular(declared, target) <==> NamesRegular(EntriesOf(ms), target)
  {
    var entries := EntriesOf(ms);
    if target in declared && declared[target] == RegularFile {
      var j :| 0 <= j < |ms| && ms[j].entry.path == target && ms[j].entry.kind == declared[target];
      assert entries[j].kind == RegularFile;
    }
    if j :| 0 <= j < |entries| && entries[j].kind == RegularFile && entries[j].path == target {
      assert ms[j].entry.path in declared;
    }
  }

  predicate DeclaredAsRegular(declared: map<Bytes, EntryType>, target: Bytes) {
    target in declared && declared[target] == RegularFile
  }

  lemma TargetsDeclared(declared: map<Bytes, EntryType>, ms: seq<Member>)
    requires Declares(declared, ms) && AddAll(true, Listing(EntriesOf(ms))).Some?
    ensures forall target :: DeclaredAsRegular(declared, target) <==> NamesRegular(EntriesOf(ms), target)
  {
    RegisteredOnce(ms);
    forall target ensures DeclaredAsRegular(declared, target) <==> NamesRegular(EntriesOf(ms), target) {
      DeclaredRegular(declared, ms, target);
    }
  }

  lemma LinksOkByList(ms: seq<Member>, hardlinks: seq<nat>)
    requires HardLinksListed(hardlinks, ms)
    ensures LinksOk(EntriesOf(ms))
            <==> forall k :: 0 <= k < |hardlinks| ==> NamesRegular(EntriesOf(ms), ms[hardlinks[k]].entry.linkTarget)
  {
    var entries := EntriesOf(ms);
    if LinksOk(entries) {
      forall k | 0 <= k < |hardlinks| ensures NamesRegular(entries, ms[hardlinks[k]].entry.linkTarget) {
        assert entries[hardlinks[k]].kind == HardLink;
      }
    }
  }

  method CheckHardLinks(ms: seq<Member>, hardlinks: seq<nat>, declared: map<Bytes, EntryType>) returns (ok: bool)
    requires HardLinksListed(hardlinks, ms)
    requires forall target :: DeclaredAsRegular(declared, target) <==> NamesRegular(EntriesOf(ms), target)
    ensures ok <==> LinksOk(EntriesOf(ms))
  {
    LinksOkByList(ms, hardlinks);
    for k := 0 to |hardlinks|
      invariant forall j :: 0 <= j < k ==> NamesRegular(EntriesOf(ms), ms[hardlinks[j]].entry.linkTarget)
    {
      var target := ms[hardlinks[k]].entry.linkTarget;
      assert DeclaredAsRegular(declared, target) <==> NamesRegular(EntriesOf(ms), target);
      if target !in declared { return false; }
      if declared[target] != RegularFile { return false; }
    }
    return true;
  }

  /** `ms` are the first entries of the stream, and the others follow at `cursor`. */
  predicate Remaining(file: Bytes, count: nat, cursor: nat, ms: seq<Member>) {
    && |file| >= GLOBAL_HEADER && cursor <= |file| && |ms| <= count
    && DecodeGlobal(file[..GLOBAL_HEADER]) == Some(count)
    && EntriesFrom(file, GLOBAL_HEADER, count) == Follows(ms, EntriesFrom(file, cursor, count - |ms|))
  }

  /** The loop state of the scanner. */
  ghost predicate Reading(file: Bytes, count: nat, cursor: nat, ms: seq<Member>, registered: Registered) {
    && Remaining(file, count, cursor, ms)
    && PathsOk(EntriesOf(ms)) && AddAll(true, Listing(EntriesOf(ms))) == Some(registered)
  }

  lemma RemainingNext(file: Bytes, count: nat, cursor: nat, ms: seq<Member>, m: Member)
    requires Remaining(file, count, cursor, ms) && |ms| < count && EntryAt(file, cursor) == Some(m)
    ensures Remaining(file, count, End(m), ms + [m])
  {
    OneStep(EntryAt, End, file, cursor, count - |ms|, m);
    FollowsOneMore(ms, m, EntriesFrom(file, End(m), count - |ms| - 1));
    assert |ms + [m]| == |ms| + 1;
  }

  lemma NothingRemains(file: Bytes, count: nat, cursor: nat, ms: seq<Member>)
    requires Remaining(file, count, cursor, ms) && |ms| < count && EntryAt(file, cursor).None?
    ensures Scanned(file).None?
  {}

  lemma Unsound(file: Bytes, count: nat, cursor: nat, ms: seq<Member>)
    requires Remaining(file, count, cursor, ms)
    requires !PathsOk(EntriesOf(ms)) || AddAll(true, Listing(EntriesOf(ms))).None?
    ensures Scanned(file).None?
  {
    BrokenBeginning(ms, EntriesFrom(file, cursor, count - |ms|));
  }

  lemma ReadingNext(file: Bytes, count: nat, cursor: nat, ms: seq<Member>, registered: Registered, m: Member)
    requires Reading(file, count, cursor, ms, registered) && |ms| < count && EntryAt(file, cursor) == Some(m)
    ensures
      var valid := ValidArchivePath(m.entry.path, |ms| == 0, m.entry.kind == Directory, MAX_ARCHIVE_PATH_LENGTH);
      var added := AddTo(true, registered, Listed(m.entry));
      if valid && added.Some? then Reading(file, count, End(m), ms + [m], added.value) else Scanned(file).None?
  {
    RemainingNext(file, count, cursor, ms, m);
    OneMoreEntry(ms, m);
    if !PathsOk(EntriesOf(ms + [m])) || AddAll(true, Listing(EntriesOf(ms + [m]))).None? {
      Unsound(file, count, End(m), ms + [m]);
    }
  }

  lemma ReadingEnds(file: Bytes, count: nat, cursor: nat, ms: seq<Member>, registered: Registered)
    requires Reading(file, count, cursor, ms, registered) && |ms| == count
    ensures Scanned(file)
            == if cursor == |file| && RootFirst(EntriesOf(ms)) && LinksOk(EntriesOf(ms)) then Some(ms) else None
  {
    assert ms + [] == ms;
  }

  lemma ReadingStarts(file: Bytes, count: nat)
    requires |file| >= GLOBAL_HEADER && DecodeGlobal(file[..GLOBAL_HEADER]) == Some(count)
    ensures Reading(file, count, GLOBAL_HEADER, [], NOTHING)
  {
    FollowsNothing(EntriesFrom(file, GLOBAL_HEADER, count));
    assert Listing(EntriesOf([])) == [];
  }

  method ScanOne(file: Bytes, count: nat, cursor: nat, ms: seq<Member>, registry: ArchivePathRegistry) returns (m: Option<Member>)
    requires registry.requireParentFirst && Reading(file, count, cursor, ms, registry.Contents()) && |ms| < count
    modifies registry
    ensures if m.Some? then Reading(file, count, End(m.value), ms + [m.value], registry.Contents()) else Scanned(file).None?
  {
    m := ReadEntry(file, cursor);
    if m.None? {
      NothingRemains(file, count, cursor, ms);
      return None;
    }
    ReadingNext(file, count, cursor, ms, registry.Contents(), m.value);
    var e := m.value.entry;
    var valid := IsValidArchivePath(e.path, |ms| == 0, e.kind == Directory, MAX_ARCHIVE_PATH_LENGTH);
    if !valid { return None; }
    var added := registry.Add(e.path, e.kind == Directory);
    if !added { return None; }
  }

  method ScanMyPackV2(file: Bytes) returns (r: Option<seq<Member>>)
    ensures r == Scanned(file)
  {
    if |file| < GLOBAL_HEADER { return None; }
    var count := DecodeGlobalHeader(file[..GLOBAL_HEADER]);
    if count.None? { return None; }
    var ms: seq<Member> := [];
    var registry := new ArchivePathRegistry(true);
    var declared: map<Bytes, EntryType> := map[];
    var hardlinks: seq<nat> := [];
    var cursor: nat := GLOBAL_HEADER;
    ReadingStarts(file, count.value);
    for index := 0 to count.value
      invariant fresh(registry) && registry.requireParentFirst && |ms| == index
      invariant Reading(file, count.value, cursor, ms, registry.Contents())
      invariant Declares(declared, ms) && HardLinksListed(hardlinks, ms)
    {
      var read := ScanOne(file, count.value, cursor, ms, registry);
      if read.None? { return None; }
      var m := read.value;
      declared, hardlinks := Declared(declared, ms, m), Linked(hardlinks, ms, m);
      ms, cursor := ms + [m], End(m);
    }
    ReadingEnds(file, count.value, cursor, ms, registry.Contents());
    if cursor != |file| { return None; }
    if ms == [] || ms[0].entry.path != ROOT || ms[0].entry.kind != Directory { return None; }
    TargetsDeclared(declared, ms);
    var ok := CheckHardLinks(ms, hardlinks, declared);
    return if ok then Some(ms) else None;
  }

  lemma OneMoreEntry(ms: seq<Member>, m: Member)
    requires PathsOk(EntriesOf(ms)) && AddAll(true, Listing(EntriesOf(ms))).Some?
    ensures AddAll(true, Listing(EntriesOf(ms + [m]))) == AddTo(true, AddAll(true, Listing(EntriesOf(ms))).value, Listed(m.entry))
    ensures PathsOk(EntriesOf(ms + [m]))
            <==> ValidArchivePath(m.entry.path, |ms| == 0, m.entry.kind == Directory, MAX_ARCHIVE_PATH_LENGTH)
  {
    var all := EntriesOf(ms + [m]);
    assert all == EntriesOf(ms) + [m.entry];
    assert all[..|ms|] == EntriesOf(ms) && all[..|ms| + 1] == all;
    PathNext(all, |ms|);
    assert Listing(all)[..|ms|] == Listing(EntriesOf(ms));
  }

  function Declared(declared: map<Bytes, EntryType>, ms: seq<Member>, m: Member): (r: map<Bytes, EntryType>)
    requires Declares(declared, ms)
    ensures Declares(r, ms + [m])
  {
    var all := ms + [m];
    assert all[|ms|] == m && forall j :: 0 <= j < |ms| ==> all[j] == ms[j];
    if m.entry.path in declared then declared else declared[m.entry.path := m.entry.kind]
  }

  function Linked(hardlinks: seq<nat>, ms: seq<Member>, m: Member): (r: seq<nat>)
    requires HardLinksListed(hardlinks, ms)
    ensures HardLinksListed(r, ms + [m])
  {
    LinkedStays(hardlinks, ms, m);
    if m.entry.kind == HardLink then hardlinks + [|ms|] else hardlinks
  }

  lemma LinkedStays(hardlinks: seq<nat>, ms: seq<Member>, m: Member)
    requires HardLinksListed(hardlinks, ms)
    ensures HardLinksListed(if m.entry.kind == HardLink then hardlinks + [|ms|] else hardlinks, ms + [m])
  {
    var all, list := ms + [m], if m.entry.kind == HardLink then hardlinks + [|ms|] else hardlinks;
    forall i | 0 <= i < |all| && all[i].entry.kind == HardLink ensures exists k :: 0 <= k < |list| && list[k] == i {
      if i < |ms| {
        var k :| 0 <= k < |hardlinks| && hardlinks[k] == i;
        assert list[k] == i;
      } else {
        assert list[|hardlinks|] == i;
      }
    }
  }
}
