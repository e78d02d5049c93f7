/** Scanning what the ustar writers wrote. */
module UstarRoundTrip {
  import opened Common
  import opened Entries
  import opened Layout
  import opened ArchivePath
  import opened UstarPath
  import opened UstarHeader
  import opened UstarScan
  import opened UstarWrite
  import opened HardLinks
  import Octal

  /** The writers store a hard link's target as it is; Scan normalizes it, and cannot do without. */
  predicate Readable(e: ArchiveEntry) { e.kind == HardLink ==> Normalize(e.linkTarget).Some? }

  function ReadTarget(e: ArchiveEntry): Bytes {
    if e.kind == Symlink then e.linkTarget
    else if e.kind == HardLink && Readable(e) then Normalize(e.linkTarget).value
    else []
  }

  /** What survives of an entry: nanoseconds are dropped, owner names cut to 31 bytes, and only regular
      files have a size, only links a target. */
  function Kept(e: ArchiveEntry): ArchiveEntry {
    e.(mtimeNsec := 0, userName := Shortened(e.userName), groupName := Shortened(e.groupName),
       size := if e.kind == RegularFile then e.size else 0, linkTarget := ReadTarget(e))
  }

  /** A target that is in normal form comes back as it was. */
  lemma NormalTargetsAreKept(e: ArchiveEntry)
    requires e.kind == HardLink && ValidRelative(e.linkTarget)
    ensures Readable(e) && Kept(e).linkTarget == e.linkTarget
  {
    NormalizeFixesExactlyValid(e.linkTarget);
  }

  function MemberFor(s: Source, offset: nat): Member {
    Member(Kept(s.entry), offset + BLOCK, Kept(s.entry).size)
  }

  /** The members a reader should find, each behind the bytes of the entries before it. */
  function Expected(sources: seq<Source>): (ms: seq<Member>)
    ensures |ms| == |sources|
  {
    seq(|sources|, i requires 0 <= i < |sources| => MemberFor(sources[i], ItemOffset(EntryBytes, sources, i)))
  }

  /** What the header block of a source says; None when Scan cannot make a member of it. */
  function Mark(s: Source, offset: nat): Option<Member> { if Readable(s.entry) then Some(MemberFor(s, offset)) else None }

  function Marks(sources: seq<Source>): (r: seq<Option<Member>>)
    ensures |r| == |sources|
  {
    seq(|sources|, i requires 0 <= i < |sources| => Mark(sources[i], ItemOffset(EntryBytes, sources, i)))
  }

  // ----- one entry -----

  lemma EntryHeader(e: ArchiveEntry)
    requires Representable(e)
    ensures var h := BuildHeader(e).value;
            && Joined(SplitName(h.prefix, h.name)) == e.path && ValidRelative(e.path)
            && TypeFromFlag(h.typeflag) == Some(e.kind)
            && h.size == Kept(e).size && h.linkname == (if NamesTarget(e.kind) then e.linkTarget else [])
  {
    SplitIsACut(e.path);
    FlagsReadBack(e.kind);
  }

  lemma EntryReadsBack(s: Source, offset: nat)
    requires Representable(s.entry)
    ensures MemberOf(AsRead(BuildHeader(s.entry).value), offset) == Mark(s, offset)
  {
    EntryHeader(s.entry);
    NormalizeFixesExactlyValid(s.entry.path);
    ValidEnds(s.entry.path);
  }

  lemma EntryLength(s: Source)
    requires EntryBytes(s).Some?
    ensures Representable(s.entry)
    ensures |EntryBytes(s).value| == BLOCK + RoundUp(Kept(s.entry).size)
    ensures EntryBytes(s).value[..BLOCK] == Encoded(BuildHeader(s.entry).value)
    ensures s.entry.kind == RegularFile
            ==> |s.content| == s.entry.size && EntryBytes(s).value[BLOCK..BLOCK + s.entry.size] == s.content
  {
    EntryHeader(s.entry);
    PayloadLength(s);
    EntryParts(Encoded(BuildHeader(s.entry).value), s.content, Payload(s));
  }

  lemma PayloadLength(s: Source)
    requires s.entry.kind == RegularFile ==> |s.content| == s.entry.size
    ensures |Payload(s)| == RoundUp(Kept(s.entry).size)
    ensures s.entry.kind == RegularFile ==> Payload(s)[..s.entry.size] == s.content
  {}

  lemma EntryParts(block: Bytes, content: Bytes, payload: Bytes)
    requires |block| == BLOCK
    ensures (block + payload)[..BLOCK] == block
    ensures |content| <= |payload| && payload[..|content|] == content
            ==> (block + payload)[BLOCK..BLOCK + |content|] == content
  {}

  lemma EntriesAligned()
    ensures forall s :: EntryBytes(s).Some? ==> |EntryBytes(s).value| % 512 == 0
  {
  }

  // ----- the round trip -----

  predicate AllReadable(sources: seq<Source>) { forall i :: 0 <= i < |sources| ==> Readable(sources[i].entry) }

  lemma MemberInPlace(sources: seq<Source>, i: nat)
    requires i < |sources| && ArchiveBytes(sources).Some?
    ensures Stands(ArchiveBytes(sources).value, Offsets(sources)[i], Offsets(sources)[i + 1], Marks(sources)[i])
  {
    ItemInPlace(EntryBytes, sources, Fill(2 * BLOCK, 0), i);
    EntriesAligned();
    ItemsAligned(EntryBytes, sources, i);
    OneInPlace(ArchiveBytes(sources).value, ItemOffset(EntryBytes, sources, i), ItemOffset(EntryBytes, sources, i + 1), sources[i]);
  }

  lemma OneInPlace(file: Bytes, offset: nat, end: nat, s: Source)
    requires offset <= end <= |file| && EntryBytes(s).Some? && offset % BLOCK == 0
    requires file[offset..end] == EntryBytes(s).value
    ensures Stands(file, offset, end, Mark(s, offset))
  {
    EntryLength(s);
    HeaderInPlace(file, offset, end, s);
    EntryReadsBack(s, offset);
    Bounded(file, offset, end, MemberFor(s, offset));
  }

  lemma Bounded(file: Bytes, offset: nat, end: nat, m: Member)
    requires offset % BLOCK == 0 && m.dataOffset == offset + BLOCK && end <= |file|
    requires end == offset + BLOCK + RoundUp(m.dataSize)
    ensures InBounds(m, |file|) && After(m) == end
  {}

  lemma HeaderInPlace(file: Bytes, offset: nat, end: nat, s: Source)
    requires offset + BLOCK <= end <= |file| && Representable(s.entry)
    requires file[offset..end][..BLOCK] == Encoded(BuildHeader(s.entry).value)
    ensures offset + BLOCK <= |file| && !ZeroBlock(file, offset)
    ensures Decode(file[offset..offset + BLOCK]) == Some(AsRead(BuildHeader(s.entry).value))
  {
    var h := BuildHeader(s.entry).value;
    var block := file[offset..offset + BLOCK];
    assert block == file[offset..end][..BLOCK];
    HeaderRoundTrip(h);
    HeadersAreNotZero(block);
    assert block[257] == MAGIC[0] by { assert block[257..263][0] == MAGIC[0]; }
    assert file[offset + 257] != 0;
  }

  /** The header at `offset` says `mark`, and the next one is at `next`. */
  predicate Stands(file: Bytes, offset: nat, next: nat, mark: Option<Member>) {
    && offset + BLOCK <= |file| && !ZeroBlock(file, offset) && MemberAt(file, offset) == mark
    && (mark.Some? ==> After(mark.value) == next)
  }

  /** Header i stands at offsets[i], and behind the last one there is an end marker. */
  predicate Chained(file: Bytes, offsets: seq<nat>, marks: seq<Option<Member>>) {
    && |offsets| == |marks| + 1
    && (forall i :: 0 <= i < |marks| ==> Stands(file, offsets[i], offsets[i + 1], marks[i]))
    && EndMarker(file, offsets[|marks|])
  }

  predicate SaysAll(marks: seq<Option<Member>>, ms: seq<Member>) {
    |marks| == |ms| && forall i :: 0 <= i < |ms| ==> marks[i] == Some(ms[i])
  }

  lemma {:induction false} ChainIsRead(file: Bytes, offsets: seq<nat>, marks: seq<Option<Member>>, ms: seq<Member>, i: nat)
    requires Chained(file, offsets, marks) && SaysAll(marks, ms) && i <= |ms| < MAX_MEMBERS
    ensures Members(file, offsets[i], i) == Some(ms[i..])
    decreases |ms| - i
  {
    if i == |ms| {
      MembersEnd(file, offsets[i], i);
      assert ms[i..] == [];
    } else {
      ChainIsRead(file, offsets, marks, ms, i + 1);
      MembersStep(file, offsets[i], i, marks[i], offsets[i + 1]);
      FollowsTail(ms, i);
    }
  }

  /** A chain is read in vain when a header in it says nothing, or when a million members come before
      its end marker is looked at. */
  lemma {:induction false} ChainStops(file: Bytes, offsets: seq<nat>, marks: seq<Option<Member>>, i: nat, stop: nat)
    requires Chained(file, offsets, marks) && i <= stop <= |marks|
    requires stop == MAX_MEMBERS || (stop < |marks| && marks[stop].None?)
    ensures Members(file, offsets[i], i).None?
    decreases stop - i
  {
    if i < stop && i < MAX_MEMBERS { ChainStops(file, offsets, marks, i + 1, stop); }
    if i < |marks| && i < MAX_MEMBERS { MembersStep(file, offsets[i], i, marks[i], offsets[i + 1]); }
  }

  function Offsets(sources: seq<Source>): (r: seq<nat>)
    ensures |r| == |sources| + 1
  {
    seq(|sources| + 1, i requires 0 <= i <= |sources| => ItemOffset(EntryBytes, sources, i))
  }

  lemma WrittenChain(sources: seq<Source>)
    requires ArchiveBytes(sources).Some?
    ensures Chained(ArchiveBytes(sources).value, Offsets(sources), Marks(sources)) && Offsets(sources)[0] == 0
  {
    forall i | 0 <= i < |sources|
      ensures Stands(ArchiveBytes(sources).value, Offsets(sources)[i], Offsets(sources)[i + 1], Marks(sources)[i])
    {
      MemberInPlace(sources, i);
    }
    ItemsEnd(EntryBytes, sources);
    EndInPlace(Encode(EntryBytes, sources).value);
  }

  lemma EndInPlace(body: Bytes)
    ensures EndMarker(body + Fill(2 * BLOCK, 0), |body|)
  {}

  lemma MembersEnd(file: Bytes, offset: nat, count: nat)
    requires count < MAX_MEMBERS && EndMarker(file, offset)
    ensures Members(file, offset, count) == Some([])
  {}

  lemma MembersStep(file: Bytes, offset: nat, count: nat, mark: Option<Member>, next: nat)
    requires count < MAX_MEMBERS && Stands(file, offset, next, mark)
    ensures Members(file, offset, count) == if mark.None? then None else Follows([mark.value], Members(file, next, count + 1))
  {}

  /** The writers check neither that hard link targets can be normalized, nor that paths differ, only
      directories have something below them and links resolve, nor the number of entries: Scan reads
      back every written archive that keeps all of this, the same entries in the same order as far as
      the format keeps them, and refuses every other. */
  lemma ScanReadsBackWhatWasWritten(sources: seq<Source>)
    requires ArchiveBytes(sources).Some?
    ensures Scanned(ArchiveBytes(sources).value)
            == if |sources| < MAX_MEMBERS && AllReadable(sources) && Sound(Expected(sources)) then Some(Expected(sources)) else None
  {
    var file, marks := ArchiveBytes(sources).value, Marks(sources);
    WrittenChain(sources);
    if |sources| >= MAX_MEMBERS {
      ChainStops(file, Offsets(sources), marks, 0, MAX_MEMBERS);
    } else if i: nat :| i < |sources| && !Readable(sources[i].entry) {
      ChainStops(file, Offsets(sources), marks, 0, i);
    } else {
      ChainIsRead(file, Offsets(sources), marks, Expected(sources), 0);
      assert Expected(sources)[0..] == Expected(sources);
    }
  }

  /** And each member's offset and size point at the original content. */
  lemma ContentsAreWhereScanSays(sources: seq<Source>, i: nat)
    requires ArchiveBytes(sources).Some? && i < |sources| && sources[i].entry.kind == RegularFile
    ensures
      var file, m := ArchiveBytes(sources).value, Expected(sources)[i];
      m.dataOffset + m.dataSize <= |file| && file[m.dataOffset..m.dataOffset + m.dataSize] == sources[i].content
  {
    forall s: Source | EntryBytes(s).Some? && s.entry.kind == RegularFile ensures HoldsContent(s, EntryBytes(s).value) {
      ContentInEntry(s);
    }
    ContentOf(EntryBytes, sources, Fill(2 * BLOCK, 0), i);
  }

  predicate HoldsContent(s: Source, bytes: Bytes) {
    |s.content| == Kept(s.entry).size && |bytes| >= BLOCK + |s.content| && bytes[BLOCK..BLOCK + |s.content|] == s.content
  }

  lemma ContentOf(f: Source -> Option<Bytes>, sources: seq<Source>, tail: Bytes, i: nat)
    requires i < |sources| && sources[i].entry.kind == RegularFile && Encode(f, sources).Some?
    requires forall s: Source :: f(s).Some? && s.entry.kind == RegularFile ==> HoldsContent(s, f(s).value)
    ensures
      var whole, m := Encode(f, sources).value + tail, MemberFor(sources[i], ItemOffset(f, sources, i));
      m.dataOffset + m.dataSize <= |whole| && whole[m.dataOffset..m.dataOffset + m.dataSize] == sources[i].content
  {
    ItemInPlace(f, sources, [], i);
    SliceInPlace(f, sources, tail, i, BLOCK, BLOCK + |sources[i].content|);
  }

  lemma ContentInEntry(s: Source)
    requires EntryBytes(s).Some? && s.entry.kind == RegularFile
    ensures |s.content| == s.entry.size == Kept(s.entry).size && |EntryBytes(s).value| >= BLOCK + |s.content|
    ensures EntryBytes(s).value[BLOCK..BLOCK + |s.content|] == s.content
  {
    EntryLength(s);
  }

  // ----- the limit -----

  /** An empty file named by a number. */
  function Numbered(i: nat, digits: nat): Source {
    Source(ArchiveEntry(Octal.Digits(i, digits), RegularFile, 0, 0, 0, 0, 0, 0, [], 0, 0, [], []), [], true)
  }

  function Numbers(count: nat, digits: nat): (r: seq<Source>)
    ensures |r| == count
  {
    seq(count, i requires 0 <= i < count => Numbered(i, digits))
  }

  lemma NumberIsAName(i: nat, digits: nat)
    requires 1 <= digits <= NAME_SIZE
    ensures var p := Octal.Digits(i, digits); Components(p) == [p] && ValidRelative(p) && NoNul(p)
  {
    var p := Octal.Digits(i, digits);
    OnePart(p);
    PlainSingle(p);
  }

  lemma NumberedIsWritten(i: nat, digits: nat)
    requires 1 <= digits <= NAME_SIZE
    ensures EntryBytes(Numbered(i, digits)).Some?
  {
    NumberIsAName(i, digits);
    assert Split(Octal.Digits(i, digits)) == Some(SplitName([], Octal.Digits(i, digits)));
    assert Octal.Pow8(7) >= 1 && Octal.Pow8(11) >= 1;
  }

  lemma NumbersDiffer(i: nat, j: nat, digits: nat)
    requires i < Octal.Pow8(digits) && j < Octal.Pow8(digits) && i != j
    ensures Octal.Digits(i, digits) != Octal.Digits(j, digits)
  {
    Octal.DigitsReadBack(i, digits);
    Octal.DigitsReadBack(j, digits);
  }

  lemma NumbersAreSound(count: nat, digits: nat)
    requires 1 <= digits <= NAME_SIZE && count <= Octal.Pow8(digits)
    ensures AllReadable(Numbers(count, digits)) && Sound(Expected(Numbers(count, digits)))
  {
    var ms := Expected(Numbers(count, digits));
    forall i | 0 <= i < |ms| ensures PlainFile(ms[i], Octal.Digits(i, digits)) {}
    forall i, j | 0 <= i < j < |ms| ensures ms[i].entry.path != ms[j].entry.path { NumbersDiffer(i, j, digits); }
    PlainFilesAreSound(ms);
  }

  /** A regular file directly below the root. */
  predicate PlainFile(m: Member, path: Bytes) {
    m.entry.kind == RegularFile && m.entry.path == path && forall k :: 0 <= k < |path| ==> path[k] != SLASH
  }

  lemma PlainFilesAreSound(ms: seq<Member>)
    requires Distinct(ms) && forall i :: 0 <= i < |ms| ==> PlainFile(ms[i], ms[i].entry.path)
    ensures Sound(ms)
  {
    forall i, j | 0 <= i < |ms| && 0 <= j < |ms| ensures !Conflict(ms[i], ms[j]) {
      assert PlainFile(ms[j], ms[j].entry.path);
    }
    forall i | 0 <= i < |ms| ensures !IsLink(ms, i) { assert PlainFile(ms[i], ms[i].entry.path); }
  }

  lemma NumbersAreWritten(count: nat, digits: nat)
    requires 1 <= digits <= NAME_SIZE
    ensures ArchiveBytes(Numbers(count, digits)).Some?
  {
    var sources := Numbers(count, digits);
    forall i | 0 <= i < count ensures Mapped(EntryBytes, sources)[i].Some? {
      MappedAt(EntryBytes, sources, i);
      NumberedIsWritten(i, digits);
    }
  }

  /** The limit is a limit of the reader alone: a million differently named empty files, and as many
      more as the name field can tell apart, are written and then refused. */
  lemma AMillionEntriesAreRefused(count: nat)
    requires MAX_MEMBERS <= count <= Octal.Pow8(NAME_SIZE)
    ensures
      var sources := Numbers(count, NAME_SIZE);
      && |sources| == count && AllReadable(sources) && Sound(Expected(sources))
      && ArchiveBytes(sources).Some? && Scanned(ArchiveBytes(sources).value).None?
  {
    NumbersAreSound(count, NAME_SIZE);
    NumbersAreWritten(count, NAME_SIZE);
    ScanReadsBackWhatWasWritten(Numbers(count, NAME_SIZE));
  }

  lemma ManyNames()
    ensures MAX_MEMBERS <= Octal.Pow8(NAME_SIZE)
  {
    assert Octal.Pow8(7) == 2_097_152;
    MorePowers(7, NAME_SIZE);
  }

  lemma {:induction false} MorePowers(a: nat, b: nat)
    requires a <= b
    ensures Octal.Pow8(a) <= Octal.Pow8(b)
  {
    if a < b { MorePowers(a, b - 1); }
  }
}
