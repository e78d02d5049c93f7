/** Headers and entries of the v0.1 archive: src/archive/archive.cpp:149-166, 281-432 and 598-948. */
module V01Format {
  import opened Common
  import opened ByteOrder
  import opened Layout
  import opened ArchivePath

  const MAGIC: Bytes := [66, 75, 80, 65, 82, 67, 72, 0]
  const VERSION: nat := 1
  const FLAGS: nat := 0
  const GLOBAL_HEADER: nat := 24
  const ENTRY_HEADER: nat := 32
  const COUNT_OFFSET: nat := 16
  const MAX_PATH_LENGTH: nat := 4096
  const PERMISSION_MASK: nat := 511
  const MAX_MTIME_NSEC: nat := 999_999_999

  /** One object of the archive with its content ([] for a directory). */
  datatype Item = Item(path: Bytes, directory: bool, mode: nat, mtimeSec: int, mtimeNsec: nat, content: Bytes)

  // ----- the global header -----

  function GlobalHeader(count: nat): (r: Bytes)
    ensures |r| == GLOBAL_HEADER
  {
    MAGIC + LittleEndian(VERSION, 2) + LittleEndian(FLAGS, 2) + LittleEndian(GLOBAL_HEADER, 4) + LittleEndian(count, 8)
  }

  function DecodeGlobal(b: Bytes): Option<nat> {
    if |b| != GLOBAL_HEADER || b[..8] != MAGIC then None
    else if FromLittleEndian(b[8..10]) != VERSION || FromLittleEndian(b[10..12]) != FLAGS then None
    else if FromLittleEndian(b[12..16]) != GLOBAL_HEADER then None
    else Some(FromLittleEndian(b[16..24]))
  }

  lemma GlobalHeaderIsExact(b: Bytes, count: nat)
    ensures DecodeGlobal(b) == Some(count) <==> b == GlobalHeader(count) && count <= U64_MAX
  {
    Pow256Widths();
    if |b| == GLOBAL_HEADER {
      GlobalSlices(GlobalHeader(count), count);
      LittleEndianIsExact(b[8..10], VERSION);
      LittleEndianIsExact(b[10..12], FLAGS);
      LittleEndianIsExact(b[12..16], GLOBAL_HEADER);
      LittleEndianIsExact(b[16..24], count);
      assert b == b[..8] + b[8..10] + b[10..12] + b[12..16] + b[16..24];
    }
  }

  lemma GlobalSlices(h: Bytes, count: nat)
    requires h == GlobalHeader(count)
    ensures h[..8] == MAGIC && h[8..10] == LittleEndian(VERSION, 2) && h[10..12] == LittleEndian(FLAGS, 2)
    ensures h[12..16] == LittleEndian(GLOBAL_HEADER, 4) && h[16..24] == LittleEndian(count, 8)
  {
    FiveParts(MAGIC, LittleEndian(VERSION, 2), LittleEndian(FLAGS, 2), LittleEndian(GLOBAL_HEADER, 4), LittleEndian(count, 8));
  }

  /** Writing the real count over the placeholder completes the header. */
  lemma PatchedHeader(file: Bytes, count: nat)
    requires |file| >= GLOBAL_HEADER && file[..GLOBAL_HEADER] == GlobalHeader(0)
    ensures file[..COUNT_OFFSET] + LittleEndian(count, 8) + file[COUNT_OFFSET + 8..]
            == GlobalHeader(count) + file[GLOBAL_HEADER..]
  {
    var h := GlobalHeader(0);
    assert file[..COUNT_OFFSET] == file[..GLOBAL_HEADER][..COUNT_OFFSET] == h[..COUNT_OFFSET];
    assert h[..COUNT_OFFSET] == MAGIC + LittleEndian(VERSION, 2) + LittleEndian(FLAGS, 2) + LittleEndian(GLOBAL_HEADER, 4);
  }

  // ----- entries -----

  datatype Fields = Fields(directory: bool, pathLength: nat, mode: nat, mtimeNsec: nat, mtimeSec: int, payloadSize: nat)

  predicate FieldsOk(f: Fields) {
    && 1 <= f.pathLength <= MAX_PATH_LENGTH && f.mode <= PERMISSION_MASK && f.mtimeNsec <= MAX_MTIME_NSEC
    && FitsI64(f.mtimeSec) && f.payloadSize <= U64_MAX && (f.directory ==> f.payloadSize == 0)
  }

  function EntryHeader(f: Fields): (r: Bytes)
    ensures |r| == ENTRY_HEADER
  {
    [if f.directory then 1 else 2, 0] + LittleEndian(0, 2) + LittleEndian(f.pathLength, 4) + LittleEndian(f.mode, 4)
    + LittleEndian(f.mtimeNsec, 4) + LittleEndian(ToUnsigned(f.mtimeSec), 8) + LittleEndian(f.payloadSize, 8)
  }

  function RawFields(b: Bytes): Fields
    requires |b| == ENTRY_HEADER
  {
    Fields(b[0] == 1, FromLittleEndian(b[4..8]), FromLittleEndian(b[8..12]), FromLittleEndian(b[12..16]),
           ToSigned(FromLittleEndian(b[16..24])), FromLittleEndian(b[24..32]))
  }

  function DecodeEntry(b: Bytes): Option<Fields> {
    if |b| != ENTRY_HEADER || (b[0] != 1 && b[0] != 2) || b[1] != 0 || FromLittleEndian(b[2..4]) != 0 then None
    else
      var f := RawFields(b);
      if 1 <= f.pathLength <= MAX_PATH_LENGTH && f.mode <= PERMISSION_MASK && f.mtimeNsec <= MAX_MTIME_NSEC
         && (f.directory ==> f.payloadSize == 0)
      then Some(f) else None
  }

  lemma HeaderSlices(f: Fields, h: Bytes)
    requires h == EntryHeader(f)
    ensures h[0] == (if f.directory then 1 else 2) && h[1] == 0 && h[2..4] == LittleEndian(0, 2)
    ensures h[4..8] == LittleEndian(f.pathLength, 4) && h[8..12] == LittleEndian(f.mode, 4)
    ensures h[12..16] == LittleEndian(f.mtimeNsec, 4) && h[16..24] == LittleEndian(ToUnsigned(f.mtimeSec), 8)
    ensures h[24..32] == LittleEndian(f.payloadSize, 8)
  {}

  lemma EntryReadsBack(f: Fields)
    requires FieldsOk(f)
    ensures DecodeEntry(EntryHeader(f)) == Some(f)
  {
    Pow256Widths();
    HeaderSlices(f, EntryHeader(f));
    LittleEndianReadsBack(0, 2);
    LittleEndianReadsBack(f.pathLength, 4);
    LittleEndianReadsBack(f.mode, 4);
    LittleEndianReadsBack(f.mtimeNsec, 4);
    LittleEndianReadsBack(ToUnsigned(f.mtimeSec), 8);
    LittleEndianReadsBack(f.payloadSize, 8);
    SignedRoundTrip(f.mtimeSec, 0);
  }

  lemma EntryWritesBack(b: Bytes)
    requires DecodeEntry(b).Some?
    ensures FieldsOk(DecodeEntry(b).value) && EntryHeader(DecodeEntry(b).value) == b
  {
    Pow256Widths();
    LittleEndianWritesBack(b[2..4]);
    LittleEndianWritesBack(b[4..8]);
    LittleEndianWritesBack(b[8..12]);
    LittleEndianWritesBack(b[12..16]);
    LittleEndianWritesBack(b[16..24]);
    LittleEndianWritesBack(b[24..32]);
    SignedRoundTrip(0, FromLittleEndian(b[16..24]));
    assert b == [b[0], b[1]] + b[2..4] + b[4..8] + b[8..12] + b[12..16] + b[16..24] + b[24..32];
  }

  /** Exactly the encodings of well-formed fields decode. */
  lemma EntryHeaderIsExact(b: Bytes, f: Fields)
    ensures DecodeEntry(b) == Some(f) <==> FieldsOk(f) && b == EntryHeader(f)
  {
    if DecodeEntry(b).Some? { EntryWritesBack(b); }
    if FieldsOk(f) { EntryReadsBack(f); }
  }

  function FieldsOf(e: Item): Fields { Fields(e.directory, |e.path|, e.mode, e.mtimeNsec, e.mtimeSec, |e.content|) }

  /** Header, path and content; None for what the format cannot hold. */
  function EntryBytes(e: Item): Option<Bytes> {
    if FieldsOk(FieldsOf(e)) then Some(EntryHeader(FieldsOf(e)) + e.path + e.content) else None
  }

  /** An entry found by the preflight: what it is and where its content stands. */
  datatype Parsed = Parsed(item: Item, payloadOffset: nat)

  function End(p: Parsed): nat { p.payloadOffset + |p.item.content| }

  function EntryAt(file: Bytes, position: nat): (r: Option<Parsed>)
    ensures r.Some? ==> position < End(r.value) <= |file|
  {
    if position + ENTRY_HEADER > |file| then None
    else
      match DecodeEntry(file[position..position + ENTRY_HEADER])
      case None => None
      case Some(f) =>
        var names := position + ENTRY_HEADER;
        var data := names + f.pathLength;
        if data > |file| || f.payloadSize > |file| - data then None
        else
          Some(Parsed(Item(file[names..data], f.directory, f.mode, f.mtimeSec, f.mtimeNsec, file[data..data + f.payloadSize]), data))
  }

  lemma EntryReadsBackInPlace(file: Bytes, position: nat, end: nat, e: Item)
    requires position <= end <= |file| && EntryBytes(e) == Some(file[position..end])
    ensures EntryAt(file, position) == Some(Parsed(e, position + ENTRY_HEADER + |e.path|))
    ensures position + ENTRY_HEADER + |e.path| + |e.content| == end
  {
    EntryReadsBack(FieldsOf(e));
    ThreeParts(file, position, end, EntryHeader(FieldsOf(e)), e.path, e.content);
  }

  lemma ThreeParts(file: Bytes, from: nat, end: nat, a: Bytes, b: Bytes, c: Bytes)
    requires from <= end <= |file| && file[from..end] == a + b + c
    ensures from + |a| + |b| + |c| == end
    ensures file[from..from + |a|] == a && file[from + |a|..from + |a| + |b|] == b && file[from + |a| + |b|..end] == c
  {
    var s := a + b + c;
    assert s[0..|a|] == a && s[|a|..|a| + |b|] == b && s[|a| + |b|..|s|] == c;
    Within(file, from, end, 0, |a|);
    Within(file, from, end, |a|, |a| + |b|);
    Within(file, from, end, |a| + |b|, |s|);
  }

  // ----- consistency -----

  function Listing(items: seq<Item>): (r: seq<Added>)
    ensures |r| == |items|
  {
    seq(|items|, i requires 0 <= i < |items| => Added(items[i].path, items[i].directory))
  }

  predicate PathsOk(items: seq<Item>) {
    forall i :: 0 <= i < |items| ==> ValidArchivePath(items[i].path, i == 0, items[i].directory, MAX_PATH_LENGTH)
  }

  predicate RootFirst(items: seq<Item>) { items != [] && items[0].path == ROOT && items[0].directory }

  /** Root first, valid and distinct paths, every parent a directory listed before. */
  predicate Structured(items: seq<Item>) {
    RootFirst(items) && PathsOk(items) && AddAll(true, Listing(items)).Some?
  }

  function ItemsOf(ps: seq<Parsed>): (r: seq<Item>)
    ensures |r| == |ps|
  {
    seq(|ps|, i requires 0 <= i < |ps| => ps[i].item)
  }

  function EntriesFrom(file: Bytes, position: nat, left: nat): (r: Option<seq<Parsed>>)
    ensures r.Some? ==> |r.value| == left
  {
    ReadAll(EntryAt, End, file, position, left)
  }

  /** What PreflightArchive delivers; None when it fails. */
  function Preflighted(file: Bytes): Option<seq<Parsed>> {
    if |file| < GLOBAL_HEADER then None
    else
      match DecodeGlobal(file[..GLOBAL_HEADER])
      case None => None
      case Some(count) =>
        match EntriesFrom(file, GLOBAL_HEADER, count)
        case None => None
        case Some(ps) => if Structured(ItemsOf(ps)) then Some(ps) else None
  }

  /** The archive of a list of items; None when one of them cannot be stored. */
  function ArchiveBytes(items: seq<Item>): Option<Bytes> {
    match Encode(EntryBytes, items)
    case None => None
    case Some(body) => Some(GlobalHeader(|items|) + body)
  }

  // ----- preflight of what was written -----

  function ParsedFor(e: Item, start: nat): Parsed { Parsed(e, start + ENTRY_HEADER + |e.path|) }

  function Expected(items: seq<Item>): (r: seq<Parsed>)
    ensures |r| == |items|
  {
    seq(|items|, i requires 0 <= i < |items| => ParsedFor(items[i], Starts(items)[i]))
  }

  function Starts(items: seq<Item>): (r: seq<nat>)
    ensures |r| == |items| + 1
  {
    seq(|items| + 1, i requires 0 <= i <= |items| => GLOBAL_HEADER + ItemOffset(EntryBytes, items, i))
  }

  lemma ItemStands(items: seq<Item>, i: nat)
    requires ArchiveBytes(items).Some? && i < |items|
    ensures
      var file, from, to := ArchiveBytes(items).value, Starts(items)[i], Starts(items)[i + 1];
      from <= to <= |file| && EntryBytes(items[i]) == Some(file[from..to])
  {
    var body := Encode(EntryBytes, items).value;
    ItemInPlace(EntryBytes, items, [], i);
    assert body + [] == body;
    BehindHead(GlobalHeader(|items|), body, ItemOffset(EntryBytes, items, i), ItemOffset(EntryBytes, items, i + 1));
  }

  lemma ItemIsFound(items: seq<Item>, i: nat)
    requires ArchiveBytes(items).Some? && i < |items|
    ensures Found(EntryAt, End, ArchiveBytes(items).value, Starts(items)[i], Starts(items)[i + 1], Expected(items)[i])
  {
    ItemStands(items, i);
    FoundInPlace(ArchiveBytes(items).value, Starts(items)[i], Starts(items)[i + 1], items[i]);
  }

  lemma FoundInPlace(file: Bytes, from: nat, to: nat, e: Item)
    requires from <= to <= |file| && EntryBytes(e) == Some(file[from..to])
    ensures Found(EntryAt, End, file, from, to, ParsedFor(e, from))
  {
    EntryReadsBackInPlace(file, from, to, e);
  }

  /** A written archive passes the preflight exactly when its items are structured, and the preflight
      then sees those items. */
  lemma PreflightSeesWhatWasWritten(items: seq<Item>)
    requires ArchiveBytes(items).Some? && |items| <= U64_MAX
    ensures Preflighted(ArchiveBytes(items).value) == if Structured(items) then Some(Expected(items)) else None
  {
    WrittenItemsAreRead(items);
    HeaderOfArchive(items);
    assert ItemsOf(Expected(items)) == items;
    PreflightedAre(ArchiveBytes(items).value, |items|, Expected(items));
  }

  lemma PreflightedAre(file: Bytes, count: nat, ps: seq<Parsed>)
    requires |file| >= GLOBAL_HEADER && DecodeGlobal(file[..GLOBAL_HEADER]) == Some(count)
    requires EntriesFrom(file, GLOBAL_HEADER, count) == Some(ps)
    ensures Preflighted(file) == if Structured(ItemsOf(ps)) then Some(ps) else None
  {}

  lemma WrittenItemsAreRead(items: seq<Item>)
    requires ArchiveBytes(items).Some?
    ensures EntriesFrom(ArchiveBytes(items).value, GLOBAL_HEADER, |items|) == Some(Expected(items))
  {
    WrittenChain(items, ArchiveBytes(items).value);
    ChainIsRead(EntryAt, End, ArchiveBytes(items).value, Starts(items), Expected(items), 0);
    assert Expected(items)[0..] == Expected(items);
  }

  lemma WrittenChain(items: seq<Item>, file: Bytes)
    requires ArchiveBytes(items) == Some(file)
    ensures Chained(EntryAt, End, file, Starts(items), Expected(items)) && Starts(items)[0] == GLOBAL_HEADER
  {
    StartsSpan(items, file);
    forall i | 0 <= i < |items| ensures Found(EntryAt, End, file, Starts(items)[i], Starts(items)[i + 1], Expected(items)[i]) {
      ItemIsFound(items, i);
    }
  }

  lemma StartsSpan(items: seq<Item>, file: Bytes)
    requires ArchiveBytes(items) == Some(file)
    ensures Starts(items)[0] == GLOBAL_HEADER && Starts(items)[|items|] == |file|
  {
    ItemsEnd(EntryBytes, items);
  }

  lemma HeaderOfArchive(items: seq<Item>)
    requires ArchiveBytes(items).Some? && |items| <= U64_MAX
    ensures |ArchiveBytes(items).value| >= GLOBAL_HEADER
    ensures DecodeGlobal(ArchiveBytes(items).value[..GLOBAL_HEADER]) == Some(|items|)
  {
    assert ArchiveBytes(items).value[..GLOBAL_HEADER] == GlobalHeader(|items|);
    GlobalHeaderIsExact(GlobalHeader(|items|), |items|);
  }

  // ----- what the preflight accepts was written -----

  lemma EntryWritesBackInPlace(file: Bytes, position: nat)
    requires EntryAt(file, position).Some?
    ensures
      var p := EntryAt(file, position).value;
      EntryBytes(p.item) == Some(file[position..End(p)])
  {
    var names := position + ENTRY_HEADER;
    var f := DecodeEntry(file[position..names]).value;
    EntryWritesBack(file[position..names]);
    ThreeJoined(file, position, names, names + f.pathLength, names + f.pathLength + f.payloadSize);
  }

  lemma ThreeJoined(file: Bytes, a: nat, b: nat, c: nat, d: nat)
    requires a <= b <= c <= d <= |file|
    ensures file[a..d] == file[a..b] + file[b..c] + file[c..d]
  {
    Adjacent(file, a, b, c);
    Adjacent(file, a, c, d);
  }

  /** The entries read from `position` on encode to the rest of the file. */
  lemma {:induction false} ReadItemsAreWritten(file: Bytes, position: nat, left: nat)
    requires EntriesFrom(file, position, left).Some?
    ensures
      var items := ItemsOf(EntriesFrom(file, position, left).value);
      position <= |file| && Encode(EntryBytes, items) == Some(file[position..])
    decreases left
  {
    if left == 0 {
      assert file[position..] == [] && ItemsOf([]) == [];
    } else {
      var p := EntryAt(file, position).value;
      OneStep(EntryAt, End, file, position, left, p);
      ReadItemsAreWritten(file, End(p), left - 1);
      EntryWritesBackInPlace(file, position);
      OneMoreRead(EntryBytes, file, position, p, EntriesFrom(file, End(p), left - 1).value);
    }
  }

  lemma OneMoreRead(f: Item -> Option<Bytes>, file: Bytes, position: nat, p: Parsed, rest: seq<Parsed>)
    requires position <= End(p) <= |file| && f(p.item) == Some(file[position..End(p)])
    requires Encode(f, ItemsOf(rest)) == Some(file[End(p)..])
    ensures Encode(f, ItemsOf([p] + rest)) == Some(file[position..])
  {
    assert ItemsOf([p] + rest) == [p.item] + ItemsOf(rest);
    EncodeInFront(f, file, position, End(p), p.item, ItemsOf(rest));
  }

  /** Any file that passes the preflight is, byte for byte, the archive of the items found in it. */
  lemma AcceptedArchivesAreExactlyWritten(file: Bytes)
    requires Preflighted(file).Some?
    ensures
      var items := ItemsOf(Preflighted(file).value);
      ArchiveBytes(items) == Some(file) && Structured(items) && |items| <= U64_MAX
  {
    var count := DecodeGlobal(file[..GLOBAL_HEADER]).value;
    ReadItemsAreWritten(file, GLOBAL_HEADER, count);
    GlobalHeaderIsExact(file[..GLOBAL_HEADER], count);
    assert file == file[..GLOBAL_HEADER] + file[GLOBAL_HEADER..];
  }

  /** The file is the archive of these items. */
  predicate Archives(file: Bytes, items: seq<Item>) {
    Structured(items) && |items| <= U64_MAX && ArchiveBytes(items) == Some(file)
  }

  /** The preflight accepts exactly the archives of structured items. */
  lemma PreflightAcceptsExactlyArchives(file: Bytes)
    ensures Preflighted(file).Some? <==> exists items :: Archives(file, items)
  {
    if Preflighted(file).Some? {
      AcceptedArchivesAreExactlyWritten(file);
      assert Archives(file, ItemsOf(Preflighted(file).value));
    }
    if items :| Archives(file, items) { PreflightSeesWhatWasWritten(items); }
  }
}
