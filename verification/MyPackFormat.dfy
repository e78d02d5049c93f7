/** The fixed headers of MyPack v2: src/archive/mypack_v2.cpp:83-117 and 346-546. */
module MyPackFormat {
  import opened Common
  import opened Entries
  import opened ByteOrder
  import opened Layout

  const MAGIC: Bytes := [66, 75, 80, 65, 82, 67, 72, 0]
  const VERSION: nat := 2
  const FLAGS: nat := 0
  const GLOBAL_HEADER: nat := 32
  const ENTRY_HEADER: nat := 64
  const PERMISSION_MASK: nat := 4095
  const MAX_MTIME_NSEC: nat := 999_999_999
  const MAX_LINK_LENGTH: nat := 4096
  const MAX_PATH_LENGTH: nat := 4096

  // ----- the global header -----

  function GlobalHeader(count: nat): (r: Bytes)
    ensures |r| == GLOBAL_HEADER
  {
    MAGIC + LittleEndian(VERSION, 2) + LittleEndian(FLAGS, 2) + LittleEndian(GLOBAL_HEADER, 4)
    + LittleEndian(count, 8) + Fill(8, 0)
  }

  function DecodeGlobal(b: Bytes): Option<nat> {
    if |b| != GLOBAL_HEADER || b[..8] != MAGIC then None
    else if FromLittleEndian(b[8..10]) != VERSION || FromLittleEndian(b[10..12]) != FLAGS then None
    else if FromLittleEndian(b[12..16]) != GLOBAL_HEADER || b[24..] != Fill(8, 0) then None
    else Some(FromLittleEndian(b[16..24]))
  }

  /** Exactly the encodings decode. */
  lemma GlobalHeaderIsExact(b: Bytes, count: nat)
    ensures DecodeGlobal(b) == Some(count) <==> b == GlobalHeader(count) && count <= U64_MAX
  {
    Pow256Widths();
    if |b| == GLOBAL_HEADER {
      GlobalSlices(GlobalHeader(count), count);
      LittleEndianIsExact(b[8..10], VERSION);
      LittleEndianIsExact(b[10..12], FLAGS);
      LittleEndianIsExact(b[12..16], GLOBAL_HEADER);
      LittleEndianIsExact(b[16..24], count);
      assert b == b[..8] + b[8..10] + b[10..12] + b[12..16] + b[16..24] + b[24..];
    }
  }

  lemma GlobalSlices(h: Bytes, count: nat)
    requires h == GlobalHeader(count)
    ensures h[..8] == MAGIC && h[8..10] == LittleEndian(VERSION, 2) && h[10..12] == LittleEndian(FLAGS, 2)
    ensures h[12..16] == LittleEndian(GLOBAL_HEADER, 4) && h[16..24] == LittleEndian(count, 8) && h[24..] == Fill(8, 0)
  {
    var size := LittleEndian(GLOBAL_HEADER, 4);
    FiveParts(MAGIC, LittleEndian(VERSION, 2), LittleEndian(FLAGS, 2), size, LittleEndian(count, 8) + Fill(8, 0));
    assert h == MAGIC + LittleEndian(VERSION, 2) + LittleEndian(FLAGS, 2) + size + (LittleEndian(count, 8) + Fill(8, 0));
    assert h[16..24] == h[16..][..8] && h[24..] == h[16..][8..];
  }

  method EncodeGlobalHeader(count: nat) returns (out: Bytes)
    requires count <= U64_MAX
    ensures out == GlobalHeader(count)
  {
    out := MAGIC;
    out := AppendLE(out, VERSION, 2);
    out := AppendLE(out, FLAGS, 2);
    out := AppendLE(out, GLOBAL_HEADER, 4);
    out := AppendLE(out, count, 8);
    out := out + Fill(8, 0);
  }

  method DecodeGlobalHeader(b: Bytes) returns (count: Option<nat>)
    requires |b| == GLOBAL_HEADER
    ensures count == DecodeGlobal(b)
  {
    if b[..8] != MAGIC { return None; }
    var ok, version, cursor := ReadLE(b, 8, 2);
    var flags, headerSize, entries;
    ok, flags, cursor := ReadLE(b, cursor, 2);
    ok, headerSize, cursor := ReadLE(b, cursor, 4);
    ok, entries, cursor := ReadLE(b, cursor, 8);
    if version != VERSION || flags != FLAGS || headerSize != GLOBAL_HEADER { return None; }
    var clean := RestIsZero(b, cursor);
    if !clean { return None; }
    return Some(entries);
  }

  // ----- entry headers -----

  datatype Fields = Fields(
    kind: EntryType, pathLength: nat, linkLength: nat, mode: nat, uid: nat, gid: nat, mtimeNsec: nat,
    mtimeSec: int, payloadSize: nat, devMajor: nat, devMinor: nat)

  function TypeId(kind: EntryType): byte {
    match kind
    case Directory => 1
    case RegularFile => 2
    case Symlink => 3
    case HardLink => 4
    case Fifo => 5
    case CharDevice => 6
    case BlockDevice => 7
    case Socket => 8
  }

  function TypeFromId(id: byte): Option<EntryType> {
    if id == 1 then Some(Directory)
    else if id == 2 then Some(RegularFile)
    else if id == 3 then Some(Symlink)
    else if id == 4 then Some(HardLink)
    else if id == 5 then Some(Fifo)
    else if id == 6 then Some(CharDevice)
    else if id == 7 then Some(BlockDevice)
    else None
  }

  /** Links have a target and nothing else, regular files content and no target, the rest neither. */
  predicate KindAllows(kind: EntryType, linkLength: nat, payloadSize: nat) {
    match kind
    case Directory | Fifo | CharDevice | BlockDevice => linkLength == 0 && payloadSize == 0
    case Symlink | HardLink => linkLength != 0 && payloadSize == 0
    case RegularFile => linkLength == 0
    case Socket => false
  }

  /** What a well-formed entry header may say. */
  predicate FieldsOk(f: Fields) {
    && InRange(f) && f.uid <= U32_MAX && f.gid <= U32_MAX && f.devMajor <= U32_MAX && f.devMinor <= U32_MAX
    && FitsI64(f.mtimeSec) && f.payloadSize <= U64_MAX
  }

  function EntryHeader(f: Fields): (r: Bytes)
    ensures |r| == ENTRY_HEADER
  {
    [TypeId(f.kind), 0] + LittleEndian(0, 2) + LittleEndian(f.pathLength, 4) + LittleEndian(f.linkLength, 4)
    + LittleEndian(f.mode, 4) + LittleEndian(f.uid, 4) + LittleEndian(f.gid, 4) + LittleEndian(f.mtimeNsec, 4)
    + LittleEndian(ToUnsigned(f.mtimeSec), 8) + LittleEndian(f.payloadSize, 8)
    + LittleEndian(f.devMajor, 4) + LittleEndian(f.devMinor, 4) + Fill(12, 0)
  }

  function RawFields(b: Bytes, kind: EntryType): Fields
    requires |b| == ENTRY_HEADER
  {
    Fields(kind, FromLittleEndian(b[4..8]), FromLittleEndian(b[8..12]), FromLittleEndian(b[12..16]),
           FromLittleEndian(b[16..20]), FromLittleEndian(b[20..24]), FromLittleEndian(b[24..28]),
           ToSigned(FromLittleEndian(b[28..36])), FromLittleEndian(b[36..44]),
           FromLittleEndian(b[44..48]), FromLittleEndian(b[48..52]))
  }

  predicate InRange(f: Fields) {
    && 1 <= f.pathLength <= MAX_PATH_LENGTH && f.linkLength <= MAX_LINK_LENGTH && f.mode <= PERMISSION_MASK
    && f.mtimeNsec <= MAX_MTIME_NSEC && KindAllows(f.kind, f.linkLength, f.payloadSize)
  }

  function DecodeEntry(b: Bytes): Option<Fields> {
    if |b| != ENTRY_HEADER || b[1] != 0 || FromLittleEndian(b[2..4]) != 0 || b[52..] != Fill(12, 0) then None
    else
      match TypeFromId(b[0])
      case None => None
      case Some(kind) => if InRange(RawFields(b, kind)) then Some(RawFields(b, kind)) else None
  }

  lemma EntryHeaderSlices(f: Fields)
    ensures
      var h := EntryHeader(f);
      && h[0] == TypeId(f.kind) && h[1] == 0 && h[2..4] == LittleEndian(0, 2)
      && h[4..8] == LittleEndian(f.pathLength, 4) && h[8..12] == LittleEndian(f.linkLength, 4)
      && h[12..16] == LittleEndian(f.mode, 4) && h[16..20] == LittleEndian(f.uid, 4)
      && h[20..24] == LittleEndian(f.gid, 4) && h[24..28] == LittleEndian(f.mtimeNsec, 4)
      && h[28..36] == LittleEndian(ToUnsigned(f.mtimeSec), 8) && h[36..44] == LittleEndian(f.payloadSize, 8)
      && h[44..48] == LittleEndian(f.devMajor, 4) && h[48..52] == LittleEndian(f.devMinor, 4)
      && h[52..] == Fill(12, 0)
  {}

  lemma LowerFieldsReadBack(f: Fields, h: Bytes)
    requires FieldsOk(f) && h == EntryHeader(f)
    ensures FromLittleEndian(h[2..4]) == 0
    ensures FromLittleEndian(h[4..8]) == f.pathLength && FromLittleEndian(h[8..12]) == f.linkLength
    ensures FromLittleEndian(h[12..16]) == f.mode && FromLittleEndian(h[16..20]) == f.uid
    ensures FromLittleEndian(h[20..24]) == f.gid && FromLittleEndian(h[24..28]) == f.mtimeNsec
  {
    Pow256Widths();
    EntryHeaderSlices(f);
    LittleEndianReadsBack(0, 2);
    LittleEndianReadsBack(f.pathLength, 4);
    LittleEndianReadsBack(f.linkLength, 4);
    LittleEndianReadsBack(f.mode, 4);
    LittleEndianReadsBack(f.uid, 4);
    LittleEndianReadsBack(f.gid, 4);
    LittleEndianReadsBack(f.mtimeNsec, 4);
  }

  lemma UpperFieldsReadBack(f: Fields, h: Bytes)
    requires FieldsOk(f) && h == EntryHeader(f)
    ensures ToSigned(FromLittleEndian(h[28..36])) == f.mtimeSec && FromLittleEndian(h[36..44]) == f.payloadSize
    ensures FromLittleEndian(h[44..48]) == f.devMajor && FromLittleEndian(h[48..52]) == f.devMinor
  {
    Pow256Widths();
    EntryHeaderSlices(f);
    LittleEndianReadsBack(ToUnsigned(f.mtimeSec), 8);
    LittleEndianReadsBack(f.payloadSize, 8);
    LittleEndianReadsBack(f.devMajor, 4);
    LittleEndianReadsBack(f.devMinor, 4);
    SignedRoundTrip(f.mtimeSec, 0);
  }

  lemma EntryReadsBack(f: Fields)
    requires FieldsOk(f)
    ensures DecodeEntry(EntryHeader(f)) == Some(f)
  {
    EntryHeaderSlices(f);
    RawReadsBack(f, EntryHeader(f));
    LowerFieldsReadBack(f, EntryHeader(f));
  }

  lemma RawReadsBack(f: Fields, h: Bytes)
    requires FieldsOk(f) && h == EntryHeader(f)
    ensures RawFields(h, f.kind) == f
  {
    LowerFieldsReadBack(f, h);
    UpperFieldsReadBack(f, h);
  }

  lemma DecodedFieldsAreOk(b: Bytes)
    requires DecodeEntry(b).Some?
    ensures FieldsOk(DecodeEntry(b).value)
  {
    Pow256Widths();
    SignedRoundTrip(0, FromLittleEndian(b[28..36]));
  }

  lemma EntryWritesBack(b: Bytes)
    requires DecodeEntry(b).Some?
    ensures EntryHeader(DecodeEntry(b).value) == b
  {
    RawWritesBack(b, DecodeEntry(b).value);
  }

  lemma RawWritesBack(b: Bytes, f: Fields)
    requires |b| == ENTRY_HEADER && b[0] == TypeId(f.kind) && b[1] == 0 && FromLittleEndian(b[2..4]) == 0
    requires b[52..] == Fill(12, 0) && f == RawFields(b, f.kind)
    ensures EntryHeader(f) == b
  {
    LittleEndianWritesBack(b[2..4]);
    LowerFieldsWriteBack(b, f);
    UpperFieldsWriteBack(b, f);
    EntryHeaderSlices(f);
    SlicesDetermine(b, EntryHeader(f));
  }

  lemma LowerFieldsWriteBack(b: Bytes, f: Fields)
    requires |b| == ENTRY_HEADER && f == RawFields(b, f.kind)
    ensures LittleEndian(f.pathLength, 4) == b[4..8] && LittleEndian(f.linkLength, 4) == b[8..12]
    ensures LittleEndian(f.mode, 4) == b[12..16] && LittleEndian(f.uid, 4) == b[16..20]
    ensures LittleEndian(f.gid, 4) == b[20..24] && LittleEndian(f.mtimeNsec, 4) == b[24..28]
  {
    LittleEndianWritesBack(b[4..8]);
    LittleEndianWritesBack(b[8..12]);
    LittleEndianWritesBack(b[12..16]);
    LittleEndianWritesBack(b[16..20]);
    LittleEndianWritesBack(b[20..24]);
    LittleEndianWritesBack(b[24..28]);
  }

  lemma UpperFieldsWriteBack(b: Bytes, f: Fields)
    requires |b| == ENTRY_HEADER && f == RawFields(b, f.kind)
    ensures LittleEndian(ToUnsigned(f.mtimeSec), 8) == b[28..36] && LittleEndian(f.payloadSize, 8) == b[36..44]
    ensures LittleEndian(f.devMajor, 4) == b[44..48] && LittleEndian(f.devMinor, 4) == b[48..52]
  {
    Pow256Widths();
    LittleEndianWritesBack(b[28..36]);
    LittleEndianWritesBack(b[36..44]);
    LittleEndianWritesBack(b[44..48]);
    LittleEndianWritesBack(b[48..52]);
    SignedRoundTrip(0, FromLittleEndian(b[28..36]));
  }

  lemma SlicesDetermine(a: Bytes, b: Bytes)
    requires |a| == |b| == ENTRY_HEADER && a[0] == b[0] && a[1] == b[1] && a[2..4] == b[2..4]
    requires a[4..8] == b[4..8] && a[8..12] == b[8..12] && a[12..16] == b[12..16] && a[16..20] == b[16..20]
    requires a[20..24] == b[20..24] && a[24..28] == b[24..28] && a[28..36] == b[28..36] && a[36..44] == b[36..44]
    requires a[44..48] == b[44..48] && a[48..52] == b[48..52] && a[52..] == b[52..]
    ensures a == b
  {
    assert a == [a[0], a[1]] + a[2..4] + a[4..8] + a[8..12] + a[12..16] + a[16..20] + a[20..24] + a[24..28]
                + a[28..36] + a[36..44] + a[44..48] + a[48..52] + a[52..];
    assert b == [b[0], b[1]] + b[2..4] + b[4..8] + b[8..12] + b[12..16] + b[16..20] + b[20..24] + b[24..28]
                + b[28..36] + b[36..44] + b[44..48] + b[48..52] + b[52..];
  }

  /** Exactly the encodings of well-formed fields decode. */
  lemma EntryHeaderIsExact(b: Bytes, f: Fields)
    ensures DecodeEntry(b) == Some(f) <==> FieldsOk(f) && b == EntryHeader(f)
  {
    if DecodeEntry(b).Some? {
      DecodedFieldsAreOk(b);
      EntryWritesBack(b);
    }
    if FieldsOk(f) { EntryReadsBack(f); }
  }

  method EncodeEntryHeader(f: Fields) returns (out: Bytes)
    requires FieldsOk(f)
    ensures out == EntryHeader(f)
  {
    out := [TypeId(f.kind), 0];
    out := AppendLE(out, 0, 2);
    out := AppendLE(out, f.pathLength, 4);
    out := AppendLE(out, f.linkLength, 4);
    out := AppendLE(out, f.mode, 4);
    out := AppendLE(out, f.uid, 4);
    out := AppendLE(out, f.gid, 4);
    out := AppendLE(out, f.mtimeNsec, 4);
    out := AppendLE(out, ToUnsigned(f.mtimeSec), 8);
    out := AppendLE(out, f.payloadSize, 8);
    out := AppendLE(out, f.devMajor, 4);
    out := AppendLE(out, f.devMinor, 4);
    out := out + Fill(12, 0);
  }

  /** The fields up to byte 28. */
  method ReadLowerFields(b: Bytes) returns (pathLength: nat, linkLength: nat, mode: nat, uid: nat, gid: nat, nsec: nat)
    requires |b| == ENTRY_HEADER
    ensures pathLength == FromLittleEndian(b[4..8]) && linkLength == FromLittleEndian(b[8..12])
    ensures mode == FromLittleEndian(b[12..16]) && uid == FromLittleEndian(b[16..20])
    ensures gid == FromLittleEndian(b[20..24]) && nsec == FromLittleEndian(b[24..28])
  {
    var ok, cursor;
    ok, pathLength, cursor := ReadLE(b, 4, 4);
    ok, linkLength, cursor := ReadLE(b, cursor, 4);
    ok, mode, cursor := ReadLE(b, cursor, 4);
    ok, uid, cursor := ReadLE(b, cursor, 4);
    ok, gid, cursor := ReadLE(b, cursor, 4);
    ok, nsec, cursor := ReadLE(b, cursor, 4);
  }

  method ReadFields(b: Bytes, kind: EntryType) returns (f: Fields)
    requires |b| == ENTRY_HEADER
    ensures f == RawFields(b, kind)
  {
    var pathLength, linkLength, mode, uid, gid, nsec := ReadLowerFields(b);
    var ok, sec, cursor := ReadLE(b, 28, 8);
    var size, major, minor;
    ok, size, cursor := ReadLE(b, cursor, 8);
    ok, major, cursor := ReadLE(b, cursor, 4);
    ok, minor, cursor := ReadLE(b, cursor, 4);
    f := Fields(kind, pathLength, linkLength, mode, uid, gid, nsec, ToSigned(sec), size, major, minor);
  }

  method DecodeEntryHeader(b: Bytes) returns (fields: Option<Fields>)
    requires |b| == ENTRY_HEADER
    ensures fields == DecodeEntry(b)
  {
    var ok, reserved0, cursor := ReadLE(b, 2, 2);
    var clean := RestIsZero(b, 52);
    if !clean { return None; }
    if b[1] != 0 || reserved0 != 0 { return None; }
    var kind := TypeFromId(b[0]);
    if kind.None? { return None; }
    var f := ReadFields(b, kind.value);
    if f.pathLength == 0 || f.pathLength > MAX_PATH_LENGTH || f.linkLength > MAX_LINK_LENGTH { return None; }
    if f.mode > PERMISSION_MASK || f.mtimeNsec > MAX_MTIME_NSEC { return None; }
    if !KindAllows(f.kind, f.linkLength, f.payloadSize) { return None; }
    return Some(f);
  }
}
