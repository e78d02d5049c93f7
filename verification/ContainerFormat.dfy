/** The 160-byte container header: src/archive/container_format.cpp:63-75, 111-422 and 462-473. */
module ContainerFormat {
  import opened Common
  import opened ByteOrder

  const MAGIC: Bytes := [66, 75, 80, 67, 78, 84, 50, 0]
  const VERSION: nat := 2
  const HEADER: nat := 160
  const SALT_FIELD: nat := 16
  const IV_FIELD: nat := 16
  const TAG_FIELD: nat := 32
  const SHA256_FIELD: nat := 32
  const ITERATIONS: nat := 200_000
  const MAX_STREAM: nat := 0x400_0000_0000

  const ENC_NONE: byte := 0
  const ENC_DES: byte := 1
  const ENC_AES: byte := 2

  datatype ContainerHeader = ContainerHeader(
    packMethod: byte, compressionMethod: byte, encryptionMethod: byte, flags: byte,
    entryCount: nat, packedSize: nat, compressedSize: nat, payloadSize: nat, kdfIterations: nat,
    saltLen: byte, ivLen: byte, tagLen: byte, reserved0: byte,
    salt: Bytes, iv: Bytes, authTag: Bytes, payloadSha256: Bytes)

  // ----- sizes -----

  predicate IsAllowedStreamSize(size: nat) { size <= MAX_STREAM }

  function DesPaddedSize(plain: nat): nat {
    if plain > U64_MAX - 8 then U64_MAX else (plain / 8 + 1) * 8
  }

  /** The padding of section 10.3 of RFC 2315 for blocks of 8: at least one octet, up to the next
      multiple of 8; the rule saturates exactly where that length does not fit 64 bits. */
  lemma DesPaddedSizeIsPkcs7(plain: nat)
    requires plain <= U64_MAX
    ensures var padded := plain + (8 - plain % 8);
            && padded % 8 == 0 && plain < padded <= plain + 8
            && DesPaddedSize(plain) == if padded <= U64_MAX then padded else U64_MAX
  {}

  // ----- writing -----

  /** The ranges of the C++ field types. */
  predicate InWidth(h: ContainerHeader) {
    && h.entryCount <= U64_MAX && h.packedSize <= U64_MAX && h.compressedSize <= U64_MAX
    && h.payloadSize <= U64_MAX && h.kdfIterations <= U32_MAX
  }

  /** What EncodeContainerHeader accepts. */
  predicate Encodable(h: ContainerHeader) {
    && |h.salt| == h.saltLen && |h.iv| == h.ivLen && |h.authTag| == h.tagLen
    && |h.salt| <= SALT_FIELD && |h.iv| <= IV_FIELD && |h.authTag| <= TAG_FIELD && |h.payloadSha256| <= SHA256_FIELD
    && IsAllowedStreamSize(h.packedSize) && IsAllowedStreamSize(h.compressedSize) && IsAllowedStreamSize(h.payloadSize)
  }

  function FixedPart(h: ContainerHeader): (r: Bytes)
    ensures |r| == 56
  {
    MAGIC + LittleEndian(VERSION, 2) + LittleEndian(HEADER, 2)
    + [h.packMethod, h.compressionMethod, h.encryptionMethod, h.flags]
    + LittleEndian(h.entryCount, 8) + LittleEndian(h.packedSize, 8) + LittleEndian(h.compressedSize, 8)
    + LittleEndian(h.payloadSize, 8) + LittleEndian(h.kdfIterations, 4)
    + [h.saltLen, h.ivLen, h.tagLen, h.reserved0]
  }

  function PaddedPart(h: ContainerHeader): (r: Bytes)
    ensures |r| == 104
  {
    Padded(h.salt, SALT_FIELD) + Padded(h.iv, IV_FIELD) + Padded(h.authTag, TAG_FIELD)
    + Padded(h.payloadSha256, SHA256_FIELD) + Fill(8, 0)
  }

  function Encoded(h: ContainerHeader): (r: Bytes)
    ensures |r| == HEADER
  {
    FixedPart(h) + PaddedPart(h)
  }

  method StorePadded(value: Bytes, size: nat, out: Bytes) returns (r: Bytes)
    ensures r == out + Padded(value, size)
  {
    var take := if |value| < size then |value| else size;
    r := out + value[..take];
    r := r + Fill(size - take, 0);
    assert r == out + Padded(value, size);
  }

  method EncodeContainerHeader(h: ContainerHeader) returns (out: Option<Bytes>)
    requires InWidth(h)
    ensures out == if Encodable(h) then Some(Encoded(h)) else None
  {
    if |h.salt| != h.saltLen || |h.iv| != h.ivLen || |h.authTag| != h.tagLen { return None; }
    if |h.salt| > SALT_FIELD || |h.iv| > IV_FIELD || |h.authTag| > TAG_FIELD || |h.payloadSha256| > SHA256_FIELD {
      return None;
    }
    if !IsAllowedStreamSize(h.packedSize) || !IsAllowedStreamSize(h.compressedSize) || !IsAllowedStreamSize(h.payloadSize) {
      return None;
    }
    var bytes := EncodeFixedPart(h);
    bytes := EncodePaddedPart(h, bytes);
    return Some(bytes);
  }

  method EncodeFixedPart(h: ContainerHeader) returns (bytes: Bytes)
    ensures bytes == FixedPart(h)
  {
    bytes := MAGIC;
    bytes := AppendLE(bytes, VERSION, 2);
    bytes := AppendLE(bytes, HEADER, 2);
    bytes := bytes + [h.packMethod, h.compressionMethod, h.encryptionMethod, h.flags];
    bytes := AppendLE(bytes, h.entryCount, 8);
    bytes := AppendLE(bytes, h.packedSize, 8);
    bytes := AppendLE(bytes, h.compressedSize, 8);
    bytes := AppendLE(bytes, h.payloadSize, 8);
    bytes := AppendLE(bytes, h.kdfIterations, 4);
    bytes := bytes + [h.saltLen, h.ivLen, h.tagLen, h.reserved0];
  }

  method EncodePaddedPart(h: ContainerHeader, out: Bytes) returns (bytes: Bytes)
    ensures bytes == out + PaddedPart(h)
  {
    bytes := StorePadded(h.salt, SALT_FIELD, out);
    bytes := StorePadded(h.iv, IV_FIELD, bytes);
    bytes := StorePadded(h.authTag, TAG_FIELD, bytes);
    bytes := StorePadded(h.payloadSha256, SHA256_FIELD, bytes);
    bytes := bytes + Fill(8, 0);
    assert bytes == out + PaddedPart(h);
  }

  // ----- reading -----

  predicate KnownMethods(h: ContainerHeader) {
    h.packMethod <= 2 && h.compressionMethod <= 2 && h.encryptionMethod <= 2
  }

  /** Each encryption method admits one combination of key parameters. */
  predicate KeyParametersOk(h: ContainerHeader) {
    if h.encryptionMethod == ENC_NONE then h.kdfIterations == 0 && h.saltLen == 0 && h.ivLen == 0 && h.tagLen == 0
    else
      && h.kdfIterations == ITERATIONS && h.saltLen == 16 && h.tagLen == TAG_FIELD
      && h.ivLen == (if h.encryptionMethod == ENC_DES then 8 else 16)
  }

  predicate SizesAgree(h: ContainerHeader) {
    && (h.compressionMethod == 0 ==> h.compressedSize == h.packedSize)
    && h.payloadSize == if h.encryptionMethod == ENC_DES then DesPaddedSize(h.compressedSize) else h.compressedSize
  }

  /** The semantic rules of a container header. */
  predicate Meaningful(h: ContainerHeader) {
    && Encodable(h) && |h.payloadSha256| == SHA256_FIELD && h.flags == 0 && h.reserved0 == 0
    && KnownMethods(h) && KeyParametersOk(h) && SizesAgree(h) && h.entryCount != 0
  }

  predicate ZeroField(b: Bytes, from: nat, to: nat)
    requires to <= |b|
  {
    forall k :: from <= k < to ==> b[k] == 0
  }

  /** The fields at their offsets, salt, IV and tag cut to the lengths the header declares. */
  function RawHeader(b: Bytes): ContainerHeader
    requires |b| >= HEADER && b[52] <= 16 && b[53] <= 16 && b[54] <= 32
  {
    ContainerHeader(b[12], b[13], b[14], b[15], FromLittleEndian(b[16..24]), FromLittleEndian(b[24..32]),
                    FromLittleEndian(b[32..40]), FromLittleEndian(b[40..48]), FromLittleEndian(b[48..52]),
                    b[52], b[53], b[54], b[55], b[56..56 + b[52]], b[72..72 + b[53]], b[88..88 + b[54]], b[120..152])
  }

  /** DecodeContainerHeader; a longer buffer is read only up to the header's end. */
  function Decode(b: Bytes): Option<ContainerHeader> {
    if |b| < HEADER || b[..8] != MAGIC then None
    else if FromLittleEndian(b[8..10]) != VERSION || FromLittleEndian(b[10..12]) != HEADER then None
    else if !PaddingZero(b) then None
    else if Meaningful(RawHeader(b)) then Some(RawHeader(b))
    else None
  }

  lemma FixedSlices(h: ContainerHeader, b: Bytes)
    requires |b| >= 56 && b[..56] == FixedPart(h)
    ensures b[..8] == MAGIC && b[8..10] == LittleEndian(VERSION, 2) && b[10..12] == LittleEndian(HEADER, 2)
    ensures b[12] == h.packMethod && b[13] == h.compressionMethod && b[14] == h.encryptionMethod && b[15] == h.flags
    ensures b[16..24] == LittleEndian(h.entryCount, 8) && b[24..32] == LittleEndian(h.packedSize, 8)
    ensures b[32..40] == LittleEndian(h.compressedSize, 8) && b[40..48] == LittleEndian(h.payloadSize, 8)
    ensures b[48..52] == LittleEndian(h.kdfIterations, 4)
    ensures b[52] == h.saltLen && b[53] == h.ivLen && b[54] == h.tagLen && b[55] == h.reserved0
  {
    var f := FixedPart(h);
    assert forall k :: 0 <= k < 56 ==> b[k] == b[..56][k] == f[k];
    assert b[..8] == f[..8] && b[8..10] == f[8..10] && b[10..12] == f[10..12];
    assert b[16..24] == f[16..24] && b[24..32] == f[24..32] && b[32..40] == f[32..40];
    assert b[40..48] == f[40..48] && b[48..52] == f[48..52];
  }

  lemma PaddedSlices(h: ContainerHeader, b: Bytes)
    requires Encodable(h) && |h.payloadSha256| == SHA256_FIELD && |b| >= HEADER && b[56..160] == PaddedPart(h)
    ensures b[56..56 + h.saltLen] == h.salt && ZeroField(b, 56 + h.saltLen, 72)
    ensures b[72..72 + h.ivLen] == h.iv && ZeroField(b, 72 + h.ivLen, 88)
    ensures b[88..88 + h.tagLen] == h.authTag && ZeroField(b, 88 + h.tagLen, 120)
    ensures b[120..152] == h.payloadSha256 && ZeroField(b, 152, 160)
  {
    var f := PaddedPart(h);
    assert forall k :: 56 <= k < 160 ==> b[k] == b[56..160][k - 56] == f[k - 56];
    PaddedInPlace(f, 0, h.salt, SALT_FIELD);
    PaddedInPlace(f, 16, h.iv, IV_FIELD);
    PaddedInPlace(f, 32, h.authTag, TAG_FIELD);
    PaddedInPlace(f, 64, h.payloadSha256, SHA256_FIELD);
    assert b[56..56 + h.saltLen] == f[..h.saltLen] && b[72..72 + h.ivLen] == f[16..16 + h.ivLen];
    assert b[88..88 + h.tagLen] == f[32..32 + h.tagLen] && b[120..152] == f[64..96];
  }

  lemma PaddedInPlace(f: Bytes, at: nat, value: Bytes, size: nat)
    requires at + size <= |f| && |value| <= size && f[at..at + size] == Padded(value, size)
    ensures f[at..at + |value|] == value && forall k :: at + |value| <= k < at + size ==> f[k] == 0
  {
    var p := f[at..at + size];
    assert forall k :: at <= k < at + size ==> f[k] == p[k - at];
    assert f[at..at + |value|] == p[..|value|];
  }

  lemma FieldsReadBack(h: ContainerHeader, b: Bytes)
    requires InWidth(h) && |b| >= 56 && b[..56] == FixedPart(h)
    ensures FromLittleEndian(b[8..10]) == VERSION && FromLittleEndian(b[10..12]) == HEADER
    ensures FromLittleEndian(b[16..24]) == h.entryCount && FromLittleEndian(b[24..32]) == h.packedSize
    ensures FromLittleEndian(b[32..40]) == h.compressedSize && FromLittleEndian(b[40..48]) == h.payloadSize
    ensures FromLittleEndian(b[48..52]) == h.kdfIterations
  {
    Pow256Widths();
    FixedSlices(h, b);
    LittleEndianReadsBack(VERSION, 2);
    LittleEndianReadsBack(HEADER, 2);
    LittleEndianReadsBack(h.entryCount, 8);
    LittleEndianReadsBack(h.packedSize, 8);
    LittleEndianReadsBack(h.compressedSize, 8);
    LittleEndianReadsBack(h.payloadSize, 8);
    LittleEndianReadsBack(h.kdfIterations, 4);
  }

  lemma RawReadsBack(h: ContainerHeader, b: Bytes)
    requires InWidth(h) && Encodable(h) && |h.payloadSha256| == SHA256_FIELD && |b| == HEADER
    requires b[..56] == FixedPart(h) && b[56..160] == PaddedPart(h)
    ensures PaddingZero(b) && RawHeader(b) == h
    ensures b[..8] == MAGIC && FromLittleEndian(b[8..10]) == VERSION && FromLittleEndian(b[10..12]) == HEADER
  {
    BytesInPlace(h, b);
    PaddedSlices(h, b);
    FieldsReadBack(h, b);
  }

  lemma BytesInPlace(h: ContainerHeader, b: Bytes)
    requires |b| >= 56 && b[..56] == FixedPart(h)
    ensures b[..8] == MAGIC
    ensures b[12] == h.packMethod && b[13] == h.compressionMethod && b[14] == h.encryptionMethod && b[15] == h.flags
    ensures b[52] == h.saltLen && b[53] == h.ivLen && b[54] == h.tagLen && b[55] == h.reserved0
  {
    FixedSlices(h, b);
  }

  lemma HeaderReadsBack(h: ContainerHeader)
    requires InWidth(h) && Encodable(h) && |h.payloadSha256| == SHA256_FIELD
    ensures Decode(Encoded(h)) == if Meaningful(h) then Some(h) else None
  {
    var b := Encoded(h);
    assert b[..56] == FixedPart(h) && b[56..160] == PaddedPart(h);
    RawReadsBack(h, b);
  }

  lemma FixedPartWritesBack(b: Bytes)
    requires |b| >= HEADER && b[..8] == MAGIC && b[52] <= 16 && b[53] <= 16 && b[54] <= 32
    requires FromLittleEndian(b[8..10]) == VERSION && FromLittleEndian(b[10..12]) == HEADER
    ensures FixedPart(RawHeader(b)) == b[..56]
  {
    var h := RawHeader(b);
    assert FixedPart(h)[..56] == FixedPart(h);
    LittleEndianWritesBack(b[8..10]);
    LittleEndianWritesBack(b[10..12]);
    LittleEndianWritesBack(b[16..24]);
    LittleEndianWritesBack(b[24..32]);
    LittleEndianWritesBack(b[32..40]);
    LittleEndianWritesBack(b[40..48]);
    LittleEndianWritesBack(b[48..52]);
    FixedSlices(h, FixedPart(h));
    SlicesDetermine(b[..56], FixedPart(h));
  }

  lemma SlicesDetermine(a: Bytes, b: Bytes)
    requires |a| == |b| == 56 && a[..8] == b[..8] && a[8..10] == b[8..10] && a[10..12] == b[10..12]
    requires a[12] == b[12] && a[13] == b[13] && a[14] == b[14] && a[15] == b[15]
    requires a[16..24] == b[16..24] && a[24..32] == b[24..32] && a[32..40] == b[32..40] && a[40..48] == b[40..48]
    requires a[48..52] == b[48..52] && a[52] == b[52] && a[53] == b[53] && a[54] == b[54] && a[55] == b[55]
    ensures a == b
  {
    assert a == a[..8] + a[8..10] + a[10..12] + [a[12], a[13], a[14], a[15]] + a[16..24] + a[24..32] + a[32..40]
                + a[40..48] + a[48..52] + [a[52], a[53], a[54], a[55]];
    assert b == b[..8] + b[8..10] + b[10..12] + [b[12], b[13], b[14], b[15]] + b[16..24] + b[24..32] + b[32..40]
                + b[40..48] + b[48..52] + [b[52], b[53], b[54], b[55]];
  }

  lemma PaddedPartWritesBack(b: Bytes)
    requires |b| >= HEADER && PaddingZero(b)
    ensures PaddedPart(RawHeader(b)) == b[56..160]
  {
    var h := RawHeader(b);
    assert b[56..72] == Padded(h.salt, SALT_FIELD);
    assert b[72..88] == Padded(h.iv, IV_FIELD);
    assert b[88..120] == Padded(h.authTag, TAG_FIELD);
    assert b[120..152] == Padded(h.payloadSha256, SHA256_FIELD);
    assert b[152..160] == Fill(8, 0);
    assert b[56..160] == b[56..72] + b[72..88] + b[88..120] + b[120..152] + b[152..160];
  }

  lemma DecodedIsInWidth(b: Bytes)
    requires Decode(b).Some?
    ensures InWidth(Decode(b).value)
  {
    Pow256Widths();
  }

  lemma DecodedIsEncoding(b: Bytes)
    requires |b| == HEADER && Decode(b).Some?
    ensures InWidth(Decode(b).value) && Meaningful(Decode(b).value) && b == Encoded(Decode(b).value)
  {
    DecodedIsInWidth(b);
    RawIsEncoding(b);
  }

  lemma RawIsEncoding(b: Bytes)
    requires |b| == HEADER && b[..8] == MAGIC && PaddingZero(b)
    requires FromLittleEndian(b[8..10]) == VERSION && FromLittleEndian(b[10..12]) == HEADER
    ensures Encoded(RawHeader(b)) == b
  {
    FixedPartWritesBack(b);
    PaddedPartWritesBack(b);
    assert b == b[..56] + b[56..160];
  }

  /** 160 bytes decode to `h` exactly when `h` keeps the semantic rules and they are its encoding. */
  lemma HeaderIsExact(b: Bytes, h: ContainerHeader)
    requires |b| == HEADER
    ensures Decode(b) == Some(h) <==> InWidth(h) && Meaningful(h) && b == Encoded(h)
  {
    if Decode(b).Some? { DecodedIsEncoding(b); }
    if InWidth(h) && Meaningful(h) { HeaderReadsBack(h); }
  }

  /** What the writer makes of a header is readable exactly when the header keeps the semantic rules
      once its digest is padded to 32 bytes; the writer itself does not ask for that. */
  lemma WrittenHeaderIsReadableExactlyWhen(h: ContainerHeader)
    requires InWidth(h) && Encodable(h)
    ensures
      var full := h.(payloadSha256 := Padded(h.payloadSha256, SHA256_FIELD));
      Decode(Encoded(h)) == if Meaningful(full) then Some(full) else None
  {
    var full := h.(payloadSha256 := Padded(h.payloadSha256, SHA256_FIELD));
    assert Padded(full.payloadSha256, SHA256_FIELD) == full.payloadSha256;
    assert Encoded(full) == Encoded(h);
    HeaderReadsBack(full);
  }

  /** A header with no entries is written but refused by the reader. */
  lemma EmptyContainersAreNotReadBack(h: ContainerHeader)
    requires InWidth(h) && Encodable(h) && h.entryCount == 0
    ensures Decode(Encoded(h)).None?
  {
    WrittenHeaderIsReadableExactlyWhen(h);
  }

  /** The sized fields, read with a moving cursor. */
  method ReadNumbers(b: Bytes) returns (entries: nat, packed: nat, compressed: nat, payload: nat, iterations: nat)
    requires |b| >= HEADER
    ensures entries == FromLittleEndian(b[16..24]) && packed == FromLittleEndian(b[24..32])
    ensures compressed == FromLittleEndian(b[32..40]) && payload == FromLittleEndian(b[40..48])
    ensures iterations == FromLittleEndian(b[48..52])
  {
    var ok, cursor;
    ok, entries, cursor := ReadLE(b, 16, 8);
    ok, packed, cursor := ReadLE(b, cursor, 8);
    ok, compressed, cursor := ReadLE(b, cursor, 8);
    ok, payload, cursor := ReadLE(b, cursor, 8);
    ok, iterations, cursor := ReadLE(b, cursor, 4);
  }

  /** The whitelist of the format layer, then the rules that tie algorithms, lengths and sizes. */
  method CheckRules(h: ContainerHeader) returns (ok: bool)
    requires |h.salt| == h.saltLen <= 16 && |h.iv| == h.ivLen <= 16 && |h.authTag| == h.tagLen <= 32
    requires |h.payloadSha256| == SHA256_FIELD
    ensures ok <==> Meaningful(h)
  {
    if h.flags != 0 || h.reserved0 != 0 { return false; }
    if h.packMethod > 2 || h.compressionMethod > 2 || h.encryptionMethod > 2 { return false; }
    if h.encryptionMethod == ENC_NONE {
      if h.kdfIterations != 0 || h.saltLen != 0 || h.ivLen != 0 || h.tagLen != 0 { return false; }
    } else if h.encryptionMethod == ENC_DES {
      if h.kdfIterations != ITERATIONS || h.saltLen != 16 || h.ivLen != 8 || h.tagLen != 32 { return false; }
    } else {
      if h.kdfIterations != ITERATIONS || h.saltLen != 16 || h.ivLen != 16 || h.tagLen != 32 { return false; }
    }
    if !IsAllowedStreamSize(h.packedSize) || !IsAllowedStreamSize(h.compressedSize) || !IsAllowedStreamSize(h.payloadSize) {
      return false;
    }
    if h.compressionMethod == 0 && h.compressedSize != h.packedSize { return false; }
    if h.encryptionMethod == ENC_NONE || h.encryptionMethod == ENC_AES {
      if h.payloadSize != h.compressedSize { return false; }
    } else if h.payloadSize != DesPaddedSize(h.compressedSize) {
      return false;
    }
    return h.entryCount != 0;
  }

  method DecodeContainerHeader(b: Bytes) returns (h: Option<ContainerHeader>)
    ensures h == Decode(b)
  {
    if |b| < HEADER { return None; }
    if b[..8] != MAGIC { return None; }
    var ok, version, cursor := ReadLE(b, 8, 2);
    var headerSize;
    ok, headerSize, cursor := ReadLE(b, cursor, 2);
    if version != VERSION || headerSize != HEADER { return None; }
    var clean := PaddingIsZero(b);
    if !clean { return None; }
    var entries, packed, compressed, payload, iterations := ReadNumbers(b);
    var decoded := ContainerHeader(b[12], b[13], b[14], b[15], entries, packed, compressed, payload, iterations,
                                   b[52], b[53], b[54], b[55], b[56..56 + b[52]], b[72..72 + b[53]],
                                   b[88..88 + b[54]], b[120..152]);
    ok := CheckRules(decoded);
    return if ok then Some(decoded) else None;
  }

  /** The declared lengths fit their fields, and what they leave unused is zero. */
  predicate PaddingZero(b: Bytes)
    requires |b| >= HEADER
  {
    && b[52] <= 16 && b[53] <= 16 && b[54] <= 32 && ZeroField(b, 152, 160)
    && ZeroField(b, 56 + b[52], 72) && ZeroField(b, 72 + b[53], 88) && ZeroField(b, 88 + b[54], 120)
  }

  method PaddingIsZero(b: Bytes) returns (ok: bool)
    requires |b| >= HEADER
    ensures ok <==> PaddingZero(b)
  {
    ok := IsZeroField(b, 152, 160);
    if !ok { return; }
    if b[52] > 16 || b[53] > 16 || b[54] > 32 { return false; }
    ok := IsZeroField(b, 56 + b[52], 72);
    if !ok { return; }
    ok := IsZeroField(b, 72 + b[53], 88);
    if !ok { return; }
    ok := IsZeroField(b, 88 + b[54], 120);
  }

  method IsZeroField(b: Bytes, from: nat, to: nat) returns (ok: bool)
    requires from <= to <= |b|
    ensures ok <==> ZeroField(b, from, to)
  {
    for k := from to to
      invariant forall i :: from <= i < k ==> b[i] == 0
    {
      if b[k] != 0 { return false; }
    }
    return true;
  }

  // ----- the authenticated form -----

  function Normalized(h: ContainerHeader): ContainerHeader { h.(authTag := Fill(h.tagLen, 0)) }

  /** The bytes the MAC covers; empty when the header cannot be encoded. */
  function NormalizedHeaderForMac(h: ContainerHeader): Bytes {
    if Encodable(Normalized(h)) then Encoded(Normalized(h)) else []
  }

  /** Of two readable headers, the MAC covers the same bytes exactly when they agree in everything but
      the tag itself. */
  lemma MacCoversEverythingButTheTag(a: ContainerHeader, b: ContainerHeader)
    requires InWidth(a) && Meaningful(a) && InWidth(b) && Meaningful(b)
    ensures NormalizedHeaderForMac(a) == NormalizedHeaderForMac(b) <==> a.(authTag := b.authTag) == b
    ensures |NormalizedHeaderForMac(a)| == HEADER
  {
    HeaderIsExact(Encoded(Normalized(a)), Normalized(a));
    HeaderIsExact(Encoded(Normalized(b)), Normalized(b));
  }
}
