/**
 One 512-byte ustar header block: src/archive/ustar.cpp:279-346, 1064-1153, 1162-1448, laid out as
 in the ustar Interchange Format section of POSIX.1-2017 (pax utility).
*/
module UstarHeader {
  import opened Common
  import opened Entries
  import opened Octal
  import opened UstarPath
  import opened Layout

  const BLOCK: nat := 512
  const LINK_SIZE: nat := 100
  const OWNER_SIZE: nat := 32
  const OWNER_NAME_LENGTH: nat := 31
  const MAX_MODE: nat := 4095
  const MAGIC: Bytes := [117, 115, 116, 97, 114, 0]
  const VERSION: Bytes := [48, 48]

  datatype Header = Header(
    typeflag: byte, name: Bytes, prefix: Bytes, linkname: Bytes, mode: nat, uid: nat, gid: nat,
    size: nat, mtime: int, devmajor: nat, devminor: nat, uname: Bytes, gname: Bytes)

  // ----- type flags -----

  function TypeFlagFor(kind: EntryType): byte {
    match kind
    case RegularFile => 48
    case HardLink => 49
    case Symlink => 50
    case CharDevice => 51
    case BlockDevice => 52
    case Directory => 53
    case Fifo => 54
    case Socket => 115
  }

  function TypeFromFlag(flag: byte): Option<EntryType> {
    if flag == 48 || flag == 0 then Some(RegularFile)
    else if flag == 49 then Some(HardLink)
    else if flag == 50 then Some(Symlink)
    else if flag == 51 then Some(CharDevice)
    else if flag == 52 then Some(BlockDevice)
    else if flag == 53 then Some(Directory)
    else if flag == 54 then Some(Fifo)
    else None
  }

  /** Every type but the socket reads back as itself. */
  lemma FlagsReadBack(kind: EntryType)
    ensures TypeFromFlag(TypeFlagFor(kind)) == if kind == Socket then None else Some(kind)
  {}

  predicate NamesTarget(kind: EntryType) { kind == Symlink || kind == HardLink }

  // ----- character fields -----

  function NulAt(f: Bytes, i: nat): (e: nat)
    requires i <= |f|
    ensures i <= e <= |f| && (e < |f| ==> f[e] == 0)
    ensures forall k :: i <= k < e ==> f[k] != 0
    decreases |f| - i
  {
    if i < |f| && f[i] != 0 then NulAt(f, i + 1) else i
  }

  /** The text before the first NUL, if only NULs follow it. */
  function Text(f: Bytes): Option<Bytes> {
    var n := NulAt(f, 0);
    if forall k :: n <= k < |f| ==> f[k] == 0 then Some(f[..n]) else None
  }

  /** Text and padding are inverses: a field reads as `value` exactly when it is `value` padded. */
  lemma TextReadsExactlyPadded(f: Bytes, value: Bytes)
    ensures Text(f) == Some(value) <==> |value| <= |f| && NoNul(value) && f == Padded(value, |f|)
  {
    if |value| <= |f| && NoNul(value) && f == Padded(value, |f|) {
      forall k | 0 <= k < |value| ensures f[k] != 0 { assert f[k] == value[k]; }
      assert |value| < |f| ==> f[|value|] == Fill(|f| - |value|, 0)[0];
      assert NulAt(f, 0) == |value|;
      assert f[..|value|] == value;
    }
    if Text(f) == Some(value) {
      assert f == Padded(value, |f|);
    }
  }

  method AppendFixedField(block: array<byte>, offset: nat, size: nat, value: Bytes) returns (ok: bool)
    requires offset + size <= block.Length
    modifies block
    ensures ok <==> NoNul(value) && |value| <= size
    ensures ok ==> block[offset..offset + size] == Padded(value, size)
    ensures forall k :: 0 <= k < block.Length && !(offset <= k < offset + size) ==> block[k] == old(block[k])
  {
    if exists k :: 0 <= k < |value| && value[k] == 0 { return false; }
    if |value| > size { return false; }
    forall i | 0 <= i < |value| {
      block[offset + i] := value[i];
    }
    forall i | offset + |value| <= i < offset + size {
      block[i] := 0;
    }
    assert block[offset..offset + size] == Padded(value, size);
    return true;
  }

  method DecodeFixedField(f: Bytes) returns (text: Option<Bytes>)
    ensures text == Text(f)
  {
    var length := 0;
    while length < |f| && f[length] != 0
      invariant 0 <= length <= |f| && NulAt(f, 0) == NulAt(f, length)
    {
      length := length + 1;
    }
    for i := length to |f|
      invariant forall k :: length <= k < i ==> f[k] == 0
    {
      if f[i] != 0 { return None; }
    }
    return Some(f[..length]);
  }

  // ----- checksum -----

  function Sum(s: Bytes): nat {
    if s == [] then 0 else Sum(s[..|s| - 1]) + s[|s| - 1]
  }

  lemma {:induction false} SumBound(s: Bytes)
    ensures Sum(s) <= 255 * |s|
  {
    if s != [] { SumBound(s[..|s| - 1]); }
  }

  const CHECKSUM_OFFSET: nat := 148
  const EIGHT_SPACES: Bytes := [32, 32, 32, 32, 32, 32, 32, 32]

  /** The block with spaces in place of its checksum field. */
  function Masked(block: Bytes): (r: Bytes)
    requires |block| == BLOCK
    ensures |r| == BLOCK
  {
    block[..CHECKSUM_OFFSET] + EIGHT_SPACES + block[CHECKSUM_OFFSET + 8..]
  }

  function Checksum(block: Bytes): nat
    requires |block| == BLOCK
  {
    Sum(Masked(block))
  }

  /** The checksum does not depend on the field that stores it. */
  lemma ChecksumIgnoresItsField(a: Bytes, b: Bytes)
    requires |a| == |b| == BLOCK
    requires a[..CHECKSUM_OFFSET] == b[..CHECKSUM_OFFSET] && a[CHECKSUM_OFFSET + 8..] == b[CHECKSUM_OFFSET + 8..]
    ensures Checksum(a) == Checksum(b)
  {}

  method ComputeChecksum(block: array<byte>) returns (sum: nat)
    requires block.Length == BLOCK
    ensures sum == Checksum(block[..])
  {
    sum := 0;
    ghost var masked := Masked(block[..]);
    for i := 0 to BLOCK
      invariant sum == Sum(masked[..i])
    {
      var inField := CHECKSUM_OFFSET <= i < CHECKSUM_OFFSET + 8;
      var b := if inField then SPACE else block[i];
      assert masked[..i + 1][..i] == masked[..i];
      assert masked[i] == b;
      sum := sum + b;
    }
    assert masked[..BLOCK] == masked;
  }

  /** Six digits, a NUL and a space. */
  function ChecksumField(sum: nat): (r: Bytes)
    ensures |r| == 8
  {
    Digits(sum, 6) + [0, SPACE]
  }

  lemma ChecksumFieldReadsBack(sum: nat)
    requires sum < Pow8(6)
    ensures Parse(ChecksumField(sum), false) == Some(sum)
  {
    var f := ChecksumField(sum);
    assert f[6] == 0 && f[7] == SPACE;
    forall k | 0 <= k < 6 ensures IsDigit(f[k]) { assert f[k] == Digits(sum, 6)[k]; }
    assert SpacesEnd(f, 0) == 0;
    assert DigitsEnd(f, 0) == 6;
    assert f[0..6] == Digits(sum, 6);
    DigitsReadBack(sum, 6);
  }

  // ----- the block -----

  function Shortened(owner: Bytes): Bytes {
    if |owner| > OWNER_NAME_LENGTH then owner[..OWNER_NAME_LENGTH] else owner
  }

  /** What EncodeHeader accepts. */
  predicate Encodable(h: Header) {
    && TypeFromFlag(h.typeflag).Some?
    && var kind := TypeFromFlag(h.typeflag).value;
    && h.name != [] && |h.name| <= NAME_SIZE && |h.prefix| <= PREFIX_SIZE && |h.linkname| <= LINK_SIZE
    && h.mode <= MAX_MODE
    && (kind != RegularFile ==> h.size == 0)
    && h.mtime >= 0
    && (NamesTarget(kind) ==> h.linkname != [])
    && NoNul(h.name) && NoNul(h.prefix) && NoNul(h.linkname)
    && NoNul(Shortened(h.uname)) && NoNul(Shortened(h.gname))
    && h.uid < Pow8(7) && h.gid < Pow8(7) && h.size < Pow8(11) && h.mtime < Pow8(11)
    && h.devmajor < Pow8(7) && h.devminor < Pow8(7)
  }

  /** Bytes 0..147: the fields before the checksum. */
  function Front(h: Header): (r: Bytes)
    requires Encodable(h)
    ensures |r| == CHECKSUM_OFFSET
  {
    Padded(h.name, 100) + Field(h.mode, 8) + Field(h.uid, 8) + Field(h.gid, 8) + Field(h.size, 12) + Field(h.mtime, 12)
  }

  /** Bytes 156..511: the fields after it. */
  function Back(h: Header): (r: Bytes)
    requires Encodable(h)
    ensures |r| == BLOCK - CHECKSUM_OFFSET - 8
  {
    [h.typeflag] + Padded(h.linkname, 100) + MAGIC + VERSION + Padded(Shortened(h.uname), 32)
    + Padded(Shortened(h.gname), 32) + Field(h.devmajor, 8) + Field(h.devminor, 8) + Padded(h.prefix, 155) + Fill(12, 0)
  }

  function Encoded(h: Header): (r: Bytes)
    requires Encodable(h)
    ensures |r| == BLOCK
  {
    Front(h) + ChecksumField(Sum(Front(h) + EIGHT_SPACES + Back(h))) + Back(h)
  }

  /** DecodeHeader, check by check. */
  function Decode(b: Bytes): Option<Header>
    requires |b| == BLOCK
  {
    if b[257..263] != MAGIC || b[263..265] != VERSION then None
    else if Parse(b[148..156], false) != Some(Checksum(b)) then None
    else
      var mode, uid, gid := Parse(b[100..108], false), Parse(b[108..116], false), Parse(b[116..124], false);
      var size, mtime := Parse(b[124..136], false), Parse(b[136..148], false);
      var devmajor, devminor := Parse(b[329..337], true), Parse(b[337..345], true);
      var kind := TypeFromFlag(b[156]);
      var name, prefix, linkname := Text(b[..100]), Text(b[345..500]), Text(b[157..257]);
      var uname, gname := Text(b[265..297]), Text(b[297..329]);
      if mode.None? || mode.value > MAX_MODE || uid.None? || gid.None? || size.None? || mtime.None? then None
      else if devmajor.None? || devminor.None? || kind.None? then None
      else if kind.value != RegularFile && size.value != 0 then None
      else if name.None? || prefix.None? || linkname.None? || uname.None? || gname.None? then None
      else if name.value == [] || (NamesTarget(kind.value) && linkname.value == []) then None
      else
        Some(Header(b[156], name.value, prefix.value, linkname.value, mode.value, uid.value, gid.value, size.value,
                    mtime.value, devmajor.value, devminor.value, uname.value, gname.value))
  }

  /** The header a reader gets: owner names are cut to 31 bytes. */
  function AsRead(h: Header): Header {
    h.(uname := Shortened(h.uname), gname := Shortened(h.gname))
  }

  lemma FrontReadsBack(h: Header, b: Bytes)
    requires Encodable(h) && |b| == BLOCK && b[..CHECKSUM_OFFSET] == Front(h)
    ensures Text(b[..100]) == Some(h.name)
    ensures Parse(b[100..108], false) == Some(h.mode) && Parse(b[108..116], false) == Some(h.uid)
    ensures Parse(b[116..124], false) == Some(h.gid) && Parse(b[124..136], false) == Some(h.size)
    ensures Parse(b[136..148], false) == Some(h.mtime)
  {
    var f := Front(h);
    assert b[..100] == f[..100] == Padded(h.name, 100);
    assert b[100..108] == f[100..108] == Field(h.mode, 8);
    assert b[108..116] == f[108..116] == Field(h.uid, 8);
    assert b[116..124] == f[116..124] == Field(h.gid, 8);
    assert b[124..136] == f[124..136] == Field(h.size, 12);
    assert b[136..148] == f[136..148] == Field(h.mtime, 12);
    TextReadsExactlyPadded(b[..100], h.name);
    ModeFits(h.mode);
    FieldReadsBack(h.mode, 8, false);
    FieldReadsBack(h.uid, 8, false);
    FieldReadsBack(h.gid, 8, false);
    FieldReadsBack(h.size, 12, false);
    FieldReadsBack(h.mtime, 12, false);
  }

  lemma ModeFits(mode: nat)
    requires mode <= MAX_MODE
    ensures mode < Pow8(7)
  {
    assert Pow8(4) == 4096;
    assert Pow8(7) == 512 * Pow8(4);
  }

  /** The fields of Back(h) up to the owner names. */
  lemma BackBegins(h: Header)
    requires Encodable(h)
    ensures
      var f := Back(h);
      && f[0] == h.typeflag && f[1..101] == Padded(h.linkname, 100) && f[101..107] == MAGIC && f[107..109] == VERSION
      && f[109..141] == Padded(Shortened(h.uname), 32) && f[141..173] == Padded(Shortened(h.gname), 32)
  {
    var link, uname, gname := Padded(h.linkname, 100), Padded(Shortened(h.uname), 32), Padded(Shortened(h.gname), 32);
    var begins, whole := [h.typeflag] + link + MAGIC + VERSION + uname + gname, Back(h);
    BackEnds(h);
    FiveParts([h.typeflag] + link, MAGIC, VERSION, uname, gname);
    assert ([h.typeflag] + link)[1..] == link;
    assert forall i, j :: 0 <= i <= j <= 173 ==> whole[..173][i..j] == whole[i..j];
    assert begins[..101] == [h.typeflag] + link && begins[1..101] == begins[..101][1..];
  }

  lemma BackEnds(h: Header)
    requires Encodable(h)
    ensures
      var f := Back(h);
      && f[..173] == [h.typeflag] + Padded(h.linkname, 100) + MAGIC + VERSION + Padded(Shortened(h.uname), 32)
                     + Padded(Shortened(h.gname), 32)
      && f[173..181] == Field(h.devmajor, 8) && f[181..189] == Field(h.devminor, 8)
      && f[189..344] == Padded(h.prefix, 155)
  {
    var begins := [h.typeflag] + Padded(h.linkname, 100) + MAGIC + VERSION + Padded(Shortened(h.uname), 32)
                  + Padded(Shortened(h.gname), 32);
    FiveParts(begins, Field(h.devmajor, 8), Field(h.devminor, 8), Padded(h.prefix, 155), Fill(12, 0));
  }

  lemma InBack(h: Header, b: Bytes)
    requires Encodable(h) && |b| == BLOCK && b[CHECKSUM_OFFSET + 8..] == Back(h)
    ensures b[156] == h.typeflag && b[157..257] == Padded(h.linkname, 100) && b[257..263] == MAGIC && b[263..265] == VERSION
    ensures b[265..297] == Padded(Shortened(h.uname), 32) && b[297..329] == Padded(Shortened(h.gname), 32)
    ensures b[329..337] == Field(h.devmajor, 8) && b[337..345] == Field(h.devminor, 8)
    ensures b[345..500] == Padded(h.prefix, 155)
  {
    BackBegins(h);
    BackEnds(h);
    assert b[156] == b[156..][0];
    forall i, j | 0 <= i <= j <= BLOCK - 156 ensures b[156..][i..j] == b[156 + i..156 + j] {}
    assert b[157..257] == b[156..][1..101] && b[257..263] == b[156..][101..107] && b[263..265] == b[156..][107..109];
    assert b[265..297] == b[156..][109..141] && b[297..329] == b[156..][141..173];
    assert b[329..337] == b[156..][173..181] && b[337..345] == b[156..][181..189] && b[345..500] == b[156..][189..344];
  }

  lemma BackReadsBack(h: Header, b: Bytes)
    requires Encodable(h) && |b| == BLOCK && b[CHECKSUM_OFFSET + 8..] == Back(h)
    ensures b[156] == h.typeflag && b[257..263] == MAGIC && b[263..265] == VERSION
    ensures Text(b[157..257]) == Some(h.linkname) && Text(b[345..500]) == Some(h.prefix)
    ensures Text(b[265..297]) == Some(Shortened(h.uname)) && Text(b[297..329]) == Some(Shortened(h.gname))
    ensures Parse(b[329..337], true) == Some(h.devmajor) && Parse(b[337..345], true) == Some(h.devminor)
  {
    InBack(h, b);
    TextReadsExactlyPadded(b[157..257], h.linkname);
    TextReadsExactlyPadded(b[345..500], h.prefix);
    TextReadsExactlyPadded(b[265..297], Shortened(h.uname));
    TextReadsExactlyPadded(b[297..329], Shortened(h.gname));
    FieldReadsBack(h.devmajor, 8, true);
    FieldReadsBack(h.devminor, 8, true);
  }

  lemma ChecksumReadsBack(h: Header)
    requires Encodable(h)
    ensures Parse(Encoded(h)[148..156], false) == Some(Checksum(Encoded(h)))
  {
    var b := Encoded(h);
    var masked := Front(h) + EIGHT_SPACES + Back(h);
    assert b[..CHECKSUM_OFFSET] == Front(h) && b[CHECKSUM_OFFSET + 8..] == Back(h);
    assert Masked(b) == masked;
    assert b[148..156] == ChecksumField(Sum(masked));
    SumBound(masked);
    assert Pow8(6) == 262144;
    ChecksumFieldReadsBack(Sum(masked));
  }

  /** Whatever EncodeHeader writes, DecodeHeader reads back. */
  lemma HeaderRoundTrip(h: Header)
    requires Encodable(h)
    ensures Decode(Encoded(h)) == Some(AsRead(h))
  {
    var b := Encoded(h);
    assert b[..CHECKSUM_OFFSET] == Front(h) && b[CHECKSUM_OFFSET + 8..] == Back(h);
    FrontReadsBack(h, b);
    BackReadsBack(h, b);
    ChecksumReadsBack(h);
  }

  /** A header block is never mistaken for the end marker. */
  lemma HeadersAreNotZero(b: Bytes)
    requires |b| == BLOCK && Decode(b).Some?
    ensures b != Fill(BLOCK, 0)
  {
    assert b[257..263][0] == b[257];
  }

  // ----- the code -----

  method EncodeHeader(h: Header, block: array<byte>) returns (ok: bool)
    requires block.Length == BLOCK
    modifies block
    ensures ok <==> Encodable(h)
    ensures ok ==> block[..] == Encoded(h)
  {
    var kind := TypeFromFlag(h.typeflag);
    if kind.None? { return false; }
    if h.name == [] || |h.name| > NAME_SIZE || |h.prefix| > PREFIX_SIZE || |h.linkname| > LINK_SIZE { return false; }
    if h.mode > MAX_MODE { return false; }
    if kind.value != RegularFile && h.size != 0 { return false; }
    if h.mtime < 0 { return false; }
    if NamesTarget(kind.value) && h.linkname == [] { return false; }
    forall i | 0 <= i < BLOCK { block[i] := 0; }
    ok := EncodeFields(h, block);
    if !ok { return; }
    MaskedBlock(block[..], block[..CHECKSUM_OFFSET], block[CHECKSUM_OFFSET + 8..]);
    StoreChecksum(block);
  }

  lemma MaskedBlock(block: Bytes, front: Bytes, back: Bytes)
    requires |block| == BLOCK && block[..CHECKSUM_OFFSET] == front && block[CHECKSUM_OFFSET + 8..] == back
    ensures Masked(block) == front + EIGHT_SPACES + back
  {}

  /** The last step of EncodeHeader. */
  method StoreChecksum(block: array<byte>)
    requires block.Length == BLOCK
    modifies block
    ensures block[..] == old(block[..CHECKSUM_OFFSET]) + ChecksumField(Checksum(old(block[..])))
                         + old(block[CHECKSUM_OFFSET + 8..])
  {
    var checksum := ComputeChecksum(block);
    ghost var front, back := block[..CHECKSUM_OFFSET], block[CHECKSUM_OFFSET + 8..];
    PutDigits(block, CHECKSUM_OFFSET, 6, checksum);
    ghost var digits := block[CHECKSUM_OFFSET..CHECKSUM_OFFSET + 6];
    block[CHECKSUM_OFFSET + 6] := 0;
    block[CHECKSUM_OFFSET + 7] := SPACE;
    assert block[..CHECKSUM_OFFSET] == front && block[CHECKSUM_OFFSET + 8..] == back;
    assert block[CHECKSUM_OFFSET..CHECKSUM_OFFSET + 6] == digits;
    assert block[..] == front + (digits + [0, SPACE]) + back;
  }

  /** Everything but the checksum. */
  method EncodeFields(h: Header, block: array<byte>) returns (ok: bool)
    requires block.Length == BLOCK && h.mtime >= 0 && h.mode <= MAX_MODE && h.name != [] && TypeFromFlag(h.typeflag).Some?
    requires |h.name| <= NAME_SIZE && |h.linkname| <= LINK_SIZE && |h.prefix| <= PREFIX_SIZE
    requires TypeFromFlag(h.typeflag) != Some(RegularFile) ==> h.size == 0
    requires NamesTarget(TypeFromFlag(h.typeflag).value) ==> h.linkname != []
    requires forall k :: 500 <= k < BLOCK ==> block[k] == 0
    modifies block
    ensures ok <==> Encodable(h)
    ensures ok ==> block[..CHECKSUM_OFFSET] == Front(h) && block[CHECKSUM_OFFSET + 8..] == Back(h)
  {
    ok := EncodeFront(h, block);
    if !ok { return; }
    assert forall k :: 500 <= k < BLOCK ==> block[k] == block[CHECKSUM_OFFSET..][k - CHECKSUM_OFFSET];
    ok := EncodeBack(h, block);
  }

  method EncodeFront(h: Header, block: array<byte>) returns (ok: bool)
    requires block.Length == BLOCK && h.mtime >= 0 && h.mode <= MAX_MODE && |h.name| <= NAME_SIZE
    modifies block
    ensures ok <==> NoNul(h.name) && h.uid < Pow8(7) && h.gid < Pow8(7) && h.size < Pow8(11) && h.mtime < Pow8(11)
    ensures ok ==> block[..CHECKSUM_OFFSET]
                   == Padded(h.name, 100) + Field(h.mode, 8) + Field(h.uid, 8) + Field(h.gid, 8)
                      + Field(h.size, 12) + Field(h.mtime, 12)
    ensures block[CHECKSUM_OFFSET..] == old(block[CHECKSUM_OFFSET..])
  {
    ModeFits(h.mode);
    ok := AppendFixedField(block, 0, NAME_SIZE, h.name);
    if !ok { return; }
    ghost var done := block[..100];
    ok := AppendOctal(block, 100, 8, h.mode);
    assert block[..108] == done + Field(h.mode, 8);
    done := block[..108];
    ok := AppendOctal(block, 108, 8, h.uid);
    if !ok { return; }
    assert block[..116] == done + Field(h.uid, 8);
    done := block[..116];
    ok := AppendOctal(block, 116, 8, h.gid);
    if !ok { return; }
    assert block[..124] == done + Field(h.gid, 8);
    ok := EncodeSizes(h, block);
  }

  method EncodeSizes(h: Header, block: array<byte>) returns (ok: bool)
    requires block.Length == BLOCK && h.mtime >= 0
    modifies block
    ensures ok <==> h.size < Pow8(11) && h.mtime < Pow8(11)
    ensures ok ==> block[..CHECKSUM_OFFSET] == old(block[..124]) + Field(h.size, 12) + Field(h.mtime, 12)
    ensures block[CHECKSUM_OFFSET..] == old(block[CHECKSUM_OFFSET..])
  {
    ghost var done := block[..124];
    ok := AppendOctal(block, 124, 12, h.size);
    if !ok { return; }
    assert block[..136] == done + Field(h.size, 12);
    done := block[..136];
    ok := AppendOctal(block, 136, 12, h.mtime);
    if !ok { return; }
    assert block[..148] == done + Field(h.mtime, 12);
  }

  method EncodeBack(h: Header, block: array<byte>) returns (ok: bool)
    requires block.Length == BLOCK && |h.linkname| <= LINK_SIZE && |h.prefix| <= PREFIX_SIZE
    requires forall k :: 500 <= k < BLOCK ==> block[k] == 0
    modifies block
    ensures ok <==> NoNul(h.linkname) && NoNul(Shortened(h.uname)) && NoNul(Shortened(h.gname)) && NoNul(h.prefix)
                    && h.devmajor < Pow8(7) && h.devminor < Pow8(7)
    ensures ok ==> block[CHECKSUM_OFFSET + 8..]
                   == [h.typeflag] + Padded(h.linkname, 100) + MAGIC + VERSION + Padded(Shortened(h.uname), 32)
                      + Padded(Shortened(h.gname), 32) + Field(h.devmajor, 8) + Field(h.devminor, 8)
                      + Padded(h.prefix, 155) + Fill(12, 0)
    ensures block[..CHECKSUM_OFFSET] == old(block[..CHECKSUM_OFFSET])
  {
    ok := EncodeLink(h, block);
    if !ok { return; }
    ghost var done := block[156..265];
    ok := EncodeOwners(h, block);
    if !ok { return; }
    assert block[156..265] == done && forall k :: 500 <= k < BLOCK ==> block[k] == 0;
    ghost var owners := block[265..345];
    ok := AppendFixedField(block, 345, PREFIX_SIZE, h.prefix);
    if !ok { return; }
    assert block[156..265] == done && block[265..345] == owners;
    assert forall k :: 500 <= k < BLOCK ==> block[k] == 0;
    assert block[500..] == Fill(12, 0);
    BackIsSlices(block[..]);
  }

  lemma BackIsSlices(b: Bytes)
    requires |b| == BLOCK
    ensures b[156..] == b[156..265] + b[265..345] + b[345..500] + b[500..]
  {}

  method EncodeLink(h: Header, block: array<byte>) returns (ok: bool)
    requires block.Length == BLOCK && |h.linkname| <= LINK_SIZE
    modifies block
    ensures ok <==> NoNul(h.linkname)
    ensures ok ==> block[156..265] == [h.typeflag] + Padded(h.linkname, 100) + MAGIC + VERSION
    ensures forall k :: 0 <= k < BLOCK && !(156 <= k < 265) ==> block[k] == old(block[k])
  {
    block[156] := h.typeflag;
    ok := AppendFixedField(block, 157, LINK_SIZE, h.linkname);
    if !ok { return; }
    assert block[156..257] == [h.typeflag] + Padded(h.linkname, 100);
    forall i | 0 <= i < 6 { block[257 + i] := MAGIC[i]; }
    forall i | 0 <= i < 2 { block[263 + i] := VERSION[i]; }
    assert block[156..265] == block[156..257] + MAGIC + VERSION;
  }

  method EncodeOwners(h: Header, block: array<byte>) returns (ok: bool)
    requires block.Length == BLOCK
    modifies block
    ensures ok <==> NoNul(Shortened(h.uname)) && NoNul(Shortened(h.gname)) && h.devmajor < Pow8(7) && h.devminor < Pow8(7)
    ensures ok ==> block[265..345] == Padded(Shortened(h.uname), 32) + Padded(Shortened(h.gname), 32)
                                      + Field(h.devmajor, 8) + Field(h.devminor, 8)
    ensures forall k :: 0 <= k < BLOCK && !(265 <= k < 345) ==> block[k] == old(block[k])
  {
    var uname, gname := Shortened(h.uname), Shortened(h.gname);
    ok := AppendFixedField(block, 265, OWNER_SIZE, uname);
    if !ok { return; }
    ghost var done := block[265..297];
    ok := AppendFixedField(block, 297, OWNER_SIZE, gname);
    if !ok { return; }
    assert block[265..329] == done + Padded(gname, 32);
    done := block[265..329];
    ok := AppendOctal(block, 329, 8, h.devmajor);
    if !ok { return; }
    assert block[265..337] == done + Field(h.devmajor, 8);
    done := block[265..337];
    ok := AppendOctal(block, 337, 8, h.devminor);
    if !ok { return; }
    assert block[265..345] == done + Field(h.devminor, 8);
  }

  method DecodeHeader(b: array<byte>) returns (h: Option<Header>)
    requires b.Length == BLOCK
    ensures h == Decode(b[..])
  {
    ghost var all := b[..];
    if b[257..263] != MAGIC || b[263..265] != VERSION { return None; }
    var stored := ParseOctal(b[148..156], false);
    if stored.None? { return None; }
    var computed := ComputeChecksum(b);
    if stored.value != computed { return None; }
    var mode := ParseOctal(b[100..108], false);
    if mode.None? || mode.value > MAX_MODE { return None; }
    var uid := ParseOctal(b[108..116], false);
    if uid.None? { return None; }
    var gid := ParseOctal(b[116..124], false);
    if gid.None? { return None; }
    var size := ParseOctal(b[124..136], false);
    if size.None? { return None; }
    var mtime := ParseOctal(b[136..148], false);
    if mtime.None? { return None; }
    var devmajor := ParseOctal(b[329..337], true);
    if devmajor.None? { return None; }
    var devminor := ParseOctal(b[337..345], true);
    if devminor.None? { return None; }
    var kind := TypeFromFlag(b[156]);
    if kind.None? { return None; }
    if kind.value != RegularFile && size.value != 0 { return None; }
    var name := DecodeFixedField(b[..100]);
    if name.None? { return None; }
    var prefix := DecodeFixedField(b[345..500]);
    if prefix.None? { return None; }
    var linkname := DecodeFixedField(b[157..257]);
    if linkname.None? { return None; }
    var uname := DecodeFixedField(b[265..297]);
    if uname.None? { return None; }
    var gname := DecodeFixedField(b[297..329]);
    if gname.None? { return None; }
    if name.value == [] { return None; }
    if NamesTarget(kind.value) && linkname.value == [] { return None; }
    return Some(Header(b[156], name.value, prefix.value, linkname.value, mode.value, uid.value, gid.value, size.value,
                       mtime.value, devmajor.value, devminor.value, uname.value, gname.value));
  }
}
