/**
 include/byte_order.h (little endian) and the big-endian pair of server/remote_auth.cpp.
 Shifting right by 8*k is ShiftRight(_, k); masking with 0xFF is `% 256`, and or-ing a byte into
 a cleared position is an addition of a multiple of Pow256(k).
*/
module ByteOrder {
  import opened Common

  function Pow256(n: nat): (r: nat)
    ensures r >= 1
  {
    if n == 0 then 1 else 256 * Pow256(n - 1)
  }

  const U16_MAX: nat := 0xFFFF
  const U32_MAX: nat := 0xFFFF_FFFF
  const U64_MAX: nat := 0xFFFF_FFFF_FFFF_FFFF

  lemma Pow256Widths()
    ensures Pow256(0) == 1 && Pow256(1) == 256
    ensures Pow256(2) == U16_MAX + 1
    ensures Pow256(4) == U32_MAX + 1
    ensures Pow256(8) == U64_MAX + 1
  {
    assert Pow256(3) == 256 * Pow256(2) && Pow256(6) == 256 * 256 * Pow256(4);
  }

  // ----- what the two byte orders are -----

  function LittleEndian(value: nat, width: nat): (r: Bytes)
    ensures |r| == width
  {
    if width == 0 then [] else [value % 256] + LittleEndian(value / 256, width - 1)
  }

  function FromLittleEndian(s: Bytes): (r: nat)
    ensures r < Pow256(|s|)
  {
    if s == [] then 0 else s[0] + 256 * FromLittleEndian(s[1..])
  }

  function BigEndian(value: nat, width: nat): (r: Bytes)
    ensures |r| == width
  {
    if width == 0 then [] else BigEndian(value / 256, width - 1) + [value % 256]
  }

  function FromBigEndian(s: Bytes): (r: nat)
    ensures r < Pow256(|s|)
  {
    if s == [] then 0 else FromBigEndian(s[..|s| - 1]) * 256 + s[|s| - 1]
  }

  lemma {:induction false} LittleEndianReadsBack(value: nat, width: nat)
    requires value < Pow256(width)
    ensures FromLittleEndian(LittleEndian(value, width)) == value
  {
    if width > 0 {
      LittleEndianReadsBack(value / 256, width - 1);
      assert LittleEndian(value, width)[1..] == LittleEndian(value / 256, width - 1);
    }
  }

  lemma {:induction false} LittleEndianWritesBack(s: Bytes)
    ensures LittleEndian(FromLittleEndian(s), |s|) == s
  {
    if s != [] {
      var rest := FromLittleEndian(s[1..]);
      LittleEndianWritesBack(s[1..]);
      LowByte(s[0], rest);
      assert s == [s[0]] + s[1..];
    }
  }

  lemma LowByte(b: byte, rest: nat)
    ensures (b + 256 * rest) % 256 == b && (b + 256 * rest) / 256 == rest
  {}

  lemma {:induction false} BigEndianReadsBack(value: nat, width: nat)
    requires value < Pow256(width)
    ensures FromBigEndian(BigEndian(value, width)) == value
  {
    if width > 0 {
      BigEndianReadsBack(value / 256, width - 1);
      assert BigEndian(value, width)[..width - 1] == BigEndian(value / 256, width - 1);
    }
  }

  lemma {:induction false} BigEndianWritesBack(s: Bytes)
    ensures BigEndian(FromBigEndian(s), |s|) == s
  {
    if s != [] {
      BigEndianWritesBack(s[..|s| - 1]);
      LowByte(s[|s| - 1], FromBigEndian(s[..|s| - 1]));
      assert s == s[..|s| - 1] + [s[|s| - 1]];
    }
  }

  lemma LittleEndianIsExact(s: Bytes, value: nat)
    ensures s == LittleEndian(value, |s|) && value < Pow256(|s|) <==> FromLittleEndian(s) == value
  {
    LittleEndianWritesBack(s);
    if value < Pow256(|s|) { LittleEndianReadsBack(value, |s|); }
  }

  // ----- two's complement -----

  const I64_LIMIT: int := 0x8000_0000_0000_0000

  predicate FitsI64(v: int) { -I64_LIMIT <= v < I64_LIMIT }

  /** static_cast<uint64_t> of an int64, and back. */
  function ToUnsigned(v: int): (r: nat)
    ensures r <= U64_MAX
  {
    v % (U64_MAX + 1)
  }

  function ToSigned(u: nat): int { if u < I64_LIMIT then u else u - (U64_MAX + 1) }

  lemma SignedRoundTrip(v: int, u: nat)
    ensures FitsI64(v) ==> ToSigned(ToUnsigned(v)) == v
    ensures u <= U64_MAX ==> FitsI64(ToSigned(u)) && ToUnsigned(ToSigned(u)) == u
  {}

  // ----- the loops of the header file -----

  /** `value >> (8 * k)`. */
  function ShiftRight(value: nat, k: nat): nat {
    if k == 0 then value else ShiftRight(value / 256, k - 1)
  }

  lemma {:induction false} ShiftOneMore(value: nat, k: nat)
    ensures ShiftRight(value, k) / 256 == ShiftRight(value, k + 1)
  {
    if k > 0 { ShiftOneMore(value / 256, k - 1); }
  }

  lemma {:induction false} LittleEndianGrows(value: nat, k: nat)
    ensures LittleEndian(value, k + 1) == LittleEndian(value, k) + [ShiftRight(value, k) % 256]
  {
    if k > 0 { LittleEndianGrows(value / 256, k - 1); }
  }

  method AppendLE(out: Bytes, value: nat, width: nat) returns (r: Bytes)
    ensures r == out + LittleEndian(value, width)
  {
    r := out;
    for k := 0 to width
      invariant r == out + LittleEndian(value, k)
    {
      r := r + [ShiftRight(value, k) % 256];
      LittleEndianGrows(value, k);
    }
  }

  lemma {:induction false} FromLittleEndianGrows(s: Bytes, b: byte)
    ensures FromLittleEndian(s + [b]) == FromLittleEndian(s) + b * Pow256(|s|)
  {
    if s != [] {
      FromLittleEndianGrows(s[1..], b);
      assert (s + [b])[1..] == s[1..] + [b];
      Shift(b, Pow256(|s| - 1));
    }
  }

  lemma Shift(b: nat, p: nat) ensures 256 * (b * p) == b * (256 * p) {}

  method LoadLE(data: Bytes, at: nat, width: nat) returns (value: nat)
    requires at + width <= |data|
    ensures value == FromLittleEndian(data[at..at + width])
  {
    value := 0;
    for k := 0 to width
      invariant value == FromLittleEndian(data[at..at + k])
    {
      value := value + data[at + k] * Pow256(k);
      FromLittleEndianGrows(data[at..at + k], data[at + k]);
      assert data[at..at + k + 1] == data[at..at + k] + [data[at + k]];
    }
  }

  /** The Read…LE family: refuse without moving, or deliver the field and step over it. */
  method ReadLE(data: Bytes, cursor: nat, width: nat) returns (ok: bool, value: nat, next: nat)
    requires cursor <= |data|
    ensures ok <==> cursor + width <= |data|
    ensures ok ==> next == cursor + width && value == FromLittleEndian(data[cursor..next])
    ensures !ok ==> next == cursor
  {
    if cursor + width > |data| {
      return false, 0, cursor;
    }
    value := LoadLE(data, cursor, width);
    return true, value, cursor + width;
  }

  /** The check that reserved bytes are zero. */
  method RestIsZero(data: Bytes, from: nat) returns (ok: bool)
    requires from <= |data|
    ensures ok <==> data[from..] == Fill(|data| - from, 0)
  {
    for i := from to |data|
      invariant forall k :: from <= k < i ==> data[k] == 0
    {
      if data[i] != 0 {
        assert data[from..][i - from] != Fill(|data| - from, 0)[i - from];
        return false;
      }
    }
    assert data[from..] == Fill(|data| - from, 0);
    return true;
  }
}
