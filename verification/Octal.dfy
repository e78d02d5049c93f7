/** The numeric fields of a ustar header: src/archive/ustar.cpp:184-270. */
module Octal {
  import opened Common

  const ZERO: byte := 48
  const SPACE: byte := 32

  function Pow8(n: nat): (r: nat)
    ensures r >= 1
  {
    if n == 0 then 1 else 8 * Pow8(n - 1)
  }

  /** `digits` octal digits, most significant first. */
  function Digits(value: nat, digits: nat): (r: Bytes)
    ensures |r| == digits && forall k :: 0 <= k < digits ==> 48 <= r[k] <= 55
  {
    if digits == 0 then [] else Digits(value / 8, digits - 1) + [ZERO + value % 8]
  }

  predicate IsDigit(b: byte) { 48 <= b <= 55 }

  predicate AllDigits(s: Bytes) { forall k :: 0 <= k < |s| ==> IsDigit(s[k]) }

  function Value(ds: Bytes): nat
    requires AllDigits(ds)
  {
    if ds == [] then 0 else Value(ds[..|ds| - 1]) * 8 + (ds[|ds| - 1] - ZERO)
  }

  lemma {:induction false} DigitsReadBack(value: nat, digits: nat)
    requires value < Pow8(digits)
    ensures Value(Digits(value, digits)) == value
  {
    if digits > 0 {
      DigitsReadBack(value / 8, digits - 1);
      assert Digits(value, digits)[..digits - 1] == Digits(value / 8, digits - 1);
    }
  }

  /** What a field holding `value` looks like: digits and a NUL. */
  function Field(value: nat, size: nat): (r: Bytes)
    requires size >= 1
    ensures |r| == size
  {
    Digits(value, size - 1) + [0]
  }

  // ----- reading -----

  predicate IsBlankByte(b: byte) { b == 0 || b == SPACE }

  predicate BlankFrom(f: Bytes, j: nat) { forall k :: j <= k < |f| ==> IsBlankByte(f[k]) }

  function SpacesEnd(f: Bytes, i: nat): (e: nat)
    requires i <= |f|
    ensures i <= e <= |f| && (e < |f| ==> f[e] != SPACE)
    ensures forall k :: i <= k < e ==> f[k] == SPACE
    decreases |f| - i
  {
    if i < |f| && f[i] == SPACE then SpacesEnd(f, i + 1) else i
  }

  function DigitsEnd(f: Bytes, i: nat): (e: nat)
    requires i <= |f|
    ensures i <= e <= |f| && (e < |f| ==> !IsDigit(f[e]))
    ensures forall k :: i <= k < e ==> IsDigit(f[k])
    decreases |f| - i
  {
    if i < |f| && IsDigit(f[i]) then DigitsEnd(f, i + 1) else i
  }

  function Parse(f: Bytes, allowEmpty: bool): Option<nat> {
    var i := SpacesEnd(f, 0);
    var j := DigitsEnd(f, i);
    if i == j then (if allowEmpty && BlankFrom(f, i) then Some(0) else None)
    else if j == |f| || !BlankFrom(f, j) then None
    else Some(Value(f[i..j]))
  }

  /** Leading spaces up to i, digits up to j, then NULs and spaces to the end. */
  predicate Shaped(f: Bytes, i: nat, j: nat) {
    && i <= j <= |f|
    && (forall k :: 0 <= k < i ==> f[k] == SPACE)
    && (forall k :: i <= k < j ==> IsDigit(f[k]))
    && BlankFrom(f, j)
  }

  /** A field is accepted exactly when it is spaces, digits and at least one terminator, or (where an
      empty field is allowed) nothing but blanks. */
  lemma ParseAcceptsExactly(f: Bytes, allowEmpty: bool, value: nat)
    ensures Parse(f, allowEmpty) == Some(value)
            <==> (exists i: nat, j: nat :: Shaped(f, i, j) && i < j < |f| && value == Value(f[i..j]))
                 || (allowEmpty && BlankFrom(f, 0) && value == 0)
  {
    var a := SpacesEnd(f, 0);
    var b := DigitsEnd(f, a);
    if Parse(f, allowEmpty) == Some(value) {
      if a < b { assert Shaped(f, a, b); }
    }
    if i: nat, j: nat :| Shaped(f, i, j) && i < j < |f| && value == Value(f[i..j]) {
      assert IsDigit(f[i]) && IsBlankByte(f[j]);
      assert a == i && b == j;
    }
  }

  lemma FieldReadsBack(value: nat, size: nat, allowEmpty: bool)
    requires size >= 2 && value < Pow8(size - 1)
    ensures Parse(Field(value, size), allowEmpty) == Some(value)
  {
    var f := Field(value, size);
    assert f[..size - 1] == Digits(value, size - 1);
    forall k | 0 <= k < size - 1 ensures IsDigit(f[k]) { assert f[k] == Digits(value, size - 1)[k]; }
    assert f[size - 1] == 0;
    assert SpacesEnd(f, 0) == 0;
    assert DigitsEnd(f, 0) == size - 1;
    assert f[0..size - 1] == Digits(value, size - 1);
    DigitsReadBack(value, size - 1);
  }

  method OctalLimit(digits: nat) returns (limit: nat)
    ensures limit == Pow8(digits) - 1
  {
    limit := 1;
    for i := 0 to digits
      invariant limit == Pow8(i)
    {
      limit := limit * 8;
    }
    limit := limit - 1;
  }

  /** `value >> (3 * k)`. */
  function ShiftOut(value: nat, k: nat): nat {
    if k == 0 then value else ShiftOut(value / 8, k - 1)
  }

  lemma {:induction false} ShiftOneDigit(value: nat, k: nat)
    ensures ShiftOut(value, k) / 8 == ShiftOut(value, k + 1)
  {
    if k > 0 { ShiftOneDigit(value / 8, k - 1); }
  }

  /** The digits written so far are those of the value with the rest still shifted out. */
  method PutDigits(block: array<byte>, offset: nat, digits: nat, value: nat)
    requires offset + digits <= block.Length
    modifies block
    ensures block[offset..offset + digits] == Digits(value, digits)
    ensures forall k :: 0 <= k < block.Length && !(offset <= k < offset + digits) ==> block[k] == old(block[k])
  {
    for i := 0 to digits
      invariant block[offset..offset + i] == Digits(ShiftOut(value, digits - i), i)
      invariant forall k :: 0 <= k < block.Length && !(offset <= k < offset + digits) ==> block[k] == old(block[k])
    {
      ghost var before := block[offset..offset + i];
      ShiftOneDigit(value, digits - 1 - i);
      block[offset + i] := ZERO + ShiftOut(value, digits - 1 - i) % 8;
      assert block[offset..offset + i + 1] == before + [block[offset + i]];
    }
  }

  method AppendOctal(block: array<byte>, offset: nat, size: nat, value: nat) returns (ok: bool)
    requires size >= 1 && offset + size <= block.Length
    modifies block
    ensures ok <==> value < Pow8(size - 1)
    ensures ok ==> block[offset..offset + size] == Field(value, size)
    ensures forall k :: 0 <= k < block.Length && !(offset <= k < offset + size) ==> block[k] == old(block[k])
  {
    var limit := OctalLimit(size - 1);
    if value > limit { return false; }
    PutDigits(block, offset, size - 1, value);
    ghost var digits := block[offset..offset + size - 1];
    block[offset + size - 1] := 0;
    assert block[offset..offset + size - 1] == digits;
    assert block[offset..offset + size] == digits + [0];
    return true;
  }

  /** The scan for stray bytes behind the digits. */
  method AllBlank(f: Bytes, from: nat) returns (blank: bool)
    requires from <= |f|
    ensures blank <==> BlankFrom(f, from)
  {
    for i := from to |f|
      invariant forall k :: from <= k < i ==> IsBlankByte(f[k])
    {
      if !IsBlankByte(f[i]) { return false; }
    }
    return true;
  }

  method ParseOctal(f: Bytes, allowEmpty: bool) returns (value: Option<nat>)
    ensures value == Parse(f, allowEmpty)
  {
    var index := 0;
    while index < |f| && f[index] == SPACE
      invariant 0 <= index <= |f| && SpacesEnd(f, 0) == SpacesEnd(f, index)
    {
      index := index + 1;
    }
    var start := index;
    var acc := 0;
    while index < |f| && IsDigit(f[index])
      invariant start <= index <= |f| && SpacesEnd(f, 0) == start && DigitsEnd(f, start) == DigitsEnd(f, index)
      invariant AllDigits(f[start..index]) && acc == Value(f[start..index])
    {
      assert f[start..index + 1][..index - start] == f[start..index];
      acc := acc * 8 + (f[index] - ZERO);
      index := index + 1;
    }
    var blank := AllBlank(f, index);
    if start == index {
      return if allowEmpty && blank then Some(0) else None;
    }
    if index == |f| || !blank { return None; }
    return Some(acc);
  }
}
