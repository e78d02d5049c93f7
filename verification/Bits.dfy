/** Bit strings, most significant bit first, and `&` on naturals. */
module Bits {
  import opened Common

  type Bit = b: int | 0 <= b <= 1

  function Pow2(n: nat): (r: nat)
    ensures r >= 1
  {
    if n == 0 then 1 else 2 * Pow2(n - 1)
  }

  /** The low `n` bits of `v`. */
  function CodeBits(v: nat, n: nat): (r: seq<Bit>)
    ensures |r| == n
  {
    if n == 0 then [] else CodeBits(v / 2, n - 1) + [v % 2]
  }

  function ByteBits(s: Bytes): (r: seq<Bit>)
    ensures |r| == 8 * |s|
  {
    if s == [] then [] else ByteBits(s[..|s| - 1]) + CodeBits(s[|s| - 1], 8)
  }

  lemma ByteBitsAppend(s: Bytes, b: byte)
    ensures ByteBits(s + [b]) == ByteBits(s) + CodeBits(b, 8)
  {
    assert (s + [b])[..|s|] == s;
  }

  lemma {:induction false} ByteBitsAt(s: Bytes, i: nat)
    requires i < |s|
    ensures ByteBits(s)[8 * i..8 * i + 8] == CodeBits(s[i], 8)
  {
    var init := s[..|s| - 1];
    if i < |init| {
      ByteBitsAt(init, i);
      assert ByteBits(s)[8 * i..8 * i + 8] == ByteBits(init)[8 * i..8 * i + 8];
    }
  }

  /** `v >> k`. */
  function Shr(v: nat, k: nat): nat { if k == 0 then v else Shr(v / 2, k - 1) }

  /** The bits above and below position m. */
  lemma {:induction false} SplitBits(v: nat, k: nat, m: nat)
    ensures CodeBits(v, k + m) == CodeBits(Shr(v, m), k) + CodeBits(v, m)
  {
    if m > 0 { SplitBits(v / 2, k, m - 1); }
  }

  /** `(v << n) | code` for a code of n bits. */
  function Shifted(v: nat, n: nat, code: nat): nat { v * Pow2(n) + code }

  lemma ShiftedHalves(v: nat, n: nat, code: nat)
    requires n > 0 && code < Pow2(n)
    ensures code / 2 < Pow2(n - 1)
    ensures Shifted(v, n, code) / 2 == Shifted(v, n - 1, code / 2) && Shifted(v, n, code) % 2 == code % 2
  {
    var p := Pow2(n - 1);
    Doubled(v, p);
  }

  lemma Doubled(v: nat, p: nat) ensures v * (2 * p) == 2 * (v * p) {}

  lemma {:induction false} ShiftedBits(v: nat, k: nat, n: nat, code: nat)
    requires code < Pow2(n)
    ensures CodeBits(Shifted(v, n, code), k + n) == CodeBits(v, k) + CodeBits(code, n)
  {
    if n == 0 {
      assert Shifted(v, 0, code) == v;
    } else {
      ShiftedHalves(v, n, code);
      ShiftedBits(v, k, n - 1, code / 2);
    }
  }

  /** Bits at or above position m do not show in the low m bits. */
  lemma HighBitsDoNotShow(v: nat, m: nat, n: nat)
    requires n <= m
    ensures CodeBits(v % Pow2(m), n) == CodeBits(v, n)
  {
    QuotientAndRest(v, Pow2(m));
    var q, r: nat := v / Pow2(m), v % Pow2(m);
    LowBits(q, r, m);
    SuffixBits(v, m, n);
    SuffixBits(r, m, n);
  }

  lemma QuotientAndRest(v: nat, p: nat)
    requires p > 0
    ensures v == v / p * p + v % p && 0 <= v % p < p && v / p >= 0
  {}

  lemma LowBits(q: nat, r: nat, m: nat)
    requires r < Pow2(m)
    ensures CodeBits(q * Pow2(m) + r, m) == CodeBits(r, m)
  {
    ShiftedBits(q, 0, m, r);
    assert CodeBits(q, 0) == [];
  }

  lemma SuffixBits(v: nat, m: nat, n: nat)
    requires n <= m
    ensures CodeBits(v, m)[m - n..] == CodeBits(v, n)
  {
    SplitBits(v, m - n, n);
  }

  lemma Pow2Eight(n: nat)
    ensures Pow2(n + 8) == 256 * Pow2(n)
  {
    assert Pow2(n + 4) == 2 * Pow2(n + 3) == 4 * Pow2(n + 2) == 8 * Pow2(n + 1) == 16 * Pow2(n);
    assert Pow2(n + 8) == 2 * Pow2(n + 7) == 4 * Pow2(n + 6) == 8 * Pow2(n + 5) == 16 * Pow2(n + 4);
  }

  lemma {:induction false} Pow2Sum(a: nat, b: nat)
    ensures Pow2(a + b) == Pow2(b) * Pow2(a)
  {
    if b > 0 {
      Pow2Sum(a, b - 1);
      Doubled(Pow2(a), Pow2(b - 1));
    }
  }

  lemma {:induction false} Pow2Grows(a: nat, b: nat)
    requires a <= b
    ensures Pow2(a) <= Pow2(b)
  {
    if a < b { Pow2Grows(a, b - 1); }
  }

  lemma Pow2Values()
    ensures Pow2(8) == 256 && Pow2(64) == 0x1_0000_0000_0000_0000
  {
    Pow2Eight(0);
    Pow2Eight(8);
    Pow2Eight(16);
    Pow2Eight(24);
    Pow2Eight(32);
    Pow2Eight(40);
    Pow2Eight(48);
    Pow2Eight(56);
  }

  // ----- bitwise and -----

  function And(a: nat, b: nat): nat {
    if a == 0 || b == 0 then 0 else (a % 2) * (b % 2) + 2 * And(a / 2, b / 2)
  }

  /** Masking with 2^k - 1 is the remainder modulo 2^k. */
  lemma {:induction false} AndMask(a: nat, k: nat)
    ensures And(a, Pow2(k) - 1) == a % Pow2(k)
  {
    if a == 0 {
      Remainder(0, Pow2(k), 0, 0);
    } else if k > 0 {
      AndMask(a / 2, k - 1);
      AndDouble(a, Pow2(k - 1));
    }
  }

  lemma AndDouble(a: nat, p: nat)
    requires a > 0 && p > 0 && And(a / 2, p - 1) == a / 2 % p
    ensures And(a, 2 * p - 1) == a % (2 * p)
  {
    AndStep(a, p);
    ModDouble(a, p);
  }

  lemma AndStep(a: nat, p: nat)
    requires a > 0 && p > 0
    ensures And(a, 2 * p - 1) == a % 2 + 2 * And(a / 2, p - 1)
  {
    assert (2 * p - 1) % 2 == 1 && (2 * p - 1) / 2 == p - 1;
  }

  lemma ModDouble(a: nat, p: nat)
    requires p > 0
    ensures a % (2 * p) == a % 2 + 2 * (a / 2 % p)
  {
    var q, r := a / 2 / p, a / 2 % p;
    assert a / 2 == q * p + r;
    Doubled(q, p);
    assert a == q * (2 * p) + (a % 2 + 2 * r);
    Remainder(a, 2 * p, q, a % 2 + 2 * r);
  }

  lemma Remainder(a: int, d: nat, q: int, r: nat)
    requires d > 0 && a == q * d + r && r < d
    ensures a % d == r && a / d == q
  {
    var k := a / d - q;
    assert k * d == r - a % d;
    if k >= 1 { AtLeast(k, d); } else if k <= -1 { AtLeast(-k, d); }
  }

  lemma AtLeast(k: int, d: nat)
    requires k >= 1
    ensures k * d >= d
  {}

  /** The test `w & (w - 1) == 0` recognizes the powers of two. */
  lemma {:induction false} PowerOfTwoTest(w: nat)
    requires w > 0
    ensures And(w, w - 1) == 0 <==> exists k: nat :: w == Pow2(k)
  {
    if w == 1 {
      assert Pow2(0) == 1;
    } else {
      if w % 2 == 0 {
        PowerOfTwoTest(w / 2);
        assert (w - 1) / 2 == w / 2 - 1 && And(w, w - 1) == 2 * And(w / 2, w / 2 - 1);
        HalfPower(w);
      } else {
        OddIsNoPower(w);
        assert (w - 1) / 2 == w / 2 && And(w, w - 1) == 2 * And(w / 2, w / 2);
        AndSelf(w / 2);
      }
    }
  }

  lemma HalfPower(w: nat)
    requires w > 1 && w % 2 == 0
    ensures (exists k: nat :: w / 2 == Pow2(k)) <==> (exists k: nat :: w == Pow2(k))
  {
    if k: nat :| w / 2 == Pow2(k) { assert w == Pow2(k + 1); }
    if k: nat :| w == Pow2(k) {
      assert k > 0;
      assert w / 2 == Pow2(k - 1);
    }
  }

  lemma OddIsNoPower(w: nat)
    requires w > 1 && w % 2 == 1
    ensures forall k: nat :: w != Pow2(k)
  {
    forall k: nat ensures w != Pow2(k) { assert k > 0 ==> Pow2(k) % 2 == 0; }
  }

  lemma {:induction false} AndSelf(a: nat)
    ensures And(a, a) == a
  {
    if a > 0 { AndSelf(a / 2); }
  }
}
