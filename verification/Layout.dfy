/** Byte strings laid end to end, as every archive format here is. */
module Layout {
  import opened Common

  function Concat(parts: seq<Bytes>): Bytes {
    if parts == [] then [] else Concat(parts[..|parts| - 1]) + parts[|parts| - 1]
  }

  /** Where part `i` starts; for i == |parts|, where the next part would. */
  function OffsetOf(parts: seq<Bytes>, i: nat): nat
    requires i <= |parts|
  {
    |Concat(parts[..i])|
  }

  lemma ConcatGrows(parts: seq<Bytes>, i: nat)
    requires i < |parts|
    ensures Concat(parts[..i + 1]) == Concat(parts[..i]) + parts[i]
    ensures OffsetOf(parts, i + 1) == OffsetOf(parts, i) + |parts[i]|
  {
    assert parts[..i + 1][..i] == parts[..i];
  }

  lemma {:induction false} PrefixInPlace(parts: seq<Bytes>, i: nat)
    requires i <= |parts|
    ensures OffsetOf(parts, i) <= |Concat(parts)| && Concat(parts)[..OffsetOf(parts, i)] == Concat(parts[..i])
    decreases |parts| - i
  {
    if i == |parts| {
      assert parts[..i] == parts;
    } else {
      ConcatGrows(parts, i);
      PrefixInPlace(parts, i + 1);
      assert Concat(parts)[..OffsetOf(parts, i)] == Concat(parts[..i + 1])[..OffsetOf(parts, i)];
    }
  }

  /** Part `i` stands between its offset and the next. */
  lemma PartInPlace(parts: seq<Bytes>, tail: Bytes, i: nat)
    requires i < |parts|
    ensures OffsetOf(parts, i) <= OffsetOf(parts, i + 1) <= |Concat(parts) + tail|
    ensures (Concat(parts) + tail)[OffsetOf(parts, i)..OffsetOf(parts, i + 1)] == parts[i]
  {
    ConcatGrows(parts, i);
    PrefixInPlace(parts, i + 1);
    var from, to := OffsetOf(parts, i), OffsetOf(parts, i + 1);
    assert (Concat(parts) + tail)[from..to] == Concat(parts)[..to][from..];
  }

  lemma {:induction false} BlockAligned(parts: seq<Bytes>, i: nat)
    requires i <= |parts| && forall j :: 0 <= j < |parts| ==> |parts[j]| % 512 == 0
    ensures OffsetOf(parts, i) % 512 == 0
  {
    if i > 0 {
      BlockAligned(parts, i - 1);
      ConcatGrows(parts, i - 1);
      SumAligned(OffsetOf(parts, i - 1), |parts[i - 1]|);
    }
  }

  lemma SumAligned(a: nat, b: nat)
    requires a % 512 == 0 && b % 512 == 0
    ensures (a + b) % 512 == 0
  {}

  // ----- one part per item, where every item can be encoded -----

  function Mapped<A, B>(f: A -> B, items: seq<A>): (r: seq<B>)
    ensures |r| == |items|
  {
    if items == [] then [] else Mapped(f, items[..|items| - 1]) + [f(items[|items| - 1])]
  }

  lemma {:induction false} MappedAt<A, B>(f: A -> B, items: seq<A>, i: nat)
    requires i < |items|
    ensures Mapped(f, items)[i] == f(items[i])
  {
    if i < |items| - 1 { MappedAt(f, items[..|items| - 1], i); }
  }

  lemma {:induction false} MappedPrefix<A, B>(f: A -> B, items: seq<A>, i: nat)
    requires i <= |items|
    ensures Mapped(f, items[..i]) == Mapped(f, items)[..i]
    decreases |items| - i
  {
    if i == |items| {
      assert items[..i] == items;
    } else {
      MappedPrefix(f, items, i + 1);
      assert items[..i + 1][..i] == items[..i];
      assert Mapped(f, items[..i]) == Mapped(f, items[..i + 1])[..i];
    }
  }

  predicate AllSome(parts: seq<Option<Bytes>>) { forall i :: 0 <= i < |parts| ==> parts[i].Some? }

  function Values(parts: seq<Option<Bytes>>): (r: seq<Bytes>)
    ensures |r| == |parts|
  {
    seq(|parts|, i requires 0 <= i < |parts| => if parts[i].Some? then parts[i].value else [])
  }

  /** The encodings of all items end to end; None when one of them cannot be encoded. */
  function Encode<A>(f: A -> Option<Bytes>, items: seq<A>): Option<Bytes> {
    if AllSome(Mapped(f, items)) then Some(Concat(Values(Mapped(f, items)))) else None
  }

  lemma EncodeGrows<A>(f: A -> Option<Bytes>, items: seq<A>, i: nat)
    requires i < |items| && Encode(f, items[..i]).Some?
    ensures f(items[i]).Some?
            ==> Encode(f, items[..i + 1]) == Some(Encode(f, items[..i]).value + f(items[i]).value)
    ensures f(items[i]).None? ==> Encode(f, items).None?
  {
    var parts := Mapped(f, items);
    MappedAt(f, items, i);
    MappedPrefix(f, items, i);
    MappedPrefix(f, items, i + 1);
    if f(items[i]).Some? {
      assert parts[..i + 1] == parts[..i] + [parts[i]];
      ConcatGrows(Values(parts[..i + 1]), i);
      assert Values(parts[..i + 1])[..i] == Values(parts[..i]);
      assert Values(parts[..i + 1])[..i + 1] == Values(parts[..i + 1]);
    }
  }

  lemma EncodeNeedsEach<A>(f: A -> Option<Bytes>, items: seq<A>, i: nat)
    requires i < |items|
    ensures f(items[i]).None? ==> Encode(f, items).None?
  {
    MappedAt(f, items, i);
  }

  /** Where item `i` stands in the encoding of all items. */
  function ItemOffset<A>(f: A -> Option<Bytes>, items: seq<A>, i: nat): nat
    requires i <= |items|
  {
    OffsetOf(Values(Mapped(f, items)), i)
  }

  lemma ItemInPlace<A>(f: A -> Option<Bytes>, items: seq<A>, tail: Bytes, i: nat)
    requires i < |items| && Encode(f, items).Some?
    ensures f(items[i]).Some?
    ensures
      var whole, from, to := Encode(f, items).value + tail, ItemOffset(f, items, i), ItemOffset(f, items, i + 1);
      from <= to <= |whole| && whole[from..to] == f(items[i]).value
  {
    MappedAt(f, items, i);
    PartInPlace(Values(Mapped(f, items)), tail, i);
  }

  /** Bytes [a, b) of an item's encoding, found in the whole. */
  lemma SliceInPlace<A>(f: A -> Option<Bytes>, items: seq<A>, tail: Bytes, i: nat, a: nat, b: nat)
    requires i < |items| && Encode(f, items).Some? && f(items[i]).Some? && a <= b <= |f(items[i]).value|
    ensures
      var whole, from := Encode(f, items).value + tail, ItemOffset(f, items, i);
      from + b <= |whole| && whole[from + a..from + b] == f(items[i]).value[a..b]
  {
    ItemInPlace(f, items, tail, i);
    var whole, from, to := Encode(f, items).value + tail, ItemOffset(f, items, i), ItemOffset(f, items, i + 1);
    assert forall k :: a <= k < b ==> whole[from..to][k] == whole[from + k];
  }

  lemma ItemsEnd<A>(f: A -> Option<Bytes>, items: seq<A>)
    requires Encode(f, items).Some?
    ensures ItemOffset(f, items, 0) == 0 && ItemOffset(f, items, |items|) == |Encode(f, items).value|
  {
    var parts := Values(Mapped(f, items));
    assert parts[..|items|] == parts;
  }

  /** Where the length of every encoding is a multiple of 512, so is every offset. */
  lemma ItemsAligned<A>(f: A -> Option<Bytes>, items: seq<A>, i: nat)
    requires i <= |items| && forall a :: f(a).Some? ==> |f(a).value| % 512 == 0
    ensures ItemOffset(f, items, i) % 512 == 0
  {
    var parts := Values(Mapped(f, items));
    forall j | 0 <= j < |parts| ensures |parts[j]| % 512 == 0 { MappedAt(f, items, j); }
    BlockAligned(parts, i);
  }

  lemma {:induction false} ConcatCons(first: Bytes, rest: seq<Bytes>)
    ensures Concat([first] + rest) == first + Concat(rest)
  {
    var all := [first] + rest;
    if rest == [] {
      assert all[..0] == [];
    } else {
      ConcatCons(first, rest[..|rest| - 1]);
      assert all[..|all| - 1] == [first] + rest[..|rest| - 1];
    }
  }

  function Both(a: Option<Bytes>, b: Option<Bytes>): Option<Bytes> {
    if a.Some? && b.Some? then Some(a.value + b.value) else None
  }

  lemma {:induction false} ConcatJoins(a: seq<Bytes>, b: seq<Bytes>)
    ensures Concat(a + b) == Concat(a) + Concat(b)
  {
    if b == [] {
      assert a + b == a;
    } else {
      var n := |b| - 1;
      assert (a + b)[..|a| + n] == a + b[..n];
      ConcatJoins(a, b[..n]);
    }
  }

  /** Encoding in two parts. */
  lemma EncodeJoins<A>(f: A -> Option<Bytes>, a: seq<A>, b: seq<A>)
    ensures Encode(f, a + b) == Both(Encode(f, a), Encode(f, b))
  {
    var x, y, all := Mapped(f, a), Mapped(f, b), Mapped(f, a + b);
    forall i | 0 <= i < |a + b| ensures all[i] == (x + y)[i] {
      MappedAt(f, a + b, i);
      if i < |a| { MappedAt(f, a, i); } else { MappedAt(f, b, i - |a|); }
    }
    assert all == x + y;
    PartsJoin(x, y);
  }

  lemma PartsJoin(x: seq<Option<Bytes>>, y: seq<Option<Bytes>>)
    ensures AllSome(x + y) <==> AllSome(x) && AllSome(y)
    ensures Concat(Values(x + y)) == Concat(Values(x)) + Concat(Values(y))
  {
    assert forall i :: 0 <= i < |y| ==> y[i] == (x + y)[|x| + i];
    assert forall i :: 0 <= i < |x| ==> x[i] == (x + y)[i];
    assert Values(x + y) == Values(x) + Values(y);
    ConcatJoins(Values(x), Values(y));
  }

  /** A file that holds `head` and the encoding of `a` goes on with `b`. */
  lemma EncodeGoesOn<A>(f: A -> Option<Bytes>, a: seq<A>, b: seq<A>, head: Bytes, file: Bytes)
    requires Encode(f, a).Some? && file == head + Encode(f, a).value
    ensures if Encode(f, b).Some? then Encode(f, a + b).Some? && file + Encode(f, b).value == head + Encode(f, a + b).value
            else Encode(f, a + b).None?
  {
    EncodeJoins(f, a, b);
    if Encode(f, b).Some? {
      assert head + (Encode(f, a).value + Encode(f, b).value) == head + Encode(f, a).value + Encode(f, b).value;
    }
  }

  /** Encoding what a mapping delivers. */
  lemma EncodeMapped<A, B>(f: A -> Option<Bytes>, g: B -> Option<Bytes>, h: A -> B, items: seq<A>)
    requires Encode(f, items).Some? && forall a :: f(a).Some? ==> g(h(a)) == f(a)
    ensures Encode(g, Mapped(h, items)) == Encode(f, items)
  {
    var x, y := Mapped(f, items), Mapped(g, Mapped(h, items));
    forall i | 0 <= i < |items| ensures y[i] == x[i] {
      MappedAt(h, items, i);
      MappedAt(f, items, i);
      MappedAt(g, Mapped(h, items), i);
    }
    assert x == y;
  }

  lemma {:induction false} MappedCons<A, B>(f: A -> B, first: A, rest: seq<A>)
    ensures Mapped(f, [first] + rest) == [f(first)] + Mapped(f, rest)
  {
    var all := [first] + rest;
    if rest == [] {
      assert all[..0] == [];
    } else {
      MappedCons(f, first, rest[..|rest| - 1]);
      assert all[..|all| - 1] == [first] + rest[..|rest| - 1];
    }
  }

  /** Encoding from the front. */
  lemma EncodeCons<A>(f: A -> Option<Bytes>, first: A, rest: seq<A>)
    requires f(first).Some? && Encode(f, rest).Some?
    ensures Encode(f, [first] + rest) == Some(f(first).value + Encode(f, rest).value)
    ensures ItemOffset(f, [first] + rest, 0) == 0
    ensures forall i :: 0 < i <= |rest| + 1 ==>
              ItemOffset(f, [first] + rest, i) == |f(first).value| + ItemOffset(f, rest, i - 1)
  {
    MappedCons(f, first, rest);
    var parts, more := Values(Mapped(f, [first] + rest)), Values(Mapped(f, rest));
    assert parts == [f(first).value] + more;
    ConcatCons(f(first).value, more);
    forall i | 0 < i <= |rest| + 1 ensures OffsetOf(parts, i) == |f(first).value| + OffsetOf(more, i - 1) {
      assert parts[..i] == [f(first).value] + more[..i - 1];
      ConcatCons(f(first).value, more[..i - 1]);
    }
  }

  lemma Within(file: Bytes, from: nat, end: nat, i: nat, j: nat)
    requires from <= end <= |file| && i <= j <= end - from
    ensures file[from..end][i..j] == file[from + i..from + j]
  {
    var part := file[from..end];
    assert forall k :: i <= k < j ==> part[k] == file[from + k];
  }

  lemma Adjacent(s: Bytes, a: nat, b: nat, c: nat)
    requires a <= b <= c <= |s|
    ensures s[a..b] + s[b..c] == s[a..c]
  {}

  lemma FiveParts(a: Bytes, b: Bytes, c: Bytes, d: Bytes, e: Bytes)
    ensures
      var s, i, j, k, l := a + b + c + d + e, |a|, |a| + |b|, |a| + |b| + |c|, |a| + |b| + |c| + |d|;
      s[..i] == a && s[i..j] == b && s[j..k] == c && s[k..l] == d && s[l..] == e
  {}

  /** An item that encodes to [from, mid) in front of items that encode to the rest. */
  lemma EncodeInFront<A>(f: A -> Option<Bytes>, s: Bytes, from: nat, mid: nat, first: A, rest: seq<A>)
    requires from <= mid <= |s| && f(first) == Some(s[from..mid]) && Encode(f, rest) == Some(s[mid..])
    ensures Encode(f, [first] + rest) == Some(s[from..])
    ensures ItemOffset(f, [first] + rest, 0) == 0
    ensures forall i :: 0 < i <= |rest| + 1 ==> ItemOffset(f, [first] + rest, i) == mid - from + ItemOffset(f, rest, i - 1)
  {
    EncodeCons(f, first, rest);
    Adjacent(s, from, mid, |s|);
    assert s[from..|s|] == s[from..] && s[mid..|s|] == s[mid..];
  }

  /** `sink` holds `head` and the encodings of the first i items. */
  predicate Laid<A>(f: A -> Option<Bytes>, items: seq<A>, i: nat, head: Bytes, sink: Bytes) {
    i <= |items| && Encode(f, items[..i]).Some? && sink == head + Encode(f, items[..i]).value
  }

  lemma LaidEnds<A>(f: A -> Option<Bytes>, items: seq<A>, head: Bytes, sink: Bytes)
    ensures Laid(f, items, 0, head, head)
    ensures Laid(f, items, |items|, head, sink) ==> Encode(f, items).Some? && sink == head + Encode(f, items).value
  {
    assert items[..0] == [] && head + [] == head;
    assert items[..|items|] == items;
  }

  lemma LaidNext<A>(f: A -> Option<Bytes>, items: seq<A>, i: nat, head: Bytes, sink: Bytes)
    requires Laid(f, items, i, head, sink) && i < |items|
    ensures if f(items[i]).Some? then Laid(f, items, i + 1, head, sink + f(items[i]).value) else Encode(f, items).None?
  {
    EncodeGrows(f, items, i);
  }

  // ----- what a reader collects -----

  /** What was collected, followed by what is still to come; None once reading fails. */
  function Follows<A>(collected: seq<A>, rest: Option<seq<A>>): Option<seq<A>> {
    if rest.None? then None else Some(collected + rest.value)
  }

  lemma FollowsNothing<A>(rest: Option<seq<A>>)
    ensures Follows([], rest) == rest
  {
    if rest.Some? { assert [] + rest.value == rest.value; }
  }

  lemma FollowsOneMore<A>(collected: seq<A>, a: A, rest: Option<seq<A>>)
    ensures Follows(collected, Follows([a], rest)) == Follows(collected + [a], rest)
  {
    if rest.Some? { assert collected + ([a] + rest.value) == collected + [a] + rest.value; }
  }

  lemma FollowsTail<A>(all: seq<A>, i: nat)
    requires i < |all|
    ensures Follows([all[i]], Some(all[i + 1..])) == Some(all[i..])
  {
    assert [all[i]] + all[i + 1..] == all[i..];
  }

  // ----- a counted list of entries up to the end of a file -----

  /** `left` entries from `position` to exactly the end of the file. */
  function ReadAll<A>(at: (Bytes, nat) -> Option<A>, end: A -> nat, file: Bytes, position: nat, left: nat): (r: Option<seq<A>>)
    ensures r.Some? ==> |r.value| == left
    decreases left
  {
    if left == 0 then (if position == |file| then Some([]) else None)
    else
      match at(file, position)
      case None => None
      case Some(a) => Follows([a], ReadAll(at, end, file, end(a), left - 1))
  }

  predicate Found<A(==)>(at: (Bytes, nat) -> Option<A>, end: A -> nat, file: Bytes, start: nat, next: nat, a: A) {
    at(file, start) == Some(a) && end(a) == next
  }

  /** Entry i is found at starts[i], and the next one behind it. */
  predicate Chained<A(==)>(at: (Bytes, nat) -> Option<A>, end: A -> nat, file: Bytes, starts: seq<nat>, list: seq<A>) {
    && |starts| == |list| + 1 && starts[|list|] == |file|
    && forall i :: 0 <= i < |list| ==> Found(at, end, file, starts[i], starts[i + 1], list[i])
  }

  lemma OneStep<A>(at: (Bytes, nat) -> Option<A>, end: A -> nat, file: Bytes, position: nat, left: nat, a: A)
    requires left > 0 && at(file, position) == Some(a)
    ensures ReadAll(at, end, file, position, left) == Follows([a], ReadAll(at, end, file, end(a), left - 1))
  {}

  lemma {:induction false} ChainIsRead<A>(at: (Bytes, nat) -> Option<A>, end: A -> nat, file: Bytes,
    starts: seq<nat>, list: seq<A>, i: nat)
    requires Chained(at, end, file, starts, list) && i <= |list|
    ensures ReadAll(at, end, file, starts[i], |list| - i) == Some(list[i..])
    decreases |list| - i
  {
    if i == |list| {
      assert list[i..] == [];
    } else {
      ChainIsRead(at, end, file, starts, list, i + 1);
      assert Found(at, end, file, starts[i], starts[i + 1], list[i]);
      OneStep(at, end, file, starts[i], |list| - i, list[i]);
      FollowsTail(list, i);
    }
  }

  /** What stands in a part stands in the whole, shifted by what is in front. */
  lemma BehindHead(head: Bytes, body: Bytes, from: nat, to: nat)
    requires from <= to <= |body|
    ensures (head + body)[|head| + from..|head| + to] == body[from..to]
  {}
}
