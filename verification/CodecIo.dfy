/** The stream primitives of the codecs: src/compression/codec_io.cpp:67-369. */
module CodecIo {
  import opened Common
  import opened Bits

  const STREAM_BUFFER: nat := 256 * 1024
  const MOD64: nat := 0x1_0000_0000_0000_0000

  // ----- sinks -----

  /** ByteSinkAdapter: memory never refuses, a file may, possibly after some of the bytes. */
  class ByteSink {
    const inMemory: bool
    var data: Bytes

    constructor (inMemory: bool)
      ensures data == [] && this.inMemory == inMemory
    {
      this.inMemory := inMemory;
      data := [];
    }

    method Write(bytes: Bytes) returns (ok: bool)
      modifies this
      ensures inMemory ==> ok
      ensures ok ==> data == old(data) + bytes
    {
      if |bytes| == 0 || inMemory {
        data := data + bytes;
        return true;
      }
      var reached :| 0 <= reached <= |bytes|;
      data := data + bytes[..reached];
      ok := reached == |bytes|;
      if ok { assert bytes[..reached] == bytes; }
    }
  }

  // ----- writing bits -----

  /** Moving the oldest eight pending bits into the sink changes nothing overall. */
  lemma ByteLeaves(data: Bytes, v: nat, n: nat, b: byte)
    requires n >= 8 && b == Shr(v, n - 8) % 256
    ensures ByteBits(data + [b]) + CodeBits(v, n - 8) == ByteBits(data) + CodeBits(v, n)
  {
    SplitBits(v, 8, n - 8);
    LowByteBits(Shr(v, n - 8));
    ByteBitsAppend(data, b);
    Regroup(ByteBits(data), CodeBits(b, 8), CodeBits(v, n - 8));
  }

  lemma Regroup(a: seq<Bit>, b: seq<Bit>, c: seq<Bit>)
    ensures a + b + c == a + (b + c)
  {}

  lemma LowByteBits(w: nat)
    ensures CodeBits(w % 256, 8) == CodeBits(w, 8)
  {
    Pow2Values();
    HighBitsDoNotShow(w, 8, 8);
  }

  lemma Accumulated(acc: nat, buffered: nat, code: nat, length: nat)
    requires code < Pow2(length) && buffered + length <= 64
    ensures CodeBits(Shifted(acc, length, code) % MOD64, buffered + length) == CodeBits(acc, buffered) + CodeBits(code, length)
  {
    Pow2Values();
    ShiftedBits(acc, buffered, length, code);
    HighBitsDoNotShow(Shifted(acc, length, code), 64, buffered + length);
  }

  /** `(accumulator_ << length) | code` in 64 bits. */
  method ShiftIn(acc: nat, code: nat, length: nat, ghost buffered: nat) returns (r: nat)
    requires code < Pow2(length) && buffered + length <= 64
    ensures r < MOD64 && CodeBits(r, buffered + length) == CodeBits(acc, buffered) + CodeBits(code, length)
  {
    Accumulated(acc, buffered, code, length);
    r := Shifted(acc, length, code) % MOD64;
  }

  /** The last byte: the pending bits and zeros after them. */
  function PaddedByte(acc: nat, buffered: nat): byte
    requires 0 < buffered < 8
  {
    Shifted(acc, 8 - buffered, 0) % 256
  }

  lemma PaddedByteLeaves(data: Bytes, acc: nat, buffered: nat)
    requires 0 < buffered < 8
    ensures ByteBits(data + [PaddedByte(acc, buffered)])
            == ByteBits(data) + CodeBits(acc, buffered) + CodeBits(0, 8 - buffered)
    ensures (8 - buffered) % 8 == 8 - buffered
  {
    var w := Shifted(acc, 8 - buffered, 0);
    ShiftedBits(acc, buffered, 8 - buffered, 0);
    LowByteBits(w);
    ByteBitsAppend(data, w % 256);
    Regroup(ByteBits(data), CodeBits(acc, buffered), CodeBits(0, 8 - buffered));
  }

  lemma NothingPending(data: Bytes, acc: nat)
    ensures ByteBits(data) + CodeBits(acc, 0) == ByteBits(data) && ByteBits(data) + CodeBits(0, 0) == ByteBits(data)
  {}

  /** The accumulator is never masked; only its low `bufferedBits` bits are pending. */
  class BitWriter {
    const sink: ByteSink
    var accumulator: nat
    var bufferedBits: nat
    var bitsWritten: nat
    var payloadBytes: nat

    ghost predicate Valid() reads this { bufferedBits < 8 && accumulator < MOD64 }

    /** Every bit handed over so far: those in the sink and those pending. */
    ghost function Written(): seq<Bit>
      reads this, sink
    {
      ByteBits(sink.data) + CodeBits(accumulator, bufferedBits)
    }

    constructor (sink: ByteSink)
      ensures Valid() && this.sink == sink && bufferedBits == 0 && bitsWritten == 0 && payloadBytes == 0
      ensures Written() == ByteBits(sink.data)
    {
      this.sink := sink;
      accumulator, bufferedBits, bitsWritten, payloadBytes := 0, 0, 0, 0;
    }

    method WriteBits(code: nat, length: nat) returns (ok: bool)
      requires Valid() && length <= 32 && code < Pow2(length)
      modifies this, sink
      ensures sink.inMemory ==> ok
      ensures ok ==> Valid() && Written() == old(Written()) + CodeBits(code, length)
      ensures ok ==> bitsWritten == old(bitsWritten) + length
      ensures ok ==> payloadBytes - old(payloadBytes) == |sink.data| - old(|sink.data|)
    {
      if length == 0 { return true; }
      accumulator := ShiftIn(accumulator, code, length, bufferedBits);
      bufferedBits := bufferedBits + length;
      bitsWritten := bitsWritten + length;
      ok := EmitWholeBytes();
    }

    /** The loop of WriteBits. */
    method EmitWholeBytes() returns (ok: bool)
      requires accumulator < MOD64
      modifies this, sink
      ensures sink.inMemory ==> ok
      ensures ok ==> Valid() && Written() == old(Written()) && bitsWritten == old(bitsWritten)
      ensures ok ==> payloadBytes - old(payloadBytes) == |sink.data| - old(|sink.data|)
    {
      while bufferedBits >= 8
        invariant accumulator < MOD64 && Written() == old(Written()) && bitsWritten == old(bitsWritten)
        invariant payloadBytes - old(payloadBytes) == |sink.data| - old(|sink.data|)
      {
        var b: byte := Shr(accumulator, bufferedBits - 8) % 256;
        ByteLeaves(sink.data, accumulator, bufferedBits, b);
        bufferedBits := bufferedBits - 8;
        ok := sink.Write([b]);
        if !ok { return; }
        payloadBytes := payloadBytes + 1;
      }
      return true;
    }

    /** Pads the last byte with zero bits; a second call does nothing. */
    method Flush() returns (ok: bool)
      requires Valid()
      modifies this, sink
      ensures sink.inMemory ==> ok
      ensures ok ==> Valid() && bufferedBits == 0 && bitsWritten == old(bitsWritten)
      ensures ok ==> Written() == ByteBits(sink.data)
      ensures ok ==> Written() == old(Written()) + CodeBits(0, (8 - old(bufferedBits)) % 8)
    {
      if bufferedBits == 0 {
        NothingPending(sink.data, accumulator);
        return true;
      }
      var last := PaddedByte(accumulator, bufferedBits);
      PaddedByteLeaves(sink.data, accumulator, bufferedBits);
      ghost var all := Written() + CodeBits(0, 8 - bufferedBits);
      ok := sink.Write([last]);
      if !ok { return; }
      assert ByteBits(sink.data) == all;
      payloadBytes, bufferedBits := payloadBytes + 1, 0;
      NothingPending(sink.data, accumulator);
    }
  }

  // ----- reading -----

  lemma SliceGrows(data: Bytes, from: nat, to: nat, part: Bytes)
    requires from <= to && to + |part| <= |data| && part == data[to..to + |part|]
    ensures data[from..to] + part == data[from..to + |part|]
  {}

  /** SequentialReader over memory or over a file whose reads may fail. */
  class SequentialReader {
    const inMemory: bool
    const data: Bytes
    const buffer: array<byte>
    var memoryOffset: nat
    var bufferOffset: nat
    var bufferSize: nat
    var consumed: nat

    /** The unread part of the buffer is what follows in the source. */
    ghost predicate Valid()
      reads this, buffer
    {
      && buffer.Length == STREAM_BUFFER && bufferOffset <= bufferSize <= buffer.Length
      && consumed + (bufferSize - bufferOffset) <= |data|
      && (inMemory ==> memoryOffset == consumed + (bufferSize - bufferOffset))
      && (forall i :: bufferOffset <= i < bufferSize ==> buffer[i] == data[consumed + (i - bufferOffset)])
    }

    constructor (data: Bytes, inMemory: bool)
      ensures Valid() && this.data == data && this.inMemory == inMemory && consumed == 0 && fresh(buffer)
    {
      this.data, this.inMemory := data, inMemory;
      buffer := new byte[STREAM_BUFFER](_ => 0);
      memoryOffset, bufferOffset, bufferSize, consumed := 0, 0, 0, 0;
    }

    method Refill() returns (ok: bool)
      requires Valid() && bufferOffset == bufferSize
      modifies this, buffer
      ensures Valid() && consumed == old(consumed)
      ensures ok ==> bufferOffset < bufferSize
      ensures inMemory ==> (ok <==> consumed < |data|)
      ensures !ok ==> bufferOffset == bufferSize
    {
      if inMemory {
        if memoryOffset >= |data| { return false; }
        var want := |data| - memoryOffset;
        var take := if want < STREAM_BUFFER then want else STREAM_BUFFER;
        forall i | 0 <= i < take { buffer[i] := data[memoryOffset + i]; }
        memoryOffset, bufferOffset, bufferSize := memoryOffset + take, 0, take;
        return true;
      }
      var left := |data| - consumed;
      if left == 0 { return false; }
      var readFails := *;
      if readFails { return false; }
      var want := if left < STREAM_BUFFER then left else STREAM_BUFFER;
      forall i | 0 <= i < want { buffer[i] := data[consumed + i]; }
      bufferOffset, bufferSize := 0, want;
      return true;
    }

    method ReadByte() returns (ok: bool, b: byte)
      requires Valid()
      modifies this, buffer
      ensures Valid() && consumed == old(consumed) + (if ok then 1 else 0)
      ensures ok ==> old(consumed) < |data| && b == data[old(consumed)]
      ensures inMemory ==> (ok <==> old(consumed) < |data|)
    {
      b := 0;
      if bufferOffset >= bufferSize {
        ok := Refill();
        if !ok { return; }
      }
      b := buffer[bufferOffset];
      bufferOffset, consumed := bufferOffset + 1, consumed + 1;
      return true, b;
    }

    method ReadExact(size: nat) returns (ok: bool, out: Bytes)
      requires Valid()
      modifies this, buffer
      ensures Valid()
      ensures ok ==> consumed == old(consumed) + size && out == data[old(consumed)..consumed]
      ensures inMemory ==> (ok <==> size <= |data| - old(consumed))
    {
      out := [];
      while |out| < size
        invariant Valid() && |out| <= size && consumed == old(consumed) + |out| && out == data[old(consumed)..consumed]
        decreases size - |out|, bufferOffset >= bufferSize
      {
        if bufferOffset >= bufferSize {
          ok := Refill();
          if !ok { return; }
          continue;
        }
        ghost var from := consumed;
        var part := TakeBuffered(size - |out|);
        SliceGrows(data, from - |out|, from, part);
        out := out + part;
      }
      return true, out;
    }

    /** What the buffer still holds, up to `limit` bytes. */
    method TakeBuffered(limit: nat) returns (part: Bytes)
      requires Valid() && bufferOffset < bufferSize && limit > 0
      modifies this
      ensures Valid() && 0 < |part| <= limit && consumed == old(consumed) + |part|
      ensures part == data[old(consumed)..consumed]
    {
      var available := bufferSize - bufferOffset;
      var take := if limit < available then limit else available;
      part := buffer[bufferOffset..bufferOffset + take];
      bufferOffset, consumed := bufferOffset + take, consumed + take;
    }
  }

  lemma {:induction false} BitAt(v: nat, n: nat, i: nat)
    requires i < n
    ensures CodeBits(v, n)[i] == Shr(v, n - 1 - i) % 2
  {
    if i < n - 1 { BitAt(v / 2, n - 1, i); }
  }

  /** With `left` bits of byte k still to come, the next bit of the stream is its bit `left - 1`. */
  lemma StreamBit(data: Bytes, k: nat, left: nat)
    requires k < |data| && 1 <= left <= 8
    ensures ByteBits(data)[8 * k + 8 - left] == Shr(data[k], left - 1) % 2
  {
    ByteBitsAt(data, k);
    BitAt(data[k], 8, 8 - left);
    assert ByteBits(data)[8 * k + 8 - left] == ByteBits(data)[8 * k..8 * k + 8][8 - left];
  }

  class BitReader {
    const reader: SequentialReader
    const bitCount: nat
    ghost const start: nat
    var consumed: nat
    var current: byte
    var bitsLeft: nat

    /** The bytes taken from `start` on hold the bits consumed and the `bitsLeft` still at hand. */
    ghost predicate Valid()
      reads this, reader, reader.buffer
    {
      && reader.Valid() && start <= reader.consumed <= |reader.data| && bitsLeft < 8
      && 8 * (reader.consumed - start) == consumed + bitsLeft
      && (bitsLeft > 0 ==> reader.consumed > start && current == reader.data[reader.consumed - 1])
    }

    constructor (reader: SequentialReader, bitCount: nat)
      requires reader.Valid()
      ensures Valid() && this.reader == reader && this.bitCount == bitCount && consumed == 0 && start == reader.consumed
    {
      this.reader, this.bitCount, this.start := reader, bitCount, reader.consumed;
      consumed, current, bitsLeft := 0, 0, 0;
    }

    /** The next bit of the stream; refused at the end of the budget or of the bytes. */
    method ReadBit() returns (ok: bool, bit: Bit)
      requires Valid()
      modifies this, reader, reader.buffer
      ensures Valid() && consumed == old(consumed) + (if ok then 1 else 0)
      ensures ok ==> old(consumed) < bitCount && old(consumed) < 8 * (|reader.data| - start)
      ensures ok ==> bit == ByteBits(reader.data[start..])[old(consumed)]
      ensures reader.inMemory ==> (ok <==> old(consumed) < bitCount && old(consumed) < 8 * (|reader.data| - start))
    {
      bit := 0;
      if consumed >= bitCount { return false, 0; }
      if bitsLeft == 0 {
        var b;
        ok, b := reader.ReadByte();
        if !ok { return; }
        current, bitsLeft := b, 8;
      }
      StreamBit(reader.data[start..], reader.consumed - 1 - start, bitsLeft);
      bit := Shr(current, bitsLeft - 1) % 2;
      bitsLeft, consumed := bitsLeft - 1, consumed + 1;
      return true, bit;
    }
  }

  // ----- a bit stream written and read back -----

  /** The bits of a list of (code, length) pairs. */
  function Stream(codes: seq<(nat, nat)>): seq<Bit> {
    if codes == [] then [] else Stream(codes[..|codes| - 1]) + CodeBits(codes[|codes| - 1].0, codes[|codes| - 1].1)
  }

  predicate CodesFit(codes: seq<(nat, nat)>) {
    forall i :: 0 <= i < |codes| ==> codes[i].1 <= 32 && codes[i].0 < Pow2(codes[i].1)
  }

  /** WriteBits for every pair and Flush leave ceil(bits / 8) bytes: the stream and zero bits up to
      the next byte, whatever stale bits the accumulator held. */
  method WriteStream(codes: seq<(nat, nat)>) returns (bytes: Bytes, bitCount: nat)
    requires CodesFit(codes)
    ensures bitCount == |Stream(codes)| && |bytes| == (bitCount + 7) / 8
    ensures ByteBits(bytes)[..bitCount] == Stream(codes)
    ensures forall i :: bitCount <= i < 8 * |bytes| ==> ByteBits(bytes)[i] == 0
  {
    var sink := new ByteSink(true);
    var writer := new BitWriter(sink);
    for i := 0 to |codes|
      invariant fresh(sink) && fresh(writer) && writer.sink == sink && sink.inMemory
      invariant writer.Valid() && writer.Written() == Stream(codes[..i]) && writer.bitsWritten == |Stream(codes[..i])|
    {
      assert codes[..i + 1][..i] == codes[..i];
      var ok := writer.WriteBits(codes[i].0, codes[i].1);
    }
    assert codes[..|codes|] == codes;
    ghost var pad := (8 - writer.bufferedBits) % 8;
    var flushed := writer.Flush();
    StreamAndPadding(sink.data, Stream(codes), pad);
    return sink.data, writer.bitsWritten;
  }

  lemma StreamAndPadding(bytes: Bytes, bits: seq<Bit>, pad: nat)
    requires pad < 8 && ByteBits(bytes) == bits + CodeBits(0, pad)
    ensures |bytes| == (|bits| + 7) / 8 && ByteBits(bytes)[..|bits|] == bits
    ensures forall i :: |bits| <= i < 8 * |bytes| ==> ByteBits(bytes)[i] == 0
  {
    ZeroBits(pad);
    assert 8 * |bytes| == |bits| + pad;
  }

  lemma {:induction false} ZeroBits(n: nat)
    ensures forall i :: 0 <= i < n ==> CodeBits(0, n)[i] == 0
  {
    if n > 0 { ZeroBits(n - 1); }
  }

  /** Reading the written stream yields exactly its bits, most significant first, and then stops. */
  method ReadStream(codes: seq<(nat, nat)>) returns (bits: seq<Bit>)
    requires CodesFit(codes)
    ensures bits == Stream(codes)
  {
    var bytes, bitCount := WriteStream(codes);
    var reader := new SequentialReader(bytes, true);
    var bitReader := new BitReader(reader, bitCount);
    bits := [];
    assert bytes[0..] == bytes;
    while true
      invariant fresh(reader) && fresh(reader.buffer) && fresh(bitReader) && bitReader.reader == reader && bitReader.Valid()
      invariant reader.inMemory && reader.data == bytes && bitReader.bitCount == bitCount && bitReader.start == 0
      invariant |bits| == bitReader.consumed <= bitCount && bits == Stream(codes)[..|bits|]
      decreases bitCount - |bits|
    {
      var ok, bit := bitReader.ReadBit();
      if !ok { break; }
      bits := bits + [bit];
    }
  }

  // ----- the sliding history -----

  /** Copying `length` bytes from `distance` back, byte by byte, in the full history. */
  function CopyFrom(history: Bytes, distance: nat, length: nat): Bytes
    requires 1 <= distance <= |history|
    decreases length
  {
    if length == 0 then history
    else CopyFrom(history + [history[|history| - distance]], distance, length - 1)
  }

  lemma {:induction false} CopyExtends(history: Bytes, distance: nat, length: nat)
    requires 1 <= distance <= |history|
    ensures |CopyFrom(history, distance, length)| == |history| + length
    ensures forall k :: 0 <= k < |history| ==> CopyFrom(history, distance, length)[k] == history[k]
    decreases length
  {
    if length > 0 { CopyExtends(history + [history[|history| - distance]], distance, length - 1); }
  }

  /** An overlapping copy repeats the last `distance` bytes over and over. */
  lemma {:induction false} CopyRepeats(history: Bytes, distance: nat, length: nat, k: nat)
    requires 1 <= distance <= |history| <= k < |history| + length
    ensures |CopyFrom(history, distance, length)| == |history| + length
    ensures CopyFrom(history, distance, length)[k] == CopyFrom(history, distance, length)[k - distance]
    decreases length
  {
    var next := history + [history[|history| - distance]];
    CopyExtends(history, distance, length);
    CopyExtends(next, distance, length - 1);
    if k > |history| { CopyRepeats(next, distance, length - 1, k); }
  }

  /** What a copy reads for any distance at all: the byte at the distance folded into the window, or
      zero where the window reaches back before the start. */
  function Reads(history: Bytes, window: nat, distance: nat): byte
    requires window > 0
  {
    var folded := (distance - 1) % window + 1;
    if folded <= |history| then history[|history| - folded] else 0
  }

  function CopyWithin(history: Bytes, window: nat, distance: nat, length: nat): Bytes
    requires window > 0
    decreases length
  {
    if length == 0 then history
    else CopyWithin(history + [Reads(history, window, distance)], window, distance, length - 1)
  }

  /** Within the documented precondition the window is as good as the whole history. */
  lemma {:induction false} WindowSuffices(history: Bytes, window: nat, distance: nat, length: nat)
    requires 1 <= distance <= window && distance <= |history|
    ensures CopyWithin(history, window, distance, length) == CopyFrom(history, distance, length)
    decreases length
  {
    Remainder(distance - 1, window, 0, distance - 1);
    if length > 0 { WindowSuffices(history + [history[|history| - distance]], window, distance, length - 1); }
  }

  predicate PowerOfTwo(w: nat) { w > 0 && And(w, w - 1) == 0 }

  /** The last `|ring|` bytes of the history sit at their position modulo the window; what was never
      written is zero. */
  ghost predicate Mirrors(ring: seq<byte>, history: Bytes) {
    && |ring| > 0
    && (forall i :: 0 <= i < |history| && |history| - |ring| <= i ==> ring[i % |ring|] == history[i])
    && (forall i :: |history| <= i < |ring| ==> ring[i] == 0)
  }

  lemma MirrorsNext(ring: seq<byte>, history: Bytes, value: byte)
    requires Mirrors(ring, history)
    ensures Mirrors(ring[|history| % |ring| := value], history + [value])
  {
    var n, w := |history|, |ring|;
    forall i | 0 <= i < n + 1 && n + 1 - w <= i ensures ring[n % w := value][i % w] == (history + [value])[i] {
      if i < n { DifferentSlots(i, n, w); }
    }
  }

  lemma DifferentSlots(i: nat, n: nat, w: nat)
    requires w > 0 && i < n < i + w
    ensures i % w != n % w
  {
    var q, r := i / w, i % w;
    assert i == q * w + r;
    var s := r + (n - i);
    if s < w {
      Remainder(n, w, q, s);
    } else {
      assert n == (q + 1) * w + (s - w) by { assert (q + 1) * w == q * w + w; }
      Remainder(n, w, q + 1, s - w);
    }
  }

  /** The masked index stands for any distance, within the precondition or not. */
  lemma SlotHoldsWhatIsRead(ring: seq<byte>, history: Bytes, distance: nat)
    requires Mirrors(ring, history)
    ensures ring[(|history| - distance) % |ring|] == Reads(history, |ring|, distance)
  {
    var n, w := |history|, |ring|;
    var folded, turns := (distance - 1) % w + 1, (distance - 1) / w;
    assert distance == turns * w + folded;
    SameSlot(n - distance, turns, w);
    if folded > n {
      SameSlot(n - folded, 1, w);
      Remainder(n - folded + w, w, 0, n - folded + w);
    }
  }

  lemma SameSlot(i: int, turns: int, w: nat)
    requires w > 0
    ensures (i + turns * w) % w == i % w
  {
    var q, r := i / w, i % w;
    assert i == q * w + r;
    assert i + turns * w == (q + turns) * w + r by { assert (q + turns) * w == q * w + turns * w; }
    Remainder(i + turns * w, w, q + turns, r);
  }

  /** `produced_ - distance` in 64 bits: a window of 2^k bytes does not see the wrap-around. */
  function Index64(produced: nat, distance: nat): nat { (produced - distance) % MOD64 }

  lemma WrapIsInvisible(produced: nat, distance: nat, k: nat)
    requires k <= 64
    ensures Index64(produced, distance) % Pow2(k) == (produced - distance) % Pow2(k)
  {
    var a := produced - distance;
    Pow2Values();
    Pow2Sum(k, 64 - k);
    var turns := a / MOD64 * Pow2(64 - k);
    assert a == a % MOD64 + a / MOD64 * MOD64;
    Regrouped(a / MOD64, Pow2(64 - k), Pow2(k));
    SameSlot(a % MOD64, turns, Pow2(k));
  }

  lemma Exponent(k: nat)
    requires Pow2(k) < MOD64
    ensures k <= 64
  {
    Pow2Values();
    if k > 64 { Pow2Grows(64, k); }
  }

  lemma Regrouped(a: int, b: nat, c: nat)
    ensures a * (b * c) == a * b * c
  {}

  /** RollingHistory: a window that stands in for the whole history. */
  class RollingHistory {
    const sink: ByteSink
    const ring: array<byte>
    const mask: nat
    ghost const base: Bytes
    var produced: nat
    var out: Bytes
    ghost var history: Bytes

    ghost predicate Valid()
      reads this, ring, sink
    {
      && PowerOfTwo(ring.Length) && ring.Length < MOD64 && mask == ring.Length - 1
      && produced == |history| && Mirrors(ring[..], history)
      && |out| < STREAM_BUFFER && sink.data + out == base + history
    }

    constructor (sink: ByteSink, window: nat)
      requires PowerOfTwo(window) && window < MOD64
      ensures Valid() && this.sink == sink && ring.Length == window && history == [] && base == sink.data && fresh(ring)
    {
      this.sink, this.base := sink, sink.data;
      ring := new byte[window](_ => 0);
      mask := window - 1;
      produced, out, history := 0, [], [];
    }

    /** `index & mask_`. */
    function Slot(index: nat): (i: nat)
      reads this, ring
      requires ring.Length > 0 && PowerOfTwo(ring.Length) && mask == ring.Length - 1
      ensures i == index % ring.Length && i < ring.Length
    {
      PowerOfTwoTest(ring.Length);
      var k: nat :| ring.Length == Pow2(k);
      AndMask(index, k);
      And(index, mask)
    }

    method Emit(value: byte) returns (ok: bool)
      requires Valid()
      modifies this, ring, sink
      ensures sink.inMemory ==> ok
      ensures ok ==> Valid() && history == old(history) + [value]
    {
      ghost var before := ring[..];
      MirrorsNext(before, history, value);
      ring[Slot(produced)] := value;
      assert ring[..] == before[produced % ring.Length := value];
      OneMoreByte(sink.data, out, base, history, value);
      produced, out, history := produced + 1, out + [value], history + [value];
      if |out| >= STREAM_BUFFER {
        ok := sink.Write(out);
        if !ok { return; }
        out := [];
        assert sink.data + [] == sink.data;
      }
      return true;
    }

    method Push(value: byte) returns (ok: bool)
      requires Valid()
      modifies this, ring, sink
      ensures sink.inMemory ==> ok
      ensures ok ==> Valid() && history == old(history) + [value]
    {
      ok := Emit(value);
    }

    /** Copies as the unbounded history would, overlapping matches included; a distance beyond the
        window or beyond the start reads what `Reads` says. */
    method CopyMatch(distance: nat, length: nat) returns (ok: bool)
      requires Valid()
      modifies this, ring, sink
      ensures sink.inMemory ==> ok
      ensures ok ==> Valid() && history == CopyWithin(old(history), ring.Length, distance, length)
      ensures ok && 1 <= distance <= ring.Length && distance <= old(produced)
              ==> history == CopyFrom(old(history), distance, length)
    {
      if 1 <= distance <= ring.Length && distance <= produced { WindowSuffices(history, ring.Length, distance, length); }
      for index := 0 to length
        invariant Valid()
        invariant CopyWithin(history, ring.Length, distance, length - index) == CopyWithin(old(history), ring.Length, distance, length)
      {
        var value := Behind(distance);
        ok := Emit(value);
        if !ok { return; }
      }
      assert CopyWithin(history, ring.Length, distance, 0) == history;
      return true;
    }

    /** The byte in the slot `distance` behind the next one to be written. */
    method Behind(distance: nat) returns (value: byte)
      requires Valid()
      ensures value == Reads(history, ring.Length, distance)
    {
      PowerOfTwoTest(ring.Length);
      ghost var k: nat :| ring.Length == Pow2(k);
      Exponent(k);
      WrapIsInvisible(produced, distance, k);
      SlotHoldsWhatIsRead(ring[..], history, distance);
      value := ring[Slot(Index64(produced, distance))];
    }

    method Flush() returns (ok: bool)
      requires Valid()
      modifies this, sink
      ensures sink.inMemory ==> ok
      ensures ok ==> Valid() && history == old(history) && out == [] && sink.data == base + history
    {
      if out == [] {
        assert sink.data + [] == sink.data;
        return true;
      }
      ok := sink.Write(out);
      if !ok { return; }
      out := [];
      assert sink.data + [] == sink.data;
    }
  }

  lemma OneMoreByte(a: Bytes, b: Bytes, c: Bytes, d: Bytes, value: byte)
    requires a + b == c + d
    ensures a + (b + [value]) == c + (d + [value])
  {
    assert a + (b + [value]) == a + b + [value];
  }
}
