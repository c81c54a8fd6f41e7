/**
 * The schema-free wire-format walker of the native handler: the base-128
 * varint reader with JavaScript's 32-bit `|=`/`<<` semantics, the field reader
 * that splits a key into field number and wire type, and the scan that the
 * field loops of the handler perform.
 *
 * Byte positions are `nat`; a `Uint8Array` is a `seq<byte>`.
 */
module Wire {

  import opened Wrappers

  /** One element of a `Uint8Array`. */
  type byte = x: int | 0 <= x < 256

  const TWO_32: int := 0x1_0000_0000
  const TWO_31: int := 0x8000_0000

  // ---------------------------------------------------------------------
  // 32-bit JavaScript integer semantics, on 32-bit patterns held as nat
  // ---------------------------------------------------------------------

  function Pow2(n: nat): (p: nat)
    ensures p > 0
  {
    if n == 0 then 1 else 2 * Pow2(n - 1)
  }

  /** Bitwise OR of the low `n` bits of `a` and `b`. */
  function OrBits(a: nat, b: nat, n: nat): nat
    decreases n
  {
    if n == 0 then 0
    else (if a % 2 == 1 || b % 2 == 1 then 1 else 0) + 2 * OrBits(a / 2, b / 2, n - 1)
  }

  lemma {:induction false} OrBitsBound(a: nat, b: nat, n: nat)
    ensures OrBits(a, b, n) < Pow2(n)
    decreases n
  {
    if n > 0 {
      OrBitsBound(a / 2, b / 2, n - 1);
    }
  }

  /** `a | b` of two 32-bit patterns. */
  function Or32(a: nat, b: nat): (r: nat)
    ensures r < TWO_32
  {
    OrBitsBound(a, b, 32);
    Pow2Is32();
    OrBits(a, b, 32)
  }

  /** `x << shift` in JavaScript: the count is taken modulo 32 and bits past bit 31 are lost. */
  function Shl32(x: nat, shift: nat): nat
  {
    (x * Pow2(shift % 32)) % TWO_32
  }

  /** ECMAScript ToInt32: the signed number whose two's-complement pattern is `p`'s low 32 bits. */
  function ToInt32(p: nat): (v: int)
    ensures -TWO_31 <= v < TWO_31
    ensures p < TWO_31 ==> v == p
  {
    var u := p % TWO_32;
    if u < TWO_31 then u else u - TWO_32
  }

  /** ECMAScript ToUint32 (`v >>> 0`): the low 32 bits of `v` read as unsigned. */
  function ToUint32(v: int): (u: nat)
    ensures u < TWO_32
    ensures 0 <= v < TWO_32 ==> u == v
  {
    v % TWO_32
  }

  lemma SmallMod128(v: int)
    requires 0 <= v < 128
    ensures v % 128 == v
  {
  }

  lemma SmallMod(v: int)
    requires 0 <= v < TWO_32
    ensures v % TWO_32 == v
  {
  }

  /** ToUint32 undoes ToInt32 on a 32-bit pattern. */
  lemma Uint32OfInt32(p: nat)
    requires p < TWO_32
    ensures ToUint32(ToInt32(p)) == p
  {
    if p >= TWO_31 {
      var v := p - TWO_32;
      assert v + TWO_32 == p;
      assert v % TWO_32 == p;
    }
  }

  /** OR with zero leaves a pattern that fits in `n` bits unchanged. */
  lemma {:induction false} OrBitsZero(c: nat, n: nat)
    requires c < Pow2(n)
    ensures OrBits(0, c, n) == c
    decreases n
  {
    if n > 0 {
      OrBitsZero(c / 2, n - 1);
    }
  }

  /** OR-ing `x << k` onto a pattern below 2^k adds it: the bits do not meet. */
  lemma {:induction false} OrBitsDisjoint(a: nat, x: nat, k: nat, n: nat)
    requires k <= n
    requires a < Pow2(k)
    requires x * Pow2(k) < Pow2(n)
    ensures OrBits(a, x * Pow2(k), n) == a + x * Pow2(k)
    decreases k
  {
    if k == 0 {
      OrBitsZero(x, n);
    } else {
      var c := x * Pow2(k);
      assert c == 2 * (x * Pow2(k - 1));
      assert c % 2 == 0 && c / 2 == x * Pow2(k - 1);
      assert a / 2 < Pow2(k - 1);
      assert x * Pow2(k - 1) < Pow2(n - 1);
      OrBitsDisjoint(a / 2, x, k - 1, n - 1);
    }
  }

  // ---------------------------------------------------------------------
  // readVarint
  // ---------------------------------------------------------------------

  /** `(byte & 0x7F) << shift`, the pattern one loop iteration ORs in. */
  function Chunk(b: byte, shift: nat): nat
  {
    Shl32(b % 128, shift)
  }

  /**
   * The 32-bit pattern `value` holds after the loop has OR-ed in `bytes`,
   * the i-th byte shifted by 7 * i.
   */
  function ChunkBits(bytes: seq<byte>): (p: nat)
    ensures p < TWO_32
    decreases |bytes|
  {
    if bytes == [] then 0
    else Or32(ChunkBits(bytes[..|bytes| - 1]), Chunk(bytes[|bytes| - 1], 7 * (|bytes| - 1)))
  }

  lemma Pow2Is32()
    ensures Pow2(32) == TWO_32
    ensures Pow2(31) == TWO_31
  {
    assert Pow2(8) == 256 && Pow2(7) == 128;
    Pow2Add(8, 8);
    Pow2Add(16, 16);
    Pow2Add(8, 7);
    Pow2Add(16, 15);
  }

  lemma ChunkBitsSnoc(bytes: seq<byte>, b: byte)
    ensures ChunkBits(bytes + [b]) == Or32(ChunkBits(bytes), Chunk(b, 7 * |bytes|))
  {
    assert (bytes + [b])[..|bytes|] == bytes;
  }

  /**
   * The offset just after the varint that starts at `offset`: one past the
   * first byte whose high bit is clear, or the end of the buffer.
   */
  function VarintEnd(buffer: seq<byte>, offset: nat): (end: nat)
    ensures offset >= |buffer| ==> end == offset
    ensures offset < |buffer| ==> offset < end <= |buffer|
    decreases |buffer| - offset
  {
    if offset >= |buffer| then offset
    else if buffer[offset] < 128 then offset + 1
    else VarintEnd(buffer, offset + 1)
  }

  /** The bytes a varint read at `offset` consumes (none past the end of the buffer). */
  function VarintBytes(buffer: seq<byte>, offset: nat): (bytes: seq<byte>)
    ensures offset >= |buffer| ==> bytes == []
    ensures offset < |buffer| ==> bytes == buffer[offset..VarintEnd(buffer, offset)]
  {
    if offset < |buffer| then buffer[offset..VarintEnd(buffer, offset)] else []
  }

  /** What `readVarint` returns: the JS number and the new offset. */
  datatype Varint = Varint(value: int, next: nat)

  function VarintAt(buffer: seq<byte>, offset: nat): (r: Varint)
    ensures r.next == VarintEnd(buffer, offset)
    ensures offset >= |buffer| ==> r.value == 0
  {
    Varint(ToInt32(ChunkBits(VarintBytes(buffer, offset))), VarintEnd(buffer, offset))
  }

  /** The bytes from `offset` up to `pos`, or none when that range is not inside the buffer. */
  function Taken(buffer: seq<byte>, offset: nat, pos: nat): (t: seq<byte>)
    ensures |t| <= |buffer|
  {
    if offset <= pos <= |buffer| then buffer[offset..pos] else []
  }

  /**
   * The state of `readVarint`'s loop at position `pos`: every byte read so far
   * had its high bit set, `bits` holds their chunks, `shift` is 7 per byte, and
   * at the end of the buffer the state already denotes the varint.
   */
  ghost predicate Reading(buffer: seq<byte>, offset: nat, pos: nat, bits: nat, shift: nat)
  {
    && offset <= pos
    && (pos == offset || pos <= |buffer|)
    && shift == 7 * (pos - offset)
    && bits == ChunkBits(Taken(buffer, offset, pos))
    && VarintEnd(buffer, pos) == VarintEnd(buffer, offset)
    && (pos >= |buffer| ==> Varint(ToInt32(bits), pos) == VarintAt(buffer, offset))
  }

  lemma ReadingStart(buffer: seq<byte>, offset: nat)
    ensures Reading(buffer, offset, offset, 0, 0)
  {
    assert Taken(buffer, offset, offset) == [];
  }

  /** One iteration of `readVarint`'s loop: it either goes on reading or has read the whole varint. */
  lemma ReadingStep(buffer: seq<byte>, offset: nat, pos: nat, bits: nat, shift: nat)
    requires Reading(buffer, offset, pos, bits, shift)
    requires pos < |buffer|
    ensures buffer[pos] >= 128 ==>
              Reading(buffer, offset, pos + 1, Or32(bits, Chunk(buffer[pos], shift)), shift + 7)
    ensures buffer[pos] < 128 ==>
              Varint(ToInt32(Or32(bits, Chunk(buffer[pos], shift))), pos + 1) == VarintAt(buffer, offset)
  {
    var b := buffer[pos];
    var consumed := Taken(buffer, offset, pos);
    assert consumed == buffer[offset..pos];
    SliceSnoc(buffer, offset, pos);
    ChunkBitsSnoc(consumed, b);
    assert Taken(buffer, offset, pos + 1) == consumed + [b];
    if b < 128 {
      assert VarintBytes(buffer, offset) == consumed + [b];
    } else if pos + 1 >= |buffer| {
      assert VarintBytes(buffer, offset) == consumed + [b];
    }
  }

  /**
   * `readVarint`. The loop keeps the 32-bit pattern of `value` in `bits`; the
   * JavaScript number it returns is that pattern read as a signed 32-bit integer
   * (`value |= x` keeps `value` an int32 at every step, so only the pattern matters).
   */
  method ReadVarint(buffer: seq<byte>, offset: nat) returns (value: int, newOffset: nat)
    ensures Varint(value, newOffset) == VarintAt(buffer, offset)
  {
    var bits: nat := 0;
    var shift: nat := 0;
    newOffset := offset;
    ReadingStart(buffer, offset);
    while newOffset < |buffer|
      invariant Reading(buffer, offset, newOffset, bits, shift)
      decreases |buffer| - newOffset
    {
      var b := buffer[newOffset];
      ReadingStep(buffer, offset, newOffset, bits, shift);
      newOffset := newOffset + 1;
      bits := Or32(bits, Chunk(b, shift));
      if b < 128 {
        break;
      }
      shift := shift + 7;
    }
    value := ToInt32(bits);
  }

  lemma SliceSnoc(buffer: seq<byte>, i: nat, j: nat)
    requires i <= j < |buffer|
    ensures buffer[i..j] + [buffer[j]] == buffer[i..j + 1]
  {
  }

  /** Sum of `(b_i & 0x7F) * 128^i` (128^i written 2^(7i)), the value a base-128 varint denotes. */
  function Base128(bytes: seq<byte>): nat
    decreases |bytes|
  {
    if bytes == [] then 0
    else Base128(bytes[..|bytes| - 1]) + (bytes[|bytes| - 1] % 128) * Pow2(7 * (|bytes| - 1))
  }

  /** The varint stops right after the first byte whose high bit is clear, or at the end. */
  lemma {:induction false} VarintStopsAtTerminator(buffer: seq<byte>, offset: nat)
    requires offset < |buffer|
    ensures forall k :: offset <= k < VarintEnd(buffer, offset) - 1 ==> buffer[k] >= 128
    ensures buffer[VarintEnd(buffer, offset) - 1] < 128 || VarintEnd(buffer, offset) == |buffer|
    decreases |buffer| - offset
  {
    if buffer[offset] >= 128 && offset + 1 < |buffer| {
      VarintStopsAtTerminator(buffer, offset + 1);
    }
  }

  lemma {:induction false} VarintEndWhenUnterminated(buffer: seq<byte>, offset: nat)
    requires offset < |buffer|
    requires forall k :: offset <= k < |buffer| ==> buffer[k] >= 128
    ensures VarintEnd(buffer, offset) == |buffer|
    decreases |buffer| - offset
  {
    if offset + 1 < |buffer| {
      VarintEndWhenUnterminated(buffer, offset + 1);
    }
  }

  /**
   * A buffer that ends inside a varint is not an error: the reader returns the
   * bits gathered so far and the end of the buffer as the new offset.
   */
  lemma TruncatedVarint(buffer: seq<byte>, offset: nat)
    requires offset < |buffer|
    requires forall k :: offset <= k < |buffer| ==> buffer[k] >= 128
    ensures VarintAt(buffer, offset) == Varint(ToInt32(ChunkBits(buffer[offset..])), |buffer|)
  {
    VarintEndWhenUnterminated(buffer, offset);
    assert VarintBytes(buffer, offset) == buffer[offset..];
  }

  /** For at most four bytes the chunks occupy disjoint bits, so OR is addition. */
  lemma {:induction false} ChunkBitsIsBase128(bytes: seq<byte>)
    requires |bytes| <= 4
    ensures ChunkBits(bytes) == Base128(bytes)
    ensures Base128(bytes) < Pow2(7 * |bytes|)
    decreases |bytes|
  {
    if bytes == [] {
    } else {
      var n := |bytes| - 1;
      var init := bytes[..n];
      var x := bytes[n] % 128;
      ChunkBitsIsBase128(init);
      var a := ChunkBits(init);
      assert a < Pow2(7 * n);
      ShiftedChunkFits(a, x, n);
      Pow2Is32();
      var c := x * Pow2(7 * n);
      assert Chunk(bytes[n], 7 * n) == c;
      assert ChunkBits(bytes) == Or32(a, c);
      OrBitsDisjoint(a, x, 7 * n, 32);
      assert ChunkBits(bytes) == a + c;
      assert Base128(bytes) == Base128(init) + c;
      assert 7 * |bytes| == 7 * n + 7;
    }
  }

  /**
   * A 7-bit chunk shifted into bits 7n..7n+6 (n < 4) is unchanged by the
   * 32-bit shift and, added to anything below 2^(7n), stays below 2^(7n+7).
   */
  lemma ShiftedChunkFits(a: nat, x: nat, n: nat)
    requires x < 128 && n < 4
    requires a < Pow2(7 * n)
    ensures (7 * n) % 32 == 7 * n
    ensures a + x * Pow2(7 * n) < Pow2(7 * n + 7)
    ensures Pow2(7 * n + 7) <= 0x1000_0000
    ensures (x * Pow2(7 * n)) % TWO_32 == x * Pow2(7 * n)
  {
    Pow2Table();
    var p := Pow2(7 * n);
    if n == 0 {
      assert p == 1 && Pow2(7 * n + 7) == 128;
    } else if n == 1 {
      assert p == 128 && Pow2(7 * n + 7) == 16384;
    } else if n == 2 {
      assert p == 16384 && Pow2(7 * n + 7) == 2097152;
    } else {
      assert p == 2097152 && Pow2(7 * n + 7) == 0x1000_0000;
    }
    SmallMod(x * p);
  }

  /** The powers of two at the chunk boundaries of a varint. */
  lemma Pow2Table()
    ensures Pow2(0) == 1 && Pow2(7) == 128 && Pow2(14) == 16384
    ensures Pow2(21) == 2097152 && Pow2(28) == 0x1000_0000
  {
    assert Pow2(7) == 128;
    Pow2Add(7, 7);
    Pow2Add(14, 7);
    Pow2Add(21, 7);
  }

  lemma {:induction false} Pow2Add(i: nat, j: nat)
    ensures Pow2(i + j) == Pow2(i) * Pow2(j)
    decreases i
  {
    if i > 0 {
      Pow2Add(i - 1, j);
    }
  }

  lemma {:induction false} Pow2Monotone(i: nat, j: nat)
    requires i <= j
    ensures Pow2(i) <= Pow2(j)
    decreases j
  {
    if i < j {
      Pow2Monotone(i, j - 1);
    }
  }

  /**
   * A varint of at most four bytes reads as the base-128 sum of its bytes; such
   * values are below 2^28, so the sign bit is never set.
   */
  lemma VarintOfAtMostFourBytes(buffer: seq<byte>, offset: nat)
    requires offset < |buffer|
    requires VarintEnd(buffer, offset) - offset <= 4
    ensures VarintAt(buffer, offset).value == Base128(buffer[offset..VarintEnd(buffer, offset)])
  {
    var bytes := buffer[offset..VarintEnd(buffer, offset)];
    ChunkBitsIsBase128(bytes);
    Pow2Monotone(7 * |bytes|, 31);
    Pow2Is32();
  }

  /** A byte below 0x80 is a whole varint on its own, whose value is the byte. */
  lemma SingleByteVarint(buffer: seq<byte>, offset: nat)
    requires offset < |buffer| && buffer[offset] < 128
    ensures VarintAt(buffer, offset) == Varint(buffer[offset], offset + 1)
  {
    var bytes := buffer[offset..offset + 1];
    assert VarintBytes(buffer, offset) == bytes;
    ChunkBitsIsBase128(bytes);
    var x := bytes[0] % 128;
    SmallMod128(bytes[0]);
    assert bytes[..0] == [];
    assert 7 * (|bytes| - 1) == 0;
    assert Pow2(0) == 1;
    assert x * Pow2(0) == x;
    assert Base128(bytes) == x;
    assert x < TWO_31;
  }

  // ---------------------------------------------------------------------
  // parseField
  // ---------------------------------------------------------------------

  /** The value of a decoded field: a varint number, or the raw bytes `readString` decodes. */
  datatype WireValue = VarintValue(n: int) | Bytes(data: seq<byte>)

  /** `ProtoBufField`: the field number (called `tag` in the source), wire type and value. */
  datatype Field = Field(tag: int, wireType: int, value: WireValue)

  /** The only error `parseField` throws. */
  datatype FieldError = UnsupportedWireType(wireType: int)

  /** `key & 0x07` on a JS int32 key. */
  function WireTypeOf(key: int): (w: int)
    ensures 0 <= w < 8
  {
    key % 8
  }

  /** `key >> 3` on a JS int32 key (an arithmetic shift, which rounds towards minus infinity). */
  function FieldNumberOf(key: int): int
  {
    key / 8
  }

  /** The key a writer emits for a field: `fieldNumber << 3 | wireType`. */
  function MakeKey(fieldNumber: int, wireType: int): int
    requires 0 <= wireType < 8
  {
    fieldNumber * 8 + wireType
  }

  /** Splitting a key inverts building it, and every key is the key of its own split. */
  lemma KeySplitRoundTrip(fieldNumber: int, wireType: int, key: int)
    requires 0 <= wireType < 8
    ensures FieldNumberOf(MakeKey(fieldNumber, wireType)) == fieldNumber
    ensures WireTypeOf(MakeKey(fieldNumber, wireType)) == wireType
    ensures MakeKey(FieldNumberOf(key), WireTypeOf(key)) == key
  {
    var k := fieldNumber * 8 + wireType;
    assert k == 8 * fieldNumber + wireType;
  }

  /**
   * `buffer.slice(from, to)` for non-negative bounds: both bounds are clamped to
   * the buffer's length and an empty range gives an empty slice.
   */
  function Slice(buffer: seq<byte>, from: nat, to: nat): (r: seq<byte>)
    ensures from <= to <= |buffer| ==> r == buffer[from..to]
    ensures from <= |buffer| <= to ==> r == buffer[from..]
    ensures to <= from ==> r == []
  {
    var lo := if from < |buffer| then from else |buffer|;
    var hi := if to < |buffer| then to else |buffer|;
    if lo < hi then buffer[lo..hi] else []
  }

  /**
   * `readString` before its UTF-8 decoding: the bytes of the range
   * `[offset, offset + length)`, cut at the end of the buffer without error.
   */
  function ReadStringBytes(buffer: seq<byte>, offset: nat, length: nat): (r: seq<byte>)
    ensures |r| <= length
    ensures offset + length <= |buffer| ==> r == buffer[offset..offset + length]
    ensures offset <= |buffer| < offset + length ==> r == buffer[offset..]
  {
    Slice(buffer, offset, offset + length)
  }

  /** What `parseField` returns (the field and the offset just after it), or the error it throws. */
  datatype FieldRead = Parsed(field: Field, newOffset: nat) | Unsupported(wireType: int)

  /**
   * What `parseField` does once it has read the key `key` and stands at
   * `afterKey`: reads a varint (wire type 0) or a length-prefixed byte range
   * (wire type 2); every other wire type is an error. The length prefix is read
   * as an unsigned 32-bit count (see FieldAtAsWritten for the signed reading of
   * the source). The new offset is `afterLength + length` even when that lies
   * past the end of the buffer.
   */
  function FieldAfterKey(buffer: seq<byte>, key: int, afterKey: nat): (r: FieldRead)
    ensures r.Unsupported? <==> WireTypeOf(key) !in {0, 2}
    ensures r.Unsupported? ==> r.wireType == WireTypeOf(key)
    ensures r.Parsed? ==> r.field.tag == FieldNumberOf(key) && r.field.wireType == WireTypeOf(key)
    ensures r.Parsed? && afterKey < |buffer| ==> r.newOffset > afterKey
    ensures r.Parsed? ==> r.newOffset >= afterKey
  {
    var wireType := WireTypeOf(key);
    var fieldNumber := FieldNumberOf(key);
    if wireType == 0 then
      var v := VarintAt(buffer, afterKey);
      Parsed(Field(fieldNumber, 0, VarintValue(v.value)), v.next)
    else if wireType == 2 then
      var len := VarintAt(buffer, afterKey);
      var length := ToUint32(len.value);
      Parsed(Field(fieldNumber, 2, Bytes(ReadStringBytes(buffer, len.next, length))), len.next + length)
    else
      Unsupported(wireType)
  }

  /** `parseField` at `offset`: the key, then the rest of the field. A field never ends where it starts. */
  function FieldAt(buffer: seq<byte>, offset: nat): (r: FieldRead)
    ensures r.Parsed? && offset < |buffer| ==> r.newOffset > offset
  {
    var key := VarintAt(buffer, offset);
    FieldAfterKey(buffer, key.value, key.next)
  }

  /** `parseField`. */
  method ParseField(buffer: seq<byte>, offset: nat) returns (r: FieldRead)
    ensures r == FieldAt(buffer, offset)
  {
    var tag, afterTag := ReadVarint(buffer, offset);
    var wireType := WireTypeOf(tag);
    var fieldNumber := FieldNumberOf(tag);
    if wireType == 0 {
      var value, next := ReadVarint(buffer, afterTag);
      r := Parsed(Field(fieldNumber, 0, VarintValue(value)), next);
    } else if wireType == 2 {
      var length, afterLength := ReadVarint(buffer, afterTag);
      var count := ToUint32(length);
      r := Parsed(Field(fieldNumber, 2, Bytes(ReadStringBytes(buffer, afterLength, count))), afterLength + count);
    } else {
      r := Unsupported(wireType);
    }
  }

  // ---------------------------------------------------------------------
  // parseField as written: the length prefix as a signed 32-bit number
  // ---------------------------------------------------------------------

  /**
   * `buffer.slice(from, to)` with a possibly negative end, which JavaScript
   * counts back from the end of the buffer.
   */
  function JsSlice(buffer: seq<byte>, from: nat, to: int): (r: seq<byte>)
    ensures to >= 0 ==> r == Slice(buffer, from, to)
    ensures to < 0 && |buffer| + to <= from ==> r == []
  {
    var end := if to < 0 then (if |buffer| + to < 0 then 0 else |buffer| + to) else to;
    Slice(buffer, from, end)
  }

  /** What `parseField` as written returns: its new offset can be negative. */
  datatype RawFieldRead = RawParsed(field: Field, newOffset: int) | RawUnsupported(wireType: int)

  /**
   * `parseField` after the key exactly as the source computes it: the length of
   * a wire type 2 field is the signed number `readVarint` returns, so
   * `afterLength + length` may lie before `afterKey`. It agrees with
   * FieldAfterKey on every varint field, and on every length-delimited field
   * whose length prefix reads as a non-negative number.
   */
  function FieldAfterKeyAsWritten(buffer: seq<byte>, key: int, afterKey: nat): (r: RawFieldRead)
    ensures r.RawUnsupported? <==> FieldAfterKey(buffer, key, afterKey).Unsupported?
    ensures r.RawParsed? && (WireTypeOf(key) == 2 ==> VarintAt(buffer, afterKey).value >= 0) ==>
              r.newOffset >= 0 && FieldAfterKey(buffer, key, afterKey) == Parsed(r.field, r.newOffset)
  {
    var wireType := WireTypeOf(key);
    var fieldNumber := FieldNumberOf(key);
    if wireType == 0 then
      var v := VarintAt(buffer, afterKey);
      RawParsed(Field(fieldNumber, 0, VarintValue(v.value)), v.next)
    else if wireType == 2 then
      var len := VarintAt(buffer, afterKey);
      RawParsed(Field(fieldNumber, 2, Bytes(JsSlice(buffer, len.next, len.next + len.value))), len.next + len.value)
    else
      RawUnsupported(wireType)
  }

  /** `parseField` as written, at `offset`. */
  function FieldAtAsWritten(buffer: seq<byte>, offset: nat): (r: RawFieldRead)
    ensures r.RawUnsupported? <==> FieldAt(buffer, offset).Unsupported?
  {
    var key := VarintAt(buffer, offset);
    FieldAfterKeyAsWritten(buffer, key.value, key.next)
  }

  /**
   * Where the key at `offset` is read and the field after it is parsed, the
   * parser as written returns the same field, unless it is length-delimited
   * with a negative length.
   */
  lemma AsWrittenAgrees(buffer: seq<byte>, offset: nat, key: int, afterKey: nat, f: Field, end: nat)
    requires VarintAt(buffer, offset) == Varint(key, afterKey)
    requires FieldAfterKey(buffer, key, afterKey) == Parsed(f, end)
    requires WireTypeOf(key) == 2 ==> VarintAt(buffer, afterKey).value >= 0
    ensures FieldAtAsWritten(buffer, offset) == RawParsed(f, end)
  {
  }

  /**
   * `parseField` as written at any offset, including the negative ones a
   * negative length leads to. Before the start of the buffer `buffer[offset]`
   * is `undefined`, whose `& 0x7F` and `& 0x80` are 0: every byte there reads
   * as 0, so the key is 0 (field 0, wire type 0) and the field never throws.
   */
  function RawFieldAt(buffer: seq<byte>, offset: int): (r: RawFieldRead)
    ensures offset >= 0 ==> r == FieldAtAsWritten(buffer, offset)
    ensures offset < 0 ==> r.RawParsed? && r.field.tag == 0 && r.field.wireType == 0 && r.newOffset > offset
    ensures offset < -1 ==> r == RawParsed(Field(0, 0, VarintValue(0)), offset + 2)
  {
    if offset >= 0 then FieldAtAsWritten(buffer, offset)
    else if offset == -1 then
      var v := VarintAt(buffer, 0);
      RawParsed(Field(0, 0, VarintValue(v.value)), v.next)
    else RawParsed(Field(0, 0, VarintValue(0)), offset + 2)
  }

  /** Field 1, wire type 2, with a five-byte length prefix whose 32 bits read as -6. */
  const LOOPING_BUFFER: seq<byte> := [0x0A, 0xFA, 0xFF, 0xFF, 0xFF, 0x0F]

  /** Field 1, wire type 2, with a five-byte length prefix whose 32 bits read as -7. */
  const THROWING_BUFFER: seq<byte> := [0x0A, 0xF9, 0xFF, 0xFF, 0xFF, 0x0F]

  /**
   * The first four bytes of a length prefix `b FF FF FF` carry 28 bits: the low
   * seven bits of `b` and 21 bits set above them.
   */
  lemma NegativePrefixLowBits(low: seq<byte>, b: byte)
    requires low == [b, 0xFF, 0xFF, 0xFF] && b >= 0x80
    ensures ChunkBits(low) == 0xFFF_FF80 + (b - 0x80)
  {
    assert low[..1][..0] == [] && low[..2][..1] == low[..1] && low[..3][..2] == low[..2] && low[..4][..3] == low[..3];
    Pow2Table();
    assert b % 128 == b - 0x80;
    assert Base128(low[..1]) == b - 0x80;
    assert Base128(low[..2]) == (b - 0x80) + 127 * 128;
    assert Base128(low[..3]) == (b - 0x80) + 127 * 128 + 127 * 16384;
    assert Base128(low) == 0xFFF_FF80 + (b - 0x80);
    ChunkBitsIsBase128(low);
  }

  /** The fifth byte 0F of such a length prefix sets the top four bits. */
  lemma LoopingPrefixHighBits(b: byte)
    requires b == 0x0F
    ensures Chunk(b, 28) == 0xF000_0000
  {
    var x := b % 128;
    assert x == 15;
    Pow2Table();
    var p := Pow2(28);
    assert p == 0x1000_0000;
    var xp := x * p;
    assert xp == 0xF000_0000;
    assert Chunk(b, 28) == Shl32(x, 28);
    assert 28 % 32 == 28;
    assert Shl32(x, 28) == xp % TWO_32;
    SmallMod(xp);
  }

  /** The five bytes `b FF FF FF 0F` OR together to all 32 bits but the low seven, which come from `b`. */
  lemma NegativePrefixBits(bytes: seq<byte>, b: byte)
    requires bytes == [b, 0xFF, 0xFF, 0xFF, 0x0F] && b >= 0x80
    ensures ChunkBits(bytes) == 0xFFFF_FF80 + (b - 0x80)
  {
    var low := bytes[..4];
    NegativePrefixLowBits(low, b);
    LoopingPrefixHighBits(bytes[4]);
    var a := ChunkBits(low);
    var c := Chunk(bytes[4], 28);
    Pow2Is32();
    Pow2Table();
    OrBitsDisjoint(a, 15, 28, 32);
    assert ChunkBits(bytes) == Or32(a, c);
  }

  /** A varint at offset 1 whose first four bytes have the continuation bit ends at offset 6 when its fifth does not. */
  lemma FiveByteVarintEnd(buffer: seq<byte>)
    requires |buffer| == 6 && buffer[1] >= 0x80 && buffer[2] >= 0x80 && buffer[3] >= 0x80 && buffer[4] >= 0x80 && buffer[5] < 0x80
    ensures VarintEnd(buffer, 1) == 6
    ensures VarintBytes(buffer, 1) == buffer[1..]
  {
    assert VarintEnd(buffer, 5) == 6;
    assert VarintEnd(buffer, 4) == 6;
    assert VarintEnd(buffer, 3) == 6;
    assert VarintEnd(buffer, 2) == 6;
  }

  /**
   * A five-byte length prefix `b FF FF FF 0F` at offset 1 reads as the negative
   * number `b - 256`.
   */
  lemma NegativeLengthPrefix(buffer: seq<byte>, b: byte)
    requires |buffer| == 6 && buffer[1..] == [b, 0xFF, 0xFF, 0xFF, 0x0F] && b >= 0x80
    ensures VarintAt(buffer, 1) == Varint(b - 256, 6)
  {
    assert buffer[1] == b && buffer[2] == 0xFF && buffer[3] == 0xFF && buffer[4] == 0xFF && buffer[5] == 0x0F;
    FiveByteVarintEnd(buffer);
    var bytes := VarintBytes(buffer, 1);
    NegativePrefixBits(bytes, b);
    var pattern := ChunkBits(bytes);
    SmallMod(pattern);
    assert pattern >= TWO_31;
    assert ToInt32(pattern) == pattern - TWO_32;
  }

  /** The length prefix of LOOPING_BUFFER (bytes 1..6) reads as -6. */
  lemma LoopingPrefixIsMinusSix(buffer: seq<byte>)
    requires buffer == LOOPING_BUFFER
    ensures VarintAt(buffer, 1) == Varint(-6, 6)
  {
    NegativeLengthPrefix(buffer, 0xFA);
  }

  /**
   * As written, `parseField` at offset 0 of LOOPING_BUFFER succeeds and returns
   * offset 0 again, so the field loops that call it never reach the end of the
   * buffer. Read as unsigned, the same prefix moves the offset past the end.
   */
  lemma AsWrittenFieldDoesNotAdvance(buffer: seq<byte>)
    requires buffer == LOOPING_BUFFER
    ensures FieldAtAsWritten(buffer, 0) == RawParsed(Field(1, 2, Bytes([])), 0)
    ensures FieldAt(buffer, 0).Parsed? && FieldAt(buffer, 0).newOffset == 6 + 0xFFFF_FFFA
  {
    SingleByteVarint(buffer, 0);
    LoopingPrefixIsMinusSix(buffer);
    NegativeLengthField(buffer);
  }

  /** Key 10 is field 1 with wire type 2. */
  lemma KeyTen()
    ensures WireTypeOf(10) == 2 && FieldNumberOf(10) == 1
  {
  }

  /** A key 10 (field 1, wire type 2) followed by a length prefix that reads as -6, ending at offset 6. */
  lemma NegativeLengthField(buffer: seq<byte>)
    requires VarintAt(buffer, 0) == Varint(10, 1) && VarintAt(buffer, 1) == Varint(-6, 6)
    ensures FieldAtAsWritten(buffer, 0) == RawParsed(Field(1, 2, Bytes([])), 0)
    ensures FieldAt(buffer, 0).Parsed? && FieldAt(buffer, 0).newOffset == 6 + 0xFFFF_FFFA
  {
    KeyTen();
    BytesKeyAfterLength(buffer, 10, 1, -6, 6);
    assert JsSlice(buffer, 6, 0) == [];
    assert ToUint32(-6) == 0xFFFF_FFFA;
  }

  /** After a wire type 2 key, both readings take the length found after it. */
  lemma BytesKeyAfterLength(buffer: seq<byte>, key: int, afterKey: nat, length: int, afterLength: nat)
    requires WireTypeOf(key) == 2
    requires VarintAt(buffer, afterKey) == Varint(length, afterLength)
    ensures FieldAfterKeyAsWritten(buffer, key, afterKey) ==
              RawParsed(Field(FieldNumberOf(key), 2, Bytes(JsSlice(buffer, afterLength, afterLength + length))), afterLength + length)
    ensures FieldAfterKey(buffer, key, afterKey) ==
              Parsed(Field(FieldNumberOf(key), 2, Bytes(ReadStringBytes(buffer, afterLength, ToUint32(length)))), afterLength + ToUint32(length))
  {
  }

  /** The key -7 (all bits set but bit 3) has wire type 1. */
  lemma KeyMinusSeven()
    ensures WireTypeOf(-7) == 1
  {
  }

  /**
   * As written, `parseField` on THROWING_BUFFER: at offset 0 it reads field 1
   * with length -7 and moves to offset -1; there it reads byte 0 as the value
   * of field 0 and moves to offset 1; there the key is the prefix itself, -7,
   * whose wire type 1 throws. Read unsigned, the first field runs past the end.
   */
  lemma ThrowingBufferFields(buffer: seq<byte>)
    requires buffer == THROWING_BUFFER
    ensures RawFieldAt(buffer, 0) == RawParsed(Field(1, 2, Bytes([])), -1)
    ensures RawFieldAt(buffer, -1) == RawParsed(Field(0, 0, VarintValue(10)), 1)
    ensures RawFieldAt(buffer, 1) == RawUnsupported(1)
    ensures FieldAt(buffer, 0) == Parsed(Field(1, 2, Bytes([])), 6 + 0xFFFF_FFF9)
  {
    SingleByteVarint(buffer, 0);
    NegativeLengthPrefix(buffer, 0xF9);
    KeyTen();
    KeyMinusSeven();
    BytesKeyAfterLength(buffer, 10, 1, -7, 6);
    assert JsSlice(buffer, 6, -1) == [];
    assert ToUint32(-7) == 0xFFFF_FFF9;
    assert ReadStringBytes(buffer, 6, 0xFFFF_FFF9) == [];
  }
}
