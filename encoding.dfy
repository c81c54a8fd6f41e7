/**
 * A reference writer for the wire format the native handler reads: base-128
 * varints for numbers, keys `fieldNumber << 3 | wireType`, and length-prefixed
 * byte ranges. The handler has no writer of its own; this one exists to state
 * what the reader recovers from well-formed input.
 */
module Encoding {

  import opened Wire
  import opened Fields

  /** The largest varint value the reader returns unchanged: it fits in four 7-bit chunks. */
  const SMALL: nat := 0x1000_0000

  /** Base-128 digits of `n`, least significant first, the high bit set on all but the last. */
  function EncodeVarint(n: nat): (bytes: seq<byte>)
    ensures |bytes| >= 1
    decreases n
  {
    if n < 128 then [n] else [n % 128 + 128] + EncodeVarint(n / 128)
  }

  /** Base128 read from the front: the first byte is the least significant chunk. */
  lemma {:induction false} Base128Cons(b: byte, rest: seq<byte>)
    ensures Base128([b] + rest) == b % 128 + 128 * Base128(rest)
    decreases |rest|
  {
    var s := [b] + rest;
    if rest == [] {
      assert s[..0] == [];
      assert Pow2(0) == 1;
    } else {
      var n := |rest| - 1;
      var init := rest[..n];
      var x := rest[n] % 128;
      assert s[..|s| - 1] == [b] + init;
      assert s[|s| - 1] == rest[n];
      Base128Cons(b, init);
      var p := Pow2(7 * n);
      Pow2Add(7, 7 * n);
      assert Pow2(7) == 128;
      assert 7 * (|s| - 1) == 7 + 7 * n;
      assert Pow2(7 * (|s| - 1)) == 128 * p;
      assert Base128(s) == Base128([b] + init) + x * (128 * p);
      assert Base128(rest) == Base128(init) + x * p;
      TimesScale(x, p);
    }
  }

  lemma TimesScale(x: int, p: int)
    ensures x * (128 * p) == 128 * (x * p)
  {
  }

  /** The encoding denotes `n`. */
  lemma {:induction false} EncodeVarintValue(n: nat)
    ensures Base128(EncodeVarint(n)) == n
    decreases n
  {
    var e := EncodeVarint(n);
    if n < 128 {
      assert e == [n];
      Base128Cons(n, []);
      assert Base128([]) == 0;
      SmallMod128(n);
    } else {
      var q := n / 128;
      EncodeVarintValue(q);
      var b := n % 128 + 128;
      assert e == [b] + EncodeVarint(q);
      Base128Cons(b, EncodeVarint(q));
      assert b % 128 == n % 128;
    }
  }

  /** Below 2^(7k) the encoding takes at most `k` bytes. */
  lemma {:induction false} EncodeVarintLength(n: nat, k: nat)
    requires 1 <= k && n < Pow2(7 * k)
    ensures |EncodeVarint(n)| <= k
    decreases n
  {
    if n >= 128 {
      QuotientBound(n, k);
      EncodeVarintLength(n / 128, k - 1);
    }
  }

  /** Only the last byte of the encoding has its high bit clear. */
  lemma {:induction false} EncodeVarintTerminated(n: nat)
    ensures forall i :: 0 <= i < |EncodeVarint(n)| - 1 ==> EncodeVarint(n)[i] >= 128
    ensures EncodeVarint(n)[|EncodeVarint(n)| - 1] < 128
    decreases n
  {
    var e := EncodeVarint(n);
    if n >= 128 {
      var q := n / 128;
      EncodeVarintTerminated(q);
      var eq := EncodeVarint(q);
      assert e == [n % 128 + 128] + eq;
      forall i | 0 <= i < |e| - 1
        ensures e[i] >= 128
      {
        if i > 0 {
          assert e[i] == eq[i - 1];
        }
      }
      assert e[|e| - 1] == eq[|eq| - 1];
    }
  }

  /** Dropping the low seven bits of a number below 2^(7k) leaves one below 2^(7(k-1)). */
  lemma QuotientBound(n: nat, k: nat)
    requires 1 <= k && 128 <= n < Pow2(7 * k)
    ensures k >= 2 && n / 128 < Pow2(7 * (k - 1))
  {
    assert Pow2(7) == 128;
    Pow2Add(7, 7 * (k - 1));
    assert 7 * k == 7 + 7 * (k - 1);
  }

  /** A run of `len` bytes whose only byte below 0x80 is its last one is exactly one varint. */
  lemma {:induction false} VarintEndOfTerminated(buffer: seq<byte>, offset: nat, len: nat)
    requires 1 <= len && offset + len <= |buffer|
    requires forall i :: offset <= i < offset + len - 1 ==> buffer[i] >= 128
    requires buffer[offset + len - 1] < 128
    ensures VarintEnd(buffer, offset) == offset + len
    decreases len
  {
    if len > 1 {
      VarintEndOfTerminated(buffer, offset + 1, len - 1);
    }
  }

  /** The reader recovers every value below 2^28 from its encoding, and stops right after it. */
  lemma ReadEncodedVarint(buffer: seq<byte>, offset: nat, n: nat)
    requires n < SMALL
    requires offset + |EncodeVarint(n)| <= |buffer|
    requires buffer[offset..offset + |EncodeVarint(n)|] == EncodeVarint(n)
    ensures VarintAt(buffer, offset) == Varint(n, offset + |EncodeVarint(n)|)
  {
    var e := EncodeVarint(n);
    EncodeSmallLength(n);
    EncodeVarintTerminated(n);
    forall i | offset <= i < offset + |e| - 1
      ensures buffer[i] >= 128
    {
      assert buffer[i] == e[i - offset];
    }
    assert buffer[offset + |e| - 1] == e[|e| - 1];
    VarintEndOfTerminated(buffer, offset, |e|);
    var end := offset + |e|;
    assert VarintEnd(buffer, offset) == end;
    assert buffer[offset..VarintEnd(buffer, offset)] == e;
    VarintOfAtMostFourBytes(buffer, offset);
    EncodeVarintValue(n);
  }

  /** A value below 2^28 takes at most four bytes. */
  lemma EncodeSmallLength(n: nat)
    requires n < SMALL
    ensures |EncodeVarint(n)| <= 4
  {
    Pow2Table();
    EncodeVarintLength(n, 4);
  }

  /** A field the writer can emit: a non-negative field number and a value below 2^28 (a length, for bytes). */
  predicate Encodable(f: Field)
  {
    && 0 <= f.tag
    && f.tag * 8 + f.wireType < SMALL
    && match f.value
       case VarintValue(n) => f.wireType == 0 && 0 <= n < SMALL
       case Bytes(data) => f.wireType == 2 && |data| < SMALL
  }

  /** The key, then the varint value or the length prefix and the bytes. */
  function EncodeField(f: Field): (bytes: seq<byte>)
    requires Encodable(f)
  {
    EncodeVarint(MakeKey(f.tag, f.wireType)) + EncodeValue(f.value)
  }

  /** What follows the key: the varint value, or the length prefix and the bytes. */
  function EncodeValue(v: WireValue): (bytes: seq<byte>)
    requires v.VarintValue? ==> 0 <= v.n
  {
    match v
    case VarintValue(n) => EncodeVarint(n)
    case Bytes(data) => EncodeVarint(|data|) + data
  }

  /** Every field of the list is one the writer can emit. */
  predicate AllEncodable(fields: seq<Field>)
  {
    forall i :: 0 <= i < |fields| ==> Encodable(fields[i])
  }

  /** The fields one after the other. */
  function EncodeFields(fields: seq<Field>): (bytes: seq<byte>)
    requires AllEncodable(fields)
    decreases |fields|
  {
    if fields == [] then [] else EncodeField(fields[0]) + EncodeFields(fields[1..])
  }

  /** Where a slice of the buffer is `x + y`, the two parts are slices of the buffer too. */
  lemma SplitSlice(buffer: seq<byte>, lo: nat, hi: nat, x: seq<byte>, y: seq<byte>)
    requires lo <= hi <= |buffer| && buffer[lo..hi] == x + y
    ensures buffer[lo..lo + |x|] == x
    ensures buffer[lo + |x|..hi] == y
  {
    var s := buffer[lo..hi];
    assert s[..|x|] == x;
    assert s[|x|..] == y;
    assert buffer[lo..lo + |x|] == s[..|x|];
    assert buffer[lo + |x|..hi] == s[|x|..];
  }

  /** A varint field whose key and value the reader recovers is parsed as that field. */
  lemma ReadVarintFieldAfterKey(buffer: seq<byte>, tag: int, afterKey: nat, n: nat, end: nat)
    requires VarintAt(buffer, afterKey) == Varint(n, end)
    ensures FieldAfterKey(buffer, MakeKey(tag, 0), afterKey) == Parsed(Field(tag, 0, VarintValue(n)), end)
  {
    var key := MakeKey(tag, 0);
    KeySplitRoundTrip(tag, 0, key);
    assert WireTypeOf(key) == 0 && FieldNumberOf(key) == tag;
  }

  /** A bytes field whose key and length the reader recovers is parsed as those bytes. */
  lemma ReadBytesFieldAfterKey(buffer: seq<byte>, tag: int, afterKey: nat, data: seq<byte>, start: nat)
    requires |data| < SMALL && start + |data| <= |buffer| && buffer[start..start + |data|] == data
    requires VarintAt(buffer, afterKey) == Varint(|data|, start)
    ensures FieldAfterKey(buffer, MakeKey(tag, 2), afterKey) == Parsed(Field(tag, 2, Bytes(data)), start + |data|)
  {
    var key := MakeKey(tag, 2);
    KeySplitRoundTrip(tag, 2, key);
    assert WireTypeOf(key) == 2 && FieldNumberOf(key) == tag;
    assert ToUint32(|data|) == |data|;
    assert ReadStringBytes(buffer, start, |data|) == data;
  }

  /** The field at `offset` is read from just after the key found there. */
  lemma FieldAtKey(buffer: seq<byte>, offset: nat, key: int, afterKey: nat)
    requires VarintAt(buffer, offset) == Varint(key, afterKey)
    ensures FieldAt(buffer, offset) == FieldAfterKey(buffer, key, afterKey)
  {
  }

  /** After the key of an encodable field, the reader recovers the field's value and stops after it. */
  lemma ReadEncodedValue(buffer: seq<byte>, f: Field, afterKey: nat, end: nat)
    requires Encodable(f)
    requires afterKey + |EncodeValue(f.value)| == end <= |buffer|
    requires buffer[afterKey..end] == EncodeValue(f.value)
    ensures FieldAfterKey(buffer, MakeKey(f.tag, f.wireType), afterKey) == Parsed(f, end)
  {
    match f.value
    case VarintValue(n) =>
      ReadEncodedVarint(buffer, afterKey, n);
      ReadVarintFieldAfterKey(buffer, f.tag, afterKey, n, end);
    case Bytes(data) =>
      var el := EncodeVarint(|data|);
      var start := afterKey + |el|;
      assert EncodeValue(f.value) == el + data;
      assert end == start + |data|;
      SplitSlice(buffer, afterKey, end, el, data);
      assert buffer[start..start + |data|] == data;
      ReadEncodedVarint(buffer, afterKey, |data|);
      assert VarintAt(buffer, afterKey) == Varint(|data|, start);
      ReadBytesFieldAfterKey(buffer, f.tag, afterKey, data, start);
  }

  /** Where the buffer from `lo` on is `x + y`, it holds `x` at `lo` and `y` from there to the end. */
  lemma SplitSuffix(buffer: seq<byte>, lo: nat, x: seq<byte>, y: seq<byte>)
    requires lo <= |buffer| && buffer[lo..] == x + y
    ensures lo + |x| <= |buffer|
    ensures buffer[lo..lo + |x|] == x
    ensures buffer[lo + |x|..] == y
  {
    var s := buffer[lo..];
    assert s[..|x|] == x;
    assert s[|x|..] == y;
    assert buffer[lo..lo + |x|] == s[..|x|];
    assert buffer[lo + |x|..] == s[|x|..];
  }

  /** `parseField` on an encoded field returns that field and the offset just after it. */
  lemma ReadEncodedField(buffer: seq<byte>, offset: nat, f: Field)
    requires Encodable(f)
    requires offset + |EncodeField(f)| <= |buffer|
    requires buffer[offset..offset + |EncodeField(f)|] == EncodeField(f)
    ensures FieldAt(buffer, offset) == Parsed(f, offset + |EncodeField(f)|)
  {
    var key := MakeKey(f.tag, f.wireType);
    var ek := EncodeVarint(key);
    var ev := EncodeValue(f.value);
    var end := offset + |EncodeField(f)|;
    var afterKey := offset + |ek|;
    SplitSlice(buffer, offset, end, ek, ev);
    ReadEncodedVarint(buffer, offset, key);
    FieldAtKey(buffer, offset, key, afterKey);
    ReadEncodedValue(buffer, f, afterKey, end);
  }

  /** After the key of an encodable bytes field, the length prefix reads as the length of its data. */
  lemma ReadEncodedLength(buffer: seq<byte>, f: Field, afterKey: nat, end: nat)
    requires Encodable(f) && f.value.Bytes?
    requires afterKey + |EncodeValue(f.value)| == end <= |buffer|
    requires buffer[afterKey..end] == EncodeValue(f.value)
    ensures VarintAt(buffer, afterKey).value == |f.value.data|
  {
    var data := f.value.data;
    var el := EncodeVarint(|data|);
    assert EncodeValue(f.value) == el + data;
    SplitSlice(buffer, afterKey, end, el, data);
    ReadEncodedVarint(buffer, afterKey, |data|);
  }

  /** The encoding of a non-empty list holds its first field's encoding, then the encoding of the rest. */
  lemma EncodedHead(buffer: seq<byte>, offset: nat, fields: seq<Field>)
    requires AllEncodable(fields) && fields != []
    requires offset <= |buffer| && buffer[offset..] == EncodeFields(fields)
    ensures Encodable(fields[0]) && AllEncodable(fields[1..])
    ensures offset + |EncodeField(fields[0])| <= |buffer|
    ensures buffer[offset..offset + |EncodeField(fields[0])|] == EncodeField(fields[0])
    ensures buffer[offset + |EncodeField(fields[0])|..] == EncodeFields(fields[1..])
  {
    var tail := fields[1..];
    assert AllEncodable(tail) by {
      forall i | 0 <= i < |tail| ensures Encodable(tail[i]) { assert tail[i] == fields[i + 1]; }
    }
    SplitSuffix(buffer, offset, EncodeField(fields[0]), EncodeFields(tail));
  }

  /** Where a field parses, the scan takes it and goes on from where it ends. */
  lemma ScanParsedStep(buffer: seq<byte>, offset: nat, f: Field, next: nat)
    requires offset < |buffer| && FieldAt(buffer, offset) == Parsed(f, next)
    ensures ScanFrom(buffer, offset) == Scan([f] + ScanFrom(buffer, next).fields, ScanFrom(buffer, next).failed)
  {
  }

  /** The reader takes the first field of an encoded non-empty list and stops where the rest's encoding begins. */
  lemma EncodedHeadParses(buffer: seq<byte>, offset: nat, fields: seq<Field>)
    requires AllEncodable(fields) && fields != []
    requires offset <= |buffer| && buffer[offset..] == EncodeFields(fields)
    ensures AllEncodable(fields[1..])
    ensures offset < |buffer|
    ensures FieldAt(buffer, offset) == Parsed(fields[0], offset + |EncodeField(fields[0])|)
    ensures buffer[offset + |EncodeField(fields[0])|..] == EncodeFields(fields[1..])
  {
    EncodedHead(buffer, offset, fields);
    ReadEncodedField(buffer, offset, fields[0]);
  }

  /** The first field of an encoded non-empty list has no length prefix that reads as negative. */
  lemma EncodedHeadLength(buffer: seq<byte>, offset: nat, fields: seq<Field>)
    requires AllEncodable(fields) && fields != []
    requires offset <= |buffer| && buffer[offset..] == EncodeFields(fields)
    ensures LengthNotNegative(buffer, offset)
  {
    EncodedHead(buffer, offset, fields);
    EncodedLengthNotNegative(buffer, offset, fields[0]);
  }

  /** Where a field parses and the scan after it ends cleanly with `tail`, the scan from the field ends cleanly with it in front. */
  lemma ScanTakesHead(buffer: seq<byte>, offset: nat, f: Field, next: nat, tail: seq<Field>)
    requires offset < |buffer| && FieldAt(buffer, offset) == Parsed(f, next)
    requires ScanFrom(buffer, next) == Scan(tail, false)
    ensures ScanFrom(buffer, offset) == Scan([f] + tail, false)
  {
    ScanParsedStep(buffer, offset, f, next);
  }

  /** Scanning the encoding of a list of fields yields exactly that list, with no failure. */
  lemma {:induction false} ScanEncoded(buffer: seq<byte>, offset: nat, fields: seq<Field>)
    requires AllEncodable(fields)
    requires offset <= |buffer| && buffer[offset..] == EncodeFields(fields)
    ensures ScanFrom(buffer, offset) == Scan(fields, false)
    decreases |fields|
  {
    if fields == [] {
      assert |buffer[offset..]| == 0;
    } else {
      var f := fields[0];
      var tail := fields[1..];
      var next := offset + |EncodeField(f)|;
      EncodedHeadParses(buffer, offset, fields);
      ScanEncoded(buffer, next, tail);
      ScanTakesHead(buffer, offset, f, next, tail);
      assert [f] + tail == fields;
    }
  }

  /** The length prefix of an encoded field, if it has one, does not read as negative. */
  lemma EncodedLengthNotNegative(buffer: seq<byte>, offset: nat, f: Field)
    requires Encodable(f)
    requires offset + |EncodeField(f)| <= |buffer|
    requires buffer[offset..offset + |EncodeField(f)|] == EncodeField(f)
    ensures LengthNotNegative(buffer, offset)
  {
    var key := MakeKey(f.tag, f.wireType);
    var ek := EncodeVarint(key);
    var ev := EncodeValue(f.value);
    var end := offset + |EncodeField(f)|;
    var afterKey := offset + |ek|;
    SplitSlice(buffer, offset, end, ek, ev);
    ReadEncodedVarint(buffer, offset, key);
    KeySplitRoundTrip(f.tag, f.wireType, key);
    if f.value.Bytes? {
      ReadEncodedLength(buffer, f, afterKey, end);
    }
    LengthAfterKey(buffer, offset, key, afterKey);
  }

  /** The length check at `offset` looks only at the key found there and the varint after it. */
  lemma LengthAfterKey(buffer: seq<byte>, offset: nat, key: int, afterKey: nat)
    requires VarintAt(buffer, offset) == Varint(key, afterKey)
    requires WireTypeOf(key) == 2 ==> VarintAt(buffer, afterKey).value >= 0
    ensures LengthNotNegative(buffer, offset)
  {
  }

  /** No length prefix in the encoding of a list of fields reads as negative. */
  lemma {:induction false} EncodedLengthsNotNegative(buffer: seq<byte>, offset: nat, fields: seq<Field>)
    requires AllEncodable(fields)
    requires offset <= |buffer| && buffer[offset..] == EncodeFields(fields)
    ensures LengthsNotNegative(buffer, offset)
    decreases |fields|
  {
    if fields == [] {
      assert |buffer[offset..]| == 0;
    } else {
      var f := fields[0];
      var tail := fields[1..];
      var next := offset + |EncodeField(f)|;
      EncodedHeadParses(buffer, offset, fields);
      EncodedHeadLength(buffer, offset, fields);
      EncodedLengthsNotNegative(buffer, next, tail);
      LengthsNotNegativeStep(buffer, offset, f, next);
    }
  }

  /**
   * The loop as written reads the encoding of encodable fields back as those
   * fields and ends, given one step per field.
   */
  lemma ScanAsWrittenEncoded(buffer: seq<byte>, fields: seq<Field>, fuel: nat)
    requires AllEncodable(fields) && buffer == EncodeFields(fields)
    requires |fields| <= fuel
    ensures ScanAsWritten(buffer, 0, fuel) == Ended(fields)
  {
    ScanEncoded(buffer, 0, fields);
    EncodedLengthsNotNegative(buffer, 0, fields);
    ScanAsWrittenAgrees(buffer, 0, fuel);
  }
}
