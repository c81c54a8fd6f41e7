/**
 * The field loops of the native handler: the top-level loop of
 * `parseUserInfoResponse` and `parseConversationListResponse`, which lets the
 * error of an unsupported wire type escape, and `parseNestedMessage`, which
 * stops at it and keeps what it has. Both store `fields[tag] = value`, so a
 * later field with the same number replaces an earlier one.
 */
module Fields {

  import opened Wire

  /** The fields a loop reads before it reaches the end of the buffer or an unsupported wire type. */
  datatype Scan = Scan(fields: seq<Field>, failed: bool)

  /** The measure of the field loops: the bytes left before the end of the buffer. */
  function Remaining(buffer: seq<byte>, offset: nat): nat
  {
    if offset < |buffer| then |buffer| - offset else 0
  }

  /**
   * `parseField` applied from `offset` until the offset reaches the end of the
   * buffer (`failed` is false) or a field has an unsupported wire type (`failed`
   * is true; `fields` are the ones before it).
   */
  function ScanFrom(buffer: seq<byte>, offset: nat): (s: Scan)
    ensures offset >= |buffer| ==> s == Scan([], false)
    ensures |s.fields| <= Remaining(buffer, offset)
    decreases Remaining(buffer, offset)
  {
    if offset >= |buffer| then Scan([], false)
    else
      match FieldAt(buffer, offset)
      case Unsupported(_) => Scan([], true)
      case Parsed(field, next) =>
        var rest := ScanFrom(buffer, next);
        Scan([field] + rest.fields, rest.failed)
  }

  /** `fields[field.tag] = field.value` for each field in turn. */
  function FieldMap(fields: seq<Field>): (m: map<int, WireValue>)
    ensures forall k :: k in m ==> exists i :: 0 <= i < |fields| && fields[i].tag == k
    decreases |fields|
  {
    if fields == [] then map[]
    else
      var last := fields[|fields| - 1];
      FieldMap(fields[..|fields| - 1])[last.tag := last.value]
  }

  /** Every field number that occurs is a key, holding the value of its last occurrence. */
  lemma {:induction false} FieldMapLastWins(fields: seq<Field>, i: nat)
    requires i < |fields|
    requires forall j :: i < j < |fields| ==> fields[j].tag != fields[i].tag
    ensures fields[i].tag in FieldMap(fields)
    ensures FieldMap(fields)[fields[i].tag] == fields[i].value
    decreases |fields|
  {
    var n := |fields| - 1;
    var init := fields[..n];
    assert FieldMap(fields) == FieldMap(init)[fields[n].tag := fields[n].value];
    if i < n {
      assert forall j :: i < j < |init| ==> init[j] == fields[j];
      FieldMapLastWins(init, i);
      assert init[i] == fields[i];
    }
  }

  /** Assigning one more field updates the map at that field's number only. */
  lemma FieldMapSnoc(fields: seq<Field>, f: Field)
    ensures FieldMap(fields + [f]) == FieldMap(fields)[f.tag := f.value]
  {
    assert (fields + [f])[..|fields|] == fields;
  }

  /**
   * The state of a field loop at `offset` after reading `seen`: the fields of
   * the whole scan are `seen` followed by those still ahead, and the scan fails
   * exactly when the rest of it fails.
   */
  ghost predicate Scanning(buffer: seq<byte>, offset: nat, seen: seq<Field>)
  {
    && ScanFrom(buffer, 0).fields == seen + ScanFrom(buffer, offset).fields
    && ScanFrom(buffer, 0).failed == ScanFrom(buffer, offset).failed
  }

  /** A field loop's state: `Scanning`, and the map holds the fields seen so far. */
  ghost predicate Collecting(buffer: seq<byte>, offset: nat, seen: seq<Field>, fields: map<int, WireValue>)
  {
    Scanning(buffer, offset, seen) && fields == FieldMap(seen)
  }

  /** One iteration of a field loop that reads a supported field and stores it. */
  lemma CollectingStep(buffer: seq<byte>, offset: nat, seen: seq<Field>, fields: map<int, WireValue>, r: FieldRead)
    requires Collecting(buffer, offset, seen, fields)
    requires offset < |buffer| && r == FieldAt(buffer, offset) && r.Parsed?
    ensures Collecting(buffer, r.newOffset, seen + [r.field], fields[r.field.tag := r.field.value])
  {
    ScanningStep(buffer, offset, seen);
    FieldMapSnoc(seen, r.field);
  }

  lemma ScanningStart(buffer: seq<byte>)
    ensures Scanning(buffer, 0, [])
  {
    assert [] + ScanFrom(buffer, 0).fields == ScanFrom(buffer, 0).fields;
  }

  /** One iteration of a field loop that reads a supported field. */
  lemma ScanningStep(buffer: seq<byte>, offset: nat, seen: seq<Field>)
    requires Scanning(buffer, offset, seen)
    requires offset < |buffer| && FieldAt(buffer, offset).Parsed?
    ensures Scanning(buffer, FieldAt(buffer, offset).newOffset, seen + [FieldAt(buffer, offset).field])
  {
    var r := FieldAt(buffer, offset);
    var rest := ScanFrom(buffer, r.newOffset);
    assert ScanFrom(buffer, offset) == Scan([r.field] + rest.fields, rest.failed);
    assert seen + ([r.field] + rest.fields) == (seen + [r.field]) + rest.fields;
  }

  /** A field loop that meets an unsupported wire type has seen every field the scan keeps. */
  lemma ScanningFails(buffer: seq<byte>, offset: nat, seen: seq<Field>)
    requires Scanning(buffer, offset, seen)
    requires offset < |buffer| && FieldAt(buffer, offset).Unsupported?
    ensures ScanFrom(buffer, 0) == Scan(seen, true)
  {
    assert seen + [] == seen;
  }

  /** A field loop that reaches the end of the buffer has seen every field. */
  lemma ScanningEnds(buffer: seq<byte>, offset: nat, seen: seq<Field>)
    requires Scanning(buffer, offset, seen)
    requires offset >= |buffer|
    ensures ScanFrom(buffer, 0) == Scan(seen, false)
  {
    assert seen + [] == seen;
  }

  /**
   * The top-level loop of `parseUserInfoResponse` and
   * `parseConversationListResponse`: `thrown` says that `parseField` threw,
   * which ends the loop and hands control to the caller's `catch`.
   */
  method ReadMessageFields(buffer: seq<byte>) returns (fields: map<int, WireValue>, thrown: bool)
    ensures thrown == ScanFrom(buffer, 0).failed
    ensures !thrown ==> fields == FieldMap(ScanFrom(buffer, 0).fields)
  {
    fields := map[];
    thrown := false;
    var offset: nat := 0;
    ghost var seen: seq<Field> := [];
    ScanningStart(buffer);
    assert Collecting(buffer, offset, seen, fields);
    while offset < |buffer|
      invariant Collecting(buffer, offset, seen, fields)
      decreases Remaining(buffer, offset)
    {
      var r := ParseField(buffer, offset);
      if r.Unsupported? {
        ScanningFails(buffer, offset, seen);
        thrown := true;
        return;
      }
      CollectingStep(buffer, offset, seen, fields, r);
      seen := seen + [r.field];
      fields := fields[r.field.tag := r.field.value];
      offset := r.newOffset;
    }
    ScanningEnds(buffer, offset, seen);
  }

  /** `parseNestedMessage`: the loop stops at the first unsupported wire type and keeps the fields before it. */
  method ParseNestedMessage(buffer: seq<byte>) returns (fields: map<int, WireValue>)
    ensures fields == FieldMap(ScanFrom(buffer, 0).fields)
  {
    fields := map[];
    var offset: nat := 0;
    ghost var seen: seq<Field> := [];
    ScanningStart(buffer);
    assert Collecting(buffer, offset, seen, fields);
    while offset < |buffer|
      invariant Collecting(buffer, offset, seen, fields)
      decreases Remaining(buffer, offset)
    {
      var r := ParseField(buffer, offset);
      if r.Unsupported? {
        ScanningFails(buffer, offset, seen);
        break;
      }
      CollectingStep(buffer, offset, seen, fields, r);
      seen := seen + [r.field];
      fields := fields[r.field.tag := r.field.value];
      offset := r.newOffset;
    }
    if offset >= |buffer| {
      ScanningEnds(buffer, offset, seen);
    }
  }

  // ---------------------------------------------------------------------
  // The top-level loop as written: signed lengths, offsets that go back
  // ---------------------------------------------------------------------

  /**
   * What the top-level loop as written has done after at most `fuel` fields:
   * reached the end of the buffer, thrown, or neither (the loop is still running).
   */
  datatype RawScan = Ended(fields: seq<Field>) | Threw(fields: seq<Field>) | Running

  /**
   * The top-level loop of `parseUserInfoResponse` with `parseField` as
   * written, from any offset and for at most `fuel` fields. A negative length
   * moves the offset back, possibly before the start of the buffer, so the loop
   * need not end: `fuel` bounds the fields it may read.
   */
  function ScanAsWritten(buffer: seq<byte>, offset: int, fuel: nat): (s: RawScan)
    ensures offset >= |buffer| ==> s == Ended([])
    decreases fuel
  {
    if offset >= |buffer| then Ended([])
    else if fuel == 0 then Running
    else
      match RawFieldAt(buffer, offset)
      case RawUnsupported(_) => Threw([])
      case RawParsed(field, next) =>
        match ScanAsWritten(buffer, next, fuel - 1)
        case Ended(rest) => Ended([field] + rest)
        case Threw(rest) => Threw([field] + rest)
        case Running => Running
  }

  /** The loop as written reads at most one field per step it is allowed. */
  lemma {:induction false} ScanAsWrittenBound(buffer: seq<byte>, offset: int, fuel: nat)
    ensures !ScanAsWritten(buffer, offset, fuel).Running? ==> |ScanAsWritten(buffer, offset, fuel).fields| <= fuel
    decreases fuel
  {
    if offset < |buffer| && fuel > 0 {
      match RawFieldAt(buffer, offset)
      case RawUnsupported(_) =>
      case RawParsed(field, next) =>
        var rest: nat := fuel - 1;
        ScanAsWrittenBound(buffer, next, rest);
        AsWrittenStep(buffer, offset, fuel, rest, field, next);
    }
  }

  /** Where a field parses, the loop as written takes it and goes on from where it ends, with one step less. */
  lemma {:induction false} AsWrittenStep(buffer: seq<byte>, offset: int, fuel: nat, rest: nat, field: Field, next: int)
    requires offset < |buffer| && fuel == rest + 1 && RawFieldAt(buffer, offset) == RawParsed(field, next)
    ensures ScanAsWritten(buffer, offset, fuel) ==
              match ScanAsWritten(buffer, next, rest)
              case Ended(tail) => Ended([field] + tail)
              case Threw(tail) => Threw([field] + tail)
              case Running => Running
  {
    AsWrittenUnfold(buffer, offset, fuel, field, next);
    SameFuel(buffer, next, fuel, rest);
  }

  /** One step of the loop as written, with the fuel of the rest written `fuel - 1`. */
  lemma {:induction false} AsWrittenUnfold(buffer: seq<byte>, offset: int, fuel: nat, field: Field, next: int)
    requires offset < |buffer| && fuel > 0 && RawFieldAt(buffer, offset) == RawParsed(field, next)
    ensures ScanAsWritten(buffer, offset, fuel) ==
              match ScanAsWritten(buffer, next, fuel - 1)
              case Ended(tail) => Ended([field] + tail)
              case Threw(tail) => Threw([field] + tail)
              case Running => Running
  {
  }

  /** `fuel - 1` and `rest` name the same bound where `fuel == rest + 1`. */
  lemma {:induction false} SameFuel(buffer: seq<byte>, offset: int, fuel: nat, rest: nat)
    requires fuel == rest + 1
    ensures ScanAsWritten(buffer, offset, fuel - 1) == ScanAsWritten(buffer, offset, rest)
  {
    assert fuel - 1 == rest;
  }

  /** A field at offset 0 that ends where it starts makes the loop as written run forever. */
  lemma {:induction false} StalledLoopNeverEnds(buffer: seq<byte>, field: Field, fuel: nat)
    requires 0 < |buffer| && RawFieldAt(buffer, 0) == RawParsed(field, 0)
    ensures ScanAsWritten(buffer, 0, fuel) == Running
    decreases fuel
  {
    if fuel > 0 {
      var rest: nat := fuel - 1;
      StalledLoopNeverEnds(buffer, field, rest);
      AsWrittenStep(buffer, 0, fuel, rest, field, 0);
    }
  }

  /** On LOOPING_BUFFER the loop as written never ends, however many fields it may read. */
  lemma AsWrittenLoopNeverEnds(buffer: seq<byte>, fuel: nat)
    requires buffer == LOOPING_BUFFER
    ensures ScanAsWritten(buffer, 0, fuel) == Running
  {
    AsWrittenFieldDoesNotAdvance(buffer);
    StalledLoopNeverEnds(buffer, Field(1, 2, Bytes([])), fuel);
  }

  /**
   * On THROWING_BUFFER the loop as written reads field 1, steps back to
   * offset -1, reads byte 0 as field 0 and throws at offset 1; the loop with
   * the length read unsigned reads field 1 and ends.
   */
  lemma AsWrittenLoopThrows(buffer: seq<byte>, fuel: nat)
    requires buffer == THROWING_BUFFER && fuel >= 3
    ensures ScanAsWritten(buffer, 0, fuel) == Threw([Field(1, 2, Bytes([])), Field(0, 0, VarintValue(10))])
    ensures ScanFrom(buffer, 0) == Scan([Field(1, 2, Bytes([]))], false)
  {
    ThrowingBufferFields(buffer);
    assert ScanAsWritten(buffer, 1, fuel - 2) == Threw([]);
    assert ScanAsWritten(buffer, -1, fuel - 1) == Threw([Field(0, 0, VarintValue(10))]);
    assert ScanFrom(buffer, 6 + 0xFFFF_FFF9) == Scan([], false);
  }

  /** The length prefix of the field at `offset`, if the field is length-delimited, does not read as negative. */
  predicate LengthNotNegative(buffer: seq<byte>, offset: nat)
  {
    var key := VarintAt(buffer, offset);
    WireTypeOf(key.value) == 2 ==> VarintAt(buffer, key.next).value >= 0
  }

  /** No field the model's loop reads from `offset` on has a length prefix that reads as negative. */
  predicate LengthsNotNegative(buffer: seq<byte>, offset: nat)
    decreases Remaining(buffer, offset)
  {
    offset >= |buffer| ||
    match FieldAt(buffer, offset)
    case Unsupported(_) => true
    case Parsed(_, next) => LengthNotNegative(buffer, offset) && LengthsNotNegative(buffer, next)
  }

  /** Where a field parses with a length that is not negative, the rest decides. */
  lemma {:induction false} LengthsNotNegativeStep(buffer: seq<byte>, offset: nat, f: Field, next: nat)
    requires offset < |buffer| && FieldAt(buffer, offset) == Parsed(f, next)
    requires LengthNotNegative(buffer, offset) && LengthsNotNegative(buffer, next)
    ensures LengthsNotNegative(buffer, offset)
  {
  }

  /**
   * Where no length prefix it meets reads as negative, the loop as written
   * reads the same fields as the model's loop, and ends, or throws, exactly
   * when the model's does.
   */
  lemma {:induction false} ScanAsWrittenAgrees(buffer: seq<byte>, offset: nat, fuel: nat)
    requires LengthsNotNegative(buffer, offset)
    requires Steps(ScanFrom(buffer, offset)) <= fuel
    ensures ScanAsWritten(buffer, offset, fuel) == Agreed(ScanFrom(buffer, offset))
    decreases Remaining(buffer, offset), 1
  {
    if offset < |buffer| {
      match FieldAt(buffer, offset)
      case Unsupported(w) => AgreedUnsupported(buffer, offset, fuel, w);
      case Parsed(f, next) => AgreedParsed(buffer, offset, fuel, f, next);
    }
  }

  /** The agreement at a field the model's loop reads, from the agreement on the rest. */
  lemma {:induction false} AgreedParsed(buffer: seq<byte>, offset: nat, fuel: nat, f: Field, next: nat)
    requires offset < |buffer| && FieldAt(buffer, offset) == Parsed(f, next)
    requires LengthsNotNegative(buffer, offset)
    requires Steps(ScanFrom(buffer, offset)) <= fuel
    ensures ScanAsWritten(buffer, offset, fuel) == Agreed(ScanFrom(buffer, offset))
    decreases Remaining(buffer, offset), 0
  {
    AgreedRest(buffer, offset, fuel, f, next);
    var rest: nat := fuel - 1;
    ScanAsWrittenAgrees(buffer, next, rest);
    AgreedStep(buffer, offset, fuel, rest, f, next);
  }

  /** The steps the loop takes over a scan: one per field, and one for a field that throws. */
  function Steps(s: Scan): nat
  {
    |s.fields| + if s.failed then 1 else 0
  }

  /** What the loop as written returns where it reads what the model's loop reads. */
  function Agreed(s: Scan): (r: RawScan)
  {
    if s.failed then Threw(s.fields) else Ended(s.fields)
  }

  /** Both loops throw at a field whose wire type neither supports. */
  lemma {:induction false} AgreedUnsupported(buffer: seq<byte>, offset: nat, fuel: nat, w: int)
    requires offset < |buffer| && fuel > 0
    requires FieldAt(buffer, offset) == Unsupported(w)
    ensures ScanAsWritten(buffer, offset, fuel) == Agreed(ScanFrom(buffer, offset))
  {
    var key := VarintAt(buffer, offset);
    assert FieldAtAsWritten(buffer, offset) == FieldAfterKeyAsWritten(buffer, key.value, key.next);
  }

  /** After a field the model's loop reads, what the agreement needs holds of the rest. */
  lemma {:induction false} AgreedRest(buffer: seq<byte>, offset: nat, fuel: nat, f: Field, next: nat)
    requires offset < |buffer| && FieldAt(buffer, offset) == Parsed(f, next)
    requires LengthsNotNegative(buffer, offset)
    requires Steps(ScanFrom(buffer, offset)) <= fuel
    ensures Remaining(buffer, next) < Remaining(buffer, offset)
    ensures LengthNotNegative(buffer, offset) && LengthsNotNegative(buffer, next)
    ensures 0 < fuel && Steps(ScanFrom(buffer, next)) <= fuel - 1
  {
  }

  /** One step of both loops over a field whose length prefix, if any, is not negative. */
  lemma {:induction false} AgreedStep(buffer: seq<byte>, offset: nat, fuel: nat, rest: nat, f: Field, next: nat)
    requires offset < |buffer| && fuel == rest + 1
    requires FieldAt(buffer, offset) == Parsed(f, next)
    requires LengthNotNegative(buffer, offset)
    requires ScanAsWritten(buffer, next, rest) == Agreed(ScanFrom(buffer, next))
    ensures ScanAsWritten(buffer, offset, fuel) == Agreed(ScanFrom(buffer, offset))
  {
    var key := VarintAt(buffer, offset);
    AsWrittenAgrees(buffer, offset, key.value, key.next, f, next);
    AsWrittenStep(buffer, offset, fuel, rest, f, next);
  }
}
