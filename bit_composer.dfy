/** Packing field values into a CAN identifier: the value of each field is chosen
    and clamped (`getFieldValue`), cut into one chunk per segment
    (`distributeValueToSegments`), and every chunk is shifted to its segment's
    position and or-ed into the identifier (`calculateMessageIdForCombination`,
    `updateMessageIdPreview`). All bit operators are JavaScript's 32-bit ones. */
module BitComposer {
  import opened JsBits
  import opened Model

  /** Puts s in front of the first segment whose position is not smaller than its own. */
  function InsertByPosition(s: Segment, sorted: seq<Segment>): seq<Segment>
  {
    if sorted == [] || s.position <= sorted[0].position then [s] + sorted
    else [sorted[0]] + InsertByPosition(s, sorted[1..])
  }

  /** `[...field.segments].sort((a, b) => a.position - b.position)`, the stable
      sort written as an insertion sort. */
  function SortByPosition(segs: seq<Segment>): seq<Segment>
  {
    if segs == [] then [] else InsertByPosition(segs[0], SortByPosition(segs[1..]))
  }

  ghost predicate AscendingPositions(segs: seq<Segment>)
  {
    forall i, j :: 0 <= i < j < |segs| ==> segs[i].position <= segs[j].position
  }

  lemma {:induction false} InsertByPositionPermutes(s: Segment, sorted: seq<Segment>)
    ensures multiset(InsertByPosition(s, sorted)) == multiset(sorted) + multiset{s}
    ensures |InsertByPosition(s, sorted)| == |sorted| + 1
  {
    if sorted != [] && s.position > sorted[0].position {
      InsertByPositionPermutes(s, sorted[1..]);
      assert sorted == [sorted[0]] + sorted[1..];
    }
  }

  /** Inserting a segment at or above a bound into segments all at or above the
      bound keeps every position at or above it. */
  lemma {:induction false} InsertByPositionLowerBound(s: Segment, sorted: seq<Segment>, b: int)
    requires s.position >= b
    requires forall k :: 0 <= k < |sorted| ==> sorted[k].position >= b
    ensures forall k :: 0 <= k < |InsertByPosition(s, sorted)| ==> InsertByPosition(s, sorted)[k].position >= b
  {
    if sorted != [] && s.position > sorted[0].position {
      InsertByPositionLowerBound(s, sorted[1..], b);
    }
  }

  lemma {:induction false} InsertByPositionSorted(s: Segment, sorted: seq<Segment>)
    requires AscendingPositions(sorted)
    ensures AscendingPositions(InsertByPosition(s, sorted))
  {
    if sorted != [] && s.position > sorted[0].position {
      InsertByPositionSorted(s, sorted[1..]);
      InsertByPositionLowerBound(s, sorted[1..], sorted[0].position);
    }
  }

  /** The sorted copy holds the same segments, in ascending order of position. */
  lemma {:induction false} SortByPositionSpec(segs: seq<Segment>)
    ensures multiset(SortByPosition(segs)) == multiset(segs)
    ensures |SortByPosition(segs)| == |segs|
    ensures AscendingPositions(SortByPosition(segs))
  {
    if segs != [] {
      SortByPositionSpec(segs[1..]);
      InsertByPositionPermutes(segs[0], SortByPosition(segs[1..]));
      InsertByPositionSorted(segs[0], SortByPosition(segs[1..]));
      assert segs == [segs[0]] + segs[1..];
    }
  }

  predicate IsBatchField(f: Field)
  {
    f.fieldType == Batch && f.usedForBatch
  }

  predicate IsSystemField(f: Field)
  {
    f.fieldType == SystemManaged && f.isSystemManaged
  }

  predicate IsFunctionCodeField(f: Field)
  {
    IsSystemField(f) && f.systemManagedSource == "functionCode"
  }

  /** r is v limited to the range [0, 2^bits - 1] of a field of that width. */
  ghost predicate ClampedFrom(r: int, v: int, bits: nat)
  {
    && 0 <= r < Pow2(bits)
    && (v < 0 ==> r == 0)
    && (0 <= v < Pow2(bits) ==> r == v)
    && (v >= Pow2(bits) ==> r == Pow2(bits) - 1)
  }

  /** The value a field contributes: a batch field's value from the combination
      (or its default), the function code for the field bound to it, the default
      value otherwise; then clamped to the field's width. */
  function GetFieldValue(field: Field, fieldIndex: nat, batchFieldValues: map<nat, int>, functionCode: int): (r: int)
    ensures 0 <= r < Pow2(field.bits)
  {
    var value :=
      if IsBatchField(field) then
        (if fieldIndex in batchFieldValues then batchFieldValues[fieldIndex] else field.defaultValue)
      else if IsSystemField(field) then
        (if field.systemManagedSource == "functionCode" then functionCode else field.defaultValue)
      else
        field.defaultValue;
    var maxValue := Pow2(field.bits) - 1;
    var atLeastZero := if value < 0 then 0 else value;
    if atLeastZero < maxValue then atLeastZero else maxValue
  }

  /** Which value a field contributes, and that it is clamped to the field's width. */
  lemma GetFieldValueSpec(field: Field, fieldIndex: nat, batchFieldValues: map<nat, int>, functionCode: int)
    ensures IsBatchField(field) && fieldIndex in batchFieldValues ==>
              ClampedFrom(GetFieldValue(field, fieldIndex, batchFieldValues, functionCode),
                          batchFieldValues[fieldIndex], field.bits)
    ensures IsBatchField(field) && fieldIndex !in batchFieldValues ==>
              ClampedFrom(GetFieldValue(field, fieldIndex, batchFieldValues, functionCode),
                          field.defaultValue, field.bits)
    ensures IsFunctionCodeField(field) ==>
              ClampedFrom(GetFieldValue(field, fieldIndex, batchFieldValues, functionCode),
                          functionCode, field.bits)
    ensures !IsBatchField(field) && !IsFunctionCodeField(field) ==>
              ClampedFrom(GetFieldValue(field, fieldIndex, batchFieldValues, functionCode),
                          field.defaultValue, field.bits)
  {
  }

  /** What `distributeValueToSegments` passes to its callback for one segment;
      the segment's width is kept for the proofs. */
  datatype Chunk = Chunk(position: nat, bits: nat, value: int)

  /** The chunks for segments taken in the given order, starting from `remaining`. */
  function Chunks(segs: seq<Segment>, remaining: int): (r: seq<Chunk>)
  {
    if segs == [] then []
    else
      [Chunk(segs[0].position, segs[0].bits, JsAnd(remaining, Pow2(segs[0].bits) - 1))]
      + Chunks(segs[1..], JsShr(remaining, segs[0].bits))
  }

  method DistributeValueToSegments(field: Field, value: int) returns (chunks: seq<Chunk>)
    ensures chunks == Chunks(SortByPosition(field.segments), value)
  {
    var remainingValue := value;
    var sortedSegments := SortByPosition(field.segments);
    chunks := [];
    var i := 0;
    while i < |sortedSegments|
      invariant 0 <= i <= |sortedSegments|
      invariant chunks + Chunks(sortedSegments[i..], remainingValue) == Chunks(sortedSegments, value)
    {
      var segment := sortedSegments[i];
      var segmentMask := Pow2(segment.bits) - 1;
      var segmentValue := JsAnd(remainingValue, segmentMask);
      ChunksStep(chunks, sortedSegments, i, remainingValue);
      chunks := chunks + [Chunk(segment.position, segment.bits, segmentValue)];
      remainingValue := JsShr(remainingValue, segment.bits);
      i := i + 1;
    }
  }

  /** One step of the loop in `distributeValueToSegments`. */
  lemma ChunksStep(done: seq<Chunk>, segs: seq<Segment>, i: nat, remaining: int)
    requires i < |segs|
    ensures done + Chunks(segs[i..], remaining)
         == (done + [Chunk(segs[i].position, segs[i].bits, JsAnd(remaining, Pow2(segs[i].bits) - 1))])
            + Chunks(segs[i + 1..], JsShr(remaining, segs[i].bits))
  {
    assert segs[i..][1..] == segs[i + 1..];
  }

  /** The `Map` from batch field to value built from a combination; a later
      entry for the same field overrides an earlier one, as `Map.set` does. */
  function BatchValues(combination: Combination): map<nat, int>
  {
    if combination == [] then map[]
    else
      var last := combination[|combination| - 1];
      BatchValues(combination[..|combination| - 1])[last.field := last.value]
  }

  /** The chunks of field k under the given context. */
  function FieldChunks(fields: seq<Field>, k: nat, batchFieldValues: map<nat, int>, functionCode: int): seq<Chunk>
    requires k < |fields|
  {
    Chunks(SortByPosition(fields[k].segments), GetFieldValue(fields[k], k, batchFieldValues, functionCode))
  }

  /** `messageId |= (bitValue << position)` for every chunk in turn. */
  function OrChunks(acc: int, chunks: seq<Chunk>): int
    decreases |chunks|
  {
    if chunks == [] then acc
    else OrChunks(JsOr(acc, JsShl(chunks[0].value, chunks[0].position)), chunks[1..])
  }

  lemma {:induction false} OrChunksAppend(acc: int, a: seq<Chunk>, b: seq<Chunk>)
    ensures OrChunks(acc, a + b) == OrChunks(OrChunks(acc, a), b)
    decreases |a|
  {
    if a == [] {
      assert a + b == b;
    } else {
      assert (a + b)[1..] == a[1..] + b;
      OrChunksAppend(JsOr(acc, JsShl(a[0].value, a[0].position)), a[1..], b);
    }
  }

  /** The identifier after the first n fields have been or-ed in. */
  function ComposePrefix(fields: seq<Field>, n: nat, batchFieldValues: map<nat, int>, functionCode: int): int
    requires n <= |fields|
  {
    if n == 0 then 0
    else OrChunks(ComposePrefix(fields, n - 1, batchFieldValues, functionCode),
                  FieldChunks(fields, n - 1, batchFieldValues, functionCode))
  }

  /** The identifier (before any frame mask) for a context. */
  function ComposeId(fields: seq<Field>, batchFieldValues: map<nat, int>, functionCode: int): int
  {
    ComposePrefix(fields, |fields|, batchFieldValues, functionCode)
  }

  method CalculateMessageIdForCombination(fields: seq<Field>, combination: Combination, functionCode: int)
    returns (messageId: int)
    ensures messageId == ComposeId(fields, BatchValues(combination), functionCode)
  {
    var batchFieldValues: map<nat, int> := map[];
    for j := 0 to |combination|
      invariant batchFieldValues == BatchValues(combination[..j])
    {
      assert combination[..j + 1][..j] == combination[..j];
      batchFieldValues := batchFieldValues[combination[j].field := combination[j].value];
    }
    assert combination[..|combination|] == combination;
    messageId := ComposeFields(fields, batchFieldValues, functionCode);
  }

  /** The loop over `this.fields` shared by the two callers. */
  method ComposeFields(fields: seq<Field>, batchFieldValues: map<nat, int>, functionCode: int)
    returns (messageId: int)
    ensures messageId == ComposeId(fields, batchFieldValues, functionCode)
  {
    messageId := 0;
    for index := 0 to |fields|
      invariant messageId == ComposePrefix(fields, index, batchFieldValues, functionCode)
    {
      messageId := OrInField(fields, index, batchFieldValues, functionCode, messageId);
    }
  }

  /** The body of the loop for one field: its value, split over its segments,
      or-ed into the identifier. */
  method OrInField(fields: seq<Field>, index: nat, batchFieldValues: map<nat, int>, functionCode: int, messageId: int)
    returns (result: int)
    requires index < |fields|
    ensures result == OrChunks(messageId, FieldChunks(fields, index, batchFieldValues, functionCode))
  {
    var value := GetFieldValue(fields[index], index, batchFieldValues, functionCode);
    var chunks := DistributeValueToSegments(fields[index], value);
    result := OrInChunks(messageId, chunks);
  }

  /** The callback `(position, bitValue) => { messageId |= (bitValue << position); }`
      applied to every chunk of one field. */
  method OrInChunks(messageId: int, chunks: seq<Chunk>) returns (result: int)
    ensures result == OrChunks(messageId, chunks)
  {
    result := messageId;
    for c := 0 to |chunks|
      invariant result == OrChunks(messageId, chunks[..c])
    {
      assert chunks[..c + 1] == chunks[..c] + [chunks[c]];
      OrChunksAppend(messageId, chunks[..c], [chunks[c]]);
      result := JsOr(result, JsShl(chunks[c].value, chunks[c].position));
    }
    assert chunks[..|chunks|] == chunks;
  }

  /** `maxValue` of the preview: 0x7FF for standard frames, 0x1FFFFFFF for extended ones. */
  function FrameMask(format: FrameFormat): int
  {
    if format == Standard then 0x7FF else 0x1FFF_FFFF
  }

  /** The preview identifier: no batch values, the selected message's function
      code (0 when none is selected), masked to the frame's width. */
  method UpdateMessageIdPreview(fields: seq<Field>, frameFormat: FrameFormat, selectedFunctionCode: int)
    returns (messageId: int)
    ensures 0 <= messageId <= FrameMask(frameFormat)
    ensures messageId == JsAnd(ComposeId(fields, map[], selectedFunctionCode), FrameMask(frameFormat))
  {
    messageId := ComposeFields(fields, map[], selectedFunctionCode);
    var maxValue := FrameMask(frameFormat);
    JsAndWithin(messageId, maxValue);
    messageId := JsAnd(messageId, maxValue);
  }
}
