/** The editor's state and the edits that change it in place: segment edits,
    the width of a field, the batch range of a field, and the automatic
    arrangement of all fields. Dialog answers are parameters; an edit that is
    refused leaves the state as it was. */
module Editor {
  import opened JsBits
  import opened Model
  import opened IdDecode
  import opened Layout
  import opened Combinations
  import opened Naming
  import opened Generation

  /** What became of an edit: done; refused with a message; declined at a
      confirmation dialog; or ignored because an index was out of range. */
  datatype Outcome = Applied | Rejected | Cancelled | Ignored

  /** The segment property an edit of `updateSegment` names. */
  datatype SegmentProperty = Position | Bits

  /** The bound an edit of `updateBatchFieldRange` names. */
  datatype RangeBound = Min | Max

  /** The field with new segments and `bits` re-summed from them. */
  function WithSegments(f: Field, segs: seq<Segment>): (r: Field)
    ensures r.segments == segs && r.bits == TotalBits(segs)
    ensures r.(segments := f.segments, bits := f.bits) == f
  {
    f.(segments := segs, bits := TotalBits(segs))
  }

  /** Segment s with one property set to v. */
  function Edited(s: Segment, property: SegmentProperty, v: nat): Segment
  {
    if property == Position then s.(position := v) else s.(bits := v)
  }

  /** The conditions under which `updateSegment` accepts an edit of segment si:
      a number; a position in [0, maxBits) or a width in [1, maxBits]; the
      edited segment ends at or below maxBits; it overlaps no other segment of
      the field. */
  ghost predicate SegmentEditAllowed(segs: seq<Segment>, si: nat, property: SegmentProperty, value: Option<int>, maxBits: nat)
    requires si < |segs|
  {
    && value.Some?
    && (property == Position ==> 0 <= value.value < maxBits)
    && (property == Bits ==> 1 <= value.value <= maxBits)
    && value.value >= 0
    && var s := Edited(segs[si], property, value.value);
       && s.position + s.bits <= maxBits
       && forall k :: 0 <= k < |segs| && k != si ==> Disjoint(s, segs[k])
  }

  /** An accepted segment edit keeps a field whose segments were pairwise
      disjoint so, and the edited segment lies inside the frame with a width of
      at least one bit. */
  lemma SegmentEditKeepsDisjoint(segs: seq<Segment>, si: nat, property: SegmentProperty, value: Option<int>, maxBits: nat)
    requires si < |segs| && PairwiseDisjoint(segs)
    requires SegmentEditAllowed(segs, si, property, value, maxBits)
    ensures var s := Edited(segs[si], property, value.value);
            && PairwiseDisjoint(segs[si := s])
            && s.position + s.bits <= maxBits
            && (property == Bits ==> s.bits >= 1)
  {
    var s := Edited(segs[si], property, value.value);
    var after := segs[si := s];
    forall a, b | 0 <= a < b < |after|
      ensures Disjoint(after[a], after[b])
    {
      if a == si {
        assert Disjoint(s, segs[b]);
      } else if b == si {
        assert Disjoint(s, segs[a]);
      }
    }
  }

  /** The largest end `position + bits` over the segments; -1 for none, which
      no frame width falls below (the source's `Math.max()` of nothing is
      -Infinity). */
  function MaxEnd(segs: seq<Segment>): int
  {
    if segs == [] then -1
    else
      var rest := MaxEnd(segs[1..]);
      if segs[0].position + segs[0].bits > rest then segs[0].position + segs[0].bits else rest
  }

  /** The width check of `updateField` refuses exactly the fields with a
      segment that ends beyond the frame. */
  lemma {:induction false} MaxEndExceeds(segs: seq<Segment>, maxBits: nat)
    ensures MaxEnd(segs) > maxBits <==> !SegsFit(segs, maxBits)
  {
    if segs != [] {
      MaxEndExceeds(segs[1..], maxBits);
    }
  }

  function Max1(x: int): nat
  {
    if x < 1 then 1 else x
  }

  /** `adjustSegmentsTotalBits`: when the segments do not add up to the width,
      a single segment takes the width, otherwise the last segment absorbs the
      difference but keeps at least one bit. */
  function AdjustedSegments(segs: seq<Segment>, bits: nat): seq<Segment>
    requires segs != []
  {
    var currentTotal := TotalBits(segs);
    if currentTotal == bits then segs
    else if |segs| == 1 then [segs[0].(bits := bits)]
    else
      var last := segs[|segs| - 1];
      segs[|segs| - 1 := last.(bits := Max1(last.bits + (bits - currentTotal)))]
  }

  /** Adjusting keeps the number of segments and every position, and makes the
      widths add up to the field's width unless the last segment would have to
      shrink below one bit, in which case the total stays above the width. */
  lemma AdjustedSegmentsSpec(segs: seq<Segment>, bits: nat)
    requires segs != []
    ensures |AdjustedSegments(segs, bits)| == |segs|
    ensures forall k :: 0 <= k < |segs| ==> AdjustedSegments(segs, bits)[k].position == segs[k].position
    ensures TotalBits(segs) != bits && |segs| >= 2 && segs[|segs| - 1].bits + bits - TotalBits(segs) < 1
            ==> TotalBits(AdjustedSegments(segs, bits)) > bits
    ensures |segs| == 1 || segs[|segs| - 1].bits + bits - TotalBits(segs) >= 1
            ==> TotalBits(AdjustedSegments(segs, bits)) == bits
    ensures TotalBits(segs) == bits ==> AdjustedSegments(segs, bits) == segs
    ensures TotalBits(segs) != bits && |segs| == 1 ==> AdjustedSegments(segs, bits) == [Segment(segs[0].position, bits)]
    ensures TotalBits(segs) != bits && |segs| >= 2 ==>
              && (forall k :: 0 <= k < |segs| - 1 ==> AdjustedSegments(segs, bits)[k] == segs[k])
              && AdjustedSegments(segs, bits)[|segs| - 1].bits == Max1(segs[|segs| - 1].bits + bits - TotalBits(segs))
  {
    var n := |segs|;
    var r := AdjustedSegments(segs, bits);
    if TotalBits(segs) != bits && n >= 2 {
      var init := segs[..n - 1];
      assert segs == init + [segs[n - 1]];
      assert r == init + [r[n - 1]];
      TotalBitsAppend(init, [segs[n - 1]]);
      TotalBitsAppend(init, [r[n - 1]]);
      assert TotalBits([segs[n - 1]]) == segs[n - 1].bits;
      assert TotalBits([r[n - 1]]) == r[n - 1].bits;
    }
  }

  /** The range after `updateBatchFieldRange` sets one bound to v: the field
      without a range first gets [0, maxValue]; then the other bound follows v
      when they would cross. */
  function RangeAfterEdit(range: Option<BatchRange>, maxValue: int, bound: RangeBound, v: int): (r: BatchRange)
    ensures r.min <= r.max
    ensures bound == Min ==> r.min == v && (r.max == v || r.max == (if range.Some? then range.value.max else maxValue))
    ensures bound == Max ==> r.max == v && (r.min == v || r.min == (if range.Some? then range.value.min else 0))
    ensures var s := if range.None? then BatchRange(0, maxValue) else range.value;
            && (bound == Min ==> r.max == (if v > s.max then v else s.max))
            && (bound == Max ==> r.min == (if v < s.min then v else s.min))
  {
    var start := if range.None? then BatchRange(0, maxValue) else range.value;
    if bound == Min then
      (if v > start.max then BatchRange(v, v) else start.(min := v))
    else
      (if v < start.min then BatchRange(v, v) else start.(max := v))
  }

  class DbcEditor {
    var fields: seq<Field>
    var messages: seq<MessageTemplate>
    var generatedMessages: seq<GeneratedMessage>
    var frameFormat: FrameFormat
    var maxBits: nat

    /** `maxBits` follows the frame format, and every field keeps at least one
        segment (`removeSegment` never removes the last one). */
    ghost predicate Valid()
      reads this
    {
      && maxBits == MaxBits(frameFormat)
      && forall k :: 0 <= k < |fields| ==> fields[k].segments != []
    }

    constructor ()
      ensures Valid()
      ensures fields == [] && messages == [] && generatedMessages == []
      ensures frameFormat == Extended && maxBits == 29
    {
      fields := [];
      messages := [];
      generatedMessages := [];
      frameFormat := Extended;
      maxBits := 29;
    }

    /** `updateSegment`: sets the position or the width of one segment and
        re-sums the field's width, unless the value is refused. */
    method UpdateSegment(fieldIndex: int, segmentIndex: int, property: SegmentProperty, value: Option<int>)
      returns (outcome: Outcome)
      requires Valid()
      modifies this
      ensures Valid()
      ensures messages == old(messages) && generatedMessages == old(generatedMessages)
      ensures frameFormat == old(frameFormat) && maxBits == old(maxBits)
      ensures outcome != Applied ==> fields == old(fields)
      ensures !(0 <= fieldIndex < |old(fields)| && 0 <= segmentIndex < |old(fields)[fieldIndex].segments|)
              ==> outcome == Ignored
      ensures 0 <= fieldIndex < |old(fields)| && 0 <= segmentIndex < |old(fields)[fieldIndex].segments|
              ==> (outcome == Applied <==> SegmentEditAllowed(old(fields)[fieldIndex].segments, segmentIndex, property, value, maxBits))
      ensures outcome == Applied ==>
                var f := old(fields)[fieldIndex];
                fields == old(fields)[fieldIndex := WithSegments(f, f.segments[segmentIndex := Edited(f.segments[segmentIndex], property, value.value)])]
    {
      if !(0 <= fieldIndex < |fields|) {
        return Ignored;
      }
      var field := fields[fieldIndex];
      if !(0 <= segmentIndex < |field.segments|) {
        return Ignored;
      }
      var segment := field.segments[segmentIndex];
      if value.None? {
        return Rejected;
      }
      var v := value.value;
      if property == Position && (v < 0 || v >= maxBits) {
        return Rejected;
      }
      if property == Bits && (v < 1 || v > maxBits) {
        return Rejected;
      }
      var position := if property == Position then v else segment.position;
      var bits := if property == Bits then v else segment.bits;
      if position + bits > maxBits {
        return Rejected;
      }
      var edited := Segment(position, bits);
      assert edited == Edited(segment, property, v);
      for i := 0 to |field.segments|
        invariant unchanged(this)
        invariant forall k :: 0 <= k < i && k != segmentIndex ==> Disjoint(edited, field.segments[k])
      {
        if i != segmentIndex {
          var otherSeg := field.segments[i];
          ClosedOverlapIsNotDisjoint(edited, otherSeg);
          if ClosedOverlap(edited, otherSeg) {
            return Rejected;
          }
        }
      }
      var segments := field.segments[segmentIndex := edited];
      fields := fields[fieldIndex := WithSegments(field, segments)];
      outcome := Applied;
    }

    /** `addSegment`: appends a one-bit segment at the lowest bit below maxBits
        that none of the field's segments covers, unless there is none. */
    method AddSegment(fieldIndex: int) returns (outcome: Outcome)
      requires Valid()
      modifies this
      ensures Valid()
      ensures messages == old(messages) && generatedMessages == old(generatedMessages)
      ensures frameFormat == old(frameFormat) && maxBits == old(maxBits)
      ensures outcome != Applied ==> fields == old(fields)
      ensures !(0 <= fieldIndex < |old(fields)|) ==> outcome == Ignored
      ensures 0 <= fieldIndex < |old(fields)| ==>
                (outcome == Rejected <==> FirstFreeBit(old(fields)[fieldIndex].segments, maxBits).None?)
                && (outcome == Applied || outcome == Rejected)
      ensures outcome == Applied ==>
                var f := old(fields)[fieldIndex];
                fields == old(fields)[fieldIndex := WithSegments(f, f.segments + [Segment(FirstFreeBit(f.segments, maxBits).value, 1)])]
    {
      if !(0 <= fieldIndex < |fields|) {
        return Ignored;
      }
      var field := fields[fieldIndex];
      var newPosition := FindFirstFreeBit(field.segments, maxBits);
      if newPosition == -1 {
        return Rejected;
      }
      fields := fields[fieldIndex := WithSegments(field, field.segments + [Segment(newPosition, 1)])];
      outcome := Applied;
    }

    /** `removeSegment`: removes one segment after confirmation and re-sums
        the width; a field's only segment is never removed. */
    method RemoveSegment(fieldIndex: int, segmentIndex: int, confirmed: bool) returns (outcome: Outcome)
      requires Valid()
      modifies this
      ensures Valid()
      ensures messages == old(messages) && generatedMessages == old(generatedMessages)
      ensures frameFormat == old(frameFormat) && maxBits == old(maxBits)
      ensures outcome != Applied ==> fields == old(fields)
      ensures !(0 <= fieldIndex < |old(fields)|) ==> outcome == Ignored
      ensures 0 <= fieldIndex < |old(fields)| ==>
                var segs := old(fields)[fieldIndex].segments;
                && (outcome == Rejected <==> !(|segs| > 1 && 0 <= segmentIndex < |segs|))
                && (outcome == Cancelled <==> |segs| > 1 && 0 <= segmentIndex < |segs| && !confirmed)
                && (outcome == Applied <==> |segs| > 1 && 0 <= segmentIndex < |segs| && confirmed)
      ensures outcome == Applied ==>
                var f := old(fields)[fieldIndex];
                fields == old(fields)[fieldIndex := WithSegments(f, f.segments[..segmentIndex] + f.segments[segmentIndex + 1..])]
    {
      if !(0 <= fieldIndex < |fields|) {
        return Ignored;
      }
      var field := fields[fieldIndex];
      if !(|field.segments| > 1 && 0 <= segmentIndex < |field.segments|) {
        return Rejected;
      }
      if !confirmed {
        return Cancelled;
      }
      var segments := field.segments[..segmentIndex] + field.segments[segmentIndex + 1..];
      fields := fields[fieldIndex := WithSegments(field, segments)];
      outcome := Applied;
    }

    /** `updateField` for the `bits` property: refuses a width outside
        [1, maxBits] or a field with a segment beyond the frame, otherwise sets
        the width and adjusts the segments to it. */
    method UpdateFieldBits(index: int, value: Option<int>) returns (outcome: Outcome)
      requires Valid()
      modifies this
      ensures Valid()
      ensures messages == old(messages) && generatedMessages == old(generatedMessages)
      ensures frameFormat == old(frameFormat) && maxBits == old(maxBits)
      ensures outcome != Applied ==> fields == old(fields)
      ensures !(0 <= index < |old(fields)|) ==> outcome == Ignored
      ensures 0 <= index < |old(fields)| ==>
                (outcome == Applied <==> value.Some? && 1 <= value.value <= maxBits && SegsFit(old(fields)[index].segments, maxBits))
                && (outcome == Applied || outcome == Rejected)
      ensures outcome == Applied ==>
                var f := old(fields)[index];
                fields == old(fields)[index := f.(bits := value.value, segments := AdjustedSegments(f.segments, value.value))]
    {
      if !(0 <= index < |fields|) {
        return Ignored;
      }
      if value.None? || value.value < 1 || value.value > maxBits {
        return Rejected;
      }
      var field := fields[index];
      var maxPosition := MaxEnd(field.segments);
      MaxEndExceeds(field.segments, maxBits);
      if maxPosition > maxBits {
        return Rejected;
      }
      fields := fields[index := field.(bits := value.value)];
      AdjustSegmentsTotalBits(index);
      outcome := Applied;
    }

    /** `adjustSegmentsTotalBits`. */
    method AdjustSegmentsTotalBits(fieldIndex: nat)
      requires Valid() && fieldIndex < |fields|
      modifies this
      ensures Valid()
      ensures messages == old(messages) && generatedMessages == old(generatedMessages)
      ensures frameFormat == old(frameFormat) && maxBits == old(maxBits)
      ensures var f := old(fields)[fieldIndex];
              fields == old(fields)[fieldIndex := f.(segments := AdjustedSegments(f.segments, f.bits))]
    {
      var field := fields[fieldIndex];
      var currentTotal := TotalBits(field.segments);
      var segments := field.segments;
      if currentTotal != field.bits {
        if |segments| == 1 {
          segments := [segments[0].(bits := field.bits)];
        } else {
          var diff := field.bits - currentTotal;
          var lastSegment := segments[|segments| - 1];
          segments := segments[|segments| - 1 := lastSegment.(bits := Max1(lastSegment.bits + diff))];
        }
      }
      fields := fields[fieldIndex := field.(segments := segments)];
    }

    /** `updateBatchFieldRange`: sets one bound of a field's batch range to a
        value in [0, 2^bits - 1], creating the range first when the field has
        none, and keeps the bounds ordered. */
    method UpdateBatchFieldRange(fieldIndex: int, bound: RangeBound, value: Option<int>) returns (outcome: Outcome)
      requires Valid()
      modifies this
      ensures Valid()
      ensures messages == old(messages) && generatedMessages == old(generatedMessages)
      ensures frameFormat == old(frameFormat) && maxBits == old(maxBits)
      ensures outcome != Applied ==> fields == old(fields)
      ensures !(0 <= fieldIndex < |old(fields)|) ==> outcome == Ignored
      ensures 0 <= fieldIndex < |old(fields)| ==>
                (outcome == Applied <==> value.Some? && 0 <= value.value <= Pow2(old(fields)[fieldIndex].bits) - 1)
                && (outcome == Applied || outcome == Rejected)
      ensures outcome == Applied ==>
                var f := old(fields)[fieldIndex];
                fields == old(fields)[fieldIndex := f.(batchRange := Some(RangeAfterEdit(f.batchRange, Pow2(f.bits) - 1, bound, value.value)))]
    {
      if !(0 <= fieldIndex < |fields|) {
        return Ignored;
      }
      var field := fields[fieldIndex];
      var maxValue := Pow2(field.bits) - 1;
      if value.None? || value.value < 0 {
        return Rejected;
      }
      if value.value > maxValue {
        return Rejected;
      }
      var range := if field.batchRange.None? then BatchRange(0, maxValue) else field.batchRange.value;
      if bound == Min {
        range := range.(min := value.value);
        if range.min > range.max {
          range := range.(max := range.min);
        }
      } else {
        range := range.(max := value.value);
        if range.max < range.min {
          range := range.(min := range.max);
        }
      }
      fields := fields[fieldIndex := field.(batchRange := Some(range))];
      outcome := Applied;
    }

    /** `autoArrangeFields`: sorts the fields widest first and gives each one a
        single segment, packed downwards from the top of the frame. */
    method AutoArrangeFields()
      requires Valid()
      modifies this
      ensures Valid()
      ensures messages == old(messages) && generatedMessages == old(generatedMessages)
      ensures frameFormat == old(frameFormat) && maxBits == old(maxBits)
      ensures fields == Arranged(SortByBitsDescending(old(fields)), maxBits)
    {
      var sorted := SortByBitsDescending(fields);
      SortByBitsDescendingSpec(fields);
      var arranged := sorted;
      var currentPos := maxBits as int;
      for k := 0 to |arranged|
        invariant |arranged| == |sorted|
        invariant currentPos == maxBits - BitsBefore(sorted, k)
        invariant forall j :: 0 <= j < k ==> arranged[j] == ArrangedField(sorted, j, maxBits)
        invariant forall j :: k <= j < |arranged| ==> arranged[j] == sorted[j]
      {
        var field := arranged[k];
        currentPos := currentPos - field.bits;
        var startPos := Max0(currentPos);
        arranged := arranged[k := field.(segments := [Segment(startPos, field.bits)])];
      }
      assert arranged == Arranged(sorted, maxBits);
      fields := arranged;
    }

    /** `generateBatchMessages`: after its checks and confirmations, replaces
        the generated messages with one message per batch combination and
        message template. A refusal or a declined confirmation leaves them
        as they were. */
    method GenerateBatchMessages(namingPattern: string, warningsConfirmed: bool, largeRunConfirmed: bool) returns (outcome: Outcome)
      requires Valid()
      modifies this
      ensures Valid()
      ensures fields == old(fields) && messages == old(messages)
      ensures frameFormat == old(frameFormat) && maxBits == old(maxBits)
      ensures outcome == BatchOutcome(fields, messages, maxBits, namingPattern, warningsConfirmed, largeRunConfirmed)
      ensures outcome != Applied ==> generatedMessages == old(generatedMessages)
      ensures outcome == Applied ==>
                generatedMessages == Generated(fields, messages, FieldCombinations(RangesOf(fields, BatchFieldIndexes(fields))), namingPattern)
    {
      var fieldCombinations;
      outcome, fieldCombinations := CheckBatchRequest(fields, messages, maxBits, namingPattern, warningsConfirmed, largeRunConfirmed);
      if outcome == Applied {
        generatedMessages := GenerateMessages(fields, messages, fieldCombinations, namingPattern);
      }
    }
  }

  /** Whether a generation run goes ahead, in the order `generateBatchMessages`
      checks: no layout conflict, some message template, some batch field, a
      valid naming pattern; the warnings dialog; some combination; the dialog
      for runs of more than 100 messages. The layout check stands in for the
      error markers the page shows on conflicting fields. */
  ghost function BatchOutcome(fields: seq<Field>, templates: seq<MessageTemplate>, maxBits: nat, namingPattern: string,
                              warningsConfirmed: bool, largeRunConfirmed: bool): Outcome
  {
    var batch := BatchFieldIndexes(fields);
    var validation := ValidateNamingPattern(namingPattern, fields);
    var combinations := FieldCombinations(RangesOf(fields, batch));
    if !AllClear(ScanFields(NoBitsUsed(maxBits), fields, maxBits).1) then Rejected
    else if templates == [] || batch == [] || !validation.isValid then Rejected
    else if validation.warnings != [] && !warningsConfirmed then Cancelled
    else if combinations == [] then Rejected
    else if |combinations| * |templates| > 100 && !largeRunConfirmed then Cancelled
    else Applied
  }

  /** A run that goes ahead has a conflict-free layout and a valid naming
      pattern, and makes at least one message, and no more than 100 unless
      the large run was confirmed; once both dialogs are answered yes, a run
      is never cancelled. */
  lemma {:induction false} BatchOutcomeApplied(fields: seq<Field>, templates: seq<MessageTemplate>, maxBits: nat, namingPattern: string,
                                               warningsConfirmed: bool, largeRunConfirmed: bool)
    ensures BatchOutcome(fields, templates, maxBits, namingPattern, true, true) != Cancelled
    ensures BatchOutcome(fields, templates, maxBits, namingPattern, warningsConfirmed, largeRunConfirmed) == Applied ==>
      var combinations := FieldCombinations(RangesOf(fields, BatchFieldIndexes(fields)));
      var run := Generated(fields, templates, combinations, namingPattern);
      && AllClear(ScanFields(NoBitsUsed(maxBits), fields, maxBits).1)
      && ValidateNamingPattern(namingPattern, fields).isValid
      && |run| >= 1
      && (|run| <= 100 || largeRunConfirmed)
  {
    var combinations := FieldCombinations(RangesOf(fields, BatchFieldIndexes(fields)));
    GenerationSize(fields, templates, combinations, namingPattern);
    if combinations != [] && templates != [] {
      RowWithin(0, |combinations|, |templates|);
    }
  }

  /** The checks and dialogs of `generateBatchMessages` before its loops,
      with the combinations the loops go through. */
  method CheckBatchRequest(fields: seq<Field>, templates: seq<MessageTemplate>, maxBits: nat, namingPattern: string,
                           warningsConfirmed: bool, largeRunConfirmed: bool)
    returns (outcome: Outcome, combinations: seq<Combination>)
    ensures outcome == BatchOutcome(fields, templates, maxBits, namingPattern, warningsConfirmed, largeRunConfirmed)
    ensures outcome == Applied ==> combinations == FieldCombinations(RangesOf(fields, BatchFieldIndexes(fields)))
  {
    combinations := [];
    var statuses := CheckFieldConflicts(fields, maxBits);
    if !AllClear(statuses) {
      return Rejected, [];
    }
    if |templates| == 0 {
      return Rejected, [];
    }
    var batchFields := BatchFieldIndexes(fields);
    if |batchFields| == 0 {
      return Rejected, [];
    }
    var validation := ValidateNamingPattern(namingPattern, fields);
    if !validation.isValid {
      return Rejected, [];
    }
    if |validation.warnings| > 0 && !warningsConfirmed {
      return Cancelled, [];
    }
    combinations := GenerateFieldCombinations(fields, batchFields);
    var totalCombinations := |combinations|;
    if totalCombinations == 0 {
      return Rejected, [];
    }
    var totalMessages := totalCombinations * |templates|;
    if totalMessages > 100 && !largeRunConfirmed {
      return Cancelled, [];
    }
    outcome := Applied;
  }
}
