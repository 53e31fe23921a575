/** Where the fields sit in the identifier: the bit-usage scans of
    `findNextAvailablePosition`, `addSegment` and `checkFieldConflicts`, the
    overlap test of `updateSegment` and the packing of `autoArrangeFields`. */
module Layout {
  import opened Model
  import opened IdDecode

  lemma {:induction false} CoverCountAppend(a: seq<Segment>, b: seq<Segment>, i: int)
    ensures CoverCount(a + b, i) == CoverCount(a, i) + CoverCount(b, i)
  {
    if a == [] {
      assert a + b == b;
    } else {
      assert (a + b)[1..] == a[1..] + b;
      CoverCountAppend(a[1..], b, i);
    }
  }

  // ---------------------------------------------------------------------------
  // The `usedBits` array: every bit below its length that some segment covers

  /** Marks in `usedBits` every bit of the segments that lies below its length,
      as the `forEach` loops of `findNextAvailablePosition` and `addSegment` do. */
  method MarkSegments(usedBits: array<bool>, segs: seq<Segment>)
    modifies usedBits
    ensures forall i :: 0 <= i < usedBits.Length ==> usedBits[i] == (old(usedBits[i]) || CoverCount(segs, i) > 0)
  {
    for k := 0 to |segs|
      invariant forall i :: 0 <= i < usedBits.Length ==> usedBits[i] == (old(usedBits[i]) || CoverCount(segs[..k], i) > 0)
    {
      var segment := segs[k];
      var i := segment.position;
      while i < segment.position + segment.bits && i < usedBits.Length
        invariant segment.position <= i <= segment.position + segment.bits
        invariant forall b :: 0 <= b < usedBits.Length ==>
                    usedBits[b] == (old(usedBits[b]) || CoverCount(segs[..k], b) > 0 || segment.position <= b < i)
        decreases segment.position + segment.bits - i
      {
        usedBits[i] := true;
        i := i + 1;
      }
      assert segs[..k + 1] == segs[..k] + [segment];
      forall b | 0 <= b < usedBits.Length
        ensures CoverCount(segs[..k + 1], b) == CoverCount(segs[..k], b) + (if Covers(segment, b) then 1 else 0)
      {
        CoverCountAppend(segs[..k], [segment], b);
      }
    }
    assert segs[..|segs|] == segs;
  }

  // ---------------------------------------------------------------------------
  // findNextAvailablePosition

  /** No segment of any field covers a bit of the window [i, i + 4) below maxBits. */
  ghost predicate FreeAt(fields: seq<Field>, maxBits: nat, i: int)
  {
    forall j :: i <= j < i + 4 && j < maxBits ==> FieldsCoverCount(fields, |fields|, j) == 0
  }

  /** The highest start of a free four-bit window, searched from maxBits - 4
      downwards; 0 when there is none. */
  method FindNextAvailablePosition(fields: seq<Field>, maxBits: nat) returns (pos: int)
    ensures || (0 <= pos <= maxBits - 4 && FreeAt(fields, maxBits, pos)
                && forall h :: pos < h <= maxBits - 4 ==> !FreeAt(fields, maxBits, h))
            || (pos == 0 && forall h :: 0 <= h <= maxBits - 4 ==> !FreeAt(fields, maxBits, h))
  {
    var usedBits := new bool[maxBits](_ => false);
    for k := 0 to |fields|
      invariant forall i :: 0 <= i < maxBits ==> usedBits[i] == (FieldsCoverCount(fields, k, i) > 0)
    {
      MarkSegments(usedBits, fields[k].segments);
    }
    var i := maxBits - 4;
    while i >= 0
      invariant i <= maxBits - 4
      invariant forall b :: 0 <= b < maxBits ==> usedBits[b] == (FieldsCoverCount(fields, |fields|, b) > 0)
      invariant forall h :: i < h <= maxBits - 4 ==> !FreeAt(fields, maxBits, h)
    {
      var canPlace := WindowFree(usedBits, i);
      if canPlace {
        forall j | i <= j < i + 4 && j < maxBits
          ensures FieldsCoverCount(fields, |fields|, j) == 0
        {
          assert !usedBits[j];
        }
        return i;
      }
      i := i - 1;
    }
    return 0;
  }

  /** The inner loop of the search: is no bit of [i, i + 4) below the array's
      length marked? */
  method WindowFree(usedBits: array<bool>, i: nat) returns (canPlace: bool)
    ensures canPlace <==> forall j :: i <= j < i + 4 && j < usedBits.Length ==> !usedBits[j]
  {
    canPlace := true;
    var j := i;
    while j < i + 4 && j < usedBits.Length
      invariant i <= j
      invariant forall b :: i <= b < j && b < usedBits.Length ==> !usedBits[b]
    {
      if usedBits[j] {
        canPlace := false;
        break;
      }
      j := j + 1;
    }
  }

  /** A four-bit field placed at a free window inside the frame shares no bit
      with the fields already there, when those lie inside the frame. */
  lemma AddFieldAtFreePosition(fields: seq<Field>, maxBits: nat, pos: nat, newField: Field)
    requires NoSharedBits(fields) && FieldsFit(fields, maxBits)
    requires pos + 4 <= maxBits && FreeAt(fields, maxBits, pos)
    requires newField.segments == [Segment(pos, 4)]
    ensures NoSharedBits(fields + [newField])
  {
    var all := fields + [newField];
    forall i: nat
      ensures FieldsCoverCount(all, |all|, i) <= 1
    {
      FieldsCoverCountPrefix(fields, all, |fields|, i);
      assert CoverCount(newField.segments, i) == (if pos <= i < pos + 4 then 1 else 0);
      if pos <= i < pos + 4 {
        assert FieldsCoverCount(fields, |fields|, i) == 0;
      }
    }
  }

  /** The cover count over the first n fields only depends on those fields. */
  lemma {:induction false} FieldsCoverCountPrefix(fields: seq<Field>, longer: seq<Field>, n: nat, i: int)
    requires n <= |fields| <= |longer| && fields == longer[..|fields|]
    ensures FieldsCoverCount(fields, n, i) == FieldsCoverCount(longer, n, i)
  {
    if n > 0 {
      FieldsCoverCountPrefix(fields, longer, n - 1, i);
    }
  }

  // ---------------------------------------------------------------------------
  // addSegment: the lowest bit no segment of the field covers

  /** The lowest bit at or above i and below maxBits that no segment covers. */
  function FirstFreeFrom(segs: seq<Segment>, i: nat, maxBits: nat): (r: Option<nat>)
    ensures r.Some? ==> i <= r.value < maxBits && CoverCount(segs, r.value) == 0
                        && forall j :: i <= j < r.value ==> CoverCount(segs, j) > 0
    ensures r.None? ==> forall j :: i <= j < maxBits ==> CoverCount(segs, j) > 0
    decreases maxBits - i
  {
    if i >= maxBits then None
    else if CoverCount(segs, i) == 0 then Some(i)
    else FirstFreeFrom(segs, i + 1, maxBits)
  }

  function FirstFreeBit(segs: seq<Segment>, maxBits: nat): Option<nat>
  {
    FirstFreeFrom(segs, 0, maxBits)
  }

  /** The search loop of `addSegment` over the field's own used bits. */
  method FindFirstFreeBit(segs: seq<Segment>, maxBits: nat) returns (newPosition: int)
    ensures newPosition == -1 <==> FirstFreeBit(segs, maxBits).None?
    ensures newPosition != -1 ==> newPosition == FirstFreeBit(segs, maxBits).value
  {
    var usedBits := new bool[maxBits](_ => false);
    MarkSegments(usedBits, segs);
    newPosition := -1;
    for i := 0 to maxBits
      invariant forall j :: 0 <= j < i ==> CoverCount(segs, j) > 0
    {
      if !usedBits[i] {
        newPosition := i;
        break;
      }
    }
    if newPosition != -1 {
      FirstFreeIsLeast(segs, 0, maxBits, newPosition);
    }
  }

  lemma {:induction false} FirstFreeIsLeast(segs: seq<Segment>, i: nat, maxBits: nat, p: nat)
    requires i <= p < maxBits && CoverCount(segs, p) == 0
    requires forall j :: i <= j < p ==> CoverCount(segs, j) > 0
    ensures FirstFreeFrom(segs, i, maxBits) == Some(p)
    decreases p - i
  {
    if i < p {
      FirstFreeIsLeast(segs, i + 1, maxBits, p);
    }
  }

  /** Segments that pairwise share no bit range. */
  ghost predicate PairwiseDisjoint(segs: seq<Segment>)
  {
    forall a, b :: 0 <= a < b < |segs| ==> Disjoint(segs[a], segs[b])
  }

  /** A one-bit segment at a bit no segment covers overlaps none of them. */
  lemma {:induction false} FreeBitSegmentDisjoint(segs: seq<Segment>, p: nat)
    requires CoverCount(segs, p) == 0
    ensures forall k :: 0 <= k < |segs| ==> Disjoint(segs[k], Segment(p, 1))
  {
    if segs != [] {
      FreeBitSegmentDisjoint(segs[1..], p);
      assert forall k :: 1 <= k < |segs| ==> segs[k] == segs[1..][k - 1];
    }
  }

  /** The segment `addSegment` appends keeps the field's segments disjoint. */
  lemma AddSegmentKeepsDisjoint(segs: seq<Segment>, maxBits: nat)
    requires PairwiseDisjoint(segs) && FirstFreeBit(segs, maxBits).Some?
    ensures PairwiseDisjoint(segs + [Segment(FirstFreeBit(segs, maxBits).value, 1)])
  {
    FreeBitSegmentDisjoint(segs, FirstFreeBit(segs, maxBits).value);
  }

  // ---------------------------------------------------------------------------
  // updateSegment: the overlap test

  /** The test of `updateSegment`: the closed ranges [start, start + bits - 1]
      of the two segments meet. */
  predicate ClosedOverlap(a: Segment, b: Segment)
  {
    a.position <= b.position + b.bits - 1 && a.position + a.bits - 1 >= b.position
  }

  /** The closed-range test rejects exactly the segments whose half-open ranges
      are not disjoint, for every width including zero. */
  lemma ClosedOverlapIsNotDisjoint(a: Segment, b: Segment)
    ensures ClosedOverlap(a, b) <==> !Disjoint(a, b)
  {
  }

  /** Disjoint segments share no bit. */
  lemma DisjointSharesNoBit(a: Segment, b: Segment, i: int)
    requires Disjoint(a, b)
    ensures !(Covers(a, i) && Covers(b, i))
  {
  }

  // ---------------------------------------------------------------------------
  // checkFieldConflicts

  /** What the editor shows for a field: no problem, a bit used twice, or a
      segment beyond the frame (which takes precedence). */
  datatype FieldStatus = Clear | Conflict | ExceedsLimit

  /** The inner loop of `checkFieldConflicts` from bit i of s: marks bits up to
      the segment's end or the array's end, and stops at the first bit already
      marked, leaving the rest of the segment unmarked. */
  function MarkFrom(used: seq<bool>, s: Segment, i: nat): (seq<bool>, bool)
    decreases s.position + s.bits - i
  {
    if i >= s.position + s.bits || i >= |used| then (used, false)
    else if used[i] then (used, true)
    else MarkFrom(used[i := true], s, i + 1)
  }

  datatype ScanState = ScanState(used: seq<bool>, conflict: bool, exceeds: bool)

  /** The segments of one field scanned in order against the shared array. */
  function ScanSegments(used: seq<bool>, segs: seq<Segment>, maxBits: nat): ScanState
    decreases segs
  {
    if segs == [] then ScanState(used, false, false)
    else
      var s := segs[0];
      var marked := MarkFrom(used, s, s.position);
      var rest := ScanSegments(marked.0, segs[1..], maxBits);
      ScanState(rest.used, marked.1 || rest.conflict, s.position + s.bits > maxBits || rest.exceeds)
  }

  function StatusOf(hasConflict: bool, exceedsLimit: bool): FieldStatus
  {
    if exceedsLimit then ExceedsLimit else if hasConflict then Conflict else Clear
  }

  /** The fields scanned in order, the array shared between them. */
  function ScanFields(used: seq<bool>, fields: seq<Field>, maxBits: nat): (seq<bool>, seq<FieldStatus>)
    decreases fields
  {
    if fields == [] then (used, [])
    else
      var st := ScanSegments(used, fields[0].segments, maxBits);
      var rest := ScanFields(st.used, fields[1..], maxBits);
      (rest.0, [StatusOf(st.conflict, st.exceeds)] + rest.1)
  }

  function NoBitsUsed(maxBits: nat): seq<bool>
  {
    seq(maxBits, _ => false)
  }

  /** The status of every field, as `checkFieldConflicts` marks them. */
  method CheckFieldConflicts(fields: seq<Field>, maxBits: nat) returns (statuses: seq<FieldStatus>)
    ensures statuses == ScanFields(NoBitsUsed(maxBits), fields, maxBits).1
  {
    var bitUsage := new bool[maxBits](_ => false);
    assert bitUsage[..] == NoBitsUsed(maxBits);
    statuses := [];
    for index := 0 to |fields|
      invariant statuses + ScanFields(bitUsage[..], fields[index..], maxBits).1
                == ScanFields(NoBitsUsed(maxBits), fields, maxBits).1
    {
      var field := fields[index];
      ghost var before := bitUsage[..];
      var hasConflict := false;
      var exceedsLimit := false;
      for k := 0 to |field.segments|
        invariant var r := ScanSegments(bitUsage[..], field.segments[k..], maxBits);
                  ScanState(r.used, hasConflict || r.conflict, exceedsLimit || r.exceeds)
                  == ScanSegments(before, field.segments, maxBits)
      {
        var segment := field.segments[k];
        assert field.segments[k..][1..] == field.segments[k + 1..];
        if segment.position + segment.bits > maxBits {
          exceedsLimit := true;
        }
        var conflict := MarkSegmentBits(bitUsage, segment);
        if conflict {
          hasConflict := true;
        }
      }
      assert fields[index..][1..] == fields[index + 1..];
      statuses := statuses + [StatusOf(hasConflict, exceedsLimit)];
    }
  }

  method MarkSegmentBits(bitUsage: array<bool>, segment: Segment) returns (conflict: bool)
    modifies bitUsage
    ensures (bitUsage[..], conflict) == MarkFrom(old(bitUsage[..]), segment, segment.position)
  {
    conflict := false;
    var i := segment.position;
    while i < segment.position + segment.bits && i < bitUsage.Length
      invariant segment.position <= i
      invariant MarkFrom(bitUsage[..], segment, i) == MarkFrom(old(bitUsage[..]), segment, segment.position)
      decreases segment.position + segment.bits - i
    {
      if bitUsage[i] {
        conflict := true;
        break;
      }
      bitUsage[i] := true;
      i := i + 1;
    }
  }

  function Used(used: seq<bool>, i: nat): nat
    requires i < |used|
  {
    if used[i] then 1 else 0
  }

  /** No bit of s below |used| is marked yet. */
  ghost predicate NoneMarkedFrom(used: seq<bool>, s: Segment, i: nat)
  {
    forall b :: i <= b < s.position + s.bits && b < |used| ==> !used[b]
  }

  /** Marking from bit i reports a conflict exactly when some remaining bit of
      the segment is already marked; otherwise it marks all of them. */
  lemma {:induction false} MarkFromSpec(used: seq<bool>, s: Segment, i: nat)
    ensures |MarkFrom(used, s, i).0| == |used|
    ensures MarkFrom(used, s, i).1 <==> !NoneMarkedFrom(used, s, i)
    ensures !MarkFrom(used, s, i).1 ==>
              forall b :: 0 <= b < |used| ==> MarkFrom(used, s, i).0[b] == (used[b] || i <= b < s.position + s.bits)
    decreases s.position + s.bits - i
  {
    if i >= s.position + s.bits || i >= |used| {
    } else if used[i] {
    } else {
      MarkFromSpec(used[i := true], s, i + 1);
      forall b | i + 1 <= b < |used|
        ensures used[i := true][b] == used[b]
      {
      }
    }
  }

  /** Every bit below |used| is either marked or covered, never both, and
      never covered twice. */
  ghost predicate AtMostOnce(used: seq<bool>, segs: seq<Segment>)
  {
    forall i: nat :: i < |used| ==> Used(used, i) + CoverCount(segs, i) <= 1
  }

  /** One field's scan: a conflict exactly when a bit of the frame is covered
      twice, counting the bits already marked; an excess exactly when a segment
      ends beyond the frame. Without a conflict the array gains the field's bits. */
  lemma {:induction false} ScanSegmentsSpec(used: seq<bool>, segs: seq<Segment>, maxBits: nat)
    ensures |ScanSegments(used, segs, maxBits).used| == |used|
    ensures ScanSegments(used, segs, maxBits).exceeds <==> !SegsFit(segs, maxBits)
    ensures ScanSegments(used, segs, maxBits).conflict <==> !AtMostOnce(used, segs)
    ensures !ScanSegments(used, segs, maxBits).conflict ==>
              forall i: nat :: i < |used| ==> ScanSegments(used, segs, maxBits).used[i] == (used[i] || CoverCount(segs, i) > 0)
    decreases segs
  {
    if segs != [] {
      var s := segs[0];
      var marked := MarkFrom(used, s, s.position);
      MarkFromSpec(used, s, s.position);
      ScanSegmentsSpec(marked.0, segs[1..], maxBits);
      if marked.1 {
        var b :| s.position <= b < s.position + s.bits && b < |used| && used[b];
        assert Used(used, b) + CoverCount(segs, b) >= 2;
      } else {
        forall i: nat | i < |used|
          ensures Used(used, i) + CoverCount(segs, i) == Used(marked.0, i) + CoverCount(segs[1..], i)
        {
        }
      }
    }
  }

  /** Fields from the first on, counted front to back. */
  function CountFrom(fields: seq<Field>, i: int): nat
  {
    if fields == [] then 0 else CoverCount(fields[0].segments, i) + CountFrom(fields[1..], i)
  }

  lemma {:induction false} CountFromIsFieldsCoverCount(fields: seq<Field>, n: nat, i: int)
    requires n <= |fields|
    ensures FieldsCoverCount(fields, n, i) == CountFrom(fields[..n], i)
  {
    if n > 0 {
      CountFromIsFieldsCoverCount(fields, n - 1, i);
      CountFromAppend(fields[..n - 1], [fields[n - 1]], i);
      assert fields[..n] == fields[..n - 1] + [fields[n - 1]];
    }
  }

  lemma {:induction false} CountFromAppend(a: seq<Field>, b: seq<Field>, i: int)
    ensures CountFrom(a + b, i) == CountFrom(a, i) + CountFrom(b, i)
  {
    if a == [] {
      assert a + b == b;
    } else {
      assert (a + b)[1..] == a[1..] + b;
      CountFromAppend(a[1..], b, i);
    }
  }

  lemma FieldsFitTail(fields: seq<Field>, width: nat)
    requires fields != []
    ensures FieldsFit(fields, width) <==> SegsFit(fields[0].segments, width) && FieldsFit(fields[1..], width)
  {
    if SegsFit(fields[0].segments, width) && FieldsFit(fields[1..], width) {
      forall k | 0 <= k < |fields|
        ensures SegsFit(fields[k].segments, width)
      {
        if k > 0 {
          assert fields[k] == fields[1..][k - 1];
        }
      }
    }
  }

  predicate AllClear(statuses: seq<FieldStatus>)
  {
    forall k :: 0 <= k < |statuses| ==> statuses[k] == Clear
  }

  ghost predicate AtMostOnceAll(used: seq<bool>, fields: seq<Field>)
  {
    forall i: nat :: i < |used| ==> Used(used, i) + CountFrom(fields, i) <= 1
  }

  /** The scan from any array: every field clear exactly when every segment
      lies inside the frame and no bit of the frame is covered twice, counting
      the bits already marked. */
  lemma {:induction false} ScanFieldsSpec(used: seq<bool>, fields: seq<Field>, maxBits: nat)
    ensures AllClear(ScanFields(used, fields, maxBits).1)
            <==> FieldsFit(fields, maxBits) && AtMostOnceAll(used, fields)
    decreases fields
  {
    if fields != [] {
      var st := ScanSegments(used, fields[0].segments, maxBits);
      var rest := ScanFields(st.used, fields[1..], maxBits);
      ScanSegmentsSpec(used, fields[0].segments, maxBits);
      ScanFieldsSpec(st.used, fields[1..], maxBits);
      var all := ScanFields(used, fields, maxBits).1;
      assert all == [StatusOf(st.conflict, st.exceeds)] + rest.1;
      if st.conflict || st.exceeds {
        assert all[0] != Clear;
        if st.conflict {
          var i: nat :| i < |used| && Used(used, i) + CoverCount(fields[0].segments, i) > 1;
          assert Used(used, i) + CountFrom(fields, i) > 1;
        }
      } else {
        assert all[0] == Clear;
        if AllClear(rest.1) {
          forall k | 0 <= k < |all|
            ensures all[k] == Clear
          {
            if k > 0 {
              assert all[k] == rest.1[k - 1];
            }
          }
        }
        if AllClear(all) {
          forall k | 0 <= k < |rest.1|
            ensures rest.1[k] == Clear
          {
            assert rest.1[k] == all[k + 1];
          }
        }
        FieldsFitTail(fields, maxBits);
        forall i: nat | i < |used|
          ensures Used(used, i) + CountFrom(fields, i) == Used(st.used, i) + CountFrom(fields[1..], i)
        {
          assert Used(used, i) + CoverCount(fields[0].segments, i) <= 1;
        }
        if FieldsFit(fields, maxBits) && AtMostOnceAll(used, fields) {
          assert AtMostOnceAll(st.used, fields[1..]);
        }
        if AtMostOnceAll(st.used, fields[1..]) {
          assert AtMostOnceAll(used, fields);
        }
      }
    }
  }

  /** No bit below maxBits is covered by two segments, of one field or of two. */
  ghost predicate FrameBitsUsedOnce(fields: seq<Field>, maxBits: nat)
  {
    forall i: nat :: i < maxBits ==> FieldsCoverCount(fields, |fields|, i) <= 1
  }

  /** `checkFieldConflicts` flags no field exactly when every segment lies
      inside the frame and no bit of the frame is covered by two segments. */
  lemma ConflictCheckExact(fields: seq<Field>, maxBits: nat)
    ensures AllClear(ScanFields(NoBitsUsed(maxBits), fields, maxBits).1)
            <==> FieldsFit(fields, maxBits) && FrameBitsUsedOnce(fields, maxBits)
  {
    var used := NoBitsUsed(maxBits);
    ScanFieldsSpec(used, fields, maxBits);
    assert fields[..|fields|] == fields;
    forall i: nat
      ensures FieldsCoverCount(fields, |fields|, i) == CountFrom(fields, i)
    {
      CountFromIsFieldsCoverCount(fields, |fields|, i);
    }
    forall i: nat | i < maxBits
      ensures Used(used, i) == 0
    {
    }
    if AtMostOnceAll(used, fields) {
      forall i: nat | i < maxBits
        ensures FieldsCoverCount(fields, |fields|, i) <= 1
      {
        assert Used(used, i) + CountFrom(fields, i) <= 1;
      }
    }
    if FrameBitsUsedOnce(fields, maxBits) {
      forall i: nat | i < |used|
        ensures Used(used, i) + CountFrom(fields, i) <= 1
      {
        assert FieldsCoverCount(fields, |fields|, i) <= 1;
      }
    }
  }

  /** A segment that ends at or below the width covers no bit above it. */
  lemma {:induction false} FitCoversNothingAbove(segs: seq<Segment>, width: nat, i: int)
    requires SegsFit(segs, width) && i >= width
    ensures CoverCount(segs, i) == 0
  {
    if segs != [] {
      FitCoversNothingAbove(segs[1..], width, i);
    }
  }

  lemma {:induction false} FieldsFitCoverNothingAbove(fields: seq<Field>, n: nat, width: nat, i: int)
    requires n <= |fields| && FieldsFit(fields, width) && i >= width
    ensures FieldsCoverCount(fields, n, i) == 0
  {
    if n > 0 {
      FieldsFitCoverNothingAbove(fields, n - 1, width, i);
      FitCoversNothingAbove(fields[n - 1].segments, width, i);
    }
  }

  /** A layout the conflict check passes has no shared bit anywhere, which is
      what decoding a field back out of the identifier needs. */
  lemma ClearLayoutSharesNoBit(fields: seq<Field>, maxBits: nat)
    requires AllClear(ScanFields(NoBitsUsed(maxBits), fields, maxBits).1)
    ensures NoSharedBits(fields) && FieldsFit(fields, maxBits)
  {
    ConflictCheckExact(fields, maxBits);
    forall i: nat | i >= maxBits
      ensures FieldsCoverCount(fields, |fields|, i) <= 1
    {
      FieldsFitCoverNothingAbove(fields, |fields|, maxBits, i);
    }
  }

  // ---------------------------------------------------------------------------
  // autoArrangeFields

  /** Puts f in front of the first field with no more bits than it. */
  function InsertByBits(f: Field, sorted: seq<Field>): seq<Field>
  {
    if sorted == [] || f.bits >= sorted[0].bits then [f] + sorted
    else [sorted[0]] + InsertByBits(f, sorted[1..])
  }

  /** `this.fields.sort((a, b) => b.bits - a.bits)`, a stable sort by
      descending width, written as an insertion sort. */
  function SortByBitsDescending(fields: seq<Field>): seq<Field>
  {
    if fields == [] then [] else InsertByBits(fields[0], SortByBitsDescending(fields[1..]))
  }

  ghost predicate DescendingBits(fields: seq<Field>)
  {
    forall i, j :: 0 <= i < j < |fields| ==> fields[i].bits >= fields[j].bits
  }

  ghost predicate AtMostBits(fields: seq<Field>, bits: nat)
  {
    forall k :: 0 <= k < |fields| ==> fields[k].bits <= bits
  }

  lemma DescendingCons(f: Field, fields: seq<Field>)
    requires DescendingBits(fields) && AtMostBits(fields, f.bits)
    ensures DescendingBits([f] + fields)
  {
  }

  lemma DescendingTail(fields: seq<Field>)
    requires fields != [] && DescendingBits(fields)
    ensures DescendingBits(fields[1..]) && AtMostBits(fields[1..], fields[0].bits)
  {
  }

  lemma DescendingBelow(f: Field, fields: seq<Field>)
    requires DescendingBits(fields) && (fields == [] || f.bits >= fields[0].bits)
    ensures AtMostBits(fields, f.bits)
  {
  }

  /** Inserting keeps the fields and the order, and adds f. */
  lemma {:induction false} InsertByBitsSpec(f: Field, sorted: seq<Field>)
    requires DescendingBits(sorted)
    ensures multiset(InsertByBits(f, sorted)) == multiset(sorted) + multiset{f}
    ensures |InsertByBits(f, sorted)| == |sorted| + 1
    ensures DescendingBits(InsertByBits(f, sorted))
  {
    if sorted != [] && f.bits < sorted[0].bits {
      var head, rest := sorted[0], sorted[1..];
      assert sorted == [head] + rest;
      DescendingTail(sorted);
      InsertByBitsSpec(f, rest);
      InsertByBitsBound(f, rest, head.bits);
      DescendingCons(head, InsertByBits(f, rest));
    } else {
      DescendingBelow(f, sorted);
      DescendingCons(f, sorted);
    }
  }

  lemma {:induction false} InsertByBitsBound(f: Field, sorted: seq<Field>, bits: nat)
    requires AtMostBits(sorted, bits) && f.bits <= bits
    ensures AtMostBits(InsertByBits(f, sorted), bits)
  {
    if sorted != [] && f.bits < sorted[0].bits {
      InsertByBitsBound(f, sorted[1..], bits);
    }
  }

  /** The sorted list holds the same fields, widest first. */
  lemma {:induction false} SortByBitsDescendingSpec(fields: seq<Field>)
    ensures multiset(SortByBitsDescending(fields)) == multiset(fields)
    ensures |SortByBitsDescending(fields)| == |fields|
    ensures DescendingBits(SortByBitsDescending(fields))
  {
    if fields != [] {
      SortByBitsDescendingSpec(fields[1..]);
      InsertByBitsSpec(fields[0], SortByBitsDescending(fields[1..]));
      assert fields == [fields[0]] + fields[1..];
    }
  }

  /** The width of the first n fields together. */
  function BitsBefore(fields: seq<Field>, n: nat): nat
    requires n <= |fields|
  {
    if n == 0 then 0 else BitsBefore(fields, n - 1) + fields[n - 1].bits
  }

  function Max0(x: int): nat
  {
    if x < 0 then 0 else x
  }

  /** Field k after arranging: a single segment of its width ending where the
      wider fields before it begin, clipped at bit 0. */
  function ArrangedField(fields: seq<Field>, k: nat, maxBits: nat): Field
    requires k < |fields|
  {
    fields[k].(segments := [Segment(Max0(maxBits - BitsBefore(fields, k + 1)), fields[k].bits)])
  }

  function Arranged(fields: seq<Field>, maxBits: nat): (r: seq<Field>)
    ensures |r| == |fields|
  {
    seq(|fields|, k requires 0 <= k < |fields| => ArrangedField(fields, k, maxBits))
  }

  /** When the fields fit together, the first n arranged fields cover exactly
      the top BitsBefore(n) bits of the frame, each once. */
  lemma {:induction false} ArrangedCover(fields: seq<Field>, maxBits: nat, n: nat, i: int)
    requires n <= |fields| && BitsBefore(fields, |fields|) <= maxBits
    ensures FieldsCoverCount(Arranged(fields, maxBits), n, i)
            == if maxBits - BitsBefore(fields, n) <= i < maxBits then 1 else 0
  {
    if n > 0 {
      ArrangedCover(fields, maxBits, n - 1, i);
      BitsBeforeMonotone(fields, n, |fields|);
      var seg := Segment(maxBits - BitsBefore(fields, n), fields[n - 1].bits);
      assert Arranged(fields, maxBits)[n - 1].segments == [seg];
      assert CoverCount([seg], i) == if Covers(seg, i) then 1 else 0;
    }
  }

  lemma {:induction false} BitsBeforeMonotone(fields: seq<Field>, m: nat, n: nat)
    requires m <= n <= |fields|
    ensures BitsBefore(fields, m) <= BitsBefore(fields, n)
    decreases n - m
  {
    if m < n {
      BitsBeforeMonotone(fields, m, n - 1);
    }
  }

  /** Fields whose widths add up to at most the frame are packed from the top
      of the frame down without gaps: every arranged segment lies inside the
      frame and no bit is shared. */
  lemma ArrangedLayoutIsClear(fields: seq<Field>, maxBits: nat)
    requires BitsBefore(fields, |fields|) <= maxBits
    ensures NoSharedBits(Arranged(fields, maxBits)) && FieldsFit(Arranged(fields, maxBits), maxBits)
  {
    var arranged := Arranged(fields, maxBits);
    forall i: nat
      ensures FieldsCoverCount(arranged, |arranged|, i) <= 1
    {
      ArrangedCover(fields, maxBits, |fields|, i);
    }
    forall k | 0 <= k < |arranged|
      ensures SegsFit(arranged[k].segments, maxBits)
    {
      ArrangedFieldFits(fields, maxBits, k);
    }
  }

  lemma ArrangedFieldFits(fields: seq<Field>, maxBits: nat, k: nat)
    requires BitsBefore(fields, |fields|) <= maxBits && k < |fields|
    ensures SegsFit(Arranged(fields, maxBits)[k].segments, maxBits)
  {
    BitsBeforeMonotone(fields, k + 1, |fields|);
    assert Arranged(fields, maxBits)[k].segments[1..] == [];
  }
}
