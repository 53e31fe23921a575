/** Reading field values back out of a composed identifier. When every segment
    lies below bit 31 and no identifier bit is covered by two segments, each bit
    of a field's value lands exactly where its segments put it, and decoding the
    field's segments from the identifier gives back the value that
    `getFieldValue` chose. */
module IdDecode {
  import opened JsBits
  import opened Model
  import opened BitComposer

  // ---------------------------------------------------------------------------
  // Which segments cover a bit

  /** How many of the segments cover bit i. */
  function CoverCount(segs: seq<Segment>, i: int): nat
  {
    if segs == [] then 0 else (if Covers(segs[0], i) then 1 else 0) + CoverCount(segs[1..], i)
  }

  /** How many segments of the first n fields cover bit i. */
  function FieldsCoverCount(fields: seq<Field>, n: nat, i: int): nat
    requires n <= |fields|
  {
    if n == 0 then 0 else FieldsCoverCount(fields, n - 1, i) + CoverCount(fields[n - 1].segments, i)
  }

  /** No bit of the identifier is covered by two segments, of one field or of two. */
  ghost predicate NoSharedBits(fields: seq<Field>)
  {
    forall i: nat :: FieldsCoverCount(fields, |fields|, i) <= 1
  }

  /** Every segment ends at or below bit `width`. */
  predicate SegsFit(segs: seq<Segment>, width: nat)
  {
    segs == [] || (segs[0].position + segs[0].bits <= width && SegsFit(segs[1..], width))
  }

  ghost predicate FieldsFit(fields: seq<Field>, width: nat)
  {
    forall k :: 0 <= k < |fields| ==> SegsFit(fields[k].segments, width)
  }

  predicate ChunkCovers(c: Chunk, i: int)
  {
    c.position <= i < c.position + c.bits
  }

  function ChunkCoverCount(cs: seq<Chunk>, i: int): nat
  {
    if cs == [] then 0 else (if ChunkCovers(cs[0], i) then 1 else 0) + ChunkCoverCount(cs[1..], i)
  }

  // ---------------------------------------------------------------------------
  // Sorting by position keeps the cover counts, the widths and the fit

  lemma {:induction false} InsertCoverCount(s: Segment, sorted: seq<Segment>, i: int)
    ensures CoverCount(InsertByPosition(s, sorted), i) == (if Covers(s, i) then 1 else 0) + CoverCount(sorted, i)
  {
    if sorted != [] && s.position > sorted[0].position {
      InsertCoverCount(s, sorted[1..], i);
    }
  }

  lemma {:induction false} SortCoverCount(segs: seq<Segment>, i: int)
    ensures CoverCount(SortByPosition(segs), i) == CoverCount(segs, i)
  {
    if segs != [] {
      SortCoverCount(segs[1..], i);
      InsertCoverCount(segs[0], SortByPosition(segs[1..]), i);
    }
  }

  lemma {:induction false} InsertTotalBits(s: Segment, sorted: seq<Segment>)
    ensures TotalBits(InsertByPosition(s, sorted)) == s.bits + TotalBits(sorted)
  {
    if sorted != [] && s.position > sorted[0].position {
      InsertTotalBits(s, sorted[1..]);
    }
  }

  lemma {:induction false} SortTotalBits(segs: seq<Segment>)
    ensures TotalBits(SortByPosition(segs)) == TotalBits(segs)
  {
    if segs != [] {
      SortTotalBits(segs[1..]);
      InsertTotalBits(segs[0], SortByPosition(segs[1..]));
    }
  }

  lemma {:induction false} InsertFits(s: Segment, sorted: seq<Segment>, width: nat)
    requires s.position + s.bits <= width && SegsFit(sorted, width)
    ensures SegsFit(InsertByPosition(s, sorted), width)
  {
    if sorted != [] && s.position > sorted[0].position {
      InsertFits(s, sorted[1..], width);
    }
  }

  lemma {:induction false} SortFits(segs: seq<Segment>, width: nat)
    requires SegsFit(segs, width)
    ensures SegsFit(SortByPosition(segs), width)
  {
    if segs != [] {
      SortFits(segs[1..], width);
      InsertFits(segs[0], SortByPosition(segs[1..]), width);
    }
  }

  // ---------------------------------------------------------------------------
  // The chunks of a field

  lemma {:induction false} ChunksLength(segs: seq<Segment>, v: int)
    ensures |Chunks(segs, v)| == |segs|
  {
    if segs != [] {
      ChunksLength(segs[1..], JsShr(v, segs[0].bits));
    }
  }

  lemma {:induction false} ChunksCoverCount(segs: seq<Segment>, v: int, i: int)
    ensures ChunkCoverCount(Chunks(segs, v), i) == CoverCount(segs, i)
  {
    if segs != [] {
      ChunksCoverCount(segs[1..], JsShr(v, segs[0].bits), i);
    }
  }

  /** The chunks of `distributeValueToSegments` in plain arithmetic: each
      segment takes the value's low bits, and the rest moves down past them. */
  ghost function ValueChunks(segs: seq<Segment>, v: int): seq<Chunk>
  {
    if segs == [] then []
    else [Chunk(segs[0].position, segs[0].bits, LowBits(v, segs[0].bits))] + ValueChunks(segs[1..], ShiftDown(v, segs[0].bits))
  }

  /** For a non-negative 31-bit value, the int32 masks and shifts of the source
      are the plain arithmetic ones, chunk by chunk. */
  lemma {:induction false} ChunkAtIsValueChunk(segs: seq<Segment>, v: int, j: nat)
    requires 0 <= v < TWO31 && SegsFit(segs, 31) && j < |segs|
    ensures |Chunks(segs, v)| == |ValueChunks(segs, v)| == |segs|
    ensures Chunks(segs, v)[j] == ValueChunks(segs, v)[j]
  {
    var b := segs[0].bits;
    ChunksLength(segs, v);
    ValueChunksLength(segs, v);
    if j == 0 {
      JsAndMask(v, b);
    } else {
      JsShrSmall(v, b);
      ShiftDownNonneg(v, b);
      ChunkAtIsValueChunk(segs[1..], ShiftDown(v, b), j - 1);
    }
  }

  lemma ChunksAreValueChunks(segs: seq<Segment>, v: int)
    requires 0 <= v < TWO31 && SegsFit(segs, 31)
    ensures Chunks(segs, v) == ValueChunks(segs, v)
  {
    ChunksLength(segs, v);
    ValueChunksLength(segs, v);
    forall j | 0 <= j < |segs|
      ensures Chunks(segs, v)[j] == ValueChunks(segs, v)[j]
    {
      ChunkAtIsValueChunk(segs, v, j);
    }
  }

  /** Chunk j holds the value's bits from the sum of the widths of the
      segments before it. */
  lemma {:induction false} ValueChunksAt(segs: seq<Segment>, v: int, j: nat)
    requires j < |segs|
    ensures |ValueChunks(segs, v)| == |segs|
    ensures ValueChunks(segs, v)[j]
         == Chunk(segs[j].position, segs[j].bits, LowBits(ShiftDown(v, TotalBits(segs[..j])), segs[j].bits))
  {
    if j == 0 {
      assert segs[..0] == [];
      ValueChunksLength(segs[1..], ShiftDown(v, segs[0].bits));
    } else {
      var b := segs[0].bits;
      ValueChunksAt(segs[1..], ShiftDown(v, b), j - 1);
      ShiftDownAdd(v, b, TotalBits(segs[1..][..j - 1]));
      assert segs[..j][1..] == segs[1..][..j - 1];
    }
  }

  lemma {:induction false} ValueChunksLength(segs: seq<Segment>, v: int)
    ensures |ValueChunks(segs, v)| == |segs|
  {
    if segs != [] {
      ValueChunksLength(segs[1..], ShiftDown(v, segs[0].bits));
    }
  }

  /** The chunks glued back together, lowest first. */
  function Reassemble(cs: seq<Chunk>): int
  {
    if cs == [] then 0 else cs[0].value + ShiftUp(Reassemble(cs[1..]), cs[0].bits)
  }

  lemma {:induction false} ValueChunksReassemble(segs: seq<Segment>, v: int)
    ensures Reassemble(ValueChunks(segs, v)) == LowBits(v, TotalBits(segs))
  {
    if segs != [] {
      var b := segs[0].bits;
      var t := TotalBits(segs[1..]);
      var c0 := Chunk(segs[0].position, b, LowBits(v, b));
      var rest := ValueChunks(segs[1..], ShiftDown(v, b));
      assert ([c0] + rest)[1..] == rest;
      ValueChunksReassemble(segs[1..], ShiftDown(v, b));
      LowBitsSplit(v, b, t);
    }
  }

  /** Gluing the chunks of `distributeValueToSegments` back together, lowest
      position first, gives the value back whenever it fits in the segments'
      total width. */
  lemma DistributeRoundTrip(segs: seq<Segment>, v: int)
    requires SegsFit(segs, 31)
    requires 0 <= v < TWO31 && v < Pow2(TotalBits(segs))
    ensures Reassemble(Chunks(SortByPosition(segs), v)) == v
  {
    SortFits(segs, 31);
    SortTotalBits(segs);
    ChunksAreValueChunks(SortByPosition(segs), v);
    ValueChunksReassemble(SortByPosition(segs), v);
    LowBitsOfSmall(v, TotalBits(segs));
  }

  // ---------------------------------------------------------------------------
  // Or-ing chunks into the identifier

  /** Chunk c sets bit i of the identifier. */
  predicate ChunkSetsBit(c: Chunk, i: nat)
  {
    c.position <= i < c.position + c.bits && Bit(c.value, i - c.position) == 1
  }

  predicate AnySets(cs: seq<Chunk>, i: nat)
  {
    cs != [] && (ChunkSetsBit(cs[0], i) || AnySets(cs[1..], i))
  }

  /** Every chunk is narrower than its segment and ends at or below `width`. */
  predicate ChunksFit(cs: seq<Chunk>, width: nat)
  {
    cs == [] || (0 <= cs[0].value < Pow2(cs[0].bits) && cs[0].position + cs[0].bits <= width && ChunksFit(cs[1..], width))
  }

  lemma {:induction false} ChunksFitOf(segs: seq<Segment>, v: int, width: nat)
    requires width <= 31 && SegsFit(segs, width)
    ensures ChunksFit(Chunks(segs, v), width)
  {
    if segs != [] {
      MaskFits(segs[0].bits);
      JsAndWithin(v, Pow2(segs[0].bits) - 1);
      ChunksFitOf(segs[1..], JsShr(v, segs[0].bits), width);
    }
  }

  /** One `messageId |= (bitValue << position)` with a chunk that fits below `width`. */
  lemma OrChunkStep(acc: int, c: Chunk, width: nat, i: nat)
    requires width <= 31 && 0 <= acc < Pow2(width)
    requires 0 <= c.value < Pow2(c.bits) && c.position + c.bits <= width
    ensures 0 <= JsOr(acc, JsShl(c.value, c.position)) < Pow2(width)
    ensures Bit(JsOr(acc, JsShl(c.value, c.position)), i)
         == if Bit(acc, i) == 1 || ChunkSetsBit(c, i) then 1 else 0
  {
    var s := ShiftUp(c.value, c.position);
    ChunkShifted(c, width);
    Pow2AtMost31(width);
    JsOrSmall(acc, s);
    BitOrBound(acc, s, width);
    BitOfOr(acc, s, i);
    ChunkShiftedBit(c, i);
  }

  /** `bitValue << position` of a chunk that fits below `width` is the plain
      shift, and stays below 2^width. */
  lemma ChunkShifted(c: Chunk, width: nat)
    requires width <= 31
    requires 0 <= c.value < Pow2(c.bits) && c.position + c.bits <= width
    ensures JsShl(c.value, c.position) == ShiftUp(c.value, c.position)
    ensures 0 <= ShiftUp(c.value, c.position) < Pow2(width)
  {
    Pow2AtMost31(width);
    ShiftUpBelow(c.value, c.bits, c.position);
    Pow2Monotone(c.bits + c.position, width);
    JsShlSmall(c.value, c.position);
  }

  /** Bit i of a shifted chunk is set exactly when the chunk sets bit i. */
  lemma ChunkShiftedBit(c: Chunk, i: nat)
    requires 0 <= c.value < Pow2(c.bits)
    ensures Bit(ShiftUp(c.value, c.position), i) == 1 <==> ChunkSetsBit(c, i)
  {
    BitOfShiftUp(c.value, c.position, i);
    if i >= c.position + c.bits {
      BitAboveWidth(c.value, c.bits, i - c.position);
    }
  }

  lemma {:induction false} OrChunksBits(acc: int, cs: seq<Chunk>, width: nat, i: nat)
    requires width <= 31 && 0 <= acc < Pow2(width) && ChunksFit(cs, width)
    ensures 0 <= OrChunks(acc, cs) < Pow2(width)
    ensures Bit(OrChunks(acc, cs), i) == if Bit(acc, i) == 1 || AnySets(cs, i) then 1 else 0
    decreases |cs|
  {
    BitIsBit(acc, i);
    if cs != [] {
      OrChunkStep(acc, cs[0], width, i);
      OrChunksBits(JsOr(acc, JsShl(cs[0].value, cs[0].position)), cs[1..], width, i);
    }
  }

  lemma {:induction false} NoCoverNoSet(cs: seq<Chunk>, i: nat)
    requires ChunkCoverCount(cs, i) == 0
    ensures !AnySets(cs, i)
  {
    if cs != [] {
      NoCoverNoSet(cs[1..], i);
    }
  }

  lemma {:induction false} CoveredCount(cs: seq<Chunk>, j: nat, i: int)
    requires j < |cs| && ChunkCovers(cs[j], i)
    ensures ChunkCoverCount(cs, i) >= 1
  {
    if j > 0 {
      CoveredCount(cs[1..], j - 1, i);
    }
  }

  /** When chunk j is the only chunk covering bit i, it alone decides that bit. */
  lemma {:induction false} UniqueCoverSets(cs: seq<Chunk>, j: nat, i: nat)
    requires j < |cs| && ChunkCovers(cs[j], i) && ChunkCoverCount(cs, i) <= 1
    ensures AnySets(cs, i) == ChunkSetsBit(cs[j], i)
  {
    if j == 0 {
      NoCoverNoSet(cs[1..], i);
    } else {
      CoveredCount(cs[1..], j - 1, i);
      UniqueCoverSets(cs[1..], j - 1, i);
    }
  }

  // ---------------------------------------------------------------------------
  // All fields at once: one list of chunks per field, or-ed in field order

  /** `messageId |= ...` for every chunk of the first n lists, list by list. */
  function OrUpTo(acc: int, css: seq<seq<Chunk>>, n: nat): int
    requires n <= |css|
  {
    if n == 0 then acc else OrChunks(OrUpTo(acc, css, n - 1), css[n - 1])
  }

  ghost predicate ListsFit(css: seq<seq<Chunk>>, width: nat)
  {
    forall m :: 0 <= m < |css| ==> ChunksFit(css[m], width)
  }

  /** How many chunks of the first n lists cover bit i. */
  function ListsCoverCount(css: seq<seq<Chunk>>, n: nat, i: int): nat
    requires n <= |css|
  {
    if n == 0 then 0 else ListsCoverCount(css, n - 1, i) + ChunkCoverCount(css[n - 1], i)
  }

  predicate AnySetsUpTo(css: seq<seq<Chunk>>, n: nat, i: nat)
    requires n <= |css|
  {
    n > 0 && (AnySetsUpTo(css, n - 1, i) || AnySets(css[n - 1], i))
  }

  /** Or-ing fitting chunks into 0 keeps the result below 2^width and sets
      exactly the bits some chunk sets. */
  lemma {:induction false} OrUpToBits(css: seq<seq<Chunk>>, n: nat, width: nat, i: nat)
    requires n <= |css| && width <= 31 && ListsFit(css, width)
    ensures 0 <= OrUpTo(0, css, n) < Pow2(width)
    ensures Bit(OrUpTo(0, css, n), i) == if AnySetsUpTo(css, n, i) then 1 else 0
  {
    if n == 0 {
      BitOfZero(i);
    } else {
      OrUpToBits(css, n - 1, width, i);
      OrChunksBits(OrUpTo(0, css, n - 1), css[n - 1], width, i);
    }
  }

  lemma {:induction false} NoCoverNoSetUpTo(css: seq<seq<Chunk>>, n: nat, i: nat)
    requires n <= |css| && ListsCoverCount(css, n, i) == 0
    ensures !AnySetsUpTo(css, n, i)
  {
    if n > 0 {
      NoCoverNoSetUpTo(css, n - 1, i);
      NoCoverNoSet(css[n - 1], i);
    }
  }

  /** A bit that list k covers and no other chunk covers is set exactly when
      list k sets it. */
  lemma {:induction false} ListsUniqueSets(css: seq<seq<Chunk>>, n: nat, k: nat, i: nat)
    requires k < n <= |css| && ListsCoverCount(css, n, i) <= 1 && ChunkCoverCount(css[k], i) >= 1
    ensures ChunkCoverCount(css[k], i) <= ListsCoverCount(css, n, i)
    ensures AnySetsUpTo(css, n, i) == AnySets(css[k], i)
  {
    if k == n - 1 {
      NoCoverNoSetUpTo(css, n - 1, i);
    } else {
      ListsUniqueSets(css, n - 1, k, i);
      NoCoverNoSet(css[n - 1], i);
    }
  }

  /** The chunk lists of the first n fields. */
  ghost function ChunkLists(fields: seq<Field>, n: nat, batchFieldValues: map<nat, int>, functionCode: int): (r: seq<seq<Chunk>>)
    requires n <= |fields|
    ensures |r| == n
  {
    if n == 0 then []
    else ChunkLists(fields, n - 1, batchFieldValues, functionCode) + [FieldChunks(fields, n - 1, batchFieldValues, functionCode)]
  }

  lemma {:induction false} ChunkListsAt(fields: seq<Field>, n: nat, batchFieldValues: map<nat, int>, functionCode: int, k: nat)
    requires k < n <= |fields|
    ensures ChunkLists(fields, n, batchFieldValues, functionCode)[k] == FieldChunks(fields, k, batchFieldValues, functionCode)
  {
    if k < n - 1 {
      ChunkListsAt(fields, n - 1, batchFieldValues, functionCode, k);
    }
  }

  lemma OrChunksSame(a: int, b: int, cs: seq<Chunk>, ds: seq<Chunk>)
    requires a == b && cs == ds
    ensures OrChunks(a, cs) == OrChunks(b, ds)
  {
  }

  lemma {:induction false} ComposePrefixIsOrUpTo(fields: seq<Field>, n: nat, batchFieldValues: map<nat, int>, functionCode: int)
    requires n <= |fields|
    ensures ComposePrefix(fields, n, batchFieldValues, functionCode)
         == OrUpTo(0, ChunkLists(fields, |fields|, batchFieldValues, functionCode), n)
  {
    if n > 0 {
      var css := ChunkLists(fields, |fields|, batchFieldValues, functionCode);
      ComposePrefixIsOrUpTo(fields, n - 1, batchFieldValues, functionCode);
      ChunkListsAt(fields, |fields|, batchFieldValues, functionCode, n - 1);
      OrChunksSame(ComposePrefix(fields, n - 1, batchFieldValues, functionCode), OrUpTo(0, css, n - 1),
                   FieldChunks(fields, n - 1, batchFieldValues, functionCode), css[n - 1]);
    }
  }

  lemma FieldChunksFit(fields: seq<Field>, k: nat, batchFieldValues: map<nat, int>, functionCode: int, width: nat)
    requires k < |fields| && width <= 31 && SegsFit(fields[k].segments, width)
    ensures ChunksFit(FieldChunks(fields, k, batchFieldValues, functionCode), width)
  {
    SortFits(fields[k].segments, width);
    ChunksFitOf(SortByPosition(fields[k].segments), GetFieldValue(fields[k], k, batchFieldValues, functionCode), width);
  }

  lemma ChunkListsFit(fields: seq<Field>, batchFieldValues: map<nat, int>, functionCode: int, width: nat)
    requires width <= 31 && FieldsFit(fields, width)
    ensures ListsFit(ChunkLists(fields, |fields|, batchFieldValues, functionCode), width)
  {
    forall m | 0 <= m < |fields|
      ensures ChunksFit(ChunkLists(fields, |fields|, batchFieldValues, functionCode)[m], width)
    {
      ChunkListsAt(fields, |fields|, batchFieldValues, functionCode, m);
      FieldChunksFit(fields, m, batchFieldValues, functionCode, width);
    }
  }

  lemma FieldChunksCover(fields: seq<Field>, k: nat, batchFieldValues: map<nat, int>, functionCode: int, i: int)
    requires k < |fields|
    ensures ChunkCoverCount(FieldChunks(fields, k, batchFieldValues, functionCode), i) == CoverCount(fields[k].segments, i)
  {
    ChunksCoverCount(SortByPosition(fields[k].segments), GetFieldValue(fields[k], k, batchFieldValues, functionCode), i);
    SortCoverCount(fields[k].segments, i);
  }

  lemma {:induction false} ChunkListsCover(fields: seq<Field>, n: nat, batchFieldValues: map<nat, int>, functionCode: int, i: int)
    requires n <= |fields|
    ensures ListsCoverCount(ChunkLists(fields, |fields|, batchFieldValues, functionCode), n, i) == FieldsCoverCount(fields, n, i)
  {
    if n > 0 {
      ChunkListsCover(fields, n - 1, batchFieldValues, functionCode, i);
      ChunkListsAt(fields, |fields|, batchFieldValues, functionCode, n - 1);
      FieldChunksCover(fields, n - 1, batchFieldValues, functionCode, i);
    }
  }

  // ---------------------------------------------------------------------------
  // The round trip

  /** A bit that only field k's segments cover is set in the identifier exactly
      when one of field k's chunks sets it. */
  lemma IdBitFromField(fields: seq<Field>, batchFieldValues: map<nat, int>, functionCode: int, k: nat, i: nat)
    requires k < |fields| && FieldsFit(fields, 31) && NoSharedBits(fields)
    requires ChunkCoverCount(FieldChunks(fields, k, batchFieldValues, functionCode), i) >= 1
    ensures ChunkCoverCount(FieldChunks(fields, k, batchFieldValues, functionCode), i) <= 1
    ensures Bit(ComposeId(fields, batchFieldValues, functionCode), i)
         == if AnySets(FieldChunks(fields, k, batchFieldValues, functionCode), i) then 1 else 0
  {
    var css := ChunkLists(fields, |fields|, batchFieldValues, functionCode);
    ComposePrefixIsOrUpTo(fields, |fields|, batchFieldValues, functionCode);
    ChunkListsFit(fields, batchFieldValues, functionCode, 31);
    OrUpToBits(css, |fields|, 31, i);
    ChunkListsCover(fields, |fields|, batchFieldValues, functionCode, i);
    assert FieldsCoverCount(fields, |fields|, i) <= 1;
    ChunkListsAt(fields, |fields|, batchFieldValues, functionCode, k);
    ListsUniqueSets(css, |fields|, k, i);
  }

  /** Bit i of the identifier, inside segment j (in position order) of field
      k, carries bit `offset + (i - position)` of the field's value, where
      offset is the total width of the segments below that segment. */
  lemma FieldBitRoundTrip(fields: seq<Field>, batchFieldValues: map<nat, int>, functionCode: int, k: nat, j: nat, i: nat)
    requires k < |fields| && fields[k].bits <= 31
    requires FieldsFit(fields, 31) && NoSharedBits(fields)
    requires j < |SortByPosition(fields[k].segments)|
    requires Covers(SortByPosition(fields[k].segments)[j], i)
    ensures var segs := SortByPosition(fields[k].segments);
            Bit(ComposeId(fields, batchFieldValues, functionCode), i)
            == Bit(GetFieldValue(fields[k], k, batchFieldValues, functionCode), TotalBits(segs[..j]) + (i - segs[j].position))
  {
    var segs := SortByPosition(fields[k].segments);
    var v := GetFieldValue(fields[k], k, batchFieldValues, functionCode);
    assert 0 <= v < TWO31 by {
      Pow2AtMost31(fields[k].bits);
    }
    SortFits(fields[k].segments, 31);
    ChunksAreValueChunks(segs, v);
    var cs := FieldChunks(fields, k, batchFieldValues, functionCode);
    assert cs == ValueChunks(segs, v);
    ChunkCovered(cs, segs, v, j, i);
    IdBitFromField(fields, batchFieldValues, functionCode, k, i);
    OnlyChunkDecides(cs, segs, v, j, i, Bit(ComposeId(fields, batchFieldValues, functionCode), i));
  }

  lemma ChunkCovered(cs: seq<Chunk>, segs: seq<Segment>, v: int, j: nat, i: nat)
    requires cs == ValueChunks(segs, v) && j < |segs| && Covers(segs[j], i)
    ensures ChunkCoverCount(cs, i) >= 1
  {
    ValueChunkBit(segs, v, j, i);
    CoveredCount(cs, j, i);
  }

  /** The identifier bit that is set exactly when some chunk sets it, where
      chunk j is the only one covering it, is the matching bit of the value. */
  lemma OnlyChunkDecides(cs: seq<Chunk>, segs: seq<Segment>, v: int, j: nat, i: nat, idBit: int)
    requires cs == ValueChunks(segs, v) && j < |segs| && Covers(segs[j], i)
    requires ChunkCoverCount(cs, i) <= 1
    requires idBit == if AnySets(cs, i) then 1 else 0
    ensures idBit == Bit(v, TotalBits(segs[..j]) + (i - segs[j].position))
  {
    ValueChunkBit(segs, v, j, i);
    UniqueCoverSets(cs, j, i);
  }

  /** Chunk j covers bit i of its segment and sets it exactly when the
      matching bit of the value is set. */
  lemma ValueChunkBit(segs: seq<Segment>, v: int, j: nat, i: nat)
    requires j < |segs| && Covers(segs[j], i)
    ensures |ValueChunks(segs, v)| == |segs|
    ensures ChunkCovers(ValueChunks(segs, v)[j], i)
    ensures (if ChunkSetsBit(ValueChunks(segs, v)[j], i) then 1 else 0)
         == Bit(v, TotalBits(segs[..j]) + (i - segs[j].position))
  {
    ValueChunksAt(segs, v, j);
    var offset := TotalBits(segs[..j]);
    var t := i - segs[j].position;
    BitOfLowBits(ShiftDown(v, offset), segs[j].bits, t);
    BitOfShiftDown(v, offset, t);
    BitIsBit(v, offset + t);
  }

  /** The chunks read back out of an identifier at the given segments. */
  function ReadChunks(id: int, segs: seq<Segment>): (r: seq<Chunk>)
    ensures |r| == |segs|
  {
    if segs == [] then []
    else [Chunk(segs[0].position, segs[0].bits, LowBits(ShiftDown(id, segs[0].position), segs[0].bits))]
         + ReadChunks(id, segs[1..])
  }

  /** A field's value as read back from an identifier: its segments' bits in
      position order, lowest first. */
  function DecodeField(id: int, field: Field): int
  {
    Reassemble(ReadChunks(id, SortByPosition(field.segments)))
  }

  lemma {:induction false} ReadChunksAt(id: int, segs: seq<Segment>, j: nat)
    requires j < |segs|
    ensures ReadChunks(id, segs)[j]
         == Chunk(segs[j].position, segs[j].bits, LowBits(ShiftDown(id, segs[j].position), segs[j].bits))
  {
    if j > 0 {
      ReadChunksAt(id, segs[1..], j - 1);
    }
  }

  /** Every bit of `id` inside segment j is the matching bit of v, counted from
      the total width of the segments before j. */
  ghost predicate BitsMatch(id: int, v: int, segs: seq<Segment>)
  {
    forall j, i :: 0 <= j < |segs| && Covers(segs[j], i) && i >= 0 ==>
      Bit(id, i) == Bit(v, TotalBits(segs[..j]) + (i - segs[j].position))
  }

  /** Reading segments back out of an identifier whose bits inside each
      segment are the matching bits of v gives the chunks of v. */
  lemma ReadBackValue(id: int, v: int, segs: seq<Segment>)
    requires BitsMatch(id, v, segs)
    ensures ReadChunks(id, segs) == ValueChunks(segs, v)
  {
    ValueChunksLength(segs, v);
    var read := ReadChunks(id, segs);
    var want := ValueChunks(segs, v);
    forall j | 0 <= j < |segs|
      ensures read[j] == want[j]
    {
      ReadChunksAt(id, segs, j);
      ValueChunksAt(segs, v, j);
      WindowsAgree(id, v, segs[j].position, TotalBits(segs[..j]), segs[j].bits);
    }
  }

  /** Every bit of the identifier inside one of field k's segments is the
      matching bit of the field's value. */
  lemma FieldBitsInId(fields: seq<Field>, batchFieldValues: map<nat, int>, functionCode: int, k: nat)
    requires k < |fields| && fields[k].bits <= 31
    requires FieldsFit(fields, 31) && NoSharedBits(fields)
    ensures BitsMatch(ComposeId(fields, batchFieldValues, functionCode),
                      GetFieldValue(fields[k], k, batchFieldValues, functionCode),
                      SortByPosition(fields[k].segments))
  {
    var segs := SortByPosition(fields[k].segments);
    var id := ComposeId(fields, batchFieldValues, functionCode);
    var v := GetFieldValue(fields[k], k, batchFieldValues, functionCode);
    forall j, i | 0 <= j < |segs| && Covers(segs[j], i) && i >= 0
      ensures Bit(id, i) == Bit(v, TotalBits(segs[..j]) + (i - segs[j].position))
    {
      FieldBitRoundTrip(fields, batchFieldValues, functionCode, k, j, i);
    }
  }

  /** Reading field k's segments back out of the identifier gives exactly the
      chunks `distributeValueToSegments` produced for it. */
  lemma ReadBackChunks(fields: seq<Field>, batchFieldValues: map<nat, int>, functionCode: int, k: nat)
    requires k < |fields| && fields[k].bits <= 31
    requires FieldsFit(fields, 31) && NoSharedBits(fields)
    ensures ReadChunks(ComposeId(fields, batchFieldValues, functionCode), SortByPosition(fields[k].segments))
         == FieldChunks(fields, k, batchFieldValues, functionCode)
  {
    var segs := SortByPosition(fields[k].segments);
    var v := GetFieldValue(fields[k], k, batchFieldValues, functionCode);
    assert 0 <= v < TWO31 by {
      Pow2AtMost31(fields[k].bits);
    }
    SortFits(fields[k].segments, 31);
    ChunksAreValueChunks(segs, v);
    FieldBitsInId(fields, batchFieldValues, functionCode, k);
    ReadBackValue(ComposeId(fields, batchFieldValues, functionCode), v, segs);
  }

  /** Two windows of b bits that agree bit by bit hold the same value. */
  lemma WindowsAgree(x: int, y: int, p: nat, q: nat, b: nat)
    requires forall i :: p <= i < p + b && i >= 0 ==> Bit(x, i) == Bit(y, q + (i - p))
    ensures LowBits(ShiftDown(x, p), b) == LowBits(ShiftDown(y, q), b)
  {
    var got := LowBits(ShiftDown(x, p), b);
    var expected := LowBits(ShiftDown(y, q), b);
    forall t | 0 <= t < b
      ensures Bit(got, t) == Bit(expected, t)
    {
      BitOfLowBits(ShiftDown(x, p), b, t);
      BitOfShiftDown(x, p, t);
      BitOfLowBits(ShiftDown(y, q), b, t);
      BitOfShiftDown(y, q, t);
      assert Bit(x, p + t) == Bit(y, q + (p + t - p));
    }
    BitsDetermine(got, expected, b);
  }

  /** Decoding field k from the composed identifier gives back the value
      `getFieldValue` chose for it, provided the segments cover exactly the
      field's width, stay below bit 31 and share no bit with other segments. */
  lemma DecodeFieldRoundTrip(fields: seq<Field>, batchFieldValues: map<nat, int>, functionCode: int, k: nat)
    requires k < |fields| && fields[k].bits <= 31
    requires TotalBits(fields[k].segments) == fields[k].bits
    requires FieldsFit(fields, 31) && NoSharedBits(fields)
    ensures DecodeField(ComposeId(fields, batchFieldValues, functionCode), fields[k])
         == GetFieldValue(fields[k], k, batchFieldValues, functionCode)
  {
    var v := GetFieldValue(fields[k], k, batchFieldValues, functionCode);
    assert 0 <= v < TWO31 by {
      Pow2AtMost31(fields[k].bits);
    }
    ReadBackChunks(fields, batchFieldValues, functionCode, k);
    DistributeRoundTrip(fields[k].segments, v);
  }

  /** The identifier of a combination carries each batch field's combination
      value, whenever that value is within the field's width. */
  lemma CombinationRoundTrip(fields: seq<Field>, combination: Combination, functionCode: int, k: nat)
    requires k < |fields| && fields[k].bits <= 31
    requires TotalBits(fields[k].segments) == fields[k].bits
    requires FieldsFit(fields, 31) && NoSharedBits(fields)
    requires IsBatchField(fields[k]) && k in BatchValues(combination)
    requires 0 <= BatchValues(combination)[k] < Pow2(fields[k].bits)
    ensures DecodeField(ComposeId(fields, BatchValues(combination), functionCode), fields[k])
         == BatchValues(combination)[k]
  {
    DecodeFieldRoundTrip(fields, BatchValues(combination), functionCode, k);
    GetFieldValueSpec(fields[k], k, BatchValues(combination), functionCode);
  }

  // ---------------------------------------------------------------------------
  // The frame mask of the preview

  /** Chunks that all end at or below the frame width compose to an identifier
      below 2^width, which the preview's mask leaves as it is. */
  lemma PreviewMaskKeepsFittingId(fields: seq<Field>, format: FrameFormat, functionCode: int)
    requires FieldsFit(fields, MaxBits(format))
    ensures 0 <= ComposeId(fields, map[], functionCode) < Pow2(MaxBits(format))
    ensures JsAnd(ComposeId(fields, map[], functionCode), FrameMask(format)) == ComposeId(fields, map[], functionCode)
  {
    var w := MaxBits(format);
    var id := ComposeId(fields, map[], functionCode);
    Pow2Of11();
    Pow2Of29();
    ComposePrefixIsOrUpTo(fields, |fields|, map[], functionCode);
    ChunkListsFit(fields, map[], functionCode, w);
    OrUpToBits(ChunkLists(fields, |fields|, map[], functionCode), |fields|, w, 0);
    Pow2AtMost31(w);
    assert FrameMask(format) == Pow2(w) - 1;
    JsAndMask(id, w);
    LowBitsOfSmall(id, w);
  }
}
