/** The editor's entities: identifier fields split into bit segments, message
    templates with their signals, and the messages a generation run produces. */
module Model {

  datatype Option<T> = None | Some(value: T)

  /** `FIELD_TYPES`: FIXED, BATCH, SYSTEM_MANAGED. */
  datatype FieldType = Fixed | Batch | SystemManaged

  /** `{position, bits}`: the bits [position, position + bits) of the identifier. */
  datatype Segment = Segment(position: nat, bits: nat)

  datatype BatchRange = BatchRange(min: int, max: int)

  /** A field of the identifier. The source keeps `type` next to the flags
      `usedForBatch` and `isSystemManaged` and tests them in different
      combinations, so all three are kept. An absent `systemManagedSource`
      is the empty string. */
  datatype Field = Field(
    name: string,
    abbreviation: string,
    fieldType: FieldType,
    bits: nat,
    segments: seq<Segment>,
    defaultValue: int,
    usedForBatch: bool,
    isSystemManaged: bool,
    systemManagedSource: string,
    batchRange: Option<BatchRange>)

  /** One `{field, value}` entry of a combination; the field is named by its
      index in the editor's field list (the source uses the field object). */
  datatype BatchItem = BatchItem(field: nat, value: int)

  type Combination = seq<BatchItem>

  /** A signal of a message template. Numeric attributes are integers, or None
      where the source's `parseFloat` would give NaN. */
  datatype Signal = Signal(
    name: string,
    startBit: Option<int>,
    length: Option<int>,
    byteOrder: string,
    signalType: string,
    factor: Option<int>,
    offset: Option<int>,
    min: Option<int>,
    max: Option<int>,
    unit: string,
    description: string)

  datatype MessageTemplate = MessageTemplate(
    name: string,
    length: int,
    node: string,
    functionCode: int,
    namingPattern: string,
    description: string,
    signals: seq<Signal>)

  datatype GeneratedMessage = GeneratedMessage(
    id: int,
    name: string,
    length: int,
    node: string,
    description: string,
    signals: seq<Signal>)

  datatype FrameFormat = Standard | Extended

  /** `maxBits`: 11 for standard frames, 29 for extended ones. */
  function MaxBits(format: FrameFormat): nat
  {
    if format == Standard then 11 else 29
  }

  /** The sum of the segments' bit counts (`segments.reduce((sum, seg) => sum + seg.bits, 0)`). */
  function TotalBits(segs: seq<Segment>): nat
  {
    if segs == [] then 0 else segs[0].bits + TotalBits(segs[1..])
  }

  lemma {:induction false} TotalBitsAppend(segs: seq<Segment>, extra: seq<Segment>)
    ensures TotalBits(segs + extra) == TotalBits(segs) + TotalBits(extra)
  {
    if segs != [] {
      assert (segs + extra)[1..] == segs[1..] + extra;
      TotalBitsAppend(segs[1..], extra);
    } else {
      assert segs + extra == extra;
    }
  }

  /** True when one segment ends at or before the other starts. For segments
      of at least one bit this means they share no bit; a zero-width segment
      strictly inside another is not disjoint from it. */
  predicate Disjoint(a: Segment, b: Segment)
  {
    a.position + a.bits <= b.position || b.position + b.bits <= a.position
  }

  /** True when segment s covers bit i. */
  predicate Covers(s: Segment, i: int)
  {
    s.position <= i < s.position + s.bits
  }
}
