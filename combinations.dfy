/** The batch combinations of `generateFieldCombinations`: every batch field
    takes each value of its range, and the combinations are the cartesian
    product of those ranges, built by a recursion that pushes and pops entries
    on one shared combination. */
module Combinations {
  import opened JsBits
  import opened Model

  /** A batch field (by index) with the values it takes, in order. */
  datatype FieldRange = FieldRange(field: nat, values: seq<int>)

  /** The indexes of the fields marked `usedForBatch`, in declared order (the
      filter of `generateBatchMessages`; the field type is not consulted). */
  function BatchFieldIndexes(fields: seq<Field>): (r: seq<nat>)
    ensures forall k :: 0 <= k < |r| ==> r[k] < |fields| && fields[r[k]].usedForBatch
    ensures forall i :: 0 <= i < |fields| && fields[i].usedForBatch ==> i in r
    ensures forall a, b :: 0 <= a < b < |r| ==> r[a] < r[b]
  {
    if fields == [] then []
    else
      var n := |fields| - 1;
      BatchFieldIndexes(fields[..n]) + (if fields[n].usedForBatch then [n] else [])
  }

  /** The integers lo, lo + 1, ..., hi; empty when hi < lo. */
  function IntsFrom(lo: int, hi: int): (r: seq<int>)
    decreases hi - lo
    ensures |r| == if hi < lo then 0 else hi - lo + 1
    ensures forall k :: 0 <= k < |r| ==> r[k] == lo + k
  {
    if lo > hi then [] else [lo] + IntsFrom(lo + 1, hi)
  }

  /** A field's batch range, or [0, 2^bits - 1] when it has none. */
  function RangeOf(f: Field): BatchRange
  {
    if f.batchRange.Some? then f.batchRange.value else BatchRange(0, Pow2(f.bits) - 1)
  }

  /** The number of values in a range. */
  function RangeSize(r: BatchRange): nat
  {
    if r.max < r.min then 0 else r.max - r.min + 1
  }

  /** The `fieldRanges` of `generateFieldCombinations` for the given batch fields. */
  function RangesOf(fields: seq<Field>, batch: seq<nat>): (r: seq<FieldRange>)
    requires forall k :: 0 <= k < |batch| ==> batch[k] < |fields|
    ensures |r| == |batch|
  {
    seq(|batch|, k requires 0 <= k < |batch| =>
      FieldRange(batch[k], IntsFrom(RangeOf(fields[batch[k]]).min, RangeOf(fields[batch[k]]).max)))
  }

  /** Each combination of cs with `prefix` in front. */
  function Extend(prefix: Combination, cs: seq<Combination>): (r: seq<Combination>)
    ensures |r| == |cs|
  {
    seq(|cs|, k requires 0 <= k < |cs| => prefix + cs[k])
  }

  /** For each value of `values` in turn, the field with that value in front of
      every combination of `rest`. */
  function ProductOver(field: nat, values: seq<int>, rest: seq<Combination>): seq<Combination>
  {
    if values == [] then []
    else
      var n := |values| - 1;
      ProductOver(field, values[..n], rest) + Extend([BatchItem(field, values[n])], rest)
  }

  /** The cartesian product of the ranges, first range varying slowest. */
  function Product(ranges: seq<FieldRange>): seq<Combination>
  {
    if ranges == [] then [[]]
    else ProductOver(ranges[0].field, ranges[0].values, Product(ranges[1..]))
  }

  /** What `generateFieldCombinations` returns for the given ranges. */
  function FieldCombinations(ranges: seq<FieldRange>): seq<Combination>
  {
    if ranges == [] then [] else Product(ranges)
  }

  // ---------------------------------------------------------------------------
  // The imperative builder
  // ---------------------------------------------------------------------------

  /** `for (let value = range.min; value <= range.max; value++) values.push(value)`. */
  method RangeValues(range: BatchRange) returns (values: seq<int>)
    ensures values == IntsFrom(range.min, range.max)
  {
    values := [];
    var value := range.min;
    while value <= range.max
      invariant range.min <= value && (value <= range.max + 1 || value == range.min)
      invariant |values| == value - range.min
      invariant forall k :: 0 <= k < |values| ==> values[k] == range.min + k
      decreases range.max - value
    {
      values := values + [value];
      value := value + 1;
    }
  }

  /** The `batchFields.map(...)` that builds the field ranges. */
  method FieldRanges(fields: seq<Field>, batch: seq<nat>) returns (ranges: seq<FieldRange>)
    requires forall k :: 0 <= k < |batch| ==> batch[k] < |fields|
    ensures ranges == RangesOf(fields, batch)
  {
    ranges := [];
    for k := 0 to |batch|
      invariant ranges == RangesOf(fields, batch[..k])
    {
      var field := fields[batch[k]];
      var range := RangeOf(field);
      var values := RangeValues(range);
      ranges := ranges + [FieldRange(batch[k], values)];
      assert batch[..k + 1][..k] == batch[..k];
    }
    assert batch[..|batch|] == batch;
  }

  lemma ExtendAppend(prefix: Combination, a: seq<Combination>, b: seq<Combination>)
    ensures Extend(prefix, a + b) == Extend(prefix, a) + Extend(prefix, b)
  {
  }

  lemma ExtendTwice(p: Combination, q: Combination, cs: seq<Combination>)
    ensures Extend(p, Extend(q, cs)) == Extend(p + q, cs)
  {
    forall k | 0 <= k < |cs|
      ensures Extend(p, Extend(q, cs))[k] == Extend(p + q, cs)[k]
    {
      assert p + (q + cs[k]) == (p + q) + cs[k];
    }
  }

  lemma ExtendEmpty(prefix: Combination)
    ensures Extend(prefix, Product([])) == [prefix]
  {
    assert Extend(prefix, [[]])[0] == prefix + [] == prefix;
  }

  /** One more value of the first range: the combinations it starts, with
      the prefix in front, follow the earlier ones. */
  lemma ProductOverStep(prefix: Combination, field: nat, values: seq<int>, i: nat, rest: seq<Combination>)
    requires i < |values|
    ensures Extend(prefix, ProductOver(field, values[..i + 1], rest))
            == Extend(prefix, ProductOver(field, values[..i], rest)) + Extend(prefix + [BatchItem(field, values[i])], rest)
  {
    var item := BatchItem(field, values[i]);
    assert values[..i + 1][..i] == values[..i];
    ExtendAppend(prefix, ProductOver(field, values[..i], rest), Extend([item], rest));
    ExtendTwice(prefix, [item], rest);
  }

  /** The shared state of the recursion: the combination being built and the
      combinations collected so far. */
  class CombinationBuilder {
    var current: Combination
    var combinations: seq<Combination>

    constructor ()
      ensures current == [] && combinations == []
    {
      current := [];
      combinations := [];
    }

    /** The inner `generateCombinations`: appends a copy of `current` extended
        by every combination of the remaining ranges, and leaves `current` as
        it found it (every push is matched by a pop). */
    method Generate(remaining: seq<FieldRange>)
      modifies this
      decreases |remaining|
      ensures current == old(current)
      ensures combinations == old(combinations) + Extend(old(current), Product(remaining))
    {
      if remaining == [] {
        combinations := combinations + [current];
        ExtendEmpty(current);
        return;
      }
      var currentRange := remaining[0];
      var restRanges := remaining[1..];
      var field := currentRange.field;
      var values := currentRange.values;
      ghost var rest := Product(restRanges);
      for i := 0 to |values|
        invariant current == old(current)
        invariant combinations == old(combinations) + Extend(old(current), ProductOver(field, values[..i], rest))
      {
        var item := BatchItem(field, values[i]);
        current := current + [item];
        Generate(restRanges);
        current := current[..|current| - 1];
        ProductOverStep(old(current), field, values, i, rest);
      }
      assert values[..|values|] == values;
    }
  }

  /** `generateFieldCombinations`. */
  method GenerateFieldCombinations(fields: seq<Field>, batch: seq<nat>) returns (combinations: seq<Combination>)
    requires forall k :: 0 <= k < |batch| ==> batch[k] < |fields|
    ensures combinations == FieldCombinations(RangesOf(fields, batch))
  {
    if |batch| == 0 {
      return [];
    }
    var fieldRanges := FieldRanges(fields, batch);
    var builder := new CombinationBuilder();
    builder.Generate(fieldRanges);
    combinations := builder.combinations;
    ghost var all := Product(fieldRanges);
    forall k | 0 <= k < |all|
      ensures Extend([], all)[k] == all[k]
    {
      assert [] + all[k] == all[k];
    }
    assert Extend([], all) == all;
  }

  // ---------------------------------------------------------------------------
  // Properties of the product
  // ---------------------------------------------------------------------------

  /** The product of the range sizes. */
  function SizeProduct(ranges: seq<FieldRange>): nat
  {
    if ranges == [] then 1 else |ranges[0].values| * SizeProduct(ranges[1..])
  }

  lemma {:induction false} ProductOverLength(field: nat, values: seq<int>, rest: seq<Combination>)
    ensures |ProductOver(field, values, rest)| == |values| * |rest|
  {
    if values != [] {
      var n := |values| - 1;
      ProductOverLength(field, values[..n], rest);
      assert |values| * |rest| == n * |rest| + |rest|;
    }
  }

  lemma {:induction false} ProductLength(ranges: seq<FieldRange>)
    ensures |Product(ranges)| == SizeProduct(ranges)
  {
    if ranges != [] {
      ProductLength(ranges[1..]);
      ProductOverLength(ranges[0].field, ranges[0].values, Product(ranges[1..]));
    }
  }

  /** The number of combinations: none for no batch field, otherwise the
      product of the sizes of the fields' ranges (zero when a range is empty). */
  lemma CombinationCount(fields: seq<Field>, batch: seq<nat>)
    requires forall k :: 0 <= k < |batch| ==> batch[k] < |fields|
    ensures batch == [] ==> FieldCombinations(RangesOf(fields, batch)) == []
    ensures batch != [] ==> |FieldCombinations(RangesOf(fields, batch))| == RangeSizes(fields, batch)
  {
    var ranges := RangesOf(fields, batch);
    if batch != [] {
      ProductLength(ranges);
      SizeProductOfRanges(fields, batch);
    }
  }

  /** The product of RangeSize over the batch fields' ranges. */
  function RangeSizes(fields: seq<Field>, batch: seq<nat>): nat
    requires forall k :: 0 <= k < |batch| ==> batch[k] < |fields|
  {
    if batch == [] then 1 else RangeSize(RangeOf(fields[batch[0]])) * RangeSizes(fields, batch[1..])
  }

  lemma {:induction false} SizeProductOfRanges(fields: seq<Field>, batch: seq<nat>)
    requires forall k :: 0 <= k < |batch| ==> batch[k] < |fields|
    ensures SizeProduct(RangesOf(fields, batch)) == RangeSizes(fields, batch)
  {
    if batch != [] {
      SizeProductOfRanges(fields, batch[1..]);
      assert RangesOf(fields, batch)[1..] == RangesOf(fields, batch[1..]);
    }
  }

  /** c lists one entry per range, for that range's field, with a value from it. */
  ghost predicate Follows(c: Combination, ranges: seq<FieldRange>)
  {
    && |c| == |ranges|
    && forall j :: 0 <= j < |c| ==> c[j].field == ranges[j].field && c[j].value in ranges[j].values
  }

  lemma {:induction false} ProductOverElements(field: nat, values: seq<int>, rest: seq<Combination>)
    ensures forall a :: 0 <= a < |ProductOver(field, values, rest)| ==>
              var c := ProductOver(field, values, rest)[a];
              |c| >= 1 && c[0].field == field && c[0].value in values && c[1..] in rest
  {
    if values != [] {
      var n := |values| - 1;
      ProductOverElements(field, values[..n], rest);
      var p := ProductOver(field, values[..n], rest);
      var e := Extend([BatchItem(field, values[n])], rest);
      forall a | 0 <= a < |p + e|
        ensures var c: Combination := (p + e)[a];
                |c| >= 1 && c[0].field == field && c[0].value in values && c[1..] in rest
      {
        if a < |p| {
          assert (p + e)[a] == p[a];
          assert p[a][0].value in values[..n];
        } else {
          var c := (p + e)[a];
          assert c == [BatchItem(field, values[n])] + rest[a - |p|];
          assert c[1..] == rest[a - |p|];
        }
      }
    }
  }

  /** Every combination lists the batch fields in declared order, each with a
      value from its range. */
  lemma {:induction false} ProductFollows(ranges: seq<FieldRange>)
    ensures forall a :: 0 <= a < |Product(ranges)| ==> Follows(Product(ranges)[a], ranges)
  {
    if ranges != [] {
      ProductFollows(ranges[1..]);
      var rest := Product(ranges[1..]);
      ProductOverElements(ranges[0].field, ranges[0].values, rest);
      forall a | 0 <= a < |Product(ranges)|
        ensures Follows(Product(ranges)[a], ranges)
      {
        var c := Product(ranges)[a];
        var b :| 0 <= b < |rest| && c[1..] == rest[b];
        assert Follows(rest[b], ranges[1..]);
        forall j | 0 <= j < |c|
          ensures c[j].field == ranges[j].field && c[j].value in ranges[j].values
        {
          if j > 0 {
            assert c[j] == rest[b][j - 1];
          }
        }
      }
    }
  }

  /** Lexicographic order on the values of two combinations. */
  predicate LexLess(c: Combination, d: Combination)
  {
    && |c| > 0 && |d| > 0
    && (c[0].value < d[0].value || (c[0].value == d[0].value && LexLess(c[1..], d[1..])))
  }

  ghost predicate LexSorted(cs: seq<Combination>)
  {
    forall a, b :: 0 <= a < b < |cs| ==> LexLess(cs[a], cs[b])
  }

  ghost predicate Increasing(values: seq<int>)
  {
    forall a, b :: 0 <= a < b < |values| ==> values[a] < values[b]
  }

  lemma ExtendSorted(item: BatchItem, rest: seq<Combination>)
    requires LexSorted(rest)
    ensures LexSorted(Extend([item], rest))
  {
    var e := Extend([item], rest);
    forall a, b | 0 <= a < b < |e|
      ensures LexLess(e[a], e[b])
    {
      assert e[a][1..] == rest[a];
      assert e[b][1..] == rest[b];
    }
  }

  lemma {:induction false} ProductOverSorted(field: nat, values: seq<int>, rest: seq<Combination>)
    requires Increasing(values) && LexSorted(rest)
    ensures LexSorted(ProductOver(field, values, rest))
  {
    if values != [] {
      var n := |values| - 1;
      ProductOverSorted(field, values[..n], rest);
      ProductOverElements(field, values[..n], rest);
      ExtendSorted(BatchItem(field, values[n]), rest);
      var p := ProductOver(field, values[..n], rest);
      var e := Extend([BatchItem(field, values[n])], rest);
      forall a, b | 0 <= a < b < |p + e|
        ensures LexLess((p + e)[a], (p + e)[b])
      {
        if b < |p| {
          assert (p + e)[a] == p[a] && (p + e)[b] == p[b];
        } else if a >= |p| {
          assert (p + e)[a] == e[a - |p|] && (p + e)[b] == e[b - |p|];
        } else {
          assert (p + e)[a] == p[a] && (p + e)[b] == e[b - |p|];
          assert p[a][0].value in values[..n];
          assert e[b - |p|][0].value == values[n];
        }
      }
    }
  }

  /** The combinations come in strictly ascending lexicographic order of their
      values, the first batch field varying slowest, when every range lists
      its values in ascending order. */
  lemma {:induction false} ProductSorted(ranges: seq<FieldRange>)
    requires forall j :: 0 <= j < |ranges| ==> Increasing(ranges[j].values)
    ensures LexSorted(Product(ranges))
  {
    if ranges != [] {
      ProductSorted(ranges[1..]);
      ProductOverSorted(ranges[0].field, ranges[0].values, Product(ranges[1..]));
    }
  }

  /** The combinations of `generateFieldCombinations` for the editor's batch
      fields: each follows the batch fields in declared order with values from
      their ranges, and they are strictly ascending. */
  lemma CombinationsOrdered(fields: seq<Field>, batch: seq<nat>)
    requires forall k :: 0 <= k < |batch| ==> batch[k] < |fields|
    ensures var cs := FieldCombinations(RangesOf(fields, batch));
            && LexSorted(cs)
            && forall a :: 0 <= a < |cs| ==> Follows(cs[a], RangesOf(fields, batch))
  {
    var ranges := RangesOf(fields, batch);
    if batch != [] {
      ProductFollows(ranges);
      ProductSorted(ranges);
    }
  }
}
