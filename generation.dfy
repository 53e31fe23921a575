/** The generation loop of `generateBatchMessages`: every batch combination
    paired with every message template, in that nesting, each generated
    message numbered by a running message index that its naming patterns
    can show. */
module Generation {
  import opened Model
  import opened BitComposer
  import opened Naming

  /** `messageTemplate.namingPattern || namingPattern`: a template's own
      pattern, or the global one when the template has none. */
  function MessagePattern(template: MessageTemplate, namingPattern: string): string
  {
    if template.namingPattern != "" then template.namingPattern else namingPattern
  }

  /** The template's signals with their names rendered as naming patterns;
      every other attribute is copied (`{...signal, name}`). */
  function RenamedSignals(signals: seq<Signal>, fields: seq<Field>, combination: Combination, messageIndex: nat, functionCode: int)
    : (r: seq<Signal>)
    ensures |r| == |signals|
    ensures forall i :: 0 <= i < |signals| ==>
      r[i] == signals[i].(name := RenderName(signals[i].name, fields, combination, messageIndex, functionCode))
  {
    if signals == [] then []
    else
      var n := |signals| - 1;
      RenamedSignals(signals[..n], fields, combination, messageIndex, functionCode)
      + [signals[n].(name := RenderName(signals[n].name, fields, combination, messageIndex, functionCode))]
  }

  /** The message generated from one template for one combination. */
  function GeneratedFor(fields: seq<Field>, template: MessageTemplate, combination: Combination, messageIndex: nat, namingPattern: string)
    : GeneratedMessage
  {
    GeneratedMessage(
      ComposeId(fields, BatchValues(combination), template.functionCode),
      RenderName(MessagePattern(template, namingPattern), fields, combination, messageIndex, template.functionCode),
      template.length,
      template.node,
      template.description,
      RenamedSignals(template.signals, fields, combination, messageIndex, template.functionCode))
  }

  /** The order of two nested loops: every element of `outer` paired with
      every element of `inner`, the outer one varying slowest. */
  function Schedule<A, B>(outer: seq<A>, inner: seq<B>): seq<(A, B)>
  {
    if outer == [] then []
    else
      var last := outer[|outer| - 1];
      Schedule(outer[..|outer| - 1], inner) + seq(|inner|, t requires 0 <= t < |inner| => (last, inner[t]))
  }

  lemma ProductBelow(c: nat, t: nat, m: nat, size: nat)
    requires c < m && t < size
    ensures c * size + t < m * size
  {
    assert c * size + t < c * size + size == (c + 1) * size;
    assert (c + 1) * size <= m * size;
  }

  lemma RowWithin(c: nat, m: nat, size: nat)
    requires c < m
    ensures (c + 1) * size <= m * size
  {
  }

  /** Pass c of the outer loop and pass t of the inner one are step
      c·|inner| + t of the schedule. */
  lemma {:induction false} ScheduleSpec<A, B>(outer: seq<A>, inner: seq<B>)
    ensures |Schedule(outer, inner)| == |outer| * |inner|
    ensures forall c, t :: 0 <= c < |outer| && 0 <= t < |inner| ==>
      Schedule(outer, inner)[c * |inner| + t] == (outer[c], inner[t])
  {
    if outer != [] {
      var m := |outer|;
      var size := |inner|;
      var init := outer[..m - 1];
      var prefix := Schedule(init, inner);
      var row := seq(size, t requires 0 <= t < size => (outer[m - 1], inner[t]));
      ScheduleSpec(init, inner);
      assert |prefix + row| == m * size;
      forall c, t | 0 <= c < m && 0 <= t < size
        ensures (prefix + row)[c * size + t] == (outer[c], inner[t])
      {
        if c < m - 1 {
          ProductBelow(c, t, m - 1, size);
          assert init[c] == outer[c];
        } else {
          assert c * size + t == |prefix| + t;
        }
      }
    }
  }

  lemma ScheduleLength<A, B>(outer: seq<A>, inner: seq<B>)
    ensures |Schedule(outer, inner)| == |outer| * |inner|
  {
    ScheduleSpec(outer, inner);
  }

  lemma ScheduleAt<A, B>(outer: seq<A>, inner: seq<B>, c: nat, t: nat)
    requires c < |outer| && t < |inner|
    ensures c * |inner| + t < |Schedule(outer, inner)|
    ensures Schedule(outer, inner)[c * |inner| + t] == (outer[c], inner[t])
  {
    ScheduleSpec(outer, inner);
    ProductBelow(c, t, |outer|, |inner|);
  }

  /** `f` applied to each step of a schedule and its position. */
  function MapSlots<A, B, M>(slots: seq<(A, B)>, f: (A, B, nat) -> M): (r: seq<M>)
    ensures |r| == |slots|
  {
    seq(|slots|, k requires 0 <= k < |slots| => f(slots[k].0, slots[k].1, k))
  }

  lemma MapSlotsStep<A, B, M>(slots: seq<(A, B)>, f: (A, B, nat) -> M, n: nat)
    requires n < |slots|
    ensures MapSlots(slots[..n + 1], f) == MapSlots(slots[..n], f) + [f(slots[n].0, slots[n].1, n)]
  {
  }

  /** The message made at one step of the generation loop. */
  function Maker(fields: seq<Field>, namingPattern: string): (Combination, MessageTemplate, nat) -> GeneratedMessage
  {
    (combination: Combination, template: MessageTemplate, messageIndex: nat) =>
      GeneratedFor(fields, template, combination, messageIndex, namingPattern)
  }

  /** Everything one generation run produces. */
  function Generated(fields: seq<Field>, templates: seq<MessageTemplate>, combinations: seq<Combination>, namingPattern: string)
    : seq<GeneratedMessage>
  {
    MapSlots(Schedule(combinations, templates), Maker(fields, namingPattern))
  }

  /** A run holds one message per combination and template. */
  lemma GenerationSize(fields: seq<Field>, templates: seq<MessageTemplate>, combinations: seq<Combination>, namingPattern: string)
    ensures |Generated(fields, templates, combinations, namingPattern)| == |combinations| * |templates|
  {
    ScheduleLength(combinations, templates);
  }

  /** Combinations vary slowest: with T templates, message c·T + t is
      template t under combination c, and its running message index is that
      position. */
  lemma GenerationLayout(fields: seq<Field>, templates: seq<MessageTemplate>, combinations: seq<Combination>, namingPattern: string, c: nat, t: nat)
    requires c < |combinations| && t < |templates|
    ensures c * |templates| + t < |Generated(fields, templates, combinations, namingPattern)|
    ensures Generated(fields, templates, combinations, namingPattern)[c * |templates| + t]
      == GeneratedFor(fields, templates[t], combinations[c], c * |templates| + t, namingPattern)
  {
    MapScheduleAt(combinations, templates, Maker(fields, namingPattern), c, t);
  }

  lemma MapScheduleAt<A, B, M>(outer: seq<A>, inner: seq<B>, f: (A, B, nat) -> M, c: nat, t: nat)
    requires c < |outer| && t < |inner|
    ensures c * |inner| + t < |MapSlots(Schedule(outer, inner), f)|
    ensures MapSlots(Schedule(outer, inner), f)[c * |inner| + t] == f(outer[c], inner[t], c * |inner| + t)
  {
    var slots := Schedule(outer, inner);
    var k := c * |inner| + t;
    ScheduleAt(outer, inner, c, t);
    assert k < |slots| && slots[k] == (outer[c], inner[t]);
    MapSlotsAt(slots, f, k);
  }

  lemma MapSlotsAt<A, B, M>(slots: seq<(A, B)>, f: (A, B, nat) -> M, k: nat)
    requires k < |slots|
    ensures MapSlots(slots, f)[k] == f(slots[k].0, slots[k].1, k)
  {
  }

  /** The body of the inner loop: one message for one template and one
      combination. */
  method GenerateMessage(fields: seq<Field>, template: MessageTemplate, combination: Combination, messageIndex: nat, namingPattern: string)
    returns (message: GeneratedMessage)
    ensures message == GeneratedFor(fields, template, combination, messageIndex, namingPattern)
  {
    var messageId := CalculateMessageIdForCombination(fields, combination, template.functionCode);
    var messageNamingPattern := if template.namingPattern != "" then template.namingPattern else namingPattern;
    var messageName := ProcessNamingPatternForCombination(messageNamingPattern, fields, combination, messageIndex, template.functionCode);
    var signals := RenameSignals(template.signals, fields, combination, messageIndex, template.functionCode);
    message := GeneratedMessage(messageId, messageName, template.length, template.node, template.description, signals);
  }

  /** `messageTemplate.signals.map(...)`: each signal with its name rendered. */
  method RenameSignals(signals: seq<Signal>, fields: seq<Field>, combination: Combination, messageIndex: nat, functionCode: int)
    returns (renamed: seq<Signal>)
    ensures renamed == RenamedSignals(signals, fields, combination, messageIndex, functionCode)
  {
    renamed := [];
    for i := 0 to |signals|
      invariant renamed == RenamedSignals(signals[..i], fields, combination, messageIndex, functionCode)
    {
      assert signals[..i + 1][..i] == signals[..i];
      var signal := signals[i];
      var name := ProcessNamingPatternForCombination(signal.name, fields, combination, messageIndex, functionCode);
      renamed := renamed + [signal.(name := name)];
    }
    assert signals[..|signals|] == signals;
  }

  /** The two nested loops of `generateBatchMessages`: templates inside
      combinations, with the running message index. */
  method GenerateMessages(fields: seq<Field>, templates: seq<MessageTemplate>, combinations: seq<Combination>, namingPattern: string)
    returns (generated: seq<GeneratedMessage>)
    ensures generated == Generated(fields, templates, combinations, namingPattern)
  {
    var slots := Schedule(combinations, templates);
    ScheduleLength(combinations, templates);
    generated := [];
    for combinationIndex := 0 to |combinations|
      invariant combinationIndex * |templates| <= |slots|
      invariant generated == MapSlots(slots[..combinationIndex * |templates|], Maker(fields, namingPattern))
    {
      generated := GenerateForCombination(fields, templates, combinations, combinationIndex, namingPattern, generated);
    }
    assert slots[..|combinations| * |templates|] == slots;
  }

  /** One pass of the outer loop: every template under one combination,
      appended to the messages generated so far. */
  method GenerateForCombination(fields: seq<Field>, templates: seq<MessageTemplate>, combinations: seq<Combination>, combinationIndex: nat,
                                namingPattern: string, previous: seq<GeneratedMessage>)
    returns (generated: seq<GeneratedMessage>)
    requires combinationIndex < |combinations|
    requires |previous| == combinationIndex * |templates| <= |Schedule(combinations, templates)|
    requires previous == MapSlots(Schedule(combinations, templates)[..|previous|], Maker(fields, namingPattern))
    ensures (combinationIndex + 1) * |templates| <= |Schedule(combinations, templates)|
    ensures generated == MapSlots(Schedule(combinations, templates)[..(combinationIndex + 1) * |templates|], Maker(fields, namingPattern))
  {
    ScheduleLength(combinations, templates);
    RowWithin(combinationIndex, |combinations|, |templates|);
    generated := previous;
    for templateIndex := 0 to |templates|
      invariant |generated| == combinationIndex * |templates| + templateIndex
      invariant generated == MapSlots(Schedule(combinations, templates)[..|generated|], Maker(fields, namingPattern))
    {
      generated := GenerateNext(fields, templates, combinations, combinationIndex, templateIndex, namingPattern, generated);
    }
    assert |generated| == (combinationIndex + 1) * |templates| by {
      assert (combinationIndex + 1) * |templates| == combinationIndex * |templates| + |templates|;
    }
  }

  /** One pass of the inner loop: the message for one template under one
      combination, numbered by its place in the run. */
  method GenerateNext(fields: seq<Field>, templates: seq<MessageTemplate>, combinations: seq<Combination>,
                         combinationIndex: nat, templateIndex: nat, namingPattern: string, previous: seq<GeneratedMessage>)
    returns (generated: seq<GeneratedMessage>)
    requires combinationIndex < |combinations| && templateIndex < |templates|
    requires |previous| == combinationIndex * |templates| + templateIndex
    requires |previous| < |Schedule(combinations, templates)|
    requires previous == MapSlots(Schedule(combinations, templates)[..|previous|], Maker(fields, namingPattern))
    ensures generated == MapSlots(Schedule(combinations, templates)[..|previous| + 1], Maker(fields, namingPattern))
  {
    var messageIndex := |previous|;
    ScheduleAt(combinations, templates, combinationIndex, templateIndex);
    MapSlotsStep(Schedule(combinations, templates), Maker(fields, namingPattern), messageIndex);
    var message := GenerateMessage(fields, templates[templateIndex], combinations[combinationIndex], messageIndex, namingPattern);
    generated := previous + [message];
  }
}
