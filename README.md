# DBC editor core, modelled in Dafny

This project models the logic of the `DBCEditor` class of a browser-based
CAN message editor. The editor lets a user split a CAN identifier (11 bits
for standard frames, 29 for extended ones) into named fields. Each field is
made of one or more bit segments. Some fields are marked as batch fields and
take every value of a range. The editor builds every combination of those
values and, for each combination and each message template, generates a
message. The message's identifier is composed from the field values, and its
name comes from a naming pattern with `{ABBR}`, `{ABBR:fmt}`, `{num}` and
`{num:fmt}` placeholders. The generated messages are written out as DBC text
(`BU_:`, `BO_`, `SG_` and `CM_ SG_` lines).

The modules follow the parts of the class:

- `JsBits` and `JsText` state JavaScript's own semantics on unbounded integers
  and `seq<char>`: the 32-bit `&`, `|`, `<<` and `>>` (through ToInt32 and
  ToUint32), `toString`, `parseInt`, `split`, `join`, `trim` and `padStart`.
- `Model` holds the entities: segments, fields, batch ranges, combinations,
  signals, message templates, generated messages and the frame format.
- `BitComposer` chooses and clamps a field's value, cuts it into one chunk per
  segment and ors the shifted chunks into the identifier. `IdDecode` proves
  that the identifier gives every field's value back.
- `Layout` models the bit-usage scans of the segment editors and of the
  conflict check, and the automatic packing of fields.
- `Editor` is the editor state as a class. Its methods update the fields in
  place, and a refused edit changes nothing. It also holds the checks and
  confirmations that come before a generation run.
- `Combinations` holds the cartesian product of the batch ranges, built by a
  push/pop recursion on a shared accumulator.
- `Generation` holds the nested combination × template loop with its running
  message index.
- `Naming` and `NamingTemplate` cover number formats, naming pattern
  validation and the chain of global replacements that renders a name.
- `DbcText` covers identifier and string cleaning, the integer clamp and the
  DBC file text.

Dialog answers (`confirm`) are boolean parameters. Input values that the page
reads as numbers are `Option<int>`, where `None` stands for `NaN`. A field
inside a combination is named by its index in the field list; the source
uses the field object itself.

## Model

| member | source | states |
|---|---|---|
| BitComposer.GetFieldValueSpec | script.js:290-322 | The value comes from the combination for a batch field listed in it, else the default value. For the field bound to `functionCode` it is the message's function code. Any other field gives its default value. In every case the value is clamped to [0, 2^bits − 1]. |
| BitComposer.GetFieldValue | script.js:290-322 | The result always lies in [0, 2^bits − 1]. |
| BitComposer.SortByPositionSpec | script.js:1756 | The segments are sorted by position: the sorted copy is a permutation of the segments, in ascending order of position. |
| BitComposer.DistributeValueToSegments | script.js:1752-1764 | The loop produces, in ascending order of position, one chunk per segment equal to `remaining & (2^bits − 1)`, and shifts `remaining` right by `bits` after each one. |
| IdDecode.DistributeRoundTrip | script.js:1752-1764 | Putting the chunks back together from low to high gives the value back, whenever the value fits in the segments' total width and every segment lies below bit 31. |
| BitComposer.CalculateMessageIdForCombination | script.js:2204-2224 | The identifier is the JavaScript `|` of every field's chunks, each shifted left to its segment position, with the batch values taken from the combination. |
| BitComposer.UpdateMessageIdPreview | script.js:1716-1748 | The preview identifier is composed without batch values and masked with `0x7FF` or `0x1FFFFFFF`, so it lies in [0, mask]. |
| IdDecode.PreviewMaskKeepsFittingId | script.js:1716-1748 | When every segment fits in the frame, the composed identifier is already below 2^maxBits, and the mask leaves it unchanged. |
| IdDecode.FieldBitRoundTrip | script.js:2204-2224 | In a layout where no bit is shared, each bit a segment covers holds the matching bit of that field's value. |
| IdDecode.ReadBackChunks | script.js:1752-1764 | Reading the segment windows of a field out of the composed identifier gives exactly the chunks that field contributed. |
| IdDecode.DecodeFieldRoundTrip | script.js:2204-2224 | Decoding a field's segments from the composed identifier gives the value `getFieldValue` chose for it. |
| IdDecode.CombinationRoundTrip | script.js:2204-2224 | For a batch field whose combination value fits its width, decoding gives that combination value. |
| Layout.FindNextAvailablePosition | script.js:721-745 | Returns the highest position where a 4-bit field meets no used bit, or 0 when there is none. |
| Layout.AddFieldAtFreePosition | script.js:721-745 | A 4-bit field placed at such a free position shares no bit with the existing fields. |
| Layout.FindFirstFreeBit | script.js:1237-1244 | Returns −1 exactly when every bit below maxBits is covered by the field's segments. Otherwise it returns the lowest uncovered bit. |
| Layout.FirstFreeIsLeast | script.js:1237-1244 | The lowest bit from which all earlier bits are covered and which is itself uncovered is the one the search finds. |
| Layout.AddSegmentKeepsDisjoint | script.js:1251 | A one-bit segment appended at the first free bit keeps the field's segments pairwise disjoint. |
| Layout.ClosedOverlapIsNotDisjoint | script.js:1190-1199 | The closed-range test of `updateSegment` rejects exactly the segments whose half-open ranges [position, position + bits) are not disjoint, for every width including zero. For segments of at least one bit, that means they share a bit. |
| Layout.CheckFieldConflicts | script.js:1671-1713 | The per-field statuses are those of a scan that marks each segment's bits in a shared usage array: out of range, conflicting (the rest of the segment then stays unmarked), or clear. |
| Layout.ConflictCheckExact | script.js:1671-1713 | Every field is clear exactly when every segment ends within the frame and no frame bit is covered twice. |
| Layout.ClearLayoutSharesNoBit | script.js:1671-1713 | A layout the check finds clear has no bit shared between fields and fits the frame. |
| Layout.SortByBitsDescendingSpec | script.js:750 | The fields are sorted widest first: the result is a permutation of the fields with non-increasing `bits`. |
| Layout.ArrangedLayoutIsClear | script.js:748-763 | When the widths add up to at most maxBits, the packed layout shares no bit and fits the frame. |
| Layout.ArrangedFieldFits | script.js:748-763 | Each packed field's single segment lies within the frame. |
| Editor.DbcEditor.constructor | script.js:3-8 | A new editor has no fields, messages or generated messages, and uses extended frames with 29 bits. |
| Editor.DbcEditor.UpdateSegment | script.js:1148-1220 | An out-of-range index is ignored. Otherwise the edit is applied exactly when the value is a number and in range, the segment ends within the frame, and it overlaps no other segment of the field. Only that segment property then changes, and `bits` is re-summed. A refused edit changes nothing. |
| Editor.SegmentEditKeepsDisjoint | script.js:1148-1220 | An accepted edit keeps the field's segments pairwise disjoint and inside the frame. |
| Editor.DbcEditor.AddSegment | script.js:1223-1259 | A one-bit segment is appended at the first free bit and `bits` is re-summed. The edit is refused, with nothing changed, exactly when no bit is free. |
| Editor.DbcEditor.RemoveSegment | script.js:1262-1287 | The segment is removed and `bits` re-summed only when the field has more than one segment, the index is valid and the user confirms. Otherwise the edit is refused or cancelled and nothing changes. |
| Editor.DbcEditor.UpdateFieldBits | script.js:848-893 | A width outside [1, maxBits] is refused, and so is a field with a segment ending beyond the frame. Otherwise `bits` is set and the segments are adjusted to it. |
| Editor.MaxEndExceeds | script.js:863-864 | The `Math.max` end test holds exactly when some segment does not fit in the frame. |
| Editor.DbcEditor.AdjustSegmentsTotalBits | script.js:1130-1145 | Only that field's segments change, to the adjusted segments. |
| Editor.AdjustedSegmentsSpec | script.js:1130-1145 | Segments whose widths already add up to `bits` come back unchanged. A lone segment takes `bits` as its width. Otherwise every segment but the last is kept, and the last takes the missing or excess width with a floor of one bit. Positions and count are kept. The widths then add up to `bits`, unless that floor applies. |
| Editor.DbcEditor.UpdateBatchFieldRange | script.js:1090-1127 | A value outside [0, 2^bits − 1] is refused. Otherwise the named bound is set, a missing range starts as [0, 2^bits − 1], and the other bound follows when the two would cross. |
| Editor.RangeAfterEdit | script.js:1090-1127 | The start range is the stored range, or 0 to the field maximum when there is none. The edited bound takes the value. The other bound stays as it was, unless the value crosses it; then it also takes the value. |
| Editor.DbcEditor.AutoArrangeFields | script.js:748-763 | The fields become the widest-first order, each with one segment packed downwards from the top of the frame. |
| Editor.CheckBatchRequest | script.js:2797-2853 | Decides the run's outcome as the gates do, in their order, and returns the combinations a run will use. |
| Editor.BatchOutcomeApplied | script.js:2797-2853 | A run that goes ahead has a conflict-free layout, a valid naming pattern and at least one message to generate. It generates at most 100 messages unless the large run was confirmed. With both dialogs confirmed a run is never cancelled. |
| Editor.DbcEditor.GenerateBatchMessages | script.js:2797-2888 | The generated messages are replaced only when the run goes ahead, and then by the messages for every combination × template. Nothing else changes. |
| Combinations.BatchFieldIndexes | script.js:2814 | Lists exactly the batch fields, in declared order. |
| Combinations.RangeValues | script.js:2159-2163 | Returns the integers from min to max in order. |
| Combinations.CombinationBuilder.Generate | script.js:2173-2190 | Appends the current prefix extended by every combination of the remaining ranges, and leaves the shared combination as it found it. |
| Combinations.GenerateFieldCombinations | script.js:2152-2196 | Returns `[]` for no batch fields, otherwise the product of the ranges. |
| Combinations.CombinationCount | script.js:2152-2196 | There are no combinations for no batch fields; otherwise there are Π(max − min + 1) of them. |
| Combinations.CombinationsOrdered | script.js:2152-2196 | Each combination lists the batch fields in declared order, with a value from each range. The combinations are in strictly ascending lexicographic order, first field slowest. |
| Generation.GenerationSize | script.js:2855-2884 | A run generates \|combinations\| × \|templates\| messages. |
| Generation.GenerationLayout | script.js:2855-2884 | Message c·\|templates\| + t is template t's message for combination c, numbered with that running index. |
| Generation.GenerateMessages | script.js:2855-2884 | The nested loops produce exactly the messages of the schedule. |
| Generation.GenerateMessage | script.js:2861-2879 | One message takes the composed identifier, the template's pattern or else the global one, the template's length, node and description, and its signals renamed. |
| Generation.RenameSignals | script.js:2875-2878 | Each signal keeps every attribute except its name, which is rendered as a naming pattern. |
| Generation.ScheduleSpec | script.js:2859-2860 | The combination × template order holds \|outer\| × \|inner\| pairs, and pair c·\|inner\| + t is (outer[c], inner[t]). |
| Naming.SplitFormatSpec | script.js:1778-1800 | The chosen prefix, number format and suffix put back together with colons give the format. They follow the three-part rule and the two-part `^\d*[do]?$` rule. |
| Naming.FormattedNumberSpec | script.js:1809-1824 | `<L>d<T>` renders digits, left-padded with '0' to at least L characters and followed by T zeros, that read as value × 10^T. |
| Naming.NumberFormatOf | script.js:1803-1810 | `<digits>d<digits>` is read as the two digit counts. |
| Naming.ValidateNumberFormat | script.js:2020-2057 | The format is valid exactly when the part its rules pick matches `^(\d*)(d)(\d*)$`, and an error names that part. |
| Naming.SamePartChecked | script.js:2020-2057 | Validation and formatting (script.js line 1791) look at the same part unless the two split rules disagree. A validated format is then rendered with a valid number format. |
| Naming.FormatRulesDisagree | script.js:1789-1806 | The format `x:3d2` passes validation (script.js line 2040) but is rendered as `prefix + value + suffix` ("73d2"). |
| Naming.ValidateNamingPatternSpec | script.js:1951-2013 | An empty pattern is invalid with one error. Otherwise the pattern is valid exactly when every placeholder names `num` or a declared abbreviation and every format is valid. Known and unknown placeholders together account for all of them. A warning says exactly when there are no placeholders or surrounding white space. `isValid` holds exactly when there are no errors. |
| Naming.ProcessNamingPatternForCombination | script.js:2234-2295 | The loop over fields performs the `{num}` replacement, then each field's extended and simple replacement, in that order. |
| Naming.RenderNamePlain | script.js:2234-2295 | An empty pattern gives `Message_<index>`. A pattern without `{` is returned unchanged. |
| Naming.NamingValue | script.js:2266-2281 | The value a placeholder shows lies below 2^bits. |
| Naming.NamingValueSpec | script.js:2266-2281 | A batch field listed in the combination shows its combination value. Otherwise the field named "功能码" shows the function code, and any other field its configured value. Each is clamped to [0, 2^bits − 1]. |
| Naming.NamingValueMatchesId | script.js:2266-2281 | A name and the identifier show the same value in three cases: a batch field listed in the combination, a plain field neither named nor bound as the function code, and a function-code field recognised both by name and by `systemManagedSource`. |
| Naming.FunctionCodeRecognisedByName | script.js:2270 | Naming recognises the function-code field by its name, and `getFieldValue` by `systemManagedSource` (script.js line 306). So a fixed field named "功能码" with default value 1 shows the function code 5 in names, while the identifier carries 1. |
| NamingTemplate.TemplateRendering | script.js:2234-2295 | For a pattern made of literal text and well-formed placeholders, the replacement chain renders each placeholder on its own and keeps the text. |
| DbcText.CleanDbcIdentifier | script.js:2967-2971 | An empty name gives `DefaultName`. Otherwise the result is an identifier of the same length where exactly the disallowed characters become `_`, and so does a leading digit. |
| DbcText.CleanDbcIdentifierIdempotent | script.js:2967-2971 | Cleaning twice is cleaning once. |
| DbcText.CleanDbcString | script.js:2974-2978 | The result holds no carriage return, line feed or tab, and every quote in it is escaped. |
| DbcText.CleanDbcStringContent | script.js:2974-2978 | The result is the input with controls blanked and white space trimmed, then quote-escaped: the three steps commute. Unescaping the result gives exactly the blanked and trimmed text, so no other character is lost. |
| DbcText.EscapeQuotesRoundTrip | script.js:2977 | Unescaping the escaped quotes gives the string back. |
| DbcText.CleanDbcStringEmpty | script.js:2974-2978 | The cleaned string is empty exactly when the trimmed input is. |
| DbcText.ValidateNumber | script.js:2981-2985 | NaN gives the lower bound. A number inside the bounds is kept, and one outside is clamped to the nearer bound. |
| DbcText.DbcMessageIdSpec | script.js:3043-3048 | The printed id is the id clamped to [0, 0x1FFFFFFF]. In extended mode the `\| 0x80000000` makes it negative, namely that value − 2^31, whose unsigned reading is the value + 2^31. |
| JsBits.JsOrBit31 | script.js:3047 | Or-ing bit 31 into a 31-bit value yields the value − 2^31. |
| DbcText.NodeNamesSpec | script.js:3027-3032 | The `BU_:` list has no duplicates and names exactly the cleaned nodes of the messages that have one. |
| DbcText.GenerateDbcContent | script.js:2988-3100 | The loops write the header, the node list, every message block and every comment line, in that order. |
| DbcText.MessageBlockShape | script.js:3054-3076 | Each message block ends with exactly one blank line and holds no other. |
| DbcText.CommentsSpec | script.js:3080-3097 | There is one `CM_ SG_` line per signal whose trimmed description is non-empty. |
| JsText.DecRoundTrip | script.js:1809-1812 | `parseInt` of a `toString` gives the number back. |
| JsText.SplitJoin | script.js:1778 | Joining the pieces of `split(':')` with ':' gives the string back. |
| JsText.TrimUnchanged | script.js:1966 | `trim` changes a string exactly when it starts or ends with white space. |

## Left out

- Rendering and events: the DOM, the bitmap views, the legends, `alert`, `console.log` and `previewDBC`. The generation run's final alert and preview are left out too.
- `exportDBC` (Blob, download link, timestamp) is file I/O.
- The DOM error-marker gate at the start of `generateBatchMessages` reads CSS classes. The model uses its own conflict check over the fields instead.
- A fixed field's value for naming is read from the page input `field_<index>`. The model uses the field's `defaultValue`, which is what the page writes into that input.
- The legacy channel-based paths `processNamingPattern`, `calculateMessageIdForChannel` and `calculateMessageId` are not modelled. Neither is the `getAllCurrentMessages` fallback in `generateDBCContent`: the DBC text is built from the generated messages.
- `updateFieldBatchRange`, `updateFieldDefaultValue`, field and message addition and removal, and the signal editors that read the page are not modelled.
- `updateField` is modelled only for `bits`. The other properties are plain assignments, and the name check is a UI message.
- Floating point: signal factor, offset, min and max are integers or `None` (NaN). `validateNumber` is modelled on integers. NaN gives the lower bound −10000000000, which is truthy, so the `\|\| 1` fallback turns only a factor of 0 into 1, and the `\|\| 0` fallbacks change nothing.
- `parseInt` of very long digit strings loses precision in JavaScript. The model reads exact integers.
- Strings are sequences of Unicode scalar values, not UTF-16 code units.
- Abbreviations containing regular-expression metacharacters are not modelled. The replacement chain treats an abbreviation as plain text.
- NamingTemplate.TemplateRendering: proved only for patterns of literal text without `{` and placeholders whose formats hold no brace and whose abbreviations hold no brace or colon. For other patterns the model still computes the chain but states nothing about it.
- IdDecode.DistributeRoundTrip: proved for segments and values below bit 31. Above that, JavaScript's signed 32-bit operators change the value.
- Naming.FormatNumber: takes non-negative values only. The values it receives are clamped field values and message indexes.
- Editor.DbcEditor.AutoArrangeFields: builds a new sequence of fields and assigns it, so it does not capture the in-place mutation of shared field objects (aliasing).
