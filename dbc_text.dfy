/** The DBC text the editor exports: the cleaning of identifiers and quoted
    strings, the integer clamp applied to numeric attributes, and the file
    content built from the generated messages (header, `BU_:` node list,
    one `BO_` block per message with its `SG_` lines, then the `CM_ SG_`
    comments). */
module DbcText {
  import opened JsBits
  import opened Model
  import opened JsText

  // ---------------------------------------------------------------------------
  // identifiers
  // ---------------------------------------------------------------------------

  /** `[a-zA-Z0-9_]` */
  predicate IsIdentChar(c: char)
  {
    'a' <= c <= 'z' || 'A' <= c <= 'Z' || '0' <= c <= '9' || c == '_'
  }

  /** `[a-zA-Z_]` */
  predicate IsIdentStart(c: char)
  {
    'a' <= c <= 'z' || 'A' <= c <= 'Z' || c == '_'
  }

  /** A DBC identifier: non-empty, made of `[A-Za-z0-9_]`, not starting with a digit. */
  predicate IsIdentifier(s: string)
  {
    |s| >= 1 && IsIdentStart(s[0]) && forall i :: 0 <= i < |s| ==> IsIdentChar(s[i])
  }

  /** `cleanDBCIdentifier`: the empty string becomes `DefaultName`; otherwise
      every character outside `[A-Za-z0-9_]` becomes `_` (the global replace),
      and then a first character that cannot start an identifier is replaced,
      not prefixed, by `_`. */
  function CleanDbcIdentifier(s: string): (r: string)
    ensures IsIdentifier(r)
    ensures s == "" ==> r == "DefaultName"
    ensures s != "" ==> |r| == |s|
    ensures s != "" ==> forall i :: 0 <= i < |s| ==>
      (r[i] == s[i] <==> IsIdentChar(s[i]) && (i > 0 || IsIdentStart(s[i])))
    ensures s != "" ==> forall i :: 0 <= i < |s| ==> r[i] == s[i] || r[i] == '_'
  {
    if s == "" then "DefaultName"
    else
      var t := seq(|s|, i requires 0 <= i < |s| => if IsIdentChar(s[i]) then s[i] else '_');
      if IsIdentStart(t[0]) then t else ['_'] + t[1..]
  }

  /** Cleaning an identifier a second time changes nothing. */
  lemma CleanDbcIdentifierIdempotent(s: string)
    ensures CleanDbcIdentifier(CleanDbcIdentifier(s)) == CleanDbcIdentifier(s)
  {
    var r := CleanDbcIdentifier(s);
    var rr := CleanDbcIdentifier(r);
    assert |rr| == |r|;
    forall i | 0 <= i < |r|
      ensures rr[i] == r[i]
    {
      assert IsIdentChar(r[i]) && (i > 0 || IsIdentStart(r[i]));
    }
  }

  // ---------------------------------------------------------------------------
  // quoted strings
  // ---------------------------------------------------------------------------

  /** `replace(/"/g, '\\"')`: a backslash before every double quote. */
  function EscapeQuotes(s: string): (r: string)
    ensures r == [] <==> s == []
    ensures r != [] ==> r[0] != '"'
  {
    if s == [] then []
    else (if s[0] == '"' then ['\\', '"'] else [s[0]]) + EscapeQuotes(s[1..])
  }

  /** Drops the backslash in front of each double quote. */
  function UnescapeQuotes(s: string): string
  {
    if s == [] then []
    else if |s| >= 2 && s[0] == '\\' && s[1] == '"' then ['"'] + UnescapeQuotes(s[2..])
    else [s[0]] + UnescapeQuotes(s[1..])
  }

  /** Escaping loses nothing: removing the added backslashes gives the text back. */
  lemma {:induction false} EscapeQuotesRoundTrip(s: string)
    ensures UnescapeQuotes(EscapeQuotes(s)) == s
  {
    if s != [] {
      EscapeQuotesRoundTrip(s[1..]);
      var e := EscapeQuotes(s);
      if s[0] == '"' {
        assert e[2..] == EscapeQuotes(s[1..]);
      } else {
        assert e[1..] == EscapeQuotes(s[1..]);
      }
      assert s == [s[0]] + s[1..];
    }
  }

  /** Every double quote of the escaped text follows a backslash, so none of
      them ends the DBC string early. */
  predicate QuotesEscaped(s: string)
  {
    forall i :: 0 <= i < |s| && s[i] == '"' ==> i > 0 && s[i - 1] == '\\'
  }

  lemma {:induction false} EscapeQuotesEscapes(s: string)
    ensures QuotesEscaped(EscapeQuotes(s))
  {
    if s != [] {
      EscapeQuotesEscapes(s[1..]);
      var e := EscapeQuotes(s);
      var head: string := if s[0] == '"' then ['\\', '"'] else [s[0]];
      var tail := EscapeQuotes(s[1..]);
      assert e == head + tail;
      forall i | 0 <= i < |e| && e[i] == '"'
        ensures i > 0 && e[i - 1] == '\\'
      {
        if i >= |head| {
          assert e[i] == tail[i - |head|];
        }
      }
    }
  }

  /** `replace(/[\r\n\t]/g, ' ')` */
  function BlankControls(s: string): (r: string)
    ensures |r| == |s|
  {
    seq(|s|, i requires 0 <= i < |s| => if s[i] == '\r' || s[i] == '\n' || s[i] == '\t' then ' ' else s[i])
  }

  predicate NoControls(s: string)
  {
    forall i :: 0 <= i < |s| ==> s[i] != '\r' && s[i] != '\n' && s[i] != '\t'
  }

  /** `cleanDBCString`: quotes escaped, carriage returns, line feeds and tabs
      turned into spaces, surrounding white space trimmed; the empty string
      stays empty. */
  function CleanDbcString(s: string): (r: string)
    ensures NoControls(r) && Free(r, '\n')
    ensures QuotesEscaped(r)
  {
    if s == "" then ""
    else
      var e := EscapeQuotes(s);
      var b := BlankControls(e);
      EscapeQuotesEscapes(s);
      BlankKeepsEscapes(e);
      TrimKeepsEscapes(b);
      TrimKeepsNoControls(b);
      Trim(b)
  }

  /** Blanking controls keeps every quote escaped, and leaves no control. */
  lemma BlankKeepsEscapes(e: string)
    requires QuotesEscaped(e)
    ensures QuotesEscaped(BlankControls(e)) && NoControls(BlankControls(e))
  {
    var b := BlankControls(e);
    forall i | 0 <= i < |b| && b[i] == '"'
      ensures i > 0 && b[i - 1] == '\\'
    {
      assert e[i] == '"';
    }
  }

  lemma TrimKeepsNoControls(b: string)
    requires NoControls(b)
    ensures NoControls(Trim(b)) && Free(Trim(b), '\n')
  {
    var t := TrimStart(b);
    assert NoControls(t);
  }

  /** Cleaning escapes exactly the text that blanking and trimming leave: the
      order of the three steps does not matter, so unescaping the result gives
      that text back and nothing else is lost. */
  lemma CleanDbcStringContent(s: string)
    ensures CleanDbcString(s) == EscapeQuotes(Trim(BlankControls(s)))
    ensures UnescapeQuotes(CleanDbcString(s)) == Trim(BlankControls(s))
  {
    if s != "" {
      var b := BlankControls(s);
      BlankThenEscape(s);
      TrimStartEscape(b);
      TrimEndEscape(TrimStart(b));
    }
    EscapeQuotesRoundTrip(Trim(BlankControls(s)));
  }

  lemma {:induction false} EscapeQuotesAppend(a: string, b: string)
    ensures EscapeQuotes(a + b) == EscapeQuotes(a) + EscapeQuotes(b)
  {
    if a == [] {
      assert a + b == b;
    } else {
      EscapeQuotesAppend(a[1..], b);
      assert (a + b)[1..] == a[1..] + b;
      var head: string := if a[0] == '"' then ['\\', '"'] else [a[0]];
      ConcatAssoc(head, EscapeQuotes(a[1..]), EscapeQuotes(b));
    }
  }

  lemma ConcatAssoc(a: string, b: string, c: string)
    ensures a + (b + c) == (a + b) + c
  {
  }

  lemma BlankControlsAppend(a: string, b: string)
    ensures BlankControls(a + b) == BlankControls(a) + BlankControls(b)
  {
    var l := BlankControls(a + b);
    var r := BlankControls(a) + BlankControls(b);
    forall i | 0 <= i < |l|
      ensures l[i] == r[i]
    {
      if i >= |a| {
        assert (a + b)[i] == b[i - |a|];
      }
    }
  }

  /** Escaping quotes and blanking controls commute: neither step touches
      the characters the other one writes. */
  lemma {:induction false} BlankThenEscape(s: string)
    ensures BlankControls(EscapeQuotes(s)) == EscapeQuotes(BlankControls(s))
  {
    if s != [] {
      var t := s[1..];
      BlankThenEscape(t);
      var head: string := if s[0] == '"' then ['\\', '"'] else [s[0]];
      BlankControlsAppend(head, EscapeQuotes(t));
      var b := BlankControls(s);
      assert b[1..] == BlankControls(t);
      var bHead: string := if b[0] == '"' then ['\\', '"'] else [b[0]];
      assert BlankControls(head) == bHead;
      assert EscapeQuotes(b) == bHead + EscapeQuotes(b[1..]);
    }
  }

  /** Trimming the front commutes with escaping: white space is never a quote,
      and an escaped quote starts with a backslash, which is not white space. */
  lemma {:induction false} TrimStartEscape(x: string)
    ensures TrimStart(EscapeQuotes(x)) == EscapeQuotes(TrimStart(x))
  {
    if x != [] {
      var e := EscapeQuotes(x);
      if IsJsSpace(x[0]) {
        assert e == [x[0]] + EscapeQuotes(x[1..]);
        assert e[1..] == EscapeQuotes(x[1..]);
        TrimStartEscape(x[1..]);
      } else {
        assert e[0] == x[0] || e[0] == '\\';
      }
    }
  }

  /** Trimming the back commutes with escaping. */
  lemma {:induction false} TrimEndEscape(x: string)
    ensures TrimEnd(EscapeQuotes(x)) == EscapeQuotes(TrimEnd(x))
  {
    if x != [] {
      var n := |x| - 1;
      var init := x[..n];
      var c := x[n];
      assert x == init + [c];
      EscapeQuotesAppend(init, [c]);
      var e := EscapeQuotes(x);
      var ec: string := if c == '"' then ['\\', '"'] else [c];
      assert EscapeQuotes([c]) == ec by {
        assert [c][1..] == [];
      }
      if IsJsSpace(c) {
        assert e[..|e| - 1] == EscapeQuotes(init);
        TrimEndEscape(init);
      } else {
        assert e[|e| - 1] == ec[|ec| - 1];
      }
    }
  }

  lemma TrimKeepsEscapes(b: string)
    requires QuotesEscaped(b)
    ensures QuotesEscaped(Trim(b))
  {
    var t := TrimStart(b);
    EscapedSuffix(b, |b| - |t|);
    EscapedPrefix(t, |TrimEnd(t)|);
  }

  /** Cutting white space off the front keeps every quote escaped: the
      backslash before a kept quote cannot have been cut. */
  lemma EscapedSuffix(b: string, k: nat)
    requires QuotesEscaped(b) && k <= |b| && (k > 0 ==> IsJsSpace(b[k - 1]))
    ensures QuotesEscaped(b[k..])
  {
    var t := b[k..];
    forall i | 0 <= i < |t| && t[i] == '"'
      ensures i > 0 && t[i - 1] == '\\'
    {
      assert b[k + i] == '"';
      assert b[k + i - 1] == '\\' && !IsJsSpace(b[k + i - 1]);
      assert i > 0;
      assert t[i - 1] == b[k + i - 1];
    }
  }

  lemma EscapedPrefix(b: string, n: nat)
    requires QuotesEscaped(b) && n <= |b|
    ensures QuotesEscaped(b[..n])
  {
  }

  predicate AllSpace(s: string)
  {
    forall i :: 0 <= i < |s| ==> IsJsSpace(s[i])
  }

  /** `trim` leaves nothing exactly when the text is all white space. */
  lemma TrimEmpty(s: string)
    ensures Trim(s) == "" <==> AllSpace(s)
  {
    var t := TrimStart(s);
    if t != [] {
      assert !IsJsSpace(t[0]);
      var r := TrimEnd(t);
    }
  }

  lemma {:induction false} EscapeQuotesSpace(s: string)
    ensures AllSpace(EscapeQuotes(s)) <==> AllSpace(s)
  {
    if s != [] {
      EscapeQuotesSpace(s[1..]);
      var e := EscapeQuotes(s);
      var head: string := if s[0] == '"' then ['\\', '"'] else [s[0]];
      var tail := EscapeQuotes(s[1..]);
      assert e == head + tail;
      assert e[0] == head[0];
      if AllSpace(s) {
        assert IsJsSpace(s[0]);
        assert AllSpace(s[1..]) by {
          forall i | 0 <= i < |s[1..]|
            ensures IsJsSpace(s[1..][i])
          {
            assert s[1..][i] == s[i + 1];
          }
        }
        forall i | 0 <= i < |e|
          ensures IsJsSpace(e[i])
        {
          if i >= |head| {
            assert e[i] == tail[i - |head|];
          }
        }
      }
      if AllSpace(e) {
        assert IsJsSpace(e[0]);
        assert AllSpace(tail) by {
          forall i | 0 <= i < |tail|
            ensures IsJsSpace(tail[i])
          {
            assert tail[i] == e[i + |head|];
          }
        }
        forall i | 0 <= i < |s|
          ensures IsJsSpace(s[i])
        {
          if i > 0 {
            assert s[i] == s[1..][i - 1];
          }
        }
      }
    }
  }

  /** A cleaned description is empty exactly when the description is blank
      (`description.trim()` is empty): a written comment is never empty, and
      no non-blank description disappears. */
  lemma CleanDbcStringEmpty(s: string)
    ensures CleanDbcString(s) == "" <==> Trim(s) == ""
  {
    TrimEmpty(s);
    if s != "" {
      var e := EscapeQuotes(s);
      var b := BlankControls(e);
      EscapeQuotesSpace(s);
      TrimEmpty(b);
      assert AllSpace(b) <==> AllSpace(e) by {
        assert forall i :: 0 <= i < |e| ==> (IsJsSpace(b[i]) <==> IsJsSpace(e[i]));
      }
    }
  }

  // ---------------------------------------------------------------------------
  // numbers
  // ---------------------------------------------------------------------------

  /** `validateNumber(value, min, max)` on integers: a value `parseFloat`
      cannot read (None) gives `min`; any other value is clamped into
      [min, max]. */
  function ValidateNumber(value: Option<int>, lo: int, hi: int): (r: int)
    ensures value.None? ==> r == lo
    ensures lo <= hi ==> lo <= r <= hi
    ensures value.Some? && lo <= hi ==> (r == value.value <==> lo <= value.value <= hi)
    ensures value.Some? && value.value < lo ==> r == lo
    ensures value.Some? && lo <= hi && value.value > hi ==> r == hi
  {
    match value
    case None => lo
    case Some(v) => Max(lo, Min(hi, v))
  }

  function Max(a: int, b: int): int
  {
    if a >= b then a else b
  }

  function Min(a: int, b: int): int
  {
    if a <= b then a else b
  }

  /** `${n}` for an integer. */
  function DecInt(n: int): (r: string)
    ensures forall i :: 0 <= i < |r| ==> r[i] == '-' || IsDigit(r[i])
    ensures |r| >= 1
  {
    if n < 0 then "-" + Dec(-n) else Dec(n)
  }

  /** The identifier written for a message: the id clamped into
      [0, 0x1FFFFFFF], then, for extended frames, `| 0x80000000` with the
      operator's 32-bit signed result. */
  function DbcMessageId(id: int, format: FrameFormat): int
  {
    var messageId := ValidateNumber(Some(id), 0, 0x1FFF_FFFF);
    if format == Extended then JsOr(messageId, 0x8000_0000) else messageId
  }

  /** A standard frame shows the clamped id. An extended frame shows it with
      bit 31 set, read as a signed 32-bit number: a negative number whose
      unsigned reading is the clamped id plus 0x80000000. */
  lemma DbcMessageIdSpec(id: int, format: FrameFormat)
    ensures var c := ValidateNumber(Some(id), 0, 0x1FFF_FFFF);
      && 0 <= c <= 0x1FFF_FFFF
      && (c == id <==> 0 <= id <= 0x1FFF_FFFF)
      && (format == Standard ==> DbcMessageId(id, format) == c)
      && (format == Extended ==> DbcMessageId(id, format) == c - TWO31 < 0)
      && (format == Extended ==> ToUint32(DbcMessageId(id, format)) == c + TWO31)
  {
    var c := ValidateNumber(Some(id), 0, 0x1FFF_FFFF);
    if format == Extended {
      JsOrBit31(c);
      UnsignedReading(c);
    }
  }

  lemma UnsignedReading(c: int)
    requires 0 <= c < TWO31
    ensures ToUint32(c - TWO31) == c + TWO31
  {
  }

  // ---------------------------------------------------------------------------
  // the file
  // ---------------------------------------------------------------------------

  /** The fixed head of the file, up to and including `BU_:`. */
  const DbcHeader: string :=
    "VERSION \"\"\n\n\nNS_ : \n"
    + "\tNS_DESC_\n\tCM_\n\tBA_DEF_\n\tBA_\n\tVAL_\n\tCAT_DEF_\n\tCAT_\n\tFILTER\n\tBA_DEF_DEF_\n"
    + "\tEV_DATA_\n\tENVVAR_DATA_\n\tSGTYPE_\n\tSGTYPE_VAL_\n\tBA_DEF_SGTYPE_\n\tSIG_VALTYPE_\n\tBA_SGTYPE_\n"
    + "\tSIG_GROUP_\n\tSIGTYPE_VALTYPE_\n\tBO_TX_BU_\n\tBA_DEF_REL_\n\tBA_REL_\n\tBA_DEF_DEF_REL_\n"
    + "\tBU_SG_REL_\n\tBU_EV_REL_\n\tBU_BO_REL_\n\tSG_MUL_VAL_\n"
    + "\nBS_:\n\nBU_:"

  /** The node `Set`, in insertion order: the cleaned node of every message
      that has one, each name once. */
  function NodeNames(messages: seq<GeneratedMessage>): seq<string>
  {
    if messages == [] then []
    else
      var names := NodeNames(messages[..|messages| - 1]);
      var last := messages[|messages| - 1];
      if last.node != "" && CleanDbcIdentifier(last.node) !in names
      then names + [CleanDbcIdentifier(last.node)]
      else names
  }

  predicate NoDuplicates(names: seq<string>)
  {
    forall i, j :: 0 <= i < j < |names| ==> names[i] != names[j]
  }

  predicate HasNode(messages: seq<GeneratedMessage>, name: string)
  {
    exists k :: 0 <= k < |messages| && messages[k].node != "" && CleanDbcIdentifier(messages[k].node) == name
  }

  /** The `BU_:` list names every node some message uses, nothing else, and
      each of them once. */
  lemma {:induction false} NodeNamesSpec(messages: seq<GeneratedMessage>)
    ensures NoDuplicates(NodeNames(messages))
    ensures forall name :: name in NodeNames(messages) <==> HasNode(messages, name)
  {
    if messages != [] {
      var init, last := messages[..|messages| - 1], messages[|messages| - 1];
      NodeNamesSpec(init);
      var names := NodeNames(init);
      if last.node != "" && CleanDbcIdentifier(last.node) !in names {
        NoDuplicatesAppend(names, CleanDbcIdentifier(last.node));
      }
      forall name
        ensures name in NodeNames(messages) <==> HasNode(messages, name)
      {
        HasNodeStep(messages, name);
      }
    }
  }

  lemma NoDuplicatesAppend(names: seq<string>, name: string)
    requires NoDuplicates(names) && name !in names
    ensures NoDuplicates(names + [name])
  {
  }

  /** A node is used by some message exactly when an earlier message or the
      last one uses it. */
  lemma HasNodeStep(messages: seq<GeneratedMessage>, name: string)
    requires messages != []
    ensures var last := messages[|messages| - 1];
            HasNode(messages, name) <==>
              HasNode(messages[..|messages| - 1], name) || (last.node != "" && CleanDbcIdentifier(last.node) == name)
  {
    var uses := (m: GeneratedMessage) => m.node != "" && CleanDbcIdentifier(m.node) == name;
    var init := messages[..|messages| - 1];
    ExistsStep(messages, init, uses);
    assert HasNode(messages, name) <==> exists k :: 0 <= k < |messages| && uses(messages[k]);
    assert HasNode(init, name) <==> exists k :: 0 <= k < |init| && uses(init[k]);
  }

  lemma ExistsStep<T>(xs: seq<T>, init: seq<T>, p: T -> bool)
    requires xs != [] && init == xs[..|xs| - 1]
    ensures (exists k :: 0 <= k < |xs| && p(xs[k])) <==>
            (exists k :: 0 <= k < |init| && p(init[k])) || p(xs[|xs| - 1])
  {
    if exists k :: 0 <= k < |xs| && p(xs[k]) {
      var k :| 0 <= k < |xs| && p(xs[k]);
      if k < |init| {
        assert init[k] == xs[k];
      }
    }
    if exists k :: 0 <= k < |init| && p(init[k]) {
      var k :| 0 <= k < |init| && p(init[k]);
      assert xs[k] == init[k];
    }
  }

  /** The text after `BU_:`: the node names separated by spaces, then a blank line. */
  function BuLine(nodeNames: seq<string>): string
  {
    if nodeNames == [] then "\n\n" else " " + Join(nodeNames, ' ') + "\n\n"
  }

  /** `BO_ <id> <name>: <length> <node>` */
  function BoLine(message: GeneratedMessage, format: FrameFormat): string
  {
    "BO_ " + DecInt(DbcMessageId(message.id, format)) + " " + CleanDbcIdentifier(message.name) + ": "
    + DecInt(ValidateNumber(Some(message.length), 1, 8)) + " " + CleanDbcIdentifier(message.node) + "\n"
  }

  /** ` SG_ <name> : <layout> <scaling> "<unit>" <node>` */
  function SgLine(signal: Signal, node: string): string
  {
    " SG_ " + CleanDbcIdentifier(signal.name) + " : " + SgLayout(signal) + " " + SgScaling(signal)
    + " \"" + CleanDbcString(signal.unit) + "\" " + node + "\n"
  }

  /** `<start>|<length>@<order><sign>`: `msb` is Motorola order (0), anything
      else Intel (1); `signed` is `-`, anything else `+`. */
  function SgLayout(signal: Signal): string
  {
    DecInt(ValidateNumber(signal.startBit, 0, 63)) + "|" + DecInt(ValidateNumber(signal.length, 1, 64))
    + "@" + (if signal.byteOrder == "msb" then "0" else "1") + (if signal.signalType == "signed" then "-" else "+")
  }

  /** `(<factor>,<offset>) [<min>|<max>]`, each clamped into [-1e10, 1e10];
      a factor that comes out as 0 is written as 1 (`|| 1`). */
  function SgScaling(signal: Signal): string
  {
    var factor := ValidateNumber(signal.factor, -10_000_000_000, 10_000_000_000);
    "(" + DecInt(if factor == 0 then 1 else factor) + ","
    + DecInt(ValidateNumber(signal.offset, -10_000_000_000, 10_000_000_000)) + ") ["
    + DecInt(ValidateNumber(signal.min, -10_000_000_000, 10_000_000_000)) + "|"
    + DecInt(ValidateNumber(signal.max, -10_000_000_000, 10_000_000_000)) + "]"
  }

  function SgLines(signals: seq<Signal>, node: string): string
  {
    if signals == [] then "" else SgLines(signals[..|signals| - 1], node) + SgLine(signals[|signals| - 1], node)
  }

  /** A message's `BO_` line, its `SG_` lines and the blank line after them. */
  function MessageBlock(message: GeneratedMessage, format: FrameFormat): string
  {
    BoLine(message, format) + SgLines(message.signals, CleanDbcIdentifier(message.node)) + "\n"
  }

  function Blocks(messages: seq<GeneratedMessage>, format: FrameFormat): string
  {
    if messages == [] then ""
    else Blocks(messages[..|messages| - 1], format) + MessageBlock(messages[|messages| - 1], format)
  }

  /** `signal.description && signal.description.trim()` */
  predicate Described(signal: Signal)
  {
    Trim(signal.description) != ""
  }

  /** `CM_ SG_ <id> <name> "<description>";` */
  function CommentLine(message: GeneratedMessage, signal: Signal, format: FrameFormat): string
  {
    "CM_ SG_ " + DecInt(DbcMessageId(message.id, format)) + " " + CleanDbcIdentifier(signal.name)
    + " \"" + CleanDbcString(signal.description) + "\";\n"
  }

  function SignalComments(message: GeneratedMessage, signals: seq<Signal>, format: FrameFormat): string
  {
    if signals == [] then ""
    else
      var last := signals[|signals| - 1];
      SignalComments(message, signals[..|signals| - 1], format)
      + (if Described(last) then CommentLine(message, last, format) else "")
  }

  function Comments(messages: seq<GeneratedMessage>, format: FrameFormat): string
  {
    if messages == [] then ""
    else
      var last := messages[|messages| - 1];
      Comments(messages[..|messages| - 1], format) + SignalComments(last, last.signals, format)
  }

  /** The whole file for a list of generated messages. */
  function DbcContent(messages: seq<GeneratedMessage>, format: FrameFormat): string
  {
    DbcHeader + BuLine(NodeNames(messages)) + Blocks(messages, format) + Comments(messages, format)
  }

  /** `generateDBCContent` over the generated messages: the header, the
      node list, the message blocks, then the signal comments. */
  method GenerateDbcContent(messages: seq<GeneratedMessage>, format: FrameFormat) returns (dbcContent: string)
    ensures dbcContent == DbcContent(messages, format)
  {
    dbcContent := DbcHeader;
    var nodeNames := CollectNodeNames(messages);
    if |nodeNames| > 0 {
      dbcContent := dbcContent + (" " + Join(nodeNames, ' ') + "\n\n");
    } else {
      dbcContent := dbcContent + "\n\n";
    }
    var blocks := WriteMessageBlocks(messages, format);
    dbcContent := dbcContent + blocks;
    var comments := WriteComments(messages, format);
    dbcContent := dbcContent + comments;
  }

  /** The node `Set` filled in message order. */
  method CollectNodeNames(messages: seq<GeneratedMessage>) returns (nodeNames: seq<string>)
    ensures nodeNames == NodeNames(messages)
  {
    nodeNames := [];
    for i := 0 to |messages|
      invariant nodeNames == NodeNames(messages[..i])
    {
      assert messages[..i + 1][..i] == messages[..i];
      if messages[i].node != "" {
        var name := CleanDbcIdentifier(messages[i].node);
        if name !in nodeNames {
          nodeNames := nodeNames + [name];
        }
      }
    }
    assert messages[..|messages|] == messages;
  }

  /** The `BO_`/`SG_` blocks, one message after the other. */
  method WriteMessageBlocks(messages: seq<GeneratedMessage>, format: FrameFormat) returns (text: string)
    ensures text == Blocks(messages, format)
  {
    text := "";
    for i := 0 to |messages|
      invariant text == Blocks(messages[..i], format)
    {
      var message := messages[i];
      var messageNode := CleanDbcIdentifier(message.node);
      var signalLines := WriteSignalLines(message.signals, messageNode);
      BlocksStep(messages, i, format);
      text := text + (BoLine(message, format) + signalLines + "\n");
    }
    assert messages[..|messages|] == messages;
  }

  /** The `SG_` lines of one message, in signal order. */
  method WriteSignalLines(signals: seq<Signal>, node: string) returns (lines: string)
    ensures lines == SgLines(signals, node)
  {
    lines := "";
    for j := 0 to |signals|
      invariant lines == SgLines(signals[..j], node)
    {
      SgLinesStep(signals, j, node);
      lines := lines + SgLine(signals[j], node);
    }
    assert signals[..|signals|] == signals;
  }

  lemma SgLinesStep(signals: seq<Signal>, j: nat, node: string)
    requires j < |signals|
    ensures SgLines(signals[..j + 1], node) == SgLines(signals[..j], node) + SgLine(signals[j], node)
  {
    assert signals[..j + 1][..j] == signals[..j];
  }

  lemma BlocksStep(messages: seq<GeneratedMessage>, i: nat, format: FrameFormat)
    requires i < |messages|
    ensures Blocks(messages[..i + 1], format) == Blocks(messages[..i], format) + MessageBlock(messages[i], format)
  {
    assert messages[..i + 1][..i] == messages[..i];
  }

  /** The `CM_ SG_` lines of every signal whose description is not blank. */
  method WriteComments(messages: seq<GeneratedMessage>, format: FrameFormat) returns (text: string)
    ensures text == Comments(messages, format)
  {
    text := "";
    for i := 0 to |messages|
      invariant text == Comments(messages[..i], format)
    {
      var message := messages[i];
      var comments := "";
      for j := 0 to |message.signals|
        invariant comments == SignalComments(message, message.signals[..j], format)
      {
        SignalCommentsStep(message, message.signals, j, format);
        var signal := message.signals[j];
        if Trim(signal.description) != "" {
          comments := comments + CommentLine(message, signal, format);
        }
      }
      assert message.signals[..|message.signals|] == message.signals;
      CommentsStep(messages, i, format);
      text := text + comments;
    }
    assert messages[..|messages|] == messages;
  }

  lemma SignalCommentsStep(message: GeneratedMessage, signals: seq<Signal>, j: nat, format: FrameFormat)
    requires j < |signals|
    ensures SignalComments(message, signals[..j + 1], format)
      == SignalComments(message, signals[..j], format) + (if Described(signals[j]) then CommentLine(message, signals[j], format) else "")
  {
    assert signals[..j + 1][..j] == signals[..j];
  }

  lemma CommentsStep(messages: seq<GeneratedMessage>, i: nat, format: FrameFormat)
    requires i < |messages|
    ensures Comments(messages[..i + 1], format) == Comments(messages[..i], format) + SignalComments(messages[i], messages[i].signals, format)
  {
    assert messages[..i + 1][..i] == messages[..i];
  }

  // ---------------------------------------------------------------------------
  // line structure
  // ---------------------------------------------------------------------------

  /** No two line feeds in a row: the text holds no blank line. */
  predicate NoBlankLine(s: string)
  {
    forall i :: 0 <= i < |s| - 1 ==> !(s[i] == '\n' && s[i + 1] == '\n')
  }

  /** Whole lines: empty, or ending with a line feed, not starting with one,
      and with no blank line. */
  predicate Lines(s: string)
  {
    s == [] || (s[|s| - 1] == '\n' && s[0] != '\n' && NoBlankLine(s))
  }

  /** One line: a non-empty text free of line feeds, then a line feed. */
  predicate OneLine(s: string)
  {
    |s| >= 2 && s[|s| - 1] == '\n' && Free(s[..|s| - 1], '\n')
  }

  lemma OneLineLines(s: string)
    requires OneLine(s)
    ensures Lines(s)
  {
    assert s[0] == s[..|s| - 1][0];
    forall i | 0 <= i < |s| - 1
      ensures !(s[i] == '\n' && s[i + 1] == '\n')
    {
      assert s[i] == s[..|s| - 1][i];
    }
  }

  lemma LinesAppend(a: string, b: string)
    requires Lines(a) && Lines(b)
    ensures Lines(a + b)
  {
    var s := a + b;
    if a != [] && b != [] {
      forall i | 0 <= i < |s| - 1
        ensures !(s[i] == '\n' && s[i + 1] == '\n')
      {
        if i + 1 < |a| {
          assert s[i] == a[i] && s[i + 1] == a[i + 1];
        } else if i + 1 == |a| {
          assert s[i + 1] == b[0];
        } else {
          assert s[i] == b[i - |a|] && s[i + 1] == b[i + 1 - |a|];
        }
      }
    } else if a == [] {
      assert s == b;
    } else {
      assert s == a;
    }
  }

  lemma BoLineOneLine(message: GeneratedMessage, format: FrameFormat)
    ensures OneLine(BoLine(message, format))
  {
    var id, name := DecInt(DbcMessageId(message.id, format)), CleanDbcIdentifier(message.name);
    var length, node := DecInt(ValidateNumber(Some(message.length), 1, 8)), CleanDbcIdentifier(message.node);
    DecIntFree(DbcMessageId(message.id, format));
    DecIntFree(ValidateNumber(Some(message.length), 1, 8));
    IdentifierFree(name);
    IdentifierFree(node);
    HeaderFree(id, name, length, node);
    WithNewline(BoLine(message, format), "BO_ " + id + " " + name + ": " + length + " " + node);
  }

  lemma HeaderFree(a: string, b: string, c: string, d: string)
    requires Free(a, '\n') && Free(b, '\n') && Free(c, '\n') && Free(d, '\n')
    ensures Free("BO_ " + a + " " + b + ": " + c + " " + d, '\n')
  {
  }

  lemma DecIntFree(n: int)
    ensures Free(DecInt(n), '\n')
  {
  }

  lemma IdentifierFree(s: string)
    requires IsIdentifier(s)
    ensures Free(s, '\n')
  {
  }

  lemma WithNewline(s: string, t: string)
    requires s == t + "\n" && t != [] && Free(t, '\n')
    ensures OneLine(s)
  {
    assert s[..|s| - 1] == t;
  }

  lemma FieldsFree(a: string, b: string, c: string, d: string, e: string)
    requires Free(a, '\n') && Free(b, '\n') && Free(c, '\n') && Free(d, '\n') && Free(e, '\n')
    ensures Free(a + "|" + b + "@" + c + d, '\n')
    ensures Free("(" + a + "," + b + ") [" + c + "|" + d + "]", '\n')
    ensures Free(" SG_ " + a + " : " + b + " " + c + " \"" + d + "\" " + e, '\n')
  {
  }

  lemma SgLayoutFree(signal: Signal)
    ensures Free(SgLayout(signal), '\n')
  {
    var start, len := ValidateNumber(signal.startBit, 0, 63), ValidateNumber(signal.length, 1, 64);
    DecIntFree(start);
    DecIntFree(len);
    var order: string := if signal.byteOrder == "msb" then "0" else "1";
    var sign: string := if signal.signalType == "signed" then "-" else "+";
    FieldsFree(DecInt(start), DecInt(len), order, sign, "");
  }

  lemma SgScalingFree(signal: Signal)
    ensures Free(SgScaling(signal), '\n')
  {
    var factor := ValidateNumber(signal.factor, -10_000_000_000, 10_000_000_000);
    var f := if factor == 0 then 1 else factor;
    var o := ValidateNumber(signal.offset, -10_000_000_000, 10_000_000_000);
    var lo := ValidateNumber(signal.min, -10_000_000_000, 10_000_000_000);
    var hi := ValidateNumber(signal.max, -10_000_000_000, 10_000_000_000);
    DecIntFree(f);
    DecIntFree(o);
    DecIntFree(lo);
    DecIntFree(hi);
    FieldsFree(DecInt(f), DecInt(o), DecInt(lo), DecInt(hi), "");
  }

  lemma SgLineOneLine(signal: Signal, node: string)
    requires IsIdentifier(node)
    ensures OneLine(SgLine(signal, node))
  {
    var name := CleanDbcIdentifier(signal.name);
    var unit := CleanDbcString(signal.unit);
    IdentifierFree(name);
    IdentifierFree(node);
    SgLayoutFree(signal);
    SgScalingFree(signal);
    FieldsFree(name, SgLayout(signal), SgScaling(signal), unit, node);
    var t := " SG_ " + name + " : " + SgLayout(signal) + " " + SgScaling(signal) + " \"" + unit + "\" " + node;
    assert SgLine(signal, node) == t + "\n";
    WithNewline(SgLine(signal, node), t);
  }

  lemma {:induction false} SgLinesLines(signals: seq<Signal>, node: string)
    requires IsIdentifier(node)
    ensures Lines(SgLines(signals, node))
  {
    if signals != [] {
      SgLinesLines(signals[..|signals| - 1], node);
      SgLineOneLine(signals[|signals| - 1], node);
      OneLineLines(SgLine(signals[|signals| - 1], node));
      LinesAppend(SgLines(signals[..|signals| - 1], node), SgLine(signals[|signals| - 1], node));
    }
  }

  /** Each message block is whole lines ending with exactly one blank line:
      it ends with two line feeds and has no other pair of them. */
  lemma MessageBlockShape(message: GeneratedMessage, format: FrameFormat)
    ensures var b := MessageBlock(message, format);
      && |b| >= 3 && b[|b| - 2] == '\n' && b[|b| - 1] == '\n' && b[0] != '\n'
      && forall i :: 0 <= i < |b| - 2 ==> !(b[i] == '\n' && b[i + 1] == '\n')
  {
    var bo := BoLine(message, format);
    var sg := SgLines(message.signals, CleanDbcIdentifier(message.node));
    BoLineOneLine(message, format);
    SgLinesLines(message.signals, CleanDbcIdentifier(message.node));
    BlockOfLines(bo, sg);
  }

  /** One line, then whole lines, then a line feed: one blank line at the end
      and nowhere else. */
  lemma BlockOfLines(bo: string, sg: string)
    requires OneLine(bo) && Lines(sg)
    ensures var b := bo + sg + "\n";
      && |b| >= 3 && b[|b| - 2] == '\n' && b[|b| - 1] == '\n' && b[0] != '\n'
      && forall i :: 0 <= i < |b| - 2 ==> !(b[i] == '\n' && b[i + 1] == '\n')
  {
    OneLineLines(bo);
    LinesAppend(bo, sg);
    BlankLineAfter(bo + sg);
  }

  /** Whole lines followed by one more line feed end with exactly one blank
      line. */
  lemma BlankLineAfter(lines: string)
    requires Lines(lines) && lines != []
    ensures var b := lines + "\n";
      && |b| >= 2 && b[|b| - 2] == '\n' && b[|b| - 1] == '\n' && b[0] != '\n'
      && forall i :: 0 <= i < |b| - 2 ==> !(b[i] == '\n' && b[i + 1] == '\n')
  {
    var b := lines + "\n";
    forall i | 0 <= i < |b| - 2
      ensures !(b[i] == '\n' && b[i + 1] == '\n')
    {
      assert b[i] == lines[i] && b[i + 1] == lines[i + 1];
    }
  }

  // ---------------------------------------------------------------------------
  // comments
  // ---------------------------------------------------------------------------

  /** The number of line feeds in a text. */
  function LineCount(s: string): nat
  {
    if s == [] then 0 else LineCount(s[..|s| - 1]) + (if s[|s| - 1] == '\n' then 1 else 0)
  }

  lemma {:induction false} LineCountAppend(a: string, b: string)
    ensures LineCount(a + b) == LineCount(a) + LineCount(b)
  {
    if b != [] {
      assert (a + b)[..|a + b| - 1] == a + b[..|b| - 1];
      LineCountAppend(a, b[..|b| - 1]);
    } else {
      assert a + b == a;
    }
  }

  lemma {:induction false} LineCountFree(s: string)
    requires Free(s, '\n')
    ensures LineCount(s) == 0
  {
    if s != [] {
      LineCountFree(s[..|s| - 1]);
    }
  }

  lemma OneLineCount(s: string)
    requires OneLine(s)
    ensures LineCount(s) == 1
  {
    LineCountFree(s[..|s| - 1]);
  }

  lemma CommentTextFree(id: string, name: string, text: string)
    requires Free(id, '\n') && Free(name, '\n') && Free(text, '\n')
    ensures Free("CM_ SG_ " + id + " " + name + " \"" + text + "\";", '\n')
  {
  }

  lemma CommentLineOneLine(message: GeneratedMessage, signal: Signal, format: FrameFormat)
    ensures OneLine(CommentLine(message, signal, format))
  {
    var id := DecInt(DbcMessageId(message.id, format));
    var name := CleanDbcIdentifier(signal.name);
    var text := CleanDbcString(signal.description);
    DecIntFree(DbcMessageId(message.id, format));
    IdentifierFree(name);
    CommentTextFree(id, name, text);
    var t := "CM_ SG_ " + id + " " + name + " \"" + text + "\";";
    assert CommentLine(message, signal, format) == t + "\n";
    WithNewline(CommentLine(message, signal, format), t);
  }

  /** The number of signals with a non-blank description. */
  function DescribedCount(signals: seq<Signal>): nat
  {
    if signals == [] then 0
    else DescribedCount(signals[..|signals| - 1]) + (if Described(signals[|signals| - 1]) then 1 else 0)
  }

  function DescribedTotal(messages: seq<GeneratedMessage>): nat
  {
    if messages == [] then 0
    else DescribedTotal(messages[..|messages| - 1]) + DescribedCount(messages[|messages| - 1].signals)
  }

  lemma {:induction false} SignalCommentsCount(message: GeneratedMessage, signals: seq<Signal>, format: FrameFormat)
    ensures LineCount(SignalComments(message, signals, format)) == DescribedCount(signals)
  {
    if signals != [] {
      var last := signals[|signals| - 1];
      SignalCommentsCount(message, signals[..|signals| - 1], format);
      var line := if Described(last) then CommentLine(message, last, format) else "";
      if Described(last) {
        CommentLineOneLine(message, last, format);
        OneLineCount(line);
      }
      LineCountAppend(SignalComments(message, signals[..|signals| - 1], format), line);
    }
  }

  /** The comment section holds one line per signal whose description is
      not blank, and no other line; the text shown in each of those lines is
      not empty. */
  lemma {:induction false} CommentsSpec(messages: seq<GeneratedMessage>, format: FrameFormat)
    ensures LineCount(Comments(messages, format)) == DescribedTotal(messages)
    ensures forall signal: Signal :: Described(signal) <==> CleanDbcString(signal.description) != ""
  {
    if messages != [] {
      var last := messages[|messages| - 1];
      CommentsSpec(messages[..|messages| - 1], format);
      SignalCommentsCount(last, last.signals, format);
      LineCountAppend(Comments(messages[..|messages| - 1], format), SignalComments(last, last.signals, format));
    }
    forall signal: Signal
      ensures Described(signal) <==> CleanDbcString(signal.description) != ""
    {
      CleanDbcStringEmpty(signal.description);
    }
  }
}
