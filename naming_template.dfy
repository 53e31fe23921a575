/** What the chain of global replacements in
    `processNamingPatternForCombination` amounts to: for a pattern written as
    literal text and well-formed placeholders, each placeholder is replaced by
    its own rendering and the text is kept, exactly as if the pieces were
    rendered one by one. */
module NamingTemplate {
  import opened Model
  import opened JsText
  import opened BitComposer
  import opened Naming

  /** A piece of a naming pattern: literal text, `{num}` / `{num:fmt}`, or
      `{ABBR}` / `{ABBR:fmt}`. */
  datatype Piece = Text(text: string) | IndexRef(format: Option<string>) | FieldRef(abbr: string, format: Option<string>)

  /** What follows a placeholder's name: `}` or `:fmt}`. */
  function Tail(format: Option<string>): (r: string)
    ensures |r| >= 1 && (r[0] == '}' || r[0] == ':')
    ensures format.None? <==> r[0] == '}'
  {
    if format.None? then "}" else ":" + format.value + "}"
  }

  function PlaceholderText(name: string, format: Option<string>): string
  {
    "{" + name + Tail(format)
  }

  function Source(p: Piece): string
  {
    match p
    case Text(t) => t
    case IndexRef(fmt) => PlaceholderText("num", fmt)
    case FieldRef(a, fmt) => PlaceholderText(a, fmt)
  }

  /** The pattern the pieces spell. */
  function PatternOf(ps: seq<Piece>): string
  {
    if ps == [] then "" else Source(ps[0]) + PatternOf(ps[1..])
  }

  /** A name that cannot run into a neighbouring delimiter. */
  predicate PlainName(a: string)
  {
    a != "" && Free(a, '{') && Free(a, '}') && Free(a, ':')
  }

  predicate FormatOk(format: Option<string>)
  {
    format.Some? ==> |format.value| >= 1 && Free(format.value, '{') && Free(format.value, '}')
  }

  /** The index of the first field with abbreviation a, or |fields|. */
  function FirstWith(fields: seq<Field>, a: string): (r: nat)
    ensures r <= |fields|
    ensures r < |fields| ==> fields[r].abbreviation == a
    ensures forall j :: 0 <= j < r ==> fields[j].abbreviation != a
  {
    if fields == [] then 0
    else if fields[0].abbreviation == a then 0
    else 1 + FirstWith(fields[1..], a)
  }

  predicate PieceOk(p: Piece, fields: seq<Field>)
  {
    match p
    case Text(t) => Free(t, '{')
    case IndexRef(fmt) => FormatOk(fmt)
    case FieldRef(a, fmt) => PlainName(a) && a != "num" && FirstWith(fields, a) < |fields| && FormatOk(fmt)
  }

  /** Literal text holds no '{'; formats are non-empty and hold no brace; a
      field placeholder names a field's abbreviation other than "num"; and no
      field abbreviation holds a brace or a colon. */
  ghost predicate WellFormed(ps: seq<Piece>, fields: seq<Field>)
  {
    && (forall k :: 0 <= k < |fields| && fields[k].abbreviation != "" ==> PlainName(fields[k].abbreviation))
    && (forall i :: 0 <= i < |ps| ==> PieceOk(ps[i], fields))
  }

  /** What a name is rendered from: the fields, the batch values, the function
      code and the message index. */
  datatype Context = Context(fields: seq<Field>, values: map<nat, int>, functionCode: int, index: nat)

  function Rendered(v: nat, format: Option<string>): string
  {
    if format.None? then Dec(v) else FormatNumber(v, format.value)
  }

  function FieldValue(c: Context, a: string): nat
    requires FirstWith(c.fields, a) < |c.fields|
  {
    var j := FirstWith(c.fields, a);
    NamingValue(c.fields[j], j, c.values, c.functionCode)
  }

  /** A piece rendered on its own. */
  function RenderPiece(p: Piece, c: Context): string
  {
    match p
    case Text(t) => t
    case IndexRef(fmt) => Rendered(c.index, fmt)
    case FieldRef(a, fmt) => if FirstWith(c.fields, a) < |c.fields| then Rendered(FieldValue(c, a), fmt) else Source(p)
  }

  /** The pieces rendered one by one and concatenated. */
  function Render(ps: seq<Piece>, c: Context): string
  {
    if ps == [] then "" else RenderPiece(ps[0], c) + Render(ps[1..], c)
  }

  // ---------------------------------------------------------------------------
  // Stages of the replacement chain
  // ---------------------------------------------------------------------------

  /** How far the chain has got: the `{num}` pass, the passes of fields below
      `done`, and, when `extNext`, the extended pass of field `done`. */
  datatype Stage = Stage(numDone: bool, done: nat, extNext: bool)

  function Shown(p: Piece, st: Stage, c: Context): string
  {
    match p
    case Text(t) => t
    case IndexRef(fmt) => if st.numDone then Rendered(c.index, fmt) else Source(p)
    case FieldRef(a, fmt) =>
      var j := FirstWith(c.fields, a);
      if j < |c.fields| && (j < st.done || (j == st.done && st.extNext && fmt.Some?)) then Rendered(FieldValue(c, a), fmt)
      else Source(p)
  }

  function ShownAll(ps: seq<Piece>, st: Stage, c: Context): string
  {
    if ps == [] then "" else Shown(ps[0], st, c) + ShownAll(ps[1..], st, c)
  }

  // ---------------------------------------------------------------------------
  // Local facts
  // ---------------------------------------------------------------------------

  lemma {:induction false} SplitPartsFree(s: string, sep: char, x: char)
    requires Free(s, x)
    ensures forall k :: 0 <= k < |Split(s, sep)| ==> Free(Split(s, sep)[k], x)
  {
    if s != [] {
      SplitPartsFree(s[1..], sep, x);
      var rest := Split(s[1..], sep);
      if s[0] != sep {
        var first := [s[0]] + rest[0];
        assert forall i :: 0 <= i < |first| ==> first[i] != x by {
          forall i | 0 <= i < |first|
            ensures first[i] != x
          {
            if i > 0 {
              assert first[i] == rest[0][i - 1];
            }
          }
        }
      }
    }
  }

  lemma FormatNumberFree(v: nat, f: string, x: char)
    requires Free(f, x) && !IsDigit(x)
    ensures Free(FormatNumber(v, f), x)
  {
    SplitPartsFree(f, ':', x);
    var p := SplitFormat(f);
    match ParseNumberFormat(p.numberFormat)
    case None =>
    case Some((l, t)) =>
      FormattedNumberSpec(v, l, t);
  }

  /** Rendered text holds no '{'. */
  lemma RenderedFree(v: nat, format: Option<string>)
    requires FormatOk(format)
    ensures Free(Rendered(v, format), '{')
  {
    if format.Some? {
      FormatNumberFree(v, format.value, '{');
    }
  }

  /** A head `{a` followed by a delimiter can only start a placeholder of the
      same name with that delimiter. */
  lemma HeadMatch(a: string, d: char, name: string, format: Option<string>, rest: string)
    requires Free(a, ':') && Free(a, '}') && Free(name, ':') && Free(name, '}') && (d == ':' || d == '}')
    requires var s := PlaceholderText(name, format) + rest;
             var h := "{" + a + [d];
             |s| >= |h| && s[..|h|] == h
    ensures a == name && d == Tail(format)[0]
  {
    var s := PlaceholderText(name, format) + rest;
    var h := "{" + a + [d];
    assert forall i :: 0 <= i < |name| ==> s[1 + i] == name[i];
    assert s[1 + |name|] == Tail(format)[0];
    assert forall i :: 0 <= i < |a| ==> h[1 + i] == a[i];
    assert h[1 + |a|] == d;
    if |a| < |name| {
      assert false;
    } else if |a| > |name| {
      assert false;
    } else {
      assert forall i :: 0 <= i < |a| ==> a[i] == s[1 + i] == name[i];
    }
  }

  lemma TextOfPlaceholder(name: string, format: Option<string>, rest: string)
    ensures var s := PlaceholderText(name, format) + rest;
            && s[..|name| + 2] == "{" + name + [Tail(format)[0]]
            && (format.Some? ==> s[|name| + 2..] == format.value + "}" + rest)
            && s[|PlaceholderText(name, format)|..] == rest
  {
    var tail := Tail(format);
    ThreeParts("{", name, tail, rest);
    if format.Some? {
      assert tail[1..] == format.value + "}";
    }
  }

  lemma ThreeParts<T>(a: seq<T>, b: seq<T>, c: seq<T>, rest: seq<T>)
    requires c != []
    ensures var s := a + b + c + rest;
            && s[..|a| + |b| + 1] == a + b + [c[0]]
            && s[|a| + |b| + 1..] == c[1..] + rest
            && s[|a + b + c|..] == rest
  {
    var s := a + b + c + rest;
    assert s[..|a| + |b| + 1] == a + b + [c[0]];
  }

  lemma PlaceholderTailFree(name: string, format: Option<string>)
    requires Free(name, '{') && FormatOk(format)
    ensures Free(PlaceholderText(name, format)[1..], '{')
  {
    assert PlaceholderText(name, format)[1..] == name + Tail(format);
  }

  /** The `{num}` pass on one placeholder. */
  lemma NumMatch(i: nat, name: string, format: Option<string>, rest: string)
    requires Free(name, ':') && Free(name, '}') && FormatOk(format)
    ensures var s := PlaceholderText(name, format) + rest;
            MatchAt(NumToken(i), s) == if name == "num" then Some((|PlaceholderText(name, format)|, Rendered(i, format))) else None
  {
    var s := PlaceholderText(name, format) + rest;
    TextOfPlaceholder(name, format, rest);
    if |s| >= 5 && s[..4] == "{num" && (s[4] == '}' || s[4] == ':') {
      assert s[..5] == "{num" + [s[4]];
      HeadMatch("num", s[4], name, format, rest);
    }
    if name == "num" {
      assert s[..4] == "{num";
      if format.Some? {
        FormattedMatchOf(s, 5, i, format.value, rest);
      }
    }
  }

  /** The extended pass of a field on one placeholder. */
  lemma ExtMatch(a: string, v: nat, name: string, format: Option<string>, rest: string)
    requires Free(a, ':') && Free(a, '}') && Free(name, ':') && Free(name, '}') && FormatOk(format)
    ensures var s := PlaceholderText(name, format) + rest;
            MatchAt(ExtToken(a, v), s) ==
              if name == a && format.Some? then Some((|PlaceholderText(name, format)|, FormatNumber(v, format.value))) else None
  {
    var s := PlaceholderText(name, format) + rest;
    var h := "{" + a + ":";
    TextOfPlaceholder(name, format, rest);
    if name == a && format.Some? {
      var f := format.value;
      assert s[..|h|] == h;
      FormattedMatchOf(s, |h|, v, f, rest);
      assert |PlaceholderText(name, format)| == |h| + |f| + 1;
    } else if |s| >= |h| && s[..|h|] == h {
      HeadMatch(a, ':', name, format, rest);
    }
  }

  /** A format closed by '}' right after position k is matched whole. */
  lemma FormattedMatchOf(s: string, k: nat, v: nat, f: string, rest: string)
    requires 1 <= k <= |s| && s[k..] == f + "}" + rest && |f| >= 1 && Free(f, '}')
    ensures FormattedMatch(s, k, v) == Some((k + |f| + 1, FormatNumber(v, f)))
  {
    FirstCloseOf(f, rest);
    assert s[k..k + |f|] == f;
  }

  /** The simple pass of a field on one placeholder. */
  lemma SimpleMatch(a: string, v: nat, name: string, format: Option<string>, rest: string)
    requires Free(a, ':') && Free(a, '}') && Free(name, ':') && Free(name, '}') && FormatOk(format)
    ensures var s := PlaceholderText(name, format) + rest;
            MatchAt(SimpleToken(a, v), s) ==
              if name == a && format.None? then Some((|PlaceholderText(name, format)|, Dec(v))) else None
  {
    var s := PlaceholderText(name, format) + rest;
    var h := "{" + a + "}";
    TextOfPlaceholder(name, format, rest);
    if |s| >= |h| && s[..|h|] == h {
      HeadMatch(a, '}', name, format, rest);
    }
  }

  lemma ReplaceAtMatch(t: Token, p: string, rest: string, r: string)
    requires |p| >= 1 && MatchAt(t, p + rest) == Some((|p|, r))
    ensures ReplaceAll(t, p + rest) == r + ReplaceAll(t, rest)
  {
    assert (p + rest)[|p|..] == rest;
  }

  lemma ReplaceAtMiss(t: Token, p: string, rest: string)
    requires |p| >= 1 && MatchAt(t, p + rest) == None && Free(p[1..], '{')
    ensures ReplaceAll(t, p + rest) == p + ReplaceAll(t, rest)
  {
    var c, tail := p[0], p[1..];
    assert p == [c] + tail;
    ConsAssoc(c, tail, rest);
    ReplaceAllMiss(t, c, tail + rest);
    ReplaceAllText(t, tail, rest);
    ConsAssoc(c, tail, ReplaceAll(t, rest));
  }

  /** A pass over one piece: the piece's own rewrite, the rest searched on. */
  lemma PiecePass(t: Token, p: Piece, before: string, after: string, rest: string, name: string, format: Option<string>)
    requires before == PlaceholderText(name, format) && Free(name, '{') && FormatOk(format)
    requires MatchAt(t, before + rest) == None ==> after == before
    requires MatchAt(t, before + rest).Some? ==> MatchAt(t, before + rest) == Some((|before|, after))
    ensures ReplaceAll(t, before + rest) == after + ReplaceAll(t, rest)
  {
    if MatchAt(t, before + rest) == None {
      PlaceholderTailFree(name, format);
      ReplaceAtMiss(t, before, rest);
    } else {
      ReplaceAtMatch(t, before, rest, after);
    }
  }

  // ---------------------------------------------------------------------------
  // The passes over all pieces
  // ---------------------------------------------------------------------------

  lemma NumPassPiece(p: Piece, c: Context, rest: string)
    requires PieceOk(p, c.fields)
    ensures ReplaceAll(NumToken(c.index), Shown(p, Stage(false, 0, false), c) + rest)
            == Shown(p, Stage(true, 0, false), c) + ReplaceAll(NumToken(c.index), rest)
  {
    var t := NumToken(c.index);
    match p
    case Text(s) =>
      ReplaceAllText(t, s, rest);
    case IndexRef(fmt) =>
      NumMatch(c.index, "num", fmt, rest);
      PiecePass(t, p, Source(p), Rendered(c.index, fmt), rest, "num", fmt);
    case FieldRef(a, fmt) =>
      NumMatch(c.index, a, fmt, rest);
      PiecePass(t, p, Source(p), Source(p), rest, a, fmt);
  }

  lemma {:induction false} NumPass(ps: seq<Piece>, c: Context)
    requires forall i :: 0 <= i < |ps| ==> PieceOk(ps[i], c.fields)
    ensures ReplaceAll(NumToken(c.index), ShownAll(ps, Stage(false, 0, false), c)) == ShownAll(ps, Stage(true, 0, false), c)
  {
    if ps != [] {
      NumPass(ps[1..], c);
      NumPassPiece(ps[0], c, ShownAll(ps[1..], Stage(false, 0, false), c));
    }
  }

  lemma ExtPassPiece(p: Piece, c: Context, k: nat, rest: string)
    requires k < |c.fields| && c.fields[k].abbreviation != ""
    requires WellFormed([p], c.fields)
    ensures var a := c.fields[k].abbreviation;
            var t := ExtToken(a, NamingValue(c.fields[k], k, c.values, c.functionCode));
            ReplaceAll(t, Shown(p, Stage(true, k, false), c) + rest) == Shown(p, Stage(true, k, true), c) + ReplaceAll(t, rest)
  {
    var a := c.fields[k].abbreviation;
    var v := NamingValue(c.fields[k], k, c.values, c.functionCode);
    var t := ExtToken(a, v);
    assert PieceOk([p][0], c.fields);
    assert PlainName(c.fields[k].abbreviation);
    match p
    case Text(s) =>
      ReplaceAllText(t, s, rest);
    case IndexRef(fmt) =>
      RenderedFree(c.index, fmt);
      ReplaceAllText(t, Rendered(c.index, fmt), rest);
    case FieldRef(b, fmt) =>
      var j := FirstWith(c.fields, b);
      if j < k {
        RenderedFree(FieldValue(c, b), fmt);
        ReplaceAllText(t, Rendered(FieldValue(c, b), fmt), rest);
      } else {
        assert b == a <==> j == k;
        ExtMatch(a, v, b, fmt, rest);
        var after := Shown(p, Stage(true, k, true), c);
        PiecePass(t, p, Source(p), after, rest, b, fmt);
      }
  }

  lemma {:induction false} ExtPass(ps: seq<Piece>, c: Context, k: nat)
    requires k < |c.fields| && c.fields[k].abbreviation != "" && WellFormed(ps, c.fields)
    ensures var t := ExtToken(c.fields[k].abbreviation, NamingValue(c.fields[k], k, c.values, c.functionCode));
            ReplaceAll(t, ShownAll(ps, Stage(true, k, false), c)) == ShownAll(ps, Stage(true, k, true), c)
  {
    if ps != [] {
      assert WellFormed(ps[1..], c.fields) by {
        forall i | 0 <= i < |ps[1..]| ensures PieceOk(ps[1..][i], c.fields) {
          assert ps[1..][i] == ps[i + 1];
        }
      }
      assert WellFormed([ps[0]], c.fields);
      ExtPass(ps[1..], c, k);
      ExtPassPiece(ps[0], c, k, ShownAll(ps[1..], Stage(true, k, false), c));
    }
  }

  lemma SimplePassPiece(p: Piece, c: Context, k: nat, rest: string)
    requires k < |c.fields| && c.fields[k].abbreviation != ""
    requires WellFormed([p], c.fields)
    ensures var a := c.fields[k].abbreviation;
            var t := SimpleToken(a, NamingValue(c.fields[k], k, c.values, c.functionCode));
            ReplaceAll(t, Shown(p, Stage(true, k, true), c) + rest) == Shown(p, Stage(true, k + 1, false), c) + ReplaceAll(t, rest)
  {
    var a := c.fields[k].abbreviation;
    var v := NamingValue(c.fields[k], k, c.values, c.functionCode);
    var t := SimpleToken(a, v);
    assert PieceOk([p][0], c.fields);
    assert PlainName(c.fields[k].abbreviation);
    match p
    case Text(s) =>
      ReplaceAllText(t, s, rest);
    case IndexRef(fmt) =>
      RenderedFree(c.index, fmt);
      ReplaceAllText(t, Rendered(c.index, fmt), rest);
    case FieldRef(b, fmt) =>
      var j := FirstWith(c.fields, b);
      if j < k || (j == k && fmt.Some?) {
        RenderedFree(FieldValue(c, b), fmt);
        ReplaceAllText(t, Rendered(FieldValue(c, b), fmt), rest);
      } else {
        assert b == a <==> j == k;
        SimpleMatch(a, v, b, fmt, rest);
        var after := Shown(p, Stage(true, k + 1, false), c);
        PiecePass(t, p, Source(p), after, rest, b, fmt);
      }
  }

  lemma {:induction false} SimplePass(ps: seq<Piece>, c: Context, k: nat)
    requires k < |c.fields| && c.fields[k].abbreviation != "" && WellFormed(ps, c.fields)
    ensures var t := SimpleToken(c.fields[k].abbreviation, NamingValue(c.fields[k], k, c.values, c.functionCode));
            ReplaceAll(t, ShownAll(ps, Stage(true, k, true), c)) == ShownAll(ps, Stage(true, k + 1, false), c)
  {
    if ps != [] {
      assert WellFormed(ps[1..], c.fields) by {
        forall i | 0 <= i < |ps[1..]| ensures PieceOk(ps[1..][i], c.fields) {
          assert ps[1..][i] == ps[i + 1];
        }
      }
      assert WellFormed([ps[0]], c.fields);
      SimplePass(ps[1..], c, k);
      SimplePassPiece(ps[0], c, k, ShownAll(ps[1..], Stage(true, k, true), c));
    }
  }

  /** A field without abbreviation is the first holder of no placeholder's name. */
  lemma {:induction false} SkippedField(ps: seq<Piece>, c: Context, k: nat)
    requires k < |c.fields| && c.fields[k].abbreviation == "" && WellFormed(ps, c.fields)
    ensures ShownAll(ps, Stage(true, k, false), c) == ShownAll(ps, Stage(true, k + 1, false), c)
  {
    if ps != [] {
      assert WellFormed(ps[1..], c.fields) by {
        forall i | 0 <= i < |ps[1..]| ensures PieceOk(ps[1..][i], c.fields) {
          assert ps[1..][i] == ps[i + 1];
        }
      }
      SkippedField(ps[1..], c, k);
      assert PieceOk(ps[0], c.fields);
    }
  }

  lemma {:induction false} FieldPassesStages(ps: seq<Piece>, c: Context, n: nat)
    requires n <= |c.fields| && WellFormed(ps, c.fields)
    ensures FieldPasses(ShownAll(ps, Stage(true, 0, false), c), c.fields, n, c.values, c.functionCode)
            == ShownAll(ps, Stage(true, n, false), c)
  {
    if n > 0 {
      FieldPassesStages(ps, c, n - 1);
      var k := n - 1;
      if c.fields[k].abbreviation == "" {
        SkippedField(ps, c, k);
      } else {
        ExtPass(ps, c, k);
        SimplePass(ps, c, k);
      }
    }
  }

  lemma {:induction false} StartStage(ps: seq<Piece>, c: Context)
    ensures ShownAll(ps, Stage(false, 0, false), c) == PatternOf(ps)
  {
    if ps != [] {
      StartStage(ps[1..], c);
    }
  }

  lemma {:induction false} EndStage(ps: seq<Piece>, c: Context)
    ensures ShownAll(ps, Stage(true, |c.fields|, false), c) == Render(ps, c)
  {
    if ps != [] {
      EndStage(ps[1..], c);
    }
  }

  /** For a well-formed pattern, the name `processNamingPatternForCombination`
      produces is the pieces rendered one by one: text unchanged, `{num}` as
      the message index, `{ABBR}` as the value of the first field with that
      abbreviation, and `:fmt` applied through `formatNumber`. */
  lemma TemplateRendering(ps: seq<Piece>, fields: seq<Field>, combination: Combination, messageIndex: nat, functionCode: int)
    requires WellFormed(ps, fields) && PatternOf(ps) != ""
    ensures RenderName(PatternOf(ps), fields, combination, messageIndex, functionCode)
            == Render(ps, Context(fields, BatchValues(combination), functionCode, messageIndex))
  {
    var c := Context(fields, BatchValues(combination), functionCode, messageIndex);
    StartStage(ps, c);
    NumPass(ps, c);
    FieldPassesStages(ps, c, |fields|);
    EndStage(ps, c);
  }
}
