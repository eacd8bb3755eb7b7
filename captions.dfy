/**
 * Caption expansion in `build_extra_attributes` (lines 136-142): every
 * `[caption <attributes>]<content>[/caption]` span of the post body is
 * replaced by a fragment rendered from the parsed attributes and the
 * enclosed content.
 *
 * The pattern `\[caption(.+?)\](.+?)\[\/caption\]` cannot cross a line feed
 * (`.` does not match one), so a match starting at a position lies within
 * the rest of that line; `gsub!` takes the leftmost match, replaces it and
 * resumes after it. The fragment renderer is a parameter: a function of the
 * attribute hash and the enclosed content.
 */
module Captions {
  import opened Wrappers
  import opened Text

  const Open := "[caption"
  const Close := "[/caption]"

  /** The two captures of one match: `$1`, the attribute text, and `$2`, the enclosed content. */
  datatype Span = Span(attributes: string, body: string)

  function SpanText(sp: Span): string {
    Open + sp.attributes + "]" + sp.body + Close
  }

  /**
   * The pattern matches at the start of `line` with a `$1` of `a` characters
   * and a `$2` of `b` characters.
   */
  ghost predicate IsSpan(line: string, a: nat, b: nat) {
    1 <= a && 1 <= b && StartsWith(line, Open) &&
    |Open| + a < |line| && line[|Open| + a] == ']' &&
    OccursAt(line, Close, |Open| + a + 1 + b)
  }

  /** The captures of a match at the start of `line` with a `$1` of `a` and a `$2` of `b` characters. */
  function SpanAt(line: string, a: nat, b: nat): (sp: Span)
    requires |Open| + a + 1 + b <= |line|
    ensures |sp.attributes| == a && |sp.body| == b
  {
    Span(line[|Open|..|Open| + a], line[|Open| + a + 1..|Open| + a + 1 + b])
  }

  /**
   * The backtracking search for `(.+?)\](.+?)\[\/caption\]` after `[caption`:
   * `$1` of length `a` or more, each with the shortest `$2` that completes it.
   */
  function TryAttributes(line: string, a: nat): (r: Option<Span>)
    requires 1 <= a && StartsWith(line, Open)
    ensures r.Some? ==> a <= |r.value.attributes| && |SpanText(r.value)| <= |line|
    decreases |line| - a
  {
    var close := |Open| + a;
    if close >= |line| then None
    else if line[close] == ']' then
      match IndexOf(line, Close, close + 2)
      case Some(c) => Some(SpanAt(line, a, c - close - 1))
      case None => TryAttributes(line, a + 1)
    else TryAttributes(line, a + 1)
  }

  /** `r`, if any, is a match at the start of `line` with its captures at their places. */
  ghost predicate FoundSpan(line: string, r: Option<Span>) {
    r.Some? ==> (IsSpan(line, |r.value.attributes|, |r.value.body|) &&
      r.value == SpanAt(line, |r.value.attributes|, |r.value.body|))
  }

  /** What the search finds is a match, with the captures at their places. */
  lemma {:induction false} TryAttributesFindsSpan(line: string, a: nat)
    requires 1 <= a && StartsWith(line, Open)
    ensures FoundSpan(line, TryAttributes(line, a))
    decreases |line| - a
  {
    var close := |Open| + a;
    if close >= |line| {
      assert TryAttributes(line, a) == None;
    } else if line[close] != ']' || IndexOf(line, Close, close + 2).None? {
      TryAttributesFindsSpan(line, a + 1);
      assert TryAttributes(line, a) == TryAttributes(line, a + 1);
    } else {
      FoundWhenClosed(line, a);
    }
  }

  lemma FoundWhenClosed(line: string, a: nat)
    requires 1 <= a && StartsWith(line, Open) && |Open| + a < |line|
    requires line[|Open| + a] == ']' && IndexOf(line, Close, |Open| + a + 2).Some?
    ensures FoundSpan(line, TryAttributes(line, a))
  {
    var c := IndexOf(line, Close, |Open| + a + 2).value;
    assert TryAttributes(line, a) == Some(SpanAt(line, a, c - |Open| - a - 1));
  }

  /**
   * `r` is the shortest match whose `$1` has `a` characters or more: no
   * match with such a `$1` is shorter in `$1`, or as short in `$1` and
   * shorter in `$2`; `None` only when there is no such match at all.
   */
  ghost predicate ShortestFrom(line: string, a: nat, r: Option<Span>) {
    (r.Some? ==> forall a': nat, b': nat :: a <= a' && IsSpan(line, a', b') ==>
      (|r.value.attributes| < a' || (|r.value.attributes| == a' && |r.value.body| <= b'))) &&
    (r.None? ==> forall a': nat, b': nat :: a <= a' ==> !IsSpan(line, a', b'))
  }

  /** The search finds the shortest `$1`, and for it the shortest `$2`; finding none, there is none. */
  lemma {:induction false} TryAttributesIsShortest(line: string, a: nat)
    requires 1 <= a && StartsWith(line, Open)
    ensures ShortestFrom(line, a, TryAttributes(line, a))
    decreases |line| - a
  {
    var close := |Open| + a;
    if close >= |line| {
      assert TryAttributes(line, a) == None;
    } else if line[close] != ']' || IndexOf(line, Close, close + 2).None? {
      TryAttributesIsShortest(line, a + 1);
      ShortestWhenSkipped(line, a);
    } else {
      ShortestWhenFound(line, a);
    }
  }

  lemma ShortestWhenSkipped(line: string, a: nat)
    requires 1 <= a && StartsWith(line, Open) && |Open| + a < |line|
    requires line[|Open| + a] != ']' || IndexOf(line, Close, |Open| + a + 2).None?
    requires ShortestFrom(line, a + 1, TryAttributes(line, a + 1))
    ensures ShortestFrom(line, a, TryAttributes(line, a))
  {
    assert TryAttributes(line, a) == TryAttributes(line, a + 1);
    if line[|Open| + a] != ']' {
      NoSpanAt(line, a);
    } else {
      NoBody(line, a);
    }
    SkipAttributes(line, a, TryAttributes(line, a + 1));
  }

  lemma ShortestWhenFound(line: string, a: nat)
    requires 1 <= a && StartsWith(line, Open) && |Open| + a < |line|
    requires line[|Open| + a] == ']' && IndexOf(line, Close, |Open| + a + 2).Some?
    ensures ShortestFrom(line, a, TryAttributes(line, a))
  {
    var c := IndexOf(line, Close, |Open| + a + 2).value;
    assert TryAttributes(line, a) == Some(SpanAt(line, a, c - |Open| - a - 1));
    ShortestBody(line, a, c);
  }

  /** A `$1` length with no match adds nothing to the search. */
  lemma SkipAttributes(line: string, a: nat, r: Option<Span>)
    requires ShortestFrom(line, a + 1, r)
    requires forall b': nat :: !IsSpan(line, a, b')
    ensures ShortestFrom(line, a, r)
  {
  }

  lemma NoSpanAt(line: string, a: nat)
    requires |Open| + a < |line| && line[|Open| + a] != ']'
    ensures forall b': nat :: !IsSpan(line, a, b')
  {
  }

  lemma ShortestBody(line: string, a: nat, c: nat)
    requires IndexOf(line, Close, |Open| + a + 2) == Some(c)
    ensures forall b': nat :: IsSpan(line, a, b') ==> c - |Open| - a - 1 <= b'
  {
    forall b': nat | IsSpan(line, a, b') ensures c - |Open| - a - 1 <= b' {
      assert OccursAt(line, Close, |Open| + a + 1 + b');
    }
  }

  lemma NoBody(line: string, a: nat)
    requires IndexOf(line, Close, |Open| + a + 2) == None
    ensures forall b': nat :: !IsSpan(line, a, b')
  {
  }

  /** The match at the start of a line (text without line feeds), if any. */
  function MatchInLine(line: string): (r: Option<Span>)
    ensures r.Some? ==> |SpanText(r.value)| <= |line|
  {
    if StartsWith(line, Open) then TryAttributes(line, 1) else None
  }

  /**
   * The match is the one the lazy quantifiers choose: a span with its
   * captures at their places, the shortest `$1`, and for it the shortest
   * `$2`; there is none exactly when no span starts the line.
   */
  lemma MatchInLineIsShortest(line: string)
    ensures var r := MatchInLine(line);
      (r.Some? ==> (IsSpan(line, |r.value.attributes|, |r.value.body|) &&
        r.value == SpanAt(line, |r.value.attributes|, |r.value.body|))) &&
      (r.Some? ==> forall a': nat, b': nat :: IsSpan(line, a', b') ==>
        (|r.value.attributes| < a' || (|r.value.attributes| == a' && |r.value.body| <= b'))) &&
      (r.None? <==> forall a': nat, b': nat :: !IsSpan(line, a', b'))
  {
    if StartsWith(line, Open) {
      TryAttributesFindsSpan(line, 1);
      TryAttributesIsShortest(line, 1);
    }
  }

  /** The text a match replaces is `[caption`, `$1`, `]`, `$2` and `[/caption]` in a row. */
  lemma SpanTextAt(line: string, a: nat, b: nat)
    requires IsSpan(line, a, b)
    ensures StartsWith(line, SpanText(SpanAt(line, a, b)))
  {
    var sp := SpanAt(line, a, b);
    var n := |Open| + a + 1 + b;
    assert line[..|Open|] == Open;
    assert line[n..n + |Close|] == Close;
    assert line[..n + |Close|] == line[..|Open|] + sp.attributes + [line[|Open| + a]] + sp.body + line[n..n + |Close|];
  }

  /** The block given to `gsub!`: the replacement text for one match, from its captures. */
  type Block = Span -> string

  /** `s.gsub(/\[caption(.+?)\](.+?)\[\/caption\]/) { block }` */
  function Expand(s: string, block: Block): string
    decreases |s|
  {
    if |s| == 0 then ""
    else match MatchInLine(FirstLine(s))
      case Some(sp) => block(sp) + Expand(s[|SpanText(sp)|..], block)
      case None => [s[0]] + Expand(s[1..], block)
  }

  /** The fragment renderer: attribute hash and enclosed content to markup. */
  type Renderer = (map<string, Option<string>>, string) -> string

  /** The block of lines 138-141: render the parsed `$1` with `$2` as the content. */
  function CaptionBlock(render: Renderer): Block {
    (sp: Span) => render(ParseAttributes(sp.attributes), sp.body)
  }

  lemma {:induction false} FirstLineOfPrefix(x: string, y: string)
    requires '\n' !in x
    ensures FirstLine(x + y) == x + FirstLine(y)
  {
    IndexOfCharPast(x, y, '\n');
    assert (x + y)[..|x| + IndexOfChar(y, '\n')] == x + y[..IndexOfChar(y, '\n')];
  }

  /** A span starting the first line starts the text. */
  lemma FirstLineStart(s: string)
    ensures StartsWith(FirstLine(s), Open) ==> OccursAt(s, Open, 0)
  {
    var line := FirstLine(s);
    if StartsWith(line, Open) {
      assert line == s[..|line|];
      assert s[..|line|][..|Open|] == s[..|Open|];
    }
  }

  /** Where no span starts, expansion copies one character and moves on. */
  lemma ExpandPlainStep(s: string, block: Block)
    requires |s| > 0 && !OccursAt(s, Open, 0)
    ensures Expand(s, block) == [s[0]] + Expand(s[1..], block)
  {
    FirstLineStart(s);
    assert MatchInLine(FirstLine(s)) == None;
  }

  lemma ShiftOccurs(s: string, i: nat)
    requires |s| > 0
    ensures OccursAt(s[1..], Open, i) ==> OccursAt(s, Open, i + 1)
  {
    if OccursAt(s[1..], Open, i) {
      assert s[1..][i..i + |Open|] == s[i + 1..i + 1 + |Open|];
    }
  }

  /** Where a span starts the first line, expansion emits its replacement and resumes after it. */
  lemma ExpandSpanStep(s: string, block: Block)
    requires |s| > 0 && MatchInLine(FirstLine(s)).Some?
    ensures var sp := MatchInLine(FirstLine(s)).value;
      Expand(s, block) == block(sp) + Expand(s[|SpanText(sp)|..], block)
  {
  }

  /** Where no span starts the first line, expansion copies one character and moves on. */
  lemma ExpandNoMatchStep(s: string, block: Block)
    requires |s| > 0 && MatchInLine(FirstLine(s)).None?
    ensures Expand(s, block) == [s[0]] + Expand(s[1..], block)
  {
  }

  /**
   * Expansion is line by line: no span crosses a line feed, so expanding a
   * text equals expanding the lines on either side of any line feed.
   */
  lemma {:induction false} ExpandByLines(a: string, b: string, block: Block)
    ensures Expand(a + "\n" + b, block) == Expand(a, block) + "\n" + Expand(b, block)
    decreases |a|
  {
    if |a| == 0 {
      ByLinesEmpty(b, block);
    } else {
      var m := MatchInLine(FirstLine(a));
      if m.Some? {
        ExpandByLines(a[|SpanText(m.value)|..], b, block);
        ByLinesSpan(a, b, block);
      } else {
        ExpandByLines(a[1..], b, block);
        ByLinesPlain(a, b, block);
      }
    }
  }

  lemma ByLinesEmpty(b: string, block: Block)
    ensures Expand("" + "\n" + b, block) == Expand("", block) + "\n" + Expand(b, block)
  {
    var s := "" + "\n" + b;
    assert s == "\n" + b;
    assert s[0] == '\n' && Open[0] == '[';
    assert !OccursAt(s, Open, 0);
    ExpandPlainStep(s, block);
    assert s[1..] == b;
  }

  lemma DropOfJoin(a: string, b: string, n: nat)
    requires n <= |a|
    ensures (a + "\n" + b)[n..] == a[n..] + "\n" + b
  {
  }

  lemma ByLinesSpan(a: string, b: string, block: Block)
    requires |a| > 0 && MatchInLine(FirstLine(a)).Some?
    requires var n := |SpanText(MatchInLine(FirstLine(a)).value)|;
      Expand(a[n..] + "\n" + b, block) == Expand(a[n..], block) + "\n" + Expand(b, block)
    ensures Expand(a + "\n" + b, block) == Expand(a, block) + "\n" + Expand(b, block)
  {
    var s := a + "\n" + b;
    FirstLineOfJoin(a, b);
    var sp := MatchInLine(FirstLine(a)).value;
    var n := |SpanText(sp)|;
    DropOfJoin(a, b, n);
    ExpandSpanStep(s, block);
    ExpandSpanStep(a, block);
    Regroup(block(sp), Expand(a[n..], block), "\n", Expand(b, block));
  }

  lemma ByLinesPlain(a: string, b: string, block: Block)
    requires |a| > 0 && MatchInLine(FirstLine(a)).None?
    requires Expand(a[1..] + "\n" + b, block) == Expand(a[1..], block) + "\n" + Expand(b, block)
    ensures Expand(a + "\n" + b, block) == Expand(a, block) + "\n" + Expand(b, block)
  {
    var s := a + "\n" + b;
    FirstLineOfJoin(a, b);
    DropOfJoin(a, b, 1);
    ExpandNoMatchStep(s, block);
    ExpandNoMatchStep(a, block);
    assert s[0] == a[0];
    Regroup([a[0]], Expand(a[1..], block), "\n", Expand(b, block));
  }

  lemma Regroup<T>(u: seq<T>, p: seq<T>, sep: seq<T>, q: seq<T>)
    ensures u + (p + sep + q) == (u + p) + sep + q
  {
  }

  /** A body without any `[caption` is left as it is. */
  lemma {:induction false} ExpandWithoutCaption(s: string, block: Block)
    requires forall i: nat :: !OccursAt(s, Open, i)
    ensures Expand(s, block) == s
    decreases |s|
  {
    if |s| > 0 {
      ExpandPlainStep(s, block);
      forall i: nat ensures !OccursAt(s[1..], Open, i) {
        ShiftOccurs(s, i);
      }
      ExpandWithoutCaption(s[1..], block);
      assert s == [s[0]] + s[1..];
    }
  }

  lemma DropFirst<T>(u: seq<T>, v: seq<T>)
    requires |u| > 0
    ensures (u + v)[1..] == u[1..] + v && (u + v)[0] == u[0] && u + v == [u[0]] + (u[1..] + v)
  {
  }

  /** Text in which no `[caption` starts is copied through unchanged ahead of the rest. */
  lemma {:induction false} ExpandPlainPrefix(pre: string, s: string, block: Block)
    requires forall i :: 0 <= i < |pre| ==> !OccursAt(pre + s, Open, i)
    ensures Expand(pre + s, block) == pre + Expand(s, block)
    decreases |pre|
  {
    if |pre| == 0 {
      assert pre + s == s;
    } else {
      var t := pre + s;
      ExpandPlainStep(t, block);
      DropFirst(pre, s);
      forall i | 0 <= i < |pre[1..]| ensures !OccursAt(pre[1..] + s, Open, i) {
        ShiftOccurs(t, i);
      }
      ExpandPlainPrefix(pre[1..], s, block);
      DropFirst(pre, Expand(s, block));
    }
  }

  /**
   * A well-delimited caption span (its attributes hold no `]`, its content no
   * `[`, neither a line feed) is replaced by the fragment blocked from its
   * attributes and content, and expansion resumes after it.
   */
  lemma {:induction false} CaptionReplaced(attributes: string, body: string, rest: string, block: Block)
    requires |attributes| >= 1 && |body| >= 1
    requires ']' !in attributes && '\n' !in attributes && '[' !in body && '\n' !in body
    ensures Expand(SpanText(Span(attributes, body)) + rest, block)
         == block(Span(attributes, body)) + Expand(rest, block)
  {
    var text := SpanText(Span(attributes, body));
    var s := text + rest;
    MatchOfSpanText(attributes, body, rest);
    assert s[|text|..] == rest;
  }

  lemma {:induction false} MatchOfSpanText(attributes: string, body: string, rest: string)
    requires |attributes| >= 1 && |body| >= 1
    requires ']' !in attributes && '\n' !in attributes && '[' !in body && '\n' !in body
    ensures MatchInLine(FirstLine(SpanText(Span(attributes, body)) + rest)) == Some(Span(attributes, body))
  {
    var text := SpanText(Span(attributes, body));
    assert '\n' !in text by {
      assert forall c :: c in text ==> c in Open || c in attributes || c == ']' || c in body || c in Close;
    }
    FirstLineOfPrefix(text, rest);
    var line := FirstLine(text + rest);
    assert line[..|text|] == text;
    SpanTextIsShortest(attributes, body, line);
  }

  lemma {:induction false} SpanTextIsShortest(attributes: string, body: string, line: string)
    requires |attributes| >= 1 && |body| >= 1
    requires ']' !in attributes && '[' !in body
    requires StartsWith(line, SpanText(Span(attributes, body)))
    ensures MatchInLine(line) == Some(Span(attributes, body))
  {
    var a, b := |attributes|, |body|;
    SpanTextSlices(attributes, body, line);
    NoShorterSpan(attributes, body, line);
    MatchInLineIsShortest(line);
    var m := MatchInLine(line);
    assert m.Some?;
    assert |m.value.attributes| == a && |m.value.body| == b;
  }

  /** A span written out at the start of a line is a match with its own captures. */
  lemma SpanTextSlices(attributes: string, body: string, line: string)
    requires |attributes| >= 1 && |body| >= 1
    requires StartsWith(line, SpanText(Span(attributes, body)))
    ensures IsSpan(line, |attributes|, |body|)
    ensures SpanAt(line, |attributes|, |body|) == Span(attributes, body)
  {
    var a, b := |attributes|, |body|;
    var t := SpanText(Span(attributes, body));
    var n := |Open| + a + 1 + b;
    assert line[..|t|] == t;
    assert t == Open + attributes + "]" + body + Close;
    assert t[..|Open|] == Open;
    assert t[|Open| + a] == ']';
    assert t[n..] == Close;
    assert t[|Open|..|Open| + a] == attributes;
    assert t[|Open| + a + 1..n] == body;
    assert line[..|Open|] == t[..|Open|];
    assert line[n..n + |Close|] == t[n..];
    assert line[|Open|..|Open| + a] == t[|Open|..|Open| + a];
    assert line[|Open| + a + 1..n] == t[|Open| + a + 1..n];
  }

  /** With no `]` in its `$1` and no `[` in its `$2`, no other span at the same start is shorter. */
  lemma {:induction false} NoShorterSpan(attributes: string, body: string, line: string)
    requires |attributes| >= 1 && |body| >= 1
    requires ']' !in attributes && '[' !in body
    requires |Open| + |attributes| + 1 + |body| <= |line|
    requires SpanAt(line, |attributes|, |body|) == Span(attributes, body)
    ensures forall a': nat, b': nat :: IsSpan(line, a', b') ==>
      |attributes| < a' || (|attributes| == a' && |body| <= b')
  {
    var a, b := |attributes|, |body|;
    forall k | |Open| <= k < |Open| + a ensures line[k] != ']' {
      assert line[k] == attributes[k - |Open|];
      assert attributes[k - |Open|] in attributes;
    }
    forall k | |Open| + a + 1 <= k < |Open| + a + 1 + b ensures line[k] != '[' {
      assert line[k] == body[k - |Open| - a - 1];
      assert body[k - |Open| - a - 1] in body;
    }
    forall a': nat, b': nat | IsSpan(line, a', b') ensures a < a' || (a == a' && b <= b') {
      var k := |Open| + a' + 1 + b';
      assert Close[0] == '[';
      assert line[k] == line[k..k + |Close|][0];
    }
  }

  /** `s.split("\"")`: the pieces between quotes, trailing empty pieces dropped as Ruby does. */
  function QuoteSplit(s: string): seq<string> {
    DropTrailingEmpty(Split(s, '"'))
  }

  function DropTrailingEmpty(pieces: seq<string>): (r: seq<string>)
    ensures |r| <= |pieces| && r == pieces[..|r|]
    ensures |r| == 0 || r[|r| - 1] != ""
    ensures forall i :: |r| <= i < |pieces| ==> pieces[i] == ""
  {
    if |pieces| > 0 && pieces[|pieces| - 1] == "" then DropTrailingEmpty(pieces[..|pieces| - 1]) else pieces
  }

  /** `pair[0].lstrip.chomp("=").to_sym` */
  function Key(piece: string): string {
    Chomp(LStrip(piece), "=")
  }

  /** `each_slice(2) { |pair| properties[key] = pair[1] }`: later assignments win, a lone last piece maps to nil. */
  function Pair(pieces: seq<string>): map<string, Option<string>>
    decreases |pieces|
  {
    if |pieces| == 0 then map[]
    else if |pieces| == 1 then map[Key(pieces[0]) := None]
    else map[Key(pieces[0]) := Some(pieces[1])] + Pair(pieces[2..])
  }

  /** The attribute hash passed to the renderer as `properties`. */
  function ParseAttributes(attributes: string): map<string, Option<string>> {
    Pair(QuoteSplit(attributes))
  }

  /** One ` name="value"` group of a caption tag. */
  datatype Attribute = Attribute(name: string, value: string)

  /** The groups written out as ` name="value"` one after another. */
  function Render(attrs: seq<Attribute>): string {
    if |attrs| == 0 then ""
    else KeyPiece(attrs[0].name) + ['"'] + (attrs[0].value + ['"'] + Render(attrs[1..]))
  }

  /** The text before a group's opening quote. */
  function KeyPiece(name: string): string {
    " " + name + "="
  }

  /** What the groups mean: each name bound to its value, a later group overriding an earlier one. */
  function Bindings(attrs: seq<Attribute>): map<string, Option<string>> {
    if |attrs| == 0 then map[] else map[attrs[0].name := Some(attrs[0].value)] + Bindings(attrs[1..])
  }

  /** Names and values free of quotes. */
  predicate QuoteFree(attrs: seq<Attribute>) {
    forall i :: 0 <= i < |attrs| ==> '"' !in attrs[i].name && '"' !in attrs[i].value
  }

  /** Names that `lstrip` leaves alone. */
  predicate NamesStripped(attrs: seq<Attribute>) {
    forall i :: 0 <= i < |attrs| ==> |attrs[i].name| == 0 || (!IsSpace(attrs[i].name[0]) && attrs[i].name[0] != '\0')
  }

  /**
   * Groups the tokenizer reads back: names and values free of quotes, names
   * not starting with white space, and a non-empty last value (Ruby's `split`
   * drops a trailing empty piece).
   */
  predicate Readable(attrs: seq<Attribute>) {
    QuoteFree(attrs) && NamesStripped(attrs) && (|attrs| > 0 ==> attrs[|attrs| - 1].value != "")
  }

  function Pieces(attrs: seq<Attribute>): (ps: seq<string>)
    ensures |ps| == 2 * |attrs|
  {
    if |attrs| == 0 then [] else [KeyPiece(attrs[0].name), attrs[0].value] + Pieces(attrs[1..])
  }

  lemma KeyPieceHasNoQuote(name: string)
    requires '"' !in name
    ensures '"' !in KeyPiece(name)
  {
    var x := KeyPiece(name);
    forall i | 0 <= i < |x| ensures x[i] != '"' {
      if 0 < i < |x| - 1 {
        assert x[i] == name[i - 1];
      }
    }
  }

  lemma QuoteFreeTail(attrs: seq<Attribute>)
    requires |attrs| > 0 && QuoteFree(attrs)
    ensures QuoteFree(attrs[1..]) && '"' !in attrs[0].name && '"' !in attrs[0].value
  {
    forall i | 0 <= i < |attrs[1..]| ensures '"' !in attrs[1..][i].name && '"' !in attrs[1..][i].value {
      assert attrs[1..][i] == attrs[i + 1];
    }
  }

  lemma TwoThenTail<T>(x: T, v: T, tail: seq<T>, last: T)
    ensures [x] + ([v] + (tail + [last])) == ([x, v] + tail) + [last]
  {
  }

  lemma {:induction false} SplitRendered(attrs: seq<Attribute>)
    requires QuoteFree(attrs)
    ensures Split(Render(attrs), '"') == Pieces(attrs) + [""]
  {
    if |attrs| == 0 {
      SplitWhole("", '"');
    } else {
      var n, v := attrs[0].name, attrs[0].value;
      var x := KeyPiece(n);
      var rest := Render(attrs[1..]);
      QuoteFreeTail(attrs);
      KeyPieceHasNoQuote(n);
      SplitAfter(x, v + ['"'] + rest, '"');
      SplitAfter(v, rest, '"');
      SplitRendered(attrs[1..]);
      var tail := Pieces(attrs[1..]);
      var y := v + ['"'] + rest;
      var sv := Split(y, '"');
      assert sv == [v] + (tail + [""]);
      var r := Render(attrs);
      assert r == x + ['"'] + y;
      assert Split(r, '"') == [x] + sv;
      assert Pieces(attrs) == [x, v] + tail;
      TwoThenTail(x, v, tail, "");
    }
  }

  lemma StripKeyPiece(name: string)
    requires |name| == 0 || (!IsSpace(name[0]) && name[0] != '\0')
    ensures LStrip(KeyPiece(name)) == name + "="
  {
    var u := name + "=";
    var t := KeyPiece(name);
    assert t == [' '] + u;
    assert t[1..] == u;
    assert u[0] != '\0' && !IsSpace(u[0]);
  }

  lemma ChompEquals(name: string)
    ensures Chomp(name + "=", "=") == name
  {
    var u := name + "=";
    assert u[|u| - 1..] == "=";
    assert u[..|u| - 1] == name;
  }

  /** A group's name is what the tokenizer keys it by. */
  lemma KeyOfRendered(name: string)
    requires |name| == 0 || (!IsSpace(name[0]) && name[0] != '\0')
    ensures Key(KeyPiece(name)) == name
  {
    StripKeyPiece(name);
    ChompEquals(name);
  }

  lemma NamesStrippedTail(attrs: seq<Attribute>)
    requires |attrs| > 0 && NamesStripped(attrs)
    ensures NamesStripped(attrs[1..])
    ensures |attrs[0].name| == 0 || (!IsSpace(attrs[0].name[0]) && attrs[0].name[0] != '\0')
  {
    forall i | 0 <= i < |attrs[1..]|
      ensures |attrs[1..][i].name| == 0 || (!IsSpace(attrs[1..][i].name[0]) && attrs[1..][i].name[0] != '\0')
    {
      assert attrs[1..][i] == attrs[i + 1];
    }
  }

  lemma {:induction false} PairPieces(attrs: seq<Attribute>)
    requires NamesStripped(attrs)
    ensures Pair(Pieces(attrs)) == Bindings(attrs)
  {
    if |attrs| > 0 {
      NamesStrippedTail(attrs);
      PairPieces(attrs[1..]);
      PairFirstGroup(attrs);
      KeyOfRendered(attrs[0].name);
    }
  }

  lemma PairFirstGroup(attrs: seq<Attribute>)
    requires |attrs| > 0
    ensures Pair(Pieces(attrs)) == map[Key(KeyPiece(attrs[0].name)) := Some(attrs[0].value)] + Pair(Pieces(attrs[1..]))
  {
    var ps := Pieces(attrs);
    var tail := Pieces(attrs[1..]);
    assert ps == [KeyPiece(attrs[0].name), attrs[0].value] + tail;
    assert ps[0] == KeyPiece(attrs[0].name) && ps[1] == attrs[0].value && ps[2..] == tail;
  }

  /**
   * The tokenizer recovers every ` name="value"` group of a caption tag, a
   * repeated name keeping its later value.
   */
  lemma {:induction false} ParseRendered(attrs: seq<Attribute>)
    requires Readable(attrs)
    ensures ParseAttributes(Render(attrs)) == Bindings(attrs)
  {
    SplitRendered(attrs);
    if |attrs| > 0 {
      LastPiece(attrs);
    }
    DropOneEmpty(Pieces(attrs));
    PairPieces(attrs);
  }

  lemma DropOneEmpty(ps: seq<string>)
    requires |ps| == 0 || ps[|ps| - 1] != ""
    ensures DropTrailingEmpty(ps + [""]) == ps
  {
    assert (ps + [""])[..|ps|] == ps;
  }

  lemma {:induction false} LastPiece(attrs: seq<Attribute>)
    requires |attrs| > 0
    ensures Pieces(attrs)[|Pieces(attrs)| - 1] == attrs[|attrs| - 1].value
  {
    if |attrs| > 1 {
      LastPiece(attrs[1..]);
    }
  }

  /** A name no group carries is unbound. */
  lemma {:induction false} UnboundName(attrs: seq<Attribute>, name: string)
    requires forall j :: 0 <= j < |attrs| ==> attrs[j].name != name
    ensures name !in Bindings(attrs)
  {
    if |attrs| > 0 {
      UnboundName(attrs[1..], name);
    }
  }

  /** A caption written out from its groups is rendered with exactly their bindings. */
  lemma CaptionFragment(attrs: seq<Attribute>, body: string, render: Renderer)
    requires Readable(attrs)
    ensures CaptionBlock(render)(Span(Render(attrs), body)) == render(Bindings(attrs), body)
  {
    ParseRendered(attrs);
  }

  /** The value bound to a name is that of its last group. */
  lemma {:induction false} LastGroupWins(attrs: seq<Attribute>, i: nat)
    requires i < |attrs|
    requires forall j :: i < j < |attrs| ==> attrs[j].name != attrs[i].name
    ensures attrs[i].name in Bindings(attrs) && Bindings(attrs)[attrs[i].name] == Some(attrs[i].value)
  {
    var tail := attrs[1..];
    assert Bindings(attrs) == map[attrs[0].name := Some(attrs[0].value)] + Bindings(tail);
    if i > 0 {
      assert tail[i - 1] == attrs[i];
      LastGroupWins(tail, i - 1);
    } else {
      UnboundName(tail, attrs[0].name);
    }
  }

  /** A trailing piece without a partner (an odd number of pieces) maps its key to nil. */
  lemma {:induction false} UnpairedKeyIsNil(pieces: seq<string>)
    requires |pieces| % 2 == 1
    ensures Key(pieces[|pieces| - 1]) in Pair(pieces) && Pair(pieces)[Key(pieces[|pieces| - 1])] == None
    decreases |pieces|
  {
    if |pieces| == 1 {
      assert Pair(pieces) == map[Key(pieces[0]) := None];
    } else {
      assert |pieces| >= 3;
      var tail := pieces[2..];
      assert |tail| % 2 == 1;
      var last := pieces[|pieces| - 1];
      assert tail[|tail| - 1] == last;
      UnpairedKeyIsNil(tail);
      var m := Pair(tail);
      assert Key(last) in m && m[Key(last)] == None;
      assert Pair(pieces) == map[Key(pieces[0]) := Some(pieces[1])] + m;
    }
  }

  /** An attribute written with an empty value ends the text in `""`, whose pieces Ruby drops: it maps to nil. */
  lemma EmptyLastValueIsNil()
    ensures ParseAttributes(" id=\"\"") == map["id" := None]
  {
    var attrs := [Attribute("id", "")];
    assert QuoteFree(attrs);
    SplitRendered(attrs);
    assert Render(attrs) == " id=\"\"";
    assert Pieces(attrs) + [""] == [KeyPiece("id"), "", ""];
    DropTwoEmpty(KeyPiece("id"));
    KeyOfRendered("id");
  }

  lemma DropTwoEmpty(x: string)
    requires x != ""
    ensures DropTrailingEmpty([x, "", ""]) == [x]
  {
    var ps := [x, "", ""];
    assert ps[..2] == [x, ""];
    assert DropTrailingEmpty(ps) == DropTrailingEmpty([x, ""]);
    assert [x, ""][..1] == [x];
    assert DropTrailingEmpty([x, ""]) == DropTrailingEmpty([x]);
  }
}
