/** What the scanner of internal/expr/parser.go takes for quoted and for nested, as a grammar: the text
    before the closing braces is made of plain characters, string literals and braced texts. */
module ExprGrammar {
  import opened Common
  import opened ExprParser

  datatype Piece = Raw(c: char) | Escaped(c: char)

  datatype Text =
    | Empty
    | Plain(before: Text, c: char)
    | Quoted(before: Text, q: char, body: seq<Piece>)
    | Braced(before: Text, inside: Text)

  predicate IsQuote(c: char) {
    c == '"' || c == '\''
  }

  /** A string literal ends at the first quote of its own kind that no backslash precedes. */
  predicate FitsIn(q: char, p: Piece) {
    p.Raw? ==> p.c != q && p.c != '\\'
  }

  /** Quotes and opening braces are never plain; a closing brace is plain only outside all braces. */
  predicate WellFormed(t: Text, nested: bool) {
    match t
    case Empty => true
    case Plain(b, c) => WellFormed(b, nested) && !IsQuote(c) && c != '{' && (nested ==> c != '}')
    case Quoted(b, q, body) => WellFormed(b, nested) && IsQuote(q) && forall p :: p in body ==> FitsIn(q, p)
    case Braced(b, inside) => WellFormed(b, nested) && WellFormed(inside, true)
  }

  function SpellPieces(body: seq<Piece>): string {
    if body == [] then ""
    else
      var p := body[|body|-1];
      SpellPieces(body[..|body|-1]) + if p.Raw? then [p.c] else ['\\', p.c]
  }

  function SpellText(t: Text): string {
    match t
    case Empty => ""
    case Plain(b, c) => SpellText(b) + [c]
    case Quoted(b, q, body) => SpellText(b) + [q] + SpellPieces(body) + [q]
    case Braced(b, inside) => SpellText(b) + "{" + SpellText(inside) + "}"
  }

  // ---------------------------------------------------------------------------
  // Well-formed texts leave the scanner where it was

  lemma RunChar(l: Lexer, s: string, c: char)
    ensures Run(l, s + [c]) == Next(Run(l, s), c)
  {
    assert (s + [c])[..|s|] == s;
  }

  lemma {:induction false} RunPieces(l: Lexer, q: char, body: seq<Piece>)
    requires l.quote == Some(q) && !l.escaped && forall p :: p in body ==> FitsIn(q, p)
    ensures Run(l, SpellPieces(body)) == l
  {
    if body != [] {
      var front, p := body[..|body|-1], body[|body|-1];
      RunPieces(l, q, front);
      assert FitsIn(q, p);
      if p.Raw? {
        RunChar(l, SpellPieces(front), p.c);
      } else {
        RunChar(l, SpellPieces(front), '\\');
        RunChar(l, SpellPieces(front) + ['\\'], p.c);
        assert SpellPieces(body) == SpellPieces(front) + ['\\'] + [p.c];
      }
    }
  }

  lemma RunQuoted(l: Lexer, q: char, body: seq<Piece>)
    requires l.quote.None? && !l.escaped && IsQuote(q) && forall p :: p in body ==> FitsIn(q, p)
    ensures Run(l, [q] + SpellPieces(body) + [q]) == l
  {
    var inside := l.(quote := Some(q));
    assert Run(l, [q]) == inside by { assert [q] == "" + [q]; RunChar(l, "", q); }
    RunPieces(inside, q, body);
    RunAppend(l, [q], SpellPieces(body));
    RunChar(l, [q] + SpellPieces(body), q);
  }

  lemma RunThenQuoted(l: Lexer, front: string, q: char, body: seq<Piece>)
    requires l.quote.None? && !l.escaped && IsQuote(q) && forall p :: p in body ==> FitsIn(q, p)
    requires Run(l, front) == l
    ensures Run(l, front + [q] + SpellPieces(body) + [q]) == l
  {
    RunQuoted(l, q, body);
    RunAppend(l, front, [q] + SpellPieces(body) + [q]);
    assert front + [q] + SpellPieces(body) + [q] == front + ([q] + SpellPieces(body) + [q]);
  }

  lemma RunThenBraced(l: Lexer, front: string, inside: string)
    requires l.quote.None? && !l.escaped && Run(l, front) == l
    requires Run(l.(depth := l.depth + 1), inside) == l.(depth := l.depth + 1)
    ensures Run(l, front + "{" + inside + "}") == l
  {
    RunChar(l, front, '{');
    RunAppend(l, front + "{", inside);
    RunChar(l, front + "{" + inside, '}');
  }

  lemma {:induction false} RunText(l: Lexer, t: Text)
    requires l.quote.None? && !l.escaped && WellFormed(t, l.depth > 0)
    ensures Run(l, SpellText(t)) == l
    decreases t
  {
    match t
    case Empty =>
    case Plain(b, c) =>
      RunText(l, b);
      RunChar(l, SpellText(b), c);
    case Quoted(b, q, body) =>
      RunText(l, b);
      RunThenQuoted(l, SpellText(b), q, body);
    case Braced(b, inside) =>
      RunText(l, b);
      RunText(l.(depth := l.depth + 1), inside);
      RunThenBraced(l, SpellText(b), SpellText(inside));
  }

  // ---------------------------------------------------------------------------
  // Every text can be read that way

  /** A text with some braces still open, innermost last. */
  datatype Open = Base(t: Text) | Within(outer: Open, t: Text)

  /** A string literal that is still open. */
  datatype Str = Str(q: char, body: seq<Piece>, escaped: bool)

  function SpellOpen(o: Open): string {
    match o
    case Base(t) => SpellText(t)
    case Within(outer, t) => SpellOpen(outer) + "{" + SpellText(t)
  }

  function SpellStr(s: Option<Str>): string {
    match s
    case None => ""
    case Some(s) => [s.q] + SpellPieces(s.body) + if s.escaped then "\\" else ""
  }

  predicate OpenFits(o: Open) {
    match o
    case Base(t) => WellFormed(t, false)
    case Within(outer, t) => OpenFits(outer) && WellFormed(t, true)
  }

  predicate StrFits(s: Option<Str>) {
    s.Some? ==> IsQuote(s.value.q) && forall p :: p in s.value.body ==> FitsIn(s.value.q, p)
  }

  function Depth(o: Open): nat {
    if o.Base? then 0 else Depth(o.outer) + 1
  }

  function LexerOf(o: Open, s: Option<Str>): Lexer {
    Lexer(Depth(o), if s.Some? then Some(s.value.q) else None, s.Some? && s.value.escaped)
  }

  ghost predicate Reads(text: string, o: Open, s: Option<Str>) {
    OpenFits(o) && StrFits(s) && text == SpellOpen(o) + SpellStr(s) && Run(START, text) == LexerOf(o, s)
  }

  function Extend(o: Open, t: Text): Open {
    if o.Base? then Base(t) else Within(o.outer, t)
  }

  lemma ExtendFits(o: Open, t: Text)
    requires OpenFits(o) && WellFormed(t, o.Within?)
    ensures OpenFits(Extend(o, t)) && Depth(Extend(o, t)) == Depth(o)
  {
  }

  lemma InnermostFits(o: Open)
    requires OpenFits(o)
    ensures WellFormed(o.t, o.Within?)
  {
  }

  lemma ExtendSpells(o: Open, t: Text, x: string)
    requires SpellText(t) == SpellText(o.t) + x
    ensures SpellOpen(Extend(o, t)) == SpellOpen(o) + x
  {
    if o.Within? { assert SpellOpen(o.outer) + "{" + (SpellText(o.t) + x) == SpellOpen(o.outer) + "{" + SpellText(o.t) + x; }
  }

  /** The innermost text grows by a complete part. */
  lemma ReadPart(text: string, o: Open, t: Text, x: string, l: Lexer)
    requires OpenFits(o) && WellFormed(t, o.Within?) && SpellText(t) == SpellText(o.t) + x
    requires text == SpellOpen(o) + x && l == Run(START, text) == Lexer(Depth(o), None, false)
    ensures Reads(text, Extend(o, t), None)
  {
    ExtendFits(o, t);
    ExtendSpells(o, t, x);
    assert text + "" == text;
  }

  lemma ReadPiece(text: string, o: Open, s: Str, c: char, p: Piece, s': Str)
    requires Reads(text, o, Some(s)) && Run(START, text + [c]) == Lexer(Depth(o), Some(s.q), false)
    requires FitsIn(s.q, p) && s' == Str(s.q, s.body + [p], false)
    requires p == if s.escaped then Escaped(c) else Raw(c)
    ensures Reads(text + [c], o, Some(s'))
  {
    PieceSpells(s, c, p);
    assert SpellOpen(o) + (SpellStr(Some(s)) + [c]) == SpellOpen(o) + SpellStr(Some(s)) + [c];
  }

  lemma PieceSpells(s: Str, c: char, p: Piece)
    requires p == if s.escaped then Escaped(c) else Raw(c)
    ensures SpellStr(Some(Str(s.q, s.body + [p], false))) == SpellStr(Some(s)) + [c]
  {
    assert (s.body + [p])[..|s.body|] == s.body;
  }

  lemma ReadBackslash(text: string, o: Open, s: Str)
    requires Reads(text, o, Some(s)) && !s.escaped && Run(START, text + ['\\']) == Lexer(Depth(o), Some(s.q), true)
    ensures Reads(text + ['\\'], o, Some(s.(escaped := true)))
  {
    assert SpellStr(Some(s.(escaped := true))) == SpellStr(Some(s)) + ['\\'];
    assert SpellOpen(o) + (SpellStr(Some(s)) + ['\\']) == SpellOpen(o) + SpellStr(Some(s)) + ['\\'];
  }

  lemma Regroup(a: string, q: string, b: string)
    ensures a + (q + b + "") + q == a + (q + b + q) == a + q + b + q
  {
  }

  lemma ReadQuoteEnd(text: string, o: Open, s: Str)
    requires Reads(text, o, Some(s)) && !s.escaped && Run(START, text + [s.q]) == Lexer(Depth(o), None, false)
    ensures Reads(text + [s.q], Extend(o, Quoted(o.t, s.q, s.body)), None)
  {
    var x := [s.q] + SpellPieces(s.body) + [s.q];
    InnermostFits(o);
    assert SpellStr(Some(s)) == [s.q] + SpellPieces(s.body) + "";
    Regroup(SpellOpen(o), [s.q], SpellPieces(s.body));
    Regroup(SpellText(o.t), [s.q], SpellPieces(s.body));
    ReadPart(text + [s.q], o, Quoted(o.t, s.q, s.body), x, Run(START, text + [s.q]));
  }

  lemma ReadInString(text: string, o: Open, s: Str, c: char) returns (o': Open, s': Option<Str>)
    requires Reads(text, o, Some(s))
    ensures Reads(text + [c], o', s')
  {
    RunChar(START, text, c);
    if s.escaped {
      o', s' := o, Some(Str(s.q, s.body + [Escaped(c)], false));
      ReadPiece(text, o, s, c, Escaped(c), s'.value);
    } else if c == '\\' {
      o', s' := o, Some(s.(escaped := true));
      ReadBackslash(text, o, s);
    } else if c == s.q {
      o', s' := Extend(o, Quoted(o.t, s.q, s.body)), None;
      ReadQuoteEnd(text, o, s);
    } else {
      o', s' := o, Some(Str(s.q, s.body + [Raw(c)], false));
      ReadPiece(text, o, s, c, Raw(c), s'.value);
    }
  }

  lemma ReadQuoteStart(text: string, o: Open, c: char)
    requires Reads(text, o, None) && IsQuote(c) && Run(START, text + [c]) == Lexer(Depth(o), Some(c), false)
    ensures Reads(text + [c], o, Some(Str(c, [], false)))
  {
    assert text == SpellOpen(o);
    assert SpellStr(Some(Str(c, [], false))) == [c];
  }

  lemma ReadBrace(text: string, o: Open)
    requires Reads(text, o, None) && Run(START, text + "{") == Lexer(Depth(o) + 1, None, false)
    ensures Reads(text + "{", Within(o, Empty), None)
  {
    assert text == SpellOpen(o);
  }

  lemma ReadBraceEnd(text: string, o: Open)
    requires Reads(text, o, None) && o.Within? && Run(START, text + "}") == Lexer(Depth(o) - 1, None, false)
    ensures Reads(text + "}", Extend(o.outer, Braced(o.outer.t, o.t)), None)
  {
    var x := "{" + SpellText(o.t) + "}";
    InnermostFits(o.outer);
    assert text == SpellOpen(o);
    assert text + "}" == SpellOpen(o.outer) + x;
    assert SpellText(Braced(o.outer.t, o.t)) == SpellText(o.outer.t) + x;
    ReadPart(text + "}", o.outer, Braced(o.outer.t, o.t), x, Run(START, text + "}"));
  }

  lemma ReadPlain(text: string, o: Open, c: char)
    requires Reads(text, o, None) && !IsQuote(c) && c != '{' && (c == '}' ==> o.Base?)
    requires Run(START, text + [c]) == Lexer(Depth(o), None, false)
    ensures Reads(text + [c], Extend(o, Plain(o.t, c)), None)
  {
    InnermostFits(o);
    assert text == SpellOpen(o);
    ReadPart(text + [c], o, Plain(o.t, c), [c], Run(START, text + [c]));
  }

  lemma ReadOutside(text: string, o: Open, c: char) returns (o': Open, s': Option<Str>)
    requires Reads(text, o, None)
    ensures Reads(text + [c], o', s')
  {
    RunChar(START, text, c);
    if IsQuote(c) {
      o', s' := o, Some(Str(c, [], false));
      ReadQuoteStart(text, o, c);
    } else if c == '{' {
      o', s' := Within(o, Empty), None;
      ReadBrace(text, o);
    } else if c == '}' && o.Within? {
      o', s' := Extend(o.outer, Braced(o.outer.t, o.t)), None;
      ReadBraceEnd(text, o);
    } else {
      o', s' := Extend(o, Plain(o.t, c)), None;
      ReadPlain(text, o, c);
    }
  }

  lemma {:induction false} EveryTextReads(text: string) returns (o: Open, s: Option<Str>)
    ensures Reads(text, o, s)
    decreases |text|
  {
    if text == "" {
      o, s := Base(Empty), None;
    } else {
      var n := |text| - 1;
      o, s := EveryTextReads(text[..n]);
      assert text == text[..n] + [text[n]];
      if s.Some? { o, s := ReadInString(text[..n], o, s.value, text[n]); }
      else { o, s := ReadOutside(text[..n], o, text[n]); }
    }
  }

  // ---------------------------------------------------------------------------
  // What closes an expression

  /** `s` consists of complete string literals, complete braced texts and plain characters. */
  ghost predicate IsComplete(s: string) {
    exists t :: WellFormed(t, false) && SpellText(t) == s
  }

  /** The scanner is back where it started exactly after a complete text. */
  lemma BackAtStartIff(s: string)
    ensures Run(START, s) == START <==> IsComplete(s)
  {
    if t :| WellFormed(t, false) && SpellText(t) == s { RunText(START, t); }
    if Run(START, s) == START {
      var o, q := EveryTextReads(s);
      assert o.Base? && q.None?;
      assert SpellText(o.t) == s;
    }
  }

  /** An expression ends at the first two closing braces that follow a complete text. */
  lemma ClosesIff(s: string, at: Option<nat>)
    ensures FirstClosing(s, at) <==>
      match at
      case Some(i) =>
        && i + 1 < |s| && s[i] == '}' && s[i+1] == '}' && IsComplete(s[..i])
        && forall j: nat :: j < i && s[j] == '}' && s[j+1] == '}' ==> !IsComplete(s[..j])
      case None => forall j: nat :: j + 1 < |s| && s[j] == '}' && s[j+1] == '}' ==> !IsComplete(s[..j])
  {
    forall j: nat | j + 1 < |s| ensures ClosesAt(s, j) <==> s[j] == '}' && s[j+1] == '}' && IsComplete(s[..j]) {
      BackAtStartIff(s[..j]);
    }
    if at.Some? && at.value + 1 < |s| {
      if FirstClosing(s, at) {
        forall j: nat | j < at.value && s[j] == '}' && s[j+1] == '}' ensures !IsComplete(s[..j]) { assert !ClosesAt(s, j); }
      }
    }
    if at.None? && FirstClosing(s, at) {
      forall j: nat | j + 1 < |s| && s[j] == '}' && s[j+1] == '}' ensures !IsComplete(s[..j]) { assert !ClosesAt(s, j); }
    }
  }

  // ---------------------------------------------------------------------------
  // The flags

  /** `isLiteral` says that the input holds no "{{", and then it is one literal; `isSimple` says that it is
      one expression in braces and nothing else. */
  lemma FlagsMean(input: string, p: ParsedExpression)
    requires Parsed(input) == Ok(p)
    ensures p.isLiteral <==> forall i :: 0 <= i < |input| - 1 ==> !(input[i] == '{' && input[i+1] == '{')
    ensures p.isLiteral ==> p.segments == [Literal(input)]
    ensures p.isSimple <==> exists e :: p.segments == [Expression(e)]
    ensures p.isSimple ==> exists e, pad: (string, string) ::
      AllSpace(pad.0) && AllSpace(pad.1) && input == "{{" + (pad.0 + e + pad.1) + "}}"
  {
    if p.isLiteral {
      forall i | 0 <= i < |input| - 1 ensures !(input[i] == '{' && input[i+1] == '{') { assert !OpensAt(input, i); }
    } else {
      var o := Opening(input).value;
      assert OpensAt(input, o);
    }
    if p.isSimple {
      var pads := ParseSpellsInput(input, 0);
      var e := p.segments[0].text;
      assert p.segments == [Expression(e)];
      assert Spell(p.segments, pads) == Show(p.segments[0], pads[0]) + Spell([], []);
      assert input == "{{" + (pads[0].0 + e + pads[0].1) + "}}";
    }
  }
}
