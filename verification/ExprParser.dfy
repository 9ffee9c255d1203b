/** The `{{ }}` parser of internal/expr/parser.go. */
module ExprParser {
  import opened Common

  datatype Segment = Literal(text: string) | Expression(text: string)

  datatype ParsedExpression = ParsedExpression(segments: seq<Segment>, isLiteral: bool, isSimple: bool)

  datatype ParseError = Unclosed(pos: nat) | EmptyExpression(pos: nat)

  // ---------------------------------------------------------------------------
  // Finding the closing braces

  /** The scanner's state: open braces, the quote character if inside a string, and whether the
      next character of the string is escaped. */
  datatype Lexer = Lexer(depth: nat, quote: Option<char>, escaped: bool)

  const START := Lexer(0, None, false)

  function Next(l: Lexer, ch: char): Lexer {
    if l.quote.Some? then
      if l.escaped then l.(escaped := false)
      else if ch == '\\' then l.(escaped := true)
      else if ch == l.quote.value then l.(quote := None)
      else l
    else if ch == '"' || ch == '\'' then l.(quote := Some(ch))
    else if ch == '{' then l.(depth := l.depth + 1)
    else if ch == '}' && l.depth > 0 then l.(depth := l.depth - 1)
    else l
  }

  function Run(l: Lexer, s: string): Lexer {
    if s == "" then l else Next(Run(l, s[..|s|-1]), s[|s|-1])
  }

  /** Two closing braces at `i`, outside strings and outside nested braces. */
  predicate ClosesAt(s: string, i: nat) {
    i + 1 < |s| && Run(START, s[..i]) == START && s[i] == '}' && s[i+1] == '}'
  }

  ghost predicate FirstClosing(s: string, at: Option<nat>) {
    match at
    case Some(i) => ClosesAt(s, i) && forall j: nat :: j < i ==> !ClosesAt(s, j)
    case None => forall j: nat :: !ClosesAt(s, j)
  }

  lemma RunSnoc(l: Lexer, s: string, i: nat)
    requires i < |s|
    ensures Run(l, s[..i+1]) == Next(Run(l, s[..i]), s[i])
  {
    assert s[..i+1][..i] == s[..i];
  }

  /** `findClosingBraces` finds the first closing braces that are neither quoted nor nested. */
  method FindClosingBraces(s: string) returns (at: Option<nat>)
    ensures FirstClosing(s, at)
  {
    var depth: nat := 0;
    var inString := false;
    var stringChar := '"';
    var i: nat := 0;
    while i < |s|
      invariant i <= |s|
      invariant Run(START, s[..i]) == Lexer(depth, if inString then Some(stringChar) else None, false)
      invariant forall j: nat :: j < i ==> !ClosesAt(s, j)
      decreases |s| - i
    {
      var ch := s[i];
      RunSnoc(START, s, i);
      if inString {
        if ch == '\\' && i + 1 < |s| {
          RunSnoc(START, s, i + 1);
          i := i + 2;
          continue;
        }
        if ch == '\\' { break; }
        if ch == stringChar { inString := false; }
      } else if ch == '"' || ch == '\'' {
        inString, stringChar := true, ch;
      } else if ch == '{' {
        depth := depth + 1;
      } else if ch == '}' {
        if depth > 0 {
          depth := depth - 1;
        } else if i + 1 < |s| && s[i+1] == '}' {
          return Some(i);
        }
      }
      i := i + 1;
    }
    at := None;
  }

  // ---------------------------------------------------------------------------
  // White space and openings

  predicate IsSpace(c: char) {
    || c in "\t\n\r " || c == '\U{0B}' || c == '\U{0C}' || c == '\U{85}' || c == '\U{A0}' || c == '\U{1680}'
    || '\U{2000}' <= c <= '\U{200A}' || c in "\U{2028}\U{2029}\U{202F}\U{205F}\U{3000}"
  }

  predicate AllSpace(s: string) {
    forall i :: 0 <= i < |s| ==> IsSpace(s[i])
  }

  /** `strings.TrimSpace`. */
  function Trim(s: string): string {
    if s != "" && IsSpace(s[0]) then Trim(s[1..])
    else if s != "" && IsSpace(s[|s|-1]) then Trim(s[..|s|-1])
    else s
  }

  ghost predicate Trimmed(s: string) {
    s == "" || (!IsSpace(s[0]) && !IsSpace(s[|s|-1]))
  }

  lemma {:induction false} TrimSplits(s: string) returns (before: string, after: string)
    ensures AllSpace(before) && AllSpace(after) && s == before + Trim(s) + after
    ensures Trimmed(Trim(s))
  {
    if s != "" && IsSpace(s[0]) {
      before, after := TrimSplits(s[1..]);
      before := SpaceBefore(s, before, Trim(s), after);
    } else if s != "" && IsSpace(s[|s|-1]) {
      before, after := TrimSplits(s[..|s|-1]);
      after := SpaceAfter(s, before, Trim(s), after);
    } else {
      before, after := "", "";
    }
  }

  lemma SpaceBefore(s: string, before: string, middle: string, after: string) returns (more: string)
    requires s != "" && IsSpace(s[0]) && AllSpace(before) && s[1..] == before + middle + after
    ensures AllSpace(more) && s == more + middle + after
  {
    more := [s[0]] + before;
  }

  lemma SpaceAfter(s: string, before: string, middle: string, after: string) returns (more: string)
    requires s != "" && IsSpace(s[|s|-1]) && AllSpace(after) && s[..|s|-1] == before + middle + after
    ensures AllSpace(more) && s == before + middle + more
  {
    more := after + [s[|s|-1]];
  }

  predicate OpensAt(s: string, i: nat) {
    i + 1 < |s| && s[i] == '{' && s[i+1] == '{'
  }

  /** `strings.Index(s, "{{")`, from position `i` on. */
  function OpeningFrom(s: string, i: nat): (r: Option<nat>)
    ensures r.Some? ==> i <= r.value && OpensAt(s, r.value) && forall j: nat :: i <= j < r.value ==> !OpensAt(s, j)
    ensures r.None? ==> forall j: nat :: i <= j ==> !OpensAt(s, j)
    decreases |s| - i
  {
    if i + 1 >= |s| then None else if OpensAt(s, i) then Some(i) else OpeningFrom(s, i + 1)
  }

  function Opening(s: string): Option<nat> {
    OpeningFrom(s, 0)
  }

  function ClosingFrom(s: string, i: nat): (r: Option<nat>)
    ensures r.Some? ==> i <= r.value && ClosesAt(s, r.value) && forall j: nat :: i <= j < r.value ==> !ClosesAt(s, j)
    ensures r.None? ==> forall j: nat :: i <= j ==> !ClosesAt(s, j)
    decreases |s| - i
  {
    if i + 1 >= |s| then None else if ClosesAt(s, i) then Some(i) else ClosingFrom(s, i + 1)
  }

  function Closing(s: string): Option<nat> {
    ClosingFrom(s, 0)
  }

  // ---------------------------------------------------------------------------
  // Parsing

  /** One turn: the segments taken from the front of a non-empty text, and what is left of it. */
  function Turn(rest: string, consumed: nat): (r: Result<(seq<Segment>, string), ParseError>)
    requires rest != ""
    ensures r.Ok? ==> |r.value.1| < |rest|
  {
    match Opening(rest)
    case None => Ok(([Literal(rest)], ""))
    case Some(o) =>
      match Closing(rest[o+2..])
      case None => Err(Unclosed(consumed + o))
      case Some(c) =>
        var text := Trim(rest[o+2..][..c]);
        if text == "" then Err(EmptyExpression(consumed + o))
        else Ok((Before(rest[..o]) + [Expression(text)], rest[o+2..][c+2..]))
  }

  function Before(literal: string): seq<Segment> {
    if literal == "" then [] else [Literal(literal)]
  }

  /** The segments of the text that is left after `consumed` characters. */
  function Segments(rest: string, consumed: nat): Result<seq<Segment>, ParseError>
    decreases |rest|
  {
    if rest == "" then Ok([])
    else match Turn(rest, consumed)
      case Err(e) => Err(e)
      case Ok(t) => Prepend(t.0, Segments(t.1, consumed + |rest| - |t.1|))
  }

  function Prepend(segments: seq<Segment>, r: Result<seq<Segment>, ParseError>): Result<seq<Segment>, ParseError> {
    if r.Ok? then Ok(segments + r.value) else r
  }

  /** What parsing an input means. */
  function Parsed(input: string): Result<ParsedExpression, ParseError> {
    if Opening(input).None? then Ok(ParsedExpression([Literal(input)], true, false))
    else match Segments(input, 0)
      case Err(e) => Err(e)
      case Ok(segments) => Ok(ParsedExpression(segments, false, |segments| == 1 && segments[0].Expression?))
  }

  lemma PrependTwice(a: seq<Segment>, b: seq<Segment>, r: Result<seq<Segment>, ParseError>)
    ensures Prepend(a, Prepend(b, r)) == Prepend(a + b, r)
  {
    if r.Ok? { assert a + (b + r.value) == a + b + r.value; }
  }

  lemma PrependNothing(r: Result<seq<Segment>, ParseError>)
    ensures Prepend([], r) == r
  {
    if r.Ok? { assert [] + r.value == r.value; }
  }

  lemma FirstClosingUnique(s: string, at: Option<nat>)
    requires FirstClosing(s, at)
    ensures at == Closing(s)
  {
    var c := Closing(s);
    assert c.Some? && at.Some? ==> !(c.value < at.value) && !(at.value < c.value);
  }

  lemma LoopTurn(segments: seq<Segment>, remaining: string, consumed: nat, one: seq<Segment>, next: string, left: nat)
    requires remaining != "" && Turn(remaining, consumed) == Ok((one, next)) && left == consumed + |remaining| - |next|
    ensures Prepend(segments, Segments(remaining, consumed)) == Prepend(segments + one, Segments(next, left))
  {
    PrependTwice(segments, one, Segments(next, left));
  }

  method ParseOne(remaining: string, consumed: nat) returns (r: Result<(seq<Segment>, string), ParseError>)
    requires remaining != ""
    ensures r == Turn(remaining, consumed)
  {
    var open := Opening(remaining);
    if open.None? { return Ok(([Literal(remaining)], "")); }
    var segments: seq<Segment> := [];
    if open.value > 0 { segments := segments + [Literal(remaining[..open.value])]; }
    assert segments == Before(remaining[..open.value]);
    var body := remaining[open.value+2..];
    var close := FindClosingBraces(body);
    FirstClosingUnique(body, close);
    if close.None? { return Err(Unclosed(consumed + open.value)); }
    var text := Trim(body[..close.value]);
    if text == "" { return Err(EmptyExpression(consumed + open.value)); }
    r := Ok((segments + [Expression(text)], body[close.value+2..]));
  }

  /** The parse loop computes that meaning; the remaining text shrinks at every turn. */
  method Parse(input: string) returns (r: Result<ParsedExpression, ParseError>)
    ensures r == Parsed(input)
  {
    if Opening(input).None? {
      return Ok(ParsedExpression([Literal(input)], true, false));
    }
    var segments: seq<Segment> := [];
    var remaining := input;
    var consumed: nat := 0;
    PrependNothing(Segments(input, 0));
    while |remaining| > 0
      invariant consumed + |remaining| == |input|
      invariant Segments(input, 0) == Prepend(segments, Segments(remaining, consumed))
      decreases |remaining|
    {
      var one := ParseOne(remaining, consumed);
      if one.Err? { return Err(one.error); }
      var left := |input| - |one.value.1|;
      LoopTurn(segments, remaining, consumed, one.value.0, one.value.1, left);
      segments, remaining, consumed := segments + one.value.0, one.value.1, left;
    }
    assert segments + [] == segments;
    r := Ok(ParsedExpression(segments, false, |segments| == 1 && segments[0].Expression?));
  }

  // ---------------------------------------------------------------------------
  // Nothing is lost

  function Show(s: Segment, pad: (string, string)): string {
    match s
    case Literal(t) => t
    case Expression(e) => "{{" + (pad.0 + e + pad.1) + "}}"
  }

  /** The text of some segments: literals as they are, expressions in braces with the given padding. */
  function Spell(segments: seq<Segment>, pads: seq<(string, string)>): string
    requires |pads| == |segments|
  {
    if segments == [] then "" else Show(segments[0], pads[0]) + Spell(segments[1..], pads[1..])
  }

  ghost predicate Paddings(pads: seq<(string, string)>) {
    forall i :: 0 <= i < |pads| ==> AllSpace(pads[i].0) && AllSpace(pads[i].1)
  }

  lemma SpellCons(s: Segment, pad: (string, string), segments: seq<Segment>, pads: seq<(string, string)>)
    requires |pads| == |segments|
    ensures Spell([s] + segments, [pad] + pads) == Show(s, pad) + Spell(segments, pads)
  {
    assert ([s] + segments)[1..] == segments && ([pad] + pads)[1..] == pads;
  }

  lemma ExpressionSpelled(rest: string, o: nat, c: nat) returns (pad: (string, string))
    requires o + 2 + c + 2 <= |rest| && OpensAt(rest, o)
    requires rest[o+2+c] == '}' && rest[o+2+c+1] == '}'
    ensures AllSpace(pad.0) && AllSpace(pad.1)
    ensures rest == rest[..o] + (Show(Expression(Trim(rest[o+2..][..c])), pad) + rest[o+2..][c+2..])
  {
    var before, after := TrimSplits(rest[o+2..][..c]);
    pad := (before, after);
  }

  lemma BeforeSpelled(literal: string, segments: seq<Segment>, pads: seq<(string, string)>) returns (more: seq<(string, string)>)
    requires |pads| == |segments| && Paddings(pads)
    ensures |more| == |Before(literal) + segments| && Paddings(more)
    ensures Spell(Before(literal) + segments, more) == literal + Spell(segments, pads)
  {
    if literal == "" {
      more := pads;
      assert Before(literal) + segments == segments;
    } else {
      more := [("", "")] + pads;
      SpellCons(Literal(literal), ("", ""), segments, pads);
    }
  }

  lemma SplitTurn(rest: string, consumed: nat) returns (segments: seq<Segment>, next: string, left: nat, tail: seq<Segment>)
    requires rest != "" && Segments(rest, consumed).Ok?
    ensures Turn(rest, consumed) == Ok((segments, next)) && |next| < |rest|
    ensures Segments(next, left) == Ok(tail)
    ensures Segments(rest, consumed) == Ok(segments + tail)
  {
    var t := Turn(rest, consumed).value;
    segments, next, left := t.0, t.1, consumed + |rest| - |t.1|;
    tail := Segments(next, left).value;
  }

  /** On success the input is the literals and the expressions in braces, one after the other:
      nothing is lost but the padding of expressions. */
  lemma {:induction false} ParseSpellsInput(rest: string, consumed: nat) returns (pads: seq<(string, string)>)
    requires Segments(rest, consumed).Ok?
    ensures |pads| == |Segments(rest, consumed).value| && Paddings(pads)
    ensures Spell(Segments(rest, consumed).value, pads) == rest
    decreases |rest|
  {
    if rest == "" {
      pads := [];
    } else {
      var first, next, left, tail := SplitTurn(rest, consumed);
      var more := ParseSpellsInput(next, left);
      pads := TurnSpelled(rest, consumed, tail, more);
    }
  }

  lemma PiecesSpelled(literal: string, e: Segment, pad: (string, string), tail: seq<Segment>, more: seq<(string, string)>)
    returns (pads: seq<(string, string)>)
    requires |more| == |tail| && Paddings(more) && AllSpace(pad.0) && AllSpace(pad.1)
    ensures |pads| == |Before(literal) + [e] + tail| && Paddings(pads)
    ensures Spell(Before(literal) + [e] + tail, pads) == literal + (Show(e, pad) + Spell(tail, more))
  {
    SpellCons(e, pad, tail, more);
    pads := BeforeSpelled(literal, [e] + tail, [pad] + more);
    assert Before(literal) + [e] + tail == Before(literal) + ([e] + tail);
  }

  lemma TurnSpelled(rest: string, consumed: nat, tail: seq<Segment>, more: seq<(string, string)>) returns (pads: seq<(string, string)>)
    requires rest != "" && Turn(rest, consumed).Ok?
    requires |more| == |tail| && Paddings(more) && Spell(tail, more) == Turn(rest, consumed).value.1
    ensures |pads| == |Turn(rest, consumed).value.0 + tail| && Paddings(pads)
    ensures Spell(Turn(rest, consumed).value.0 + tail, pads) == rest
  {
    match Opening(rest)
    case None =>
      SpellCons(Literal(rest), ("", ""), tail, more);
      pads := [("", "")] + more;
    case Some(o) =>
      var c := Closing(rest[o+2..]).value;
      var pad := ExpressionSpelled(rest, o, c);
      pads := PiecesSpelled(rest[..o], Expression(Trim(rest[o+2..][..c])), pad, tail, more);
  }

  // ---------------------------------------------------------------------------
  // Errors

  /** An opening at `p` that is never closed, or that encloses nothing but white space. */
  ghost predicate Faulty(text: string, p: nat, e: ParseError) {
    && OpensAt(text, p)
    && match e
       case Unclosed(_) => Closing(text[p+2..]).None?
       case EmptyExpression(_) => Closing(text[p+2..]).Some? && AllSpace(text[p+2..][..Closing(text[p+2..]).value])
  }

  lemma TurnError(rest: string, consumed: nat, e: ParseError) returns (p: nat)
    requires Segments(rest, consumed) == Err(e) && Turn(rest, consumed).Err?
    ensures e.pos == consumed + p && Faulty(rest, p, e)
  {
    p := Opening(rest).value;
    match Closing(rest[p+2..])
    case None =>
    case Some(c) => var before, after := TrimSplits(rest[p+2..][..c]);
  }

  lemma FaultyLater(rest: string, next: string, q: nat, e: ParseError) returns (p: nat)
    requires |next| <= |rest| && next == rest[|rest| - |next|..] && Faulty(next, q, e)
    ensures p == q + |rest| - |next| && Faulty(rest, p, e)
  {
    p := q + |rest| - |next|;
    assert next[q+2..] == rest[p+2..];
  }

  lemma TurnLeavesSuffix(rest: string, consumed: nat)
    requires rest != "" && Turn(rest, consumed).Ok?
    ensures var next := Turn(rest, consumed).value.1; |next| < |rest| && next == rest[|rest| - |next|..]
  {
  }

  lemma LaterError(rest: string, consumed: nat, e: ParseError) returns (next: string, left: nat)
    requires Segments(rest, consumed) == Err(e) && Turn(rest, consumed).Ok?
    ensures |next| < |rest| && next == rest[|rest| - |next|..] && left == consumed + |rest| - |next|
    ensures Segments(next, left) == Err(e)
  {
    TurnLeavesSuffix(rest, consumed);
    next := Turn(rest, consumed).value.1;
    left := consumed + |rest| - |next|;
  }

  /** An error gives the position of an opening that is at fault in the way it says. */
  lemma {:induction false} ErrorNamesFaultyOpening(rest: string, consumed: nat, e: ParseError) returns (p: nat)
    requires Segments(rest, consumed) == Err(e)
    ensures e.pos == consumed + p && Faulty(rest, p, e)
    decreases |rest|
  {
    if Turn(rest, consumed).Err? {
      p := TurnError(rest, consumed, e);
    } else {
      var next, left := LaterError(rest, consumed, e);
      p := ErrorNamesFaultyOpening(next, left, e);
      p := FaultyLater(rest, next, p, e);
    }
  }

  // ---------------------------------------------------------------------------
  // Printing and parsing again

  const ONE_SPACE: (string, string) := (" ", " ")

  /** Segments printed with a single space on either side of every expression. */
  function Print(segments: seq<Segment>): string {
    if segments == [] then "" else Show(segments[0], ONE_SPACE) + Print(segments[1..])
  }

  lemma PrintCons(s: Segment, tail: seq<Segment>)
    ensures Print([s] + tail) == Show(s, ONE_SPACE) + Print(tail)
  {
    assert ([s] + tail)[1..] == tail;
  }

  lemma PrintPieces(literal: string, e: Segment, tail: seq<Segment>)
    ensures Print(Before(literal) + [e] + tail) == literal + (Show(e, ONE_SPACE) + Print(tail))
  {
    PrintCons(e, tail);
    if literal == "" {
      assert Before(literal) + [e] + tail == [e] + tail;
    } else {
      PrintCons(Literal(literal), [e] + tail);
      assert Before(literal) + [e] + tail == [Literal(literal)] + ([e] + tail);
    }
  }

  lemma {:induction false} RunAppend(l: Lexer, a: string, b: string)
    ensures Run(l, a + b) == Run(Run(l, a), b)
    decreases |b|
  {
    if b == "" {
      assert a + b == a;
    } else {
      RunAppend(l, a, b[..|b|-1]);
      assert (a + b)[..|a+b|-1] == a + b[..|b|-1];
    }
  }

  /** White space changes nothing outside a string and never ends one. */
  lemma {:induction false} RunSpace(l: Lexer, w: string)
    requires AllSpace(w)
    requires l.quote.Some? ==> !IsSpace(l.quote.value)
    ensures l.quote.None? ==> Run(l, w) == l
    ensures l.quote.Some? ==> Run(l, w).quote == l.quote
  {
    if w != "" {
      RunSpace(l, w[..|w|-1]);
      assert IsSpace(w[|w|-1]);
    }
  }

  /** Only quotes open strings. */
  lemma {:induction false} RunQuotes(s: string)
    ensures Run(START, s).quote.Some? ==> !IsSpace(Run(START, s).quote.value)
  {
    if s != "" { RunQuotes(s[..|s|-1]); }
  }

  /** An expression text on its own leaves the scanner where it started, and holds no closing braces. */
  ghost predicate Balanced(e: string) {
    Run(START, e) == START && forall j: nat :: !ClosesAt(e, j)
  }

  lemma RunPadded(before: string, e: string, after: string)
    requires AllSpace(before) && AllSpace(after)
    ensures Run(START, before + e) == Run(START, e)
    ensures Run(START, before + e + after) == START <==> Run(START, e) == START
  {
    RunSpace(START, before);
    RunAppend(START, before, e);
    RunAppend(START, before + e, after);
    RunQuotes(e);
    RunSpace(Run(START, e), after);
  }

  /** Closing braces inside an expression would have closed the text it was cut from. */
  lemma ClosesInside(body: string, before: string, e: string, j: nat)
    requires AllSpace(before) && before + e <= body && ClosesAt(e, j)
    ensures ClosesAt(body, |before| + j)
  {
    var i := |before| + j;
    assert body[i] == e[j] && body[i+1] == e[j+1];
    assert body[..i] == before + e[..j];
    RunPadded(before, e[..j], "");
  }

  lemma CutIsBalanced(body: string, c: nat)
    requires Closing(body) == Some(c)
    ensures Balanced(Trim(body[..c]))
  {
    var before, after := TrimSplits(body[..c]);
    var e := Trim(body[..c]);
    RunPadded(before, e, after);
    forall j: nat ensures !ClosesAt(e, j) {
      if ClosesAt(e, j) { ClosesInside(body, before, e, j); }
    }
  }

  /** A balanced expression printed in braces closes exactly where it was printed. */
  lemma PrintedCloses(e: string, tail: string)
    requires Balanced(e)
    ensures Closing(" " + e + " " + "}}" + tail) == Some(|e| + 2)
  {
    var body := " " + e + " " + "}}" + tail;
    RunPadded(" ", e, " ");
    assert body[..|e|+2] == " " + e + " ";
    assert ClosesAt(body, |e| + 2);
    forall j: nat | j < |e| + 2 ensures !ClosesAt(body, j) {
      if ClosesAt(body, j) { PrintedClosesInside(e, tail, j); }
    }
  }

  lemma PrintedClosesInside(e: string, tail: string, j: nat)
    requires j < |e| + 2 && ClosesAt(" " + e + " " + "}}" + tail, j)
    ensures 0 < j <= |e| && ClosesAt(e, j - 1)
  {
    var body := " " + e + " " + "}}" + tail;
    assert body[0] == ' ' && body[|e|+1] == ' ';
    assert e[j-1] == body[j] && e[j] == body[j+1];
    assert body[..j] == " " + e[..j-1];
    RunPadded(" ", e[..j-1], "");
  }

  /** A literal that can stand before an expression: it holds no opening and does not run into one. */
  ghost predicate PlainBefore(literal: string) {
    Opening(literal).None? && (literal != "" ==> literal[|literal|-1] != '{')
  }

  lemma CutIsPlain(rest: string, o: nat)
    requires Opening(rest) == Some(o)
    ensures PlainBefore(rest[..o])
  {
    var literal := rest[..o];
    forall j: nat ensures !OpensAt(literal, j) {
      assert OpensAt(literal, j) ==> j < o && OpensAt(rest, j);
    }
    assert o > 0 ==> !OpensAt(rest, o - 1);
  }

  lemma PrintedOpens(literal: string, x: string)
    requires PlainBefore(literal)
    ensures Opening(literal + ("{{" + x)) == Some(|literal|)
  {
    var s := literal + ("{{" + x);
    assert OpensAt(s, |literal|);
    forall j: nat | j < |literal| ensures !OpensAt(s, j) {
      assert !OpensAt(literal, j);
      assert j + 1 == |literal| ==> s[j] == literal[|literal|-1];
    }
  }

  lemma TrimPadded(e: string)
    requires e != "" && Trimmed(e)
    ensures Trim(" " + e + " ") == e
  {
    var s := " " + e + " ";
    assert s[1..] == e + " ";
    assert (e + " ")[0] == e[0];
    assert (e + " ")[..|e + " "|-1] == e;
    assert Trim(s) == Trim(e + " ");
    assert Trim(e + " ") == Trim(e);
  }

  lemma TurnFrom(s: string, o: nat, body: string, c: nat, e: string, consumed: nat)
    requires Opening(s) == Some(o) && s[o+2..] == body
    requires Closing(body) == Some(c) && Trim(body[..c]) == e && e != ""
    ensures Turn(s, consumed) == Ok((Before(s[..o]) + [Expression(e)], body[c+2..]))
  {
  }

  lemma PrintedSlices(literal: string, e: string, x: string, s: string, body: string)
    requires s == literal + (Show(Expression(e), ONE_SPACE) + x) && body == " " + e + " " + "}}" + x
    ensures s == literal + ("{{" + body) && s[..|literal|] == literal && s[|literal|+2..] == body
    ensures body[..|e|+2] == " " + e + " " && body[|e|+4..] == x
  {
  }

  lemma PrintedTurn(literal: string, e: string, x: string, consumed: nat)
    requires PlainBefore(literal) && Balanced(e) && e != "" && Trimmed(e)
    ensures Turn(literal + (Show(Expression(e), ONE_SPACE) + x), consumed) == Ok((Before(literal) + [Expression(e)], x))
  {
    var s := literal + (Show(Expression(e), ONE_SPACE) + x);
    var body := " " + e + " " + "}}" + x;
    PrintedSlices(literal, e, x, s, body);
    PrintedOpens(literal, body);
    PrintedCloses(e, x);
    TrimPadded(e);
    TurnFrom(s, |literal|, body, |e| + 2, e, consumed);
  }

  lemma TurnPrinted(rest: string, consumed: nat, tail: seq<Segment>, again: nat)
    requires Opening(rest).Some? && Turn(rest, consumed).Ok?
    ensures Opening(Print(Turn(rest, consumed).value.0 + tail)).Some?
    ensures Turn(Print(Turn(rest, consumed).value.0 + tail), again) == Ok((Turn(rest, consumed).value.0, Print(tail)))
  {
    var o := Opening(rest).value;
    var c := Closing(rest[o+2..]).value;
    var e := Trim(rest[o+2..][..c]);
    CutIsPlain(rest, o);
    CutIsBalanced(rest[o+2..], c);
    var before, after := TrimSplits(rest[o+2..][..c]);
    PrintPieces(rest[..o], Expression(e), tail);
    PrintedTurn(rest[..o], e, Print(tail), again);
  }

  lemma PrintLiteral(text: string)
    ensures Print([Literal(text)]) == text
  {
    PrintCons(Literal(text), []);
    assert [Literal(text)] + [] == [Literal(text)];
  }

  lemma PlainSegments(rest: string, consumed: nat)
    requires rest != "" && Opening(rest).None?
    ensures Segments(rest, consumed) == Ok([Literal(rest)])
  {
    assert [Literal(rest)] + [] == [Literal(rest)];
  }

  lemma JoinTurn(rest: string, consumed: nat, segments: seq<Segment>, next: string, left: nat, tail: seq<Segment>)
    requires rest != "" && Turn(rest, consumed) == Ok((segments, next))
    requires left == consumed + |rest| - |next| && Segments(next, left) == Ok(tail)
    ensures Segments(rest, consumed) == Ok(segments + tail)
  {
  }

  /** Printing what was parsed and parsing it again gives the same segments. */
  lemma {:induction false} ReparsedSegments(rest: string, consumed: nat, again: nat, segments: seq<Segment>)
    requires Segments(rest, consumed) == Ok(segments)
    ensures Segments(Print(segments), again) == Ok(segments)
    decreases |rest|
  {
    if rest == "" {
    } else if Opening(rest).None? {
      PlainSegments(rest, consumed);
      PlainSegments(rest, again);
      PrintLiteral(rest);
    } else {
      var first, next, left, tail := SplitTurn(rest, consumed);
      var text := Print(segments);
      TurnPrinted(rest, consumed, tail, again);
      var onward := again + |text| - |Print(tail)|;
      ReparsedSegments(next, left, onward, tail);
      JoinTurn(text, again, first, Print(tail), onward, tail);
    }
  }

  /** The round trip of whole parses, with the classification into literal, simple and mixed. */
  lemma RoundTrip(input: string)
    requires Parsed(input).Ok?
    ensures Parsed(Print(Parsed(input).value.segments)) == Parsed(input)
  {
    if Opening(input).None? {
      PrintLiteral(input);
    } else {
      var first, next, left, tail := SplitTurn(input, 0);
      TurnPrinted(input, 0, tail, 0);
      ReparsedSegments(input, 0, 0, first + tail);
    }
  }
}
