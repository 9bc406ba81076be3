/** Written code is lexed to the tokens it was written from. The grammar covers words, literals, marks,
    white space, comments, regular expressions and templates with embedded expressions to any depth. */
module LexerRoundTrip {
  import opened Json
  import opened TypeScriptLexer
  import opened LexerLocality
  import opened LexerShapes

  datatype Piece =
    | Word(name: string)
    | Literal(quote: char, value: string)
    | Sign(mark: char)
    | Blank(c: char)
    | LineNote(note: string)   // up to the newline, which is a blank of its own
    | BlockNote(note: string)
    | Regex(atoms: seq<Atom>, flags: string)
    | Quasi(chunks: Chunks)    // a template literal

  datatype Code = Done | More(piece: Piece, rest: Code)

  datatype Chunks = Close | Plain(c: char, rest: Chunks) | Escape(c: char, rest: Chunks) | Hole(code: Code, rest: Chunks)

  // ----- As text -----

  function PieceText(p: Piece): (s: string)
    decreases p, 0
  {
    match p
    case Word(name) => name
    case Literal(quote, value) => [quote] + (Escaped(value, quote) + [quote])
    case Sign(c) => [c]
    case Blank(c) => [c]
    case LineNote(note) => "//" + note
    case BlockNote(note) => "/*" + (note + "*/")
    case Regex(atoms, flags) => "/" + (RegexText(atoms) + ("/" + flags))
    case Quasi(chunks) => "`" + ChunkText(chunks)
  }

  function Text(code: Code): (s: string)
    decreases code, 0
  {
    if code.Done? then "" else PieceText(code.piece) + Text(code.rest)
  }

  function ChunkText(chunks: Chunks): (s: string)
    ensures s != ""
    decreases chunks, 0
  {
    match chunks
    case Close => "`"
    case Plain(c, rest) => [c] + ChunkText(rest)
    case Escape(c, rest) => ['\\', c] + ChunkText(rest)
    case Hole(code, rest) => "${" + (Text(code) + ("}" + ChunkText(rest)))
  }

  // ----- As tokens -----

  /** A template is its own token and then those of the expressions in it; the search for the end of
      an expression keeps only the first. */
  function PieceTokens(p: Piece, search: bool): (r: seq<Token>)
    decreases p, 0
  {
    match p
    case Word(name) => [Token(Identifier, name)]
    case Literal(_, value) => [Token(StringLiteral, value)]
    case Sign(c) => [Token(Punctuation, [c])]
    case Quasi(chunks) => [Token(Template, "`")] + if search then [] else Embedded(chunks)
    case _ => []
  }

  function Tokens(code: Code, search: bool): (r: seq<Token>)
    decreases code, 0
  {
    if code.Done? then [] else PieceTokens(code.piece, search) + Tokens(code.rest, search)
  }

  function Embedded(chunks: Chunks): (r: seq<Token>)
    decreases chunks, 0
  {
    match chunks
    case Close => []
    case Plain(_, rest) => Embedded(rest)
    case Escape(_, rest) => Embedded(rest)
    case Hole(code, rest) => Tokens(code, false) + Embedded(rest)
  }

  // ----- What may be written -----

  predicate WordText(name: string) {
    name != "" && IsIdentifierStart(name[0]) && forall k :: 0 <= k < |name| ==> IsIdentifierPart(name[k])
  }

  predicate EndsWord(next: Option<char>) {
    next.None? || !IsIdentifierPart(next.value)
  }

  /** The piece can stand after these tokens and before this character. */
  predicate Fit(p: Piece, tokens: seq<Token>, next: Option<char>)
    decreases p, 0
  {
    match p
    case Word(name) => WordText(name) && EndsWord(next)
    case Literal(quote, _) => quote == '\'' || quote == '"'
    case Sign(c) =>
      && !IsSpace(c) && !IsIdentifierStart(c) && c != '\'' && c != '"' && c != '`'
      && (c == '/' ==> !BeginsRegularExpression(tokens) && next != Some('/') && next != Some('*'))
    case Blank(c) => IsSpace(c)
    case LineNote(note) => '\n' !in note && (next.None? || next == Some('\n'))
    case BlockNote(note) => forall k: nat :: k < |note| ==> !ClosesAt(note + "*/", k)
    case Regex(atoms, flags) =>
      && BeginsRegularExpression(tokens) && EndsWord(next)
      && atoms != [] && atoms[0] != Lone('*') && (forall k :: 0 <= k < |atoms| ==> WellFormedAtom(atoms[k]))
      && forall k :: 0 <= k < |flags| ==> IsIdentifierPart(flags[k])
    case Quasi(chunks) => FitChunks(chunks)
  }

  predicate FitCode(code: Code, search: bool, tokens: seq<Token>, next: Option<char>)
    decreases code, 0
  {
    code.Done? ||
    (&& Fit(code.piece, tokens, First(Text(code.rest), next))
     && FitCode(code.rest, search, tokens + PieceTokens(code.piece, search), next))
  }

  function First(s: string, next: Option<char>): (r: Option<char>) {
    if s == "" then next else Some(s[0])
  }

  /** An embedded expression fits both for the search and for the lexer, and closes the braces it
      opens. */
  predicate FitChunks(chunks: Chunks)
    decreases chunks, 0
  {
    match chunks
    case Close => true
    case Plain(c, rest) => c != '`' && c != '\\' && (c == '$' ==> ChunkText(rest)[0] != '{') && FitChunks(rest)
    case Escape(_, rest) => FitChunks(rest)
    case Hole(code, rest) =>
      && FitCode(code, true, [], Some('}')) && FitCode(code, false, [], None) && Closes(code, 0) && FitChunks(rest)
  }

  /** The braces among the marks nest, starting from this depth. */
  predicate Closes(code: Code, depth: nat)
    decreases code, 0
  {
    match code
    case Done => depth == 0
    case More(p, rest) =>
      if p == Sign('{') then Closes(rest, depth + 1)
      else if p == Sign('}') then depth > 0 && Closes(rest, depth - 1)
      else Closes(rest, depth)
  }

  // ----- One piece -----

  /** What one round of either loop makes of a piece that is not a template. */
  ghost predicate Read(p: Piece, step: Step, end: nat) {
    match p
    case Word(name) => step == Emit(Token(Identifier, name), end)
    case Literal(_, value) => step == Emit(Token(StringLiteral, value), end)
    case Sign(c) => step == Mark(c)
    case Quasi(_) => step == Open
    case _ => step == Skip(end)
  }

  lemma PieceReads(s: string, i: nat, p: Piece, tokens: seq<Token>, tail: string)
    requires i <= |s| && s[i..] == PieceText(p) + tail && Fit(p, tokens, First(tail, None))
    ensures i < |s| && i + |PieceText(p)| <= |s| && Read(p, Scan(s, i, tokens), i + |PieceText(p)|)
  {
    Standing(s, i, PieceText(p), tail);
    match p
    case Word(name) => WordReads(s, i, name, tokens, tail);
    case Literal(quote, value) => LiteralReads(s, i, quote, value, tokens, tail);
    case Sign(c) =>
    case Blank(c) =>
    case LineNote(note) => LineNoteReads(s, i, note, tokens, tail);
    case BlockNote(note) => BlockNoteReads(s, i, note, tokens, tail);
    case Regex(atoms, flags) => RegexPieceReads(s, i, atoms, flags, tokens, tail);
    case Quasi(chunks) =>
  }

  lemma WordReads(s: string, i: nat, name: string, tokens: seq<Token>, tail: string)
    requires i <= |s| && s[i..] == name + tail && WordText(name) && (tail == "" || !IsIdentifierPart(tail[0]))
    ensures i < |s| && Scan(s, i, tokens) == Emit(Token(Identifier, name), i + |name|)
  {
    Standing(s, i, name, tail);
    assert s[i..] == name[..1] + (name[1..] + tail);
    Standing(s, i, name[..1], name[1..] + tail);
    FlagsRead(s, i + 1, name[1..], tail);
  }

  lemma QuoteEmits(s: string, i: nat, quote: char, tokens: seq<Token>)
    requires i < |s| && s[i] == quote && (quote == '\'' || quote == '"')
    ensures var (value, next) := Quoted(s, i + 1, quote, ""); Scan(s, i, tokens) == Emit(Token(StringLiteral, value), next)
  {
  }

  lemma LiteralReads(s: string, i: nat, quote: char, value: string, tokens: seq<Token>, tail: string)
    requires i <= |s| && s[i..] == [quote] + (Escaped(value, quote) + [quote]) + tail && (quote == '\'' || quote == '"')
    ensures i < |s| && Scan(s, i, tokens) == Emit(Token(StringLiteral, value), i + |Escaped(value, quote)| + 2)
  {
    hide Scan, Quoted, Escaped;
    var rest := Escaped(value, quote) + [quote] + tail;
    assert [quote] + (Escaped(value, quote) + [quote]) + tail == [quote] + rest;
    Standing(s, i, [quote], rest);
    QuotedReads(s, i + 1, quote, value, tail, "");
    QuoteEmits(s, i, quote, tokens);
    assert "" + value == value;
  }

  lemma LineSkips(s: string, i: nat, tokens: seq<Token>)
    requires i + 1 < |s| && s[i] == '/' && s[i + 1] == '/'
    ensures Scan(s, i, tokens) == Skip(LineEnd(s, i + 2))
  {
  }

  lemma LineNoteReads(s: string, i: nat, note: string, tokens: seq<Token>, tail: string)
    requires i <= |s| && s[i..] == "//" + note + tail && '\n' !in note && (tail == "" || tail[0] == '\n')
    ensures i < |s| && Scan(s, i, tokens) == Skip(i + 2 + |note|)
  {
    hide Scan, LineEnd;
    assert "//" + note + tail == "//" + (note + tail);
    Standing(s, i, "//", note + tail);
    Standing(s, i + 2, note, tail);
    assert s[i..i + 2][1] == '/';
    LineRuns(s, i + 2, note, tail);
    LineSkips(s, i, tokens);
  }

  lemma {:induction false} LineRuns(s: string, i: nat, note: string, tail: string)
    requires i <= |s| && s[i..] == note + tail && '\n' !in note && (tail == "" || tail[0] == '\n')
    ensures LineEnd(s, i) == i + |note|
    decreases |note|
  {
    Standing(s, i, note, tail);
    if note != "" {
      assert s[i..] == note[..1] + (note[1..] + tail);
      Standing(s, i, note[..1], note[1..] + tail);
      LineRuns(s, i + 1, note[1..], tail);
    }
  }

  lemma BlockNoteReads(s: string, i: nat, note: string, tokens: seq<Token>, tail: string)
    requires i <= |s| && s[i..] == "/*" + (note + "*/") + tail
    requires forall k: nat :: k < |note| ==> !ClosesAt(note + "*/", k)
    ensures i < |s| && Scan(s, i, tokens) == Skip(i + |note| + 4)
  {
    var body := note + "*/";
    assert "/*" + body + tail == "/*" + (body + tail);
    Standing(s, i, "/*", body + tail);
    assert s[i..i + 2][1] == '*';
    Standing(s, i + 2, body, tail);
    forall j: nat | i + 2 <= j < i + 2 + |note| ensures !ClosesAt(s, j) {
      var k := j - i - 2;
      assert !ClosesAt(body, k);
      assert s[j] == s[i + 2..i + 2 + |body|][k] && s[j + 1] == s[i + 2..i + 2 + |body|][k + 1];
    }
    var n := |note|;
    assert s[i + 2 + n] == s[i + 2..i + 2 + |body|][n] && s[i + 3 + n] == s[i + 2..i + 2 + |body|][n + 1];
    assert ClosesAt(s, i + 2 + n);
    BlockEndIs(s, i + 2, i + 2 + |note|);
  }

  lemma RegexPieceReads(s: string, i: nat, atoms: seq<Atom>, flags: string, tokens: seq<Token>, tail: string)
    requires i <= |s| && s[i..] == "/" + (RegexText(atoms) + ("/" + flags)) + tail
    requires Fit(Regex(atoms, flags), tokens, First(tail, None))
    ensures i < |s| && Scan(s, i, tokens) == Skip(i + 2 + |RegexText(atoms)| + |flags|)
  {
    hide RegexText, WellFormedAtom, RegexEnd, BeginsRegularExpression, IsIdentifierPart, Scan;
    var rest := RegexText(atoms) + ("/" + (flags + tail));
    RegroupRegex(RegexText(atoms), flags, tail);
    RegexOpens(atoms, "/" + (flags + tail));
    Standing(s, i, "/", rest);
    RegexReads(s, i + 1, atoms, flags, tail);
    SlashReads(s, i, tokens);
  }

  lemma RegroupRegex(body: string, flags: string, tail: string)
    ensures "/" + (body + ("/" + flags)) + tail == "/" + (body + ("/" + (flags + tail)))
  {
    Regroup("/", body + ("/" + flags), tail);
    Regroup(body, "/" + flags, tail);
    Regroup("/", flags, tail);
  }

  lemma RegexOpens(atoms: seq<Atom>, after: string)
    requires atoms != [] && atoms[0] != Lone('*') && WellFormedAtom(atoms[0])
    ensures RegexText(atoms) != "" && (RegexText(atoms) + after)[0] !in "/*"
  {
    var first := AtomText(atoms[0]);
    assert RegexText(atoms)[0] == first[0];
  }

  lemma SlashReads(s: string, i: nat, tokens: seq<Token>)
    requires i + 1 < |s| && s[i] == '/' && s[i + 1] !in "/*" && BeginsRegularExpression(tokens)
    ensures Scan(s, i, tokens) == Skip(RegexEnd(s, i + 1, false))
  {
    hide BeginsRegularExpression, RegexEnd;
  }

  // ----- One step of each loop -----

  lemma CodeUnfolds(code: Code, search: bool)
    requires code.More?
    ensures Text(code) == PieceText(code.piece) + Text(code.rest)
    ensures Tokens(code, search) == PieceTokens(code.piece, search) + Tokens(code.rest, search)
  {
  }

  lemma FitUnfolds(code: Code, search: bool, tokens: seq<Token>, next: Option<char>)
    requires code.More? && FitCode(code, search, tokens, next)
    ensures Fit(code.piece, tokens, First(Text(code.rest), next))
    ensures FitCode(code.rest, search, tokens + PieceTokens(code.piece, search), next)
    ensures code.piece.Quasi? ==> FitChunks(code.piece.chunks)
  {
  }

  lemma Associate(a: seq<Token>, b: seq<Token>, c: seq<Token>)
    ensures a + (b + c) == a + b + c && a + [] == a && [] + a == a
  {
  }

  lemma {:induction false} LexSteps(s: string, i: nat, p: Piece, tokens: seq<Token>, tail: string)
    requires i < |s| && s[i..] == PieceText(p) + tail && Read(p, Scan(s, i, tokens), i + |PieceText(p)|)
    requires p.Quasi? ==> FitChunks(p.chunks)
    ensures LexFrom(s, i, tokens) == LexFrom(s, i + |PieceText(p)|, tokens + PieceTokens(p, false))
    decreases p, 1
  {
    hide Scan, FitChunks, Escaped, RegexText, ChunkText;
    if p.Quasi? {
      assert p == Quasi(p.chunks);
      LexOpens(s, i, p.chunks, tokens, tail);
    } else {
      Associate(tokens, [], []);
    }
  }

  lemma {:induction false} LexOpens(s: string, i: nat, chunks: Chunks, tokens: seq<Token>, tail: string)
    requires i < |s| && s[i..] == PieceText(Quasi(chunks)) + tail && Scan(s, i, tokens) == Open && FitChunks(chunks)
    ensures LexFrom(s, i, tokens) == LexFrom(s, i + |PieceText(Quasi(chunks))|, tokens + PieceTokens(Quasi(chunks), false))
    decreases chunks, 3
  {
    hide *;
    QuasiReads(s, i, chunks, tail);
    QuasiTokens(chunks);
    LexOpened(s, i, tokens, Embedded(chunks), i + 1 + |ChunkText(chunks)|);
    Associate(tokens, [TEMPLATE_TOKEN], Embedded(chunks));
  }

  lemma QuasiTokens(chunks: Chunks)
    ensures PieceTokens(Quasi(chunks), false) == [TEMPLATE_TOKEN] + Embedded(chunks)
  {
  }

  lemma LexOpened(s: string, i: nat, tokens: seq<Token>, embedded: seq<Token>, next: nat)
    requires i < |s| && Scan(s, i, tokens) == Open && TemplateFrom(s, i + 1, []) == Some((embedded, next))
    ensures LexFrom(s, i, tokens) == LexFrom(s, next, tokens + [TEMPLATE_TOKEN] + embedded)
  {
    hide Scan, TemplateFrom;
  }

  /** The template after its opening backquote. */
  lemma {:induction false} QuasiReads(s: string, i: nat, chunks: Chunks, tail: string)
    requires i < |s| && s[i..] == PieceText(Quasi(chunks)) + tail && FitChunks(chunks)
    ensures |PieceText(Quasi(chunks))| == 1 + |ChunkText(chunks)|
    ensures TemplateFrom(s, i + 1, []) == Some((Embedded(chunks), i + 1 + |ChunkText(chunks)|))
    decreases chunks, 2
  {
    hide FitChunks, ChunkText, TemplateFrom, Embedded;
    Regroup("`", ChunkText(chunks), tail);
    Standing(s, i, "`", ChunkText(chunks) + tail);
    TemplateReads(s, i + 1, chunks, [], tail);
    Associate(Embedded(chunks), [], []);
  }

  lemma {:induction false} SearchSteps(s: string, i: nat, p: Piece, depth: nat, tokens: seq<Token>, tail: string)
    requires i < |s| && s[i..] == PieceText(p) + tail && Read(p, Scan(s, i, tokens), i + |PieceText(p)|)
    requires (p == Sign('}') ==> depth > 0) && (p.Quasi? ==> FitChunks(p.chunks))
    ensures ExpressionFrom(s, i, depth + 1, tokens) ==
              ExpressionFrom(s, i + |PieceText(p)|, 1 + DepthAfter(p, depth), tokens + PieceTokens(p, true))
    decreases p, 1
  {
    hide ExpressionFrom, Scan, FitChunks, PieceText, PieceTokens;
    if p.Quasi? {
      assert p == Quasi(p.chunks);
      SearchOpens(s, i, p.chunks, depth, tokens, tail);
    } else {
      SearchStepsFlat(s, i, p, depth, tokens);
    }
  }

  lemma {:induction false} SearchOpens(s: string, i: nat, chunks: Chunks, depth: nat, tokens: seq<Token>, tail: string)
    requires i < |s| && s[i..] == PieceText(Quasi(chunks)) + tail && Scan(s, i, tokens) == Open && FitChunks(chunks)
    ensures ExpressionFrom(s, i, depth + 1, tokens) ==
              ExpressionFrom(s, i + |PieceText(Quasi(chunks))|, depth + 1, tokens + PieceTokens(Quasi(chunks), true))
    decreases chunks, 3
  {
    QuasiReads(s, i, chunks, tail);
    assert PieceTokens(Quasi(chunks), true) == [TEMPLATE_TOKEN];
    hide Scan, FitChunks, ChunkText, ExpressionFrom, TemplateFrom, Embedded, PieceTokens;
    ExpressionOpens(s, i, depth + 1, tokens, Embedded(chunks), i + |PieceText(Quasi(chunks))|);
  }

  lemma SearchStepsFlat(s: string, i: nat, p: Piece, depth: nat, tokens: seq<Token>)
    requires i < |s| && !p.Quasi? && Read(p, Scan(s, i, tokens), i + |PieceText(p)|) && (p == Sign('}') ==> depth > 0)
    ensures ExpressionFrom(s, i, depth + 1, tokens) ==
              ExpressionFrom(s, i + |PieceText(p)|, 1 + DepthAfter(p, depth), tokens + PieceTokens(p, true))
  {
    hide Scan, ExpressionFrom, Escaped, RegexText;
    var next := i + |PieceText(p)|;
    Associate(tokens, [], []);
    if p.Sign? {
      ExpressionMarks(s, i, depth + 1, tokens, p.mark);
    } else if p.Word? {
      ExpressionEmits(s, i, depth + 1, tokens, Token(Identifier, p.name), next);
    } else if p.Literal? {
      ExpressionEmits(s, i, depth + 1, tokens, Token(StringLiteral, p.value), next);
    } else {
      ExpressionSkips(s, i, depth + 1, tokens, next);
    }
  }

  function DepthAfter(p: Piece, depth: nat): (r: nat)
    requires p == Sign('}') ==> depth > 0
  {
    if p == Sign('{') then depth + 1 else if p == Sign('}') then depth - 1 else depth
  }

  lemma ClosesUnfolds(code: Code, depth: nat)
    requires code.More? && Closes(code, depth)
    ensures (code.piece == Sign('}') ==> depth > 0) && Closes(code.rest, DepthAfter(code.piece, depth))
  {
  }

  lemma BraceStops(s: string, i: nat, tokens: seq<Token>)
    requires i < |s| && s[i] == '}'
    ensures ExpressionFrom(s, i, 1, tokens) == Some((i, tokens))
  {
    assert Scan(s, i, tokens) == Mark('}');
  }

  // ----- Whole code -----

  /** Code that fits, at the end of a source, adds its tokens. */
  lemma {:induction false} LexReads(s: string, i: nat, code: Code, tokens: seq<Token>)
    requires i <= |s| && s[i..] == Text(code) && FitCode(code, false, tokens, None)
    ensures LexFrom(s, i, tokens) == Some(tokens + Tokens(code, false))
    decreases code, 0
  {
    hide *;
    if code.Done? {
      LexEnds(s, i, tokens);
    } else {
      var p, tail := code.piece, Text(code.rest);
      CodeUnfolds(code, false);
      FitUnfolds(code, false, tokens, None);
      PieceReads(s, i, p, tokens, tail);
      Standing(s, i, PieceText(p), tail);
      LexSteps(s, i, p, tokens, tail);
      LexReads(s, i + |PieceText(p)|, code.rest, tokens + PieceTokens(p, false));
      Associate(tokens, PieceTokens(p, false), Tokens(code.rest, false));
    }
  }

  lemma LexEnds(s: string, i: nat, tokens: seq<Token>)
    requires i <= |s| && s[i..] == Text(Done)
    ensures LexFrom(s, i, tokens) == Some(tokens + Tokens(Done, false))
  {
    Associate(tokens, [], []);
  }

  /** The search for the end of an expression stops at the brace after code that fits. */
  lemma {:induction false} SearchReads(s: string, i: nat, code: Code, depth: nat, tokens: seq<Token>, after: string)
    requires i <= |s| && s[i..] == Text(code) + ("}" + after)
    requires FitCode(code, true, tokens, Some('}')) && Closes(code, depth)
    ensures ExpressionFrom(s, i, depth + 1, tokens) == Some((i + |Text(code)|, tokens + Tokens(code, true)))
    decreases code, 0
  {
    hide *;
    if code.Done? {
      SearchEnds(s, i, depth, tokens, after);
    } else {
      var p, tail := code.piece, Text(code.rest) + ("}" + after);
      CodeUnfolds(code, true);
      FitUnfolds(code, true, tokens, Some('}'));
      ClosesUnfolds(code, depth);
      Regroup(PieceText(p), Text(code.rest), "}" + after);
      FirstBefore(Text(code.rest), '}', after);
      PieceReads(s, i, p, tokens, tail);
      Standing(s, i, PieceText(p), tail);
      SearchSteps(s, i, p, depth, tokens, tail);
      SearchReads(s, i + |PieceText(p)|, code.rest, DepthAfter(p, depth), tokens + PieceTokens(p, true), after);
      Associate(tokens, PieceTokens(p, true), Tokens(code.rest, true));
    }
  }

  lemma SearchEnds(s: string, i: nat, depth: nat, tokens: seq<Token>, after: string)
    requires i <= |s| && s[i..] == Text(Done) + ("}" + after) && Closes(Done, depth)
    ensures ExpressionFrom(s, i, depth + 1, tokens) == Some((i + |Text(Done)|, tokens + Tokens(Done, true)))
  {
    hide ExpressionFrom;
    assert Text(Done) + ("}" + after) == "}" + after;
    Standing(s, i, "}", after);
    BraceStops(s, i, tokens);
    Associate(tokens, [], []);
  }

  lemma FirstBefore(a: string, c: char, after: string)
    ensures First(a + ([c] + after), None) == First(a, Some(c))
  {
  }

  /** A template that fits is read to its closing backquote, whatever follows. */
  lemma {:induction false} TemplateReads(s: string, i: nat, chunks: Chunks, embedded: seq<Token>, tail: string)
    requires i <= |s| && s[i..] == ChunkText(chunks) + tail && FitChunks(chunks)
    ensures TemplateFrom(s, i, embedded) == Some((embedded + Embedded(chunks), i + |ChunkText(chunks)|))
    decreases chunks, 1
  {
    if chunks.Hole? {
      HoleReads(s, i, chunks, embedded, tail);
    } else {
      hide ExpressionFrom, LexFrom;
      Associate(embedded, [], []);
      if chunks.Close? {
        Standing(s, i, "`", tail);
      } else if chunks.Plain? {
        Regroup([chunks.c], ChunkText(chunks.rest), tail);
        Standing(s, i, [chunks.c], ChunkText(chunks.rest) + tail);
        TemplateReads(s, i + 1, chunks.rest, embedded, tail);
      } else {
        Regroup(['\\', chunks.c], ChunkText(chunks.rest), tail);
        Standing(s, i, ['\\', chunks.c], ChunkText(chunks.rest) + tail);
        TemplateReads(s, i + 2, chunks.rest, embedded, tail);
      }
    }
  }

  lemma {:induction false} HoleReads(s: string, i: nat, chunks: Chunks, embedded: seq<Token>, tail: string)
    requires chunks.Hole? && i <= |s| && s[i..] == ChunkText(chunks) + tail && FitChunks(chunks)
    ensures TemplateFrom(s, i, embedded) == Some((embedded + Embedded(chunks), i + |ChunkText(chunks)|))
    decreases chunks, 0
  {
    hide *;
    var code, rest := chunks.code, chunks.rest;
    HoleUnfolds(chunks);
    RegroupHole(Text(code), ChunkText(rest), tail);
    HoleSplits(s, i, Text(code), ChunkText(rest) + tail);
    var end := i + 2 + |Text(code)|;
    SearchReads(s, i + 2, code, 0, [], ChunkText(rest) + tail);
    LexReads(s[i + 2..end], 0, code, []);
    Associate(Tokens(code, false), [], []);
    TemplateContinues(s, i, embedded, end, [] + Tokens(code, true), Tokens(code, false));
    TemplateReads(s, end + 1, rest, embedded + Tokens(code, false), tail);
    Associate(embedded, Tokens(code, false), Embedded(rest));
  }

  lemma HoleUnfolds(chunks: Chunks)
    requires chunks.Hole? && FitChunks(chunks)
    ensures ChunkText(chunks) == "${" + (Text(chunks.code) + ("}" + ChunkText(chunks.rest)))
    ensures Embedded(chunks) == Tokens(chunks.code, false) + Embedded(chunks.rest)
    ensures FitCode(chunks.code, true, [], Some('}')) && FitCode(chunks.code, false, [], None)
    ensures Closes(chunks.code, 0) && FitChunks(chunks.rest)
  {
  }

  lemma HoleSplits(s: string, i: nat, code: string, after: string)
    requires i <= |s| && s[i..] == "${" + (code + ("}" + after))
    ensures var end := i + 2 + |code|;
      && end < |s| && s[i] == '$' && s[i + 1] == '{'
      && s[i + 2..] == code + ("}" + after) && s[i + 2..end] == code && s[i + 2..end][0..] == code && s[end + 1..] == after
  {
    Standing(s, i, "${", code + ("}" + after));
    Standing(s, i + 2, code, "}" + after);
    Standing(s, i + 2 + |code|, "}", after);
    HoleStarts(s, i);
  }

  lemma HoleStarts(s: string, i: nat)
    requires i + 2 <= |s| && s[i..i + 2] == "${"
    ensures s[i] == '$' && s[i + 1] == '{'
  {
    assert s[i..i + 2][1] == s[i + 1];
  }

  lemma RegroupHole(code: string, rest: string, tail: string)
    ensures "${" + (code + ("}" + rest)) + tail == "${" + (code + ("}" + (rest + tail)))
  {
    Regroup("${", code + ("}" + rest), tail);
    Regroup(code, "}" + rest, tail);
    Regroup("}", rest, tail);
  }

  /** The round trip: code that may be written is lexed to exactly its tokens. */
  lemma LexOfText(code: Code)
    requires FitCode(code, false, [], None)
    ensures Lex(Text(code)) == Some(Tokens(code, false))
  {
    assert Text(code)[0..] == Text(code);
    LexReads(Text(code), 0, code, []);
    assert [] + Tokens(code, false) == Tokens(code, false);
  }
}
