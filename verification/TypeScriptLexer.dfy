/** The TypeScript scanner of the harness guard (internal/harnessguard/typescript_policy.go).
    A character is one byte of the source. A scan that would slice past the end of the source,
    where the Go code panics, has no result. */
module TypeScriptLexer {
  import opened Json

  datatype TokenKind = Identifier | StringLiteral | Punctuation | Template

  datatype Token = Token(kind: TokenKind, text: string)

  const TEMPLATE_TOKEN := Token(Template, "`")
  const REGEX_OPENERS := "=(:,[!&|?{};"

  predicate IsSpace(c: char) {
    c == ' ' || c == '\t' || c == '\r' || c == '\n'
  }

  predicate IsIdentifierStart(c: char) {
    c == '_' || c == '$' || 'A' <= c <= 'Z' || 'a' <= c <= 'z'
  }

  predicate IsIdentifierPart(c: char) {
    IsIdentifierStart(c) || '0' <= c <= '9'
  }

  predicate Contains(s: string, part: string) {
    part <= s || (s != "" && Contains(s[1..], part))
  }

  /** Whether a slash after these tokens opens a regular expression. */
  predicate BeginsRegularExpression(tokens: seq<Token>) {
    tokens == [] ||
    var previous := tokens[|tokens| - 1];
    if previous.kind.Identifier?
    then previous.text in {"case", "delete", "return", "throw", "typeof", "void", "yield"}
    else Contains(REGEX_OPENERS, previous.text)
  }

  // ----- Skipping -----

  function LineEnd(s: string, i: nat): (r: nat)
    requires i <= |s|
    ensures i <= r <= |s|
    decreases |s| - i
  {
    if i < |s| && s[i] != '\n' then LineEnd(s, i + 1) else i
  }

  function BlockEnd(s: string, i: nat): (r: nat)
    requires i <= |s|
    ensures i <= r <= |s|
    decreases |s| - i
  {
    if i + 1 >= |s| then |s| else if s[i] == '*' && s[i + 1] == '/' then i + 2 else BlockEnd(s, i + 1)
  }

  function IdentifierEnd(s: string, i: nat): (r: nat)
    requires i <= |s|
    ensures i <= r <= |s|
    decreases |s| - i
  {
    if i < |s| && IsIdentifierPart(s[i]) then IdentifierEnd(s, i + 1) else i
  }

  /** The rest of a quoted literal: its value after escapes and where it ends. */
  function Quoted(s: string, i: nat, quote: char, value: string): (r: (string, nat))
    requires i <= |s|
    ensures i <= r.1 <= |s|
    decreases |s| - i
  {
    if i == |s| then (value, |s|)
    else if s[i] == '\\' && i + 1 < |s| then Quoted(s, i + 2, quote, value + [s[i + 1]])
    else if s[i] == quote then (value, i + 1)
    else Quoted(s, i + 1, quote, value + [s[i]])
  }

  /** The rest of a regular expression with its flags. An escape at the very end of the source
      carries the scan one past it. */
  function RegexEnd(s: string, i: nat, inClass: bool): (r: nat)
    requires i <= |s| + 1
    ensures i <= r <= |s| + 1
    ensures r == |s| + 1 ==> i == |s| + 1 || (|s| > 0 && s[|s| - 1] == '\\')
    decreases |s| + 1 - i
  {
    if i >= |s| then i
    else if s[i] == '\\' then RegexEnd(s, i + 2, inClass)
    else if s[i] == '/' && !inClass then IdentifierEnd(s, i + 1)
    else if s[i] == '\n' || s[i] == '\r' then i
    else RegexEnd(s, i + 1, s[i] == '[' || (inClass && s[i] != ']'))
  }

  // ----- One step of either scanner -----

  datatype Step = Skip(next: nat) | Emit(token: Token, next: nat) | Mark(mark: char) | Open

  function Scan(s: string, i: nat, tokens: seq<Token>): (r: Step)
    requires i < |s|
    ensures r.Skip? || r.Emit? ==> i < r.next <= |s| + 1
    ensures (r.Skip? || r.Emit?) && r.next == |s| + 1 ==> s[|s| - 1] == '\\'
    ensures r.Open? <==> s[i] == '`'
    ensures r.Mark? ==> r.mark == s[i]
    ensures r.Emit? ==> r.token.kind.StringLiteral? || r.token.kind.Identifier?
  {
    var c := s[i];
    if IsSpace(c) then Skip(i + 1)
    else if c == '/' && i + 1 < |s| && s[i + 1] == '/' then Skip(LineEnd(s, i + 2))
    else if c == '/' && i + 1 < |s| && s[i + 1] == '*' then Skip(BlockEnd(s, i + 2))
    else if c == '\'' || c == '"' then
      var (value, next) := Quoted(s, i + 1, c, "");
      Emit(Token(StringLiteral, value), next)
    else if c == '`' then Open
    else if IsIdentifierStart(c) then
      Emit(Token(Identifier, s[i..IdentifierEnd(s, i + 1)]), IdentifierEnd(s, i + 1))
    else if c == '/' && BeginsRegularExpression(tokens) then Skip(RegexEnd(s, i + 1, false))
    else Mark(c)
  }

  function MarkToken(c: char): (r: Token) {
    Token(Punctuation, [c])
  }

  /** The brace depth after a punctuation mark. */
  function Deeper(c: char, depth: nat): (r: nat)
    requires c == '}' ==> depth > 0
  {
    if c == '{' then depth + 1 else if c == '}' then depth - 1 else depth
  }

  // ----- The three scanners -----

  /** The tokens of a source from a position on, after the tokens so far. */
  function LexFrom(s: string, i: nat, tokens: seq<Token>): (r: Option<seq<Token>>)
    decreases |s| - i
  {
    if i >= |s| then Some(tokens)
    else match Scan(s, i, tokens)
      case Skip(next) => LexFrom(s, next, tokens)
      case Emit(token, next) => LexFrom(s, next, tokens + [token])
      case Mark(c) => LexFrom(s, i + 1, tokens + [MarkToken(c)])
      case Open =>
        match TemplateFrom(s, i + 1, [])
        case None => None
        case Some((embedded, next)) => LexFrom(s, next, tokens + [TEMPLATE_TOKEN] + embedded)
  }

  function Lex(s: string): (r: Option<seq<Token>>) {
    LexFrom(s, 0, [])
  }

  /** The rest of a template literal: the tokens of its embedded expressions and where it ends. */
  function TemplateFrom(s: string, i: nat, embedded: seq<Token>): (r: Option<(seq<Token>, nat)>)
    ensures r.Some? ==> i <= r.value.1
    ensures r.Some? && i <= |s| ==> r.value.1 <= |s|
    decreases |s| - i
  {
    if i >= |s| then Some((embedded, i))
    else if s[i] == '\\' && i + 1 < |s| then TemplateFrom(s, i + 2, embedded)
    else if s[i] == '`' then Some((embedded, i + 1))
    else if s[i] == '$' && i + 1 < |s| && s[i + 1] == '{' then
      match ExpressionFrom(s, i + 2, 1, [])
      case None => None
      case Some((end, _)) =>
        if end > |s| then None
        else match LexFrom(s[i + 2..end], 0, [])
          case None => None
          case Some(inner) =>
            if end >= |s| then Some((embedded + inner, end)) else TemplateFrom(s, end + 1, embedded + inner)
    else TemplateFrom(s, i + 1, embedded)
  }

  /** Where an embedded expression ends, and the tokens its scanner has kept. */
  function ExpressionFrom(s: string, i: nat, depth: nat, tokens: seq<Token>): (r: Option<(nat, seq<Token>)>)
    ensures r.Some? ==> i <= r.value.0
    ensures r.Some? && i <= |s| ==> r.value.0 <= |s| + 1
    ensures r.Some? && i <= |s| && r.value.0 == |s| + 1 ==> |s| > 0 && s[|s| - 1] == '\\'
    decreases |s| - i
  {
    if i >= |s| then Some((i, tokens))
    else match Scan(s, i, tokens)
      case Skip(next) => ExpressionFrom(s, next, depth, tokens)
      case Emit(token, next) => ExpressionFrom(s, next, depth, tokens + [token])
      case Mark(c) =>
        if c == '}' && depth <= 1 then Some((i, tokens))
        else ExpressionFrom(s, i + 1, Deeper(c, depth), tokens + [MarkToken(c)])
      case Open =>
        match TemplateFrom(s, i + 1, [])
        case None => None
        case Some((_, next)) => ExpressionFrom(s, next, depth, tokens + [TEMPLATE_TOKEN])
  }

  // ----- The scanners as the source runs them -----

  method SkipLineComment(s: string, start: nat) returns (index: nat)
    requires start <= |s|
    ensures index == LineEnd(s, start)
  {
    index := start;
    while index < |s| && s[index] != '\n'
      invariant index <= |s| && LineEnd(s, index) == LineEnd(s, start)
    {
      index := index + 1;
    }
  }

  method SkipBlockComment(s: string, start: nat) returns (index: nat)
    requires start <= |s|
    ensures index == BlockEnd(s, start)
  {
    index := start;
    while index + 1 < |s|
      invariant index <= |s| && BlockEnd(s, index) == BlockEnd(s, start)
    {
      if s[index] == '*' && s[index + 1] == '/' { return index + 2; }
      index := index + 1;
    }
    index := |s|;
  }

  method ScanIdentifier(s: string, start: nat) returns (end: nat)
    requires start <= |s|
    ensures end == IdentifierEnd(s, start)
  {
    end := start;
    while end < |s| && IsIdentifierPart(s[end])
      invariant end <= |s| && IdentifierEnd(s, end) == IdentifierEnd(s, start)
    {
      end := end + 1;
    }
  }

  method ScanQuoted(s: string, start: nat, quote: char) returns (value: string, next: nat)
    requires start < |s|
    ensures (value, next) == Quoted(s, start + 1, quote, "")
  {
    value := "";
    var index := start + 1;
    while index < |s|
      invariant index <= |s| && Quoted(s, index, quote, value) == Quoted(s, start + 1, quote, "")
    {
      if s[index] == '\\' && index + 1 < |s| {
        index := index + 1;
        value := value + [s[index]];
      } else if s[index] == quote {
        return value, index + 1;
      } else {
        value := value + [s[index]];
      }
      index := index + 1;
    }
    next := |s|;
  }

  method SkipRegularExpression(s: string, start: nat) returns (index: nat)
    requires start <= |s|
    ensures index == RegexEnd(s, start, false)
  {
    index := start;
    var inClass := false;
    while index < |s|
      invariant index <= |s| + 1 && RegexEnd(s, index, inClass) == RegexEnd(s, start, false)
    {
      if s[index] == '\\' {
        index := index + 2;
      } else if s[index] == '/' && !inClass {
        index := ScanIdentifier(s, index + 1);
        return;
      } else if s[index] == '\n' || s[index] == '\r' {
        return;
      } else {
        if s[index] == '[' { inClass := true; } else if s[index] == ']' { inClass := false; }
        index := index + 1;
      }
    }
  }

  /** One round of either scanning loop, up to a template literal. */
  method ScanStep(s: string, index: nat, tokens: seq<Token>) returns (step: Step)
    requires index < |s|
    ensures step == Scan(s, index, tokens)
  {
    var character := s[index];
    if IsSpace(character) {
      step := Skip(index + 1);
    } else if character == '/' && index + 1 < |s| && s[index + 1] == '/' {
      var next := SkipLineComment(s, index + 2);
      step := Skip(next);
    } else if character == '/' && index + 1 < |s| && s[index + 1] == '*' {
      var next := SkipBlockComment(s, index + 2);
      step := Skip(next);
    } else if character == '\'' || character == '"' {
      var value, next := ScanQuoted(s, index, character);
      step := Emit(Token(StringLiteral, value), next);
    } else if character == '`' {
      step := Open;
    } else if IsIdentifierStart(character) {
      var end := ScanIdentifier(s, index + 1);
      step := Emit(Token(Identifier, s[index..end]), end);
    } else if character == '/' && BeginsRegularExpression(tokens) {
      var next := SkipRegularExpression(s, index + 1);
      step := Skip(next);
    } else {
      step := Mark(character);
    }
  }

  /** The main loop; no result stands for the slice that is out of range. */
  method LexTypeScript(s: string) returns (r: Option<seq<Token>>)
    ensures r == Lex(s)
    decreases |s|, 1
  {
    var tokens: seq<Token> := [];
    var index := 0;
    while index < |s|
      invariant LexFrom(s, index, tokens) == Lex(s)
      decreases |s| - index
    {
      var step := ScanStep(s, index, tokens);
      match step
      case Skip(next) => index := next;
      case Emit(token, next) =>
        tokens := tokens + [token];
        index := next;
      case Mark(character) =>
        tokens := tokens + [MarkToken(character)];
        index := index + 1;
      case Open =>
        tokens := tokens + [TEMPLATE_TOKEN];
        var scanned := ScanTemplate(s, index + 1);
        if scanned.None? { return None; }
        tokens := tokens + scanned.value.0;
        index := scanned.value.1;
    }
    r := Some(tokens);
  }

  method ScanTemplate(s: string, start: nat) returns (r: Option<(seq<Token>, nat)>)
    requires start <= |s|
    ensures r == TemplateFrom(s, start, [])
    decreases |s| - start, 0
  {
    hide Scan;
    var embedded: seq<Token> := [];
    var index := start;
    while index < |s|
      invariant start <= index && TemplateFrom(s, index, embedded) == TemplateFrom(s, start, [])
      decreases |s| - index
    {
      if s[index] == '\\' && index + 1 < |s| {
        index := index + 2;
      } else if s[index] == '`' {
        return Some((embedded, index + 1));
      } else if s[index] == '$' && index + 1 < |s| && s[index + 1] == '{' {
        var first := index + 2;
        var found := TemplateExpressionEnd(s, first);
        if found.None? { return None; }
        var end := found.value;
        if end > |s| { return None; }
        var inner := LexTypeScript(s[first..end]);
        if inner.None? { return None; }
        embedded := embedded + inner.value;
        if end >= |s| { return Some((embedded, end)); }
        index := end + 1;
      } else {
        index := index + 1;
      }
    }
    r := Some((embedded, index));
  }

  method TemplateExpressionEnd(s: string, start: nat) returns (r: Option<nat>)
    requires start <= |s|
    ensures r.Some? <==> ExpressionFrom(s, start, 1, []).Some?
    ensures r.Some? ==> r.value == ExpressionFrom(s, start, 1, []).value.0
    decreases |s| - start, 0
  {
    hide Scan;
    var depth := 1;
    var tokens: seq<Token> := [];
    var index := start;
    while index < |s|
      invariant start <= index && depth >= 1
      invariant ExpressionFrom(s, index, depth, tokens) == ExpressionFrom(s, start, 1, [])
      decreases |s| - index
    {
      var step := ScanStep(s, index, tokens);
      match step
      case Skip(next) => index := next;
      case Open =>
        var scanned := ScanTemplate(s, index + 1);
        if scanned.None? { return None; }
        tokens := tokens + [TEMPLATE_TOKEN];
        index := scanned.value.1;
      case Emit(token, next) =>
        tokens := tokens + [token];
        index := next;
      case Mark(character) =>
        if character == '{' {
          depth := depth + 1;
        } else if character == '}' {
          depth := depth - 1;
          if depth == 0 { return Some(index); }
        }
        tokens := tokens + [MarkToken(character)];
        index := index + 1;
    }
    r := Some(index);
  }
}
