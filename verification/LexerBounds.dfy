/** When every index and slice of the scanners stays inside the source. */
module LexerBounds {
  import opened Json
  import opened TypeScriptLexer
  import opened LexerLocality
  import opened LexerAgreement

  ghost predicate Blank(s: string, i: nat, j: nat) {
    j <= |s| && forall k :: i <= k < j ==> IsSpace(s[k])
  }

  /** No backtick is followed, after white space only, by a slash. */
  ghost predicate Quiet(s: string) {
    forall j, i :: 0 <= j < i < |s| && s[j] == '`' && Blank(s, j + 1, i) ==> s[i] != '/'
  }

  ghost predicate EndsInBackslash(s: string) {
    |s| > 0 && s[|s| - 1] == '\\'
  }

  /** After the start of an embedded expression, a slash from which a regular expression runs to a
      lone backslash at the very end. */
  ghost predicate OpenRegex(s: string) {
    exists h: nat, p: nat :: HoleAt(s, h) && h + 1 < p && OverrunsAt(s, p)
  }

  ghost predicate HoleAt(s: string, h: nat) {
    h + 1 < |s| && s[h] == '$' && s[h + 1] == '{'
  }

  ghost predicate OverrunsAt(s: string, p: nat) {
    p < |s| && s[p] == '/' && RegexEnd(s, p + 1, false) == |s| + 1
  }

  /** No backslash stands right before a closing brace. */
  ghost predicate Unescaped(s: string) {
    forall i :: 0 <= i < |s| - 1 && s[i] == '\\' ==> s[i + 1] != '}'
  }

  ghost predicate Safe(s: string) {
    !OpenRegex(s) && (Quiet(s) || Unescaped(s))
  }

  /** The last token kept is a template, and only white space has been passed since its backtick. */
  ghost predicate JustClosed(s: string, i: nat, tokens: seq<Token>) {
    EndsInTemplate(tokens) && i < |s| ==> exists j :: 0 <= j < i && s[j] == '`' && Blank(s, j + 1, i)
  }

  lemma {:induction false} TemplateCloses(s: string, i: nat, embedded: seq<Token>, all: seq<Token>, next: nat)
    requires TemplateFrom(s, i, embedded) == Some((all, next)) && next < |s|
    ensures next > 0 && s[next - 1] == '`'
    decreases |s| - i
  {
    hide Scan;
    if i < |s| {
      if s[i] == '\\' && i + 1 < |s| {
        TemplateCloses(s, i + 2, embedded, all, next);
      } else if s[i] == '`' {
      } else if s[i] == '$' && i + 1 < |s| && s[i + 1] == '{' {
        var end := ExpressionFrom(s, i + 2, 1, []).value.0;
        TemplateCloses(s, end + 1, embedded + LexFrom(s[i + 2..end], 0, []).value, all, next);
      } else {
        TemplateCloses(s, i + 1, embedded, all, next);
      }
    }
  }

  lemma SpaceOrSlash(s: string, i: nat, tokens: seq<Token>)
    requires i < |s|
    ensures Scan(s, i, tokens).Skip? ==> s[i] == '/' || (IsSpace(s[i]) && Scan(s, i, tokens).next == i + 1)
  {
  }

  lemma QuietHere(s: string, i: nat, tokens: seq<Token>)
    requires Quiet(s) && JustClosed(s, i, tokens) && i < |s|
    ensures EndsInTemplate(tokens) ==> s[i] != '/'
    ensures EndsInTemplate(tokens) && IsSpace(s[i]) ==> JustClosed(s, i + 1, tokens)
  {
    if EndsInTemplate(tokens) {
      var j :| 0 <= j < i && s[j] == '`' && Blank(s, j + 1, i);
      assert IsSpace(s[i]) ==> Blank(s, j + 1, i + 1);
    }
  }

  lemma {:induction false} QuietIsConcordant(s: string, i: nat, depth: nat, kept: seq<Token>, full: seq<Token>)
    requires Quiet(s) && JustClosed(s, i, kept) && Weaves(kept, full)
    ensures Concordant(s, i, depth, kept, full)
    decreases |s| - i
  {
    hide Scan, Quiet, JustClosed, Weaves, BeginsRegularExpression;
    if i < |s| {
      QuietHere(s, i, kept);
      SpaceOrSlash(s, i, kept);
      match Scan(s, i, kept)
      case Skip(next) =>
        NotJustClosed(s, next, kept);
        QuietIsConcordant(s, next, depth, kept, full);
      case Emit(token, next) =>
        NotJustClosed(s, next, kept + [token]);
        WeavesToken(kept, full, token);
        QuietIsConcordant(s, next, depth, kept + [token], full + [token]);
      case Mark(c) =>
        if c == '/' { SlashDivides(s, i, kept, full); }
        if !(c == '}' && depth <= 1) {
          NotJustClosed(s, i + 1, kept + [MarkToken(c)]);
          WeavesToken(kept, full, MarkToken(c));
          QuietIsConcordant(s, i + 1, Deeper(c, depth), kept + [MarkToken(c)], full + [MarkToken(c)]);
        }
      case Open =>
        if TemplateFrom(s, i + 1, []).Some? {
          var (inner, next) := TemplateFrom(s, i + 1, []).value;
          ClosedNow(s, i + 1, kept, inner, next);
          WeavesTemplate(kept, full, inner);
          QuietIsConcordant(s, next, depth, kept + [TEMPLATE_TOKEN], full + [TEMPLATE_TOKEN] + inner);
        }
    }
  }

  lemma SlashDivides(s: string, i: nat, kept: seq<Token>, full: seq<Token>)
    requires i < |s| && Weaves(kept, full) && !EndsInTemplate(kept) && Scan(s, i, kept) == Mark('/')
    ensures !BeginsRegularExpression(full)
  {
    hide Scan, BeginsRegularExpression;
    SameVerdict(kept, full);
    if BeginsRegularExpression(kept) { NoSlashHere(s, i, kept); }
  }

  lemma NotJustClosed(s: string, i: nat, tokens: seq<Token>)
    ensures !EndsInTemplate(tokens) ==> JustClosed(s, i, tokens)
  {
  }

  lemma ClosedNow(s: string, i: nat, tokens: seq<Token>, inner: seq<Token>, next: nat)
    requires TemplateFrom(s, i, []) == Some((inner, next))
    ensures JustClosed(s, next, tokens + [TEMPLATE_TOKEN])
  {
    if next < |s| {
      TemplateCloses(s, i, [], inner, next);
      assert Blank(s, next - 1 + 1, next);
    }
  }

  // ----- No slice runs off the end -----

  /** The expression of a template literal is found inside the source and lexes. */
  lemma {:induction false} HoleLexes(s: string, h: nat)
    requires Safe(s) && HoleAt(s, h)
    ensures ExpressionFrom(s, h + 2, 1, []).Some? && ExpressionFrom(s, h + 2, 1, []).value.0 <= |s|
    ensures Lex(s[h + 2..ExpressionFrom(s, h + 2, 1, []).value.0]).Some?
    decreases |s|, |s| - h, 0
  {
    hide Scan, Quiet, Unescaped, OpenRegex;
    ExpressionScans(s, h, h + 2, 1, []);
    var (end, kept) := ExpressionFrom(s, h + 2, 1, []).value;
    if end < |s| && Quiet(s) {
      NotJustClosed(s, h + 2, []);
      QuietIsConcordant(s, h + 2, 1, [], []);
      ScannersAgreeIff(s, h + 2, end, kept);
    } else {
      if end < |s| {
        ExpressionStopsAtBrace(s, h + 2, 1, []);
      }
      SafeCut(s, h + 2, end);
      LexSucceeds(s[h + 2..end], 0, []);
    }
  }

  lemma SafeCut(s: string, a: nat, e: nat)
    requires Safe(s) && a <= e <= |s| && (e < |s| ==> s[e] == '}' && Unescaped(s))
    ensures Safe(s[a..e])
  {
    hide Quiet, Unescaped, OpenRegex;
    if e < |s| {
      UnescapedCut(s, a, e);
      ClosedRegexCut(s, a, e);
    } else {
      assert s[a..e] == s[a..];
      ClosedRegexSuffix(s, a);
      if Quiet(s) { QuietSuffix(s, a); } else { UnescapedCut(s, a, e); }
    }
  }

  lemma UnescapedCut(s: string, a: nat, e: nat)
    requires Unescaped(s) && a <= e <= |s|
    ensures Unescaped(s[a..e])
  {
    var t := s[a..e];
    forall i | 0 <= i < |t| - 1 && t[i] == '\\' ensures t[i + 1] != '}' {
      assert s[a + i] == '\\' && s[a + i + 1] == t[i + 1];
    }
  }

  /** Before a closing brace that no backslash precedes, no regular expression is cut at one. */
  lemma ClosedRegexCut(s: string, a: nat, e: nat)
    requires Unescaped(s) && a <= e < |s| && s[e] == '}'
    ensures !OpenRegex(s[a..e])
  {
    var t := s[a..e];
    assert |t| > 0 ==> t[|t| - 1] == s[e - 1];
    NeedsFinalBackslash(t);
  }

  lemma NeedsFinalBackslash(s: string)
    requires !EndsInBackslash(s)
    ensures !OpenRegex(s)
  {
    forall p: nat ensures !OverrunsAt(s, p) {
    }
  }

  lemma ClosedRegexSuffix(s: string, a: nat)
    requires !OpenRegex(s) && a <= |s|
    ensures !OpenRegex(s[a..])
  {
    var t := s[a..];
    if h: nat, p: nat :| HoleAt(t, h) && h + 1 < p && OverrunsAt(t, p) {
      RegexShifts(s, a, p + 1, false);
      assert HoleAt(s, a + h) && OverrunsAt(s, a + p);
    }
  }

  lemma {:induction false} RegexShifts(s: string, a: nat, i: nat, inClass: bool)
    requires a <= |s| && i <= |s[a..]| + 1
    ensures RegexEnd(s, a + i, inClass) == a + RegexEnd(s[a..], i, inClass)
    decreases |s| + 1 - i
  {
    var t := s[a..];
    if i < |t| {
      assert t[i] == s[a + i];
      if t[i] == '\\' {
        RegexShifts(s, a, i + 2, inClass);
      } else if t[i] == '/' && !inClass {
        IdentifierShifts(s, a, i + 1);
      } else if t[i] != '\n' && t[i] != '\r' {
        RegexShifts(s, a, i + 1, t[i] == '[' || (inClass && t[i] != ']'));
      }
    }
  }

  lemma {:induction false} IdentifierShifts(s: string, a: nat, i: nat)
    requires a <= |s| && i <= |s[a..]|
    ensures IdentifierEnd(s, a + i) == a + IdentifierEnd(s[a..], i)
    decreases |s| - i
  {
    if i < |s[a..]| && IsIdentifierPart(s[a..][i]) {
      IdentifierShifts(s, a, i + 1);
    }
  }

  lemma QuietSuffix(s: string, a: nat)
    requires Quiet(s) && a <= |s|
    ensures Quiet(s[a..])
  {
    var t := s[a..];
    forall j, i | 0 <= j < i < |t| && t[j] == '`' && Blank(t, j + 1, i) ensures t[i] != '/' {
      assert Blank(s, a + j + 1, a + i) by {
        forall k | a + j + 1 <= k < a + i ensures IsSpace(s[k]) { assert t[k - a] == s[k]; }
      }
    }
  }

  lemma {:induction false} TemplateScans(s: string, i: nat, embedded: seq<Token>)
    requires Safe(s)
    ensures TemplateFrom(s, i, embedded).Some?
    decreases |s|, |s| - i, 1
  {
    hide Scan, Quiet, Unescaped, OpenRegex;
    if i < |s| {
      if s[i] == '\\' && i + 1 < |s| {
        TemplateScans(s, i + 2, embedded);
      } else if s[i] == '$' && i + 1 < |s| && s[i + 1] == '{' {
        HoleLexes(s, i);
        var end := ExpressionFrom(s, i + 2, 1, []).value.0;
        if end < |s| { TemplateScans(s, end + 1, embedded + Lex(s[i + 2..end]).value); }
      } else if s[i] != '`' {
        TemplateScans(s, i + 1, embedded);
      }
    }
  }

  lemma OnlyRegexOverruns(s: string, i: nat, tokens: seq<Token>)
    requires i < |s|
    ensures Scan(s, i, tokens).Skip? && Scan(s, i, tokens).next > |s| ==> OverrunsAt(s, i)
    ensures Scan(s, i, tokens).Emit? ==> Scan(s, i, tokens).next <= |s|
  {
    hide BeginsRegularExpression;
  }

  /** From inside an embedded expression that starts at h. */
  lemma {:induction false} ExpressionScans(s: string, h: nat, i: nat, depth: nat, tokens: seq<Token>)
    requires Safe(s) && HoleAt(s, h) && h + 1 < i <= |s|
    ensures ExpressionFrom(s, i, depth, tokens).Some? && ExpressionFrom(s, i, depth, tokens).value.0 <= |s|
    decreases |s|, |s| - i, 2
  {
    hide Scan, Quiet, Unescaped;
    if i < |s| {
      OnlyRegexOverruns(s, i, tokens);
      hide HoleAt, OverrunsAt;
      match Scan(s, i, tokens)
      case Skip(next) => ExpressionScans(s, h, next, depth, tokens);
      case Emit(token, next) => ExpressionScans(s, h, next, depth, tokens + [token]);
      case Mark(c) =>
        if !(c == '}' && depth <= 1) { ExpressionScans(s, h, i + 1, Deeper(c, depth), tokens + [MarkToken(c)]); }
      case Open =>
        TemplateScans(s, i + 1, []);
        ExpressionScans(s, h, TemplateFrom(s, i + 1, []).value.1, depth, tokens + [TEMPLATE_TOKEN]);
    }
  }

  /** A source in which no regular expression after the start of an embedded expression runs to a
      lone backslash at the end, and in which no backtick is followed by a slash or no backslash by
      a closing brace, is lexed without any slice leaving it. */
  lemma {:induction false} LexSucceeds(s: string, i: nat, tokens: seq<Token>)
    requires Safe(s)
    ensures LexFrom(s, i, tokens).Some?
    decreases |s|, |s| - i, 3
  {
    hide Scan, Quiet, Unescaped, OpenRegex;
    if i < |s| {
      match Scan(s, i, tokens)
      case Skip(next) => LexSucceeds(s, next, tokens);
      case Emit(token, next) => LexSucceeds(s, next, tokens + [token]);
      case Mark(c) => LexSucceeds(s, i + 1, tokens + [MarkToken(c)]);
      case Open =>
        TemplateScans(s, i + 1, []);
        var (embedded, next) := TemplateFrom(s, i + 1, []).value;
        LexSucceeds(s, next, tokens + [TEMPLATE_TOKEN] + embedded);
    }
  }

  // ----- The conditions are needed -----

  /** An embedded regular expression that ends in a lone backslash, at the very end of the source,
      makes the slice at typescript_policy.go:281 run past it. */
  lemma TrailingBackslashOverruns()
    ensures Quiet("`${/\\") && Unescaped("`${/\\") && OpenRegex("`${/\\") && Lex("`${/\\").None?
  {
    var s := "`${/\\";
    assert |s| == 5 && s[0] == '`' && s[1] == '$' && s[2] == '{' && s[3] == '/' && s[4] == '\\';
    assert !IsSpace(s[1]);
    assert Quiet(s);
    assert RegexEnd(s, 4, false) == RegexEnd(s, 6, false) == 6;
    assert HoleAt(s, 1) && OverrunsAt(s, 3);
    assert Scan(s, 3, []) == Skip(6);
    assert ExpressionFrom(s, 3, 1, []) == ExpressionFrom(s, 6, 1, []) == Some((6, []));
    assert TemplateFrom(s, 1, []) == None;
    assert Scan(s, 0, []) == Open;
  }

  /** The template literal `${=}` wherever it stands. */
  ghost predicate EqualsTemplateAt(s: string, i: nat) {
    i + 5 < |s| && s[i] == '`' && s[i + 1] == '$' && s[i + 2] == '{' && s[i + 3] == '=' && s[i + 4] == '}' && s[i + 5] == '`'
  }

  lemma EqualsTemplate(s: string, i: nat)
    requires EqualsTemplateAt(s, i)
    ensures TemplateFrom(s, i + 1, []) == Some(([MarkToken('=')], i + 6))
  {
    assert Scan(s, i + 3, []) == Mark('=') && Scan(s, i + 4, [MarkToken('=')]) == Mark('}');
    assert ExpressionFrom(s, i + 4, 1, [MarkToken('=')]) == Some((i + 4, [MarkToken('=')]));
    assert ExpressionFrom(s, i + 3, 1, []) == ExpressionFrom(s, i + 4, 1, [] + [MarkToken('=')]);
    assert [] + [MarkToken('=')] == [MarkToken('=')];
    var t := s[i + 3..i + 4];
    assert t == "=" && Scan(t, 0, []) == Mark('=');
    assert LexFrom(t, 1, [] + [MarkToken('=')]) == Some([MarkToken('=')]);
    assert TemplateFrom(s, i + 5, [MarkToken('=')]) == Some(([MarkToken('=')], i + 6));
    assert TemplateFrom(s, i + 1, []) == TemplateFrom(s, i + 5, [] + [MarkToken('=')]);
  }

  lemma EqualsOpensRegex(tokens: seq<Token>)
    requires tokens != [] && tokens[|tokens| - 1] == MarkToken('=')
    ensures BeginsRegularExpression(tokens)
  {
    assert MarkToken('=').text == "=" && "=" <= REGEX_OPENERS;
  }

  lemma ScanMark(s: string, i: nat, tokens: seq<Token>)
    requires i < |s| && !IsSpace(s[i]) && s[i] != '\'' && s[i] != '"' && s[i] != '`' && s[i] != '/' && !IsIdentifierStart(s[i])
    ensures Scan(s, i, tokens) == Mark(s[i])
  {
  }

  lemma ScanDivision(s: string, i: nat, tokens: seq<Token>)
    requires i + 1 < |s| && s[i] == '/' && s[i + 1] != '/' && s[i + 1] != '*' && !BeginsRegularExpression(tokens)
    ensures Scan(s, i, tokens) == Mark('/')
  {
  }

  const DIVIDED := "`${`${=}`/a/}`"

  ghost predicate DividedSource(s: string) {
    |s| == 14 && EqualsTemplateAt(s, 3) && s[9] == '/' && s[10] == 'a' && s[11] == '/' && s[12] == '}'
  }

  lemma DividedWord(s: string, tokens: seq<Token>)
    requires DividedSource(s)
    ensures Scan(s, 10, tokens) == Emit(Token(Identifier, "a"), 11)
  {
    assert IdentifierEnd(s, 11) == 11 && s[10..11] == "a";
  }

  lemma NoRegexAfterWord(tokens: seq<Token>)
    requires tokens != [] && tokens[|tokens| - 1] == Token(Identifier, "a")
    ensures !BeginsRegularExpression(tokens)
  {
  }

  lemma DividedEnd(s: string, a: Token, kept: seq<Token>)
    requires DividedSource(s) && a == Token(Identifier, "a")
    requires kept == [TEMPLATE_TOKEN] + [MarkToken('/')] + [a] + [MarkToken('/')]
    ensures ExpressionFrom(s, 3, 1, []) == Some((12, kept))
  {
    hide Scan, BeginsRegularExpression, ExpressionFrom, TemplateFrom;
    var k1 := [] + [TEMPLATE_TOKEN];
    var k2 := k1 + [MarkToken('/')];
    var k3 := k2 + [a];
    assert k3 + [MarkToken('/')] == kept;
    EqualsTemplate(s, 3);
    ExpressionOpens(s, 3, 1, [], [MarkToken('=')], 9);
    NoRegexAfterTemplate(k1);
    ScanDivision(s, 9, k1);
    ExpressionMarks(s, 9, 1, k1, '/');
    DividedWord(s, k2);
    ExpressionEmits(s, 10, 1, k2, a, 11);
    NoRegexAfterWord(k3);
    ScanDivision(s, 11, k3);
    ExpressionMarks(s, 11, 1, k3, '/');
    ScanMark(s, 12, kept);
    ExpressionMarks(s, 12, 1, kept, '}');
  }

  /** After a nested template the two loops read a slash differently: here the end is found past the
      identifier a, which the lexer then takes for a regular expression and never reports. */
  lemma SlashAfterTemplateHidesTokens()
    ensures exists end, kept, all ::
      && ExpressionFrom(DIVIDED, 3, 1, []) == Some((end, kept)) && end < |DIVIDED|
      && Token(Identifier, "a") in kept
      && Lex(DIVIDED[3..end]) == Some(all)
      && Token(Identifier, "a") !in all
  {
    hide ExpressionFrom, Lex;
    var s, a := DIVIDED, Token(Identifier, "a");
    var kept := [TEMPLATE_TOKEN] + [MarkToken('/')] + [a] + [MarkToken('/')];
    assert DividedSource(s);
    DividedEnd(s, a, kept);
    var full := [TEMPLATE_TOKEN, MarkToken('=')];
    DividedCut(s[3..12], full);
    assert kept[2] == a && a !in full;
  }

  lemma DividedCut(t: string, full: seq<Token>)
    requires |t| == 9 && EqualsTemplateAt(t, 0) && t[6] == '/' && t[7] == 'a' && t[8] == '/'
    requires full == [TEMPLATE_TOKEN, MarkToken('=')]
    ensures Lex(t) == Some(full)
  {
    EqualsTemplate(t, 0);
    EqualsOpensRegex(full);
    assert RegexEnd(t, 8, false) == IdentifierEnd(t, 9) == 9;
    assert RegexEnd(t, 7, false) == 9;
    assert Scan(t, 6, full) == Skip(9);
    assert LexFrom(t, 6, full) == LexFrom(t, 9, full) == Some(full);
    assert Scan(t, 0, []) == Open;
    assert [] + [TEMPLATE_TOKEN] + [MarkToken('=')] == full;
  }

  const OVERRUN := "`${`${=}`/'/`${/'\\}`"

  /** With a slash after a nested template a slice can leave the part cut out although no
      regular expression runs to the end of the source itself. */
  lemma SlashAfterTemplateOverruns()
    ensures !OpenRegex(OVERRUN) && Lex(OVERRUN).None?
  {
    var s := OVERRUN;
    NeedsFinalBackslash(s);
    OverrunShape();
    OverrunEnd(s);
    OverrunCut(s[3..18]);
    hide LexFrom, ExpressionFrom;
    assert TemplateFrom(s, 1, []) == None;
    assert Scan(s, 0, []) == Open;
  }

  ghost predicate OverrunSource(s: string) {
    && |s| == 20 && EqualsTemplateAt(s, 3) && s[9] == '/' && s[10] == '\'' && s[11] == '/' && s[12] == '`'
    && s[13] == '$' && s[14] == '{' && s[15] == '/' && s[16] == '\'' && s[17] == '\\' && s[18] == '}'
  }

  lemma OverrunShape()
    ensures var s := OVERRUN; OverrunSource(s) && s[0] == '`' && s[1] == '$' && s[2] == '{' && s[19] == '`'
  {
  }

  lemma OverrunLiteral(s: string, tokens: seq<Token>)
    requires OverrunSource(s)
    ensures Scan(s, 10, tokens).Emit? && Scan(s, 10, tokens).next == 17
  {
    assert Quoted(s, 15, '\'', "" + [s[11]] + [s[12]] + [s[13]] + [s[14]]).1 == 17;
    assert Quoted(s, 13, '\'', "" + [s[11]] + [s[12]]).1 == 17;
    assert Quoted(s, 11, '\'', "").1 == 17;
  }

  lemma OverrunEnd(s: string)
    requires OverrunSource(s)
    ensures ExpressionFrom(s, 3, 1, []).Some? && ExpressionFrom(s, 3, 1, []).value.0 == 18
  {
    hide Scan, BeginsRegularExpression, ExpressionFrom, TemplateFrom;
    var k1 := [] + [TEMPLATE_TOKEN];
    var k2 := k1 + [MarkToken('/')];
    EqualsTemplate(s, 3);
    ExpressionOpens(s, 3, 1, [], [MarkToken('=')], 9);
    NoRegexAfterTemplate(k1);
    ScanDivision(s, 9, k1);
    ExpressionMarks(s, 9, 1, k1, '/');
    OverrunLiteral(s, k2);
    var literal := Scan(s, 10, k2).token;
    ExpressionEmits(s, 10, 1, k2, literal, 17);
    var k3 := k2 + [literal];
    var k4 := k3 + [MarkToken('\\')];
    ScanMark(s, 17, k3);
    ExpressionMarks(s, 17, 1, k3, '\\');
    ScanMark(s, 18, k4);
    ExpressionMarks(s, 18, 1, k4, '}');
  }

  lemma OverrunCut(t: string)
    requires |t| == 15 && EqualsTemplateAt(t, 0) && t[6] == '/' && t[7] == '\'' && t[8] == '/' && t[9] == '`'
    requires t[10] == '$' && t[11] == '{' && t[12] == '/' && t[13] == '\'' && t[14] == '\\'
    ensures Lex(t) == None
  {
    var full := [TEMPLATE_TOKEN, MarkToken('=')];
    EqualsTemplate(t, 0);
    EqualsOpensRegex(full);
    assert RegexEnd(t, 14, false) == RegexEnd(t, 16, false) == 16;
    assert RegexEnd(t, 13, false) == 16;
    assert Scan(t, 12, []) == Skip(16);
    assert ExpressionFrom(t, 12, 1, []) == ExpressionFrom(t, 16, 1, []) == Some((16, []));
    assert TemplateFrom(t, 10, []) == None;
    assert Scan(t, 9, full) == Open && LexFrom(t, 9, full) == None;
    assert RegexEnd(t, 8, false) == IdentifierEnd(t, 9) == 9;
    assert RegexEnd(t, 7, false) == 9;
    assert Scan(t, 6, full) == Skip(9);
    assert LexFrom(t, 6, full) == LexFrom(t, 9, full);
    assert Scan(t, 0, []) == Open;
    assert [] + [TEMPLATE_TOKEN] + [MarkToken('=')] == full;
  }
}
