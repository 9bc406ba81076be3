/** The two loops that must agree on an embedded template expression: the one that looks for its
    end, and the lexer that is then run on the part cut out. */
module LexerAgreement {
  import opened Json
  import opened TypeScriptLexer
  import opened LexerLocality

  // ----- Braces -----

  function Turn(t: Token): (r: int) {
    if t == MarkToken('{') then 1 else if t == MarkToken('}') then -1 else 0
  }

  /** Opening minus closing braces. */
  function Balance(tokens: seq<Token>): (r: int) {
    if tokens == [] then 0 else Balance(tokens[..|tokens| - 1]) + Turn(tokens[|tokens| - 1])
  }

  ghost predicate NeverNegative(tokens: seq<Token>) {
    forall k :: 0 <= k <= |tokens| ==> Balance(tokens[..k]) >= 0
  }

  lemma BalanceAppend(tokens: seq<Token>, t: Token)
    ensures Balance(tokens + [t]) == Balance(tokens) + Turn(t)
    ensures NeverNegative(tokens) && Balance(tokens) + Turn(t) >= 0 ==> NeverNegative(tokens + [t])
  {
    var all := tokens + [t];
    assert all[..|tokens|] == tokens && all[..|all|] == all;
    forall k | 0 <= k <= |tokens| ensures all[..k] == tokens[..k] {
    }
  }

  /** The tokens kept up to the end of an expression have balanced braces, and no prefix of them
      closes a brace it did not open. */
  lemma {:induction false} ExpressionBalances(
    s: string, i: nat, depth: nat, tokens: seq<Token>, end: nat, kept: seq<Token>)
    requires depth >= 1 && depth == 1 + Balance(tokens) && NeverNegative(tokens)
    requires ExpressionFrom(s, i, depth, tokens) == Some((end, kept)) && end < |s|
    ensures Balance(kept) == 0 && NeverNegative(kept)
    decreases |s| - i
  {
    hide Scan, NeverNegative;
    match Scan(s, i, tokens)
    case Skip(next) => ExpressionBalances(s, next, depth, tokens, end, kept);
    case Emit(token, next) =>
      BalanceAppend(tokens, token);
      ExpressionBalances(s, next, depth, tokens + [token], end, kept);
    case Mark(c) =>
      if !(c == '}' && depth <= 1) {
        BalanceAppend(tokens, MarkToken(c));
        ExpressionBalances(s, i + 1, Deeper(c, depth), tokens + [MarkToken(c)], end, kept);
      }
    case Open =>
      BalanceAppend(tokens, TEMPLATE_TOKEN);
      ExpressionBalances(s, TemplateFrom(s, i + 1, []).value.1, depth, tokens + [TEMPLATE_TOKEN], end, kept);
  }

  // ----- Tokens kept and tokens lexed -----

  ghost predicate EndsInTemplate(tokens: seq<Token>) {
    tokens != [] && tokens[|tokens| - 1] == TEMPLATE_TOKEN
  }

  /** full is kept with the embedded tokens of each nested template put in after its own token. */
  ghost predicate Weaves(kept: seq<Token>, full: seq<Token>)
    decreases |kept|
  {
    if kept == [] then full == []
    else if EndsInTemplate(kept) then
      exists k :: 0 <= k < |full| && full[k] == TEMPLATE_TOKEN && Weaves(kept[..|kept| - 1], full[..k])
    else
      && full != [] && full[|full| - 1] == kept[|kept| - 1]
      && Weaves(kept[..|kept| - 1], full[..|full| - 1])
  }

  lemma WeavesToken(kept: seq<Token>, full: seq<Token>, t: Token)
    requires Weaves(kept, full) && t != TEMPLATE_TOKEN
    ensures Weaves(kept + [t], full + [t])
  {
    assert (kept + [t])[..|kept|] == kept && (full + [t])[..|full|] == full;
  }

  lemma WeavesTemplate(kept: seq<Token>, full: seq<Token>, embedded: seq<Token>)
    requires Weaves(kept, full)
    ensures Weaves(kept + [TEMPLATE_TOKEN], full + [TEMPLATE_TOKEN] + embedded)
  {
    var all := full + [TEMPLATE_TOKEN] + embedded;
    assert (kept + [TEMPLATE_TOKEN])[..|kept|] == kept && all[..|full|] == full && all[|full|] == TEMPLATE_TOKEN;
  }

  lemma {:induction false} WeavesFlat(kept: seq<Token>, full: seq<Token>)
    requires Weaves(kept, full) && TEMPLATE_TOKEN !in kept
    ensures full == kept
    decreases |kept|
  {
    if kept != [] {
      WeavesFlat(kept[..|kept| - 1], full[..|full| - 1]);
      assert kept == kept[..|kept| - 1] + [kept[|kept| - 1]];
      assert full == full[..|full| - 1] + [full[|full| - 1]];
    }
  }

  lemma ScanByVerdict(s: string, i: nat, x: seq<Token>, y: seq<Token>)
    requires i < |s|
    requires BeginsRegularExpression(x) == BeginsRegularExpression(y)
          || (!BeginsRegularExpression(x) && Scan(s, i, x) != Mark('/'))
    ensures Scan(s, i, y) == Scan(s, i, x)
  {
    hide BeginsRegularExpression;
  }

  lemma SameVerdict(kept: seq<Token>, full: seq<Token>)
    requires Weaves(kept, full) && !EndsInTemplate(kept)
    ensures BeginsRegularExpression(kept) == BeginsRegularExpression(full)
  {
    hide Contains;
  }

  lemma {:induction false} ContainsMember(s: string, c: char)
    ensures Contains(s, [c]) ==> c in s
  {
    if s != "" {
      ContainsMember(s[1..], c);
      assert [c] <= s ==> [c][0] == s[0];
    }
  }

  lemma NoRegexAfterTemplate(tokens: seq<Token>)
    requires EndsInTemplate(tokens)
    ensures !BeginsRegularExpression(tokens)
  {
    assert TEMPLATE_TOKEN.text == ['`'];
    ContainsMember(REGEX_OPENERS, '`');
  }

  /** What the part cut out should lex to: the tokens kept, each nested template followed by what it
      embeds. full is carried along with the tokens kept so far. */
  ghost function Woven(s: string, i: nat, depth: nat, kept: seq<Token>, full: seq<Token>): (r: Option<seq<Token>>)
    decreases |s| - i
  {
    if i >= |s| then Some(full)
    else match Scan(s, i, kept)
      case Skip(next) => Woven(s, next, depth, kept, full)
      case Emit(token, next) => Woven(s, next, depth, kept + [token], full + [token])
      case Mark(c) =>
        if c == '}' && depth <= 1 then Some(full)
        else Woven(s, i + 1, Deeper(c, depth), kept + [MarkToken(c)], full + [MarkToken(c)])
      case Open =>
        match TemplateFrom(s, i + 1, [])
        case None => None
        case Some((inner, next)) => Woven(s, next, depth, kept + [TEMPLATE_TOKEN], full + [TEMPLATE_TOKEN] + inner)
  }

  /** No slash that the search for the end takes for a division follows embedded tokens after which
      the lexer would take it for a regular expression. */
  ghost predicate Concordant(s: string, i: nat, depth: nat, kept: seq<Token>, full: seq<Token>)
    decreases |s| - i
  {
    i >= |s| ||
    match Scan(s, i, kept)
    case Skip(next) => Concordant(s, next, depth, kept, full)
    case Emit(token, next) => Concordant(s, next, depth, kept + [token], full + [token])
    case Mark(c) =>
      && (c == '/' ==> !BeginsRegularExpression(full))
      && ((c == '}' && depth <= 1)
          || Concordant(s, i + 1, Deeper(c, depth), kept + [MarkToken(c)], full + [MarkToken(c)]))
    case Open =>
      match TemplateFrom(s, i + 1, [])
      case None => true
      case Some((inner, next)) => Concordant(s, next, depth, kept + [TEMPLATE_TOKEN], full + [TEMPLATE_TOKEN] + inner)
  }

  lemma {:induction false} WovenExists(
    s: string, i: nat, depth: nat, kept: seq<Token>, full: seq<Token>, end: nat, final: seq<Token>)
    requires ExpressionFrom(s, i, depth, kept) == Some((end, final)) && Weaves(kept, full)
    ensures Woven(s, i, depth, kept, full).Some?
    ensures full <= Woven(s, i, depth, kept, full).value && Weaves(final, Woven(s, i, depth, kept, full).value)
    decreases |s| - i
  {
    hide Scan, Weaves;
    if i < |s| {
      match Scan(s, i, kept)
      case Skip(next) => WovenExists(s, next, depth, kept, full, end, final);
      case Emit(token, next) =>
        WeavesToken(kept, full, token);
        WovenExists(s, next, depth, kept + [token], full + [token], end, final);
      case Mark(c) =>
        if !(c == '}' && depth <= 1) {
          WeavesToken(kept, full, MarkToken(c));
          WovenExists(s, i + 1, Deeper(c, depth), kept + [MarkToken(c)], full + [MarkToken(c)], end, final);
        }
      case Open =>
        var (inner, next) := TemplateFrom(s, i + 1, []).value;
        WeavesTemplate(kept, full, inner);
        WovenExists(s, next, depth, kept + [TEMPLATE_TOKEN], full + [TEMPLATE_TOKEN] + inner, end, final);
    }
  }

  /** Both loops take the same step, except at a slash they judge differently. */
  lemma ScanSame(s: string, i: nat, kept: seq<Token>, full: seq<Token>)
    requires i < |s| && Weaves(kept, full)
    requires Scan(s, i, kept) == Mark('/') ==> !BeginsRegularExpression(full)
    ensures Scan(s, i, full) == Scan(s, i, kept)
  {
    hide Scan, BeginsRegularExpression;
    if EndsInTemplate(kept) { NoRegexAfterTemplate(kept); } else { SameVerdict(kept, full); }
    ScanByVerdict(s, i, kept, full);
  }

  lemma {:induction false} LexGrows(t: string, i: nat, tokens: seq<Token>, all: seq<Token>)
    requires LexFrom(t, i, tokens) == Some(all)
    ensures tokens <= all
    decreases |t| - i
  {
    hide Scan;
    if i < |t| {
      match Scan(t, i, tokens)
      case Skip(next) => LexGrows(t, next, tokens, all);
      case Emit(token, next) => LexGrows(t, next, tokens + [token], all);
      case Mark(c) => LexGrows(t, i + 1, tokens + [MarkToken(c)], all);
      case Open =>
        var (inner, next) := TemplateFrom(t, i + 1, []).value;
        LexGrows(t, next, tokens + [TEMPLATE_TOKEN] + inner, all);
    }
  }

  lemma NoSlashHere(t: string, i: nat, tokens: seq<Token>)
    requires i < |t| && BeginsRegularExpression(tokens)
    ensures Scan(t, i, tokens) != Mark('/')
  {
  }

  /** After tokens that open a regular expression the lexer never emits a slash next. */
  lemma {:induction false} NoSlashNext(t: string, i: nat, tokens: seq<Token>, all: seq<Token>)
    requires BeginsRegularExpression(tokens) && LexFrom(t, i, tokens) == Some(all)
    ensures !(tokens + [MarkToken('/')] <= all)
    decreases |t| - i
  {
    hide Scan, BeginsRegularExpression;
    var slash := tokens + [MarkToken('/')];
    if i < |t| {
      NoSlashHere(t, i, tokens);
      match Scan(t, i, tokens)
      case Skip(next) => NoSlashNext(t, next, tokens, all);
      case Emit(token, next) =>
        LexGrows(t, next, tokens + [token], all);
        assert all[|tokens|] == token && slash[|tokens|] != token;
      case Mark(c) =>
        LexGrows(t, i + 1, tokens + [MarkToken(c)], all);
        assert all[|tokens|] == MarkToken(c) && MarkToken(c).text[0] == c && slash[|tokens|].text[0] == '/';
      case Open =>
        var (inner, next) := TemplateFrom(t, i + 1, []).value;
        LexGrows(t, next, tokens + [TEMPLATE_TOKEN] + inner, all);
        assert all[|tokens|] == TEMPLATE_TOKEN && slash[|tokens|] != TEMPLATE_TOKEN;
    }
  }

  lemma BraceMark(s: string, i: nat, tokens: seq<Token>)
    requires i < |s| && s[i] == '}'
    ensures Scan(s, i, tokens) == Mark('}')
  {
  }

  lemma CutEnds(s: string, t: string, a: nat, depth: nat, kept: seq<Token>, final: seq<Token>)
    requires Fits(s, t, a) && depth >= 1
    requires ExpressionFrom(s, a + |t|, depth, kept) == Some((a + |t|, final))
    ensures final == kept
  {
    hide Scan;
    BraceMark(s, a + |t|, kept);
    ExpressionMarks(s, a + |t|, depth, kept, '}');
  }

  /** Lexing the part cut out gives the woven tokens exactly when no slash is judged differently. */
  lemma {:induction false} LexFollowsIff(
    s: string, t: string, a: nat, i: nat, depth: nat, kept: seq<Token>, full: seq<Token>, final: seq<Token>)
    requires Fits(s, t, a) && i <= |t| && depth >= 1 && Weaves(kept, full)
    requires ExpressionFrom(s, a + i, depth, kept) == Some((a + |t|, final))
    ensures Concordant(s, a + i, depth, kept, full) <==> LexFrom(t, i, full) == Woven(s, a + i, depth, kept, full)
    decreases |s| - (a + i), 1
  {
    hide Scan, Weaves, BeginsRegularExpression;
    if i == |t| {
      BraceMark(s, a + |t|, kept);
      CutEnds(s, t, a, depth, kept, final);
      assert depth <= 1 by { ExpressionMarks(s, a + |t|, depth, kept, '}'); }
    } else if Scan(s, a + i, kept) == Mark('/') && BeginsRegularExpression(full) {
      LexDiffers(s, t, a, i, depth, kept, full, final);
    } else {
      ScanSame(s, a + i, kept, full);
      match Scan(s, a + i, kept)
      case Skip(next) =>
        ScanLocal(s, t, a, i, full);
        LexFollowsIff(s, t, a, next - a, depth, kept, full, final);
      case Emit(token, next) =>
        ScanLocal(s, t, a, i, full);
        WeavesToken(kept, full, token);
        LexFollowsIff(s, t, a, next - a, depth, kept + [token], full + [token], final);
      case Mark(c) =>
        LexFollowsMark(s, t, a, i, depth, kept, full, final, c);
      case Open =>
        LexFollowsTemplate(s, t, a, i, depth, kept, full, final);
    }
  }

  /** At a slash judged differently the lexer skips what the other loop kept. */
  lemma LexDiffers(
    s: string, t: string, a: nat, i: nat, depth: nat, kept: seq<Token>, full: seq<Token>, final: seq<Token>)
    requires a + i < |s| && Weaves(kept, full) && ExpressionFrom(s, a + i, depth, kept) == Some((a + |t|, final))
    requires Scan(s, a + i, kept) == Mark('/') && BeginsRegularExpression(full)
    ensures LexFrom(t, i, full) != Woven(s, a + i, depth, kept, full)
  {
    hide Scan, Weaves, BeginsRegularExpression, LexFrom;
    ExpressionMarks(s, a + i, depth, kept, '/');
    WeavesToken(kept, full, MarkToken('/'));
    WovenExists(s, a + i + 1, depth, kept + [MarkToken('/')], full + [MarkToken('/')], a + |t|, final);
    if LexFrom(t, i, full).Some? {
      NoSlashNext(t, i, full, LexFrom(t, i, full).value);
    }
  }

  lemma {:induction false} LexFollowsMark(
    s: string, t: string, a: nat, i: nat, depth: nat, kept: seq<Token>, full: seq<Token>, final: seq<Token>, c: char)
    requires Fits(s, t, a) && i < |t| && depth >= 1 && Weaves(kept, full)
    requires Scan(s, a + i, kept) == Mark(c) == Scan(s, a + i, full) && (c == '/' ==> !BeginsRegularExpression(full))
    requires ExpressionFrom(s, a + i, depth, kept) == Some((a + |t|, final))
    ensures Concordant(s, a + i, depth, kept, full) <==> LexFrom(t, i, full) == Woven(s, a + i, depth, kept, full)
    decreases |s| - (a + i), 0
  {
    hide Scan, Weaves, BeginsRegularExpression;
    ScanLocal(s, t, a, i, full);
    ExpressionMarks(s, a + i, depth, kept, c);
    WeavesToken(kept, full, MarkToken(c));
    LexFollowsIff(s, t, a, i + 1, Deeper(c, depth), kept + [MarkToken(c)], full + [MarkToken(c)], final);
  }

  lemma {:induction false} LexFollowsTemplate(
    s: string, t: string, a: nat, i: nat, depth: nat, kept: seq<Token>, full: seq<Token>, final: seq<Token>)
    requires Fits(s, t, a) && i < |t| && depth >= 1 && Weaves(kept, full)
    requires Scan(s, a + i, kept) == Open == Scan(s, a + i, full)
    requires ExpressionFrom(s, a + i, depth, kept) == Some((a + |t|, final))
    ensures Concordant(s, a + i, depth, kept, full) <==> LexFrom(t, i, full) == Woven(s, a + i, depth, kept, full)
    decreases |s| - (a + i), 0
  {
    hide Scan, Weaves, BeginsRegularExpression;
    ScanLocal(s, t, a, i, full);
    var (inner, next) := TemplateFrom(s, a + i + 1, []).value;
    ExpressionOpens(s, a + i, depth, kept, inner, next);
    TemplateLocal(s, t, a, i + 1, [], inner, next);
    WeavesTemplate(kept, full, inner);
    LexFollowsIff(s, t, a, next - a, depth, kept + [TEMPLATE_TOKEN], full + [TEMPLATE_TOKEN] + inner, final);
  }

  /** For every expression that ends inside the source: it ends at a closing brace, the tokens kept
      are balanced, and the part cut out lexes to them, each nested template followed by what it
      embeds, if and only if no slash is judged differently. */
  lemma ScannersAgreeIff(s: string, start: nat, end: nat, kept: seq<Token>)
    requires ExpressionFrom(s, start, 1, []) == Some((end, kept)) && end < |s|
    ensures start <= end && s[end] == '}'
    ensures Balance(kept) == 0 && NeverNegative(kept)
    ensures Woven(s, start, 1, [], []).Some? && Weaves(kept, Woven(s, start, 1, [], []).value)
    ensures Concordant(s, start, 1, [], []) <==> Lex(s[start..end]) == Woven(s, start, 1, [], [])
  {
    hide Scan;
    ExpressionStopsAtBrace(s, start, 1, []);
    ExpressionBalances(s, start, 1, [], end, kept);
    CutFits(s, start, end);
    WovenExists(s, start, 1, [], [], end, kept);
    LexFollowsIff(s, s[start..end], start, 0, 1, [], [], kept);
  }

  // ----- Expressions without nested templates -----

  lemma {:induction false} KeptGrows(s: string, i: nat, depth: nat, tokens: seq<Token>, end: nat, kept: seq<Token>)
    requires ExpressionFrom(s, i, depth, tokens) == Some((end, kept))
    ensures tokens <= kept
    ensures forall t :: t in tokens ==> t in kept
    decreases |s| - i
  {
    hide Scan;
    if i < |s| {
      match Scan(s, i, tokens)
      case Skip(next) => KeptGrows(s, next, depth, tokens, end, kept);
      case Emit(token, next) => KeptGrows(s, next, depth, tokens + [token], end, kept);
      case Mark(c) =>
        if !(c == '}' && depth <= 1) { KeptGrows(s, i + 1, Deeper(c, depth), tokens + [MarkToken(c)], end, kept); }
      case Open =>
        KeptGrows(s, TemplateFrom(s, i + 1, []).value.1, depth, tokens + [TEMPLATE_TOKEN], end, kept);
    }
  }

  lemma {:induction false} FlatIsConcordant(s: string, i: nat, depth: nat, tokens: seq<Token>, end: nat, kept: seq<Token>)
    requires ExpressionFrom(s, i, depth, tokens) == Some((end, kept)) && TEMPLATE_TOKEN !in kept
    ensures Concordant(s, i, depth, tokens, tokens)
    decreases |s| - i
  {
    hide Scan, BeginsRegularExpression;
    KeptGrows(s, i, depth, tokens, end, kept);
    if i < |s| {
      match Scan(s, i, tokens)
      case Skip(next) => FlatIsConcordant(s, next, depth, tokens, end, kept);
      case Emit(token, next) => FlatIsConcordant(s, next, depth, tokens + [token], end, kept);
      case Mark(c) =>
        if BeginsRegularExpression(tokens) { NoSlashHere(s, i, tokens); }
        if !(c == '}' && depth <= 1) { FlatIsConcordant(s, i + 1, Deeper(c, depth), tokens + [MarkToken(c)], end, kept); }
      case Open =>
        KeptGrows(s, TemplateFrom(s, i + 1, []).value.1, depth, tokens + [TEMPLATE_TOKEN], end, kept);
    }
  }

  /** Without nested templates the part cut out lexes to exactly the tokens kept. */
  lemma FlatScannersAgree(s: string, start: nat, end: nat, kept: seq<Token>)
    requires ExpressionFrom(s, start, 1, []) == Some((end, kept)) && end < |s|
    requires TEMPLATE_TOKEN !in kept
    ensures start <= end && s[end] == '}'
    ensures Balance(kept) == 0 && NeverNegative(kept)
    ensures Lex(s[start..end]) == Some(kept)
  {
    FlatIsConcordant(s, start, 1, [], end, kept);
    ScannersAgreeIff(s, start, end, kept);
    WeavesFlat(kept, Woven(s, start, 1, [], []).value);
  }
}
