/** Scanning up to a closing brace does not depend on what follows the brace, nor on what precedes
    the start of the scan. */
module LexerLocality {
  import opened Json
  import opened TypeScriptLexer

  /** t stands in s at offset a, and a closing brace follows it. */
  ghost predicate Fits(s: string, t: string, a: nat) {
    a + |t| < |s| && s[a + |t|] == '}' && forall k {:trigger t[k]} :: 0 <= k < |t| ==> t[k] == s[a + k]
  }

  lemma CutFits(s: string, a: nat, e: nat)
    requires a <= e < |s| && s[e] == '}'
    ensures Fits(s, s[a..e], a)
  {
  }

  lemma SliceFits(s: string, t: string, a: nat, i: nat, j: nat)
    requires Fits(s, t, a) && i <= j <= |t|
    ensures t[i..j] == s[a + i..a + j]
  {
    forall k | 0 <= k < j - i ensures t[i..j][k] == s[a + i..a + j][k] {
      assert t[i + k] == s[a + (i + k)];
    }
  }

  lemma {:induction false} LineLocal(s: string, t: string, a: nat, i: nat)
    requires Fits(s, t, a) && i <= |t| && LineEnd(s, a + i) <= a + |t|
    ensures LineEnd(s, a + i) == a + LineEnd(t, i)
    decreases |t| - i
  {
    if i < |t| && t[i] != '\n' { LineLocal(s, t, a, i + 1); }
  }

  lemma {:induction false} BlockLocal(s: string, t: string, a: nat, i: nat)
    requires Fits(s, t, a) && i <= |t| && BlockEnd(s, a + i) <= a + |t|
    ensures BlockEnd(s, a + i) == a + BlockEnd(t, i)
    decreases |t| - i
  {
    if i + 1 < |t| && !(t[i] == '*' && t[i + 1] == '/') { BlockLocal(s, t, a, i + 1); }
  }

  lemma {:induction false} IdentifierLocal(s: string, t: string, a: nat, i: nat)
    requires Fits(s, t, a) && i <= |t| && IdentifierEnd(s, a + i) <= a + |t|
    ensures IdentifierEnd(s, a + i) == a + IdentifierEnd(t, i)
    decreases |t| - i
  {
    if i < |t| && IsIdentifierPart(t[i]) { IdentifierLocal(s, t, a, i + 1); }
  }

  lemma {:induction false} QuotedLocal(s: string, t: string, a: nat, i: nat, quote: char, value: string)
    requires Fits(s, t, a) && i <= |t| && quote != '}' && Quoted(s, a + i, quote, value).1 <= a + |t|
    ensures Quoted(s, a + i, quote, value).0 == Quoted(t, i, quote, value).0
    ensures Quoted(s, a + i, quote, value).1 == a + Quoted(t, i, quote, value).1
    decreases |t| - i
  {
    if i < |t| {
      if t[i] == '\\' && i + 1 < |t| {
        QuotedLocal(s, t, a, i + 2, quote, value + [t[i + 1]]);
      } else if t[i] != quote {
        QuotedLocal(s, t, a, i + 1, quote, value + [t[i]]);
      }
    }
  }

  lemma {:induction false} RegexLocal(s: string, t: string, a: nat, i: nat, inClass: bool)
    requires Fits(s, t, a) && i <= |t| && RegexEnd(s, a + i, inClass) <= a + |t|
    ensures RegexEnd(s, a + i, inClass) == a + RegexEnd(t, i, inClass)
    decreases |t| - i
  {
    if i < |t| {
      if t[i] == '\\' {
        if i + 2 <= |t| { RegexLocal(s, t, a, i + 2, inClass); }
      } else if t[i] == '/' && !inClass {
        IdentifierLocal(s, t, a, i + 1);
      } else if t[i] != '\n' && t[i] != '\r' {
        RegexLocal(s, t, a, i + 1, t[i] == '[' || (inClass && t[i] != ']'));
      }
    }
  }

  ghost predicate Ends(step: Step, limit: nat) {
    step.Skip? || step.Emit? ==> step.next <= limit
  }

  ghost function Shifted(step: Step, a: nat): (r: Step) {
    match step
    case Skip(next) => Skip(a + next)
    case Emit(token, next) => Emit(token, a + next)
    case _ => step
  }

  lemma WordLocal(s: string, t: string, a: nat, i: nat, tokens: seq<Token>)
    requires Fits(s, t, a) && i < |t| && IsIdentifierStart(t[i]) && IdentifierEnd(s, a + i + 1) <= a + |t|
    ensures Scan(s, a + i, tokens) == Shifted(Scan(t, i, tokens), a)
  {
    IdentifierLocal(s, t, a, i + 1);
    SliceFits(s, t, a, i, IdentifierEnd(t, i + 1));
  }

  lemma SlashLocal(s: string, t: string, a: nat, i: nat, tokens: seq<Token>)
    requires Fits(s, t, a) && i < |t| && t[i] == '/' && Ends(Scan(s, a + i, tokens), a + |t|)
    ensures Scan(s, a + i, tokens) == Shifted(Scan(t, i, tokens), a)
  {
    if i + 1 < |t| && t[i + 1] == '/' {
      LineLocal(s, t, a, i + 2);
    } else if i + 1 < |t| && t[i + 1] == '*' {
      BlockLocal(s, t, a, i + 2);
    } else if BeginsRegularExpression(tokens) {
      RegexLocal(s, t, a, i + 1, false);
    }
  }

  /** One step inside the cut is the same step of the whole source. */
  lemma ScanLocal(s: string, t: string, a: nat, i: nat, tokens: seq<Token>)
    requires Fits(s, t, a) && i < |t|
    requires Ends(Scan(s, a + i, tokens), a + |t|)
    ensures Scan(s, a + i, tokens) == Shifted(Scan(t, i, tokens), a)
  {
    if t[i] == '/' {
      SlashLocal(s, t, a, i, tokens);
    } else if t[i] == '\'' || t[i] == '"' {
      QuotedLocal(s, t, a, i + 1, t[i], "");
    } else if IsIdentifierStart(t[i]) {
      WordLocal(s, t, a, i, tokens);
    }
  }

  // ----- One round of each scanner -----

  lemma ExpressionSkips(s: string, i: nat, depth: nat, tokens: seq<Token>, next: nat)
    requires i < |s| && Scan(s, i, tokens) == Skip(next)
    ensures ExpressionFrom(s, i, depth, tokens) == ExpressionFrom(s, next, depth, tokens)
  {
  }

  lemma ExpressionEmits(s: string, i: nat, depth: nat, tokens: seq<Token>, token: Token, next: nat)
    requires i < |s| && Scan(s, i, tokens) == Emit(token, next)
    ensures ExpressionFrom(s, i, depth, tokens) == ExpressionFrom(s, next, depth, tokens + [token])
  {
  }

  lemma ExpressionMarks(s: string, i: nat, depth: nat, tokens: seq<Token>, c: char)
    requires i < |s| && Scan(s, i, tokens) == Mark(c)
    ensures ExpressionFrom(s, i, depth, tokens) ==
      if c == '}' && depth <= 1 then Some((i, tokens))
      else ExpressionFrom(s, i + 1, Deeper(c, depth), tokens + [MarkToken(c)])
  {
  }

  lemma ExpressionOpens(s: string, i: nat, depth: nat, tokens: seq<Token>, inner: seq<Token>, next: nat)
    requires i < |s| && Scan(s, i, tokens) == Open && TemplateFrom(s, i + 1, []) == Some((inner, next))
    ensures ExpressionFrom(s, i, depth, tokens) == ExpressionFrom(s, next, depth, tokens + [TEMPLATE_TOKEN])
  {
  }

  lemma TemplateContinues(
    s: string, i: nat, embedded: seq<Token>, end: nat, kept: seq<Token>, inner: seq<Token>)
    requires i + 1 < |s| && s[i] == '$' && s[i + 1] == '{'
    requires ExpressionFrom(s, i + 2, 1, []) == Some((end, kept)) && end < |s|
    requires LexFrom(s[i + 2..end], 0, []) == Some(inner)
    ensures TemplateFrom(s, i, embedded) == TemplateFrom(s, end + 1, embedded + inner)
  {
  }

  // ----- Whole scans -----

  /** An embedded expression that ends inside the source ends at a closing brace. */
  lemma {:induction false} ExpressionStopsAtBrace(s: string, i: nat, depth: nat, tokens: seq<Token>)
    requires ExpressionFrom(s, i, depth, tokens).Some? && ExpressionFrom(s, i, depth, tokens).value.0 < |s|
    ensures s[ExpressionFrom(s, i, depth, tokens).value.0] == '}'
    decreases |s| - i
  {
    if i < |s| {
      match Scan(s, i, tokens)
      case Skip(next) => ExpressionStopsAtBrace(s, next, depth, tokens);
      case Open =>
        var next := TemplateFrom(s, i + 1, []).value.1;
        ExpressionStopsAtBrace(s, next, depth, tokens + [TEMPLATE_TOKEN]);
      case Emit(token, next) => ExpressionStopsAtBrace(s, next, depth, tokens + [token]);
      case Mark(c) =>
        if !(c == '}' && depth <= 1) {
          ExpressionStopsAtBrace(s, i + 1, Deeper(c, depth), tokens + [MarkToken(c)]);
        }
    }
  }

  /** A whole template literal inside the cut is read the same way. */
  lemma {:induction false} TemplateLocal(
    s: string, t: string, a: nat, i: nat, embedded: seq<Token>, all: seq<Token>, next: nat)
    requires Fits(s, t, a) && i <= |t|
    requires TemplateFrom(s, a + i, embedded) == Some((all, next)) && next <= a + |t|
    ensures next >= a && TemplateFrom(t, i, embedded) == Some((all, next - a))
    decreases |s| - (a + i), 2
  {
    if i < |t| {
      if t[i] == '\\' {
        if i + 2 <= |t| { TemplateLocal(s, t, a, i + 2, embedded, all, next); }
      } else if t[i] == '`' {
      } else if t[i] == '$' && i + 1 < |t| && t[i + 1] == '{' {
        HoleLocal(s, t, a, i, embedded, all, next);
      } else {
        TemplateLocal(s, t, a, i + 1, embedded, all, next);
      }
    }
  }

  lemma {:induction false} HoleLocal(
    s: string, t: string, a: nat, i: nat, embedded: seq<Token>, all: seq<Token>, next: nat)
    requires Fits(s, t, a) && i + 1 < |t| && t[i] == '$' && t[i + 1] == '{'
    requires TemplateFrom(s, a + i, embedded) == Some((all, next)) && next <= a + |t|
    ensures next >= a && TemplateFrom(t, i, embedded) == Some((all, next - a))
    decreases |s| - (a + i), 1
  {
    hide Scan;
    var end, inner := HoleRead(s, t, a, i, embedded, all, next);
    TemplateLocal(s, t, a, end - a + 1, embedded + inner, all, next);
  }

  lemma HoleOpens(s: string, i: nat, embedded: seq<Token>, all: seq<Token>, next: nat)
    returns (end: nat, kept: seq<Token>, inner: seq<Token>)
    requires i + 1 < |s| && s[i] == '$' && s[i + 1] == '{' && TemplateFrom(s, i, embedded) == Some((all, next))
    requires next < |s|
    ensures i + 2 <= end < next
    ensures ExpressionFrom(s, i + 2, 1, []) == Some((end, kept)) && LexFrom(s[i + 2..end], 0, []) == Some(inner)
    ensures TemplateFrom(s, end + 1, embedded + inner) == Some((all, next))
  {
    hide Scan;
    end, kept := ExpressionFrom(s, i + 2, 1, []).value.0, ExpressionFrom(s, i + 2, 1, []).value.1;
    inner := LexFrom(s[i + 2..end], 0, []).value;
  }

  /** The embedded expression of a template literal inside the cut is cut out the same way. */
  lemma {:induction false} HoleRead(
    s: string, t: string, a: nat, i: nat, embedded: seq<Token>, all: seq<Token>, next: nat)
    returns (end: nat, inner: seq<Token>)
    requires Fits(s, t, a) && i + 1 < |t| && t[i] == '$' && t[i + 1] == '{'
    requires TemplateFrom(s, a + i, embedded) == Some((all, next)) && next <= a + |t|
    ensures a + i + 2 <= end < next
    ensures TemplateFrom(s, end + 1, embedded + inner) == Some((all, next))
    ensures TemplateFrom(t, i, embedded) == TemplateFrom(t, end - a + 1, embedded + inner)
    decreases |s| - (a + i), 0
  {
    hide Scan, TemplateFrom, LexFrom, ExpressionFrom;
    assert s[a + i] == t[i] && s[a + (i + 1)] == t[i + 1];
    var kept;
    end, kept, inner := HoleOpens(s, a + i, embedded, all, next);
    ExpressionLocal(s, t, a, i + 2, 1, [], end, kept);
    SliceFits(s, t, a, i + 2, end - a);
    TemplateContinues(t, i, embedded, end - a, kept, inner);
  }

  lemma {:induction false} ExpressionLocal(
    s: string, t: string, a: nat, i: nat, depth: nat, tokens: seq<Token>, end: nat, kept: seq<Token>)
    requires Fits(s, t, a) && i <= |t|
    requires ExpressionFrom(s, a + i, depth, tokens) == Some((end, kept)) && end < a + |t|
    ensures end >= a && ExpressionFrom(t, i, depth, tokens) == Some((end - a, kept))
    decreases |s| - (a + i), 2
  {
    hide Scan;
    match Scan(s, a + i, tokens)
    case Skip(next) =>
      ExpressionSkips(s, a + i, depth, tokens, next);
      ScanLocal(s, t, a, i, tokens);
      ExpressionSkips(t, i, depth, tokens, next - a);
      ExpressionLocal(s, t, a, next - a, depth, tokens, end, kept);
    case Open => NestedLocal(s, t, a, i, depth, tokens, end, kept);
    case Emit(token, next) =>
      ExpressionEmits(s, a + i, depth, tokens, token, next);
      ScanLocal(s, t, a, i, tokens);
      ExpressionEmits(t, i, depth, tokens, token, next - a);
      ExpressionLocal(s, t, a, next - a, depth, tokens + [token], end, kept);
    case Mark(c) => MarkLocal(s, t, a, i, depth, tokens, end, kept, c);
  }

  lemma {:induction false} NestedLocal(
    s: string, t: string, a: nat, i: nat, depth: nat, tokens: seq<Token>, end: nat, kept: seq<Token>)
    requires Fits(s, t, a) && i < |t| && Scan(s, a + i, tokens) == Open
    requires ExpressionFrom(s, a + i, depth, tokens) == Some((end, kept)) && end < a + |t|
    ensures end >= a && ExpressionFrom(t, i, depth, tokens) == Some((end - a, kept))
    decreases |s| - (a + i), 1
  {
    hide Scan;
    ScanLocal(s, t, a, i, tokens);
    var (inner, next) := TemplateFrom(s, a + i + 1, []).value;
    ExpressionOpens(s, a + i, depth, tokens, inner, next);
    TemplateLocal(s, t, a, i + 1, [], inner, next);
    ExpressionOpens(t, i, depth, tokens, inner, next - a);
    ExpressionLocal(s, t, a, next - a, depth, tokens + [TEMPLATE_TOKEN], end, kept);
  }

  lemma {:induction false} MarkLocal(
    s: string, t: string, a: nat, i: nat, depth: nat, tokens: seq<Token>, end: nat, kept: seq<Token>, c: char)
    requires Fits(s, t, a) && i < |t| && Scan(s, a + i, tokens) == Mark(c)
    requires ExpressionFrom(s, a + i, depth, tokens) == Some((end, kept)) && end < a + |t|
    ensures end >= a && ExpressionFrom(t, i, depth, tokens) == Some((end - a, kept))
    decreases |s| - (a + i), 1
  {
    hide Scan;
    ExpressionMarks(s, a + i, depth, tokens, c);
    ScanLocal(s, t, a, i, tokens);
    ExpressionMarks(t, i, depth, tokens, c);
    if !(c == '}' && depth <= 1) {
      ExpressionLocal(s, t, a, i + 1, Deeper(c, depth), tokens + [MarkToken(c)], end, kept);
    }
  }
}
