/** What each of the small scanners finds, said of the characters themselves. */
module LexerShapes {
  import opened Json
  import opened TypeScriptLexer

  /** a stands in s from i on, and b after it. */
  lemma Standing(s: string, i: nat, a: string, b: string)
    requires i <= |s| && s[i..] == a + b
    ensures i + |a| <= |s| && s[i..i + |a|] == a && s[i + |a|..] == b
    ensures a != "" ==> i < |s| && s[i] == a[0]
    ensures b != "" ==> i + |a| < |s| && s[i + |a|] == b[0]
    ensures b == "" <==> i + |a| == |s|
  {
    assert s[i..][|a|..] == s[i + |a|..];
    assert s[i..][..|a|] == s[i..i + |a|];
  }

  // ----- Comments and words -----

  /** A line comment ends at the first newline, or with the source. */
  lemma {:induction false} LineEndIs(s: string, i: nat)
    requires i <= |s|
    ensures forall k :: i <= k < LineEnd(s, i) ==> s[k] != '\n'
    ensures LineEnd(s, i) < |s| ==> s[LineEnd(s, i)] == '\n'
    decreases |s| - i
  {
    if i < |s| && s[i] != '\n' { LineEndIs(s, i + 1); }
  }

  predicate ClosesAt(s: string, k: nat) {
    k + 1 < |s| && s[k] == '*' && s[k + 1] == '/'
  }

  /** A block comment ends after the first closing mark, or with the source. */
  lemma {:induction false} BlockEndIs(s: string, i: nat, k: nat)
    requires i <= k && ClosesAt(s, k) && forall j: nat :: i <= j < k ==> !ClosesAt(s, j)
    ensures BlockEnd(s, i) == k + 2
    decreases k - i
  {
    if i < k {
      assert !ClosesAt(s, i);
      BlockEndIs(s, i + 1, k);
    }
  }

  lemma {:induction false} BlockNeverEnds(s: string, i: nat)
    requires i <= |s| && forall k: nat :: i <= k ==> !ClosesAt(s, k)
    ensures BlockEnd(s, i) == |s|
    decreases |s| - i
  {
    if i + 1 < |s| {
      assert !ClosesAt(s, i);
      BlockNeverEnds(s, i + 1);
    }
  }

  /** An identifier is the longest run of identifier characters. */
  lemma {:induction false} IdentifierEndIs(s: string, i: nat)
    requires i <= |s|
    ensures forall k :: i <= k < IdentifierEnd(s, i) ==> IsIdentifierPart(s[k])
    ensures IdentifierEnd(s, i) < |s| ==> !IsIdentifierPart(s[IdentifierEnd(s, i)])
    decreases |s| - i
  {
    if i < |s| && IsIdentifierPart(s[i]) { IdentifierEndIs(s, i + 1); }
  }

  /** The characters that spaces and identifiers are made of. */
  lemma CharacterClasses(c: char)
    ensures IsSpace(c) <==> c in " \t\r\n"
    ensures IsIdentifierStart(c) <==> c == '_' || c == '$' || 'a' <= c <= 'z' || 'A' <= c <= 'Z'
    ensures IsIdentifierPart(c) <==> IsIdentifierStart(c) || '0' <= c <= '9'
  {
  }

  // ----- Slashes -----

  lemma {:induction false} ContainsIff(s: string, part: string)
    ensures Contains(s, part) <==> exists k :: 0 <= k <= |s| && part <= s[k..]
    decreases |s|
  {
    if part <= s {
      assert s[0..] == s;
    } else if s != "" {
      ContainsIff(s[1..], part);
      if k :| 0 <= k <= |s[1..]| && part <= s[1..][k..] {
        assert s[1..][k..] == s[k + 1..];
      }
      if k :| 0 <= k <= |s| && part <= s[k..] {
        assert k > 0 by { assert s[0..] == s; }
        assert s[1..][k - 1..] == s[k..];
      }
    }
  }

  /** After nothing and after some keywords a slash opens a regular expression, after any other word
      it divides. */
  lemma SlashAfterWord(tokens: seq<Token>, word: string)
    ensures BeginsRegularExpression([])
    ensures BeginsRegularExpression(tokens + [Token(Identifier, word)]) <==>
              word in {"case", "delete", "return", "throw", "typeof", "void", "yield"}
  {
    hide Contains;
  }

  /** So it does after some marks, and after any other mark or a template it divides. */
  lemma SlashAfterMark(tokens: seq<Token>, c: char)
    ensures BeginsRegularExpression(tokens + [MarkToken(c)]) <==> c in "=(:,[!&|?{};"
    ensures !BeginsRegularExpression(tokens + [TEMPLATE_TOKEN])
  {
    var openers := "=(:,[!&|?{};";
    OneCharacter(openers, c);
    OneCharacter(openers, '`');
    hide Contains;
    assert TEMPLATE_TOKEN.text == ['`'] && MarkToken(c).text == [c];
  }

  lemma {:induction false} OneCharacter(s: string, c: char)
    ensures Contains(s, [c]) <==> c in s
    decreases |s|
  {
    if s != "" {
      OneCharacter(s[1..], c);
      assert s == [s[0]] + s[1..];
      assert [c] <= s <==> c == s[0];
    }
  }

  // ----- Quoted literals -----

  /** A value as it is written between quotes: a backslash before each quote and each backslash. */
  function Escaped(v: string, quote: char): (s: string) {
    if v == "" then ""
    else if v[0] == quote || v[0] == '\\' then ['\\', v[0]] + Escaped(v[1..], quote)
    else [v[0]] + Escaped(v[1..], quote)
  }

  lemma {:induction false} QuotedReads(s: string, i: nat, quote: char, v: string, tail: string, value: string)
    requires i <= |s| && quote != '\\' && s[i..] == Escaped(v, quote) + [quote] + tail
    ensures Quoted(s, i, quote, value) == (value + v, i + |Escaped(v, quote)| + 1)
    decreases |v|
  {
    if v == "" {
      assert Escaped(v, quote) + [quote] + tail == [quote] + tail;
      Standing(s, i, [quote], tail);
      assert value + v == value;
    } else {
      var first := if v[0] == quote || v[0] == '\\' then ['\\', v[0]] else [v[0]];
      var rest := Escaped(v[1..], quote) + [quote] + tail;
      assert Escaped(v, quote) + [quote] + tail == first + rest;
      Standing(s, i, first, rest);
      assert s[i..i + |first|] == first;
      assert |first| == 2 ==> s[i] == '\\' && s[i + 1] == v[0] by { assert |first| == 2 ==> first[1] == s[i..i + 2][1]; }
      QuotedReads(s, i + |first|, quote, v[1..], tail, value + [v[0]]);
      assert value + [v[0]] + v[1..] == value + v;
    }
  }

  /** A literal that the source ends in is read up to there; a lone backslash at the end stands for
      itself. */
  lemma {:induction false} QuotedUnclosed(s: string, i: nat, quote: char, v: string, last: string, value: string)
    requires i <= |s| && quote != '\\' && s[i..] == Escaped(v, quote) + last && (last == "" || last == "\\")
    ensures Quoted(s, i, quote, value) == (value + v + last, |s|)
    decreases |v|
  {
    if v == "" {
      assert Escaped(v, quote) + last == last && value + v == value;
      Standing(s, i, last, "");
      if last == "" {
        assert value + last == value;
      } else {
        assert Quoted(s, i, quote, value) == Quoted(s, i + 1, quote, value + [s[i]]);
      }
    } else {
      var first := if v[0] == quote || v[0] == '\\' then ['\\', v[0]] else [v[0]];
      var rest := Escaped(v[1..], quote) + last;
      assert Escaped(v, quote) + last == first + rest by { Regroup(first, Escaped(v[1..], quote), last); }
      Standing(s, i, first, rest);
      assert |first| == 2 ==> s[i] == '\\' && s[i + 1] == v[0] by { assert |first| == 2 ==> first[1] == s[i..i + 2][1]; }
      QuotedUnclosed(s, i + |first|, quote, v[1..], last, value + [v[0]]);
      assert value + [v[0]] + v[1..] == value + v;
    }
  }

  /** Every value can be written as a literal and is read back whole, whatever follows. */
  method ReadBack(v: string, quote: char, tail: string) returns (value: string, next: nat)
    requires quote != '\\'
    ensures value == v && next == |Escaped(v, quote)| + 2
  {
    var s := [quote] + Escaped(v, quote) + [quote] + tail;
    assert s[1..] == Escaped(v, quote) + [quote] + tail;
    QuotedReads(s, 1, quote, v, tail, "");
    value, next := ScanQuoted(s, 0, quote);
    assert "" + v == v;
  }

  // ----- Regular expressions -----

  datatype ClassItem = InClass(c: char) | EscapedInClass(c: char)

  /** A regular expression by its parts. */
  datatype Atom = Lone(c: char) | EscapedLone(c: char) | Class(items: seq<ClassItem>)

  function ClassText(items: seq<ClassItem>): (s: string) {
    if items == [] then ""
    else (match items[0] case InClass(c) => [c] case EscapedInClass(c) => ['\\', c]) + ClassText(items[1..])
  }

  function AtomText(a: Atom): (s: string)
    ensures s != ""
  {
    match a
    case Lone(c) => [c]
    case EscapedLone(c) => ['\\', c]
    case Class(items) => "[" + ClassText(items) + "]"
  }

  function RegexText(atoms: seq<Atom>): (s: string) {
    if atoms == [] then "" else AtomText(atoms[0]) + RegexText(atoms[1..])
  }

  /** Outside a class a slash, a bracket or a line end must be escaped, inside one only the closing
      bracket and a line end. */
  predicate WellFormedAtom(a: Atom) {
    match a
    case Lone(c) => c !in "\\/[\n\r"
    case EscapedLone(_) => true
    case Class(items) => forall i :: 0 <= i < |items| && items[i].InClass? ==> items[i].c !in "\\]\n\r"
  }

  lemma {:induction false} ClassReads(s: string, i: nat, items: seq<ClassItem>, tail: string)
    requires i <= |s| && s[i..] == ClassText(items) + "]" + tail && WellFormedAtom(Class(items))
    ensures RegexEnd(s, i, true) == RegexEnd(s, i + |ClassText(items)| + 1, false)
    decreases |items|
  {
    if items == [] {
      assert ClassText(items) + "]" + tail == "]" + tail;
      Standing(s, i, "]", tail);
    } else {
      var first := match items[0] case InClass(c) => [c] case EscapedInClass(c) => ['\\', c];
      var rest := ClassText(items[1..]) + "]" + tail;
      assert ClassText(items) + "]" + tail == first + rest;
      Standing(s, i, first, rest);
      assert items[0].InClass? ==> items[0].c !in "\\]\n\r";
      ClassReads(s, i + |first|, items[1..], tail);
    }
  }

  ghost predicate WellFormed(atoms: seq<Atom>) {
    forall k :: 0 <= k < |atoms| ==> WellFormedAtom(atoms[k])
  }

  lemma AtomsUnfold(atoms: seq<Atom>)
    requires atoms != [] && WellFormed(atoms)
    ensures RegexText(atoms) == AtomText(atoms[0]) + RegexText(atoms[1..])
    ensures WellFormedAtom(atoms[0]) && WellFormed(atoms[1..])
  {
  }

  lemma {:induction false} AtomsRead(s: string, i: nat, atoms: seq<Atom>, tail: string)
    requires i <= |s| && s[i..] == RegexText(atoms) + tail && WellFormed(atoms)
    ensures i + |RegexText(atoms)| <= |s| && RegexEnd(s, i, false) == RegexEnd(s, i + |RegexText(atoms)|, false)
    decreases |atoms|
  {
    if atoms == [] {
      assert |RegexText(atoms)| == 0;
    } else {
      AtomsMore(s, i, atoms, tail);
    }
  }

  lemma {:induction false} AtomsMore(s: string, i: nat, atoms: seq<Atom>, tail: string)
    requires atoms != [] && i <= |s| && s[i..] == RegexText(atoms) + tail && WellFormed(atoms)
    ensures i + |RegexText(atoms)| <= |s| && RegexEnd(s, i, false) == RegexEnd(s, i + |RegexText(atoms)|, false)
    decreases |atoms|, 0
  {
    hide *;
    var first, rest := AtomText(atoms[0]), RegexText(atoms[1..]) + tail;
    AtomsUnfold(atoms);
    Regroup(first, RegexText(atoms[1..]), tail);
    AtomReads(s, i, atoms[0], rest);
    Standing(s, i, first, rest);
    AtomsRead(s, i + |first|, atoms[1..], tail);
  }

  /** A regular expression that is closed ends after its flags. */
  lemma RegexReads(s: string, i: nat, atoms: seq<Atom>, flags: string, tail: string)
    requires i <= |s| && s[i..] == RegexText(atoms) + ("/" + (flags + tail)) && WellFormed(atoms)
    requires (forall k :: 0 <= k < |flags| ==> IsIdentifierPart(flags[k])) && (tail == "" || !IsIdentifierPart(tail[0]))
    ensures RegexEnd(s, i, false) == i + |RegexText(atoms)| + 1 + |flags|
  {
    hide RegexText, RegexEnd, WellFormed;
    AtomsRead(s, i, atoms, "/" + (flags + tail));
    Standing(s, i, RegexText(atoms), "/" + (flags + tail));
    RegexCloses(s, i + |RegexText(atoms)|, flags, tail);
  }

  lemma RegexCloses(s: string, i: nat, flags: string, tail: string)
    requires i <= |s| && s[i..] == "/" + (flags + tail)
    requires (forall k :: 0 <= k < |flags| ==> IsIdentifierPart(flags[k])) && (tail == "" || !IsIdentifierPart(tail[0]))
    ensures RegexEnd(s, i, false) == i + 1 + |flags|
  {
    Standing(s, i, "/", flags + tail);
    FlagsRead(s, i + 1, flags, tail);
  }

  /** One that is not closed ends at the end of the line or of the source, or one past it after a lone
      backslash. */
  lemma RegexUnclosed(s: string, i: nat, atoms: seq<Atom>, tail: string)
    requires i <= |s| && s[i..] == RegexText(atoms) + tail && WellFormed(atoms)
    ensures tail == "" || tail[0] == '\n' || tail[0] == '\r' ==> RegexEnd(s, i, false) == i + |RegexText(atoms)|
    ensures tail == "\\" ==> RegexEnd(s, i, false) == |s| + 1
  {
    AtomsRead(s, i, atoms, tail);
    Standing(s, i, RegexText(atoms), tail);
    hide RegexText, WellFormed;
  }

  /** A template that the source ends in is read up to there. */
  lemma {:induction false} TemplateUnclosed(s: string, i: nat, embedded: seq<Token>)
    requires i <= |s|
    requires forall k :: i <= k < |s| ==> s[k] != '`' && s[k] != '\\' && (k + 1 < |s| && s[k] == '$' ==> s[k + 1] != '{')
    ensures TemplateFrom(s, i, embedded) == Some((embedded, |s|))
    decreases |s| - i
  {
    if i < |s| { TemplateUnclosed(s, i + 1, embedded); }
  }

  lemma Regroup(a: string, b: string, c: string)
    ensures (a + b) + c == a + (b + c)
  {
  }

  lemma AtomReads(s: string, i: nat, a: Atom, rest: string)
    requires i <= |s| && s[i..] == AtomText(a) + rest && WellFormedAtom(a)
    ensures i + |AtomText(a)| <= |s| && RegexEnd(s, i, false) == RegexEnd(s, i + |AtomText(a)|, false)
  {
    Standing(s, i, AtomText(a), rest);
    match a
    case Lone(c) => assert c !in "\\/[\n\r";
    case EscapedLone(c) =>
    case Class(items) =>
      assert AtomText(a) + rest == "[" + (ClassText(items) + "]" + rest);
      Standing(s, i, "[", ClassText(items) + "]" + rest);
      ClassReads(s, i + 1, items, rest);
  }

  lemma {:induction false} FlagsRead(s: string, i: nat, flags: string, tail: string)
    requires i <= |s| && s[i..] == flags + tail
    requires (forall k :: 0 <= k < |flags| ==> IsIdentifierPart(flags[k])) && (tail == "" || !IsIdentifierPart(tail[0]))
    ensures i + |flags| <= |s| && IdentifierEnd(s, i) == i + |flags|
    decreases |flags|
  {
    Standing(s, i, flags, tail);
    if flags != "" {
      assert s[i..] == flags[..1] + (flags[1..] + tail);
      Standing(s, i, flags[..1], flags[1..] + tail);
      FlagsRead(s, i + 1, flags[1..], tail);
    }
  }
}
