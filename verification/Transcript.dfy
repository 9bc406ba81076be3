/** The token check of one transcript segment (internal/businessacceptance/transcript.go). */
module Transcript {
  import opened Json
  import opened Decimal
  import opened Rational
  import opened ExactTime

  datatype Evidence = Evidence(range: Range, tokens: nat)

  function TextOf(v: Json, key: string): (s: string) {
    if Field(v, key).Str? then Field(v, key).text else ""
  }

  function Tokens(segment: Json): (items: seq<Json>) {
    if Field(segment, "tokens").Arr? then Field(segment, "tokens").items else []
  }

  // ----- What a segment must be -----

  predicate TokenSound(token: Json) {
    && TextOf(token, "id") != "" && TextOf(token, "text") != ""
    && ParseRange(Field(token, "sourceRange")).Some?
    && End(ParseRange(Field(token, "sourceRange")).value).Done?
  }

  function RangeOf(token: Json): (r: Range)
    requires TokenSound(token)
    ensures CanonicalRange(r)
  {
    ParseRangeIff(Field(token, "sourceRange"), ParseRange(Field(token, "sourceRange")).value);
    ParseRange(Field(token, "sourceRange")).value
  }

  function EndOf(token: Json): (e: Time)
    requires TokenSound(token)
    ensures Canonical(e) && End(RangeOf(token)) == Done(e)
    ensures Seconds(e) == Seconds(RangeOf(token).start) + Seconds(RangeOf(token).duration)
  {
    EndIsSum(RangeOf(token));
    End(RangeOf(token)).value
  }

  /** Every token is sound and starts no earlier than the one before it ends. */
  ghost predicate InOrder(items: seq<Json>) {
    && (forall i :: 0 <= i < |items| ==> TokenSound(items[i]))
    && (forall i :: 0 < i < |items| ==> Seconds(EndOf(items[i - 1])) <= Seconds(RangeOf(items[i]).start))
  }

  function Texts(items: seq<Json>): (s: string) {
    if items == [] then "" else Texts(items[..|items| - 1]) + TextOf(items[|items| - 1], "text")
  }

  /** Everything the check asks before it looks at the span. */
  ghost predicate Coherent(segment: Json) {
    && ParseRange(Field(segment, "sourceRange")).Some?
    && Tokens(segment) != []
    && TextOf(segment, "text") != ""
    && InOrder(Tokens(segment))
    && Texts(Tokens(segment)) == TextOf(segment, "text")
  }

  ghost function First(segment: Json): (t: Time)
    requires Coherent(segment)
    ensures Canonical(t)
  {
    RangeOf(Tokens(segment)[0]).start
  }

  ghost function Last(segment: Json): (t: Time)
    requires Coherent(segment)
    ensures Canonical(t)
  {
    EndOf(Tokens(segment)[|Tokens(segment)| - 1])
  }

  /** The time from the first start to the last end can be written as a canonical time. */
  ghost predicate SpanRepresentable(segment: Json)
    requires Coherent(segment)
  {
    exists d: Time :: Canonical(d) && Seconds(d) == Seconds(Last(segment)) - Seconds(First(segment))
  }

  ghost predicate SpanWithin(segment: Json)
    requires Coherent(segment)
  {
    var range := ParseRange(Field(segment, "sourceRange")).value;
    && End(range).Done?
    && Canonical(range.start) && Canonical(End(range).value)
    && Seconds(range.start) <= Seconds(First(segment))
    && Seconds(Last(segment)) <= Seconds(End(range).value)
  }

  // ----- The check -----

  /** transcriptSegmentEvidence. It accepts exactly the coherent segments whose span can be written
      and lies within the segment, and panics exactly on coherent segments whose span cannot be
      written. */
  method SegmentEvidence(segment: Json) returns (result: Attempt<Evidence>)
    ensures result.Done? <==> Coherent(segment) && SpanRepresentable(segment) && SpanWithin(segment)
    ensures result.Panic? <==> Coherent(segment) && !SpanRepresentable(segment)
    ensures result.Done? ==>
              && result.value.range.start == First(segment)
              && End(result.value.range) == Done(Last(segment))
              && CanonicalRange(result.value.range)
              && result.value.tokens == |Tokens(segment)|
  {
    hide End, FromBounds, Canonical, Seconds, Positive, ParseRange, CompareTimes, InOrder, TokenSound, SpanWithin, SpanRepresentable;
    var segmentRange := ParseRange(Field(segment, "sourceRange"));
    var text := TextOf(segment, "text");
    var items := Tokens(segment);
    if segmentRange.None? || items == [] || text == "" {
      return Refused;
    }
    var lexical := "";
    var firstStart, previousEnd := Time("", 0), Time("", 0);
    NoTokens();
    for index := 0 to |items|
      invariant InOrder(items[..index])
      invariant lexical == Texts(items[..index])
      invariant index > 0 ==> TokenSound(items[0]) && TokenSound(items[index - 1])
      invariant index > 0 ==> firstStart == RangeOf(items[0]).start && previousEnd == EndOf(items[index - 1])
    {
      OneMoreToken(items, index);
      var token := items[index];
      var range := ParseRange(Field(token, "sourceRange"));
      if TextOf(token, "id") == "" || TextOf(token, "text") == "" || range.None? {
        UnsoundToken(token);
        return Refused;
      }
      var end := RangeEnd(token, range.value);
      if !end.Done? {
        return Refused;
      }
      if index > 0 {
        TimesAreNumbers(range.value.start, previousEnd);
        if CompareTimes(range.value.start, previousEnd) < 0 {
          return Refused;
        }
      }
      if index == 0 {
        firstStart := range.value.start;
      }
      previousEnd := end.value;
      lexical := lexical + TextOf(token, "text");
    }
    assert items[..|items|] == items;
    if lexical != text {
      return Refused;
    }
    result := SpanEvidence(segment, segmentRange.value, firstStart, previousEnd);
  }

  method RangeEnd(token: Json, range: Range) returns (end: Attempt<Time>)
    requires TextOf(token, "id") != "" && TextOf(token, "text") != ""
    requires ParseRange(Field(token, "sourceRange")) == Some(range)
    ensures end == End(range) && CanonicalRange(range)
    ensures end.Done? <==> TokenSound(token)
    ensures end.Done? ==> range == RangeOf(token) && end.value == EndOf(token) && Canonical(end.value)
  {
    hide End, Canonical, Seconds, Positive, ParseRange;
    end := End(range);
    ParseRangeIff(Field(token, "sourceRange"), range);
  }

  /** The last part, once the tokens are known to be coherent. */
  method SpanEvidence(segment: Json, segmentRange: Range, firstStart: Time, previousEnd: Time)
    returns (result: Attempt<Evidence>)
    requires Coherent(segment) && ParseRange(Field(segment, "sourceRange")) == Some(segmentRange)
    requires firstStart == First(segment) && previousEnd == Last(segment)
    ensures result.Done? <==> SpanRepresentable(segment) && SpanWithin(segment)
    ensures result.Panic? <==> !SpanRepresentable(segment)
    ensures result.Done? ==>
              && result.value.range.start == First(segment)
              && End(result.value.range) == Done(Last(segment))
              && CanonicalRange(result.value.range)
              && result.value.tokens == |Tokens(segment)|
  {
    hide End, FromBounds, Canonical, Seconds, Positive, ParseRange, CompareTimes, InOrder, TokenSound, SpanRepresentable;
    var span := FromBounds(firstStart, previousEnd);
    SpanOutcome(segment, span);
    if !span.Done? {
      return Panic;  // exactRangeEnd of the zero range
    }
    BoundsThenEnd(firstStart, previousEnd, span.value);
    ParseRangeIff(Field(segment, "sourceRange"), segmentRange);
    EndIsSum(segmentRange);
    var segmentEnd := End(segmentRange);
    var evidenceEnd := End(span.value);
    if !segmentEnd.Done? || !evidenceEnd.Done? {
      return Refused;
    }
    TimesAreNumbers(span.value.start, segmentRange.start);
    TimesAreNumbers(evidenceEnd.value, segmentEnd.value);
    if CompareTimes(span.value.start, segmentRange.start) < 0 || CompareTimes(evidenceEnd.value, segmentEnd.value) > 0 {
      return Refused;
    }
    return Done(Evidence(span.value, |Tokens(segment)|));
  }

  lemma NoTokens()
    ensures InOrder([]) && Texts([]) == ""
  {
  }

  lemma UnsoundToken(token: Json)
    requires TextOf(token, "id") == "" || TextOf(token, "text") == "" || ParseRange(Field(token, "sourceRange")).None?
    ensures !TokenSound(token)
  {
  }

  lemma OneMoreToken(items: seq<Json>, k: nat)
    requires k < |items| && InOrder(items[..k])
    ensures InOrder(items) ==> InOrder(items[..k + 1])
    ensures k > 0 ==> TokenSound(items[k - 1])
    ensures InOrder(items[..k + 1]) <==>
              TokenSound(items[k]) && (k > 0 ==> Seconds(EndOf(items[k - 1])) <= Seconds(RangeOf(items[k]).start))
    ensures Texts(items[..k + 1]) == Texts(items[..k]) + TextOf(items[k], "text")
  {
    hide InOrder, TokenSound, RangeOf, EndOf, Canonical, Seconds;
    if InOrder(items) {
      InOrderPrefix(items, k + 1);
    }
    assert items[..k + 1][..k] == items[..k] && items[..k + 1][k] == items[k];
    InOrderSplit(items[..k + 1]);
    assert k > 0 ==> items[..k][k - 1] == items[k - 1];
    if k > 0 {
      InOrderSplit(items[..k]);
    }
  }

  lemma InOrderPrefix(items: seq<Json>, k: nat)
    requires k <= |items| && InOrder(items)
    ensures InOrder(items[..k])
  {
    hide Canonical, Seconds, TokenSound, RangeOf, EndOf;
  }

  lemma InOrderSplit(items: seq<Json>)
    requires items != []
    ensures var k := |items| - 1;
            InOrder(items) <==>
              && InOrder(items[..k])
              && TokenSound(items[k])
              && (k > 0 ==> TokenSound(items[k - 1]) && Seconds(EndOf(items[k - 1])) <= Seconds(RangeOf(items[k]).start))
  {
    hide Canonical, Seconds, TokenSound, RangeOf, EndOf, InOrder;
    var k := |items| - 1;
    assert items == items[..k] + [items[k]];
    if InOrder(items) {
      InOrderPrefix(items, k);
      InOrderAt(items, k);
    } else if InOrder(items[..k]) && TokenSound(items[k])
              && (k > 0 ==> TokenSound(items[k - 1]) && Seconds(EndOf(items[k - 1])) <= Seconds(RangeOf(items[k]).start)) {
      InOrderAppend(items[..k], items[k]);
    }
  }

  lemma InOrderAt(items: seq<Json>, k: nat)
    requires k < |items| && InOrder(items)
    ensures TokenSound(items[k])
    ensures k > 0 ==> TokenSound(items[k - 1]) && Seconds(EndOf(items[k - 1])) <= Seconds(RangeOf(items[k]).start)
  {
    hide Canonical, Seconds, TokenSound, RangeOf, EndOf;
  }

  lemma InOrderAppend(front: seq<Json>, token: Json)
    requires InOrder(front) && TokenSound(token)
    requires front != [] ==> TokenSound(front[|front| - 1])
                             && Seconds(EndOf(front[|front| - 1])) <= Seconds(RangeOf(token).start)
    ensures InOrder(front + [token])
  {
    hide Canonical, Seconds, TokenSound, RangeOf, EndOf;
  }

  lemma SpanOutcome(segment: Json, span: Attempt<Range>)
    requires Coherent(segment) && span == FromBounds(First(segment), Last(segment))
    ensures span.Done? <==> SpanRepresentable(segment)
    ensures span.Done? ==> span.value.start == First(segment)
  {
    hide FromBounds, Canonical, Seconds, Positive, ParseRange, End;
    BoundsAreDifference(First(segment), Last(segment));
    if d: Time :| Canonical(d) && Seconds(d) == Seconds(Last(segment)) - Seconds(First(segment)) {
      SpanPositive(segment);
      PositiveIff(d);
      assert FromBounds(First(segment), Last(segment)) == Done(Range(First(segment), d));
    }
  }

  // ----- What acceptance means -----

  /** The texts of the tokens, one after the other. */
  function Joined(items: seq<Json>): (s: string) {
    if items == [] then "" else TextOf(items[0], "text") + Joined(items[1..])
  }

  lemma {:induction false} JoinedAppend(a: seq<Json>, b: seq<Json>)
    ensures Joined(a + b) == Joined(a) + Joined(b)
    decreases |a|
  {
    if a == [] {
      assert a + b == b;
    } else {
      assert (a + b)[1..] == a[1..] + b;
      JoinedAppend(a[1..], b);
    }
  }

  lemma {:induction false} TextsAreJoined(items: seq<Json>)
    ensures Texts(items) == Joined(items)
    decreases |items|
  {
    if items != [] {
      var n := |items| - 1;
      TextsAreJoined(items[..n]);
      JoinedAppend(items[..n], [items[n]]);
      assert items == items[..n] + [items[n]] && [items[n]][1..] == [];
      assert Joined([items[n]]) == TextOf(items[n], "text") + "";
    }
  }

  /** A coherent segment by its fields: a range, a text, and tokens with an id, a text and a range that
      ends, whose texts join to the segment's. */
  lemma CoherentIff(segment: Json)
    ensures Coherent(segment) <==>
              && ParseRange(Field(segment, "sourceRange")).Some?
              && Field(segment, "text").Str? && Field(segment, "text").text != ""
              && Field(segment, "tokens").Arr? && Field(segment, "tokens").items != []
              && (forall i :: 0 <= i < |Field(segment, "tokens").items| ==> TokenFields(Field(segment, "tokens").items[i]))
              && InOrder(Field(segment, "tokens").items)
              && Joined(Field(segment, "tokens").items) == Field(segment, "text").text
  {
    hide InOrder, ParseRange, End;
    var items := Tokens(segment);
    TextsAreJoined(items);
    if InOrder(items) {
      forall i | 0 <= i < |items| ensures TokenFields(items[i]) {
        InOrderAt(items, i);
        TokenFieldsIff(items[i]);
      }
    }
  }

  ghost predicate TokenFields(token: Json) {
    && Field(token, "id").Str? && Field(token, "id").text != ""
    && Field(token, "text").Str? && Field(token, "text").text != ""
    && exists r: Range, e: Time :: ParseRange(Field(token, "sourceRange")) == Some(r) && End(r) == Done(e)
  }

  lemma TokenFieldsIff(token: Json)
    ensures TokenSound(token) <==> TokenFields(token)
  {
    hide ParseRange, End;
    if TokenSound(token) {
      var r := ParseRange(Field(token, "sourceRange")).value;
      assert End(r) == Done(End(r).value);
    }
  }

  /** Any token ends no later than a later one starts. */
  lemma {:induction false} TokensDisjoint(items: seq<Json>, i: nat, j: nat)
    requires InOrder(items) && i < j < |items|
    ensures Seconds(EndOf(items[i])) <= Seconds(RangeOf(items[j]).start)
    decreases j
  {
    hide Canonical, Seconds, ParseRange, End;
    if i + 1 < j {
      TokensDisjoint(items, i, j - 1);
      TokenPositive(items[j - 1]);
    }
  }

  lemma TokenPositive(token: Json)
    requires TokenSound(token)
    ensures Seconds(RangeOf(token).duration) > 0.0
  {
    PositiveIff(RangeOf(token).duration);
  }

  /** The durations of the tokens, added up. */
  ghost function Durations(items: seq<Json>): (x: real)
    requires forall i :: 0 <= i < |items| ==> TokenSound(items[i])
  {
    if items == [] then 0.0
    else Durations(items[..|items| - 1]) + Seconds(RangeOf(items[|items| - 1]).duration)
  }

  /** They fit between the first start and the last end. */
  lemma {:induction false} DurationsFit(items: seq<Json>)
    requires InOrder(items) && items != []
    ensures 0.0 < Durations(items) <= Seconds(EndOf(items[|items| - 1])) - Seconds(RangeOf(items[0]).start)
    decreases |items|
  {
    hide Canonical, Seconds, ParseRange, End;
    var n := |items| - 1;
    TokenPositive(items[n]);
    if n == 0 {
      assert items[..0] == [];
    } else {
      DurationsFit(items[..n]);
    }
  }

  lemma SpanPositive(segment: Json)
    requires Coherent(segment)
    ensures Seconds(Last(segment)) - Seconds(First(segment)) > 0.0
  {
    DurationsFit(Tokens(segment));
  }

  /** The evidence of an accepted segment is exactly the span of its tokens, within the segment, and
      its duration holds all of theirs. */
  lemma EvidenceIsSpan(segment: Json, range: Range)
    requires Coherent(segment) && CanonicalRange(range)
    requires range.start == First(segment) && End(range) == Done(Last(segment))
    ensures Seconds(range.duration) == Seconds(Last(segment)) - Seconds(First(segment))
    ensures Durations(Tokens(segment)) <= Seconds(range.duration)
    ensures FromBounds(First(segment), Last(segment)) == Done(range)
  {
    hide Canonical, Seconds, ParseRange, End, FromBounds;
    EndIsSum(range);
    EndThenBounds(range, Last(segment));
    DurationsFit(Tokens(segment));
  }

  // ----- A segment on which the check panics -----

  function WriteTime(n: int): (v: Json) {
    Obj(map["value" := Str(Format(n)), "scale" := Number(Format(1))])
  }

  function WriteRange(start: int, duration: int): (v: Json) {
    Obj(map["start" := WriteTime(start), "duration" := WriteTime(duration)])
  }

  function WriteToken(text: string, start: int, duration: int): (v: Json) {
    Obj(map["id" := Str("t"), "text" := Str(text), "sourceRange" := WriteRange(start, duration)])
  }

  predicate Fits(n: int) {
    MIN_INT64 <= n <= MAX_INT64
  }

  lemma WholeTime(n: int)
    requires Fits(n)
    ensures Canonical(Time(Format(n), 1)) && Seconds(Time(Format(n), 1)) == n as real
    ensures ParseTime(WriteTime(n)) == Some(Time(Format(n), 1))
  {
    assert Gcd(Abs(n), 1) == Gcd(1, 0);
    FractionRoundTrip(Fraction(n, 1), Time(Format(n), 1));
    hide Canonical, ParseTime;
    ParseTimeIff(WriteTime(n), Time(Format(n), 1));
  }

  lemma WholeToken(text: string, start: int, duration: int)
    requires text != "" && Fits(start) && Fits(duration) && Fits(start + duration) && duration > 0
    ensures var token := WriteToken(text, start, duration);
            && TokenSound(token) && TextOf(token, "text") == text
            && Seconds(RangeOf(token).start) == start as real
            && Seconds(EndOf(token)) == (start + duration) as real
  {
    hide Canonical, ParseTime, Seconds, End, Positive;
    WholeTime(start);
    WholeTime(duration);
    WholeTime(start + duration);
    var range := Range(Time(Format(start), 1), Time(Format(duration), 1));
    PositiveIff(range.duration);
    EndIsSum(range);
    ParseRangeIff(WriteRange(start, duration), range);
    assert End(range) == Done(Time(Format(start + duration), 1));
  }

  function WriteSegment(range: Json, a: Json, b: Json): (v: Json) {
    Obj(map["sourceRange" := range, "text" := Str(TextOf(a, "text") + TextOf(b, "text")), "tokens" := Arr([a, b])])
  }

  lemma SegmentFields(range: Json, a: Json, b: Json)
    ensures Field(WriteSegment(range, a, b), "sourceRange") == range
    ensures TextOf(WriteSegment(range, a, b), "text") == TextOf(a, "text") + TextOf(b, "text")
    ensures Tokens(WriteSegment(range, a, b)) == [a, b]
  {
  }

  lemma TwoTokens(range: Json, a: Json, b: Json)
    requires ParseRange(range).Some? && TokenSound(a) && TokenSound(b)
    requires Seconds(EndOf(a)) <= Seconds(RangeOf(b).start)
    ensures Tokens(WriteSegment(range, a, b)) == [a, b] && Coherent(WriteSegment(range, a, b))
  {
    assert TextOf(a, "text") != "";
    SegmentFields(range, a, b);
    hide Canonical, ParseRange, Seconds, End, RangeOf, EndOf, TokenSound, InOrder, Texts, TextOf, WriteSegment, Tokens, Field;
    TwoTexts(a, b);
    TwoInOrder(a, b);
  }

  lemma TwoInOrder(a: Json, b: Json)
    requires TokenSound(a) && TokenSound(b) && Seconds(EndOf(a)) <= Seconds(RangeOf(b).start)
    ensures InOrder([a, b])
  {
    hide *;
    NoTokens();
    assert [] + [a] == [a] && [a] + [b] == [a, b];
    InOrderAppend([], a);
    InOrderAppend([a], b);
  }

  lemma TwoTexts(a: Json, b: Json)
    ensures Texts([a, b]) == TextOf(a, "text") + TextOf(b, "text")
  {
    assert [a, b][..1] == [a] && [a][..0] == [];
    assert Texts([a]) == TextOf(a, "text");
  }

  lemma RangeParses(text: string, start: int, duration: int)
    requires TokenSound(WriteToken(text, start, duration))
    ensures ParseRange(WriteRange(start, duration)).Some?
  {
    assert Field(WriteToken(text, start, duration), "sourceRange") == WriteRange(start, duration);
    hide ParseRange, WriteRange;
  }

  /** Whole seconds from lo to middle and on to hi, all within int64: the check panics as soon as
      hi - lo is not. */
  lemma WideSpanPanics(text: string, lo: int, middle: int, hi: int)
    requires text != "" && MIN_INT64 <= lo < middle < hi <= MAX_INT64
    requires middle - lo <= MAX_INT64 && hi - middle <= MAX_INT64 && hi - lo > MAX_INT64
    ensures var range := WriteRange(lo, middle - lo);
            var segment := WriteSegment(range, WriteToken(text, lo, middle - lo), WriteToken(text, middle, hi - middle));
            Coherent(segment) && !SpanRepresentable(segment)
  {
    hide Canonical, ParseRange, Seconds, End, RangeOf, EndOf, TokenSound, WriteToken, WriteRange, WriteSegment, Coherent,
      SpanRepresentable, TextOf, Field, Tokens;
    WholeToken(text, lo, middle - lo);
    WholeToken(text, middle, hi - middle);
    RangeParses(text, lo, middle - lo);
    WideSegment(WriteRange(lo, middle - lo), WriteToken(text, lo, middle - lo), WriteToken(text, middle, hi - middle), lo, hi);
  }

  lemma SpanEnds(segment: Json, a: Json, b: Json)
    requires Coherent(segment) && Tokens(segment) == [a, b] && TokenSound(a) && TokenSound(b)
    ensures First(segment) == RangeOf(a).start && Last(segment) == EndOf(b)
  {
  }

  lemma WideSegment(range: Json, a: Json, b: Json, lo: int, hi: int)
    requires ParseRange(range).Some? && TokenSound(a) && TokenSound(b) && hi - lo > MAX_INT64
    requires Seconds(RangeOf(a).start) == lo as real && Seconds(EndOf(b)) == hi as real
    requires Seconds(EndOf(a)) <= Seconds(RangeOf(b).start)
    ensures Coherent(WriteSegment(range, a, b)) && !SpanRepresentable(WriteSegment(range, a, b))
  {
    hide *;
    TwoTokens(range, a, b);
    SpanEnds(WriteSegment(range, a, b), a, b);
    TooWide(WriteSegment(range, a, b), lo, hi);
  }

  lemma TooWide(segment: Json, lo: int, hi: int)
    requires Coherent(segment) && hi - lo > MAX_INT64
    requires Seconds(First(segment)) == lo as real && Seconds(Last(segment)) == hi as real
    ensures !SpanRepresentable(segment)
  {
    hide Canonical, Seconds, Coherent, First, Last;
    forall d: Time | Canonical(d) ensures Seconds(d) <= MAX_INT64 as real {
      TimeBounded(d);
    }
  }

  /** From the least int64 to -1 and on to one below the greatest. */
  lemma SpanCanPanic() returns (segment: Json)
    ensures Coherent(segment) && !SpanRepresentable(segment)
  {
    hide WriteToken, WriteRange, WriteSegment, Coherent, SpanRepresentable, Format;
    segment := WriteSegment(WriteRange(MIN_INT64, -1 - MIN_INT64), WriteToken("a", MIN_INT64, -1 - MIN_INT64),
                            WriteToken("a", -1, MAX_INT64));
    WideSpanPanics("a", MIN_INT64, -1, MAX_INT64 - 1);
  }

  lemma TimeBounded(t: Time)
    requires Canonical(t)
    ensures Seconds(t) <= MAX_INT64 as real
  {
    FractionIsLowest(t);
    var r := ToFraction(t).value;
    CrossReal(Fraction(MAX_INT64, 1), r);
    Multiples(r.den, MAX_INT64);
    assert MAX_INT64 * r.den >= MAX_INT64;
  }
}
