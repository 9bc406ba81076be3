/** Exact times and ranges (internal/businessacceptance/exact.go): a decimal numerator within int64
    over a scale within int32, in lowest terms. */
module ExactTime {
  import opened Json
  import opened Decimal
  import opened Rational

  datatype Time = Time(value: string, scale: int)

  datatype Range = Range(start: Time, duration: Time)

  const EMPTY_RANGE := Range(Time("", 0), Time("", 0))

  /** What a call comes to: a value, a refusal, or a panic. */
  datatype Attempt<+T> = Done(value: T) | Refused | Panic

  /** exactTimeRat; None is its panic on a numerator that is no number or on scale zero. */
  function ToFraction(t: Time): (r: Option<Fraction>) {
    var n := ParseInt(t.value);
    if n.None? || t.scale == 0 then None
    else if t.scale < 0 then Some(Reduced(-n.value, -t.scale))
    else Some(Reduced(n.value, t.scale))
  }

  /** exactTimeFromRat. */
  function FromFraction(r: Fraction): (t: Option<Time>) {
    if MIN_INT64 <= r.num <= MAX_INT64 && 1 <= r.den <= MAX_INT32 then Some(Time(Format(r.num), r.den)) else None
  }

  predicate Positive(t: Time) {
    ParseInt(t.value).Some? && ParseInt(t.value).value > 0
  }

  /** Accepted as it stands: lowest terms, within bounds and written without ornament. */
  predicate Canonical(t: Time) {
    ToFraction(t).Some? && FromFraction(ToFraction(t).value) == Some(t)
  }

  predicate CanonicalRange(r: Range) {
    Canonical(r.start) && Canonical(r.duration) && Positive(r.duration)
  }

  function ParseTime(v: Json): (t: Option<Time>) {
    var value, scale := Field(v, "value"), Field(v, "scale");
    if !value.Str? || !scale.Number? then None
    else
      var n, d := ParseInt(value.text), ParseInt(scale.digits);
      if n.None? || Format(n.value) != value.text || !(MIN_INT64 <= n.value <= MAX_INT64) then None
      else if d.None? || d.value > MAX_INT32 || d.value < 1 || Format(d.value) != scale.digits then None
      else
        var t := Time(value.text, d.value);
        if FromFraction(ToFraction(t).value) == Some(t) then Some(t) else None
  }

  function ParseRange(v: Json): (r: Option<Range>) {
    var start, duration := ParseTime(Field(v, "start")), ParseTime(Field(v, "duration"));
    if start.None? || duration.None? || !Positive(duration.value) then None
    else Some(Range(start.value, duration.value))
  }

  function End(r: Range): (e: Attempt<Time>) {
    var start, duration := ToFraction(r.start), ToFraction(r.duration);
    if start.None? || duration.None? then Panic
    else
      FractionIsLowest(r.start);
      FractionIsLowest(r.duration);
      match FromFraction(Add(start.value, duration.value))
      case None => Refused
      case Some(t) => Done(t)
  }

  function FromBounds(start: Time, end: Time): (r: Attempt<Range>) {
    var a, b := ToFraction(start), ToFraction(end);
    if a.None? || b.None? then Panic
    else
      FractionIsLowest(start);
      FractionIsLowest(end);
      match FromFraction(Subtract(b.value, a.value))
      case None => Refused
      case Some(t) => if Positive(t) then Done(Range(start, t)) else Refused
  }

  /** exactTimeCompare on times it does not panic on. */
  function CompareTimes(a: Time, b: Time): (c: int)
    requires Canonical(a) && Canonical(b)
  {
    FractionIsLowest(a);
    FractionIsLowest(b);
    Compare(ToFraction(a).value, ToFraction(b).value)
  }

  // ----- Times are numbers -----

  lemma FractionIsLowest(t: Time)
    ensures ToFraction(t).Some? ==> Lowest(ToFraction(t).value)
  {
    var n := ParseInt(t.value);
    if n.Some? && t.scale < 0 {
      ReducedIsLowest(-n.value, -t.scale);
    } else if n.Some? && t.scale > 0 {
      ReducedIsLowest(n.value, t.scale);
    }
  }

  /** The number a canonical time is. */
  ghost function Seconds(t: Time): (x: real)
    requires Canonical(t)
  {
    FractionIsLowest(t);
    Real(ToFraction(t).value)
  }

  /** Writing a fraction and reading it back. */
  lemma FractionRoundTrip(r: Fraction, t: Time)
    requires Lowest(r) && FromFraction(r) == Some(t)
    ensures ToFraction(t) == Some(r) && Canonical(t) && Seconds(t) == Real(r)
  {
    ParseFormat(r.num);
    assert Reduced(r.num, r.den) == r;
  }

  /** The number is the numerator over the scale. */
  lemma SecondsIs(t: Time)
    requires Canonical(t)
    ensures ParseInt(t.value).Some? && t.scale > 0 && Seconds(t) == ParseInt(t.value).value as real / t.scale as real
  {
    ReducedReal(ParseInt(t.value).value, if t.scale > 0 then t.scale else 1);
    FractionIsLowest(t);
  }

  /** Exactly the integers of 64 bits over the positive integers of 32 bits, without a common factor and
      in plain decimal. */
  lemma CanonicalIff(t: Time)
    ensures Canonical(t) <==>
              exists n: int ::
                && t.value == Format(n) && -9223372036854775808 <= n <= 9223372036854775807
                && 1 <= t.scale <= 2147483647 && Coprime(n, t.scale)
  {
    if Canonical(t) {
      FractionIsLowest(t);
      var r := ToFraction(t).value;
      GcdOneIsCoprime(r.num, r.den);
      assert t.value == Format(r.num) && t.scale == r.den;
    }
    if n: int :| && t.value == Format(n) && -9223372036854775808 <= n <= 9223372036854775807
                 && 1 <= t.scale <= 2147483647 && Coprime(n, t.scale) {
      CoprimeHasGcdOne(n, t.scale);
      ParseFormat(n);
      FractionRoundTrip(Fraction(n, t.scale), t);
    }
  }

  /** Two canonical times are one record exactly when they are one number, and comparing them
      compares the numbers. */
  lemma TimesAreNumbers(a: Time, b: Time)
    requires Canonical(a) && Canonical(b)
    ensures a == b <==> Seconds(a) == Seconds(b)
    ensures CompareTimes(a, b) < 0 <==> Seconds(a) < Seconds(b)
    ensures CompareTimes(a, b) > 0 <==> Seconds(a) > Seconds(b)
  {
    FractionIsLowest(a);
    FractionIsLowest(b);
    CompareReal(ToFraction(a).value, ToFraction(b).value);
  }

  /** A document is accepted exactly when it spells a canonical time out. */
  lemma ParseTimeIff(v: Json, t: Time)
    ensures ParseTime(v) == Some(t) <==>
              Canonical(t) && Field(v, "value") == Str(t.value) && Field(v, "scale") == Number(Format(t.scale))
  {
    if Canonical(t) {
      FractionIsLowest(t);
      FractionRoundTrip(ToFraction(t).value, t);
      ParseFormat(ToFraction(t).value.num);
      ParseFormat(t.scale);
    }
  }

  lemma ParseRangeIff(v: Json, r: Range)
    ensures ParseRange(v) == Some(r) <==>
              CanonicalRange(r) && ParseTime(Field(v, "start")) == Some(r.start)
              && ParseTime(Field(v, "duration")) == Some(r.duration)
  {
    hide Canonical, ParseTime;
    ParseTimeIff(Field(v, "start"), r.start);
    ParseTimeIff(Field(v, "duration"), r.duration);
  }

  lemma PositiveIff(t: Time)
    requires Canonical(t)
    ensures Positive(t) <==> Seconds(t) > 0.0
  {
    FractionIsLowest(t);
    var r := ToFraction(t).value;
    ParseFormat(r.num);
    QuotientSign(r.num as real, r.den as real);
  }

  lemma QuotientSign(a: real, b: real)
    requires b > 0.0
    ensures a / b > 0.0 <==> a > 0.0
  {
  }

  // ----- Ends and bounds -----

  /** The end is start plus duration, or is refused because no canonical time is that number. */
  lemma EndIsSum(r: Range)
    requires Canonical(r.start) && Canonical(r.duration)
    ensures !End(r).Panic?
    ensures forall e :: End(r) == Done(e) <==> Canonical(e) && Seconds(e) == Seconds(r.start) + Seconds(r.duration)
  {
    FractionIsLowest(r.start);
    FractionIsLowest(r.duration);
    var a, b := ToFraction(r.start).value, ToFraction(r.duration).value;
    AddReal(a, b);
    Reached(Add(a, b));
  }

  lemma Reached(s: Fraction)
    requires Lowest(s)
    ensures forall e :: FromFraction(s) == Some(e) <==> Canonical(e) && Seconds(e) == Real(s)
  {
    forall e ensures FromFraction(s) == Some(e) <==> Canonical(e) && Seconds(e) == Real(s) {
      if FromFraction(s) == Some(e) {
        FractionRoundTrip(s, e);
      }
      if Canonical(e) && Seconds(e) == Real(s) {
        FractionIsLowest(e);
        CompareReal(s, ToFraction(e).value);
      }
    }
  }

  lemma BoundsAreDifference(start: Time, end: Time)
    requires Canonical(start) && Canonical(end)
    ensures !FromBounds(start, end).Panic?
    ensures forall r :: FromBounds(start, end) == Done(r) <==>
              r.start == start && CanonicalRange(r) && Seconds(r.duration) == Seconds(end) - Seconds(start)
  {
    FractionIsLowest(start);
    FractionIsLowest(end);
    var a, b := ToFraction(start).value, ToFraction(end).value;
    SubtractReal(b, a);
    Reached(Subtract(b, a));
  }

  /** Taking the end of a range and then the range between its bounds gives the range back. */
  lemma EndThenBounds(r: Range, e: Time)
    requires CanonicalRange(r) && End(r) == Done(e)
    ensures Canonical(e) && FromBounds(r.start, e) == Done(r)
  {
    hide Canonical, Positive, Seconds, End, FromBounds;
    EndIsSum(r);
    BoundsAreDifference(r.start, e);
  }

  /** And the range between two bounds ends at the second. */
  lemma BoundsThenEnd(start: Time, end: Time, r: Range)
    requires Canonical(start) && Canonical(end) && FromBounds(start, end) == Done(r)
    ensures CanonicalRange(r) && End(r) == Done(end)
  {
    hide Canonical, Positive, Seconds, End, FromBounds;
    BoundsAreDifference(start, end);
    EndIsSum(r);
  }
}
