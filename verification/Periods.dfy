/** Human-readable time periods: printing a duration, reading one back, and the exact value
    of every specification that is accepted. */
module Periods {
  import opened Wrappers
  import opened Numerals
  import opened PeriodGrammar

  /** One past the largest 64-bit unsigned integer. */
  const U64: nat := 0x1_0000_0000_0000_0000

  const YR: nat := 31_557_600
  const WK: nat := 604_800
  const DY: nat := 86_400
  const HR: nat := 3_600
  const MN: nat := 60

  datatype Duration = Duration(secs: nat, nanos: nat) {
    predicate Valid() {
      secs < U64 && nanos < BILLION
    }

    function Total(): nat {
      secs * BILLION + nanos
    }
  }

  /** Where a numeral was found. */
  datatype Part = Counted(unit: Unit) | Fractional

  /** `Overflow` is the panic of checked 64-bit arithmetic. */
  datatype Failure = NoSpecification | Invalid(part: Part) | Overflow

  // ----- reading -----

  /** The named capture groups of a match. */
  datatype Captures = Captures(
    y: Option<string>, w: Option<string>, d: Option<string>, h: Option<string>, m: Option<string>,
    sMan: Option<string>, sFra: Option<string>,
    s: Option<string>, ms: Option<string>, us: Option<string>, ns: Option<string>)

  function Num(p: Option<Piece>): Option<string> {
    if p.Some? then Some(p.value.num) else None
  }

  function CapturesOf(t: Tree): Captures
    requires t.Good()
  {
    match t.tail
    case Fraction(_, man, _, fra, _, _) =>
      Captures(Num(t.large[0]), Num(t.large[1]), Num(t.large[2]), Num(t.large[3]), Num(t.large[4]),
               if man == "" then None else Some(man), Some(fra), None, None, None, None)
    case Groups(_, small) =>
      Captures(Num(t.large[0]), Num(t.large[1]), Num(t.large[2]), Num(t.large[3]), Num(t.large[4]),
               None, None, Num(small[0]), Num(small[1]), Num(small[2]), Num(small[3]))
  }

  /** `parse::<u64>()` on a non-empty string of decimal digits. */
  function ParseU64(s: string, part: Part): Result<nat, Failure> {
    if AllAsciiDigits(s) && Val(s) < U64 then Ok(Val(s)) else Err(Invalid(part))
  }

  function Times(a: nat, b: nat): Result<nat, Failure> {
    if a * b < U64 then Ok(a * b) else Err(Overflow)
  }

  function Plus(a: nat, b: nat): Result<nat, Failure> {
    if a + b < U64 then Ok(a + b) else Err(Overflow)
  }

  /** A numeral of the specification and what one of it is worth. */
  datatype Term = Term(weight: nat, text: string, part: Part)

  function OrZero(x: Option<string>): string {
    if x.Some? then x.value else "0"
  }

  function SecondTerms(c: Captures): seq<Term> {
    [Term(YR, OrZero(c.y), Counted(Year)), Term(WK, OrZero(c.w), Counted(Week)),
     Term(DY, OrZero(c.d), Counted(Day)), Term(HR, OrZero(c.h), Counted(Hour)),
     Term(MN, OrZero(c.m), Counted(Minute)),
     Term(1, if c.s.Some? then c.s.value else OrZero(c.sMan), Counted(Second))]
  }

  function NanoTerms(c: Captures): seq<Term> {
    [Term(1, if c.sFra.Some? then Fill9(c.sFra.value) else "0", Fractional),
     Term(1_000_000, OrZero(c.ms), Counted(Milli)), Term(1_000, OrZero(c.us), Counted(Micro)),
     Term(1, OrZero(c.ns), Counted(Nano))]
  }

  /** Parses, scales and adds the terms from left to right in 64-bit arithmetic. */
  function AddUp(acc: nat, ts: seq<Term>): Result<nat, Failure>
    decreases |ts|
  {
    if ts == [] then Ok(acc) else
      var n :- ParseU64(ts[0].text, ts[0].part);
      var scaled :- Times(ts[0].weight, n);
      var sum :- Plus(acc, scaled);
      AddUp(sum, ts[1..])
  }

  function Evaluate(c: Captures): Result<Duration, Failure> {
    var seconds :- AddUp(0, SecondTerms(c));
    var nanos :- AddUp(0, NanoTerms(c));
    var total :- Plus(seconds, nanos / BILLION);
    Ok(Duration(total, nanos % BILLION))
  }

  function FromStr(s: string): Result<Duration, Failure> {
    match Recognise(s)
    case None => Err(NoSpecification)
    case Some(t) => RecogniseSound(s); Evaluate(CapturesOf(t))
  }

  // ----- what a specification is worth -----

  function Count(x: Option<string>): nat {
    if x.Some? then Val(x.value) else 0
  }

  /** Seconds given by the units down to the second. */
  function WholeSeconds(c: Captures): nat {
    YR * Count(c.y) + WK * Count(c.w) + DY * Count(c.d) + HR * Count(c.h) + MN * Count(c.m)
    + (if c.s.Some? then Count(c.s) else Count(c.sMan))
  }

  /** Nanoseconds given by the fraction, rounded down, and the units below the second. */
  function FineNanos(c: Captures): nat {
    (if c.sFra.Some? then Billionths(c.sFra.value) else 0)
    + 1_000_000 * Count(c.ms) + 1_000 * Count(c.us) + Count(c.ns)
  }

  predicate Ascii(x: Option<string>) {
    x.Some? ==> AllAsciiDigits(x.value)
  }

  /** Every numeral is in ASCII digits; of a fraction only the nine digits that are used. */
  predicate Readable(c: Captures) {
    Ascii(c.y) && Ascii(c.w) && Ascii(c.d) && Ascii(c.h) && Ascii(c.m) && Ascii(c.s) && Ascii(c.ms)
    && Ascii(c.us) && Ascii(c.ns) && (c.s.None? ==> Ascii(c.sMan))
    && (c.sFra.Some? ==> AllAsciiDigits(Fill9(c.sFra.value)))
  }

  predicate Fits(c: Captures) {
    WholeSeconds(c) < U64 && FineNanos(c) < U64 && WholeSeconds(c) + FineNanos(c) / BILLION < U64
  }

  function Weigh(ts: seq<Term>): nat {
    if ts == [] then 0 else ts[0].weight * Val(ts[0].text) + Weigh(ts[1..])
  }

  lemma WeightKeepsValue(w: nat, v: nat)
    requires w > 0
    ensures v <= w * v
  {
  }

  /** The running 64-bit sum succeeds exactly when every numeral is ASCII and the exact sum
      fits: no intermediate product or sum can overflow earlier. */
  lemma {:induction false} AddUpExact(acc: nat, ts: seq<Term>)
    requires acc < U64 && forall i | 0 <= i < |ts| :: ts[i].weight > 0
    ensures AddUp(acc, ts).Ok? <==>
            (forall i | 0 <= i < |ts| :: AllAsciiDigits(ts[i].text)) && acc + Weigh(ts) < U64
    ensures AddUp(acc, ts).Ok? ==> AddUp(acc, ts).value == acc + Weigh(ts)
    decreases |ts|
  {
    if ts != [] {
      var t := ts[0];
      WeightKeepsValue(t.weight, Val(t.text));
      if AllAsciiDigits(t.text) && acc + t.weight * Val(t.text) < U64 {
        AddUpExact(acc + t.weight * Val(t.text), ts[1..]);
        assert forall i | 1 <= i < |ts| :: ts[i] == ts[1..][i - 1];
      }
    }
  }

  lemma ValOfZero()
    ensures Val("0") == 0 && AllAsciiDigits("0")
  {
    assert "0" == Zeros(1);
    ValOfZeros(1);
  }

  lemma {:induction false} WeighSix(a: Term, b: Term, c: Term, d: Term, e: Term, f: Term)
    ensures Weigh([a, b, c, d, e, f]) == a.weight * Val(a.text) + b.weight * Val(b.text) + c.weight * Val(c.text)
                                         + d.weight * Val(d.text) + e.weight * Val(e.text) + f.weight * Val(f.text)
  {
    assert [a, b, c, d, e, f][1..] == [b, c, d, e, f];
    assert [b, c, d, e, f][1..] == [c, d, e, f];
    WeighFour(c, d, e, f);
  }

  lemma {:induction false} WeighFour(a: Term, b: Term, c: Term, d: Term)
    ensures Weigh([a, b, c, d]) == a.weight * Val(a.text) + b.weight * Val(b.text) + c.weight * Val(c.text)
                                   + d.weight * Val(d.text)
  {
    assert [a, b, c, d][1..] == [b, c, d];
    assert [b, c, d][1..] == [c, d];
    assert [c, d][1..] == [d];
    assert [d][1..] == [];
    assert Weigh([d]) == d.weight * Val(d.text);
    assert Weigh([c, d]) == c.weight * Val(c.text) + Weigh([d]);
    assert Weigh([b, c, d]) == b.weight * Val(b.text) + Weigh([c, d]);
  }

  lemma SecondsExact(c: Captures)
    ensures AddUp(0, SecondTerms(c)).Ok? <==>
            Ascii(c.y) && Ascii(c.w) && Ascii(c.d) && Ascii(c.h) && Ascii(c.m) && Ascii(c.s)
            && (c.s.None? ==> Ascii(c.sMan)) && WholeSeconds(c) < U64
    ensures AddUp(0, SecondTerms(c)).Ok? ==> AddUp(0, SecondTerms(c)).value == WholeSeconds(c)
  {
    hide Val, AddUp, Weigh, AllAsciiDigits;
    ValOfZero();
    var ts := SecondTerms(c);
    AddUpExact(0, ts);
    WeighSix(ts[0], ts[1], ts[2], ts[3], ts[4], ts[5]);
    assert ts == [ts[0], ts[1], ts[2], ts[3], ts[4], ts[5]];
    assert Weigh(ts) == WholeSeconds(c);
    assert (forall i | 0 <= i < |ts| :: AllAsciiDigits(ts[i].text)) <==>
           AllAsciiDigits(ts[0].text) && AllAsciiDigits(ts[1].text) && AllAsciiDigits(ts[2].text)
           && AllAsciiDigits(ts[3].text) && AllAsciiDigits(ts[4].text) && AllAsciiDigits(ts[5].text);
  }

  lemma NanosExact(c: Captures)
    ensures AddUp(0, NanoTerms(c)).Ok? <==>
            Ascii(c.ms) && Ascii(c.us) && Ascii(c.ns) && (c.sFra.Some? ==> AllAsciiDigits(Fill9(c.sFra.value)))
            && FineNanos(c) < U64
    ensures AddUp(0, NanoTerms(c)).Ok? ==> AddUp(0, NanoTerms(c)).value == FineNanos(c)
  {
    hide Val, Fill9, Billionths, AddUp, Weigh, AllAsciiDigits;
    ValOfZero();
    var ts := NanoTerms(c);
    AddUpExact(0, ts);
    WeighFour(ts[0], ts[1], ts[2], ts[3]);
    assert ts == [ts[0], ts[1], ts[2], ts[3]];
    assert Weigh(ts) == FineNanos(c);
    assert (forall i | 0 <= i < |ts| :: AllAsciiDigits(ts[i].text)) <==>
           AllAsciiDigits(ts[0].text) && AllAsciiDigits(ts[1].text) && AllAsciiDigits(ts[2].text)
           && AllAsciiDigits(ts[3].text);
  }

  /** Every specification is worth exactly the sum of its units, or is refused: it is accepted
      if and only if its numerals are readable and its exact value fits, with sub-second units
      carried into the seconds. */
  lemma AcceptedValueIsExact(t: Tree)
    requires t.Good()
    ensures FromStr(t.Yield()).Ok? <==> Readable(CapturesOf(t)) && Fits(CapturesOf(t))
    ensures FromStr(t.Yield()).Ok? ==>
            var d := FromStr(t.Yield()).value;
            d.Valid() && d.Total() == WholeSeconds(CapturesOf(t)) * BILLION + FineNanos(CapturesOf(t))
  {
    RecogniseComplete(t);
    var c := CapturesOf(t);
    hide Recognise, AddUp, WholeSeconds, FineNanos, CapturesOf;
    SecondsExact(c);
    NanosExact(c);
  }

  /** A text is refused as no specification exactly when the grammar does not contain it. */
  lemma RefusedExactly(s: string)
    ensures FromStr(s) == Err(NoSpecification) <==> !exists t: Tree :: t.Good() && t.Yield() == s
  {
    forall t: Tree | t.Good() && t.Yield() == s
      ensures Recognise(s) == Some(t)
    {
      RecogniseComplete(t);
    }
    if Recognise(s).Some? {
      RecogniseSound(s);
      NeverNoSpecification(CapturesOf(Recognise(s).value));
    }
  }

  lemma {:induction false} AddUpRefusal(acc: nat, ts: seq<Term>)
    ensures AddUp(acc, ts) != Err(NoSpecification)
    decreases |ts|
  {
    if ts != [] {
      var n := ParseU64(ts[0].text, ts[0].part);
      if n.Ok? { AddUpRefusal(acc + ts[0].weight * n.value, ts[1..]); }
    }
  }

  lemma NeverNoSpecification(c: Captures)
    ensures Evaluate(c) != Err(NoSpecification)
  {
    hide AddUp;
    AddUpRefusal(0, SecondTerms(c));
    AddUpRefusal(0, NanoTerms(c));
  }
}
