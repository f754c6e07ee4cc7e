/** Printing a period, and its round trip through the reader. */
module PeriodDisplay {
  import opened Wrappers
  import opened Numerals
  import opened PeriodGrammar
  import opened Periods

  /** A duration taken apart: a year is not a whole number of weeks, so every digit is a
      remainder of the one before. */
  datatype Fields = Fields(years: nat, weeks: nat, days: nat, hours: nat, minutes: nat, s: nat)

  function Split(secs: nat): (f: Fields)
    ensures YR * f.years + WK * f.weeks + DY * f.days + HR * f.hours + MN * f.minutes + f.s == secs
    ensures f.weeks <= 52 && f.days < 7 && f.hours < 24 && f.minutes < 60 && f.s < 60
  {
    var ySecs := secs % YR;
    var wSecs := ySecs % WK;
    var dSecs := wSecs % DY;
    var hSecs := dSecs % HR;
    Fields(secs / YR, ySecs / WK, wSecs / DY, dSecs / HR, hSecs / MN, hSecs % MN)
  }

  function Plain(n: nat, name: string): Piece {
    Piece("", Dec(n), "", name)
  }

  function Present(n: nat, name: string): Option<Piece> {
    if n > 0 then Some(Plain(n, name)) else None
  }

  function CanonicalLarge(f: Fields): seq<Option<Piece>> {
    [Present(f.years, "y"), Present(f.weeks, "w"), Present(f.days, "d"), Present(f.hours, "h"),
     Present(f.minutes, "m")]
  }

  predicate HasNs(n: nat) { n % 1000 > 0 }
  predicate HasUs(n: nat) { n / 1000 % 1000 > 0 }
  predicate HasMs(n: nat) { n / 1_000_000 > 0 }

  function CanonicalTail(d: Duration, s: nat): Tail {
    var n := d.nanos;
    if HasMs(n) && (s > 0 || HasNs(n)) then
      Fraction("", Dec(s), '.', TrimZeros(PadLeft9(Dec(n))), "", "s")
    else
      Groups(false, [
        if s > 0 || d == Duration(0, 0) then Some(Plain(s, "s")) else None,
        if !HasNs(n) && !HasUs(n) && HasMs(n) then Some(Plain(n / 1_000_000, "ms")) else None,
        if !HasNs(n) && HasUs(n) then Some(Plain(n / 1000, "us")) else None,
        if HasNs(n) then Some(Plain(n, "ns")) else None])
  }

  /** The derivation of the printed form. */
  function Canonical(d: Duration): Tree {
    var f := Split(d.secs);
    Tree(CanonicalLarge(f), CanonicalTail(d, f.s), "")
  }

  function Show(d: Duration): string {
    Canonical(d).Yield()
  }

  // ----- the printed form is a specification -----

  lemma PlainIsGood(n: nat, u: Unit, name: string)
    requires Names(u, name)
    ensures Plain(n, name).Good(u)
  {
  }

  lemma CanonicalNames()
    ensures Names(Year, "y") && Names(Week, "w") && Names(Day, "d") && Names(Hour, "h") && Names(Minute, "m")
    ensures Names(Second, "s") && Names(Milli, "ms") && Names(Micro, "us") && Names(Nano, "ns")
  {
    assert FoldAll("y") == "y" && FoldAll("w") == "w" && FoldAll("d") == "d" && FoldAll("h") == "h";
    assert FoldAll("m") == "m" && FoldAll("s") == "s" && FoldAll("ms") == "ms";
    assert FoldAll("us") == "us" && FoldAll("ns") == "ns";
  }

  lemma LargeIsGood(f: Fields)
    ensures GoodGroups(LARGE, CanonicalLarge(f))
  {
    CanonicalNames();
    hide Names;
    PlainIsGood(f.years, Year, "y");
    PlainIsGood(f.weeks, Week, "w");
    PlainIsGood(f.days, Day, "d");
    PlainIsGood(f.hours, Hour, "h");
    PlainIsGood(f.minutes, Minute, "m");
  }

  lemma TailIsGood(d: Duration, s: nat)
    requires d.Valid()
    ensures CanonicalTail(d, s).Good()
  {
    CanonicalNames();
    var n := d.nanos;
    if HasMs(n) && (s > 0 || HasNs(n)) {
      FractionRoundTrip(n);
    } else {
      PlainIsGood(s, Second, "s");
      PlainIsGood(n / 1_000_000, Milli, "ms");
      PlainIsGood(n / 1000, Micro, "us");
      PlainIsGood(n, Nano, "ns");
    }
  }

  lemma PresentCount(n: nat, name: string)
    ensures Count(Num(Present(n, name))) == n && Ascii(Num(Present(n, name)))
  {
    ValOfDec(n);
  }

  lemma LargeCounts(f: Fields)
    ensures forall i | 0 <= i < 5 :: Ascii(Num(CanonicalLarge(f)[i]))
    ensures var l := CanonicalLarge(f);
            Count(Num(l[0])) == f.years && Count(Num(l[1])) == f.weeks && Count(Num(l[2])) == f.days
            && Count(Num(l[3])) == f.hours && Count(Num(l[4])) == f.minutes
  {
    hide Val, Dec, AllAsciiDigits, Present, Count, Ascii;
    PresentCount(f.years, "y");
    PresentCount(f.weeks, "w");
    PresentCount(f.days, "d");
    PresentCount(f.hours, "h");
    PresentCount(f.minutes, "m");
  }

  /** The seconds that can be read off the printed form. */
  lemma CanonicalSeconds(d: Duration)
    requires d.Valid() && Canonical(d).Good()
    ensures var c := CapturesOf(Canonical(d));
            WholeSeconds(c) == d.secs && Ascii(c.y) && Ascii(c.w) && Ascii(c.d) && Ascii(c.h) && Ascii(c.m)
            && Ascii(c.s) && Ascii(c.sMan)
  {
    hide Val, Dec, AllAsciiDigits, TrimZeros, PadLeft9, Split, CanonicalLarge, GoodGroups, Names, All;
    var f := Split(d.secs);
    LargeCounts(f);
    ValOfDec(f.s);
  }

  lemma SubSecondScale(n: nat)
    ensures !HasNs(n) ==> 1000 * (n / 1000) == n
    ensures !HasNs(n) && !HasUs(n) ==> 1_000_000 * (n / 1_000_000) == n
    ensures n > 0 ==> HasNs(n) || HasUs(n) || HasMs(n)
  {
  }

  /** The nanoseconds that can be read off the printed form. */
  lemma CanonicalNanos(d: Duration)
    requires d.Valid() && Canonical(d).Good()
    ensures var c := CapturesOf(Canonical(d));
            FineNanos(c) == d.nanos && Ascii(c.ms) && Ascii(c.us) && Ascii(c.ns)
            && (c.sFra.Some? ==> AllAsciiDigits(Fill9(c.sFra.value)))
  {
    var n := d.nanos;
    var s := Split(d.secs).s;
    SubSecondScale(n);
    hide Val, Dec, AllAsciiDigits, TrimZeros, PadLeft9, Fill9, Billionths, Split;
    if HasMs(n) && (s > 0 || HasNs(n)) {
      FractionRoundTrip(n);
    } else {
      ValOfDec(n);
      ValOfDec(n / 1000);
      ValOfDec(n / 1_000_000);
    }
  }

  lemma CanonicalIsGood(d: Duration)
    requires d.Valid()
    ensures Canonical(d).Good()
  {
    hide GoodGroups, Names, CanonicalTail, CanonicalLarge;
    LargeIsGood(Split(d.secs));
    TailIsGood(d, Split(d.secs).s);
  }

  /** Reading undoes printing, for every duration. */
  lemma RoundTrip(d: Duration)
    requires d.Valid()
    ensures FromStr(Show(d)) == Ok(d)
  {
    hide Canonical, CapturesOf, WholeSeconds, FineNanos, FromStr, Ascii, AllAsciiDigits;
    CanonicalIsGood(d);
    CanonicalSeconds(d);
    CanonicalNanos(d);
    AcceptedValueIsExact(Canonical(d));
    assert Readable(CapturesOf(Canonical(d)));
    assert Fits(CapturesOf(Canonical(d)));
    TotalIsInjective(FromStr(Show(d)).value, d);
  }

  lemma TotalIsInjective(a: Duration, b: Duration)
    requires a.nanos < BILLION && b.nanos < BILLION && a.Total() == b.Total()
    ensures a == b
  {
  }

  lemma ShowIsInjective(a: Duration, b: Duration)
    requires a.Valid() && b.Valid()
    ensures Show(a) == Show(b) ==> a == b
  {
    hide Show;
    RoundTrip(a);
    RoundTrip(b);
  }

  /** Printing what was read gives a canonical form of the same value, for every accepted text. */
  lemma CanonicalForm(text: string)
    ensures FromStr(text).Ok? ==>
              FromStr(text).value.Valid() && FromStr(Show(FromStr(text).value)) == FromStr(text)
  {
    if FromStr(text).Ok? {
      RecogniseSound(text);
      AcceptedValueIsExact(Recognise(text).value);
      RoundTrip(FromStr(text).value);
    }
  }

  // ----- the printer -----

  lemma {:induction false} TextSnoc(gs: seq<Option<Piece>>, g: Option<Piece>)
    ensures GroupsText(gs + [g]) == GroupsText(gs) + PieceText(g)
  {
    hide PieceText;
    if gs == [] {
      assert ([] + [g])[1..] == [];
    } else {
      TextSnoc(gs[1..], g);
      assert (gs + [g])[1..] == gs[1..] + [g];
    }
  }

  lemma PlainText(n: nat, name: string)
    ensures Plain(n, name).Text() == Dec(n) + name
  {
  }

  /** Appends a count and its unit name, unless the count is zero. */
  method WriteUnit(out: string, n: nat, name: string, ghost gs: seq<Option<Piece>>) returns (out': string)
    requires out == GroupsText(gs)
    ensures out' == GroupsText(gs + [Present(n, name)])
  {
    hide Dec, GroupsText;
    TextSnoc(gs, Present(n, name));
    PlainText(n, name);
    out' := out;
    if n > 0 { out' := out + (Dec(n) + name); }
  }

  function SecondsText(d: Duration, s: nat): string {
    if s > 0 || d == Duration(0, 0) then Dec(s) + "s" else ""
  }

  predicate Fractional(d: Duration, s: nat) {
    HasMs(d.nanos) && (s > 0 || HasNs(d.nanos))
  }

  /** The sub-second pieces of the printed form: at most one of them is there. */
  function SubSeconds(d: Duration, s: nat): seq<Option<Piece>>
    requires !Fractional(d, s)
  {
    CanonicalTail(d, s).small[1..]
  }

  lemma {:induction false} ThreeTexts(a: Option<Piece>, b: Option<Piece>, c: Option<Piece>)
    ensures GroupsText([a, b, c]) == PieceText(a) + PieceText(b) + PieceText(c)
  {
    hide PieceText;
    assert [a, b, c][1..] == [b, c];
    assert [b, c][1..] == [c];
    assert [c][1..] == [];
    assert GroupsText([c]) == PieceText(c);
    assert GroupsText([b, c]) == PieceText(b) + PieceText(c);
  }

  lemma GroupsTailText(d: Duration, s: nat)
    requires !Fractional(d, s)
    ensures CanonicalTail(d, s).Text() == SecondsText(d, s) + GroupsText(SubSeconds(d, s))
  {
    hide Dec, Plain, HasNs, HasUs, HasMs;
    var small := CanonicalTail(d, s).small;
    PlainText(s, "s");
    assert PieceText(small[0]) == SecondsText(d, s);
    assert CanonicalTail(d, s).Text() == GroupsText(small);
  }

  lemma SubSecondPieces(d: Duration, s: nat)
    requires !Fractional(d, s)
    ensures var g := SubSeconds(d, s); g == [g[0], g[1], g[2]]
    ensures GroupsText(SubSeconds(d, s)) ==
            PieceText(SubSeconds(d, s)[0]) + PieceText(SubSeconds(d, s)[1]) + PieceText(SubSeconds(d, s)[2])
  {
    hide GroupsText, PieceText, HasNs, HasUs, HasMs;
    var g := SubSeconds(d, s);
    assert g == [g[0], g[1], g[2]];
    ThreeTexts(g[0], g[1], g[2]);
  }

  lemma FractionTailText(d: Duration, s: nat)
    requires HasMs(d.nanos) && (s > 0 || HasNs(d.nanos))
    ensures CanonicalTail(d, s).Text() == Dec(s) + ("." + (TrimZeros(PadLeft9(Dec(d.nanos))) + "s"))
  {
    hide Dec, TrimZeros, PadLeft9;
    var f := TrimZeros(PadLeft9(Dec(d.nanos)));
    assert "" + "s" == "s";
    assert "" + (Dec(s) + ("." + (f + "s"))) == Dec(s) + ("." + (f + "s"));
  }

  /** Appends the sub-second pieces of the printed form. */
  method WriteSubSeconds(out: string, d: Duration, ghost s: nat) returns (out': string)
    requires !Fractional(d, s)
    ensures out' == out + GroupsText(SubSeconds(d, s))
  {
    hide Dec, GroupsText, HasNs, HasUs, HasMs;
    SubSecondPieces(d, s);
    var nsecs := d.nanos;
    out' := out;
    if HasNs(nsecs) {
      PlainText(nsecs, "ns");
      out' := out' + (Dec(nsecs) + "ns");
    } else if HasUs(nsecs) {
      PlainText(nsecs / 1000, "us");
      out' := out' + (Dec(nsecs / 1000) + "us");
    } else if HasMs(nsecs) {
      PlainText(nsecs / 1_000_000, "ms");
      out' := out' + (Dec(nsecs / 1_000_000) + "ms");
    }
  }

  /** Appends seconds and sub-seconds at the finest precision that carries data. */
  method WriteTail(out: string, d: Duration, s: nat) returns (out': string)
    requires d.Valid()
    ensures out' == out + CanonicalTail(d, s).Text()
  {
    hide CanonicalTail, Dec, TrimZeros, PadLeft9, SubSeconds, GroupsText;
    var nsecs := d.nanos;
    out' := out;
    if HasMs(nsecs) && (s > 0 || HasNs(nsecs)) {
      FractionTailText(d, s);
      out' := out' + (Dec(s) + ("." + (TrimZeros(PadLeft9(Dec(nsecs))) + "s")));
    } else {
      GroupsTailText(d, s);
      NoSubSeconds(d, s);
      ghost var secondsText := SecondsText(d, s);
      if nsecs > 0 || s > 0 {
        if s > 0 { out' := out' + (Dec(s) + "s"); }
        assert out' == out + secondsText;
        out' := WriteSubSeconds(out', d, s);
      } else if nsecs == 0 && d.secs == 0 {
        DecOfZero();
        out' := out' + "0s";
      }
    }
  }

  lemma NoSubSeconds(d: Duration, s: nat)
    requires !Fractional(d, s)
    ensures d.nanos == 0 ==> GroupsText(SubSeconds(d, s)) == ""
  {
    SubSecondPieces(d, s);
  }

  lemma DecOfZero()
    ensures Dec(0) == "0"
  {
  }

  /** Appends years down to minutes. */
  method WriteLarge(f: Fields) returns (out: string)
    ensures out == GroupsText(CanonicalLarge(f))
  {
    ghost var none: seq<Option<Piece>> := [];
    assert GroupsText(none) == "";
    hide Present, GroupsText;
    ghost var g1 := none + [Present(f.years, "y")];
    ghost var g2 := g1 + [Present(f.weeks, "w")];
    ghost var g3 := g2 + [Present(f.days, "d")];
    ghost var g4 := g3 + [Present(f.hours, "h")];
    assert g4 + [Present(f.minutes, "m")] == CanonicalLarge(f);
    out := WriteUnit("", f.years, "y", none);
    out := WriteUnit(out, f.weeks, "w", g1);
    out := WriteUnit(out, f.days, "d", g2);
    out := WriteUnit(out, f.hours, "h", g3);
    out := WriteUnit(out, f.minutes, "m", g4);
  }

  /** Prints a period.  The printed text is read back as exactly the duration it was printed from. */
  method Display(d: Duration) returns (out: string)
    requires d.Valid()
    ensures out == Show(d)
    ensures FromStr(out) == Ok(d)
  {
    RoundTrip(d);
    hide FromStr, CanonicalTail, CanonicalLarge, GroupsText, Split;
    var f := Split(d.secs);
    out := WriteLarge(f);
    out := WriteTail(out, d, f.s);
    assert CanonicalTail(d, f.s).Text() + "" == CanonicalTail(d, f.s).Text();
  }
}
