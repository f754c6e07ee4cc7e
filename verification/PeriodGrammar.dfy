/** The language of period specifications such as "1w2d3h4.567s".

    A specification is described by a derivation tree that keeps every character, so that
    the grammar is simply the set of well-formed trees and their yields.  `Recognise` is the
    deterministic reader.  The two lemmas at the end show that reading and yielding are
    inverse to each other: a text has at most one derivation, hence every matching order of
    the regular expression captures the same numerals. */
module PeriodGrammar {
  import opened Wrappers
  import opened Sequences
  import opened Numerals

  // ----- character classes (`\d`, `\s`, case-insensitive letters) -----

  /** The zero digits of the decimal digit blocks outside ASCII. */
  const OTHER_ZEROS: seq<int> := [
    0x660, 0x6F0, 0x7C0, 0x966, 0x9E6, 0xA66, 0xAE6, 0xB66, 0xBE6, 0xC66, 0xCE6, 0xD66, 0xDE6,
    0xE50, 0xED0, 0xF20, 0x1040, 0x1090, 0x17E0, 0x1810, 0x1946, 0x19D0, 0x1A80, 0x1A90, 0x1B50,
    0x1BB0, 0x1C40, 0x1C50, 0xA620, 0xA8D0, 0xA900, 0xA9D0, 0xA9F0, 0xAA50, 0xABF0, 0xFF10,
    0x104A0, 0x11066, 0x110F0, 0x11136, 0x111D0, 0x112F0, 0x11450, 0x114D0, 0x11650, 0x116C0,
    0x11730, 0x118E0, 0x11C50, 0x11D50, 0x11DA0, 0x16A60, 0x16B50, 0x1D7CE, 0x1D7D8, 0x1D7E2,
    0x1D7EC, 0x1D7F6, 0x1E140, 0x1E2F0, 0x1E950]

  predicate IsOtherDigit(c: char) {
    (0x660 <= c as int <= 0x1099 || 0x17E0 <= c as int <= 0x1C59 || 0xA620 <= c as int)
    && exists z | z in OTHER_ZEROS :: z <= c as int <= z + 9
  }

  predicate IsDigit(c: char) {
    IsAsciiDigit(c) || IsOtherDigit(c)
  }

  predicate IsSpace(c: char) {
    var n := c as int;
    0x9 <= n <= 0xD || n == 0x20 || n == 0x85 || n == 0xA0 || n == 0x1680 || 0x2000 <= n <= 0x200A
    || n == 0x2028 || n == 0x2029 || n == 0x202F || n == 0x205F || n == 0x3000
  }

  predicate IsMark(c: char) {
    c == '.' || c == ',' || c == ':'
  }

  /** Anything that can only be part of a unit name. */
  predicate IsLetter(c: char) {
    !IsSpace(c) && !IsDigit(c) && !IsMark(c)
  }

  /** Simple case folding, restricted to what can fold to a letter of a unit name: the long s,
      the Kelvin sign, the micro sign and capital mu fold to s, k and mu. */
  function Fold(c: char): char {
    if 'A' <= c <= 'Z' then (c as int + 32) as char
    else if c == '\U{17F}' then 's'
    else if c == '\U{212A}' then 'k'
    else if c == '\U{B5}' || c == '\U{39C}' then '\U{3BC}'
    else c
  }

  function FoldAll(s: string): (t: string)
    ensures |t| == |s|
  {
    seq(|s|, i requires 0 <= i < |s| => Fold(s[i]))
  }

  // ----- units and their names -----

  datatype Unit = Year | Week | Day | Hour | Minute | Second | Milli | Micro | Nano

  const LARGE: seq<Unit> := [Year, Week, Day, Hour, Minute]
  const SMALL: seq<Unit> := [Second, Milli, Micro, Nano]

  /** `s((ec(ond)?)s?)?` */
  predicate SecondName(w: string) {
    w == "s" || w == "sec" || w == "secs" || w == "second" || w == "seconds"
  }

  /** `p` followed by a name of the second. */
  predicate ScaledName(p: string, w: string) {
    p <= w && SecondName(w[|p|..])
  }

  predicate LowerName(u: Unit, w: string) {
    match u
    case Year => w == "y" || w == "yr" || w == "yrs" || w == "year" || w == "years"
    case Week => w == "w" || w == "wk" || w == "wks" || w == "week" || w == "weeks"
    case Day => w == "d" || w == "dy" || w == "dys" || w == "day" || w == "days"
    case Hour => w == "h" || w == "hr" || w == "hrs" || w == "hour" || w == "hours"
    case Minute => w == "m" || w == "min" || w == "mins" || w == "minute" || w == "minutes"
    case Second => SecondName(w)
    case Milli => ScaledName("m", w) || ScaledName("milli", w)
    case Micro => ScaledName("u", w) || ScaledName("\U{3BC}", w) || ScaledName("micro", w)
    case Nano => ScaledName("n", w) || ScaledName("nano", w)
  }

  predicate Names(u: Unit, w: string) {
    LowerName(u, FoldAll(w))
  }

  /** The unit a lower-case name can only belong to: its first letter decides, except that
      "min...", "ms...", "milli..." and "micro..." need a look further. */
  function UnitOf(w: string): Unit
    requires w != ""
  {
    match w[0]
    case 'y' => Year
    case 'w' => Week
    case 'd' => Day
    case 'h' => Hour
    case 's' => Second
    case 'n' => Nano
    case 'm' =>
      if |w| < 3 then (if |w| == 2 then Milli else Minute)
      else if w[1] == 's' || w[2] == 'l' then Milli
      else if w[2] == 'n' then Minute
      else Micro
    case _ => Micro
  }

  lemma NameDeterminesUnit(u: Unit, w: string)
    requires LowerName(u, w)
    ensures w != "" && UnitOf(w) == u
  {
    match u
    case Milli => if ScaledName("milli", w) { assert w[2] == 'l'; } else { assert |w| >= 2 && w[1] == 's'; }
    case Micro => if ScaledName("micro", w) { assert w[1] == 'i' && w[2] == 'c'; }
    case _ =>
  }

  lemma NamesAreDisjoint(u: Unit, v: Unit, w: string)
    requires Names(u, w) && Names(v, w)
    ensures u == v
  {
    NameDeterminesUnit(u, FoldAll(w));
    NameDeterminesUnit(v, FoldAll(w));
  }

  /** The letters that occur in unit names. */
  predicate NameLetter(c: char) {
    'a' <= c <= 'z' || c == '\U{3BC}'
  }

  predicate AllNameLetters(w: string) {
    w != "" && forall i | 0 <= i < |w| :: NameLetter(w[i])
  }

  lemma ScaledNameLetters(p: string, w: string)
    requires AllNameLetters(p) && ScaledName(p, w)
    ensures AllNameLetters(w)
  {
    assert w == p + w[|p|..];
    assert AllNameLetters(w[|p|..]);
  }

  lemma LowerNameLetters(u: Unit, w: string)
    requires LowerName(u, w)
    ensures AllNameLetters(w)
  {
    match u
    case Milli => ScaledNameLetters(if ScaledName("m", w) then "m" else "milli", w);
    case Micro =>
      ScaledNameLetters(if ScaledName("u", w) then "u" else if ScaledName("micro", w) then "micro" else "\U{3BC}", w);
    case Nano => ScaledNameLetters(if ScaledName("n", w) then "n" else "nano", w);
    case _ =>
  }

  lemma NameIsAWord(u: Unit, w: string)
    requires Names(u, w)
    ensures w != "" && All(IsLetter, w)
  {
    LowerNameLetters(u, FoldAll(w));
    forall i | 0 <= i < |w|
      ensures IsLetter(w[i])
    {
      assert FoldAll(w)[i] == Fold(w[i]);
    }
  }

  // ----- derivation trees -----

  predicate All(p: char -> bool, s: string) {
    forall i | 0 <= i < |s| :: p(s[i])
  }

  predicate Numeral(s: string) {
    s != "" && All(IsDigit, s)
  }

  /** One counted unit: `\s*(\d+)\s*name`. */
  datatype Piece = Piece(pre: string, num: string, mid: string, word: string) {
    function Text(): string {
      pre + (num + (mid + word))
    }

    predicate Good(u: Unit) {
      All(IsSpace, pre) && Numeral(num) && All(IsSpace, mid) && Names(u, word)
    }
  }

  /** Seconds with a fraction, or the optional groups of seconds and sub-second units, the
      first of which may follow a stray colon. */
  datatype Tail =
    | Fraction(pre: string, man: string, mark: char, fra: string, mid: string, word: string)
    | Groups(colon: bool, small: seq<Option<Piece>>)
  {
    function Text(): string {
      match this
      case Fraction(pre, man, mark, fra, mid, word) => pre + (man + ([mark] + (fra + (mid + word))))
      case Groups(colon, small) => (if colon then ":" else "") + GroupsText(small)
    }

    /** `man` is empty when the mantissa is missing. */
    predicate Good() {
      match this
      case Fraction(pre, man, mark, fra, mid, word) =>
        All(IsSpace, pre) && All(IsDigit, man) && (mark == '.' || mark == ',')
        && Numeral(fra) && All(IsSpace, mid) && Names(Second, word)
      case Groups(colon, small) => GoodGroups(SMALL, small) && (colon ==> small[0].Some?)
    }
  }

  datatype Tree = Tree(large: seq<Option<Piece>>, tail: Tail, trail: string) {
    function Yield(): string {
      GroupsText(large) + (tail.Text() + trail)
    }

    predicate Good() {
      GoodGroups(LARGE, large) && tail.Good() && All(IsSpace, trail)
    }
  }

  function PieceText(g: Option<Piece>): string {
    if g.Some? then g.value.Text() else ""
  }

  function GroupsText(gs: seq<Option<Piece>>): string {
    if gs == [] then "" else PieceText(gs[0]) + GroupsText(gs[1..])
  }

  predicate GoodGroups(units: seq<Unit>, gs: seq<Option<Piece>>) {
    |units| == |gs| && forall i | 0 <= i < |gs| :: gs[i].Some? ==> gs[i].value.Good(units[i])
  }

  // ----- the reader -----

  /** Length of the longest prefix of `s` inside a character class. */
  function Span(p: char -> bool, s: string): (n: nat)
    ensures n <= |s| && All(p, s[..n])
    ensures n < |s| ==> !p(s[n])
  {
    if s == "" || !p(s[0]) then 0 else
      var n := 1 + Span(p, s[1..]);
      assert forall i | 0 <= i < n :: i > 0 ==> s[i] == s[1..][i - 1];
      n
  }

  function Skip(p: char -> bool, s: string): string {
    s[Span(p, s)..]
  }

  function Taken(p: char -> bool, s: string): (t: string)
    ensures t + Skip(p, s) == s && All(p, t)
  {
    s[..Span(p, s)]
  }

  /** Reads a counted unit of whatever name stands there. */
  function TakePiece(s: string): Option<(Piece, string)> {
    var s1 := Skip(IsSpace, s);
    var s2 := Skip(IsDigit, s1);
    var s3 := Skip(IsSpace, s2);
    var s4 := Skip(IsLetter, s3);
    if Taken(IsDigit, s1) == "" || Taken(IsLetter, s3) == "" then None
    else Some((Piece(Taken(IsSpace, s), Taken(IsDigit, s1), Taken(IsSpace, s2), Taken(IsLetter, s3)), s4))
  }

  function TakeGroups(units: seq<Unit>, s: string): (seq<Option<Piece>>, string) {
    if units == [] then ([], s) else
      match TakePiece(s)
      case Some((p, rest)) =>
        if Names(units[0], p.word)
        then var (gs, r) := TakeGroups(units[1..], rest); ([Some(p)] + gs, r)
        else var (gs, r) := TakeGroups(units[1..], s); ([None] + gs, r)
      case None => var (gs, r) := TakeGroups(units[1..], s); ([None] + gs, r)
  }

  function TakeFraction(s: string): Option<(Tail, string)> {
    var s1 := Skip(IsSpace, s);
    var s2 := Skip(IsDigit, s1);
    if s2 == "" || !(s2[0] == '.' || s2[0] == ',') then None else
      match TakePiece(s2[1..])
      case Some((p, rest)) =>
        if p.pre == "" && Names(Second, p.word)
        then Some((Fraction(Taken(IsSpace, s), Taken(IsDigit, s1), s2[0], p.num, p.mid, p.word), rest))
        else None
      case None => None
  }

  function TakeTail(s: string): Option<(Tail, string)> {
    match TakeFraction(s)
    case Some(found) => Some(found)
    case None =>
      if s != "" && s[0] == ':' then
        var (gs, r) := TakeGroups(SMALL, s[1..]);
        if |gs| > 0 && gs[0].Some? then Some((Groups(true, gs), r)) else None
      else
        var (gs, r) := TakeGroups(SMALL, s);
        Some((Groups(false, gs), r))
  }

  function Recognise(s: string): Option<Tree> {
    var (large, rest) := TakeGroups(LARGE, s);
    match TakeTail(rest)
    case Some((tail, trail)) => if All(IsSpace, trail) then Some(Tree(large, tail, trail)) else None
    case None => None
  }

  // ----- the reader is sound -----

  lemma Regroup4(a: string, b: string, c: string, d: string, e: string)
    ensures (a + (b + (c + d))) + e == a + (b + (c + (d + e)))
  {
  }

  lemma PieceSound(s: string)
    ensures TakePiece(s).Some? ==>
              var (p, rest) := TakePiece(s).value;
              p.Text() + rest == s && All(IsSpace, p.pre) && Numeral(p.num) && All(IsSpace, p.mid)
  {
    if TakePiece(s).Some? {
      var (p, rest) := TakePiece(s).value;
      Regroup4(p.pre, p.num, p.mid, p.word, rest);
    }
  }

  lemma {:induction false} GroupsSound(units: seq<Unit>, s: string)
    ensures var (gs, rest) := TakeGroups(units, s);
            GoodGroups(units, gs) && GroupsText(gs) + rest == s
  {
    hide Names, TakePiece, All;
    if units != [] {
      var found := TakePiece(s);
      if found.Some? && Names(units[0], found.value.0.word) {
        var (p, rest) := found.value;
        PieceSound(s);
        GroupsSound(units[1..], rest);
        assert ([Some(p)] + TakeGroups(units[1..], rest).0)[1..] == TakeGroups(units[1..], rest).0;
      } else {
        GroupsSound(units[1..], s);
        assert ([None] + TakeGroups(units[1..], s).0)[1..] == TakeGroups(units[1..], s).0;
      }
    }
  }

  lemma Regroup6(a: string, b: string, c: string, d: string, e: string, f: string, g: string)
    ensures (a + (b + (c + (d + (e + f))))) + g == a + (b + (c + ((d + (e + f)) + g)))
  {
  }

  lemma FractionSound(s: string)
    ensures TakeFraction(s).Some? ==> var (t, rest) := TakeFraction(s).value; t.Good() && t.Text() + rest == s
  {
    hide Names, TakePiece, All;
    if TakeFraction(s).Some? {
      var (t, rest) := TakeFraction(s).value;
      var s2 := Skip(IsDigit, Skip(IsSpace, s));
      PieceSound(s2[1..]);
      var p := TakePiece(s2[1..]).value.0;
      assert p.Text() == t.fra + (t.mid + t.word);
      assert s2 == [t.mark] + s2[1..];
      Regroup6(t.pre, t.man, [t.mark], t.fra, t.mid, t.word, rest);
    }
  }

  lemma TailSound(s: string)
    ensures TakeTail(s).Some? ==> var (t, rest) := TakeTail(s).value; t.Good() && t.Text() + rest == s
  {
    hide Names, TakePiece, TakeFraction, TakeGroups, GroupsText, GoodGroups, All;
    if TakeFraction(s).Some? {
      FractionSound(s);
    } else if s != "" && s[0] == ':' {
      GroupsSound(SMALL, s[1..]);
      var text := GroupsText(TakeGroups(SMALL, s[1..]).0);
      assert (":" + text) + TakeGroups(SMALL, s[1..]).1 == ":" + s[1..] == s;
    } else {
      GroupsSound(SMALL, s);
      var text := GroupsText(TakeGroups(SMALL, s).0);
      assert "" + text == text;
    }
  }

  /** Whatever the reader accepts is in the grammar and spells the text read. */
  lemma RecogniseSound(s: string)
    ensures Recognise(s).Some? ==> Recognise(s).value.Good() && Recognise(s).value.Yield() == s
  {
    hide TakeGroups, TakeTail, GoodGroups, GroupsText, All;
    GroupsSound(LARGE, s);
    var rest := TakeGroups(LARGE, s).1;
    TailSound(rest);
  }

  // ----- the reader is complete -----

  /** A text that cannot continue a word. */
  predicate EndsWord(s: string) {
    s == "" || !IsLetter(s[0])
  }

  lemma {:induction false} SpanExact(p: char -> bool, a: string, b: string)
    requires All(p, a) && (b == "" || !p(b[0]))
    ensures Taken(p, a + b) == a && Skip(p, a + b) == b
  {
    if a == "" {
      assert a + b == b;
    } else {
      assert (a + b)[1..] == a[1..] + b;
      SpanExact(p, a[1..], b);
    }
  }

  lemma ClassesAreDisjoint(c: char)
    ensures IsDigit(c) ==> !IsSpace(c) && !IsMark(c)
    ensures IsLetter(c) ==> !IsSpace(c) && !IsDigit(c) && !IsMark(c)
    ensures IsMark(c) ==> !IsSpace(c)
  {
  }

  /** A well-formed piece is read back whole when what follows cannot continue its word. */
  lemma PieceComplete(u: Unit, p: Piece, rest: string)
    requires p.Good(u) && EndsWord(rest)
    ensures TakePiece(p.Text() + rest) == Some((p, rest))
  {
    NameIsAWord(u, p.word);
    var t3 := p.word + rest;
    var t2 := p.mid + t3;
    var t1 := p.num + t2;
    Regroup4(p.pre, p.num, p.mid, p.word, rest);
    ClassesAreDisjoint(p.word[0]);
    ClassesAreDisjoint(p.num[0]);
    assert t2 != "" && !IsDigit(t2[0]) by {
      if p.mid != "" { ClassesAreDisjoint(p.mid[0]); }
    }
    hide IsSpace, IsDigit, IsLetter, Names;
    SpanExact(IsLetter, p.word, rest);
    SpanExact(IsSpace, p.mid, t3);
    SpanExact(IsDigit, p.num, t2);
    SpanExact(IsSpace, p.pre, t1);
  }

  /** The first piece present in a list of optional groups, and what follows it. */
  function FirstPiece(gs: seq<Option<Piece>>, rest: string): Option<(Piece, string)> {
    if gs == [] then TakePiece(rest)
    else if gs[0].Some? then Some((gs[0].value, GroupsText(gs[1..]) + rest))
    else FirstPiece(gs[1..], rest)
  }

  lemma {:induction false} GroupsEndWord(units: seq<Unit>, gs: seq<Option<Piece>>, rest: string)
    requires GoodGroups(units, gs) && EndsWord(rest)
    ensures EndsWord(GroupsText(gs) + rest)
  {
    if gs == [] {
      assert GroupsText(gs) + rest == rest;
    } else if gs[0].None? {
      GroupsEndWord(units[1..], gs[1..], rest);
    } else {
      var p := gs[0].value;
      if p.pre != "" { ClassesAreDisjoint(p.pre[0]); } else { ClassesAreDisjoint(p.num[0]); }
    }
  }

  lemma GroupsTextCons(gs: seq<Option<Piece>>, rest: string)
    requires gs != []
    ensures GroupsText(gs) + rest == PieceText(gs[0]) + (GroupsText(gs[1..]) + rest)
  {
    hide PieceText;
  }

  lemma {:induction false} ReadsFirstPiece(units: seq<Unit>, gs: seq<Option<Piece>>, rest: string)
    requires GoodGroups(units, gs) && EndsWord(rest)
    ensures TakePiece(GroupsText(gs) + rest) == FirstPiece(gs, rest)
  {
    if gs == [] {
      assert GroupsText(gs) + rest == rest;
    } else {
      hide Names, TakePiece, All, EndsWord, GroupsText;
      var more := GroupsText(gs[1..]) + rest;
      GroupsTextCons(gs, rest);
      if gs[0].None? {
        ReadsFirstPiece(units[1..], gs[1..], rest);
        assert "" + more == more;
      } else {
        GroupsEndWord(units[1..], gs[1..], rest);
        PieceComplete(units[0], gs[0].value, more);
      }
    }
  }

  /** No unit of `units` can be read at the start of `s`. */
  predicate Foreign(units: seq<Unit>, s: string) {
    TakePiece(s).Some? ==> forall i | 0 <= i < |units| :: !Names(units[i], TakePiece(s).value.0.word)
  }

  /** In good groups over units other than `u`, the first piece is not of unit `u`. */
  lemma {:induction false} FirstPieceIsForeign(u: Unit, units: seq<Unit>, gs: seq<Option<Piece>>, rest: string)
    requires GoodGroups(units, gs) && u !in units && Foreign([u], rest)
    ensures FirstPiece(gs, rest).Some? ==> !Names(u, FirstPiece(gs, rest).value.0.word)
  {
    hide Names, TakePiece, All;
    if gs == [] {
      assert [u][0] == u;
    } else if gs[0].None? {
      FirstPieceIsForeign(u, units[1..], gs[1..], rest);
    } else if Names(u, gs[0].value.word) {
      NamesAreDisjoint(u, units[0], gs[0].value.word);
    }
  }

  lemma TakeGroupsUnfold(units: seq<Unit>, s: string)
    requires units != []
    ensures var found := TakePiece(s);
            var present := found.Some? && Names(units[0], found.value.0.word);
            var (gs, r) := TakeGroups(units[1..], if present then found.value.1 else s);
            TakeGroups(units, s) == ([if present then Some(found.value.0) else None] + gs, r)
  {
    hide Names, TakePiece;
  }

  lemma RestIsGood(units: seq<Unit>, gs: seq<Option<Piece>>, rest: string)
    requires GoodGroups(units, gs) && Distinct(units) && Foreign(units, rest) && gs != []
    ensures GoodGroups(units[1..], gs[1..]) && Distinct(units[1..]) && Foreign(units[1..], rest)
    ensures units[0] !in units[1..] && Foreign([units[0]], rest)
  {
    hide Names, TakePiece, All;
  }

  lemma NoGroups(s: string)
    ensures TakeGroups([], s) == ([], s) && GroupsText([]) + s == s
  {
    assert "" + s == s;
  }

  lemma {:induction false} GroupsComplete(units: seq<Unit>, gs: seq<Option<Piece>>, rest: string)
    requires GoodGroups(units, gs) && Distinct(units) && EndsWord(rest) && Foreign(units, rest)
    ensures TakeGroups(units, GroupsText(gs) + rest) == (gs, rest)
  {
    hide Names, TakePiece, All, EndsWord, TakeGroups, GroupsText, Foreign, Distinct;
    if gs == [] {
      NoGroups(rest);
    } else {
      var s := GroupsText(gs) + rest;
      RestIsGood(units, gs, rest);
      ReadsFirstPiece(units, gs, rest);
      GroupsTextCons(gs, rest);
      TakeGroupsUnfold(units, s);
      GroupsComplete(units[1..], gs[1..], rest);
      assert gs == [gs[0]] + gs[1..];
      if gs[0].None? {
        FirstPieceIsForeign(units[0], units[1..], gs[1..], rest);
        assert s == GroupsText(gs[1..]) + rest;
      }
    }
  }

  lemma NothingReadable(s: string)
    requires All(IsSpace, s)
    ensures TakePiece(s).None? && TakeFraction(s).None? && EndsWord(s)
  {
    SpanExact(IsSpace, s, "");
    assert s + "" == s;
    if s != "" { ClassesAreDisjoint(s[0]); }
  }

  /** The text of a fraction falls apart at its decimal mark. */
  lemma FractionParts(t: Tail, trail: string, t3: string, t2: string, t1: string)
    requires t.Fraction? && t.Good()
    requires t3 == Piece("", t.fra, t.mid, t.word).Text() + trail && t2 == [t.mark] + t3 && t1 == t.man + t2
    ensures t.Text() + trail == t.pre + t1
    ensures Taken(IsSpace, t.Text() + trail) == t.pre && Skip(IsSpace, t.Text() + trail) == t1
    ensures Taken(IsDigit, t1) == t.man && Skip(IsDigit, t1) == t2
    ensures EndsWord(t.pre + t1)
  {
    assert Piece("", t.fra, t.mid, t.word).Text() == t.fra + (t.mid + t.word);
    Regroup6(t.pre, t.man, [t.mark], t.fra, t.mid, t.word, trail);
    ClassesAreDisjoint(t.mark);
    assert IsMark(t2[0]);
    if t.man != "" { ClassesAreDisjoint(t.man[0]); }
    assert t1 != "" && !IsSpace(t1[0]) && !IsLetter(t1[0]);
    if t.pre != "" { ClassesAreDisjoint(t.pre[0]); }
    hide IsSpace, IsDigit, IsLetter, Names;
    SpanExact(IsDigit, t.man, t2);
    SpanExact(IsSpace, t.pre, t1);
  }

  lemma NoUnitAtMark(s: string)
    requires s != "" && IsMark(s[0])
    ensures Taken(IsSpace, s) == "" && Taken(IsLetter, s) == ""
  {
    ClassesAreDisjoint(s[0]);
  }

  lemma FractionComplete(t: Tail, trail: string)
    requires t.Fraction? && t.Good() && All(IsSpace, trail)
    ensures TakeFraction(t.Text() + trail) == Some((t, trail))
    ensures TakePiece(t.Text() + trail).None? && EndsWord(t.Text() + trail)
  {
    var p := Piece("", t.fra, t.mid, t.word);
    var t3 := p.Text() + trail;
    var t2 := [t.mark] + t3;
    NothingReadable(trail);
    NoUnitAtMark(t2);
    hide IsSpace, IsDigit, IsLetter, Names, Span, EndsWord;
    FractionParts(t, trail, t3, t2, t.man + t2);
    PieceComplete(Second, p, trail);
    assert t2[1..] == t3;
    assert "" + t2 == t2;
  }

  lemma PieceIsNoFraction(u: Unit, p: Piece, rest: string)
    requires p.Good(u)
    ensures TakeFraction(p.Text() + rest).None?
  {
    NameIsAWord(u, p.word);
    var t3 := p.word + rest;
    var t2 := p.mid + t3;
    var t1 := p.num + t2;
    Regroup4(p.pre, p.num, p.mid, p.word, rest);
    ClassesAreDisjoint(p.word[0]);
    ClassesAreDisjoint(p.num[0]);
    assert t2 != "" && !IsDigit(t2[0]) && !IsMark(t2[0]) by {
      if p.mid != "" { ClassesAreDisjoint(p.mid[0]); }
    }
    hide IsSpace, IsDigit, IsLetter, Names;
    SpanExact(IsDigit, p.num, t2);
    SpanExact(IsSpace, p.pre, t1);
  }

  lemma {:induction false} GroupsAreNoFraction(units: seq<Unit>, gs: seq<Option<Piece>>, rest: string)
    requires GoodGroups(units, gs) && TakeFraction(rest).None?
    ensures TakeFraction(GroupsText(gs) + rest).None?
  {
    if gs == [] {
      assert GroupsText(gs) + rest == rest;
    } else {
      hide Names, TakePiece, TakeFraction, All, GroupsText;
      var more := GroupsText(gs[1..]) + rest;
      GroupsTextCons(gs, rest);
      if gs[0].None? {
        GroupsAreNoFraction(units[1..], gs[1..], rest);
        assert "" + more == more;
      } else {
        PieceIsNoFraction(units[0], gs[0].value, more);
      }
    }
  }

  lemma ColonStopsReading(s: string)
    requires s != "" && s[0] == ':'
    ensures TakeFraction(s).None? && TakePiece(s).None? && EndsWord(s)
  {
    assert IsMark(s[0]);
    ClassesAreDisjoint(s[0]);
  }

  lemma UnitsAreDistinct()
    ensures Distinct(LARGE) && Distinct(SMALL)
    ensures forall u | u in LARGE :: u !in SMALL
  {
  }

  lemma ColonTailComplete(small: seq<Option<Piece>>, trail: string)
    requires Groups(true, small).Good() && All(IsSpace, trail)
    ensures TakeTail(Groups(true, small).Text() + trail) == Some((Groups(true, small), trail))
  {
    hide Names, TakePiece, TakeFraction, TakeGroups, GroupsText, All, EndsWord;
    UnitsAreDistinct();
    NothingReadable(trail);
    GroupsComplete(SMALL, small, trail);
    hide Foreign, GoodGroups, Distinct;
    var s := GroupsText(small) + trail;
    var cs := ":" + s;
    assert Groups(true, small).Text() + trail == cs;
    assert cs[1..] == s;
    ColonStopsReading(cs);
  }

  lemma PlainTailComplete(small: seq<Option<Piece>>, trail: string)
    requires Groups(false, small).Good() && All(IsSpace, trail)
    ensures TakeTail(Groups(false, small).Text() + trail) == Some((Groups(false, small), trail))
  {
    UnitsAreDistinct();
    NothingReadable(trail);
    NoColon(SMALL, small, trail);
    hide Names, TakePiece, TakeFraction, TakeGroups, All, EndsWord;
    GroupsComplete(SMALL, small, trail);
    GroupsAreNoFraction(SMALL, small, trail);
    assert Groups(false, small).Text() == GroupsText(small);
  }

  lemma PlainTailIsForeign(small: seq<Option<Piece>>, trail: string)
    requires GoodGroups(SMALL, small) && All(IsSpace, trail)
    ensures Foreign(LARGE, GroupsText(small) + trail)
  {
    UnitsAreDistinct();
    NothingReadable(trail);
    hide Names, TakePiece, TakeFraction, All, EndsWord;
    var s := GroupsText(small) + trail;
    ReadsFirstPiece(SMALL, small, trail);
    forall i | 0 <= i < |LARGE| && TakePiece(s).Some?
      ensures !Names(LARGE[i], TakePiece(s).value.0.word)
    {
      FirstPieceIsForeign(LARGE[i], SMALL, small, trail);
    }
  }

  /** The groups after the minutes are read back, and no larger unit is read into them. */
  lemma TailComplete(t: Tail, trail: string)
    requires t.Good() && All(IsSpace, trail)
    ensures TakeTail(t.Text() + trail) == Some((t, trail))
    ensures EndsWord(t.Text() + trail) && Foreign(LARGE, t.Text() + trail)
  {
    NothingReadable(trail);
    hide Names, TakePiece, TakeFraction, TakeGroups, GoodGroups, All, EndsWord;
    match t
    case Fraction(_, _, _, _, _, _) =>
      FractionComplete(t, trail);
    case Groups(colon, small) =>
      if colon {
        ColonTailComplete(small, trail);
        ColonStopsReading(t.Text() + trail);
      } else {
        PlainTailComplete(small, trail);
        PlainTailIsForeign(small, trail);
        GroupsEndWord(SMALL, small, trail);
        assert t.Text() == GroupsText(small);
      }
  }

  lemma {:induction false} NoColon(units: seq<Unit>, gs: seq<Option<Piece>>, trail: string)
    requires GoodGroups(units, gs) && All(IsSpace, trail)
    ensures GroupsText(gs) + trail != "" ==> (GroupsText(gs) + trail)[0] != ':'
  {
    if gs == [] {
      assert GroupsText(gs) + trail == trail;
    } else if gs[0].None? {
      NoColon(units[1..], gs[1..], trail);
      assert GroupsText(gs) == GroupsText(gs[1..]);
    } else {
      var p := gs[0].value;
      assert (GroupsText(gs) + trail)[0] == if p.pre != "" then p.pre[0] else p.num[0];
      ClassesAreDisjoint(if p.pre != "" then p.pre[0] else p.num[0]);
    }
  }

  /** Every well-formed specification is read back as the very tree it was spelled from. */
  lemma RecogniseComplete(t: Tree)
    requires t.Good()
    ensures Recognise(t.Yield()) == Some(t)
  {
    UnitsAreDistinct();
    TailComplete(t.tail, t.trail);
    GroupsComplete(LARGE, t.large, t.tail.Text() + t.trail);
  }

  /** The grammar is unambiguous. */
  lemma DerivationIsUnique(t: Tree, u: Tree)
    requires t.Good() && u.Good() && t.Yield() == u.Yield()
    ensures t == u
  {
    RecogniseComplete(t);
    RecogniseComplete(u);
  }
}
