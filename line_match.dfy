/** The single-line regular expressions of the two statement extractors.
    Each has the shape `^DATE\s+(.+?)TAIL$`: a date prefix, a greedy run of
    whitespace, a lazy description and a fixed tail. The regex engine tries the
    longest separator first and, for each, the shortest description after
    which the tail matches the rest of the line; `LazySplit` is that search. */
module LineMatch {
  import opened Wrappers
  import opened Text
  import opened Grammar
  import opened Detect

  /** `$` right after the greedy `(.+)` of a date-and-description line: the
      rest of the line must be empty. It captures nothing. */
  function EndOfLine(r: string): Option<string>
  {
    if r == [] then Some([]) else None
  }

  /** Whether a tail parser matches a string in full. The tail parsers are
      `ValueTail` (Asaas), `IdValueBalanceTail` (MercadoPago) and `EndOfLine`. */
  function Matches(parse: string -> Option<string>): string -> bool
  {
    x => parse(x).Some?
  }

  /** A way to match `\s+(.+?)TAIL$` against `r`, where `tail` says whether
      TAIL matches a string in full: `a` whitespace characters, then a
      description of `p` characters other than the line feed, then the tail. */
  predicate ValidSplit(r: string, tail: string -> bool, a: nat, p: nat)
  {
    1 <= a && 1 <= p && a + p <= |r| && AllSpace(r[..a]) && NoNewline(r[a..a + p]) && tail(r[a + p..])
  }

  /** `.` cannot cross a line feed, so no longer description can match either. */
  lemma NewlineBlocks(r: string, tail: string -> bool, a: nat, p: nat)
    requires 1 <= p && a + p <= |r| && r[a + p - 1] == '\n'
    ensures forall q: nat :: p <= q ==> !ValidSplit(r, tail, a, q)
  {
    forall q: nat | p <= q ensures !ValidSplit(r, tail, a, q) {
      if a + q <= |r| {
        assert r[a..a + q][p - 1] == '\n';
      }
    }
  }

  /** The lazy `(.+?)` for a fixed separator length `a`: the shortest description
      of at least `p` characters after which the tail matches. The empty
      description is never a match, so a search from 0 starts at 1. */
  function ShortestDesc(r: string, tail: string -> bool, a: nat, p: nat): Option<nat>
    requires a <= |r| && a + p <= |r| + 1
    decreases |r| + 1 - (a + p)
  {
    if p == 0 then ShortestDesc(r, tail, a, 1)
    else if a + p > |r| || r[a + p - 1] == '\n' then None
    else if tail(r[a + p..]) then Some(p)
    else ShortestDesc(r, tail, a, p + 1)
  }

  /** Given a separator and a description prefix known to match, the lazy
      search finds the shortest description of at least `p` characters. */
  lemma {:induction false} ShortestDescSpec(r: string, tail: string -> bool, a: nat, p: nat)
    requires 1 <= a <= |r| && a + p <= |r| + 1 && AllSpace(r[..a]) && (p > 0 ==> NoNewline(r[a..a + p - 1]))
    ensures var q := ShortestDesc(r, tail, a, p);
      (q.Some? ==> p <= q.value && ValidSplit(r, tail, a, q.value))
      && forall p': nat :: p <= p' && (q.None? || p' < q.value) ==> !ValidSplit(r, tail, a, p')
    decreases |r| + 1 - (a + p)
  {
    if p == 0 {
      assert r[a..a] == [];
      ShortestDescSpec(r, tail, a, 1);
    } else if a + p > |r| {
    } else if r[a + p - 1] == '\n' {
      NewlineBlocks(r, tail, a, p);
    } else {
      assert r[a..a + p] == r[a..a + p - 1] + [r[a + p - 1]];
      if !tail(r[a + p..]) {
        ShortestDescSpec(r, tail, a, p + 1);
      }
    }
  }

  /** The backtracking `\s+`: separator lengths from `a` down to 1, each with the
      lazy description search. */
  function LazySplitFrom(r: string, tail: string -> bool, a: nat): Option<(nat, nat)>
    requires a <= |r|
    decreases a
  {
    if a == 0 then None
    else match ShortestDesc(r, tail, a, 0)
      case Some(p) => Some((a, p))
      case None => LazySplitFrom(r, tail, a - 1)
  }

  /** The search with separators of at most `a` characters finds the longest
      separator that admits a match, with the shortest description for it. */
  lemma {:induction false} LazySplitFromSpec(r: string, tail: string -> bool, a: nat)
    requires a <= |r| && AllSpace(r[..a])
    ensures var s := LazySplitFrom(r, tail, a);
      (s.Some? ==> s.value.0 <= a && ValidSplit(r, tail, s.value.0, s.value.1))
      && (s.Some? ==> forall p': nat :: p' < s.value.1 ==> !ValidSplit(r, tail, s.value.0, p'))
      && forall b: nat, p': nat :: (if s.Some? then s.value.0 else 0) < b <= a ==> !ValidSplit(r, tail, b, p')
    decreases a
  {
    if a > 0 {
      assert r[..a - 1] == r[..a][..a - 1];
      ShortestDescSpec(r, tail, a, 0);
      if ShortestDesc(r, tail, a, 0).None? {
        LazySplitFromSpec(r, tail, a - 1);
      }
    }
  }

  /** No separator can be longer than the whitespace the line starts with. */
  lemma SeparatorBound(r: string, tail: string -> bool)
    ensures forall b: nat, p: nat :: ValidSplit(r, tail, b, p) ==> b <= SpaceEnd(r, 0)
  {
    var e := SpaceEnd(r, 0);
    forall b: nat, p: nat | ValidSplit(r, tail, b, p) ensures b <= e {
    }
  }

  /** The match `re.match` reports for `\s+(.+?)TAIL$` on `r`: separator
      length and description length; `None` means the line does not match. */
  function LazySplit(r: string, tail: string -> bool): Option<(nat, nat)>
  {
    LazySplitFrom(r, tail, SpaceEnd(r, 0))
  }

  /** The separator found is the longest one that admits a match, and the
      description is the shortest for that separator; `None` only when no
      split matches. */
  lemma LazySplitSpec(r: string, tail: string -> bool)
    ensures var s := LazySplit(r, tail);
      (s.Some? ==> ValidSplit(r, tail, s.value.0, s.value.1))
      && (s.Some? ==> forall b: nat, p: nat :: ValidSplit(r, tail, b, p) ==> b <= s.value.0)
      && (s.Some? ==> forall p: nat :: ValidSplit(r, tail, s.value.0, p) ==> s.value.1 <= p)
      && (s.None? ==> forall b: nat, p: nat :: !ValidSplit(r, tail, b, p))
  {
    var e := SpaceEnd(r, 0);
    assert r[..e] == r[0..e];
    SeparatorBound(r, tail);
    LazySplitFromSpec(r, tail, e);
  }

  /** The longest separator together with the shortest description for it
      is what the search returns. */
  lemma LazySplitIs(r: string, tail: string -> bool, a: nat, p: nat)
    requires ValidSplit(r, tail, a, p)
    requires forall b: nat, q: nat :: ValidSplit(r, tail, b, q) ==> b <= a
    requires forall q: nat :: q < p ==> !ValidSplit(r, tail, a, q)
    ensures LazySplit(r, tail) == Some((a, p))
  {
    LazySplitSpec(r, tail);
    var s := LazySplit(r, tail);
    if s.Some? {
      assert a <= s.value.0;
    }
  }

  // ---------------------------------------------------------------------------
  // Date prefixes

  /** `^\d{1,2}/\d{1,2}/\d{4}` as a prefix of `s`: where the date ends. A digit
      field is always the whole run of digits, since the next character must
      be the slash; the year takes the first four digits of its run. */
  function SlashDateEnd(s: string): (e: Option<nat>)
    ensures e.Some? ==> e.value <= |s|
  {
    var a := DigitEnd(s, 0);
    if 1 <= a <= 2 && a < |s| && s[a] == '/' then
      var b := DigitEnd(s, a + 1);
      if 1 <= b - (a + 1) <= 2 && b < |s| && s[b] == '/' && DigitEnd(s, b + 1) >= b + 5
      then Some(b + 5) else None
    else None
  }

  /** The prefix found is an Asaas date. */
  lemma SlashDateEndSound(s: string)
    requires SlashDateEnd(s).Some?
    ensures SlashDate(s[..SlashDateEnd(s).value])
  {
    var a := DigitEnd(s, 0);
    var b := DigitEnd(s, a + 1);
    var e := b + 5;
    DigitsWithin(s, 0, a);
    assert s[..a] == s[0..a];
    DigitsWithin(s, a + 1, b);
    DigitsWithin(s, b + 1, e);
    SliceAround(s, a, b, e);
    DateShapeOfParts(s[..a], s[a + 1..b], s[b + 1..e], '/', Width(1, 2), Width(1, 2), Width(4, 4));
  }

  /** The date prefix read field by field. */
  lemma SlashDateEndOfParts(s: string, x: string, y: string, z: string)
    requires |x| + |y| + |z| + 2 <= |s| && s[..|x| + |y| + |z| + 2] == x + ['/'] + y + ['/'] + z
    requires Digits(x, Width(1, 2)) && Digits(y, Width(1, 2)) && Digits(z, Width(4, 4))
    ensures SlashDateEnd(s) == Some(|x| + |y| + |z| + 2)
  {
    var a := |x|;
    var b := a + 1 + |y|;
    var e := b + 5;
    DatePieces(x, y, z);
    SliceOfPrefix(s, e, 0, a);
    SliceOfPrefix(s, e, a + 1, b);
    SliceOfPrefix(s, e, b + 1, e);
    assert s[a] == s[..e][a] && s[b] == s[..e][b];
    SlashDateEndOfSlices(s, a, b);
  }

  /** The date prefix from its digit runs and slashes, read off `s` itself. */
  lemma SlashDateEndOfSlices(s: string, a: nat, b: nat)
    requires 1 <= a <= 2 && a + 2 <= b <= a + 3 && b + 5 <= |s|
    requires AllDigits(s[0..a]) && s[a] == '/' && AllDigits(s[a + 1..b]) && s[b] == '/' && AllDigits(s[b + 1..b + 5])
    ensures SlashDateEnd(s) == Some(b + 5)
  {
    DigitEndIs(s, 0, a);
    DigitEndIs(s, a + 1, b);
    DigitEndAtLeast(s, b + 1, b + 5);
    SlashDateEndAt(s, a, b);
  }

  /** Where the fields of `x/y/z` sit. */
  lemma DatePieces(x: string, y: string, z: string)
    ensures var w := x + ['/'] + y + ['/'] + z; var a := |x|; var b := a + 1 + |y|;
      w[0..a] == x && w[a] == '/' && w[a + 1..b] == y && w[b] == '/' && w[b + 1..] == z
  {
  }

  /** The date prefix once its digit runs are known. */
  lemma SlashDateEndAt(s: string, a: nat, b: nat)
    requires 1 <= a <= 2 && a < |s| && s[a] == '/' && DigitEnd(s, 0) == a
    requires a + 1 < b <= a + 3 && b < |s| && s[b] == '/' && DigitEnd(s, a + 1) == b
    requires DigitEnd(s, b + 1) >= b + 5
    ensures SlashDateEnd(s) == Some(b + 5)
  {
  }

  /** A line that starts with an Asaas date has that date as its prefix. */
  lemma SlashDateEndOf(s: string, e: nat)
    requires e <= |s| && SlashDate(s[..e])
    ensures SlashDateEnd(s) == Some(e)
  {
    var d := s[..e];
    DateShapeParts(d, '/', Width(1, 2), Width(1, 2), Width(4, 4));
    var f := Split(d, '/');
    SlashDateEndOfParts(s, f[0], f[1], f[2]);
  }

  // ---------------------------------------------------------------------------
  // The captures

  /** Date, description and cleaned amount of a matched line. */
  datatype Capture = Capture(date: string, description: string, value: string)

  /** `^DATE\s+(.+?)TAIL$` once the date is known to end at `e`. */
  function DescAndTail(line: string, e: nat, parse: string -> Option<string>): Option<Capture>
    requires e <= |line|
  {
    var r := line[e..];
    match LazySplit(r, Matches(parse))
    case None => None
    case Some((a, p)) =>
      if a + p <= |r| then
        match parse(r[a + p..])
        case Some(v) => Some(Capture(line[..e], r[a..a + p], v))
        case None => None
      else None
  }

  /** The search's answer is a match. */
  lemma SplitFound(r: string, tail: string -> bool)
    requires LazySplit(r, tail).Some?
    ensures var (a, p) := LazySplit(r, tail).value; ValidSplit(r, tail, a, p)
  {
    LazySplitSpec(r, tail);
  }

  lemma MatchesParses(parse: string -> Option<string>, x: string) returns (v: string)
    requires Matches(parse)(x)
    ensures parse(x) == Some(v)
  {
    v := parse(x).value;
  }

  lemma DescAndTailOf(line: string, e: nat, parse: string -> Option<string>, a: nat, p: nat, v: string)
    requires e <= |line| && LazySplit(line[e..], Matches(parse)) == Some((a, p))
    requires a + p <= |line[e..]| && parse(line[e..][a + p..]) == Some(v)
    ensures DescAndTail(line, e, parse) == Some(Capture(line[..e], line[e..][a..a + p], v))
  {
  }

  /** The capture is the date, the description the search cut, and what the
      tail parsed; it exists exactly when the search succeeds. */
  lemma DescAndTailSpec(line: string, e: nat, parse: string -> Option<string>)
    requires e <= |line|
    ensures DescAndTail(line, e, parse).Some? <==> LazySplit(line[e..], Matches(parse)).Some?
    ensures DescAndTail(line, e, parse).Some? ==>
      var r := line[e..];
      var (a, p) := LazySplit(r, Matches(parse)).value;
      var c := DescAndTail(line, e, parse).value;
      0 < a && a + p <= |r| && c.date == line[..e] && c.description == r[a..a + p]
      && c.description != [] && NoNewline(c.description) && parse(r[a + p..]) == Some(c.value)
  {
    var r := line[e..];
    match LazySplit(r, Matches(parse))
    case None =>
    case Some((a, p)) =>
      SplitFound(r, Matches(parse));
      var v := MatchesParses(parse, r[a + p..]);
      DescAndTailOf(line, e, parse, a, p, v);
  }

  /** `mercadopago_pattern`: `^(\d{2}-\d{2}-\d{4})\s+(.+?)\s+(\d+)\s+(MONEY)\s+(MONEY)$`. */
  function MatchMercadoPago(line: string): Option<Capture>
  {
    if DateAt(line, '-') then DescAndTail(line, 10, IdValueBalanceTail) else None
  }

  /** `alt_pattern`: `^(\d{2}-\d{2}-\d{4})\s+(\d+)\s+(MONEY)\s+(MONEY)$`, the
      MercadoPago line whose description sits on the line before. Yields date and value. */
  function MatchMercadoPagoAlt(line: string): Option<(string, string)>
  {
    if DateAt(line, '-') then
      match IdValueBalanceTail(line[10..])
      case None => None
      case Some(v) => Some((line[..10], v))
    else None
  }

  /** `date_pattern`: `^(\d{1,2}/\d{1,2}/\d{4})\s+(.+?)\s+(MONEY)$`. */
  function MatchAsaas(line: string): Option<Capture>
  {
    match SlashDateEnd(line)
    case None => None
    case Some(e) => DescAndTail(line, e, ValueTail)
  }

  /** `date_desc_pattern`: `^(\d{1,2}/\d{1,2}/\d{4})\s+(.+)$`. Yields date and description. */
  function MatchDateDesc(line: string): Option<(string, string)>
  {
    match SlashDateEnd(line)
    case None => None
    case Some(e) =>
      match DescAndTail(line, e, EndOfLine)
      case None => None
      case Some(c) => Some((c.date, c.description))
  }

  /** `value_pattern`: `^R\$\s*([+-]?AMOUNT)$`. Yields the amount. */
  function MatchValue(line: string): Option<string>
  {
    Money(line)
  }

  /** `date_value_pattern`: `^(\d{1,2}/\d{1,2}/\d{4})\s+R\$\s*([+-]?AMOUNT)$`.
      Yields date and amount. */
  function MatchDateValue(line: string): Option<(string, string)>
  {
    match SlashDateEnd(line)
    case None => None
    case Some(e) =>
      match ValueTail(line[e..])
      case None => None
      case Some(v) => Some((line[..e], v))
  }

  // What the captures are

  lemma MercadoPagoSound(line: string)
    requires MatchMercadoPago(line).Some?
    ensures var c := MatchMercadoPago(line).value;
      DashDate(c.date) && c.description != [] && NoNewline(c.description) && SignedAmount(c.value)
  {
    DateAtShape(line, '-');
    DescAndTailSpec(line, 10, IdValueBalanceTail);
  }

  lemma MercadoPagoAltSound(line: string)
    requires MatchMercadoPagoAlt(line).Some?
    ensures var (date, value) := MatchMercadoPagoAlt(line).value; DashDate(date) && SignedAmount(value)
  {
    DateAtShape(line, '-');
  }

  lemma AsaasSound(line: string)
    requires MatchAsaas(line).Some?
    ensures var c := MatchAsaas(line).value;
      SlashDate(c.date) && c.description != [] && NoNewline(c.description) && SignedAmount(c.value)
  {
    SlashDateEndSound(line);
    DescAndTailSpec(line, SlashDateEnd(line).value, ValueTail);
  }

  /** The greedy `(.+)` takes the whole rest of the line after the separator. */
  lemma DateDescSound(line: string)
    requires MatchDateDesc(line).Some?
    ensures var (date, desc) := MatchDateDesc(line).value;
      SlashDate(date) && desc != [] && NoNewline(desc) && EndsWith(line, desc)
  {
    SlashDateEndSound(line);
    var e := SlashDateEnd(line).value;
    DescAndTailSpec(line, e, EndOfLine);
    var r := line[e..];
    var (a, p) := LazySplit(r, Matches(EndOfLine)).value;
    DescEndsLine(line, e, a, p);
  }

  /** A description followed by nothing ends the line. */
  lemma DescEndsLine(line: string, e: nat, a: nat, p: nat)
    requires e + a + p <= |line| && EndOfLine(line[e..][a + p..]).Some?
    ensures EndsWith(line, line[e..][a..a + p])
  {
    SliceOfSuffix(line, e, a + p);
    assert e + a + p == |line|;
    assert line[e..][a..a + p] == line[e + a..];
  }

  lemma DateValueSound(line: string)
    requires MatchDateValue(line).Some?
    ensures var (date, value) := MatchDateValue(line).value; SlashDate(date) && SignedAmount(value)
  {
    SlashDateEndSound(line);
  }

  /** `desc_pattern`: `^(.+)$`, a non-empty line without a line feed. */
  function MatchDesc(line: string): Option<string>
  {
    if line != [] && NoNewline(line) then Some(line) else None
  }

  /** `re.match(r'^\d{1,2}/\d{1,2}/\d{4}', line)`. */
  predicate StartsWithSlashDate(line: string)
  {
    SlashDateEnd(line).Some?
  }

  // ---------------------------------------------------------------------------
  // Reading back lines assembled from their parts

  /** When the tail matches right after `desc` and after no shorter cut of
      it, the search splits `w0 + desc + rest` at `desc`. */
  lemma SplitAtDesc(r: string, tail: string -> bool, w0: string, desc: string, rest: string)
    requires r == w0 + desc + rest
    requires w0 != [] && AllSpace(w0) && desc != [] && !IsSpace(desc[0]) && NoNewline(desc)
    requires tail(rest)
    requires forall q: nat :: 1 <= q < |desc| ==> !tail(desc[q..] + rest)
    ensures LazySplit(r, tail) == Some((|w0|, |desc|))
  {
    var a := |w0|;
    SliceParts(w0, desc, rest);
    assert r[a] == desc[0];
    SpaceEndIs(r, 0, a);
    SeparatorBound(r, tail);
    forall q: nat | q < |desc| ensures !ValidSplit(r, tail, a, q) {
      if 1 <= q {
        assert r[a + q..] == desc[q..] + rest;
      }
    }
    LazySplitIs(r, tail, a, |desc|);
  }

  /** The description a line is built with must not start or end with whitespace
      (the separators would absorb it) and must not hold a line feed. */
  predicate Description(desc: string)
  {
    desc != [] && !IsSpace(desc[0]) && !IsSpace(desc[|desc| - 1]) && NoNewline(desc)
  }

  predicate Gap(w: string)
  {
    w != [] && AllSpace(w)
  }

  /** A tail that never holds more than `n` words, with at least `n` words
      after the gap that follows `desc`: every shorter description would leave
      one word too many, so the search cuts at `desc`. */
  lemma SplitByWords(tail: string -> bool, n: nat, w0: string, desc: string, w1: string, z: string)
    requires forall x :: tail(x) ==> |Words(x)| <= n
    requires Gap(w0) && Description(desc) && Gap(w1) && |Words(z)| >= n && tail(w1 + z)
    ensures LazySplit(w0 + desc + (w1 + z), tail) == Some((|w0|, |desc|))
  {
    forall q: nat | 1 <= q < |desc| ensures !tail(desc[q..] + (w1 + z)) {
      assert desc[q..] + (w1 + z) == desc[q..] + w1 + z;
      WordsAfterCut(desc, q, w1, z);
    }
    SplitAtDesc(w0 + desc + (w1 + z), tail, w0, desc, w1 + z);
  }

  /** What the tails can hold: an Asaas value tail at most two words, a
      MercadoPago id, value and balance tail at most five. */
  lemma TailWordBounds()
    ensures forall x :: Matches(ValueTail)(x) ==> |Words(x)| <= 2
    ensures forall x :: Matches(IdValueBalanceTail)(x) ==> |Words(x)| <= 5
  {
    forall x | Matches(ValueTail)(x) ensures |Words(x)| <= 2 {
      ValueTailWords(x);
    }
    forall x | Matches(IdValueBalanceTail)(x) ensures |Words(x)| <= 5 {
      IdValueBalanceTailWords(x);
    }
  }

  /** The Asaas value tail `\s+R\$\s*AMOUNT` built from its parts. */
  lemma ValueTailOfGaps(w1: string, g: string, v: string)
    requires Gap(w1) && Gap(g) && SignedAmount(v)
    ensures ValueTail(w1 + ("R$" + g + v)) == Some(v)
    ensures |Words("R$" + g + v)| == 2
  {
    SignedAmountChars(v);
    MoneyOfParts(g, v);
    ValueTailOfParts(w1, "R$" + g + v);
    MoneyGapWords(g, v);
  }

  /** Reading the captures once the search has cut the rest of the line. */
  lemma DescAndTailAt(line: string, e: nat, parse: string -> Option<string>, w0: string, desc: string, rest: string)
    requires e <= |line| && line[e..] == w0 + desc + rest
    requires LazySplit(line[e..], Matches(parse)) == Some((|w0|, |desc|)) && parse(rest).Some?
    ensures DescAndTail(line, e, parse) == Some(Capture(line[..e], desc, parse(rest).value))
  {
    SliceParts(w0, desc, rest);
    LazySplitSpec(line[e..], Matches(parse));
  }

  /** `date_pattern` reads back the date, description and amount of a line
      `DATE  DESCRIPTION  R$ AMOUNT` (any non-empty runs of whitespace between
      the parts, and after `R$`). */
  lemma AsaasLineOfParts(date: string, w0: string, desc: string, w1: string, g: string, v: string)
    requires SlashDate(date) && Gap(w0) && Description(desc) && Gap(w1) && Gap(g) && SignedAmount(v)
    ensures MatchAsaas(date + w0 + desc + w1 + "R$" + g + v) == Some(Capture(date, desc, v))
  {
    var m := "R$" + g + v;
    var rest := w1 + m;
    var line := date + w0 + desc + w1 + "R$" + g + v;
    assert line == date + (w0 + desc + rest);
    assert line[..|date|] == date && line[|date|..] == w0 + desc + rest;
    SlashDateEndOf(line, |date|);
    ValueTailOfGaps(w1, g, v);
    TailWordBounds();
    SplitByWords(Matches(ValueTail), 2, w0, desc, w1, m);
    DescAndTailAt(line, |date|, ValueTail, w0, desc, rest);
  }

  /** A MercadoPago date is ten characters, so a line starting with one
      passes the ten-character date test. */
  lemma DashDatePrefix(date: string, rest: string)
    requires DashDate(date)
    ensures |date| == 10 && DateAt(date + rest, '-') && (date + rest)[..10] == date
  {
    DateShapeParts(date, '-', Width(2, 2), Width(2, 2), Width(4, 4));
    DateAtShape(date + rest, '-');
  }

  /** `R$ VALUE  R$ BALANCE` built from its parts. */
  lemma MoneyPairOfGaps(g1: string, v: string, w3: string, g2: string, b: string)
    requires Gap(g1) && SignedAmount(v) && Gap(w3) && Gap(g2) && SignedAmount(b)
    ensures MoneyPair("R$" + g1 + v + w3 + ("R$" + g2 + b)) == Some(v)
  {
    MoneyOfParts(g2, b);
    MoneyPairOfParts(g1, v, w3, "R$" + g2 + b);
  }

  /** The MercadoPago tail `\s+\d+\s+R\$\s*VALUE\s+R\$\s*BALANCE` built from its parts. */
  lemma IdValueBalanceTailOfGaps(w1: string, id: string, w2: string, pair: string)
    requires Gap(w1) && id != [] && AllDigits(id) && Gap(w2) && pair != [] && pair[0] == 'R'
    ensures IdValueBalanceTail(w1 + (id + w2 + pair)) == MoneyPair(pair)
  {
    var r := w1 + id + w2 + pair;
    assert w1 + (id + w2 + pair) == r;
    assert !IsSpace(pair[0]);
    IdValueBalanceTailOfParts(w1, id, w2, pair);
  }

  /** The operation id, `R$`, the value, `R$` and the balance: five words. */
  lemma IdValueBalanceWords(id: string, w2: string, g1: string, v: string, w3: string, g2: string, b: string)
    requires id != [] && AllDigits(id) && Gap(w2) && Gap(g1) && v != [] && NoSpace(v)
    requires Gap(w3) && Gap(g2) && b != [] && NoSpace(b)
    ensures |Words(id + w2 + ("R$" + g1 + v + w3 + ("R$" + g2 + b)))| == 5
  {
    var m1 := "R$" + g1 + v;
    var m2 := "R$" + g2 + b;
    MoneyGapWords(g1, v);
    MoneyGapWords(g2, b);
    WordsGap(m1, w3, m2);
    DigitsNoSpace(id);
    WordsOfToken(id);
    WordsGap(id, w2, m1 + w3 + m2);
  }

  /** `mercadopago_pattern` reads back the date, description and value of a line
      `DATE  DESCRIPTION  ID  R$ VALUE  R$ BALANCE` (any non-empty runs of
      whitespace between the parts, and after each `R$`). */
  lemma MercadoPagoLineOfParts(date: string, w0: string, desc: string, w1: string, id: string,
                               w2: string, g1: string, v: string, w3: string, g2: string, b: string)
    requires DashDate(date) && Gap(w0) && Description(desc)
    requires Gap(w1) && id != [] && AllDigits(id) && Gap(w2) && Gap(g1) && SignedAmount(v)
    requires Gap(w3) && Gap(g2) && SignedAmount(b)
    ensures MatchMercadoPago(date + w0 + desc + w1 + id + w2 + "R$" + g1 + v + w3 + "R$" + g2 + b)
         == Some(Capture(date, desc, v))
  {
    var z := id + w2 + ("R$" + g1 + v + w3 + ("R$" + g2 + b));
    var rest := w1 + z;
    var line := date + w0 + desc + w1 + id + w2 + "R$" + g1 + v + w3 + "R$" + g2 + b;
    assert line == date + (w0 + desc + rest);
    DashDatePrefix(date, w0 + desc + rest);
    assert line[10..] == w0 + desc + rest;
    MoneyPairOfGaps(g1, v, w3, g2, b);
    IdValueBalanceTailOfGaps(w1, id, w2, "R$" + g1 + v + w3 + ("R$" + g2 + b));
    SignedAmountChars(v);
    SignedAmountChars(b);
    IdValueBalanceWords(id, w2, g1, v, w3, g2, b);
    TailWordBounds();
    SplitByWords(Matches(IdValueBalanceTail), 5, w0, desc, w1, z);
    DescAndTailAt(line, 10, IdValueBalanceTail, w0, desc, rest);
  }

  /** `alt_pattern` reads back the date and value of a line
      `DATE  ID  R$ VALUE  R$ BALANCE`. */
  lemma MercadoPagoAltLineOfParts(date: string, w1: string, id: string, w2: string, g1: string, v: string,
                                  w3: string, g2: string, b: string)
    requires DashDate(date)
    requires Gap(w1) && id != [] && AllDigits(id) && Gap(w2) && Gap(g1) && SignedAmount(v)
    requires Gap(w3) && Gap(g2) && SignedAmount(b)
    ensures MatchMercadoPagoAlt(date + w1 + id + w2 + "R$" + g1 + v + w3 + "R$" + g2 + b) == Some((date, v))
  {
    var pair := "R$" + g1 + v + w3 + ("R$" + g2 + b);
    var rest := w1 + (id + w2 + pair);
    var line := date + w1 + id + w2 + "R$" + g1 + v + w3 + "R$" + g2 + b;
    assert line == date + rest;
    DashDatePrefix(date, rest);
    assert line[10..] == rest;
    MoneyPairOfGaps(g1, v, w3, g2, b);
    IdValueBalanceTailOfGaps(w1, id, w2, pair);
  }

  /** `$` right after the description: only the empty rest matches. */
  lemma EndOfLineMatches(x: string)
    ensures Matches(EndOfLine)(x) <==> x == []
  {
    assert Matches(EndOfLine)(x) == EndOfLine(x).Some?;
  }

  /** `date_desc_pattern` reads back the date and the rest of a line
      `DATE  DESCRIPTION`; here the description may end in anything. */
  lemma DateDescLineOfParts(date: string, w0: string, desc: string)
    requires SlashDate(date) && Gap(w0) && desc != [] && !IsSpace(desc[0]) && NoNewline(desc)
    ensures MatchDateDesc(date + w0 + desc) == Some((date, desc))
  {
    var line := date + w0 + desc;
    var r := w0 + desc + [];
    assert line == date + r;
    assert line[..|date|] == date && line[|date|..] == r;
    SlashDateEndOf(line, |date|);
    var tail := Matches(EndOfLine);
    EndOfLineMatches([]);
    forall q: nat | 1 <= q < |desc| ensures !tail(desc[q..] + []) {
      EndOfLineMatches(desc[q..] + []);
    }
    SplitAtDesc(r, tail, w0, desc, []);
    DescAndTailAt(line, |date|, EndOfLine, w0, desc, []);
  }

  /** `date_value_pattern` reads back the date and amount of a line
      `DATE  R$ AMOUNT` (the gap after `R$` may be empty). */
  lemma DateValueLineOfParts(date: string, w0: string, g: string, v: string)
    requires SlashDate(date) && Gap(w0) && AllSpace(g) && SignedAmount(v)
    ensures MatchDateValue(date + w0 + "R$" + g + v) == Some((date, v))
  {
    var m := "R$" + g + v;
    var line := date + w0 + "R$" + g + v;
    assert line == date + (w0 + m);
    assert line[..|date|] == date && line[|date|..] == w0 + m;
    SlashDateEndOf(line, |date|);
    MoneyOfParts(g, v);
    ValueTailOfParts(w0, m);
  }
}
