/** The small fixed grammars that the converter's regular expressions spell out:
    digit fields, the three-field date shapes, the thousands-grouped amount
    `\d{1,3}(\.\d{3})*(,\d{2})?` and the money tails that end the statement
    lines. Each recogniser matches a whole string, as an anchored regex does. */
module Grammar {
  import opened Text
  import opened Wrappers

  /** Allowed length of a digit field, `\d{lo,hi}`. */
  datatype Width = Width(lo: nat, hi: nat)

  /** `s` matches `\d{lo,hi}` in full. */
  predicate Digits(s: string, w: Width)
  {
    w.lo <= |s| <= w.hi && AllDigits(s)
  }

  /** Three digit fields separated by `sep`; `\d{1,2}/\d{1,2}/\d{4}` is
      `DateShape(s, '/', Width(1, 2), Width(1, 2), Width(4, 4))`. */
  predicate DateShape(s: string, sep: char, a: Width, b: Width, c: Width)
  {
    var f := Split(s, sep);
    |f| == 3 && Digits(f[0], a) && Digits(f[1], b) && Digits(f[2], c)
  }

  /** `\d{2}-\d{2}-\d{4}`: the MercadoPago date. */
  predicate DashDate(s: string)
  {
    DateShape(s, '-', Width(2, 2), Width(2, 2), Width(4, 4))
  }

  /** `\d{2}/\d{2}/\d{4}`: the date the format detector counts for Asaas. */
  predicate SlashDate2(s: string)
  {
    DateShape(s, '/', Width(2, 2), Width(2, 2), Width(4, 4))
  }

  /** `\d{1,2}/\d{1,2}/\d{4}`: the Asaas date. */
  predicate SlashDate(s: string)
  {
    DateShape(s, '/', Width(1, 2), Width(1, 2), Width(4, 4))
  }

  lemma {:induction false} SplitAppend(x: string, sep: char, rest: string)
    requires sep !in x
    ensures Split(x + [sep] + rest, sep) == [x] + Split(rest, sep)
    decreases |x|
  {
    if |x| == 0 {
      assert x + [sep] + rest == [sep] + rest;
    } else {
      assert (x + [sep] + rest)[1..] == x[1..] + [sep] + rest;
      SplitAppend(x[1..], sep, rest);
      assert x == [x[0]] + x[1..];
    }
  }

  lemma DigitsNoSep(x: string, w: Width, sep: char)
    requires Digits(x, w) && !IsDigit(sep)
    ensures sep !in x
  {
    forall i | 0 <= i < |x| ensures x[i] != sep {
      assert IsDigit(x[i]);
    }
  }

  /** A date shape is three digit fields joined by the separator... */
  lemma DateShapeParts(s: string, sep: char, a: Width, b: Width, c: Width)
    requires DateShape(s, sep, a, b, c)
    ensures var f := Split(s, sep); s == f[0] + [sep] + f[1] + [sep] + f[2]
  {
    var f := Split(s, sep);
    JoinSplit(s, sep);
    assert Join(f, [sep]) == f[0] + [sep] + Join(f[1..], [sep]);
    assert Join(f[1..], [sep]) == f[1] + [sep] + f[2];
  }

  /** ... and any three digit fields joined by it form the shape. */
  lemma DateShapeOfParts(x: string, y: string, z: string, sep: char, a: Width, b: Width, c: Width)
    requires !IsDigit(sep)
    requires Digits(x, a) && Digits(y, b) && Digits(z, c)
    ensures Split(x + [sep] + y + [sep] + z, sep) == [x, y, z]
    ensures DateShape(x + [sep] + y + [sep] + z, sep, a, b, c)
  {
    DigitsNoSep(x, a, sep);
    DigitsNoSep(y, b, sep);
    DigitsNoSep(z, c, sep);
    SplitAppend(y, sep, z);
    SplitWithoutSep(z, sep);
    assert x + [sep] + y + [sep] + z == x + [sep] + (y + [sep] + z);
    SplitAppend(x, sep, y + [sep] + z);
  }

  /** A date shape holds no whitespace (and so survives `strip` unchanged). */
  lemma DateShapeNoSpace(s: string, sep: char, a: Width, b: Width, c: Width)
    requires !IsDigit(sep) && !IsSpace(sep)
    requires DateShape(s, sep, a, b, c)
    ensures NoSpace(s) && |s| >= 2
  {
    DateShapeParts(s, sep, a, b, c);
    var f := Split(s, sep);
    var x, y, z := f[0], f[1], f[2];
    forall i | 0 <= i < |s| ensures !IsSpace(s[i]) {
      if i < |x| { assert s[i] == x[i]; }
      else if i == |x| { }
      else if i < |x| + 1 + |y| { assert s[i] == y[i - |x| - 1]; }
      else if i == |x| + 1 + |y| { }
      else { assert s[i] == z[i - |x| - 2 - |y|]; }
    }
  }

  // ---------------------------------------------------------------------------
  // Amounts

  /** `\d{1,3}(<sep>\d{3})*`: an integer with its thousands grouped by `sep`. */
  predicate Grouped(s: string, sep: char)
    decreases |s|
  {
    (1 <= |s| <= 3 && AllDigits(s))
    || (|s| >= 5 && s[|s| - 4] == sep && AllDigits(s[|s| - 3..]) && Grouped(s[..|s| - 4], sep))
  }

  /** `s` ends in `<dec>\d{2}` after a non-empty head, namely `s[..|s| - 3]`. */
  predicate HasCents(s: string, dec: char)
  {
    |s| >= 4 && s[|s| - 3] == dec && AllDigits(s[|s| - 2..])
  }

  /** `\d{1,3}(\.\d{3})*(,\d{2})?`: the amount every statement grammar uses. */
  predicate Amount(s: string)
  {
    Grouped(s, '.') || (HasCents(s, ',') && Grouped(s[..|s| - 3], '.'))
  }

  /** `[+-]?\d{1,3}(\.\d{3})*(,\d{2})?`. */
  predicate SignedAmount(s: string)
  {
    Amount(s) || (|s| > 0 && (s[0] == '+' || s[0] == '-') && Amount(s[1..]))
  }

  /** The characters an amount is made of. */
  predicate IsNumberChar(c: char)
  {
    IsDigit(c) || c == ',' || c == '.' || c == '-' || c == '+'
  }

  predicate NumberChars(s: string)
  {
    forall i :: 0 <= i < |s| ==> IsNumberChar(s[i])
  }

  lemma {:induction false} GroupedChars(s: string)
    requires Grouped(s, '.')
    ensures |s| > 0 && IsDigit(s[0])
    ensures forall i :: 0 <= i < |s| ==> IsDigit(s[i]) || s[i] == '.'
    decreases |s|
  {
    if !(1 <= |s| <= 3 && AllDigits(s)) {
      var h := s[..|s| - 4];
      GroupedChars(h);
      forall i | 0 <= i < |s| ensures IsDigit(s[i]) || s[i] == '.' {
        if i < |s| - 4 { assert s[i] == h[i]; }
        else if i > |s| - 4 { assert s[i] == s[|s| - 3..][i - (|s| - 3)]; }
      }
      assert s[0] == h[0];
    }
  }

  lemma AmountChars(s: string)
    requires Amount(s)
    ensures |s| > 0 && IsDigit(s[0])
    ensures forall i :: 0 <= i < |s| ==> IsDigit(s[i]) || s[i] == '.' || s[i] == ','
  {
    if Grouped(s, '.') {
      GroupedChars(s);
    } else {
      var h := s[..|s| - 3];
      GroupedChars(h);
      forall i | 0 <= i < |s| ensures IsDigit(s[i]) || s[i] == '.' || s[i] == ',' {
        if i < |s| - 3 { assert s[i] == h[i]; }
        else if i > |s| - 3 { assert s[i] == s[|s| - 2..][i - (|s| - 2)]; }
      }
      assert s[0] == h[0];
    }
  }

  /** A signed amount is a non-empty word of number characters that does not
      start with whitespace, so a greedy `\s*` in front of it stops at its
      first character. */
  lemma SignedAmountChars(s: string)
    requires SignedAmount(s)
    ensures s != [] && NumberChars(s) && NoSpace(s)
  {
    if Amount(s) {
      AmountChars(s);
    } else {
      AmountChars(s[1..]);
      forall i | 0 < i < |s| ensures IsNumberChar(s[i]) {
        assert s[i] == s[1..][i - 1];
      }
    }
  }

  // ---------------------------------------------------------------------------
  // The money tails that close the statement lines. The cut functions find the
  // positions where the greedy quantifiers stop; the others read the captures.

  /** Where the amount starts in a string that opens with `R\$\s*`. */
  function MoneyCut(s: string): (j: Option<nat>)
    ensures j.Some? <==> |s| >= 2 && s[0] == 'R' && s[1] == '$'
    ensures j.Some? ==> 2 <= j.value <= |s| && AllSpace(s[2..j.value])
    ensures j.Some? ==> j.value == |s| || !IsSpace(s[j.value])
  {
    if |s| >= 2 && s[0] == 'R' && s[1] == '$' then Some(SpaceEnd(s, 2)) else None
  }

  /** `R\$\s*([+-]?\d{1,3}(?:\.\d{3})*(?:,\d{2})?)`, matched in full. Returns
      the captured amount, which is also what remains after `re.sub(r'R\$\s*', '', ...)`. */
  function Money(s: string): (v: Option<string>)
    ensures v.Some? ==> SignedAmount(v.value) && EndsWith(s, v.value)
    ensures v.Some? ==> |s| >= 2 && s[0] == 'R' && s[1] == '$'
    ensures v.Some? ==> |v.value| <= |s| - 2 && AllSpace(s[2..|s| - |v.value|])
    ensures v.Some? ==> MoneyCut(s) == Some(|s| - |v.value|)
  {
    match MoneyCut(s)
    case None => None
    case Some(j) => if SignedAmount(s[j..]) then Some(s[j..]) else None
  }

  /** Where the leading `\s+` ends, if there is any whitespace. */
  function LeadCut(r: string): (a: Option<nat>)
    ensures a.Some? ==> 0 < a.value <= |r| && AllSpace(r[..a.value])
    ensures a.Some? ==> a.value == |r| || !IsSpace(r[a.value])
    ensures a.None? <==> r == [] || !IsSpace(r[0])
  {
    var a := SpaceEnd(r, 0);
    assert r[..a] == r[0..a];
    if a == 0 then None else Some(a)
  }

  /** `\s+(R\$\s*AMOUNT)$`: what follows the description of an Asaas line.
      Returns the cleaned amount. */
  function ValueTail(r: string): (v: Option<string>)
    ensures v.Some? ==> SignedAmount(v.value)
  {
    match LeadCut(r)
    case None => None
    case Some(a) => Money(r[a..])
  }

  /** Where value, gap and balance start in `R\$\s*VALUE\s+REST`. */
  function PairCut(s: string): (c: Option<(nat, nat, nat)>)
    ensures c.Some? ==> MoneyCut(s) == Some(c.value.0)
    ensures c.Some? ==> c.value.0 <= c.value.1 < c.value.2 <= |s|
    ensures c.Some? ==> NoSpace(s[c.value.0..c.value.1]) && AllSpace(s[c.value.1..c.value.2])
    ensures c.Some? ==> c.value.2 == |s| || !IsSpace(s[c.value.2])
  {
    match MoneyCut(s)
    case None => None
    case Some(j) =>
      var e := NonSpaceEnd(s, j);
      var k := SpaceEnd(s, e);
      if k == e then None else Some((j, e, k))
  }

  /** The value word and the balance text of `R\$\s*VALUE\s+REST`. */
  function PairParts(s: string): (p: Option<(string, string)>)
    ensures p.Some? ==> p.value.0 != [] && NoSpace(p.value.0) && |p.value.1| < |s|
  {
    match PairCut(s)
    case None => None
    case Some((j, e, k)) => if j < e then Some((s[j..e], s[k..])) else None
  }

  /** `(R\$\s*AMOUNT)\s+(R\$\s*AMOUNT)$`: value then balance. Returns the value. */
  function MoneyPair(s: string): (v: Option<string>)
    ensures v.Some? ==> SignedAmount(v.value)
  {
    match PairParts(s)
    case None => None
    case Some((v, rest)) => if SignedAmount(v) && Money(rest).Some? then Some(v) else None
  }

  /** Where the value/balance pair starts in `\s+\d+\s+REST`. */
  function IdCut(r: string): (k: Option<nat>)
    ensures k.Some? ==> k.value <= |r|
  {
    var a := SpaceEnd(r, 0);
    var d := DigitEnd(r, a);
    var b := SpaceEnd(r, d);
    if a == 0 || d == a || b == d then None else Some(b)
  }

  /** `\s+(\d+)\s+(R\$\s*AMOUNT)\s+(R\$\s*AMOUNT)$`: operation id, value and
      balance after a MercadoPago description. Returns the cleaned value. */
  function IdValueBalanceTail(r: string): (v: Option<string>)
    ensures v.Some? ==> SignedAmount(v.value)
  {
    match IdCut(r)
    case None => None
    case Some(k) => MoneyPair(r[k..])
  }

  // ---------------------------------------------------------------------------
  // Assembling the tails from their parts (the converse direction)

  lemma MoneyCutAt(s: string, i: nat)
    requires |s| >= 2 && s[0] == 'R' && s[1] == '$'
    requires 2 <= i <= |s| && AllSpace(s[2..i]) && (i == |s| || !IsSpace(s[i]))
    ensures MoneyCut(s) == Some(i)
  {
    SpaceEndIs(s, 2, i);
  }

  /** `"R$" + spaces + amount` is recognised as money with that amount. */
  lemma MoneyOfParts(w: string, t: string)
    requires AllSpace(w) && SignedAmount(t)
    ensures Money("R$" + w + t) == Some(t)
  {
    var s := "R$" + w + t;
    SignedAmountChars(t);
    assert s[2..2 + |w|] == w;
    assert s[2 + |w|] == t[0];
    MoneyCutAt(s, 2 + |w|);
    assert s[2 + |w|..] == t;
  }

  lemma ValueTailOfParts(v1: string, m: string)
    requires v1 != [] && AllSpace(v1) && Money(m).Some?
    ensures ValueTail(v1 + m) == Money(m)
  {
    var r := v1 + m;
    assert r[0..|v1|] == v1;
    assert r[|v1|] == m[0];
    SpaceEndIs(r, 0, |v1|);
    assert r[|v1|..] == m;
  }

  /** The cut positions are determined by where the runs stop. */
  lemma PairCutAt(s: string, i: nat, j: nat, k: nat)
    requires |s| >= 2 && s[0] == 'R' && s[1] == '$'
    requires 2 <= i <= j < k <= |s|
    requires AllSpace(s[2..i]) && NoSpace(s[i..j]) && AllSpace(s[j..k])
    requires !IsSpace(s[i]) && IsSpace(s[j]) && (k == |s| || !IsSpace(s[k]))
    ensures PairCut(s) == Some((i, j, k))
  {
    MoneyCutAt(s, i);
    NonSpaceEndIs(s, i, j);
    SpaceEndIs(s, j, k);
  }

  lemma PairCutOfParts(w1: string, v: string, w2: string, m: string)
    requires AllSpace(w1) && v != [] && NoSpace(v) && w2 != [] && AllSpace(w2)
    requires m == [] || !IsSpace(m[0])
    ensures var i := 2 + |w1|; var j := i + |v|;
      PairCut("R$" + w1 + v + w2 + m) == Some((i, j, j + |w2|))
  {
    var s := "R$" + w1 + v + w2 + m;
    var i := 2 + |w1|;
    var j := i + |v|;
    var k := j + |w2|;
    assert s[2..i] == w1;
    assert s[i] == v[0];
    assert s[i..j] == v;
    assert s[j] == w2[0];
    assert s[j..k] == w2;
    if m != [] { assert s[k] == m[0]; }
    PairCutAt(s, i, j, k);
  }

  /** Money, whitespace and money form a value/balance pair. */
  lemma MoneyPairOfParts(w1: string, v: string, w2: string, m: string)
    requires AllSpace(w1) && SignedAmount(v) && w2 != [] && AllSpace(w2) && Money(m).Some?
    ensures MoneyPair("R$" + w1 + v + w2 + m) == Some(v)
  {
    var s := "R$" + w1 + v + w2 + m;
    SignedAmountChars(v);
    PairCutOfParts(w1, v, w2, m);
    SliceParts("R$" + w1, v, w2 + m);
    assert s == "R$" + w1 + v + (w2 + m);
    SliceParts("R$" + w1 + v, w2, m);
    assert PairParts(s) == Some((v, m));
  }

  lemma IdCutAt(r: string, i: nat, j: nat, k: nat)
    requires 0 < i < j < k <= |r|
    requires AllSpace(r[..i]) && AllDigits(r[i..j]) && AllSpace(r[j..k])
    requires !IsSpace(r[i]) && !IsDigit(r[j]) && (k == |r| || !IsSpace(r[k]))
    ensures IdCut(r) == Some(k)
  {
    assert r[0..i] == r[..i];
    SpaceEndIs(r, 0, i);
    DigitEndIs(r, i, j);
    SpaceEndIs(r, j, k);
  }

  lemma IdCutOfParts(v0: string, id: string, v1: string, m: string)
    requires v0 != [] && AllSpace(v0) && id != [] && AllDigits(id) && v1 != [] && AllSpace(v1)
    requires m == [] || !IsSpace(m[0])
    ensures IdCut(v0 + id + v1 + m) == Some(|v0| + |id| + |v1|)
  {
    var r := v0 + id + v1 + m;
    var i := |v0|;
    var j := i + |id|;
    var k := j + |v1|;
    assert r[..i] == v0;
    assert r[i] == id[0];
    assert r[i..j] == id;
    assert r[j] == v1[0];
    assert r[j..k] == v1;
    if m != [] { assert r[k] == m[0]; }
    IdCutAt(r, i, j, k);
  }

  lemma IdValueBalanceTailOfParts(v0: string, id: string, v1: string, m: string)
    requires v0 != [] && AllSpace(v0) && id != [] && AllDigits(id) && v1 != [] && AllSpace(v1)
    requires m == [] || !IsSpace(m[0])
    ensures IdValueBalanceTail(v0 + id + v1 + m) == MoneyPair(m)
  {
    IdCutOfParts(v0, id, v1, m);
    assert (v0 + id + v1 + m)[|v0| + |id| + |v1|..] == m;
  }

  // ---------------------------------------------------------------------------
  // How many words a tail can hold: the tool for showing that a shorter
  // description would not have left a parsable tail.

  lemma MoneyWords(s: string)
    requires Money(s).Some?
    ensures |Words(s)| <= 2
  {
    var j := MoneyCut(s).value;
    SignedAmountChars(s[j..]);
    if j == 2 {
      MoneyWordsGlued(s);
    } else {
      MoneyWordsSpaced(s, j);
    }
  }

  /** `R$` glued to its amount is one word. */
  lemma MoneyWordsGlued(s: string)
    requires |s| > 2 && s[0] == 'R' && s[1] == '$' && NoSpace(s[2..])
    ensures Words(s) == [s]
  {
    forall i | 0 <= i < |s| ensures !IsSpace(s[i]) {
      if i >= 2 { assert s[i] == s[2..][i - 2]; }
    }
    WordsOfToken(s);
  }

  /** `R$`, whitespace, then the amount: two words. */
  lemma MoneyWordsSpaced(s: string, j: nat)
    requires 2 < j < |s| && s[0] == 'R' && s[1] == '$' && AllSpace(s[2..j]) && NoSpace(s[j..])
    ensures |Words(s)| == 2
  {
    assert IsSpace(s[2..j][0]);
    WordsAt(s, 2);
    WordsOfToken(s[..2]);
    WordsSkip(s, 3, j);
    WordsOfToken(s[j..]);
  }

  lemma ValueTailWords(r: string)
    requires ValueTail(r).Some?
    ensures |Words(r)| <= 2
  {
    var a := LeadCut(r).value;
    WordsDropSpace(r, a);
    MoneyWords(r[a..]);
  }

  /** The value half of a money pair is money on its own. */
  lemma PairValueMoney(s: string)
    requires MoneyPair(s).Some?
    ensures Money(s[..PairCut(s).value.1]).Some? && Money(s[PairCut(s).value.2..]).Some?
  {
    var (j, e, k) := PairCut(s).value;
    assert PairParts(s) == Some((s[j..e], s[k..]));
    var m1 := s[..e];
    assert m1[2..j] == s[2..j];
    assert m1[j] == s[j];
    MoneyCutAt(m1, j);
    assert m1[j..] == s[j..e];
  }

  /** Words on both sides of a stretch of whitespace add up. */
  lemma WordsAround(s: string, e: nat, k: nat)
    requires e < k <= |s| && AllSpace(s[e..k])
    ensures |Words(s)| == |Words(s[..e])| + |Words(s[k..])|
  {
    assert IsSpace(s[e]) by { assert s[e] == s[e..k][0]; }
    WordsAt(s, e);
    WordsSkip(s, e + 1, k);
  }

  lemma MoneyPairWords(s: string)
    requires MoneyPair(s).Some?
    ensures |Words(s)| <= 4
  {
    var c := PairCut(s).value;
    PairValueMoney(s);
    MoneyWords(s[..c.1]);
    MoneyWords(s[c.2..]);
    WordsAround(s, c.1, c.2);
  }

  lemma IdCutWords(r: string)
    requires IdCut(r).Some?
    ensures |Words(r)| == 1 + |Words(r[IdCut(r).value..])|
  {
    var a := SpaceEnd(r, 0);
    var d := DigitEnd(r, a);
    var b := SpaceEnd(r, d);
    assert r[..a] == r[0..a];
    DigitsNoSpace(r[a..d]);
    WordsOfLeadingToken(r, a, d - a);
    WordsSkip(r, d + 1, b);
  }

  lemma IdValueBalanceTailWords(r: string)
    requires IdValueBalanceTail(r).Some?
    ensures |Words(r)| <= 5
  {
    IdCutWords(r);
    MoneyPairWords(r[IdCut(r).value..]);
  }

  /** `R$`, a gap and a word make two words. */
  lemma MoneyGapWords(g: string, v: string)
    requires g != [] && AllSpace(g) && v != [] && NoSpace(v)
    ensures Words("R$" + g + v) == ["R$", v]
  {
    WordsGap("R$", g, v);
    WordsOfToken("R$");
    WordsOfToken(v);
  }

  /** Four or more digits without a thousands dot are no amount, with or without
      cents: `R$ 1500,00` never matches the statement grammars. */
  lemma UngroupedRejected(d: string, c: string)
    requires |d| >= 4 && AllDigits(d) && |c| == 2
    ensures !SignedAmount(d) && !SignedAmount(d + [','] + c)
  {
    var s := d + [','] + c;
    assert s[|s| - 4] == d[|d| - 1];
    assert s[..|s| - 3] == d;
  }

  lemma MoneyRejectsUngrouped(g: string, d: string, c: string)
    requires AllSpace(g) && |d| >= 4 && AllDigits(d) && |c| == 2
    ensures Money("R$" + g + d + [','] + c) == None
  {
    var s := "R$" + g + d + [','] + c;
    assert s[2..2 + |g|] == g && s[2 + |g|] == d[0];
    MoneyCutAt(s, 2 + |g|);
    assert s[2 + |g|..] == d + [','] + c;
    UngroupedRejected(d, c);
  }
}
