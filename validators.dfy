/** The converter's two field validators, `is_valid_date` and `is_valid_value`:
    both only check the shape of the text, never the calendar or the amount. */
module Validators {
  import opened Text
  import opened Grammar

  // ---------------------------------------------------------------------------
  // is_valid_date

  /** The six accepted date shapes: DD/MM/YYYY, DD-MM-YYYY, YYYY-MM-DD,
      DD.MM.YYYY, DD/MM/YY and DD-MM-YY, each day and month taking one or two digits. */
  predicate DatePattern(t: string)
  {
    DateShape(t, '/', Width(1, 2), Width(1, 2), Width(4, 4))
    || DateShape(t, '-', Width(1, 2), Width(1, 2), Width(4, 4))
    || DateShape(t, '-', Width(4, 4), Width(1, 2), Width(1, 2))
    || DateShape(t, '.', Width(1, 2), Width(1, 2), Width(4, 4))
    || DateShape(t, '/', Width(1, 2), Width(1, 2), Width(2, 2))
    || DateShape(t, '-', Width(1, 2), Width(1, 2), Width(2, 2))
  }

  /** `is_valid_date`: a non-empty string whose strip has one of the date shapes. */
  predicate IsValidDate(s: string)
  {
    s != [] && DatePattern(Strip(s))
  }

  // ---------------------------------------------------------------------------
  // is_valid_value

  /** The characters `re.sub(r'[^\d,.-]', '', ...)` keeps. */
  predicate IsResidueChar(c: char)
  {
    IsDigit(c) || c == ',' || c == '.' || c == '-'
  }

  /** `re.sub(r'[^\d,.-]', '', s)`: the digits, commas, dots and minus signs of `s`, in order. */
  function Residue(s: string): (r: string)
    ensures |r| <= |s|
    ensures forall i :: 0 <= i < |r| ==> IsResidueChar(r[i])
    ensures (forall i :: 0 <= i < |s| ==> IsResidueChar(s[i])) ==> r == s
    decreases |s|
  {
    if s == [] then []
    else if IsResidueChar(s[0]) then [s[0]] + Residue(s[1..])
    else Residue(s[1..])
  }

  /** The residue of one character: itself if kept, nothing otherwise. */
  lemma ResidueOne(c: char)
    ensures Residue([c]) == if IsResidueChar(c) then [c] else []
  {
    assert [c][1..] == [];
  }

  /** The residue is taken piece by piece: every kept character of `a`
      comes before every kept character of `b`, none is lost. */
  lemma {:induction false} ResidueAppend(a: string, b: string)
    ensures Residue(a + b) == Residue(a) + Residue(b)
    decreases |a|
  {
    if a == [] {
      assert a + b == b;
    } else {
      assert (a + b)[0] == a[0];
      assert (a + b)[1..] == a[1..] + b;
      ResidueAppend(a[1..], b);
    }
  }

  /** `-?` in front of each value shape. */
  function Unsigned(x: string): string
  {
    if |x| > 0 && x[0] == '-' then x[1..] else x
  }

  /** The six accepted value shapes after the optional minus sign:
      `\d{1,3}(\.\d{3})*,\d{2}`, `\d+,\d{2}`, `\d+\.\d{2}`, `\d+`,
      `\d{1,3}(,\d{3})*\.\d{2}` and `\d{1,3}(\.\d{3})*`. */
  predicate ValueShape(x: string)
  {
    (HasCents(x, ',') && Grouped(x[..|x| - 3], '.'))
    || (HasCents(x, ',') && AllDigits(x[..|x| - 3]))
    || (HasCents(x, '.') && AllDigits(x[..|x| - 3]))
    || (x != [] && AllDigits(x))
    || (HasCents(x, '.') && Grouped(x[..|x| - 3], ','))
    || Grouped(x, '.')
  }

  /** `is_valid_value`: a non-empty string whose residue, after the optional
      minus sign, has one of the value shapes. */
  predicate IsValidValue(s: string)
  {
    s != [] && ValueShape(Unsigned(Residue(Strip(s))))
  }

  // ---------------------------------------------------------------------------
  // What the statement grammars capture always passes the validators

  lemma WidenDigits(x: string, w: Width, v: Width)
    requires Digits(x, w) && v.lo <= w.lo && w.hi <= v.hi
    ensures Digits(x, v)
  {
  }

  /** The MercadoPago date `\d{2}-\d{2}-\d{4}` is a valid date. */
  lemma DashDateValid(d: string)
    requires DashDate(d)
    ensures IsValidDate(d)
  {
    DateShapeNoSpace(d, '-', Width(2, 2), Width(2, 2), Width(4, 4));
    StripUnchanged(d);
    var f := Split(d, '-');
    WidenDigits(f[0], Width(2, 2), Width(1, 2));
    WidenDigits(f[1], Width(2, 2), Width(1, 2));
  }

  /** The Asaas date `\d{1,2}/\d{1,2}/\d{4}` is a valid date. */
  lemma SlashDateValid(d: string)
    requires SlashDate(d)
    ensures IsValidDate(d)
  {
    DateShapeNoSpace(d, '/', Width(1, 2), Width(1, 2), Width(4, 4));
    StripUnchanged(d);
  }

  /** An amount is its own residue and carries no minus sign. */
  lemma AmountResidue(x: string)
    requires Amount(x)
    ensures Residue(x) == x && Unsigned(x) == x && ValueShape(x)
  {
    AmountChars(x);
  }

  /** An amount the statement grammars capture, `[+-]?` followed by
      `\d{1,3}(\.\d{3})*(,\d{2})?`, is a valid value. */
  lemma SignedAmountValid(v: string)
    requires SignedAmount(v)
    ensures IsValidValue(v)
  {
    SignedAmountChars(v);
    StripUnchanged(v);
    if !Amount(v) {
      AmountResidue(v[1..]);
      AmountChars(v[1..]);
      if v[0] == '-' {
        forall i | 0 <= i < |v| ensures IsResidueChar(v[i]) {
          if i > 0 { assert v[i] == v[1..][i - 1]; }
        }
      }
    } else {
      AmountResidue(v);
    }
  }

  // ---------------------------------------------------------------------------
  // Examples

  /** On a trimmed string made only of digits, commas, dots and minus signs,
      the validator is the shape test alone. */
  lemma ValidValueOfClean(s: string)
    requires s != [] && !IsSpace(s[0]) && !IsSpace(s[|s| - 1])
    requires forall i :: 0 <= i < |s| ==> IsResidueChar(s[i])
    ensures IsValidValue(s) <==> ValueShape(Unsigned(s))
  {
    StripUnchanged(s);
  }

  lemma ValidDateOfTrimmed(s: string)
    requires s != [] && !IsSpace(s[0]) && !IsSpace(s[|s| - 1])
    ensures IsValidDate(s) <==> DatePattern(s)
  {
    StripUnchanged(s);
  }

  /** No calendar check: any one- or two-digit day and month with a four- or
      two-digit year passes (`99/99/9999` and `1/2/24` among them). */
  lemma SlashDateAccepted(d: string, m: string, y: string)
    requires Digits(d, Width(1, 2)) && Digits(m, Width(1, 2))
    requires Digits(y, Width(4, 4)) || Digits(y, Width(2, 2))
    ensures IsValidDate(d + ['/'] + m + ['/'] + y)
  {
    var s := d + ['/'] + m + ['/'] + y;
    var w := if Digits(y, Width(4, 4)) then Width(4, 4) else Width(2, 2);
    DateShapeOfParts(d, m, y, '/', Width(1, 2), Width(1, 2), w);
    DateShapeNoSpace(s, '/', Width(1, 2), Width(1, 2), w);
    StripUnchanged(s);
  }

  /** Digits, a comma or a dot, and two digits pass (`100,00`, `100.00`). */
  lemma CentsAccepted(d: string, dec: char, c: string)
    requires d != [] && AllDigits(d) && |c| == 2 && AllDigits(c) && (dec == ',' || dec == '.')
    ensures IsValidValue(d + [dec] + c)
  {
    var s := d + [dec] + c;
    assert s[..|s| - 3] == d && s[|s| - 2..] == c && s[|s| - 3] == dec;
    assert forall i :: 0 <= i < |s| ==> IsResidueChar(s[i]) by {
      forall i | 0 <= i < |s| ensures IsResidueChar(s[i]) {
        if i < |d| { assert s[i] == d[i]; }
        else if i > |d| { assert s[i] == c[i - |d| - 1]; }
      }
    }
    ValidValueOfClean(s);
  }

  /** Digits alone pass (`100`). */
  lemma DigitsAccepted(d: string)
    requires d != [] && AllDigits(d)
    ensures IsValidValue(d)
  {
    ValidValueOfClean(d);
  }

  lemma {:induction false} CommaGroupedChars(g: string)
    requires Grouped(g, ',')
    ensures forall i :: 0 <= i < |g| ==> IsDigit(g[i]) || g[i] == ','
    decreases |g|
  {
    if |g| > 3 {
      var h := g[..|g| - 4];
      CommaGroupedChars(h);
      forall i | 0 <= i < |g| ensures IsDigit(g[i]) || g[i] == ',' {
        if i < |h| {
          assert g[i] == h[i];
        } else if i > |h| {
          assert g[i] == g[|g| - 3..][i - |g| + 3];
        }
      }
    }
  }

  lemma CommaGroupedShape(s: string)
    requires HasCents(s, '.') && Grouped(s[..|s| - 3], ',')
    ensures ValueShape(s)
  {
  }

  /** Thousands grouped by commas with dot cents pass (`1,234.56`). */
  lemma CommaGroupedAccepted(g: string, c: string)
    requires Grouped(g, ',') && |c| == 2 && AllDigits(c)
    ensures IsValidValue(g + ['.'] + c)
  {
    var s := g + ['.'] + c;
    CommaGroupedChars(g);
    assert s[..|s| - 3] == g && s[|s| - 2..] == c && s[|s| - 3] == '.';
    CommaGroupedShape(s);
    assert forall i :: 0 <= i < |s| ==> IsResidueChar(s[i]) by {
      forall i | 0 <= i < |s| ensures IsResidueChar(s[i]) {
        if i < |g| { assert s[i] == g[i]; }
        else if i > |g| { assert s[i] == c[i - |g| - 1]; }
      }
    }
    assert Unsigned(s) == s by {
      assert s[0] == g[0];
    }
    ValidValueOfClean(s);
  }

  /** Letters only, nothing and a lone minus sign fail. */
  lemma ValueRejects()
    ensures !IsValidValue("abc") && !IsValidValue("") && !IsValidValue("-")
  {
    LettersRejected();
    MinusRejected();
  }

  lemma LettersRejected()
    ensures !IsValidValue("abc")
  {
    StripUnchanged("abc");
    var r := Residue("abc");
    assert r == [] by {
      assert "abc"[1..] == "bc" && "bc"[1..] == "c" && "c"[1..] == [];
    }
    EmptyNoShape();
  }

  lemma MinusRejected()
    ensures !IsValidValue("-")
  {
    StripUnchanged("-");
    assert Unsigned(Residue("-")) == [];
    EmptyNoShape();
  }

  /** Nothing is no value shape. */
  lemma EmptyNoShape()
    ensures !ValueShape([])
  {
    if Grouped([], '.') {
      GroupedChars([]);
    }
  }

  /** A string holding a comma is neither digits nor grouped by periods. */
  lemma CommaNotGrouped(x: string, i: nat)
    requires i < |x| && x[i] == ','
    ensures !AllDigits(x) && !Grouped(x, '.')
  {
    assert !IsDigit(x[i]);
    if Grouped(x, '.') {
      GroupedChars(x);
      assert false;
    }
  }

  lemma TwoCommasNoShape(x: string, i: nat, j: nat)
    requires i < j < |x| && x[i] == ',' && x[j] == ','
    requires forall k :: 0 <= k < |x| ==> IsDigit(x[k]) || x[k] == ','
    ensures !ValueShape(x)
  {
    CommaNotGrouped(x, i);
    assert !HasCents(x, '.');
    if HasCents(x, ',') {
      assert j <= |x| - 3;
      assert x[..|x| - 3][i] == ',';
      CommaNotGrouped(x[..|x| - 3], i);
    }
  }

  /** Digits with two or more commas and no period fail, whatever the
      grouping: commas group thousands only in front of `.\d{2}` cents, so
      `12,3,4` and `1,234,567` are both rejected. */
  lemma TwoCommasRejected(s: string, i: nat, j: nat)
    requires i < j < |s| && s[i] == ',' && s[j] == ','
    requires forall k :: 0 <= k < |s| ==> IsDigit(s[k]) || s[k] == ','
    ensures !IsValidValue(s)
  {
    ValidValueOfClean(s);
    assert Unsigned(s) == s;
    TwoCommasNoShape(s, i, j);
  }
}
