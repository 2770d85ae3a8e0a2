/** The Python string operations the converter and the two web applications rely
    on: character classes, `str.strip`, `str.split(sep)`, `str.split()`,
    `str.lower` and `str.endswith`, restricted to ASCII. */
module Text {

  /** Python's `str.isspace` (and the regex class `\s`) on ASCII characters:
      tab, line feed, vertical tab, form feed and carriage return (U+0009 to
      U+000D), the four separators U+001C to U+001F, and space (U+0020). */
  predicate IsSpace(c: char)
  {
    ('\t' <= c <= '\r') || ('\U{1C}' <= c <= ' ')
  }

  /** The regex class `\d` on ASCII. */
  predicate IsDigit(c: char)
  {
    '0' <= c <= '9'
  }

  predicate AllSpace(s: string)
  {
    forall i :: 0 <= i < |s| ==> IsSpace(s[i])
  }

  predicate AllDigits(s: string)
  {
    forall i :: 0 <= i < |s| ==> IsDigit(s[i])
  }

  predicate NoSpace(s: string)
  {
    forall i :: 0 <= i < |s| ==> !IsSpace(s[i])
  }

  /** Every character matches the regex `.`, which excludes only the line feed. */
  predicate NoNewline(s: string)
  {
    forall i :: 0 <= i < |s| ==> s[i] != '\n'
  }

  function LowerChar(c: char): char
  {
    if 'A' <= c <= 'Z' then (c as int + 32) as char else c
  }

  /** `str.lower` on ASCII letters. */
  function Lower(s: string): (t: string)
    ensures |t| == |s|
  {
    seq(|s|, i requires 0 <= i < |s| => LowerChar(s[i]))
  }

  predicate EndsWith(s: string, suffix: string)
  {
    |suffix| <= |s| && s[|s| - |suffix|..] == suffix
  }

  /** `s.rfind(c)`: the last position holding `c`, or -1. */
  function RFind(s: string, c: char): (k: int)
    ensures -1 <= k < |s|
    ensures k >= 0 ==> s[k] == c
    ensures forall j :: k < j < |s| ==> s[j] != c
  {
    LastBefore(s, c, |s|)
  }

  /** The last position below `n` holding `c`, or -1: the scan from the end. */
  function LastBefore(s: string, c: char, n: nat): (k: int)
    requires n <= |s|
    ensures -1 <= k < n
    ensures k >= 0 ==> s[k] == c
    ensures forall j :: k < j < n ==> s[j] != c
    decreases n
  {
    if n == 0 then -1
    else if s[n - 1] == c then n - 1
    else LastBefore(s, c, n - 1)
  }

  /** `RFind` finds the last occurrence: a position holding `c` with no `c`
      after it is the answer. */
  lemma RFindIs(s: string, c: char, k: int)
    requires -1 <= k < |s| && (k >= 0 ==> s[k] == c) && NoneAfter(s, c, k)
    ensures RFind(s, c) == k
  {
  }

  /** No `c` after position `k`. */
  predicate NoneAfter(s: string, c: char, k: int)
  {
    forall j :: 0 <= j < |s| && k < j ==> s[j] != c
  }

  /** Lower-casing keeps a dot a dot and makes nothing else a dot. */
  lemma LowerCharDot(c: char)
    ensures LowerChar(c) == '.' <==> c == '.'
  {
  }

  /** Lowering commutes with taking a suffix. */
  lemma LowerSuffix(s: string, i: nat)
    requires i <= |s|
    ensures Lower(s)[i..] == Lower(s[i..])
  {
  }

  /** Character `k` of a lowered suffix is a dot exactly when the name's is. */
  lemma SuffixCharDot(s: string, suffix: string, k: nat)
    requires EndsWith(Lower(s), suffix) && k < |suffix|
    ensures s[|s| - |suffix| + k] == '.' <==> suffix[k] == '.'
  {
    var i := |s| - |suffix| + k;
    assert Lower(s)[|s| - |suffix|..][k] == Lower(s)[i];
    LowerCharDot(s[i]);
  }

  /** Within a lowered suffix, the dots are the suffix's dots. */
  lemma SuffixDots(s: string, suffix: string)
    requires EndsWith(Lower(s), suffix) && |suffix| > 0 && suffix[0] == '.'
    requires forall k :: 0 < k < |suffix| ==> suffix[k] != '.'
    ensures s[|s| - |suffix|] == '.' && NoneAfter(s, '.', |s| - |suffix|)
  {
    var d := |s| - |suffix|;
    SuffixCharDot(s, suffix, 0);
    forall j | d < j < |s| ensures s[j] != '.' {
      SuffixCharDot(s, suffix, j - d);
    }
  }

  /** When the lowered string ends in a suffix whose only dot is its first
      character, the string's last dot is where the suffix starts. */
  lemma LastDotOfSuffix(s: string, suffix: string)
    requires EndsWith(Lower(s), suffix) && |suffix| > 0 && suffix[0] == '.'
    requires forall k :: 0 < k < |suffix| ==> suffix[k] != '.'
    ensures RFind(s, '.') == |s| - |suffix|
  {
    SuffixDots(s, suffix);
    RFindIs(s, '.', |s| - |suffix|);
  }

  // ---------------------------------------------------------------------------
  // Runs of characters, the building blocks of the greedy regex quantifiers.

  /** Where the run of whitespace that starts at position `i` ends. */
  function SpaceEnd(s: string, i: nat): (e: nat)
    requires i <= |s|
    ensures i <= e <= |s|
    ensures AllSpace(s[i..e])
    ensures e == |s| || !IsSpace(s[e])
    decreases |s| - i
  {
    if i < |s| && IsSpace(s[i]) then
      var e := SpaceEnd(s, i + 1);
      assert s[i..e] == [s[i]] + s[i + 1..e];
      e
    else i
  }

  /** Where the run of non-whitespace characters that starts at `i` ends. */
  function NonSpaceEnd(s: string, i: nat): (e: nat)
    requires i <= |s|
    ensures i <= e <= |s|
    ensures NoSpace(s[i..e])
    ensures e == |s| || IsSpace(s[e])
    decreases |s| - i
  {
    if i < |s| && !IsSpace(s[i]) then
      var e := NonSpaceEnd(s, i + 1);
      assert s[i..e] == [s[i]] + s[i + 1..e];
      e
    else i
  }

  /** Where the run of digits that starts at `i` ends. */
  function DigitEnd(s: string, i: nat): (e: nat)
    requires i <= |s|
    ensures i <= e <= |s|
    ensures AllDigits(s[i..e])
    ensures e == |s| || !IsDigit(s[e])
    decreases |s| - i
  {
    if i < |s| && IsDigit(s[i]) then
      var e := DigitEnd(s, i + 1);
      assert s[i..e] == [s[i]] + s[i + 1..e];
      e
    else i
  }

  /** A run is determined by where it stops: any all-space stretch that ends at
      a non-space character (or at the end) is the run. */
  lemma {:induction false} SpaceEndIs(s: string, i: nat, e: nat)
    requires i <= e <= |s|
    requires AllSpace(s[i..e])
    requires e == |s| || !IsSpace(s[e])
    ensures SpaceEnd(s, i) == e
    decreases e - i
  {
    if i < e {
      assert IsSpace(s[i..e][0]);
      assert s[i + 1..e] == s[i..e][1..];
      SpaceEndIs(s, i + 1, e);
    }
  }

  lemma {:induction false} NonSpaceEndIs(s: string, i: nat, e: nat)
    requires i <= e <= |s|
    requires NoSpace(s[i..e])
    requires e == |s| || IsSpace(s[e])
    ensures NonSpaceEnd(s, i) == e
    decreases e - i
  {
    if i < e {
      assert !IsSpace(s[i..e][0]);
      assert s[i + 1..e] == s[i..e][1..];
      NonSpaceEndIs(s, i + 1, e);
    }
  }

  lemma {:induction false} DigitEndIs(s: string, i: nat, e: nat)
    requires i <= e <= |s|
    requires AllDigits(s[i..e])
    requires e == |s| || !IsDigit(s[e])
    ensures DigitEnd(s, i) == e
    decreases e - i
  {
    if i < e {
      assert IsDigit(s[i..e][0]);
      assert s[i + 1..e] == s[i..e][1..];
      DigitEndIs(s, i + 1, e);
    }
  }

  /** A run of digits starting at `i` goes at least as far as any all-digit stretch from `i`. */
  lemma {:induction false} DigitEndAtLeast(s: string, i: nat, e: nat)
    requires i <= e <= |s|
    requires AllDigits(s[i..e])
    ensures DigitEnd(s, i) >= e
    decreases e - i
  {
    if i < e {
      assert IsDigit(s[i..e][0]);
      assert s[i + 1..e] == s[i..e][1..];
      DigitEndAtLeast(s, i + 1, e);
    }
  }

  // ---------------------------------------------------------------------------
  // str.strip()

  /** Number of whitespace characters at the end of `s`. */
  function TrailingSpace(s: string): (k: nat)
    ensures k <= |s|
    ensures AllSpace(s[|s| - k..])
    ensures k == |s| || !IsSpace(s[|s| - k - 1])
    decreases |s|
  {
    if |s| > 0 && IsSpace(s[|s| - 1]) then
      var k := 1 + TrailingSpace(s[..|s| - 1]);
      assert s[|s| - k..] == s[..|s| - 1][|s| - k..] + [s[|s| - 1]];
      k
    else 0
  }

  /** Where `Strip(s)` starts: the length of the leading whitespace. */
  function StripStart(s: string): nat
  {
    SpaceEnd(s, 0)
  }

  /** `str.strip()`: `s` without its leading and trailing whitespace. */
  function Strip(s: string): string
  {
    var a := SpaceEnd(s, 0);
    if a == |s| then [] else s[a..|s| - TrailingSpace(s)]
  }

  /** The strip neither starts nor ends with whitespace, and `s` is the strip
      with whitespace around it. */
  lemma StripSpec(s: string)
    ensures var r := Strip(s); var a := StripStart(s);
      (r == [] || (!IsSpace(r[0]) && !IsSpace(r[|r| - 1])))
      && a + |r| <= |s| && s[a..a + |r|] == r
      && AllSpace(s[..a]) && AllSpace(s[a + |r|..])
  {
    var a := SpaceEnd(s, 0);
    assert s[..a] == s[0..a];
    if a < |s| {
      var t := TrailingSpace(s);
      assert t < |s| - a;
    }
  }

  /** A string without surrounding whitespace is its own strip. */
  lemma StripUnchanged(s: string)
    requires s == [] || (!IsSpace(s[0]) && !IsSpace(s[|s| - 1]))
    ensures Strip(s) == s
  {
    if s != [] {
      SpaceEndIs(s, 0, 0);
      assert TrailingSpace(s) == 0;
    }
  }

  lemma StripIdempotent(s: string)
    ensures Strip(Strip(s)) == Strip(s)
  {
    StripUnchanged(Strip(s));
  }

  /** Strip is empty exactly when the string is all whitespace. */
  lemma StripEmpty(s: string)
    ensures Strip(s) == [] <==> AllSpace(s)
  {
    var a := SpaceEnd(s, 0);
    if a == |s| {
      assert s[0..a] == s;
    } else {
      assert !IsSpace(s[a]);
    }
  }

  // ---------------------------------------------------------------------------
  // str.split(sep) and sep.join(parts)

  /** `s.split(sep)` for a one-character separator: the maximal stretches
      between separators, empty ones included. */
  function Split(s: string, sep: char): (parts: seq<string>)
    ensures |parts| > 0
    decreases |s|
  {
    if |s| == 0 then [""]
    else if s[0] == sep then [""] + Split(s[1..], sep)
    else var rest := Split(s[1..], sep); [[s[0]] + rest[0]] + rest[1..]
  }

  /** `sep.join(parts)`. */
  function Join(parts: seq<string>, sep: string): (s: string)
    decreases |parts|
  {
    if |parts| == 0 then ""
    else if |parts| == 1 then parts[0]
    else parts[0] + sep + Join(parts[1..], sep)
  }

  /** Joining after an empty first part puts the separator in front. */
  lemma JoinEmptyFirst(parts: seq<string>, sep: string)
    requires |parts| > 0
    ensures Join([""] + parts, sep) == sep + Join(parts, sep)
  {
    assert ([""] + parts)[1..] == parts;
  }

  /** Joining after a character is added to the first part adds it in front. */
  lemma JoinPrepend(c: char, parts: seq<string>, sep: string)
    requires |parts| > 0
    ensures Join([[c] + parts[0]] + parts[1..], sep) == [c] + Join(parts, sep)
  {
    var q := [[c] + parts[0]] + parts[1..];
    assert q[0] == [c] + parts[0];
    if |parts| > 1 {
      assert q[1..] == parts[1..];
      AppendAssoc([c], parts[0], sep + Join(parts[1..], sep));
    }
  }

  /** Splitting and joining with the same separator gives back the string. */
  lemma {:induction false} JoinSplit(s: string, sep: char)
    ensures Join(Split(s, sep), [sep]) == s
    decreases |s|
  {
    if |s| > 0 {
      JoinSplit(s[1..], sep);
      var rest := Split(s[1..], sep);
      if s[0] == sep {
        JoinEmptyFirst(rest, [sep]);
      } else {
        JoinPrepend(s[0], rest, [sep]);
      }
      assert s == [s[0]] + s[1..];
    }
  }

  /** No part of a split contains the separator. */
  lemma {:induction false} SplitPartsFree(s: string, sep: char)
    ensures forall k :: 0 <= k < |Split(s, sep)| ==> sep !in Split(s, sep)[k]
    decreases |s|
  {
    if |s| > 0 {
      SplitPartsFree(s[1..], sep);
    }
  }

  /** A string without the separator splits into itself alone. */
  lemma {:induction false} SplitWithoutSep(s: string, sep: char)
    requires sep !in s
    ensures Split(s, sep) == [s]
    decreases |s|
  {
    if |s| > 0 {
      SplitWithoutSep(s[1..], sep);
      assert s == [s[0]] + s[1..];
    }
  }

  // ---------------------------------------------------------------------------
  // str.split() with no argument: the whitespace-separated words.

  /** Length of the word `s` starts with (the non-whitespace prefix). */
  function TokenLen(s: string): (k: nat)
    ensures k <= |s|
  {
    NonSpaceEnd(s, 0)
  }

  /** `s.split()`: the maximal runs of non-whitespace characters, in order. */
  function Words(s: string): (ws: seq<string>)
    decreases |s|
  {
    if |s| == 0 then []
    else if IsSpace(s[0]) then Words(s[1..])
    else [s[..TokenLen(s)]] + Words(s[TokenLen(s)..])
  }

  /** Every word is non-empty and holds no whitespace. */
  lemma {:induction false} WordsAreTokens(s: string)
    ensures forall k :: 0 <= k < |Words(s)| ==> Words(s)[k] != [] && NoSpace(Words(s)[k])
    decreases |s|
  {
    if |s| > 0 {
      if IsSpace(s[0]) {
        WordsAreTokens(s[1..]);
      } else {
        var t := TokenLen(s);
        assert s[0..t] == s[..t];
        WordsAreTokens(s[t..]);
      }
    }
  }

  /** A line has no words exactly when its strip is empty. */
  lemma {:induction false} WordsEmpty(s: string)
    ensures Words(s) == [] <==> AllSpace(s)
    decreases |s|
  {
    if |s| > 0 {
      if IsSpace(s[0]) {
        WordsEmpty(s[1..]);
        assert AllSpace(s) <==> AllSpace(s[1..]) by {
          if AllSpace(s[1..]) {
            forall i | 0 <= i < |s| ensures IsSpace(s[i]) {
              if i > 0 { assert s[i] == s[1..][i - 1]; }
            }
          }
        }
      }
    }
  }

  /** A word never runs across a whitespace character. */
  lemma TokenLenAppend(x: string, c: char, y: string)
    requires IsSpace(c)
    ensures TokenLen(x + [c] + y) == TokenLen(x)
  {
    var s := x + [c] + y;
    var k := TokenLen(x);
    assert s[0..k] == x[0..k];
    NonSpaceEndIs(s, 0, k);
  }

  /** Words of two strings separated by a whitespace character. */
  lemma {:induction false} WordsAppend(x: string, c: char, y: string)
    requires IsSpace(c)
    ensures Words(x + [c] + y) == Words(x) + Words(y)
    decreases |x|
  {
    var s := x + [c] + y;
    if |x| == 0 {
      assert s == [c] + y;
      assert s[1..] == y;
    } else if IsSpace(x[0]) {
      assert s[1..] == x[1..] + [c] + y;
      WordsAppend(x[1..], c, y);
    } else {
      TokenLenAppend(x, c, y);
      var t := TokenLen(x);
      assert t > 0;
      assert s[..t] == x[..t];
      assert s[t..] == x[t..] + [c] + y;
      WordsAppend(x[t..], c, y);
    }
  }

  /** A non-empty string without whitespace is a single word. */
  lemma WordsOfToken(w: string)
    requires w != [] && NoSpace(w)
    ensures Words(w) == [w]
  {
    NonSpaceEndIs(w, 0, |w|);
    assert w[..|w|] == w;
    assert w[|w|..] == [];
  }

  /** Joining words with single spaces and splitting again gives them back. */
  lemma {:induction false} WordsJoin(ws: seq<string>)
    requires forall k :: 0 <= k < |ws| ==> ws[k] != [] && NoSpace(ws[k])
    ensures Words(Join(ws, " ")) == ws
    decreases |ws|
  {
    if |ws| == 1 {
      WordsOfToken(ws[0]);
    } else if |ws| > 1 {
      var rest := ws[1..];
      WordsJoin(rest);
      WordsOfToken(ws[0]);
      WordsAppend(ws[0], ' ', Join(rest, " "));
      assert ws == [ws[0]] + rest;
    }
  }

  /** Leading whitespace does not change the words. */
  lemma {:induction false} WordsDropSpace(s: string, k: nat)
    requires k <= |s| && AllSpace(s[..k])
    ensures Words(s) == Words(s[k..])
    decreases k
  {
    if k > 0 {
      assert IsSpace(s[..k][0]);
      assert s[1..][..k - 1] == s[..k][1..];
      WordsDropSpace(s[1..], k - 1);
      assert s[1..][k - 1..] == s[k..];
    }
  }

  /** Words on either side of a whitespace character at position `i`. */
  lemma WordsAt(s: string, i: nat)
    requires i < |s| && IsSpace(s[i])
    ensures Words(s) == Words(s[..i]) + Words(s[i + 1..])
  {
    assert s == s[..i] + [s[i]] + s[i + 1..];
    WordsAppend(s[..i], s[i], s[i + 1..]);
  }

  /** A stretch of whitespace at the front of a suffix does not change its words. */
  lemma WordsSkip(s: string, i: nat, j: nat)
    requires i <= j <= |s| && AllSpace(s[i..j])
    ensures Words(s[i..]) == Words(s[j..])
  {
    assert s[i..][..j - i] == s[i..j];
    WordsDropSpace(s[i..], j - i);
    assert s[i..][j - i..] == s[j..];
  }

  lemma AppendAssoc<T>(a: seq<T>, b: seq<T>, c: seq<T>)
    ensures a + b + c == a + (b + c)
  {
  }

  /** Slicing a concatenation at the boundaries of its parts. */
  lemma SliceParts(x: string, y: string, z: string)
    ensures (x + y + z)[|x|..|x| + |y|] == y
    ensures (x + y + z)[|x| + |y|..] == z
    ensures (x + y + z)[..|x|] == x
  {
  }

  /** The prefix `s[..e]` cut around the characters at `a` and `b`. */
  lemma SliceAround(s: string, a: nat, b: nat, e: nat)
    requires a < b < e <= |s|
    ensures s[..e] == s[..a] + [s[a]] + s[a + 1..b] + [s[b]] + s[b + 1..e]
  {
  }

  /** Every stretch inside a run of digits is all digits. */
  lemma DigitsWithin(s: string, i: nat, e: nat)
    requires i <= |s| && i <= e <= DigitEnd(s, i)
    ensures AllDigits(s[i..e])
  {
    assert s[i..e] == s[i..DigitEnd(s, i)][..e - i];
  }

  /** Stripping adds no character: one absent from `s` is absent from its strip. */
  lemma StripKeepsOut(s: string, c: char)
    requires c !in s
    ensures forall i :: 0 <= i < |Strip(s)| ==> Strip(s)[i] != c
  {
    StripSpec(s);
    var r := Strip(s);
    var a := StripStart(s);
    forall i | 0 <= i < |r| ensures r[i] != c {
      assert r[i] == s[a + i];
    }
  }

  /** Slices of a prefix are slices of the whole. */
  lemma SliceOfPrefix(s: string, e: nat, i: nat, j: nat)
    requires i <= j <= e <= |s|
    ensures s[..e][i..j] == s[i..j]
  {
  }

  /** Slices of a suffix are slices of the whole. */
  lemma SliceOfSuffix(s: string, i: nat, j: nat)
    requires i + j <= |s|
    ensures s[i..][..j] == s[i..i + j]
    ensures s[i..][j..] == s[i + j..]
  {
  }

  lemma DigitsNoSpace(s: string)
    requires AllDigits(s)
    ensures NoSpace(s)
  {
  }

  /** Words of `spaces + token + space + rest`. */
  lemma WordsOfLeadingToken(r: string, a: nat, d: nat)
    requires a + d < |r| && AllSpace(r[..a]) && d > 0 && NoSpace(r[a..a + d]) && IsSpace(r[a + d])
    ensures Words(r) == [r[a..a + d]] + Words(r[a + d + 1..])
  {
    WordsDropSpace(r, a);
    var x := r[a..];
    SliceOfSuffix(r, a, d);
    SliceOfSuffix(r, a, d + 1);
    assert x[d] == r[a + d];
    WordsAt(x, d);
    WordsOfToken(r[a..a + d]);
  }

  /** Words of two strings separated by a run of whitespace. */
  lemma WordsGap(x: string, w: string, y: string)
    requires w != [] && AllSpace(w)
    ensures Words(x + w + y) == Words(x) + Words(y)
  {
    assert x + w + y == x + [w[0]] + (w[1..] + y);
    WordsAppend(x, w[0], w[1..] + y);
    assert (w[1..] + y)[..|w| - 1] == w[1..];
    WordsDropSpace(w[1..] + y, |w| - 1);
    assert (w[1..] + y)[|w| - 1..] == y;
  }

  /** Cutting a string that ends in a non-space character anywhere before its
      end leaves at least one word in front of a whitespace gap. */
  lemma WordsAfterCut(d: string, q: nat, w: string, z: string)
    requires q < |d| && !IsSpace(d[|d| - 1]) && w != [] && AllSpace(w)
    ensures |Words(d[q..] + w + z)| >= 1 + |Words(z)|
  {
    WordsGap(d[q..], w, z);
    WordsEmpty(d[q..]);
    assert !IsSpace(d[q..][|d| - 1 - q]);
  }
}
