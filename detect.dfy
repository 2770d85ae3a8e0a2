/** `detect_file_type`: a page's text is taken for a MercadoPago statement
    when it holds more `DD-MM-YYYY` dates than `DD/MM/YYYY` dates. */
module Detect {
  import opened Text
  import opened Grammar

  /** `s` starts with `\d{2}<sep>\d{2}<sep>\d{4}` (ten characters). */
  predicate DateAt(s: string, sep: char)
  {
    |s| >= 10
    && IsDigit(s[0]) && IsDigit(s[1]) && s[2] == sep
    && IsDigit(s[3]) && IsDigit(s[4]) && s[5] == sep
    && IsDigit(s[6]) && IsDigit(s[7]) && IsDigit(s[8]) && IsDigit(s[9])
  }

  /** `len(re.findall(r'\d{2}<sep>\d{2}<sep>\d{4}', s))`: the scan tries every
      position from the left and resumes after each match, so matches never overlap. */
  function CountDates(s: string, sep: char): (n: nat)
    ensures 10 * n <= |s|
    decreases |s|
  {
    if |s| < 10 then 0
    else if DateAt(s, sep) then 1 + CountDates(s[10..], sep)
    else CountDates(s[1..], sep)
  }

  /** `detect_file_type`: true (MercadoPago) exactly when the dash dates
      outnumber the slash dates; a tie, including none of either, means Asaas. */
  function DetectFileType(text: string): (isMercadoPago: bool)
  {
    CountDates(text, '-') > CountDates(text, '/')
  }

  /** The scan finds a date exactly when some position starts one. */
  lemma {:induction false} CountDatesPositive(s: string, sep: char)
    ensures CountDates(s, sep) > 0 <==> exists i :: 0 <= i <= |s| - 10 && DateAt(s[i..], sep)
    decreases |s|
  {
    if |s| >= 10 {
      if DateAt(s, sep) {
        assert s[0..] == s;
      } else {
        CountDatesPositive(s[1..], sep);
        if exists i :: 0 <= i <= |s[1..]| - 10 && DateAt(s[1..][i..], sep) {
          var i :| 0 <= i <= |s[1..]| - 10 && DateAt(s[1..][i..], sep);
          assert s[1..][i..] == s[i + 1..];
        }
        if exists i :: 0 <= i <= |s| - 10 && DateAt(s[i..], sep) {
          var i :| 0 <= i <= |s| - 10 && DateAt(s[i..], sep);
          assert i != 0;
          assert s[1..][i - 1..] == s[i..];
        }
      }
    }
  }

  /** A text without the separator holds no date of that kind. */
  lemma NoSepNoDates(s: string, sep: char)
    requires sep !in s
    ensures CountDates(s, sep) == 0
  {
    CountDatesPositive(s, sep);
  }

  /** The ten-character window is the fixed-width date shape. */
  lemma DateAtShape(s: string, sep: char)
    requires |s| >= 10 && !IsDigit(sep)
    ensures DateAt(s, sep) <==> DateShape(s[..10], sep, Width(2, 2), Width(2, 2), Width(4, 4))
  {
    var w := s[..10];
    if DateAt(s, sep) {
      assert w == w[..2] + [sep] + w[3..5] + [sep] + w[6..];
      DateShapeOfParts(w[..2], w[3..5], w[6..], sep, Width(2, 2), Width(2, 2), Width(4, 4));
    }
    if DateShape(w, sep, Width(2, 2), Width(2, 2), Width(4, 4)) {
      DateShapeParts(w, sep, Width(2, 2), Width(2, 2), Width(4, 4));
      var f := Split(w, sep);
      assert w[0] == f[0][0] && w[1] == f[0][1] && w[2] == sep;
      assert w[3] == f[1][0] && w[4] == f[1][1] && w[5] == sep;
      assert w[6] == f[2][0] && w[7] == f[2][1] && w[8] == f[2][2] && w[9] == f[2][3];
    }
  }

  /** A text with a dash date and no slash at all is taken for MercadoPago;
      one without a dash is always taken for Asaas. */
  lemma DetectBySeparators(text: string)
    ensures '/' !in text && (exists i :: 0 <= i <= |text| - 10 && DateAt(text[i..], '-'))
      ==> DetectFileType(text)
    ensures '-' !in text ==> !DetectFileType(text)
  {
    if '/' !in text {
      NoSepNoDates(text, '/');
      CountDatesPositive(text, '-');
    }
    if '-' !in text {
      NoSepNoDates(text, '-');
    }
  }
}
