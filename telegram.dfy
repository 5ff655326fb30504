/**
 * The two pure helpers of the Telegram service: the random numeric
 * verification code and the display form of a phone number.  Sending
 * messages is not part of this model.
 */
module Telegram {
  import opened Text

  /**
   * `generate_verification_code(length)`: `picks` are the digits
   * `random.choices` drew, one per position (none for a length of zero or
   * less).
   */
  function GenerateVerificationCode(length: int, picks: seq<nat>): (code: string)
    requires |picks| == (if length > 0 then length else 0)
    requires forall k :: 0 <= k < |picks| ==> picks[k] < 10
    ensures |code| == (if length > 0 then length else 0)
    ensures forall k :: 0 <= k < |code| ==> IsDigit(code[k]) && DigitValue(code[k]) == picks[k]
  {
    seq(|picks|, k requires 0 <= k < |picks| => DigitChar(picks[k]))
  }

  /** Every draw gives a different code: the code determines the digits drawn. */
  lemma CodeDeterminesPicks(length: int, a: seq<nat>, b: seq<nat>)
    requires |a| == |b| == (if length > 0 then length else 0)
    requires forall k :: 0 <= k < |a| ==> a[k] < 10 && b[k] < 10
    requires GenerateVerificationCode(length, a) == GenerateVerificationCode(length, b)
    ensures a == b
  {
    var c := GenerateVerificationCode(length, a);
    forall k | 0 <= k < |a| ensures a[k] == b[k] {
      assert DigitValue(c[k]) == a[k];
      assert DigitValue(GenerateVerificationCode(length, b)[k]) == b[k];
    }
  }

  /** `''.join(filter(str.isdigit, s))`, for the ASCII digits. */
  function Digits(s: string): (d: string)
    ensures |d| <= |s|
    ensures forall k :: 0 <= k < |d| ==> IsDigit(d[k])
  {
    if s == [] then []
    else (if IsDigit(s[0]) then [s[0]] else []) + Digits(s[1..])
  }

  lemma {:induction false} DigitsAppend(a: string, b: string)
    ensures Digits(a + b) == Digits(a) + Digits(b)
  {
    if a == [] {
      assert a + b == b;
    } else {
      var h := if IsDigit(a[0]) then [a[0]] else [];
      assert (a + b)[0] == a[0] && (a + b)[1..] == a[1..] + b;
      DigitsAppend(a[1..], b);
      calc {
        Digits(a + b);
        h + Digits(a[1..] + b);
        h + (Digits(a[1..]) + Digits(b));
        (h + Digits(a[1..])) + Digits(b);
      }
    }
  }

  lemma {:induction false} DigitsOfDigits(s: string)
    requires forall k :: 0 <= k < |s| ==> IsDigit(s[k])
    ensures Digits(s) == s
  {
    if s != [] {
      DigitsOfDigits(s[1..]);
    }
  }

  /** Python's `s[i:j]` for `0 <= i <= j`: the bounds are clipped to the length. */
  function Slice(s: string, i: nat, j: nat): (r: string)
    requires i <= j
    ensures |r| <= j - i
    ensures j <= |s| ==> r == s[i..j]
  {
    var hi := if j <= |s| then j else |s|;
    var lo := if i <= hi then i else hi;
    s[lo..hi]
  }

  predicate StartsWith998(d: string)
  {
    |d| >= 3 && d[..3] == "998"
  }

  /**
   * `format_phone_number`: with at least nine digits the digits are grouped
   * as `+998 XX XXX XX XX`, reusing a leading 998 as the country code and
   * otherwise putting it in front; with fewer the input comes back as it is.
   */
  function FormatPhoneNumber(phone: string): (r: string)
    ensures |Digits(phone)| < 9 ==> r == phone
    ensures |Digits(phone)| >= 9 ==> |r| > 0 && r[0] == '+'
    ensures |Digits(phone)| >= 9 && !StartsWith998(Digits(phone)) ==> |r| == 17 && r[..5] == "+998 "
  {
    var d := Digits(phone);
    if |d| >= 9 then
      if StartsWith998(d) then
        "+" + Slice(d, 0, 3) + " " + Slice(d, 3, 5) + " " + Slice(d, 5, 8) + " " + Slice(d, 8, 10) + " " + Slice(d, 10, 12)
      else
        "+998 " + d[..2] + " " + d[2..5] + " " + d[5..7] + " " + d[7..9]
    else phone
  }

  /** Only the digits of the input matter: punctuation and spaces never change the display form. */
  lemma OnlyDigitsMatter(a: string, b: string)
    requires Digits(a) == Digits(b) && |Digits(a)| >= 9
    ensures FormatPhoneNumber(a) == FormatPhoneNumber(b)
  {
  }

  /** Appending a space and a group of digits appends exactly that group to the digits. */
  lemma AppendGroup(x: string, g: string)
    requires forall k :: 0 <= k < |g| ==> IsDigit(g[k])
    ensures Digits(x + " " + g) == Digits(x) + g
  {
    var xs := x + " ";
    calc {
      Digits(xs + g);
      { DigitsAppend(xs, g); }
      Digits(xs) + Digits(g);
      { DigitsOfDigits(g); }
      Digits(xs) + g;
      { DigitsAppend(x, " "); NoDigitInSpace(); assert Digits(xs) == Digits(x) + []; }
      (Digits(x) + []) + g;
      { assert Digits(x) + [] == Digits(x); }
      Digits(x) + g;
    }
  }

  lemma NoDigitInSpace()
    ensures Digits(" ") == []
  {
    assert " "[1..] == [];
  }

  /**
   * What the display form keeps of the number: with a leading 998, the first
   * twelve digits; otherwise 998 and the first nine digits.  Digits past
   * those are dropped.
   */
  lemma FormattedDigits(phone: string)
    requires |Digits(phone)| >= 9
    ensures var d := Digits(phone);
      Digits(FormatPhoneNumber(phone)) == if StartsWith998(d) then d[..if |d| < 12 then |d| else 12] else "998" + d[..9]
  {
    var d := Digits(phone);
    if StartsWith998(d) {
      var n10 := if |d| < 10 then |d| else 10;
      var n12 := if |d| < 12 then |d| else 12;
      assert FormatPhoneNumber(phone) == "+" + d[..3] + " " + d[3..5] + " " + d[5..8] + " " + d[8..n10] + " " + d[n10..n12];
      GroupedDigits998(d, n10, n12);
    } else {
      assert FormatPhoneNumber(phone) == "+998 " + d[..2] + " " + d[2..5] + " " + d[5..7] + " " + d[7..9];
      GroupedDigitsOther(d);
    }
  }

  lemma GroupedDigits998(d: string, n10: nat, n12: nat)
    requires forall k :: 0 <= k < |d| ==> IsDigit(d[k])
    requires 8 <= n10 <= n12 <= |d| && n10 <= 10
    ensures Digits("+" + d[..3] + " " + d[3..5] + " " + d[5..8] + " " + d[8..n10] + " " + d[n10..n12]) == d[..n12]
  {
    var s0 := "+" + d[..3];
    var s1 := s0 + " " + d[3..5];
    var s2 := s1 + " " + d[5..8];
    var s3 := s2 + " " + d[8..n10];
    assert Digits(s0) == d[..3] by {
      DigitsAppend("+", d[..3]);
      DigitsOfDigits(d[..3]);
      assert "+"[1..] == [];
    }
    assert Digits(s1) == d[..5] by {
      AppendGroup(s0, d[3..5]);
      assert d[..3] + d[3..5] == d[..5];
    }
    assert Digits(s2) == d[..8] by {
      AppendGroup(s1, d[5..8]);
      assert d[..5] + d[5..8] == d[..8];
    }
    assert Digits(s3) == d[..n10] by {
      AppendGroup(s2, d[8..n10]);
      assert d[..8] + d[8..n10] == d[..n10];
    }
    AppendGroup(s3, d[n10..n12]);
    assert d[..n10] + d[n10..n12] == d[..n12];
  }

  lemma GroupedDigitsOther(d: string)
    requires forall k :: 0 <= k < |d| ==> IsDigit(d[k])
    requires |d| >= 9
    ensures Digits("+998 " + d[..2] + " " + d[2..5] + " " + d[5..7] + " " + d[7..9]) == "998" + d[..9]
  {
    var s0 := "+998 " + d[..2];
    var s1 := s0 + " " + d[2..5];
    var s2 := s1 + " " + d[5..7];
    assert Digits(s0) == "998" + d[..2] by {
      DigitsAppend("+998 ", d[..2]);
      DigitsOfDigits(d[..2]);
      assert Digits("+998 ") == "998";
    }
    assert Digits(s1) == "998" + d[..5] by {
      AppendGroup(s0, d[2..5]);
      assert "998" + d[..2] + d[2..5] == "998" + d[..5];
    }
    assert Digits(s2) == "998" + d[..7] by {
      AppendGroup(s1, d[5..7]);
      assert "998" + d[..5] + d[5..7] == "998" + d[..7];
    }
    AppendGroup(s2, d[7..9]);
    assert "998" + d[..7] + d[7..9] == "998" + d[..9];
  }

  /** A number of exactly nine digits that already starts with 998 is shown with an empty last group, so it ends in a space. */
  lemma NineDigitsWith998EndInSpace(phone: string)
    requires |Digits(phone)| == 9 && StartsWith998(Digits(phone))
    ensures var r := FormatPhoneNumber(phone); |r| == 14 && r[13] == ' '
  {
  }
}
