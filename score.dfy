/** The score counter's text: the score in decimal, left-padded with '0' to
    four characters, as `toString().padStart(4, "0")` gives it. */
module Score {
  predicate IsDigit(c: char) { '0' <= c <= '9' }

  predicate AllDigits(s: string) { forall i :: 0 <= i < |s| ==> IsDigit(s[i]) }

  function DigitChar(d: int): (c: char)
    requires 0 <= d < 10
    ensures IsDigit(c) && c as int - '0' as int == d
  {
    ('0' as int + d) as char
  }

  function DigitValue(c: char): (d: nat)
    requires IsDigit(c)
    ensures d < 10 && DigitChar(d) == c
  {
    c as int - '0' as int
  }

  function Pow10(k: nat): (p: nat)
    ensures p >= 1
  {
    if k == 0 then 1 else 10 * Pow10(k - 1)
  }

  /** The decimal text of a non-negative integer: at least one digit and no
      leading zero except in "0" itself. */
  function DecimalText(n: nat): (s: string)
    ensures |s| >= 1 && AllDigits(s)
    ensures s[0] == '0' ==> n == 0
    decreases n
  {
    if n < 10 then [DigitChar(n)] else DecimalText(n / 10) + [DigitChar(n % 10)]
  }

  /** The value a string of digits denotes, read most significant digit first. */
  function ParseDecimal(s: string): (n: nat)
    requires AllDigits(s)
    ensures |s| >= 1 ==> n < Pow10(|s|)
  {
    if s == [] then 0 else ParseDecimal(s[..|s| - 1]) * 10 + DigitValue(s[|s| - 1])
  }

  /** `s.padStart(width, fill)` for a one-character fill: the fill goes in
      front until the length is `width`; a string already that long is kept. */
  function PadStart(s: string, width: nat, fill: char): (r: string)
    ensures |r| == if |s| >= width then |s| else width
    ensures r[|r| - |s|..] == s
    ensures forall i :: 0 <= i < |r| - |s| ==> r[i] == fill
  {
    if |s| >= width then s else seq(width - |s|, _ => fill) + s
  }

  /** The text the score counter shows for a score. */
  function ScoreText(score: nat): (t: string)
    ensures |t| >= 4 && AllDigits(t)
  {
    PadStart(DecimalText(score), 4, '0')
  }

  /** Reading back the decimal text of `n` gives `n`. */
  lemma {:induction false} ParseDecimalText(n: nat)
    ensures ParseDecimal(DecimalText(n)) == n
    decreases n
  {
    if n >= 10 {
      var s := DecimalText(n);
      assert s[..|s| - 1] == DecimalText(n / 10);
      ParseDecimalText(n / 10);
    }
  }

  /** Leading zeros do not change the value a digit string denotes. */
  lemma {:induction false} ParseLeadingZeros(k: nat, s: string)
    requires AllDigits(s)
    ensures AllDigits(seq(k, _ => '0') + s)
    ensures ParseDecimal(seq(k, _ => '0') + s) == ParseDecimal(s)
    decreases |s|, k
  {
    var z := seq(k, _ => '0');
    var t := z + s;
    assert AllDigits(t) by {
      forall i | 0 <= i < |t| ensures IsDigit(t[i]) {
        if i < k { assert t[i] == z[i]; } else { assert t[i] == s[i - k]; }
      }
    }
    if s == [] {
      if k > 0 {
        assert t == z;
        assert t[..|t| - 1] == seq(k - 1, _ => '0') + [];
        ParseLeadingZeros(k - 1, []);
      }
    } else {
      assert t[..|t| - 1] == z + s[..|s| - 1];
      ParseLeadingZeros(k, s[..|s| - 1]);
    }
  }

  /** The decimal text has at most `k` digits exactly when `n < 10^k`. */
  lemma {:induction false} DecimalTextLength(n: nat, k: nat)
    requires k >= 1
    ensures |DecimalText(n)| <= k <==> n < Pow10(k)
    decreases k
  {
    if k > 1 {
      assert Pow10(k) == 10 * Pow10(k - 1);
      if n >= 10 {
        DecimalTextLength(n / 10, k - 1);
      } else {
        assert Pow10(k - 1) >= 1;
      }
    }
  }

  /** Scores below 10000 show as exactly four digits that read back as the
      score. */
  lemma ScoreTextRoundTrip(score: nat)
    requires score < 10000
    ensures |ScoreText(score)| == 4
    ensures ParseDecimal(ScoreText(score)) == score
  {
    var d := DecimalText(score);
    DecimalTextLength(score, 4);
    assert Pow10(4) == 10000;
    var t := ScoreText(score);
    if |d| < 4 {
      assert t == seq(4 - |d|, _ => '0') + d;
      ParseLeadingZeros(4 - |d|, d);
    }
    ParseDecimalText(score);
  }

  /** From 10000 on, padding adds nothing: the counter shows the full number. */
  lemma ScoreTextWide(score: nat)
    requires score >= 10000
    ensures ScoreText(score) == DecimalText(score)
  {
    DecimalTextLength(score, 4);
    assert Pow10(4) == 10000;
  }

  /** The counter at the start of a game and after the first food. */
  lemma ScoreTextExamples()
    ensures ScoreText(0) == "0000" && ScoreText(1) == "0001" && ScoreText(7) == "0007"
  {
    assert DecimalText(0) == "0" && DecimalText(1) == "1" && DecimalText(7) == "7";
    assert seq(3, _ => '0') == "000";
  }
}
