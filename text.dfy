/** Decimal text as the source's formatting produces it, and the reading
    back of such text (the partner that shows nothing is lost). */
module Text {

  datatype Option<T> = None | Some(value: T)

  predicate IsDigit(c: char)
  {
    '0' <= c <= '9'
  }

  predicate AllDigits(s: string)
  {
    forall i :: 0 <= i < |s| ==> IsDigit(s[i])
  }

  function DigitChar(d: nat): (c: char)
    requires d < 10
    ensures IsDigit(c) && c as int - '0' as int == d
  {
    ('0' as int + d) as char
  }

  /** The decimal representation of `n`, without leading zeros. */
  function Digits(n: nat): (s: string)
    ensures |s| >= 1 && AllDigits(s)
    ensures n < 10 ==> |s| == 1
    ensures 10 <= n < 100 ==> |s| == 2
    ensures |s| > 1 ==> s[0] != '0'
  {
    if n < 10 then [DigitChar(n)] else Digits(n / 10) + [DigitChar(n % 10)]
  }

  /** The value of a string of decimal digits. */
  function ParseNat(s: string): nat
    requires AllDigits(s)
  {
    if s == [] then 0 else 10 * ParseNat(s[..|s| - 1]) + (s[|s| - 1] as int - '0' as int)
  }

  /** Reading back the digits of `n` gives `n`. */
  lemma {:induction false} ParseDigits(n: nat)
    ensures ParseNat(Digits(n)) == n
  {
    if n >= 10 {
      var s := Digits(n);
      assert s[..|s| - 1] == Digits(n / 10);
      ParseDigits(n / 10);
    }
  }

  /** `QString::arg(n, 2, 10, QChar('0'))`: decimal, zero-padded to at least two
      characters, a minus sign counting toward the width. */
  function Pad2(n: int): (s: string)
    ensures 0 <= n < 100 ==> |s| == 2
    ensures |s| >= 2
    ensures n >= 0 ==> AllDigits(s) && ParseNat(s) == n
    ensures n < 0 ==> s[0] == '-' && AllDigits(s[1..]) && ParseNat(s[1..]) == -n
    ensures n >= 10 ==> s[0] != '0'
    ensures n < 0 ==> s[1] != '0'
  {
    if n < 0 then
      ParseDigits(-n);
      var s := "-" + Digits(-n);
      assert s[1..] == Digits(-n);
      s
    else if n < 10 then
      var s := "0" + Digits(n);
      assert s[..1] == "0" && ParseNat("0") == 0;
      s
    else
      ParseDigits(n);
      Digits(n)
  }

  /** Padded numbers hold only digits and a leading minus sign. */
  lemma Pad2Chars(n: int)
    ensures forall i :: 0 <= i < |Pad2(n)| ==> IsDigit(Pad2(n)[i]) || Pad2(n)[i] == '-'
  {
    var s := Pad2(n);
    if n < 0 {
      forall i | 1 <= i < |s| ensures IsDigit(s[i]) {
        assert s[i] == s[1..][i - 1];
      }
    }
  }

  /** Outside two digits `arg` adds no padding: a minutes label carrying the
      sign bit prints as "133", and -5 as "-5". */
  lemma Pad2Examples()
    ensures Pad2(133) == "133" && Pad2(-5) == "-5" && Pad2(7) == "07"
  {
  }
}
