/** Decimal numerals of `usize`: parsing as Rust's `str::parse::<usize>()`
    does it and printing as `format!("{}", n)` does it, on a 64-bit target. */
module Numerals {
  import opened Seqs

  /** One more than `usize::MAX` on a 64-bit target. */
  const UsizeLimit: nat := 0x1_0000_0000_0000_0000

  predicate IsDigit(c: char) {
    '0' <= c <= '9'
  }

  predicate AllDigits(s: string) {
    forall i :: 0 <= i < |s| ==> IsDigit(s[i])
  }

  function DigitValue(c: char): nat
    requires IsDigit(c)
  {
    (c as int - '0' as int) as nat
  }

  function DigitChar(d: nat): (c: char)
    requires d < 10
    ensures IsDigit(c) && DigitValue(c) == d
  {
    ('0' as int + d) as char
  }

  /** The number a string of decimal digits denotes, most significant first. */
  function DigitsValue(s: string): nat
    requires AllDigits(s)
  {
    if s == [] then 0 else DigitsValue(s[..|s| - 1]) * 10 + DigitValue(s[|s| - 1])
  }

  /** `s.parse::<usize>()`, with `None` for every error the standard library
      reports: an empty string, a lone `+`, any character other than a digit
      after an optional leading `+` (a `-` included), and a value that does not
      fit in 64 bits. */
  function ParseUsize(s: string): (r: Option<nat>)
    ensures r.Some? ==> r.value < UsizeLimit
    ensures r.Some? ==> |s| > 0 && (AllDigits(s) || (s[0] == '+' && |s| > 1 && AllDigits(s[1..])))
    ensures |s| > 0 && s[0] != '+' && !AllDigits(s) ==> r.None?
    ensures |s| > 0 && AllDigits(s) ==> r == (if DigitsValue(s) < UsizeLimit then Some(DigitsValue(s)) else None)
    ensures |s| > 1 && s[0] == '+' && AllDigits(s[1..]) ==>
      r == (if DigitsValue(s[1..]) < UsizeLimit then Some(DigitsValue(s[1..])) else None)
  {
    if |s| == 0 then None
    else if s[0] == '+' && |s| == 1 then None
    else
      var digits := if s[0] == '+' then s[1..] else s;
      if AllDigits(digits) && DigitsValue(digits) < UsizeLimit then Some(DigitsValue(digits)) else None
  }

  /** Leading zeros and a leading `+` are accepted; a sign `-` is not. */
  lemma ParseUsizeExamples()
    ensures ParseUsize("007") == Some(7)
    ensures ParseUsize("+5") == Some(5)
    ensures ParseUsize("-5") == None && ParseUsize("+") == None && ParseUsize("") == None
  {
    assert AllDigits("007") && DigitsValue("007") == 7 by {
      assert "007"[..2] == "00" && "00"[..1] == "0" && "0"[..0] == "";
    }
    assert "+5"[1..] == "5" && "5"[..0] == "";
  }

  /** `format!("{}", n)`: the shortest decimal numeral of `n`. */
  function Show(n: nat): (s: string)
    ensures |s| > 0 && AllDigits(s)
    ensures |s| > 1 ==> s[0] != '0'
  {
    if n < 10 then [DigitChar(n)] else Show(n / 10) + [DigitChar(n % 10)]
  }

  lemma {:induction false} ShowValue(n: nat)
    ensures DigitsValue(Show(n)) == n
  {
    if n >= 10 {
      var s := Show(n);
      assert s[..|s| - 1] == Show(n / 10);
      ShowValue(n / 10);
    }
  }

  /** Printing an id and parsing it back gives the id: an id `format!`-ed into
      a path reads back as the same `usize`. */
  lemma ParseShow(n: nat)
    requires n < UsizeLimit
    ensures ParseUsize(Show(n)) == Some(n)
  {
    ShowValue(n);
  }
}
