/**
  The few Python string built-ins the modelled code relies on: `str(n)` for
  integers, `int(text)`, `str.zfill`, `chr` and `os.path.join` with two
  arguments on POSIX paths.
 */
module PyText {
  import opened Outcomes

  predicate IsDigit(ch: char) { '0' <= ch <= '9' }

  predicate AllDigits(s: string) { forall k | 0 <= k < |s| :: IsDigit(s[k]) }

  function DigitChar(d: nat): (ch: char)
    requires d < 10
    ensures IsDigit(ch)
  {
    ('0' as int + d) as char
  }

  /** The value of a string of decimal digits, most significant first. */
  function DigitsValue(s: string): nat
    requires AllDigits(s)
  {
    if s == [] then 0 else 10 * DigitsValue(s[..|s| - 1]) + (s[|s| - 1] as int - '0' as int)
  }

  /** `str(n)` for `n >= 0`: the shortest decimal numeral of n. */
  function NatString(n: nat): (s: string)
    ensures |s| > 0 && AllDigits(s)
    ensures n < 10 <==> |s| == 1
  {
    if n < 10 then [DigitChar(n)] else NatString(n / 10) + [DigitChar(n % 10)]
  }

  /** `str(n)` for any integer. */
  function DecimalString(n: int): string {
    if n < 0 then "-" + NatString(-n) else NatString(n)
  }

  /**
    `int(text)` for a numeral with an optional sign: `Some(value)`, or None
    where Python raises ValueError.
   */
  function ParseInt(s: string): Option<int> {
    if |s| > 0 && (s[0] == '-' || s[0] == '+') then
      var body := s[1..];
      if |body| > 0 && AllDigits(body) then
        Some(if s[0] == '-' then -(DigitsValue(body) as int) else DigitsValue(body))
      else None
    else if |s| > 0 && AllDigits(s) then Some(DigitsValue(s))
    else None
  }

  /** `str.zfill(width)`: pad with zeros on the left, after a leading sign. */
  function ZFill(s: string, width: nat): (r: string)
    ensures |r| == if |s| >= width then |s| else width
  {
    if |s| >= width then s
    else
      var zeros := seq(width - |s|, _ => '0');
      if |s| > 0 && (s[0] == '+' || s[0] == '-') then [s[0]] + zeros + s[1..]
      else zeros + s
  }

  /** `chr(code)`, failing for code points a Dafny string cannot hold. */
  function Chr(code: int): Result<char> {
    if 0 <= code < 0xD800 || 0xE000 <= code < 0x11_0000 then Ok(code as char)
    else Err(CodePointOutOfRange(code))
  }

  /** `os.path.join(a, b)` on POSIX paths. */
  function JoinPath(a: string, b: string): (r: string)
    ensures |b| > 0 && b[0] == '/' ==> r == b
  {
    if |b| > 0 && b[0] == '/' then b
    else if a == [] || a[|a| - 1] == '/' then a + b
    else a + "/" + b
  }

  /** `int(str(n)) == n` for every natural number. */
  lemma {:induction false} NatStringValue(n: nat)
    ensures DigitsValue(NatString(n)) == n
  {
    if n >= 10 {
      NatStringValue(n / 10);
      var s := NatString(n);
      assert s[..|s| - 1] == NatString(n / 10);
    }
  }

  /** `int(str(n)) == n` for every integer: the round trip of the numerals used for well and channel names. */
  lemma {:induction false} ParseDecimalString(n: int)
    ensures ParseInt(DecimalString(n)) == Some(n)
  {
    var digits := NatString(if n < 0 then -n else n);
    NatStringValue(if n < 0 then -n else n);
    assert !IsDigit('-');
    if n < 0 {
      var s := "-" + digits;
      assert DecimalString(n) == s;
      assert s[1..] == digits;
      assert ParseInt(s) == Some(-(DigitsValue(digits) as int));
    } else {
      assert DecimalString(n) == digits;
      assert digits[0] != '-' && digits[0] != '+' by { assert IsDigit(digits[0]); }
    }
  }

  /** Leading zeros do not change the value of a numeral. */
  lemma {:induction false} LeadingZerosValue(k: nat, s: string)
    requires AllDigits(s)
    ensures AllDigits(seq(k, _ => '0') + s)
    ensures DigitsValue(seq(k, _ => '0') + s) == DigitsValue(s)
  {
    var z := seq(k, _ => '0');
    if s == [] {
      assert z + s == z;
      ZerosValue(k);
    } else {
      LeadingZerosValue(k, s[..|s| - 1]);
      assert (z + s)[..|z + s| - 1] == z + s[..|s| - 1];
    }
  }

  lemma {:induction false} ZerosValue(k: nat)
    ensures AllDigits(seq(k, _ => '0')) && DigitsValue(seq(k, _ => '0')) == 0
  {
    if k > 0 {
      ZerosValue(k - 1);
      assert seq(k, _ => '0')[..k - 1] == seq(k - 1, _ => '0');
    }
  }

  /**
    Zero-padding a numeral keeps the number it denotes and keeps the numeral
    as its suffix: `int(s.zfill(w)) == int(s)`.
   */
  lemma ZFillDigits(s: string, width: nat)
    requires |s| > 0 && AllDigits(s)
    ensures AllDigits(ZFill(s, width))
    ensures DigitsValue(ZFill(s, width)) == DigitsValue(s)
    ensures ZFill(s, width)[|ZFill(s, width)| - |s|..] == s
  {
    if |s| < width {
      LeadingZerosValue(width - |s|, s);
    }
  }
}
