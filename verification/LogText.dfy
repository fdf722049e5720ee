/** Numbers and words in a text log: what printf writes and atoi and the hex reader get back. */
module LogText {
  import opened Options

  // ---------------------------------------------------------------- decimal

  function Digit(d: nat): (c: char)
    requires d < 10
    ensures '0' <= c <= '9'
  {
    ('0' as int + d) as char
  }

  predicate IsDigit(c: char) {
    '0' <= c <= '9'
  }

  function DigitOf(c: char): (d: nat)
    requires IsDigit(c)
    ensures d < 10 && Digit(d) == c
  {
    c as int - '0' as int
  }

  /** %d of a number that is not negative */
  function Decimal(n: nat): (s: string)
    ensures s != "" && forall i :: 0 <= i < |s| ==> IsDigit(s[i])
  {
    if n < 10 then [Digit(n)] else Decimal(n / 10) + [Digit(n % 10)]
  }

  /** %d */
  function Printed(n: int): (s: string)
    ensures s != "" && forall i :: 0 <= i < |s| ==> s[i] > ' '
  {
    if n < 0 then "-" + Decimal(-n) else Decimal(n)
  }

  /** The digits at the start of a string, as a number; what comes before is acc. */
  function Digits(s: string, acc: nat): nat {
    if s == "" || !IsDigit(s[0]) then acc else Digits(s[1..], 10 * acc + DigitOf(s[0]))
  }

  /** atoi, on a string without leading blanks */
  function Atoi(s: string): int {
    if s != "" && s[0] == '-' then 0 - Digits(s[1..], 0)
    else if s != "" && s[0] == '+' then Digits(s[1..], 0)
    else Digits(s, 0)
  }

  lemma {:induction false} DigitsOfDecimal(n: nat, rest: string)
    requires rest == "" || !IsDigit(rest[0])
    ensures Digits(Decimal(n) + rest, 0) == n
    decreases n
  {
    if n < 10 {
      assert ([Digit(n)] + rest)[1..] == rest;
    } else {
      DigitsJoin(Decimal(n / 10), [Digit(n % 10)] + rest, 0);
      assert Decimal(n) + rest == Decimal(n / 10) + ([Digit(n % 10)] + rest);
      DigitsOfDecimal(n / 10, "");
      assert Decimal(n / 10) + "" == Decimal(n / 10);
      assert ([Digit(n % 10)] + rest)[1..] == rest;
    }
  }

  /** Digits are read on from what was read before. */
  lemma {:induction false} DigitsJoin(s: string, t: string, acc: nat)
    requires forall i :: 0 <= i < |s| ==> IsDigit(s[i])
    ensures Digits(s + t, acc) == Digits(t, Digits(s, acc))
    decreases |s|
  {
    if s == "" {
      assert s + t == t;
    } else {
      assert (s + t)[1..] == s[1..] + t;
      DigitsJoin(s[1..], t, 10 * acc + DigitOf(s[0]));
    }
  }

  /** atoi undoes %d. */
  lemma AtoiPrinted(n: int)
    ensures Atoi(Printed(n)) == n
  {
    if n < 0 {
      DigitsOfDecimal(-n, "");
      assert Decimal(-n) + "" == Decimal(-n) && Printed(n)[1..] == Decimal(-n);
    } else {
      DigitsOfDecimal(n, "");
      assert Decimal(n) + "" == Decimal(n);
      assert IsDigit(Decimal(n)[0]);
    }
  }

  // ---------------------------------------------------------------- unsigned numbers of any base

  const ULONG: nat := 0x1_0000_0000_0000_0000

  function OctalDigits(s: string, acc: nat): nat {
    if s == "" || !('0' <= s[0] <= '7') then acc else OctalDigits(s[1..], 8 * acc + DigitOf(s[0]))
  }

  function HexDigits(s: string, acc: nat): nat {
    if s == "" || HexValue(s[0]) == 16 then acc else HexDigits(s[1..], 16 * acc + HexValue(s[0]))
  }

  /** The number at the start of a string, in the base its first digits tell. */
  function Magnitude(s: string): nat {
    if |s| >= 2 && s[0] == '0' && s[1] in {'x', 'X'} then HexDigits(s[2..], 0)
    else if s != "" && s[0] == '0' then OctalDigits(s, 0)
    else Digits(s, 0)
  }

  /** strtoul with base 0: a minus sign wraps, what does not fit is the largest number. */
  function Strtoul(s: string): (n: nat)
    ensures n < ULONG
  {
    var t := Unspaced(s);
    var minus := t != "" && t[0] == '-';
    var m := Magnitude(if minus || (t != "" && t[0] == '+') then t[1..] else t);
    if m >= ULONG then ULONG - 1 else if minus then (ULONG - m) % ULONG else m
  }

  lemma {:induction false} NoLeadingZero(n: nat)
    requires n > 0
    ensures Decimal(n)[0] != '0'
    decreases n
  {
    if n >= 10 { NoLeadingZero(n / 10); }
  }

  lemma MagnitudeOfDecimal(n: nat)
    ensures Magnitude(Decimal(n)) == n
  {
    DigitsOfDecimal(n, "");
    assert Decimal(n) + "" == Decimal(n);
    if n > 0 {
      NoLeadingZero(n);
    } else {
      assert Decimal(0) == "0";
      assert OctalDigits("0", 0) == OctalDigits("0"[1..], 0);
    }
  }

  /** strtoul undoes %d, up to the wrap of negative numbers, with a space before it or not. */
  lemma StrtoulPrinted(n: int, s: string)
    requires 0 < n + ULONG && n < ULONG && (s == Printed(n) || s == " " + Printed(n))
    ensures Strtoul(s) == n % ULONG
  {
    hide Decimal, Magnitude;
    var w := Printed(n);
    assert w[0] != ' ';
    if s != w { assert s[1..] == w; }
    assert Unspaced(s) == w;
    if n < 0 {
      assert w[1..] == Decimal(-n);
      MagnitudeOfDecimal(-n);
    } else {
      assert IsDigit(Decimal(n)[0]);
      MagnitudeOfDecimal(n);
    }
  }

  // ---------------------------------------------------------------- decimal fractions

  const SCALE: nat := 100_000_000

  /** The lowest k digits of a number. */
  function Padded(n: nat, k: nat): (s: string)
    ensures |s| == k && forall i :: 0 <= i < k ==> IsDigit(s[i])
  {
    if k == 0 then "" else Padded(n / 10, k - 1) + [Digit(n % 10)]
  }

  /** %.8f of a number of hundred-millionths */
  function Fixed(x: int): (s: string)
    ensures s != "" && forall i :: 0 <= i < |s| ==> s[i] > ' '
  {
    var n := if x < 0 then -x else x;
    (if x < 0 then "-" else "") + Decimal(n / SCALE) + "." + Padded(n % SCALE, 8)
  }

  /** How many digits a string starts with. */
  function DigitRun(s: string): (n: nat)
    ensures n <= |s|
  {
    if s == "" || !IsDigit(s[0]) then 0 else 1 + DigitRun(s[1..])
  }

  function Pow10(k: nat): (p: nat)
    ensures p > 0
  {
    if k == 0 then 1 else 10 * Pow10(k - 1)
  }

  /** A number without sign, and perhaps a fraction. */
  function Fraction(s: string): real {
    var i := DigitRun(s);
    if i < |s| && s[i] == '.' then
      Digits(s, 0) as real + Digits(s[i + 1..], 0) as real / Pow10(DigitRun(s[i + 1..])) as real
    else Digits(s, 0) as real
  }

  /** atof, for numbers without exponent, on a string without leading blanks */
  function Atof(s: string): real {
    if s != "" && s[0] == '-' then 0.0 - Fraction(s[1..])
    else if s != "" && s[0] == '+' then Fraction(s[1..])
    else Fraction(s)
  }

  lemma {:induction false} DigitRunOf(s: string, t: string)
    requires (forall i :: 0 <= i < |s| ==> IsDigit(s[i])) && (t == "" || !IsDigit(t[0]))
    ensures DigitRun(s + t) == |s|
  {
    if s == "" {
      assert s + t == t;
    } else {
      assert (s + t)[1..] == s[1..] + t;
      DigitRunOf(s[1..], t);
    }
  }

  lemma {:induction false} DigitsOfPadded(n: nat, k: nat)
    requires n < Pow10(k)
    ensures Digits(Padded(n, k), 0) == n
    decreases k
  {
    if k > 0 {
      DigitsOfPadded(n / 10, k - 1);
      DigitsJoin(Padded(n / 10, k - 1), [Digit(n % 10)], 0);
      assert [Digit(n % 10)][1..] == "";
    }
  }

  lemma FractionOfFixed(n: nat)
    ensures Fraction(Decimal(n / SCALE) + "." + Padded(n % SCALE, 8)) == n as real / SCALE as real
  {
    hide Decimal, Padded;
    var w, f := Decimal(n / SCALE), Padded(n % SCALE, 8);
    var s := w + "." + f;
    assert s == w + ("." + f);
    DigitRunOf(w, "." + f);
    DigitsOfDecimal(n / SCALE, "." + f);
    assert s[|w| + 1..] == f;
    assert f + "" == f;
    DigitRunOf(f, "");
    assert Pow10(8) == SCALE;
    DigitsOfPadded(n % SCALE, 8);
    assert n == n / SCALE * SCALE + n % SCALE;
  }

  /** atof undoes %.8f. */
  lemma AtofFixed(x: int)
    ensures Atof(Fixed(x)) == x as real / SCALE as real
  {
    hide Decimal, Padded, Fraction;
    var n := if x < 0 then -x else x;
    FractionOfFixed(n);
    var u := Decimal(n / SCALE) + "." + Padded(n % SCALE, 8);
    assert IsDigit(u[0]);
    if x < 0 {
      assert Fixed(x)[1..] == u;
    } else {
      assert Fixed(x) == u;
    }
  }

  // ---------------------------------------------------------------- words

  /** The string from its first character that is no space. */
  function Unspaced(s: string): (r: string)
    ensures |r| <= |s| && (r == "" || r[0] != ' ')
  {
    if s != "" && s[0] == ' ' then Unspaced(s[1..]) else s
  }

  /** How long the first word is. */
  function WordLength(s: string): (n: nat)
    ensures n <= |s| && (n < |s| ==> s[n] <= ' ') && forall i :: 0 <= i < n ==> s[i] > ' '
  {
    if s == "" || s[0] <= ' ' then 0 else 1 + WordLength(s[1..])
  }

  lemma {:induction false} WordOf(w: string, t: string)
    requires (forall i :: 0 <= i < |w| ==> w[i] > ' ') && (t == "" || t[0] <= ' ')
    ensures WordLength(w + t) == |w|
  {
    if w == "" {
      assert w + t == t;
    } else {
      assert (w + t)[1..] == w[1..] + t;
      WordOf(w[1..], t);
    }
  }

  // ---------------------------------------------------------------- hexadecimal

  function HexDigit(d: nat): char
    requires d < 16
  {
    if d < 10 then ('0' as int + d) as char else ('a' as int + (d - 10)) as char
  }

  /** The value of a hexadecimal digit in either case; 16 for any other character. */
  function HexValue(c: char): (d: nat)
    ensures d <= 16
  {
    if '0' <= c <= '9' then c as int - '0' as int
    else if 'a' <= c <= 'f' then c as int - 'a' as int + 10
    else if 'A' <= c <= 'F' then c as int - 'A' as int + 10
    else 16
  }

  /** " %02x" of each byte */
  function HexText(bytes: seq<nat>): string
    requires forall i :: 0 <= i < |bytes| ==> bytes[i] < 256
  {
    if bytes == [] then "" else [' ', HexDigit(bytes[0] / 16), HexDigit(bytes[0] % 16)] + HexText(bytes[1..])
  }

  /** Reads n bytes, each of two digits, with spaces before them. */
  function HexBytes(s: string, n: nat): (r: Option<seq<nat>>)
    ensures r.Some? ==> |r.value| == n
    decreases n
  {
    if n == 0 then Some([])
    else
      var t := Unspaced(s);
      if |t| < 2 || HexValue(t[0]) == 16 || HexValue(t[1]) == 16 then None
      else
        var rest := HexBytes(t[2..], n - 1);
        if rest.None? then None else Some([16 * HexValue(t[0]) + HexValue(t[1])] + rest.value)
  }

  /** The first octet is read back from its two digits. */
  lemma FirstOctet(b: nat, text: string)
    requires b < 256
    ensures var s := " " + [HexDigit(b / 16), HexDigit(b % 16)] + text;
      |Unspaced(s)| >= 2 && HexValue(Unspaced(s)[0]) == b / 16 && HexValue(Unspaced(s)[1]) == b % 16
      && Unspaced(s)[2..] == text && 16 * (b / 16) + b % 16 == b
  {
    var s := " " + [HexDigit(b / 16), HexDigit(b % 16)] + text;
    assert s[1..] == [HexDigit(b / 16), HexDigit(b % 16)] + text;
    assert Unspaced(s) == Unspaced(s[1..]) == s[1..];
    assert s[1..][2..] == text;
  }

  /** Reading undoes printing. */
  lemma {:induction false} HexRoundTrip(bytes: seq<nat>, rest: string)
    requires forall i :: 0 <= i < |bytes| ==> bytes[i] < 256
    ensures HexBytes(HexText(bytes) + rest, |bytes|) == Some(bytes)
  {
    hide HexDigit, HexValue, Unspaced;
    if bytes != [] {
      HexRoundTrip(bytes[1..], rest);
      FirstOctet(bytes[0], HexText(bytes[1..]) + rest);
      assert HexText(bytes) + rest
          == " " + [HexDigit(bytes[0] / 16), HexDigit(bytes[0] % 16)] + (HexText(bytes[1..]) + rest);
      assert bytes == [bytes[0]] + bytes[1..];
    }
  }

  // ---------------------------------------------------------------- samples

  lemma DecimalStep(n: nat)
    ensures n < 10 ==> Decimal(n) == [Digit(n)]
    ensures n >= 10 ==> Decimal(n) == Decimal(n / 10) + [Digit(n % 10)]
  {}

  /** What printf writes. */
  lemma PrintedSamples()
    ensures Decimal(1023) == "1023" && Printed(-62) == "-62"
    ensures HexText([0x0a, 0xff]) == " 0a ff"
  {
    hide Decimal;
    DecimalStep(1023);
    DecimalStep(102);
    DecimalStep(10);
    DecimalStep(1);
    DecimalStep(62);
    DecimalStep(6);
    assert [0x0a, 0xff][1..] == [0xff] && HexText([0xff]) == " ff";
  }

  lemma DigitsStep(s: string, acc: nat)
    ensures s == "" || !IsDigit(s[0]) ==> Digits(s, acc) == acc
    ensures s != "" && IsDigit(s[0]) ==> Digits(s, acc) == Digits(s[1..], 10 * acc + DigitOf(s[0]))
  {}

  /** What atoi takes from a word, and strtoul in each of its bases. */
  lemma ReadSamples()
    ensures Atoi("-62 x") == -62 && Atoi("+7") == 7
    ensures Strtoul("90") == 90 && Strtoul("0x1f") == 31 && Strtoul("017") == 15 && Strtoul("-1") == ULONG - 1
  {
    hide Digits, HexDigits, OctalDigits;
    assert "-62 x"[1..] == "62 x" && "62 x"[1..] == "2 x" && "2 x"[1..] == " x";
    DigitsStep("62 x", 0);
    DigitsStep("2 x", 6);
    DigitsStep(" x", 62);
    assert "+7"[1..] == "7" && "7"[1..] == "" && "-1"[1..] == "1" && "1"[1..] == "";
    DigitsStep("7", 0);
    DigitsStep("", 7);
    DigitsStep("1", 0);
    DigitsStep("", 1);
    assert "90"[1..] == "0" && "0"[1..] == "";
    DigitsStep("90", 0);
    DigitsStep("0", 9);
    DigitsStep("", 90);
    BaseSamples();
  }

  lemma BaseSamples()
    ensures HexDigits("0x1f"[2..], 0) == 31 && OctalDigits("017", 0) == 15
  {
    assert "0x1f"[2..] == "1f" && "1f"[1..] == "f" && "f"[1..] == "";
    assert HexDigits("f", 1) == HexDigits("", 31) == 31;
    assert "017"[1..] == "17" && "17"[1..] == "7" && "7"[1..] == "";
    assert OctalDigits("7", 1) == OctalDigits("", 15) == 15;
  }
}
