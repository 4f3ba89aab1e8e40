/** atoi, as far as a calculation of type switch needs it: a total reading of a decimal prefix, without overflow. */
module Numbers {
  import opened Text
  import opened StringTools

  /** The value of the longest prefix of digits, continuing from acc. */
  function Digits(s: string, acc: nat): nat
    decreases |s|
  {
    if s == "" || !IsDigit(s[0]) then acc else Digits(s[1..], 10 * acc + (s[0] - '0') as nat)
  }

  /** White space, an optional sign, digits. */
  function Atoi(s: string): int
    decreases |s|
  {
    if s == "" then 0
    else if IsSpace(s[0]) then Atoi(s[1..])
    else if s[0] == '-' then -(Digits(s[1..], 0) as int)
    else if s[0] == '+' then Digits(s[1..], 0)
    else Digits(s, 0)
  }

  function Decimal(n: nat): string {
    if n < 10 then ['0' + n as char] else Decimal(n / 10) + ['0' + (n % 10) as char]
  }

  ghost predicate AllDigits(s: string) {
    forall i :: 0 <= i < |s| ==> IsDigit(s[i])
  }

  ghost predicate NoLeadingDigit(s: string) {
    s == "" || !IsDigit(s[0])
  }

  lemma {:induction false} DigitsAppend(a: string, b: string, acc: nat)
    requires AllDigits(a)
    ensures Digits(a + b, acc) == Digits(b, Digits(a, acc))
    decreases |a|
  {
    if a == "" {
      assert a + b == b;
    } else {
      assert (a + b)[1..] == a[1..] + b;
      DigitsAppend(a[1..], b, 10 * acc + (a[0] - '0') as nat);
    }
  }

  lemma {:induction false} DecimalReads(n: nat)
    ensures Decimal(n) != "" && AllDigits(Decimal(n)) && Digits(Decimal(n), 0) == n
  {
    if n < 10 {
      assert Decimal(n)[1..] == "";
    } else {
      var d := ['0' + (n % 10) as char];
      DecimalReads(n / 10);
      DigitsAppend(Decimal(n / 10), d, 0);
      assert d[1..] == "";
    }
  }

  lemma {:induction false} AtoiSkips(pad: string, s: string)
    requires AllSpace(pad)
    ensures Atoi(pad + s) == Atoi(s)
    decreases |pad|
  {
    if pad == "" {
      assert pad + s == s;
    } else {
      assert (pad + s)[1..] == pad[1..] + s;
      AtoiSkips(pad[1..], s);
    }
  }

  ghost predicate NoNumber(s: string) {
    s == "" || !(IsSpace(s[0]) || IsDigit(s[0]) || s[0] == '-' || s[0] == '+')
  }

  /** A text that begins no number reads as zero, with or without a sign. */
  lemma {:induction false} AtoiWithoutNumber(pad: string, s: string)
    requires AllSpace(pad)
    ensures NoNumber(s) ==> Atoi(pad + s) == 0
    ensures NoLeadingDigit(s) ==> Atoi(pad + ("+" + s)) == 0 && Atoi(pad + ("-" + s)) == 0
  {
    AtoiSkips(pad, s);
    AtoiSkips(pad, "+" + s);
    AtoiSkips(pad, "-" + s);
    assert ("+" + s)[1..] == s && ("-" + s)[1..] == s;
  }

  /** Atoi inverts decimal printing, whatever white space stands before and whatever text behind. */
  lemma {:induction false} AtoiReadsDecimal(pad: string, n: nat, rest: string)
    requires AllSpace(pad) && NoLeadingDigit(rest)
    ensures Atoi(pad + (Decimal(n) + rest)) == n
    ensures Atoi(pad + ("+" + (Decimal(n) + rest))) == n
    ensures Atoi(pad + ("-" + (Decimal(n) + rest))) == 0 - n
  {
    var text := Decimal(n) + rest;
    DecimalReads(n);
    DigitsAppend(Decimal(n), rest, 0);
    assert text[0] == Decimal(n)[0];
    assert ("+" + text)[1..] == text && ("-" + text)[1..] == text;
    AtoiSkips(pad, text);
    AtoiSkips(pad, "+" + text);
    AtoiSkips(pad, "-" + text);
  }

  // ----- Which texts read as positive -----

  /** White space, an optional plus, digits of which one is not zero, anything. */
  ghost predicate PositiveAs(text: string, pad: string, sign: string, digits: string, rest: string) {
    && text == pad + (sign + (digits + rest))
    && AllSpace(pad) && (sign == "" || sign == "+") && AllDigits(digits)
    && exists i :: 0 <= i < |digits| && digits[i] != '0'
  }

  ghost predicate ReadsPositive(text: string) {
    exists pad, sign, digits, rest :: PositiveAs(text, pad, sign, digits, rest)
  }

  lemma {:induction false} DigitsGrow(s: string, acc: nat)
    ensures Digits(s, acc) >= acc
    decreases |s|
  {
    if s == "" || !IsDigit(s[0]) {
    } else {
      DigitsGrow(s[1..], 10 * acc + (s[0] - '0') as nat);
    }
  }

  lemma {:induction false} NonZeroDigits(digits: string, rest: string, i: nat)
    requires AllDigits(digits) && i < |digits| && digits[i] != '0'
    ensures Digits(digits + rest, 0) > 0
  {
    var front, back := digits[..i], digits[i + 1..] + rest;
    assert digits + rest == front + ([digits[i]] + back);
    DigitsAppend(front, [digits[i]] + back, 0);
    assert ([digits[i]] + back)[1..] == back;
    DigitsGrow(back, 10 * Digits(front, 0) + (digits[i] - '0') as nat);
  }

  /** A number above zero has a digit that is not zero. */
  lemma {:induction false} PositiveDigits(s: string) returns (digits: string, rest: string, i: nat)
    requires Digits(s, 0) > 0
    ensures s == digits + rest && AllDigits(digits) && i < |digits| && digits[i] != '0'
    decreases |s|
  {
    if s[0] == '0' {
      var ds, r, k := PositiveDigits(s[1..]);
      digits, rest, i := [s[0]] + ds, r, k + 1;
    } else {
      digits, rest, i := [s[0]], s[1..], 0;
    }
  }

  lemma {:induction false} AtoiOfPositive(text: string, pad: string, sign: string, digits: string, rest: string)
    requires PositiveAs(text, pad, sign, digits, rest)
    ensures Atoi(text) > 0
  {
    var i :| 0 <= i < |digits| && digits[i] != '0';
    NonZeroDigits(digits, rest, i);
    AtoiSkips(pad, sign + (digits + rest));
    if sign == "" {
      assert sign + (digits + rest) == digits + rest;
      assert (digits + rest)[0] == digits[0];
    } else {
      assert (sign + (digits + rest))[1..] == digits + rest;
    }
  }

  lemma {:induction false} PositiveOfAtoi(text: string)
    requires Atoi(text) > 0
    ensures ReadsPositive(text)
    decreases |text|
  {
    if IsSpace(text[0]) {
      PositiveOfAtoi(text[1..]);
      var pad, sign, digits, rest :| PositiveAs(text[1..], pad, sign, digits, rest);
      assert text == ([text[0]] + pad) + (sign + (digits + rest));
      assert PositiveAs(text, [text[0]] + pad, sign, digits, rest);
    } else if text[0] == '+' {
      var digits, rest, i := PositiveDigits(text[1..]);
      assert text == "" + ("+" + (digits + rest));
      assert PositiveAs(text, "", "+", digits, rest);
    } else {
      var digits, rest, i := PositiveDigits(text);
      assert text == "" + ("" + (digits + rest));
      assert PositiveAs(text, "", "", digits, rest);
    }
  }

  /** Exactly which texts atoi reads as a number above zero. */
  lemma {:induction false} AtoiPositiveExactly(text: string)
    ensures Atoi(text) > 0 <==> ReadsPositive(text)
  {
    if Atoi(text) > 0 {
      PositiveOfAtoi(text);
    }
    if ReadsPositive(text) {
      var pad, sign, digits, rest :| PositiveAs(text, pad, sign, digits, rest);
      AtoiOfPositive(text, pad, sign, digits, rest);
    }
  }
}
