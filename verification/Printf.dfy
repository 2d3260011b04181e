/** Number formatting and the parsing of field widths (printf.c). */
module Printf {
  import opened Bits

  type s64 = x: int | -0x8000_0000_0000_0000 <= x < 0x8000_0000_0000_0000
  type s32 = x: int | -0x8000_0000 <= x < 0x8000_0000

  const DIGITS := "0123456789abcdef"

  // ---- numerals ----

  function Quotient(n: nat, base: nat): (q: nat)
    requires base >= 2
    ensures (n > 0 ==> q < n) && q <= n && (n >= base <==> q >= 1)
  {
    QuotientLess(n, base);
    n / base
  }

  function Remainder(n: nat, base: nat): (d: nat)
    requires base >= 2
    ensures d < base && n == Quotient(n, base) * base + d
  {
    QuotientLess(n, base);
    n % base
  }

  lemma SplitUnique(n: nat, base: nat, q: nat, d: nat)
    requires base >= 2 && n == q * base + d && d < base
    ensures Quotient(n, base) == q && Remainder(n, base) == d
  {
    DivModUnique(n, base, q, d);
  }

  /** The shortest numeral of n. */
  function Numeral(n: nat, base: nat): (s: string)
    requires 2 <= base <= 16
    ensures |s| >= 1
  {
    if n < base then [DIGITS[n]] else Numeral(Quotient(n, base), base) + [DIGITS[Remainder(n, base)]]
  }

  lemma QuotientLess(n: nat, base: nat)
    requires base >= 2
    ensures n == n / base * base + n % base && 0 <= n % base < base && n / base >= 0
    ensures n > 0 ==> n / base < n
    ensures n >= base <==> n / base >= 1
  {
    var q, r := n / base, n % base;
    assert n == q * base + r;
    if n < base {
      DivModUnique(n, base, 0, n);
    } else if q <= 0 {
      Negate(q, base);
      if q < 0 { MulAtLeast(-q, base); }
    } else {
      MulDistributes(base, 2, q);
      if base > 2 { MulAtLeast(base - 2, q); }
    }
  }

  lemma Negate(q: int, d: int)
    ensures -q * d == -(q * d) && 0 * d == 0
  {}

  predicate IsDigit(c: char) {
    '0' <= c <= '9'
  }

  predicate IsHex(c: char) {
    IsDigit(c) || 'a' <= c <= 'f'
  }

  function DigitValue(c: char): (d: nat)
    requires IsHex(c)
  {
    if IsDigit(c) then c as int - '0' as int else c as int - 'a' as int + 10
  }

  predicate IsNumeral(s: string, base: nat) {
    forall i :: 0 <= i < |s| ==> IsHex(s[i]) && DigitValue(s[i]) < base
  }

  /** The digits the source prints, and what they count for. */
  lemma Digits(d: nat)
    requires d < 16
    ensures DIGITS[d] == "0123456789abcdef"[d] && IsHex(DIGITS[d]) && DigitValue(DIGITS[d]) == d
  {}

  lemma DigitBack(c: char)
    requires IsHex(c)
    ensures DigitValue(c) < 16 && DIGITS[DigitValue(c)] == c
  {}

  /** The number a digit string stands for, most significant digit first. */
  function Value(s: string, base: nat): nat
    requires IsNumeral(s, base)
  {
    if s == "" then 0 else Value(s[..|s| - 1], base) * base + DigitValue(s[|s| - 1])
  }

  lemma ValuePush(s: string, c: char, base: nat)
    requires IsNumeral(s, base) && IsHex(c) && DigitValue(c) < base
    ensures IsNumeral(s + [c], base) && Value(s + [c], base) == Value(s, base) * base + DigitValue(c)
  {
    assert (s + [c])[..|s|] == s;
  }

  lemma ValueOne(c: char, base: nat)
    requires IsHex(c) && DigitValue(c) < base
    ensures IsNumeral([c], base) && Value([c], base) == DigitValue(c)
  {
    ValuePush("", c, base);
    assert "" + [c] == [c];
  }

  /** The digits evaluate back to the number, and there are no leading zeros. */
  lemma {:induction false} NumeralDenotes(n: nat, base: nat)
    requires 2 <= base <= 16
    ensures IsNumeral(Numeral(n, base), base) && Value(Numeral(n, base), base) == n
    ensures Numeral(n, base)[0] == '0' ==> Numeral(n, base) == "0"
    decreases n
  {
    hide Quotient, Remainder;
    if n < base {
      Digits(n);
      ValueOne(DIGITS[n], base);
    } else {
      var q, r := Quotient(n, base), Remainder(n, base);
      NumeralDenotes(q, base);
      Digits(r);
      hide Value, DigitValue;
      ValuePush(Numeral(q, base), DIGITS[r], base);
      Digits(0);
      ValueOne('0', base);
    }
  }

  /** No other digit string without leading zeros denotes that number. */
  lemma {:induction false} NumeralUnique(s: string, base: nat)
    requires 2 <= base <= 16 && IsNumeral(s, base) && s != "" && (s[0] == '0' ==> s == "0")
    ensures s == Numeral(Value(s, base), base)
    decreases |s|
  {
    hide Quotient, Remainder;
    var t, c := s[..|s| - 1], s[|s| - 1];
    DigitBack(c);
    assert s == t + [c];
    if t == "" {
      ValueOne(c, base);
    } else {
      NumeralUnique(t, base);
      hide Value, DigitValue;
      ValuePush(t, c, base);
      var v, d := Value(t, base), DigitValue(c);
      assert Numeral(0, base) == "0";
      SplitUnique(v * base + d, base, v, d);
      MulAtLeast(v, base);
    }
  }

  // ---- print64 ----

  function Magnitude(num: s64, sign: bool): (m: u64) {
    var n: int := num;
    if n >= 0 then n else if sign then -n else n + 0x1_0000_0000_0000_0000
  }

  function Spaces(n: int): (s: string)
    ensures |s| == if n > 0 then n else 0
    ensures forall i :: 0 <= i < |s| ==> s[i] == ' '
  {
    if n <= 0 then "" else Spaces(n - 1) + " "
  }

  function Text(num: s64, base: nat, sign: bool, prefix: bool): string
    requires 2 <= base <= 16
  {
    (if sign && num < 0 then "-" else "") + (if prefix then "0x" else "") + Numeral(Magnitude(num, sign), base)
  }

  /** The text in a field of |digit| characters, to the right in it when digit is positive. */
  function Field(text: string, digit: int): string {
    if digit > 0 then Spaces(digit - |text|) + text else text + Spaces(-digit - |text|)
  }

  /** A field is as wide as asked for, or as the text; the rest of it is spaces on one side. */
  lemma FieldWidth(text: string, digit: int)
    ensures var f, w := Field(text, digit), if digit < 0 then -digit else digit;
            && |f| == (if w > |text| then w else |text|)
            && (if digit > 0 then f[|f| - |text|..] else f[..|text|]) == text
            && forall i :: 0 <= i < |f| && (if digit > 0 then i < |f| - |text| else i >= |text|) ==> f[i] == ' '
  {}

  function Blanks(n: nat): string {
    seq(n, i => ' ')
  }

  /** What print64 promises of the characters it puts out: blanks, then '-' for a negative number
      printed signed, then 0x if asked for, then the digits of the number without leading zeros, then
      blanks; a positive field width puts the blanks in front and a negative one behind. */
  ghost predicate Printed(o: string, num: s64, base: nat, sign: bool, digit: int, prefix: bool)
    requires 2 <= base <= 16
  {
    exists digits: string, left: nat, right: nat ::
      && o == Blanks(left) + ((if sign && num < 0 then "-" else "") + (if prefix then "0x" else "") + digits)
              + Blanks(right)
      && (left > 0 ==> |o| == digit) && (right > 0 ==> |o| == -digit) && |o| >= digit && |o| >= -digit
      && Denotes(digits, base, num, sign)
  }

  /** The digits stand for the number, its magnitude, or its 64 bits taken as unsigned. */
  ghost predicate Denotes(digits: string, base: nat, num: int, sign: bool) {
    && digits != "" && IsNumeral(digits, base) && (digits[0] == '0' ==> |digits| == 1)
    && Value(digits, base) == if num >= 0 then num else if sign then -num else num + 0x1_0000_0000_0000_0000
  }

  lemma FieldParts(text: string, digit: int) returns (left: nat, right: nat)
    ensures var o := Field(text, digit);
            && o == Blanks(left) + text + Blanks(right)
            && (left > 0 ==> |o| == digit) && (right > 0 ==> |o| == -digit) && |o| >= digit && |o| >= -digit
  {
    left := if digit > |text| then digit - |text| else 0;
    right := if -digit > |text| then -digit - |text| else 0;
    assert Spaces(left) == Blanks(left) && Spaces(right) == Blanks(right);
    hide Spaces, Blanks;
    NoSpaces(digit - |text|);
    NoSpaces(-digit - |text|);
  }

  lemma NoSpaces(n: int)
    ensures n <= 0 ==> Spaces(n) == Blanks(0) == ""
  {}

  lemma FieldPrinted(num: s64, base: nat, sign: bool, digit: int, prefix: bool)
    requires 2 <= base <= 16
    ensures Printed(Field(Text(num, base, sign, prefix), digit), num, base, sign, digit, prefix)
  {
    var digits := Numeral(Magnitude(num, sign), base);
    NumeralDenotes(Magnitude(num, sign), base);
    assert Denotes(digits, base, num, sign);
    hide Numeral, Value, IsNumeral, Denotes, Field, Blanks;
    var left, right := FieldParts(Text(num, base, sign, prefix), digit);
  }

  function Pow10(n: nat): nat {
    if n == 0 then 1 else 10 * Pow10(n - 1)
  }

  lemma TwentyDigits()
    ensures Pow10(20) > 0x1_0000_0000_0000_0000
  {
    assert Pow10(5) == 100000;
    assert Pow10(10) == 10000000000;
    assert Pow10(15) == 1000000000000000;
  }

  /** The serial port; out is what was put on the line. */
  class Uart {
    var out: string

    constructor ()
      ensures out == ""
    {
      out := "";
    }

    method Putc(c: char)
      modifies this
      ensures out == old(out) + [c]
    {
      out := out + [c];
    }

    method Puts(buf: array<char>, cur: nat, ghost len: nat)
      requires cur + len < buf.Length && buf[cur + len] == '\0' && forall k :: cur <= k < cur + len ==> buf[k] != '\0'
      modifies this
      ensures out == old(out) + buf[cur..cur + len]
    {
      var i := cur;
      while buf[i] != '\0'
        invariant cur <= i <= cur + len && out == old(out) + buf[cur..i]
        decreases cur + len - i
      {
        Putc(buf[i]);
        assert buf[cur..i + 1] == buf[cur..i] + [buf[i]];
        i := i + 1;
      }
    }

    /** n spaces, if n is positive. */
    method Pad(digit: int, len: int) returns (rest: int)
      modifies this
      ensures out == old(out) + Spaces(digit - len)
      ensures rest == (if digit > len then len else digit) - 1
    {
      rest := digit;
      while rest > len
        invariant digit > len ==> rest >= len
        invariant rest <= digit && (digit <= len ==> rest == digit)
        invariant out == old(out) + Spaces(digit - rest)
      {
        Putc(' ');
        rest := rest - 1;
        assert Spaces(digit - rest) == Spaces(digit - rest - 1) + " ";
      }
      rest := rest - 1;
    }

    /** print64: the buffer has room for every number, sign and prefix, and the number is padded
        once, on one side. */
    method Print64(num: s64, base: nat, sign: bool, digit: s32, prefix: bool)
      requires base == 10 || base == 16
      requires digit > -0x8000_0000
      modifies this
      ensures |old(out)| <= |out| && out[..|old(out)|] == old(out)
      ensures Printed(out[|old(out)|..], num, base, sign, digit, prefix)
      ensures out == old(out) + Field(Text(num, base, sign, prefix), digit)
    {
      var buf := new char[65](_ => '\0');
      var neg := sign && num < 0;
      var unum: nat := if neg then -(num + 1) + 1 else if num < 0 then num + 0x1_0000_0000_0000_0000 else num;
      var cur := FillDigits(buf, unum, base);
      hide Numeral;
      cur := PrependSigns(buf, cur, prefix, neg);
      assert buf[cur..64] == Text(num, base, sign, prefix);
      var len := Strlen(buf, cur, 64 - cur);
      hide *;
      PadAndPut(buf, cur, len, digit);
      FieldPrinted(num, base, sign, digit, prefix);
      assert out[|old(out)|..] == Field(Text(num, base, sign, prefix), digit);
    }

    /** The last part of print64. */
    method PadAndPut(buf: array<char>, cur: nat, len: nat, digit: s32)
      requires 0 < len && cur + len < buf.Length && buf[cur + len] == '\0'
      requires forall k :: cur <= k < cur + len ==> buf[k] != '\0'
      requires digit > -0x8000_0000
      modifies this
      ensures out == old(out) + Field(buf[cur..cur + len], digit)
    {
      hide Spaces;
      ghost var before, text := out, buf[cur..cur + len];
      var d: int := digit;
      if d > 0 {
        d := Pad(d, len);
        assert d >= 0;
      }
      Puts(buf, cur, len);
      if d < 0 {
        d := -d;
        d := Pad(d, len);
      }
      if digit > 0 {
        assert out == before + Spaces(digit - len) + text == before + (Spaces(digit - len) + text);
      } else if digit == 0 {
        assert out == before + text == before + (text + Spaces(-digit - len));
      } else {
        assert out == before + text + Spaces(-digit - len) == before + (text + Spaces(-digit - len));
      }
    }
  }

  /** The digits still to be written. */
  function Left(more: bool, n: nat, base: nat): string
    requires 2 <= base <= 16
  {
    if more then Numeral(n, base) else ""
  }

  /** The digit loop. */
  method FillDigits(buf: array<char>, unum: u64, base: nat) returns (cur: nat)
    requires base == 10 || base == 16
    requires buf.Length == 65 && buf[64] == '\0'
    modifies buf
    ensures 44 <= cur < 64 && buf[cur..64] == Numeral(unum, base) && buf[64] == '\0'
    ensures forall k :: cur <= k < 64 ==> buf[k] != '\0'
  {
    cur := 64;
    var n: nat, more := unum, true;
    TwentyDigits();
    assert Left(true, unum, base) + buf[64..64] == Numeral(unum, base);
    assert forall m :: Left(false, m, base) == "";
    hide *;
    while more
      invariant 44 <= cur <= 64 && n < Pow10(cur - 44) && buf[64] == '\0'
      invariant forall k :: cur <= k < 64 ==> buf[k] != '\0'
      invariant more <==> cur == 64 || n != 0
      invariant Numeral(unum, base) == Left(more, n, base) + buf[cur..64]
      decreases if more then n + 1 else 0
    {
      cur, n := Turn(buf, cur, n, base);
      more := n != 0;
    }
    assert Left(false, n, base) + buf[cur..64] == buf[cur..64];
  }

  /** One turn of the loop: *--cur = digits[unum % base], unum /= base. */
  method Turn(buf: array<char>, cur: nat, n: nat, base: nat) returns (cur': nat, q: nat)
    requires base == 10 || base == 16
    requires buf.Length == 65 && 44 <= cur <= 64 && n < Pow10(cur - 44) && (cur == 64 || n != 0)
    requires forall k :: cur <= k < 64 ==> buf[k] != '\0'
    modifies buf
    ensures cur' == cur - 1 && cur' >= 44 && buf[64] == old(buf[64])
    ensures q < Pow10(cur' - 44) && q <= n && (n > 0 ==> q < n)
    ensures Left(true, n, base) + old(buf[cur..64]) == Left(q != 0, q, base) + buf[cur'..64]
    ensures forall k :: cur' <= k < 64 ==> buf[k] != '\0'
  {
    hide Quotient, Remainder, Numeral, Pow10;
    TurnFacts(n, base, cur);
    q := Quotient(n, base);
    var d := Remainder(n, base);
    cur' := Prepend(buf, cur, DIGITS[d]);
  }

  lemma TurnFacts(n: nat, base: nat, cur: nat)
    requires base == 10 || base == 16
    requires 44 <= cur && n < Pow10(cur - 44) && (cur == 64 || n != 0)
    ensures var q, d := Quotient(n, base), Remainder(n, base);
            && d < base && DIGITS[d] != '\0'
            && Numeral(n, base) == (if q != 0 then Numeral(q, base) else "") + [DIGITS[d]]
            && cur > 44 && q < Pow10(cur - 45) && q <= n && (n > 0 ==> q < n)
  {
    hide Numeral, Pow10, Remainder;
    NumeralStep(n, base, Quotient(n, base), Remainder(n, base));
    TurnBounds(n, base, cur, Quotient(n, base));
    Digits(Remainder(n, base));
  }

  lemma NumeralStep(n: nat, base: nat, q: nat, d: nat)
    requires 2 <= base <= 16 && d < base && n == q * base + d
    ensures Numeral(n, base) == (if q != 0 then Numeral(q, base) else "") + [DIGITS[d]]
  {
    hide Quotient, Remainder;
    SplitUnique(n, base, q, d);
    if q == 0 { Negate(q, base); }
  }

  lemma TurnBounds(n: nat, base: nat, cur: nat, q: nat)
    requires base == 10 || base == 16
    requires 44 <= cur && n < Pow10(cur - 44) && (cur == 64 || n != 0) && q == n / base
    ensures cur > 44 && q < Pow10(cur - 45) && q <= n && (n > 0 ==> q < n)
  {}

  method PrependSigns(buf: array<char>, cur: nat, prefix: bool, neg: bool) returns (cur': nat)
    requires 44 <= cur < 64 && buf.Length == 65 && buf[64] == '\0'
    requires forall k :: cur <= k < 64 ==> buf[k] != '\0'
    modifies buf
    ensures 0 <= cur' < 64 && buf[64] == '\0'
    ensures forall k :: cur' <= k < 64 ==> buf[k] != '\0'
    ensures buf[cur'..64] == (if neg then "-" else "") + (if prefix then "0x" else "") + old(buf[cur..64])
  {
    cur' := cur;
    if prefix {
      cur' := Prepend(buf, cur', 'x');
      cur' := Prepend(buf, cur', '0');
    }
    if neg {
      cur' := Prepend(buf, cur', '-');
    }
  }

  /** *--cur = c */
  method Prepend(buf: array<char>, cur: nat, c: char) returns (cur': nat)
    requires 0 < cur <= 64 && buf.Length == 65 && c != '\0'
    modifies buf
    ensures cur' == cur - 1 && buf[cur'] == c && buf[64] == old(buf[64])
    ensures buf[cur'..64] == [c] + old(buf[cur..64])
    ensures forall k :: cur <= k < 64 ==> buf[k] == old(buf[k])
  {
    cur' := cur - 1;
    buf[cur'] := c;
    assert buf[cur..64] == old(buf[cur..64]);
  }

  method Strlen(buf: array<char>, cur: nat, ghost n: nat) returns (len: nat)
    requires cur + n < buf.Length && buf[cur + n] == '\0' && forall k :: cur <= k < cur + n ==> buf[k] != '\0'
    ensures len == n
  {
    len := 0;
    while buf[cur + len] != '\0'
      invariant len <= n
      decreases n - len
    {
      len := len + 1;
    }
  }

  // ---- fetch_digit ----

  const INT_MAX := 0x7fff_ffff

  /** The character at i of a NUL-terminated string. */
  function At(s: string, i: nat): char {
    if i < |s| then s[i] else '\0'
  }

  /** Where the digits that start at i end. */
  function RunEnd(s: string, i: nat): (e: nat)
    requires i <= |s|
    ensures i <= e <= |s| && !IsDigit(At(s, e))
    ensures forall k :: i <= k < e ==> IsDigit(s[k])
    decreases |s| - i
  {
    if IsDigit(At(s, i)) then RunEnd(s, i + 1) else i
  }

  datatype Fetch = Fetched(digit: int, next: nat) | Overflow

  /** The signed decimal at from, if fetch_digit's int can compute it: the largest number whose
      last step n * 10 + c - '0' stays in range is INT_MAX - 48. */
  function FieldAt(s: string, from: nat): Fetch
    requires from <= |s|
  {
    var start := if At(s, from) == '-' then from + 1 else from;
    var end := RunEnd(s, start);
    var v: int := Value(s[start..end], 10);
    if v > 2147483599 then Overflow else Fetched(if start > from then -v else v, end)
  }

  lemma {:induction false} PrefixAtMost(s: string, k: nat, base: nat)
    requires base >= 1 && IsNumeral(s, base) && k <= |s|
    ensures Value(s[..k], base) <= Value(s, base)
    decreases |s|
  {
    if k < |s| {
      var t := s[..|s| - 1];
      PrefixAtMost(t, k, base);
      assert t[..k] == s[..k];
      assert Value(s, base) == Value(t, base) * base + DigitValue(s[|s| - 1]);
      if Value(t, base) >= 1 { MulAtLeast(base, Value(t, base)); }
    } else {
      assert s[..k] == s;
    }
  }

  lemma RunIsNumeral(s: string, i: nat, e: nat)
    requires i <= e <= |s| && forall k :: i <= k < e ==> IsDigit(s[k])
    ensures IsNumeral(s[i..e], 10) && Value(s[i..e][..0], 10) == 0
    ensures forall k :: i <= k < e ==> At(s, k) == s[k] == s[i..e][k - i]
  {}

  lemma FetchStep(digits: string, k: nat)
    requires IsNumeral(digits, 10) && k < |digits|
    ensures Value(digits[..k + 1], 10) == Value(digits[..k], 10) * 10 + DigitValue(digits[k]) <= Value(digits, 10)
    ensures DigitValue(digits[k]) == digits[k] as int - '0' as int < 10
  {
    ValuePush(digits[..k], digits[k], 10);
    assert digits[..k + 1] == digits[..k] + [digits[k]];
    PrefixAtMost(digits, k + 1, 10);
  }

  /** fetch_digit: signed overflow, which C leaves undefined, is a result of its own. */
  method FetchDigit(fmt: string, from: nat) returns (r: Fetch)
    requires from <= |fmt|
    ensures r == FieldAt(fmt, from)
  {
    var i, neg := from, false;
    if At(fmt, i) == '-' {
      i := i + 1;
      neg := true;
    }
    var ok, n, next := FetchRun(fmt, i);
    var digit: int := n;
    return if ok then Fetched(if neg then -digit else digit, next) else Overflow;
  }

  /** The loop of fetch_digit. */
  method FetchRun(fmt: string, start: nat) returns (ok: bool, n: nat, i: nat)
    requires start <= |fmt|
    ensures ok <==> Value(fmt[start..RunEnd(fmt, start)], 10) <= 2147483599
    ensures ok ==> i == RunEnd(fmt, start) && n == Value(fmt[start..i], 10)
  {
    n, i := 0, start;
    ghost var end := RunEnd(fmt, start);
    ghost var digits := fmt[start..end];
    RunIsNumeral(fmt, start, end);
    hide *;
    while IsDigit(At(fmt, i))
      invariant start <= i <= end
      invariant n == Value(digits[..i - start], 10) && n <= 2147483599
      decreases end - i
    {
      FetchStep(digits, i - start);
      if n * 10 + fmt[i] as int > INT_MAX {
        return false, n, i;
      }
      n := n * 10 + fmt[i] as int - '0' as int;
      i := i + 1;
    }
    assert digits[..i - start] == digits;
    return true, n, i;
  }

  lemma {:induction false} RunIs(s: string, i: nat, e: nat)
    requires i <= e <= |s| && !IsDigit(At(s, e)) && forall k :: i <= k < e ==> IsDigit(s[k])
    ensures RunEnd(s, i) == e
    decreases e - i
  {
    if i < e { RunIs(s, i + 1, e); }
  }

  lemma ReadsNumeral(minus: string, m: nat, tail: string)
    requires (minus == "" || minus == "-") && !IsDigit(At(tail, 0))
    ensures FieldAt(minus + Numeral(m, 10) + tail, 0)
            == if m > 2147483599 then Overflow
               else Fetched(if minus == "-" then 0 - m else m, |minus| + |Numeral(m, 10)|)
  {
    hide Numeral, Value, RunEnd, FieldAt, IsNumeral, At;
    var numeral := Numeral(m, 10);
    NumeralDenotes(m, 10);
    var s, start, end := minus + numeral + tail, |minus|, |minus| + |numeral|;
    DecimalDigits(numeral);
    SliceOf(minus, numeral, tail);
    RunIs(s, start, end);
    FieldIs(s, start, end, numeral);
  }

  lemma DecimalDigits(s: string)
    requires IsNumeral(s, 10)
    ensures forall k :: 0 <= k < |s| ==> IsDigit(s[k])
  {}

  /** What is read when the digits of s from its sign on are known. */
  lemma FieldIs(s: string, start: nat, end: nat, numeral: string)
    requires start <= end <= |s| && s[start..end] == numeral && IsNumeral(numeral, 10)
    requires start == (if At(s, 0) == '-' then 1 else 0) && RunEnd(s, start) == end
    ensures FieldAt(s, 0) == if Value(numeral, 10) > 2147483599 then Overflow
                             else Fetched(if start == 1 then 0 - Value(numeral, 10) else Value(numeral, 10), end)
  {
    hide Value, IsNumeral;
  }

  lemma SliceOf(minus: string, numeral: string, tail: string)
    requires (minus == "" || minus == "-") && |numeral| >= 1 && forall k :: 0 <= k < |numeral| ==> IsDigit(numeral[k])
    requires !IsDigit(At(tail, 0))
    ensures var s, start, end := minus + numeral + tail, |minus|, |minus| + |numeral|;
            && s[start..end] == numeral && !IsDigit(At(s, end))
            && (forall k :: start <= k < end ==> IsDigit(s[k]))
            && start == if At(s, 0) == '-' then 1 else 0
  {
    var s, start, end := minus + numeral + tail, |minus|, |minus| + |numeral|;
    forall k | start <= k < end ensures s[k] == numeral[k - start] {}
    assert s[start..end] == numeral;
    assert s[0] == if minus == "" then numeral[0] else '-';
    assert At(s, end) == At(tail, 0);
  }

  /** fetch_digit reads a number that print64 wrote exactly when it was not padded on the left and
      its magnitude is at most INT_MAX - 48. */
  lemma PrintedReadsBack(num: s64, digit: int)
    ensures var text := Text(num, 10, true, false);
            FieldAt(Field(text, digit), 0) == Fetched(num, |text|)
            <==> digit <= |text| && -2147483599 <= num <= 2147483599
  {
    var text := Text(num, 10, true, false);
    var minus, m := if num < 0 then "-" else "", Magnitude(num, true);
    assert text == minus + Numeral(m, 10);
    hide Numeral, FieldAt;
    if digit > |text| {
      PaddedReadsZero(text, digit);
    } else {
      var tail := Spaces(-digit - |text|);
      ReadsNumeral(minus, m, tail);
      assert Field(text, digit) == text + tail;
    }
  }

  lemma PaddedReadsZero(text: string, digit: int)
    requires digit > |text|
    ensures FieldAt(Field(text, digit), 0) == Fetched(0, 0)
  {
    var out := Field(text, digit);
    assert out[0] == ' ';
    RunIs(out, 0, 0);
    assert out[0..0] == "";
  }
}
