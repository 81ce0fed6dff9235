/**
 * Integer text: `parseInt` without a radix argument, `Number` on strings that
 * spell integers, and the decimal rendering that `String(n)` produces.
 */
module Numbers {
  import opened Common
  import opened Strings

  /** The value of `c` as a digit of a base up to 36 (`0`-`9`, then the letters in either case); 36 when it is no digit. */
  function DigitOf(c: char): (d: nat)
    ensures d <= 36
    ensures d < 10 <==> '0' <= c <= '9'
  {
    if '0' <= c <= '9' then c as int - '0' as int
    else if 'a' <= c <= 'z' then c as int - 'a' as int + 10
    else if 'A' <= c <= 'Z' then c as int - 'A' as int + 10
    else 36
  }

  predicate IsDigitIn(c: char, radix: nat) {
    DigitOf(c) < radix
  }

  predicate AllDigitsIn(s: string, radix: nat) {
    forall k :: 0 <= k < |s| ==> IsDigitIn(s[k], radix)
  }

  predicate IsDigit(c: char) {
    '0' <= c <= '9'
  }

  predicate AllDigits(s: string) {
    forall k :: 0 <= k < |s| ==> IsDigit(s[k])
  }

  /** The number a string of digits in base `radix` denotes, most significant digit first. */
  function ValueIn(s: string, radix: nat): nat
    requires AllDigitsIn(s, radix)
  {
    if s == [] then 0 else radix * ValueIn(s[..|s| - 1], radix) + DigitOf(s[|s| - 1])
  }

  /** The number a string of decimal digits denotes. */
  function DigitsValue(s: string): nat
    requires AllDigits(s)
  {
    ValueIn(s, 10)
  }

  function DigitChar(d: nat): (c: char)
    requires d < 10
    ensures IsDigit(c) && DigitOf(c) == d
  {
    ('0' as int + d) as char
  }

  /** The longest prefix of `s` made of digits in base `radix`. */
  function LeadingDigitsIn(s: string, radix: nat): (r: string)
    ensures |r| <= |s| && r == s[..|r|]
    ensures AllDigitsIn(r, radix)
    ensures |r| == |s| || !IsDigitIn(s[|r|], radix)
  {
    if s != [] && IsDigitIn(s[0], radix) then [s[0]] + LeadingDigitsIn(s[1..], radix) else []
  }

  /** The base a leading `0x`, `0o` or `0b` (in either case) selects; 10 when there is none. */
  function PrefixRadix(u: string): nat {
    if |u| >= 2 && u[0] == '0' then
      if u[1] == 'x' || u[1] == 'X' then 16
      else if u[1] == 'o' || u[1] == 'O' then 8
      else if u[1] == 'b' || u[1] == 'B' then 2
      else 10
    else 10
  }

  /** `parseInt` on the text after the sign: a `0x` prefix selects base 16, and reading stops at the first non-digit. */
  function ParseUnsigned(u: string): Option<nat> {
    var radix: nat := if PrefixRadix(u) == 16 then 16 else 10;
    var d := LeadingDigitsIn(if radix == 16 then u[2..] else u, radix);
    if d == [] then None else Some(ValueIn(d, radix))
  }

  /** A parsed magnitude with its sign applied. */
  function Signed(negative: bool, r: Option<nat>): Option<int> {
    match r
    case None => None
    case Some(v) => Some(if negative then -(v as int) else v)
  }

  /** After the leading white space, `s` goes on with a sign or a decimal digit. */
  predicate StartsWithSignOrDigit(s: string) {
    var t := TrimStart(s);
    t != [] && (IsDigit(t[0]) || t[0] == '+' || t[0] == '-')
  }

  /** After the leading white space, `s` goes on with a minus sign. */
  predicate StartsWithMinus(s: string) {
    var t := TrimStart(s);
    t != [] && t[0] == '-'
  }

  /** After the leading white space, `s` goes on with a decimal digit that does not open a `0x` prefix. */
  predicate StartsWithDecimalDigit(s: string) {
    var t := TrimStart(s);
    t != [] && IsDigit(t[0]) && !(|t| >= 2 && t[0] == '0' && (t[1] == 'x' || t[1] == 'X'))
  }

  /**
   * `parseInt(s)` without a radix argument; `None` is `NaN`. Leading white space
   * is skipped and one sign is read before the digits.
   */
  function ParseInt(s: string): (r: Option<int>)
    ensures r.Some? ==> StartsWithSignOrDigit(s)
    ensures r.Some? && r.value < 0 ==> StartsWithMinus(s)
    ensures StartsWithDecimalDigit(s) ==> r.Some? && r.value >= 0
  {
    ParseTrimmed(TrimStart(s))
  }

  /** `parseInt` on a text that does not start with white space: one optional sign, then the digits. */
  function ParseTrimmed(t: string): (r: Option<int>)
    ensures r.Some? ==> t != [] && (IsDigit(t[0]) || t[0] == '+' || t[0] == '-')
    ensures r.Some? && r.value < 0 ==> t != [] && t[0] == '-'
    ensures t != [] && IsDigit(t[0]) && !(|t| >= 2 && t[0] == '0' && (t[1] == 'x' || t[1] == 'X')) ==> r.Some? && r.value >= 0
  {
    if t != [] && (t[0] == '-' || t[0] == '+') then Signed(t[0] == '-', ParseUnsigned(t[1..]))
    else
      assert t != [] && IsDigit(t[0]) && !(|t| >= 2 && t[0] == '0' && (t[1] == 'x' || t[1] == 'X')) ==> ParseUnsigned(t).Some? by {
        if t != [] && IsDigit(t[0]) && !(|t| >= 2 && t[0] == '0' && (t[1] == 'x' || t[1] == 'X')) { DecimalDigitParses(t); }
      }
      Signed(false, ParseUnsigned(t))
  }

  /** Text that opens with a decimal digit, and not with `0x`, has digits to read. */
  lemma DecimalDigitParses(u: string)
    requires u != [] && IsDigit(u[0]) && !(|u| >= 2 && u[0] == '0' && (u[1] == 'x' || u[1] == 'X'))
    ensures ParseUnsigned(u).Some?
  {
    assert PrefixRadix(u) != 16;
    assert IsDigitIn(u[0], 10);
    assert LeadingDigitsIn(u, 10) != [];
  }

  /** Only a non-empty text reads as a number. */
  lemma ParsedTextIsNonEmpty(s: string)
    requires ParseInt(s).Some?
    ensures s != []
  {
    assert StartsWithSignOrDigit(s);
  }

  /**
   * `Number` on a text without white-space margins, for the spellings of an
   * integer without a fraction or an exponent: an optionally signed run of
   * decimal digits, or an unsigned `0x`/`0o`/`0b` literal; the empty text is 0.
   * `None` is `NaN`, and also every fractional or exponent spelling.
   */
  function NumberText(t: string): Option<int> {
    if t == [] then Some(0)
    else if t[0] == '-' || t[0] == '+' then
      var d := t[1..];
      if d != [] && AllDigits(d) then Signed(t[0] == '-', Some(DigitsValue(d))) else None
    else if PrefixRadix(t) != 10 then
      var d := t[2..];
      if d != [] && AllDigitsIn(d, PrefixRadix(t)) then Some(ValueIn(d, PrefixRadix(t))) else None
    else if AllDigits(t) then Some(DigitsValue(t))
    else None
  }

  /** `Number(s)`: the text inside the white-space margins is read. */
  function NumberOf(s: string): (r: Option<int>)
    ensures Trim(s) == [] ==> r == Some(0)
    ensures r.Some? && Trim(s) != [] ==> IsDigit(Trim(s)[0]) || Trim(s)[0] == '+' || Trim(s)[0] == '-'
    ensures r.Some? && r.value < 0 ==> Trim(s) != [] && Trim(s)[0] == '-'
  {
    NumberText(Trim(s))
  }

  /** The decimal rendering of `n`, without leading zeros. */
  function ShowNat(n: nat): (r: string)
    ensures r != [] && AllDigits(r)
    ensures r[0] == '0' ==> n == 0
  {
    if n < 10 then [DigitChar(n)] else ShowNat(n / 10) + [DigitChar(n % 10)]
  }

  /** `String(n)` for an integer. */
  function ShowInt(n: int): string {
    if n < 0 then "-" + ShowNat(-n) else ShowNat(n)
  }

  lemma {:induction false} ShowNatValue(n: nat)
    ensures DigitsValue(ShowNat(n)) == n
    decreases n
  {
    var s := ShowNat(n);
    if n >= 10 {
      ShowNatValue(n / 10);
      assert s[..|s| - 1] == ShowNat(n / 10);
      assert AllDigitsIn(s, 10);
      assert ValueIn(s, 10) == 10 * ValueIn(ShowNat(n / 10), 10) + DigitOf(s[|s| - 1]);
    } else {
      assert AllDigitsIn(s, 10);
      assert s[..|s| - 1] == [];
      assert DigitOf(s[0]) == n;
      assert ValueIn(s, 10) == 10 * ValueIn(s[..|s| - 1], 10) + DigitOf(s[0]);
    }
  }

  /** Decimal digits are digits of every base from 10 up. */
  lemma DecimalDigitsIn(s: string, radix: nat)
    requires AllDigits(s) && radix >= 10
    ensures AllDigitsIn(s, radix)
  {
  }

  lemma {:induction false} LeadingDigitsAppend(d: string, rest: string, radix: nat)
    requires AllDigitsIn(d, radix)
    requires rest == [] || !IsDigitIn(rest[0], radix)
    ensures LeadingDigitsIn(d + rest, radix) == d
    decreases |d|
  {
    if d != [] {
      assert (d + rest)[1..] == d[1..] + rest;
      LeadingDigitsAppend(d[1..], rest, radix);
    } else {
      assert d + rest == rest;
    }
  }

  /** `parseInt` reads a decimal numeral up to the first non-digit; only a lone `0` before `x` or `X` switches to base 16. */
  lemma ParseIgnoresSuffix(d: string, rest: string)
    requires d != [] && AllDigits(d)
    requires rest == [] || !IsDigit(rest[0])
    requires !(d == "0" && rest != [] && (rest[0] == 'x' || rest[0] == 'X'))
    ensures ParseInt(d + rest) == Some(DigitsValue(d))
  {
    var s := d + rest;
    assert s[0] == d[0];
    assert TrimStart(s) == s;
    assert PrefixRadix(s) != 16 by {
      if |d| >= 2 {
        assert s[1] == d[1];
      } else if rest != [] {
        assert s[1] == rest[0];
      }
    }
    LeadingDigitsAppend(d, rest, 10);
    assert ParseUnsigned(s) == Some(ValueIn(d, 10));
  }

  /** `parseInt` skips leading white space. */
  lemma ParseSkipsSpace(ws: string, s: string)
    requires forall k :: 0 <= k < |ws| ==> IsSpace(ws[k])
    requires s == [] || !IsSpace(s[0])
    ensures ParseInt(ws + s) == ParseInt(s)
  {
    TrimStartSpaces(ws, s);
    TrimStartSpaces([], s);
    assert [] + s == s;
  }

  /** Without white space or a sign in front, `parseInt` reads the digits as they stand. */
  lemma ParseUnsignedText(s: string)
    requires s == [] || (!IsSpace(s[0]) && s[0] != '+' && s[0] != '-')
    ensures ParseInt(s) == Signed(false, ParseUnsigned(s))
  {
    assert TrimStart(s) == s;
  }

  /** One sign is read in front of the digits, and a minus negates them. */
  lemma ParseSign(sign: char, s: string)
    requires sign == '+' || sign == '-'
    ensures ParseInt([sign] + s) == Signed(sign == '-', ParseUnsigned(s))
  {
    var t := [sign] + s;
    assert t[0] == sign && t[1..] == s;
    assert TrimStart(t) == t;
  }

  /** `0x` or `0X` switches `parseInt` to base 16; without a hexadecimal digit after it the result is `NaN`. */
  lemma ParseHexPrefix(x: char, h: string, rest: string)
    requires x == 'x' || x == 'X'
    requires AllDigitsIn(h, 16)
    requires rest == [] || !IsDigitIn(rest[0], 16)
    ensures ParseInt(['0', x] + h + rest) == if h == [] then None else Some(ValueIn(h, 16))
  {
    var s := ['0', x] + h + rest;
    assert s[0] == '0' && s[1] == x;
    assert TrimStart(s) == s;
    assert PrefixRadix(s) == 16;
    assert s[2..] == h + rest;
    LeadingDigitsAppend(h, rest, 16);
    assert ParseInt(s) == Signed(false, ParseUnsigned(s));
  }

  /** A string that starts with neither white space, a sign nor a digit is `NaN` to `parseInt`. */
  lemma ParseNotANumber(s: string)
    requires s == [] || (!IsSpace(s[0]) && !IsDigit(s[0]) && s[0] != '+' && s[0] != '-')
    ensures ParseInt(s) == None
  {
    assert TrimStart(s) == s;
    assert PrefixRadix(s) == 10;
    assert LeadingDigitsIn(s, 10) == [];
  }

  /** `parseInt` reads back what `String` renders. */
  lemma ParseShowRoundTrip(n: nat)
    ensures ParseInt(ShowNat(n)) == Some(n)
  {
    var s := ShowNat(n);
    ParseIgnoresSuffix(s, []);
    assert s + [] == s;
    ShowNatValue(n);
  }

  lemma NumberTextDecimal(d: string)
    requires d != [] && AllDigits(d)
    ensures NumberText(d) == Some(DigitsValue(d))
  {
    assert PrefixRadix(d) == 10 by {
      if |d| >= 2 {
        assert IsDigit(d[1]);
      }
    }
  }

  lemma NumberTextSigned(sign: char, d: string)
    requires sign == '+' || sign == '-'
    requires d != [] && AllDigits(d)
    ensures NumberText([sign] + d) == Signed(sign == '-', Some(DigitsValue(d)))
  {
    assert ([sign] + d)[1..] == d;
  }

  /** `Number` reads an unsigned decimal integer inside white-space margins. */
  lemma NumberOfDecimal(pre: string, d: string, post: string)
    requires forall k :: 0 <= k < |pre| ==> IsSpace(pre[k])
    requires forall k :: 0 <= k < |post| ==> IsSpace(post[k])
    requires d != [] && AllDigits(d)
    ensures NumberOf(pre + d + post) == Some(DigitsValue(d))
  {
    TrimMargins(pre, d, post);
    NumberTextDecimal(d);
  }

  /** `Number` reads a signed decimal integer inside white-space margins. */
  lemma NumberOfSignedDecimal(pre: string, sign: char, d: string, post: string)
    requires forall k :: 0 <= k < |pre| ==> IsSpace(pre[k])
    requires forall k :: 0 <= k < |post| ==> IsSpace(post[k])
    requires sign == '+' || sign == '-'
    requires d != [] && AllDigits(d)
    ensures NumberOf(pre + [sign] + d + post) == Signed(sign == '-', Some(DigitsValue(d)))
  {
    var t := [sign] + d;
    assert t[|t| - 1] == d[|d| - 1];
    assert pre + [sign] + d + post == pre + t + post;
    TrimMargins(pre, t, post);
    NumberTextSigned(sign, d);
  }

  /** `Number` reads back what `String` renders. */
  lemma NumberShowRoundTrip(n: int)
    ensures NumberOf(ShowInt(n)) == Some(n)
  {
    var s := ShowInt(n);
    var m: nat := if n < 0 then -n else n;
    var digits := ShowNat(m);
    ShowNatValue(m);
    if n < 0 {
      assert s == ['-'] + digits;
      NumberTextSigned('-', digits);
    } else {
      assert s == digits;
      NumberTextDecimal(digits);
    }
    assert s[|s| - 1] == digits[|digits| - 1];
    TrimMargins([], s, []);
    assert [] + s + [] == s;
  }

  /** White space alone is the number 0. */
  lemma NumberOfBlank(s: string)
    requires forall k :: 0 <= k < |s| ==> IsSpace(s[k])
    ensures NumberOf(s) == Some(0)
  {
    TrimEmpty(s);
  }
}
