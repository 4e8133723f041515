/** `strtol(text, NULL, 0)` as section 7.22.1.4 of ISO C11 describes it, on a
    target where `long` is 32 bits wide (the Arduino Due's ARM core), so the
    conversion of the result to `int` changes nothing. */
module CStrToL {
  import opened Ascii

  const LongMin: int := -0x8000_0000
  const LongMax: int := 0x7FFF_FFFF

  /** `isspace` in the C locale: the space and the control characters 9 to 13. */
  predicate IsSpace(c: Byte) {
    c == ' ' || '\t' <= c <= '\r'
  }

  /** The value of `c` as a digit in any base up to 36; 36 when it is no digit. */
  function DigitValue(c: Byte): (d: nat)
    ensures d <= 36
    ensures d < 10 <==> '0' <= c <= '9'
  {
    if '0' <= c <= '9' then c as int - '0' as int
    else if 'a' <= c <= 'z' then c as int - 'a' as int + 10
    else if 'A' <= c <= 'Z' then c as int - 'A' as int + 10
    else 36
  }

  predicate IsDigitIn(c: Byte, base: nat) {
    DigitValue(c) < base
  }

  /** The longest prefix of `s` made only of digits of `base`. */
  function DigitRun(s: seq<Byte>, base: nat): (ds: seq<Byte>)
    ensures ds <= s
    ensures forall i :: 0 <= i < |ds| ==> IsDigitIn(ds[i], base)
    ensures |ds| < |s| ==> !IsDigitIn(s[|ds|], base)
  {
    if |s| == 0 || !IsDigitIn(s[0], base) then [] else [s[0]] + DigitRun(s[1..], base)
  }

  /** Positional value of a digit string, most significant digit first. */
  function ValueOf(ds: seq<Byte>, base: nat): nat {
    if |ds| == 0 then 0 else ValueOf(ds[..|ds| - 1], base) * base + DigitValue(ds[|ds| - 1])
  }

  /** `s` without its leading white space. */
  function SkipSpace(s: seq<Byte>): (t: seq<Byte>)
    ensures |t| <= |s|
    ensures |t| > 0 ==> !IsSpace(t[0])
  {
    if |s| > 0 && IsSpace(s[0]) then SkipSpace(s[1..]) else s
  }

  /** True when `s` starts with a hexadecimal prefix that is followed by a hex digit. */
  predicate HasHexPrefix(s: seq<Byte>) {
    |s| >= 3 && s[0] == '0' && (s[1] == 'x' || s[1] == 'X') && IsDigitIn(s[2], 16)
  }

  /** The unsigned value of the integer constant that starts `s` (just after any
      sign) for base 0: `0x`/`0X` and a hex digit select base 16, a leading `0`
      base 8, anything else base 10. A `0x` with no hex digit after it reads as
      the octal constant `0`; no digit at all reads as 0. */
  function Magnitude(s: seq<Byte>): nat {
    if HasHexPrefix(s) then ValueOf(DigitRun(s[2..], 16), 16)
    else if |s| > 0 && s[0] == '0' then ValueOf(DigitRun(s, 8), 8)
    else ValueOf(DigitRun(s, 10), 10)
  }

  /** An out-of-range result is replaced by `LONG_MIN` or `LONG_MAX`. */
  function Saturate(n: int): (r: int)
    ensures LongMin <= r <= LongMax
    ensures LongMin <= n <= LongMax ==> r == n
    ensures n > LongMax ==> r == LongMax
    ensures n < LongMin ==> r == LongMin
  {
    if n > LongMax then LongMax else if n < LongMin then LongMin else n
  }

  /** The part of `s` after leading white space and an optional sign. */
  function Body(s: seq<Byte>): seq<Byte> {
    var t := SkipSpace(s);
    if |t| > 0 && (t[0] == '-' || t[0] == '+') then t[1..] else t
  }

  predicate IsNegative(s: seq<Byte>) {
    var t := SkipSpace(s);
    |t| > 0 && t[0] == '-'
  }

  /** `strtol(s, NULL, 0)` with `long` 32 bits wide. */
  function StrToL(s: seq<Byte>): (r: int)
    ensures LongMin <= r <= LongMax
    ensures r < 0 ==> IsNegative(s)
    ensures r != 0 ==> |Body(s)| > 0 && '0' <= Body(s)[0] <= '9'
  {
    var m: int := Magnitude(Body(s));
    NoDigitNoValue(Body(s));
    Saturate(if IsNegative(s) then -m else m)
  }

  /** Without a leading decimal digit there is no subject sequence, so the value is 0. */
  lemma NoDigitNoValue(s: seq<Byte>)
    ensures Magnitude(s) != 0 ==> |s| > 0 && '0' <= s[0] <= '9'
  {
    if !HasHexPrefix(s) && !(|s| > 0 && s[0] == '0') && (|s| == 0 || !('0' <= s[0] <= '9')) {
      assert DigitRun(s, 10) == [];
    }
  }

  /* ---------------- Printing digits, as a reference for parsing ---------------- */

  /** The digit character for `d`; lower-case letters above 9, as `%x` prints them. */
  function DigitChar(d: nat): (c: Byte)
    requires d < 16
    ensures DigitValue(c) == d
  {
    if d < 10 then ('0' as int + d) as char else ('a' as int + d - 10) as char
  }

  /** The digits of `n` in `base`, most significant first, with no leading zero
      ("0" for zero). */
  function DigitsOf(n: nat, base: nat): (ds: seq<Byte>)
    requires 2 <= base <= 16
    ensures |ds| > 0
    decreases n
  {
    if n < base then [DigitChar(n)]
    else DivLess(n, base); DigitsOf(n / base, base) + [DigitChar(n % base)]
  }

  /** `n` as `%i` prints it. */
  function DecimalText(n: int): seq<Byte> {
    if n < 0 then ['-'] + DigitsOf(-n, 10) else DigitsOf(n, 10)
  }

  /** `n` as `0x%x` prints it. */
  function HexText(n: nat): seq<Byte> {
    ['0', 'x'] + DigitsOf(n, 16)
  }

  lemma {:induction false} DigitsOfAreDigits(n: nat, base: nat)
    requires 2 <= base <= 16
    ensures forall i :: 0 <= i < |DigitsOf(n, base)| ==> IsDigitIn(DigitsOf(n, base)[i], base)
    decreases n
  {
    if n >= base {
      DivLess(n, base);
      DigitsOfAreDigits(n / base, base);
    }
  }

  lemma {:induction false} DigitsOfNoLeadingZero(n: nat, base: nat)
    requires 2 <= base <= 16
    ensures (DigitsOf(n, base)[0] == '0') <==> n == 0
    decreases n
  {
    if n >= base {
      DivLess(n, base);
      DigitsOfNoLeadingZero(n / base, base);
    }
  }

  /** Reading back the printed digits gives the number. */
  lemma {:induction false} ValueOfDigitsOf(n: nat, base: nat)
    requires 2 <= base <= 16
    ensures ValueOf(DigitsOf(n, base), base) == n
    decreases n
  {
    if n >= base {
      DivLess(n, base);
      ValueOfDigitsOf(n / base, base);
      ValueOfDigitsStep(n, base);
    } else {
      ValueOfOneDigit(n, base);
    }
  }

  lemma ValueOfOneDigit(n: nat, base: nat)
    requires 2 <= base <= 16 && n < base
    ensures ValueOf(DigitsOf(n, base), base) == n
  {
    var c := DigitChar(n);
    assert DigitsOf(n, base) == [c];
    ValueOfSingle(c, base);
  }

  lemma ValueOfSingle(c: Byte, base: nat)
    ensures ValueOf([c], base) == DigitValue(c)
  {
    assert [c][..0] == [];
  }

  lemma ValueOfDigitsStep(n: nat, base: nat)
    requires 2 <= base <= 16 && n >= base
    requires ValueOf(DigitsOf(n / base, base), base) == n / base
    ensures ValueOf(DigitsOf(n, base), base) == n
  {
    var q, d := n / base, n % base;
    assert n == q * base + d by { DivMod(n, base); }
    assert DigitsOf(n, base) == DigitsOf(q, base) + [DigitChar(d)];
    ValueOfAppend(DigitsOf(q, base), DigitChar(d), base);
  }

  /** The quotient by a base of at least 2 is smaller, for the recursions on digits. */
  lemma DivLess(n: nat, base: nat)
    requires 2 <= base && n >= base
    ensures n / base < n
  {
    var q := n / base;
    var d: nat := base - 2;
    DivMod(n, base);
    assert q * base == q * 2 + q * d;
    assert q * d >= 0;
    assert q * 2 <= n;
  }

  lemma DivMod(n: nat, base: nat)
    requires base > 0
    ensures (n / base) * base + n % base == n
  {
  }

  lemma ValueOfAppend(ds: seq<Byte>, c: Byte, base: nat)
    ensures ValueOf(ds + [c], base) == ValueOf(ds, base) * base + DigitValue(c)
  {
    assert (ds + [c])[..|ds|] == ds;
  }

  /** A string of digits of `base` is its own longest digit prefix. */
  lemma {:induction false} DigitRunOfDigits(ds: seq<Byte>, base: nat)
    requires forall i :: 0 <= i < |ds| ==> IsDigitIn(ds[i], base)
    ensures DigitRun(ds, base) == ds
  {
    if |ds| > 0 {
      DigitRunOfDigits(ds[1..], base);
    }
  }

  /** The digit string of `n >= 0`, read with base detection, has value `n`. */
  lemma MagnitudeOfDigits(n: nat, base: nat)
    requires base == 10 || base == 16
    ensures base == 10 ==> Magnitude(DigitsOf(n, 10)) == n
    ensures base == 16 ==> Magnitude(['0', 'x'] + DigitsOf(n, 16)) == n
  {
    var ds := DigitsOf(n, base);
    DigitsOfAreDigits(n, base);
    DigitRunOfDigits(ds, base);
    ValueOfDigitsOf(n, base);
    DigitsOfNoLeadingZero(n, base);
    if base == 10 {
      if n == 0 {
        assert ds == ['0'];
        assert DigitRun(ds, 8) == ds;
        assert ValueOf(ds, 8) == ValueOf([], 8) * 8 + 0;
      } else {
        assert !HasHexPrefix(ds) by {
          if |ds| >= 3 && ds[0] == '0' { assert false; }
        }
      }
    } else {
      var s := ['0', 'x'] + ds;
      assert s[2..] == ds;
      assert HasHexPrefix(s);
    }
  }

  /** What `%i` prints, `strtol` reads back, for every 32-bit value. */
  lemma DecimalRoundTrip(n: int)
    requires LongMin <= n <= LongMax
    ensures StrToL(DecimalText(n)) == n
  {
    var t := DecimalText(n);
    DigitsOfAreDigits(if n < 0 then -n else n, 10);
    if n < 0 {
      MagnitudeOfDigits(-n, 10);
      assert SkipSpace(t) == t;
      assert t[1..] == DigitsOf(-n, 10);
    } else {
      MagnitudeOfDigits(n, 10);
      var ds := DigitsOf(n, 10);
      assert !IsSpace(ds[0]) && ds[0] != '-' && ds[0] != '+';
      assert SkipSpace(t) == t;
    }
  }

  /** What `0x%x` prints, `strtol` reads back, for every non-negative 32-bit value. */
  lemma HexRoundTrip(n: nat)
    requires n <= LongMax
    ensures StrToL(HexText(n)) == n
  {
    var t := HexText(n);
    MagnitudeOfDigits(n, 16);
    assert SkipSpace(t) == t;
    assert Body(t) == t;
  }

  /** Leading white space and a `+` sign do not change the value; a `-` sign
      negates it, saturating at `LONG_MIN`. */
  lemma {:induction false} SignAndSpace(ws: seq<Byte>, s: seq<Byte>)
    requires forall i :: 0 <= i < |ws| ==> IsSpace(ws[i])
    requires |s| > 0 && '0' <= s[0] <= '9'
    ensures StrToL(ws + s) == StrToL(s)
    ensures StrToL(ws + ['+'] + s) == StrToL(s)
    ensures StrToL(ws + ['-'] + s) == Saturate(-(Magnitude(s) as int))
  {
    assert Body(s) == s && !IsNegative(s) by { SkipSpaceOver([], s); assert [] + s == s; }
    assert Body(ws + s) == s && !IsNegative(ws + s) by { SkipSpaceOver(ws, s); }
    SameBodySameValue(ws + s, s);
    SignedBody(ws, '+', s);
    SameBodySameValue(ws + ['+'] + s, s);
    SignedBody(ws, '-', s);
    NegativeValue(ws + ['-'] + s);
  }

  lemma SameBodySameValue(x: seq<Byte>, y: seq<Byte>)
    requires Body(x) == Body(y) && IsNegative(x) == IsNegative(y)
    ensures StrToL(x) == StrToL(y)
  {
  }

  lemma NegativeValue(t: seq<Byte>)
    requires IsNegative(t)
    ensures StrToL(t) == Saturate(-(Magnitude(Body(t)) as int))
  {
  }

  lemma SignedBody(ws: seq<Byte>, sign: Byte, s: seq<Byte>)
    requires forall i :: 0 <= i < |ws| ==> IsSpace(ws[i])
    requires sign == '+' || sign == '-'
    requires |s| > 0 && '0' <= s[0] <= '9'
    ensures Body(ws + [sign] + s) == s
    ensures IsNegative(ws + [sign] + s) <==> sign == '-'
  {
    var t := [sign] + s;
    SkipSpaceOver(ws, t);
    assert ws + [sign] + s == ws + t;
    assert t[1..] == s;
  }

  lemma {:induction false} SkipSpaceOver(ws: seq<Byte>, s: seq<Byte>)
    requires forall i :: 0 <= i < |ws| ==> IsSpace(ws[i])
    requires |s| > 0 && !IsSpace(s[0])
    ensures SkipSpace(ws + s) == s
  {
    if |ws| > 0 {
      assert (ws + s)[1..] == ws[1..] + s;
      SkipSpaceOver(ws[1..], s);
    }
  }
}
