/** Bytes as the serial console sees them, and the few C character-class
    and string helpers the console relies on. */
module Ascii {

  /** One byte of serial input. The console receives a `uint8_t` and keeps it
      in a `char` buffer, so a byte is a character below 256. */
  type Byte = c: char | c as int < 0x100

  const NUL: Byte := '\0'
  const LF: Byte := '\n'
  const CR: Byte := '\r'

  predicate IsLower(c: Byte) {
    'a' <= c <= 'z'
  }

  /** `toupper` in the C locale: only the 26 ASCII lower-case letters change. */
  function ToUpper(c: Byte): Byte {
    if IsLower(c) then (c as int - 32) as char else c
  }

  /** Arduino's `String::toUpperCase`: `toupper` applied to every character. */
  function Upper(s: seq<Byte>): (u: seq<Byte>)
    ensures |u| == |s|
    ensures forall i :: 0 <= i < |s| ==> u[i] == ToUpper(s[i])
    ensures forall i :: 0 <= i < |u| ==> !IsLower(u[i])
  {
    seq(|s|, i requires 0 <= i < |s| => ToUpper(s[i]))
  }

  /** The characters of `s` other than NUL, in their order: what appending
      each character of `s` to an Arduino `String` leaves, since `String('\0')`
      is empty. */
  function DropNul(s: seq<Byte>): (r: seq<Byte>)
    ensures NUL !in r
    ensures |r| <= |s|
    ensures NUL !in s ==> r == s
    ensures forall c :: c != NUL ==> (c in r <==> c in s)
    ensures |s| == 1 ==> r == (if s[0] == NUL then [] else s)
  {
    if |s| == 0 then []
    else (if s[0] == NUL then [] else [s[0]]) + DropNul(s[1..])
  }

  /** Dropping NULs works piece by piece: with the one-character case above,
      this fixes the order and the number of the characters kept. */
  lemma {:induction false} DropNulAppend(a: seq<Byte>, b: seq<Byte>)
    ensures DropNul(a + b) == DropNul(a) + DropNul(b)
  {
    if |a| == 0 {
      assert a + b == b;
    } else {
      assert (a + b)[1..] == a[1..] + b;
      DropNulAppend(a[1..], b);
    }
  }

  /** Position of the first `c` in `s`, or `|s|` when there is none. */
  function IndexOf(s: seq<Byte>, c: Byte): (i: nat)
    ensures i <= |s|
    ensures forall j :: 0 <= j < i ==> s[j] != c
    ensures i < |s| ==> s[i] == c
  {
    if |s| == 0 || s[0] == c then 0 else 1 + IndexOf(s[1..], c)
  }

  /** The C string that starts at `s`: everything before the first NUL. */
  function CString(s: seq<Byte>): (r: seq<Byte>)
    ensures r <= s
    ensures NUL !in r
    ensures |r| < |s| ==> s[|r|] == NUL
  {
    s[..IndexOf(s, NUL)]
  }

  lemma UpperAppend(a: seq<Byte>, b: seq<Byte>)
    ensures Upper(a + b) == Upper(a) + Upper(b)
  {
  }

  /** Upper-casing never creates or removes a NUL, so it commutes with dropping them. */
  lemma {:induction false} UpperDropNulCommute(s: seq<Byte>)
    ensures Upper(DropNul(s)) == DropNul(Upper(s))
  {
    if |s| > 0 {
      var u := Upper(s);
      UpperDropNulCommute(s[1..]);
      assert u[1..] == Upper(s[1..]);
      if s[0] == NUL {
        assert DropNul(s) == DropNul(s[1..]);
        assert DropNul(u) == DropNul(u[1..]);
      } else {
        assert DropNul(s) == [s[0]] + DropNul(s[1..]);
        UpperAppend([s[0]], DropNul(s[1..]));
        assert DropNul(u) == [u[0]] + DropNul(u[1..]);
      }
    }
  }
}
