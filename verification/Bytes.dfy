/** Byte strings and decimal numbers. A `char` stands for one byte of the wire. */
module Bytes {

  datatype Option<+T> = None | Some(value: T)

  const CRLF := "\r\n"

  /** What cutting `n` bytes off the front leaves. */
  function Behind(s: string, n: nat): string { if n <= |s| then s[n..] else [] }

  lemma {:induction false} Assoc<T>(x: seq<T>, y: seq<T>, z: seq<T>)
    ensures (x + y) + z == x + (y + z)
  {
  }

  predicate IsDigit(c: char) {
    '0' <= c <= '9'
  }

  function DigitValue(c: char): (d: int)
    requires IsDigit(c)
    ensures 0 <= d < 10
  {
    c as int - '0' as int
  }

  predicate AllDigits(s: string) {
    forall i :: 0 <= i < |s| ==> IsDigit(s[i])
  }

  /** What a parser holds after `v = v * 10 + (c - '0')` for each digit of `s`. */
  function Accumulate(v: int, s: string): int
    requires AllDigits(s)
    decreases |s|
  {
    if s == [] then v else Accumulate(v * 10 + DigitValue(s[0]), s[1..])
  }

  /** The text that `%d` prints for a number that is not negative. */
  function Decimal(n: nat): (s: string)
    ensures |s| > 0 && AllDigits(s)
  {
    if n < 10 then ['0' + n as char] else Decimal(n / 10) + ['0' + (n % 10) as char]
  }

  /** The text that `%d` prints for any number. */
  function Signed(n: int): string {
    if n < 0 then "-" + Decimal(-n) else Decimal(n)
  }

  lemma {:induction false} AccumulateSnoc(v: int, s: string, c: char)
    requires AllDigits(s) && IsDigit(c)
    ensures AllDigits(s + [c])
    ensures Accumulate(v, s + [c]) == Accumulate(v, s) * 10 + DigitValue(c)
    decreases |s|
  {
    if s == [] {
      assert s + [c] == [c];
    } else {
      AccumulateSnoc(v * 10 + DigitValue(s[0]), s[1..], c);
      assert (s + [c])[1..] == s[1..] + [c];
    }
  }

  /** Printing a number and reading it back digit by digit gives the number. */
  lemma {:induction false} DecimalRoundTrip(n: nat)
    ensures Accumulate(0, Decimal(n)) == n
  {
    if n >= 10 {
      DecimalRoundTrip(n / 10);
      AccumulateSnoc(0, Decimal(n / 10), '0' + (n % 10) as char);
    }
  }

  /** Index of the first `c` in `s`, or |s|. */
  function IndexOf(s: string, c: char): (i: nat)
    ensures i <= |s| && c !in s[..i]
    ensures i < |s| ==> s[i] == c
  {
    if s == [] then 0
    else if s[0] == c then 0
    else
      var i := 1 + IndexOf(s[1..], c);
      assert s[..i] == [s[0]] + s[1..][..i - 1];
      i
  }

  /** What functions on strings see of bytes that a zero byte follows. */
  function CString(s: string): string { s[..IndexOf(s, '\0')] }
}
