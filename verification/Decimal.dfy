/** Whole numbers as text: what `atoi` makes of a string, and the usual decimal notation. */
module Decimal {

  predicate IsDigit(c: char) { '0' <= c <= '9' }

  predicate IsSpace(c: char) {
    c == ' ' || c == '\t' || c == '\n' || c == '\r' || c == '\U{0B}' || c == '\U{0C}'
  }

  function Digit(c: char): nat
    requires IsDigit(c)
  {
    c as int - '0' as int
  }

  function DigitChar(d: nat): (c: char)
    requires d < 10
    ensures IsDigit(c) && Digit(c) == d
  {
    ('0' as int + d) as char
  }

  /** The value of the digits a string begins with, after some digits already read. */
  function Number(s: string, acc: nat): nat {
    if s == [] || !IsDigit(s[0]) then acc else Number(s[1..], acc * 10 + Digit(s[0]))
  }

  /** The C library function: white space, an optional sign, digits; anything else ends the number. */
  function Atoi(s: string): int {
    if s == [] then 0
    else if IsSpace(s[0]) then Atoi(s[1..])
    else if s[0] == '-' then (var n: int := Number(s[1..], 0); -n)
    else if s[0] == '+' then Number(s[1..], 0)
    else Number(s, 0)
  }

  function Digits(n: nat): (s: string)
    ensures s != [] && forall i :: 0 <= i < |s| ==> IsDigit(s[i])
  {
    if n < 10 then [DigitChar(n)] else Digits(n / 10) + [DigitChar(n % 10)]
  }

  function Show(n: int): (s: string)
    ensures s != [] && forall i :: 0 <= i < |s| ==> IsDigit(s[i]) || s[i] == '-'
  {
    if n < 0 then "-" + Digits(-n) else Digits(n)
  }

  lemma {:induction false} NumberSnoc(s: string, c: char, acc: nat)
    requires IsDigit(c) && forall i :: 0 <= i < |s| ==> IsDigit(s[i])
    ensures Number(s + [c], acc) == Number(s, acc) * 10 + Digit(c)
  {
    if s == [] {
      assert Number([c][1..], acc * 10 + Digit(c)) == acc * 10 + Digit(c);
      assert s + [c] == [c];
    } else {
      assert (s + [c])[1..] == s[1..] + [c];
      NumberSnoc(s[1..], c, acc * 10 + Digit(s[0]));
    }
  }

  lemma {:induction false} NumberOfDigits(n: nat)
    ensures Number(Digits(n), 0) == n
  {
    if n < 10 {
      assert Number(Digits(n)[1..], n) == n;
    } else {
      NumberOfDigits(n / 10);
      NumberSnoc(Digits(n / 10), DigitChar(n % 10), 0);
    }
  }

  lemma AtoiInvertsShow(n: int)
    ensures Atoi(Show(n)) == n
  {
    if n < 0 {
      NumberOfDigits(-n);
      assert Show(n)[1..] == Digits(-n);
    } else {
      NumberOfDigits(n);
    }
  }

  // ------------------------------------------------------------------- any text

  predicate NoMoreDigits(rest: string) { rest == [] || !IsDigit(rest[0]) }

  lemma {:induction false} NumberStops(digits: string, rest: string, acc: nat)
    requires NoMoreDigits(rest) && forall i :: 0 <= i < |digits| ==> IsDigit(digits[i])
    ensures Number(digits + rest, acc) == Number(digits, acc)
    decreases |digits|
  {
    if digits == [] {
      assert digits + rest == rest;
    } else {
      assert (digits + rest)[1..] == digits[1..] + rest;
      NumberStops(digits[1..], rest, acc * 10 + Digit(digits[0]));
    }
  }

  lemma {:induction false} SpacesAreSkipped(spaces: string, s: string)
    requires forall i :: 0 <= i < |spaces| ==> IsSpace(spaces[i])
    ensures Atoi(spaces + s) == Atoi(s)
    decreases |spaces|
  {
    if spaces == [] {
      assert spaces + s == s;
    } else {
      assert (spaces + s)[1..] == spaces[1..] + s;
      SpacesAreSkipped(spaces[1..], s);
    }
  }

  /** A number after white space, with a plus sign or without, and whatever follows its digits. */
  lemma AtoiReadsNumber(spaces: string, n: nat, rest: string)
    requires (forall i :: 0 <= i < |spaces| ==> IsSpace(spaces[i])) && NoMoreDigits(rest)
    ensures Atoi(spaces + (Digits(n) + rest)) == Atoi(spaces + ("+" + (Digits(n) + rest))) == n
    ensures Atoi(spaces + ("-" + (Digits(n) + rest))) == 0 - n
  {
    var body := Digits(n) + rest;
    NumberOfDigits(n);
    NumberStops(Digits(n), rest, 0);
    assert body[0] == Digits(n)[0];
    SpacesAreSkipped(spaces, body);
    assert ("+" + body)[1..] == body && ("-" + body)[1..] == body;
    SpacesAreSkipped(spaces, "+" + body);
    SpacesAreSkipped(spaces, "-" + body);
  }

  /** Where no digit follows, the value is zero. */
  lemma AtoiOfOther(spaces: string, sign: string, rest: string)
    requires (forall i :: 0 <= i < |spaces| ==> IsSpace(spaces[i])) && sign in ["", "+", "-"] && NoMoreDigits(rest)
    requires sign == "" && rest != [] ==> !IsSpace(rest[0]) && rest[0] != '+' && rest[0] != '-'
    ensures Atoi(spaces + (sign + rest)) == 0
  {
    SpacesAreSkipped(spaces, sign + rest);
    if sign == "" {
      assert sign + rest == rest;
    } else {
      assert (sign + rest)[1..] == rest;
    }
  }
}
