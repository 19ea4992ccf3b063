/** Shared datatypes, and decimal text as `str`, `int` and `{:02d}` treat it. */
module Basics {

  datatype Option<+T> = None | Some(value: T)

  datatype Result<+T, +E> = Success(value: T) | Failure(error: E)
}

module Decimal {
  import opened Basics

  function DigitChar(d: nat): char
    requires d < 10
  {
    ('0' as int + d) as char
  }

  predicate IsDigit(c: char) {
    '0' <= c <= '9'
  }

  function DigitValue(c: char): (d: nat)
    requires IsDigit(c)
    ensures d < 10 && DigitChar(d) == c
  {
    c as int - '0' as int
  }

  /** `str(n)` for a non-negative integer. */
  function Digits(n: nat): (t: string)
    ensures t != [] && forall c | c in t :: IsDigit(c)
  {
    if n < 10 then [DigitChar(n)] else Digits(n / 10) + [DigitChar(n % 10)]
  }

  /** `f'{n:02d}'` for a non-negative integer. */
  function Padded(n: nat): string {
    if n < 10 then "0" + Digits(n) else Digits(n)
  }

  /** The ASCII characters `str.strip` removes. */
  predicate IsSpace(c: char) {
    c == ' ' || '\t' <= c <= '\r' || '\U{1C}' <= c <= '\U{1F}'
  }

  function Strip(t: string): string {
    if t == [] then []
    else if IsSpace(t[0]) then Strip(t[1..])
    else if IsSpace(t[|t| - 1]) then Strip(t[..|t| - 1])
    else t
  }

  /** Unsigned part of `int(t)`: digits, with single underscores allowed between digits. */
  function ParseNat(t: string): Option<nat> {
    if t == [] || !IsDigit(t[|t| - 1]) then None
    else
      var rest := t[..|t| - 1];
      var last := DigitValue(t[|t| - 1]);
      if rest == [] then Some(last)
      else
        var more := if rest[|rest| - 1] == '_' then ParseNat(rest[..|rest| - 1]) else ParseNat(rest);
        if more.Some? then Some(10 * more.value + last) else None
  }

  function Negated(magnitude: Option<nat>): Option<int> {
    match magnitude
    case None => None
    case Some(v) => var i: int := v; Some(-i)
  }

  /** `int(t)` on ASCII text; None stands for ValueError. */
  function ParseInt(t: string): Option<int> {
    var body := Strip(t);
    if body == [] then None
    else if body[0] == '-' then
      Negated(ParseNat(body[1..]))
    else if body[0] == '+' then ParseNat(body[1..])
    else ParseNat(body)
  }

  lemma {:induction false} ParseNatOfDigits(n: nat)
    ensures ParseNat(Digits(n)) == Some(n)
  {
    if n >= 10 {
      var high, low := n / 10, n % 10;
      ParseNatOfDigits(high);
      AppendDigit(Digits(high), high, low);
    }
  }

  lemma {:induction false} AppendDigit(t: string, high: nat, low: nat)
    requires t != [] && IsDigit(t[|t| - 1]) && ParseNat(t) == Some(high) && low < 10
    ensures ParseNat(t + [DigitChar(low)]) == Some(10 * high + low)
  {
    var u := t + [DigitChar(low)];
    var last := u[|u| - 1];
    assert last == DigitChar(low) && IsDigit(last) && DigitValue(last) == low;
    var rest := u[..|u| - 1];
    assert rest == t;
    assert rest[|rest| - 1] != '_';
    assert ParseNat(u) == Some(10 * ParseNat(rest).value + DigitValue(last));
  }

  /** Reading back a published number gives that number. */
  lemma {:induction false} ParseIntOfDigits(n: nat)
    ensures ParseInt(Digits(n)) == Some(n)
  {
    ParseNatOfDigits(n);
    var t := Digits(n);
    assert IsDigit(t[0]) && IsDigit(t[|t| - 1]);
    assert Strip(t) == t;
  }

  lemma {:induction false} StripAfter(t: string, after: string)
    requires t != [] && !IsSpace(t[0]) && !IsSpace(t[|t| - 1]) && forall c | c in after :: IsSpace(c)
    ensures Strip(t + after) == t
    decreases |after|
  {
    var u := t + after;
    if after != [] {
      var n := |after| - 1;
      StripAfter(t, after[..n]);
      assert u[|u| - 1] == after[n] && u[..|u| - 1] == t + after[..n];
    } else {
      assert u == t;
    }
  }

  /** White space around the text is ignored. */
  lemma {:induction false} StripPadding(before: string, t: string, after: string)
    requires t != [] && !IsSpace(t[0]) && !IsSpace(t[|t| - 1])
    requires (forall c | c in before :: IsSpace(c)) && forall c | c in after :: IsSpace(c)
    ensures Strip(before + t + after) == t
    decreases |before|
  {
    var u := before + t + after;
    if before != [] {
      StripPadding(before[1..], t, after);
      assert u[0] == before[0] && u[1..] == before[1..] + t + after;
    } else {
      StripAfter(t, after);
      assert u == t + after;
    }
  }

  lemma {:induction false} ParseIntOfPadded(before: string, n: nat, after: string)
    requires (forall c | c in before :: IsSpace(c)) && forall c | c in after :: IsSpace(c)
    ensures ParseInt(before + Digits(n) + after) == Some(n)
  {
    var t := Digits(n);
    assert IsDigit(t[0]) && IsDigit(t[|t| - 1]);
    StripPadding(before, t, after);
    ParseIntOfDigits(n);
    StripPadding([], t, []);
    assert [] + t + [] == t;
  }

  /** Slots below 100 are numbered with two digits. */
  lemma {:induction false} PaddedIsTwoDigits(n: nat)
    requires n < 100
    ensures Padded(n) == [DigitChar(n / 10), DigitChar(n % 10)]
  {
    if n < 10 {
      assert DigitChar(0) == '0';
    } else {
      assert Digits(n / 10) == [DigitChar(n / 10)];
    }
  }

  lemma {:induction false} ParseIntOfNegative(n: nat)
    ensures var m: int := n; ParseInt("-" + Digits(n)) == Some(-m)
  {
    ParseNatOfDigits(n);
    var t := "-" + Digits(n);
    assert t[1..] == Digits(n);
    assert IsDigit(t[|t| - 1]) && !IsSpace(t[0]);
    assert Strip(t) == t;
  }

  lemma ParseNatOfPadded(n: nat)
    ensures ParseNat(Padded(n)) == Some(n)
  {
    ParseNatOfDigits(n);
    if n < 10 {
      var t := Padded(n);
      assert t == ['0', DigitChar(n)];
      assert t[..1] == ['0'];
      assert ParseNat(['0']) == Some(0);
    }
  }
}
