/** Text as the model sees it: a sequence of UTF-16 code units, each an `int`,
    plus the decimal rendering JavaScript uses when a number is interpolated
    into a template string. */
module Text {

  type Text = seq<int>

  const Backslash := 92
  const Hyphen := 45
  const Pipe := 124

  /** The code units of a string literal. */
  function Lit(s: string): (r: Text)
    ensures |r| == |s|
    ensures forall i :: 0 <= i < |s| ==> r[i] == s[i] as int
  {
    seq(|s|, i requires 0 <= i < |s| => s[i] as int)
  }

  predicate IsDigit(c: int) {
    48 <= c <= 57
  }

  /** Decimal digits of a natural number, most significant first, without
      leading zeros. */
  function Digits(n: nat): (r: Text)
    ensures |r| >= 1
    ensures forall i :: 0 <= i < |r| ==> IsDigit(r[i])
    ensures n > 0 ==> r[0] != 48
    decreases n
  {
    if n < 10 then [48 + n] else Digits(n / 10) + [48 + n % 10]
  }

  /** `${n}` for an integer `n` with |n| < 10^21: a minus sign for
      negatives, then the digits. From 10^21 on, JavaScript switches to
      exponent notation, which this does not model. */
  function Decimal(n: int): (r: Text)
    ensures |r| >= 1
    ensures n >= 0 ==> forall i :: 0 <= i < |r| ==> IsDigit(r[i])
    ensures n < 0 ==> r[0] == Hyphen
    ensures forall i :: 0 <= i < |r| ==> IsDigit(r[i]) || r[i] == Hyphen
    ensures IsDigit(r[|r| - 1])
  {
    if n < 0 then [Hyphen] + Digits(-n) else Digits(n)
  }

  /** Reads a run of decimal digits back as a number (the inverse of `Digits`). */
  function DigitsValue(s: Text): int
    decreases |s|
  {
    if s == [] then 0 else DigitsValue(s[..|s| - 1]) * 10 + (s[|s| - 1] - 48)
  }

  lemma {:induction false} DigitsRoundTrip(n: nat)
    ensures DigitsValue(Digits(n)) == n
    decreases n
  {
    if n >= 10 {
      var d := Digits(n / 10) + [48 + n % 10];
      assert d[..|d| - 1] == Digits(n / 10);
      DigitsRoundTrip(n / 10);
    }
  }

  /** Splits `s` after its leading run of digits. */
  function LeadingDigits(s: Text): (k: nat)
    ensures k <= |s|
    ensures forall i :: 0 <= i < k ==> IsDigit(s[i])
    ensures k < |s| ==> !IsDigit(s[k])
    decreases |s|
  {
    if s == [] || !IsDigit(s[0]) then 0 else 1 + LeadingDigits(s[1..])
  }

  /** A digit run followed by a non-digit splits exactly at the run's end. */
  lemma {:induction false} LeadingDigitsOfRun(d: Text, rest: Text)
    requires forall i :: 0 <= i < |d| ==> IsDigit(d[i])
    requires rest == [] || !IsDigit(rest[0])
    ensures LeadingDigits(d + rest) == |d|
    decreases |d|
  {
    if d != [] {
      assert (d + rest)[1..] == d[1..] + rest;
      LeadingDigitsOfRun(d[1..], rest);
    }
  }
}
