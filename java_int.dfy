/**
 * Integer.parseInt for the argument tokens of the parameterised commands: an
 * optional sign, at least one decimal digit, and a value that fits in 32 bits.
 * Anything else is a NumberFormatException, modelled as `None`.
 */
module JavaInt {
  import opened Wrappers
  import opened JavaStrings

  const MinInt: int := -0x8000_0000
  const MaxInt: int := 0x7fff_ffff

  predicate InRange(n: int) {
    MinInt <= n <= MaxInt
  }

  function DigitValue(c: char): (d: nat)
    requires IsDigit(c)
    ensures d < 10 && DigitChar(d) == c
  {
    c as int - '0' as int
  }

  /** The value of a run of decimal digits, most significant first. */
  function DigitsValue(s: string): (n: nat)
    requires AllDigits(s)
  {
    if s == [] then 0
    else
      assert s[|s| - 1] in s;
      DigitsValue(s[..|s| - 1]) * 10 + DigitValue(s[|s| - 1])
  }

  /** The text of a token after its sign character, if it has one. */
  function Unsigned(s: string): string {
    if s != [] && (s[0] == '-' || s[0] == '+') then s[1..] else s
  }

  predicate Negative(s: string) {
    s != [] && s[0] == '-'
  }

  /** A sign at most, then one or more digits. */
  predicate WellFormed(s: string) {
    Unsigned(s) != [] && AllDigits(Unsigned(s))
  }

  /** The signed value a well-formed token denotes, before any range check. */
  function SignedValue(s: string): int
    requires WellFormed(s)
  {
    var magnitude: int := DigitsValue(Unsigned(s));
    if Negative(s) then -magnitude else magnitude
  }

  /**
   * Integer.parseInt: `Some(v)` exactly when the token is well formed and the
   * signed value of its digits lies in the 32-bit range.
   */
  function ParseInt(s: string): (r: Option<int>)
    ensures r.Some? <==> WellFormed(s) && InRange(SignedValue(s))
    ensures r.Some? ==> r.value == SignedValue(s) && InRange(r.value) && (r.value < 0 ==> Negative(s))
  {
    var body := Unsigned(s);
    if body == [] || !AllDigits(body) then None
    else
      var magnitude: int := DigitsValue(body);
      var v := if Negative(s) then -magnitude else magnitude;
      if InRange(v) then Some(v) else None
  }

  /** The digits NatToString writes are read back as the same number. */
  lemma {:induction false} DigitsValueOfNatToString(n: nat)
    ensures DigitsValue(NatToString(n)) == n
  {
    if n >= 10 {
      DigitsValueOfNatToString(n / 10);
      var s := NatToString(n);
      assert s[..|s| - 1] == NatToString(n / 10);
    }
  }

  /** Every 32-bit value, written by Integer.toString, parses back to itself. */
  lemma ParseIntToString(n: int)
    requires InRange(n)
    ensures ParseInt(IntToString(n)) == Some(n)
  {
    var m: nat := if n < 0 then -n else n;
    var digits := NatToString(m);
    var s := IntToString(n);
    assert digits[0] in digits;
    assert IsDigit(digits[0]);
    if n < 0 {
      assert s == "-" + digits;
      assert s[1..] == digits;
      assert Unsigned(s) == digits && Negative(s);
    } else {
      assert s == digits;
      assert Unsigned(s) == digits && !Negative(s);
    }
    DigitsValueOfNatToString(m);
    assert SignedValue(s) == n;
  }

  /** A token whose body is not all digits, an empty token and a lone sign are all rejected. */
  lemma ParseIntRejects(s: string)
    requires Unsigned(s) == [] || exists i :: 0 <= i < |Unsigned(s)| && !IsDigit(Unsigned(s)[i])
    ensures ParseInt(s) == None
  {
    if Unsigned(s) != [] {
      var i :| 0 <= i < |Unsigned(s)| && !IsDigit(Unsigned(s)[i]);
      assert Unsigned(s)[i] in Unsigned(s);
    }
  }
}
