/**
 * Go's `strconv.ParseInt(s, 10, 64)` and `strconv.ParseUint(s, 10, 64)`, reporting
 * only success or failure, with `strconv.FormatInt`/`FormatUint` in base 10 as the
 * partners they invert.
 */
module GoStrconv {
  import opened Wrappers

  const MinInt64: int := -0x8000_0000_0000_0000
  const MaxInt64: int := 0x7FFF_FFFF_FFFF_FFFF
  const MaxUint64: int := 0xFFFF_FFFF_FFFF_FFFF

  predicate IsDigit(c: char) { '0' <= c <= '9' }

  predicate AllDigits(s: string) {
    forall i :: 0 <= i < |s| ==> IsDigit(s[i])
  }

  function DigitValue(c: char): (d: nat)
    requires IsDigit(c)
    ensures d < 10
  {
    (c as int) - ('0' as int)
  }

  function DigitChar(d: nat): (c: char)
    requires d < 10
    ensures IsDigit(c) && DigitValue(c) == d
  {
    (('0' as int) + d) as char
  }

  /** The number a string of decimal digits denotes, most significant digit first. */
  function DecimalValue(s: string): nat
    requires AllDigits(s)
  {
    if s == [] then 0 else DecimalValue(s[..|s| - 1]) * 10 + DigitValue(s[|s| - 1])
  }

  /**
   * `strconv.ParseUint(s, 10, 64)`: one or more decimal digits (no sign, no
   * underscores, leading zeros allowed) whose value fits in 64 bits.
   */
  function ParseUint(s: string): (r: Option<nat>)
    ensures r.Some? <==> s != [] && AllDigits(s) && DecimalValue(s) <= MaxUint64
    ensures r.Some? ==> r.value == DecimalValue(s)
  {
    if s != [] && AllDigits(s) && DecimalValue(s) <= MaxUint64 then Some(DecimalValue(s)) else None
  }

  /** The digits after an optional leading `+` or `-`, and whether the sign was `-`. */
  function SignAndBody(s: string): (bool, string)
    requires s != []
  {
    if s[0] == '-' then (true, s[1..])
    else if s[0] == '+' then (false, s[1..])
    else (false, s)
  }

  /**
   * `strconv.ParseInt(s, 10, 64)`: an optional sign, then what `ParseUint` accepts,
   * the signed value lying in the 64-bit two's-complement range.
   */
  function ParseInt(s: string): (r: Option<int>)
    ensures r.Some? ==> MinInt64 <= r.value <= MaxInt64
    ensures s == [] ==> r.None?
  {
    if s == [] then None
    else
      var (neg, body) := SignAndBody(s);
      match ParseUint(body)
      case None => None
      case Some(n) =>
        var m: int := n;
        var x := if neg then -m else m;
        if MinInt64 <= x <= MaxInt64 then Some(x) else None
  }

  /** `strconv.FormatUint(n, 10)`: the shortest decimal spelling of `n`. */
  function FormatUint(n: nat): (s: string)
    ensures s != [] && AllDigits(s)
  {
    if n < 10 then [DigitChar(n)] else FormatUint(n / 10) + [DigitChar(n % 10)]
  }

  /** `strconv.FormatInt(x, 10)`: a `-` in front of negative numbers. */
  function FormatInt(x: int): string
  {
    if x < 0 then "-" + FormatUint(-x) else FormatUint(x)
  }

  lemma {:induction false} DecimalValueOfFormat(n: nat)
    ensures DecimalValue(FormatUint(n)) == n
  {
    if n >= 10 {
      var s := FormatUint(n);
      assert s[..|s| - 1] == FormatUint(n / 10);
      DecimalValueOfFormat(n / 10);
    }
  }

  /** Parsing the spelling of a 64-bit unsigned number gives the number back. */
  lemma ParseUintOfFormat(n: nat)
    requires n <= MaxUint64
    ensures ParseUint(FormatUint(n)) == Some(n)
  {
    DecimalValueOfFormat(n);
  }

  /** Parsing the spelling of a 64-bit signed number gives the number back. */
  lemma ParseIntOfFormat(x: int)
    requires MinInt64 <= x <= MaxInt64
    ensures ParseInt(FormatInt(x)) == Some(x)
  {
    var s := FormatInt(x);
    if x < 0 {
      DecimalValueOfFormat(-x);
      assert SignAndBody(s) == (true, FormatUint(-x));
    } else {
      DecimalValueOfFormat(x);
      assert IsDigit(FormatUint(x)[0]);
      assert SignAndBody(s) == (false, FormatUint(x));
    }
  }

  /** Unlike `ParseInt`, `ParseUint` takes no sign, not even `+`. */
  lemma ParseUintRejectsSign(body: string)
    ensures ParseUint("+" + body) == None && ParseUint("-" + body) == None
  {
    assert !IsDigit(("+" + body)[0]);
    assert !IsDigit(("-" + body)[0]);
  }

  /** A sign alone, or nothing at all, is not a number. */
  lemma ParseIntNeedsDigits()
    ensures ParseInt("") == None && ParseInt("+") == None && ParseInt("-") == None
  {
    var plus, minus := "+", "-";
    assert plus[0] == '+' && plus[1..] == [];
    assert minus[0] == '-' && minus[1..] == [];
  }
}
