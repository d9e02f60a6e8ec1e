/** Decimal text of Kotlin `Int`s: `Int.toString()` and `String.toIntOrNull()`. */
module IntText {
  import opened KotlinInt
  import opened Options

  predicate IsDigit(c: char) {
    '0' <= c <= '9'
  }

  predicate AllDigits(s: string) {
    forall i :: 0 <= i < |s| ==> IsDigit(s[i])
  }

  function DigitValue(c: char): nat
    requires IsDigit(c)
  {
    (c as int) - ('0' as int)
  }

  function DigitChar(d: nat): (c: char)
    requires d < 10
    ensures IsDigit(c) && DigitValue(c) == d
  {
    (('0' as int) + d) as char
  }

  /** Value of a run of decimal digits, most significant first. */
  function DigitsValue(ds: string): nat
    requires AllDigits(ds)
  {
    if |ds| == 0 then 0 else 10 * DigitsValue(ds[..|ds| - 1]) + DigitValue(ds[|ds| - 1])
  }

  /** The decimal digits of `n`, most significant first, without leading zeros. */
  function NatToDigits(n: nat): (ds: string)
    ensures |ds| >= 1 && AllDigits(ds)
    ensures DigitsValue(ds) == n
    ensures ds[0] == '0' ==> n == 0
  {
    if n < 10 then
      [DigitChar(n)]
    else
      var prefix := NatToDigits(n / 10);
      var ds := prefix + [DigitChar(n % 10)];
      assert ds[..|ds| - 1] == prefix;
      ds
  }

  /** `Int.toString()`: a minus sign for a negative number, then the digits of the magnitude. */
  function IntToString(n: int): (s: string)
    ensures |s| >= 1
    ensures s[0] == '-' <==> n < 0
    ensures n >= 0 ==> AllDigits(s)
  {
    if n < 0 then "-" + NatToDigits(-n) else NatToDigits(n)
  }

  /** `String.toIntOrNull()` in radix 10: an optional leading `+` or `-`, then at least one
      digit, and a value that fits in an `Int`; any other text gives `None`. */
  function ToIntOrNull(s: string): (r: Option<int>)
    ensures r.Some? ==> IsInt(r.value)
    ensures r.Some? ==> |s| >= 1 && |s[if s[0] == '-' || s[0] == '+' then 1 else 0..]| >= 1
    ensures r.Some? ==> |s| >= 1 && AllDigits(s[if s[0] == '-' || s[0] == '+' then 1 else 0..])
    ensures r.Some? && r.value < 0 ==> s[0] == '-'
    ensures r.Some? ==> var magnitude: int := DigitsValue(s[if s[0] == '-' || s[0] == '+' then 1 else 0..]);
                        r.value == if s[0] == '-' then -magnitude else magnitude
  {
    if |s| == 0 then None
    else
      var start := if s[0] == '-' || s[0] == '+' then 1 else 0;
      var body := s[start..];
      if |body| == 0 || !AllDigits(body) then None
      else
        var magnitude: int := DigitsValue(body);
        var value: int := if s[0] == '-' then -magnitude else magnitude;
        if IsInt(value) then Some(value) else None
  }

  /** Text made of an optional sign and at least one digit parses to its signed value exactly
      when that value fits in an `Int`: leading zeros and a `+` sign are accepted. */
  lemma ParsesSignedDigits(sign: string, ds: string)
    requires sign == "" || sign == "+" || sign == "-"
    requires |ds| >= 1 && AllDigits(ds)
    ensures var magnitude: int := DigitsValue(ds);
            var value := if sign == "-" then -magnitude else magnitude;
            ToIntOrNull(sign + ds) == if IsInt(value) then Some(value) else None
  {
    var s := sign + ds;
    var start := if s[0] == '-' || s[0] == '+' then 1 else 0;
    if sign == "" {
      assert s == ds;
      assert IsDigit(ds[0]);
      assert start == 0;
    } else {
      assert s[0] == sign[0];
      assert start == 1;
      assert s[1..] == ds;
    }
    assert s[start..] == ds;
  }

  /** Reading back what `Int.toString()` wrote gives the same `Int`. */
  lemma ParsesOwnRendering(n: int)
    requires IsInt(n)
    ensures ToIntOrNull(IntToString(n)) == Some(n)
  {
    var s := IntToString(n);
    if n < 0 {
      assert s[1..] == NatToDigits(-n);
    } else {
      assert IsDigit(s[0]);
    }
  }
}
