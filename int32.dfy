/** `int` (System.Int32) as the core reads and writes it: `int.TryParse`,
    `int.Parse` and `ToString()` in the invariant culture. */
module Int32 {
  import opened Nullable

  const MinValue: int := -0x8000_0000
  const MaxValue: int := 0x7FFF_FFFF

  predicate InRange(n: int)
  {
    MinValue <= n <= MaxValue
  }

  predicate IsDigit(c: char)
  {
    '0' <= c <= '9'
  }

  predicate AllDigits(s: string)
  {
    forall i :: 0 <= i < |s| ==> IsDigit(s[i])
  }

  function DigitValue(c: char): nat
    requires IsDigit(c)
  {
    c as int - '0' as int
  }

  function DigitChar(d: nat): char
    requires d < 10
  {
    ('0' as int + d) as char
  }

  /** The number a run of decimal digits denotes, most significant first;
      leading zeros are allowed. */
  function DigitsValue(s: string): nat
    requires AllDigits(s)
    decreases |s|
  {
    if s == [] then 0 else DigitsValue(s[..|s| - 1]) * 10 + DigitValue(s[|s| - 1])
  }

  /** The decimal digits of `n`, without leading zeros; reading them back
      gives `n`. */
  function NatToString(n: nat): (s: string)
    ensures |s| >= 1 && AllDigits(s)
    ensures DigitsValue(s) == n
    ensures s[0] == '0' ==> n == 0
    decreases n
  {
    var last := [DigitChar(n % 10)];
    if n < 10 then last
    else
      var s := NatToString(n / 10) + last;
      assert s[..|s| - 1] == NatToString(n / 10);
      s
  }

  /** `n.ToString()`: a minus sign for negative values, then the digits of
      the magnitude. */
  function ToString(n: int): (s: string)
    ensures |s| >= 1 && IsDigit(s[|s| - 1])
    ensures s[0] == '-' <==> n < 0
    ensures forall i :: 0 <= i < |s| ==> IsDigit(s[i]) || s[i] == '-'
  {
    if n < 0 then "-" + NatToString(-n) else NatToString(n)
  }

  /** The white space `NumberStyles.Integer` lets through before and after
      the number: U+0009..U+000D and the space. */
  predicate IsNumberWhite(c: char)
  {
    c == ' ' || '\U{9}' <= c <= '\U{D}'
  }

  /** The input without its leading number white space. */
  function TrimLeadingWhite(s: string): (t: string)
    ensures |t| <= |s| && t == s[|s| - |t|..]
    ensures forall i :: 0 <= i < |s| - |t| ==> IsNumberWhite(s[i])
    ensures t == [] || !IsNumberWhite(t[0])
    decreases |s|
  {
    if s != [] && IsNumberWhite(s[0]) then TrimLeadingWhite(s[1..]) else s
  }

  /** The input without its trailing number white space. */
  function TrimTrailingWhite(s: string): (t: string)
    ensures |t| <= |s| && t == s[..|t|]
    ensures forall i :: |t| <= i < |s| ==> IsNumberWhite(s[i])
    ensures t == [] || !IsNumberWhite(t[|t| - 1])
    decreases |s|
  {
    if s != [] && IsNumberWhite(s[|s| - 1]) then TrimTrailingWhite(s[..|s| - 1]) else s
  }

  /** `int.TryParse(s, out n)` with `NumberStyles.Integer`: optional white
      space, an optional `+` or `-`, one or more decimal digits, optional white
      space; `None` (false) when the text is anything else or the value does
      not fit in 32 bits. `int.Parse` is the same function, throwing where this
      gives `None`. */
  function TryParse(s: string): (r: Option<int>)
    ensures r.Some? ==> InRange(r.value)
  {
    var t := TrimTrailingWhite(TrimLeadingWhite(s));
    var signed := t != [] && (t[0] == '-' || t[0] == '+');
    var digits := if signed then t[1..] else t;
    if digits == [] || !AllDigits(digits) then None
    else
      var magnitude: int := DigitsValue(digits);
      var v: int := if signed && t[0] == '-' then -magnitude else magnitude;
      if InRange(v) then Some(v) else None
  }

  /** Every 32-bit value parses back from its own rendering. */
  lemma ParseToString(n: int)
    requires InRange(n)
    ensures TryParse(ToString(n)) == Some(n)
  {
  }

  /** A value outside the 32-bit range does not parse back from its
      rendering: the parser reports overflow instead of wrapping. */
  lemma ParseOutOfRange(n: int)
    requires !InRange(n)
    ensures TryParse(ToString(n)) == None
  {
  }
}
