/**
  The handful of JavaScript primitives the editor's components lean on, stated
  over Dafny's unbounded integers, reals and strings:
  - `undefined`/`null` as `Option`;
  - the numeric `x || 1` default;
  - `String.prototype.startsWith` and `replace(/,/g, "")`;
  - `parseInt(s, 10)`;
  - `Math.round`;
  - the decimal rendering of an integer inside a template literal.
 */
module JsPrims {

  /** A value that may be `undefined` (or `null`). */
  datatype Option<+T> = None | Some(value: T)

  // ---------------------------------------------------------------------------
  // Numbers
  // ---------------------------------------------------------------------------

  /** `x || 1` on a number: zero is falsy and falls back to 1. */
  function OrOne(x: real): (r: real)
    ensures x == 0.0 ==> r == 1.0
    ensures x != 0.0 ==> r == x
  {
    if x == 0.0 then 1.0 else x
  }

  /** `x || 1` on a number that may be `undefined`. */
  function OptOrOne(x: Option<real>): (r: real)
    ensures r != 0.0
    ensures x.Some? && x.value != 0.0 ==> r == x.value
    ensures x == Some(0.0) ==> r == 1.0
    ensures x.None? ==> r == 1.0
  {
    match x
    case None => 1.0
    case Some(v) => OrOne(v)
  }

  /** `Math.round`: the nearest integer, halves rounded towards +infinity. */
  function Round(x: real): (r: int)
    ensures r as real - 0.5 <= x < r as real + 0.5
  {
    (x + 0.5).Floor
  }

  /** Rounding an integral value gives that integer back. */
  lemma RoundOfInt(n: int)
    ensures Round(n as real) == n
  {
  }

  // ---------------------------------------------------------------------------
  // Characters and digits
  // ---------------------------------------------------------------------------

  predicate IsDigit(c: char) {
    '0' <= c <= '9'
  }

  predicate AllDigits(s: string) {
    forall i :: 0 <= i < |s| ==> IsDigit(s[i])
  }

  function DigitValue(c: char): (d: nat)
    requires IsDigit(c)
    ensures d < 10
  {
    (c as int) - ('0' as int)
  }

  function DigitChar(d: nat): (c: char)
    requires d < 10
    ensures IsDigit(c) && DigitValue(c) == d
  {
    (('0' as int) + d) as char
  }

  /** The white space `parseInt` skips before the number: ASCII blanks, line
      terminators, no-break space and the byte-order mark. */
  predicate IsJsSpace(c: char) {
    var k := c as int;
    k == 0x20 || k == 0x09 || k == 0x0A || k == 0x0B || k == 0x0C || k == 0x0D
    || k == 0xA0 || k == 0xFEFF || k == 0x2028 || k == 0x2029
  }

  // ---------------------------------------------------------------------------
  // Integer <-> decimal string
  // ---------------------------------------------------------------------------

  /** The decimal digits of `n`, most significant first, no leading zeros. */
  function NatToString(n: nat): (s: string)
    ensures |s| > 0 && AllDigits(s)
    ensures |s| > 1 ==> s[0] != '0'
    decreases n
  {
    if n < 10 then [DigitChar(n)] else NatToString(n / 10) + [DigitChar(n % 10)]
  }

  /** The number an all-digit string denotes in base 10. */
  function DigitsValue(s: string): nat
    requires AllDigits(s)
  {
    if |s| == 0 then 0 else DigitsValue(s[..|s| - 1]) * 10 + DigitValue(s[|s| - 1])
  }

  /** Rendering then reading back a natural number is the identity. */
  lemma {:induction false} DigitsValueOfNatToString(n: nat)
    ensures DigitsValue(NatToString(n)) == n
    decreases n
  {
    if n >= 10 {
      var s := NatToString(n);
      assert s[..|s| - 1] == NatToString(n / 10);
      DigitsValueOfNatToString(n / 10);
    }
  }

  /** Distinct numbers render as distinct strings. */
  lemma NatToStringInjective(m: nat, n: nat)
    requires NatToString(m) == NatToString(n)
    ensures m == n
  {
    DigitsValueOfNatToString(m);
    DigitsValueOfNatToString(n);
  }

  // ---------------------------------------------------------------------------
  // String helpers
  // ---------------------------------------------------------------------------

  /** `s.startsWith(prefix)`. */
  predicate StartsWith(prefix: string, s: string) {
    |prefix| <= |s| && s[..|prefix|] == prefix
  }

  /** `s.replace(/,/g, "")`: every comma removed, everything else kept in order. */
  function StripCommas(s: string): (r: string)
    ensures |r| <= |s|
    ensures forall i :: 0 <= i < |r| ==> r[i] != ',' && r[i] in s
    ensures (forall i :: 0 <= i < |s| ==> s[i] != ',') ==> r == s
    ensures forall c :: c != ',' ==> multiset(r)[c] == multiset(s)[c]
  {
    if |s| == 0 then []
    else
      var rest := StripCommas(s[1..]);
      assert s == [s[0]] + s[1..];
      if s[0] == ',' then rest else [s[0]] + rest
  }

  /** Comma stripping distributes over concatenation, so it deletes commas
      wherever they stand and leaves the other characters in their order. */
  lemma {:induction false} StripCommasAppend(a: string, b: string)
    ensures StripCommas(a + b) == StripCommas(a) + StripCommas(b)
    decreases |a|
  {
    if |a| > 0 {
      assert (a + b)[1..] == a[1..] + b;
      StripCommasAppend(a[1..], b);
    } else {
      assert a + b == b;
    }
  }

  /** Stripping twice is stripping once. */
  lemma StripCommasIdempotent(s: string)
    ensures StripCommas(StripCommas(s)) == StripCommas(s)
  {
  }

  /** `s` with its leading white space removed. */
  function TrimStart(s: string): (r: string)
    ensures |r| <= |s| && r == s[|s| - |r|..]
    ensures forall i :: 0 <= i < |s| - |r| ==> IsJsSpace(s[i])
    ensures |r| > 0 ==> !IsJsSpace(r[0])
  {
    if |s| > 0 && IsJsSpace(s[0]) then TrimStart(s[1..]) else s
  }

  /** How many characters at the front of `s` are decimal digits. */
  function LeadingDigits(s: string): (k: nat)
    ensures k <= |s|
    ensures AllDigits(s[..k])
    ensures k < |s| ==> !IsDigit(s[k])
  {
    if |s| > 0 && IsDigit(s[0]) then
      var k := 1 + LeadingDigits(s[1..]);
      assert s[..k] == [s[0]] + s[1..][..k - 1];
      k
    else 0
  }

  /** `s` with one leading `+` or `-` removed. */
  function DropSign(t: string): string {
    if |t| > 0 && (t[0] == '-' || t[0] == '+') then t[1..] else t
  }

  /** The number at the front of `t`, which starts after the white space:
      an optional sign, then the longest run of decimal digits. */
  function ParseTrimmed(t: string): Option<int> {
    var u := DropSign(t);
    var k := LeadingDigits(u);
    if k == 0 then None
    else if |t| > 0 && t[0] == '-' then Some(-(DigitsValue(u[..k]) as int))
    else Some(DigitsValue(u[..k]))
  }

  /** `parseInt(s, 10)`: optional leading white space, an optional sign, then
      the longest run of decimal digits; `None` stands for `NaN` (no digit
      where the number should start). Trailing characters are ignored. */
  function ParseInt(s: string): (r: Option<int>)
    ensures r.Some? ==> exists i :: 0 <= i < |s| && IsDigit(s[i])
    ensures r.Some? && r.value < 0 ==> exists i :: 0 <= i < |s| && s[i] == '-'
  {
    var t := TrimStart(s);
    var u := DropSign(t);
    // The first digit and the sign both stand somewhere in `s`.
    assert LeadingDigits(u) > 0 ==> u[0] == s[|s| - |u|] && t[0] == s[|s| - |t|];
    ParseTrimmed(t)
  }

  /** The integer a numeric text input holds: commas dropped, then `parseInt`. */
  function InputValue(input: string): (r: Option<int>)
    ensures r.Some? ==> exists i :: 0 <= i < |input| && IsDigit(input[i])
  {
    var s := StripCommas(input);
    ParseInt(s)
  }

  /** Parsing the rendering of a natural number gives it back. */
  lemma ParseIntOfNatToString(n: nat)
    ensures ParseInt(NatToString(n)) == Some(n)
  {
    ParseIntOfNatToStringThen(n, "");
    assert NatToString(n) + "" == NatToString(n);
  }

  /** Characters after the digits are ignored: `parseInt("12px") == 12`. */
  lemma ParseIntOfNatToStringThen(n: nat, rest: string)
    requires |rest| > 0 ==> !IsDigit(rest[0])
    ensures ParseInt(NatToString(n) + rest) == Some(n)
  {
    var s := NatToString(n) + rest;
    var d := NatToString(n);
    assert !IsJsSpace(s[0]);
    assert TrimStart(s) == s;
    assert DropSign(s) == s;
    DigitsPrefix(d, rest);
    assert s[..|d|] == d;
    DigitsValueOfNatToString(n);
  }

  /** The digit run of an all-digit string followed by a non-digit is exactly that string. */
  lemma {:induction false} DigitsPrefix(d: string, rest: string)
    requires AllDigits(d)
    requires |rest| > 0 ==> !IsDigit(rest[0])
    ensures LeadingDigits(d + rest) == |d|
    decreases |d|
  {
    if |d| > 0 {
      assert (d + rest)[1..] == d[1..] + rest;
      DigitsPrefix(d[1..], rest);
    } else {
      assert d + rest == rest;
    }
  }

  /** A minus sign in front negates the parsed value. */
  lemma ParseIntOfNegative(n: nat)
    ensures ParseInt("-" + NatToString(n)) == Some(-(n as int))
  {
    var d := NatToString(n);
    var s := "-" + d;
    assert TrimStart(s) == s;
    assert DropSign(s) == d;
    DigitsPrefix(d, "");
    assert d + "" == d;
    assert d[..|d|] == d;
    DigitsValueOfNatToString(n);
  }

  /** Leading white space does not change the result. */
  lemma ParseIntSkipsSpace(c: char, s: string)
    requires IsJsSpace(c)
    ensures ParseInt([c] + s) == ParseInt(s)
  {
    assert ([c] + s)[1..] == s;
    assert TrimStart([c] + s) == TrimStart(s);
  }

  /** A string with no digit at all parses to `NaN`. */
  lemma ParseIntNoDigits(s: string)
    requires forall i :: 0 <= i < |s| ==> !IsDigit(s[i])
    ensures ParseInt(s) == None
  {
  }
}
