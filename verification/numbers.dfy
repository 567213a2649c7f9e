/** The numeric half of CalcDuv's input pipeline: a stand-in for the
    `DecimalFormat.parse` call (dot as decimal separator, no grouping) and the
    rescaling of values greater than one.  Java doubles are modelled as exact
    reals. */
module Numbers {

  import opened Wrappers

  predicate IsDigit(c: char) {
    '0' <= c <= '9'
  }

  function DigitValue(c: char): nat
    requires IsDigit(c)
  {
    c as int - '0' as int
  }

  predicate AllDigits(s: string) {
    forall k :: 0 <= k < |s| ==> IsDigit(s[k])
  }

  /** Length of the run of digits at the start of `s`. */
  function LeadingDigits(s: string): (n: nat)
    ensures n <= |s|
    ensures AllDigits(s[..n])
    ensures n < |s| ==> !IsDigit(s[n])
  {
    if |s| > 0 && IsDigit(s[0]) then
      var n := 1 + LeadingDigits(s[1..]);
      assert forall k :: 1 <= k < n ==> s[..n][k] == s[1..][..n - 1][k - 1];
      n
    else 0
  }

  /** The natural number a string of decimal digits denotes, most significant
      digit first. */
  function DigitsValue(ds: string): nat
    requires AllDigits(ds)
  {
    if ds == [] then 0
    else DigitsValue(ds[..|ds| - 1]) * 10 + DigitValue(ds[|ds| - 1])
  }

  function Pow10(n: nat): (p: nat)
    ensures p >= 1
  {
    if n == 0 then 1 else 10 * Pow10(n - 1)
  }

  /** The sign-stripped part of a token. */
  function Unsigned(s: string): string {
    if |s| > 0 && s[0] == '-' then s[1..] else s
  }

  /** The token starts with a number: after an optional minus sign, a digit,
      or a dot followed by a digit. */
  predicate StartsWithNumber(s: string) {
    var b := Unsigned(s);
    (|b| > 0 && IsDigit(b[0])) || (|b| > 1 && b[0] == '.' && IsDigit(b[1]))
  }

  /** A prefix parser in the manner of `DecimalFormat.parse(String)`: it reads
      the longest prefix of the form `-? digit* ( '.' digit* )?` that holds at
      least one digit, ignores the rest of the token, and rejects the token
      when there is no such prefix. */
  function ParseDecimal(s: string): (r: Option<real>)
    ensures r.Some? <==> StartsWithNumber(s)
    ensures r.Some? && (|s| == 0 || s[0] != '-') ==> r.value >= 0.0
    ensures r.Some? && |s| > 0 && s[0] == '-' ==> r.value <= 0.0
  {
    var b := Unsigned(s);
    var i := LeadingDigits(b);
    var frac := if i < |b| && b[i] == '.' then b[i + 1..][..LeadingDigits(b[i + 1..])] else [];
    if i == 0 && frac == [] then None
    else
      var magnitude := DigitsValue(b[..i]) as real + DigitsValue(frac) as real / Pow10(|frac|) as real;
      Some(if |s| > 0 && s[0] == '-' then -magnitude else magnitude)
  }

  /** The digits of a natural number, most significant first, no leading
      zeros. */
  function ShowNat(n: nat): (s: string)
    ensures |s| > 0 && AllDigits(s)
  {
    if n < 10 then ['0' + (n as char)]
    else ShowNat(n / 10) + ['0' + ((n % 10) as char)]
  }

  lemma {:induction false} DigitsValueShowNat(n: nat)
    ensures DigitsValue(ShowNat(n)) == n
  {
    if n >= 10 {
      var s := ShowNat(n);
      assert s[..|s| - 1] == ShowNat(n / 10);
      DigitsValueShowNat(n / 10);
    }
  }

  /** Round trip: the parser reads back the decimal rendering of any natural
      number as that number. */
  lemma ParseShowNat(n: nat)
    ensures ParseDecimal(ShowNat(n)) == Some(n as real)
  {
    var s := ShowNat(n);
    assert Unsigned(s) == s;
    assert LeadingDigits(s) == |s|;
    assert s[..|s|] == s;
    DigitsValueShowNat(n);
  }

  /** Reading a digit string that ends the token, or is followed by a
      non-digit, takes all of it. */
  lemma {:induction false} LeadingDigitsStop(d: string, rest: string)
    requires AllDigits(d)
    requires rest == [] || !IsDigit(rest[0])
    ensures LeadingDigits(d + rest) == |d|
  {
    if d == [] {
      assert d + rest == rest;
    } else {
      assert (d + rest)[1..] == d[1..] + rest;
      LeadingDigitsStop(d[1..], rest);
    }
  }

  /** The parser reads a token `i.f` (integer digits, a dot, at least one
      fraction digit) as i + f / 10^|f|. */
  lemma {:induction false} ParseFraction(i: string, f: string)
    requires AllDigits(i) && AllDigits(f) && |f| > 0
    ensures ParseDecimal(i + ['.'] + f) ==
            Some(DigitsValue(i) as real + DigitsValue(f) as real / Pow10(|f|) as real)
  {
    var s := i + ['.'] + f;
    assert Unsigned(s) == s;
    LeadingDigitsStop(i, ['.'] + f);
    assert i + (['.'] + f) == s;
    assert s[|i| + 1..] == f;
    LeadingDigitsStop(f, []);
    assert f + [] == f;
    assert f[..|f|] == f;
    assert s[..|i|] == i;
  }

  /** The normalisation `value > 1 ? value / 10000 : value`: values above one
      are read as coordinates scaled by 10^4; one itself, and every value below
      it including all negative values, pass through unchanged. */
  function Scale(v: real): (r: real)
    ensures v > 1.0 ==> r * 10000.0 == v && r < v
    ensures v <= 1.0 ==> r == v
    ensures r <= v
  {
    if v > 1.0 then v / 10000.0 else v
  }

}
