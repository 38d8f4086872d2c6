/** Decimal numbers as `fmt` prints them, and as its formatted scanning reads them back. */
module Scanning {
  import opened Options

  function DigitOf(d: nat): char
    requires d < 10
  {
    '0' + d as char
  }

  predicate IsDigit(c: char) {
    '0' <= c <= '9'
  }

  predicate AllDigits(s: string) {
    forall i :: 0 <= i < |s| ==> IsDigit(s[i])
  }

  /** What a string of digits is worth. */
  function ValueOfDigits(s: string): nat
    requires AllDigits(s)
  {
    if s == [] then 0
    else ValueOfDigits(s[..|s| - 1]) * 10 + (s[|s| - 1] - '0') as nat
  }

  /** A number printed by `%d`. */
  function Dec(n: nat): string {
    if n < 10 then [DigitOf(n)] else Dec(n / 10) + [DigitOf(n % 10)]
  }

  lemma {:induction false} DecIsWorth(n: nat)
    ensures Dec(n) != [] && AllDigits(Dec(n)) && ValueOfDigits(Dec(n)) == n
  {
    if n >= 10 {
      DecIsWorth(n / 10);
      assert Dec(n)[..|Dec(n)| - 1] == Dec(n / 10);
    }
  }

  /** A printed number has no leading zero. */
  lemma {:induction false} DecIsShort(n: nat)
    ensures AllDigits(Dec(n)) && |Dec(n)| >= 1
    ensures Dec(n)[0] == '0' ==> n == 0 && |Dec(n)| == 1
  {
    if n >= 10 {
      DecIsShort(n / 10);
    }
  }

  /** White space a `%d` skips. A line feed is white space too, but ends the scan with an error. */
  predicate IsBlank(c: char) {
    var n := c as int;
    n == 0x9 || 0xb <= n <= 0xd || n == 0x20 || n == 0x85 || n == 0xa0 || n == 0x1680 ||
    0x2000 <= n <= 0x200a || n == 0x2028 || n == 0x2029 || n == 0x202f || n == 0x205f || n == 0x3000
  }

  function SkipSpace(s: string): Option<string> {
    if s == [] then Some(s)
    else if s[0] == '\n' then None
    else if IsBlank(s[0]) then SkipSpace(s[1..])
    else Some(s)
  }

  /** How many digits come first. */
  function CountDigits(s: string): (n: nat)
    ensures n <= |s| && AllDigits(s[..n])
    ensures n < |s| ==> !IsDigit(s[n])
  {
    if s == [] || !IsDigit(s[0]) then 0 else 1 + CountDigits(s[1..])
  }

  function ScanDigits(s: string): Option<(nat, string)> {
    var n := CountDigits(s);
    if n == 0 then None else Some((ValueOfDigits(s[..n]), s[n..]))
  }

  /** `%d` into an unsigned variable that holds values below `bound`. */
  function ScanUint(s: string, bound: nat): (r: Option<(nat, string)>)
    ensures r.Some? ==> r.value.0 < bound
  {
    match SkipSpace(s)
    case None => None
    case Some(t) =>
      match ScanDigits(t)
      case Some((n, rest)) => if n < bound then Some((n, rest)) else None
      case None => None
  }

  predicate IsSign(c: char) {
    c == '+' || c == '-'
  }

  function WithSign(sign: char, n: nat): int {
    if sign == '-' then 0 - n else n
  }

  predicate FitsInt64(v: int) {
    -0x8000_0000_0000_0000 <= v < 0x8000_0000_0000_0000
  }

  function ScanSigned(t: string): Option<(int, string)> {
    var sign := if t != [] && IsSign(t[0]) then t[0] else '+';
    match ScanDigits(if t != [] && IsSign(t[0]) then t[1..] else t)
    case None => None
    case Some((n, rest)) => if FitsInt64(WithSign(sign, n)) then Some((WithSign(sign, n), rest)) else None
  }

  /** `%d` into an `int` of 64 bits. */
  function ScanInt(s: string): Option<(int, string)> {
    match SkipSpace(s)
    case None => None
    case Some(t) => ScanSigned(t)
  }

  /** Nothing that comes next could belong to a number. */
  predicate Stops(rest: string) {
    rest == [] || !IsDigit(rest[0])
  }

  /** `text` is blanks and then digits worth `n`. */
  predicate Numeral(text: string, n: nat) {
    text != [] && if IsBlank(text[0]) then Numeral(text[1..], n) else AllDigits(text) && ValueOfDigits(text) == n
  }

  predicate SignedDigits(text: string, v: int) {
    text != [] &&
    if IsSign(text[0]) then
      |text| > 1 && AllDigits(text[1..]) && v == WithSign(text[0], ValueOfDigits(text[1..]))
    else AllDigits(text) && v == ValueOfDigits(text)
  }

  /** The same with a sign allowed before the digits. */
  predicate SignedNumeral(text: string, v: int) {
    text != [] && if IsBlank(text[0]) then SignedNumeral(text[1..], v) else SignedDigits(text, v)
  }

  lemma {:induction false} CountDigitsIff(text: string, rest: string)
    requires Stops(rest)
    ensures AllDigits(text) ==> CountDigits(text + rest) == |text|
    ensures !AllDigits(text) ==> CountDigits(text + rest) < |text|
  {
    if text == [] {
      assert text + rest == rest;
    } else if IsDigit(text[0]) {
      CountDigitsIff(text[1..], rest);
      assert (text + rest)[1..] == text[1..] + rest;
      assert AllDigits(text) <==> AllDigits(text[1..]) by {
        assert text == [text[0]] + text[1..];
      }
    }
  }

  /** Digits are read up to `rest` exactly when everything before it is digits. */
  lemma {:induction false} ScanDigitsIff(text: string, rest: string, n: nat)
    requires Stops(rest)
    ensures ScanDigits(text + rest) == Some((n, rest)) <==>
            text != [] && AllDigits(text) && ValueOfDigits(text) == n
  {
    var s := text + rest;
    var k := CountDigits(s);
    CountDigitsIff(text, rest);
    if AllDigits(text) {
      assert s[..k] == text && s[k..] == rest;
    } else {
      assert |s[k..]| > |rest|;
    }
  }

  lemma {:induction false} ScanShortens(s: string)
    ensures ScanDigits(s).Some? ==> |ScanDigits(s).value.1| < |s|
    ensures SkipSpace(s).Some? ==> |SkipSpace(s).value| <= |s|
  {
    if s != [] {
      ScanShortens(s[1..]);
    }
  }

  lemma {:induction false} ScanUintIff(text: string, rest: string, bound: nat, n: nat)
    requires Stops(rest)
    ensures ScanUint(text + rest, bound) == Some((n, rest)) <==> Numeral(text, n) && n < bound
  {
    var s := text + rest;
    if text == [] {
      assert s == rest;
      ScanShortens(s);
      if SkipSpace(s).Some? {
        ScanShortens(SkipSpace(s).value);
      }
    } else if IsBlank(text[0]) {
      assert s[1..] == text[1..] + rest;
      ScanUintIff(text[1..], rest, bound, n);
    } else {
      ScanDigitsIff(text, rest, n);
    }
  }

  lemma ScanSignedIff(text: string, rest: string, v: int)
    requires text != [] && Stops(rest)
    ensures ScanSigned(text + rest) == Some((v, rest)) <==> SignedDigits(text, v) && FitsInt64(v)
  {
    var s := text + rest;
    var n := if v < 0 then 0 - v else v;
    if IsSign(text[0]) {
      assert s[1..] == text[1..] + rest;
      ScanDigitsIff(text[1..], rest, n);
    } else {
      ScanDigitsIff(text, rest, n);
    }
  }

  lemma ScanSignedShortens(s: string)
    ensures ScanSigned(s).Some? ==> |ScanSigned(s).value.1| < |s|
  {
    ScanShortens(s);
    if s != [] {
      ScanShortens(s[1..]);
    }
  }

  lemma {:induction false} ScanIntIff(text: string, rest: string, v: int)
    requires Stops(rest)
    ensures ScanInt(text + rest) == Some((v, rest)) <==> SignedNumeral(text, v) && FitsInt64(v)
  {
    var s := text + rest;
    if text == [] {
      assert s == rest;
      ScanShortens(s);
      if SkipSpace(s).Some? {
        ScanSignedShortens(SkipSpace(s).value);
      }
    } else if IsBlank(text[0]) {
      assert s[1..] == text[1..] + rest;
      ScanIntIff(text[1..], rest, v);
    } else {
      ScanSignedIff(text, rest, v);
    }
  }

  /** Two suffixes taken one after the other are one suffix. */
  predicate Suffix(r: string, s: string) {
    |r| <= |s| && s[|s| - |r|..] == r
  }

  lemma SuffixTrans(a: string, b: string, c: string)
    requires Suffix(a, b) && Suffix(b, c)
    ensures Suffix(a, c)
  {
    assert c[|c| - |a|..] == c[|c| - |b|..][|b| - |a|..];
  }

  lemma {:induction false} SkipSpaceIsSuffix(s: string)
    ensures var r := SkipSpace(s); r.Some? ==> Suffix(r.value, s)
  {
    if s != [] && IsBlank(s[0]) {
      SkipSpaceIsSuffix(s[1..]);
      if SkipSpace(s[1..]).Some? {
        SuffixTrans(SkipSpace(s[1..]).value, s[1..], s);
      }
    }
  }

  /** A scan leaves a suffix of its input, one that does not go on with a digit. */
  lemma ScanUintSplits(s: string, bound: nat)
    ensures var r := ScanUint(s, bound); r.Some? ==> Suffix(r.value.1, s) && Stops(r.value.1)
  {
    SkipSpaceIsSuffix(s);
    if ScanUint(s, bound).Some? {
      var t := SkipSpace(s).value;
      SuffixTrans(t[CountDigits(t)..], t, s);
    }
  }

  lemma ScanIntSplits(s: string)
    ensures var r := ScanInt(s); r.Some? ==> Suffix(r.value.1, s) && Stops(r.value.1)
  {
    SkipSpaceIsSuffix(s);
    if ScanInt(s).Some? {
      var t := SkipSpace(s).value;
      var u := if t != [] && IsSign(t[0]) then t[1..] else t;
      SuffixTrans(u, t, s);
      SuffixTrans(u[CountDigits(u)..], u, s);
    }
  }

  /** A printed number is a numeral worth that number, with or without a sign allowed. */
  lemma {:induction false} DecIsNumeral(n: nat)
    ensures Numeral(Dec(n), n) && SignedNumeral(Dec(n), n)
  {
    DecIsWorth(n);
    assert IsDigit(Dec(n)[0]);
  }
}
