/**
 * Two JavaScript text operations the validators rely on: the e-mail pattern
 * `^[^\s@]+@[^\s@]+\.[^\s@]+$` that the students service and the frontend
 * rules share, and `parseInt` with no radix.
 */
module JsText {
  import opened Common

  // ---------------------------------------------------------------------------
  // The e-mail pattern
  // ---------------------------------------------------------------------------

  /** `[^\s@]+`: a non-empty run of characters that are neither white space nor `@`. */
  predicate EmailPart(p: string)
  {
    |p| > 0 && forall i :: 0 <= i < |p| ==> !IsJsSpace(p[i]) && p[i] != '@'
  }

  /** The pattern read as a grammar: local part, `@`, a domain made of two parts joined by a dot. */
  ghost predicate EmailPattern(s: string)
  {
    exists a, b, c :: EmailPart(a) && EmailPart(b) && EmailPart(c) && s == a + "@" + b + "." + c
  }

  /**
   * The test the pattern performs: an `@` after a non-empty local part, no
   * white space and no second `@`, and a dot in the domain that is neither
   * its first nor its last character.
   */
  predicate IsEmail(s: string)
  {
    exists k | 0 < k < |s| ::
      s[k] == '@' && EmailPart(s[..k]) && EmailPart(s[k + 1..]) &&
      exists j | k + 1 < j < |s| - 1 :: s[j] == '.'
  }

  lemma EmailPartSlice(p: string, i: nat, j: nat)
    requires EmailPart(p) && i < j <= |p|
    ensures EmailPart(p[i..j])
  {
    assert forall t :: 0 <= t < j - i ==> p[i..j][t] == p[i + t];
  }

  lemma PatternOfTest(s: string, k: nat, j: nat)
    requires 0 < k && k + 1 < j < |s| - 1
    requires s[k] == '@' && EmailPart(s[..k]) && EmailPart(s[k + 1..]) && s[j] == '.'
    ensures EmailPattern(s)
  {
    var d := s[k + 1..];
    var a, b, c := s[..k], d[..j - k - 1], d[j - k..];
    EmailPartSlice(d, 0, j - k - 1);
    EmailPartSlice(d, j - k, |d|);
    assert d[j - k - 1] == '.';
    assert d == b + "." + c;
    assert s == a + "@" + d;
  }

  lemma TestOfPattern(a: string, b: string, c: string)
    requires EmailPart(a) && EmailPart(b) && EmailPart(c)
    ensures IsEmail(a + "@" + b + "." + c)
  {
    var s := a + "@" + b + "." + c;
    var k, j := |a|, |a| + 1 + |b|;
    assert s[..k] == a;
    var d := s[k + 1..];
    assert d == b + "." + c;
    assert forall t :: 0 <= t < |d| ==> d[t] == (if t < |b| then b[t] else if t == |b| then '.' else c[t - |b| - 1]);
    assert EmailPart(d);
    assert s[j] == '.';
  }

  /** The test and the grammar accept the same strings. */
  lemma EmailIff(s: string)
    ensures IsEmail(s) <==> EmailPattern(s)
  {
    if IsEmail(s) {
      var k :| 0 < k < |s| && s[k] == '@' && EmailPart(s[..k]) && EmailPart(s[k + 1..]) &&
        exists j | k + 1 < j < |s| - 1 :: s[j] == '.';
      var j :| k + 1 < j < |s| - 1 && s[j] == '.';
      PatternOfTest(s, k, j);
    }
    if EmailPattern(s) {
      var a, b, c :| EmailPart(a) && EmailPart(b) && EmailPart(c) && s == a + "@" + b + "." + c;
      TestOfPattern(a, b, c);
    }
  }

  // ---------------------------------------------------------------------------
  // parseInt
  // ---------------------------------------------------------------------------

  /** The value of a digit in base 10 or 16 (`parseInt` accepts both cases of the hexadecimal letters). */
  function DigitValue(c: char, radix: nat): (d: Option<nat>)
    requires radix == 10 || radix == 16
    ensures d.Some? ==> d.value < radix
  {
    if '0' <= c <= '9' then Some(c as int - '0' as int)
    else if radix == 16 && 'a' <= c <= 'f' then Some(c as int - 'a' as int + 10)
    else if radix == 16 && 'A' <= c <= 'F' then Some(c as int - 'A' as int + 10)
    else None
  }

  predicate AllDigits(s: string, radix: nat)
    requires radix == 10 || radix == 16
  {
    forall i :: 0 <= i < |s| ==> DigitValue(s[i], radix).Some?
  }

  /** The length of the longest prefix made of digits. */
  function DigitRun(s: string, radix: nat): (n: nat)
    requires radix == 10 || radix == 16
    ensures n <= |s| && AllDigits(s[..n], radix)
    ensures n < |s| ==> DigitValue(s[n], radix).None?
  {
    if s == [] || DigitValue(s[0], radix).None? then 0
    else
      var n := 1 + DigitRun(s[1..], radix);
      assert forall i :: 1 <= i < n ==> s[..n][i] == s[1..][..n - 1][i - 1];
      n
  }

  /** The number the digits write, most significant first. */
  function ValueOf(s: string, radix: nat): nat
    requires radix == 10 || radix == 16
    requires AllDigits(s, radix)
  {
    if s == [] then 0
    else
      assert AllDigits(s[..|s| - 1], radix);
      ValueOf(s[..|s| - 1], radix) * radix + DigitValue(s[|s| - 1], radix).value
  }

  /**
   * `parseInt(text)`: leading white space skipped, an optional sign, an
   * optional `0x`/`0X` that switches to base 16, then the longest run of
   * digits; `NaN` (here `None`) when that run is empty. What follows the
   * digits is ignored.
   */
  function ParseInt(text: string): (r: Option<int>)
  {
    var s := TrimStart(text);
    var unsigned := if s != [] && (s[0] == '-' || s[0] == '+') then s[1..] else s;
    match ParseUnsigned(unsigned)
    case None => None
    case Some(v) =>
      var i: int := v;
      Some(if s != [] && s[0] == '-' then -i else i)
  }

  /** The digits after the sign: a hexadecimal prefix, then the longest run of digits. */
  function ParseUnsigned(u: string): Option<nat>
  {
    var hex := |u| >= 2 && u[0] == '0' && (u[1] == 'x' || u[1] == 'X');
    var radix := if hex then 16 else 10;
    var body := if hex then u[2..] else u;
    var n := DigitRun(body, radix);
    if n == 0 then None else Some(ValueOf(body[..n], radix))
  }

  /** The decimal text of a natural number, without leading zeros. */
  function NatText(n: nat): (s: string)
    ensures |s| > 0 && AllDigits(s, 10)
    ensures n >= 10 ==> |s| >= 2
  {
    if n < 10 then ['0' + n as char]
    else NatText(n / 10) + ['0' + (n % 10) as char]
  }

  /** `String(n)` for an integer. */
  function IntText(n: int): string
  {
    if n < 0 then "-" + NatText(-n) else NatText(n)
  }

  lemma {:induction false} ValueOfNatText(n: nat)
    ensures ValueOf(NatText(n), 10) == n
  {
    if n >= 10 {
      var s := NatText(n);
      assert s[..|s| - 1] == NatText(n / 10);
      ValueOfNatText(n / 10);
    }
  }

  lemma {:induction false} DigitRunAll(s: string, t: string, radix: nat)
    requires radix == 10 || radix == 16
    requires AllDigits(s, radix)
    requires t == [] || DigitValue(t[0], radix).None?
    ensures DigitRun(s + t, radix) == |s|
  {
    if s != [] {
      assert (s + t)[1..] == s[1..] + t;
      DigitRunAll(s[1..], t, radix);
    }
  }

  /** A text that ends a number: empty, or starting with neither a digit nor the `x` of a hexadecimal prefix. */
  predicate Stops(tail: string)
  {
    tail == [] || (DigitValue(tail[0], 10).None? && tail[0] != 'x' && tail[0] != 'X')
  }

  lemma {:induction false} ParseUnsignedOfNatText(m: nat, tail: string)
    requires Stops(tail)
    ensures ParseUnsigned(NatText(m) + tail) == Some(m)
  {
    var digits := NatText(m);
    var u := digits + tail;
    assert !(|u| >= 2 && u[0] == '0' && (u[1] == 'x' || u[1] == 'X')) by {
      if |digits| >= 2 {
        assert u[1] == digits[1];
        assert DigitValue(digits[1], 10).Some?;
      } else if |u| >= 2 {
        assert u[1] == tail[0];
      }
    }
    DigitRunAll(digits, tail, 10);
    assert u[..|digits|] == digits;
    ValueOfNatText(m);
  }

  /**
   * `parseInt` reads back the text of every integer, and ignores whatever
   * follows it when that does not continue the number (`parseInt("7abc")`
   * is 7).
   */
  lemma {:induction false} ParseIntOfIntText(n: int, tail: string)
    requires Stops(tail)
    ensures ParseInt(IntText(n) + tail) == Some(n)
  {
    if n < 0 {
      NegativeText(n, tail);
    } else {
      NonNegativeText(n, tail);
    }
  }

  lemma NegativeText(n: int, tail: string)
    requires n < 0 && Stops(tail)
    ensures ParseInt(IntText(n) + tail) == Some(n)
  {
    var m: nat := -n;
    var u := NatText(m) + tail;
    assert IntText(n) + tail == "-" + u;
    assert ParseInt("-" + u) == Some(0 - m) by {
      ParseUnsignedOfNatText(m, tail);
      SignedText(u, m);
    }
  }

  lemma NonNegativeText(m: nat, tail: string)
    requires Stops(tail)
    ensures ParseInt(NatText(m) + tail) == Some(m)
  {
    var u := NatText(m) + tail;
    ParseUnsignedOfNatText(m, tail);
    assert u[0] == NatText(m)[0];
    assert DigitValue(NatText(m)[0], 10).Some?;
    UnsignedText(u, m);
  }

  lemma SignedText(u: string, x: nat)
    requires ParseUnsigned(u) == Some(x)
    ensures ParseInt("-" + u) == Some(0 - x)
  {
    var text := "-" + u;
    KeptByTrimStart(text);
    assert text[1..] == u;
  }

  lemma UnsignedText(u: string, x: nat)
    requires u != [] && '0' <= u[0] <= '9' && ParseUnsigned(u) == Some(x)
    ensures ParseInt(u) == Some(x)
  {
    KeptByTrimStart(u);
  }

  /** A text starting with a sign or a digit has no leading white space to skip. */
  lemma KeptByTrimStart(s: string)
    requires s != [] && (s[0] == '-' || '0' <= s[0] <= '9')
    ensures TrimStart(s) == s
  {
    assert !IsJsSpace(s[0]);
  }

  /** A text whose first visible character is neither a sign nor a digit is `NaN`. */
  lemma ParseIntNaN(text: string)
    requires var s := TrimStart(text);
      s == [] || (s[0] != '-' && s[0] != '+' && DigitValue(s[0], 10).None?)
    ensures ParseInt(text) == None
  {
  }
}
