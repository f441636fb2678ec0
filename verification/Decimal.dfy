/** Decimal numbers as Go prints and parses them (fmt's %d and strconv.Atoi). */
module Decimal {
  import opened Wrappers

  predicate IsDigit(c: char) {
    '0' <= c <= '9'
  }

  function DigitChar(d: nat): (c: char)
    requires d < 10
    ensures IsDigit(c)
  {
    ('0' as int + d) as char
  }

  function DigitValue(c: char): (d: nat)
    requires IsDigit(c)
    ensures d < 10
  {
    c as int - '0' as int
  }

  function PrintNat(n: nat): (s: string)
    ensures s != "" && forall c <- s :: IsDigit(c)
  {
    if n < 10 then [DigitChar(n)] else PrintNat(n / 10) + [DigitChar(n % 10)]
  }

  function Print(n: int): string {
    if n < 0 then "-" + PrintNat(-n) else PrintNat(n)
  }

  function ParseNat(s: string): (n: nat)
    requires forall c <- s :: IsDigit(c)
  {
    if s == "" then 0 else 10 * ParseNat(s[..|s| - 1]) + DigitValue(s[|s| - 1])
  }

  predicate AllDigits(s: string) {
    s != "" && forall c <- s :: IsDigit(c)
  }

  /** What fits a 64-bit integer. */
  predicate InRange(n: int) {
    -0x8000_0000_0000_0000 <= n < 0x8000_0000_0000_0000
  }

  function Ranged(n: int): Option<int> {
    if InRange(n) then Some(n) else None
  }

  /** An optional sign and at least one digit, and a value that fits. */
  function Parse(s: string): (r: Option<int>)
    ensures r.Some? ==> InRange(r.value)
  {
    if AllDigits(s) then Ranged(ParseNat(s))
    else if s != "" && s[0] == '-' && AllDigits(s[1..]) then Ranged(0 - ParseNat(s[1..]))
    else if s != "" && s[0] == '+' && AllDigits(s[1..]) then Ranged(ParseNat(s[1..]))
    else None
  }

  /** Only an optional sign and digits are a number. A plus changes nothing, and a minus turns the number round. */
  lemma SignsAreRead(s: string)
    ensures Parse(s).Some? ==> AllDigits(s) || (s != "" && (s[0] == '+' || s[0] == '-') && AllDigits(s[1..]))
    ensures AllDigits(s) ==> Parse("+" + s) == Parse(s)
    ensures AllDigits(s) && Parse(s).Some? ==> Parse("-" + s) == Some(-Parse(s).value)
  {
    assert ("+" + s)[1..] == s && ("-" + s)[1..] == s && !IsDigit('+') && !IsDigit('-');
    if AllDigits(s) {
      assert ("+" + s)[0] in "+" + s && ("-" + s)[0] in "-" + s;
      assert 0 <= ParseNat(s);
    }
  }

  lemma {:induction false} ParsePrintNat(n: nat)
    ensures ParseNat(PrintNat(n)) == n
  {
    if n >= 10 {
      ParsePrintNat(n / 10);
      var s := PrintNat(n);
      assert s[..|s| - 1] == PrintNat(n / 10);
    } else {
      assert [DigitChar(n)][..0] == "";
    }
  }

  /** Every printed number parses back to itself. */
  lemma ParsePrint(n: int)
    requires InRange(n)
    ensures Parse(Print(n)) == Some(n)
  {
    if n < 0 {
      ParsePrintNat(-n);
      assert Print(n)[1..] == PrintNat(-n);
      assert Print(n)[0] == '-' && !IsDigit('-');
      assert !AllDigits(Print(n)) by {
        assert '-' in Print(n);
      }
    } else {
      ParsePrintNat(n);
    }
  }

  // ---------- Numbers between hyphens ----------

  lemma PrintNatIsInjective(m: nat, n: nat)
    requires PrintNat(m) == PrintNat(n)
    ensures m == n
  {
    ParsePrintNat(m);
    ParsePrintNat(n);
  }

  lemma HyphenBefore(a: string, x: string, b: string, y: string)
    requires a + "-" + x == b + "-" + y && |a| < |b|
    ensures '-' in b
  {
    var s := a + "-" + x;
    assert s[|a|] == '-' && s[|a|] == b[|a|];
  }

  lemma HyphenBehind(x: string, a: string, y: string, b: string)
    requires x + "-" + a == y + "-" + b && |x| < |y|
    ensures '-' in a
  {
    var s := x + "-" + a;
    assert s[|y|] == '-' && s[|y|] == a[|y| - |x| - 1];
  }

  /** A text is determined up to its first hyphen, and behind its last one. */
  lemma SplitAtFirst(a: string, x: string, b: string, y: string)
    requires '-' !in a && '-' !in b && a + "-" + x == b + "-" + y
    ensures a == b && x == y
  {
    var s := a + "-" + x;
    if |a| < |b| {
      HyphenBefore(a, x, b, y);
    } else if |b| < |a| {
      HyphenBefore(b, y, a, x);
    } else {
      assert a == s[..|a|] && b == s[..|b|];
      assert x == s[|a| + 1..] && y == s[|b| + 1..];
    }
  }

  lemma SplitAtLast(x: string, a: string, y: string, b: string)
    requires '-' !in a && '-' !in b && x + "-" + a == y + "-" + b
    ensures a == b && x == y
  {
    var s := x + "-" + a;
    if |x| < |y| {
      HyphenBehind(x, a, y, b);
    } else if |y| < |x| {
      HyphenBehind(y, b, x, a);
    } else {
      assert x == s[..|x|] && y == s[..|y|];
      assert a == s[|x| + 1..] && b == s[|y| + 1..];
    }
  }

  function Abs(n: int): nat {
    if n < 0 then -n else n
  }

  function Sign(n: int): string {
    if n < 0 then "-" else ""
  }

  lemma PrintIsSigned(n: int)
    ensures Print(n) == Sign(n) + PrintNat(Abs(n)) && '-' !in PrintNat(Abs(n))
    ensures Print(n)[0] == '-' <==> n < 0
  {
    assert !IsDigit('-');
    assert PrintNat(Abs(n))[0] in PrintNat(Abs(n));
  }

  /** A number printed before a hyphen is determined by the text, and so is the rest. */
  lemma FieldIsDetermined(m: int, x: string, m': int, x': string)
    requires Print(m) + "-" + x == Print(m') + "-" + x'
    ensures m == m' && x == x'
  {
    hide Print, PrintNat;
    PrintIsSigned(m);
    PrintIsSigned(m');
    var s := Print(m) + "-" + x;
    assert s[0] == Print(m)[0] == Print(m')[0];
    var sign := Sign(m);
    assert s[|sign|..] == PrintNat(Abs(m)) + "-" + x == PrintNat(Abs(m')) + "-" + x';
    SplitAtFirst(PrintNat(Abs(m)), x, PrintNat(Abs(m')), x');
    PrintNatIsInjective(Abs(m), Abs(m'));
  }
}
