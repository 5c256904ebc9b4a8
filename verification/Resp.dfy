/**
 Commands as text: the content of a log item is the command's arguments, each with its
 length in decimal. Writing and reading it, and decimal numbers as arguments.
 */
module Resp {
  import opened Options

  /* ---------- decimal numbers ---------- */

  predicate IsDigit(c: char) { '0' <= c <= '9' }

  ghost predicate AllDigits(s: string) { forall i | 0 <= i < |s| :: IsDigit(s[i]) }

  function Digit(n: nat): (c: char)
    requires n < 10
    ensures IsDigit(c)
  {
    '0' + n as char
  }

  function DigitsOf(n: nat): (s: string)
    ensures s != [] && AllDigits(s)
    ensures n > 0 ==> s[0] != '0'
    ensures n == 0 ==> s == "0"
  {
    if n < 10 then [Digit(n)] else DigitsOf(n / 10) + [Digit(n % 10)]
  }

  function DigitValue(s: string): nat
    requires AllDigits(s)
  {
    if s == [] then 0 else 10 * DigitValue(s[..|s| - 1]) + (s[|s| - 1] as int - '0' as int)
  }

  lemma {:induction false} ValueOfDigits(n: nat)
    ensures DigitValue(DigitsOf(n)) == n
  {
    if n >= 10 {
      ValueOfDigits(n / 10);
      assert DigitsOf(n)[..|DigitsOf(n)| - 1] == DigitsOf(n / 10);
    }
  }

  const INT64_MIN: int := -0x8000_0000_0000_0000
  const INT64_MAX: int := 0x7FFF_FFFF_FFFF_FFFF

  function IntText(n: int): string {
    if n < 0 then "-" + DigitsOf(-n) else DigitsOf(n)
  }

  predicate Digits(s: string) {
    if s == [] then true else IsDigit(s[0]) && Digits(s[1..])
  }

  lemma {:induction false} DigitsAll(s: string)
    ensures Digits(s) <==> AllDigits(s)
  {
    if s != [] {
      DigitsAll(s[1..]);
    }
  }

  /** A 64-bit number in its one canonical spelling; anything else is refused. */
  function ParseInt(s: string): Option<int> {
    var minus := s != [] && s[0] == '-';
    var d := if minus then s[1..] else s;
    DigitsAll(d);
    if d == [] || !Digits(d) then None
    else if d[0] == '0' && (minus || |d| > 1) then None
    else
      var v: int := DigitValue(d);
      var n := if minus then -v else v;
      if INT64_MIN <= n <= INT64_MAX then Some(n) else None
  }

  lemma ParseIntText(n: int)
    requires INT64_MIN <= n <= INT64_MAX
    ensures ParseInt(IntText(n)) == Some(n)
  {
    var m: nat := if n < 0 then -n else n;
    var d := DigitsOf(m);
    ValueOfDigits(m);
    DigitsAll(d);
    assert ("-" + d)[1..] == d;
    assert m == 0 || d[0] != '0';
  }

  /* ---------- writing ---------- */

  const NEW_LINE: string := "\r\n"

  function Line(prefix: char, digits: string): string { [prefix] + digits + NEW_LINE }

  function Arg(digits: string, v: string): string { Line('$', digits) + v + NEW_LINE }

  function Args(argv: seq<string>): string {
    if argv == [] then "" else Arg(DigitsOf(|argv[0]|), argv[0]) + Args(argv[1..])
  }

  /** The content for a command given by its arguments. */
  function Content(argv: seq<string>): string { Line('*', DigitsOf(|argv|)) + Args(argv) }

  /** One argument as it is written. */
  lemma OneArgument()
    ensures Content(["get"]) == "*1\r\n$3\r\nget\r\n"
  {
    assert ["get"][1..] == [] && DigitsOf(3) == "3" && DigitsOf(1) == "1";
  }

  /** Arguments are written one after the other. */
  lemma {:induction false} ArgsConcat(a: seq<string>, b: seq<string>)
    ensures Args(a + b) == Args(a) + Args(b)
    decreases |a|
  {
    if a == [] {
      assert a + b == b;
    } else {
      assert (a + b)[0] == a[0] && (a + b)[1..] == a[1..] + b;
      ArgsConcat(a[1..], b);
    }
  }

  method AppendAll(argv: seq<string>) returns (content: string)
    ensures content == Content(argv)
  {
    content := Line('*', DigitsOf(|argv|));
    var i := 0;
    while i < |argv|
      invariant 0 <= i <= |argv| && content + Args(argv[i..]) == Content(argv)
    {
      assert argv[i..][0] == argv[i] && argv[i..][1..] == argv[i + 1..];
      ghost var arg := Arg(DigitsOf(|argv[i]|), argv[i]);
      assert content + (arg + Args(argv[i + 1..])) == content + arg + Args(argv[i + 1..]);
      assert content + arg == content + Line('$', DigitsOf(|argv[i]|)) + argv[i] + NEW_LINE;
      content := content + Line('$', DigitsOf(|argv[i]|));
      content := content + argv[i] + NEW_LINE;
      i := i + 1;
    }
    assert argv[i..] == [];
  }

  /* ---------- reading ---------- */

  function DigitCount(s: string): (k: nat)
    ensures k <= |s| && AllDigits(s[..k]) && (k < |s| ==> !IsDigit(s[k]))
  {
    if s == [] || !IsDigit(s[0]) then 0
    else
      var k := 1 + DigitCount(s[1..]);
      assert forall i | 1 <= i < k :: s[i] == s[1..][..k - 1][i - 1];
      k
  }

  /** Reads a prefix character, a number and a line end. */
  function ReadLine(prefix: char, s: string): Option<(nat, string)> {
    if s == [] || s[0] != prefix then None
    else
      var k := DigitCount(s[1..]);
      if k == 0 || |s| < k + 3 || s[1 + k..k + 3] != NEW_LINE then None
      else Some((DigitValue(s[1..][..k]), s[k + 3..]))
  }

  function ReadArgs(s: string, n: nat): Option<seq<string>>
    decreases n
  {
    if n == 0 then (if s == [] then Some([]) else None)
    else
      match ReadLine('$', s)
      case None => None
      case Some((len, rest)) =>
        if |rest| < len + 2 || rest[len..len + 2] != NEW_LINE then None
        else
          match ReadArgs(rest[len + 2..], n - 1)
          case None => None
          case Some(more) => Some([rest[..len]] + more)
  }

  function Parse(s: string): Option<seq<string>> {
    match ReadLine('*', s)
    case None => None
    case Some((n, rest)) => ReadArgs(rest, n)
  }

  lemma {:induction false} DigitCountOf(digits: string, rest: string)
    requires AllDigits(digits) && rest != [] && !IsDigit(rest[0])
    ensures DigitCount(digits + rest) == |digits|
  {
    if digits == [] {
      assert digits + rest == rest;
    } else {
      DigitCountOf(digits[1..], rest);
      assert (digits + rest)[1..] == digits[1..] + rest;
    }
  }

  lemma ReadLineBack(prefix: char, digits: string, rest: string)
    requires digits != [] && AllDigits(digits)
    ensures ReadLine(prefix, Line(prefix, digits) + rest) == Some((DigitValue(digits), rest))
  {
    var s := Line(prefix, digits) + rest;
    var k := |digits|;
    assert s[1..] == digits + (NEW_LINE + rest);
    DigitCountOf(digits, NEW_LINE + rest);
    assert s[1..][..k] == digits && s[1 + k..k + 3] == NEW_LINE && s[k + 3..] == rest;
  }

  /** An argument is taken off the front by its length. */
  lemma ReadArgBack(s: string, digits: string, v: string, rest: string, more: seq<string>, all: seq<string>, n: nat)
    requires digits != [] && AllDigits(digits) && DigitValue(digits) == |v|
    requires s == Arg(digits, v) + rest && all == [v] + more
    requires ReadArgs(rest, n) == Some(more)
    ensures ReadArgs(s, n + 1) == Some(all)
  {
    var tail := v + NEW_LINE + rest;
    ArgSplits(digits, v, rest);
    ReadLineBack('$', digits, tail);
    ReadArgFrom(s, v, rest, tail, more, n);
  }

  lemma ArgSplits(digits: string, v: string, rest: string)
    ensures Arg(digits, v) + rest == Line('$', digits) + (v + NEW_LINE + rest)
  {
  }

  lemma ReadArgFrom(s: string, v: string, rest: string, tail: string, more: seq<string>, n: nat)
    requires ReadLine('$', s) == Some((|v|, tail)) && tail == v + NEW_LINE + rest && ReadArgs(rest, n) == Some(more)
    ensures ReadArgs(s, n + 1) == Some([v] + more)
  {
    assert tail[..|v|] == v && tail[|v|..|v| + 2] == NEW_LINE && tail[|v| + 2..] == rest;
  }

  lemma {:induction false} ReadArgsBack(argv: seq<string>)
    ensures ReadArgs(Args(argv), |argv|) == Some(argv)
  {
    if argv != [] {
      ValueOfDigits(|argv[0]|);
      ReadArgsBack(argv[1..]);
      ReadArgBack(Args(argv), DigitsOf(|argv[0]|), argv[0], Args(argv[1..]), argv[1..], argv, |argv| - 1);
    }
  }

  /** What is written is read back, whatever characters the arguments hold. */
  lemma ParseContent(argv: seq<string>)
    ensures Parse(Content(argv)) == Some(argv)
  {
    ValueOfDigits(|argv|);
    ReadLineBack('*', DigitsOf(|argv|), Args(argv));
    ReadArgsBack(argv);
  }

  /* ---------- padding ---------- */

  function Repeat(c: char, n: nat): (s: string)
    ensures |s| == n && forall i | 0 <= i < n :: s[i] == c
  {
    seq(n, _ => c)
  }

  const LENGTH_DIGITS: nat := 5

  lemma {:induction false} DigitsLength(n: nat, k: nat, p: nat)
    requires k > 0 && p == Pow10(k) && n < p
    ensures |DigitsOf(n)| <= k
    decreases k
  {
    if n >= 10 {
      DigitsLength(n / 10, k - 1, Pow10(k - 1));
    }
  }

  function Pow10(k: nat): nat { if k == 0 then 1 else 10 * Pow10(k - 1) }

  /** The length of a padding parameter, in five digits. */
  function PaddedDigits(n: nat): (s: string)
    requires n < 100000
    ensures |s| == LENGTH_DIGITS && AllDigits(s)
  {
    DigitsLength(n, LENGTH_DIGITS, 100000);
    Repeat('0', LENGTH_DIGITS - |DigitsOf(n)|) + DigitsOf(n)
  }

  lemma {:induction false} LeadingZeros(z: string, d: string)
    requires AllDigits(z) && AllDigits(d) && (forall i | 0 <= i < |z| :: z[i] == '0')
    ensures AllDigits(z + d) && DigitValue(z + d) == DigitValue(d)
    decreases |z| + |d|
  {
    if d != [] {
      LeadingZeros(z, d[..|d| - 1]);
      assert (z + d)[..|z + d| - 1] == z + d[..|d| - 1];
    } else if z != [] {
      LeadingZeros(z[..|z| - 1], d);
      assert z + d == z && z[..|z| - 1] + d == z[..|z| - 1];
    }
  }

  /** Content of a padding item: a command whose parameter is `n` stars. */
  function PaddingContent(n: nat): string
    requires n < 100000
  {
    Line('*', "2") + Arg("7", "padding") + Arg(PaddedDigits(n), Repeat('*', n))
  }

  lemma SmallDigits()
    ensures DigitValue("2") == 2 && DigitValue("7") == 7
  {
  }

  lemma ReadTwo(d: string, v: string, e: string, w: string)
    requires d != [] && AllDigits(d) && DigitValue(d) == |v|
    requires e != [] && AllDigits(e) && DigitValue(e) == |w|
    ensures ReadArgs(Arg(d, v) + Arg(e, w), 2) == Some([v, w])
  {
    ReadArgBack(Arg(e, w), e, w, [], [], [w], 0);
    ReadArgBack(Arg(d, v) + Arg(e, w), d, v, Arg(e, w), [w], [v, w], 1);
  }

  lemma PaddedValue(n: nat)
    requires n < 100000
    ensures DigitValue(PaddedDigits(n)) == n
  {
    ValueOfDigits(n);
    DigitsLength(n, LENGTH_DIGITS, 100000);
    LeadingZeros(Repeat('0', LENGTH_DIGITS - |DigitsOf(n)|), DigitsOf(n));
  }

  /** It has the size asked for, and reads back as the padding command. */
  lemma PaddingBack(n: nat)
    requires n < 100000
    ensures |PaddingContent(n)| == n + 27
    ensures Parse(PaddingContent(n)) == Some(["padding", Repeat('*', n)])
  {
    var first, last := Arg("7", "padding"), Arg(PaddedDigits(n), Repeat('*', n));
    SmallDigits();
    PaddedValue(n);
    assert PaddingContent(n) == Line('*', "2") + (first + last);
    ReadLineBack('*', "2", first + last);
    ReadTwo("7", "padding", PaddedDigits(n), Repeat('*', n));
  }
}
