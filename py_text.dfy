/** The part of Python's built-in text handling that the listing parsers
    rely on: `str.strip()`, `str.rstrip(c)`, `str.split(c)`, `int(s)`,
    `int(s, 0)`, `int(s, 16)` on a run of hexadecimal digits, and
    `re.search('([0-9a-fA-F]+)', s)`. Each is a total function; a
    `ValueError` is `None`. */
module PyText {
  import opened Wrappers

  /** The characters for which `str.isspace()` holds. The class `\s` of a
      `str` regular expression matches the same characters. */
  predicate IsSpace(c: char) {
    '\t' <= c <= '\r' || '\U{1c}' <= c <= ' ' || c == '\U{85}' || c == '\U{a0}'
    || c == '\U{1680}' || '\U{2000}' <= c <= '\U{200a}' || c == '\U{2028}'
    || c == '\U{2029}' || c == '\U{202f}' || c == '\U{205f}' || c == '\U{3000}'
  }

  /** Length of the longest prefix of `s` whose characters all satisfy `p`. */
  function Span(s: string, p: char -> bool): (n: nat)
    ensures n <= |s|
    ensures forall i :: 0 <= i < n ==> p(s[i])
    ensures n == |s| || !p(s[n])
  {
    if |s| > 0 && p(s[0]) then 1 + Span(s[1..], p) else 0
  }

  /** A prefix of the right length, all of whose characters satisfy `p` and
      that is followed by one that does not, is the span. */
  lemma {:induction false} SpanExact(s: string, p: char -> bool, k: nat)
    requires k <= |s|
    requires forall i :: 0 <= i < k ==> p(s[i])
    requires k == |s| || !p(s[k])
    ensures Span(s, p) == k
    decreases k
  {
    if k > 0 {
      SpanExact(s[1..], p, k - 1);
    }
  }

  /** `s` with every trailing character satisfying `p` removed. */
  function RTrim(s: string, p: char -> bool): (r: string)
    ensures |r| <= |s| && r == s[..|r|]
    ensures forall i :: |r| <= i < |s| ==> p(s[i])
    ensures |r| > 0 ==> !p(r[|r| - 1])
  {
    if |s| > 0 && p(s[|s| - 1]) then RTrim(s[..|s| - 1], p) else s
  }

  /** A prefix followed only by characters satisfying `p`, and not itself
      ending in one, is what `RTrim` keeps. */
  lemma {:induction false} RTrimExact(s: string, p: char -> bool, m: nat)
    requires m <= |s|
    requires forall i :: m <= i < |s| ==> p(s[i])
    requires m > 0 ==> !p(s[m - 1])
    ensures RTrim(s, p) == s[..m]
    decreases |s|
  {
    if |s| > m {
      assert s[..|s| - 1][..m] == s[..m];
      RTrimExact(s[..|s| - 1], p, m);
    }
  }

  /** `s.rstrip(c)`: the trailing copies of `c` removed. */
  function RStrip(s: string, c: char): (r: string)
    ensures |r| <= |s| && r == s[..|r|]
    ensures forall i :: |r| <= i < |s| ==> s[i] == c
    ensures |r| > 0 ==> r[|r| - 1] != c
  {
    RTrim(s, ch => ch == c)
  }

  /** `s.strip()`: the leading and trailing whitespace removed. */
  function Strip(s: string): (r: string)
    ensures |r| <= |s|
    ensures |r| > 0 ==> !IsSpace(r[0]) && !IsSpace(r[|r| - 1])
  {
    RTrim(s[Span(s, IsSpace)..], IsSpace)
  }

  /** `Strip` keeps exactly the stretch between the leading and the trailing
      whitespace. */
  lemma {:induction false} StripExact(s: string, k: nat, j: nat)
    requires k <= j <= |s|
    requires forall i :: 0 <= i < k ==> IsSpace(s[i])
    requires forall i :: j <= i < |s| ==> IsSpace(s[i])
    requires k < j ==> !IsSpace(s[k]) && !IsSpace(s[j - 1])
    ensures Strip(s) == s[k..j]
  {
    if k < j {
      SpanExact(s, IsSpace, k);
      var t := s[k..];
      assert forall i :: j - k <= i < |t| ==> IsSpace(t[i]) by {
        forall i | j - k <= i < |t| ensures IsSpace(t[i]) {
          assert t[i] == s[k + i];
        }
      }
      RTrimExact(t, IsSpace, j - k);
      assert t[..j - k] == s[k..j];
    } else {
      assert forall i :: 0 <= i < |s| ==> IsSpace(s[i]) by {
        forall i | 0 <= i < |s| ensures IsSpace(s[i]) {
          if i >= j { } else { assert i < k; }
        }
      }
      SpanExact(s, IsSpace, |s|);
    }
  }

  /** A string without surrounding whitespace is left as it is. */
  lemma {:induction false} StripNoSpace(s: string)
    requires |s| > 0 ==> !IsSpace(s[0]) && !IsSpace(s[|s| - 1])
    ensures Strip(s) == s
  {
    StripExact(s, 0, |s|);
    assert s[0..|s|] == s;
  }

  /** `strip()` is idempotent. */
  lemma {:induction false} StripIdempotent(s: string)
    ensures Strip(Strip(s)) == Strip(s)
  {
    StripNoSpace(Strip(s));
  }

  /** `sep.join(parts)` for a one-character separator. */
  function Join(parts: seq<string>, sep: char): string
  {
    if |parts| == 0 then ""
    else if |parts| == 1 then parts[0]
    else parts[0] + [sep] + Join(parts[1..], sep)
  }

  /** `s.split(sep)` for a one-character separator: at least one piece, no
      piece contains the separator, and joining the pieces gives `s` back. */
  function Split(s: string, sep: char): (parts: seq<string>)
    ensures |parts| >= 1
    ensures forall i :: 0 <= i < |parts| ==> sep !in parts[i]
    ensures Join(parts, sep) == s
    decreases |s|
  {
    var i := Span(s, c => c != sep);
    if i == |s| then
      assert sep !in s;
      [s]
    else
      var rest := Split(s[i + 1..], sep);
      assert sep !in s[..i];
      assert s == s[..i] + [sep] + s[i + 1..];
      [s[..i]] + rest
  }

  /** `split` undoes `join`: the pieces of a joined list are the list. */
  lemma {:induction false} SplitJoin(parts: seq<string>, sep: char)
    requires |parts| >= 1
    requires forall i :: 0 <= i < |parts| ==> sep !in parts[i]
    ensures Split(Join(parts, sep), sep) == parts
    decreases |parts|
  {
    var s := Join(parts, sep);
    var p0 := parts[0];
    if |parts| == 1 {
      SpanExact(s, c => c != sep, |s|);
    } else {
      var rest := Join(parts[1..], sep);
      assert s == p0 + [sep] + rest;
      assert s[|p0|] == sep;
      assert forall i :: 0 <= i < |p0| ==> s[i] == p0[i];
      SpanExact(s, c => c != sep, |p0|);
      assert s[..|p0|] == p0;
      assert s[|p0| + 1..] == rest;
      SplitJoin(parts[1..], sep);
      assert parts == [p0] + parts[1..];
    }
  }

  predicate IsHexDigit(c: char) {
    '0' <= c <= '9' || 'a' <= c <= 'f' || 'A' <= c <= 'F'
  }

  /** Value of a hexadecimal digit in either case (0 for anything else). */
  function DigitValue(c: char): nat {
    if '0' <= c <= '9' then c as nat - '0' as nat
    else if 'a' <= c <= 'f' then c as nat - 'a' as nat + 10
    else if 'A' <= c <= 'F' then c as nat - 'A' as nat + 10
    else 0
  }

  /** A digit of the given base (2, 8, 10 or 16). */
  predicate IsDigitIn(c: char, base: nat) {
    IsHexDigit(c) && DigitValue(c) < base
  }

  predicate AllDigitsIn(s: string, base: nat) {
    forall i :: 0 <= i < |s| ==> IsDigitIn(s[i], base)
  }

  /** The number the digit string `s` denotes in the given base, most
      significant digit first. */
  function DigitsValue(s: string, base: nat): nat {
    if |s| == 0 then 0
    else DigitsValue(s[..|s| - 1], base) * base + DigitValue(s[|s| - 1])
  }

  /** The lower-case digit for `d`. */
  function DigitChar(d: nat): (c: char)
    requires d < 16
    ensures IsHexDigit(c) && DigitValue(c) == d
  {
    if d < 10 then ('0' as int + d) as char else ('a' as int + d - 10) as char
  }

  /** `n` written in the given base without leading zeros, as Python's
      f-string `{n}` (base 10) and `{n:x}` (base 16) write it. */
  function FormatDigits(n: nat, base: nat): (s: string)
    requires base == 10 || base == 16
    ensures |s| >= 1 && AllDigitsIn(s, base)
    ensures |s| > 1 ==> s[0] != '0'
    decreases n
  {
    if n < base then [DigitChar(n)]
    else FormatDigits(n / base, base) + [DigitChar(n % base)]
  }

  /** Reading the written digits back gives the number. */
  lemma {:induction false} FormatDigitsValue(n: nat, base: nat)
    requires base == 10 || base == 16
    ensures DigitsValue(FormatDigits(n, base), base) == n
    decreases n
  {
    if n >= base {
      var q, r := n / base, n % base;
      var s := FormatDigits(n, base);
      assert s == FormatDigits(q, base) + [DigitChar(r)];
      assert s[..|s| - 1] == FormatDigits(q, base);
      assert DigitValue(s[|s| - 1]) == r;
      assert DigitsValue(s, base) == DigitsValue(FormatDigits(q, base), base) * base + r;
      assert q < n && q * base + r == n by {
        if base == 10 { } else { }
      }
      FormatDigitsValue(q, base);
    }
  }

  function Dec(n: nat): string { FormatDigits(n, 10) }
  function Hex(n: nat): string { FormatDigits(n, 16) }

  /** The digits after an optional sign, and whether the sign was `-`. */
  function Unsigned(t: string): (string, bool) {
    if |t| > 0 && (t[0] == '-' || t[0] == '+') then (t[1..], t[0] == '-') else (t, false)
  }

  function Signed(n: nat, negative: bool): int {
    if negative then -(n as int) else n
  }

  /** `int(s)`: surrounding whitespace, an optional sign and at least one
      decimal digit; `None` where Python raises `ValueError`. */
  function PyInt(s: string): Option<int> {
    var (body, neg) := Unsigned(Strip(s));
    if |body| > 0 && AllDigitsIn(body, 10) then Some(Signed(DigitsValue(body, 10), neg)) else None
  }

  /** The digits after a base prefix: at least one, all of that base. */
  function PrefixedDigits(d: string, base: nat): Option<nat> {
    if |d| > 0 && AllDigitsIn(d, base) then Some(DigitsValue(d, base)) else None
  }

  predicate AllZeros(s: string) {
    forall i :: 0 <= i < |s| ==> s[i] == '0'
  }

  /** The value of an unsigned `int(s, 0)` literal: the base comes from the
      prefix (`0x`, `0o`, `0b` in either case), and a decimal literal other
      than zero may not start with `0`. */
  function AutoLiteral(body: string): Option<nat> {
    if |body| >= 2 && body[0] == '0' && (body[1] == 'x' || body[1] == 'X') then PrefixedDigits(body[2..], 16)
    else if |body| >= 2 && body[0] == '0' && (body[1] == 'o' || body[1] == 'O') then PrefixedDigits(body[2..], 8)
    else if |body| >= 2 && body[0] == '0' && (body[1] == 'b' || body[1] == 'B') then PrefixedDigits(body[2..], 2)
    else if |body| > 0 && AllDigitsIn(body, 10) && (body[0] != '0' || AllZeros(body)) then Some(DigitsValue(body, 10))
    else None
  }

  /** `int(s, 0)`: surrounding whitespace, an optional sign and a literal. */
  function PyIntAuto(s: string): Option<int> {
    var (body, neg) := Unsigned(Strip(s));
    match AutoLiteral(body)
    case None => None
    case Some(n) => Some(Signed(n, neg))
  }

  /** `int(s)` and `int(s, 0)` accept only text that, stripped, starts
      with a digit or a sign, and give a negative number only after `-`. */
  lemma {:induction false} PyIntSign(s: string)
    ensures PyInt(s).Some? ==> |Strip(s)| > 0 && (IsDigitIn(Strip(s)[0], 10) || Strip(s)[0] in "+-")
    ensures PyInt(s).Some? && PyInt(s).value < 0 ==> Strip(s)[0] == '-'
    ensures PyIntAuto(s).Some? ==> |Strip(s)| > 0 && (IsDigitIn(Strip(s)[0], 10) || Strip(s)[0] in "+-")
    ensures PyIntAuto(s).Some? && PyIntAuto(s).value < 0 ==> Strip(s)[0] == '-'
  {
  }

  lemma {:induction false} DigitsNotSpace(s: string, base: nat)
    requires AllDigitsIn(s, base)
    ensures |s| > 0 ==> !IsSpace(s[0]) && !IsSpace(s[|s| - 1])
  {
  }

  /** `int` reads a digit string, with or without a minus sign. */
  lemma {:induction false} PyIntDigits(d: string)
    requires |d| > 0 && AllDigitsIn(d, 10)
    ensures PyInt(d) == Some(DigitsValue(d, 10))
  {
    DigitsNotSpace(d, 10);
    StripNoSpace(d);
  }

  lemma {:induction false} PyIntNegDigits(d: string)
    requires |d| > 0 && AllDigitsIn(d, 10)
    ensures PyInt("-" + d) == Some(-(DigitsValue(d, 10) as int))
  {
    var t := "-" + d;
    DigitsNotSpace(d, 10);
    StripNoSpace(t);
    assert t[1..] == d;
    assert Unsigned(Strip(t)) == (d, true);
    var v := DigitsValue(d, 10);
    assert Signed(v, true) == -(v as int);
  }

  /** `int(str(n)) == n` and `int(str(-n)) == -n`. */
  lemma {:induction false} PyIntDec(n: nat)
    ensures PyInt(Dec(n)) == Some(n)
    ensures PyInt("-" + Dec(n)) == Some(-(n as int))
  {
    PyIntDecPositive(n);
    PyIntDecNegative(n);
  }

  lemma {:induction false} PyIntDecPositive(n: nat)
    ensures PyInt(Dec(n)) == Some(n)
  {
    DecDigits(n);
    PyIntDigits(Dec(n));
  }

  lemma {:induction false} PyIntDecNegative(n: nat)
    ensures PyInt("-" + Dec(n)) == Some(-(n as int))
  {
    DecDigits(n);
    PyIntNegDigits(Dec(n));
  }

  /** The first digit of `str(n)` is `0` only for `n == 0`. */
  lemma {:induction false} DecLeadingDigit(n: nat)
    ensures Dec(n)[0] == '0' <==> n == 0
  {
    if n >= 10 {
      assert |Dec(n)| > 1;
    }
  }

  /** `int(s, 0)` reads a decimal literal without a leading zero. */
  lemma {:induction false} AutoLiteralDigits(d: string)
    requires |d| > 0 && AllDigitsIn(d, 10) && (|d| > 1 ==> d[0] != '0')
    ensures AutoLiteral(d) == Some(DigitsValue(d, 10))
  {
    assert !(|d| >= 2 && d[0] == '0');
  }

  lemma {:induction false} PyIntAutoDigits(d: string)
    requires |d| > 0 && AllDigitsIn(d, 10) && (|d| > 1 ==> d[0] != '0')
    ensures PyIntAuto(d) == Some(DigitsValue(d, 10))
  {
    DigitsNotSpace(d, 10);
    StripNoSpace(d);
    assert Unsigned(Strip(d)) == (d, false);
    AutoLiteralDigits(d);
  }

  lemma {:induction false} PyIntAutoNegDigits(d: string)
    requires |d| > 0 && AllDigitsIn(d, 10) && (|d| > 1 ==> d[0] != '0')
    ensures PyIntAuto("-" + d) == Some(-(DigitsValue(d, 10) as int))
  {
    var t := "-" + d;
    DigitsNotSpace(d, 10);
    StripNoSpace(t);
    assert t[1..] == d;
    assert Unsigned(Strip(t)) == (d, true);
    AutoLiteralDigits(d);
    var v := DigitsValue(d, 10);
    assert Signed(v, true) == -(v as int);
  }

  /** `int(s, 0)` reads `0x` followed by hexadecimal digits. */
  lemma {:induction false} PyIntAutoHexDigits(h: string)
    requires |h| > 0 && AllDigitsIn(h, 16)
    ensures PyIntAuto("0x" + h) == Some(DigitsValue(h, 16))
  {
    var t := "0x" + h;
    DigitsNotSpace(h, 16);
    StripNoSpace(t);
    assert Unsigned(Strip(t)) == (t, false);
    assert t[2..] == h;
    assert AutoLiteral(t) == PrefixedDigits(h, 16);
  }

  /** `int(str(n), 0) == n`, `int(str(-n), 0) == -n` and
      `int(hex(n), 0) == n`. */
  lemma {:induction false} PyIntAutoFormats(n: nat)
    ensures PyIntAuto(Dec(n)) == Some(n)
    ensures PyIntAuto("-" + Dec(n)) == Some(-(n as int))
    ensures PyIntAuto("0x" + Hex(n)) == Some(n)
  {
    PyIntAutoDec(n);
    PyIntAutoHex(n);
  }

  lemma {:induction false} PyIntAutoDec(n: nat)
    ensures PyIntAuto(Dec(n)) == Some(n) && PyIntAuto("-" + Dec(n)) == Some(-(n as int))
  {
    PyIntAutoDecPositive(n);
    PyIntAutoDecNegative(n);
  }

  lemma {:induction false} PyIntAutoDecPositive(n: nat)
    ensures PyIntAuto(Dec(n)) == Some(n)
  {
    DecDigits(n);
    PyIntAutoDigits(Dec(n));
  }

  lemma {:induction false} PyIntAutoDecNegative(n: nat)
    ensures PyIntAuto("-" + Dec(n)) == Some(-(n as int))
  {
    DecDigits(n);
    PyIntAutoNegDigits(Dec(n));
  }

  /** `str(n)` is a decimal digit string without a leading zero that reads
      back as `n`. */
  lemma {:induction false} DecDigits(n: nat)
    ensures var d := Dec(n); |d| > 0 && AllDigitsIn(d, 10) && (|d| > 1 ==> d[0] != '0')
    ensures DigitsValue(Dec(n), 10) == n
  {
    FormatDigitsValue(n, 10);
  }

  lemma {:induction false} PyIntAutoHex(n: nat)
    ensures PyIntAuto("0x" + Hex(n)) == Some(n)
  {
    var h := Hex(n);
    FormatDigitsValue(n, 16);
    PyIntAutoHexDigits(h);
  }

  /** `int(s, 0)` refuses a decimal literal with a leading zero, which
      `int(s)` accepts. */
  lemma {:induction false} LeadingZero(n: nat)
    requires n > 0
    ensures PyIntAuto("0" + Dec(n)) == None
    ensures PyInt("0" + Dec(n)) == Some(n)
  {
    var d := Dec(n);
    var z := "0" + d;
    DecLeadingDigit(n);
    assert z[1] == d[0];
    assert AllDigitsIn(z, 10);
    assert AutoLiteral(z) == None by {
      assert !AllZeros(z);
    }
    DigitsNotSpace(z, 10);
    StripNoSpace(z);
    assert Unsigned(Strip(z)) == (z, false);
    PyIntDigits(z);
    LeadingZeroValue(d);
    FormatDigitsValue(n, 10);
  }

  /** A leading zero does not change a decimal value. */
  lemma {:induction false} LeadingZeroValue(d: string)
    ensures DigitsValue("0" + d, 10) == DigitsValue(d, 10)
    decreases |d|
  {
    if |d| > 0 {
      assert ("0" + d)[..|d|] == "0" + d[..|d| - 1];
      LeadingZeroValue(d[..|d| - 1]);
    } else {
      assert ("0" + d)[..0] == "";
    }
  }

  /** The text `re.search('([0-9a-fA-F]+)', s).group(1)` returns: the longest
      run of hexadecimal digits starting at the first one; `None` when there
      is no match. */
  function FirstHexRun(s: string): (r: Option<string>)
    ensures r.None? <==> forall i :: 0 <= i < |s| ==> !IsHexDigit(s[i])
    ensures r.Some? ==> |r.value| > 0 && AllDigitsIn(r.value, 16)
  {
    var k := Span(s, c => !IsHexDigit(c));
    if k == |s| then None
    else
      var t := s[k..];
      Some(t[..Span(t, IsHexDigit)])
  }

  /** The run that `FirstHexRun` finds is determined by where it starts and
      ends: no digit before `k`, digits on `[k, k + m)`, none at `k + m`. */
  lemma {:induction false} FirstHexRunExact(s: string, k: nat, m: nat)
    requires 0 < m && k + m <= |s|
    requires forall i :: 0 <= i < k ==> !IsHexDigit(s[i])
    requires forall i :: k <= i < k + m ==> IsHexDigit(s[i])
    requires k + m == |s| || !IsHexDigit(s[k + m])
    ensures FirstHexRun(s) == Some(s[k..k + m])
  {
    SpanExact(s, c => !IsHexDigit(c), k);
    var t := s[k..];
    assert forall i :: 0 <= i < m ==> IsHexDigit(t[i]) by {
      forall i | 0 <= i < m ensures IsHexDigit(t[i]) { assert t[i] == s[k + i]; }
    }
    if k + m < |s| {
      assert t[m] == s[k + m];
    }
    SpanExact(t, IsHexDigit, m);
    assert t[..m] == s[k..k + m];
  }
}
