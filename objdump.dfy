/** The pieces of an `objdump -d` line that both listing analysers read in
    the same way: the line pattern
    `^\s*([0-9a-fA-F]+):\s+([0-9a-fA-F]+)\s+(\w+)\s*(.*)`, the register
    names, `parse_immediate`, the `offset(base)` memory operand and the
    branch target found by `re.search('([0-9a-fA-F]+)', …)`. */
module Objdump {
  import opened Wrappers
  import opened PyText

  /** What evaluating a parser line can raise in Python. */
  datatype Error = IndexError | ValueError | UnknownOpcode(opcode: string)

  /** The four groups of a matching line. */
  datatype Fields = Fields(address: string, encoding: string, opcode: string, args: string)

  /** The ASCII part of the class `\w`. */
  predicate IsWordChar(c: char) {
    'a' <= c <= 'z' || 'A' <= c <= 'Z' || '0' <= c <= '9' || c == '_'
  }

  predicate AllHex(s: string) {
    forall i :: 0 <= i < |s| ==> IsHexDigit(s[i])
  }

  /** What the groups of a match look like: hexadecimal address and
      encoding, a word for the opcode, and the rest of the line, which does
      not start with whitespace and stops at the end of the line. */
  predicate WellFormed(f: Fields) {
    && |f.address| > 0 && AllHex(f.address)
    && |f.encoding| > 0 && AllHex(f.encoding)
    && |f.opcode| > 0 && (forall i :: 0 <= i < |f.opcode| ==> IsWordChar(f.opcode[i]))
    && '\n' !in f.args
    && (|f.args| > 0 ==> !IsSpace(f.args[0]))
  }

  /** The longest prefix whose characters satisfy `p`, and the rest. */
  function TakeWhile(s: string, p: char -> bool): (r: (string, string))
    ensures r.0 + r.1 == s
    ensures forall i :: 0 <= i < |r.0| ==> p(r.0[i])
    ensures |r.1| > 0 ==> !p(r.1[0])
  {
    var n := Span(s, p);
    assert s[..n] + s[n..] == s;
    (s[..n], s[n..])
  }

  /** A prefix all of whose characters satisfy `p`, followed by one that
      does not, is what `TakeWhile` takes. */
  lemma {:induction false} TakeWhileConcat(a: string, b: string, p: char -> bool)
    requires forall i :: 0 <= i < |a| ==> p(a[i])
    requires |b| > 0 ==> !p(b[0])
    ensures TakeWhile(a + b, p) == (a, b)
  {
    var s := a + b;
    assert forall i :: 0 <= i < |a| ==> s[i] == a[i];
    if |b| > 0 {
      assert s[|a|] == b[0];
    }
    SpanExact(s, p, |a|);
    assert s[..|a|] == a && s[|a|..] == b;
  }

  /** `re.match` of the line pattern. Each repetition is greedy and is
      followed by a character it cannot contain, so the match takes the
      longest run at every step. */
  function MatchLine(line: string): (r: Option<Fields>)
    ensures r.Some? ==> WellFormed(r.value)
  {
    var (_, rest0) := TakeWhile(line, IsSpace);
    var (address, rest1) := TakeWhile(rest0, IsHexDigit);
    if address == "" || rest1 == "" || rest1[0] != ':' then None
    else
      match MatchAfterColon(rest1[1..])
      case None => None
      case Some((encoding, opcode, args)) => Some(Fields(address, encoding, opcode, args))
  }

  /** `\s+([0-9a-fA-F]+)\s+(\w+)\s*(.*)`, the part after the colon. */
  function MatchAfterColon(s: string): (r: Option<(string, string, string)>)
    ensures r.Some? ==> |r.value.0| > 0 && AllHex(r.value.0)
    ensures r.Some? ==> |r.value.1| > 0 && (forall i :: 0 <= i < |r.value.1| ==> IsWordChar(r.value.1[i]))
    ensures r.Some? ==> '\n' !in r.value.2 && (|r.value.2| > 0 ==> !IsSpace(r.value.2[0]))
  {
    var (gap1, rest2) := TakeWhile(s, IsSpace);
    var (encoding, rest3) := TakeWhile(rest2, IsHexDigit);
    if gap1 == "" || encoding == "" then None
    else
      match MatchOpcode(rest3)
      case None => None
      case Some((opcode, args)) => Some((encoding, opcode, args))
  }

  /** `\s+(\w+)\s*(.*)`, the part after the encoding. */
  function MatchOpcode(s: string): (r: Option<(string, string)>)
    ensures r.Some? ==> |r.value.0| > 0 && (forall i :: 0 <= i < |r.value.0| ==> IsWordChar(r.value.0[i]))
    ensures r.Some? ==> '\n' !in r.value.1 && (|r.value.1| > 0 ==> !IsSpace(r.value.1[0]))
  {
    var (gap2, rest4) := TakeWhile(s, IsSpace);
    var (opcode, rest5) := TakeWhile(rest4, IsWordChar);
    if gap2 == "" || opcode == "" then None
    else Some((opcode, RestOfLine(rest5)))
  }

  /** `\s*(.*)`: the text after any whitespace, up to the end of the line. */
  function RestOfLine(s: string): (r: string)
    ensures '\n' !in r && (|r| > 0 ==> !IsSpace(r[0]))
  {
    var (_, rest) := TakeWhile(s, IsSpace);
    var (args, _) := TakeWhile(rest, c => c != '\n');
    assert |args| > 0 ==> args[0] == rest[0];
    args
  }

  /** A run of whitespace. */
  predicate IsGap(s: string) {
    forall i :: 0 <= i < |s| ==> IsSpace(s[i])
  }

  /** What may separate the groups of a line: any leading whitespace, at
      least one whitespace character after the colon and after the
      encoding, and before the arguments whitespace or nothing, as long as
      the opcode does not run on into them. */
  predicate Spacing(f: Fields, lead: string, gap1: string, gap2: string, gap3: string) {
    && IsGap(lead) && IsGap(gap1) && IsGap(gap2) && IsGap(gap3)
    && |gap1| > 0 && |gap2| > 0
    && (|gap3| == 0 && |f.args| > 0 ==> !IsWordChar(f.args[0]))
  }

  /** A listing line with these groups and separators, with or without the
      newline that `readlines` keeps at its end. */
  function Render(f: Fields, lead: string, gap1: string, gap2: string, gap3: string, eol: bool): string {
    lead + (f.address + (":" + (gap1 + (f.encoding + (gap2 + (f.opcode + (gap3 + (f.args + NewLine(eol)))))))))
  }

  function NewLine(eol: bool): string {
    if eol then "\n" else ""
  }

  lemma {:induction false} RestOfLineRender(gap3: string, args: string, eol: bool)
    requires IsGap(gap3) && '\n' !in args && (|args| > 0 ==> !IsSpace(args[0]))
    ensures RestOfLine(gap3 + (args + NewLine(eol))) == args
  {
    var nl := NewLine(eol);
    if |args| > 0 {
      assert (args + nl)[0] == args[0];
      TakeWhileConcat(gap3, args + nl, IsSpace);
      assert forall i :: 0 <= i < |args| ==> args[i] != '\n';
      TakeWhileConcat(args, nl, c => c != '\n');
    } else {
      assert args + nl == nl;
      assert forall i :: 0 <= i < |gap3 + nl| ==> IsSpace((gap3 + nl)[i]);
      TakeWhileConcat(gap3 + nl, "", IsSpace);
      assert gap3 + nl + "" == gap3 + (args + nl);
      TakeWhileConcat("", "", c => c != '\n');
    }
  }

  lemma {:induction false} MatchOpcodeRender(opcode: string, gap2: string, gap3: string, args: string, eol: bool)
    requires |opcode| > 0 && (forall i :: 0 <= i < |opcode| ==> IsWordChar(opcode[i]))
    requires IsGap(gap2) && |gap2| > 0 && IsGap(gap3)
    requires '\n' !in args && (|args| > 0 ==> !IsSpace(args[0]))
    requires |gap3| == 0 && |args| > 0 ==> !IsWordChar(args[0])
    ensures MatchOpcode(gap2 + (opcode + (gap3 + (args + NewLine(eol))))) == Some((opcode, args))
  {
    var rest5 := gap3 + (args + NewLine(eol));
    OpcodeTakes(opcode, gap2, rest5);
    assert MatchOpcode(gap2 + (opcode + rest5)) == Some((opcode, RestOfLine(rest5)));
    RestOfLineRender(gap3, args, eol);
  }

  /** The two runs `MatchOpcode` takes from a rendered line. */
  lemma {:induction false} OpcodeTakes(opcode: string, gap2: string, rest5: string)
    requires |opcode| > 0 && (forall i :: 0 <= i < |opcode| ==> IsWordChar(opcode[i]))
    requires IsGap(gap2) && (|rest5| > 0 ==> !IsWordChar(rest5[0]))
    ensures TakeWhile(gap2 + (opcode + rest5), IsSpace) == (gap2, opcode + rest5)
    ensures TakeWhile(opcode + rest5, IsWordChar) == (opcode, rest5)
  {
    assert (opcode + rest5)[0] == opcode[0] && !IsSpace(opcode[0]);
    TakeWhileConcat(gap2, opcode + rest5, IsSpace);
    TakeWhileConcat(opcode, rest5, IsWordChar);
  }

  /** The first character after the opcode is not part of a word. */
  lemma {:induction false} AfterOpcode(f: Fields, gap3: string, eol: bool)
    requires WellFormed(f) && IsGap(gap3)
    requires |gap3| == 0 && |f.args| > 0 ==> !IsWordChar(f.args[0])
    ensures var rest5 := gap3 + (f.args + NewLine(eol)); |rest5| > 0 ==> !IsWordChar(rest5[0])
  {
    var rest5 := gap3 + (f.args + NewLine(eol));
    if |gap3| > 0 {
      assert rest5[0] == gap3[0] && IsSpace(gap3[0]);
    } else if |f.args| > 0 {
      assert rest5[0] == f.args[0];
    } else if |rest5| > 0 {
      assert rest5 == NewLine(eol);
    }
  }

  lemma {:induction false} MatchAfterColonRender(f: Fields, gap1: string, gap2: string, gap3: string, eol: bool)
    requires WellFormed(f) && Spacing(f, "", gap1, gap2, gap3)
    ensures MatchAfterColon(gap1 + (f.encoding + (gap2 + (f.opcode + (gap3 + (f.args + NewLine(eol)))))))
            == Some((f.encoding, f.opcode, f.args))
  {
    AfterOpcode(f, gap3, eol);
    MatchOpcodeRender(f.opcode, gap2, gap3, f.args, eol);
    MatchAfterColonConcat(f.encoding, gap1, gap2 + (f.opcode + (gap3 + (f.args + NewLine(eol)))));
  }

  lemma {:induction false} MatchAfterColonConcat(encoding: string, gap1: string, s4: string)
    requires |encoding| > 0 && AllHex(encoding) && IsGap(gap1) && |gap1| > 0
    requires |s4| > 0 && IsSpace(s4[0]) && MatchOpcode(s4).Some?
    ensures MatchAfterColon(gap1 + (encoding + s4))
            == Some((encoding, MatchOpcode(s4).value.0, MatchOpcode(s4).value.1))
  {
    ColonTakes(encoding, gap1, s4);
  }

  /** The two runs `MatchAfterColon` takes from a rendered line. */
  lemma {:induction false} ColonTakes(encoding: string, gap1: string, s4: string)
    requires |encoding| > 0 && AllHex(encoding) && IsGap(gap1) && |s4| > 0 && IsSpace(s4[0])
    ensures TakeWhile(gap1 + (encoding + s4), IsSpace) == (gap1, encoding + s4)
    ensures TakeWhile(encoding + s4, IsHexDigit) == (encoding, s4)
  {
    var rest2 := encoding + s4;
    assert !IsSpace(encoding[0]) && rest2[0] == encoding[0];
    TakeWhileConcat(gap1, rest2, IsSpace);
    assert !IsHexDigit(s4[0]);
    TakeWhileConcat(encoding, s4, IsHexDigit);
  }

  /** Matching a rendered line recovers its groups, whatever whitespace
      separates them and whether or not the newline is kept. */
  lemma {:induction false} MatchRender(f: Fields, lead: string, gap1: string, gap2: string, gap3: string, eol: bool)
    requires WellFormed(f) && Spacing(f, lead, gap1, gap2, gap3)
    ensures MatchLine(Render(f, lead, gap1, gap2, gap3, eol)) == Some(f)
  {
    var s2 := gap1 + (f.encoding + (gap2 + (f.opcode + (gap3 + (f.args + NewLine(eol))))));
    AddressTakes(lead, f.address, s2);
    assert (":" + s2)[1..] == s2;
    MatchAfterColonRender(f, gap1, gap2, gap3, eol);
  }

  /** The two runs `MatchLine` takes from a rendered line. */
  lemma {:induction false} AddressTakes(lead: string, address: string, s2: string)
    requires IsGap(lead) && |address| > 0 && AllHex(address)
    ensures TakeWhile(lead + (address + (":" + s2)), IsSpace) == (lead, address + (":" + s2))
    ensures TakeWhile(address + (":" + s2), IsHexDigit) == (address, ":" + s2)
  {
    var rest0 := address + (":" + s2);
    assert rest0[0] == address[0] && !IsSpace(address[0]);
    TakeWhileConcat(lead, rest0, IsSpace);
    TakeWhileConcat(address, ":" + s2, IsHexDigit);
  }

  /** The register names the backward pass recognises: `x0`–`x31`,
      `a0`–`a7`, `s0`–`s11`, `t0`–`t6` and six ABI aliases. */
  function Registers(): set<string> {
    (set i | 0 <= i < 32 :: "x" + Dec(i))
    + (set i | 0 <= i < 8 :: "a" + Dec(i))
    + (set i | 0 <= i < 12 :: "s" + Dec(i))
    + (set i | 0 <= i < 7 :: "t" + Dec(i))
    + {"zero", "ra", "sp", "gp", "tp", "fp"}
  }

  predicate IsLowerLetter(c: char) {
    'a' <= c <= 'z'
  }

  /** Every register name starts with a lower-case letter. */
  lemma {:induction false} RegistersStartWithLetter(r: string)
    requires r in Registers()
    ensures |r| > 0 && IsLowerLetter(r[0])
  {
  }

  /** Every register name ends in a letter or a digit, so neither in
      whitespace nor in a comma. */
  lemma {:induction false} RegistersEndInWordChar(r: string)
    requires r in Registers()
    ensures |r| > 0 && IsWordChar(r[|r| - 1])
  {
    if exists i :: 0 <= i < 32 && r == "x" + Dec(i) {
      var i :| 0 <= i < 32 && r == "x" + Dec(i);
      NumberedEnd("x", i);
    } else if exists i :: 0 <= i < 8 && r == "a" + Dec(i) {
      var i :| 0 <= i < 8 && r == "a" + Dec(i);
      NumberedEnd("a", i);
    } else if exists i :: 0 <= i < 12 && r == "s" + Dec(i) {
      var i :| 0 <= i < 12 && r == "s" + Dec(i);
      NumberedEnd("s", i);
    } else if exists i :: 0 <= i < 7 && r == "t" + Dec(i) {
      var i :| 0 <= i < 7 && r == "t" + Dec(i);
      NumberedEnd("t", i);
    }
  }

  lemma {:induction false} NumberedEnd(p: string, i: nat)
    ensures var r := p + Dec(i); |r| > 0 && IsWordChar(r[|r| - 1])
  {
    var d := Dec(i);
    assert (p + d)[|p + d| - 1] == d[|d| - 1];
    assert IsDigitIn(d[|d| - 1], 10);
  }

  /** `is_register` accepts every register name with any whitespace before
      and after it and any run of commas after it. */
  lemma {:induction false} RegisterPadded(r: string, lead: string, commas: string, trail: string)
    requires r in Registers() && IsGap(lead) && IsGap(trail)
    requires forall i :: 0 <= i < |commas| ==> commas[i] == ','
    ensures IsRegister(lead + (r + commas) + trail)
  {
    RegistersStartWithLetter(r);
    RegistersEndInWordChar(r);
    CleanPadded(r, lead, commas, trail);
  }

  /** Stripping whitespace and then trailing commas recovers a word that
      starts with a letter and ends in a word character. */
  lemma {:induction false} CleanPadded(r: string, lead: string, commas: string, trail: string)
    requires |r| > 0 && IsLowerLetter(r[0]) && IsWordChar(r[|r| - 1])
    requires IsGap(lead) && IsGap(trail)
    requires forall i :: 0 <= i < |commas| ==> commas[i] == ','
    ensures RStrip(Strip(lead + (r + commas) + trail), ',') == r
  {
    var t := r + commas;
    WordCharNotSpace(r[0]);
    WordCharNotSpace(r[|r| - 1]);
    assert t[0] == r[0];
    if |commas| > 0 {
      assert t[|t| - 1] == commas[|commas| - 1];
    } else {
      assert t[|t| - 1] == r[|r| - 1];
    }
    StripPadded(t, lead, trail);
    RStripCommas(r, commas);
  }

  /** `rstrip(',')` removes exactly a run of commas after a text that does
      not end in one. */
  lemma {:induction false} RStripCommas(r: string, commas: string)
    requires |r| > 0 && r[|r| - 1] != ','
    requires forall i :: 0 <= i < |commas| ==> commas[i] == ','
    ensures RStrip(r + commas, ',') == r
  {
    var t := r + commas;
    var u := RStrip(t, ',');
    assert t[|r| - 1] != ',';
    assert forall i :: |r| <= i < |t| ==> t[i] == ',' by {
      forall i | |r| <= i < |t| ensures t[i] == ',' { assert t[i] == commas[i - |r|]; }
    }
    assert |u| > 0 ==> u[|u| - 1] == t[|u| - 1];
    assert |u| == |r| && u == t[..|r|] == r;
  }

  lemma {:induction false} WordCharNotSpace(c: char)
    requires IsWordChar(c)
    ensures !IsSpace(c) && c != ','
  {
  }

  /** `strip()` removes exactly the whitespace around a text that neither
      starts nor ends in whitespace. */
  lemma {:induction false} StripPadded(t: string, lead: string, trail: string)
    requires |t| > 0 && !IsSpace(t[0]) && !IsSpace(t[|t| - 1])
    requires IsGap(lead) && IsGap(trail)
    ensures Strip(lead + t + trail) == t
  {
    var s := lead + t + trail;
    var k, j := |lead|, |lead| + |t|;
    assert s[k] == t[0] && s[j - 1] == t[|t| - 1];
    assert forall i :: 0 <= i < k ==> s[i] == lead[i];
    assert forall i :: j <= i < |s| ==> s[i] == trail[i - j];
    StripExact(s, k, j);
    assert s[k..j] == t;
  }

  /** `is_register`: the operand, stripped of whitespace and trailing
      commas, is a register name. */
  predicate IsRegister(operand: string) {
    RStrip(Strip(operand), ',') in Registers()
  }

  /** `parse_immediate`: `int(s, 0)`, `None` on `ValueError`. */
  function ParseImmediate(s: string): Option<int> {
    PyIntAuto(s)
  }

  /** `parse_immediate` reads back a signed decimal as the listing prints
      it and a `0x` hexadecimal, and refuses a decimal with a leading
      zero. */
  lemma {:induction false} ParseImmediateReads(n: int, m: nat)
    ensures ParseImmediate(IntText(n)) == Some(n)
    ensures ParseImmediate("0x" + Hex(m)) == Some(m)
    ensures m > 0 ==> ParseImmediate("0" + Dec(m)) == None
  {
    if n < 0 {
      var a: nat := -n;
      assert IntText(n) == "-" + Dec(a);
      PyIntAutoFormats(a);
      assert -(a as int) == n;
    } else {
      PyIntAutoFormats(n);
    }
    PyIntAutoFormats(m);
    if m > 0 {
      LeadingZero(m);
    }
  }

  /** No operand is both a register and an immediate: a register name
      starts with a letter, an `int(s, 0)` literal with a sign or a digit. */
  lemma {:induction false} RegisterIsNotImmediate(operand: string)
    requires IsRegister(operand)
    ensures ParseImmediate(operand) == None
  {
    var t := Strip(operand);
    var c := RStrip(t, ',');
    RegistersStartWithLetter(c);
    assert t[0] == c[0];
    assert Unsigned(t) == (t, false);
    assert !IsDigitIn(t[0], 10);
  }

  /** `is_register` accepts register names as the listing prints them,
      also with surrounding whitespace and a trailing comma. */
  lemma {:induction false} RegisterExamples()
    ensures IsRegister("a0") && IsRegister("zero") && IsRegister(" t2,")
  {
    RegisterA0();
    UnchangedOperand("zero");
    RegisterPaddedT2();
  }

  lemma {:induction false} RegisterA0()
    ensures IsRegister("a0")
  {
    UnchangedOperand("a0");
    assert "a0" == "a" + Dec(0);
    assert "a" + Dec(0) in (set i | 0 <= i < 8 :: "a" + Dec(i));
  }

  lemma {:induction false} RegisterPaddedT2()
    ensures IsRegister(" t2,")
  {
    PaddedOperand();
    assert "t2" == "t" + Dec(2);
    assert "t" + Dec(2) in (set i | 0 <= i < 7 :: "t" + Dec(i));
  }

  lemma {:induction false} PaddedOperand()
    ensures RStrip(Strip(" t2,"), ',') == "t2"
  {
    StripExact(" t2,", 1, 4);
    assert " t2,"[1..4] == "t2,";
    RTrimExact("t2,", ch => ch == ',', 2);
    assert "t2,"[..2] == "t2";
  }

  /** `is_register` refuses a CSR number and out-of-range register
      numbers. */
  lemma {:induction false} NonRegisterExamples()
    ensures !IsRegister("x32") && !IsRegister("0x802") && !IsRegister("a8")
  {
    NotRegisterX32();
    NotRegisterCsr();
    NotRegisterA8();
  }

  lemma {:induction false} NotRegisterX32()
    ensures !IsRegister("x32")
  {
    UnchangedOperand("x32");
    assert DigitsValue("32", 10) == 32 by {
      assert "32"[..1] == "3" && "3"[..0] == "";
    }
    forall i | 0 <= i < 32 ensures "x" + Dec(i) != "x32" {
      NotDecOf(i, "x", "32");
    }
  }

  lemma {:induction false} NotRegisterCsr()
    ensures !IsRegister("0x802")
  {
    UnchangedOperand("0x802");
  }

  lemma {:induction false} NotRegisterA8()
    ensures !IsRegister("a8")
  {
    UnchangedOperand("a8");
    assert DigitsValue("8", 10) == 8 by {
      assert "8"[..0] == "";
    }
    forall i | 0 <= i < 8 ensures "a" + Dec(i) != "a8" {
      NotDecOf(i, "a", "8");
    }
  }

  /** An operand without surrounding whitespace or a trailing comma is
      looked up as it is. */
  lemma {:induction false} UnchangedOperand(s: string)
    requires |s| > 0 && !IsSpace(s[0]) && !IsSpace(s[|s| - 1]) && s[|s| - 1] != ','
    ensures RStrip(Strip(s), ',') == s
  {
    StripNoSpace(s);
    RTrimExact(s, ch => ch == ',', |s|);
    assert s[..|s|] == s;
  }

  /** A prefix followed by digits of another value is not the prefix
      followed by `str(i)`. */
  lemma {:induction false} NotDecOf(i: nat, p: string, d: string)
    requires DigitsValue(d, 10) != i
    ensures p + Dec(i) != p + d
  {
    FormatDigitsValue(i, 10);
    assert (p + Dec(i))[|p|..] == Dec(i);
    assert (p + d)[|p|..] == d;
  }

  /** The `offset(base)` operand of a load or store, in `args[1]`: the
      offset is `int(…)` of the text before `(`, or 0 when there is none,
      and the base is the text after it without trailing `)`. A missing
      operand or `(` is an `IndexError` and a bad offset a `ValueError`, in
      the order Python evaluates them. */
  function MemOperand(args: seq<string>): (r: Result<(int, string), Error>)
    ensures |args| < 2 ==> r == Err(IndexError)
    ensures r.Ok? ==> '(' in Strip(args[1])
    ensures r.Ok? ==> '(' !in r.value.1 && (|r.value.1| > 0 ==> r.value.1[|r.value.1| - 1] != ')')
    ensures r.Ok? && Strip(args[1])[0] == '(' ==> r.value.0 == 0
  {
    if |args| < 2 then Err(IndexError)
    else
      var parts := Split(Strip(args[1]), '(');
      var offset := if parts[0] == "" then Some(0) else PyInt(parts[0]);
      if offset.None? then Err(ValueError)
      else if |parts| < 2 then Err(IndexError)
      else Ok((offset.value, RStrip(parts[1], ')')))
  }

  /** How the listing prints a signed decimal. */
  function IntText(n: int): string {
    if n < 0 then "-" + Dec(-n) else Dec(n)
  }

  lemma {:induction false} PyIntText(n: int)
    ensures PyInt(IntText(n)) == Some(n)
  {
    if n < 0 {
      var m: nat := -n;
      assert IntText(n) == "-" + Dec(m);
      PyIntDec(m);
      assert -(m as int) == n;
    } else {
      assert IntText(n) == Dec(n);
      PyIntDec(n);
    }
  }

  /** The printed offset is not empty, starts with neither whitespace nor
      `(`, and contains no `(`. */
  lemma {:induction false} IntTextShape(n: int)
    ensures |IntText(n)| > 0 && !IsSpace(IntText(n)[0]) && '(' !in IntText(n)
  {
    var o := IntText(n);
    var d := Dec(if n < 0 then -n else n);
    assert forall i :: 0 <= i < |d| ==> IsHexDigit(d[i]);
    if n < 0 {
      assert o == "-" + d;
      assert forall i :: 1 <= i < |o| ==> o[i] == d[i - 1];
    } else {
      assert o == d;
    }
  }

  lemma {:induction false} SplitOperand(o: string, base: string)
    requires '(' !in o && '(' !in base
    ensures Split(o + "(" + base + ")", '(') == [o, base + ")"]
  {
    assert '(' !in base + ")";
    assert Join([o, base + ")"], '(') == o + "(" + base + ")" by {
      assert Join([base + ")"], '(') == base + ")";
    }
    SplitJoin([o, base + ")"], '(');
  }

  lemma {:induction false} RStripParen(base: string)
    requires |base| > 0 ==> base[|base| - 1] != ')'
    ensures RStrip(base + ")", ')') == base
  {
    RTrimExact(base + ")", ch => ch == ')', |base|);
    assert (base + ")")[..|base|] == base;
  }

  /** The memory operand reads back `offset(base)` as printed. */
  lemma {:induction false} MemOperandRender(first: string, offset: int, base: string)
    requires '(' !in base && (|base| > 0 ==> base[|base| - 1] != ')')
    ensures MemOperand([first, IntText(offset) + "(" + base + ")"]) == Ok((offset, base))
  {
    var o := IntText(offset);
    var a := o + "(" + base + ")";
    IntTextShape(offset);
    assert a[0] == o[0] && a[|a| - 1] == ')';
    StripNoSpace(a);
    SplitOperand(o, base);
    PyIntText(offset);
    RStripParen(base);
  }

  /** The value of the first hexadecimal run of a branch operand,
      `int(re.search('([0-9a-fA-F]+)', arg).group(1), 16)`; `None` when the
      search finds nothing. */
  function HexTarget(arg: string): (r: Option<nat>)
    ensures r.None? <==> forall i :: 0 <= i < |arg| ==> !IsHexDigit(arg[i])
  {
    match FirstHexRun(arg)
    case None => None
    case Some(h) => Some(DigitsValue(h, 16))
  }

  /** A target printed as `<hex> <symbol+offset>` reads back as its
      address, whatever the symbol. */
  lemma {:induction false} HexTargetRender(target: nat, symbol: string)
    ensures HexTarget(Hex(target) + " <" + symbol + ">") == Some(target)
  {
    var h := Hex(target);
    var s := h + " <" + symbol + ">";
    assert forall i :: 0 <= i < |h| ==> s[i] == h[i];
    assert s[|h|] == ' ';
    FirstHexRunExact(s, 0, |h|);
    assert s[0..|h|] == h;
    FormatDigitsValue(target, 16);
  }

  /** Python truthiness of an optional register name and an optional
      immediate: present and not empty, present and not zero. */
  predicate Truthy(o: Option<string>) {
    o.Some? && o.value != ""
  }

  predicate TruthyInt(o: Option<int>) {
    o.Some? && o.value != 0
  }
}
