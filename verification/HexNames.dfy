/**
  File names as partition offsets. `std::stoll(name, 0, 16)` is used by the raw
  disk backend, `int(name, 16)` by the NBD plugin, and the NBD plugin also relies
  on the lexicographic order of the names being the order of the offsets.
 */
module HexNames {
  import opened Basics

  const INT64_LIMIT: int := 0x8000_0000_0000_0000

  function Digit(c: char): (d: Option<nat>)
    ensures d.Some? ==> d.value < 16
  {
    if '0' <= c <= '9' then Some((c - '0') as nat)
    else if 'a' <= c <= 'f' then Some((c - 'a') as nat + 10)
    else if 'A' <= c <= 'F' then Some((c - 'A') as nat + 10)
    else None
  }

  predicate IsHex(s: string) {
    forall k :: 0 <= k < |s| ==> Digit(s[k]).Some?
  }

  function Value(s: string): nat
    requires IsHex(s)
  {
    if s == [] then 0 else 16 * Value(s[..|s| - 1]) + Digit(s[|s| - 1]).value
  }

  predicate IsSpace(c: char) {
    c == ' ' || '\t' <= c <= '\r'
  }

  function SkipSpaces(s: string): string {
    if s != [] && IsSpace(s[0]) then SkipSpaces(s[1..]) else s
  }

  /** The longest prefix of hexadecimal digits. */
  function HexPrefix(s: string): (r: string)
    ensures IsHex(r) && r <= s
    ensures |r| < |s| ==> Digit(s[|r|]).None?
  {
    if s != [] && Digit(s[0]).Some? then [s[0]] + HexPrefix(s[1..]) else []
  }

  predicate HasRadixPrefix(s: string) {
    |s| >= 2 && s[0] == '0' && (s[1] == 'x' || s[1] == 'X')
  }

  predicate Negative(t: string) {
    t != [] && t[0] == '-'
  }

  /** What follows an optional sign. */
  function Unsigned(t: string): string {
    if t != [] && (t[0] == '-' || t[0] == '+') then t[1..] else t
  }

  /** The digits after an optional `0x`, as far as they go. */
  function LeadingDigits(u: string): (r: string)
    ensures IsHex(r)
  {
    if HasRadixPrefix(u) && HexPrefix(u[2..]) != [] then HexPrefix(u[2..]) else HexPrefix(u)
  }

  function InInt64(v: int): Option<int> {
    if -INT64_LIMIT <= v < INT64_LIMIT then Some(v) else None
  }

  /**
    `std::stoll(s, 0, 16)`: leading blanks, a sign and `0x` are skipped, digits are
    read as far as they go and the rest of the name is ignored; None stands for
    the two exceptions (no digit at all, and a value outside int64).
   */
  function Stoll(s: string): Option<int> {
    var t := SkipSpaces(s);
    var digits := LeadingDigits(Unsigned(t));
    if digits == [] then None else InInt64(if Negative(t) then 0 - Value(digits) else Value(digits))
  }

  function StripEnd(s: string): string {
    if s != [] && IsSpace(s[|s| - 1]) then StripEnd(s[..|s| - 1]) else s
  }

  /** Digits with single underscores between them, as Python accepts; None when malformed. */
  function Ungrouped(s: string): (r: Option<string>)
    ensures r.Some? ==> r.value != [] && IsHex(r.value)
  {
    if s == [] || Digit(s[0]).None? then None
    else if |s| == 1 then Some(s)
    else
      match Ungrouped(if s[1] == '_' then s[2..] else s[1..])
      case None => None
      case Some(rest) => Some([s[0]] + rest)
  }

  /** What follows an optional `0x`, which an underscore may follow. */
  function AfterRadix(u: string): string {
    if HasRadixPrefix(u) then (if |u| > 2 && u[2] == '_' then u[3..] else u[2..]) else u
  }

  /** Python's `int(s, 16)` on ASCII names; None is ValueError. */
  function PyInt(s: string): Option<int> {
    var t := SkipSpaces(StripEnd(s));
    match Ungrouped(AfterRadix(Unsigned(t)))
    case None => None
    case Some(digits) => Some(if Negative(t) then 0 - Value(digits) else Value(digits))
  }

  lemma {:induction false} HexPrefixOfHex(s: string)
    requires IsHex(s)
    ensures HexPrefix(s) == s
  {
    if s != [] {
      HexPrefixOfHex(s[1..]);
    }
  }

  lemma {:induction false} UngroupedOfHex(s: string)
    requires IsHex(s) && s != []
    ensures Ungrouped(s) == Some(s)
  {
    if |s| > 1 {
      assert Digit(s[1]).Some?;
      UngroupedOfHex(s[1..]);
      assert s == [s[0]] + s[1..];
    }
  }

  lemma PlainStart(s: string)
    requires IsHex(s) && s != []
    ensures SkipSpaces(s) == s && StripEnd(s) == s && !HasRadixPrefix(s) && s[0] != '-' && s[0] != '+'
  {
    assert Digit(s[0]).Some? && Digit(s[|s| - 1]).Some?;
    assert |s| > 1 ==> Digit(s[1]).Some?;
  }

  /** On the plain names that the tools produce the two parsers read the same offset. */
  lemma PlainNamesAgree(s: string)
    requires IsHex(s) && s != []
    ensures PyInt(s) == Some(Value(s))
    ensures Stoll(s) == if Value(s) < INT64_LIMIT then Some(Value(s)) else None
  {
    PlainStart(s);
    HexPrefixOfHex(s);
    UngroupedOfHex(s);
  }

  // ---------- what the two parsers make of blanks, signs and prefixes ----------

  predicate Blank(s: string) {
    forall k :: 0 <= k < |s| ==> IsSpace(s[k])
  }

  predicate IsSign(s: string) {
    s == "" || s == "+" || s == "-"
  }

  predicate IsRadix(s: string) {
    s == "" || s == "0x" || s == "0X"
  }

  function Signed(sign: string, v: nat): int {
    if sign == "-" then 0 - v else v
  }

  lemma {:induction false} SkipBlanks(blanks: string, core: string)
    requires Blank(blanks) && core != [] && !IsSpace(core[0])
    ensures SkipSpaces(blanks + core) == core
  {
    if blanks == [] {
      assert blanks + core == core;
    } else {
      SkipBlanks(blanks[1..], core);
      assert (blanks + core)[1..] == blanks[1..] + core;
    }
  }

  lemma {:induction false} StripBlanks(core: string, blanks: string)
    requires Blank(blanks) && core != [] && !IsSpace(core[|core| - 1])
    ensures StripEnd(core + blanks) == core
  {
    if blanks == [] {
      assert core + blanks == core;
    } else {
      var n := |blanks| - 1;
      StripBlanks(core, blanks[..n]);
      assert (core + blanks)[..|core + blanks| - 1] == core + blanks[..n];
    }
  }

  lemma {:induction false} HexPrefixOf(digits: string, rest: string)
    requires IsHex(digits) && (rest != [] ==> Digit(rest[0]).None?)
    ensures HexPrefix(digits + rest) == digits
  {
    if digits == [] {
      assert digits + rest == rest;
    } else {
      HexPrefixOf(digits[1..], rest);
      assert (digits + rest)[1..] == digits[1..] + rest;
    }
  }

  lemma SignSkipped(sign: string, u: string)
    requires IsSign(sign) && u != [] && u[0] != '-' && u[0] != '+' && !IsSpace(u[0])
    ensures var t := sign + u; t != [] && !IsSpace(t[0]) && (Negative(t) <==> sign == "-") && Unsigned(t) == u
  {
    var t := sign + u;
    if sign == "" {
      assert t == u;
    } else {
      assert t[0] == sign[0] && t[1..] == u;
    }
  }

  /** A radix prefix, or digits that do not look like one, are no sign and no blank. */
  lemma StartsPlain(radix: string, digits: string, rest: string)
    requires IsRadix(radix) && IsHex(digits) && digits != []
    ensures var u := radix + digits + rest; u != [] && u[0] != '-' && u[0] != '+' && !IsSpace(u[0])
  {
    assert Digit(digits[0]).Some?;
    assert (radix + digits + rest)[0] == if radix == "" then digits[0] else radix[0];
  }

  lemma RadixSkipped(radix: string, digits: string, rest: string)
    requires IsRadix(radix) && IsHex(digits) && digits != [] && (rest != [] ==> Digit(rest[0]).None?)
    requires radix == "" ==> !HasRadixPrefix(digits + rest)
    ensures LeadingDigits(radix + digits + rest) == digits
  {
    var u := radix + digits + rest;
    HexPrefixOf(digits, rest);
    if radix == "" {
      assert u == digits + rest;
    } else {
      assert u[0] == radix[0] && u[1] == radix[1] && u[2..] == digits + rest;
    }
  }

  lemma StollCore(sign: string, radix: string, digits: string, rest: string, t: string)
    requires IsSign(sign) && IsRadix(radix) && IsHex(digits) && digits != [] && t == sign + (radix + digits + rest)
    requires (rest != [] ==> Digit(rest[0]).None?) && (radix == "" ==> !HasRadixPrefix(digits + rest))
    ensures t != [] && !IsSpace(t[0]) && (Negative(t) <==> sign == "-") && LeadingDigits(Unsigned(t)) == digits
  {
    StartsPlain(radix, digits, rest);
    SignSkipped(sign, radix + digits + rest);
    RadixSkipped(radix, digits, rest);
  }

  lemma StollOf(s: string, t: string, sign: string, digits: string)
    requires SkipSpaces(s) == t && (Negative(t) <==> sign == "-") && LeadingDigits(Unsigned(t)) == digits
    requires IsHex(digits) && digits != []
    ensures var v := Signed(sign, Value(digits));
      Stoll(s) == if -0x8000_0000_0000_0000 <= v < 0x8000_0000_0000_0000 then Some(v) else None
  {
  }

  /** `std::stoll(s, 0, 16)`: blanks, a sign and a prefix are skipped and what follows the digits is ignored. */
  lemma StollReads(blanks: string, sign: string, radix: string, digits: string, rest: string, s: string)
    requires Blank(blanks) && IsSign(sign) && IsRadix(radix) && IsHex(digits) && digits != []
    requires (rest != [] ==> Digit(rest[0]).None?) && (radix == "" ==> !HasRadixPrefix(digits + rest))
    requires s == blanks + (sign + (radix + digits + rest))
    ensures var v := Signed(sign, Value(digits));
      Stoll(s) == if -0x8000_0000_0000_0000 <= v < 0x8000_0000_0000_0000 then Some(v) else None
  {
    var t := sign + (radix + digits + rest);
    StollCore(sign, radix, digits, rest, t);
    SkipBlanks(blanks, t);
    StollOf(s, t, sign, digits);
  }

  lemma {:induction false} BlanksSkipped(s: string) returns (blanks: string)
    ensures Blank(blanks) && s == blanks + SkipSpaces(s)
  {
    blanks := [];
    if s != [] && IsSpace(s[0]) {
      var more := BlanksSkipped(s[1..]);
      blanks := [s[0]] + more;
      assert s == [s[0]] + s[1..];
    }
  }

  lemma SignOf(t: string) returns (sign: string)
    ensures IsSign(sign) && t == sign + Unsigned(t) && (Negative(t) <==> sign == "-")
  {
    sign := if t != [] && (t[0] == '-' || t[0] == '+') then [t[0]] else "";
  }

  lemma DigitsOf(u: string) returns (radix: string, rest: string)
    ensures IsRadix(radix) && u == radix + LeadingDigits(u) + rest && (rest != [] ==> Digit(rest[0]).None?)
  {
    radix := if HasRadixPrefix(u) && HexPrefix(u[2..]) != [] then u[..2] else "";
    rest := u[|radix| + |LeadingDigits(u)|..];
  }

  /** And nothing else is accepted: every name that parses has that form, so a name without a digit in its place is an error. */
  lemma StollReadsOnly(s: string) returns (blanks: string, sign: string, radix: string, digits: string, rest: string)
    requires Stoll(s).Some?
    ensures Blank(blanks) && IsSign(sign) && IsRadix(radix) && IsHex(digits) && digits != []
    ensures rest != [] ==> Digit(rest[0]).None?
    ensures s == blanks + (sign + (radix + digits + rest)) && Stoll(s) == Some(Signed(sign, Value(digits)))
  {
    var t := SkipSpaces(s);
    blanks := BlanksSkipped(s);
    sign := SignOf(t);
    digits := LeadingDigits(Unsigned(t));
    radix, rest := DigitsOf(Unsigned(t));
  }

  lemma RadixSkippedByPython(radix: string, digits: string)
    requires IsRadix(radix) && IsHex(digits) && digits != []
    ensures AfterRadix(radix + digits) == digits
  {
    var u := radix + digits;
    PlainStart(digits);
    if radix == "" {
      assert u == digits;
    } else {
      assert Digit(digits[0]).Some?;
      assert u[0] == radix[0] && u[1] == radix[1] && u[2] == digits[0] && u[2..] == digits;
    }
  }

  lemma Trimmed(blanks: string, t: string, trailing: string)
    requires Blank(blanks) && Blank(trailing) && t != [] && !IsSpace(t[0]) && !IsSpace(t[|t| - 1])
    ensures SkipSpaces(StripEnd(blanks + t + trailing)) == t
  {
    var core := blanks + t;
    assert core[|core| - 1] == t[|t| - 1];
    StripBlanks(core, trailing);
    SkipBlanks(blanks, t);
  }

  lemma PlainEnds(sign: string, radix: string, digits: string)
    requires IsSign(sign) && IsRadix(radix) && IsHex(digits) && digits != []
    ensures var u := radix + digits; u[0] != '-' && u[0] != '+' && !IsSpace(u[0])
    ensures var t := sign + (radix + digits); !IsSpace(t[|t| - 1])
  {
    var u := radix + digits;
    assert Digit(digits[0]).Some? && Digit(digits[|digits| - 1]).Some?;
    assert u[0] == if radix == "" then digits[0] else radix[0];
    assert u[|u| - 1] == digits[|digits| - 1];
    assert (sign + u)[|sign + u| - 1] == u[|u| - 1];
  }

  /** `int(s, 16)` on a name without blanks around it. */
  lemma PyIntCore(sign: string, radix: string, digits: string, t: string)
    requires IsSign(sign) && IsRadix(radix) && IsHex(digits) && digits != [] && t == sign + (radix + digits)
    ensures t != [] && !IsSpace(t[0]) && !IsSpace(t[|t| - 1]) && (Negative(t) <==> sign == "-")
    ensures Ungrouped(AfterRadix(Unsigned(t))) == Some(digits)
  {
    PlainEnds(sign, radix, digits);
    SignSkipped(sign, radix + digits);
    RadixSkippedByPython(radix, digits);
    UngroupedOfHex(digits);
  }

  lemma PyIntOf(s: string, t: string, sign: string, digits: string)
    requires SkipSpaces(StripEnd(s)) == t && (Negative(t) <==> sign == "-") && Ungrouped(AfterRadix(Unsigned(t))) == Some(digits)
    ensures IsHex(digits) && PyInt(s) == Some(Signed(sign, Value(digits)))
  {
  }

  /** `int(s, 16)`: the same, but blanks may follow and nothing else. */
  lemma PyIntReads(blanks: string, sign: string, radix: string, digits: string, trailing: string, s: string)
    requires Blank(blanks) && Blank(trailing) && IsSign(sign) && IsRadix(radix) && IsHex(digits) && digits != []
    requires s == blanks + (sign + (radix + digits)) + trailing
    ensures PyInt(s) == Some(Signed(sign, Value(digits)))
  {
    var t := sign + (radix + digits);
    PyIntCore(sign, radix, digits, t);
    Trimmed(blanks, t, trailing);
    PyIntOf(s, t, sign, digits);
  }

  // ---------- which names the backend can parse ----------

  function Pow16(n: nat): nat {
    if n == 0 then 1 else 16 * Pow16(n - 1)
  }

  lemma {:induction false} ValueBound(s: string)
    requires IsHex(s)
    ensures Value(s) < Pow16(|s|)
  {
    if s != [] {
      ValueBound(s[..|s| - 1]);
    }
  }

  lemma Shifted(d: nat, pow: nat, v: nat, w: nat, last: nat)
    requires v == d * pow + w
    ensures 16 * v + last == d * (16 * pow) + (16 * w + last)
  {
  }

  lemma {:induction false} ValueByFirst(s: string)
    requires IsHex(s) && s != []
    ensures Value(s) == Digit(s[0]).value * Pow16(|s| - 1) + Value(s[1..])
  {
    var n := |s| - 1;
    ValueByLast(s, n);
    if n > 0 {
      var init, tail := s[..n], s[1..];
      ValueByFirst(init);
      assert init[1..] == tail[..n - 1] && tail[n - 1] == s[n] && init[0] == s[0];
      ValueByLast(tail, n - 1);
      Shifted(Digit(s[0]).value, Pow16(n - 1), Value(init), Value(tail[..n - 1]), Digit(s[n]).value);
    } else {
      assert s[..0] == [] && s[1..] == [];
    }
  }

  lemma Pow16Values()
    ensures Pow16(15) == 0x1000_0000_0000_0000 && Pow16(15) * 8 == 0x8000_0000_0000_0000
  {
    assert Pow16(5) == 0x10_0000;
    assert Pow16(10) == 0x100_0000_0000;
  }

  lemma {:induction false} Pow16Grows(m: nat, n: nat)
    requires m <= n
    ensures Pow16(m) <= Pow16(n)
  {
    if m < n {
      Pow16Grows(m, n - 1);
    }
  }

  /** A name of at most 15 hexadecimal digits always parses, to its value. */
  lemma ShortNamesParse(s: string)
    requires IsHex(s) && 0 < |s| <= 15
    ensures Stoll(s) == Some(Value(s))
  {
    PlainNamesAgree(s);
    ValueBound(s);
    Pow16Grows(|s|, 15);
    Pow16Values();
  }

  lemma FullValue(s: string)
    requires IsHex(s) && |s| == 16
    ensures Value(s) < 0x8000_0000_0000_0000 <==> Digit(s[0]).value < 8
  {
    ValueByFirst(s);
    ValueBound(s[1..]);
    Pow16Values();
    var d := Digit(s[0]).value;
    assert Value(s) == d * 0x1000_0000_0000_0000 + Value(s[1..]);
  }

  /** A name of 16 digits, as the torrent generator writes them, parses exactly when its first digit is below 8. */
  lemma FullNamesParse(s: string)
    requires IsHex(s) && |s| == 16
    ensures Stoll(s).Some? <==> Digit(s[0]).value < 8
    ensures Stoll(s).Some? ==> Stoll(s) == Some(Value(s))
  {
    PlainNamesAgree(s);
    FullValue(s);
  }

  // ---------- name order ----------

  /** Python's `<` on strings. */
  predicate LexLess(a: string, b: string) {
    if b == [] then false
    else if a == [] then true
    else if a[0] != b[0] then a[0] < b[0]
    else LexLess(a[1..], b[1..])
  }

  /** Digits of one case only, as a torrent generator writes them. */
  predicate OneCase(s: string, upper: bool) {
    forall k :: 0 <= k < |s| ==> OneCaseChar(s[k], upper)
  }

  lemma {:induction false} LexLessByLast(a: string, b: string)
    requires |a| == |b| > 0
    ensures LexLess(a, b) <==>
      LexLess(a[..|a| - 1], b[..|b| - 1]) || (a[..|a| - 1] == b[..|b| - 1] && a[|a| - 1] < b[|b| - 1])
  {
    if |a| > 1 && a[0] == b[0] {
      LexLessByLast(a[1..], b[1..]);
      assert a[1..][..|a| - 2] == a[..|a| - 1][1..];
      assert b[1..][..|b| - 2] == b[..|b| - 1][1..];
      assert a[..|a| - 1] == [a[0]] + a[..|a| - 1][1..];
      assert b[..|b| - 1] == [b[0]] + b[..|b| - 1][1..];
    }
  }

  predicate OneCaseChar(c: char, upper: bool) {
    '0' <= c <= '9' || (if upper then 'A' <= c <= 'F' else 'a' <= c <= 'f')
  }

  lemma CharOrder(c: char, d: char, upper: bool)
    requires OneCaseChar(c, upper) && OneCaseChar(d, upper)
    ensures Digit(c).Some? && Digit(d).Some?
    ensures c < d <==> Digit(c).value < Digit(d).value
    ensures c == d <==> Digit(c).value == Digit(d).value
  {
  }

  /** Of two numbers with one more digit each, the rest decides, and then the last digit. */
  lemma DigitOrder(x: nat, y: nat, d: nat, e: nat)
    requires d < 16 && e < 16
    ensures 16 * x + d < 16 * y + e <==> x < y || (x == y && d < e)
    ensures 16 * x + d == 16 * y + e <==> x == y && d == e
  {
  }

  lemma OneCaseIsHex(s: string, upper: bool)
    requires OneCase(s, upper)
    ensures IsHex(s)
  {
    forall k | 0 <= k < |s| ensures Digit(s[k]).Some? {
      CharOrder(s[k], s[k], upper);
    }
  }

  /** The value of a name by its last digit. */
  lemma ValueByLast(s: string, n: nat)
    requires IsHex(s) && |s| == n + 1
    ensures IsHex(s[..n]) && Value(s) == 16 * Value(s[..n]) + Digit(s[n]).value && s == s[..n] + [s[n]]
  {
  }

  /** For equal-width names of one case, sorting by name is sorting by offset. */
  lemma {:induction false} NameOrderIsNumericOrder(a: string, b: string, upper: bool)
    requires |a| == |b| && OneCase(a, upper) && OneCase(b, upper)
    ensures IsHex(a) && IsHex(b)
    ensures LexLess(a, b) <==> Value(a) < Value(b)
    ensures a == b <==> Value(a) == Value(b)
  {
    OneCaseIsHex(a, upper);
    OneCaseIsHex(b, upper);
    if a != [] {
      var n := |a| - 1;
      var x, y := a[..n], b[..n];
      NameOrderIsNumericOrder(x, y, upper);
      LexLessByLast(a, b);
      CharOrder(a[n], b[n], upper);
      ValueByLast(a, n);
      ValueByLast(b, n);
      DigitOrder(Value(x), Value(y), Digit(a[n]).value, Digit(b[n]).value);
    }
  }

  /** Neither condition can be dropped: mixed widths and mixed cases both misorder. */
  lemma NameOrderNeedsWidthAndCase()
    ensures LexLess("10", "9") && PyInt("10") == Some(16) && PyInt("9") == Some(9)
    ensures LexLess("B", "a") && PyInt("B") == Some(11) && PyInt("a") == Some(10)
  {
    assert Value("1") == 1 by { assert "1"[..0] == ""; }
    assert Value("10") == 16 by { assert "10"[..1] == "1"; }
    assert Value("9") == 9 by { assert "9"[..0] == ""; }
    assert Value("B") == 11 by { assert "B"[..0] == ""; }
    assert Value("a") == 10 by { assert "a"[..0] == ""; }
    PlainNamesAgree("10");
    PlainNamesAgree("9");
    PlainNamesAgree("B");
    PlainNamesAgree("a");
  }
}
