/** lib/vsprintf.c on values: what a format means, without any limit on the length. */
module Format {
  import opened Words

  // ---------- numbers

  type Base = b: nat | b == 10 || b == 16 witness 10

  function DigitChar(d: nat, large: bool): char
    requires d < 16
  {
    if large then "0123456789ABCDEF"[d] else "0123456789abcdef"[d]
  }

  /** The remainder and the quotient that divide computes: it only knows the bases 10 and 16. */
  function DivMod(n: nat, base: Base): (r: (nat, nat))
    ensures r.0 < base && n == base * r.1 + r.0 && (n > 0 ==> r.1 < n)
  {
    if base == 10 then (n % 10, n / 10) else (n % 16, n / 16)
  }

  /** The digits in tmp, the lowest first. */
  function LowFirst(n: nat, base: Base, large: bool): string {
    if n == 0 then [] else [DigitChar(DivMod(n, base).0, large)] + LowFirst(DivMod(n, base).1, base, large)
  }

  function Reverse(s: string): (r: string)
    ensures |r| == |s|
  {
    if s == [] then [] else Reverse(s[1..]) + [s[0]]
  }

  function Digits(n: nat, base: Base, large: bool): string {
    if n == 0 then "0" else Reverse(LowFirst(n, base, large))
  }

  /** Reading digits back. */
  function DigitValue(c: char): nat {
    if '0' <= c <= '9' then (c as int) - ('0' as int)
    else if 'a' <= c <= 'f' then (c as int) - ('a' as int) + 10
    else if 'A' <= c <= 'F' then (c as int) - ('A' as int) + 10
    else 0
  }

  function Parsed(s: string, base: nat): nat {
    if s == [] then 0 else base * Parsed(s[..|s| - 1], base) + DigitValue(s[|s| - 1])
  }

  lemma DigitRoundTrip(d: nat, large: bool)
    requires d < 16
    ensures DigitValue(DigitChar(d, large)) == d
  {
    assert d == 0 || d == 1 || d == 2 || d == 3 || d == 4 || d == 5 || d == 6 || d == 7
           || d == 8 || d == 9 || d == 10 || d == 11 || d == 12 || d == 13 || d == 14 || d == 15;
  }

  lemma {:induction false} LowFirstParsed(n: nat, base: Base, large: bool)
    ensures Parsed(Reverse(LowFirst(n, base, large)), base) == n
    decreases n
  {
    if n > 0 {
      var d, q := DivMod(n, base).0, DivMod(n, base).1;
      LowFirstParsed(q, base, large);
      DigitRoundTrip(d, large);
      var high := Reverse(LowFirst(q, base, large));
      var s := LowFirst(n, base, large);
      assert s[0] == DigitChar(d, large) && s[1..] == LowFirst(q, base, large);
      assert Reverse(s) == high + [s[0]];
      assert (high + [s[0]])[..|high|] == high;
    }
  }

  /** The digits of a number parse back to it, in both bases and both cases. */
  lemma DigitsParsed(n: nat, base: Base, large: bool)
    ensures Parsed(Digits(n, base, large), base) == n && Digits(n, base, large) != []
  {
    LowFirstParsed(n, base, large);
    if n == 0 {
      assert Parsed("0", base) == base * Parsed([], base) + 0;
    }
  }

  /** A digit of one of the two cases. */
  predicate IsHex(c: char, large: bool) {
    '0' <= c <= '9' || if large then 'A' <= c <= 'F' else 'a' <= c <= 'f'
  }

  lemma {:induction false} LowFirstPlain(n: nat, base: Base, large: bool)
    ensures var s := LowFirst(n, base, large);
            && (forall i :: 0 <= i < |s| ==> IsHex(s[i], large)) && (s != [] ==> s[|s| - 1] != '0')
    decreases n
  {
    if n > 0 {
      LowFirstPlain(DivMod(n, base).1, base, large);
    }
  }

  lemma {:induction false} ReverseAt(s: string)
    ensures forall i :: 0 <= i < |s| ==> Reverse(s)[i] == s[|s| - 1 - i]
  {
    if s != [] {
      ReverseAt(s[1..]);
    }
  }

  /** There is no needless zero in front, and all digits are of the case asked for. */
  lemma DigitsPlain(n: nat, base: Base, large: bool)
    ensures var s := Digits(n, base, large);
            && s != [] && (|s| > 1 ==> s[0] != '0') && forall i :: 0 <= i < |s| ==> IsHex(s[i], large)
  {
    LowFirstPlain(n, base, large);
    ReverseAt(LowFirst(n, base, large));
  }

  // ---------- fields

  datatype Flags = Flags(left: bool, plus: bool, space: bool, special: bool, zeropad: bool, sign: bool, large: bool)

  function Repeat(c: char, n: int): (s: string)
    ensures |s| == (if n > 0 then n else 0) && forall i :: 0 <= i < |s| ==> s[i] == c
    decreases if n > 0 then n else 0
  {
    if n > 0 then Repeat(c, n - 1) + [c] else []
  }

  function Magnitude(num: int): nat {
    if num < 0 then -num else num
  }

  function SignOf(num: int, f: Flags): (s: string)
    ensures |s| <= 1
  {
    if !f.sign then "" else if num < 0 then "-" else if f.plus then "+" else if f.space then " " else ""
  }

  function Body(num: int, base: Base, f: Flags): string {
    Digits(Magnitude(num), base, f.large)
  }

  /** What print_number is to print: spaces in front, zeros behind the sign, or spaces behind. */
  function Field(num: int, base: Base, width: int, f: Flags): string {
    var sign, digits := SignOf(num, f), Body(num, base, f);
    var gap := width - |digits| - |sign|;
    if f.left then sign + digits + Repeat(' ', gap)
    else if f.zeropad then sign + Repeat('0', gap) + digits
    else Repeat(' ', gap) + sign + digits
  }

  /** A field is as long as the width asks for, or as sign and digits need. */
  lemma FieldLength(num: int, base: Base, width: int, f: Flags)
    ensures var need := |SignOf(num, f)| + |Body(num, base, f)|;
            |Field(num, base, width, f)| == if width > need then width else need
  {}

  /** Padding with zeros does not change the number. */
  lemma {:induction false} ZerosParsed(n: int, s: string, base: Base)
    ensures Parsed(Repeat('0', n) + s, base) == Parsed(s, base)
    decreases |s|, if n > 0 then n else 0
  {
    var z := Repeat('0', n);
    if s != [] {
      ZerosParsed(n, s[..|s| - 1], base);
      assert (z + s)[..|z + s| - 1] == z + s[..|s| - 1];
    } else if n > 0 {
      ZerosParsed(n - 1, [], base);
      assert z + [] == z && Repeat('0', n - 1) + [] == Repeat('0', n - 1);
    }
  }

  /**
   Between the sign and the spaces, a field holds digits that parse back to the number, whatever the flags and the
   width.
   */
  lemma FieldParsed(num: int, base: Base, width: int, f: Flags) returns (before: int, number: string, after: int)
    ensures Field(num, base, width, f) == Repeat(' ', before) + SignOf(num, f) + number + Repeat(' ', after)
    ensures Parsed(number, base) == Magnitude(num)
  {
    var zeros;
    before, zeros, after := FieldParts(num, base, width, f);
    number := Repeat('0', zeros) + Body(num, base, f);
    DigitsParsed(Magnitude(num), base, f.large);
    ZerosParsed(zeros, Body(num, base, f), base);
  }

  lemma FieldParts(num: int, base: Base, width: int, f: Flags) returns (before: int, zeros: int, after: int)
    ensures Field(num, base, width, f)
            == Repeat(' ', before) + SignOf(num, f) + (Repeat('0', zeros) + Body(num, base, f)) + Repeat(' ', after)
    ensures before + zeros + after == width - |Body(num, base, f)| - |SignOf(num, f)|
    ensures (f.left || f.zeropad ==> before == 0) && (f.left || !f.zeropad ==> zeros == 0) && (!f.left ==> after == 0)
  {
    var sign, digits := SignOf(num, f), Body(num, base, f);
    var gap := width - |digits| - |sign|;
    before, zeros, after := 0, 0, 0;
    if f.left {
      after := gap;
      NoSpaces(sign);
      assert Repeat('0', 0) + digits == digits;
    } else if f.zeropad {
      zeros := gap;
      Regrouped(sign, Repeat('0', gap), digits);
    } else {
      before := gap;
      NoSpacesBehind(Repeat(' ', gap) + sign + digits);
      assert Repeat('0', 0) + digits == digits;
    }
  }

  lemma NoSpaces(s: string)
    ensures Repeat(' ', 0) + s == s
  {}

  lemma NoSpacesBehind(s: string)
    ensures s + Repeat(' ', 0) == s
  {}

  lemma Regrouped(a: string, b: string, c: string)
    ensures a + b + c == Repeat(' ', 0) + a + (b + c) + Repeat(' ', 0)
  {
    NoSpaces(a);
    NoSpacesBehind(a + (b + c));
  }

  // ---------- formats

  /** An argument: a word, or a string, or the null string. */
  datatype Arg = Int(w: Word) | Text(s: string) | Null

  /** va_arg: what is not there reads as 0 here. */
  function WordOf(args: seq<Arg>): Word {
    if args != [] && args[0].Int? then args[0].w else 0
  }

  function Rest(args: seq<Arg>): seq<Arg> {
    if args == [] then [] else args[1..]
  }

  /** The character at a place of a C string, '\0' at its end. */
  function At(s: string, i: nat): char {
    if i < |s| then s[i] else '\0'
  }

  function UpToNul(s: string): (r: string)
    ensures |r| <= |s|
  {
    if s == [] || s[0] == '\0' then [] else [s[0]] + UpToNul(s[1..])
  }

  predicate IsDigit(c: char) {
    '0' <= c <= '9'
  }

  predicate IsFlag(c: char) {
    c == '-' || c == '+' || c == ' ' || c == '#' || c == '0'
  }

  function WithFlag(f: Flags, c: char): Flags {
    if c == '-' then f.(left := true)
    else if c == '+' then f.(plus := true)
    else if c == ' ' then f.(space := true)
    else if c == '#' then f.(special := true)
    else f.(zeropad := true)
  }

  function ScanFlags(fmt: string, i: nat, f: Flags): (r: (Flags, nat))
    ensures i <= r.1
    decreases |fmt| - i
  {
    if i < |fmt| && IsFlag(fmt[i]) then ScanFlags(fmt, i + 1, WithFlag(f, fmt[i])) else (f, i)
  }

  /** skip_atoi */
  function ScanNumber(fmt: string, i: nat, n: nat): (r: (nat, nat))
    ensures i <= r.1
    decreases |fmt| - i
  {
    if i < |fmt| && IsDigit(fmt[i]) then ScanNumber(fmt, i + 1, n * 10 + DigitValue(fmt[i])) else (n, i)
  }

  /** What stands between '%' and the conversion character at place at; args is what is left of the arguments. */
  datatype Spec = Spec(flags: Flags, width: int, qualifier: char, at: nat, args: seq<Arg>)

  const NO_FLAGS := Flags(false, false, false, false, false, false, false)

  function ScanWidth(fmt: string, i: nat, f: Flags, args: seq<Arg>): (r: Spec)
    ensures i <= r.at
  {
    if IsDigit(At(fmt, i)) then Spec(f, ScanNumber(fmt, i, 0).0, '\0', ScanNumber(fmt, i, 0).1, args)
    else if At(fmt, i) != '*' then Spec(f, -1, '\0', i, args)
    else if Signed(WordOf(args)) < 0 then Spec(f.(left := true), -Signed(WordOf(args)), '\0', i + 1, Rest(args))
    else Spec(f, Signed(WordOf(args)), '\0', i + 1, Rest(args))
  }

  function ScanQualifier(fmt: string, r: Spec): (q: Spec)
    ensures r.at <= q.at
  {
    if At(fmt, r.at) == 'h' || At(fmt, r.at) == 'l' then r.(qualifier := At(fmt, r.at), at := r.at + 1) else r
  }

  function ScanSpec(fmt: string, i: nat, args: seq<Arg>): (r: Spec)
    ensures i <= r.at
  {
    ScanQualifier(fmt, ScanWidth(fmt, ScanFlags(fmt, i, NO_FLAGS).1, ScanFlags(fmt, i, NO_FLAGS).0, args))
  }

  /** The number that a word means under a qualifier. */
  function NumberOf(w: Word, qualifier: char, signed: bool): (n: int)
    ensures -0x8000_0000 <= n < 0x1_0000_0000 && (!signed ==> n >= 0)
  {
    if qualifier == 'h' then
      var low := w % 0x1_0000;
      if signed && low >= 0x8000 then low - 0x1_0000 else low
    else if signed then Signed(w)
    else w
  }

  function PadText(text: string, width: int, left: bool): string {
    if left then text + Repeat(' ', width - |text|) else Repeat(' ', width - |text|) + text
  }

  predicate IsNumber(c: char) {
    c == 'o' || c == 'X' || c == 'x' || c == 'd' || c == 'i' || c == 'u'
  }

  /** %o is printed with the digits of base 16, as divide knows no base 8. */
  function BaseOf(c: char): Base {
    if c == 'd' || c == 'i' || c == 'u' then 10 else 16
  }

  function FlagsOf(f: Flags, c: char): Flags {
    if c == 'X' then f.(large := true) else if c == 'd' || c == 'i' then f.(sign := true) else f
  }

  /** The text of a conversion, without %f, which is not modelled. */
  function Converted(c: char, r: Spec): string {
    if c == 'c' then PadText([(WordOf(r.args) % 256) as char], r.width, r.flags.left)
    else if c == 's' then PadText(StringOf(r.args), r.width, r.flags.left)
    else if c == 'p' then
      if r.width == -1 then Field(WordOf(r.args), 16, 8, r.flags.(zeropad := true))
      else Field(WordOf(r.args), 16, r.width, r.flags)
    else if c == '%' then "%"
    else if IsNumber(c) then
      Field(NumberOf(WordOf(r.args), r.qualifier, FlagsOf(r.flags, c).sign), BaseOf(c), r.width, FlagsOf(r.flags, c))
    else if c == '\0' then "%"
    else ['%', c]
  }

  /** The digits that %o stands for. */
  function Octal(n: nat): string {
    if n < 8 then [DigitChar(n, false)] else Octal(n / 8) + [DigitChar(n % 8, false)]
  }

  /** They are the number in base 8; read in base 16 they are more from 8 on. */
  lemma {:induction false} OctalParsed(n: nat)
    ensures Parsed(Octal(n), 8) == n && Parsed(Octal(n), 16) >= n && (n >= 8 ==> Parsed(Octal(n), 16) > n)
    decreases n
  {
    DigitRoundTrip(n % 8, false);
    if n < 8 {
      assert Octal(n)[..0] == [];
    } else {
      OctalParsed(n / 8);
      var high := Octal(n / 8);
      assert (high + [DigitChar(n % 8, false)])[..|high|] == high;
    }
  }

  /** Exactly when %o prints octal digits, which are to be those of base 16: for numbers below 8. */
  lemma OctalIff(r: Spec)
    requires !r.flags.large && !r.flags.sign
    ensures var n := NumberOf(WordOf(r.args), r.qualifier, false);
            && Converted('o', r) == Field(n, 16, r.width, r.flags)
            && (Body(n, 16, r.flags) == Octal(n) <==> n < 8)
  {
    var n := NumberOf(WordOf(r.args), r.qualifier, false);
    OctalParsed(n);
    DigitsParsed(n, 16, false);
    if n < 8 {
      OneDigitEach(n);
    }
  }

  lemma OneDigitEach(n: nat)
    requires n < 8
    ensures Digits(n, 16, false) == [DigitChar(n, false)]
  {
    if n > 0 {
      assert LowFirst(n, 16, false) == [DigitChar(n, false)];
      assert Reverse([DigitChar(n, false)]) == Reverse([]) + [DigitChar(n, false)];
    }
  }

  function StringOf(args: seq<Arg>): string {
    if args != [] && args[0].Text? then UpToNul(args[0].s) else "(NULL)"
  }

  /** The conversions that take an argument. */
  predicate TakesArg(c: char) {
    c == 'c' || c == 's' || c == 'p' || c == 'f' || IsNumber(c)
  }

  /** What stands at a place of a format: a plain character, or a conversion. */
  datatype Item = Plain(c: char) | Conversion(c: char, spec: Spec)

  function ItemAt(fmt: string, i: nat, args: seq<Arg>): (it: Item)
    requires i < |fmt|
    ensures it.Conversion? ==> i < it.spec.at
  {
    if fmt[i] != '%' then Plain(fmt[i])
    else
      var r := ScanSpec(fmt, i + 1, args);
      Conversion(At(fmt, r.at), r)
  }

  function TextOf(it: Item): string {
    match it
    case Plain(c) => [c]
    case Conversion(c, r) => Converted(c, r)
  }

  function ArgsAfter(it: Item, args: seq<Arg>): seq<Arg> {
    match it
    case Plain(_) => args
    case Conversion(c, r) => if TakesArg(c) then Rest(r.args) else r.args
  }

  /** The place of the next item; at the end of the string it stays. */
  function NextPlace(fmt: string, i: nat, it: Item): (j: nat)
    requires it.Conversion? ==> i < it.spec.at
    ensures i < j
  {
    match it
    case Plain(_) => i + 1
    case Conversion(_, r) => if At(fmt, r.at) == '\0' then r.at else r.at + 1
  }

  predicate AtEnd(fmt: string, i: nat) {
    i >= |fmt| || fmt[i] == '\0'
  }

  /** The whole text that a format stands for. */
  function Rendered(fmt: string, i: nat, args: seq<Arg>): string
    decreases |fmt| - i
  {
    if AtEnd(fmt, i) then []
    else
      var it := ItemAt(fmt, i, args);
      TextOf(it) + Rendered(fmt, NextPlace(fmt, i, it), ArgsAfter(it, args))
  }

  /** There is no %f in the format. */
  predicate NoFloat(fmt: string, i: nat, args: seq<Arg>)
    decreases |fmt| - i
  {
    AtEnd(fmt, i)
    || var it := ItemAt(fmt, i, args);
       (it.Conversion? ==> it.c != 'f') && NoFloat(fmt, NextPlace(fmt, i, it), ArgsAfter(it, args))
  }
}
