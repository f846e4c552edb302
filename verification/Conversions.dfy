/**
 What a conversion prints, told from its spelling in the format: '%', flags, a width, a qualifier and a letter.
 */
module Conversions {
  import opened Words
  import opened Format
  import Vsprintf

  // ---------- the spelling

  /** A width that stands in the format: digits that do not begin with the flag '0', a star, or nothing. */
  predicate IsWidth(s: string) {
    s == "" || s == "*" || (s[0] != '0' && forall i :: 0 <= i < |s| ==> '0' <= s[i] <= '9')
  }

  predicate FlagChar(c: char) {
    c == '-' || c == '+' || c == ' ' || c == '#' || c == '0'
  }

  predicate IsLetter(c: char) {
    'a' <= c <= 'z' || 'A' <= c <= 'Z' || c == '%'
  }

  /** The conversion at a place of a format. */
  datatype Spelling = Spelling(flags: string, width: string, qualifier: string, letter: char)

  ghost predicate Proper(s: Spelling) {
    && (forall i :: 0 <= i < |s.flags| ==> FlagChar(s.flags[i])) && IsWidth(s.width)
    && (s.qualifier == "" || s.qualifier == "h" || s.qualifier == "l")
    && IsLetter(s.letter) && s.letter != 'h' && s.letter != 'l'
  }

  function Length(s: Spelling): nat {
    2 + |s.flags| + |s.width| + |s.qualifier|
  }

  ghost predicate Stands(fmt: string, i: nat, s: Spelling) {
    var w := i + 1 + |s.flags|;
    var q := w + |s.width|;
    && Proper(s) && i + Length(s) <= |fmt|
    && fmt[i] == '%' && fmt[i + 1..w] == s.flags && fmt[w..q] == s.width
    && fmt[q..i + Length(s) - 1] == s.qualifier && fmt[i + Length(s) - 1] == s.letter
  }

  /** If there is a star, there is a word for it. */
  predicate HasArgs(s: Spelling, args: seq<Arg>) {
    s.width == "*" ==> args != [] && args[0].Int?
  }

  /** The argument for a star is a signed word. */
  function Star(s: Spelling, args: seq<Arg>): int
    requires HasArgs(s, args)
  {
    if s.width == "*" then Signed(args[0].w) else 0
  }

  /** The arguments behind that one. */
  function Behind(s: Spelling, args: seq<Arg>): seq<Arg>
    requires HasArgs(s, args)
  {
    if s.width == "*" then args[1..] else args
  }

  /** The width asked for, with -1 for none. */
  function WidthOf(s: Spelling, args: seq<Arg>): int
    requires HasArgs(s, args)
  {
    if s.width == "" then -1
    else if s.width != "*" then Parsed(s.width, 10)
    else if Star(s, args) < 0 then -Star(s, args) else Star(s, args)
  }

  predicate LeftOf(s: Spelling, args: seq<Arg>)
    requires HasArgs(s, args)
  {
    '-' in s.flags || Star(s, args) < 0
  }

  // ---------- scanning it

  /** The flags g are those of f and the characters. */
  ghost predicate FlagsAre(g: Flags, f: Flags, flags: string) {
    && g.left == (f.left || '-' in flags) && g.plus == (f.plus || '+' in flags)
    && g.space == (f.space || ' ' in flags) && g.special == (f.special || '#' in flags)
    && g.zeropad == (f.zeropad || '0' in flags) && g.sign == f.sign && g.large == f.large
  }

  lemma OneFlag(f: Flags, c: char)
    requires FlagChar(c)
    ensures FlagsAre(WithFlag(f, c), f, [c])
  {}

  lemma MoreFlags(g: Flags, h: Flags, f: Flags, a: string, b: string)
    requires FlagsAre(h, f, a) && FlagsAre(g, h, b)
    ensures FlagsAre(g, f, a + b)
  {}

  lemma {:induction false} FlagsScanned(fmt: string, i: nat, j: nat, f: Flags)
    requires i <= j < |fmt| && !FlagChar(fmt[j]) && forall k :: i <= k < j ==> FlagChar(fmt[k])
    ensures ScanFlags(fmt, i, f).1 == j && FlagsAre(ScanFlags(fmt, i, f).0, f, fmt[i..j])
    decreases j - i
  {
    if i < j {
      var h := WithFlag(f, fmt[i]);
      FlagsScanned(fmt, i + 1, j, h);
      OneFlag(f, fmt[i]);
      MoreFlags(ScanFlags(fmt, i + 1, h).0, h, f, [fmt[i]], fmt[i + 1..j]);
      assert [fmt[i]] + fmt[i + 1..j] == fmt[i..j];
    }
  }

  lemma {:induction false} NumberScanned(fmt: string, i: nat, j: nat, n: nat, done: string, whole: string)
    requires i <= j < |fmt| && !('0' <= fmt[j] <= '9') && forall k :: i <= k < j ==> '0' <= fmt[k] <= '9'
    requires n == Parsed(done, 10) && whole == done + fmt[i..j]
    ensures ScanNumber(fmt, i, n).0 == Parsed(whole, 10) && ScanNumber(fmt, i, n).1 == j
    decreases j - i
  {
    if i == j {
      assert whole == done;
    } else {
      var c := fmt[i];
      ParsedNext(done, c);
      assert whole == (done + [c]) + fmt[i + 1..j];
      NumberScanned(fmt, i + 1, j, n * 10 + DigitValue(c), done + [c], whole);
    }
  }

  lemma ParsedNext(done: string, c: char)
    ensures Parsed(done + [c], 10) == Parsed(done, 10) * 10 + DigitValue(c)
  {
    assert (done + [c])[..|done|] == done;
  }

  lemma StarScanned(fmt: string, i: nat, f: Flags, args: seq<Arg>)
    requires At(fmt, i) == '*' && args != [] && args[0].Int?
    ensures var w, r := Signed(args[0].w), ScanWidth(fmt, i, f, args);
            && r.flags == f.(left := f.left || w < 0) && r.width == (if w < 0 then -w else w)
            && r.qualifier == '\0' && r.at == i + 1 && r.args == args[1..]
  {}

  lemma DigitsScanned(fmt: string, i: nat, digits: string, f: Flags, args: seq<Arg>)
    requires digits != "" && i + |digits| < |fmt| && fmt[i..i + |digits|] == digits
    requires !('0' <= fmt[i + |digits|] <= '9') && forall j :: 0 <= j < |digits| ==> '0' <= digits[j] <= '9'
    ensures var r := ScanWidth(fmt, i, f, args);
            && r.flags == f && r.width == Parsed(digits, 10)
            && r.qualifier == '\0' && r.at == i + |digits| && r.args == args
  {
    forall k | i <= k < i + |digits| ensures '0' <= fmt[k] <= '9' {
      assert fmt[k] == digits[k - i];
    }
    assert [] + digits == digits;
    NumberScanned(fmt, i, i + |digits|, 0, [], digits);
  }

  /** No width. */
  lemma NothingScanned(fmt: string, i: nat, f: Flags, args: seq<Arg>)
    requires IsLetter(At(fmt, i))
    ensures ScanWidth(fmt, i, f, args) == Spec(f, -1, '\0', i, args)
  {}

  ghost predicate WidthRead(r: Spec, i: nat, s: Spelling, f: Flags, args: seq<Arg>)
    requires HasArgs(s, args)
  {
    && r.flags == f.(left := f.left || Star(s, args) < 0) && r.width == WidthOf(s, args)
    && r.qualifier == '\0' && r.at == i + |s.width| && r.args == Behind(s, args)
  }

  lemma WidthScanned(fmt: string, i: nat, s: Spelling, f: Flags, args: seq<Arg>)
    requires Proper(s) && HasArgs(s, args) && i + |s.width| < |fmt| && fmt[i..i + |s.width|] == s.width
    requires IsLetter(fmt[i + |s.width|])
    ensures WidthRead(ScanWidth(fmt, i, f, args), i, s, f, args)
  {
    var r := ScanWidth(fmt, i, f, args);
    if s.width == "" {
      NothingScanned(fmt, i, f, args);
    } else if s.width == "*" {
      assert fmt[i] == s.width[0];
      StarScanned(fmt, i, f, args);
    } else {
      DigitsScanned(fmt, i, s.width, f, args);
      NoStar(r, i, s, f, args);
    }
  }

  lemma NoStar(r: Spec, i: nat, s: Spelling, f: Flags, args: seq<Arg>)
    requires HasArgs(s, args) && s.width != "" && s.width != "*" && r.flags == f && r.width == Parsed(s.width, 10)
    requires r.qualifier == '\0' && r.at == i + |s.width| && r.args == args
    ensures WidthRead(r, i, s, f, args)
  {}

  /** What the spelling means. */
  ghost predicate Means(r: Spec, i: nat, s: Spelling, args: seq<Arg>)
    requires HasArgs(s, args)
  {
    && FlagsAre(r.flags, NO_FLAGS.(left := Star(s, args) < 0), s.flags) && r.width == WidthOf(s, args)
    && r.qualifier == (if s.qualifier == "" then '\0' else s.qualifier[0])
    && r.at == i + Length(s) - 1 && r.args == Behind(s, args)
  }

  /** And that is how it is scanned. */
  lemma SpecIs(fmt: string, i: nat, s: Spelling, args: seq<Arg>)
    requires Stands(fmt, i, s) && HasArgs(s, args)
    ensures Means(ScanSpec(fmt, i + 1, args), i, s, args)
  {
    var w := i + 1 + |s.flags|;
    var q := w + |s.width|;
    Follows(fmt, i, s);
    forall k | i + 1 <= k < w ensures FlagChar(fmt[k]) {
      assert fmt[k] == s.flags[k - i - 1];
    }
    FlagsScanned(fmt, i + 1, w, NO_FLAGS);
    var f := ScanFlags(fmt, i + 1, NO_FLAGS).0;
    WidthScanned(fmt, w, s, f, args);
    QualifierScanned(fmt, ScanWidth(fmt, w, f, args), s);
    assert FlagsAre(f.(left := f.left || Star(s, args) < 0), NO_FLAGS.(left := Star(s, args) < 0), s.flags);
  }

  lemma QualifierScanned(fmt: string, r: Spec, s: Spelling)
    requires Proper(s) && r.qualifier == '\0' && r.at < |fmt|
    requires fmt[r.at] == if s.qualifier == "" then s.letter else s.qualifier[0]
    ensures ScanQualifier(fmt, r)
            == r.(qualifier := if s.qualifier == "" then '\0' else s.qualifier[0], at := r.at + |s.qualifier|)
  {}

  /** What comes behind the flags, and behind the width. */
  lemma Follows(fmt: string, i: nat, s: Spelling)
    requires Stands(fmt, i, s)
    ensures var w := i + 1 + |s.flags|; var q := w + |s.width|;
            && fmt[q] == (if s.qualifier == "" then s.letter else s.qualifier[0]) && IsLetter(fmt[q])
            && !FlagChar(fmt[w])
  {
    var w := i + 1 + |s.flags|;
    var q := w + |s.width|;
    if s.qualifier != "" {
      assert fmt[q..q + 1][0] == fmt[q];
    }
    if s.width != "" {
      assert fmt[w..q][0] == fmt[w];
    }
  }

  // ---------- what it prints

  /** The number that the word is for the conversion: signed for d and i, and of 16 bits for the qualifier h. */
  function Value(s: Spelling, w: Word): int {
    var signed := s.letter == 'd' || s.letter == 'i';
    if s.qualifier != "h" then (if signed then Signed(w) else w)
    else if signed && w % 0x1_0000 >= 0x8000 then w % 0x1_0000 - 0x1_0000 else w % 0x1_0000
  }

  /** Only d and i have a sign. */
  function SignText(s: Spelling, value: int): string {
    if s.letter != 'd' && s.letter != 'i' then ""
    else if value < 0 then "-" else if '+' in s.flags then "+" else if ' ' in s.flags then " " else ""
  }

  /** What fills up to the width goes behind, or is zeros behind the sign, or goes in front. */
  ghost predicate Filled(left: bool, zero: bool, width: int, need: nat, before: int, zeros: int, after: int) {
    && before + zeros + after == width - need
    && if left then before == 0 && zeros == 0
       else if zero then before == 0 && after == 0
       else zeros == 0 && after == 0
  }

  /** The digits of a number in a base, with no needless zero in front. */
  ghost predicate Writes(digits: string, n: int, base: nat, large: bool) {
    && Parsed(digits, base) == n && digits != "" && (|digits| > 1 ==> digits[0] != '0')
    && forall i :: 0 <= i < |digits| ==> IsHex(digits[i], large)
  }

  predicate ForNumbers(c: char) {
    c == 'd' || c == 'i' || c == 'u' || c == 'x' || c == 'X' || c == 'o'
  }

  /**
   A number: spaces, the sign, zeros, the digits and spaces. d, i and u are decimal, x and X hexadecimal in their case,
   and so is o. The text behind the conversion follows.
   */
  lemma NumberIs(fmt: string, i: nat, s: Spelling, args: seq<Arg>)
    returns (before: int, zeros: int, after: int, digits: string, text: string)
    requires Stands(fmt, i, s) && HasArgs(s, args) && ForNumbers(s.letter)
    requires Behind(s, args) != [] && Behind(s, args)[0].Int?
    ensures var value := Value(s, Behind(s, args)[0].w);
            var sign := SignText(s, value);
            && Writes(digits, if value < 0 then -value else value,
                      if s.letter == 'd' || s.letter == 'i' || s.letter == 'u' then 10 else 16, s.letter == 'X')
            && Filled(LeftOf(s, args), '0' in s.flags, WidthOf(s, args), |sign| + |digits|, before, zeros, after)
            && text == Repeat(' ', before) + sign + (Repeat('0', zeros) + digits) + Repeat(' ', after)
    ensures Prints(fmt, i, args, text, i + Length(s), Behind(s, args)[1..])
  {
    var r := ScanSpec(fmt, i + 1, args);
    var f := FlagsOf(r.flags, s.letter);
    var value := Value(s, Behind(s, args)[0].w);
    SpecIs(fmt, i, s, args);
    NumberMeant(r, i, s, args);
    digits := Body(value, BaseOf(s.letter), f);
    DigitsParsed(Magnitude(value), BaseOf(s.letter), f.large);
    DigitsPlain(Magnitude(value), BaseOf(s.letter), f.large);
    before, zeros, after := FieldParts(value, BaseOf(s.letter), r.width, f);
    text := Converted(s.letter, r);
    ItemIs(fmt, i, s, args, r, Behind(s, args)[1..]);
  }

  lemma NumberMeant(r: Spec, i: nat, s: Spelling, args: seq<Arg>)
    requires Proper(s) && HasArgs(s, args) && ForNumbers(s.letter) && Means(r, i, s, args)
    requires Behind(s, args) != [] && Behind(s, args)[0].Int?
    ensures var value, f := Value(s, Behind(s, args)[0].w), FlagsOf(r.flags, s.letter);
            && Converted(s.letter, r) == Field(value, BaseOf(s.letter), r.width, f)
            && SignOf(value, f) == SignText(s, value) && f.large == (s.letter == 'X')
            && f.left == LeftOf(s, args) && f.zeropad == ('0' in s.flags)
            && BaseOf(s.letter) == if s.letter == 'd' || s.letter == 'i' || s.letter == 'u' then 10 else 16
  {}

  /** The numbers whose sign is not counted behind the end of the buffer: with a sign, filled other than in front. */
  lemma LooseIs(fmt: string, i: nat, s: Spelling, args: seq<Arg>)
    requires Stands(fmt, i, s) && HasArgs(s, args) && ForNumbers(s.letter)
    requires Behind(s, args) != [] && Behind(s, args)[0].Int?
    ensures var value, r := Value(s, Behind(s, args)[0].w), ScanSpec(fmt, i + 1, args);
            var base := if s.letter == 'd' || s.letter == 'i' || s.letter == 'u' then 10 else 16;
            Vsprintf.LooseConversion(s.letter, r)
            <==> && SignText(s, value) != "" && (LeftOf(s, args) || '0' in s.flags)
                 && WidthOf(s, args) > |Digits(if value < 0 then -value else value, base, s.letter == 'X')|
  {
    var r, value := ScanSpec(fmt, i + 1, args), Value(s, Behind(s, args)[0].w);
    SpecIs(fmt, i, s, args);
    NumberMeant(r, i, s, args);
    NumberIsValue(r, i, s, args);
    assert Vsprintf.LooseConversion(s.letter, r)
           == Vsprintf.Loose(value, BaseOf(s.letter), r.width, FlagsOf(r.flags, s.letter));
  }

  lemma NumberIsValue(r: Spec, i: nat, s: Spelling, args: seq<Arg>)
    requires Proper(s) && HasArgs(s, args) && ForNumbers(s.letter) && Means(r, i, s, args)
    requires Behind(s, args) != [] && Behind(s, args)[0].Int?
    ensures NumberOf(WordOf(r.args), r.qualifier, FlagsOf(r.flags, s.letter).sign) == Value(s, Behind(s, args)[0].w)
  {}

  /** The conversion is the next item, and takes its argument. */
  lemma ItemIs(fmt: string, i: nat, s: Spelling, args: seq<Arg>, r: Spec, rest: seq<Arg>)
    requires Stands(fmt, i, s) && HasArgs(s, args) && r == ScanSpec(fmt, i + 1, args)
    requires rest == if TakesArg(s.letter) then Rest(Behind(s, args)) else Behind(s, args)
    ensures Prints(fmt, i, args, Converted(s.letter, r), i + Length(s), rest)
  {
    SpecIs(fmt, i, s, args);
    LetterAt(fmt, i, s, r, args);
    ItemEnds(fmt, i, s, r, args);
  }

  /** What stands at the place prints the text, and the format goes on at next with the rest of the arguments. */
  predicate Prints(fmt: string, i: nat, args: seq<Arg>, text: string, next: nat, rest: seq<Arg>) {
    && !AtEnd(fmt, i)
    && var it := ItemAt(fmt, i, args);
       TextOf(it) == text && NextPlace(fmt, i, it) == next && ArgsAfter(it, args) == rest
  }

  /** So the whole text begins with that. */
  lemma RenderedFirst(fmt: string, i: nat, args: seq<Arg>, text: string, next: nat, rest: seq<Arg>)
    requires Prints(fmt, i, args, text, next, rest)
    ensures Rendered(fmt, i, args) == text + Rendered(fmt, next, rest)
  {}

  lemma LetterAt(fmt: string, i: nat, s: Spelling, r: Spec, args: seq<Arg>)
    requires Stands(fmt, i, s) && HasArgs(s, args) && Means(r, i, s, args) && r == ScanSpec(fmt, i + 1, args)
    ensures At(fmt, r.at) == s.letter != '\0' && ItemAt(fmt, i, args) == Conversion(s.letter, r)
  {}

  lemma ItemEnds(fmt: string, i: nat, s: Spelling, r: Spec, args: seq<Arg>)
    requires HasArgs(s, args) && Means(r, i, s, args) && At(fmt, r.at) == s.letter != '\0' && i < r.at
    ensures NextPlace(fmt, i, Conversion(s.letter, r)) == i + Length(s)
    ensures ArgsAfter(Conversion(s.letter, r), args)
            == if TakesArg(s.letter) then Rest(Behind(s, args)) else Behind(s, args)
  {}

  /** A text in a field: what fills it goes behind with '-', and else in front. */
  ghost predicate Padded(text: string, padded: string, width: int, left: bool) {
    exists n: nat ::
      && n == (if width > |text| then width - |text| else 0)
      && padded == if left then text + Repeat(' ', n) else Repeat(' ', n) + text
  }

  lemma PadIs(text: string, width: int, left: bool)
    ensures Padded(text, PadText(text, width, left), width, left)
  {
    var n: nat := if width > |text| then width - |text| else 0;
    assert Repeat(' ', width - |text|) == Repeat(' ', n);
  }

  /** %c is a character of 8 bits in a field. */
  lemma CharacterIs(fmt: string, i: nat, s: Spelling, args: seq<Arg>) returns (text: string)
    requires Stands(fmt, i, s) && HasArgs(s, args) && s.letter == 'c'
    requires Behind(s, args) != [] && Behind(s, args)[0].Int?
    ensures Padded([(Behind(s, args)[0].w % 256) as char], text, WidthOf(s, args), LeftOf(s, args))
    ensures Prints(fmt, i, args, text, i + Length(s), Behind(s, args)[1..])
  {
    var r := ScanSpec(fmt, i + 1, args);
    SpecIs(fmt, i, s, args);
    text := Converted('c', r);
    ItemIs(fmt, i, s, args, r, Behind(s, args)[1..]);
    PadIs([(Behind(s, args)[0].w % 256) as char], r.width, r.flags.left);
  }

  /** The part of a string before the first NUL. */
  ghost predicate Ends(s: string, text: string) {
    && |text| <= |s| && text == s[..|text|] && '\0' !in text && (|text| < |s| ==> s[|text|] == '\0')
  }

  lemma {:induction false} UpToNulIs(s: string)
    ensures Ends(s, UpToNul(s))
  {
    if s != "" && s[0] != '\0' {
      UpToNulIs(s[1..]);
      var t := UpToNul(s[1..]);
      assert s[..|t| + 1] == [s[0]] + s[1..][..|t|];
    }
  }

  /** %s is the string up to NUL in a field, and "(NULL)" for none. */
  lemma StringIs(fmt: string, i: nat, s: Spelling, args: seq<Arg>) returns (body: string, text: string)
    requires Stands(fmt, i, s) && HasArgs(s, args) && s.letter == 's'
    requires Behind(s, args) != [] && !Behind(s, args)[0].Int?
    ensures if Behind(s, args)[0].Text? then Ends(Behind(s, args)[0].s, body) else body == "(NULL)"
    ensures Padded(body, text, WidthOf(s, args), LeftOf(s, args))
    ensures Prints(fmt, i, args, text, i + Length(s), Behind(s, args)[1..])
  {
    var r := ScanSpec(fmt, i + 1, args);
    SpecIs(fmt, i, s, args);
    body, text := StringOf(r.args), Converted('s', r);
    ItemIs(fmt, i, s, args, r, Behind(s, args)[1..]);
    if r.args[0].Text? {
      UpToNulIs(r.args[0].s);
    }
    PadIs(body, r.width, r.flags.left);
  }

  /** %p is the word in hexadecimal: with zeros up to eight digits if no width is given. */
  lemma PointerIs(fmt: string, i: nat, s: Spelling, args: seq<Arg>)
    returns (before: int, zeros: int, after: int, digits: string, text: string)
    requires Stands(fmt, i, s) && HasArgs(s, args) && s.letter == 'p'
    requires Behind(s, args) != [] && Behind(s, args)[0].Int?
    ensures Writes(digits, Behind(s, args)[0].w, 16, false)
    ensures Filled(LeftOf(s, args), s.width == "" || '0' in s.flags, if s.width == "" then 8 else WidthOf(s, args),
                   |digits|, before, zeros, after)
    ensures text == Repeat(' ', before) + "" + (Repeat('0', zeros) + digits) + Repeat(' ', after)
    ensures Prints(fmt, i, args, text, i + Length(s), Behind(s, args)[1..])
  {
    var r := ScanSpec(fmt, i + 1, args);
    var w := Behind(s, args)[0].w;
    SpecIs(fmt, i, s, args);
    text := Converted('p', r);
    ItemIs(fmt, i, s, args, r, Behind(s, args)[1..]);
    WidthGiven(s, args);
    var f := if s.width == "" then r.flags.(zeropad := true) else r.flags;
    digits := Body(w, 16, f);
    DigitsParsed(w, 16, false);
    DigitsPlain(w, 16, false);
    before, zeros, after := FieldParts(w, 16, if s.width == "" then 8 else r.width, f);
  }

  lemma WidthGiven(s: Spelling, args: seq<Arg>)
    requires HasArgs(s, args)
    ensures WidthOf(s, args) == -1 <==> s.width == ""
  {}

  /** %% is a percent sign, and a letter that names no conversion is printed behind one; neither takes an argument. */
  lemma OthersAre(fmt: string, i: nat, s: Spelling, args: seq<Arg>)
    requires Stands(fmt, i, s) && HasArgs(s, args) && !ForNumbers(s.letter)
    requires s.letter != 'c' && s.letter != 's' && s.letter != 'p' && s.letter != 'f'
    ensures Prints(fmt, i, args, if s.letter == '%' then "%" else ['%', s.letter], i + Length(s), Behind(s, args))
  {
    var r := ScanSpec(fmt, i + 1, args);
    var text := if s.letter == '%' then "%" else ['%', s.letter];
    OtherText(s.letter, r, text);
    ItemIs(fmt, i, s, args, r, Behind(s, args));
  }

  lemma OtherText(c: char, r: Spec, text: string)
    requires !ForNumbers(c) && c != 'c' && c != 's' && c != 'p' && c != 'f' && c != '\0'
    requires text == if c == '%' then "%" else ['%', c]
    ensures Converted(c, r) == text && !TakesArg(c)
  {}

  /** Everything else is printed as it stands, up to NUL or the end; a single '%' there is printed too. */
  lemma PlainIs(fmt: string, i: nat, args: seq<Arg>)
    ensures i < |fmt| && fmt[i] != '%' && fmt[i] != '\0' ==>
              Rendered(fmt, i, args) == [fmt[i]] + Rendered(fmt, i + 1, args)
    ensures i >= |fmt| || fmt[i] == '\0' ==> Rendered(fmt, i, args) == ""
    ensures i + 1 == |fmt| && fmt[i] == '%' ==> Rendered(fmt, i, args) == "%"
  {
    if i + 1 == |fmt| && fmt[i] == '%' {
      var it := Conversion('\0', ScanSpec(fmt, i + 1, args));
      assert ItemAt(fmt, i, args) == it && TextOf(it) == "%";
      RenderedFirst(fmt, i, args, TextOf(it), NextPlace(fmt, i, it), ArgsAfter(it, args));
    }
  }
}
