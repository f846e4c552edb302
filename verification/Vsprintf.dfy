/** lib/vsprintf.c in place: vsnprintf and print_number write into a buffer of limited size. */
module Vsprintf {
  import opened Format
  import opened Words

  // ---------- what the buffer holds

  /** The first size characters of the text are in the buffer, and the rest of it is as it was. */
  ghost predicate Shows(mem: seq<char>, was: seq<char>, size: nat, text: string) {
    && |mem| == |was| && 0 < size <= |was|
    && forall i :: 0 <= i < |mem| ==> mem[i] == if i < size && i < |text| then text[i] else was[i]
  }

  /** The place to write at: behind the text, or further on if that is outside anyway. */
  predicate Behind(str: nat, length: nat, size: nat) {
    str == length || (str > length >= size)
  }

  ghost predicate Out(buf: array<char>, was: seq<char>, size: nat, str: nat, text: string)
    reads buf
  {
    Shows(buf[..], was, size, text) && Behind(str, |text|, size)
  }

  lemma ShowsMore(mem: seq<char>, was: seq<char>, size: nat, text: string, c: char, after: seq<char>)
    requires Shows(mem, was, size, text)
    requires after == if |text| < size then mem[|text| := c] else mem
    ensures Shows(after, was, size, text + [c])
  {}

  /** Texts that agree on the first size characters look the same. */
  lemma ShowsSame(mem: seq<char>, was: seq<char>, size: nat, front: string, a: string, b: string)
    requires Shows(mem, was, size, front + a) && size <= |front|
    ensures Shows(mem, was, size, front + b)
  {}

  /** if (str <= end) *str = c; ++str; */
  method Put(buf: array<char>, size: nat, str: nat, c: char, ghost was: seq<char>, ghost text: string)
    returns (next: nat)
    requires Out(buf, was, size, str, text)
    modifies buf
    ensures Out(buf, was, size, next, text + [c]) && next == str + 1
  {
    ghost var mem := buf[..];
    if str < size {
      buf[str] := c;
    }
    ShowsMore(mem, was, size, text, c, buf[..]);
    return str + 1;
  }

  /** The loops while (n-- > 0) that put the same character again and again. */
  method Pad(buf: array<char>, size: nat, str: nat, c: char, n: int, ghost was: seq<char>, ghost text: string)
    returns (next: nat)
    requires Out(buf, was, size, str, text)
    modifies buf
    ensures Out(buf, was, size, next, text + Repeat(c, n)) && next == str + |Repeat(c, n)|
  {
    next := str;
    var k := 0;
    assert text + Repeat(c, 0) == text;
    while k < n
      invariant 0 <= k && (k <= n || k == 0)
      invariant Out(buf, was, size, next, text + Repeat(c, k)) && next == str + k
    {
      next := Put(buf, size, next, c, was, text + Repeat(c, k));
      assert text + Repeat(c, k) + [c] == text + Repeat(c, k + 1);
      k := k + 1;
    }
    assert n <= 0 ==> Repeat(c, n) == Repeat(c, 0);
  }

  // ---------- print_number

  lemma ReverseOne(c: char)
    ensures Reverse([c]) == [c]
  {
    assert [c][1..] == [];
  }

  method MakeDigits(num: nat, base: Base, large: bool) returns (tmp: string)
    ensures Reverse(tmp) == Digits(num, base, large)
  {
    if num == 0 {
      ReverseOne('0');
      return ['0'];
    }
    tmp := DivideAll(num, base, large);
  }

  /** The loop over divide. */
  method DivideAll(num: nat, base: Base, large: bool) returns (tmp: string)
    ensures tmp == LowFirst(num, base, large)
  {
    tmp := [];
    var n := num;
    while n != 0
      invariant tmp + LowFirst(n, base, large) == LowFirst(num, base, large)
      decreases n
    {
      var d, q := DivMod(n, base).0, DivMod(n, base).1;
      DigitBehind(tmp, n, base, large);
      tmp := tmp + [DigitChar(d, large)];
      n := q;
    }
  }

  lemma DigitBehind(tmp: string, n: nat, base: Base, large: bool)
    requires n > 0
    ensures var d, q := DivMod(n, base).0, DivMod(n, base).1;
            tmp + LowFirst(n, base, large) == (tmp + [DigitChar(d, large)]) + LowFirst(q, base, large)
  {}

  /** The digits come out of tmp from its end. */
  method PutDigits(buf: array<char>, size: nat, str: nat, tmp: string, ghost was: seq<char>, ghost text: string)
    returns (next: nat)
    requires Out(buf, was, size, str, text)
    modifies buf
    ensures Out(buf, was, size, next, text + Reverse(tmp)) && next == str + |tmp|
  {
    next := str;
    var i := |tmp|;
    assert text + Reverse(tmp[i..]) == text;
    while i > 0
      invariant i <= |tmp| && next == str + |tmp| - i
      invariant Out(buf, was, size, next, text + Reverse(tmp[i..]))
    {
      i := i - 1;
      next := Put(buf, size, next, tmp[i], was, text + Reverse(tmp[i + 1..]));
      assert tmp[i..][1..] == tmp[i + 1..];
      assert text + Reverse(tmp[i + 1..]) + [tmp[i]] == text + Reverse(tmp[i..]);
    }
    assert tmp[0..] == tmp;
  }

  /**
   If the sign of such a field falls behind the end of the buffer, print_number does not count it against the width.
   */
  predicate Loose(num: int, base: Base, width: int, f: Flags) {
    SignOf(num, f) != "" && (f.left || f.zeropad) && width > |Body(num, base, f)|
  }

  function Excess(loose: bool, str: nat, size: nat): nat {
    if loose && str >= size then 1 else 0
  }

  /** The spaces in front, unless there is padding with zeros or on the right; left is what the width leaves then. */
  method PutSpaces(buf: array<char>, size: nat, str: nat, sign: string, gap: int, f: Flags, ghost was: seq<char>,
                   ghost text: string)
    returns (next: nat, left: int)
    requires Out(buf, was, size, str, text) && |sign| <= 1
    modifies buf
    ensures var n := if f.left || f.zeropad then 0 else gap - |sign|;
            Out(buf, was, size, next, text + Repeat(' ', n)) && next == str + |Repeat(' ', n)|
    ensures if f.left || f.zeropad then left == gap else left < 0
  {
    next, left := str, gap;
    assert text + Repeat(' ', 0) == text;
    if !f.left && !f.zeropad {
      if sign != "" && left > 0 {
        left := left - 1;
      }
      next := Pad(buf, size, str, ' ', left, was, text);
      assert Repeat(' ', left) == Repeat(' ', gap - |sign|);
      left := if left > 0 then -1 else left - 1;
    }
  }

  method PutSign(buf: array<char>, size: nat, str: nat, sign: string, gap: int, ghost was: seq<char>,
                 ghost text: string)
    returns (next: nat, left: int)
    requires Out(buf, was, size, str, text) && |sign| <= 1
    modifies buf
    ensures Out(buf, was, size, next, text + sign) && next == str + |sign|
    ensures left == gap - if str < size then |sign| else 0
  {
    next, left := str, gap;
    if sign == "" {
      assert text + sign == text;
    } else {
      if str < size {
        left := left - 1;
      }
      next := Put(buf, size, str, sign[0], was, text);
      assert [sign[0]] == sign;
    }
  }

  /** What print_number puts after the sign, when the width still asks for gap characters. */
  function AfterSign(digits: string, gap: int, left: bool): string {
    if left then digits + Repeat(' ', gap) else Repeat('0', gap) + digits
  }

  /** print_number after the sign: zeros or spaces, digits, spaces. */
  method PutRest(buf: array<char>, size: nat, str: nat, gap: int, tmp: string, f: Flags, ghost was: seq<char>,
                 ghost text: string)
    returns (next: nat)
    requires Out(buf, was, size, str, text) && (f.left || f.zeropad || gap < 0)
    modifies buf
    ensures Out(buf, was, size, next, text + AfterSign(Reverse(tmp), gap, f.left))
    ensures next == str + |AfterSign(Reverse(tmp), gap, f.left)|
  {
    next := str;
    if f.left {
      next := PutDigits(buf, size, next, tmp, was, text);
      next := Pad(buf, size, next, ' ', gap, was, text + Reverse(tmp));
      assert text + Reverse(tmp) + Repeat(' ', gap) == text + (Reverse(tmp) + Repeat(' ', gap));
    } else {
      next := Pad(buf, size, next, if f.zeropad then '0' else ' ', gap, was, text);
      assert gap < 0 ==> Repeat(' ', gap) == Repeat('0', gap);
      next := PutDigits(buf, size, next, tmp, was, text + Repeat('0', gap));
      assert text + Repeat('0', gap) + Reverse(tmp) == text + (Repeat('0', gap) + Reverse(tmp));
    }
  }

  /** The number of spaces in front of the sign. */
  function Spaces(num: int, base: Base, width: int, f: Flags): int {
    if f.left || f.zeropad then 0 else width - |Body(num, base, f)| - |SignOf(num, f)|
  }

  /** Where the sign was counted, the pieces are the field. */
  lemma Counted(num: int, base: Base, width: int, f: Flags, gap: int, text: string)
    requires if f.left || f.zeropad then gap == width - |Body(num, base, f)| - |SignOf(num, f)| else gap < 0
    ensures text + Repeat(' ', Spaces(num, base, width, f)) + SignOf(num, f) + AfterSign(Body(num, base, f), gap,
                                                                                         f.left) ==
            text + Field(num, base, width, f)
  {
    var sign, digits := SignOf(num, f), Body(num, base, f);
    if f.left {
      OnTheLeft(text, sign, digits, Repeat(' ', gap));
    } else if f.zeropad {
      OnTheLeft(text, sign, Repeat('0', gap), digits);
    } else {
      OnTheRight(text, Repeat(' ', Spaces(num, base, width, f)), sign, digits);
    }
  }

  lemma OnTheLeft(text: string, a: string, b: string, c: string)
    ensures text + Repeat(' ', 0) + a + (b + c) == text + (a + b + c)
  {}

  lemma OnTheRight(text: string, a: string, b: string, c: string)
    ensures text + a + b + c == text + (a + b + c)
  {}

  /**
   Where it was not, the buffer shows the field all the same, but the place is one too far if there is any padding.
   */
  lemma Uncounted(mem: seq<char>, was: seq<char>, size: nat, text: string, num: int, base: Base, width: int, f: Flags)
    requires size <= |text| && (f.left || f.zeropad) && SignOf(num, f) != ""
    requires Shows(mem, was, size,
                   text + SignOf(num, f) + AfterSign(Body(num, base, f), width - |Body(num, base, f)|, f.left))
    ensures Shows(mem, was, size, text + Field(num, base, width, f))
    ensures 1 + |AfterSign(Body(num, base, f), width - |Body(num, base, f)|, f.left)| ==
            |Field(num, base, width, f)| + if width > |Body(num, base, f)| then 1 else 0
  {
    var sign, rest := SignOf(num, f), AfterSign(Body(num, base, f), width - |Body(num, base, f)|, f.left);
    assert text + sign + rest == text + (sign + rest);
    ShowsSame(mem, was, size, text, sign + rest, Field(num, base, width, f));
    FieldLength(num, base, width, f);
  }

  method PrintNumber(buf: array<char>, size: nat, str: nat, num: int, base: Base, width: int, f: Flags,
                     ghost was: seq<char>, ghost text: string)
    returns (next: nat)
    requires Out(buf, was, size, str, text)
    modifies buf
    ensures Out(buf, was, size, next, text + Field(num, base, width, f))
    ensures next == str + |Field(num, base, width, f)| + Excess(Loose(num, base, width, f), str, size)
  {
    var sign := SignOf(num, f);
    var tmp := MakeDigits(Magnitude(num), base, f.large);
    next := PutField(buf, size, str, sign, tmp, num, base, width, f, was, text);
  }

  method PutField(buf: array<char>, size: nat, str: nat, sign: string, tmp: string, ghost num: int, ghost base: Base,
                  width: int,
                  f: Flags, ghost was: seq<char>, ghost text: string)
    returns (next: nat)
    requires Out(buf, was, size, str, text) && sign == SignOf(num, f) && Reverse(tmp) == Body(num, base, f)
    modifies buf
    ensures Out(buf, was, size, next, text + Field(num, base, width, f))
    ensures next == str + |Field(num, base, width, f)| + Excess(Loose(num, base, width, f), str, size)
  {
    var gap: int;
    ghost var spaces := text + Repeat(' ', Spaces(num, base, width, f));
    next, gap := PutSpaces(buf, size, str, sign, width - |tmp|, f, was, text);
    next, gap := PutSign(buf, size, next, sign, gap, was, spaces);
    next := PutRest(buf, size, next, gap, tmp, f, was, spaces + sign);
    if (f.left || f.zeropad) && str >= size && sign != "" {
      assert spaces == text;
      Uncounted(buf[..], was, size, text, num, base, width, f);
    } else {
      Counted(num, base, width, f, gap, text);
      FieldLength(num, base, width, f);
    }
  }

  // ---------- the parts of a format

  method ProcessFlags(fmt: string, i: nat) returns (f: Flags, j: nat)
    ensures (f, j) == ScanFlags(fmt, i, NO_FLAGS)
  {
    f, j := NO_FLAGS, i;
    while j < |fmt| && IsFlag(fmt[j])
      invariant ScanFlags(fmt, j, f) == ScanFlags(fmt, i, NO_FLAGS)
      decreases |fmt| - j
    {
      f := WithFlag(f, fmt[j]);
      j := j + 1;
    }
  }

  method SkipAtoi(fmt: string, i: nat) returns (n: nat, j: nat)
    ensures (n, j) == ScanNumber(fmt, i, 0)
  {
    n, j := 0, i;
    while j < |fmt| && IsDigit(fmt[j])
      invariant ScanNumber(fmt, j, n) == ScanNumber(fmt, i, 0)
      decreases |fmt| - j
    {
      n := n * 10 + DigitValue(fmt[j]);
      j := j + 1;
    }
  }

  method ProcessSpec(fmt: string, i: nat, args: seq<Arg>) returns (r: Spec)
    ensures r == ScanSpec(fmt, i, args)
  {
    var f, j := ProcessFlags(fmt, i);
    var width := -1;
    var rest := args;
    if IsDigit(At(fmt, j)) {
      width, j := SkipAtoi(fmt, j);
    } else if At(fmt, j) == '*' {
      j := j + 1;
      width := Signed(WordOf(args));
      rest := Rest(args);
      if width < 0 {
        width := -width;
        f := f.(left := true);
      }
    }
    r := Spec(f, width, '\0', j, rest);
    if At(fmt, j) == 'h' || At(fmt, j) == 'l' {
      r := r.(qualifier := At(fmt, j), at := j + 1);
    }
  }

  method PutString(buf: array<char>, size: nat, str: nat, s: string, ghost was: seq<char>, ghost text: string)
    returns (next: nat)
    requires Out(buf, was, size, str, text)
    modifies buf
    ensures Out(buf, was, size, next, text + s) && next == str + |s|
  {
    next := str;
    var i := 0;
    assert text + s[..0] == text;
    while i < |s|
      invariant i <= |s| && next == str + i && Out(buf, was, size, next, text + s[..i])
    {
      next := Put(buf, size, next, s[i], was, text + s[..i]);
      assert text + s[..i] + [s[i]] == text + s[..i + 1];
      i := i + 1;
    }
    assert s[..|s|] == s;
  }

  /** %c and %s */
  method PutPadded(buf: array<char>, size: nat, str: nat, s: string, width: int, left: bool, ghost was: seq<char>,
                   ghost text: string)
    returns (next: nat)
    requires Out(buf, was, size, str, text)
    modifies buf
    ensures Out(buf, was, size, next, text + PadText(s, width, left)) && next == str + |PadText(s, width, left)|
  {
    if left {
      next := PutString(buf, size, str, s, was, text);
      next := Pad(buf, size, next, ' ', width - |s|, was, text + s);
      assert text + s + Repeat(' ', width - |s|) == text + (s + Repeat(' ', width - |s|));
    } else {
      next := Pad(buf, size, str, ' ', width - |s|, was, text);
      next := PutString(buf, size, next, s, was, text + Repeat(' ', width - |s|));
      assert text + Repeat(' ', width - |s|) + s == text + (Repeat(' ', width - |s|) + s);
    }
  }

  predicate LooseConversion(c: char, r: Spec) {
    IsNumber(c)
    && Loose(NumberOf(WordOf(r.args), r.qualifier, FlagsOf(r.flags, c).sign), BaseOf(c), r.width, FlagsOf(r.flags, c))
  }

  method PutConversion(buf: array<char>, size: nat, str: nat, c: char, r: Spec, ghost was: seq<char>,
                       ghost text: string)
    returns (next: nat)
    requires Out(buf, was, size, str, text) && c != 'f' && !r.flags.sign
    modifies buf
    ensures Out(buf, was, size, next, text + Converted(c, r))
            && next == str + |Converted(c, r)| + Excess(LooseConversion(c, r), str, size)
  {
    if c == 'c' {
      next := PutPadded(buf, size, str, [(WordOf(r.args) % 256) as char], r.width, r.flags.left, was, text);
    } else if c == 's' {
      next := PutPadded(buf, size, str, StringOf(r.args), r.width, r.flags.left, was, text);
    } else if c == 'p' {
      var width, f := r.width, r.flags;
      if width == -1 {
        width, f := 8, f.(zeropad := true);
      }
      next := PrintNumber(buf, size, str, WordOf(r.args), 16, width, f, was, text);
    } else if IsNumber(c) {
      var f := FlagsOf(r.flags, c);
      next := PrintNumber(buf, size, str, NumberOf(WordOf(r.args), r.qualifier, f.sign), BaseOf(c), r.width, f, was,
                          text);
    } else {
      next := PutString(buf, size, str, Converted(c, r), was, text);
    }
  }

  /** Only %d and %i ask for a sign; no flag does. */
  lemma ScanNoSign(fmt: string, i: nat, args: seq<Arg>)
    ensures !ScanSpec(fmt, i, args).flags.sign
  {
    FlagsNoSign(fmt, i, NO_FLAGS);
  }

  lemma {:induction false} FlagsNoSign(fmt: string, i: nat, f: Flags)
    requires !f.sign
    ensures !ScanFlags(fmt, i, f).0.sign
    decreases |fmt| - i
  {
    if i < |fmt| && IsFlag(fmt[i]) {
      FlagsNoSign(fmt, i + 1, WithFlag(f, fmt[i]));
    }
  }

  // ---------- vsnprintf

  /** How long the text of an item is, and whether it can move the place too far. */
  datatype Piece = Piece(length: nat, loose: bool)

  function PieceOf(it: Item): Piece {
    Piece(|TextOf(it)|, it.Conversion? && LooseConversion(it.c, it.spec))
  }

  function Pieces(fmt: string, i: nat, args: seq<Arg>): seq<Piece>
    decreases |fmt| - i
  {
    if AtEnd(fmt, i) then []
    else
      var it := ItemAt(fmt, i, args);
      [PieceOf(it)] + Pieces(fmt, NextPlace(fmt, i, it), ArgsAfter(it, args))
  }

  /** The place after the pieces. */
  function Count(ps: seq<Piece>, str: nat, size: nat): nat
    decreases |ps|
  {
    if ps == [] then str else Count(ps[1..], str + ps[0].length + Excess(ps[0].loose, str, size), size)
  }

  /** The buffer afterwards: what fits of the text, NUL behind it, and nothing else touched. */
  function Stored(was: seq<char>, size: nat, text: string): seq<char>
    requires 0 < size <= |was|
  {
    if |text| < size then text + ['\0'] + was[|text| + 1..] else text[..size - 1] + ['\0'] + was[size..]
  }

  /** The first size - 1 characters of the text, or all of it, NUL behind them, and the rest as it was. */
  ghost predicate Holds(mem: seq<char>, was: seq<char>, size: nat, text: string)
    requires size > 0
  {
    var n := if |text| < size then |text| else size - 1;
    && n < |mem| == |was| && mem[..n] == text[..n] && mem[n] == '\0'
    && forall i :: n < i < |mem| ==> mem[i] == was[i]
  }

  lemma StoredHolds(was: seq<char>, size: nat, text: string)
    requires 0 < size <= |was|
    ensures Holds(Stored(was, size, text), was, size, text)
  {
    var r := Stored(was, size, text);
    if |text| < size {
      assert r[..|text|] == text[..|text|];
    } else {
      assert r[..size - 1] == text[..size - 1];
    }
  }

  lemma ItemFirst(fmt: string, i: nat, args: seq<Arg>, text: string)
    requires !AtEnd(fmt, i)
    ensures var it := ItemAt(fmt, i, args);
            text + TextOf(it) + Rendered(fmt, NextPlace(fmt, i, it), ArgsAfter(it, args)) ==
              text + Rendered(fmt, i, args)
  {
    var it := ItemAt(fmt, i, args);
    Associative(text, TextOf(it), Rendered(fmt, NextPlace(fmt, i, it), ArgsAfter(it, args)));
  }

  lemma Associative(a: string, b: string, c: string)
    ensures a + b + c == a + (b + c)
  {}

  /** A plain character, or a conversion. */
  method PutItem(buf: array<char>, size: nat, str: nat, fmt: string, i: nat, args: seq<Arg>, ghost was: seq<char>,
                 ghost text: string)
    returns (next: nat, it: Item)
    requires Out(buf, was, size, str, text) && !AtEnd(fmt, i)
    requires ItemAt(fmt, i, args).Conversion? ==> ItemAt(fmt, i, args).c != 'f'
    modifies buf
    ensures it == ItemAt(fmt, i, args)
    ensures Out(buf, was, size, next, text + TextOf(it))
            && next == str + PieceOf(it).length + Excess(PieceOf(it).loose, str, size)
  {
    if fmt[i] != '%' {
      it := Plain(fmt[i]);
      next := Put(buf, size, str, fmt[i], was, text);
    } else {
      var r := ProcessSpec(fmt, i + 1, args);
      ScanNoSign(fmt, i + 1, args);
      it := Conversion(At(fmt, r.at), r);
      next := PutConversion(buf, size, str, At(fmt, r.at), r, was, text);
    }
  }

  lemma CountFirst(fmt: string, i: nat, args: seq<Arg>, str: nat, size: nat)
    requires !AtEnd(fmt, i)
    ensures var it := ItemAt(fmt, i, args);
            Count(Pieces(fmt, i, args), str, size) ==
            Count(Pieces(fmt, NextPlace(fmt, i, it), ArgsAfter(it, args)),
                  str + PieceOf(it).length + Excess(PieceOf(it).loose, str, size), size)
  {
    var it := ItemAt(fmt, i, args);
    CountCons(PieceOf(it), Pieces(fmt, NextPlace(fmt, i, it), ArgsAfter(it, args)), str, size);
  }

  lemma CountCons(p: Piece, ps: seq<Piece>, str: nat, size: nat)
    ensures Count([p] + ps, str, size) == Count(ps, str + p.length + Excess(p.loose, str, size), size)
  {
    assert ([p] + ps)[1..] == ps;
  }

  /** One turn of the loop, and what is still to come. */
  method Turn(buf: array<char>, size: nat, str: nat, fmt: string, i: nat, args: seq<Arg>, ghost was: seq<char>,
              ghost text: string)
    returns (next: nat, j: nat, rest: seq<Arg>, ghost shown: string)
    requires Out(buf, was, size, str, text) && !AtEnd(fmt, i) && NoFloat(fmt, i, args)
    modifies buf
    ensures i < j && NoFloat(fmt, j, rest) && Out(buf, was, size, next, shown)
    ensures shown + Rendered(fmt, j, rest) == text + Rendered(fmt, i, args)
    ensures Count(Pieces(fmt, j, rest), next, size) == Count(Pieces(fmt, i, args), str, size)
  {
    ItemFirst(fmt, i, args, text);
    CountFirst(fmt, i, args, str, size);
    var it;
    next, it := PutItem(buf, size, str, fmt, i, args, was, text);
    j, rest, shown := NextPlace(fmt, i, it), ArgsAfter(it, args), text + TextOf(it);
  }

  method Vsnprintf(buf: array<char>, size: nat, fmt: string, args: seq<Arg>) returns (n: nat)
    requires 0 < size <= buf.Length && NoFloat(fmt, 0, args)
    modifies buf
    ensures buf[..] == Stored(old(buf[..]), size, Rendered(fmt, 0, args))
    ensures Holds(buf[..], old(buf[..]), size, Rendered(fmt, 0, args))
    ensures n == Count(Pieces(fmt, 0, args), 0, size)
  {
    ghost var was := buf[..];
    ghost var text := "";
    var i, rest := 0, args;
    n := 0;
    while !AtEnd(fmt, i)
      invariant Out(buf, was, size, n, text) && NoFloat(fmt, i, rest)
      invariant text + Rendered(fmt, i, rest) == Rendered(fmt, 0, args)
      invariant Count(Pieces(fmt, i, rest), n, size) == Count(Pieces(fmt, 0, args), 0, size)
      decreases |fmt| - i
    {
      n, i, rest, text := Turn(buf, size, n, fmt, i, rest, was, text);
    }
    assert text + [] == text;
    Finish(buf, size, n, was, text);
  }

  method Finish(buf: array<char>, size: nat, str: nat, ghost was: seq<char>, ghost text: string)
    requires Out(buf, was, size, str, text)
    modifies buf
    ensures |was| == buf.Length && buf[..] == Stored(was, size, text) && Holds(buf[..], was, size, text)
  {
    StoredHolds(was, size, text);
    if str < size {
      buf[str] := '\0';
    } else {
      buf[size - 1] := '\0';
    }
  }

  // ---------- what the return value says

  function Total(ps: seq<Piece>): nat {
    if ps == [] then 0 else ps[0].length + Total(ps[1..])
  }

  lemma {:induction false} RenderedLength(fmt: string, i: nat, args: seq<Arg>)
    ensures |Rendered(fmt, i, args)| == Total(Pieces(fmt, i, args))
    decreases |fmt| - i
  {
    if !AtEnd(fmt, i) {
      var it := ItemAt(fmt, i, args);
      RenderedLength(fmt, NextPlace(fmt, i, it), ArgsAfter(it, args));
    }
  }

  /**
   Somewhere behind the end of the buffer there is a number with a sign that is padded with zeros or on the right, and
   its width is more than its digits need.
   */
  predicate LoosePastEnd(ps: seq<Piece>, at: nat, size: nat) {
    ps != [] && ((ps[0].loose && at >= size) || LoosePastEnd(ps[1..], at + ps[0].length, size))
  }

  /** The place is never before the end of the text, and it is exactly there as long as no such number comes. */
  lemma {:induction false} CountExact(ps: seq<Piece>, str: nat, size: nat, at: nat)
    requires Behind(str, at, size)
    ensures Behind(Count(ps, str, size), at + Total(ps), size)
    ensures Count(ps, str, size) == at + Total(ps) <==> str == at && !LoosePastEnd(ps, at, size)
    decreases |ps|
  {
    if ps != [] {
      CountExact(ps[1..], str + ps[0].length + Excess(ps[0].loose, str, size), size, at + ps[0].length);
    }
  }

  /** So the return value tells whether the text was cut short, and it is the text's length if it was not. */
  lemma ReturnValue(fmt: string, args: seq<Arg>, size: nat)
    requires 0 < size
    ensures var n, length := Count(Pieces(fmt, 0, args), 0, size), |Rendered(fmt, 0, args)|;
            n >= length && (n >= size <==> length >= size) && (length < size ==> n == length)
  {
    RenderedLength(fmt, 0, args);
    CountExact(Pieces(fmt, 0, args), 0, size, 0);
  }

  /** Exactly when the return value is the length of the unbounded text, for all formats, arguments and sizes. */
  lemma ReturnIff(fmt: string, args: seq<Arg>, size: nat)
    requires 0 < size
    ensures Count(Pieces(fmt, 0, args), 0, size) == |Rendered(fmt, 0, args)|
            <==> !LoosePastEnd(Pieces(fmt, 0, args), 0, size)
  {
    RenderedLength(fmt, 0, args);
    CountExact(Pieces(fmt, 0, args), 0, size, 0);
  }

  /** When the text is cut short, the return value can be too large: here 7 for a text of 6 characters. */
  lemma ReturnTooLarge()
    ensures |Rendered("x%+05d", 0, [Int(1)])| == 6 && Count(Pieces("x%+05d", 0, [Int(1)]), 0, 1) == 7
  {
    var fmt, args := "x%+05d", [Int(1)];
    var f := NO_FLAGS.(plus := true, zeropad := true);
    assert ScanFlags(fmt, 4, f) == (f, 4);
    assert ScanFlags(fmt, 3, NO_FLAGS.(plus := true)) == (f, 4);
    assert ScanFlags(fmt, 2, NO_FLAGS) == (f, 4);
    assert ScanNumber(fmt, 5, 5) == (5, 5);
    assert ScanNumber(fmt, 4, 0) == (5, 5);
    var r := Spec(f, 5, '\0', 5, args);
    assert ScanSpec(fmt, 2, args) == r;
    OneDigit();
    FieldLength(1, 10, 5, f.(sign := true));
    assert ItemAt(fmt, 1, args) == Conversion('d', r);
    assert Converted('d', r) == Field(1, 10, 5, f.(sign := true));
    assert Pieces(fmt, 6, []) == [];
    assert Pieces(fmt, 1, args) == [Piece(5, true)];
    assert Pieces(fmt, 0, args) == [Piece(1, false)] + [Piece(5, true)];
    RenderedLength(fmt, 0, args);
  }

  lemma OneDigit()
    ensures |Digits(1, 10, false)| == 1
  {
    assert LowFirst(0, 10, false) == [];
    assert |LowFirst(1, 10, false)| == 1;
  }
}
