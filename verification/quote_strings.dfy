// Quoting a string (addquoted in lstrlib.c) and reading a quoted one (read_string in llex.c) as
// functions on bytes, and that reading undoes quoting.
module QuoteStrings {

  type Byte = b: nat | b < 256

  const EOZ: int := -1
  const NL: Byte := 10
  const CR: Byte := 13
  const DQ: Byte := 34
  const SQ: Byte := 39
  const BS: Byte := 92
  const MAX_INT: nat := 0x7FFF_FFFD

  predicate IsDigit(c: int) { 48 <= c <= 57 }

  predicate IsNewline(c: int) { c == NL || c == CR }

  predicate IsSpace(c: int) { 9 <= c <= 13 || c == 32 }

  predicate IsHex(c: int) { IsDigit(c) || 65 <= c <= 70 || 97 <= c <= 102 }

  // luaO_hexavalue
  function HexValue(c: int): (v: nat)
    requires IsHex(c)
    ensures v < 16
  {
    if IsDigit(c) then c - 48 else if c <= 70 then c - 65 + 10 else c - 97 + 10
  }

  // ----- quoting -----

  // The formats "\\%d" and "\\%03d"
  function Decimal(c: Byte): (r: seq<Byte>) {
    if c < 10 then [BS, 48 + c] else if c < 100 then [BS, 48 + c / 10, 48 + c % 10] else Decimal3(c)
  }

  function Decimal3(c: Byte): (r: seq<Byte>) { [BS, 48 + c / 100, 48 + c / 10 % 10, 48 + c % 10] }

  // The byte after a string's last one is 0.
  function Following(s: seq<Byte>): int { if s == [] then 0 else s[0] }

  // cntrl: iscntrl in the current locale
  function QuotedByte(cntrl: Byte -> bool, c: Byte, following: int): (r: seq<Byte>)
    ensures |r| > 0
  {
    if c == DQ || c == BS || c == NL then [BS, c]
    else if c == 0 || cntrl(c) then (if IsDigit(following) then Decimal3(c) else Decimal(c))
    else [c]
  }

  function QuotedBytes(cntrl: Byte -> bool, s: seq<Byte>): seq<Byte> {
    if s == [] then [] else QuotedByte(cntrl, s[0], Following(s[1..])) + QuotedBytes(cntrl, s[1..])
  }

  function Quoted(cntrl: Byte -> bool, s: seq<Byte>): seq<Byte> { [DQ] + QuotedBytes(cntrl, s) + [DQ] }

  // ----- reading -----

  datatype Fault = UnfinishedString | InvalidEscape | HexDigitExpected | EscapeTooLarge | TooManyLines

  // end: where reading goes on; line: the line number there
  datatype Read = Chars(s: seq<Byte>, end: nat, line: nat) | LexError(fault: Fault)

  function Cons(c: Byte, r: Read): Read { if r.Chars? then r.(s := [c] + r.s) else r }

  function At(src: seq<Byte>, i: nat): int { if i < |src| then src[i] else EOZ }

  // Behind a newline sequence: \n, \r, \n\r or \r\n
  function AfterNewline(src: seq<Byte>, i: nat): (j: nat)
    ensures i < j && (i < |src| ==> j <= |src|)
  {
    if IsNewline(At(src, i + 1)) && At(src, i + 1) != At(src, i) then i + 2 else i + 1
  }

  // Up to n decimal digits.
  function DecimalAt(src: seq<Byte>, i: nat, n: nat, acc: nat): (r: (nat, nat))
    ensures i <= r.1 && (i <= |src| ==> r.1 <= |src|)
    decreases n
  {
    if n > 0 && IsDigit(At(src, i)) then DecimalAt(src, i + 1, n - 1, 10 * acc + At(src, i) - 48) else (acc, i)
  }

  // The span of spaces behind \z
  function Spaces(src: seq<Byte>, i: nat, line: nat): (r: Read)
    ensures r.Chars? ==> r.s == [] && i <= r.end && (i <= |src| ==> r.end <= |src|)
    decreases |src| - i
  {
    if !IsSpace(At(src, i)) then Chars([], i, line)
    else if !IsNewline(At(src, i)) then Spaces(src, i + 1, line)
    else if line + 1 >= MAX_INT then LexError(TooManyLines)
    else Spaces(src, AfterNewline(src, i), line + 1)
  }

  function Simple(e: int): Byte
    requires e in {97, 98, 102, 110, 114, 116, 118}
  {
    if e == 97 then 7 else if e == 98 then 8 else if e == 102 then 12 else if e == 110 then NL
    else if e == 114 then CR else if e == 116 then 9 else 11
  }

  // What an escape sequence stands for: a byte, nothing (after \z, or where the input ends), or an error.
  datatype Escape = OneByte(c: Byte, end: nat, line: nat) | NoByte(end: nat, line: nat) | Bad(fault: Fault)

  // Behind a backslash
  function EscapeAt(src: seq<Byte>, i: nat, line: nat): (r: Escape)
    requires i <= |src|
    ensures !r.Bad? ==> i <= r.end <= |src|
  {
    var e := At(src, i);
    if e == EOZ then NoByte(i, line)
    else if e in {97, 98, 102, 110, 114, 116, 118} then OneByte(Simple(e), i + 1, line)
    else if e == 120 then
      if IsHex(At(src, i + 1)) && IsHex(At(src, i + 2))
      then OneByte(16 * HexValue(At(src, i + 1)) + HexValue(At(src, i + 2)), i + 3, line) else Bad(HexDigitExpected)
    else if IsNewline(e) then
      if line + 1 >= MAX_INT then Bad(TooManyLines) else OneByte(NL, AfterNewline(src, i), line + 1)
    else if e == BS || e == DQ || e == SQ then OneByte(e, i + 1, line)
    else if e == 122 then
      var r := Spaces(src, i + 1, line);
      if r.Chars? then NoByte(r.end, r.line) else Bad(r.fault)
    else if !IsDigit(e) then Bad(InvalidEscape)
    else
      var (v, j) := DecimalAt(src, i, 3, 0);
      if v > 255 then Bad(EscapeTooLarge) else OneByte(v, j, line)
  }

  // read_string from behind the opening delimiter
  function ReadFrom(src: seq<Byte>, i: nat, del: Byte, line: nat): Read
    requires i <= |src|
    decreases |src| - i
  {
    var c := At(src, i);
    if c == del then Chars([], i + 1, line)
    else if c == EOZ || IsNewline(c) then LexError(UnfinishedString)
    else if c != BS then Cons(c, ReadFrom(src, i + 1, del, line))
    else
      match EscapeAt(src, i + 1, line)
      case OneByte(b, j, line') => Cons(b, ReadFrom(src, j, del, line'))
      case NoByte(j, line') => ReadFrom(src, j, del, line')
      case Bad(fault) => LexError(fault)
  }

  // ----- reading undoes quoting -----

  function Lines(s: seq<Byte>): nat { if s == [] then 0 else (if s[0] == NL then 1 else 0) + Lines(s[1..]) }

  // What is read is the string itself, exactly if the locale counts the carriage return as a control
  // character (C says it does) or there is none, and the lexer can count the lines.
  lemma ReadsBack(cntrl: Byte -> bool, s: seq<Byte>, rest: seq<Byte>, line: nat)
    ensures var src := Quoted(cntrl, s) + rest;
            ReadFrom(src, 1, DQ, line) == Chars(s, |Quoted(cntrl, s)|, line + Lines(s)) <==>
            (CR in s ==> cntrl(CR)) && (Lines(s) > 0 ==> line + Lines(s) < MAX_INT)
    ensures var r := ReadFrom(Quoted(cntrl, s) + rest, 1, DQ, line); r.Chars? && r.s == s ==> CR in s ==> cntrl(CR)
  {
    var src := Quoted(cntrl, s) + rest;
    assert src[1..] == QuotedBytes(cntrl, s) + [DQ] + rest;
    if CR in s && !cntrl(CR) { NoReturn(cntrl, s, src, 1, rest, line); } else { ReadsBackFrom(cntrl, s, src, 1, rest, line); }
  }

  lemma {:induction false} ReadsBackFrom(cntrl: Byte -> bool, s: seq<Byte>, src: seq<Byte>, i: nat, rest: seq<Byte>,
                                         line: nat)
    requires i <= |src| && src[i..] == QuotedBytes(cntrl, s) + [DQ] + rest && (CR in s ==> cntrl(CR))
    ensures ReadFrom(src, i, DQ, line) == Chars(s, i + |QuotedBytes(cntrl, s)| + 1, line + Lines(s)) <==>
            (Lines(s) > 0 ==> line + Lines(s) < MAX_INT)
    decreases |s|
  {
    hide EscapeAt, QuotedByte;
    if s == [] {
      assert src[i] == src[i..][0];
    } else {
      var q := QuotedByte(cntrl, s[0], Following(s[1..]));
      Behind(cntrl, s, src, i, rest);
      ByteReadBack(cntrl, s, src, i, rest, line);
      ReadsBackFrom(cntrl, s[1..], src, i + |q|, rest, if s[0] == NL then line + 1 else line);
      hide ReadFrom;
      assert s == [s[0]] + s[1..];
    }
  }

  // What stands behind the first byte's quoting.
  lemma Behind(cntrl: Byte -> bool, s: seq<Byte>, src: seq<Byte>, i: nat, rest: seq<Byte>)
    requires i <= |src| && src[i..] == QuotedBytes(cntrl, s) + [DQ] + rest && s != []
    ensures var q := QuotedByte(cntrl, s[0], Following(s[1..]));
            i + |q| < |src| && src[i + |q|..] == QuotedBytes(cntrl, s[1..]) + [DQ] + rest && src[i..i + |q|] == q
  {
    hide QuotedByte, QuotedBytes;
    QuotedFirst(cntrl, s);
    Splits(src, i, QuotedByte(cntrl, s[0], Following(s[1..])), QuotedBytes(cntrl, s[1..]), [DQ], rest);
  }

  lemma QuotedFirst(cntrl: Byte -> bool, s: seq<Byte>)
    requires s != []
    ensures QuotedBytes(cntrl, s) == QuotedByte(cntrl, s[0], Following(s[1..])) + QuotedBytes(cntrl, s[1..])
  {}

  lemma FirstOf(cntrl: Byte -> bool, c: Byte, following: int)
    ensures var b := QuotedByte(cntrl, c, following)[0]; b == BS || (b == c && b != NL && !cntrl(c))
  {}

  lemma Splits(src: seq<Byte>, i: nat, q: seq<Byte>, a: seq<Byte>, b: seq<Byte>, c: seq<Byte>)
    requires i <= |src| && src[i..] == q + a + b + c
    ensures i + |q| + |b| <= |src| && src[i + |q|..] == a + b + c && src[i..i + |q|] == q
  {
    assert src[i..] == q + (a + b + c);
    assert src[i..][|q|..] == a + b + c && src[i..][..|q|] == q;
  }

  // The first byte there is none that would change how the bytes before it are read.
  lemma FirstThere(cntrl: Byte -> bool, s: seq<Byte>, src: seq<Byte>, i: nat, rest: seq<Byte>)
    requires i <= |src| && src[i..] == QuotedBytes(cntrl, s) + [DQ] + rest
    ensures At(src, i) != EOZ && At(src, i) != NL && (At(src, i) == CR ==> s != [] && s[0] == CR && !cntrl(CR))
    ensures IsDigit(At(src, i)) ==> IsDigit(Following(s))
  {
    if s == [] {
      assert src[i] == src[i..][0];
    } else {
      hide QuotedBytes, QuotedByte;
      Behind(cntrl, s, src, i, rest);
      FirstOf(cntrl, s[0], Following(s[1..]));
      var q := QuotedByte(cntrl, s[0], Following(s[1..]));
      assert At(src, i) == src[i..i + |q|][0] == q[0];
    }
  }

  // One byte is read back.
  lemma ByteReadBack(cntrl: Byte -> bool, s: seq<Byte>, src: seq<Byte>, i: nat, rest: seq<Byte>, line: nat)
    requires i <= |src| && src[i..] == QuotedBytes(cntrl, s) + [DQ] + rest && s != []
    requires s[0] == CR || (s[0] == NL && s[1..] != [] && s[1] == CR) ==> cntrl(CR)
    ensures var j := i + |QuotedByte(cntrl, s[0], Following(s[1..]))|;
            j <= |src| && ReadFrom(src, i, DQ, line) ==
            if s[0] == NL && line + 1 >= MAX_INT then LexError(TooManyLines)
            else Cons(s[0], ReadFrom(src, j, DQ, if s[0] == NL then line + 1 else line))
  {
    hide QuotedBytes, Decimal, Decimal3, DecimalAt;
    var c, q := s[0], QuotedByte(cntrl, s[0], Following(s[1..]));
    Behind(cntrl, s, src, i, rest);
    FirstThere(cntrl, s[1..], src, i + |q|, rest);
    assert At(src, i) == src[i..i + |q|][0];
    if |q| > 1 { assert At(src, i + 1) == src[i..i + |q|][1]; }
    if c == NL {
      assert q[1] == NL && AfterNewline(src, i + 1) == i + 2;
    } else if c == DQ || c == BS {
      assert q[1] == c;
    } else if c == 0 || cntrl(c) {
      EscapeRead(src, i, c, q, line);
    } else {
      assert q[0] == c;
    }
  }

  lemma EscapeRead(src: seq<Byte>, i: nat, c: Byte, q: seq<Byte>, line: nat)
    requires i + |q| < |src| && (q == Decimal3(c) || (q == Decimal(c) && !IsDigit(At(src, i + |q|)))) &&
             src[i..i + |q|] == q
    ensures ReadFrom(src, i, DQ, line) == Cons(c, ReadFrom(src, i + |q|, DQ, line))
  {
    hide DecimalAt;
    assert At(src, i) == src[i..i + |q|][0] && At(src, i + 1) == src[i..i + |q|][1];
    if |q| > 2 { assert At(src, i + 2) == src[i..i + |q|][2]; }
    if |q| > 3 { assert At(src, i + 3) == src[i..i + |q|][3]; }
    ReadsDecimal(src, i + 1, c, q);
  }

  // The digits of an escape are those that were written.
  lemma ReadsDecimal(src: seq<Byte>, i: nat, c: Byte, q: seq<Byte>)
    requires q == Decimal3(c) || (q == Decimal(c) && !IsDigit(At(src, i + |q| - 1)))
    requires At(src, i) == q[1] && (|q| > 2 ==> At(src, i + 1) == q[2]) && (|q| > 3 ==> At(src, i + 2) == q[3])
    ensures DecimalAt(src, i, 3, 0) == (c as nat, i + |q| - 1) && IsDigit(At(src, i))
  {
    hide At, DecimalAt;
    DigitsOf(c);
    if |q| == 4 { ReadsThree(src, i, c / 100, c / 10 % 10, c % 10); }
    else if |q| == 3 { ReadsTwo(src, i, c / 10, c % 10); }
    else { ReadsOne(src, i, c); }
  }

  lemma DigitsOf(c: Byte)
    ensures 100 * (c / 100) + 10 * (c / 10 % 10) + c % 10 == c && (c < 100 ==> 10 * (c / 10) + c % 10 == c)
  {}

  lemma ReadsThree(src: seq<Byte>, i: nat, a: nat, b: nat, d: nat)
    requires a < 10 && b < 10 && d < 10 && At(src, i) == 48 + a && At(src, i + 1) == 48 + b && At(src, i + 2) == 48 + d
    ensures DecimalAt(src, i, 3, 0) == (100 * a + 10 * b + d, i + 3)
  {
    hide At;
    assert DecimalAt(src, i + 2, 1, 10 * a + b) == DecimalAt(src, i + 3, 0, 100 * a + 10 * b + d);
    assert DecimalAt(src, i + 1, 2, a) == DecimalAt(src, i + 2, 1, 10 * a + b);
  }

  lemma ReadsTwo(src: seq<Byte>, i: nat, a: nat, b: nat)
    requires a < 10 && b < 10 && At(src, i) == 48 + a && At(src, i + 1) == 48 + b && !IsDigit(At(src, i + 2))
    ensures DecimalAt(src, i, 3, 0) == (10 * a + b, i + 2)
  {
    hide At;
    assert DecimalAt(src, i + 1, 2, a) == DecimalAt(src, i + 2, 1, 10 * a + b);
  }

  lemma ReadsOne(src: seq<Byte>, i: nat, a: nat)
    requires a < 10 && At(src, i) == 48 + a && !IsDigit(At(src, i + 1))
    ensures DecimalAt(src, i, 3, 0) == (a, i + 1)
  {
    hide At;
    assert DecimalAt(src, i + 1, 2, a) == (a, i + 1);
  }

  // Without the escape no carriage return is read: it ends the string with an error, or is skipped
  // behind a newline.
  lemma {:induction false} NoReturn(cntrl: Byte -> bool, s: seq<Byte>, src: seq<Byte>, i: nat, rest: seq<Byte>,
                                    line: nat)
    requires i <= |src| && src[i..] == QuotedBytes(cntrl, s) + [DQ] + rest && !cntrl(CR)
    ensures ReadFrom(src, i, DQ, line).Chars? ==> CR !in ReadFrom(src, i, DQ, line).s
    decreases |s|
  {
    hide QuotedByte, EscapeAt;
    if s == [] {
      assert src[i] == src[i..][0];
    } else if s[0] == CR {
      RawReturn(cntrl, s, src, i, rest);
    } else if s[0] == NL && s[1..] != [] && s[1] == CR {
      SkippedReturn(cntrl, s, src, i, rest, line);
      hide ReadFrom;
      NoReturn(cntrl, s[2..], src, i + 3, rest, line + 1);
    } else {
      Behind(cntrl, s, src, i, rest);
      ByteReadBack(cntrl, s, src, i, rest, line);
      hide ReadFrom;
      NoReturn(cntrl, s[1..], src, i + |QuotedByte(cntrl, s[0], Following(s[1..]))|, rest,
               if s[0] == NL then line + 1 else line);
    }
  }

  lemma RawReturn(cntrl: Byte -> bool, s: seq<Byte>, src: seq<Byte>, i: nat, rest: seq<Byte>)
    requires i <= |src| && src[i..] == QuotedBytes(cntrl, s) + [DQ] + rest && !cntrl(CR) && s != [] && s[0] == CR
    ensures At(src, i) == CR && i + 1 <= |src| && src[i + 1..] == QuotedBytes(cntrl, s[1..]) + [DQ] + rest
  {
    hide QuotedBytes;
    Behind(cntrl, s, src, i, rest);
    assert At(src, i) == src[i..i + 1][0];
  }

  lemma SkippedReturn(cntrl: Byte -> bool, s: seq<Byte>, src: seq<Byte>, i: nat, rest: seq<Byte>, line: nat)
    requires i <= |src| && src[i..] == QuotedBytes(cntrl, s) + [DQ] + rest && !cntrl(CR) && |s| > 1 && s[0] == NL &&
             s[1] == CR
    ensures i + 3 <= |src| && src[i + 3..] == QuotedBytes(cntrl, s[2..]) + [DQ] + rest
    ensures ReadFrom(src, i, DQ, line) == if line + 1 >= MAX_INT then LexError(TooManyLines) else Cons(NL, ReadFrom(src, i + 3, DQ, line + 1))
  {
    hide QuotedBytes;
    Behind(cntrl, s, src, i, rest);
    assert At(src, i) == src[i..i + 2][0] && At(src, i + 1) == src[i..i + 2][1];
    RawReturn(cntrl, s[1..], src, i + 2, rest);
    assert s[1..][1..] == s[2..];
  }
}
