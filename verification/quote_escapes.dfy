// The escape sequences of string literals, one by one, as the manual lists them (Lua 5.2 Reference
// Manual, section 3.1): what reading makes of each, and that there are no others.
module QuoteEscapes {
  import opened Common
  import opened QuoteStrings

  // A backslash at i with this character behind it.
  predicate Escaped(src: seq<Byte>, i: nat, c: char) { i + 1 < |src| && src[i] == '\\' as int && src[i + 1] == c as int }

  predicate IsQuote(del: Byte) { del == '"' as int || del == '\'' as int }

  // Characters without a backslash: they stand for themselves, but for the delimiter and line breaks.
  lemma PlainByte(src: seq<Byte>, i: nat, del: Byte, line: nat)
    requires i < |src| && src[i] != '\\' as int && IsQuote(del)
    ensures ReadFrom(src, i, del, line) ==
            if src[i] == del then Chars([], i + 1, line)
            else if src[i] == '\n' as int || src[i] == '\r' as int then LexError(UnfinishedString)
            else Cons(src[i], ReadFrom(src, i + 1, del, line))
  {}

  lemma TextEnds(src: seq<Byte>, del: Byte, line: nat)
    requires IsQuote(del)
    ensures ReadFrom(src, |src|, del, line) == LexError(UnfinishedString)
  {}

  // \a \b \t \n \v \f \r are the bytes 7 to 13.
  lemma LetterEscape(src: seq<Byte>, i: nat, del: Byte, line: nat, k: nat)
    requires k < 7 && Escaped(src, i, "abtnvfr"[k]) && IsQuote(del)
    ensures ReadFrom(src, i, del, line) == Cons(7 + k, ReadFrom(src, i + 2, del, line))
  {}

  // \\ \" \' stand for the character itself.
  lemma SelfEscape(src: seq<Byte>, i: nat, del: Byte, line: nat, k: nat)
    requires k < 3 && Escaped(src, i, "\\\"'"[k]) && IsQuote(del)
    ensures ReadFrom(src, i, del, line) == Cons(src[i + 1], ReadFrom(src, i + 2, del, line))
  {}

  lemma HexDigits(c: int)
    ensures IsHex(c) <==> OneOf(c, "0123456789abcdefABCDEF")
    ensures forall k :: 0 <= k < 16 && (c == "0123456789abcdef"[k] as int || c == "0123456789ABCDEF"[k] as int) ==>
              IsHex(c) && HexValue(c) == k
  {
    if IsHex(c) {
      var k := if IsDigit(c) then c - 48 else if c <= 70 then c - 65 + 16 else c - 97 + 10;
      assert c == "0123456789abcdefABCDEF"[k] as int;
    }
  }

  predicate HexPair(src: seq<Byte>, i: nat, c: Byte) {
    i + 1 < |src| &&
    (src[i] == "0123456789abcdef"[c / 16] as int || src[i] == "0123456789ABCDEF"[c / 16] as int) &&
    (src[i + 1] == "0123456789abcdef"[c % 16] as int || src[i + 1] == "0123456789ABCDEF"[c % 16] as int)
  }

  // \xXX is the byte with these two digits, in either case ...
  lemma HexEscape(src: seq<Byte>, i: nat, del: Byte, line: nat, c: Byte)
    requires Escaped(src, i, 'x') && HexPair(src, i + 2, c) && IsQuote(del)
    ensures ReadFrom(src, i, del, line) == Cons(c, ReadFrom(src, i + 4, del, line))
  {
    HexDigits(src[i + 2]);
    HexDigits(src[i + 3]);
  }

  // ... and an error unless two digits are there.
  lemma NoHexEscape(src: seq<Byte>, i: nat, del: Byte, line: nat)
    requires Escaped(src, i, 'x') && IsQuote(del)
    requires !OneOf(At(src, i + 2), "0123456789abcdefABCDEF") || !OneOf(At(src, i + 3), "0123456789abcdefABCDEF")
    ensures ReadFrom(src, i, del, line) == LexError(HexDigitExpected)
  {
    HexDigits(At(src, i + 2));
    HexDigits(At(src, i + 3));
  }

  // The value of a sequence of decimal digits.
  function Value(digits: seq<nat>): nat {
    if digits == [] then 0 else 10 * Value(digits[..|digits| - 1]) + digits[|digits| - 1]
  }

  predicate DigitsAt(src: seq<Byte>, i: nat, digits: seq<nat>) {
    i + |digits| <= |src| && forall k :: 0 <= k < |digits| ==> digits[k] < 10 && src[i + k] == "0123456789"[digits[k]] as int
  }

  // \ddd: up to three decimal digits, as many as there are; an error if the value is over 255.
  lemma DecimalEscape(src: seq<Byte>, i: nat, del: Byte, line: nat, digits: seq<nat>)
    requires i < |src| && src[i] == '\\' as int && DigitsAt(src, i + 1, digits) && 1 <= |digits| <= 3 && IsQuote(del)
    requires |digits| < 3 ==> !OneOf(At(src, i + 1 + |digits|), "0123456789")
    ensures ReadFrom(src, i, del, line) ==
            if Value(digits) > 255 then LexError(EscapeTooLarge)
            else Cons(Value(digits), ReadFrom(src, i + 1 + |digits|, del, line))
  {
    hide DigitsAt, Value, DecimalAt, OneOf;
    DigitAt(src, i + 1, digits, 0);
    DigitsRead(src, i + 1, digits);
  }

  lemma DigitsRead(src: seq<Byte>, i: nat, digits: seq<nat>)
    requires DigitsAt(src, i, digits) && 1 <= |digits| <= 3
    requires |digits| < 3 ==> !OneOf(At(src, i + |digits|), "0123456789")
    ensures DecimalAt(src, i, 3, 0) == (Value(digits), i + |digits|)
  {
    hide DigitsAt, DecimalAt, OneOf;
    DigitChars(At(src, i + |digits|));
    DigitAt(src, i, digits, 0);
    ValueOf(digits);
    if |digits| == 1 {
      ReadsOne(src, i, digits[0]);
    } else {
      DigitAt(src, i, digits, 1);
      if |digits| == 2 {
        ReadsTwo(src, i, digits[0], digits[1]);
      } else {
        DigitAt(src, i, digits, 2);
        ReadsThree(src, i, digits[0], digits[1], digits[2]);
      }
    }
  }

  lemma ValueOf(digits: seq<nat>)
    requires 1 <= |digits| <= 3
    ensures Value(digits) == if |digits| == 1 then digits[0] else if |digits| == 2 then 10 * digits[0] + digits[1]
                             else 100 * digits[0] + 10 * digits[1] + digits[2]
  {
    assert digits[..1][..0] == [] && Value(digits[..1]) == digits[0];
    if |digits| > 1 { assert digits[..2][..1] == digits[..1] && Value(digits[..2]) == 10 * digits[0] + digits[1]; }
    if |digits| == 1 { assert digits[..1] == digits; } else if |digits| == 2 { assert digits[..2] == digits; }
  }

  lemma DigitAt(src: seq<Byte>, i: nat, digits: seq<nat>, k: nat)
    requires DigitsAt(src, i, digits) && k < |digits|
    ensures At(src, i + k) == 48 + digits[k] && digits[k] < 10
  {}

  lemma DigitChars(c: int)
    ensures IsDigit(c) <==> OneOf(c, "0123456789")
  {
    if IsDigit(c) { assert c == "0123456789"[c - 48] as int; }
  }

  // \ and a line break: one newline character, whichever of the four line breaks it is.
  lemma BreakEscape(src: seq<Byte>, i: nat, del: Byte, line: nat)
    requires i + 1 < |src| && src[i] == '\\' as int && OneOf(src[i + 1], "\n\r") && IsQuote(del) && line + 1 < MAX_INT
    ensures var pair := OneOf(At(src, i + 2), "\n\r") && At(src, i + 2) != src[i + 1];
            ReadFrom(src, i, del, line) == Cons('\n' as int, ReadFrom(src, if pair then i + 3 else i + 2, del, line + 1))
  {
    assert "\n\r"[0] as int == 10 && "\n\r"[1] as int == 13;
  }

  // \z skips the spaces that follow.
  lemma ZapEscape(src: seq<Byte>, i: nat, j: nat, del: Byte, line: nat)
    requires Escaped(src, i, 'z') && i + 2 <= j <= |src| && IsQuote(del)
    requires forall k :: i + 2 <= k < j ==> OneOf(src[k], " \t\n\U{000B}\U{000C}")
    requires !OneOf(At(src, j), " \t\n\U{000B}\U{000C}\r") && line + Lines(src[i + 2..j]) < MAX_INT
    ensures ReadFrom(src, i, del, line) == ReadFrom(src, j, del, line + Lines(src[i + 2..j]))
  {
    SpacesSkipped(src, i + 2, j, line);
  }

  lemma SpaceChars(c: int)
    ensures IsSpace(c) <==> OneOf(c, " \t\n\U{000B}\U{000C}\r")
  {
    var chars := " \t\n\U{000B}\U{000C}\r";
    assert chars[0] as int == 32 && chars[1] as int == 9 && chars[2] as int == 10;
    assert chars[3] as int == 11 && chars[4] as int == 12 && chars[5] as int == 13;
  }

  lemma {:induction false} SpacesSkipped(src: seq<Byte>, i: nat, j: nat, line: nat)
    requires i <= j <= |src| && line + Lines(src[i..j]) < MAX_INT && !OneOf(At(src, j), " \t\n\U{000B}\U{000C}\r")
    requires forall k :: i <= k < j ==> OneOf(src[k], " \t\n\U{000B}\U{000C}")
    ensures Spaces(src, i, line) == Chars([], j, line + Lines(src[i..j]))
    decreases j - i
  {
    SpaceChars(At(src, i));
    if i < j {
      assert OneOf(src[i], " \t\n\U{000B}\U{000C}");
      assert src[i..j][1..] == src[i + 1..j];
      SpaceChars(At(src, i + 1));
      SpacesSkipped(src, i + 1, j, if src[i] == NL then line + 1 else line);
    }
  }

  // There are no other escapes.
  lemma OtherEscape(src: seq<Byte>, i: nat, del: Byte, line: nat)
    requires i + 1 < |src| && src[i] == '\\' as int && IsQuote(del)
    requires !OneOf(src[i + 1], "abtnvfrxz\\\"'\n\r0123456789")
    ensures ReadFrom(src, i, del, line) == LexError(InvalidEscape)
  {
    var chars := "abtnvfrxz\\\"'\n\r0123456789";
    assert chars[14] == '0' && chars[15] == '1' && chars[16] == '2' && chars[17] == '3' && chars[18] == '4';
    assert chars[19] == '5' && chars[20] == '6' && chars[21] == '7' && chars[22] == '8' && chars[23] == '9';
    assert chars[0] == 'a' && chars[1] == 'b' && chars[2] == 't' && chars[3] == 'n' && chars[4] == 'v';
    assert chars[5] == 'f' && chars[6] == 'r' && chars[7] == 'x' && chars[8] == 'z' && chars[9] == '\\';
    assert chars[10] == '"' && chars[11] == '\'' && chars[12] == '\n' && chars[13] == '\r';
  }
}
