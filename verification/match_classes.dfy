// The character classes of patterns as the manual lists them (Lua 5.2 Reference Manual, section 6.4.1),
// in the C locale: which characters each letter stands for, and how the classes are related.
module MatchClasses {
  import opened Common
  import opened MatchPatterns

  lemma Lower(c: Byte)
    ensures InLetterClass(c, 'l' as int) <==> OneOf(c, "abcdefghijklmnopqrstuvwxyz")
  {
    var chars := "abcdefghijklmnopqrstuvwxyz";
    if 97 <= c <= 122 { assert chars[c - 97] as int == c; }
  }

  lemma Upper(c: Byte)
    ensures InLetterClass(c, 'u' as int) <==> OneOf(c, "ABCDEFGHIJKLMNOPQRSTUVWXYZ")
  {
    var chars := "ABCDEFGHIJKLMNOPQRSTUVWXYZ";
    if 65 <= c <= 90 { assert chars[c - 65] as int == c; }
  }

  lemma Digit(c: Byte)
    ensures InLetterClass(c, 'd' as int) <==> OneOf(c, "0123456789")
  {
    var chars := "0123456789";
    if 48 <= c <= 57 { assert chars[c - 48] as int == c; }
  }

  lemma Punctuation(c: Byte)
    ensures InLetterClass(c, 'p' as int) <==> OneOf(c, "!\"#$%&'()*+,-./:;<=>?@") || OneOf(c, "[\\]^_`{|}~")
  {
    hide OneOf;
    BelowLetters(c);
    AboveLetters(c);
  }

  lemma BelowLetters(c: Byte)
    ensures OneOf(c, "!\"#$%&'()*+,-./:;<=>?@") <==> 33 <= c <= 47 || 58 <= c <= 64
  {
    var chars := "!\"#$%&'()*+,-./:;<=>?@";
    if 33 <= c <= 47 { assert chars[c - 33] as int == c; }
    if 58 <= c <= 64 { assert chars[c - 58 + 15] as int == c; }
  }

  lemma AboveLetters(c: Byte)
    ensures OneOf(c, "[\\]^_`{|}~") <==> 91 <= c <= 96 || 123 <= c <= 126
  {
    var chars := "[\\]^_`{|}~";
    if 91 <= c <= 96 { assert chars[c - 91] as int == c; }
    if 123 <= c <= 126 { assert chars[c - 123 + 6] as int == c; }
  }

  lemma Space(c: Byte)
    ensures InLetterClass(c, 's' as int) <==> OneOf(c, " \t\n\U{000B}\U{000C}\r")
  {
    var chars := " \t\n\U{000B}\U{000C}\r";
    assert chars[0] as int == 32 && chars[1] as int == 9 && chars[2] as int == 10;
    assert chars[3] as int == 11 && chars[4] as int == 12 && chars[5] as int == 13;
  }

  // The classes made of others
  lemma Related(c: Byte)
    ensures InLetterClass(c, 'a' as int) <==> InLetterClass(c, 'l' as int) || InLetterClass(c, 'u' as int)
    ensures !(InLetterClass(c, 'l' as int) && InLetterClass(c, 'u' as int))
    ensures InLetterClass(c, 'w' as int) <==> InLetterClass(c, 'a' as int) || InLetterClass(c, 'd' as int)
    ensures InLetterClass(c, 'g' as int) <==> InLetterClass(c, 'w' as int) || InLetterClass(c, 'p' as int)
    ensures !(InLetterClass(c, 'w' as int) && InLetterClass(c, 'p' as int))
    ensures InLetterClass(c, 'x' as int) <==> InLetterClass(c, 'd' as int) || OneOf(c, "abcdefABCDEF")
    ensures InLetterClass(c, 'c' as int) <==> c < 128 && !InLetterClass(c, 'g' as int) && c != ' ' as int
    ensures InLetterClass(c, 'z' as int) <==> c == '\0' as int
  {
    var chars := "abcdefABCDEF";
    if 97 <= c <= 102 { assert chars[c - 97] as int == c; }
    if 65 <= c <= 70 { assert chars[c - 65 + 6] as int == c; }
  }

  // An upper-case letter stands for the complement.
  lemma Complement(c: Byte, k: nat)
    requires k < 11
    ensures InLetterClass(c, "ACDGLPSUWXZ"[k] as int) <==> !InLetterClass(c, "acdglpsuwxz"[k] as int)
  {}

  // Every other character stands for itself.
  lemma Itself(c: Byte, cl: Byte)
    requires !OneOf(cl, "acdglpsuwxzACDGLPSUWXZ")
    ensures InLetterClass(c, cl) <==> c == cl
  {
    var chars := "acdglpsuwxzACDGLPSUWXZ";
    assert chars[0] == 'a' && chars[1] == 'c' && chars[2] == 'd' && chars[3] == 'g' && chars[4] == 'l';
    assert chars[5] == 'p' && chars[6] == 's' && chars[7] == 'u' && chars[8] == 'w' && chars[9] == 'x';
    assert chars[10] == 'z' && chars[11] == 'A' && chars[12] == 'C' && chars[13] == 'D' && chars[14] == 'G';
    assert chars[15] == 'L' && chars[16] == 'P' && chars[17] == 'S' && chars[18] == 'U' && chars[19] == 'W';
    assert chars[20] == 'X' && chars[21] == 'Z';
  }

  // Letters in both cases
  lemma Cases(c: Byte)
    ensures InLetterClass(c, 'u' as int) ==> ToLower(c) != c && InLetterClass(ToLower(c), 'l' as int)
    ensures !InLetterClass(c, 'u' as int) ==> ToLower(c) == c
    ensures forall k :: 0 <= k < 26 && c == "ABCDEFGHIJKLMNOPQRSTUVWXYZ"[k] as int ==>
              ToLower(c) == "abcdefghijklmnopqrstuvwxyz"[k] as int
  {}
}
