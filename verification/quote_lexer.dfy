// The lexer's string reader (read_string in llex.c) and the quoter (addquoted in lstrlib.c), step
// by step: the input is consumed, the token buffer and the line counter are updated in place.
module QuoteLexer {
  import opened QuoteStrings

  datatype Result = Str(s: seq<Byte>) | Failed(fault: Fault)

  datatype Code = Value(c: Byte) | NoCode | BadCode(fault: Fault)

  function Prepend(p: seq<Byte>, r: Read): Read { if r.Chars? then r.(s := p + r.s) else r }

  lemma PrependByte(p: seq<Byte>, c: Byte, r: Read)
    ensures Prepend(p, Cons(c, r)) == Prepend(p + [c], r)
  {
    if r.Chars? { assert p + ([c] + r.s) == p + [c] + r.s; }
  }

  lemma DigitStep(src: seq<Byte>, i: nat, n: nat, acc: nat)
    ensures DecimalAt(src, i, n, acc) == if n > 0 && IsDigit(At(src, i)) then DecimalAt(src, i + 1, n - 1, 10 * acc + At(src, i) - 48) else (acc, i)
  {}

  // One round of the loop of read_string
  lemma ReadStep(src: seq<Byte>, i: nat, del: Byte, line: nat)
    requires i <= |src|
    ensures var c, r := At(src, i), ReadFrom(src, i, del, line);
            if c == del then r == Chars([], i + 1, line)
            else if c == EOZ || IsNewline(c) then r == LexError(UnfinishedString)
            else if c != BS then i < |src| && r == Cons(c, ReadFrom(src, i + 1, del, line))
            else i < |src| &&
                 match EscapeAt(src, i + 1, line)
                 case OneByte(b, j, line') => r == Cons(b, ReadFrom(src, j, del, line'))
                 case NoByte(j, line') => r == ReadFrom(src, j, del, line')
                 case Bad(fault) => r == LexError(fault)
  {
    hide EscapeAt;
  }

  class LexState {
    var z: seq<Byte>       // what has not been taken from the stream
    var current: int
    var linenumber: nat
    var buff: seq<Byte>
    ghost var src: seq<Byte>
    ghost var pos: nat     // where 'current' is in src

    ghost predicate Valid()
      reads this
    {
      pos <= |src| && current == At(src, pos) && z == (if pos < |src| then src[pos + 1..] else [])
    }

    constructor (text: seq<Byte>)
      ensures Valid() && src == text && pos == 0 && linenumber == 1 && buff == []
    {
      current, z := if text == [] then EOZ else text[0], if text == [] then [] else text[1..];
      linenumber, buff, src, pos := 1, [], text, 0;
    }

    // next; zgetc
    method Next()
      requires Valid()
      modifies this`z, this`current, this`pos
      ensures Valid() && pos == if old(pos) < |src| then old(pos) + 1 else old(pos)
    {
      pos := if pos < |src| then pos + 1 else pos;
      if z == [] {
        current := EOZ;
      } else {
        current, z := z[0], z[1..];
      }
    }

    method SaveAndNext()
      requires Valid() && current != EOZ
      modifies this`z, this`current, this`pos, this`buff
      ensures Valid() && pos == old(pos) + 1 && buff == old(buff) + [old(current)]
    {
      buff := buff + [current];
      Next();
    }

    // inclinenumber
    method IncLineNumber() returns (ok: bool)
      requires Valid() && IsNewline(current)
      modifies this`z, this`current, this`pos, this`linenumber
      ensures Valid() && pos == AfterNewline(src, old(pos)) && ok == (old(linenumber) + 1 < MAX_INT) &&
              linenumber == old(linenumber) + 1
    {
      var was := current;
      Next();
      if IsNewline(current) && current != was { Next(); }
      linenumber := linenumber + 1;
      ok := linenumber < MAX_INT;
    }

    // readhexaesc; 'current' is the x
    method ReadHexaEsc() returns (r: Code)
      requires Valid() && current == 120
      modifies this`z, this`current, this`pos
      ensures Valid()
      ensures r.Value? <==> IsHex(At(src, old(pos) + 1)) && IsHex(At(src, old(pos) + 2))
      ensures r.Value? ==> pos == old(pos) + 2 && r.c == 16 * HexValue(At(src, old(pos) + 1)) + HexValue(At(src, old(pos) + 2))
      ensures !r.Value? ==> r == BadCode(HexDigitExpected)
    {
      Next();
      if !IsHex(current) { return BadCode(HexDigitExpected); }
      var v := HexValue(current);
      Next();
      if !IsHex(current) { return BadCode(HexDigitExpected); }
      r := Value(16 * v + HexValue(current));
    }

    // readdecesc
    method ReadDecEsc() returns (r: Code)
      requires Valid() && IsDigit(current)
      modifies this`z, this`current, this`pos
      ensures Valid() && pos == DecimalAt(src, old(pos), 3, 0).1
      ensures r == if DecimalAt(src, old(pos), 3, 0).0 > 255 then BadCode(EscapeTooLarge) else Value(DecimalAt(src, old(pos), 3, 0).0)
    {
      hide DecimalAt, At;
      var i, v: nat := 0, 0;
      while i < 3 && IsDigit(current)
        invariant i <= 3 && Valid() && DecimalAt(src, pos, 3 - i, v) == DecimalAt(src, old(pos), 3, 0)
      {
        DigitStep(src, pos, 3 - i, v);
        v := 10 * v + current - 48;
        Next();
        i := i + 1;
      }
      DigitStep(src, pos, 3 - i, v);
      r := if v > 255 then BadCode(EscapeTooLarge) else Value(v);
    }

    // The loop of the escape \z
    method SkipSpaces() returns (ok: bool)
      requires Valid()
      modifies this`z, this`current, this`pos, this`linenumber
      ensures Valid() && ok == Spaces(src, old(pos), old(linenumber)).Chars? &&
              (!ok ==> Spaces(src, old(pos), old(linenumber)) == LexError(TooManyLines))
      ensures ok ==> Spaces(src, old(pos), old(linenumber)) == Chars([], pos, linenumber)
    {
      while IsSpace(current)
        invariant Valid() && Spaces(src, pos, linenumber) == Spaces(src, old(pos), old(linenumber))
        decreases |src| - pos
      {
        if IsNewline(current) {
          ok := IncLineNumber();
          if !ok { return; }
        } else {
          Next();
        }
      }
      ok := true;
    }

    // The escape sequences, from behind the backslash
    method ReadEscape() returns (e: Code)
      requires Valid()
      modifies this`z, this`current, this`pos, this`linenumber
      ensures var r := EscapeAt(src, old(pos), old(linenumber));
              (!r.Bad? ==> Valid() && pos == r.end && linenumber == r.line) &&
              e == if r.OneByte? then Value(r.c) else if r.NoByte? then NoCode else BadCode(r.fault)
    {
      if current in {97, 98, 102, 110, 114, 116, 118} {
        var c := Simple(current);
        Next();
        e := Value(c);
      } else if current == 120 {
        var r := ReadHexaEsc();
        if r.BadCode? { return BadCode(r.fault); }
        Next();
        e := Value(r.c);
      } else if IsNewline(current) {
        var ok := IncLineNumber();
        e := if ok then Value(NL) else BadCode(TooManyLines);
      } else if current == BS || current == DQ || current == SQ {
        var c: Byte := current;
        Next();
        e := Value(c);
      } else if current == EOZ {
        e := NoCode;
      } else if current == 122 {
        Next();
        var ok := SkipSpaces();
        e := if ok then NoCode else BadCode(TooManyLines);
      } else if !IsDigit(current) {
        e := BadCode(InvalidEscape);
      } else {
        var r := ReadDecEsc();
        e := if r.Value? then Value(r.c) else BadCode(r.fault);
      }
    }

    // One round of the loop of read_string
    method ReadOne(del: Byte) returns (ok: bool, fault: Fault)
      requires Valid() && current != del && |buff| > 0
      modifies this`z, this`current, this`pos, this`linenumber, this`buff
      ensures !ok ==> ReadFrom(src, old(pos), del, old(linenumber)) == LexError(fault)
      ensures ok ==> Valid() && pos > old(pos) && |buff| > 0 &&
                     Prepend(old(buff)[1..], ReadFrom(src, old(pos), del, old(linenumber))) == Prepend(buff[1..], ReadFrom(src, pos, del, linenumber))
    {
      hide EscapeAt, ReadFrom, Prepend, Cons, IsNewline;
      ok, fault := true, UnfinishedString;
      ReadStep(src, pos, del, linenumber);
      if current == EOZ || IsNewline(current) { return false, UnfinishedString; }
      var c := current;
      if c == BS {
        Next();
        var e := ReadEscape();
        if e.BadCode? { return false, e.fault; }
        if e.Value? { Save(e.c, ReadFrom(src, pos, del, linenumber)); }
      } else {
        Next();
        Save(c, ReadFrom(src, pos, del, linenumber));
      }
    }

    // save
    method Save(c: Byte, ghost r: Read)
      requires |buff| > 0
      modifies this`buff
      ensures buff == old(buff) + [c] && Prepend(old(buff)[1..], Cons(c, r)) == Prepend(buff[1..], r)
    {
      PrependByte(buff[1..], c, r);
      assert buff[1..] + [c] == (buff + [c])[1..];
      buff := buff + [c];
    }

    // read_string
    method ReadString(del: Byte) returns (r: Result)
      requires Valid() && current == del && buff == []
      modifies this`z, this`current, this`pos, this`linenumber, this`buff
      ensures var all := ReadFrom(src, old(pos) + 1, del, old(linenumber));
              if all.Chars? then r == Str(all.s) && Valid() && pos == all.end && linenumber == all.line else r == Failed(all.fault)
    {
      hide Valid, EscapeAt, ReadFrom;
      CurrentIs();
      SaveAndNext();
      CurrentIs();
      ghost var all := ReadFrom(src, pos, del, linenumber);
      NothingYet(all);
      while current != del
        invariant Valid() && current == At(src, pos) && pos <= |src|
        invariant |buff| > 0 && all == Prepend(buff[1..], ReadFrom(src, pos, del, linenumber))
        decreases |src| - pos
      {
        var ok, fault := ReadOne(del);
        if !ok { return Failed(fault); }
        CurrentIs();
      }
      ReadStep(src, pos, del, linenumber);
      ghost var s := buff[1..];
      SaveAndNext();
      assert buff[1..|buff| - 1] == s && s + [] == s;
      r := Str(buff[1..|buff| - 1]);
    }

    lemma CurrentIs()
      requires Valid()
      ensures current == At(src, pos) && pos <= |src|
    {}

    // The buffer holds the delimiter only.
    lemma NothingYet(r: Read)
      requires |buff| == 1
      ensures Prepend(buff[1..], r) == r
    {
      assert buff[1..] == [] && (r.Chars? ==> [] + r.s == r.s);
    }
  }

  // addquoted
  method AddQuoted(cntrl: Byte -> bool, b: seq<Byte>, s: seq<Byte>) returns (b': seq<Byte>)
    ensures b' == b + Quoted(cntrl, s)
  {
    hide QuotedBytes;
    b' := b + [DQ];
    assert s[0..] == s;
    var i := 0;
    while i < |s|
      invariant i <= |s| && b' + QuotedBytes(cntrl, s[i..]) == b + [DQ] + QuotedBytes(cntrl, s)
    {
      var c := s[i];
      ghost var was, q, more := b', QuotedByte(cntrl, c, Following(s[i + 1..])), QuotedBytes(cntrl, s[i + 1..]);
      assert s[i..][1..] == s[i + 1..];
      QuotedFirst(cntrl, s[i..]);
      if c == DQ || c == BS || c == NL {
        b' := b' + [BS];
        b' := b' + [c];
      } else if c == 0 || cntrl(c) {
        if !IsDigit(if i + 1 < |s| then s[i + 1] else 0) {
          b' := b' + Decimal(c);
        } else {
          b' := b' + Decimal3(c);
        }
      } else {
        b' := b' + [c];
      }
      assert b' == was + q;
      assert was + (q + more) == was + q + more;
      i := i + 1;
    }
    NothingQuoted(cntrl, s[i..]);
    assert b' + [] == b';
    b' := b' + [DQ];
    assert b + [DQ] + QuotedBytes(cntrl, s) + [DQ] == b + Quoted(cntrl, s);
  }

  lemma BeginsQuoted(cntrl: Byte -> bool, s: seq<Byte>, rest: seq<Byte>)
    ensures At(Quoted(cntrl, s) + rest, 0) == DQ
  {}

  lemma NothingQuoted(cntrl: Byte -> bool, s: seq<Byte>)
    requires s == []
    ensures QuotedBytes(cntrl, s) == []
  {}

  // A string that is quoted and then read.
  method QuoteAndRead(cntrl: Byte -> bool, s: seq<Byte>, rest: seq<Byte>) returns (r: Result)
    ensures cntrl(CR) && 1 + Lines(s) < 0x7FFF_FFFD ==> r == Str(s)
    ensures CR in s && !cntrl(CR) ==> r != Str(s)
  {
    hide ReadFrom, Quoted, At, Lines;
    var text := AddQuoted(cntrl, [], s);
    var ls := new LexState(text + rest);
    assert text == Quoted(cntrl, s);
    BeginsQuoted(cntrl, s, rest);
    ReadsBack(cntrl, s, rest, 1);
    r := ls.ReadString(DQ);
  }
}
