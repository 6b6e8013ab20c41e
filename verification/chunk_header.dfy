// The header of a precompiled chunk (luaU_header and LoadHeader in lundump.c): what it says of the
// machine and the version, and what is refused and why.
module ChunkHeader {
  import opened ChunkFormat
  import opened ChunkRoundTrip

  // luaU_header, piece by piece: signature, version 5.2, format, byte order and sizes, tail
  method LuaHeader() returns (h: seq<Byte>)
    ensures h == HEADER
  {
    var signature := "\U{001B}Lua";
    h := [];
    for i := 0 to |signature|
      invariant |h| == i && forall j :: 0 <= j < i ==> h[j] == signature[j] as int
    {
      h := h + [signature[i] as int];
    }
    h := h + [5 * 16 + 2];
    h := h + [0];
    h := h + [DumpWord(1)[0]];
    h := h + [|DumpWord(0)|];
    h := h + [|DumpSize(0)|];
    h := h + [|DumpWords([0])|];
    h := h + [|DumpWord(0)|];
    h := h + [0];
    h := h + [0x19, 0x93, '\r' as int, '\n' as int, 0x1A, '\n' as int];
    assert h[0] == 27 && h[1] == 76 && h[2] == 117 && h[3] == 97;
  }

  // A header that differs is refused for the first part that does: signature, version and format,
  // machine, or tail.  (Its first byte has been read before.)
  lemma HeaderRefused(b: seq<Byte>, i: nat)
    requires |b| >= 17 && 1 <= i < 18 && b[i - 1] != HEADER[i] && forall j :: 1 <= j < i ==> b[j - 1] == HEADER[j]
    ensures Undump(b) == Bad(if i < 4 then NotAChunk else if i < 6 then VersionMismatch else if i < 12 then Incompatible else Corrupted)
  {
    hide LoadFunction;
    var s := [HEADER[0]] + b[..17];
    assert forall j :: 1 <= j < 18 ==> s[j] == b[j - 1];
    assert s[i] != HEADER[i];
    if i < 4 {
      assert s[..4][i] != HEADER[..4][i];
    } else if i < 6 {
      assert s[..4] == HEADER[..4] && s[..6][i] != HEADER[..6][i];
    } else if i < 12 {
      assert s[..4] == HEADER[..4] && s[..6] == HEADER[..6] && s[..12][i] != HEADER[..12][i];
    } else {
      assert s[..4] == HEADER[..4] && s[..6] == HEADER[..6] && s[..12] == HEADER[..12];
    }
  }

  // Otherwise the function behind it is loaded.
  lemma HeaderAccepted(b: seq<Byte>)
    requires |b| >= 17 && b[..17] == HEADER[1..]
    ensures Undump(b) == LoadFunction(b[17..])
  {
    hide LoadFunction;
    assert [HEADER[0]] + b[..17] == HEADER;
  }

  lemma HeaderMissing(b: seq<Byte>)
    requires |b| < 17
    ensures Undump(b) == Bad(Truncated)
  {}

  lemma Digit(q: nat, r: nat)
    requires r < 0x100
    ensures (0x100 * q + r) / 0x100 == q && (0x100 * q + r) % 0x100 == r
  {}

  // The lowest byte first
  lemma WordBytes(b0: Byte, b1: Byte, b2: Byte, b3: Byte)
    ensures DumpWord(b0 + 0x100 * b1 + 0x1_0000 * b2 + 0x100_0000 * b3) == [b0, b1, b2, b3]
  {
    var x2 := 0x100 * b3 + b2;
    var x1 := 0x100 * x2 + b1;
    var x0 := 0x100 * x1 + b0;
    Digit(b3, b2);
    Digit(x2, b1);
    Digit(x1, b0);
    Shifted(x0);
  }

  lemma Shifted(x: Word)
    ensures DumpWord(x) == [x % 0x100, x / 0x100 % 0x100, x / 0x100 / 0x100 % 0x100, x / 0x100 / 0x100 / 0x100]
  {}

  // Where the fields of the main function are in a chunk
  lemma FunctionBegins(f: Proto, strip: bool)
    requires Fits(f)
    ensures var c := Dump(f, strip);
            |c| >= 29 && c[..18] == HEADER && c[18..22] == DumpWord(f.linedefined) && c[22..26] == DumpWord(f.lastlinedefined) &&
            c[26] == f.numparams && c[27] == f.isVararg && c[28] == f.maxstacksize
  {
    hide DumpWord, DumpVector, DumpConstants, DumpProtos, DumpUpvalues, DumpDebug, Fits;
    FitsCode(f);
    var rest := DumpVector(f.code) + (DumpWord(|f.k|) + (DumpConstants(f.k) + (DumpWord(|f.p|) + (DumpProtos(f.p, strip) +
      (DumpWord(|f.upvalues|) + (DumpUpvalues(f.upvalues) + DumpDebug(f, strip)))))));
    assert DumpFunction(f, strip) == DumpWord(f.linedefined) + (DumpWord(f.lastlinedefined) + ([f.numparams] + ([f.isVararg] + ([f.maxstacksize] + rest))));
    var c := HEADER + (DumpWord(f.linedefined) + (DumpWord(f.lastlinedefined) + ([f.numparams] + ([f.isVararg] + ([f.maxstacksize] + rest)))));
    assert Dump(f, strip) == c;
    assert c[..18] == HEADER && c[18..22] == DumpWord(f.linedefined) && c[22..26] == DumpWord(f.lastlinedefined);
  }
}
