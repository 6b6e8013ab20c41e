// Loading undoes dumping, and a chunk that is cut short is refused.
module ChunkRoundTrip {
  import opened Common
  import opened ChunkFormat

  // ----- pieces -----

  lemma Assoc(a: seq<Byte>, b: seq<Byte>, c: seq<Byte>)
    ensures a + b + c == a + (b + c)
  {}

  lemma BlockFirst(a: seq<Byte>, rest: seq<Byte>)
    ensures LoadBlock(a + rest, |a|) == Got(a, rest)
  {
    assert (a + rest)[..|a|] == a && (a + rest)[|a|..] == rest;
  }

  lemma ByteFirst(x: Byte, rest: seq<Byte>)
    ensures LoadByte([x] + rest) == Got(x, rest)
  {
    BlockFirst([x], rest);
  }

  lemma WordBack(x: Word)
    ensures WordOf(DumpWord(x)) == x
  {
    var a, b := x / 0x100, x / 0x1_0000;
    assert b == a / 0x100 && x / 0x100_0000 == b / 0x100;
    assert x == 0x100 * a + x % 0x100 && a == 0x100 * b + a % 0x100 && b == 0x100 * (b / 0x100) + b % 0x100;
  }

  lemma WordFirst(x: Word, rest: seq<Byte>)
    ensures LoadWord(DumpWord(x) + rest) == Got(x, rest)
  {
    BlockFirst(DumpWord(x), rest);
    WordBack(x);
  }

  lemma IntFirst(x: Int, rest: seq<Byte>)
    ensures LoadInt(DumpWord(x) + rest) == Got(x, rest)
  {
    hide LoadWord, DumpWord;
    WordFirst(x, rest);
  }

  lemma SizeFirst(n: nat, rest: seq<Byte>)
    requires n < 0x1_0000_0000_0000_0000
    ensures LoadSize(DumpSize(n) + rest) == Got(n, rest)
  {
    hide DumpWord, WordOf;
    var lo, hi := n % 0x1_0000_0000, n / 0x1_0000_0000;
    BlockFirst(DumpSize(n), rest);
    assert DumpSize(n)[..4] == DumpWord(lo) && DumpSize(n)[4..] == DumpWord(hi);
    WordBack(lo);
    WordBack(hi);
  }

  lemma StringFirst(s: Option<seq<Byte>>, rest: seq<Byte>)
    requires Storable(s)
    ensures LoadString(DumpString(s) + rest) == Got(s, rest)
  {
    hide DumpSize, LoadSize;
    if s.None? {
      SizeFirst(0, rest);
    } else {
      var tail := s.value + [0];
      Assoc(DumpSize(|s.value| + 1), tail, rest);
      SizeFirst(|s.value| + 1, tail + rest);
      BlockFirst(tail, rest);
      assert tail[..|s.value|] == s.value;
    }
  }

  lemma {:induction false} WordsBack(v: seq<Word>)
    ensures WordsOf(DumpWords(v)) == v
    decreases |v|
  {
    hide DumpWord, WordOf;
    if v != [] {
      var d := DumpWords(v);
      assert d[..4] == DumpWord(v[0]) && d[4..] == DumpWords(v[1..]);
      WordBack(v[0]);
      WordsBack(v[1..]);
    }
  }

  lemma VectorFirst(v: seq<Word>, rest: seq<Byte>)
    requires Countable(|v|)
    ensures LoadVector(DumpVector(v) + rest) == Got(v, rest)
  {
    hide DumpWord, DumpWords, LoadInt, WordsOf;
    Assoc(DumpWord(|v|), DumpWords(v), rest);
    IntFirst(|v|, DumpWords(v) + rest);
    BlockFirst(DumpWords(v), rest);
    WordsBack(v);
  }

  // ----- constants, upvalues, debug information -----

  lemma ConstantFirst(c: Constant, rest: seq<Byte>)
    requires ConstantFits(c)
    ensures LoadConstant(DumpConstant(c) + rest) == Got(c, rest)
  {
    hide DumpWord, DumpString, LoadString, LoadByte, LoadWord;
    match c
    case Nil => ByteFirst(0, rest);
    case Boolean(b) =>
      var x: Byte := if b then 1 else 0;
      Assoc([1], [x], rest);
      ByteFirst(1, [x] + rest);
      ByteFirst(x, rest);
    case Number(bits) =>
      Assoc([3], DumpWord(bits), rest);
      ByteFirst(3, DumpWord(bits) + rest);
      WordFirst(bits, rest);
    case String(s) =>
      Assoc([4], DumpString(Some(s)), rest);
      ByteFirst(4, DumpString(Some(s)) + rest);
      StringFirst(Some(s), rest);
  }

  lemma {:induction false} ConstantsFirst(ks: seq<Constant>, rest: seq<Byte>)
    requires forall i :: 0 <= i < |ks| ==> ConstantFits(ks[i])
    ensures LoadConstants(|ks|, DumpConstants(ks) + rest) == Got(ks, rest)
    decreases |ks|
  {
    hide DumpConstant, LoadConstant;
    if ks == [] {
      assert [] + rest == rest;
    } else {
      var more := DumpConstants(ks[1..]);
      Assoc(DumpConstant(ks[0]), more, rest);
      ConstantFirst(ks[0], more + rest);
      ConstantsFirst(ks[1..], rest);
      assert ks == [ks[0]] + ks[1..];
    }
  }

  lemma {:induction false} UpvaluesFirst(us: seq<Upvalue>, rest: seq<Byte>)
    ensures LoadUpvalues(|us|, DumpUpvalues(us) + rest) == Got(Nameless(us), rest)
    decreases |us|
  {
    hide LoadByte;
    if us == [] {
      assert [] + rest == rest;
    } else {
      var more := DumpUpvalues(us[1..]);
      Assoc([us[0].instack], [us[0].idx] + more, rest);
      Assoc([us[0].idx], more, rest);
      ByteFirst(us[0].instack, [us[0].idx] + (more + rest));
      ByteFirst(us[0].idx, more + rest);
      UpvaluesFirst(us[1..], rest);
    }
  }

  lemma {:induction false} LocVarsFirst(vs: seq<LocVar>, rest: seq<Byte>)
    requires forall i :: 0 <= i < |vs| ==> Storable(vs[i].varname)
    ensures LoadLocVars(|vs|, DumpLocVars(vs) + rest) == Got(vs, rest)
    decreases |vs|
  {
    hide DumpWord, DumpString, LoadString, LoadInt;
    if vs == [] {
      assert [] + rest == rest;
    } else {
      var more := DumpLocVars(vs[1..]);
      var c := DumpWord(vs[0].endpc) + more;
      Assoc(DumpString(vs[0].varname), DumpWord(vs[0].startpc) + c, rest);
      Assoc(DumpWord(vs[0].startpc), c, rest);
      Assoc(DumpWord(vs[0].endpc), more, rest);
      StringFirst(vs[0].varname, DumpWord(vs[0].startpc) + (c + rest));
      IntFirst(vs[0].startpc, c + rest);
      IntFirst(vs[0].endpc, more + rest);
      LocVarsFirst(vs[1..], rest);
      assert vs == [vs[0]] + vs[1..];
    }
  }

  function NamesOf(us: seq<Upvalue>): seq<Option<seq<Byte>>> {
    if us == [] then [] else [us[0].name] + NamesOf(us[1..])
  }

  lemma {:induction false} NamesFirst(us: seq<Upvalue>, rest: seq<Byte>)
    requires forall i :: 0 <= i < |us| ==> Storable(us[i].name)
    ensures LoadNames(|us|, DumpNames(us) + rest) == Got(NamesOf(us), rest)
    decreases |us|
  {
    hide DumpString, LoadString;
    if us == [] {
      assert [] + rest == rest;
    } else {
      var more := DumpNames(us[1..]);
      Assoc(DumpString(us[0].name), more, rest);
      StringFirst(us[0].name, more + rest);
      NamesFirst(us[1..], rest);
    }
  }

  lemma {:induction false} NamedAgain(us: seq<Upvalue>)
    ensures Named(Nameless(us), NamesOf(us)) == us
    decreases |us|
  {
    if us != [] {
      var bare, names := Nameless(us[1..]), NamesOf(us[1..]);
      NamedAgain(us[1..]);
      NamedStep(us[0].(name := None), us[0].name, bare, names);
      assert us == [us[0]] + us[1..];
    }
  }

  lemma NamedStep(u: Upvalue, name: Option<seq<Byte>>, us: seq<Upvalue>, names: seq<Option<seq<Byte>>>)
    ensures Named([u] + us, [name] + names) == [u.(name := name)] + Named(us, names)
  {
    assert ([u] + us)[1..] == us && ([name] + names)[1..] == names;
  }

  // The debug information of g, which has all else of f.
  lemma DebugFirst(f: Proto, g: Proto, strip: bool, rest: seq<Byte>)
    requires Fits(f) && g.upvalues == Nameless(f.upvalues)
    ensures LoadDebug(g, DumpDebug(f, strip) + rest) ==
            Got(if strip then g.(source := None, lineinfo := [], locvars := [])
                else g.(source := f.source, lineinfo := f.lineinfo, locvars := f.locvars, upvalues := f.upvalues), rest)
  {
    hide DumpWord, DumpString, DumpVector, DumpLocVars, DumpNames, LoadString, LoadVector, LoadInt, LoadLocVars, LoadNames, Named, Fits, Nameless;
    FitsDebug(f);
    var source := if strip then None else f.source;
    var lineinfo := if strip then [] else f.lineinfo;
    var locvars := if strip then [] else f.locvars;
    var named := if strip then [] else f.upvalues;
    var e := DumpNames(named);
    var d := DumpWord(|named|) + e;
    var c := DumpLocVars(locvars) + d;
    var b := DumpWord(|locvars|) + c;
    Assoc(DumpString(source), DumpVector(lineinfo) + b, rest);
    Assoc(DumpVector(lineinfo), b, rest);
    Assoc(DumpWord(|locvars|), c, rest);
    Assoc(DumpLocVars(locvars), d, rest);
    Assoc(DumpWord(|named|), e, rest);
    StringFirst(source, DumpVector(lineinfo) + (b + rest));
    VectorFirst(lineinfo, b + rest);
    IntFirst(|locvars|, c + rest);
    LocVarsFirst(locvars, d + rest);
    IntFirst(|named|, e + rest);
    NamesFirst(named, rest);
    NamedAgain(f.upvalues);
    NamedByNone(g.upvalues);
  }

  lemma NamedByNone(us: seq<Upvalue>)
    ensures Named(us, NamesOf([])) == us
  {}

  lemma FitsDebug(f: Proto)
    requires Fits(f)
    ensures Countable(|f.upvalues|) && Countable(|f.lineinfo|) && Countable(|f.locvars|) && Storable(f.source)
    ensures forall i :: 0 <= i < |f.locvars| ==> Storable(f.locvars[i].varname)
    ensures forall i :: 0 <= i < |f.upvalues| ==> Storable(f.upvalues[i].name)
  {}

  lemma FitsCode(f: Proto)
    requires Fits(f)
    ensures Countable(|f.code|) && Countable(|f.k|) && Countable(|f.p|) && Countable(|f.upvalues|)
    ensures forall i :: 0 <= i < |f.k| ==> ConstantFits(f.k[i])
    ensures forall i :: 0 <= i < |f.p| ==> Fits(f.p[i])
  {}

  // ----- functions -----

  lemma {:induction false} ProtosFirst(fs: seq<Proto>, strip: bool, rest: seq<Byte>)
    requires forall i :: 0 <= i < |fs| ==> Fits(fs[i])
    ensures LoadProtos(|fs|, DumpProtos(fs, strip) + rest) == Got(if strip then AllStripped(fs) else fs, rest)
    decreases fs
  {
    hide DumpFunction, LoadFunction, Stripped, Fits;
    if fs == [] {
      assert [] + rest == rest;
    } else {
      var more := DumpProtos(fs[1..], strip);
      Assoc(DumpFunction(fs[0], strip), more, rest);
      FunctionFirst(fs[0], strip, more + rest);
      ProtosFirst(fs[1..], strip, rest);
      assert fs == [fs[0]] + fs[1..];
    }
  }

  lemma {:induction false} FunctionFirst(f: Proto, strip: bool, rest: seq<Byte>)
    requires Fits(f)
    ensures LoadFunction(DumpFunction(f, strip) + rest) == Got(if strip then Stripped(f) else f, rest)
    decreases f
  {
    hide DumpWord, DumpVector, DumpConstants, DumpProtos, DumpUpvalues, DumpDebug, Fits, Nameless, AllStripped;
    hide LoadInt, LoadByte, LoadVector, LoadConstants, LoadProtos, LoadUpvalues, LoadDebug;
    FitsCode(f);
    var m := DumpDebug(f, strip);
    var l := DumpUpvalues(f.upvalues) + m;
    var k := DumpWord(|f.upvalues|) + l;
    var j := DumpProtos(f.p, strip) + k;
    var i := DumpWord(|f.p|) + j;
    var h := DumpConstants(f.k) + i;
    var g := DumpWord(|f.k|) + h;
    var e := DumpVector(f.code) + g;
    var d := [f.maxstacksize] + e;
    var c := [f.isVararg] + d;
    var b := [f.numparams] + c;
    Assoc(DumpWord(f.linedefined), DumpWord(f.lastlinedefined) + b, rest);
    Assoc(DumpWord(f.lastlinedefined), b, rest);
    Assoc([f.numparams], c, rest);
    Assoc([f.isVararg], d, rest);
    Assoc([f.maxstacksize], e, rest);
    Assoc(DumpVector(f.code), g, rest);
    Assoc(DumpWord(|f.k|), h, rest);
    Assoc(DumpConstants(f.k), i, rest);
    Assoc(DumpWord(|f.p|), j, rest);
    Assoc(DumpProtos(f.p, strip), k, rest);
    Assoc(DumpWord(|f.upvalues|), l, rest);
    Assoc(DumpUpvalues(f.upvalues), m, rest);
    IntFirst(f.linedefined, DumpWord(f.lastlinedefined) + (b + rest));
    IntFirst(f.lastlinedefined, b + rest);
    ByteFirst(f.numparams, c + rest);
    ByteFirst(f.isVararg, d + rest);
    ByteFirst(f.maxstacksize, e + rest);
    VectorFirst(f.code, g + rest);
    IntFirst(|f.k|, h + rest);
    ConstantsFirst(f.k, i + rest);
    IntFirst(|f.p|, j + rest);
    ProtosFirst(f.p, strip, k + rest);
    IntFirst(|f.upvalues|, l + rest);
    UpvaluesFirst(f.upvalues, m + rest);
    var f0 := f.(p := if strip then AllStripped(f.p) else f.p, upvalues := Nameless(f.upvalues), source := None, lineinfo := [], locvars := []);
    DebugFirst(f, f0, strip, rest);
  }

  // The whole chunk, after its first byte.
  lemma UndumpDump(f: Proto, strip: bool, rest: seq<Byte>)
    requires Fits(f)
    ensures Undump((Dump(f, strip) + rest)[1..]) == Got(if strip then Stripped(f) else f, rest)
  {
    hide DumpFunction, LoadFunction, Fits, Stripped;
    var h := HEADER[1..];
    assert (Dump(f, strip) + rest)[1..] == h + (DumpFunction(f, strip) + rest);
    BlockFirst(h, DumpFunction(f, strip) + rest);
    assert [HEADER[0]] + h == HEADER;
    FunctionFirst(f, strip, rest);
  }

  // ----- chunks that are cut short -----

  // More input changes no result but 'truncated'.
  predicate Persists<T(==)>(a: Got<T>, c: Got<T>, more: seq<Byte>) {
    if a.Got? then c == Got(a.v, a.rest + more) else a.fault == Truncated || c == a
  }

  lemma BlockPersists(b: seq<Byte>, n: nat, more: seq<Byte>)
    ensures Persists(LoadBlock(b, n), LoadBlock(b + more, n), more)
  {
    if n <= |b| { assert (b + more)[..n] == b[..n] && (b + more)[n..] == b[n..] + more; }
  }

  lemma BytePersists(b: seq<Byte>, more: seq<Byte>)
    ensures Persists(LoadByte(b), LoadByte(b + more), more)
  {
    hide LoadBlock;
    BlockPersists(b, 1, more);
  }

  lemma WordPersists(b: seq<Byte>, more: seq<Byte>)
    ensures Persists(LoadWord(b), LoadWord(b + more), more)
  {
    hide LoadBlock;
    BlockPersists(b, 4, more);
  }

  lemma IntPersists(b: seq<Byte>, more: seq<Byte>)
    ensures Persists(LoadInt(b), LoadInt(b + more), more)
  {
    hide LoadWord;
    WordPersists(b, more);
  }

  lemma StringPersists(b: seq<Byte>, more: seq<Byte>)
    ensures Persists(LoadString(b), LoadString(b + more), more)
  {
    hide LoadBlock, WordOf;
    BlockPersists(b, 8, more);
    var r := LoadSize(b);
    if r.Got? && r.v > 0 { BlockPersists(r.rest, r.v, more); }
  }

  lemma VectorPersists(b: seq<Byte>, more: seq<Byte>)
    ensures Persists(LoadVector(b), LoadVector(b + more), more)
  {
    hide LoadInt, LoadBlock, WordsOf;
    IntPersists(b, more);
    var r := LoadInt(b);
    if r.Got? { BlockPersists(r.rest, 4 * r.v, more); }
  }

  lemma ConstantPersists(b: seq<Byte>, more: seq<Byte>)
    ensures Persists(LoadConstant(b), LoadConstant(b + more), more)
  {
    hide LoadByte, LoadWord, LoadString;
    BytePersists(b, more);
    var r := LoadByte(b);
    if r.Got? {
      BytePersists(r.rest, more);
      WordPersists(r.rest, more);
      StringPersists(r.rest, more);
    }
  }

  lemma {:induction false} ConstantsPersist(n: nat, b: seq<Byte>, more: seq<Byte>)
    ensures Persists(LoadConstants(n, b), LoadConstants(n, b + more), more)
    decreases n
  {
    hide LoadConstant;
    if n > 0 {
      ConstantPersists(b, more);
      var r := LoadConstant(b);
      if r.Got? { ConstantsPersist(n - 1, r.rest, more); }
    }
  }

  lemma {:induction false} UpvaluesPersist(n: nat, b: seq<Byte>, more: seq<Byte>)
    ensures Persists(LoadUpvalues(n, b), LoadUpvalues(n, b + more), more)
    decreases n
  {
    hide LoadByte;
    if n > 0 {
      BytePersists(b, more);
      var r := LoadByte(b);
      if r.Got? {
        BytePersists(r.rest, more);
        var r2 := LoadByte(r.rest);
        if r2.Got? { UpvaluesPersist(n - 1, r2.rest, more); }
      }
    }
  }

  lemma {:induction false} LocVarsPersist(n: nat, b: seq<Byte>, more: seq<Byte>)
    ensures Persists(LoadLocVars(n, b), LoadLocVars(n, b + more), more)
    decreases n
  {
    hide LoadString, LoadInt;
    if n > 0 {
      StringPersists(b, more);
      var r := LoadString(b);
      if r.Got? {
        IntPersists(r.rest, more);
        var r2 := LoadInt(r.rest);
        if r2.Got? {
          IntPersists(r2.rest, more);
          var r3 := LoadInt(r2.rest);
          if r3.Got? { LocVarsPersist(n - 1, r3.rest, more); }
        }
      }
    }
  }

  lemma {:induction false} NamesPersist(n: nat, b: seq<Byte>, more: seq<Byte>)
    ensures Persists(LoadNames(n, b), LoadNames(n, b + more), more)
    decreases n
  {
    hide LoadString;
    if n > 0 {
      StringPersists(b, more);
      var r := LoadString(b);
      if r.Got? { NamesPersist(n - 1, r.rest, more); }
    }
  }

  lemma DebugPersists(f: Proto, b: seq<Byte>, more: seq<Byte>)
    ensures Persists(LoadDebug(f, b), LoadDebug(f, b + more), more)
  {
    hide LoadString, LoadVector, LoadInt, LoadLocVars, LoadNames, Named;
    StringPersists(b, more);
    var r1 := LoadString(b);
    if r1.Bad? { return; }
    VectorPersists(r1.rest, more);
    var r2 := LoadVector(r1.rest);
    if r2.Bad? { return; }
    IntPersists(r2.rest, more);
    var r3 := LoadInt(r2.rest);
    if r3.Bad? { return; }
    LocVarsPersist(r3.v, r3.rest, more);
    var r4 := LoadLocVars(r3.v, r3.rest);
    if r4.Bad? { return; }
    IntPersists(r4.rest, more);
    var r5 := LoadInt(r4.rest);
    if r5.Bad? { return; }
    NamesPersist(r5.v, r5.rest, more);
  }

  lemma {:induction false} ProtosPersist(n: nat, b: seq<Byte>, more: seq<Byte>)
    ensures Persists(LoadProtos(n, b), LoadProtos(n, b + more), more)
    decreases |b|, n + 1
  {
    hide LoadFunction;
    if n > 0 {
      FunctionPersists(b, more);
      var r := LoadFunction(b);
      if r.Got? { ProtosPersist(n - 1, r.rest, more); }
    }
  }

  // The numbers and flags at the beginning of a function.
  function LoadHead(b: seq<Byte>): (r: Got<(Int, Int, Byte, Byte, Byte)>)
    ensures r.Got? ==> |r.rest| < |b|
  {
    var (linedefined, b1) :- LoadInt(b);
    var (lastlinedefined, b2) :- LoadInt(b1);
    var (numparams, b3) :- LoadByte(b2);
    var (isVararg, b4) :- LoadByte(b3);
    var (maxstacksize, b5) :- LoadByte(b4);
    Got((linedefined, lastlinedefined, numparams, isVararg, maxstacksize), b5)
  }

  lemma HeadPersists(b: seq<Byte>, more: seq<Byte>)
    ensures Persists(LoadHead(b), LoadHead(b + more), more)
  {
    hide LoadInt, LoadByte;
    IntPersists(b, more);
    var r1 := LoadInt(b);
    if r1.Bad? { return; }
    IntPersists(r1.rest, more);
    var r2 := LoadInt(r1.rest);
    if r2.Bad? { return; }
    BytePersists(r2.rest, more);
    var r3 := LoadByte(r2.rest);
    if r3.Bad? { return; }
    BytePersists(r3.rest, more);
    var r4 := LoadByte(r3.rest);
    if r4.Bad? { return; }
    BytePersists(r4.rest, more);
  }

  // What follows them.
  function LoadBody(h: (Int, Int, Byte, Byte, Byte), b: seq<Byte>): Got<Proto> {
    var (code, b6) :- LoadVector(b);
    var (nk, b7) :- LoadInt(b6);
    var (k, b8) :- LoadConstants(nk, b7);
    var (np, b9) :- LoadInt(b8);
    var (p, b10) :- LoadProtos(np, b9);
    var (nu, b11) :- LoadInt(b10);
    var (upvalues, b12) :- LoadUpvalues(nu, b11);
    LoadDebug(Proto(h.0, h.1, h.2, h.3, h.4, code, k, p, upvalues, None, [], []), b12)
  }

  lemma HeadThenBody(b: seq<Byte>)
    ensures var h := LoadHead(b); LoadFunction(b) == if h.Got? then LoadBody(h.v, h.rest) else Bad(h.fault)
  {
    hide LoadInt, LoadByte, LoadVector, LoadConstants, LoadProtos, LoadUpvalues, LoadDebug;
  }

  lemma {:induction false} BodyPersists(h: (Int, Int, Byte, Byte, Byte), b: seq<Byte>, more: seq<Byte>)
    ensures Persists(LoadBody(h, b), LoadBody(h, b + more), more)
    decreases |b|, 1
  {
    hide LoadInt, LoadVector, LoadConstants, LoadProtos, LoadUpvalues, LoadDebug;
    VectorPersists(b, more);
    var r6 := LoadVector(b);
    if r6.Bad? { return; }
    IntPersists(r6.rest, more);
    var r7 := LoadInt(r6.rest);
    if r7.Bad? { return; }
    ConstantsPersist(r7.v, r7.rest, more);
    var r8 := LoadConstants(r7.v, r7.rest);
    if r8.Bad? { return; }
    IntPersists(r8.rest, more);
    var r9 := LoadInt(r8.rest);
    if r9.Bad? { return; }
    ProtosPersist(r9.v, r9.rest, more);
    var r10 := LoadProtos(r9.v, r9.rest);
    if r10.Bad? { return; }
    IntPersists(r10.rest, more);
    var r11 := LoadInt(r10.rest);
    if r11.Bad? { return; }
    UpvaluesPersist(r11.v, r11.rest, more);
    var r12 := LoadUpvalues(r11.v, r11.rest);
    if r12.Bad? { return; }
    DebugPersists(Proto(h.0, h.1, h.2, h.3, h.4, r6.v, r8.v, r10.v, r12.v, None, [], []), r12.rest, more);
  }

  lemma {:induction false} FunctionPersists(b: seq<Byte>, more: seq<Byte>)
    ensures Persists(LoadFunction(b), LoadFunction(b + more), more)
    decreases |b|, 0
  {
    hide LoadHead, LoadBody, LoadFunction;
    HeadThenBody(b);
    HeadThenBody(b + more);
    HeadPersists(b, more);
    var h := LoadHead(b);
    if h.Got? { BodyPersists(h.v, h.rest, more); }
  }

  lemma HeaderPersists(b: seq<Byte>, more: seq<Byte>)
    ensures Persists(LoadHeader(b), LoadHeader(b + more), more)
  {
    hide LoadBlock;
    BlockPersists(b, |HEADER| - 1, more);
  }

  lemma UndumpPersists(b: seq<Byte>, more: seq<Byte>)
    ensures Persists(Undump(b), Undump(b + more), more)
  {
    hide LoadHeader, LoadFunction;
    HeaderPersists(b, more);
    var r := LoadHeader(b);
    if r.Got? { FunctionPersists(r.rest, more); }
  }

  // Every part of a chunk that is not the whole is refused as truncated.
  lemma CutShort(f: Proto, strip: bool, n: nat)
    requires Fits(f) && 0 < n < |Dump(f, strip)|
    ensures Undump(Dump(f, strip)[1..n]) == Bad(Truncated)
  {
    hide Dump, Undump, Fits, Stripped;
    var d := Dump(f, strip);
    UndumpDump(f, strip, []);
    UndumpPersists(d[1..n], d[n..]);
    assert (d + [])[1..] == d[1..n] + d[n..];
  }
}
