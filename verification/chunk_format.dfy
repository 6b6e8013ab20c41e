// Precompiled chunks (ldump.c, lundump.c): function prototypes, the bytes they are dumped to, and
// what is loaded from bytes.  int and Instruction take 4 bytes, size_t 8, the lowest byte first.
module ChunkFormat {
  import opened Common

  type Byte = b: nat | b < 256
  type Int = n: nat | n < 0x8000_0000
  type Word = n: nat | n < 0x1_0000_0000

  // A number is the bits of its representation.
  datatype Constant = Nil | Boolean(b: bool) | Number(bits: Word) | String(s: seq<Byte>)

  datatype Upvalue = Upvalue(name: Option<seq<Byte>>, instack: Byte, idx: Byte)

  datatype LocVar = LocVar(varname: Option<seq<Byte>>, startpc: Int, endpc: Int)

  datatype Proto = Proto(linedefined: Int, lastlinedefined: Int, numparams: Byte, isVararg: Byte, maxstacksize: Byte,
                         code: seq<Word>,
                         k: seq<Constant>, p: seq<Proto>, upvalues: seq<Upvalue>, source: Option<seq<Byte>>, lineinfo: seq<Word>,
                         locvars: seq<LocVar>)

  // ----- sizes that an int or a size_t can hold -----

  predicate Countable(n: nat) { n < 0x8000_0000 }

  predicate Storable(s: Option<seq<Byte>>) { s.Some? ==> |s.value| + 1 < 0x1_0000_0000_0000_0000 }

  predicate ConstantFits(c: Constant) { c.String? ==> Storable(Some(c.s)) }

  predicate Fits(f: Proto) {
    Countable(|f.code|) && Countable(|f.k|) && Countable(|f.p|) && Countable(|f.upvalues|) && Countable(|f.lineinfo|) &&
    Countable(|f.locvars|) &&
    Storable(f.source) && (forall i :: 0 <= i < |f.k| ==> ConstantFits(f.k[i])) &&
    (forall i :: 0 <= i < |f.locvars| ==> Storable(f.locvars[i].varname)) &&
    (forall i :: 0 <= i < |f.upvalues| ==> Storable(f.upvalues[i].name)) && forall i :: 0 <= i < |f.p| ==> Fits(f.p[i])
  }

  // ----- dumping -----

  function DumpWord(x: Word): (r: seq<Byte>)
    ensures |r| == 4
  {
    [x % 256, x / 0x100 % 256, x / 0x1_0000 % 256, x / 0x100_0000]
  }

  function DumpSize(n: nat): (r: seq<Byte>)
    requires n < 0x1_0000_0000_0000_0000
    ensures |r| == 8
  {
    DumpWord(n % 0x1_0000_0000) + DumpWord(n / 0x1_0000_0000)
  }

  function DumpWords(v: seq<Word>): (r: seq<Byte>)
    ensures |r| == 4 * |v|
  {
    if v == [] then [] else DumpWord(v[0]) + DumpWords(v[1..])
  }

  function DumpVector(v: seq<Word>): seq<Byte>
    requires Countable(|v|)
  {
    DumpWord(|v|) + DumpWords(v)
  }

  // The length counts the closing zero; a length of zero stands for no string.
  function DumpString(s: Option<seq<Byte>>): seq<Byte>
    requires Storable(s)
  {
    if s.None? then DumpSize(0) else DumpSize(|s.value| + 1) + (s.value + [0])
  }

  function DumpConstant(c: Constant): seq<Byte>
    requires ConstantFits(c)
  {
    match c
    case Nil => [0]
    case Boolean(b) => [1] + [if b then 1 else 0]
    case Number(bits) => [3] + DumpWord(bits)
    case String(s) => [4] + DumpString(Some(s))
  }

  function DumpConstants(ks: seq<Constant>): seq<Byte>
    requires forall i :: 0 <= i < |ks| ==> ConstantFits(ks[i])
  {
    if ks == [] then [] else DumpConstant(ks[0]) + DumpConstants(ks[1..])
  }

  function DumpUpvalues(us: seq<Upvalue>): seq<Byte> {
    if us == [] then [] else [us[0].instack] + ([us[0].idx] + DumpUpvalues(us[1..]))
  }

  function DumpLocVars(vs: seq<LocVar>): seq<Byte>
    requires forall i :: 0 <= i < |vs| ==> Storable(vs[i].varname)
  {
    if vs == [] then []
    else DumpString(vs[0].varname) + (DumpWord(vs[0].startpc) + (DumpWord(vs[0].endpc) + DumpLocVars(vs[1..])))
  }

  function DumpNames(us: seq<Upvalue>): seq<Byte>
    requires forall i :: 0 <= i < |us| ==> Storable(us[i].name)
  {
    if us == [] then [] else DumpString(us[0].name) + DumpNames(us[1..])
  }

  function DumpDebug(f: Proto, strip: bool): seq<Byte>
    requires Fits(f)
  {
    DumpString(if strip then None else f.source) +
    (DumpVector(if strip then [] else f.lineinfo) +
     (DumpWord(if strip then 0 else |f.locvars|) +
      (DumpLocVars(if strip then [] else f.locvars) +
       (DumpWord(if strip then 0 else |f.upvalues|) + DumpNames(if strip then [] else f.upvalues)))))
  }

  function DumpProtos(fs: seq<Proto>, strip: bool): seq<Byte>
    requires forall i :: 0 <= i < |fs| ==> Fits(fs[i])
    decreases fs
  {
    if fs == [] then [] else DumpFunction(fs[0], strip) + DumpProtos(fs[1..], strip)
  }

  function DumpFunction(f: Proto, strip: bool): seq<Byte>
    requires Fits(f)
    decreases f
  {
    DumpWord(f.linedefined) +
    (DumpWord(f.lastlinedefined) + ([f.numparams] + ([f.isVararg] + ([f.maxstacksize] +
      (DumpVector(f.code) + (DumpWord(|f.k|) + (DumpConstants(f.k) + (DumpWord(|f.p|) + (DumpProtos(f.p, strip) +
        (DumpWord(|f.upvalues|) + (DumpUpvalues(f.upvalues) + DumpDebug(f, strip))))))))))))
  }

  // luaU_header for Lua 5.2 with 4-byte floating-point numbers on a 64-bit machine
  const HEADER: seq<Byte> := [27, 76, 117, 97, 82, 0, 1, 4, 8, 4, 4, 0, 25, 147, 13, 10, 26, 10]

  function Dump(f: Proto, strip: bool): seq<Byte>
    requires Fits(f)
  {
    HEADER + DumpFunction(f, strip)
  }

  // What is left of a function without its debug information.
  function Stripped(f: Proto): Proto
    decreases f
  {
    f.(p := AllStripped(f.p), upvalues := Nameless(f.upvalues), source := None, lineinfo := [], locvars := [])
  }

  function AllStripped(fs: seq<Proto>): (r: seq<Proto>)
    ensures |r| == |fs|
    decreases fs
  {
    if fs == [] then [] else [Stripped(fs[0])] + AllStripped(fs[1..])
  }

  function Nameless(us: seq<Upvalue>): (r: seq<Upvalue>)
    ensures |r| == |us|
  {
    if us == [] then [] else [us[0].(name := None)] + Nameless(us[1..])
  }

  // ----- loading -----

  datatype Fault = Truncated | Corrupted | NotAChunk | VersionMismatch | Incompatible

  datatype Got<T> = Got(v: T, rest: seq<Byte>) | Bad(fault: Fault) {
    predicate IsFailure() { Bad? }

    function PropagateFailure<U>(): Got<U>
      requires Bad?
    {
      Bad(fault)
    }

    function Extract(): (T, seq<Byte>)
      requires Got?
    {
      (v, rest)
    }
  }

  function LoadBlock(b: seq<Byte>, n: nat): (r: Got<seq<Byte>>)
    ensures r.Got? ==> |r.v| == n && |r.rest| == |b| - n
  {
    if n <= |b| then Got(b[..n], b[n..]) else Bad(Truncated)
  }

  function WordOf(b: seq<Byte>): (x: Word)
    requires |b| == 4
  {
    var b0: nat, b1: nat, b2: nat, b3: nat := b[0], b[1], b[2], b[3];
    b0 + 0x100 * b1 + 0x1_0000 * b2 + 0x100_0000 * b3
  }

  function LoadByte(b: seq<Byte>): (r: Got<Byte>)
    ensures r.Got? ==> |r.rest| == |b| - 1
  {
    var (v, b1) :- LoadBlock(b, 1);
    Got(v[0], b1)
  }

  function LoadWord(b: seq<Byte>): (r: Got<Word>)
    ensures r.Got? ==> |r.rest| == |b| - 4
  {
    var (v, b1) :- LoadBlock(b, 4);
    Got(WordOf(v), b1)
  }

  // A negative number is refused.
  function LoadInt(b: seq<Byte>): (r: Got<Int>)
    ensures r.Got? ==> |r.rest| == |b| - 4
  {
    var (v, b1) :- LoadWord(b);
    if v < 0x8000_0000 then Got(v, b1) else Bad(Corrupted)
  }

  function LoadSize(b: seq<Byte>): (r: Got<nat>)
    ensures r.Got? ==> |r.rest| == |b| - 8
  {
    var (v, b1) :- LoadBlock(b, 8);
    Got(WordOf(v[..4]) + 0x1_0000_0000 * WordOf(v[4..]), b1)
  }

  function LoadString(b: seq<Byte>): (r: Got<Option<seq<Byte>>>)
    ensures r.Got? ==> |r.rest| < |b|
  {
    var (size, b1) :- LoadSize(b);
    if size == 0 then Got(None, b1)
    else
      var (s, b2) :- LoadBlock(b1, size);
      Got(Some(s[..size - 1]), b2)
  }

  function WordsOf(b: seq<Byte>): (v: seq<Word>)
    requires |b| % 4 == 0
    ensures 4 * |v| == |b|
  {
    if b == [] then [] else [WordOf(b[..4])] + WordsOf(b[4..])
  }

  function LoadVector(b: seq<Byte>): (r: Got<seq<Word>>)
    ensures r.Got? ==> |r.rest| < |b|
  {
    var (n, b1) :- LoadInt(b);
    var (v, b2) :- LoadBlock(b1, 4 * n);
    Got(WordsOf(v), b2)
  }

  // Any other tag leaves the constant nil.
  function LoadConstant(b: seq<Byte>): (r: Got<Constant>)
    ensures r.Got? ==> |r.rest| < |b|
  {
    var (t, b1) :- LoadByte(b);
    if t == 1 then
      var (x, b2) :- LoadByte(b1);
      Got(Boolean(x != 0), b2)
    else if t == 3 then
      var (x, b2) :- LoadWord(b1);
      Got(Number(x), b2)
    else if t == 4 then
      var (s, b2) :- LoadString(b1);
      Got(if s.Some? then String(s.value) else Nil, b2)
    else Got(Nil, b1)
  }

  function LoadConstants(n: nat, b: seq<Byte>): (r: Got<seq<Constant>>)
    ensures r.Got? ==> |r.rest| <= |b| && |r.v| == n
  {
    if n == 0 then Got([], b)
    else
      var (c, b1) :- LoadConstant(b);
      var (cs, b2) :- LoadConstants(n - 1, b1);
      Got([c] + cs, b2)
  }

  function LoadUpvalues(n: nat, b: seq<Byte>): (r: Got<seq<Upvalue>>)
    ensures r.Got? ==> |r.rest| <= |b| && |r.v| == n
  {
    if n == 0 then Got([], b)
    else
      var (instack, b1) :- LoadByte(b);
      var (idx, b2) :- LoadByte(b1);
      var (us, b3) :- LoadUpvalues(n - 1, b2);
      Got([Upvalue(None, instack, idx)] + us, b3)
  }

  function LoadLocVars(n: nat, b: seq<Byte>): (r: Got<seq<LocVar>>)
    ensures r.Got? ==> |r.rest| <= |b| && |r.v| == n
  {
    if n == 0 then Got([], b)
    else
      var (name, b1) :- LoadString(b);
      var (startpc, b2) :- LoadInt(b1);
      var (endpc, b3) :- LoadInt(b2);
      var (vs, b4) :- LoadLocVars(n - 1, b3);
      Got([LocVar(name, startpc, endpc)] + vs, b4)
  }

  function LoadNames(n: nat, b: seq<Byte>): (r: Got<seq<Option<seq<Byte>>>>)
    ensures r.Got? ==> |r.rest| <= |b| && |r.v| == n
  {
    if n == 0 then Got([], b)
    else
      var (s, b1) :- LoadString(b);
      var (ss, b2) :- LoadNames(n - 1, b1);
      Got([s] + ss, b2)
  }

  // The names go to the upvalues in turn.
  function Named(us: seq<Upvalue>, names: seq<Option<seq<Byte>>>): (r: seq<Upvalue>)
    ensures |r| == |us|
  {
    if us == [] || names == [] then us else [us[0].(name := names[0])] + Named(us[1..], names[1..])
  }

  function LoadDebug(f: Proto, b: seq<Byte>): (r: Got<Proto>)
    ensures r.Got? ==> |r.rest| <= |b|
  {
    var (source, b1) :- LoadString(b);
    var (lineinfo, b2) :- LoadVector(b1);
    var (n, b3) :- LoadInt(b2);
    var (locvars, b4) :- LoadLocVars(n, b3);
    var (m, b5) :- LoadInt(b4);
    var (names, b6) :- LoadNames(m, b5);
    Got(f.(source := source, lineinfo := lineinfo, locvars := locvars, upvalues := Named(f.upvalues, names)), b6)
  }

  function LoadProtos(n: nat, b: seq<Byte>): (r: Got<seq<Proto>>)
    ensures r.Got? ==> |r.rest| <= |b| && |r.v| == n
    decreases |b|, n + 1
  {
    if n == 0 then Got([], b)
    else
      var (f, b1) :- LoadFunction(b);
      var (fs, b2) :- LoadProtos(n - 1, b1);
      Got([f] + fs, b2)
  }

  function LoadFunction(b: seq<Byte>): (r: Got<Proto>)
    ensures r.Got? ==> |r.rest| <= |b|
    decreases |b|, 0
  {
    var (linedefined, b1) :- LoadInt(b);
    var (lastlinedefined, b2) :- LoadInt(b1);
    var (numparams, b3) :- LoadByte(b2);
    var (isVararg, b4) :- LoadByte(b3);
    var (maxstacksize, b5) :- LoadByte(b4);
    var (code, b6) :- LoadVector(b5);
    var (nk, b7) :- LoadInt(b6);
    var (k, b8) :- LoadConstants(nk, b7);
    var (np, b9) :- LoadInt(b8);
    var (p, b10) :- LoadProtos(np, b9);
    var (nu, b11) :- LoadInt(b10);
    var (upvalues, b12) :- LoadUpvalues(nu, b11);
    LoadDebug(Proto(linedefined, lastlinedefined, numparams, isVararg, maxstacksize, code, k, p, upvalues, None, [], []), b12)
  }

  // LoadHeader; the first byte has been read, and is taken for granted.
  function LoadHeader(b: seq<Byte>): (r: Got<()>)
    ensures r.Got? ==> |r.rest| <= |b|
  {
    var (h, b1) :- LoadBlock(b, |HEADER| - 1);
    var s := [HEADER[0]] + h;
    if s == HEADER then Got((), b1)
    else if s[..4] != HEADER[..4] then Bad(NotAChunk)
    else if s[..6] != HEADER[..6] then Bad(VersionMismatch)
    else if s[..12] != HEADER[..12] then Bad(Incompatible)
    else Bad(Corrupted)
  }

  // luaU_undump, on what follows the first byte
  function Undump(b: seq<Byte>): Got<Proto> {
    var (_, b1) :- LoadHeader(b);
    LoadFunction(b1)
  }
}
