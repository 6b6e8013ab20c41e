// Writing a chunk piece by piece (ldump.c).
module ChunkDump {
  import opened Common
  import opened ChunkFormat
  import opened ChunkRoundTrip
  import opened ChunkStream

  // The pieces that the writer was given: it took all of them, or refused the last one.
  ghost predicate Told(writer: (seq<seq<Byte>>, seq<Byte>) -> int, out: seq<seq<Byte>>, status: int) {
    var taken := if status == 0 then |out| else |out| - 1;
    (status != 0 ==> |out| > 0 && writer(out[..|out| - 1], out[|out| - 1]) == status) &&
    forall i :: 0 <= i < taken ==> writer(out[..i], out[i]) == 0
  }

  lemma OneMoreTold(writer: (seq<seq<Byte>>, seq<Byte>) -> int, out: seq<seq<Byte>>, b: seq<Byte>)
    requires Told(writer, out, 0)
    ensures Told(writer, out + [b], writer(out, b))
  {
    assert (out + [b])[..|out|] == out;
    forall i | 0 <= i < |out| ensures writer((out + [b])[..i], (out + [b])[i]) == 0 {
      assert (out + [b])[..i] == out[..i];
    }
  }

  class DumpState {
    const writer: (seq<seq<Byte>>, seq<Byte>) -> int  // may refuse a piece, after those it has taken
    const strip: bool
    var out: seq<seq<Byte>>
    var status: int
    ghost var due: seq<Byte>  // what was to be written so far

    // As long as the writer takes its pieces it has got all that was due, and else the beginning of it.
    ghost predicate Valid()
      reads this
    {
      Told(writer, out, status) && if status == 0 then Flatten(out) == due else Flatten(out) <= due
    }

    constructor (writer: (seq<seq<Byte>>, seq<Byte>) -> int, strip: bool)
      ensures Valid() && due == [] && status == 0 && this.strip == strip && this.writer == writer
    {
      this.writer, this.strip, out, status, due := writer, strip, [], 0, [];
    }

    // DumpBlock, DumpMem: once the writer has failed nothing more is written.
    method DumpBlock(b: seq<Byte>)
      requires Valid()
      modifies this
      ensures old(status) != 0 ==> status == old(status) && out == old(out)
      ensures Valid() && due == old(due) + b
    {
      hide Flatten, Told;
      if status == 0 {
        status := writer(out, b);
        FlattenMore(out, b);
        OneMoreTold(writer, out, b);
        out := out + [b];
      }
      due := due + b;
    }

    method DumpStringTo(s: Option<seq<Byte>>)
      requires Valid() && Storable(s)
      modifies this
      ensures old(status) != 0 ==> status == old(status) && out == old(out)
      ensures Valid() && due == old(due) + DumpString(s)
    {
      hide DumpSize, Flatten, Told;
      if s.None? {
        DumpBlock(DumpSize(0));
      } else {
        Assoc(due, DumpSize(|s.value| + 1), s.value + [0]);
        DumpBlock(DumpSize(|s.value| + 1));
        DumpBlock(s.value + [0]);
      }
    }

    // DumpVector
    method DumpVectorTo(v: seq<Word>)
      requires Valid() && Countable(|v|)
      modifies this
      ensures old(status) != 0 ==> status == old(status) && out == old(out)
      ensures Valid() && due == old(due) + DumpVector(v)
    {
      hide DumpWord, DumpWords, Flatten, Told;
      Assoc(due, DumpWord(|v|), DumpWords(v));
      DumpBlock(DumpWord(|v|));
      DumpBlock(DumpWords(v));
    }

    method DumpConstantTo(c: Constant)
      requires Valid() && ConstantFits(c)
      modifies this
      ensures old(status) != 0 ==> status == old(status) && out == old(out)
      ensures Valid() && due == old(due) + DumpConstant(c)
    {
      hide DumpWord, DumpString, Flatten, Told;
      ghost var x := due;
      match c {
        case Nil =>
          DumpBlock([0]);
        case Boolean(b) =>
          DumpBlock([1]);
          DumpBlock([if b then 1 else 0]);
          Assoc(x, [1], [if b then 1 else 0]);
        case Number(bits) =>
          DumpBlock([3]);
          DumpBlock(DumpWord(bits));
          Assoc(x, [3], DumpWord(bits));
        case String(s) =>
          DumpBlock([4]);
          DumpStringTo(Some(s));
          Assoc(x, [4], DumpString(Some(s)));
      }
    }

    // The first loop of DumpConstants
    method DumpConstantsTo(ks: seq<Constant>)
      requires Valid() && forall i :: 0 <= i < |ks| ==> ConstantFits(ks[i])
      modifies this
      ensures old(status) != 0 ==> status == old(status) && out == old(out)
      ensures Valid() && due == old(due) + DumpConstants(ks)
    {
      hide DumpConstant, Flatten, Told;
      assert ks[0..] == ks;
      for i := 0 to |ks|
        invariant old(status) != 0 ==> status == old(status) && out == old(out)
        invariant Valid() && due + DumpConstants(ks[i..]) == old(due) + DumpConstants(ks)
      {
        assert ks[i..][1..] == ks[i + 1..];
        Assoc(due, DumpConstant(ks[i]), DumpConstants(ks[i + 1..]));
        DumpConstantTo(ks[i]);
      }
      Nothing(due);
    }

    // The second one
    method DumpProtosTo(fs: seq<Proto>)
      requires Valid() && forall i :: 0 <= i < |fs| ==> Fits(fs[i])
      modifies this
      ensures old(status) != 0 ==> status == old(status) && out == old(out)
      ensures Valid() && due == old(due) + DumpProtos(fs, strip)
      decreases fs, 1
    {
      hide DumpFunction, Fits, Flatten, Told;
      assert fs[0..] == fs;
      for i := 0 to |fs|
        invariant old(status) != 0 ==> status == old(status) && out == old(out)
        invariant Valid() && due + DumpProtos(fs[i..], strip) == old(due) + DumpProtos(fs, strip)
      {
        assert fs[i..][1..] == fs[i + 1..];
        Assoc(due, DumpFunction(fs[i], strip), DumpProtos(fs[i + 1..], strip));
        DumpFunctionTo(fs[i]);
      }
      Nothing(due);
    }

    method DumpUpvaluesTo(us: seq<Upvalue>)
      requires Valid()
      modifies this
      ensures old(status) != 0 ==> status == old(status) && out == old(out)
      ensures Valid() && due == old(due) + DumpUpvalues(us)
    {
      hide Flatten, Told;
      assert us[0..] == us;
      for i := 0 to |us|
        invariant old(status) != 0 ==> status == old(status) && out == old(out)
        invariant Valid() && due + DumpUpvalues(us[i..]) == old(due) + DumpUpvalues(us)
      {
        ghost var x, more := due, DumpUpvalues(us[i + 1..]);
        assert us[i..][1..] == us[i + 1..];
        Assoc(x, [us[i].instack], [us[i].idx] + more);
        Assoc(x + [us[i].instack], [us[i].idx], more);
        DumpBlock([us[i].instack]);
        DumpBlock([us[i].idx]);
      }
      Nothing(due);
    }

    method DumpLocVarsTo(vs: seq<LocVar>)
      requires Valid() && forall i :: 0 <= i < |vs| ==> Storable(vs[i].varname)
      modifies this
      ensures old(status) != 0 ==> status == old(status) && out == old(out)
      ensures Valid() && due == old(due) + DumpLocVars(vs)
    {
      hide DumpString, DumpWord, Flatten, Told;
      assert vs[0..] == vs;
      for i := 0 to |vs|
        invariant old(status) != 0 ==> status == old(status) && out == old(out)
        invariant Valid() && due + DumpLocVars(vs[i..]) == old(due) + DumpLocVars(vs)
      {
        ghost var x, more := due, DumpLocVars(vs[i + 1..]);
        ghost var a, b, c := DumpString(vs[i].varname), DumpWord(vs[i].startpc), DumpWord(vs[i].endpc);
        assert vs[i..][1..] == vs[i + 1..];
        Assoc(x, a, b + (c + more));
        Assoc(x + a, b, c + more);
        Assoc(x + a + b, c, more);
        DumpStringTo(vs[i].varname);
        DumpBlock(DumpWord(vs[i].startpc));
        DumpBlock(DumpWord(vs[i].endpc));
      }
      Nothing(due);
    }

    method DumpNamesTo(us: seq<Upvalue>)
      requires Valid() && forall i :: 0 <= i < |us| ==> Storable(us[i].name)
      modifies this
      ensures old(status) != 0 ==> status == old(status) && out == old(out)
      ensures Valid() && due == old(due) + DumpNames(us)
    {
      hide DumpString, Flatten, Told;
      assert us[0..] == us;
      for i := 0 to |us|
        invariant old(status) != 0 ==> status == old(status) && out == old(out)
        invariant Valid() && due + DumpNames(us[i..]) == old(due) + DumpNames(us)
      {
        assert us[i..][1..] == us[i + 1..];
        Assoc(due, DumpString(us[i].name), DumpNames(us[i + 1..]));
        DumpStringTo(us[i].name);
      }
      Nothing(due);
    }

    // With 'strip' every part of the debug information is empty.
    method DumpDebugTo(f: Proto)
      requires Valid() && Fits(f)
      modifies this
      ensures old(status) != 0 ==> status == old(status) && out == old(out)
      ensures Valid() && due == old(due) + DumpDebug(f, strip)
    {
      hide Fits, DumpString, DumpVector, DumpWord, DumpLocVars, DumpNames, Flatten, Told;
      FitsDebug(f);
      DebugInOrder(due, f, strip);
      DumpStringTo(if strip then None else f.source);
      DumpVectorTo(if strip then [] else f.lineinfo);
      DumpBlock(DumpWord(if strip then 0 else |f.locvars|));
      DumpLocVarsTo(if strip then [] else f.locvars);
      DumpBlock(DumpWord(if strip then 0 else |f.upvalues|));
      DumpNamesTo(if strip then [] else f.upvalues);
    }

    method DumpFunctionTo(f: Proto)
      requires Valid() && Fits(f)
      modifies this
      ensures old(status) != 0 ==> status == old(status) && out == old(out)
      ensures Valid() && due == old(due) + DumpFunction(f, strip)
      decreases f, 0
    {
      hide Fits, DumpWord, DumpVector, DumpConstants, DumpProtos, DumpUpvalues, DumpDebug, DumpFunction, Flatten, Told;
      FitsCode(f);
      FunctionInOrder(due, f, strip);
      DumpBlock(DumpWord(f.linedefined));
      DumpBlock(DumpWord(f.lastlinedefined));
      DumpBlock([f.numparams]);
      DumpBlock([f.isVararg]);
      DumpBlock([f.maxstacksize]);
      DumpVectorTo(f.code);
      DumpBlock(DumpWord(|f.k|));
      DumpConstantsTo(f.k);
      DumpBlock(DumpWord(|f.p|));
      DumpProtosTo(f.p);
      DumpBlock(DumpWord(|f.upvalues|));
      DumpUpvaluesTo(f.upvalues);
      DumpDebugTo(f);
    }
  }

  lemma Nothing(x: seq<Byte>)
    ensures x + [] == x
  {}

  lemma DebugInOrder(x: seq<Byte>, f: Proto, strip: bool)
    requires Fits(f)
    ensures x + DumpString(if strip then None else f.source) + DumpVector(if strip then [] else f.lineinfo) +
            DumpWord(if strip then 0 else |f.locvars|) + DumpLocVars(if strip then [] else f.locvars) +
            DumpWord(if strip then 0 else |f.upvalues|) + DumpNames(if strip then [] else f.upvalues) == x + DumpDebug(f, strip)
  {
    hide Fits, DumpString, DumpVector, DumpWord, DumpLocVars, DumpNames;
    FitsDebug(f);
    var a, b := DumpString(if strip then None else f.source), DumpVector(if strip then [] else f.lineinfo);
    var c, d := DumpWord(if strip then 0 else |f.locvars|), DumpLocVars(if strip then [] else f.locvars);
    var e, g := DumpWord(if strip then 0 else |f.upvalues|), DumpNames(if strip then [] else f.upvalues);
    Assoc(x, a, b + (c + (d + (e + g))));
    Assoc(x + a, b, c + (d + (e + g)));
    Assoc(x + a + b, c, d + (e + g));
    Assoc(x + a + b + c, d, e + g);
    Assoc(x + a + b + c + d, e, g);
  }

  lemma FunctionInOrder(x: seq<Byte>, f: Proto, strip: bool)
    requires Fits(f)
    ensures x + DumpWord(f.linedefined) + DumpWord(f.lastlinedefined) + [f.numparams] + [f.isVararg] + [f.maxstacksize] + DumpVector(f.code) +
            DumpWord(|f.k|) + DumpConstants(f.k) + DumpWord(|f.p|) + DumpProtos(f.p, strip) + DumpWord(|f.upvalues|) + DumpUpvalues(f.upvalues) +
            DumpDebug(f, strip) == x + DumpFunction(f, strip)
  {
    hide Fits, DumpWord, DumpVector, DumpConstants, DumpProtos, DumpUpvalues, DumpDebug;
    FitsCode(f);
    var m := DumpDebug(f, strip);
    var l := DumpUpvalues(f.upvalues) + m;
    var k := DumpWord(|f.upvalues|) + l;
    var j := DumpProtos(f.p, strip) + k;
    var i := DumpWord(|f.p|) + j;
    var h := DumpConstants(f.k) + i;
    var g := DumpWord(|f.k|) + h;
    var e := DumpVector(f.code) + g;
    var d := [f.maxstacksize] + e;
    var c := [f.isVararg] + d;
    var b := [f.numparams] + c;
    var x1 := x + DumpWord(f.linedefined);
    var x2 := x1 + DumpWord(f.lastlinedefined);
    var x5 := x2 + [f.numparams] + [f.isVararg] + [f.maxstacksize];
    var x6 := x5 + DumpVector(f.code);
    var x8 := x6 + DumpWord(|f.k|) + DumpConstants(f.k);
    var x10 := x8 + DumpWord(|f.p|) + DumpProtos(f.p, strip);
    Assoc(x, DumpWord(f.linedefined), DumpWord(f.lastlinedefined) + b);
    Assoc(x1, DumpWord(f.lastlinedefined), b);
    Assoc(x2, [f.numparams], c);
    Assoc(x2 + [f.numparams], [f.isVararg], d);
    Assoc(x2 + [f.numparams] + [f.isVararg], [f.maxstacksize], e);
    Assoc(x5, DumpVector(f.code), g);
    Assoc(x6, DumpWord(|f.k|), h);
    Assoc(x6 + DumpWord(|f.k|), DumpConstants(f.k), i);
    Assoc(x8, DumpWord(|f.p|), j);
    Assoc(x8 + DumpWord(|f.p|), DumpProtos(f.p, strip), k);
    Assoc(x10, DumpWord(|f.upvalues|), l);
    Assoc(x10 + DumpWord(|f.upvalues|), DumpUpvalues(f.upvalues), m);
  }

  // luaU_dump: if the writer has taken everything, it has the whole chunk, and else its beginning up
  // to the piece that was refused, whose answer is the result.
  method DumpTo(f: Proto, writer: (seq<seq<Byte>>, seq<Byte>) -> int, strip: bool)
    returns (status: int, out: seq<seq<Byte>>)
    requires Fits(f)
    ensures status == 0 ==> Flatten(out) == Dump(f, strip)
    ensures status != 0 ==> Flatten(out) <= Dump(f, strip)
    ensures Told(writer, out, status)
  {
    hide Fits, DumpFunction, Flatten, Told;
    var d := new DumpState(writer, strip);
    d.DumpBlock(HEADER);
    d.DumpFunctionTo(f);
    status, out := d.status, d.out;
    assert [] + HEADER == HEADER;
  }
}
