// Reading a chunk from a stream that comes in pieces (lzio.c, lundump.c) and writing one piece by
// piece (ldump.c).
module ChunkStream {
  import opened Common
  import opened ChunkFormat
  import opened ChunkRoundTrip

  function Flatten(pieces: seq<seq<Byte>>): seq<Byte> { if pieces == [] then [] else pieces[0] + Flatten(pieces[1..]) }

  // What a reader delivers: an empty piece is the end.
  function Delivered(pieces: seq<seq<Byte>>): seq<Byte> {
    if pieces == [] || pieces[0] == [] then [] else pieces[0] + Delivered(pieces[1..])
  }

  lemma {:induction false} NoneEmpty(pieces: seq<seq<Byte>>)
    requires forall i :: 0 <= i < |pieces| ==> pieces[i] != []
    ensures Delivered(pieces) == Flatten(pieces)
    decreases |pieces|
  {
    if pieces != [] { NoneEmpty(pieces[1..]); }
  }

  lemma {:induction false} FlattenMore(pieces: seq<seq<Byte>>, p: seq<Byte>)
    ensures Flatten(pieces + [p]) == Flatten(pieces) + p
    decreases |pieces|
  {
    if pieces != [] {
      FlattenMore(pieces[1..], p);
      assert (pieces + [p])[1..] == pieces[1..] + [p];
      Assoc(pieces[0], Flatten(pieces[1..]), p);
    } else {
      assert [p][1..] == [] && p + [] == p && [] + p == p;
    }
  }

  datatype Result<T> = Ok(value: T) | Failed(fault: Fault) {
    predicate IsFailure() { Failed? }

    function PropagateFailure<U>(): Result<U>
      requires Failed?
    {
      Failed(fault)
    }

    function Extract(): T
      requires Ok?
    {
      value
    }
  }

  class ZIO {
    var pieces: seq<seq<Byte>>  // what the reader will deliver
    var buff: seq<Byte>
    var p: nat                  // the position in 'buff'; n bytes follow
    var n: nat

    ghost predicate Valid()
      reads this
    {
      p + n == |buff|
    }

    // What is still to come.
    ghost function Content(): seq<Byte>
      requires Valid()
      reads this
    {
      buff[p..] + Delivered(pieces)
    }

    constructor (pieces: seq<seq<Byte>>)
      ensures Valid() && Content() == Delivered(pieces) && n == 0
    {
      this.pieces, buff, p, n := pieces, [], 0, 0;
      new;
      assert [] + Delivered(pieces) == Delivered(pieces);
    }

    // luaZ_fill; -1: the end of the stream
    method Fill() returns (c: int)
      requires Valid() && n == 0
      modifies this
      ensures Valid() && (c == -1 <==> old(Content()) == []) && (c == -1 ==> n == 0 && Content() == [])
      ensures c != -1 ==> p > 0 && buff != [] && [buff[p - 1]] + Content() == old(Content()) && c == buff[p - 1]
    {
      assert buff[p..] == [] && old(Content()) == Delivered(pieces);
      if pieces == [] { return -1; }
      var size := |pieces[0]|;
      if size == 0 { return -1; }
      buff, pieces := pieces[0], pieces[1..];
      n := size - 1;
      p := 1;
      c := buff[0];
      assert buff == [buff[0]] + buff[1..];
      Assoc([buff[0]], buff[1..], Delivered(pieces));
    }

    // More bytes in the buffer, unless the stream is at its end.
    method Refill() returns (ok: bool)
      requires Valid() && n == 0
      modifies this
      ensures Valid() && Content() == old(Content()) && (if ok then n > 0 else Content() == [])
    {
      var c := Fill();
      if c == -1 {
        AtEnd(buff, p);
        return false;
      }
      n := n + 1;
      p := p - 1;
      PutBack(buff, p, Delivered(pieces));
      ok := true;
    }

    // The next m bytes of the buffer
    method Take(m: nat) returns (b: seq<Byte>)
      requires Valid() && m <= n
      modifies this`p, this`n
      ensures Valid() && |b| == m && old(Content()) == b + Content()
    {
      TakeFrom(buff, p, m, Delivered(pieces));
      b := buff[p..p + m];
      n := n - m;
      p := p + m;
    }

    // luaZ_read: n bytes, or how many are missing
    method Read(size: nat) returns (b: seq<Byte>, missing: nat)
      requires Valid()
      modifies this
      ensures Valid() && |b| + missing == size && old(Content()) == b + Content() && (missing > 0 ==> Content() == [])
    {
      hide Content;
      b, missing := [], size;
      Empty(Content());
      while missing > 0
        invariant Valid() && |b| + missing == size && old(Content()) == b + Content()
        decreases missing
      {
        if n == 0 {
          var ok := Refill();
          if !ok { return; }
        }
        var m := if missing <= n then missing else n;
        var more := Take(m);
        Assoc(b, more, Content());
        b := b + more;
        missing := missing - m;
      }
    }
  }

  lemma Empty(b: seq<Byte>)
    ensures [] + b == b
  {}

  lemma AtEnd(buff: seq<Byte>, p: nat)
    requires p == |buff|
    ensures buff[p..] == []
  {}

  lemma PutBack(buff: seq<Byte>, p: nat, more: seq<Byte>)
    requires p < |buff|
    ensures [buff[p]] + (buff[p + 1..] + more) == buff[p..] + more
  {
    assert buff[p..] == [buff[p]] + buff[p + 1..];
  }

  lemma TakeFrom(buff: seq<Byte>, p: nat, m: nat, more: seq<Byte>)
    requires p + m <= |buff|
    ensures buff[p..] + more == buff[p..p + m] + (buff[p + m..] + more)
  {
    assert buff[p..] == buff[p..p + m] + buff[p + m..];
  }

  // The stream gives what loading from its bytes gives.
  ghost predicate As<T>(r: Result<T>, g: Got<T>, z: ZIO)
    requires z.Valid()
    reads z
  {
    if g.Got? then r == Ok(g.v) && z.Content() == g.rest else r == Failed(g.fault)
  }

  method LoadBlockFrom(z: ZIO, size: nat) returns (r: Result<seq<Byte>>)
    requires z.Valid()
    modifies z
    ensures z.Valid() && As(r, LoadBlock(old(z.Content()), size), z)
  {
    var b, missing := z.Read(size);
    if missing != 0 { return Failed(Truncated); }
    BlockFirst(b, z.Content());
    r := Ok(b);
  }

  method LoadCharFrom(z: ZIO) returns (r: Result<Byte>)
    requires z.Valid()
    modifies z
    ensures z.Valid() && As(r, LoadByte(old(z.Content())), z)
  {
    hide LoadBlock;
    var b :- LoadBlockFrom(z, 1);
    r := Ok(b[0]);
  }

  method LoadWordFrom(z: ZIO) returns (r: Result<Word>)
    requires z.Valid()
    modifies z
    ensures z.Valid() && As(r, LoadWord(old(z.Content())), z)
  {
    hide LoadBlock;
    var b :- LoadBlockFrom(z, 4);
    r := Ok(WordOf(b));
  }

  method LoadIntFrom(z: ZIO) returns (r: Result<Int>)
    requires z.Valid()
    modifies z
    ensures z.Valid() && As(r, LoadInt(old(z.Content())), z)
  {
    hide LoadWord;
    var x :- LoadWordFrom(z);
    if x >= 0x8000_0000 { return Failed(Corrupted); }
    r := Ok(x);
  }

  method LoadStringFrom(z: ZIO) returns (r: Result<Option<seq<Byte>>>)
    requires z.Valid()
    modifies z
    ensures z.Valid() && As(r, LoadString(old(z.Content())), z)
  {
    hide LoadBlock, WordOf;
    var s :- LoadBlockFrom(z, 8);
    var size := WordOf(s[..4]) + 0x1_0000_0000 * WordOf(s[4..]);
    if size == 0 { return Ok(None); }
    var b :- LoadBlockFrom(z, size);
    r := Ok(Some(b[..size - 1]));
  }

  method LoadVectorFrom(z: ZIO) returns (r: Result<seq<Word>>)
    requires z.Valid()
    modifies z
    ensures z.Valid() && As(r, LoadVector(old(z.Content())), z)
  {
    hide LoadInt, LoadBlock, WordsOf;
    var n :- LoadIntFrom(z);
    var count: nat := n;
    var b :- LoadBlockFrom(z, 4 * count);
    r := Ok(WordsOf(b));
  }

  method LoadConstantFrom(z: ZIO) returns (r: Result<Constant>)
    requires z.Valid()
    modifies z
    ensures z.Valid() && As(r, LoadConstant(old(z.Content())), z)
  {
    hide LoadByte, LoadWord, LoadString;
    var t :- LoadCharFrom(z);
    if t == 1 {
      var x :- LoadCharFrom(z);
      r := Ok(Boolean(x != 0));
    } else if t == 3 {
      var x :- LoadWordFrom(z);
      r := Ok(Number(x));
    } else if t == 4 {
      var s :- LoadStringFrom(z);
      r := Ok(if s.Some? then String(s.value) else Nil);
    } else {
      r := Ok(Nil);
    }
  }

  // ----- the loops -----

  // 'done' have been loaded, and 'more' is what loading the rest will give.
  ghost predicate Going<T>(all: Got<seq<T>>, done: seq<T>, more: Got<seq<T>>) {
    if more.Got? then all == Got(done + more.v, more.rest) else all == Bad(more.fault)
  }

  lemma GoingOn<T>(all: Got<seq<T>>, done: seq<T>, x: T, more: Got<seq<T>>, after: Got<seq<T>>)
    requires Going(all, done, more)
    requires if after.Got? then more == Got([x] + after.v, after.rest) else more == Bad(after.fault)
    ensures Going(all, done + [x], after)
  {
    if after.Got? { assert done + ([x] + after.v) == done + [x] + after.v; }
  }

  lemma GoingBegins<T>(all: Got<seq<T>>)
    ensures Going(all, [], all)
  {
    if all.Got? { assert [] + all.v == all.v; }
  }

  lemma GoingEnds<T>(all: Got<seq<T>>, done: seq<T>, b: seq<Byte>)
    requires Going(all, done, Got([], b))
    ensures all == Got(done, b)
  {
    assert done + [] == done;
  }

  method LoadConstantsFrom(z: ZIO, n: nat) returns (r: Result<seq<Constant>>)
    requires z.Valid()
    modifies z
    ensures z.Valid() && As(r, LoadConstants(n, old(z.Content())), z)
  {
    hide LoadConstant, Going;
    ghost var all := LoadConstants(n, z.Content());
    var k, i := [], 0;
    GoingBegins(all);
    while i < n
      invariant i <= n && z.Valid() && Going(all, k, LoadConstants(n - i, z.Content()))
    {
      ghost var more := LoadConstants(n - i, z.Content());
      var c := LoadConstantFrom(z);
      if c.Failed? { GoingFails(all, k, more); return Failed(c.fault); }
      GoingOn(all, k, c.value, more, LoadConstants(n - i - 1, z.Content()));
      k, i := k + [c.value], i + 1;
    }
    GoingEnds(all, k, z.Content());
    r := Ok(k);
  }

  lemma GoingFails<T>(all: Got<seq<T>>, done: seq<T>, more: Got<seq<T>>)
    requires Going(all, done, more) && more.Bad?
    ensures all == more
  {}

  method LoadUpvaluesFrom(z: ZIO, n: nat) returns (r: Result<seq<Upvalue>>)
    requires z.Valid()
    modifies z
    ensures z.Valid() && As(r, LoadUpvalues(n, old(z.Content())), z)
  {
    hide LoadByte, Going;
    ghost var all := LoadUpvalues(n, z.Content());
    var us, i := [], 0;
    GoingBegins(all);
    while i < n
      invariant i <= n && z.Valid() && Going(all, us, LoadUpvalues(n - i, z.Content()))
    {
      ghost var more := LoadUpvalues(n - i, z.Content());
      var instack := LoadCharFrom(z);
      if instack.Failed? { GoingFails(all, us, more); return Failed(instack.fault); }
      var idx := LoadCharFrom(z);
      if idx.Failed? { GoingFails(all, us, more); return Failed(idx.fault); }
      var u := Upvalue(None, instack.value, idx.value);
      GoingOn(all, us, u, more, LoadUpvalues(n - i - 1, z.Content()));
      us, i := us + [u], i + 1;
    }
    GoingEnds(all, us, z.Content());
    r := Ok(us);
  }

  method LoadLocVarsFrom(z: ZIO, n: nat) returns (r: Result<seq<LocVar>>)
    requires z.Valid()
    modifies z
    ensures z.Valid() && As(r, LoadLocVars(n, old(z.Content())), z)
  {
    hide LoadString, LoadInt, Going;
    ghost var all := LoadLocVars(n, z.Content());
    var vs, i := [], 0;
    GoingBegins(all);
    while i < n
      invariant i <= n && z.Valid() && Going(all, vs, LoadLocVars(n - i, z.Content()))
    {
      ghost var more := LoadLocVars(n - i, z.Content());
      var name := LoadStringFrom(z);
      if name.Failed? { GoingFails(all, vs, more); return Failed(name.fault); }
      var startpc := LoadIntFrom(z);
      if startpc.Failed? { GoingFails(all, vs, more); return Failed(startpc.fault); }
      var endpc := LoadIntFrom(z);
      if endpc.Failed? { GoingFails(all, vs, more); return Failed(endpc.fault); }
      var v := LocVar(name.value, startpc.value, endpc.value);
      GoingOn(all, vs, v, more, LoadLocVars(n - i - 1, z.Content()));
      vs, i := vs + [v], i + 1;
    }
    GoingEnds(all, vs, z.Content());
    r := Ok(vs);
  }

  method LoadNamesFrom(z: ZIO, n: nat) returns (r: Result<seq<Option<seq<Byte>>>>)
    requires z.Valid()
    modifies z
    ensures z.Valid() && As(r, LoadNames(n, old(z.Content())), z)
  {
    hide LoadString, Going;
    ghost var all := LoadNames(n, z.Content());
    var names, i := [], 0;
    GoingBegins(all);
    while i < n
      invariant i <= n && z.Valid() && Going(all, names, LoadNames(n - i, z.Content()))
    {
      ghost var more := LoadNames(n - i, z.Content());
      var s := LoadStringFrom(z);
      if s.Failed? { GoingFails(all, names, more); return Failed(s.fault); }
      GoingOn(all, names, s.value, more, LoadNames(n - i - 1, z.Content()));
      names, i := names + [s.value], i + 1;
    }
    GoingEnds(all, names, z.Content());
    r := Ok(names);
  }

  method LoadDebugFrom(z: ZIO, f: Proto) returns (r: Result<Proto>)
    requires z.Valid()
    modifies z
    ensures z.Valid() && As(r, LoadDebug(f, old(z.Content())), z)
  {
    hide LoadString, LoadVector, LoadInt, LoadLocVars, LoadNames, Named;
    var source :- LoadStringFrom(z);
    var lineinfo :- LoadVectorFrom(z);
    var n :- LoadIntFrom(z);
    var locvars :- LoadLocVarsFrom(z, n);
    var m :- LoadIntFrom(z);
    var names :- LoadNamesFrom(z, m);
    r := Ok(f.(source := source, lineinfo := lineinfo, locvars := locvars, upvalues := Named(f.upvalues, names)));
  }

  method LoadProtosFrom(z: ZIO, n: nat) returns (r: Result<seq<Proto>>)
    requires z.Valid()
    modifies z
    ensures z.Valid() && As(r, LoadProtos(n, old(z.Content())), z)
    decreases |z.Content()|, 1
  {
    hide LoadFunction, Going;
    ghost var all := LoadProtos(n, z.Content());
    var fs, i := [], 0;
    GoingBegins(all);
    while i < n
      invariant i <= n && z.Valid() && Going(all, fs, LoadProtos(n - i, z.Content())) &&
                |z.Content()| <= |old(z.Content())|
    {
      ghost var more := LoadProtos(n - i, z.Content());
      var f := LoadFunctionFrom(z);
      if f.Failed? { GoingFails(all, fs, more); return Failed(f.fault); }
      GoingOn(all, fs, f.value, more, LoadProtos(n - i - 1, z.Content()));
      fs, i := fs + [f.value], i + 1;
    }
    GoingEnds(all, fs, z.Content());
    r := Ok(fs);
  }

  method LoadFunctionFrom(z: ZIO) returns (r: Result<Proto>)
    requires z.Valid()
    modifies z
    ensures z.Valid() && As(r, LoadFunction(old(z.Content())), z)
    decreases |z.Content()|, 0
  {
    hide LoadHead, LoadBody, LoadFunction;
    HeadThenBody(z.Content());
    var head :- LoadHeadFrom(z);
    r := LoadBodyFrom(z, head);
  }

  // The first half of LoadFunction
  method LoadHeadFrom(z: ZIO) returns (r: Result<(Int, Int, Byte, Byte, Byte)>)
    requires z.Valid()
    modifies z
    ensures z.Valid() && As(r, LoadHead(old(z.Content())), z)
  {
    hide LoadInt, LoadByte;
    var linedefined :- LoadIntFrom(z);
    var lastlinedefined :- LoadIntFrom(z);
    var numparams :- LoadCharFrom(z);
    var isVararg :- LoadCharFrom(z);
    var maxstacksize :- LoadCharFrom(z);
    r := Ok((linedefined, lastlinedefined, numparams, isVararg, maxstacksize));
  }

  // The second half
  method LoadBodyFrom(z: ZIO, h: (Int, Int, Byte, Byte, Byte)) returns (r: Result<Proto>)
    requires z.Valid()
    modifies z
    ensures z.Valid() && As(r, LoadBody(h, old(z.Content())), z)
    decreases |z.Content()|, 2
  {
    hide LoadInt, LoadVector, LoadConstants, LoadProtos, LoadUpvalues, LoadDebug;
    var code :- LoadVectorFrom(z);
    var nk :- LoadIntFrom(z);
    var k :- LoadConstantsFrom(z, nk);
    var np :- LoadIntFrom(z);
    var p :- LoadProtosFrom(z, np);
    var nu :- LoadIntFrom(z);
    var upvalues :- LoadUpvaluesFrom(z, nu);
    r := LoadDebugFrom(z, Proto(h.0, h.1, h.2, h.3, h.4, code, k, p, upvalues, None, [], []));
  }

  method LoadHeaderFrom(z: ZIO) returns (r: Result<()>)
    requires z.Valid()
    modifies z
    ensures z.Valid() && As(r, LoadHeader(old(z.Content())), z)
  {
    hide LoadBlock;
    var h :- LoadBlockFrom(z, |HEADER| - 1);
    var s := [HEADER[0]] + h;
    if s == HEADER { return Ok(()); }
    if s[..4] != HEADER[..4] { return Failed(NotAChunk); }
    if s[..6] != HEADER[..6] { return Failed(VersionMismatch); }
    r := Failed(if s[..12] != HEADER[..12] then Incompatible else Corrupted);
  }

  // luaU_undump
  method UndumpFrom(z: ZIO) returns (r: Result<Proto>)
    requires z.Valid()
    modifies z
    ensures z.Valid() && As(r, Undump(old(z.Content())), z)
  {
    hide LoadHeader, LoadFunction;
    var _ :- LoadHeaderFrom(z);
    r := LoadFunctionFrom(z);
  }

  // However a dumped function comes in pieces, and whatever follows it, it is loaded again.
  method Reload(f: Proto, strip: bool, pieces: seq<seq<Byte>>, rest: seq<Byte>) returns (r: Result<Proto>)
    requires Fits(f) && Flatten(pieces) == Dump(f, strip) + rest && forall i :: 0 <= i < |pieces| ==> pieces[i] != []
    ensures r == Ok(if strip then Stripped(f) else f)
  {
    hide Dump, Undump, Fits, Stripped, Flatten, Delivered;
    NoneEmpty(pieces);
    var z := new ZIO(pieces);
    UndumpDump(f, strip, rest);
    BeginsWithEscape(f, strip, rest);
    var c := z.Fill();
    r := UndumpFrom(z);
  }

  lemma BeginsWithEscape(f: Proto, strip: bool, rest: seq<Byte>)
    requires Fits(f)
    ensures Dump(f, strip) + rest == [HEADER[0]] + (Dump(f, strip) + rest)[1..]
  {
    hide DumpFunction, Fits;
  }
}
