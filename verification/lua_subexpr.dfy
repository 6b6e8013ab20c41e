// The expression parser drives the code generator: subexpr reads one tree and generates its code
// in the same pass (lparser.c).
module LuaSubexpr {
  import opened Common
  import opened LuaMachine
  import G = LuaCodegen
  import opened LuaCodegenTypes = LuaCodegen
  import opened LuaCodeMeaning
  import opened LuaCodeRuns
  import opened LuaCodeRegs
  import opened LuaCodeOperands
  import opened LuaCodeCompile
  import opened LuaJumpLists
  import opened LuaJumpTidy
  import opened LuaJumpCompile
  import P = LuaParse
  import opened LuaParseTypes = LuaParse
  import opened LuaFuncState
  import E = LuaFuncExprs
  import O = LuaFuncOps
  import B = LuaFuncBinary

  const LUAI_MAXCCALLS: nat := 200

  class LexState {
    const toks: seq<Token>
    var pos: nat
    var levels: nat
    var ok: bool

    constructor (toks: seq<Token>)
      ensures this.toks == toks && pos == 0 && levels == 0 && ok
    {
      this.toks, this.pos, this.levels, this.ok := toks, 0, 0, true;
    }

    ghost function Room(): nat
      reads this
    {
      if levels <= LUAI_MAXCCALLS then LUAI_MAXCCALLS - levels else 0
    }

    method Next()
      requires pos < |toks|
      modifies this`pos
      ensures pos == old(pos) + 1
    {
      pos := pos + 1;
    }

    method EnterLevel()
      modifies this`levels, this`ok
      ensures levels == old(levels) + 1 && ok == (old(ok) && levels <= LUAI_MAXCCALLS)
    {
      levels := levels + 1;
      if levels > LUAI_MAXCCALLS { ok := false; }
    }

    // luaX_syntaxerror
    method SyntaxError()
      modifies this`ok
      ensures !ok
    {
      ok := false;
    }
  }

  // Names of locals stand for active variables.
  ghost predicate LocalsActive(toks: seq<Token>, nactvar: nat) {
    forall i :: 0 <= i < |toks| && toks[i].TLocal? ==> toks[i].i < nactvar
  }

  // The generator before an expression.
  ghost predicate Begins(m: FS, b: nat, outer: set<nat>, base: nat) {
    m.ok && Shaped(m, Nothing(), b, outer) && LinksOK(m, Nothing()) && m.freereg == base && m.nactvar <= base
  }

  // The result of generating code for x from m.
  ghost predicate Generated(fs: FuncState, e: ExpDesc, ops: Ops, m: FS, x: Expr, b: nat, outer: set<nat>, base: nat)
    reads fs, e
  {
    fs.ok && fs.Valid() && e.Heads() && (fs.Model(), e.Model()) == G.Compile(ops, m, x) &&
    Step(m, fs.Model(), e.Model(), b, outer, base) && Scoped(x, m.nactvar)
  }

  // Reading and generating succeed together exactly if there is a tree and its code fits.
  ghost predicate Outcome(ls: LexState, fs: FuncState, e: ExpDesc, ops: Ops, m: FS, parsed: Option<(Expr, nat)>, b: nat,
                          outer: set<nat>, base: nat)
    reads ls, fs, e
  {
    ((ls.ok && fs.ok) <==> (parsed.Some? && G.Compile(ops, m, parsed.value.0).0.ok)) &&
    (ls.ok && fs.ok ==> ls.pos == parsed.value.1 && Generated(fs, e, ops, m, parsed.value.0, b, outer, base))
  }

  lemma {:induction false} SubexprScoped(toks: seq<Token>, pos: nat, limit: nat, room: nat, nactvar: nat)
    requires LocalsActive(toks, nactvar)
    ensures var p := P.Subexpr(toks, pos, limit, room); p.Some? ==> Scoped(p.value.0, nactvar)
    decreases room, 2, 0
  {
    if room > 0 && pos < |toks| {
      var u := P.UnaryOf(toks[pos]);
      if u.Some? {
        SubexprScoped(toks, pos + 1, P.UNARY_PRIORITY, room - 1, nactvar);
        var y := P.Subexpr(toks, pos + 1, P.UNARY_PRIORITY, room - 1);
        if y.Some? { LoopScoped(toks, P.Apply(u.value, y.value.0), y.value.1, limit, room, nactvar); }
      } else {
        if toks[pos].TLeft? { SubexprScoped(toks, pos + 1, 0, room - 1, nactvar); }
        var y := P.Simple(toks, pos, room);
        if y.Some? { LoopScoped(toks, y.value.0, y.value.1, limit, room, nactvar); }
      }
    }
  }

  lemma {:induction false} LoopScoped(toks: seq<Token>, x: Expr, pos: nat, limit: nat, room: nat, nactvar: nat)
    requires LocalsActive(toks, nactvar) && Scoped(x, nactvar) && room > 0 && pos <= |toks|
    ensures var p := P.Loop(toks, x, pos, limit, room); p.Some? ==> Scoped(p.value.0, nactvar)
    decreases room, 1, |toks| - pos
  {
    if P.Expands(toks, pos, limit) {
      var op := toks[pos].op;
      SubexprScoped(toks, pos + 1, P.RightPriority(op), room - 1, nactvar);
      var y := P.Subexpr(toks, pos + 1, P.RightPriority(op), room - 1);
      if y.Some? { LoopScoped(toks, Bin(op, x, y.value.0), y.value.1, limit, room, nactvar); }
    }
  }

  // Code that fits as a whole fitted so far.
  lemma {:induction false} LoopFits(ops: Ops, m: FS, toks: seq<Token>, x: Expr, pos: nat, limit: nat, room: nat)
    requires room > 0 && pos <= |toks|
    ensures var p := P.Loop(toks, x, pos, limit, room);
            p.Some? && G.Compile(ops, m, p.value.0).0.ok ==> G.Compile(ops, m, x).0.ok
    decreases room, 1, |toks| - pos
  {
    hide G.Compile, G.Infix;
    if P.Expands(toks, pos, limit) {
      var op := toks[pos].op;
      var y := P.Subexpr(toks, pos + 1, P.RightPriority(op), room - 1);
      if y.Some? {
        LoopFits(ops, m, toks, Bin(op, x, y.value.0), y.value.1, limit, room);
        if G.Compile(ops, m, Bin(op, x, y.value.0)).0.ok { LeftFits(ops, m, op, x, y.value.0); }
      }
    }
  }

  lemma LeftFits(ops: Ops, m: FS, op: BinOp, x: Expr, y: Expr)
    requires G.Compile(ops, m, Bin(op, x, y)).0.ok
    ensures var (m1, e1) := G.Compile(ops, m, x); var (m2, _) := G.Infix(m1, op, e1);
            m1.ok && m2.ok && G.Compile(ops, m2, y).0.ok
  {
    hide G.Infix, G.Posfix;
    var (m1, e1) := G.Compile(ops, m, x);
    var (m2, e1') := G.Infix(m1, op, e1);
    var (m3, e2) := G.Compile(ops, m2, y);
    assert G.Compile(ops, m, Bin(op, x, y)) == G.Posfix(ops, m3, op, e1', e2);
  }

  // ----- the parts of an expression -----

  lemma BeginsLeaf(m: FS, x: Exp, b: nat, outer: set<nat>, base: nat)
    requires Begins(m, b, outer, base) && x.t == [] && x.f == [] && Settled(x) && x.kind != VNONRELOC
    requires (x.kind == VK ==> x.info < |m.k|) && (x.kind == VLOCAL ==> x.info < m.nactvar)
    ensures Step(m, m, x, b, outer, base)
  {
    LeafTidy(m, x, b, outer, base);
  }

  // A literal (simpleexp, codestring).
  method Literal(fs: FuncState, e: ExpDesc, v: Value, ghost ops: Ops, ghost b: nat, ghost outer: set<nat>,
                 ghost base: nat)
    requires fs.Valid() && Begins(fs.Model(), b, outer, base)
    modifies fs, e
    ensures Generated(fs, e, ops, old(fs.Model()), Const(v), b, outer, base)
  {
    ghost var m := fs.Model();
    SimpleTidy(m, v, b, outer, base);
    hide Step, Shaped, LinksOK, Linked, Distinct, G.AddK;
    match v {
      case Nil => e.Init(VNIL, 0, 0);
      case Bool(t) => e.Init(if t then VTRUE else VFALSE, 0, 0);
      case Num(n) => e.Init(VKNUM, 0, n);
      case Str(_) =>
        var i := fs.AddK(v);
        e.Init(VK, i, 0);
    }
  }

  // A unary operator after its operand (luaK_prefix).
  method Prefix(ops: Ops, fs: FuncState, u: P.UnaryOp, e: ExpDesc, ghost m: FS, ghost y: Expr, ghost b: nat,
                ghost outer: set<nat>, ghost base: nat)
    requires Generated(fs, e, ops, m, y, b, outer, base)
    modifies fs, e
    ensures fs.ok == G.Compile(ops, m, P.Apply(u, y)).0.ok
    ensures fs.ok ==> Generated(fs, e, ops, m, P.Apply(u, y), b, outer, base)
  {
    hide Step, Tidy, Linked, Distinct, G.CodeNot, G.PrefixUn;
    ghost var m1, x1 := fs.Model(), e.Model();
    O.StepTidy(m, m1, x1, b, outer, base);
    match u {
      case OpNot => O.CodeNot(fs, e, b, outer, base);
      case OpUn(op) => B.PrefixUn(ops, fs, op, e, b, outer, base);
    }
    if fs.ok { StepTrans(m, m1, fs.Model(), e.Model(), b, outer, base); }
  }

  // What luaK_infix leaves for the second operand.
  ghost function SecondOuter(op: BinOp, e1: Exp, outer: set<nat>): set<nat> {
    if op.OprAnd? then outer + Elems(e1.f) else if op.OprOr? then outer + Elems(e1.t) else outer
  }

  lemma InfixBegins(m: FS, x: Exp, op: BinOp, b: nat, outer: set<nat>, base: nat)
    requires Tidy(m, x, b, outer, base) && G.Infix(m, op, x).0.ok
    ensures var (m2, x2) := G.Infix(m, op, x);
            Begins(m2, b, SecondOuter(op, x2, outer), m2.freereg) && SameJumps(m.code, m2.code, outer) &&
            m2.nactvar == m.nactvar &&
            (B.IsAndOr(op) ==> m2.freereg == base) && (!B.IsAndOr(op) ==> Tidy(m2, x2, b, outer, base)) &&
            var l := if op.OprAnd? then x2.f else x2.t; B.IsAndOr(op) ==> Linked(m2.code, l) && Distinct(l) && Elems(l) !! outer
  {
    hide Shaped, LinksOK, G.GoIfTrue, G.GoIfFalse, G.Exp2RK, Linked, Distinct;
    var (m2, x2) := G.Infix(m, op, x);
    if B.IsAndOr(op) {
      var flag := op.OprAnd?;
      InfixIsGoIf(m, op, x);
      GoIfTidy(m, x, b, outer, base, flag);
      RightTidy(m2, x2, b, outer, flag);
    } else {
      FirstTidy(m, op, x, b, outer, base);
    }
  }

  ghost predicate SameLists(x: Exp, x': Exp, op: BinOp) {
    x.t == x'.t && x.f == x'.f && (!B.IsAndOr(op) ==> x == x')
  }

  lemma PosfixSame(ops: Ops, m: FS, op: BinOp, x1: Exp, x1': Exp, x2: Exp)
    requires SameLists(x1, x1', op)
    ensures G.Posfix(ops, m, op, x1', x2) == G.Posfix(ops, m, op, x1, x2)
  {}

  // The operator between the operands (luaK_infix).
  method First(fs: FuncState, op: BinOp, e: ExpDesc, ghost b: nat, ghost outer: set<nat>, ghost base: nat)
    requires E.Holds(fs, e, b, outer, base)
    modifies fs, e
    ensures fs.ok == G.Infix(old(fs.Model()), op, old(e.Model())).0.ok
    ensures fs.ok ==> var (m2, x2) := G.Infix(old(fs.Model()), op, old(e.Model()));
                      fs.Model() == m2 && SameLists(x2, e.Model(), op) && fs.Valid() && e.Heads() &&
                      (!B.IsAndOr(op) ==> Waiting(m2, x2, op))
  {
    hide Step, Tidy, Linked, Distinct, G.Infix, RegsOK;
    B.Infix(fs, op, e, b, outer, base);
  }

  // Both operands are there (luaK_posfix).
  method Second(ops: Ops, fs: FuncState, op: BinOp, e1: ExpDesc, e2: ExpDesc, ghost m2: FS, ghost x1: Exp,
                ghost y: Expr,
                ghost b: nat, ghost outer: set<nat>, ghost base: nat)
    requires e1 != e2 && e1.Heads() && SameLists(x1, e1.Model(), op) && m2.ok
    requires Generated(fs, e2, ops, m2, y, b, SecondOuter(op, x1, outer), m2.freereg)
    requires !B.IsAndOr(op) ==> Tidy(m2, x1, b, outer, base) && Waiting(m2, x1, op)
    requires B.IsAndOr(op) ==>
               m2.freereg == base && var l := if op.OprAnd? then x1.f else x1.t; Linked(m2.code, l) && Distinct(l) && Elems(l) !! outer
    modifies fs, e1, e2
    ensures var (m3, x2) := G.Compile(ops, m2, y); var res := G.Posfix(ops, m3, op, x1, x2);
            fs.ok == res.0.ok &&
            (fs.ok ==> (fs.Model(), e1.Model()) == res && fs.Valid() && e1.Heads() && Step(m2, fs.Model(), e1.Model(), b, outer, base))
  {
    hide Step, Tidy, Linked, Distinct, Elems, G.Compile, G.Posfix, RegsOK, Waiting;
    ghost var m3, x2 := fs.Model(), e2.Model();
    ghost var outer2 := SecondOuter(op, x1, outer);
    O.StepTidy(m2, m3, x2, b, outer2, m2.freereg);
    PosfixSame(ops, m3, op, x1, e1.Model(), x2);
    SameFewer(m2.code, m3.code, outer2, outer);
    if op.OprAnd? || op.OprOr? {
      LinkedStays(m2.code, m3.code, if op.OprAnd? then x1.f else x1.t, outer2) by { ListInOuter(op, x1, outer); }
      B.PosfixAndOr(fs, op, e1, e2, ops, b, outer, base);
    } else {
      FirstRegs(m2, x1, b, outer, base, m3);
      WaitingAnywhere(m2, m3, x1, op);
      B.Posfix(ops, fs, op, e1, e2, b, outer, base, m2.freereg);
    }
    if fs.ok { StepTrans(m2, m3, fs.Model(), e1.Model(), b, outer, base); }
  }

  lemma ListInOuter(op: BinOp, x: Exp, outer: set<nat>)
    requires B.IsAndOr(op)
    ensures Elems(if op.OprAnd? then x.f else x.t) <= SecondOuter(op, x, outer)
  {}

  lemma FirstRegs(m2: FS, x1: Exp, b: nat, outer: set<nat>, base: nat, m3: FS)
    requires Tidy(m2, x1, b, outer, base) && m3.nactvar == m2.nactvar
    ensures RegsOK(B.FreeAt(m3, m2.freereg), x1, base)
  {}

  lemma WaitingAnywhere(m2: FS, m3: FS, x: Exp, op: BinOp)
    requires Waiting(m2, x, op)
    ensures Waiting(m3, x, op)
  {}

  // ----- subexpr -----

  ghost predicate Begun(ls: LexState, fs: FuncState, b: nat, outer: set<nat>, base: nat)
    reads ls, fs
  {
    ls.ok && fs.Valid() && Begins(fs.Model(), b, outer, base) && LocalsActive(ls.toks, fs.nactvar)
  }

  // subexpr: reads an expression whose operators bind stronger than 'limit', and generates its code.
  method Subexpr(ls: LexState, fs: FuncState, e: ExpDesc, limit: nat, ops: Ops, ghost b: nat, ghost outer: set<nat>,
                 ghost base: nat)
    requires Begun(ls, fs, b, outer, base)
    modifies ls, fs, e
    ensures Outcome(ls, fs, e, ops, old(fs.Model()), P.Subexpr(ls.toks, old(ls.pos), limit, old(ls.Room())), b, outer, base)
    ensures ls.ok && fs.ok ==> ls.levels == old(ls.levels)
    decreases ls.Room(), 2
  {
    hide Step, Begins, LocalsActive, Scoped, Generated, G.Compile, P.Loop, P.Head;
    ghost var m, room, start := fs.Model(), ls.Room(), ls.pos;
    ls.EnterLevel();
    if !ls.ok { return; }
    if ls.pos >= |ls.toks| { ls.SyntaxError(); return; }
    Head(ls, fs, e, ops, b, outer, base);
    ghost var head := P.Head(ls.toks, start, room);
    if head.Some? { LoopFits(ops, m, ls.toks, head.value.0, head.value.1, limit, room); }
    if !ls.ok || !fs.ok { return; }
    Rest(ls, fs, e, limit, ops, m, head.value.0, b, outer, base);
    if !ls.ok || !fs.ok { return; }
    ls.levels := ls.levels - 1;
  }

  // What subexpr begins with: a unary operator and its operand, or a simple expression.
  method Head(ls: LexState, fs: FuncState, e: ExpDesc, ops: Ops, ghost b: nat, ghost outer: set<nat>, ghost base: nat)
    requires Begun(ls, fs, b, outer, base) && ls.pos < |ls.toks|
    modifies ls, fs, e
    ensures Outcome(ls, fs, e, ops, old(fs.Model()), P.Head(ls.toks, old(ls.pos), old(ls.Room()) + 1), b, outer, base)
    ensures ls.ok && fs.ok ==> ls.levels == old(ls.levels)
    decreases ls.Room(), 5
  {
    hide Step, Begins, LocalsActive, Scoped, Generated, G.Compile, P.Loop;
    ghost var m, room, start := fs.Model(), ls.Room(), ls.pos;
    BeginsOK(m, b, outer, base);
    var uop := P.UnaryOf(ls.toks[ls.pos]);
    if uop.Some? {
      ls.Next();
      Subexpr(ls, fs, e, P.UNARY_PRIORITY, ops, b, outer, base);
      ghost var parsed := P.Subexpr(ls.toks, start + 1, P.UNARY_PRIORITY, room);
      if parsed.Some? { UnaryFits(ops, m, uop.value, parsed.value.0); }
      if !ls.ok || !fs.ok { return; }
      Prefix(ops, fs, uop.value, e, m, parsed.value.0, b, outer, base);
    } else {
      SimpleExp(ls, fs, e, ops, b, outer, base);
    }
  }

  lemma BeginsOK(m: FS, b: nat, outer: set<nat>, base: nat)
    requires Begins(m, b, outer, base)
    ensures m.ok
  {}

  lemma UnaryFits(ops: Ops, m: FS, u: P.UnaryOp, y: Expr)
    ensures G.Compile(ops, m, P.Apply(u, y)).0.ok ==> G.Compile(ops, m, y).0.ok
    ensures Scoped(P.Apply(u, y), m.nactvar) == Scoped(y, m.nactvar)
  {}

  // simpleexp and prefixexp, for literals, locals and parentheses
  method SimpleExp(ls: LexState, fs: FuncState, e: ExpDesc, ops: Ops, ghost b: nat, ghost outer: set<nat>,
                   ghost base: nat)
    requires Begun(ls, fs, b, outer, base) && ls.pos < |ls.toks|
    modifies ls, fs, e
    ensures Outcome(ls, fs, e, ops, old(fs.Model()), P.Simple(ls.toks, old(ls.pos), old(ls.Room()) + 1), b, outer, base)
    ensures ls.ok && fs.ok ==> ls.levels == old(ls.levels)
    decreases ls.Room(), 3
  {
    hide Step, Begins, LocalsActive, Scoped, Generated, G.Compile, P.Loop;
    ghost var m, room, start := fs.Model(), ls.Room(), ls.pos;
    BeginsOK(m, b, outer, base);
    match ls.toks[ls.pos] {
      case TValue(v) =>
        Literal(fs, e, v, ops, b, outer, base);
        GeneratedFits(fs, e, ops, m, Const(v), b, outer, base);
        ls.Next();
      case TLocal(i) =>
        LocalGenerated(fs, ls.toks, ls.pos, ops, b, outer, base);
        e.Init(VLOCAL, i, 0);
        GeneratedBy(fs, e, ops, m, Local(i), b, outer, base);
        GeneratedFits(fs, e, ops, m, Local(i), b, outer, base);
        ls.Next();
      case TLeft =>
        ls.Next();
        Subexpr(ls, fs, e, 0, ops, b, outer, base);
        ghost var parsed := P.Subexpr(ls.toks, start + 1, 0, room);
        if parsed.Some? { ParenFits(ops, m, parsed.value.0); }
        if !ls.ok || !fs.ok { return; }
        if ls.pos >= |ls.toks| || ls.toks[ls.pos] != TRight { ls.SyntaxError(); return; }
        ls.Next();
        Parenthesized(fs, e, ops, m, parsed.value.0, b, outer, base);
      case _ => ls.SyntaxError();
    }
  }

  lemma GeneratedFits(fs: FuncState, e: ExpDesc, ops: Ops, m: FS, x: Expr, b: nat, outer: set<nat>, base: nat)
    requires Generated(fs, e, ops, m, x, b, outer, base)
    ensures fs.ok && G.Compile(ops, m, x).0.ok
  {}

  lemma LocalGenerated(fs: FuncState, toks: seq<Token>, pos: nat, ops: Ops, b: nat, outer: set<nat>, base: nat)
    requires Begins(fs.Model(), b, outer, base) && LocalsActive(toks, fs.nactvar) && pos < |toks| && toks[pos].TLocal?
    ensures var i := toks[pos].i; var m := fs.Model(); var x := Exp(VLOCAL, i, 0, [], []);
            G.Compile(ops, m, Local(i)) == (m, x) && Step(m, m, x, b, outer, base) && Scoped(Local(i), m.nactvar)
  {
    var i := toks[pos].i;
    BeginsLeaf(fs.Model(), Exp(VLOCAL, i, 0, [], []), b, outer, base);
  }

  lemma GeneratedBy(fs: FuncState, e: ExpDesc, ops: Ops, m: FS, x: Expr, b: nat, outer: set<nat>, base: nat)
    requires fs.ok && fs.Valid() && e.Heads() && (fs.Model(), e.Model()) == G.Compile(ops, m, x)
    requires Step(m, fs.Model(), e.Model(), b, outer, base) && Scoped(x, m.nactvar)
    ensures Generated(fs, e, ops, m, x, b, outer, base)
  {}

  lemma ParenFits(ops: Ops, m: FS, y: Expr)
    ensures G.Compile(ops, m, Paren(y)).0.ok == G.Compile(ops, m, y).0.ok
  {}

  method Parenthesized(fs: FuncState, e: ExpDesc, ghost ops: Ops, ghost m: FS, ghost y: Expr, ghost b: nat,
                       ghost outer: set<nat>, ghost base: nat)
    requires Generated(fs, e, ops, m, y, b, outer, base)
    modifies e
    ensures Generated(fs, e, ops, m, Paren(y), b, outer, base)
  {
    hide Tidy, SameJumps, Linked, Distinct;
    TidyVars(fs.Model(), e.Model(), b, outer, base);
    e.DischargeVars();
  }

  // The operators that bind stronger than the limit, each with its right operand.
  method Rest(ls: LexState, fs: FuncState, e: ExpDesc, limit: nat, ops: Ops, ghost m: FS, ghost head: Expr,
              ghost b: nat, ghost outer: set<nat>, ghost base: nat)
    requires ls.ok && Generated(fs, e, ops, m, head, b, outer, base) && LocalsActive(ls.toks, m.nactvar) &&
             ls.pos <= |ls.toks|
    modifies ls, fs, e
    ensures Outcome(ls, fs, e, ops, m, P.Loop(ls.toks, head, old(ls.pos), limit, old(ls.Room()) + 1), b, outer, base)
    ensures ls.ok && fs.ok ==> ls.levels == old(ls.levels)
    decreases ls.Room(), 6
  {
    hide Step, Begins, LocalsActive, Scoped, Generated, G.Compile;
    ghost var room := ls.Room();
    ghost var x := head;
    ghost var all := P.Loop(ls.toks, head, ls.pos, limit, room + 1);
    while ls.pos < |ls.toks| && ls.toks[ls.pos].TOp? && P.LeftPriority(ls.toks[ls.pos].op) > limit
      invariant ls.ok && ls.levels == old(ls.levels) && ls.pos <= |ls.toks| &&
                Generated(fs, e, ops, m, x, b, outer, base)
      invariant P.Loop(ls.toks, x, ls.pos, limit, room + 1) == all
      decreases |ls.toks| - ls.pos
    {
      var op := ls.toks[ls.pos].op;
      ghost var pos := ls.pos;
      ghost var parsed := P.Subexpr(ls.toks, pos + 1, P.RightPriority(op), room);
      ls.Next();
      Operator(ls, fs, e, op, ops, m, x, b, outer, base);
      if parsed.Some? { LoopFits(ops, m, ls.toks, Bin(op, x, parsed.value.0), parsed.value.1, limit, room + 1); }
      if !ls.ok || !fs.ok { return; }
      x := Bin(op, x, parsed.value.0);
    }
    GeneratedFits(fs, e, ops, m, x, b, outer, base);
  }

  // One operator and its right operand.
  method Operator(ls: LexState, fs: FuncState, e: ExpDesc, op: BinOp, ops: Ops, ghost m: FS, ghost x: Expr,
                  ghost b: nat, ghost outer: set<nat>, ghost base: nat)
    requires ls.ok && Generated(fs, e, ops, m, x, b, outer, base) && LocalsActive(ls.toks, m.nactvar) &&
             ls.pos <= |ls.toks|
    modifies ls, fs, e
    ensures var p := P.Subexpr(ls.toks, old(ls.pos), P.RightPriority(op), old(ls.Room()));
            ((ls.ok && fs.ok) <==> (p.Some? && G.Compile(ops, m, Bin(op, x, p.value.0)).0.ok)) &&
            (ls.ok && fs.ok ==> ls.pos == p.value.1 && Generated(fs, e, ops, m, Bin(op, x, p.value.0), b, outer, base))
    ensures ls.ok && fs.ok ==> ls.levels == old(ls.levels)
    decreases ls.Room(), 5
  {
    hide Step, Begins, LocalsActive, Scoped, G.Compile, G.Infix, G.Posfix, Tidy, Linked, Distinct, Waiting, SecondOuter, Elems;
    ghost var room, start := ls.Room(), ls.pos;
    ghost var m1, x1 := fs.Model(), e.Model();
    ghost var p := P.Subexpr(ls.toks, start, P.RightPriority(op), room);
    ghost var (m2, x2) := G.Infix(m1, op, x1);
    O.StepTidy(m, m1, x1, b, outer, base);
    if p.Some? { BinaryFits(ops, m, op, x, p.value.0); }
    First(fs, op, e, b, outer, base);
    if !fs.ok { return; }
    InfixBegins(m1, x1, op, b, outer, base);
    ghost var outer2 := SecondOuter(op, x2, outer);
    StillActive(ls.toks, m, m2);
    var v2 := new ExpDesc(VNIL, 0);
    Subexpr(ls, fs, v2, P.RightPriority(op), ops, b, outer2, m2.freereg);
    if !ls.ok || !fs.ok { return; }
    ghost var y := p.value.0;
    Second(ops, fs, op, e, v2, m2, x2, y, b, outer, base);
    if fs.ok {
      StepTrans(m1, m2, fs.Model(), e.Model(), b, outer, base);
      StepTrans(m, m1, fs.Model(), e.Model(), b, outer, base);
      ScopedBinary(op, x, y, m.nactvar);
    }
  }

  lemma BinaryFits(ops: Ops, m: FS, op: BinOp, x: Expr, y: Expr)
    ensures var (m1, x1) := G.Compile(ops, m, x); var (m2, x2) := G.Infix(m1, op, x1); var (m3, y3) := G.Compile(ops, m2, y);
            G.Compile(ops, m, Bin(op, x, y)) == G.Posfix(ops, m3, op, x2, y3) &&
            (G.Compile(ops, m, Bin(op, x, y)).0.ok ==> m2.ok && m3.ok)
  {
    hide G.Infix, G.Posfix;
  }

  lemma StillActive(toks: seq<Token>, m: FS, m2: FS)
    requires LocalsActive(toks, m.nactvar) && m2.nactvar == m.nactvar
    ensures LocalsActive(toks, m2.nactvar)
  {}

  lemma ScopedBinary(op: BinOp, x: Expr, y: Expr, nactvar: nat)
    requires Scoped(x, nactvar) && Scoped(y, nactvar)
    ensures Scoped(Bin(op, x, y), nactvar)
  {}
}
