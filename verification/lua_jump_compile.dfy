// The jump lists of operators and of whole expressions.
module LuaJumpCompile {
  import opened LuaMachine
  import opened LuaCodegen
  import opened LuaCodeRuns
  import opened LuaCodeMeaning
  import opened LuaCodeRegs
  import opened LuaCodeConds
  import opened LuaCodeNot
  import opened LuaCodeOperands
  import opened LuaCodeArith
  import opened LuaCodeCompare
  import opened LuaCodeAndOr
  import opened LuaCodeCompile
  import opened LuaJumpLists
  import opened LuaJumpTidy

  // ----- not -----

  lemma ExchangeTidy(fs: FS, e: Exp, b: nat, outer: set<nat>)
    requires Shaped(fs, e, b, outer) && LinksOK(fs, e)
    ensures Shaped(Unvalued(fs, e), Exchanged(e), b, outer) && LinksOK(Unvalued(fs, e), Exchanged(e))
    ensures SameJumps(fs.code, Unvalued(fs, e).code, outer)
  {
    var fs', js := Unvalued(fs, e), outer + Elems(fs.jpc) + Own(e);
    UnvaluedIs(fs, e, b, outer);
    ExchangedShape(fs, e, b, outer);
    forall j | j in js ensures j < |fs'.code| && fs'.code[j] == fs.code[j] {
      assert RemovedAt(fs.code, fs'.code, Elems(e.t) + Elems(e.f), j);
    }
    OwnParts(e);
    KeepLinks(fs, e, fs', e.(kind := VNIL), js);
    if e.kind == VJMP {
      assert e.info in Own(e) && Elems([e.info]) == {e.info};
      LinkedStays(fs.code, fs'.code, [e.info], js);
    }
  }

  lemma LastTidy(fs: FS, e: Exp, b: nat, outer: set<nat>, base: nat, i: Instr)
    requires Shaped(fs, e, b, outer) && Settled(e) && LinksOK(fs, e) && (i.ARITH? || i.UNARY? || i.NOT?)
    requires fs.freereg == base && fs.nactvar <= base
    ensures Step(fs, Emit(fs, [i]), Last(e, fs), b, outer, base)
  {
    hide Shaped;
    LastShape(fs, e, i, b, outer);
    EmitLinks(fs, e, b, outer, [i], Last(e, fs));
    SameFewer(fs.code, Emit(fs, [i]).code, outer + Own(e), outer);
    EmitFields(fs, [i]);
  }

  lemma NotTidy(fs: FS, e0: Exp, b: nat, outer: set<nat>, base: nat)
    requires Tidy(fs, e0, b, outer, base) && CodeNot(fs, e0).0.ok
    ensures var (fs', e') := CodeNot(fs, e0); Step(fs, fs', e', b, outer, base)
  {
    hide Shaped, LinksOK, NotValue, Unvalued;
    var e := DischargeVars(e0);
    var (fs1, e1) := NotValue(fs, e);
    TidyVars(fs, e0, b, outer, base);
    NotValueTidy(fs, e, b, outer, base);
    ExchangeTidy(fs1, e1, b, outer);
    assert CodeNot(fs, e0) == (Unvalued(fs1, e1), Exchanged(e1)) by { UnvaluedDefined(fs, e0); }
    SameTrans(fs.code, fs1.code, Unvalued(fs1, e1).code, outer);
    UnvaluedDefined(fs, e0);
  }

  lemma UnvaluedDefined(fs: FS, e0: Exp)
    ensures var (fs1, e1) := NotValue(fs, DischargeVars(e0));
            CodeNot(fs, e0) == (Unvalued(fs1, e1), Exchanged(e1)) && Unvalued(fs1, e1) == fs1.(code := Unvalued(fs1, e1).code)
  {}

  lemma NotValueTidy(fs: FS, e: Exp, b: nat, outer: set<nat>, base: nat)
    requires Tidy(fs, e, b, outer, base) && e.kind != VLOCAL && NotValue(fs, e).0.ok
    ensures var (fs1, e1) := NotValue(fs, e); Step(fs, fs1, e1, b, outer, base)
  {
    hide InvertJump, Discharge2AnyReg, Emit, FreeExp;
    match e.kind
    case VJMP => JumpBranchTidy(fs, e, b, outer, base, true);
    case VRELOCABLE => ValueNotTidy(fs, e, b, outer, base);
    case VNONRELOC => ValueNotTidy(fs, e, b, outer, base);
    case VLOCAL =>
    case _ => assert Own(NotValue(fs, e).1) == Own(e);
  }

  lemma ValueNotTidy(fs: FS, e: Exp, b: nat, outer: set<nat>, base: nat)
    requires Tidy(fs, e, b, outer, base) && (e.kind == VRELOCABLE || e.kind == VNONRELOC) && NotValue(fs, e).0.ok
    ensures var (fs1, e1) := NotValue(fs, e); Step(fs, fs1, e1, b, outer, base)
  {
    hide Shaped, LinksOK, Discharge2AnyReg, Emit, FreeExp;
    var (fs1, e1) := Discharge2AnyReg(fs, e);
    KeepListsTidy(fs, e, b, outer, base);
    FreeTidy(fs1, e1, b, outer, base);
    var fs2, i := FreeExp(fs1, e1), NOT(0, e1.info);
    EmitIsCode(fs2, i, i);
    LastTidy(fs2, e1, b, outer, base, i);
    StepTrans(fs, fs1, Emit(fs2, [i]), Last(e1, fs2), b, outer, base);
  }

  // ----- two operands -----

  // The second operand is ready; the first lies below it.
  lemma BothTidy(fs1: FS, p: Exp, o1: nat, fs2: FS, q: Exp, o2: nat, b: nat, outer: set<nat>, base: nat)
    requires RegsOK(fs1, p, base) && IsOperand(p, o1) && Tidy(fs2, q, b, outer, fs1.freereg) && IsOperand(q, o2) &&
             fs2.nactvar == fs1.nactvar
    ensures var fs3 := fs2.(freereg := base);
            Shaped(fs3, Nothing(), b, outer) && LinksOK(fs3, Nothing()) && fs3.nactvar <= base
  {
    assert Own(q) == {} == Own(Nothing());
    assert outer + Elems(fs2.jpc) + Own(q) == outer + Elems(fs2.jpc) + Own(Nothing());
  }

  lemma OperationTidy(fs: FS, e: Exp, b: nat, outer: set<nat>, base: nat, i: Instr)
    requires Shaped(fs, Nothing(), b, outer) && LinksOK(fs, Nothing()) && fs.freereg == base && fs.nactvar <= base
    requires (i.ARITH? || i.UNARY? || i.NOT?) && e.t == [] && e.f == []
    ensures Step(fs, Emit(fs, [i]), Last(e, fs), b, outer, base)
  {
    LastTidy(fs, Nothing(), b, outer, base, i);
    hide Emit;
    SameShape(Emit(fs, [i]), Last(Nothing(), fs), Last(e, fs), b, outer);
  }

  lemma ArithTidy(ops: Ops, fs1: FS, e1: Exp, o1: nat, fs3: FS, e2: Exp, b: nat, outer: set<nat>, base: nat,
                  op: ArithOp)
    requires RegsOK(fs1, e1, base) && IsOperand(e1, o1) && Tidy(fs3, e2, b, outer, fs1.freereg) &&
             fs3.nactvar == fs1.nactvar
    requires CodeArith(ops, fs3, op, e1, e2).0.ok
    ensures var (fs', e') := CodeArith(ops, fs3, op, e1, e2); Step(fs3, fs', e', b, outer, base)
  {
    hide Shaped, LinksOK, Exp2RK, FreeExp, Emit;
    var (fs2, q, o2) := Exp2RK(fs3, e2);
    OperandIsRK(fs2, e1, o1);
    RKTidy(fs3, e2, b, outer, fs1.freereg);
    FreeBoth(fs1, e1, o1, fs2, q, o2, base);
    BothTidy(fs1, e1, o1, fs2, q, o2, b, outer, base);
    var fs4, i := fs2.(freereg := base), ARITH(op, 0, o1, o2);
    EmitIsCode(fs4, i, i);
    OperationTidy(fs4, e1, b, outer, base, i);
    StepTrans(fs3, fs4, Emit(fs4, [i]), Last(e1, fs4), b, outer, base);
  }

  lemma PlainTidy(fs: FS, q: Exp, b: nat, outer: set<nat>, base: nat, e: Exp)
    requires Tidy(fs, q, b, outer, base) && q.t == [] && q.f == [] && q.kind != VJMP && IsNumeral(e)
    ensures Tidy(fs, e, b, outer, fs.freereg)
  {
    assert Own(q) == {} == Own(e);
    assert outer + Elems(fs.jpc) + Own(q) == outer + Elems(fs.jpc) + Own(e);
  }

  lemma NumeralTidy(ops: Ops, fs3: FS, e1: Exp, e2: Exp, b: nat, outer: set<nat>, base: nat, op: ArithOp)
    requires IsNumeral(e1) && Tidy(fs3, e2, b, outer, base) && CodeArith(ops, fs3, op, e1, e2).0.ok
    ensures var (fs', e') := CodeArith(ops, fs3, op, e1, e2); Step(fs3, fs', e', b, outer, base)
  {
    hide Shaped, LinksOK, Exp2RK, FreeExp, Emit;
    if Folds(ops, op, e1, e2) {
      FoldTidy(fs3, e2, b, outer, base, CodeArith(ops, fs3, op, e1, e2).1);
    } else {
      var (fs4, q, o2) := Exp2RK(fs3, e2);
      var (fs5, p, o1) := Exp2RK(fs4, e1);
      RKTidy(fs3, e2, b, outer, base);
      PlainTidy(fs4, q, b, outer, base, e1);
      RKTidy(fs4, e1, b, outer, fs4.freereg);
      OtherOrder(fs4, q, o2, fs5, p, o1, base);
      BothTidy(fs4, q, o2, fs5, p, o1, b, outer, base);
      var fs6, i := fs5.(freereg := base), ARITH(op, 0, o1, o2);
      EmitIsCode(fs6, i, i);
      OperationTidy(fs6, p, b, outer, base, i);
      StepTrans(fs4, fs5, Emit(fs6, [i]), Last(p, fs6), b, outer, base);
      StepTrans(fs3, fs4, Emit(fs6, [i]), Last(p, fs6), b, outer, base);
    }
  }

  lemma FoldTidy(fs: FS, e: Exp, b: nat, outer: set<nat>, base: nat, e': Exp)
    requires Tidy(fs, e, b, outer, base) && IsNumeral(e) && IsNumeral(e')
    ensures Step(fs, fs, e', b, outer, base)
  {
    assert Own(e) == {} == Own(e');
  }

  lemma CompareTidy(ops: Ops, fs1: FS, e1: Exp, o1: nat, fs3: FS, e2: Exp, b: nat, outer: set<nat>, base: nat,
                    op: BinOp)
    requires RegsOK(fs1, e1, base) && IsOperand(e1, o1) && Tidy(fs3, e2, b, outer, fs1.freereg) &&
             fs3.nactvar == fs1.nactvar
    requires IsCompare(op) && Posfix(ops, fs3, op, e1, e2).0.ok
    ensures var (fs', e') := Posfix(ops, fs3, op, e1, e2); Step(fs3, fs', e', b, outer, base)
  {
    hide Shaped, LinksOK, Exp2RK, FreeExp, Emit;
    CompareIs(ops, fs3, op, e1, e2);
    OperandIsRK(fs3, e1, o1);
    var (fs2, q, o2) := Exp2RK(fs3, e2);
    RKTidy(fs3, e2, b, outer, fs1.freereg);
    FreeBoth(fs1, e1, o1, fs2, q, o2, base);
    BothTidy(fs1, e1, o1, fs2, q, o2, b, outer, base);
    var fs4, i := fs2.(freereg := base), Comparing(op, o1, o2);
    EmitIsCode(fs4, i, i);
    ComparedTidy(fs4, e1, b, outer, base, i);
    assert Posfix(ops, fs3, op, e1, e2) == (Emit(fs4, [i, JMP(NO_JUMP)]), Compared(e1, fs4));
    StepTrans(fs3, fs4, Emit(fs4, [i, JMP(NO_JUMP)]), Compared(e1, fs4), b, outer, base);
  }

  lemma ComparedTidy(fs: FS, e: Exp, b: nat, outer: set<nat>, base: nat, i: Instr)
    requires Shaped(fs, Nothing(), b, outer) && LinksOK(fs, Nothing()) && fs.freereg == base && fs.nactvar <= base
    requires i.CMP? && e.t == [] && e.f == []
    ensures Step(fs, Emit(fs, [i, JMP(NO_JUMP)]), Compared(e, fs), b, outer, base)
  {
    hide Shaped;
    ComparisonShape(fs, e, i, b, outer);
    TestLinks(fs, Nothing(), b, outer, i, true);
    EmitFields(fs, [i, JMP(NO_JUMP)]);
  }

  lemma UnaryTidy(ops: Ops, fs: FS, e: Exp, b: nat, outer: set<nat>, base: nat, op: UnOp)
    requires Tidy(fs, e, b, outer, base) && PrefixUn(ops, fs, op, e).0.ok
    ensures var (fs', e') := PrefixUn(ops, fs, op, e); Step(fs, fs', e', b, outer, base)
  {
    hide Shaped, LinksOK, Exp2AnyReg, Exp2RK, FreeExp, Emit;
    if op == Minus && IsNumeral(e) {
      FoldTidy(fs, e, b, outer, base, PrefixUn(ops, fs, op, e).1);
    } else {
      var (fs1, e1) := Exp2AnyReg(fs, e);
      AnyRegTidy(fs, e, b, outer, base);
      TidyReady(Any([], b), fs1, e1, outer, base);
      LowRegister(Any([], b), fs1, e1, outer, base, Idle());
      OperandIsRK(fs1, e1, e1.info);
      FreeTidy(fs1, e1, b, outer, base);
      var fs2, i := FreeExp(fs1, e1), UNARY(op, 0, e1.info);
      EmitIsCode(fs2, i, i);
      LastTidy(fs2, e1, b, outer, base, i);
      StepTrans(fs, fs1, Emit(fs2, [i]), Last(e1, fs2), b, outer, base);
    }
  }

  // ----- and, or -----

  // fs2: after goiftrue or goiffalse of the first operand, whose exits are l.
  lemma AndOrTidy(ops: Ops, fs2: FS, e1: Exp, fs3: FS, e2: Exp, b: nat, outer: set<nat>, base: nat, op: BinOp)
    requires op.OprAnd? || op.OprOr?
    requires var l := if op.OprAnd? then e1.f else e1.t;
             Linked(fs2.code, l) && Distinct(l) && Elems(l) !! outer &&
             Tidy(fs3, e2, b, outer + Elems(l), base) && SameJumps(fs2.code, fs3.code, outer + Elems(l))
    ensures var (fs', e') := Posfix(ops, fs3, op, e1, e2); Step(fs2, fs', e', b, outer, base)
  {
    hide Concat, Linked, SameJumps, Distinct, Shaped, Elems, Own, InfoSet, With;
    var flag := op.OprAnd?;
    var l := if flag then e1.f else e1.t;
    var e := DischargeVars(e2);
    TidyVars(fs3, e2, b, outer + Elems(l), base);
    var fs' := Concat(fs3, if flag then e.f else e.t, l);
    AndOrIs(ops, fs3, op, e1, e2, l, flag);
    WithShape(fs3, e, l, b, outer, flag);
    LinkedStays(fs2.code, fs3.code, l, outer + Elems(l));
    ConcatShape(fs3, With(e, l, flag), b, outer, if flag then e.f else e.t, l) by { WithApart(fs3, e, l, b, outer, flag); }
    AndOrLinks(fs3, e, l, b, outer, flag);
    SameFewer(fs2.code, fs3.code, outer + Elems(l), outer);
    SameTrans(fs2.code, fs3.code, fs'.code, outer);
    SameRegs(fs3, fs', e, With(e, l, flag), base, l, flag);
  }

  lemma SameRegs(fs: FS, fs': FS, e: Exp, e': Exp, base: nat, l: seq<nat>, flag: bool)
    requires RegsOK(fs, e, base) && fs' == fs.(code := fs'.code, ok := fs'.ok) && e' == With(e, l, flag)
    ensures RegsOK(fs', e', base)
  {}

  lemma AndOrIs(ops: Ops, fs: FS, op: BinOp, e1: Exp, e2: Exp, l: seq<nat>, flag: bool)
    requires flag == op.OprAnd? && (op.OprAnd? || op.OprOr?) && l == if flag then e1.f else e1.t
    ensures var e := DischargeVars(e2);
            Posfix(ops, fs, op, e1, e2) == (Concat(fs, if flag then e.f else e.t, l), With(e, l, flag))
  {}

  // The lists of the second operand, one of them followed by the exits of the first.
  lemma AndOrLinks(fs: FS, e: Exp, l: seq<nat>, b: nat, outer: set<nat>, flag: bool)
    requires Shaped(fs, e, b, outer + Elems(l)) && Elems(l) !! outer && LinksOK(fs, e) && Linked(fs.code, l)
    ensures var fs' := Concat(fs, if flag then e.f else e.t, l);
            LinksOK(fs', With(e, l, flag)) && SameJumps(fs.code, fs'.code, outer) && fs'.jpc == fs.jpc
  {
    hide Linked, SameJumps, Distinct, Shaped, Own, InfoSet, Concat;
    var l1, l2 := if flag then e.f else e.t, if flag then e.t else e.f;
    var fs' := Concat(fs, l1, l);
    var js := outer + Elems(fs.jpc) + Elems(l2) + InfoSet(e);
    WithApart(fs, e, l, b, outer, flag);
    ConcatLinks(fs, l1, l, js);
    SameFewer(fs.code, fs'.code, js, outer);
    LinkedStays(fs.code, fs'.code, fs.jpc, js);
    LinkedStays(fs.code, fs'.code, l2, js);
    ConcatKeepsPending(fs, l1, l);
    if e.kind == VJMP {
      InfoOfJump(e);
      LinkedStays(fs.code, fs'.code, [e.info], js);
    }
  }

  lemma InfoOfJump(e: Exp)
    requires e.kind == VJMP
    ensures Elems([e.info]) == InfoSet(e)
  {}

  lemma ConcatKeepsPending(fs: FS, l1: seq<nat>, l2: seq<nat>)
    ensures Concat(fs, l1, l2).jpc == fs.jpc
  {}

  lemma WithApart(fs: FS, e: Exp, l: seq<nat>, b: nat, outer: set<nat>, flag: bool)
    requires Shaped(fs, e, b, outer + Elems(l)) && Elems(l) !! outer
    ensures var l1, l2 := if flag then e.f else e.t, if flag then e.t else e.f;
            Distinct(l1) && Elems(l1) !! Elems(l) && Elems(l1) <= Own(e) && Elems(l1) <= Own(With(e, l, flag)) &&
            (outer + Elems(fs.jpc) + Elems(l2) + InfoSet(e)) !! Elems(l1) &&
            forall j :: j in outer + Elems(fs.jpc) + Elems(l2) + InfoSet(e) ==> j < |fs.code|
  {
    var l1, l2 := if flag then e.f else e.t, if flag then e.t else e.f;
    assert Elems(l1 + l) == Elems(l1) + Elems(l);
    assert forall j :: j in Elems(fs.jpc) ==> j < |fs.code|;
    assert Elems(l2) <= Own(e) && InfoSet(e) <= Own(e) && forall j :: j in Own(e) ==> j < |fs.code|;
  }

  lemma RightTidy(fs: FS, e: Exp, b: nat, outer: set<nat>, flag: bool)
    requires Shaped(fs, Lists(e.t, e.f), b, outer) && LinksOK(fs, Lists(e.t, e.f)) &&
             (if flag then e.t == [] else e.f == [])
    ensures var l := if flag then e.f else e.t;
            Shaped(fs, Nothing(), b, outer + Elems(l)) && LinksOK(fs, Nothing()) && Linked(fs.code, l) && Distinct(l) && Elems(l) !! outer
  {
    var l := if flag then e.f else e.t;
    assert Own(Lists(e.t, e.f)) == Elems(l) && Own(Nothing()) == {};
    assert outer + Elems(l) + Elems(fs.jpc) + Own(Nothing()) == outer + Elems(fs.jpc) + Own(Lists(e.t, e.f));
    assert Controlled(fs.code, outer + Elems(l));
  }

  lemma NextTidy(fs: FS, e: Exp, b: nat, outer: set<nat>, base: nat)
    requires Tidy(fs, e, b, outer, base) && e.t == [] && e.f == [] && Settled(e)
    ensures Shaped(fs, Nothing(), b, outer) && LinksOK(fs, Nothing()) && fs.nactvar <= fs.freereg
  {
    assert Own(e) == {} == Own(Nothing());
    assert outer + Elems(fs.jpc) + Own(e) == outer + Elems(fs.jpc) + Own(Nothing());
  }

  lemma LeafTidy(fs: FS, e: Exp, b: nat, outer: set<nat>, base: nat)
    requires Shaped(fs, Nothing(), b, outer) && LinksOK(fs, Nothing()) && fs.freereg == base && fs.nactvar <= base
    requires e.t == [] && e.f == [] && Settled(e) && e.kind != VNONRELOC
    requires (e.kind == VK ==> e.info < |fs.k|) && (e.kind == VLOCAL ==> e.info < fs.nactvar)
    ensures Step(fs, fs, e, b, outer, base)
  {
    assert Own(e) == {} == Own(Nothing());
    assert outer + Elems(fs.jpc) + Own(e) == outer + Elems(fs.jpc) + Own(Nothing());
  }

  lemma SimpleTidy(fs: FS, v: Value, b: nat, outer: set<nat>, base: nat)
    requires Shaped(fs, Nothing(), b, outer) && LinksOK(fs, Nothing()) && fs.freereg == base && fs.nactvar <= base
    ensures var (fs', e') := Simple(v, fs); Step(fs, fs', e', b, outer, base)
  {
    var (fs', e') := Simple(v, fs);
    assert fs' == fs.(k := fs'.k);
    MoreConstantsShape(fs, Nothing(), b, outer, fs'.k);
    LeafTidy(fs', e', b, outer, base);
  }

  // While and after an expression is compiled, the pending jumps of its descriptor and those
  // waiting for the next instruction are finite chains in the code, no two lists share a jump,
  // and no pending jump of anything else is touched.
  lemma {:induction false} CompileTidy(ops: Ops, fs: FS, x: Expr, b: nat, outer: set<nat>, base: nat)
    requires Shaped(fs, Nothing(), b, outer) && LinksOK(fs, Nothing()) && fs.freereg == base && fs.nactvar <= base
    requires Scoped(x, fs.nactvar) && Compile(ops, fs, x).0.ok
    ensures var (fs', e') := Compile(ops, fs, x); Step(fs, fs', e', b, outer, base)
    decreases x
  {
    hide Shaped, LinksOK, RegsOK, Simple, CodeNot, PrefixUn, Posfix, Infix;
    match x
    case Const(v) => SimpleTidy(fs, v, b, outer, base);
    case Local(i) => LeafTidy(fs, Exp(VLOCAL, i, 0, [], []), b, outer, base);
    case Paren(y) =>
      CompileTidy(ops, fs, y, b, outer, base);
      var (fs1, e) := Compile(ops, fs, y);
      TidyVars(fs1, e, b, outer, base);
    case Not(y) =>
      CompileTidy(ops, fs, y, b, outer, base);
      var (fs1, e) := Compile(ops, fs, y);
      NotTidy(fs1, e, b, outer, base);
      StepTrans(fs, fs1, CodeNot(fs1, e).0, CodeNot(fs1, e).1, b, outer, base);
    case Un(op, y) =>
      CompileTidy(ops, fs, y, b, outer, base);
      var (fs1, e) := Compile(ops, fs, y);
      UnaryTidy(ops, fs1, e, b, outer, base, op);
      StepTrans(fs, fs1, PrefixUn(ops, fs1, op, e).0, PrefixUn(ops, fs1, op, e).1, b, outer, base);
    case Bin(op, a, y) =>
      CompileTidy(ops, fs, a, b, outer, base);
      var (fs1, e1) := Compile(ops, fs, a);
      var (fs2, e1') := Infix(fs1, op, e1);
      var (fs3, e2) := Compile(ops, fs2, y);
      var (fs', e') := Posfix(ops, fs3, op, e1', e2);
      if op.OprAnd? || op.OprOr? {
        var flag := op.OprAnd?;
        InfixIsGoIf(fs1, op, e1);
        GoIfTidy(fs1, e1, b, outer, base, flag);
        var l := if flag then e1'.f else e1'.t;
        RightTidy(fs2, e1', b, outer, flag);
        CompileTidy(ops, fs2, y, b, outer + Elems(l), base);
        AndOrTidy(ops, fs2, e1', fs3, e2, b, outer, base, op);
        StepTrans(fs1, fs2, fs', e', b, outer, base);
      } else {
        FirstTidy(fs1, op, e1, b, outer, base);
        CompileTidy(ops, fs2, y, b, outer, fs2.freereg);
        SecondTidy(ops, fs2, e1', fs3, e2, b, outer, base, op);
        StepTrans(fs2, fs3, fs', e', b, outer, base);
        StepTrans(fs1, fs2, fs', e', b, outer, base);
      }
      StepTrans(fs, fs1, fs', e', b, outer, base);
  }

  lemma FirstTidy(fs: FS, op: BinOp, e: Exp, b: nat, outer: set<nat>, base: nat)
    requires Tidy(fs, e, b, outer, base) && !op.OprAnd? && !op.OprOr? && Infix(fs, op, e).0.ok
    ensures var (fs', e') := Infix(fs, op, e);
            Step(fs, fs', e', b, outer, base) && Waiting(fs', e', op) && fs'.nactvar <= fs'.freereg &&
            Shaped(fs', Nothing(), b, outer) && LinksOK(fs', Nothing())
  {
    hide Shaped, LinksOK, RegsOK, Exp2RK;
    var (fs', e') := Infix(fs, op, e);
    if op.OprArith? && IsNumeral(e) {
      NoStep(fs, e, b, outer, base);
    } else {
      RKTidy(fs, e, b, outer, base);
      assert IsOperand(e', Exp2RK(fs, e).2);
    }
    NextTidy(fs', e', b, outer, base);
  }

  lemma SecondTidy(ops: Ops, fs2: FS, e1: Exp, fs3: FS, e2: Exp, b: nat, outer: set<nat>, base: nat, op: BinOp)
    requires RegsOK(fs2, e1, base) && Waiting(fs2, e1, op) && Tidy(fs3, e2, b, outer, fs2.freereg)
    requires !op.OprAnd? && !op.OprOr? && fs3.nactvar == fs2.nactvar && Posfix(ops, fs3, op, e1, e2).0.ok
    ensures var (fs', e') := Posfix(ops, fs3, op, e1, e2); Step(fs3, fs', e', b, outer, base)
  {
    hide Shaped, LinksOK, CodeArith, CodeComp, Step;
    if op.OprArith? && IsNumeral(e1) {
      NumeralTidy(ops, fs3, e1, e2, b, outer, base, op.op);
    } else {
      var rk: nat :| IsOperand(e1, rk);
      if op.OprArith? {
        ArithTidy(ops, fs2, e1, rk, fs3, e2, b, outer, base, op.op);
      } else {
        CompareTidy(ops, fs2, e1, rk, fs3, e2, b, outer, base, op);
      }
    }
  }
}
