// codenot: the opposite value, and the lists exchanged.
module LuaCodeNot {
  import opened Common
  import opened LuaMachine
  import opened LuaCodegen
  import opened LuaCodeRuns
  import opened LuaCodeMeaning
  import opened LuaCodePlace
  import opened LuaCodeRegs
  import opened LuaCodeConds
  import opened LuaCodeBranches

  ghost function Opposite(v: Option<Value>): Option<Value> {
    if v.None? then None else Some(Bool(IsFalse(v.value)))
  }

  ghost function NotGoal(g: Goal): Goal { if g.Wanted? then Wanted(g.r, Opposite(g.v)) else g }

  // ----- removevalues -----

  // Tests of the listed jumps no longer put a value anywhere.
  ghost predicate RemovedAt(code: seq<Instr>, code': seq<Instr>, js: set<nat>, i: nat)
    requires i < |code| == |code'|
  {
    code'[i] == if i + 1 in js && code[i].TESTSET? then TEST(code[i].b, code[i].c) else code[i]
  }

  ghost predicate Removed(code: seq<Instr>, code': seq<Instr>, js: set<nat>) {
    |code'| == |code| && forall i :: 0 <= i < |code| ==> RemovedAt(code, code', js, i)
  }

  lemma {:induction false} RemoveValuesRemoves(code: seq<Instr>, list: seq<nat>)
    requires Controlled(code, Elems(list))
    ensures Removed(code, RemoveValues(code, list), Elems(list))
    decreases |list|
  {
    if list != [] {
      var j, rest := list[0], list[1..];
      assert j in Elems(list) && Control(code, j) == j - 1;
      var code1 := PatchTestReg(code, j, NO_REG);
      assert forall i :: i in Elems(rest) ==> i in Elems(list);
      assert forall i :: i in Elems(list) ==> i == j || i in Elems(rest);
      RemoveValuesRemoves(code1, rest);
      forall i | 0 <= i < |code| ensures RemovedAt(code, RemoveValues(code, list), Elems(list), i) {
        assert RemovedAt(code1, RemoveValues(code1, rest), Elems(rest), i);
      }
    }
  }

  lemma RemovedTwice(code: seq<Instr>, code1: seq<Instr>, code2: seq<Instr>, js: set<nat>, js': set<nat>)
    requires Removed(code, code1, js) && Removed(code1, code2, js')
    ensures Removed(code, code2, js + js')
  {
    forall i | 0 <= i < |code| ensures RemovedAt(code, code2, js + js', i) {
      assert RemovedAt(code, code1, js, i) && RemovedAt(code1, code2, js', i);
    }
  }

  ghost function Unvalued(fs: FS, e: Exp): FS { fs.(code := RemoveValues(RemoveValues(fs.code, e.t), e.f)) }
  ghost function Exchanged(e: Exp): Exp { e.(t := e.f, f := e.t) }

  lemma UnvaluedIs(fs: FS, e: Exp, b: nat, outer: set<nat>)
    requires Shaped(fs, e, b, outer)
    ensures Removed(fs.code, Unvalued(fs, e).code, Elems(e.t) + Elems(e.f))
  {
    assert forall j :: j in Elems(e.t) ==> j in Own(e);
    assert forall j :: j in Elems(e.f) ==> j in Own(e);
    RemoveValuesRemoves(fs.code, e.t);
    var code1 := RemoveValues(fs.code, e.t);
    assert Controlled(code1, Elems(e.f)) by {
      forall j | j in Elems(e.f) ensures 0 < j < |code1| && TMode(code1[j - 1]) {
        assert j in Own(e);
        assert RemovedAt(fs.code, code1, Elems(e.t), j - 1);
      }
    }
    RemoveValuesRemoves(code1, e.f);
    RemovedTwice(fs.code, code1, RemoveValues(code1, e.f), Elems(e.t), Elems(e.f));
  }

  lemma RemovedIsAlike(code: seq<Instr>, code': seq<Instr>, js: set<nat>, stops: set<nat>, from: nat, lim: nat)
    requires Removed(code, code', js) && js <= stops && lim <= |code|
    ensures Alike(code, code', stops, from, lim)
  {
    forall i | from <= i < lim ensures AlikeAt(code, code', stops, i) { assert RemovedAt(code, code', js, i); }
  }

  lemma RemovedKinds(code: seq<Instr>, code': seq<Instr>, js: set<nat>)
    requires Removed(code, code', js)
    ensures forall i :: 0 <= i < |code| ==>
              TMode(code'[i]) == TMode(code[i]) && (!code[i].TESTSET? ==> code'[i] == code[i]) && (TMode(code[i]) ==> TMode(code'[i]))
  {
    forall i | 0 <= i < |code|
      ensures TMode(code'[i]) == TMode(code[i]) && (!code[i].TESTSET? ==> code'[i] == code[i]) &&
              (TMode(code[i]) ==> TMode(code'[i]))
    {
      assert RemovedAt(code, code', js, i);
    }
  }

  lemma ExchangedShape(fs: FS, e: Exp, b: nat, outer: set<nat>)
    requires Shaped(fs, e, b, outer)
    ensures Shaped(Unvalued(fs, e), Exchanged(e), b, outer) && Own(Exchanged(e)) == Own(e)
    ensures KeepsControls(fs.code, Unvalued(fs, e).code, outer)
    ensures e.kind == VRELOCABLE ==> Unvalued(fs, e).code[e.info] == fs.code[e.info]
  {
    hide RemoveValues;
    UnvaluedIs(fs, e, b, outer);
    var code', js := Unvalued(fs, e).code, Elems(e.t) + Elems(e.f);
    RemovedKinds(fs.code, code', js);
    forall i | 0 <= i < |code'| ensures PairedAt(code', i) { assert PairedAt(fs.code, i); }
    forall i | b <= i < |code'| && i !in outer + Elems(fs.jpc) + Own(e) ensures TargetAt(code'[i], i, fs.lasttarget) {
      assert TargetAt(fs.code[i], i, fs.lasttarget);
    }
    forall j | j in outer ensures code'[j - 1] == fs.code[j - 1] {
      assert j !in js && RemovedAt(fs.code, code', js, j - 1);
    }
  }

  // ----- runs, with what is known on arrival and at a comparison's jump given apart -----

  ghost predicate Acts(c: Ctx, fs: FS, e: Exp, outer: set<nat>, fr: nat, g: Goal, arrival: Regs -> bool, jumped: bool) {
    var o := Outcomes(c, fs, e, outer);
    match g
    case Elsewhere(o0) => o0.Stuck? || o == o0
    case Wanted(r, v) =>
      (Leaves(fs.code, Lists(e.t, e.f), v, o) || (Arrived(o, fs.jpc, Lim(fs, e)) && (o.Taken? ==> 0 < o.j) && arrival(o.regs)) ||
       (o.Taken? && e.kind == VJMP && o.j == e.info && jumped)) &&
      (o.At? || o.Taken? ==> AgreeBut(r, o.regs, fr, -1))
  }

  // A jump that left with a value now leaves by the other list with the opposite one.
  lemma LeavesOpposite(code: seq<Instr>, code': seq<Instr>, e: Exp, v: Option<Value>, o: Outcome)
    requires Removed(code, code', Elems(e.t) + Elems(e.f)) && Leaves(code, Lists(e.t, e.f), v, o)
    ensures Leaves(code', Exchanged(e), Opposite(v), o)
  {
    match o
    case Taken(j, _) =>
      assert j in e.t ==> j in Elems(e.t);
      assert j in e.f ==> j in Elems(e.f);
      assert RemovedAt(code, code', Elems(e.t) + Elems(e.f), j - 1);
    case _ =>
  }

  lemma ExchangeMeans(c: Ctx, fs: FS, e: Exp, outer: set<nat>, fr: nat, g: Goal, arrival: Regs -> bool, jumped: bool)
    requires Shaped(fs, e, c.b, outer) && Acts(c, fs, e, outer, fr, g, arrival, jumped) && GoalOK(g, outer, |fs.code|)
    requires g.Wanted? && jumped ==> g.v == Some(Bool(false))
    requires g.Wanted? ==> forall r :: arrival(r) ==> EndVal(c.env, fs, e, r) == Opposite(g.v)
    ensures Good(c, Unvalued(fs, e), Exchanged(e), outer, fr, -1, NotGoal(g))
    ensures Leads(fs, Unvalued(fs, e), outer)
  {
    var fs', e' := Unvalued(fs, e), Exchanged(e);
    ExchangedShape(fs, e, c.b, outer);
    UnvaluedIs(fs, e, c.b, outer);
    var stops := outer + Elems(fs.jpc) + Own(e);
    RemovedIsAlike(fs.code, fs'.code, Elems(e.t) + Elems(e.f), stops, c.b, Lim(fs, e));
    if !(g.Elsewhere? && g.o.Stuck?) {
      ActsRuns(c, fs, e, outer, fr, g, arrival, jumped);
      AlikeRuns(c.env, fs.code, fs'.code, stops, Lim(fs, e), c.b, c.s);
      var o := Outcomes(c, fs, e, outer);
      assert Outcomes(c, fs', e', outer) == o;
      if g.Wanted? && Leaves(fs.code, Lists(e.t, e.f), g.v, o) {
        LeavesOpposite(fs.code, fs'.code, e, g.v, o);
      }
    }
  }

  lemma ActsRuns(c: Ctx, fs: FS, e: Exp, outer: set<nat>, fr: nat, g: Goal, arrival: Regs -> bool, jumped: bool)
    requires Acts(c, fs, e, outer, fr, g, arrival, jumped) && GoalOK(g, outer, |fs.code|)
    ensures Outcomes(c, fs, e, outer).Stuck? ==> g.Elsewhere? && g.o.Stuck?
  {}

  lemma GoodActs(c: Ctx, fs: FS, e: Exp, outer: set<nat>, fr: nat, g: Goal)
    requires Good(c, fs, e, outer, fr, -1, g) && e.kind != VJMP
    ensures Acts(c, fs, e, outer, fr, g, r => g.Wanted? && EndVal(c.env, fs, e, r) == g.v, false)
  {
    assert Own(Lists(e.t, e.f)) <= Own(e);
  }

  // ----- the three ways to get the opposite value -----

  // A constant.
  lemma ConstantNot(c: Ctx, fs: FS, e: Exp, outer: set<nat>, base: nat, g: Goal)
    requires Ready(c, fs, e, outer, base, g) && TrueConst(fs, e) && fs.k <= c.env.k
    requires e.kind == VNIL || e.kind == VFALSE || e.kind == VTRUE || e.kind == VK || e.kind == VKNUM
    ensures var e1 := NotValue(fs, e).1;
            Good(c, Unvalued(fs, e1), Exchanged(e1), outer, base, -1, NotGoal(g)) && Leads(fs, Unvalued(fs, e1), outer)
  {
    var e1 := NotValue(fs, e).1;
    var arrival := r => g.Wanted? && EndVal(c.env, fs, e, r) == g.v;
    GoodActs(c, fs, e, outer, base, g);
    assert Own(e1) == Own(e);
    assert Outcomes(c, fs, e1, outer) == Outcomes(c, fs, e, outer);
    ExchangeMeans(c, fs, e1, outer, base, g, arrival, false);
  }

  // A comparison, inverted.
  lemma ComparisonNot(c: Ctx, fs: FS, e: Exp, outer: set<nat>, base: nat, g: Goal)
    requires Ready(c, fs, e, outer, base, g) && e.kind == VJMP
    ensures var fs1 := InvertJump(fs, e);
            Good(c, Unvalued(fs1, e), Exchanged(e), outer, base, -1, NotGoal(g)) && Leads(fs, Unvalued(fs1, e), outer)
  {
    var fs1 := InvertJump(fs, e);
    var arrival := _ => g.Wanted? && g.v == Some(Bool(true));
    var jumped := g.Wanted? && g.v == Some(Bool(false));
    InvertShape(fs, e, c.b, outer);
    FewerOuter(fs.code, fs1.code, outer, Elems(e.t) + Elems(e.f));
    assert outer + (Elems(e.t) + Elems(e.f)) == outer + Elems(e.t) + Elems(e.f);
    if !(g.Elsewhere? && g.o.Stuck?) {
      OutcomeIsSensible(c, fs, e, outer, base, -1, g);
      InvertRuns(c, fs, e, outer);
      InvertedActs(c, fs, e, fs1, outer, base, g, arrival, jumped);
    }
    ExchangeMeans(c, fs1, e, outer, base, g, arrival, jumped);
    assert Leads(fs, fs1, outer);
    LeadsTrans(fs, fs1, Unvalued(fs1, e), outer);
  }

  lemma InvertedActs(c: Ctx, fs: FS, e: Exp, fs1: FS, outer: set<nat>, base: nat, g: Goal, arrival: Regs -> bool,
                     jumped: bool)
    requires Good(c, fs, e, outer, base, -1, g) && e.kind == VJMP && !(g.Elsewhere? && g.o.Stuck?)
    requires |fs1.code| == |fs.code| && fs1.jpc == fs.jpc &&
             KeepsControls(fs.code, fs1.code, outer + Elems(e.t) + Elems(e.f))
    requires (forall r: Regs :: arrival(r) <==> g.Wanted? && g.v == Some(Bool(true))) &&
             (jumped <==> g.Wanted? && g.v == Some(Bool(false)))
    requires var n := |fs.code|; var o := Outcomes(c, fs, e, outer); var o' := Outcomes(c, fs1, e, outer);
             match o
             case At(pc, r) => if pc == n then o' == Taken(n - 1, r) else o' == o
             case Taken(j, r) => if j == n - 1 then o' == At(n, r) else o' == o
             case _ => o' == o
    ensures Acts(c, fs1, e, outer, base, g, arrival, jumped)
  {
    var o := Outcomes(c, fs, e, outer);
    assert e.info !in outer;
    if g.Wanted? {
      match o
      case Taken(j, r) =>
        assert j in e.t ==> j in Elems(e.t);
        assert j in e.f ==> j in Elems(e.f);
      case _ =>
    }
  }

  // A value in a register, or one waiting for a register: NOT.
  lemma ValueNot(c: Ctx, fs: FS, e: Exp, outer: set<nat>, base: nat, g: Goal)
    requires Ready(c, fs, e, outer, base, g) && (e.kind == VRELOCABLE || e.kind == VNONRELOC)
    requires NotValue(fs, e).0.ok && NotValue(fs, e).0.k <= c.env.k
    ensures var (fs1, e1) := NotValue(fs, e);
            Good(c, Unvalued(fs1, e1), Exchanged(e1), outer, base, -1, NotGoal(g)) &&
            Leads(fs, Unvalued(fs1, e1), outer) &&
            fs1.freereg == base && e1.kind == VRELOCABLE
  {
    hide Good, Leads, Discharge2AnyReg, FreeExp, Unvalued, Emit, Acts;
    var (fs1, e1) := Discharge2AnyReg(fs, e);
    AnyRegKeepsLists(c, fs, e, outer, base, g);
    FreeMeans(c, fs1, e1, outer, base, g);
    var fs2 := FreeExp(fs1, e1);
    var (fs3, e3) := NotValue(fs, e);
    var not := NOT(0, e1.info);
    EmitIsCode(fs2, not, not);
    assert fs3 == Emit(fs2, [not]) && e3 == Last(e1, fs2);
    var arrival := r => g.Wanted? && ValueOf(c.env, not, r) == Opposite(g.v);
    EmitValue(c, fs2, e1, not, outer, base, g, r => g.Wanted? && EndVal(c.env, fs2, e1, r) == g.v, arrival);
    forall r | arrival(r) && g.Wanted? ensures EndVal(c.env, fs3, e3, r) == Opposite(g.v) { EndOfLast(c.env, fs2, e1, not, r); }
    ExchangeMeans(c, fs3, e3, outer, base, g, arrival, false);
    LeadsFrom(fs1, fs2, fs3, outer);
    LeadsTrans(fs, fs1, fs3, outer);
    UnvaluedLength(fs3, e3);
    LeadsTrans(fs, fs3, Unvalued(fs3, e3), outer);
  }

  lemma UnvaluedLength(fs: FS, e: Exp)
    ensures |Unvalued(fs, e).code| == |fs.code|
  {}

  // The descriptor of a value computed by the instruction emitted next.
  ghost function Last(e: Exp, fs: FS): Exp { e.(kind := VRELOCABLE, info := |fs.code|) }

  lemma EndOfLast(env: Env, fs: FS, e: Exp, i: Instr, r: Regs)
    ensures EndVal(env, Emit(fs, [i]), Last(e, fs), r) == ValueOf(env, i, r)
  {
    assert Emit(fs, [i]).code[|fs.code|] == i;
  }

  // Emitting a relocatable instruction: runs arrive just before it.
  lemma EmitValue(c: Ctx, fs: FS, e: Exp, i: Instr, outer: set<nat>, fr: nat, g: Goal, start: Regs -> bool,
                  arrival: Regs -> bool)
    requires Good(c, fs, e, outer, fr, -1, g) && Settled(e) && (i.ARITH? || i.UNARY? || i.NOT?)
    requires forall r :: g.Wanted? && EndVal(c.env, fs, e, r) == g.v ==> start(r)
    requires forall r :: start(r) ==> arrival(r)
    ensures Shaped(Emit(fs, [i]), Last(e, fs), c.b, outer) && GoalOK(g, outer, |fs.code| + 1)
    ensures Acts(c, Emit(fs, [i]), Last(e, fs), outer, fr, g, arrival, false)
    ensures Leads(fs, Emit(fs, [i]), outer)
  {
    GoodAsConds(c, fs, e, outer, fr, g, start);
    EmitAfter(c, fs, e, i, outer, fr, g, start, arrival);
  }

  lemma LastShape(fs: FS, e: Exp, i: Instr, b: nat, outer: set<nat>)
    requires Shaped(fs, e, b, outer) && Settled(e) && (i.ARITH? || i.UNARY? || i.NOT?)
    ensures var fs' := Emit(fs, [i]);
            Shaped(fs', Last(e, fs), b, outer) && fs'.jpc == [] && KeepsControls(fs.code, fs'.code, outer + Own(e)) &&
            Own(Last(e, fs)) == Own(e) && Leads(fs, fs', outer)
  {
    hide Shaped, GenOK, ListsApart, Controlled, KeepsControls, Emit;
    var fs', e' := Emit(fs, [i]), Last(e, fs);
    ShapeParts(fs, e, b, outer);
    PlainTail(i, [i], |fs.code|, fs.lasttarget);
    EmitKeepsShape(fs, e, [i], b, outer, {});
    assert fs'.code[|fs.code| + 0] == [i][0];
    assert outer + Own(e) + {} == outer + Elems(fs'.jpc) + Own(e');
    assert outer + Own(e) + {} == outer + Own(e) == outer + Own(e');
    EmitFields(fs, [i]);
    LastApart(fs, e, fs', outer);
    LastKind(fs, e, fs', i, b, outer);
    ShapeFrom(fs', e', b, outer, outer + Own(e));
    FewerOuter(fs.code, fs'.code, outer, Own(e));
    ShapeParts(fs', e', b, outer);
  }

  lemma EmitFields(fs: FS, tail: seq<Instr>)
    ensures var fs' := Emit(fs, tail);
            fs' == fs.(code := fs'.code, jpc := [], ok := fs'.ok) && |fs'.code| == |fs.code| + |tail| &&
            (fs'.ok ==> fs.ok)
  {}

  lemma PlainTail(i: Instr, tail: seq<Instr>, n: nat, last: nat)
    requires (i.ARITH? || i.UNARY? || i.NOT?) && tail == [i]
    ensures forall t :: 0 <= t < |tail| ==> TailAt(tail, n, last, {}, t)
  {}

  lemma LastApart(fs: FS, e: Exp, fs': FS, outer: set<nat>)
    requires ListsApart(fs, e, outer) && Settled(e) && fs'.jpc == []
    ensures ListsApart(fs', Last(e, fs), outer)
  {
    assert Own(Last(e, fs)) == Own(e);
  }

  lemma LastKind(fs: FS, e: Exp, fs': FS, i: Instr, b: nat, outer: set<nat>)
    requires Shaped(fs, e, b, outer) && (i.ARITH? || i.UNARY? || i.NOT?)
    requires fs'.jpc == [] && |fs'.code| == |fs.code| + 1 && fs'.code[|fs.code|] == i && fs'.lasttarget == fs.lasttarget
    ensures KindOK(fs', Last(e, fs), b)
  {}

  // The same with the value on arrival described by a predicate.
  lemma EmitAfter(c: Ctx, fs: FS, e: Exp, i: Instr, outer: set<nat>, fr: nat, g: Goal, start: Regs -> bool,
                  arrival: Regs -> bool)
    requires Conds(c, fs, Lists(e.t, e.f), outer, fr, g, start) && (i.ARITH? || i.UNARY? || i.NOT?)
    requires forall r :: start(r) ==> arrival(r)
    ensures Shaped(Emit(fs, [i]), Last(e, fs), c.b, outer) && GoalOK(g, outer, |fs.code| + 1)
    ensures Acts(c, Emit(fs, [i]), Last(e, fs), outer, fr, g, arrival, false)
    ensures Leads(fs, Emit(fs, [i]), outer)
  {
    var l := Lists(e.t, e.f);
    var fs', e' := Emit(fs, [i]), Last(e, fs);
    LastShape(fs, l, i, c.b, outer);
    assert Last(l, fs).t == e'.t && Last(l, fs).f == e'.f;
    SameShape(fs', Last(l, fs), e', c.b, outer);
    if !(g.Elsewhere? && g.o.Stuck?) {
      hide Shaped, Emit, KeepsControls;
      CondsEmit(c, fs, l, [i], outer, fr, g, start, {}, |fs.code|);
      assert outer + Own(l) + {} == outer + Elems(fs'.jpc) + Own(e');
      var o := Run(c.env, fs.code, outer + Elems(fs.jpc) + Own(l), |fs.code|, c.b, c.s);
      if g.Wanted? && Arrived(o, fs.jpc, |fs.code|) {
        ArrivedNotLeft(fs, l, c.b, outer, g.v, o);
      }
    }
  }

  lemma SameShape(fs: FS, e: Exp, e': Exp, b: nat, outer: set<nat>)
    requires Shaped(fs, e, b, outer) && e' == e.(nval := e'.nval)
    ensures Shaped(fs, e', b, outer) && Own(e') == Own(e)
  {}

  // ----- codenot -----

  lemma NotMeans(c: Ctx, fs: FS, e0: Exp, outer: set<nat>, base: nat, g: Goal)
    requires Ready(c, fs, e0, outer, base, g) && TrueConst(fs, e0)
    requires CodeNot(fs, e0).0.ok && CodeNot(fs, e0).0.k <= c.env.k
    ensures var (fs', e') := CodeNot(fs, e0);
            Ready(c, fs', e', outer, base, NotGoal(g)) && TrueConst(fs', e') && Leads(fs, fs', outer)
  {
    hide Good, Leads, NotValue;
    var e := DischargeVars(e0);
    ReadyVars(c, fs, e0, outer, base, g);
    var (fs1, e1) := NotValue(fs, e);
    assert CodeNot(fs, e0) == (Unvalued(fs1, e1), Exchanged(e1));
    match e.kind
    case VJMP => ComparisonNot(c, fs, e, outer, base, g); NotValueOf(fs, e);
    case VRELOCABLE => ValueNot(c, fs, e, outer, base, g); NotValueOf(fs, e);
    case VNONRELOC => ValueNot(c, fs, e, outer, base, g); NotValueOf(fs, e);
    case VLOCAL =>
    case _ => NotValueOf(fs, e); ConstantNot(c, fs, e, outer, base, g);
  }

  lemma NotValueOf(fs: FS, e: Exp)
    ensures e.kind == VJMP ==> NotValue(fs, e) == (InvertJump(fs, e), e)
    ensures e.kind == VNIL || e.kind == VFALSE ==> NotValue(fs, e) == (fs, e.(kind := VTRUE))
    ensures e.kind == VTRUE || e.kind == VK || e.kind == VKNUM ==> NotValue(fs, e) == (fs, e.(kind := VFALSE))
    ensures NotValue(fs, e).0.nactvar == fs.nactvar
  {}
}
