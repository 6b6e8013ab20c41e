// What an expression descriptor means: every run of the code emitted so far either leaves
// through one of the descriptor's jump lists, or arrives with the expression's value where the
// descriptor says it is.
module LuaCodeMeaning {
  import opened Common
  import opened LuaMachine
  import opened LuaCodegen
  import opened LuaCodeRuns

  // The runs looked at: operations and constants, where they start, and the registers there.
  datatype Ctx = Ctx(env: Env, b: nat, s: Regs)

  // What such a run is bound to do.  Elsewhere: it had left before the expression was reached.
  // Wanted: it reached the expression with registers r, where its value is v (None: an error).
  datatype Goal = Elsewhere(o: Outcome) | Wanted(r: Regs, v: Option<Value>)

  // ----- shape of a descriptor -----

  ghost function InfoSet(e: Exp): set<nat> { if e.kind == VJMP then {e.info} else {} }

  ghost function Own(e: Exp): set<nat> { Elems(e.t) + Elems(e.f) + InfoSet(e) }

  ghost predicate Controlled(code: seq<Instr>, js: set<nat>) {
    forall j :: j in js ==> 0 < j < |code| && TMode(code[j - 1])
  }

  ghost predicate ListsApart(fs: FS, e: Exp, outer: set<nat>) {
    Distinct(e.t) && Distinct(e.f) &&
    outer !! Elems(fs.jpc) && outer !! Own(e) && Elems(fs.jpc) !! Own(e) &&
    Elems(e.t) !! Elems(e.f) && Elems(e.t) !! InfoSet(e) && Elems(e.f) !! InfoSet(e)
  }

  ghost predicate KindOK(fs: FS, e: Exp, b: nat) {
    var n := |fs.code|;
    match e.kind
    case VRELOCABLE =>
      n > 0 && e.info == n - 1 && fs.jpc == [] && fs.lasttarget < n && b < n &&
      (b == n - 1 ==> fs.lasttarget == n - 1) &&
      (fs.code[n - 1].ARITH? || fs.code[n - 1].UNARY? || fs.code[n - 1].NOT?)
    case VJMP =>
      n > 1 && e.info == n - 1 && fs.jpc == [] && fs.lasttarget < n - 1 && b < n - 1 && fs.code[n - 2].CMP?
    case VK => e.info < |fs.k|
    case _ => true
  }

  // outer: jumps of other descriptors, none of this one's business.
  ghost predicate Shaped(fs: FS, e: Exp, b: nat, outer: set<nat>) {
    GenOK(fs, b, outer + Elems(fs.jpc) + Own(e)) && ListsApart(fs, e, outer) && KindOK(fs, e, b) &&
    Controlled(fs.code, outer) && Controlled(fs.code, Own(e))
  }

  // The tests of the outer jumps are left as they are.
  ghost predicate KeepsControls(code: seq<Instr>, code': seq<Instr>, outer: set<nat>) {
    |code| <= |code'| + 1 && forall j :: j in outer && 0 < j <= |code| && j <= |code'| ==> code'[j - 1] == code[j - 1]
  }

  // ----- meaning -----

  ghost function Lim(fs: FS, e: Exp): (n: nat)
    ensures n <= |fs.code|
  {
    if e.kind == VRELOCABLE && |fs.code| > 0 then |fs.code| - 1 else |fs.code|
  }

  // The value a run has when it arrives.  A comparison arrives when it does not jump.
  ghost function EndVal(env: Env, fs: FS, e: Exp, r: Regs): Option<Value> {
    match e.kind
    case VNIL => Some(Nil)
    case VTRUE => Some(Bool(true))
    case VFALSE => Some(Bool(false))
    case VK => Some(KAt(env, e.info))
    case VKNUM => Some(Num(e.nval))
    case VNONRELOC => Some(Get(r, e.info))
    case VLOCAL => Some(Get(r, e.info))
    case VJMP => Some(Bool(false))
    case VRELOCABLE => if e.info < |fs.code| then ValueOf(env, fs.code[e.info], r) else None
  }

  ghost predicate AgreeBut(r: Regs, r': Regs, below: nat, skip: int) {
    forall i: nat :: i < below && i != skip ==> Get(r, i) == Get(r', i)
  }

  // The value of a run that leaves by the jump at j: what a TESTSET has in its register, else
  // the truth value that the list stands for.
  ghost predicate TakenVal(code: seq<Instr>, j: nat, r: Regs, v: Option<Value>, flag: bool) {
    v.Some? && IsFalse(v.value) == !flag && 0 < j <= |code| &&
    if code[j - 1].TESTSET? then Get(r, code[j - 1].b) == v.value else v.value == Bool(flag)
  }

  ghost predicate Leaves(code: seq<Instr>, e: Exp, v: Option<Value>, o: Outcome) {
    (o.Err? && v.None?) ||
    (o.Taken? && o.j in e.t && TakenVal(code, o.j, o.regs, v, true)) ||
    (o.Taken? && o.j in e.f && TakenVal(code, o.j, o.regs, v, false)) ||
    (o.Taken? && e.kind == VJMP && o.j == e.info && v == Some(Bool(true)))
  }

  ghost predicate Ends(env: Env, fs: FS, e: Exp, v: Option<Value>, o: Outcome) {
    Arrived(o, fs.jpc, Lim(fs, e)) && (o.Taken? ==> 0 < o.j) && EndVal(env, fs, e, o.regs) == v
  }

  ghost predicate Fits(env: Env, fs: FS, e: Exp, fr: nat, skip: int, r: Regs, v: Option<Value>, o: Outcome) {
    (Leaves(fs.code, e, v, o) || Ends(env, fs, e, v, o)) &&
    (o.At? || o.Taken? ==> AgreeBut(r, o.regs, fr, skip))
  }

  ghost function Outcomes(c: Ctx, fs: FS, e: Exp, outer: set<nat>): Outcome {
    Run(c.env, fs.code, outer + Elems(fs.jpc) + Own(e), Lim(fs, e), c.b, c.s)
  }

  ghost predicate Sem(c: Ctx, fs: FS, e: Exp, outer: set<nat>, fr: nat, skip: int, g: Goal) {
    var o := Outcomes(c, fs, e, outer);
    match g
    case Elsewhere(o0) => o0.Stuck? || o == o0
    case Wanted(r, v) => Fits(c.env, fs, e, fr, skip, r, v, o)
  }

  // Where a run that never reached the expression can be.
  ghost predicate GoalOK(g: Goal, outer: set<nat>, n: nat) {
    g.Elsewhere? ==>
      match g.o
      case At(pc, _) => pc in outer && pc < n
      case Taken(j, _) => j in outer && 0 < j < n
      case _ => true
  }

  ghost predicate Good(c: Ctx, fs: FS, e: Exp, outer: set<nat>, fr: nat, skip: int, g: Goal) {
    Shaped(fs, e, c.b, outer) && Sem(c, fs, e, outer, fr, skip, g) && GoalOK(g, outer, |fs.code|)
  }

  lemma OutcomeIsSensible(c: Ctx, fs: FS, e: Exp, outer: set<nat>, fr: nat, skip: int, g: Goal)
    requires Good(c, fs, e, outer, fr, skip, g) && !(g.Elsewhere? && g.o.Stuck?)
    ensures Sensible(Outcomes(c, fs, e, outer), outer + Elems(fs.jpc) + Own(e), Lim(fs, e))
  {
    var o := Outcomes(c, fs, e, outer);
    if g.Wanted? {
      assert o.Taken? && o.j in e.t ==> o.j in Elems(e.t);
      assert o.Taken? && o.j in e.f ==> o.j in Elems(e.f);
      assert o.Taken? && o.j in fs.jpc ==> o.j in Elems(fs.jpc);
      assert o.At? && o.pc in fs.jpc ==> o.pc in Elems(fs.jpc);
    }
  }

  // ----- emitting after a descriptor that is not waiting for its own last instruction -----

  ghost predicate Settled(e: Exp) { e.kind != VRELOCABLE && e.kind != VJMP }

  // Emission keeps the shape of the lists and of everything outer.
  lemma EmitKeepsShape(fs: FS, e: Exp, tail: seq<Instr>, b: nat, outer: set<nat>, novel: set<nat>)
    requires Shaped(fs, e, b, outer) && Settled(e) && tail != []
    requires forall j :: j in novel ==> |fs.code| <= j < |fs.code| + |tail|
    requires forall t :: 0 <= t < |tail| ==> TailAt(tail, |fs.code|, fs.lasttarget, novel, t)
    ensures var fs' := Emit(fs, tail);
            GenOK(fs', b, outer + Own(e) + novel) && KeepsControls(fs.code, fs'.code, outer + Own(e)) &&
            Controlled(fs'.code, outer + Own(e)) && fs'.jpc == [] && |fs'.code| == |fs.code| + |tail| &&
            forall t :: 0 <= t < |tail| ==> fs'.code[|fs.code| + t] == tail[t]
  {
    var others := outer + Own(e);
    assert outer + Elems(fs.jpc) + Own(e) == others + Elems(fs.jpc);
    EmitShape(fs, tail, b, others, novel);
    var fs' := Emit(fs, tail);
    forall j | j in others ensures 0 < j < |fs'.code| && fs'.code[j - 1] == fs.code[j - 1] {
      assert j !in fs.jpc by { assert j in fs.jpc ==> j in Elems(fs.jpc); }
      assert j - 1 !in fs.jpc by { assert j - 1 in fs.jpc ==> j - 1 in Elems(fs.jpc); }
    }
  }

  // The runs that do not arrive keep their meaning; those that do go on at the new code.
  lemma EmitKeepsLeaving(c: Ctx, fs: FS, e: Exp, tail: seq<Instr>, outer: set<nat>, fr: nat, g: Goal, lim: nat)
    requires Good(c, fs, e, outer, fr, -1, g) && Settled(e) && !(g.Elsewhere? && g.o.Stuck?)
    requires |fs.code| <= lim <= |fs.code| + |tail|
    requires KeepsControls(fs.code, Emit(fs, tail).code, outer + Own(e))
    ensures var o := Outcomes(c, fs, e, outer);
            var o' := Run(c.env, Emit(fs, tail).code, outer + Own(e), lim, c.b, c.s);
            if Arrived(o, fs.jpc, |fs.code|) then o' == Run(c.env, Emit(fs, tail).code, outer + Own(e), lim, |fs.code|, o.regs)
            else o' == o && (g.Wanted? ==> Leaves(Emit(fs, tail).code, e, g.v, o))
    ensures g.Elsewhere? ==> Run(c.env, Emit(fs, tail).code, outer + Own(e), lim, c.b, c.s) == g.o
  {
    var others := outer + Own(e);
    var o := Outcomes(c, fs, e, outer);
    OutcomeIsSensible(c, fs, e, outer, fr, -1, g);
    assert outer + Elems(fs.jpc) + Own(e) == others + Elems(fs.jpc);
    EmitRuns(c.env, fs, tail, others, c.b, c.s, lim);
    if g.Elsewhere? {
      NotArrived(fs, outer, g);
    } else if !Arrived(o, fs.jpc, |fs.code|) {
      assert Leaves(fs.code, e, g.v, o);
      assert o.Taken? ==> o.j in Own(e);
    }
  }

  lemma NotArrived(fs: FS, outer: set<nat>, g: Goal)
    requires GoalOK(g, outer, |fs.code|) && g.Elsewhere? && outer !! Elems(fs.jpc)
    ensures !Arrived(g.o, fs.jpc, |fs.code|)
  {
    match g.o
    case At(pc, _) => assert pc in fs.jpc ==> pc in Elems(fs.jpc);
    case Taken(j, _) => assert j in fs.jpc ==> j in Elems(fs.jpc);
    case _ =>
  }

  // ----- shapes, taken apart and put together -----

  lemma ShapeParts(fs: FS, e: Exp, b: nat, outer: set<nat>)
    requires Shaped(fs, e, b, outer)
    ensures GenOK(fs, b, outer + Elems(fs.jpc) + Own(e)) && ListsApart(fs, e, outer)
    ensures Controlled(fs.code, outer) && Controlled(fs.code, Own(e))
    ensures forall j :: j in outer || j in fs.jpc || j in Own(e) ==> j < |fs.code|
  {
    assert forall j :: j in fs.jpc ==> j in Elems(fs.jpc);
  }

  lemma ShapeFrom(fs: FS, e: Exp, b: nat, outer: set<nat>, pend: set<nat>)
    requires GenOK(fs, b, pend) && pend == outer + Elems(fs.jpc) + Own(e) && ListsApart(fs, e, outer) &&
             KindOK(fs, e, b)
    requires Controlled(fs.code, outer + Own(e))
    ensures Shaped(fs, e, b, outer)
  {}
}
