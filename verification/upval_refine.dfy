// Why every operation on upvalues (lfunc.c) and stacks keeps one cell per captured variable.
module UpvalRefine {
  import opened UpvalCells

  lemma UpvalFacts(mem: Mem, stacks: seq<seq<Val>>, vars: seq<seq<nat>>, cell: map<Ref, nat>, store: seq<Val>, r: Ref)
    requires Refines(mem, stacks, vars, cell, store) && r in mem && r > UVHEAD
    ensures UpvalAt(mem, stacks, vars, cell, store, r)
  {}

  lemma VarFacts(mem: Mem, stacks: seq<seq<Val>>, vars: seq<seq<nat>>, cell: map<Ref, nat>, store: seq<Val>, th: nat,
                 i: nat)
    requires Refines(mem, stacks, vars, cell, store) && IsVar(vars, th, i)
    ensures VarAt(stacks, vars, store, th, i)
  {}

  // Links and colours do not matter.
  lemma SamePlaces(mem: Mem, mem': Mem, stacks: seq<seq<Val>>, vars: seq<seq<nat>>, cell: map<Ref, nat>,
                   store: seq<Val>)
    requires Refines(mem, stacks, vars, cell, store)
    requires forall r :: r in mem' && r > UVHEAD ==> r in mem && mem'[r].v == mem[r].v
    ensures Refines(mem', stacks, vars, cell, store)
  {
    forall r | r in mem' && r > UVHEAD ensures UpvalAt(mem', stacks, vars, cell, store, r) { UpvalFacts(mem, stacks, vars, cell, store, r); }
  }

  lemma NewRefines(mem: Mem, mem': Mem, stacks: seq<seq<Val>>, vars: seq<seq<nat>>, cell: map<Ref, nat>,
                   store: seq<Val>, th: nat, level: nat,
                   uv: Ref)
    requires Refines(mem, stacks, vars, cell, store) && IsVar(vars, th, level) && uv !in mem && uv > UVHEAD
    requires forall r :: r in mem && r > UVHEAD ==> mem[r].v != Slot(th, level)
    requires mem'.Keys == mem.Keys + {uv} && mem'[uv].v == Slot(th, level) &&
             forall r :: r in mem ==> mem'[r].v == mem[r].v
    ensures Refines(mem', stacks, vars, cell[uv := vars[th][level]], store)
  {
    var cell' := cell[uv := vars[th][level]];
    VarFacts(mem, stacks, vars, cell, store, th, level);
    forall r | r in mem' && r > UVHEAD ensures UpvalAt(mem', stacks, vars, cell', store, r) && (r != uv ==> cell'[r] != cell'[uv]) {
      if r != uv { UpvalFacts(mem, stacks, vars, cell, store, r); }
    }
  }

  // An upvalue whose variable is going out of scope takes its value along.
  lemma ClosedRefines(mem: Mem, mem': Mem, stacks: seq<seq<Val>>, vars: seq<seq<nat>>, cell: map<Ref, nat>,
                      store: seq<Val>, uv: Ref)
    requires Refines(mem, stacks, vars, cell, store) && IsOpen(mem, uv) && !IsVar(vars, mem[uv].v.th, mem[uv].v.level)
    requires mem'.Keys == mem.Keys && mem'[uv].v == Own(ValueOf(mem, stacks, uv)) && forall r :: r in mem && r != uv ==> mem'[r].v == mem[r].v
    ensures Refines(mem', stacks, vars, cell, store)
  {
    forall r | r in mem' && r > UVHEAD ensures UpvalAt(mem', stacks, vars, cell, store, r) { UpvalFacts(mem, stacks, vars, cell, store, r); }
  }

  // Fewer variables: what was captured stays as it is.
  lemma FewerVars(mem: Mem, stacks: seq<seq<Val>>, vars: seq<seq<nat>>, cell: map<Ref, nat>, store: seq<Val>, th: nat,
                  level: nat)
    requires Refines(mem, stacks, vars, cell, store) && th < |vars| && level <= |vars[th]|
    ensures Refines(mem, stacks, vars[th := vars[th][..level]], cell, store)
  {
    var vars' := vars[th := vars[th][..level]];
    assert forall t: nat, i: nat :: IsVar(vars', t, i) ==> IsVar(vars, t, i) && vars'[t][i] == vars[t][i];
    forall t: nat, i: nat | IsVar(vars', t, i) ensures VarAt(stacks, vars', store, t, i) { VarFacts(mem, stacks, vars, cell, store, t, i); }
    forall r | r in mem && r > UVHEAD ensures UpvalAt(mem, stacks, vars', cell, store, r) { UpvalFacts(mem, stacks, vars, cell, store, r); }
  }

  // The slots above can go when no upvalue is open there.
  lemma FewerSlots(mem: Mem, stacks: seq<seq<Val>>, vars: seq<seq<nat>>, cell: map<Ref, nat>, store: seq<Val>, th: nat,
                   level: nat)
    requires Refines(mem, stacks, vars, cell, store) && th < |stacks| && |vars[th]| <= level <= |stacks[th]|
    requires forall r :: IsOpen(mem, r) && mem[r].v.th == th ==> mem[r].v.level < level
    ensures Refines(mem, stacks[th := stacks[th][..level]], vars, cell, store)
  {
    var stacks' := stacks[th := stacks[th][..level]];
    forall t: nat, i: nat | IsVar(vars, t, i) ensures VarAt(stacks', vars, store, t, i) { VarFacts(mem, stacks, vars, cell, store, t, i); }
    forall r | r in mem && r > UVHEAD ensures UpvalAt(mem, stacks', vars, cell, store, r) {
      UpvalFacts(mem, stacks, vars, cell, store, r);
      if mem[r].v.Slot? { assert IsOpen(mem, r); }
    }
  }

  // A new variable gets a cell of its own.
  lemma NewVar(mem: Mem, stacks: seq<seq<Val>>, vars: seq<seq<nat>>, cell: map<Ref, nat>, store: seq<Val>, th: nat,
               v: Val)
    requires Refines(mem, stacks, vars, cell, store) && th < |stacks| && |vars[th]| == |stacks[th]|
    requires forall r :: IsOpen(mem, r) && mem[r].v.th == th ==> mem[r].v.level < |stacks[th]|
    ensures Refines(mem, stacks[th := stacks[th] + [v]], vars[th := vars[th] + [|store|]], cell, store + [v])
  {
    var stacks', vars', store' := stacks[th := stacks[th] + [v]], vars[th := vars[th] + [|store|]], store + [v];
    var n := |vars[th]|;
    assert forall t: nat, i: nat :: IsVar(vars', t, i) && !(t == th && i == n) ==> IsVar(vars, t, i) && vars'[t][i] == vars[t][i];
    forall t: nat, i: nat | IsVar(vars', t, i)
      ensures VarAt(stacks', vars', store', t, i) && (!(t == th && i == n) ==> vars'[t][i] < |store|)
    {
      if !(t == th && i == n) { VarFacts(mem, stacks, vars, cell, store, t, i); }
    }
    forall r | r in mem && r > UVHEAD ensures UpvalAt(mem, stacks', vars', cell, store', r) {
      UpvalFacts(mem, stacks, vars, cell, store, r);
      if mem[r].v.Slot? { assert IsOpen(mem, r); }
    }
  }

  // A variable and its upvalue are one place.
  lemma SetVar(mem: Mem, stacks: seq<seq<Val>>, vars: seq<seq<nat>>, cell: map<Ref, nat>, store: seq<Val>, th: nat,
               i: nat, v: Val)
    requires Refines(mem, stacks, vars, cell, store) && IsVar(vars, th, i)
    ensures th < |stacks| && i < |stacks[th]| && vars[th][i] < |store|
    ensures Refines(mem, stacks[th := stacks[th][i := v]], vars, cell, store[vars[th][i] := v])
  {
    VarFacts(mem, stacks, vars, cell, store, th, i);
    var stacks', store' := stacks[th := stacks[th][i := v]], store[vars[th][i] := v];
    forall t: nat, q: nat | IsVar(vars, t, q) ensures VarAt(stacks', vars, store', t, q) { VarFacts(mem, stacks, vars, cell, store, t, q); }
    forall r | r in mem && r > UVHEAD ensures UpvalAt(mem, stacks', vars, cell, store', r) { UpvalFacts(mem, stacks, vars, cell, store, r); }
  }

  lemma SetClosed(mem: Mem, stacks: seq<seq<Val>>, vars: seq<seq<nat>>, cell: map<Ref, nat>, store: seq<Val>, r: Ref,
                  v: Val)
    requires Refines(mem, stacks, vars, cell, store) && r in mem && r > UVHEAD && mem[r].v.Own?
    ensures r in cell && cell[r] < |store| &&
            Refines(mem[r := mem[r].(v := Own(v))], stacks, vars, cell, store[cell[r] := v])
  {
    UpvalFacts(mem, stacks, vars, cell, store, r);
    var mem', store' := mem[r := mem[r].(v := Own(v))], store[cell[r] := v];
    forall t: nat, q: nat | IsVar(vars, t, q) ensures VarAt(stacks, vars, store', t, q) { VarFacts(mem, stacks, vars, cell, store, t, q); }
    forall q | q in mem' && q > UVHEAD ensures UpvalAt(mem', stacks, vars, cell, store', q) { UpvalFacts(mem, stacks, vars, cell, store, q); }
  }
}
