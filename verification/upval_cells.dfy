// Upvalues (lfunc.c): what captured variables are to a program, and the lists that stand for them.
module UpvalCells {

  datatype Val = Nil | V(id: int)

  // ----- the program's view: one cell per variable -----

  // How a closure gets an upvalue: from a local variable, or from the enclosing closure.
  datatype Desc = Desc(instack: bool, idx: nat)

  datatype Cmd =
    | Declare(th: nat, v: Val)
    | Leave(th: nat, level: nat)
    | Assign(th: nat, i: nat, v: Val)
    | Fetch(th: nat, i: nat)
    | MakeClosure(th: nat, base: nat, descs: seq<Desc>, encl: nat)
    | SetUpval(c: nat, u: nat, v: Val)
    | GetUpval(c: nat, u: nat)
    | Forget(c: nat)
    | Collect(rs: set<nat>)
    | Sweep(th: nat)
    | Reap(r: nat)

  // vars: the cells of the variables of each thread; closures: the cells each closure has captured.
  datatype Cells = Cells(vars: seq<seq<nat>>, closures: seq<seq<nat>>, store: seq<Val>)

  predicate DescsOK(descs: seq<Desc>, base: nat, size: nat, outer: nat) {
    forall i :: 0 <= i < |descs| ==> if descs[i].instack then base + descs[i].idx < size else descs[i].idx < outer
  }

  function Captured(vars: seq<nat>, outer: seq<nat>, base: nat, descs: seq<Desc>): (r: seq<nat>)
    requires DescsOK(descs, base, |vars|, |outer|)
  {
    seq(|descs|, i requires 0 <= i < |descs| => if descs[i].instack then vars[base + descs[i].idx] else outer[descs[i].idx])
  }

  function Outer<T>(closures: seq<seq<T>>, c: nat): seq<T> { if c < |closures| then closures[c] else [] }

  function After(a: Cells, c: Cmd): Cells {
    match c
    case Declare(th, v) => if th < |a.vars| then Cells(a.vars[th := a.vars[th] + [|a.store|]], a.closures, a.store + [v]) else a
    case Leave(th, level) => if th < |a.vars| && level <= |a.vars[th]| then a.(vars := a.vars[th := a.vars[th][..level]]) else a
    case Assign(th, i, v) =>
      if th < |a.vars| && i < |a.vars[th]| && a.vars[th][i] < |a.store| then a.(store := a.store[a.vars[th][i] := v]) else a
    case MakeClosure(th, base, descs, encl) =>
      if th < |a.vars| && DescsOK(descs, base, |a.vars[th]|, |Outer(a.closures, encl)|)
      then a.(closures := a.closures + [Captured(a.vars[th], Outer(a.closures, encl), base, descs)]) else a
    case SetUpval(k, u, v) =>
      if u < |Outer(a.closures, k)| && a.closures[k][u] < |a.store| then a.(store := a.store[a.closures[k][u] := v]) else a
    case Forget(k) => if k < |a.closures| then a.(closures := a.closures[k := []]) else a
    case _ => a
  }

  function Answer(a: Cells, c: Cmd): seq<Val> {
    match c
    case Fetch(th, i) => if th < |a.vars| && i < |a.vars[th]| && a.vars[th][i] < |a.store| then [a.store[a.vars[th][i]]] else []
    case GetUpval(k, u) => if u < |Outer(a.closures, k)| && a.closures[k][u] < |a.store| then [a.store[a.closures[k][u]]] else []
    case _ => []
  }

  function AfterAll(a: Cells, cmds: seq<Cmd>): Cells {
    if cmds == [] then a else After(AfterAll(a, cmds[..|cmds| - 1]), cmds[|cmds| - 1])
  }

  function Answers(a: Cells, cmds: seq<Cmd>): seq<Val> {
    if cmds == [] then []
    else
      var front := cmds[..|cmds| - 1];
      Answers(a, front) + Answer(AfterAll(a, front), cmds[|cmds| - 1])
  }

  lemma OneMore(a: Cells, cmds: seq<Cmd>, i: nat)
    requires i < |cmds|
    ensures AfterAll(a, cmds[..i + 1]) == After(AfterAll(a, cmds[..i]), cmds[i])
    ensures Answers(a, cmds[..i + 1]) == Answers(a, cmds[..i]) + Answer(AfterAll(a, cmds[..i]), cmds[i])
  {
    assert cmds[..i + 1][..i] == cmds[..i];
  }

  // ----- upvalues in memory -----

  type Ref = nat

  const NULL: Ref := 0
  const UVHEAD: Ref := 1  // g->uvhead

  // v points to a stack slot while the upvalue is open, and to the upvalue's own value when it is closed.
  datatype Place = Slot(th: nat, level: nat) | Own(value: Val)

  datatype UpVal = UpVal(v: Place, next: Ref, uprev: Ref, unext: Ref, dead: bool)

  type Mem = map<Ref, UpVal>

  predicate IsOpen(mem: Mem, r: Ref) { r in mem && r > UVHEAD && mem[r].v.Slot? }

  function First(list: seq<Ref>, j: nat): Ref { if j < |list| then list[j] else NULL }

  // L->openupval of a thread: its open upvalues, strictly descending by level.
  ghost predicate OpenAt(mem: Mem, list: seq<Ref>, th: nat, size: nat, j: nat) {
    j < |list| && IsOpen(mem, list[j]) && mem[list[j]].v.th == th && mem[list[j]].v.level < size &&
    mem[list[j]].next == First(list, j + 1) &&
    (j + 1 < |list| ==> IsOpen(mem, list[j + 1]) && mem[list[j + 1]].v.level < mem[list[j]].v.level)
  }

  ghost predicate ListOK(mem: Mem, list: seq<Ref>, th: nat, size: nat) {
    forall j {:trigger OpenAt(mem, list, th, size, j)} :: 0 <= j < |list| ==> OpenAt(mem, list, th, size, j)
  }

  ghost predicate ListsOK(mem: Mem, heads: seq<Ref>, open: seq<seq<Ref>>, stacks: seq<seq<Val>>) {
    |heads| == |open| == |stacks| &&
    (forall th :: 0 <= th < |open| ==> heads[th] == First(open[th], 0) && ListOK(mem, open[th], th, |stacks[th]|)) &&
    forall r :: IsOpen(mem, r) ==> mem[r].v.th < |open| && r in open[mem[r].v.th]
  }

  function Succ(j: nat, n: nat): nat { if j + 1 == n then 0 else j + 1 }

  function Pred(j: nat, n: nat): nat
    requires j < n
  {
    if j == 0 then n - 1 else j - 1
  }

  // The double list of all open upvalues, behind g->uvhead.
  ghost predicate RingAt(mem: Mem, ring: seq<Ref>, j: nat) {
    j < |ring| && ring[j] in mem && mem[ring[j]].unext == ring[Succ(j, |ring|)] &&
    mem[ring[j]].uprev == ring[Pred(j, |ring|)]
  }

  ghost predicate RingOK(mem: Mem, ring: seq<Ref>) {
    |ring| > 0 && ring[0] == UVHEAD && (forall i, j :: 0 <= i < j < |ring| ==> ring[i] != ring[j]) &&
    (forall j {:trigger RingAt(mem, ring, j)} :: 0 <= j < |ring| ==> RingAt(mem, ring, j)) &&
    forall r :: r in ring <==> r == UVHEAD || IsOpen(mem, r)
  }

  // ----- memory stands for cells -----

  function ValueOf(mem: Mem, stacks: seq<seq<Val>>, r: Ref): Val {
    if r in mem then
      match mem[r].v
      case Own(v) => v
      case Slot(th, level) => if th < |stacks| && level < |stacks[th]| then stacks[th][level] else Nil
    else Nil
  }

  ghost predicate IsVar(vars: seq<seq<nat>>, th: nat, i: nat) { th < |vars| && i < |vars[th]| }

  // A variable is in its slot.
  ghost predicate VarAt(stacks: seq<seq<Val>>, vars: seq<seq<nat>>, store: seq<Val>, th: nat, i: nat) {
    IsVar(vars, th, i) && th < |stacks| && i < |stacks[th]| && vars[th][i] < |store| && stacks[th][i] == store[vars[th][i]]
  }

  // An upvalue holds what its cell holds, and is that variable's own cell exactly while the variable is there.
  ghost predicate UpvalAt(mem: Mem, stacks: seq<seq<Val>>, vars: seq<seq<nat>>, cell: map<Ref, nat>, store: seq<Val>,
                          r: Ref) {
    r in mem && r in cell && cell[r] < |store| && ValueOf(mem, stacks, r) == store[cell[r]] &&
    forall th: nat, i: nat :: IsVar(vars, th, i) ==> (vars[th][i] == cell[r] <==> mem[r].v == Slot(th, i))
  }

  ghost predicate Refines(mem: Mem, stacks: seq<seq<Val>>, vars: seq<seq<nat>>, cell: map<Ref, nat>, store: seq<Val>) {
    |vars| == |stacks| &&
    (forall th: nat, i: nat {:trigger VarAt(stacks, vars, store, th, i)} :: IsVar(vars, th, i) ==> VarAt(stacks, vars, store, th, i)) &&
    (forall th: nat, i: nat, th': nat, i': nat :: IsVar(vars, th, i) && IsVar(vars, th', i') && vars[th][i] == vars[th'][i'] ==> th == th' && i == i') &&
    (forall r {:trigger UpvalAt(mem, stacks, vars, cell, store, r)} :: r in mem && r > UVHEAD ==> UpvalAt(mem, stacks, vars, cell, store, r)) &&
    forall r, q :: r in mem && q in mem && r > UVHEAD && q > UVHEAD && r in cell && q in cell && cell[r] == cell[q] ==> r == q
  }
}
