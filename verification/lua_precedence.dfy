// The manual's list of precedences (Lua 5.2 Reference Manual, section 3.4.7) as a grammar of levels,
// and that precedence climbing with its table of priorities reads exactly that grammar.
module LuaPrecedence {
  import opened Common
  import opened LuaMachine
  import opened LuaParse

  // From lower to higher: or; and; comparisons; concatenation (4); + and -; *, / and %; the unary
  // operators; ^.
  function Level(op: BinOp): nat {
    match op
    case OprOr => 1
    case OprAnd => 2
    case OprCmp(_) => 3
    case OprNe => 3
    case OprGt => 3
    case OprGe => 3
    case OprArith(Add) => 5
    case OprArith(Sub) => 5
    case OprArith(Mul) => 6
    case OprArith(Div) => 6
    case OprArith(Mod) => 6
    case OprArith(Pow) => 8
  }

  const UNARY: nat := 7
  const PRIMARY: nat := 9

  // The tree needs no parentheses where operators of this level and above may stand.  Binary operators
  // associate to the left; ^ to the right, and its right operand may begin with a unary operator.
  predicate Stands(x: Expr, level: nat) {
    match x
    case Const(_) => true
    case Local(_) => true
    case Paren(y) => Stands(y, 1)
    case Not(y) => level <= UNARY && Stands(y, UNARY)
    case Un(_, y) => level <= UNARY && Stands(y, UNARY)
    case Bin(op, a, b) =>
      level <= Level(op) &&
      if op == OprArith(Pow) then Stands(a, PRIMARY) && Stands(b, UNARY)
      else Stands(a, Level(op)) && Stands(b, Level(op) + 1)
  }

  // The level that the parser's limit stands for.
  function LevelOf(limit: nat): nat {
    if limit < 3 then limit + 1 else if limit < 6 then 4 else if limit == 6 then 6 else UNARY
  }

  lemma {:induction false} StandsLower(x: Expr, level: nat, lower: nat)
    requires Stands(x, level) && lower <= level
    ensures Stands(x, lower)
  {}

  // The limits with which operands are read.
  predicate IsLimit(limit: nat) { limit in {0, 1, 2, 3, 6, 7, 8, 9} }

  lemma {:induction false} GroupedStands(x: Expr, limit: nat)
    requires IsLimit(limit)
    ensures Grouped(x, limit) <==> Stands(x, LevelOf(limit))
    decreases x
  {
    match x
    case Const(_) =>
    case Local(_) =>
    case Paren(y) => GroupedStands(y, 0);
    case Not(y) => GroupedStands(y, UNARY_PRIORITY);
    case Un(_, y) => GroupedStands(y, UNARY_PRIORITY);
    case Bin(op, a, b) =>
      GroupedStands(a, limit);
      GroupedStands(b, RightPriority(op));
      if LeftPriority(op) > limit { LeftStands(a, limit, op); }
  }

  // The left operand: what stands at its right edge must not bind the operator.
  lemma {:induction false} LeftStands(a: Expr, limit: nat, op: BinOp)
    requires IsLimit(limit) && LeftPriority(op) > limit && (Grouped(a, limit) <==> Stands(a, LevelOf(limit)))
    ensures Grouped(a, limit) && LeftPriority(op) <= RightEdge(a) <==>
            Stands(a, if op == OprArith(Pow) then PRIMARY else Level(op))
  {
    var level := if op == OprArith(Pow) then PRIMARY else Level(op);
    if Stands(a, level) {
      StandsLower(a, level, LevelOf(limit));
      StandsEdge(a, level);
    }
  }

  lemma {:induction false} StandsEdge(x: Expr, level: nat)
    requires Stands(x, level)
    ensures RightEdge(x) >= if level <= 3 then level else if level <= 5 then 6 else if level <= 6 then 7
                            else if level <= 8 then 8 else 100
    decreases x
  {
    match x
    case Not(y) => StandsEdge(y, UNARY);
    case Un(_, y) => StandsEdge(y, UNARY);
    case Bin(op, _, b) => StandsEdge(b, if op == OprArith(Pow) then UNARY else Level(op) + 1);
    case _ =>
  }

  // A whole expression: the tree that the parser finds is the one that the manual's levels give.
  lemma ManualDecides(toks: seq<Token>, room: nat, x: Expr)
    ensures Subexpr(toks, 0, 0, room) == Some((x, |toks|)) <==> toks == Tokens(x) && Stands(x, 1) && Depth(x) <= room
  {
    SubexprDecides(toks, 0, 0, room, x, |toks|);
    GroupedStands(x, 0);
    assert |Tokens(x)| == |toks| ==> toks[0..|toks|] == toks;
  }

  predicate Primary(x: Expr) { Stands(x, PRIMARY) }

  // An operator between two operands that may stand there.
  lemma Binary(op: BinOp, a: Expr, b: Expr, level: nat, room: nat)
    requires level <= Level(op) && Depth(a) <= room && Depth(b) + 1 <= room
    requires if op == OprArith(Pow) then Stands(a, PRIMARY) && Stands(b, UNARY)
             else Stands(a, Level(op)) && Stands(b, Level(op) + 1)
    ensures Stands(Bin(op, a, b), level) && Depth(Bin(op, a, b)) <= room &&
            Tokens(Bin(op, a, b)) == Tokens(a) + [TOp(op)] + Tokens(b)
  {}

  // not, # and - before their operand
  function Sign(u: UnaryOp): Token {
    match u
    case OpNot => TNot
    case OpUn(Len) => TLen
    case OpUn(Minus) => TOp(OprArith(Sub))
  }

  lemma Prefixed(u: UnaryOp, x: Expr, room: nat)
    requires Stands(x, UNARY) && Depth(x) + 1 <= room
    ensures Stands(Apply(u, x), UNARY) && Depth(Apply(u, x)) <= room
    ensures Tokens(Apply(u, x)) == [Sign(u)] + Tokens(x)
  {}

  // 'x o1 y o2 z': the second operator takes y exactly if it is on a higher level, or both are '^'.
  lemma TwoOperators(o1: BinOp, o2: BinOp, x: Expr, y: Expr, z: Expr, room: nat)
    requires Primary(x) && Primary(y) && Primary(z)
    requires Depth(x) <= room && Depth(y) + 1 <= room && Depth(z) + 2 <= room
    ensures var toks := Tokens(x) + [TOp(o1)] + Tokens(y) + [TOp(o2)] + Tokens(z);
            Subexpr(toks, 0, 0, room) ==
            Some((if Level(o2) > Level(o1) || (o1 == OprArith(Pow) && o2 == OprArith(Pow))
                  then Bin(o1, x, Bin(o2, y, z)) else Bin(o2, Bin(o1, x, y), z), |toks|))
  {
    hide Stands, Tokens, Depth, Subexpr;
    var toks := Tokens(x) + [TOp(o1)] + Tokens(y) + [TOp(o2)] + Tokens(z);
    AllLower(x);
    AllLower(y);
    AllLower(z);
    if Level(o2) > Level(o1) || (o1 == OprArith(Pow) && o2 == OprArith(Pow)) {
      Binary(o2, y, z, if o1 == OprArith(Pow) then UNARY else Level(o1) + 1, room - 1);
      Binary(o1, x, Bin(o2, y, z), 1, room);
      assert toks == Tokens(x) + [TOp(o1)] + (Tokens(y) + [TOp(o2)] + Tokens(z));
      ManualDecides(toks, room, Bin(o1, x, Bin(o2, y, z)));
    } else {
      Binary(o1, x, y, Level(o2), room);
      Binary(o2, Bin(o1, x, y), z, 1, room);
      ManualDecides(toks, room, Bin(o2, Bin(o1, x, y), z));
    }
  }

  lemma AllLower(x: Expr)
    requires Primary(x)
    ensures forall level: nat :: level <= PRIMARY ==> Stands(x, level)
  {
    forall level: nat | level <= PRIMARY ensures Stands(x, level) { StandsLower(x, PRIMARY, level); }
  }

  // 'u x o y': a unary operator takes all of it exactly if the operator is '^'.
  lemma UnaryFirst(u: UnaryOp, o: BinOp, x: Expr, y: Expr, room: nat)
    requires Primary(x) && Primary(y) && Depth(x) + 1 <= room && Depth(y) + 2 <= room
    ensures var toks := [Sign(u)] + Tokens(x) + [TOp(o)] + Tokens(y);
            Subexpr(toks, 0, 0, room) ==
            Some((if o == OprArith(Pow) then Apply(u, Bin(o, x, y)) else Bin(o, Apply(u, x), y), |toks|))
  {
    hide Stands, Tokens, Depth, Subexpr;
    var toks := [Sign(u)] + Tokens(x) + [TOp(o)] + Tokens(y);
    AllLower(x);
    AllLower(y);
    Prefixed(u, x, room);
    if o == OprArith(Pow) {
      Binary(o, x, y, UNARY, room - 1);
      Prefixed(u, Bin(o, x, y), room);
      StandsLower(Apply(u, Bin(o, x, y)), UNARY, 1);
      assert toks == [Sign(u)] + (Tokens(x) + [TOp(o)] + Tokens(y));
      ManualDecides(toks, room, Apply(u, Bin(o, x, y)));
    } else {
      StandsLower(Apply(u, x), UNARY, Level(o));
      Binary(o, Apply(u, x), y, 1, room);
      ManualDecides(toks, room, Bin(o, Apply(u, x), y));
    }
  }
}
