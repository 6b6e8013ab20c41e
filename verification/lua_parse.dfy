// Precedence climbing (subexpr in lparser.c): which trees the token sequences stand for.
module LuaParse {
  import opened Common
  import opened LuaMachine

  // '-' is one token for the binary and the unary operator.
  datatype Token = TValue(v: Value) | TLocal(i: nat) | TLeft | TRight | TNot | TLen | TOp(op: BinOp)

  // ----- the priority table -----

  function LeftPriority(op: BinOp): nat {
    match op
    case OprArith(Add) => 6
    case OprArith(Sub) => 6
    case OprArith(Pow) => 10
    case OprArith(_) => 7
    case OprAnd => 2
    case OprOr => 1
    case _ => 3
  }

  function RightPriority(op: BinOp): nat {
    if op == OprArith(Pow) then 9 else LeftPriority(op)
  }

  const UNARY_PRIORITY: nat := 8

  datatype UnaryOp = OpNot | OpUn(op: UnOp)

  // getunopr
  function UnaryOf(t: Token): Option<UnaryOp> {
    match t
    case TNot => Some(OpNot)
    case TLen => Some(OpUn(Len))
    case TOp(op) => if op == OprArith(Sub) then Some(OpUn(Minus)) else None
    case _ => None
  }

  function Apply(u: UnaryOp, x: Expr): Expr {
    match u
    case OpNot => Not(x)
    case OpUn(op) => Un(op, x)
  }

  // ----- what subexpr does -----

  function Expands(toks: seq<Token>, pos: nat, limit: nat): bool {
    pos < |toks| && toks[pos].TOp? && LeftPriority(toks[pos].op) > limit
  }

  // room: how many more times the parser may be entered before "C levels" overflow.
  function Subexpr(toks: seq<Token>, pos: nat, limit: nat, room: nat): (res: Option<(Expr, nat)>)
    ensures res.Some? ==> pos < res.value.1 <= |toks|
    decreases room, 3, 0
  {
    if room == 0 || pos >= |toks| then None
    else
      var head := Head(toks, pos, room);
      if head.None? then None else Loop(toks, head.value.0, head.value.1, limit, room)
  }

  function Head(toks: seq<Token>, pos: nat, room: nat): (res: Option<(Expr, nat)>)
    requires room > 0 && pos < |toks|
    ensures res.Some? ==> pos < res.value.1 <= |toks|
    decreases room, 2, 0
  {
    var u := UnaryOf(toks[pos]);
    if u.None? then Simple(toks, pos, room)
    else
      var y := Subexpr(toks, pos + 1, UNARY_PRIORITY, room - 1);
      if y.None? then None else Some((Apply(u.value, y.value.0), y.value.1))
  }

  function Simple(toks: seq<Token>, pos: nat, room: nat): (res: Option<(Expr, nat)>)
    requires room > 0 && pos < |toks|
    ensures res.Some? ==> pos < res.value.1 <= |toks|
    decreases room, 0, 0
  {
    match toks[pos]
    case TValue(v) => Some((Const(v), pos + 1))
    case TLocal(i) => Some((Local(i), pos + 1))
    case TLeft =>
      var y := Subexpr(toks, pos + 1, 0, room - 1);
      if y.None? || y.value.1 >= |toks| || toks[y.value.1] != TRight then None else Some((Paren(y.value.0), y.value.1 + 1))
    case _ => None
  }

  function Loop(toks: seq<Token>, x: Expr, pos: nat, limit: nat, room: nat): (res: Option<(Expr, nat)>)
    requires room > 0 && pos <= |toks|
    ensures res.Some? ==> pos <= res.value.1 <= |toks|
    decreases room, 1, |toks| - pos
  {
    if !Expands(toks, pos, limit) then Some((x, pos))
    else
      var op := toks[pos].op;
      var y := Subexpr(toks, pos + 1, RightPriority(op), room - 1);
      if y.None? then None else Loop(toks, Bin(op, x, y.value.0), y.value.1, limit, room)
  }

  // ----- what it should do -----

  // The tokens of a tree.
  function Tokens(x: Expr): (toks: seq<Token>)
    ensures |toks| > 0
  {
    match x
    case Const(v) => [TValue(v)]
    case Local(i) => [TLocal(i)]
    case Paren(y) => [TLeft] + Tokens(y) + [TRight]
    case Not(y) => [TNot] + Tokens(y)
    case Un(Minus, y) => [TOp(OprArith(Sub))] + Tokens(y)
    case Un(Len, y) => [TLen] + Tokens(y)
    case Bin(op, a, b) => Tokens(a) + [TOp(op)] + Tokens(b)
  }

  // The lowest priority with which an operator at the right edge of the tree binds what follows.
  function RightEdge(x: Expr): nat {
    match x
    case Not(y) => Min(UNARY_PRIORITY, RightEdge(y))
    case Un(_, y) => Min(UNARY_PRIORITY, RightEdge(y))
    case Bin(op, _, b) => Min(RightPriority(op), RightEdge(b))
    case _ => 100
  }

  function Min(a: nat, b: nat): nat { if a < b then a else b }

  // The tree groups its operators by the priority table, all of them stronger than the limit.
  predicate Grouped(x: Expr, limit: nat) {
    match x
    case Const(_) => true
    case Local(_) => true
    case Paren(y) => Grouped(y, 0)
    case Not(y) => Grouped(y, UNARY_PRIORITY)
    case Un(_, y) => Grouped(y, UNARY_PRIORITY)
    case Bin(op, a, b) =>
      LeftPriority(op) > limit && Grouped(a, limit) && LeftPriority(op) <= RightEdge(a) && Grouped(b, RightPriority(op))
  }

  // How deeply the parser nests.
  function Depth(x: Expr): nat {
    match x
    case Const(_) => 1
    case Local(_) => 1
    case Paren(y) => 1 + Depth(y)
    case Not(y) => 1 + Depth(y)
    case Un(_, y) => 1 + Depth(y)
    case Bin(_, a, b) => if Depth(a) > 1 + Depth(b) then Depth(a) else 1 + Depth(b)
  }

  predicate At(toks: seq<Token>, pos: nat, part: seq<Token>) {
    pos + |part| <= |toks| && toks[pos..pos + |part|] == part
  }

  // What follows does not belong to the expression.
  predicate Ends(toks: seq<Token>, pos: nat, limit: nat, x: Expr) {
    pos < |toks| && toks[pos].TOp? ==> LeftPriority(toks[pos].op) <= limit && LeftPriority(toks[pos].op) <= RightEdge(x)
  }

  ghost predicate Reads(toks: seq<Token>, pos: nat, limit: nat, room: nat, x: Expr, end: nat) {
    At(toks, pos, Tokens(x)) && end == pos + |Tokens(x)| && Grouped(x, limit) && Depth(x) <= room && Ends(toks, end, limit, x)
  }

  // ----- pieces of token sequences -----

  lemma AtJoin(toks: seq<Token>, pos: nat, a: seq<Token>, b: seq<Token>)
    ensures At(toks, pos, a + b) <==> At(toks, pos, a) && At(toks, pos + |a|, b)
  {
    if pos + |a| + |b| <= |toks| {
      assert toks[pos..pos + |a + b|] == toks[pos..pos + |a|] + toks[pos + |a|..pos + |a| + |b|];
      if At(toks, pos, a + b) {
        assert toks[pos..pos + |a|] == (a + b)[..|a|] == a;
        assert toks[pos + |a|..pos + |a| + |b|] == (a + b)[|a|..] == b;
      }
    }
  }

  lemma AtOne(toks: seq<Token>, pos: nat, t: Token)
    ensures At(toks, pos, [t]) <==> pos < |toks| && toks[pos] == t
  {
    if pos < |toks| { assert toks[pos..pos + 1] == [toks[pos]]; }
  }

  lemma AtBinary(toks: seq<Token>, pos: nat, op: BinOp, a: Expr, b: Expr)
    ensures var mid := pos + |Tokens(a)|;
            At(toks, pos, Tokens(Bin(op, a, b))) <==>
            At(toks, pos, Tokens(a)) && mid < |toks| && toks[mid] == TOp(op) && At(toks, mid + 1, Tokens(b))
    ensures |Tokens(Bin(op, a, b))| == |Tokens(a)| + 1 + |Tokens(b)|
  {
    AtJoin(toks, pos, Tokens(a) + [TOp(op)], Tokens(b));
    AtJoin(toks, pos, Tokens(a), [TOp(op)]);
    AtOne(toks, pos + |Tokens(a)|, TOp(op));
  }

  lemma AtUnary(toks: seq<Token>, pos: nat, u: UnaryOp, y: Expr)
    ensures At(toks, pos, Tokens(Apply(u, y))) <==> pos < |toks| && UnaryOf(toks[pos]) == Some(u) && At(toks, pos + 1, Tokens(y))
    ensures |Tokens(Apply(u, y))| == 1 + |Tokens(y)|
  {
    var t := match u case OpNot => TNot case OpUn(Minus) => TOp(OprArith(Sub)) case OpUn(Len) => TLen;
    assert Tokens(Apply(u, y)) == [t] + Tokens(y);
    AtJoin(toks, pos, [t], Tokens(y));
    AtOne(toks, pos, t);
  }

  lemma AtParen(toks: seq<Token>, pos: nat, y: Expr)
    ensures var end := pos + 1 + |Tokens(y)|;
            At(toks, pos, Tokens(Paren(y))) <==>
            pos < |toks| && toks[pos] == TLeft && At(toks, pos + 1, Tokens(y)) && end < |toks| && toks[end] == TRight
  {
    AtJoin(toks, pos, [TLeft] + Tokens(y), [TRight]);
    AtJoin(toks, pos, [TLeft], Tokens(y));
    AtOne(toks, pos, TLeft);
    AtOne(toks, pos + 1 + |Tokens(y)|, TRight);
  }

  // ----- soundness: what is read is a grouped tree, and all of its tokens -----

  lemma {:induction false} SubexprSound(toks: seq<Token>, pos: nat, limit: nat, room: nat)
    requires Subexpr(toks, pos, limit, room).Some?
    ensures var (x, end) := Subexpr(toks, pos, limit, room).value; Reads(toks, pos, limit, room, x, end)
    decreases room, 2, 0
  {
    var u := UnaryOf(toks[pos]);
    if u.Some? {
      SubexprSound(toks, pos + 1, UNARY_PRIORITY, room - 1);
      var (y, end) := Subexpr(toks, pos + 1, UNARY_PRIORITY, room - 1).value;
      AtUnary(toks, pos, u.value, y);
      LoopSound(toks, pos, Apply(u.value, y), end, limit, room);
    } else {
      SimpleSound(toks, pos, limit, room);
      var (x, end) := Simple(toks, pos, room).value;
      LoopSound(toks, pos, x, end, limit, room);
    }
  }

  lemma {:induction false} SimpleSound(toks: seq<Token>, pos: nat, limit: nat, room: nat)
    requires room > 0 && pos < |toks| && Simple(toks, pos, room).Some?
    ensures var (x, end) := Simple(toks, pos, room).value;
            At(toks, pos, Tokens(x)) && end == pos + |Tokens(x)| && Grouped(x, limit) && Depth(x) <= room && RightEdge(x) == 100
    decreases room, 0, 0
  {
    match toks[pos]
    case TValue(v) => AtOne(toks, pos, TValue(v));
    case TLocal(i) => AtOne(toks, pos, TLocal(i));
    case TLeft =>
      SubexprSound(toks, pos + 1, 0, room - 1);
      AtParen(toks, pos, Subexpr(toks, pos + 1, 0, room - 1).value.0);
    case _ =>
  }

  lemma {:induction false} LoopSound(toks: seq<Token>, start: nat, x: Expr, pos: nat, limit: nat, room: nat)
    requires room > 0 && pos <= |toks| && Loop(toks, x, pos, limit, room).Some?
    requires At(toks, start, Tokens(x)) && pos == start + |Tokens(x)| && Grouped(x, limit) && Depth(x) <= room
    requires pos < |toks| && toks[pos].TOp? ==> LeftPriority(toks[pos].op) <= RightEdge(x)
    ensures var (z, end) := Loop(toks, x, pos, limit, room).value; Reads(toks, start, limit, room, z, end)
    decreases room, 1, |toks| - pos
  {
    hide At, Tokens, Subexpr;
    if Expands(toks, pos, limit) {
      var op := toks[pos].op;
      SubexprSound(toks, pos + 1, RightPriority(op), room - 1);
      var (y, end) := Subexpr(toks, pos + 1, RightPriority(op), room - 1).value;
      AtBinary(toks, start, op, x, y);
      LoopSound(toks, start, Bin(op, x, y), end, limit, room);
    }
  }

  // ----- completeness: every grouped tree is read back from its tokens -----

  lemma {:induction false} SubexprComplete(toks: seq<Token>, pos: nat, limit: nat, room: nat, x: Expr, end: nat)
    requires Reads(toks, pos, limit, room, x, end)
    ensures Subexpr(toks, pos, limit, room) == Some((x, end))
    decreases x, 2
  {
    DepthPositive(x);
    HeadThenLoop(toks, pos, limit, room, x, end);
    assert Loop(toks, x, end, limit, room) == Some((x, end));
  }

  lemma {:induction false} DepthPositive(x: Expr)
    ensures Depth(x) > 0
  {}

  // Parsing comes to the end of any tree at the left of what the loop reads.
  lemma {:induction false} HeadThenLoop(toks: seq<Token>, pos: nat, limit: nat, room: nat, x: Expr, end: nat)
    requires At(toks, pos, Tokens(x)) && end == pos + |Tokens(x)| && Grouped(x, limit) && Depth(x) <= room && room > 0
    requires end < |toks| && toks[end].TOp? ==> LeftPriority(toks[end].op) <= RightEdge(x)
    ensures Subexpr(toks, pos, limit, room) == Loop(toks, x, end, limit, room)
    decreases x, 1
  {
    match x
    case Const(v) =>
      AtOne(toks, pos, TValue(v));
      assert Head(toks, pos, room) == Some((x, end));
    case Local(i) =>
      AtOne(toks, pos, TLocal(i));
      assert Head(toks, pos, room) == Some((x, end));
    case Paren(y) => ParenHead(toks, pos, limit, room, y, end);
    case Not(y) => UnaryHead(toks, pos, limit, room, OpNot, y, end);
    case Un(op, y) => UnaryHead(toks, pos, limit, room, OpUn(op), y, end);
    case Bin(op, a, b) =>
      AtBinary(toks, pos, op, a, b);
      BinaryHead(toks, pos, limit, room, op, a, b, pos + |Tokens(a)|, end);
  }

  lemma {:induction false} BinaryHead(toks: seq<Token>, pos: nat, limit: nat, room: nat, op: BinOp, a: Expr, b: Expr,
                                      mid: nat, end: nat)
    requires At(toks, pos, Tokens(a)) && mid == pos + |Tokens(a)| && mid < |toks| && toks[mid] == TOp(op)
    requires At(toks, mid + 1, Tokens(b)) && end == mid + 1 + |Tokens(b)|
    requires Grouped(Bin(op, a, b), limit) && Depth(a) <= room && 1 + Depth(b) <= room && room > 0
    requires end < |toks| && toks[end].TOp? ==> LeftPriority(toks[end].op) <= Min(RightPriority(op), RightEdge(b))
    ensures Subexpr(toks, pos, limit, room) == Loop(toks, Bin(op, a, b), end, limit, room)
    decreases Bin(op, a, b), 0
  {
    hide Tokens;
    HeadThenLoop(toks, pos, limit, room, a, mid);
    SubexprComplete(toks, mid + 1, RightPriority(op), room - 1, b, end);
  }

  lemma {:induction false} ParenHead(toks: seq<Token>, pos: nat, limit: nat, room: nat, y: Expr, end: nat)
    requires At(toks, pos, Tokens(Paren(y))) && end == pos + |Tokens(Paren(y))| && Grouped(y, 0) && 1 + Depth(y) <= room
    ensures Subexpr(toks, pos, limit, room) == Loop(toks, Paren(y), end, limit, room)
    decreases y, 3
  {
    AtParen(toks, pos, y);
    SubexprComplete(toks, pos + 1, 0, room - 1, y, pos + 1 + |Tokens(y)|);
    assert Head(toks, pos, room) == Some((Paren(y), end));
  }

  lemma {:induction false} UnaryHead(toks: seq<Token>, pos: nat, limit: nat, room: nat, u: UnaryOp, y: Expr, end: nat)
    requires At(toks, pos, Tokens(Apply(u, y))) && end == pos + |Tokens(Apply(u, y))| && Grouped(y, UNARY_PRIORITY) &&
             1 + Depth(y) <= room
    requires end < |toks| && toks[end].TOp? ==> LeftPriority(toks[end].op) <= Min(UNARY_PRIORITY, RightEdge(y))
    ensures Subexpr(toks, pos, limit, room) == Loop(toks, Apply(u, y), end, limit, room)
    decreases y, 3
  {
    AtUnary(toks, pos, u, y);
    SubexprComplete(toks, pos + 1, UNARY_PRIORITY, room - 1, y, end);
    assert Head(toks, pos, room) == Some((Apply(u, y), end));
  }

  // No two trees share their tokens up to where they end.
  lemma Unambiguous(toks: seq<Token>, pos: nat, limit: nat, room: nat, x: Expr, y: Expr, endx: nat, endy: nat)
    requires Reads(toks, pos, limit, room, x, endx) && Reads(toks, pos, limit, room, y, endy)
    ensures x == y && endx == endy
  {
    SubexprComplete(toks, pos, limit, room, x, endx);
    SubexprComplete(toks, pos, limit, room, y, endy);
  }

  // subexpr finds a tree exactly if there is one.
  lemma SubexprDecides(toks: seq<Token>, pos: nat, limit: nat, room: nat, x: Expr, end: nat)
    ensures Subexpr(toks, pos, limit, room) == Some((x, end)) <==> Reads(toks, pos, limit, room, x, end)
  {
    if Subexpr(toks, pos, limit, room) == Some((x, end)) { SubexprSound(toks, pos, limit, room); }
    if Reads(toks, pos, limit, room, x, end) { SubexprComplete(toks, pos, limit, room, x, end); }
  }

  // A whole expression: reading its tokens gives it back.
  lemma ParsePrinted(x: Expr, room: nat)
    requires Grouped(x, 0) && Depth(x) <= room
    ensures Subexpr(Tokens(x), 0, 0, room) == Some((x, |Tokens(x)|))
  {
    assert Tokens(x)[0..0 + |Tokens(x)|] == Tokens(x);
    SubexprComplete(Tokens(x), 0, 0, room, x, |Tokens(x)|);
  }
}
