// Lua patterns without captures and their language (Lua 5.2 Reference Manual, section 6.4.1).
module MatchPatterns {
  import opened Common

  type Byte = b: int | 0 <= b < 256

  const ESC: Byte := 37         // '%'

  // A C string: behind its end there is a zero.
  function At(s: seq<Byte>, i: nat): Byte { if i < |s| then s[i] else 0 }

  // ----- character classes, in the C locale -----

  predicate IsUpper(c: int) { 65 <= c <= 90 }
  predicate IsLower(c: int) { 97 <= c <= 122 }
  predicate IsAlpha(c: int) { IsUpper(c) || IsLower(c) }
  predicate IsDigit(c: int) { 48 <= c <= 57 }
  predicate IsGraph(c: int) { 33 <= c <= 126 }
  predicate IsCntrl(c: int) { 0 <= c < 32 || c == 127 }
  predicate IsSpace(c: int) { c == 32 || 9 <= c <= 13 }
  predicate IsXDigit(c: int) { IsDigit(c) || 65 <= c <= 70 || 97 <= c <= 102 }

  function ToLower(c: Byte): Byte { if IsUpper(c) then c + 32 else c }

  // match_class: %a and the like; an upper-case letter stands for the complement.
  predicate InLetterClass(c: Byte, cl: Byte) {
    var l := ToLower(cl);
    if !IsAlpha(l) || l !in {97, 99, 100, 103, 108, 112, 115, 117, 119, 120, 122} then cl == c
    else
      var res := if l == 97 then IsAlpha(c) else if l == 99 then IsCntrl(c) else if l == 100 then IsDigit(c)
                 else if l == 103 then IsGraph(c) else if l == 108 then IsLower(c)
                 else if l == 112 then IsGraph(c) && !IsAlpha(c) && !IsDigit(c) else if l == 115 then IsSpace(c)
                 else if l == 117 then IsUpper(c) else if l == 119 then IsAlpha(c) || IsDigit(c)
                 else if l == 120 then IsXDigit(c) else c == 0;
      res == IsLower(cl)
  }

  datatype Elem = Letter(cl: Byte) | Range(lo: Byte, hi: Byte) | Char(c: Byte)

  datatype Class = Any | OfLetter(cl: Byte) | Set(negated: bool, elems: seq<Elem>) | Just(c: Byte)

  predicate InElem(c: Byte, e: Elem) {
    match e
    case Letter(cl) => InLetterClass(c, cl)
    case Range(lo, hi) => lo <= c <= hi
    case Char(d) => c == d
  }

  predicate InClass(c: Byte, k: Class) {
    match k
    case Any => true
    case OfLetter(cl) => InLetterClass(c, cl)
    case Set(negated, elems) => (exists e :: e in elems && InElem(c, e)) != negated
    case Just(d) => c == d
  }

  // ----- patterns -----

  datatype Item =
    | One(k: Class) | Opt(k: Class) | Star(k: Class) | Plus(k: Class) | Lazy(k: Class)
    | AtEnd                              // '$' at the end of the pattern
    | Balance(open: Byte, close: Byte)   // '%bxy'
    | Frontier(k: Class)                 // '%f[set]'

  // s to s+k are characters of the class.
  ghost predicate Run(k: Class, src: seq<Byte>, s: nat, n: nat) {
    s + n <= |src| && forall i :: s <= i < s + n ==> InClass(src[i], k)
  }

  // Nesting: closing characters end, opening ones begin a level; from s to t, starting at level 1.
  ghost function Level(src: seq<Byte>, s: nat, t: nat, open: Byte, close: Byte): int
    requires s <= t <= |src|
    decreases t - s
  {
    if s == t then 1
    else Level(src, s, t - 1, open, close) + (if src[t - 1] == close then -1 else if src[t - 1] == open then 1 else 0)
  }

  ghost predicate StillOpen(src: seq<Byte>, s: nat, q: nat, open: Byte, close: Byte) {
    s < q <= |src| && Level(src, s + 1, q, open, close) > 0
  }

  ghost predicate Balanced(src: seq<Byte>, s: nat, t: nat, open: Byte, close: Byte) {
    s + 1 < t <= |src| && src[s] == open && Level(src, s + 1, t, open, close) == 0 &&
    forall q {:trigger StillOpen(src, s, q, open, close)} :: s + 1 <= q < t ==> StillOpen(src, s, q, open, close)
  }

  function Before(src: seq<Byte>, s: nat): Byte { if s == 0 || s > |src| then 0 else src[s - 1] }

  // The stretch of src from s to e is in the language of the items.
  ghost predicate Matches(items: seq<Item>, src: seq<Byte>, s: nat, e: nat)
    decreases |items|
  {
    if items == [] then e == s
    else
      var rest := items[1..];
      match items[0]
      case One(k) => Run(k, src, s, 1) && Matches(rest, src, s + 1, e)
      case Opt(k) => (Run(k, src, s, 1) && Matches(rest, src, s + 1, e)) || Matches(rest, src, s, e)
      case Star(k) => exists n: nat :: Run(k, src, s, n) && Matches(rest, src, s + n, e)
      case Plus(k) => exists n: nat :: n >= 1 && Run(k, src, s, n) && Matches(rest, src, s + n, e)
      case Lazy(k) => exists n: nat :: Run(k, src, s, n) && Matches(rest, src, s + n, e)
      case AtEnd => s == |src| && Matches(rest, src, s, e)
      case Balance(x, y) => exists t: nat :: Balanced(src, s, t, x, y) && Matches(rest, src, t, e)
      case Frontier(k) => !InClass(Before(src, s), k) && InClass(At(src, s), k) && Matches(rest, src, s, e)
  }

  ghost predicate CanMatch(items: seq<Item>, src: seq<Byte>, s: nat) { exists e: nat :: Matches(items, src, s, e) }

  ghost predicate NoMatch(items: seq<Item>, src: seq<Byte>, s: nat, n: nat) { !CanMatch(items, src, s + n) }

  // n characters for the first item; the rest matches behind them, and not behind a better number.
  ghost predicate Longest(k: Class, rest: seq<Item>, src: seq<Byte>, s: nat, n: nat) {
    Run(k, src, s, n) && forall m: nat :: m > n && Run(k, src, s, m) ==> NoMatch(rest, src, s, m)
  }

  ghost predicate Shortest(k: Class, rest: seq<Item>, src: seq<Byte>, s: nat, n: nat) {
    Run(k, src, s, n) && forall m: nat {:trigger NoMatch(rest, src, s, m)} :: m < n ==> NoMatch(rest, src, s, m)
  }

  // The match that the manual prefers: '?', '*' and '+' take as much as they can, '-' as little,
  // such that the rest of the pattern matches.
  ghost predicate Preferred(items: seq<Item>, src: seq<Byte>, s: nat, e: nat)
    decreases |items|
  {
    if items == [] then e == s
    else
      var rest := items[1..];
      match items[0]
      case One(k) => Run(k, src, s, 1) && Preferred(rest, src, s + 1, e)
      case Opt(k) => if Run(k, src, s, 1) && CanMatch(rest, src, s + 1) then Preferred(rest, src, s + 1, e) else Preferred(rest, src, s, e)
      case Star(k) => exists n: nat :: Longest(k, rest, src, s, n) && Preferred(rest, src, s + n, e)
      case Plus(k) => exists n: nat :: n >= 1 && Longest(k, rest, src, s, n) && Preferred(rest, src, s + n, e)
      case Lazy(k) => exists n: nat :: Shortest(k, rest, src, s, n) && Preferred(rest, src, s + n, e)
      case AtEnd => s == |src| && Preferred(rest, src, s, e)
      case Balance(x, y) => exists t: nat :: Balanced(src, s, t, x, y) && Preferred(rest, src, t, e)
      case Frontier(k) => !InClass(Before(src, s), k) && InClass(At(src, s), k) && Preferred(rest, src, s, e)
  }

  // The preferred match is a match ...
  lemma {:induction false} PreferredMatches(items: seq<Item>, src: seq<Byte>, s: nat, e: nat)
    requires Preferred(items, src, s, e)
    ensures Matches(items, src, s, e)
    decreases |items|
  {
    if items != [] {
      var rest := items[1..];
      match items[0] {
        case One(k) => PreferredMatches(rest, src, s + 1, e);
        case Opt(k) =>
          if Run(k, src, s, 1) && CanMatch(rest, src, s + 1) { PreferredMatches(rest, src, s + 1, e); } else { PreferredMatches(rest, src, s, e); }
        case Star(k) =>
          var n: nat :| Longest(k, rest, src, s, n) && Preferred(rest, src, s + n, e);
          PreferredMatches(rest, src, s + n, e);
        case Plus(k) =>
          var n: nat :| n >= 1 && Longest(k, rest, src, s, n) && Preferred(rest, src, s + n, e);
          PreferredMatches(rest, src, s + n, e);
        case Lazy(k) =>
          var n: nat :| Shortest(k, rest, src, s, n) && Preferred(rest, src, s + n, e);
          PreferredMatches(rest, src, s + n, e);
        case AtEnd => PreferredMatches(rest, src, s, e);
        case Balance(x, y) =>
          var t: nat :| Balanced(src, s, t, x, y) && Preferred(rest, src, t, e);
          PreferredMatches(rest, src, t, e);
        case Frontier(k) => PreferredMatches(rest, src, s, e);
      }
    }
  }

  // ... and there is only one.
  lemma {:induction false} PreferredUnique(items: seq<Item>, src: seq<Byte>, s: nat, e: nat, e': nat)
    requires Preferred(items, src, s, e) && Preferred(items, src, s, e')
    ensures e == e'
    decreases |items|
  {
    if items != [] {
      var rest := items[1..];
      match items[0] {
        case One(k) => PreferredUnique(rest, src, s + 1, e, e');
        case Opt(k) =>
          if Run(k, src, s, 1) && CanMatch(rest, src, s + 1) { PreferredUnique(rest, src, s + 1, e, e'); } else { PreferredUnique(rest, src, s, e, e'); }
        case Star(k) =>
          var n: nat :| Longest(k, rest, src, s, n) && Preferred(rest, src, s + n, e);
          var n': nat :| Longest(k, rest, src, s, n') && Preferred(rest, src, s + n', e');
          SameNumber(rest, src, s, n, n', e, e');
          PreferredUnique(rest, src, s + n, e, e');
        case Plus(k) =>
          var n: nat :| n >= 1 && Longest(k, rest, src, s, n) && Preferred(rest, src, s + n, e);
          var n': nat :| n' >= 1 && Longest(k, rest, src, s, n') && Preferred(rest, src, s + n', e');
          SameNumber(rest, src, s, n, n', e, e');
          PreferredUnique(rest, src, s + n, e, e');
        case Lazy(k) =>
          var n: nat :| Shortest(k, rest, src, s, n) && Preferred(rest, src, s + n, e);
          var n': nat :| Shortest(k, rest, src, s, n') && Preferred(rest, src, s + n', e');
          SameNumber(rest, src, s, n, n', e, e');
          PreferredUnique(rest, src, s + n, e, e');
        case AtEnd => PreferredUnique(rest, src, s, e, e');
        case Balance(x, y) =>
          var t: nat :| Balanced(src, s, t, x, y) && Preferred(rest, src, t, e);
          var t': nat :| Balanced(src, s, t', x, y) && Preferred(rest, src, t', e');
          BalancedUnique(src, s, t, t', x, y);
          PreferredUnique(rest, src, t, e, e');
        case Frontier(k) => PreferredUnique(rest, src, s, e, e');
      }
    }
  }

  // Where there is a match, there is a preferred one.
  lemma {:induction false} PreferredThere(items: seq<Item>, src: seq<Byte>, s: nat) returns (e: nat)
    requires CanMatch(items, src, s)
    ensures Preferred(items, src, s, e)
    decreases |items|
  {
    hide Run, Balanced, InClass, At, Before;
    var e0: nat :| Matches(items, src, s, e0);
    if items == [] {
      e := s;
    } else {
      var rest := items[1..];
      match items[0] {
        case One(k) =>
          assert Matches(rest, src, s + 1, e0);
          e := PreferredThere(rest, src, s + 1);
        case Opt(k) =>
          if Run(k, src, s, 1) && CanMatch(rest, src, s + 1) {
            e := PreferredThere(rest, src, s + 1);
          } else {
            if Matches(rest, src, s + 1, e0) { assert CanMatch(rest, src, s + 1); }
            assert Matches(rest, src, s, e0);
            e := PreferredThere(rest, src, s);
          }
        case Star(k) =>
          var n0: nat :| Run(k, src, s, n0) && Matches(rest, src, s + n0, e0);
          var n := LongestThere(k, rest, src, s, n0);
          e := PreferredThere(rest, src, s + n);
        case Plus(k) =>
          var n0: nat :| n0 >= 1 && Run(k, src, s, n0) && Matches(rest, src, s + n0, e0);
          var n := LongestThere(k, rest, src, s, n0);
          e := PreferredThere(rest, src, s + n);
        case Lazy(k) =>
          var n0: nat :| Run(k, src, s, n0) && Matches(rest, src, s + n0, e0);
          var n := ShortestThere(k, rest, src, s, n0);
          e := PreferredThere(rest, src, s + n);
        case AtEnd =>
          assert Matches(rest, src, s, e0);
          e := PreferredThere(rest, src, s);
        case Balance(x, y) =>
          var t: nat :| Balanced(src, s, t, x, y) && Matches(rest, src, t, e0);
          e := PreferredThere(rest, src, t);
        case Frontier(k) =>
          assert Matches(rest, src, s, e0);
          e := PreferredThere(rest, src, s);
      }
    }
  }

  lemma {:induction false} LongestThere(k: Class, rest: seq<Item>, src: seq<Byte>, s: nat, n0: nat) returns (n: nat)
    requires Run(k, src, s, n0) && CanMatch(rest, src, s + n0)
    ensures n >= n0 && Longest(k, rest, src, s, n) && CanMatch(rest, src, s + n)
    decreases |src| - n0
  {
    if m: nat :| m > n0 && Run(k, src, s, m) && !NoMatch(rest, src, s, m) {
      n := LongestThere(k, rest, src, s, m);
    } else {
      n := n0;
    }
  }

  lemma {:induction false} ShortestThere(k: Class, rest: seq<Item>, src: seq<Byte>, s: nat, n0: nat) returns (n: nat)
    requires Run(k, src, s, n0) && CanMatch(rest, src, s + n0)
    ensures n <= n0 && Shortest(k, rest, src, s, n) && CanMatch(rest, src, s + n)
    decreases n0
  {
    if m: nat :| m < n0 && !NoMatch(rest, src, s, m) {
      n := ShortestThere(k, rest, src, s, m);
    } else {
      n := n0;
    }
  }

  lemma SameNumber(rest: seq<Item>, src: seq<Byte>, s: nat, n: nat, n': nat, e: nat, e': nat)
    requires Preferred(rest, src, s + n, e) && Preferred(rest, src, s + n', e')
    ensures !NoMatch(rest, src, s, n) && !NoMatch(rest, src, s, n')
  {
    PreferredMatches(rest, src, s + n, e);
    PreferredMatches(rest, src, s + n', e');
  }

  lemma OpenBefore(src: seq<Byte>, s: nat, q: nat, t: nat, x: Byte, y: Byte)
    requires Balanced(src, s, t, x, y) && s + 1 <= q < t
    ensures Level(src, s + 1, q, x, y) > 0
  {
    assert StillOpen(src, s, q, x, y);
  }

  lemma BalancedUnique(src: seq<Byte>, s: nat, t: nat, t': nat, x: Byte, y: Byte)
    requires Balanced(src, s, t, x, y) && Balanced(src, s, t', x, y)
    ensures t == t'
  {
    if t < t' { OpenBefore(src, s, t, t', x, y); } else if t' < t { OpenBefore(src, s, t', t, x, y); }
  }

  // Matches stay within the subject.
  lemma {:induction false} MatchInside(items: seq<Item>, src: seq<Byte>, s: nat, e: nat)
    requires Matches(items, src, s, e) && s <= |src|
    ensures s <= e <= |src|
    decreases |items|
  {
    if items != [] {
      var rest := items[1..];
      match items[0] {
        case One(k) => MatchInside(rest, src, s + 1, e);
        case Opt(k) => if Run(k, src, s, 1) && Matches(rest, src, s + 1, e) { MatchInside(rest, src, s + 1, e); } else { MatchInside(rest, src, s, e); }
        case Star(k) =>
          var n: nat :| Run(k, src, s, n) && Matches(rest, src, s + n, e);
          MatchInside(rest, src, s + n, e);
        case Plus(k) =>
          var n: nat :| n >= 1 && Run(k, src, s, n) && Matches(rest, src, s + n, e);
          MatchInside(rest, src, s + n, e);
        case Lazy(k) =>
          var n: nat :| Run(k, src, s, n) && Matches(rest, src, s + n, e);
          MatchInside(rest, src, s + n, e);
        case AtEnd => MatchInside(rest, src, s, e);
        case Balance(x, y) =>
          var t: nat :| Balanced(src, s, t, x, y) && Matches(rest, src, t, e);
          MatchInside(rest, src, t, e);
        case Frontier(k) => MatchInside(rest, src, s, e);
      }
    }
  }

  // ----- reading a pattern -----

  // The loop of classend: from p on, the first ']' that is neither escaped nor the first character
  function SetEnd(pat: seq<Byte>, p: nat): (r: Option<nat>)
    ensures r.Some? ==> p + 1 < r.value <= |pat| && pat[r.value - 1] == 93
    decreases |pat| - p
  {
    if p >= |pat| then None
    else
      var p1 := if pat[p] == ESC && p + 1 < |pat| then p + 2 else p + 1;
      if At(pat, p1) == 93 then Some(p1 + 1) else SetEnd(pat, p1)
  }

  function ClassEnd(pat: seq<Byte>, p: nat): (r: Option<nat>)
    requires p < |pat|
    ensures r.Some? ==> p < r.value <= |pat|
  {
    if pat[p] == ESC then if p + 1 == |pat| then None else Some(p + 2)
    else if pat[p] == 91 then SetEnd(pat, if At(pat, p + 1) == 94 then p + 2 else p + 1)
    else Some(p + 1)
  }

  // The members of a set whose text runs from p to ec.
  function Elems(pat: seq<Byte>, p: nat, ec: nat): seq<Elem>
    decreases ec - p
  {
    if p >= ec then []
    else if At(pat, p) == ESC then [Letter(At(pat, p + 1))] + Elems(pat, p + 2, ec)
    else if At(pat, p + 1) == 45 && p + 2 < ec then [Range(At(pat, p), At(pat, p + 2))] + Elems(pat, p + 3, ec)
    else [Char(At(pat, p))] + Elems(pat, p + 1, ec)
  }

  // A set from '[' at p to ']' at ec
  function SetAt(pat: seq<Byte>, p: nat, ec: nat): Class {
    var negated := At(pat, p + 1) == 94;
    Set(negated, Elems(pat, if negated then p + 2 else p + 1, ec))
  }

  function ClassAt(pat: seq<Byte>, p: nat, ep: nat): Class
    requires p < ep
  {
    var c := At(pat, p);
    if c == 46 then Any else if c == ESC then OfLetter(At(pat, p + 1)) else if c == 91 then SetAt(pat, p, ep - 1) else Just(c)
  }

  datatype Step = Got(item: Item, next: nat) | Bad | Capture

  function SingleAt(pat: seq<Byte>, p: nat): (r: Step)
    requires p < |pat|
    ensures r.Got? ==> p < r.next <= |pat|
  {
    var ep := ClassEnd(pat, p);
    if ep.None? then Bad
    else
      var k, suffix := ClassAt(pat, p, ep.value), At(pat, ep.value);
      if suffix == 63 then Got(Opt(k), ep.value + 1)
      else if suffix == 42 then Got(Star(k), ep.value + 1)
      else if suffix == 43 then Got(Plus(k), ep.value + 1)
      else if suffix == 45 then Got(Lazy(k), ep.value + 1)
      else Got(One(k), ep.value)
  }

  // The item that begins at p
  function ItemAt(pat: seq<Byte>, p: nat): (r: Step)
    requires p < |pat|
    ensures r.Got? ==> p < r.next <= |pat|
  {
    if pat[p] == 40 || pat[p] == 41 then Capture
    else if pat[p] == 36 && p + 1 == |pat| then Got(AtEnd, p + 1)
    else if pat[p] == ESC && At(pat, p + 1) == 98 then
      if p + 3 >= |pat| then Bad else Got(Balance(pat[p + 2], pat[p + 3]), p + 4)
    else if pat[p] == ESC && At(pat, p + 1) == 102 then
      if At(pat, p + 2) != 91 then Bad
      else
        var ep := ClassEnd(pat, p + 2);
        if ep.None? then Bad else Got(Frontier(SetAt(pat, p + 2, ep.value - 1)), ep.value)
    else if pat[p] == ESC && IsDigit(At(pat, p + 1)) then Capture
    else SingleAt(pat, p)
  }

  datatype Parsed = Good(items: seq<Item>) | Malformed | Captures

  function Items(pat: seq<Byte>, p: nat): Parsed
    decreases |pat| - p
  {
    if p >= |pat| then Good([])
    else
      var i := ItemAt(pat, p);
      if i.Bad? then Malformed
      else if i.Capture? then Captures
      else
        var rest := Items(pat, i.next);
        if rest.Good? then Good([i.item] + rest.items) else rest
  }
}
