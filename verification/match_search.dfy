// The backtracking matcher (match and its helpers in src/lua/lstrlib.c), on patterns without
// captures: it finds the preferred match exactly where there is one.
module MatchSearch {
  import opened Common
  import opened MatchPatterns

  // The end of the match, NULL, or the error of a malformed pattern
  datatype Result = Found(end: nat) | NotFound | Error

  // What the result says about the items that a pattern stands for, matched from s on.
  ghost predicate Answers(parsed: Parsed, src: seq<Byte>, s: nat, r: Result) {
    (r.Found? ==> parsed.Good?) && (parsed.Good? ==> Decides(parsed.items, src, s, r))
  }

  ghost predicate Decides(items: seq<Item>, src: seq<Byte>, s: nat, r: Result) {
    match r
    case Found(e) => Preferred(items, src, s, e)
    case NotFound => !CanMatch(items, src, s)
    case Error => false
  }

  // Matching from s with one pattern comes to matching from s' with what is left of it.
  ghost predicate Leads(parsed: Parsed, src: seq<Byte>, s: nat, parsed': Parsed, s': nat) {
    forall r: Result {:trigger Answers(parsed', src, s', r)} :: Answers(parsed', src, s', r) ==> Answers(parsed, src, s, r)
  }

  class MatchState {
    const src: seq<Byte>
    const pat: seq<Byte>

    constructor (src: seq<Byte>, pat: seq<Byte>)
      ensures this.src == src && this.pat == pat
    {
      this.src, this.pat := src, pat;
    }

    // classend
    method EndOfClass(p0: nat) returns (r: Option<nat>)
      requires p0 < |pat|
      ensures r == ClassEnd(pat, p0)
    {
      var p := p0 + 1;
      if pat[p0] == ESC {
        if p == |pat| { return None; }
        return Some(p + 1);
      } else if pat[p0] == 91 {
        if At(pat, p) == 94 { p := p + 1; }
        ghost var first := p;
        while true
          invariant p <= |pat| + 1 && SetEnd(pat, p) == SetEnd(pat, first)
          decreases |pat| + 1 - p
        {
          if p >= |pat| { return None; }
          var c := pat[p];
          p := p + 1;
          if c == ESC && p < |pat| { p := p + 1; }
          if At(pat, p) == 93 { return Some(p + 1); }
        }
      } else {
        return Some(p);
      }
    }

    // matchbracketclass
    method MatchBracketClass(c: Byte, p0: nat, ec: nat) returns (r: bool)
      ensures r == InClass(c, SetAt(pat, p0, ec))
    {
      hide InLetterClass, Elems, InElems, InClass, SetAt;
      SetIs(pat, p0, ec, c);
      var sig, p := true, p0;
      if At(pat, p + 1) == 94 {
        sig := false;
        p := p + 1;
      }
      p := p + 1;
      ghost var all := Elems(pat, p, ec);
      while p < ec
        invariant InElems(c, all) == InElems(c, Elems(pat, p, ec))
        decreases ec - p
      {
        ElemsStep(pat, p, ec, c);
        if At(pat, p) == ESC {
          p := p + 1;
          if InLetterClass(c, At(pat, p)) { return sig; }
        } else if At(pat, p + 1) == 45 && p + 2 < ec {
          p := p + 2;
          if At(pat, p - 2) <= c <= At(pat, p) { return sig; }
        } else if At(pat, p) == c {
          return sig;
        }
        p := p + 1;
      }
      NoElems(pat, p, ec, c);
      r := !sig;
    }

    // singlematch
    method SingleMatch(c: Byte, p: nat, ep: nat) returns (r: bool)
      requires p < ep
      ensures r == InClass(c, ClassAt(pat, p, ep))
    {
      if At(pat, p) == 46 {
        r := true;
      } else if At(pat, p) == ESC {
        r := InLetterClass(c, At(pat, p + 1));
      } else if At(pat, p) == 91 {
        r := MatchBracketClass(c, p, ep - 1);
      } else {
        r := At(pat, p) == c;
      }
    }

    // matchbalance
    method MatchBalance(s0: nat, p: nat) returns (r: Result)
      requires s0 <= |src| && p <= |pat|
      ensures r.Error? <==> p + 1 >= |pat|
      ensures r.Found? ==> Balanced(src, s0, r.end, pat[p], pat[p + 1])
      ensures r.NotFound? ==> Unbalanced(src, s0, pat[p], pat[p + 1])
    {
      if p + 1 >= |pat| { return Error; }
      if At(src, s0) != pat[p] { return NotFound; }
      var b, e, cont := pat[p], pat[p + 1], 1;
      var s := s0 + 1;
      while s < |src|
        invariant s0 < s && (s0 < |src| ==> s <= |src| && Level(src, s0 + 1, s, b, e) == cont) && cont > 0
        invariant forall q {:trigger StillOpen(src, s0, q, b, e)} :: s0 + 1 <= q <= s && s0 < |src| ==> StillOpen(src, s0, q, b, e)
        decreases |src| - s
      {
        if src[s] == e {
          cont := cont - 1;
          if cont == 0 { return Found(s + 1); }
        } else if src[s] == b {
          cont := cont + 1;
        }
        assert StillOpen(src, s0, s + 1, b, e);
        s := s + 1;
      }
      forall t: nat ensures !Balanced(src, s0, t, b, e) {
        if s0 + 1 <= t <= s && s0 < |src| { assert StillOpen(src, s0, t, b, e); }
      }
      r := NotFound;
    }
  
    // max_expand.  start: where the repetitions began
    method MaxExpand(s: nat, p: nat, ep: nat, ghost start: nat) returns (r: Result)
      requires start <= s <= |src| && p < ep < |pat| && Items(pat, ep + 1) != Captures &&
               Run(ClassAt(pat, p, ep), src, start, s - start)
      ensures ManyAnswer(ClassAt(pat, p, ep), Items(pat, ep + 1), src, start, s - start, r)
      decreases |pat| - p, 0
    {
      ghost var k, rest := ClassAt(pat, p, ep), Items(pat, ep + 1);
      var i: int := 0;
      while s + i < |src|
        invariant 0 <= i && s + i <= |src| && Run(k, src, start, s - start + i)
        decreases |src| - (s + i)
      {
        var m := SingleMatch(src[s + i], p, ep);
        if !m { break; }
        i := i + 1;
      }
      ghost var top := s - start + i;
      NoLongerRun(k, src, start, top);
      while i >= 0
        invariant -1 <= i && s - start + i <= top && Run(k, src, start, top)
        invariant forall n: nat {:trigger NoMatchAfter(rest, src, start, n)} :: s - start + i < n <= top ==>
                  NoMatchAfter(rest, src, start, n)
        decreases i
      {
        r := Match(s + i, ep + 1);
        if !r.NotFound? {
          MaxFound(k, rest, src, start, s - start, s - start + i, top, r);
          return;
        }
        assert NoMatchAfter(rest, src, start, s - start + i);
        i := i - 1;
      }
      MaxFailed(k, rest, src, start, s - start, top);
      r := NotFound;
    }

    // min_expand
    method MinExpand(s0: nat, p: nat, ep: nat) returns (r: Result)
      requires s0 <= |src| && p < ep < |pat| && Items(pat, ep + 1) != Captures
      ensures LazyAnswer(ClassAt(pat, p, ep), Items(pat, ep + 1), src, s0, r)
      decreases |pat| - p, 0
    {
      ghost var k, rest := ClassAt(pat, p, ep), Items(pat, ep + 1);
      var s := s0;
      while true
        invariant s0 <= s <= |src| && Run(k, src, s0, s - s0)
        invariant forall n: nat {:trigger NoMatchAfter(rest, src, s0, n)} :: n < s - s0 ==>
                  NoMatchAfter(rest, src, s0, n)
        decreases |src| - s
      {
        r := Match(s, ep + 1);
        if !r.NotFound? {
          MinFound(k, rest, src, s0, s - s0, r);
          return;
        }
        assert NoMatchAfter(rest, src, s0, s - s0);
        var m := false;
        if s < |src| { m := SingleMatch(src[s], p, ep); }
        if !m {
          MinFailed(k, rest, src, s0, s - s0);
          return NotFound;
        }
        s := s + 1;
      }
    }

    // match
    method Match(s0: nat, p0: nat) returns (r: Result)
      requires s0 <= |src| && p0 <= |pat| && Items(pat, p0) != Captures
      ensures Answers(Items(pat, p0), src, s0, r)
      decreases |pat| - p0, 2
    {
      hide Answers, Items, ItemAt, SingleAt, ClassAt, SetAt, InClass, ManyAnswer, LazyAnswer, Balanced;
      var s: nat, p: nat := s0, p0;
      LeadsSelf(Items(pat, p0), src, s0);
      while true
        invariant s <= |src| && p0 <= p <= |pat| && Items(pat, p) != Captures
        invariant Leads(Items(pat, p0), src, s0, Items(pat, p), s)
        decreases |pat| - p
      {
        if p == |pat| {
          AtPatternEnd(pat, src, s, p);
          return Found(s);
        }
        ItemsStep(pat, p);
        ItemForms(pat, p);
        ghost var here := Items(pat, p);
        if pat[p] == 36 && p + 1 == |pat| {
          AtSubjectEnd(pat, src, s, p);
          return if s == |src| then Found(s) else NotFound;
        } else if pat[p] == ESC && At(pat, p + 1) == 98 {
          var t := MatchBalance(s, p + 2);
          BalanceStep(pat, src, s, p, t);
          if !t.Found? { return t; }
          LeadsTrans(Items(pat, p0), src, s0, here, s, Items(pat, p + 4), t.end);
          s, p := t.end, p + 4;
        } else if pat[p] == ESC && At(pat, p + 1) == 102 {
          if At(pat, p + 2) != 91 {
            BadStep(pat, src, s, p);
            return Error;
          }
          var ep := EndOfClass(p + 2);
          if ep.None? {
            BadStep(pat, src, s, p);
            return Error;
          }
          var previous := if s == 0 then 0 else src[s - 1];
          var before := MatchBracketClass(previous, p + 2, ep.value - 1);
          var after := MatchBracketClass(At(src, s), p + 2, ep.value - 1);
          FrontierStep(pat, src, s, p, ep.value, before, after);
          if before || !after { return NotFound; }
          LeadsTrans(Items(pat, p0), src, s0, here, s, Items(pat, ep.value), s);
          p := ep.value;
        } else {
          var done;
          var s1, p1 := s, p;
          done, r, s, p := MatchDefault(s1, p1);
          if done { return; }
          LeadsTrans(Items(pat, p0), src, s0, here, s1, Items(pat, p), s);
        }
      }
    }

    // The default case of match: a single character class and its suffix.  If there is no result
    // yet, matching goes on from s1 with the pattern from p1.
    method MatchDefault(s: nat, p: nat) returns (done: bool, r: Result, s1: nat, p1: nat)
      requires s <= |src| && p < |pat| && Items(pat, p) != Captures && ItemAt(pat, p) == SingleAt(pat, p)
      ensures done ==> Answers(Items(pat, p), src, s, r)
      ensures !done ==> s1 <= |src| && p < p1 <= |pat| && Items(pat, p1) != Captures && Leads(Items(pat, p), src, s, Items(pat, p1), s1)
      decreases |pat| - p, 1
    {
      hide Answers, Items, ItemAt, SingleAt, ClassAt, SetAt, InClass, ManyAnswer, LazyAnswer, Leads, Run;
      s1, p1 := s, p;
      SingleBad(pat, p);
      var end := EndOfClass(p);
      if end.None? {
        BadStep(pat, src, s, p);
        return true, Error, s, p;
      }
      var ep := end.value;
      var m := false;
      if s < |src| { m := SingleMatch(src[s], p, ep); }
      ghost var k := ClassAt(pat, p, ep);
      OneRun(k, src, s, m);
      SingleIs(pat, p, ep);
      ItemsStep(pat, p);
      var suffix := At(pat, ep);
      if suffix == 63 {
        if m {
          r := Match(s + 1, ep + 1);
          OptTaken(pat, src, s, p, ep, r);
          if !r.NotFound? { return true, r, s, p; }
        }
        OptSkipped(pat, src, s, p, ep, m);
        return false, NotFound, s, ep + 1;
      } else if suffix == 42 {
        NoRunYet(k, src, s);
        r := MaxExpand(s, p, ep, s);
        StarDone(pat, src, s, p, ep, r);
      } else if suffix == 43 {
        r := NotFound;
        if m { r := MaxExpand(s + 1, p, ep, s); }
        PlusDone(pat, src, s, p, ep, m, r);
      } else if suffix == 45 {
        r := MinExpand(s, p, ep);
        LazyDone(pat, src, s, p, ep, r);
      } else {
        OneStep(pat, src, s, p, ep, m);
        if !m { return true, NotFound, s, p; }
        return false, NotFound, s + 1, ep;
      }
      done := true;
    }
  }

  // What str_find_aux returns
  datatype Place = Between(start: nat, stop: nat) | Nowhere | Failed

  // The loop of str_find_aux: the first position from init on where the pattern matches, or init
  // only for a pattern that begins with '^'.
  method FindFrom(ms: MatchState, init: nat) returns (r: Place)
    requires init <= |ms.src|
    requires Items(ms.pat, if Anchored(ms.pat) then 1 else 0) != Captures
    ensures var parsed := Items(ms.pat, if Anchored(ms.pat) then 1 else 0);
            parsed.Good? ==>
              match r
              case Between(start, stop) =>
                init <= start && (Anchored(ms.pat) ==> start == init) && Preferred(parsed.items, ms.src, start, stop) &&
                forall s: nat :: init <= s < start ==> !CanMatch(parsed.items, ms.src, s)
              case Nowhere => forall s: nat :: init <= s <= (if Anchored(ms.pat) then init else |ms.src|) ==> !CanMatch(parsed.items, ms.src, s)
              case Failed => false
  {
    hide Items, CanMatch, Preferred;
    var anchor := Anchored(ms.pat);
    var p := if anchor then 1 else 0;
    ghost var parsed := Items(ms.pat, p);
    var s1 := init;
    while true
      invariant init <= s1 <= |ms.src| && (anchor ==> s1 == init)
      invariant parsed.Good? ==> forall s: nat :: init <= s < s1 ==> !CanMatch(parsed.items, ms.src, s)
      decreases |ms.src| - s1
    {
      var res := ms.Match(s1, p);
      if res.Found? { return Between(s1, res.end); }
      if res.Error? { return Failed; }
      if !(s1 < |ms.src| && !anchor) { return Nowhere; }
      s1 := s1 + 1;
    }
  }

  predicate Anchored(pat: seq<Byte>) { At(pat, 0) == 94 }

  // ----- repetitions -----

  ghost predicate NoMatchAfter(rest: Parsed, src: seq<Byte>, s: nat, n: nat) {
    rest.Good? ==> NoMatch(rest.items, src, s, n)
  }

  // At least 'least' repetitions, as many as the rest allows
  ghost predicate ManyAnswer(k: Class, rest: Parsed, src: seq<Byte>, s: nat, least: nat, r: Result) {
    (r.Found? ==> rest.Good?) &&
    (rest.Good? ==>
      match r
      case Found(e) => exists n: nat :: n >= least && Longest(k, rest.items, src, s, n) && Preferred(rest.items, src, s + n, e)
      case NotFound => forall n: nat :: n >= least && Run(k, src, s, n) ==> NoMatch(rest.items, src, s, n)
      case Error => false)
  }

  ghost predicate LazyAnswer(k: Class, rest: Parsed, src: seq<Byte>, s: nat, r: Result) {
    (r.Found? ==> rest.Good?) &&
    (rest.Good? ==>
      match r
      case Found(e) => exists n: nat :: Shortest(k, rest.items, src, s, n) && Preferred(rest.items, src, s + n, e)
      case NotFound => forall n: nat :: Run(k, src, s, n) ==> NoMatch(rest.items, src, s, n)
      case Error => false)
  }

  lemma RunStops(k: Class, src: seq<Byte>, s: nat, n: nat, m: nat)
    requires s + n < |src| && !InClass(src[s + n], k) && m > n
    ensures !Run(k, src, s, m)
  {}

  lemma NoLongerRun(k: Class, src: seq<Byte>, s: nat, n: nat)
    requires Run(k, src, s, n) && (s + n < |src| ==> !InClass(src[s + n], k))
    ensures forall m: nat :: Run(k, src, s, m) ==> m <= n
  {
    forall m: nat ensures Run(k, src, s, m) ==> m <= n {
      if m > n && s + n < |src| { RunStops(k, src, s, n, m); }
    }
  }

  lemma MaxFound(k: Class, rest: Parsed, src: seq<Byte>, s: nat, least: nat, n: nat, top: nat, r: Result)
    requires Run(k, src, s, top) && least <= n <= top && (forall m: nat :: Run(k, src, s, m) ==> m <= top) &&
             !r.NotFound?
    requires forall m: nat {:trigger NoMatchAfter(rest, src, s, m)} :: n < m <= top ==> NoMatchAfter(rest, src, s, m)
    requires Answers(rest, src, s + n, r)
    ensures ManyAnswer(k, rest, src, s, least, r)
  {
    if rest.Good? {
      forall m: nat | m > n && Run(k, src, s, m) ensures NoMatch(rest.items, src, s, m) { assert NoMatchAfter(rest, src, s, m); }
      assert Longest(k, rest.items, src, s, n);
    }
  }

  lemma MaxFailed(k: Class, rest: Parsed, src: seq<Byte>, s: nat, least: nat, top: nat)
    requires forall m: nat :: Run(k, src, s, m) ==> m <= top
    requires forall m: nat {:trigger NoMatchAfter(rest, src, s, m)} :: least - 1 < m <= top ==>
             NoMatchAfter(rest, src, s, m)
    ensures ManyAnswer(k, rest, src, s, least, NotFound)
  {
    if rest.Good? {
      forall m: nat | m >= least && Run(k, src, s, m) ensures NoMatch(rest.items, src, s, m) { assert NoMatchAfter(rest, src, s, m); }
    }
  }

  lemma MinFound(k: Class, rest: Parsed, src: seq<Byte>, s: nat, n: nat, r: Result)
    requires Run(k, src, s, n) && !r.NotFound? && Answers(rest, src, s + n, r)
    requires forall m: nat {:trigger NoMatchAfter(rest, src, s, m)} :: m < n ==> NoMatchAfter(rest, src, s, m)
    ensures LazyAnswer(k, rest, src, s, r)
  {
    if rest.Good? {
      forall m: nat | m < n ensures NoMatch(rest.items, src, s, m) { assert NoMatchAfter(rest, src, s, m); }
      assert Shortest(k, rest.items, src, s, n);
    }
  }

  lemma MinFailed(k: Class, rest: Parsed, src: seq<Byte>, s: nat, n: nat)
    requires Run(k, src, s, n) && (s + n < |src| ==> !InClass(src[s + n], k))
    requires forall m: nat {:trigger NoMatchAfter(rest, src, s, m)} :: m <= n ==> NoMatchAfter(rest, src, s, m)
    ensures LazyAnswer(k, rest, src, s, NotFound)
  {
    NoLongerRun(k, src, s, n);
    if rest.Good? {
      forall m: nat | Run(k, src, s, m) ensures NoMatch(rest.items, src, s, m) { assert NoMatchAfter(rest, src, s, m); }
    }
  }

  lemma NoRunYet(k: Class, src: seq<Byte>, s: nat)
    requires s <= |src|
    ensures Run(k, src, s, 0)
  {}

  lemma OneRun(k: Class, src: seq<Byte>, s: nat, m: bool)
    requires s <= |src| && m == (s < |src| && InClass(src[s], k))
    ensures Run(k, src, s, 1) == m
    ensures forall n: nat :: n >= 1 && Run(k, src, s, n) ==> Run(k, src, s, 1)
  {
    if Run(k, src, s, 1) { assert s <= s < s + 1; }
  }

  // ----- steps along the pattern -----

  lemma LeadsSelf(a: Parsed, src: seq<Byte>, s: nat)
    ensures Leads(a, src, s, a, s)
  {}

  lemma LeadsTrans(a: Parsed, src: seq<Byte>, s: nat, b: Parsed, s1: nat, d: Parsed, s2: nat)
    requires Leads(a, src, s, b, s1) && Leads(b, src, s1, d, s2)
    ensures Leads(a, src, s, d, s2)
  {
    hide Answers;
    forall r | Answers(d, src, s2, r) ensures Answers(a, src, s, r) { assert Answers(b, src, s1, r); }
  }

  lemma ItemsStep(pat: seq<Byte>, p: nat)
    requires p < |pat| && Items(pat, p) != Captures
    ensures var i := ItemAt(pat, p);
            !i.Capture? && (i.Bad? ==> Items(pat, p) == Malformed) &&
            (i.Got? ==> Items(pat, i.next) != Captures && (Items(pat, p).Good? <==> Items(pat, i.next).Good?) &&
                        (Items(pat, p).Good? ==> Items(pat, p).items == [i.item] + Items(pat, i.next).items))
  {}

  lemma SingleBad(pat: seq<Byte>, p: nat)
    requires p < |pat|
    ensures SingleAt(pat, p).Bad? <==> ClassEnd(pat, p).None?
  {
    hide ClassAt;
  }

  // How an item shows what it is
  lemma ItemForms(pat: seq<Byte>, p: nat)
    requires p < |pat|
    ensures var letter := if pat[p] == ESC then At(pat, p + 1) else 0;
            (letter == 102 && (At(pat, p + 2) != 91 || (p + 2 < |pat| && ClassEnd(pat, p + 2).None?)) ==> ItemAt(pat, p).Bad?) &&
            (letter == 102 && At(pat, p + 2) == 91 ==> p + 2 < |pat|) && (letter == 98 ==> p + 2 <= |pat|) &&
            (letter != 98 && letter != 102 && !(pat[p] == 36 && p + 1 == |pat|) ==> ItemAt(pat, p).Capture? || ItemAt(pat, p) == SingleAt(pat, p))
  {
    hide SingleAt, SetAt;
  }

  lemma AtPatternEnd(pat: seq<Byte>, src: seq<Byte>, s: nat, p: nat)
    requires p == |pat|
    ensures Answers(Items(pat, p), src, s, Found(s))
  {}

  lemma AtSubjectEnd(pat: seq<Byte>, src: seq<Byte>, s: nat, p: nat)
    requires p < |pat| && pat[p] == 36 && p + 1 == |pat| && s <= |src|
    ensures Answers(Items(pat, p), src, s, if s == |src| then Found(s) else NotFound)
  {
    ItemsStep(pat, p);
    var items := Items(pat, p).items;
    assert items == [AtEnd] + [] && items[1..] == [];
  }

  lemma BadStep(pat: seq<Byte>, src: seq<Byte>, s: nat, p: nat)
    requires p < |pat| && ItemAt(pat, p).Bad?
    ensures Answers(Items(pat, p), src, s, Error)
  {}

  lemma BalanceStep(pat: seq<Byte>, src: seq<Byte>, s: nat, p: nat, t: Result)
    requires p < |pat| && pat[p] == ESC && At(pat, p + 1) == 98 && s <= |src| && Items(pat, p) != Captures
    requires (t.Error? <==> p + 3 >= |pat|) && (t.Found? ==> Balanced(src, s, t.end, pat[p + 2], pat[p + 3]))
    requires t.NotFound? ==> Unbalanced(src, s, pat[p + 2], pat[p + 3])
    ensures !t.Found? ==> Answers(Items(pat, p), src, s, t)
    ensures t.Found? ==> t.end <= |src| && p + 4 <= |pat| && Items(pat, p + 4) != Captures && Leads(Items(pat, p), src, s, Items(pat, p + 4), t.end)
  {
    ItemsStep(pat, p);
    var here := Items(pat, p);
    if p + 3 < |pat| && here.Good? {
      var x, y, rest := pat[p + 2], pat[p + 3], Items(pat, p + 4).items;
      Head(here.items, Balance(x, y), rest);
      if t.Found? {
        forall r | Answers(Items(pat, p + 4), src, t.end, r) ensures Answers(here, src, s, r) {
          BalanceLeads(here.items, rest, src, s, t.end, x, y, r);
        }
      }
    }
  }

  lemma Head(items: seq<Item>, i: Item, rest: seq<Item>)
    requires items == [i] + rest
    ensures items != [] && items[0] == i && items[1..] == rest
  {}

  lemma BalanceLeads(items: seq<Item>, rest: seq<Item>, src: seq<Byte>, s: nat, t: nat, x: Byte, y: Byte, r: Result)
    requires items != [] && items[0] == Balance(x, y) && items[1..] == rest && Balanced(src, s, t, x, y) &&
             Decides(rest, src, t, r)
    ensures Decides(items, src, s, r)
  {
    if r.NotFound? {
      forall e: nat ensures !Matches(items, src, s, e) {
        if Matches(items, src, s, e) {
          var t': nat :| Balanced(src, s, t', x, y) && Matches(rest, src, t', e);
          BalancedUnique(src, s, t, t', x, y);
        }
      }
    }
  }

  lemma FrontierStep(pat: seq<Byte>, src: seq<Byte>, s: nat, p: nat, ep: nat, before: bool, after: bool)
    requires p < |pat| && pat[p] == ESC && At(pat, p + 1) == 102 && At(pat, p + 2) == 91 && p + 2 < |pat| &&
             ClassEnd(pat, p + 2) == Some(ep)
    requires s <= |src| && Items(pat, p) != Captures
    requires before == InClass(if s == 0 then 0 else src[s - 1], SetAt(pat, p + 2, ep - 1)) &&
             after == InClass(At(src, s), SetAt(pat, p + 2, ep - 1))
    ensures before || !after ==> Answers(Items(pat, p), src, s, NotFound)
    ensures p < ep <= |pat| && Items(pat, ep) != Captures &&
            (!before && after ==> Leads(Items(pat, p), src, s, Items(pat, ep), s))
  {
    hide InClass, SetAt;
    ItemsStep(pat, p);
    var here, k := Items(pat, p), SetAt(pat, p + 2, ep - 1);
    if here.Good? {
      var rest := Items(pat, ep).items;
      Head(here.items, Frontier(k), rest);
      forall r | Answers(Items(pat, ep), src, s, r) && !before && after ensures Answers(here, src, s, r) {
        if r.NotFound? { forall e: nat ensures !Matches(here.items, src, s, e) {} }
      }
    }
  }

  // The item of a single character class, with its suffix
  lemma SingleIs(pat: seq<Byte>, p: nat, ep: nat)
    requires p < |pat| && ItemAt(pat, p) == SingleAt(pat, p) && ClassEnd(pat, p) == Some(ep)
    ensures p < ep <= |pat|
    ensures var k, suffix, i := ClassAt(pat, p, ep), At(pat, ep), ItemAt(pat, p);
            i == (if suffix == 63 then Got(Opt(k), ep + 1) else if suffix == 42 then Got(Star(k), ep + 1)
                  else if suffix == 43 then Got(Plus(k), ep + 1) else if suffix == 45 then Got(Lazy(k), ep + 1) else Got(One(k), ep))
    ensures At(pat, ep) in {63, 42, 43, 45} ==> ep < |pat|
  {
    hide ClassAt;
  }

  lemma OneStep(pat: seq<Byte>, src: seq<Byte>, s: nat, p: nat, ep: nat, m: bool)
    requires p < ep <= |pat| && s <= |src| && Items(pat, p) != Captures &&
             ItemAt(pat, p) == Got(One(ClassAt(pat, p, ep)), ep)
    requires m == Run(ClassAt(pat, p, ep), src, s, 1)
    ensures Items(pat, ep) != Captures && if m then s < |src| &&
            Leads(Items(pat, p), src, s, Items(pat, ep), s + 1) else Answers(Items(pat, p), src, s, NotFound)
  {
    hide ItemAt, ClassAt;
    ItemsStep(pat, p);
    var here, k := Items(pat, p), ClassAt(pat, p, ep);
    if here.Good? {
      var rest := Items(pat, ep).items;
      Head(here.items, One(k), rest);
      if m {
        forall r | Answers(Items(pat, ep), src, s + 1, r) ensures Answers(here, src, s, r) {
          if r.NotFound? { forall e: nat ensures !Matches(here.items, src, s, e) {} }
        }
      }
    }
  }

  lemma OptTaken(pat: seq<Byte>, src: seq<Byte>, s: nat, p: nat, ep: nat, r: Result)
    requires p < ep < |pat| && s < |src| && Items(pat, p) != Captures &&
             ItemAt(pat, p) == Got(Opt(ClassAt(pat, p, ep)), ep + 1)
    requires Run(ClassAt(pat, p, ep), src, s, 1) && Answers(Items(pat, ep + 1), src, s + 1, r)
    ensures !r.NotFound? ==> Answers(Items(pat, p), src, s, r)
    ensures r.NotFound? && Items(pat, ep + 1).Good? ==> !CanMatch(Items(pat, ep + 1).items, src, s + 1)
  {
    hide ItemAt, ClassAt;
    ItemsStep(pat, p);
    var here, k := Items(pat, p), ClassAt(pat, p, ep);
    if here.Good? && r.Found? {
      var rest := Items(pat, ep + 1).items;
      Head(here.items, Opt(k), rest);
      PreferredMatches(rest, src, s + 1, r.end);
    }
  }

  lemma OptSkipped(pat: seq<Byte>, src: seq<Byte>, s: nat, p: nat, ep: nat, m: bool)
    requires p < ep < |pat| && s <= |src| && Items(pat, p) != Captures &&
             ItemAt(pat, p) == Got(Opt(ClassAt(pat, p, ep)), ep + 1)
    requires Run(ClassAt(pat, p, ep), src, s, 1) == m &&
             (m && Items(pat, ep + 1).Good? ==> !CanMatch(Items(pat, ep + 1).items, src, s + 1))
    ensures Items(pat, ep + 1) != Captures && Leads(Items(pat, p), src, s, Items(pat, ep + 1), s)
  {
    hide ItemAt, ClassAt;
    ItemsStep(pat, p);
    var here, k := Items(pat, p), ClassAt(pat, p, ep);
    if here.Good? {
      var rest := Items(pat, ep + 1).items;
      Head(here.items, Opt(k), rest);
      forall r | Answers(Items(pat, ep + 1), src, s, r) ensures Answers(here, src, s, r) {
        if r.NotFound? { forall e: nat ensures !Matches(here.items, src, s, e) {} }
      }
    }
  }

  lemma StarDone(pat: seq<Byte>, src: seq<Byte>, s: nat, p: nat, ep: nat, r: Result)
    requires p < ep < |pat| && s <= |src| && Items(pat, p) != Captures &&
             ItemAt(pat, p) == Got(Star(ClassAt(pat, p, ep)), ep + 1)
    requires ManyAnswer(ClassAt(pat, p, ep), Items(pat, ep + 1), src, s, 0, r)
    ensures Answers(Items(pat, p), src, s, r)
  {
    hide ItemAt, ClassAt;
    ItemsStep(pat, p);
    var here, k := Items(pat, p), ClassAt(pat, p, ep);
    if here.Good? {
      var rest := Items(pat, ep + 1).items;
      Head(here.items, Star(k), rest);
      if r.NotFound? {
        forall e: nat ensures !Matches(here.items, src, s, e) {
          forall n: nat | Run(k, src, s, n) ensures !Matches(rest, src, s + n, e) { assert NoMatch(rest, src, s, n); }
        }
      }
    }
  }

  lemma PlusDone(pat: seq<Byte>, src: seq<Byte>, s: nat, p: nat, ep: nat, m: bool, r: Result)
    requires p < ep < |pat| && s <= |src| && Items(pat, p) != Captures &&
             ItemAt(pat, p) == Got(Plus(ClassAt(pat, p, ep)), ep + 1)
    requires if m then ManyAnswer(ClassAt(pat, p, ep), Items(pat, ep + 1), src, s, 1, r) else r.NotFound?
    requires !m ==> forall n: nat :: n >= 1 ==> !Run(ClassAt(pat, p, ep), src, s, n)
    ensures Answers(Items(pat, p), src, s, r)
  {
    hide ItemAt, ClassAt;
    ItemsStep(pat, p);
    var here, k := Items(pat, p), ClassAt(pat, p, ep);
    if here.Good? {
      var rest := Items(pat, ep + 1).items;
      Head(here.items, Plus(k), rest);
      if r.NotFound? {
        forall e: nat ensures !Matches(here.items, src, s, e) {
          forall n: nat | n >= 1 && Run(k, src, s, n) ensures !Matches(rest, src, s + n, e) { assert NoMatch(rest, src, s, n); }
        }
      }
    }
  }

  lemma LazyDone(pat: seq<Byte>, src: seq<Byte>, s: nat, p: nat, ep: nat, r: Result)
    requires p < ep < |pat| && s <= |src| && Items(pat, p) != Captures &&
             ItemAt(pat, p) == Got(Lazy(ClassAt(pat, p, ep)), ep + 1)
    requires LazyAnswer(ClassAt(pat, p, ep), Items(pat, ep + 1), src, s, r)
    ensures Answers(Items(pat, p), src, s, r)
  {
    hide ItemAt, ClassAt;
    ItemsStep(pat, p);
    var here, k := Items(pat, p), ClassAt(pat, p, ep);
    if here.Good? {
      var rest := Items(pat, ep + 1).items;
      Head(here.items, Lazy(k), rest);
      if r.NotFound? {
        forall e: nat ensures !Matches(here.items, src, s, e) {
          forall n: nat | Run(k, src, s, n) ensures !Matches(rest, src, s + n, e) { assert NoMatch(rest, src, s, n); }
        }
      }
    }
  }

  // ----- sets and balanced stretches -----

  ghost predicate Unbalanced(src: seq<Byte>, s: nat, x: Byte, y: Byte) {
    forall t: nat {:trigger Balanced(src, s, t, x, y)} :: !Balanced(src, s, t, x, y)
  }

  lemma SetIs(pat: seq<Byte>, p: nat, ec: nat, c: Byte)
    ensures var negated := At(pat, p + 1) == 94;
            InClass(c, SetAt(pat, p, ec)) == (InElems(c, Elems(pat, if negated then p + 2 else p + 1, ec)) != negated)
  {}

  lemma NoElems(pat: seq<Byte>, p: nat, ec: nat, c: Byte)
    requires p >= ec
    ensures !InElems(c, Elems(pat, p, ec))
  {}

  predicate InElems(c: Byte, elems: seq<Elem>) { exists e :: e in elems && InElem(c, e) }

  lemma ElemsStep(pat: seq<Byte>, p: nat, ec: nat, c: Byte)
    requires p < ec
    ensures InElems(c, Elems(pat, p, ec)) ==
            if At(pat, p) == ESC then InLetterClass(c, At(pat, p + 1)) || InElems(c, Elems(pat, p + 2, ec))
            else if At(pat, p + 1) == 45 && p + 2 < ec then At(pat, p) <= c <= At(pat, p + 2) || InElems(c, Elems(pat, p + 3, ec))
            else At(pat, p) == c || InElems(c, Elems(pat, p + 1, ec))
  {
    var all := Elems(pat, p, ec);
    assert all == [all[0]] + all[1..];
    assert all[0] in all;
    if InElems(c, all[1..]) {
      var e :| e in all[1..] && InElem(c, e);
      assert e in all;
    }
  }
}
