// The string table while it is given a new size (luaS_resize in lstring.c): every string stays on
// exactly one list, also while the list being moved hangs in the air.
module GcStrings {
  import opened GcHeap
  import opened GcInvariant

  // No string is on two lists, or twice on one.
  ghost predicate Apart(strt: seq<seq<Ref>>) {
    (forall b :: 0 <= b < |strt| ==> Distinct(strt[b])) && forall a, b, r :: 0 <= a < b < |strt| && r in strt[a] ==> r !in strt[b]
  }

  ghost predicate SameStrings(strt: seq<seq<Ref>>, strt': seq<seq<Ref>>) {
    forall r :: InStrt(strt', r) <==> InStrt(strt, r)
  }

  lemma NotElsewhere(strt: seq<seq<Ref>>, a: nat, b: nat, r: Ref)
    requires Apart(strt) && a < |strt| && b < |strt| && a != b && r in strt[a]
    ensures r !in strt[b]
  {}

  lemma Grown(strt: seq<seq<Ref>>, n: nat)
    requires Apart(strt)
    ensures Apart(strt + seq(n, _ => [])) && SameStrings(strt, strt + seq(n, _ => []))
  {
    var strt' := strt + seq(n, _ => []);
    forall r ensures InStrt(strt', r) <==> InStrt(strt, r) {
      if InStrt(strt, r) {
        var b :| 0 <= b < |strt| && r in strt[b];
        assert r in strt'[b];
      }
    }
  }

  // A list is taken off the table.
  lemma Detached(strt: seq<seq<Ref>>, i: nat)
    requires Apart(strt) && i < |strt|
    ensures Apart(strt[i := []] + [strt[i]]) && SameStrings(strt, strt[i := []] + [strt[i]])
  {
    var strt' := strt[i := []] + [strt[i]];
    forall r ensures InStrt(strt', r) <==> InStrt(strt, r) {
      if InStrt(strt, r) {
        var b :| 0 <= b < |strt| && r in strt[b];
        assert r in strt'[if b == i then |strt| else b];
      }
    }
  }

  // Its first string goes to the front of another list.
  lemma Chained(strt: seq<seq<Ref>>, p: seq<Ref>, b: nat)
    requires Apart(strt + [p]) && p != [] && b < |strt|
    ensures var strt' := strt[b := [p[0]] + strt[b]] + [p[1..]]; Apart(strt') && SameStrings(strt + [p], strt')
  {
    var was, strt' := strt + [p], strt[b := [p[0]] + strt[b]] + [p[1..]];
    assert was[|strt|] == p && was[b] == strt[b];
    assert p[0] !in p[1..] && p[0] !in strt[b];
    forall a | 0 <= a < |strt'| ensures Distinct(strt'[a]) {
      assert Distinct(was[a]);
      if a == b { FrontDistinct(p[0], strt[b]); }
    }
    forall r ensures InStrt(strt', r) <==> InStrt(was, r) { MovedThere(strt, p, b, r); }
    forall a, c, r | 0 <= a < c < |strt'| && r in strt'[a] ensures r !in strt'[c] {
      WasThere(strt, p, b, a, r);
      WasThere(strt, p, b, c, r);
    }
  }

  lemma WasThere(strt: seq<seq<Ref>>, p: seq<Ref>, b: nat, a: nat, r: Ref)
    requires p != [] && b < |strt| && a <= |strt|
    ensures r in (strt[b := [p[0]] + strt[b]] + [p[1..]])[a] ==> (r == p[0] && a == b) || r in (strt + [p])[a]
  {}

  lemma FrontDistinct(r: Ref, list: seq<Ref>)
    requires Distinct(list) && r !in list
    ensures Distinct([r] + list)
  {}

  lemma MovedThere(strt: seq<seq<Ref>>, p: seq<Ref>, b: nat, r: Ref)
    requires p != [] && b < |strt|
    ensures InStrt(strt[b := [p[0]] + strt[b]] + [p[1..]], r) <==> InStrt(strt + [p], r)
  {
    var was, strt' := strt + [p], strt[b := [p[0]] + strt[b]] + [p[1..]];
    if InStrt(was, r) {
      var a :| 0 <= a < |was| && r in was[a];
      if r == p[0] { assert r in strt'[b]; }
      else if a == |strt| { assert r in p[1..] && r in strt'[a]; }
      else { assert r in strt'[a]; }
    }
    if InStrt(strt', r) {
      var a :| 0 <= a < |strt'| && r in strt'[a];
      assert r in was[a] || r in was[|strt|];
    }
  }

  // The lists from n on are empty and can go.
  lemma Cut(strt: seq<seq<Ref>>, n: nat)
    requires Apart(strt) && n <= |strt| && forall b :: n <= b < |strt| ==> strt[b] == []
    ensures Apart(strt[..n]) && SameStrings(strt, strt[..n])
  {
    forall r ensures InStrt(strt[..n], r) <==> InStrt(strt, r) {
      if InStrt(strt, r) {
        var b :| 0 <= b < |strt| && r in strt[b];
        assert r in strt[..n][b];
      }
    }
  }

  // The strings on the lists before 'upto', and on those from 'size' on, are where their hash puts them.
  ghost predicate Placed(strt: seq<seq<Ref>>, hash: Ref -> nat, upto: nat, size: nat, newsize: nat)
    requires newsize > 0
  {
    forall b, r :: 0 <= b < |strt| && (b < upto || b >= size) && r in strt[b] ==> b == hash(r) % newsize
  }

  lemma InPlace(strt: seq<seq<Ref>>, hash: Ref -> nat, size: nat, newsize: nat, b: nat, r: Ref)
    requires newsize > 0 && Placed(strt, hash, size, size, newsize) && b < |strt| && r in strt[b]
    ensures b == hash(r) % newsize < newsize
  {}

  // After the last list the slice that vanishes is empty.
  lemma VanishingEmpty(strt: seq<seq<Ref>>, hash: Ref -> nat, size: nat, newsize: nat)
    requires newsize > 0 && Placed(strt, hash, size, size, newsize)
    ensures forall b :: newsize <= b < |strt| ==> strt[b] == []
    ensures forall b, r :: 0 <= b < |strt| && r in strt[b] ==> b == hash(r) % newsize
  {
    hide Placed;
    forall b, r | 0 <= b < |strt| && r in strt[b] ensures b == hash(r) % newsize { InPlace(strt, hash, size, newsize, b, r); }
    forall b | newsize <= b < |strt| ensures |strt[b]| == 0 {
      if |strt[b]| > 0 { InPlace(strt, hash, size, newsize, b, strt[b][0]); }
    }
  }

  // ----- the collector's lists -----

  lemma ListsApart(s: State)
    requires Inv(s)
    ensures Apart(s.strt)
  {}

  // No phase but the sweep of the strings looks at the table.
  lemma Resized(s: State, s': State)
    requires Inv(s) && s.phase != SweepString && s' == s.(strt := s'.strt) && Apart(s'.strt) &&
             SameStrings(s.strt, s'.strt)
    ensures Inv(s') && Collects(s, s')
  {
    forall b, r | 0 <= b < |s'.strt| && r in s'.strt[b] ensures r in s.heap && s.heap[r].body.Str? { assert InStrt(s'.strt, r); }
    forall r | r in s.heap ensures BodyEvolves(s.heap[r].body, s.heap[r].body) { SameBodyEvolves(s.heap[r].body); }
  }
}
