// The string table (lstring.c): equal strings are one object.  Chains are relinked in place.
module StringIntern {
  import opened BitMasks
  import opened GcHeap
  import opened GcInvariant
  import opened GcStrings

  type Byte = b: nat | b < 256

  const NULL: Ref := 0
  const MAX_INT: nat := 0x7FFF_FFFD

  datatype TString = TString(s: seq<Byte>, h: nat, next: Ref, dead: bool)

  type Mem = map<Ref, TString>

  // lmod
  function Lmod(h: nat, size: nat): nat
    requires size > 0
  {
    And(h, size - 1)
  }

  ghost predicate IsPower(size: nat) { exists n: nat :: size == Ones(n) + 1 }

  lemma LmodIs(h: nat, size: nat)
    requires IsPower(size)
    ensures Lmod(h, size) == h % size < size
  {
    var n: nat :| size == Ones(n) + 1;
    AndMod(h, n);
  }

  lemma DoublePower(size: nat)
    requires IsPower(size)
    ensures IsPower(size * 2) && (size > 1 ==> IsPower(size / 2))
  {
    var n: nat :| size == Ones(n) + 1;
    assert size * 2 == Ones(n + 1) + 1;
    if size > 1 { assert size / 2 == Ones(n - 1) + 1; }
  }

  // ----- chains -----

  function First(list: seq<Ref>, j: nat): Ref { if j < |list| then list[j] else NULL }

  ghost predicate ChainAt(mem: Mem, list: seq<Ref>, j: nat) {
    j < |list| && list[j] in mem && list[j] != NULL && mem[list[j]].next == First(list, j + 1)
  }

  ghost predicate ChainOK(mem: Mem, head: Ref, list: seq<Ref>) {
    head == First(list, 0) && forall j {:trigger ChainAt(mem, list, j)} :: 0 <= j < |list| ==> ChainAt(mem, list, j)
  }

  ghost predicate ChainsOK(mem: Mem, heads: seq<Ref>, lists: seq<seq<Ref>>) {
    |heads| == |lists| && forall b :: 0 <= b < |lists| ==> ChainOK(mem, heads[b], lists[b])
  }

  lemma ChainFacts(mem: Mem, head: Ref, list: seq<Ref>, j: nat)
    requires ChainOK(mem, head, list) && j < |list|
    ensures ChainAt(mem, list, j)
  {}

  // A chain sees its own links only.
  lemma SameChain(mem: Mem, mem': Mem, head: Ref, list: seq<Ref>)
    requires ChainOK(mem, head, list)
    requires forall r :: r in list && r in mem ==> r in mem' && mem'[r].next == mem[r].next
    ensures ChainOK(mem', head, list)
  {
    forall j | 0 <= j < |list| ensures ChainAt(mem', list, j) { ChainFacts(mem, head, list, j); }
  }

  lemma ChainRest(mem: Mem, head: Ref, list: seq<Ref>)
    requires ChainOK(mem, head, list) && list != []
    ensures head == list[0] && head in mem && head != NULL && ChainOK(mem, mem[head].next, list[1..])
  {
    ChainFacts(mem, head, list, 0);
    forall j | 0 <= j < |list| - 1 ensures ChainAt(mem, list[1..], j) { ChainFacts(mem, head, list, j + 1); }
  }

  // The first string of the chain that hangs in the air goes to the front of chain b.
  lemma ChainMoves(mem: Mem, heads: seq<Ref>, lists: seq<seq<Ref>>, p: Ref, rest: seq<Ref>, b: nat)
    requires ChainsOK(mem, heads, lists) && ChainOK(mem, p, rest) && rest != [] && b < |lists| && Apart(lists + [rest])
    ensures p == rest[0] && p in mem && p != NULL
    ensures var mem' := mem[p := mem[p].(next := heads[b])];
            ChainsOK(mem', heads[b := p], lists[b := [p] + lists[b]]) && ChainOK(mem', mem[p].next, rest[1..])
  {
    ChainRest(mem, p, rest);
    var all, mem' := lists + [rest], mem[p := mem[p].(next := heads[b])];
    assert all[|lists|] == rest && Distinct(all[|lists|]);
    assert p !in rest[1..];
    SameChain(mem, mem', mem[p].next, rest[1..]);
    var heads', lists' := heads[b := p], lists[b := [p] + lists[b]];
    forall c | 0 <= c < |lists| ensures ChainOK(mem', heads'[c], lists'[c]) {
      NotElsewhere(all, |lists|, c, p);
      assert all[c] == lists[c];
      SameChain(mem, mem', heads[c], lists[c]);
      if c == b { ChainGrows(mem', heads[b], lists[b], p); }
    }
  }

  lemma ChainGrows(mem: Mem, head: Ref, list: seq<Ref>, p: Ref)
    requires ChainOK(mem, head, list) && p in mem && p != NULL && mem[p].next == head
    ensures ChainOK(mem, p, [p] + list)
  {
    forall j | 0 <= j < |list| + 1 ensures ChainAt(mem, [p] + list, j) {
      if j > 0 { ChainFacts(mem, head, list, j - 1); }
    }
  }

  // The j-th string of chain b is unlinked and freed.
  lemma ChainShrinks(mem: Mem, heads: seq<Ref>, lists: seq<seq<Ref>>, b: nat, j: nat, mem': Mem)
    requires ChainsOK(mem, heads, lists) && Apart(lists) && b < |lists| && j < |lists[b]| && lists[b][j] in mem
    requires mem'.Keys == mem.Keys - {lists[b][j]}
    requires forall r :: r in mem' ==>
             mem'[r].next == if j > 0 && r == lists[b][j - 1] then mem[lists[b][j]].next else mem[r].next
    ensures ChainsOK(mem', if j == 0 then heads[b := mem[lists[b][0]].next] else heads, lists[b := lists[b][..j] + lists[b][j + 1..]])
  {
    var gone := lists[b][j];
    forall c | 0 <= c < |lists| && c != b ensures ChainOK(mem', heads[c], lists[c]) {
      NotElsewhere(lists, b, c, gone);
      if j > 0 { NotElsewhere(lists, b, c, lists[b][j - 1]); }
      SameChain(mem, mem', heads[c], lists[c]);
    }
    OneShrinks(mem, heads[b], lists[b], j, mem');
  }

  lemma OneShrinks(mem: Mem, head: Ref, list: seq<Ref>, j: nat, mem': Mem)
    requires ChainOK(mem, head, list) && Distinct(list) && j < |list| && list[j] in mem
    requires mem'.Keys == mem.Keys - {list[j]}
    requires forall r :: r in mem' ==>
             mem'[r].next == if j > 0 && r == list[j - 1] then mem[list[j]].next else mem[r].next
    ensures ChainOK(mem', if j == 0 then mem[list[0]].next else head, list[..j] + list[j + 1..])
  {
    var list' := list[..j] + list[j + 1..];
    ChainFacts(mem, head, list, j);
    forall i | 0 <= i < |list'| ensures ChainAt(mem', list', i) {
      ChainFacts(mem, head, list, if i < j then i else i + 1);
    }
  }

  // ----- the whole table -----

  datatype St = St(mem: Mem, heads: seq<Ref>, nuse: nat, unused: Ref, lists: seq<seq<Ref>>)

  // All strings but those of a chain that hangs in the air are on the list of their hash.
  ghost predicate Hashed(mem: Mem, lists: seq<seq<Ref>>) {
    forall b, r :: 0 <= b < |lists| && r in lists[b] ==> r in mem && b == mem[r].h % |lists|
  }

  // Equal strings are one object.
  ghost predicate OneEach(mem: Mem) {
    forall r, q :: r in mem && q in mem && mem[r].s == mem[q].s ==> r == q
  }

  ghost predicate OK(s: St, hashOf: seq<Byte> -> nat) {
    IsPower(|s.heads|) && ChainsOK(s.mem, s.heads, s.lists) && Apart(s.lists) && Hashed(s.mem, s.lists) &&
    OneEach(s.mem) &&
    (forall r :: r in s.mem <==> InStrt(s.lists, r)) &&
    (forall r :: r in s.mem ==> NULL < r < s.unused && s.mem[r].h == hashOf(s.mem[r].s)) &&
    s.unused > NULL && s.nuse == |s.mem|
  }

  // ----- what searching and changing the table rests on -----

  lemma Bucket(s: St, hashOf: seq<Byte> -> nat, h: nat)
    requires OK(s, hashOf)
    ensures |s.heads| == |s.lists| > 0 && Lmod(h, |s.heads|) == h % |s.heads| < |s.heads|
    ensures s.heads[h % |s.heads|] == First(s.lists[h % |s.heads|], 0)
  {
    LmodIs(h, |s.heads|);
  }

  lemma AtChain(s: St, hashOf: seq<Byte> -> nat, b: nat, j: nat)
    requires OK(s, hashOf) && b < |s.lists| && j < |s.lists[b]|
    ensures var r := s.lists[b][j]; r in s.mem && r != NULL && s.mem[r].next == First(s.lists[b], j + 1) && s.mem[r].h == hashOf(s.mem[r].s)
  {
    hide IsPower, Apart, Hashed, OneEach, InStrt;
    assert ChainOK(s.mem, s.heads[b], s.lists[b]);
    ChainFacts(s.mem, s.heads[b], s.lists[b], j);
  }

  // A string that is not on the list of its hash is not in the table.
  lemma NotThere(s: St, hashOf: seq<Byte> -> nat, str: seq<Byte>, j: nat)
    requires OK(s, hashOf) && |s.lists| > 0
    requires First(s.lists[hashOf(str) % |s.lists|], j) == NULL
    requires var b := hashOf(str) % |s.lists|;
             forall i :: 0 <= i < j && i < |s.lists[b]| ==> s.lists[b][i] in s.mem && s.mem[s.lists[b][i]].s != str
    ensures forall r :: r in s.mem ==> s.mem[r].s != str
  {
    var b := hashOf(str) % |s.lists|;
    if j < |s.lists[b]| { AtChain(s, hashOf, b, j); }
    forall r | r in s.mem ensures s.mem[r].s != str {
      assert InStrt(s.lists, r);
      var c :| 0 <= c < |s.lists| && r in s.lists[c];
      if c == b { var i :| 0 <= i < |s.lists[b]| && s.lists[b][i] == r; }
    }
  }

  lemma Recolored(s: St, hashOf: seq<Byte> -> nat, mem': Mem)
    requires OK(s, hashOf) && mem'.Keys == s.mem.Keys
    requires forall r :: r in s.mem ==> mem'[r].s == s.mem[r].s && mem'[r].h == s.mem[r].h && mem'[r].next == s.mem[r].next
    ensures OK(s.(mem := mem'), hashOf)
  {
    forall b | 0 <= b < |s.lists| ensures ChainOK(mem', s.heads[b], s.lists[b]) { SameChain(s.mem, mem', s.heads[b], s.lists[b]); }
    SameSize(s.mem.Keys, mem'.Keys);
    assert |mem'| == |mem'.Keys| && |s.mem| == |s.mem.Keys|;
  }

  lemma SameSize(a: set<Ref>, b: set<Ref>)
    requires a == b
    ensures |a| == |b|
  {}

  lemma Pushed(lists: seq<seq<Ref>>, b: nat, r: Ref)
    requires Apart(lists) && b < |lists| && !InStrt(lists, r)
    ensures Apart(lists[b := [r] + lists[b]]) &&
            forall q :: InStrt(lists[b := [r] + lists[b]], q) <==> InStrt(lists, q) || q == r
  {
    var lists' := lists[b := [r] + lists[b]];
    assert forall c :: 0 <= c < |lists| ==> r !in lists[c];
    FrontDistinct(r, lists[b]);
    forall q ensures InStrt(lists', q) <==> InStrt(lists, q) || q == r {
      if InStrt(lists, q) {
        var c :| 0 <= c < |lists| && q in lists[c];
        assert q in lists'[c];
      }
      if q == r { assert q in lists'[b]; }
    }
  }

  // A new string goes to the front of its list.
  lemma Entered(s: St, hashOf: seq<Byte> -> nat, str: seq<Byte>, b: nat)
    requires OK(s, hashOf) && (forall r :: r in s.mem ==> s.mem[r].s != str) && b < |s.lists| &&
             b == hashOf(str) % |s.lists| && |s.heads| == |s.lists|
    ensures var r := s.unused;
            OK(St(s.mem[r := TString(str, hashOf(str), s.heads[b], false)], s.heads[b := r], s.nuse + 1, r + 1, s.lists[b := [r] + s.lists[b]]), hashOf)
  {
    hide IsPower, Apart, ChainsOK, Hashed, OneEach, InStrt, Distinct, ChainOK;
    var r := s.unused;
    var mem' := s.mem[r := TString(str, hashOf(str), s.heads[b], false)];
    Pushed(s.lists, b, r);
    EnteredChains(s.mem, s.heads, s.lists, b, r, mem');
    EnteredHashed(s.mem, s.lists, b, r, mem');
    EnteredOne(s.mem, r, mem');
    assert mem'.Keys == s.mem.Keys + {r};
  }

  lemma EnteredChains(mem: Mem, heads: seq<Ref>, lists: seq<seq<Ref>>, b: nat, r: Ref, mem': Mem)
    requires ChainsOK(mem, heads, lists) && b < |lists| && r !in mem && r != NULL && !InStrt(lists, r)
    requires r in mem' && mem' == mem[r := mem'[r]] && mem'[r].next == heads[b]
    ensures ChainsOK(mem', heads[b := r], lists[b := [r] + lists[b]])
  {
    var heads', lists' := heads[b := r], lists[b := [r] + lists[b]];
    forall c | 0 <= c < |lists'| ensures ChainOK(mem', heads'[c], lists'[c]) {
      assert r !in lists[c];
      SameChain(mem, mem', heads[c], lists[c]);
      if c == b { ChainGrows(mem', heads[b], lists[b], r); }
    }
  }

  lemma EnteredHashed(mem: Mem, lists: seq<seq<Ref>>, b: nat, r: Ref, mem': Mem)
    requires Hashed(mem, lists) && b < |lists| && r !in mem && r in mem' && mem' == mem[r := mem'[r]] &&
             b == mem'[r].h % |lists|
    ensures Hashed(mem', lists[b := [r] + lists[b]])
  {
    var lists' := lists[b := [r] + lists[b]];
    forall c, q | 0 <= c < |lists'| && q in lists'[c] ensures q in mem' && c == mem'[q].h % |lists'| {
      assert q == r || q in lists[c];
    }
  }

  lemma EnteredOne(mem: Mem, r: Ref, mem': Mem)
    requires OneEach(mem) && r in mem' && mem' == mem[r := mem'[r]] && forall q :: q in mem ==> mem[q].s != mem'[r].s
    ensures OneEach(mem')
  {}

  lemma Shortened(lists: seq<seq<Ref>>, b: nat, j: nat)
    requires Apart(lists) && b < |lists| && j < |lists[b]|
    ensures var lists' := lists[b := lists[b][..j] + lists[b][j + 1..]];
            Apart(lists') && forall q :: InStrt(lists', q) <==> InStrt(lists, q) && q != lists[b][j]
  {
    var gone, list := lists[b][j], lists[b][..j] + lists[b][j + 1..];
    var lists' := lists[b := list];
    assert Distinct(lists[b]);
    assert forall q :: q in list ==> q in lists[b] && q != gone;
    forall q ensures InStrt(lists', q) <==> InStrt(lists, q) && q != gone {
      if InStrt(lists', q) {
        var c :| 0 <= c < |lists'| && q in lists'[c];
        assert q in lists[c];
        if c != b { NotElsewhere(lists, b, c, gone); }
      }
      if InStrt(lists, q) && q != gone {
        var c :| 0 <= c < |lists| && q in lists[c];
        if c == b {
          var i :| 0 <= i < |lists[b]| && lists[b][i] == q;
          assert list[if i < j then i else i - 1] == q;
        }
        assert q in lists'[c];
      }
    }
  }

  // A dead string is freed.
  lemma Freed(s: St, hashOf: seq<Byte> -> nat, b: nat, j: nat, s': St)
    requires OK(s, hashOf) && b < |s.lists| && |s.heads| == |s.lists| && j < |s.lists[b]| && s.lists[b][j] in s.mem &&
             s.nuse > 0
    requires j > 0 ==> s.lists[b][j - 1] in s.mem && s.lists[b][j - 1] != s.lists[b][j]
    requires var p, mem := s.lists[b][j], s.mem;
             s' == St((if j == 0 then mem else mem[s.lists[b][j - 1] := mem[s.lists[b][j - 1]].(next := mem[p].next)]) - {p},
                      if j == 0 then s.heads[b := mem[p].next] else s.heads, s.nuse - 1, s.unused, s.lists[b := s.lists[b][..j] + s.lists[b][j + 1..]])
    ensures OK(s', hashOf)
  {
    hide IsPower, Apart, ChainsOK, Hashed, OneEach, InStrt;
    var p := s.lists[b][j];
    ChainShrinks(s.mem, s.heads, s.lists, b, j, s'.mem);
    Shortened(s.lists, b, j);
    assert s'.mem.Keys == s.mem.Keys - {p};
    FewerHashed(s.mem, s.lists, s'.mem, s'.lists);
    FewerOne(s.mem, s'.mem);
  }

  lemma FewerHashed(mem: Mem, lists: seq<seq<Ref>>, mem': Mem, lists': seq<seq<Ref>>)
    requires Hashed(mem, lists) && |lists'| == |lists| && forall r :: r in mem' ==> r in mem && mem'[r].h == mem[r].h
    requires (forall c, r :: 0 <= c < |lists| && r in lists'[c] ==> r in lists[c]) &&
             forall r :: InStrt(lists', r) ==> r in mem'
    ensures Hashed(mem', lists')
  {
    forall c, r | 0 <= c < |lists'| && r in lists'[c] ensures r in mem' && c == mem'[r].h % |lists'| { assert InStrt(lists', r); }
  }

  lemma FewerOne(mem: Mem, mem': Mem)
    requires OneEach(mem) && forall r :: r in mem' ==> r in mem && mem'[r].s == mem[r].s
    ensures OneEach(mem')
  {}

  // Strings stay what they are, and alive.
  ghost predicate Kept(mem: Mem, mem': Mem) {
    forall r :: r in mem ==> r in mem' && mem'[r].s == mem[r].s && (!mem[r].dead ==> !mem'[r].dead)
  }

  // ----- changing the size -----

  ghost predicate OnlyLinks(mem: Mem, mem': Mem) {
    mem'.Keys == mem.Keys && forall r :: r in mem ==> mem'[r].s == mem[r].s && mem'[r].h == mem[r].h && mem'[r].dead == mem[r].dead
  }

  function HashIn(mem: Mem): Ref -> nat { (r: Ref) => if r in mem then mem[r].h else 0 }

  lemma ChainsGrow(mem: Mem, heads: seq<Ref>, lists: seq<seq<Ref>>, n: nat)
    requires ChainsOK(mem, heads, lists)
    ensures ChainsOK(mem, heads + seq(n, _ => NULL), lists + seq(n, _ => []))
  {}

  lemma ChainDetached(mem: Mem, heads: seq<Ref>, lists: seq<seq<Ref>>, i: nat)
    requires ChainsOK(mem, heads, lists) && i < |lists|
    ensures ChainsOK(mem, heads[i := NULL], lists[i := []]) && ChainOK(mem, heads[i], lists[i])
  {}

  lemma ChainsCut(mem: Mem, heads: seq<Ref>, lists: seq<seq<Ref>>, n: nat)
    requires ChainsOK(mem, heads, lists) && n <= |lists|
    ensures ChainsOK(mem, heads[..n], lists[..n])
  {}

  lemma NotYetPlaced(mem: Mem, lists: seq<seq<Ref>>, size: nat, newsize: nat)
    requires newsize > 0 && forall b :: size <= b < |lists| ==> lists[b] == []
    ensures Placed(lists, HashIn(mem), 0, size, newsize)
  {}

  // A string is moved to where its hash says.
  lemma PlacedOne(lists: seq<seq<Ref>>, hash: Ref -> nat, upto: nat, size: nat, newsize: nat, p: Ref)
    requires newsize > 0 && newsize <= |lists| && Placed(lists, hash, upto, size, newsize)
    ensures Placed(lists[hash(p) % newsize := [p] + lists[hash(p) % newsize]], hash, upto, size, newsize)
  {}

  lemma PlacedOff(lists: seq<seq<Ref>>, hash: Ref -> nat, i: nat, size: nat, newsize: nat)
    requires newsize > 0 && i < size <= |lists| && Placed(lists, hash, i, size, newsize)
    ensures Placed(lists[i := []], hash, i + 1, size, newsize)
  {}

  lemma EndOfRest(mem: Mem, p: Ref, rest: seq<Ref>)
    requires ChainOK(mem, p, rest)
    ensures p == NULL <==> rest == []
  {
    if rest != [] { ChainRest(mem, p, rest); }
  }

  lemma Rehashed(s: St, hashOf: seq<Byte> -> nat, s': St)
    requires OK(s, hashOf) && s' == s.(mem := s'.mem, heads := s'.heads, lists := s'.lists) && OnlyLinks(s.mem, s'.mem)
    requires IsPower(|s'.heads|) && ChainsOK(s'.mem, s'.heads, s'.lists) && Apart(s'.lists) &&
             SameStrings(s.lists, s'.lists)
    requires |s'.lists| > 0 && forall b, r :: 0 <= b < |s'.lists| && r in s'.lists[b] ==>
                                               b == HashIn(s.mem)(r) % |s'.lists|
    ensures OK(s', hashOf)
  {
    hide IsPower, Apart, ChainsOK, Hashed, OneEach, InStrt;
    NowHashed(s.mem, s'.mem, s'.lists);
    FewerOne(s.mem, s'.mem);
    SameSize(s.mem.Keys, s'.mem.Keys);
    assert |s.mem| == |s.mem.Keys| && |s'.mem| == |s'.mem.Keys|;
  }

  lemma NowHashed(mem: Mem, mem': Mem, lists: seq<seq<Ref>>)
    requires OnlyLinks(mem, mem') && |lists| > 0 && forall b, r :: 0 <= b < |lists| && r in lists[b] ==> b == HashIn(mem)(r) % |lists|
    requires forall r :: InStrt(lists, r) ==> r in mem
    ensures Hashed(mem', lists)
  {
    forall b, r | 0 <= b < |lists| && r in lists[b] ensures r in mem' && b == mem'[r].h % |lists| {
      assert InStrt(lists, r);
      assert HashIn(mem)(r) == mem[r].h;
    }
  }

  // The dead strings of the list are gone, and the others are what they were.
  ghost predicate Swept(mem: Mem, list: seq<Ref>, mem': Mem) {
    (forall r :: r in mem' <==> r in mem && !(r in list && mem[r].dead)) &&
    forall r :: r in mem' ==> mem'[r].s == mem[r].s && mem'[r].dead == mem[r].dead
  }

  lemma StillAbsent(mem: Mem, mem1: Mem, s: seq<Byte>)
    requires OnlyLinks(mem, mem1) && forall q :: q in mem ==> mem[q].s != s
    ensures forall q :: q in mem1 ==> mem1[q].s != s
  {}

  lemma OneAdded(mem: Mem, mem1: Mem, mem2: Mem, r: Ref)
    requires OnlyLinks(mem, mem1) && r !in mem1 && r in mem2 && mem2 == mem1[r := mem2[r]]
    ensures Kept(mem, mem2) && mem2.Keys == mem.Keys + {r}
  {}

  lemma SweptOneMore(mem: Mem, list: seq<Ref>, i: nat, mem1: Mem, mem2: Mem)
    requires i < |list| && Swept(mem, list[..i], mem1) && list[i] in mem1
    requires mem2.Keys == if mem1[list[i]].dead then mem1.Keys - {list[i]} else mem1.Keys
    requires forall r :: r in mem2 ==> mem2[r].s == mem1[r].s && mem2[r].dead == mem1[r].dead
    ensures Swept(mem, list[..i + 1], mem2)
  {
    assert list[..i + 1] == list[..i] + [list[i]];
  }

  class StringTable {
    const hashOf: seq<Byte> -> nat
    var mem: Mem
    var hash: seq<Ref>
    var nuse: nat
    var unused: Ref  // the next address to be given out
    ghost var lists: seq<seq<Ref>>

    ghost function Snap(): St
      reads this
    {
      St(mem, hash, nuse, unused, lists)
    }

    ghost predicate Valid()
      reads this
    {
      OK(Snap(), hashOf)
    }

    // luaS_resize(L, MINSTRTABSIZE) in lua_newstate
    constructor (hashOf: seq<Byte> -> nat)
      ensures Valid() && mem == map[] && nuse == 0 && |hash| == 32
    {
      this.hashOf, mem, hash, nuse, unused := hashOf, map[], seq(32, _ => NULL), 0, 1;
      lists := seq(32, _ => []);
      assert 32 == Ones(5) + 1;
    }

    // luaS_newlstr
    method NewLStr(s: seq<Byte>) returns (r: Ref)
      requires Valid()
      modifies this
      ensures Valid() && r in mem && mem[r].s == s && !mem[r].dead && Kept(old(mem), mem)
      ensures forall q :: q in mem ==> q in old(mem) || q == r
    {
      hide OK, Lmod;
      var h := hashOf(s);
      Bucket(Snap(), hashOf, h);
      ghost var b := h % |hash|;
      ghost var j := 0;
      var o := hash[Lmod(h, |hash|)];
      while o != NULL
        invariant Snap() == old(Snap()) && j <= |lists[b]| && o == First(lists[b], j)
        invariant forall i :: 0 <= i < j ==> lists[b][i] in mem && mem[lists[b][i]].s != s
        decreases |lists[b]| - j
      {
        AtChain(Snap(), hashOf, b, j);
        var ts := mem[o];
        if h == ts.h && ts.s == s {
          if ts.dead {
            Recolored(Snap(), hashOf, mem[o := ts.(dead := false)]);
            mem := mem[o := ts.(dead := false)];
          }
          return o;
        }
        o := ts.next;
        j := j + 1;
      }
      NotThere(Snap(), hashOf, s, j);
      r := NewString(s, h);
    }

    // newlstr
    method NewString(s: seq<Byte>, h: nat) returns (r: Ref)
      requires Valid() && h == hashOf(s) && forall q :: q in mem ==> mem[q].s != s
      modifies this
      ensures Valid() && r in mem && mem[r].s == s && !mem[r].dead && Kept(old(mem), mem) &&
              mem.Keys == old(mem).Keys + {r} && nuse == old(nuse) + 1
      ensures |hash| == if old(nuse) >= |old(hash)| && |old(hash)| <= 0x3FFF_FFFE then 2 * |old(hash)| else |old(hash)|
    {
      hide OK, Lmod, IsPower, OnlyLinks, Kept;
      ghost var mem0 := mem;
      GrowIfFull();
      ghost var mem1 := mem;
      StillAbsent(mem0, mem1, s);
      Bucket(Snap(), hashOf, h);
      Unused(Snap(), hashOf);
      Entered(Snap(), hashOf, s, h % |hash|);
      var b := Lmod(h, |hash|);
      r := unused;
      mem := mem[r := TString(s, h, hash[b], false)];
      hash := hash[b := r];
      lists := lists[b := [r] + lists[b]];
      nuse, unused := nuse + 1, unused + 1;
      OneAdded(mem0, mem1, mem, r);
    }

    // 'too crowded'
    method GrowIfFull()
      requires Valid()
      modifies this`mem, this`hash, this`lists
      ensures Valid() && OnlyLinks(old(mem), mem)
      ensures |hash| == if old(nuse) >= |old(hash)| && |old(hash)| <= 0x3FFF_FFFE then 2 * |old(hash)| else |old(hash)|
    {
      hide OK, IsPower;
      SizeIsPower(Snap(), hashOf);
      if nuse >= |hash| && |hash| <= MAX_INT / 2 { Resize(|hash| * 2); }
    }

    // luaS_resize, while the collector is not at the strings
    method Resize(newsize: nat)
      requires Valid() && IsPower(newsize)
      modifies this`mem, this`hash, this`lists
      ensures Valid() && |hash| == newsize && OnlyLinks(old(mem), mem)
    {
      hide OK, ChainsOK, ChainOK, Apart, SameStrings, Placed, IsPower, Lmod;
      ghost var s, hs := Snap(), HashIn(mem);
      Parts(s, hashOf);
      PowerPositive(newsize);
      var size := |hash|;
      if newsize > size {
        ChainsGrow(mem, hash, lists, newsize - size);
        Grown(lists, newsize - size);
        hash := hash + seq(newsize - size, _ => NULL);
        lists := lists + seq(newsize - size, _ => []);
      }
      NotYetPlaced(mem, lists, size, newsize);
      ghost var n := |hash|;
      var i := 0;
      while i < size
        invariant i <= size <= n && newsize <= n == |hash| == |lists| && OnlyLinks(s.mem, mem)
        invariant ChainsOK(mem, hash, lists) && Apart(lists) && SameStrings(s.lists, lists) &&
                  Placed(lists, hs, i, size, newsize)
      {
        ChainDetached(mem, hash, lists, i);
        Detached(lists, i);
        PlacedOff(lists, hs, i, size, newsize);
        var p := hash[i];
        ghost var rest, was, mem0 := lists[i], lists, mem;
        hash := hash[i := NULL];
        lists := lists[i := []];
        SameTrans(s.lists, was, lists + [rest]);
        ghost var now := lists + [rest];
        RehashChain(p, newsize, rest, hs, i + 1, size);
        SameTrans(s.lists, now, lists);
        LinksTrans(s.mem, mem0, mem);
        i := i + 1;
      }
      VanishingEmpty(lists, hs, size, newsize);
      Cut(lists, newsize);
      ChainsCut(mem, hash, lists, newsize);
      SameTrans(s.lists, lists, lists[..newsize]);
      hash, lists := hash[..newsize], lists[..newsize];
      Rehashed(s, hashOf, Snap());
    }

    // The inner loop: the strings of one chain, which has been taken off, go where their hash says.
    method RehashChain(p: Ref, newsize: nat, ghost rest: seq<Ref>, ghost hs: Ref -> nat, ghost upto: nat,
                       ghost size: nat)
      requires IsPower(newsize) && 0 < newsize <= |hash| == |lists| && (forall r :: r in mem ==> hs(r) == mem[r].h)
      requires ChainsOK(mem, hash, lists) && ChainOK(mem, p, rest) && Apart(lists + [rest]) &&
               Placed(lists, hs, upto, size, newsize)
      modifies this`mem, this`hash, this`lists
      ensures ChainsOK(mem, hash, lists) && Apart(lists) && Placed(lists, hs, upto, size, newsize)
      ensures SameStrings(old(lists) + [rest], lists) && OnlyLinks(old(mem), mem) && |hash| == |lists| == |old(hash)|
    {
      hide ChainsOK, ChainOK, Apart, SameStrings, Placed, IsPower, Lmod;
      ghost var all, left := lists + [rest], rest;
      SameRefl(all);
      var o := p;
      EndOfRest(mem, o, left);
      while o != NULL
        invariant |hash| == |lists| == |old(hash)| && OnlyLinks(old(mem), mem) && (o == NULL <==> left == [])
        invariant ChainsOK(mem, hash, lists) && ChainOK(mem, o, left) && Apart(lists + [left]) &&
                  SameStrings(all, lists + [left])
        invariant Placed(lists, hs, upto, size, newsize)
        decreases |left|
      {
        ChainRest(mem, o, left);
        LmodIs(mem[o].h, newsize);
        var h := Lmod(mem[o].h, newsize);
        ChainMoves(mem, hash, lists, o, left, h);
        Chained(lists, left, h);
        PlacedOne(lists, hs, upto, size, newsize, o);
        SameTrans(all, lists + [left], lists[h := [o] + lists[h]] + [left[1..]]);
        var next := mem[o].next;
        mem := mem[o := mem[o].(next := hash[h])];
        hash := hash[h := o];
        lists := lists[h := [o] + lists[h]];
        left := left[1..];
        o := next;
        EndOfRest(mem, o, left);
      }
      NothingLeft(lists, left, all);
    }

    // checkSizes
    method CheckSizes()
      requires Valid()
      modifies this`mem, this`hash, this`lists
      ensures Valid() && OnlyLinks(old(mem), mem)
      ensures |hash| == if old(nuse) < |old(hash)| / 2 then |old(hash)| / 2 else |old(hash)|
    {
      hide OK, IsPower;
      SizeIsPower(Snap(), hashOf);
      var hs := |hash| / 2;
      if nuse < hs { Resize(hs); }
    }

    // sweepwholelist on one list: exactly its dead strings are freed
    method SweepList(b: nat)
      requires Valid() && b < |hash|
      modifies this
      ensures Valid() && b < |old(lists)| && Swept(old(mem), old(lists[b]), mem)
      ensures Kept(map r | r in old(mem) && !old(mem)[r].dead :: old(mem)[r], mem)
    {
      hide OK;
      HeadOf(Snap(), hashOf, b);
      var prev, p := NULL, hash[b];
      ghost var j, i, mem0, list := 0, 0, mem, lists[b];
      while p != NULL
        invariant Valid() && b < |hash| == |lists| && j <= |lists[b]| && p == First(lists[b], j) &&
                  prev == (if j == 0 then NULL else lists[b][j - 1])
        invariant i <= |list| && lists[b][j..] == list[i..] && Swept(mem0, list[..i], mem)
        decreases |lists[b]| - j
      {
        hide Swept;
        AtChain(Snap(), hashOf, b, j);
        SweepFacts(Snap(), hashOf, b, j);
        ghost var mem1 := mem;
        assert list[i..][0] == p && list[i..][1..] == list[i + 1..] == lists[b][j..][1..];
        var next := mem[p].next;
        if mem[p].dead {
          Free(b, prev, p, j);
        } else {
          prev := p;
          j := j + 1;
        }
        SweptOneMore(mem0, list, i, mem1, mem);
        i := i + 1;
        p := next;
      }
      ChainEnds(Snap(), hashOf, b, j);
      assert lists[b][j..] == [] && list[..i] == list;
    }

    // '*p = curr->next' and freeobj
    method Free(b: nat, prev: Ref, p: Ref, ghost j: nat)
      requires Valid() && b < |hash| == |lists| && j < |lists[b]| && p == lists[b][j] && p in mem && nuse > 0
      requires prev == (if j == 0 then NULL else lists[b][j - 1]) &&
               (j > 0 ==> prev in mem && prev != p && prev != NULL)
      modifies this`mem, this`hash, this`nuse, this`lists
      ensures Valid() && |hash| == |old(hash)| && lists == old(lists)[b := old(lists[b])[..j] + old(lists[b])[j + 1..]]
      ensures mem.Keys == old(mem).Keys - {p} && forall r :: r in mem ==> mem[r].s == old(mem)[r].s && mem[r].dead == old(mem)[r].dead
    {
      hide OK;
      ghost var s := Snap();
      var next := mem[p].next;
      if prev == NULL { hash := hash[b := next]; } else { mem := mem[prev := mem[prev].(next := next)]; }
      mem := mem - {p};
      nuse := nuse - 1;
      lists := lists[b := lists[b][..j] + lists[b][j + 1..]];
      Freed(s, hashOf, b, j, Snap());
    }

    // The collector has found that only 'held' is still in use.
    method Collect(held: set<Ref>)
      requires Valid()
      modifies this`mem
      ensures Valid() && mem.Keys == old(mem).Keys && forall r :: r in mem ==> mem[r].s == old(mem)[r].s && (r in held ==> mem[r].dead == old(mem)[r].dead)
    {
      hide OK;
      ghost var s := Snap();
      mem := map r | r in mem :: if r in held then mem[r] else mem[r].(dead := true);
      Recolored(s, hashOf, mem);
    }

    // Whatever is interned, dropped, marked, swept and resized: of the results that are still held,
    // two are the same object exactly if their strings are equal.
    method Run(cmds: seq<Cmd>) returns (refs: seq<Ref>)
      requires Valid()
      modifies this
      ensures Valid() && Holds(mem, refs, Interned(cmds), HeldAfter(cmds))
      ensures var strs, held := Interned(cmds), HeldAfter(cmds);
              |refs| == |strs| && forall i, j :: 0 <= i < |refs| && 0 <= j < |refs| && i in held && j in held ==> (refs[i] == refs[j] <==> strs[i] == strs[j])
    {
      hide OK, Holds, Interned, HeldAfter, Kept, OnlyLinks;
      refs := [];
      Begin(mem);
      assert cmds[..0] == [];
      for k := 0 to |cmds|
        invariant Valid() && |refs| == |Interned(cmds[..k])| &&
                  Holds(mem, refs, Interned(cmds[..k]), HeldAfter(cmds[..k]))
      {
        OneMore(cmds, k);
        ghost var strs := Interned(cmds[..k]);
        var held := HeldAfter(cmds[..k]);
        match cmds[k] {
          case Intern(s) =>
            var r := InternOne(s, refs, strs, held);
            refs := refs + [r];
          case Drop(i) => HoldsLess(mem, refs, strs, held, i);
          case Mark => MarkHeld(refs, strs, held);
          case Sweep(b) => SweepSome(b, refs, strs, held);
          case Shrink => ShrinkTable(refs, strs, held);
        }
      }
      assert cmds[..|cmds|] == cmds;
      SameIffEqual(Snap(), hashOf, refs, Interned(cmds), HeldAfter(cmds));
    }

    method InternOne(s: seq<Byte>, ghost refs: seq<Ref>, ghost strs: seq<seq<Byte>>, ghost held: set<nat>)
      returns (r: Ref)
      requires Valid() && Holds(mem, refs, strs, held)
      modifies this
      ensures Valid() && Holds(mem, refs + [r], strs + [s], held + {|refs|})
    {
      hide OK, Holds;
      ghost var mem0 := mem;
      r := NewLStr(s);
      HoldsKept(mem0, mem, refs, strs, held);
      HoldsMore(mem, refs, strs, held, r);
    }

    method MarkHeld(refs: seq<Ref>, ghost strs: seq<seq<Byte>>, held: set<nat>)
      requires Valid() && Holds(mem, refs, strs, held)
      modifies this`mem
      ensures Valid() && Holds(mem, refs, strs, held)
    {
      hide OK, Holds;
      ghost var mem0 := mem;
      Collect(set i | 0 <= i < |refs| && i in held :: refs[i]);
      HoldsKept(mem0, mem, refs, strs, held);
    }

    method SweepSome(b: nat, ghost refs: seq<Ref>, ghost strs: seq<seq<Byte>>, ghost held: set<nat>)
      requires Valid() && Holds(mem, refs, strs, held)
      modifies this
      ensures Valid() && Holds(mem, refs, strs, held)
    {
      hide OK, Holds;
      if b < |hash| {
        ghost var mem0 := mem;
        SweepList(b);
        HoldsKept(mem0, mem, refs, strs, held);
      }
    }

    method ShrinkTable(ghost refs: seq<Ref>, ghost strs: seq<seq<Byte>>, ghost held: set<nat>)
      requires Valid() && Holds(mem, refs, strs, held)
      modifies this`mem, this`hash, this`lists
      ensures Valid() && Holds(mem, refs, strs, held)
    {
      hide OK, Holds;
      ghost var mem0 := mem;
      CheckSizes();
      HoldsKept(mem0, mem, refs, strs, held);
    }
  }

  lemma Begin(mem: Mem)
    ensures Interned([]) == [] && HeldAfter([]) == {} && Holds(mem, [], [], {})
  {}

  lemma SizeIsPower(s: St, hashOf: seq<Byte> -> nat)
    requires OK(s, hashOf)
    ensures IsPower(|s.heads|) && |s.heads| > 0 && IsPower(|s.heads| * 2) && (|s.heads| > 1 ==> IsPower(|s.heads| / 2))
  {
    DoublePower(|s.heads|);
  }

  lemma PowerPositive(n: nat)
    requires IsPower(n)
    ensures n > 0
  {}

  lemma Unused(s: St, hashOf: seq<Byte> -> nat)
    requires OK(s, hashOf)
    ensures s.unused !in s.mem
  {}

  lemma Parts(s: St, hashOf: seq<Byte> -> nat)
    requires OK(s, hashOf)
    ensures ChainsOK(s.mem, s.heads, s.lists) && Apart(s.lists) && SameStrings(s.lists, s.lists) &&
            |s.heads| == |s.lists|
  {}

  lemma SameRefl(a: seq<seq<Ref>>)
    ensures SameStrings(a, a)
  {}

  lemma LinksTrans(a: Mem, b: Mem, c: Mem)
    requires OnlyLinks(a, b) && OnlyLinks(b, c)
    ensures OnlyLinks(a, c)
  {}

  lemma SameTrans(a: seq<seq<Ref>>, b: seq<seq<Ref>>, c: seq<seq<Ref>>)
    requires SameStrings(a, b) && SameStrings(b, c)
    ensures SameStrings(a, c)
  {}

  lemma NothingLeft(lists: seq<seq<Ref>>, rest: seq<Ref>, all: seq<seq<Ref>>)
    requires Apart(lists + [rest]) && SameStrings(all, lists + [rest]) && rest == []
    ensures Apart(lists) && SameStrings(all, lists)
  {
    Cut(lists + [rest], |lists|);
    assert (lists + [rest])[..|lists|] == lists;
  }

  lemma HeadOf(s: St, hashOf: seq<Byte> -> nat, b: nat)
    requires OK(s, hashOf) && b < |s.heads|
    ensures |s.lists| == |s.heads| && s.heads[b] == First(s.lists[b], 0)
  {}

  lemma ChainEnds(s: St, hashOf: seq<Byte> -> nat, b: nat, j: nat)
    requires OK(s, hashOf) && b < |s.lists| && j <= |s.lists[b]| && First(s.lists[b], j) == NULL
    ensures j == |s.lists[b]|
  {
    if j < |s.lists[b]| { AtChain(s, hashOf, b, j); }
  }

  lemma SweepFacts(s: St, hashOf: seq<Byte> -> nat, b: nat, j: nat)
    requires OK(s, hashOf) && b < |s.lists| && j < |s.lists[b]| && s.lists[b][j] in s.mem
    ensures s.nuse > 0 && (j > 0 ==> s.lists[b][j - 1] in s.mem && s.lists[b][j - 1] != s.lists[b][j] && s.lists[b][j - 1] != NULL)
    ensures First(s.lists[b][..j] + s.lists[b][j + 1..], j) == First(s.lists[b], j + 1)
  {
    assert |s.mem| == 0 ==> s.mem == map[];
    assert Distinct(s.lists[b]);
    if j > 0 { AtChain(s, hashOf, b, j - 1); }
  }

  // ----- whole runs -----

  datatype Cmd = Intern(s: seq<Byte>) | Drop(i: nat) | Mark | Sweep(b: nat) | Shrink

  function Interned(cmds: seq<Cmd>): seq<seq<Byte>> {
    if cmds == [] then []
    else
      var c := cmds[|cmds| - 1];
      if c.Intern? then Interned(cmds[..|cmds| - 1]) + [c.s] else Interned(cmds[..|cmds| - 1])
  }

  // Which results have not been dropped.
  function HeldAfter(cmds: seq<Cmd>): set<nat> {
    if cmds == [] then {}
    else
      var front, c := cmds[..|cmds| - 1], cmds[|cmds| - 1];
      if c.Intern? then HeldAfter(front) + {|Interned(front)|} else if c.Drop? then HeldAfter(front) - {c.i} else HeldAfter(front)
  }

  lemma OneMore(cmds: seq<Cmd>, i: nat)
    requires i < |cmds|
    ensures Interned(cmds[..i + 1]) == if cmds[i].Intern? then Interned(cmds[..i]) + [cmds[i].s] else Interned(cmds[..i])
    ensures HeldAfter(cmds[..i + 1]) == if cmds[i].Intern? then HeldAfter(cmds[..i]) + {|Interned(cmds[..i])|}
                                        else if cmds[i].Drop? then HeldAfter(cmds[..i]) - {cmds[i].i} else HeldAfter(cmds[..i])
  {
    assert cmds[..i + 1][..i] == cmds[..i];
  }

  // The i-th result, if it is still held, is the object of its string, and alive.
  ghost predicate HoldsAt(mem: Mem, refs: seq<Ref>, strs: seq<seq<Byte>>, held: set<nat>, i: nat) {
    i in held ==> i < |refs| == |strs| && refs[i] in mem && mem[refs[i]].s == strs[i] && !mem[refs[i]].dead
  }

  ghost predicate Holds(mem: Mem, refs: seq<Ref>, strs: seq<seq<Byte>>, held: set<nat>) {
    |refs| == |strs| && forall i: nat {:trigger HoldsAt(mem, refs, strs, held, i)} :: HoldsAt(mem, refs, strs, held, i)
  }

  lemma HoldsKept(mem: Mem, mem': Mem, refs: seq<Ref>, strs: seq<seq<Byte>>, held: set<nat>)
    requires Holds(mem, refs, strs, held)
    requires forall i :: 0 <= i < |refs| && i in held && refs[i] in mem && !mem[refs[i]].dead ==>
               refs[i] in mem' && mem'[refs[i]].s == mem[refs[i]].s && !mem'[refs[i]].dead
    ensures Holds(mem', refs, strs, held)
  {
    forall i: nat ensures HoldsAt(mem', refs, strs, held, i) { assert HoldsAt(mem, refs, strs, held, i); }
  }

  lemma HoldsMore(mem: Mem, refs: seq<Ref>, strs: seq<seq<Byte>>, held: set<nat>, r: Ref)
    requires Holds(mem, refs, strs, held) && r in mem && !mem[r].dead
    ensures Holds(mem, refs + [r], strs + [mem[r].s], held + {|refs|})
  {
    forall i: nat ensures HoldsAt(mem, refs + [r], strs + [mem[r].s], held + {|refs|}, i) { assert HoldsAt(mem, refs, strs, held, i); }
  }

  lemma HoldsLess(mem: Mem, refs: seq<Ref>, strs: seq<seq<Byte>>, held: set<nat>, i: nat)
    requires Holds(mem, refs, strs, held)
    ensures Holds(mem, refs, strs, held - {i})
  {
    forall j: nat ensures HoldsAt(mem, refs, strs, held - {i}, j) { assert HoldsAt(mem, refs, strs, held, j); }
  }

  // Two results that are still held are the same object exactly if their strings are equal.
  lemma SameIffEqual(s: St, hashOf: seq<Byte> -> nat, refs: seq<Ref>, strs: seq<seq<Byte>>, held: set<nat>)
    requires OK(s, hashOf) && Holds(s.mem, refs, strs, held)
    ensures forall i, j :: 0 <= i < |refs| && 0 <= j < |refs| && i in held && j in held ==> (refs[i] == refs[j] <==> strs[i] == strs[j])
  {
    forall i, j | 0 <= i < |refs| && 0 <= j < |refs| && i in held && j in held ensures refs[i] == refs[j] <==> strs[i] == strs[j] {
      assert HoldsAt(s.mem, refs, strs, held, i) && HoldsAt(s.mem, refs, strs, held, j);
    }
  }
}
