// How patterns are written (Lua 5.2 Reference Manual, section 6.4.1): the text of a list of items, and
// that reading a text gives the items back.
module MatchWritten {
  import opened Common
  import opened MatchPatterns
  import opened MatchSearch

  function ElemText(e: Elem): (t: seq<Byte>)
    ensures |t| > 0
  {
    match e
    case Letter(cl) => ['%' as int, cl]
    case Range(lo, hi) => [lo, '-' as int, hi]
    case Char(c) => [c]
  }

  function ElemsText(es: seq<Elem>): (t: seq<Byte>)
    ensures |t| >= |es|
  {
    if es == [] then [] else ElemText(es[0]) + ElemsText(es[1..])
  }

  function SetText(negated: bool, es: seq<Elem>): (t: seq<Byte>) {
    (if negated then ['[' as int, '^' as int] else ['[' as int]) + ElemsText(es) + [']' as int]
  }

  function ClassText(k: Class): (t: seq<Byte>)
    ensures |t| > 0
  {
    match k
    case Any => ['.' as int]
    case OfLetter(cl) => ['%' as int, cl]
    case Set(negated, es) => SetText(negated, es)
    case Just(c) => [c]
  }

  function ItemText(i: Item): (t: seq<Byte>)
    ensures |t| > 0
  {
    match i
    case One(k) => ClassText(k)
    case Opt(k) => ClassText(k) + ['?' as int]
    case Star(k) => ClassText(k) + ['*' as int]
    case Plus(k) => ClassText(k) + ['+' as int]
    case Lazy(k) => ClassText(k) + ['-' as int]
    case AtEnd => ['$' as int]
    case Balance(x, y) => ['%' as int, 'b' as int, x, y]
    case Frontier(k) => ['%' as int, 'f' as int] + ClassText(k)
  }

  function Text(items: seq<Item>): (t: seq<Byte>) {
    if items == [] then [] else ItemText(items[0]) + Text(items[1..])
  }

  // What can be written so: characters with a meaning of their own are written with % before them.
  predicate Magic(c: Byte) { OneOf(c, "^$()%.[]*+-?") }

  predicate ElemOK(e: Elem) {
    match e
    case Letter(_) => true
    case Range(lo, hi) => !Magic(lo) && !Magic(hi)
    case Char(c) => !Magic(c)
  }

  predicate SetOK(es: seq<Elem>) { es != [] && forall e :: e in es ==> ElemOK(e) }

  predicate ClassOK(k: Class) {
    match k
    case Any => true
    case OfLetter(cl) => !OneOf(cl, "bf0123456789")
    case Set(_, es) => SetOK(es)
    case Just(c) => !Magic(c)
  }

  predicate ItemOK(i: Item) {
    match i
    case AtEnd => true
    case Balance(_, _) => true
    case Frontier(k) => k.Set? && ClassOK(k)
    case _ => ClassOK(i.k)
  }

  predicate Writable(items: seq<Item>) {
    forall i :: 0 <= i < |items| ==> ItemOK(items[i]) && (items[i] == AtEnd ==> i == |items| - 1)
  }

  predicate Has(pat: seq<Byte>, p: nat, t: seq<Byte>) { p + |t| <= |pat| && pat[p..p + |t|] == t }

  lemma HasAt(pat: seq<Byte>, p: nat, t: seq<Byte>, k: nat)
    requires Has(pat, p, t) && k < |t|
    ensures At(pat, p + k) == t[k] && p + k < |pat|
  {
    assert pat[p..p + |t|][k] == t[k];
  }

  lemma HasParts(pat: seq<Byte>, p: nat, a: seq<Byte>, b: seq<Byte>)
    requires Has(pat, p, a + b)
    ensures Has(pat, p, a) && Has(pat, p + |a|, b)
  {
    assert pat[p..p + |a|] == (a + b)[..|a|] == a;
    assert pat[p + |a|..p + |a| + |b|] == (a + b)[|a|..] == b;
  }

  lemma NotMagic(c: Byte)
    requires !Magic(c)
    ensures c !in {94, 36, 40, 41, 37, 46, 91, 93, 42, 43, 45, 63}
  {
    var chars := "^$()%.[]*+-?";
    assert chars[0] == '^' && chars[1] == '$' && chars[2] == '(' && chars[3] == ')' && chars[4] == '%' && chars[5] == '.';
    assert chars[6] == '[' && chars[7] == ']' && chars[8] == '*' && chars[9] == '+' && chars[10] == '-' && chars[11] == '?';
  }

  // ----- sets -----

  // The characters of an element
  predicate ElemAt(pat: seq<Byte>, p: nat, e: Elem) {
    p + |ElemText(e)| <= |pat| &&
    match e
    case Letter(cl) => At(pat, p) == 37 && At(pat, p + 1) == cl
    case Range(lo, hi) =>
      At(pat, p) == lo && At(pat, p + 1) == 45 && At(pat, p + 2) == hi && lo !in {37, 45, 93, 94} && hi !in {37, 93}
    case Char(c) => At(pat, p) == c && c !in {37, 45, 93, 94}
  }

  lemma IsElemAt(pat: seq<Byte>, p: nat, e: Elem)
    requires Has(pat, p, ElemText(e)) && ElemOK(e)
    ensures ElemAt(pat, p, e)
  {
    hide Has, Magic;
    HasAt(pat, p, ElemText(e), 0);
    assert p + |ElemText(e)| <= |pat| by { HasAt(pat, p, ElemText(e), |ElemText(e)| - 1); }
    match e
    case Letter(_) => HasAt(pat, p, ElemText(e), 1);
    case Range(lo, hi) => HasAt(pat, p, ElemText(e), 1); HasAt(pat, p, ElemText(e), 2); NotMagic(lo); NotMagic(hi);
    case Char(c) => NotMagic(c);
  }

  // The text of elements and the ']' behind them: the first element, and the rest.
  lemma ElemSplit(pat: seq<Byte>, p: nat, es: seq<Elem>)
    requires Has(pat, p, ElemsText(es) + [93]) && forall e :: e in es ==> ElemOK(e)
    ensures es == [] ==> At(pat, p) == 93
    ensures es != [] ==>
              ElemAt(pat, p, es[0]) && Has(pat, p + |ElemText(es[0])|, ElemsText(es[1..]) + [93]) &&
              (forall e :: e in es[1..] ==> ElemOK(e)) && |ElemsText(es)| == |ElemText(es[0])| + |ElemsText(es[1..])|
    ensures p + |ElemsText(es)| < |pat|
  {
    hide Has, ElemText, ElemOK;
    HasAt(pat, p, ElemsText(es) + [93], |ElemsText(es)|);
    if es == [] {
      HasAt(pat, p, ElemsText(es) + [93], 0);
    } else {
      assert ElemsText(es) + [93] == ElemText(es[0]) + (ElemsText(es[1..]) + [93]);
      HasParts(pat, p, ElemText(es[0]), ElemsText(es[1..]) + [93]);
      assert es[0] in es;
      IsElemAt(pat, p, es[0]);
    }
  }

  // What begins there begins no range, and ends the set only if there are no elements left.
  lemma ElemBegins(pat: seq<Byte>, p: nat, es: seq<Elem>)
    requires Has(pat, p, ElemsText(es) + [93]) && forall e :: e in es ==> ElemOK(e)
    ensures At(pat, p) !in {45, 94} && (At(pat, p) == 93 <==> es == [])
  {
    hide Has, ElemsText, ElemOK;
    ElemSplit(pat, p, es);
  }

  lemma OneElem(pat: seq<Byte>, p: nat, e: Elem, ec: nat)
    requires ElemAt(pat, p, e) && p + |ElemText(e)| <= ec && At(pat, p + |ElemText(e)|) != 45
    ensures MatchPatterns.Elems(pat, p, ec) == [e] + MatchPatterns.Elems(pat, p + |ElemText(e)|, ec)
  {}

  lemma PastElem(pat: seq<Byte>, p: nat, e: Elem)
    requires ElemAt(pat, p, e)
    ensures SetEnd(pat, p) == if At(pat, p + |ElemText(e)|) == 93 then Some(p + |ElemText(e)| + 1)
                              else SetEnd(pat, p + |ElemText(e)|)
  {
    if e.Range? { assert SetEnd(pat, p) == SetEnd(pat, p + 1) == SetEnd(pat, p + 2); }
  }

  lemma {:induction false} ElemsRead(pat: seq<Byte>, p: nat, es: seq<Elem>)
    requires Has(pat, p, ElemsText(es) + [93]) && forall e :: e in es ==> ElemOK(e)
    ensures MatchPatterns.Elems(pat, p, p + |ElemsText(es)|) == es
    decreases |es|
  {
    hide Has, ElemText, ElemOK, ElemAt, At;
    ElemSplit(pat, p, es);
    if es != [] {
      hide ElemsText, MatchPatterns.Elems;
      var t := ElemText(es[0]);
      ElemBegins(pat, p + |t|, es[1..]);
      OneElem(pat, p, es[0], p + |ElemsText(es)|);
      ElemsRead(pat, p + |t|, es[1..]);
      assert es == [es[0]] + es[1..];
    }
  }

  lemma {:induction false} SetEndRead(pat: seq<Byte>, p: nat, es: seq<Elem>)
    requires Has(pat, p, ElemsText(es) + [93]) && SetOK(es)
    ensures SetEnd(pat, p) == Some(p + |ElemsText(es)| + 1)
    decreases |es|
  {
    hide Has, ElemText, ElemOK, ElemAt, At, ElemsText, SetEnd;
    ElemSplit(pat, p, es);
    var t := ElemText(es[0]);
    ElemBegins(pat, p + |t|, es[1..]);
    PastElem(pat, p, es[0]);
    if es[1..] != [] { SetEndRead(pat, p + |t|, es[1..]); } else { NoElems(); }
  }

  lemma NoElems()
    ensures ElemsText([]) == []
  {}

  lemma SetRead(pat: seq<Byte>, p: nat, negated: bool, es: seq<Elem>)
    requires Has(pat, p, SetText(negated, es)) && SetOK(es)
    ensures ClassEnd(pat, p) == Some(p + |SetText(negated, es)|)
    ensures SetAt(pat, p, p + |SetText(negated, es)| - 1) == Set(negated, es)
  {
    hide Has, ElemsText, ElemOK, SetEnd, MatchPatterns.Elems;
    var first := if negated then ['[' as int, '^' as int] else ['[' as int];
    assert SetText(negated, es) == first + (ElemsText(es) + [93]);
    HasParts(pat, p, first, ElemsText(es) + [93]);
    HasAt(pat, p, first, 0);
    if negated { HasAt(pat, p, first, 1); }
    ElemBegins(pat, p + |first|, es);
    ElemsRead(pat, p + |first|, es);
    SetEndRead(pat, p + |first|, es);
  }

  // ----- items -----

  lemma ClassRead(pat: seq<Byte>, p: nat, k: Class)
    requires Has(pat, p, ClassText(k)) && ClassOK(k)
    ensures p < |pat| && ClassEnd(pat, p) == Some(p + |ClassText(k)|) && ClassAt(pat, p, p + |ClassText(k)|) == k
    ensures At(pat, p) !in {36, 40, 41, 42, 43, 45, 63} && (At(pat, p) == 37 <==> k.OfLetter?)
    ensures k.OfLetter? ==> At(pat, p + 1) == k.cl
  {
    HasAt(pat, p, ClassText(k), 0);
    match k
    case Any =>
    case OfLetter(_) => HasAt(pat, p, ClassText(k), 1);
    case Set(negated, es) => SetRead(pat, p, negated, es);
    case Just(c) => NotMagic(c);
  }

  lemma PlainLetter(cl: Byte)
    requires !OneOf(cl, "bf0123456789")
    ensures cl != 98 && cl != 102 && !IsDigit(cl)
  {
    var chars := "bf0123456789";
    assert chars[0] == 'b' && chars[1] == 'f' && chars[2] == '0' && chars[3] == '1' && chars[4] == '2' && chars[5] == '3';
    assert chars[6] == '4' && chars[7] == '5' && chars[8] == '6' && chars[9] == '7' && chars[10] == '8' && chars[11] == '9';
  }

  predicate IsSuffix(c: Byte) { c in {63, 42, 43, 45} }

  lemma ItemRead(pat: seq<Byte>, p: nat, i: Item)
    requires Has(pat, p, ItemText(i)) && ItemOK(i)
    requires i.AtEnd? ==> p + 1 == |pat|
    requires !IsSuffix(At(pat, p + |ItemText(i)|))
    ensures p < |pat| && ItemAt(pat, p) == Got(i, p + |ItemText(i)|) && !IsSuffix(At(pat, p))
  {
    hide Has, ClassText, SetText, ClassEnd, ClassAt, SetAt, ClassOK;
    HasAt(pat, p, ItemText(i), 0);
    match i
    case AtEnd =>
    case Balance(x, y) =>
      HasAt(pat, p, ItemText(i), 1);
      HasAt(pat, p, ItemText(i), 2);
      HasAt(pat, p, ItemText(i), 3);
    case Frontier(k) =>
      HasAt(pat, p, ItemText(i), 1);
      FrontierRead(pat, p, k);
    case One(k) => assert ClassText(k) + [] == ClassText(k); SingleRead(pat, p, k, []);
    case Opt(k) => SingleRead(pat, p, k, ['?' as int]);
    case Star(k) => SingleRead(pat, p, k, ['*' as int]);
    case Plus(k) => SingleRead(pat, p, k, ['+' as int]);
    case Lazy(k) => SingleRead(pat, p, k, ['-' as int]);
  }

  // A class and its suffix
  lemma SingleRead(pat: seq<Byte>, p: nat, k: Class, suffix: seq<Byte>)
    requires Has(pat, p, ClassText(k) + suffix) && ClassOK(k) && |suffix| <= 1
    requires if suffix == [] then !IsSuffix(At(pat, p + |ClassText(k)|)) else IsSuffix(suffix[0])
    ensures var c := if suffix == [] then 0 else suffix[0];
            ItemAt(pat, p) ==
            Got(if c == 63 then Opt(k) else if c == 42 then Star(k) else if c == 43 then Plus(k) else if c == 45 then Lazy(k) else One(k),
                p + |ClassText(k) + suffix|)
    ensures p < |pat| && !IsSuffix(At(pat, p))
  {
    hide Has, ClassText, SetText, ClassEnd, ClassAt, SetAt, ClassOK;
    HasParts(pat, p, ClassText(k), suffix);
    ClassRead(pat, p, k);
    if suffix != [] { HasAt(pat, p + |ClassText(k)|, suffix, 0); }
    if k.OfLetter? { LetterOK(k.cl); }
  }

  lemma LetterOK(cl: Byte)
    requires ClassOK(OfLetter(cl))
    ensures cl != 98 && cl != 102 && !IsDigit(cl)
  {
    PlainLetter(cl);
  }

  lemma SetBegins(negated: bool, es: seq<Elem>)
    ensures |SetText(negated, es)| > 0 && SetText(negated, es)[0] == 91
  {}

  lemma FrontierRead(pat: seq<Byte>, p: nat, k: Class)
    requires Has(pat, p, ItemText(Frontier(k))) && k.Set? && ClassOK(k)
    ensures var ep := p + |ItemText(Frontier(k))|;
            At(pat, p + 2) == 91 && p + 2 < |pat| && ClassEnd(pat, p + 2) == Some(ep) && SetAt(pat, p + 2, ep - 1) == k
  {
    hide Has, SetText, SetOK, ClassEnd, SetAt;
    HasParts(pat, p, ['%' as int, 'f' as int], ClassText(k));
    SetRead(pat, p + 2, k.negated, k.elems);
    HasAt(pat, p + 2, ClassText(k), 0);
    SetBegins(k.negated, k.elems);
  }

  lemma {:induction false} ItemsRead(pat: seq<Byte>, p: nat, items: seq<Item>)
    requires Has(pat, p, Text(items)) && p + |Text(items)| == |pat| && Writable(items)
    ensures Items(pat, p) == Good(items) && !IsSuffix(At(pat, p))
    decreases |items|
  {
    hide Has, ItemOK, ItemAt, ItemText;
    if items != [] {
      hide Items, At;
      HasParts(pat, p, ItemText(items[0]), Text(items[1..]));
      ItemsRead(pat, p + |ItemText(items[0])|, items[1..]);
      if items[0].AtEnd? { EndOnly(); }
      ItemRead(pat, p, items[0]);
      OneItem(pat, p, items[0], p + |ItemText(items[0])|, items[1..]);
      assert items == [items[0]] + items[1..];
    }
  }

  lemma EndOnly()
    ensures |ItemText(AtEnd)| == 1 && Text([]) == []
  {}

  lemma OneItem(pat: seq<Byte>, p: nat, i: Item, next: nat, rest: seq<Item>)
    requires p < |pat| && ItemAt(pat, p) == Got(i, next) && Items(pat, next) == Good(rest)
    ensures Items(pat, p) == Good([i] + rest)
  {}

  // Reading what was written
  lemma TextRead(items: seq<Item>)
    requires Writable(items)
    ensures Items(Text(items), 0) == Good(items)
  {
    assert Text(items)[0..0 + |Text(items)|] == Text(items);
    ItemsRead(Text(items), 0, items);
  }

  // A search for a written pattern, anchored or not: the first place with a match of these items, and
  // the preferred one there.
  method FindWritten(src: seq<Byte>, anchored: bool, items: seq<Item>, init: nat) returns (r: Place)
    requires init <= |src| && Writable(items)
    ensures match r
            case Between(start, stop) =>
              init <= start && (anchored ==> start == init) && Preferred(items, src, start, stop) &&
              forall s: nat :: init <= s < start ==> !CanMatch(items, src, s)
            case Nowhere => forall s: nat :: init <= s <= (if anchored then init else |src|) ==> !CanMatch(items, src, s)
            case Failed => false
  {
    hide Text, Items, Preferred, CanMatch, Writable;
    var pat := if anchored then ['^' as int] + Text(items) else Text(items);
    var p := if anchored then 1 else 0;
    NotAnchored(items);
    assert pat[p..p + |Text(items)|] == Text(items);
    ItemsRead(pat, p, items);
    var ms := new MatchState(src, pat);
    r := FindFrom(ms, init);
  }

  lemma NotAnchored(items: seq<Item>)
    requires Writable(items)
    ensures !Anchored(Text(items))
  {
    if items != [] {
      match items[0]
      case AtEnd =>
      case Balance(_, _) =>
      case Frontier(_) =>
      case _ =>
        if items[0].k.Just? { NotMagic(items[0].k.c); }
    }
  }
}
