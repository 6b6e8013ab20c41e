// The red-black map itself (src/structs/map.c): pointers and colours rewritten in place.
module RedBlack {
  import opened Common
  import opened MapTree
  import opened MapColors
  import opened MapRepair
  import opened MapSearch
  import opened MapUnlink
  import opened MapHeight
  import opened MapRoot

  class RedBlackMap {
    var mem: Mem
    var root: Ref
    var size: int

    // Nodes below each node, and black heights.
    ghost var sub: Below
    ghost var bh: Heights

    ghost predicate Valid()
      reads this
    {
      Shape(mem, root, sub) && Balanced(mem, bh) && size == |Nodes(mem)| && UniqueKeys(mem) &&
      RootOK(mem, root)
    }

    // The finite map that this object stands for.
    ghost function Contents(): map<int, int>
      requires Valid()
      reads this
    {
      View(mem)
    }

    // map_init
    constructor ()
      ensures Valid() && Contents() == map[] && size == 0
    {
      mem := map[NIL := NIL_NODE];
      root := NIL;
      size := 0;
      sub := map[NIL := {}];
      bh := map[NIL := 0];
    }

    // The size is exact, the sentinel as it was made, and the tree low.
    lemma Wellformed()
      requires Valid()
      ensures size == |Contents()| && mem[NIL] == NIL_NODE
      ensures Pow2(Height(mem, root, sub, root)) <= (size + 1) * (size + 1)
    {
      ViewSize(mem);
      HeightIsLogarithmic(mem, root, sub, bh);
    }

    // ----- rotations -----

    method RotateLeft(node: Ref)
      requires Shape(mem, root, sub) && node in Nodes(mem) && mem[node].right != NIL
      modifies `mem, `root
      ensures old(mem[node].right) in old(mem) && mem == Rotated(old(mem), node, false)
      ensures root == if old(mem[node].parent) == NIL then old(mem[node].right) else old(root)
    {
      hide Shape, Rotated;
      TurnsInOrder(mem, root, sub, node, false);
      var right := mem[node].right;
      ghost var b, p := mem[right].left, mem[node].parent;
      mem := mem[node := mem[node].(right := mem[right].left)];
      if mem[node].right != NIL {
        mem := mem[mem[node].right := mem[mem[node].right].(parent := node)];
      }
      assert mem == SecondLink(FirstLink(old(mem), node, b, false), node, b);
      assert mem[node].parent == p;
      mem := mem[right := mem[right].(parent := mem[node].parent)];
      assert mem[node].parent == p;
      if mem[node].parent == NIL {
        root := right;
      } else {
        if node == mem[mem[node].parent].left {
          mem := mem[mem[node].parent := mem[mem[node].parent].(left := right)];
        } else {
          mem := mem[mem[node].parent := mem[mem[node].parent].(right := right)];
        }
      }
      mem := mem[right := mem[right].(left := node)];
      mem := mem[node := mem[node].(parent := right)];
    }

    method RotateRight(node: Ref)
      requires Shape(mem, root, sub) && node in Nodes(mem) && mem[node].left != NIL
      modifies `mem, `root
      ensures old(mem[node].left) in old(mem) && mem == Rotated(old(mem), node, true)
      ensures root == if old(mem[node].parent) == NIL then old(mem[node].left) else old(root)
    {
      hide Shape, Rotated;
      TurnsInOrder(mem, root, sub, node, true);
      var left := mem[node].left;
      ghost var b, p := mem[left].right, mem[node].parent;
      mem := mem[node := mem[node].(left := mem[left].right)];
      if mem[node].left != NIL {
        mem := mem[mem[node].left := mem[mem[node].left].(parent := node)];
      }
      assert mem == SecondLink(FirstLink(old(mem), node, b, true), node, b);
      assert mem[node].parent == p;
      mem := mem[left := mem[left].(parent := mem[node].parent)];
      assert mem[node].parent == p;
      if mem[node].parent == NIL {
        root := left;
      } else {
        if node == mem[mem[node].parent].left {
          mem := mem[mem[node].parent := mem[mem[node].parent].(left := left)];
        } else {
          mem := mem[mem[node].parent := mem[mem[node].parent].(right := left)];
        }
      }
      mem := mem[left := mem[left].(right := node)];
      mem := mem[node := mem[node].(parent := left)];
    }

    // g_rotations[dir]; the ghost state follows.
    method Rotate(node: Ref, dir: bool)
      requires Shape(mem, root, sub) && node in Nodes(mem) && Kid(mem[node], !dir) != NIL
      modifies `mem, `root, `sub
      ensures Kid(old(mem[node]), !dir) in old(mem) && Kid(old(mem[node]), dir) in old(sub)
      ensures Kid(old(mem)[Kid(old(mem[node]), !dir)], dir) in old(sub) && node in old(sub)
      ensures mem == Rotated(old(mem), node, dir) && sub == RotatedBelow(old(mem), old(sub), node, dir)
      ensures root == if old(mem[node].parent) == NIL then Kid(old(mem[node]), !dir) else old(root)
      ensures Shape(mem, root, sub) && SameEntries(old(mem), mem)
    {
      RotateShape(mem, root, sub, node, dir);
      RotateEntries(mem, root, sub, node, dir);
      InSub(mem, root, sub, node);
      ghost var sub' := RotatedBelow(mem, sub, node, dir);
      hide Shape, Rotated, RotatedBelow, SameEntries;
      if dir {
        RotateRight(node);
      } else {
        RotateLeft(node);
      }
      sub := sub';
    }

    // mapnode_find: the node with this key, or NIL, after at most 2 log2(size + 1) comparisons.
    method Find(key: int) returns (node: Ref, ghost steps: nat)
      requires Valid()
      ensures node in mem && (node != NIL ==> mem[node].key == key && key in Contents() && mem[node].val == Contents()[key])
      ensures node == NIL <==> key !in Contents()
      ensures Pow2(steps) <= (size + 1) * (size + 1)
    {
      hide UniqueKeys, Shape, Balanced, View;
      node := root;
      steps := 0;
      PathStarts(mem, root, sub, key);
      RootIn(mem, root, sub);
      while node != NIL
        invariant node in mem && (node != NIL ==> OnPath(mem, sub, node, key)) && InShape(mem, root, sub)
        invariant forall n :: n in Nodes(mem) && mem[n].key == key ==> n in sub[node]
        invariant steps + Height(mem, root, sub, node) <= Height(mem, root, sub, root)
        decreases Height(mem, root, sub, node)
      {
        hide OnPath;
        if key == mem[node].key {
          break;
        }
        steps := steps + 1;
        HigherThanKids(mem, root, sub, node, key > mem[node].key);
        PathStep(mem, root, sub, node, key, key > mem[node].key);
        if key < mem[node].key {
          node := mem[node].left;
        } else {
          node := mem[node].right;
        }
      }
      FoundAll(mem, root, sub, node, key);
      HeightIsLogarithmic(mem, root, sub, bh);
      PowGrows(steps, Height(mem, root, sub, root));
    }

    // map_get
    method Get(key: int) returns (p: Option<int>)
      requires Valid()
      ensures p == if key in Contents() then Some(Contents()[key]) else None
    {
      var node, _ := Find(key);
      if node != NIL {
        return Some(mem[node].val);
      }
      return None;
    }
  
    // ----- insertion -----

    // node_sibling
    function Sibling(node: Ref): Ref
      requires node in mem && mem[node].parent in mem
      reads this
    {
      var p := mem[node].parent;
      if p == NIL then NIL else if node == mem[p].left then mem[p].right else mem[p].left
    }

    // map_insert; at is the address that the allocator returns for a new node.
    method Insert(key: int, p: int, at: Ref)
      requires Valid() && at !in mem
      modifies this
      ensures Valid() && Contents() == old(Contents())[key := p]
      ensures mem.Keys == if key in old(Contents()) then old(mem.Keys) else old(mem.Keys) + {at}
      ensures key !in old(Contents()) ==> mem[root].color == Black
    {
      hide UniqueKeys, Shape, Balanced, View, LeafFits, InsertState, SameEntries, WithLeaf, LeafBelow;
      var parent, right := root, false;
      PathStarts(mem, root, sub, key);
      RootIn(mem, root, sub);
      while parent != NIL
        invariant parent in mem && (parent != NIL ==> OnPath(mem, sub, parent, key)) && InShape(mem, root, sub) &&
                  unchanged(this)
        invariant parent == NIL ==> root == NIL
        invariant forall n :: n in Nodes(mem) && mem[n].key == key ==> n in sub[parent]
        decreases sub[parent]
      {
        hide OnPath;
        if key == mem[parent].key {
          Revalued(mem, root, sub, bh, parent, p);
          RevaluedView(mem, parent, p);
          ViewAt(mem, parent);
          mem := mem[parent := mem[parent].(val := p)];
          return;
        }
        KidBelow(mem, root, sub, parent, key > mem[parent].key);
        PathStep(mem, root, sub, parent, key, key > mem[parent].key);
        if key < mem[parent].key {
          if mem[parent].left != NIL {
            parent := mem[parent].left;
            continue;
          } else {
            right := false;
            break;
          }
        } else {
          if mem[parent].right != NIL {
            parent := mem[parent].right;
            continue;
          } else {
            right := true;
            break;
          }
        }
      }
      Fits(mem, root, sub, parent, right, at, key);
      AddNode(parent, right, key, p, at);
    }

    // The second half of map_insert.
    method AddNode(parent: Ref, right: bool, key: int, p: int, at: Ref)
      requires Valid() && LeafFits(mem, root, sub, parent, right, at, key) && key !in Contents()
      modifies this
      ensures Valid() && Contents() == old(Contents())[key := p] && mem.Keys == old(mem.Keys) + {at} &&
              mem[root].color == Black
    {
      hide UniqueKeys, Shape, Balanced, View, InsertState, SameEntries, WithLeaf, LeafBelow, LeafFits, Nodes;
      LeafThere(mem, root, sub, parent, right, at, key);
      AddLeaf(mem, root, sub, bh, parent, right, at, key, p);
      LeafView(mem, parent, right, at, key, p);
      ghost var mem' := WithLeaf(mem, parent, right, at, key, p);
      size := size + 1;
      LinkLeaf(parent, right, key, p, at);
      RepairInsertion(at);
      EntriesView(mem', mem);
      SameKeySet(mem', mem);
    }

    // The new node, and the slot that refers to it.
    method LinkLeaf(parent: Ref, right: bool, key: int, p: int, at: Ref)
      requires at !in mem && at != NIL && parent in mem
      modifies `mem, `root, `sub, `bh
      ensures mem == WithLeaf(old(mem), parent, right, at, key, p) && mem.Keys == old(mem.Keys) + {at}
      ensures root == (if parent == NIL then at else old(root)) && sub == LeafBelow(old(sub), parent, at) &&
              bh == old(bh)[at := 1]
    {
      hide LeafBelow;
      LeafInOrder(mem, parent, right, at, key, p);
      mem := mem[at := Rec(NIL, NIL, parent, key, p, Red)];
      if parent == NIL {
        root := at;
      } else {
        mem := mem[parent := SetKid(mem[parent], right, at)];
      }
      sub, bh := LeafBelow(sub, parent, at), bh[at := 1];
    }

    // The loop at the end of map_insert.
    method RepairInsertion(e: Ref)
      requires InsertState(mem, root, sub, bh, e)
      modifies `mem, `root, `sub, `bh
      ensures Shape(mem, root, sub) && Balanced(mem, bh) && SameEntries(old(mem), mem)
      ensures root in mem && mem[root].color == Black
    {
      hide Shape, SameEntries, InsertState;
      var insert := e;
      EntriesSelf(mem);
      InsertLinks(mem, root, sub, bh, insert);
      while mem[mem[insert].parent].color == Red && mem[mem[insert].parent].parent != NIL
        invariant InsertState(mem, root, sub, bh, insert) && SameEntries(old(mem), mem)
        invariant insert in mem && insert in sub && mem[insert].parent in mem
        decreases if mem[mem[insert].parent].color == Red then 1 + |Nodes(mem) - sub[insert]| else 0
      {
        label turn:
        InsertFamily(mem, root, sub, bh, insert);
        BelowNodes(mem, root, sub, bh, insert);
        var uncle := Sibling(mem[insert].parent);
        if mem[uncle].color == Red {
          ghost var low := insert;
          insert := RaiseRed(insert, uncle);
          BelowNodes(mem, root, sub, bh, insert);
          SameKeySet(old@turn(mem), mem);
          Narrower(Nodes(mem), sub[low], sub[insert]);
        } else {
          insert := TurnRed(insert);
        }
        SameKeySet(old@turn(mem), mem);
        EntriesTrans(old(mem), old@turn(mem), mem);
        InsertLinks(mem, root, sub, bh, insert);
        BelowNodes(mem, root, sub, bh, insert);
      }
      InsertEnds(mem, root, sub, bh, insert);
      InsertStop(mem, root, sub, bh, insert);
      PaintEntries(mem, root, Black);
      EntriesTrans(old(mem), mem, Paint(mem, root, Black));
      mem := mem[root := mem[root].(color := Black)];
    }

    // The branch of a red uncle.
    method RaiseRed(e: Ref, uncle: Ref) returns (insert: Ref)
      requires InsertState(mem, root, sub, bh, e) && Family(mem, root, sub, e) && uncle == Sibling(mem[e].parent) &&
               mem[uncle].color == Red
      modifies `mem, `bh
      ensures InsertState(mem, root, sub, bh, insert) && SameEntries(old(mem), mem) && insert in sub && e in sub &&
              sub[e] < sub[insert]
    {
      hide InsertState, SameEntries;
      var p := mem[e].parent;
      ghost var g := mem[p].parent;
      FamilyApart(mem, root, sub, bh, e);
      InsertUncle(mem, root, sub, bh, e, p, uncle, g);
      UncleApart(mem, root, sub, bh, e);
      ThreePaints(mem, p, Black, uncle, Black, g, Red);
      PaintsInOrder(mem, p, uncle, g);
      SubThere(mem, root, sub, bh, e, g);
      ghost var mem0 := mem;
      mem := mem[p := mem[p].(color := Black)];
      mem := mem[uncle := mem[uncle].(color := Black)];
      assert mem == Paint(Paint(mem0, p, Black), uncle, Black);
      var top := mem[uncle].parent;
      mem := mem[top := mem[top].(color := Red)];
      assert top == g && mem == Paint(Paint(Paint(mem0, p, Black), uncle, Black), g, Red);
      insert := top;
      bh := bh[g := bh[g] + 1];
    }

    // The branch of a black uncle: at most two rotations.
    method TurnRed(e: Ref) returns (insert: Ref)
      requires InsertState(mem, root, sub, bh, e) && Family(mem, root, sub, e) &&
               mem[Sibling(mem[e].parent)].color == Black
      modifies `mem, `root, `sub
      ensures InsertState(mem, root, sub, bh, insert) && SameEntries(old(mem), mem)
      ensures mem[insert].parent in mem && mem[mem[insert].parent].color == Black
    {
      hide InsertState, SameEntries, Shape, Rotated, RotatedBelow, Outward;
      insert := e;
      EntriesSelf(mem);
      var insleft := insert == mem[mem[insert].parent].left;
      var parleft := mem[insert].parent == mem[mem[mem[insert].parent].parent].left;
      ghost var g := mem[mem[e].parent].parent;
      if insleft != parleft {
        Straighten(mem, root, sub, bh, e, !parleft);
        insert := mem[insert].parent;
        Rotate(insert, !parleft);
      } else {
        IsOutward(mem, root, sub, bh, e, parleft);
      }
      OutwardFacts(mem, root, sub, bh, insert, g, parleft);
      ghost var p, mem1 := mem[insert].parent, mem;
      InsertOuter(mem, root, sub, bh, insert, p, g, parleft);
      mem := mem[mem[mem[insert].parent].parent := mem[mem[mem[insert].parent].parent].(color := Red)];
      mem := mem[mem[insert].parent := mem[mem[insert].parent].(color := Black)];
      assert mem == Paint(Paint(mem1, g, Red), p, Black);
      EntriesTrans(old(mem), mem1, mem);
      label painted:
      Rotate(mem[mem[insert].parent].parent, parleft);
      EntriesTrans(old(mem), old@painted(mem), mem);
    }
  
    // ----- removal -----

    // map_remove
    method Remove(key: int) returns (found: bool)
      requires Valid()
      modifies this
      ensures Valid() && found == (key in old(Contents())) && Contents() == old(Contents()) - {key}
      ensures found ==> (mem[root].color == Red <==> old(mem[root].key) == key && OneKid(old(mem[root])))
      ensures !found ==> unchanged(this)
    {
      hide UniqueKeys, Shape, Balanced, View;
      var node, _ := Find(key);
      if node != NIL {
        RootHasKey(mem, root, sub, node);
        RemoveNode(node);
        return true;
      }
      assert View(mem) - {key} == View(mem);
      return false;
    }

    // The largest node below the left child.
    method LargestLeft(node: Ref) returns (destroyed: Ref)
      requires Valid() && node in Nodes(mem) && mem[node].left != NIL
      ensures destroyed in Nodes(mem) && mem[destroyed].right == NIL && destroyed != node && mem[node].left in sub &&
              destroyed in sub[mem[node].left]
      ensures forall x :: x in sub[mem[node].left] ==> x in mem && (x == destroyed || mem[x].key < mem[destroyed].key)
    {
      hide UniqueKeys, Balanced, Shape;
      KidThere(mem, root, sub, node, false);
      destroyed := mem[node].left;
      LargestStarts(mem, root, sub, destroyed);
      RootIn(mem, root, sub);
      while mem[destroyed].right != NIL
        invariant destroyed in Nodes(mem) && Largest(mem, sub, mem[node].left, destroyed) && destroyed in sub
        decreases sub[destroyed]
      {
        LargestStep(mem, root, sub, mem[node].left, destroyed);
        destroyed := mem[destroyed].right;
      }
      LargestEnds(mem, root, sub, mem[node].left, destroyed);
    }

    // mapnode_remove: the key of this node goes, and one node with it.
    method RemoveNode(node: Ref)
      requires Valid() && node in Nodes(mem)
      modifies this
      ensures Valid() && Contents() == old(Contents()) - {old(mem[node].key)}
      ensures mem[root].color == Red <==> node == old(root) && OneKid(old(mem[node]))
    {
      hide UniqueKeys, Balanced, Shape, View, RemoveState, SameEntries, RootOK;
      KidThere(mem, root, sub, node, false);
      KidThere(mem, root, sub, node, true);
      var destroyed, y;
      if mem[node].left == NIL {
        destroyed := node;
        y := mem[node].right;
      } else if mem[node].right == NIL {
        destroyed := node;
        y := mem[node].left;
      } else {
        destroyed := LargestLeft(node);
        y := mem[destroyed].left;
      }
      if node != destroyed { NotBelowKid(mem, root, sub, node, destroyed); }
      ShapeLinks(mem, root, sub, node);
      TakeOut(node, destroyed, y);
    }

    method TakeOut(node: Ref, destroyed: Ref, y: Ref)
      requires Valid() && node in Nodes(mem) && destroyed in Nodes(mem) && OnlyChild(mem, destroyed, y) &&
               mem[node].left in sub
      requires node != destroyed ==> destroyed in sub[mem[node].left]
      requires node != destroyed ==> forall x :: x in sub[mem[node].left] ==> x in mem && (x == destroyed || mem[x].key < mem[destroyed].key)
      modifies this
      ensures Valid() && Contents() == old(Contents()) - {old(mem[node].key)}
      ensures mem[root].color == Red <==> old(mem[destroyed].parent) == NIL && y != NIL
    {
      hide UniqueKeys, Balanced, Shape, View, RemoveState, SameEntries, UnlinkedRec, RekeyedRec, Moved, Relinked;
      var z := mem[destroyed].parent;
      ghost var mem' := OutFacts(mem, root, sub, bh, node, destroyed, y, z);
      ghost var sub', bh' := BelowWithout(sub, destroyed), Without(bh, destroyed);
      ghost var side := mem[z].left != destroyed;
      var black := mem[destroyed].color == Black;
      OneFewer(Nodes(mem), destroyed);
      if z == NIL {
        RootTaken(mem, root, sub, bh, destroyed, y);
      } else {
        RootStays(mem, root, sub, destroyed);
      }
      ColorsStay(mem, node, destroyed, y, z, if z == NIL then y else root);
      Cut(node, destroyed, y, z);
      sub, bh := sub', bh';
      if z != NIL && black {
        RepairRemoval(y, z, side);
        EntriesView(mem', mem);
      }
      size := size - 1;
    }

    // The assignments that take destroyed out of the tree; its contents move to node.
    method Cut(node: Ref, destroyed: Ref, y: Ref, z: Ref)
      requires node in mem && destroyed in mem && y in mem && z in mem && y != destroyed && z != destroyed
      modifies `mem, `root
      ensures mem == Relinked(Moved(old(mem), node, destroyed), destroyed, y, z) - {destroyed}
      ensures root == if z == NIL then y else old(root)
    {
      if node != destroyed {
        mem := mem[node := mem[node].(key := mem[destroyed].key, val := mem[destroyed].val)];
      }
      if y != NIL {
        mem := mem[y := mem[y].(parent := z)];
      }
      if z == NIL {
        root := y;
      } else if destroyed == mem[z].left {
        mem := mem[z := mem[z].(left := y)];
      } else {
        mem := mem[z := mem[z].(right := y)];
      }
      mem := mem - {destroyed};
    }

    // The loop of mapnode_remove.
    method RepairRemoval(short: Ref, above: Ref, ghost onRight: bool)
      requires RemoveState(mem, root, sub, bh, short, above, onRight) && root in mem && mem[root].color == Black
      modifies `mem, `root, `sub, `bh
      ensures Shape(mem, root, sub) && Balanced(mem, bh) && SameEntries(old(mem), mem)
      ensures root in mem && mem[root].color == Black
    {
      hide Shape, SameEntries, RemoveState;
      var y, z := short, above;
      ghost var top, side := z, onRight;
      EntriesSelf(mem);
      RemoveLinks(mem, root, sub, bh, y, top, side);
      while y != root && mem[y].color == Black
        invariant RemoveState(mem, root, sub, bh, y, top, side) && SameEntries(old(mem), mem)
        invariant root in mem && (y == root || mem[root].color == Black)
        invariant y in mem && y in sub && (y != root ==> z == top) && sub[y] <= Nodes(mem)
        decreases if y == root then 0 else 1 + |Nodes(mem) - sub[y]|
      {
        label step:
        ghost var low := sub[y];
        RemoveLinks(mem, root, sub, bh, y, top, side);
        y, z, top, side := RepairStep(y, z, side);
        RemoveLinks(mem, root, sub, bh, y, top, side);
        SameKeySet(old@step(mem), mem);
        if y != root { Narrower(Nodes(mem), low, sub[y]); }
        EntriesTrans(old(mem), old@step(mem), mem);
      }
      RemoveLinks(mem, root, sub, bh, y, top, side);
      RemoveEnds(mem, root, sub, bh, y, top, side);
      RemoveStop(mem, root, sub, bh, y, top, side);
      PaintEntries(mem, y, Black);
      EntriesTrans(old(mem), mem, Paint(mem, y, Black));
      mem := mem[y := mem[y].(color := Black)];
    }

    // One round of the loop: it ends at the root, or goes on one level up.
    method RepairStep(low: Ref, above: Ref, ghost onRight: bool)
      returns (y: Ref, z: Ref, ghost top: Ref, ghost side: bool)
      requires RemoveState(mem, root, sub, bh, low, above, onRight) && low != root && low in mem &&
               mem[low].color == Black && root in mem && mem[root].color == Black
      modifies `mem, `root, `sub, `bh
      ensures RemoveState(mem, root, sub, bh, y, top, side) && SameEntries(old(mem), mem) && (y != root ==> z == top)
      ensures root in mem && (y == root || mem[root].color == Black)
      ensures y in sub && low in old(sub) && (y != root ==> old(sub[low]) < sub[y])
    {
      hide Shape, SameEntries, RemoveState, Siblings;
      EntriesSelf(mem);
      RemoveLinks(mem, root, sub, bh, low, above, onRight);
      IsSiblings(mem, root, sub, bh, low, above, onRight);
      NephewsThere(mem, root, sub, bh, low, above, onRight, Kid(mem[above], !onRight));
      y, z := low, above;
      var dir := !(y == mem[z].left);
      var sibling := Kid(mem[z], !dir);
      if mem[sibling].color == Red {
        LowerParent(y, z, dir, sibling);
        sibling := Kid(mem[z], !dir);
      }
      label blackSibling:
      NephewsThere(mem, root, sub, bh, y, z, dir, sibling);
      if mem[mem[sibling].left].color == Black && mem[mem[sibling].right].color == Black {
        PassUp(y, z, dir, sibling);
        y := z;
        z := mem[z].parent;
        top, side := z, mem[z].left != y;
      } else {
        RaiseSibling(y, z, dir, sibling);
        y := root;
        top, side := NIL, dir;
      }
      RemoveLinks(mem, root, sub, bh, y, top, side);
      EntriesTrans(old(mem), old@blackSibling(mem), mem);
    }

    // Both nephews are black.
    method PassUp(y: Ref, z: Ref, dir: bool, sibling: Ref)
      requires RemoveState(mem, root, sub, bh, y, z, dir) && Siblings(mem, bh, y, z, dir, sibling) && sibling in mem &&
               mem[sibling].color == Black
      requires mem[sibling].left in mem && mem[sibling].right in mem && mem[mem[sibling].left].color == Black &&
               mem[mem[sibling].right].color == Black
      modifies `mem, `bh
      ensures SameEntries(old(mem), mem) && z in mem && mem[z].parent in mem && y in sub && z in sub && sub[y] < sub[z]
      ensures RemoveState(mem, root, sub, bh, z, mem[z].parent, mem[mem[z].parent].left != z)
      ensures root in mem && root in old(mem) && mem[root].color == old(mem[root].color)
    {
      RootHasNoParent(mem, root, sub);
      hide Shape, SameEntries, RemoveState;
      RemoveLinks(mem, root, sub, bh, y, z, dir);
      ShortParent(mem, root, sub, bh, y, z, dir);
      RemoveRecolor(mem, root, sub, bh, y, z, dir, sibling);
      PaintEntries(mem, sibling, Red);
      mem := mem[sibling := mem[sibling].(color := Red)];
      bh := bh[z := (bh[z] - 1) as nat];
    }

    // A red sibling.
    method LowerParent(y: Ref, z: Ref, dir: bool, sibling: Ref)
      requires RemoveState(mem, root, sub, bh, y, z, dir) && Siblings(mem, bh, y, z, dir, sibling) &&
               mem[sibling].color == Red && y in sub
      modifies `mem, `root, `sub
      ensures RemoveState(mem, root, sub, bh, y, z, dir) && SameEntries(old(mem), mem) && z in mem && y in sub &&
              sub[y] == old(sub[y])
      ensures Siblings(mem, bh, y, z, dir, Kid(mem[z], !dir)) && mem[Kid(mem[z], !dir)].color == Black
      ensures root in mem && root in old(mem) && (old(mem[root].color) == Black ==> mem[root].color == Black)
    {
      hide Shape, SameEntries, RemoveState, Rotated, RotatedBelow;
      RemoveRedSibling(mem, root, sub, bh, y, z, dir, sibling);
      ghost var mem1 := Paint(Paint(mem, sibling, Black), z, Red);
      RemoveLinks(mem, root, sub, bh, y, z, dir);
      RemovePaint(mem, mem1, root, sub, bh, y, z, dir, {sibling, z});
      KeepsBelow(mem1, sub, z, dir, y);
      RotateColor(mem1, root, sub, z, dir, y);
      LoweredRoot(mem, mem1, root, sub, bh, y, z, dir, sibling);
      mem := mem[sibling := mem[sibling].(color := Black)];
      mem := mem[z := mem[z].(color := Red)];
      assert mem == mem1;
      Rotate(z, dir);
      EntriesTrans(old(mem), mem1, mem);
      IsSiblings(mem, root, sub, bh, y, z, dir);
    }

    // A black sibling with a red child: at most two rotations, and all is well.
    method RaiseSibling(y: Ref, z: Ref, dir: bool, black: Ref)
      requires RemoveState(mem, root, sub, bh, y, z, dir) && Siblings(mem, bh, y, z, dir, black) &&
               mem[black].color == Black
      requires mem[black].left in mem && mem[black].right in mem &&
               !(mem[mem[black].left].color == Black && mem[mem[black].right].color == Black)
      modifies `mem, `root, `sub, `bh
      ensures RemoveState(mem, root, sub, bh, root, NIL, dir) && SameEntries(old(mem), mem)
    {
      hide Shape, SameEntries, RemoveState, Siblings;
      var sibling := black;
      EntriesSelf(mem);
      RemoveLinks(mem, root, sub, bh, y, z, dir);
      SiblingLinks(mem, bh, y, z, dir, black);
      if mem[Kid(mem[sibling], !dir)].color == Black {
        OutwardNephew(y, z, dir, sibling);
        sibling := Kid(mem[z], !dir);
      }
      label outward:
      OuterRotation(y, z, dir, sibling);
      EntriesTrans(old(mem), old@outward(mem), mem);
    }

    // The outer nephew is red.
    method OuterRotation(y: Ref, z: Ref, dir: bool, sibling: Ref)
      requires RemoveState(mem, root, sub, bh, y, z, dir) && Siblings(mem, bh, y, z, dir, sibling) &&
               mem[sibling].color == Black
      requires Kid(mem[sibling], !dir) in mem && mem[Kid(mem[sibling], !dir)].color == Red
      modifies `mem, `root, `sub, `bh
      ensures RemoveState(mem, root, sub, bh, root, NIL, dir) && SameEntries(old(mem), mem)
    {
      hide Shape, SameEntries, RemoveState, Rotated, RotatedBelow;
      ghost var d := Kid(mem[sibling], !dir);
      RemoveLinks(mem, root, sub, bh, y, z, dir);
      RemoveOuterNephew(mem, root, sub, bh, y, z, dir, sibling, d);
      ghost var mem1 := Paint(Paint(Paint(mem, sibling, mem[z].color), z, Black), d, Black);
      OuterRecolored(mem, z, sibling, d);
      RemovePaint(mem, mem1, root, sub, bh, y, z, dir, {z, sibling, d});
      ghost var bh' := bh[z := (bh[z] - 1) as nat][sibling := bh[z]];
      mem := mem[sibling := mem[sibling].(color := mem[z].color)];
      mem := mem[z := mem[z].(color := Black)];
      mem := mem[Kid(mem[sibling], !dir) := mem[Kid(mem[sibling], !dir)].(color := Black)];
      assert mem == mem1;
      Rotate(z, dir);
      bh := bh';
      EntriesTrans(old(mem), mem1, mem);
    }

    // Only the inner nephew is red.
    method OutwardNephew(y: Ref, z: Ref, dir: bool, sibling: Ref)
      requires RemoveState(mem, root, sub, bh, y, z, dir) && Siblings(mem, bh, y, z, dir, sibling) &&
               mem[sibling].color == Black
      requires Kid(mem[sibling], dir) in mem && mem[Kid(mem[sibling], dir)].color == Red &&
               Weight(mem, Kid(mem[sibling], !dir)) == 1
      modifies `mem, `root, `sub
      ensures RemoveState(mem, root, sub, bh, y, z, dir) && SameEntries(old(mem), mem) && z in mem
      ensures Siblings(mem, bh, y, z, dir, Kid(mem[z], !dir)) && mem[Kid(mem[z], !dir)].color == Black
      ensures var s := Kid(mem[z], !dir); Kid(mem[s], !dir) in mem && mem[Kid(mem[s], !dir)].color == Red
    {
      hide Shape, SameEntries, RemoveState, Rotated, RotatedBelow;
      ghost var b := Kid(mem[sibling], dir);
      RemoveInnerNephew(mem, root, sub, bh, y, z, dir, sibling, b);
      ghost var mem1 := Paint(Paint(mem, b, Black), sibling, Red);
      RemoveLinks(mem, root, sub, bh, y, z, dir);
      RemovePaint(mem, mem1, root, sub, bh, y, z, dir, {sibling, b});
      NephewApart(mem, root, sub, bh, y, z, dir, sibling);
      RotateColor(mem1, root, sub, sibling, !dir, y);
      mem := mem[Kid(mem[sibling], dir) := mem[Kid(mem[sibling], dir)].(color := Black)];
      mem := mem[sibling := mem[sibling].(color := Red)];
      assert mem == mem1;
      Rotate(sibling, !dir);
      EntriesTrans(old(mem), mem1, mem);
      IsSiblings(mem, root, sub, bh, y, z, dir);
    }
  }

  // ----- the assignments of a rotation, one after the other -----

  function FirstLink(mem: Mem, x: Ref, b: Ref, dir: bool): (m: Mem)
    requires x in mem
    ensures m.Keys == mem.Keys
  {
    mem[x := SetKid(mem[x], !dir, b)]
  }

  function SecondLink(mem: Mem, x: Ref, b: Ref): (m: Mem)
    requires x in mem && b in mem
    ensures m.Keys == mem.Keys
  {
    if b != NIL then mem[b := mem[b].(parent := x)] else mem
  }

  function ThirdLink(mem: Mem, x: Ref, y: Ref, p: Ref): (m: Mem)
    requires x in mem && y in mem && p in mem
    ensures m.Keys == mem.Keys
  {
    var m := mem[y := mem[y].(parent := p)];
    if p != NIL then m[p := SetKid(m[p], x != m[p].left, y)] else m
  }

  function LastLinks(mem: Mem, x: Ref, y: Ref, dir: bool): (m: Mem)
    requires x in mem && y in mem
    ensures m.Keys == mem.Keys
  {
    var m := mem[y := SetKid(mem[y], dir, x)];
    m[x := m[x].(parent := y)]
  }

  lemma TurnsInOrder(mem: Mem, root: Ref, sub: Below, x: Ref, dir: bool)
    requires Shape(mem, root, sub) && x in Nodes(mem) && Kid(mem[x], !dir) != NIL
    ensures var y, p := Kid(mem[x], !dir), mem[x].parent;
            y in mem && p in mem && y != x && p != x && p != y && Kid(mem[y], dir) in mem && Kid(mem[y], dir) != x &&
            Kid(mem[y], dir) != y && (Kid(mem[y], dir) != NIL ==> Kid(mem[y], dir) != p)
    ensures var y, p, b := Kid(mem[x], !dir), mem[x].parent, Kid(mem[Kid(mem[x], !dir)], dir);
            Rotated(mem, x, dir) == LastLinks(ThirdLink(SecondLink(FirstLink(mem, x, b, dir), x, b), x, y, p), x, y, dir)
  {
    IsAround(mem, root, sub, x, dir);
    hide Shape;
    var y := Kid(mem[x], !dir);
    var a, b, d, p := Kid(mem[x], dir), Kid(mem[y], dir), Kid(mem[y], !dir), mem[x].parent;
    RotatedIs(mem, x, y, a, b, d, p, dir);
    AroundDistinct(mem, x, y, a, b, d, p, dir);
    hide Rotated;
    SameRotation(mem, Rotated(mem, x, dir), x, y, b, p, dir);
  }

  lemma AroundDistinct(mem: Mem, x: Ref, y: Ref, a: Ref, b: Ref, d: Ref, p: Ref, dir: bool)
    requires Around(mem, x, y, a, b, d, p, dir)
    ensures x != NIL && y != NIL && x != y && b != x && b != y && p != x && p != y && (b != NIL ==> b != p)
  {}

  lemma SameRotation(mem: Mem, mem': Mem, x: Ref, y: Ref, b: Ref, p: Ref, dir: bool)
    requires x in mem && y in mem && b in mem && p in mem && RotatedRecs(mem, mem', x, y, b, p, dir)
    requires x != NIL && y != NIL && x != y && b != x && b != y && p != x && p != y && (b != NIL ==> b != p)
    ensures mem' == LastLinks(ThirdLink(SecondLink(FirstLink(mem, x, b, dir), x, b), x, y, p), x, y, dir)
  {
    hide RotatedRecs, FirstLink, SecondLink, ThirdLink, LastLinks;
    var r := LastLinks(ThirdLink(SecondLink(FirstLink(mem, x, b, dir), x, b), x, y, p), x, y, dir);
    SameKeySetOf(mem, mem', x, y, b, p, dir);
    forall n | n in mem ensures n in r && mem'[n] == r[n] { SameRec(mem, mem', x, y, b, p, dir, n); }
  }

  lemma SameKeySetOf(mem: Mem, mem': Mem, x: Ref, y: Ref, b: Ref, p: Ref, dir: bool)
    requires x in mem && y in mem && b in mem && p in mem && RotatedRecs(mem, mem', x, y, b, p, dir)
    ensures mem'.Keys == mem.Keys
  {}

  lemma SameRec(mem: Mem, mem': Mem, x: Ref, y: Ref, b: Ref, p: Ref, dir: bool, n: Ref)
    requires x in mem && y in mem && b in mem && p in mem && RotatedRecs(mem, mem', x, y, b, p, dir) && n in mem
    requires x != NIL && y != NIL && x != y && b != x && b != y && p != x && p != y && (b != NIL ==> b != p)
    ensures var r := LastLinks(ThirdLink(SecondLink(FirstLink(mem, x, b, dir), x, b), x, y, p), x, y, dir); n in r && mem'[n] == r[n]
  {}

  // ----- facts drawn from the invariant -----

  lemma InSub(mem: Mem, root: Ref, sub: Below, n: Ref)
    requires Shape(mem, root, sub) && n in mem
    ensures n in sub && sub.Keys == mem.Keys
  {}

  ghost predicate InShape(mem: Mem, root: Ref, sub: Below) {
    root in mem && NIL in mem && sub.Keys == mem.Keys && Sets(mem, root, sub)
  }

  lemma RootIn(mem: Mem, root: Ref, sub: Below)
    requires Shape(mem, root, sub)
    ensures InShape(mem, root, sub) && sub[NIL] == {} && sub[root] == Nodes(mem)
  {}

  // The search has ended.
  lemma FoundAll(mem: Mem, root: Ref, sub: Below, node: Ref, key: int)
    requires Shape(mem, root, sub) && UniqueKeys(mem) && node in mem && sub.Keys == mem.Keys
    requires forall n :: n in Nodes(mem) && mem[n].key == key ==> n in sub[node]
    requires node != NIL ==> mem[node].key == key
    ensures node == NIL <==> key !in View(mem)
    ensures node != NIL ==> key in View(mem) && mem[node].val == View(mem)[key]
  {
    if node != NIL { ViewAt(mem, node); } else { assert sub[NIL] == {}; }
    hide Shape;
  }

  // ----- around an inserted node -----

  lemma Fits(mem: Mem, root: Ref, sub: Below, parent: Ref, right: bool, at: Ref, key: int)
    requires Shape(mem, root, sub) && UniqueKeys(mem) && at !in mem && parent in mem && parent in sub &&
             (parent == NIL ==> root == NIL)
    requires parent != NIL ==> OnPath(mem, sub, parent, key) && Kid(mem[parent], right) == NIL && (if right then key > mem[parent].key else key < mem[parent].key)
    requires forall n :: n in Nodes(mem) && mem[n].key == key ==> n in sub[parent]
    ensures LeafFits(mem, root, sub, parent, right, at, key) && key !in View(mem) && at != NIL
  {
    assert NIL in mem;
    if parent != NIL {
      PathStep(mem, root, sub, parent, key, right);
      RootIn(mem, root, sub);
      assert LinksAt(mem, root, parent);
    } else {
      RootIn(mem, root, sub);
    }
    hide Shape;
  }

  lemma LeafThere(mem: Mem, root: Ref, sub: Below, p: Ref, right: bool, at: Ref, key: int)
    requires LeafFits(mem, root, sub, p, right, at, key)
    ensures at !in mem && at != NIL && p in mem && |Nodes(mem) + {at}| == |Nodes(mem)| + 1
  {
    hide OnPath;
  }

  lemma LeafInOrder(mem: Mem, p: Ref, right: bool, at: Ref, key: int, val: int)
    requires p in mem && at !in mem && at != NIL
    ensures var m := mem[at := Rec(NIL, NIL, p, key, val, Red)];
            p in m && m[p] == mem[p] &&
            WithLeaf(mem, p, right, at, key, val) == if p == NIL then m else m[p := SetKid(m[p], right, at)]
  {}

  lemma SameKeySet(mem: Mem, mem': Mem)
    requires SameEntries(mem, mem')
    ensures mem'.Keys == mem.Keys
  {}

  lemma BelowNodes(mem: Mem, root: Ref, sub: Below, bh: Heights, e: Ref)
    requires InsertState(mem, root, sub, bh, e)
    ensures e in sub && sub[e] <= Nodes(mem)
  {
    forall x | x in sub[e] ensures x in Nodes(mem) { BelowTrans(mem, root, sub, e, x); }
  }

  lemma Narrower(all: set<Ref>, a: set<Ref>, b: set<Ref>)
    requires a < b <= all
    ensures |all - b| < |all - a|
  {
    var x :| x in b && x !in a;
    assert all - b <= all - a - {x};
    Smaller(all - b, all - a - {x});
  }

  lemma {:induction false} Smaller(a: set<Ref>, b: set<Ref>)
    requires a <= b
    ensures |a| <= |b|
  {
    if a != {} {
      var x := PickNode(a);
      Smaller(a - {x}, b - {x});
    }
  }

  lemma EntriesSelf(mem: Mem)
    ensures SameEntries(mem, mem)
  {}

  lemma InsertLinks(mem: Mem, root: Ref, sub: Below, bh: Heights, e: Ref)
    requires InsertState(mem, root, sub, bh, e)
    ensures e in mem && e in sub && mem[e].parent in mem && mem[mem[e].parent].parent in mem && NIL in mem &&
            mem[NIL] == NIL_NODE
  {
    ShapeLinks(mem, root, sub, e);
    if mem[e].parent != NIL { ShapeLinks(mem, root, sub, mem[e].parent); }
  }

  // e, its parent and its grandparent.
  ghost predicate Family(mem: Mem, root: Ref, sub: Below, e: Ref) {
    e in mem && e in sub && NIL in mem && mem[NIL] == NIL_NODE && mem[e].parent in Nodes(mem) &&
    mem[mem[e].parent].parent in Nodes(mem) &&
    mem[mem[e].parent].color == Red &&
    var p := mem[e].parent; var g := mem[p].parent;
    mem[g].left in mem && mem[g].right in mem && (mem[g].left == p || mem[g].right == p) &&
    mem[g].left != mem[g].right &&
    (mem[p].left == e || mem[p].right == e) && mem[p].left != mem[p].right &&
    (mem[g].left != NIL ==> mem[mem[g].left].parent == g) && (mem[g].right != NIL ==> mem[mem[g].right].parent == g)
  }

  lemma InsertFamily(mem: Mem, root: Ref, sub: Below, bh: Heights, e: Ref)
    requires InsertState(mem, root, sub, bh, e) && mem[e].parent in mem && mem[mem[e].parent].color == Red &&
             mem[mem[e].parent].parent != NIL
    ensures Family(mem, root, sub, e)
  {
    ShapeLinks(mem, root, sub, e);
    var p := mem[e].parent;
    assert mem[NIL] == NIL_NODE;
    ShapeLinks(mem, root, sub, p);
    ShapeLinks(mem, root, sub, mem[p].parent);
  }

  lemma InsertEnds(mem: Mem, root: Ref, sub: Below, bh: Heights, e: Ref)
    requires InsertState(mem, root, sub, bh, e) && mem[e].parent in mem
    requires !(mem[mem[e].parent].color == Red && mem[mem[e].parent].parent != NIL)
    ensures root in mem && (Weight(mem, mem[e].parent) == 1 || mem[e].parent == root)
  {
    var p := mem[e].parent;
    assert mem[NIL] == NIL_NODE;
    if p != NIL { ShapeLinks(mem, root, sub, p); }
  }

  lemma PaintsInOrder(mem: Mem, p: Ref, u: Ref, g: Ref)
    requires p in mem && u in mem && g in mem && p != u && u != g && p != g
    ensures var m := Paint(Paint(mem, p, Black), u, Black); m[u].parent == mem[u].parent && g in m
    ensures mem[p := mem[p].(color := Black)] == Paint(mem, p, Black)
  {}

  lemma ThreePaints(mem: Mem, a: Ref, ca: Color, b: Ref, cb: Color, c: Ref, cc: Color)
    requires a in mem && b in mem && c in mem
    ensures SameEntries(mem, Paint(Paint(Paint(mem, a, ca), b, cb), c, cc))
  {
    PaintEntries(mem, a, ca);
    PaintEntries(Paint(mem, a, ca), b, cb);
    PaintEntries(Paint(Paint(mem, a, ca), b, cb), c, cc);
    EntriesTrans(mem, Paint(mem, a, ca), Paint(Paint(mem, a, ca), b, cb));
    EntriesTrans(mem, Paint(Paint(mem, a, ca), b, cb), Paint(Paint(Paint(mem, a, ca), b, cb), c, cc));
  }

  lemma SubThere(mem: Mem, root: Ref, sub: Below, bh: Heights, e: Ref, g: Ref)
    requires InsertState(mem, root, sub, bh, e) && g in mem
    ensures e in sub && g in sub && g in bh
  {}

  // Two red nodes on the same side of a black grandparent, with a black uncle.
  ghost predicate Outward(mem: Mem, root: Ref, sub: Below, bh: Heights, e: Ref, g: Ref, dir: bool) {
    InsertState(mem, root, sub, bh, e) && mem[e].parent in Nodes(mem) &&
    var p := mem[e].parent;
    mem[p].color == Red && g == mem[p].parent && g in Nodes(mem) && Kid(mem[g], !dir) == p && Kid(mem[p], !dir) == e &&
    Weight(mem, Kid(mem[g], dir)) == 1 && e != p && e != g && p != g
  }

  lemma FamilyApart(mem: Mem, root: Ref, sub: Below, bh: Heights, e: Ref)
    requires InsertState(mem, root, sub, bh, e) && Family(mem, root, sub, e)
    ensures var p := mem[e].parent; var g := mem[p].parent; e != p && e != g && p != g && sub.Keys == mem.Keys
  {
    var p := mem[e].parent;
    KidBelow(mem, root, sub, p, mem[p].right == e);
    KidBelow(mem, root, sub, mem[p].parent, mem[mem[p].parent].right == p);
    hide Shape;
  }

  lemma UncleApart(mem: Mem, root: Ref, sub: Below, bh: Heights, e: Ref)
    requires InsertState(mem, root, sub, bh, e) && Family(mem, root, sub, e)
    ensures var g := mem[mem[e].parent].parent; mem[g].left != g && mem[g].right != g
  {
    var g := mem[mem[e].parent].parent;
    KidBelow(mem, root, sub, g, false);
    KidBelow(mem, root, sub, g, true);
    hide Shape;
  }

  lemma IsOutward(mem: Mem, root: Ref, sub: Below, bh: Heights, e: Ref, dir: bool)
    requires InsertState(mem, root, sub, bh, e) && Family(mem, root, sub, e)
    requires var p := mem[e].parent; var g := mem[p].parent;
             Kid(mem[g], !dir) == p && Kid(mem[p], !dir) == e && mem[Kid(mem[g], dir)].color == Black
    ensures Outward(mem, root, sub, bh, e, mem[mem[e].parent].parent, dir)
  {
    FamilyApart(mem, root, sub, bh, e);
    hide Shape;
  }

  lemma Straighten(mem: Mem, root: Ref, sub: Below, bh: Heights, e: Ref, dir: bool)
    requires InsertState(mem, root, sub, bh, e) && Family(mem, root, sub, e)
    requires var p := mem[e].parent; var g := mem[p].parent;
             Kid(mem[g], dir) == p && Kid(mem[p], !dir) == e && mem[Kid(mem[g], !dir)].color == Black
    ensures var p := mem[e].parent; var g := mem[p].parent;
            Shape(mem, root, sub) && e != NIL && Kid(mem[p], dir) in sub && Kid(mem[e], dir) in sub &&
            Outward(Rotated(mem, p, dir), root, RotatedBelow(mem, sub, p, dir), bh, p, g, !dir)
  {
    var p := mem[e].parent;
    var g := mem[p].parent;
    FamilyApart(mem, root, sub, bh, e);
    InsertInner(mem, root, sub, bh, e, p, dir);
    hide Shape, Rotated, RotatedBelow;
  }

  lemma OutwardFacts(mem: Mem, root: Ref, sub: Below, bh: Heights, e: Ref, g: Ref, dir: bool)
    requires Outward(mem, root, sub, bh, e, g, dir)
    ensures e in mem && mem[e].parent in mem && g in mem && mem[g].parent in mem && mem[mem[e].parent].parent == g &&
            mem[e].parent != g && e != g && e != mem[e].parent
    ensures InsertState(mem, root, sub, bh, e) && var p := mem[e].parent;
            p in Nodes(mem) && mem[p].color == Red && g in Nodes(mem) && Kid(mem[g], !dir) == p &&
            Kid(mem[p], !dir) == e && Weight(mem, Kid(mem[g], dir)) == 1
    ensures var p := mem[e].parent; var mem1 := Paint(Paint(mem, g, Red), p, Black);
            Shape(mem1, root, sub) && SameEntries(mem, mem1) && g in Nodes(mem1) && Kid(mem1[g], !dir) == p && mem1[e] == mem[e] && mem1[p].parent == g && mem1[g].parent == mem[g].parent
  {
    var p := mem[e].parent;
    var mem0 := Paint(mem, g, Red);
    var mem1 := Paint(mem0, p, Black);
    PaintEntries(mem, g, Red);
    PaintEntries(mem0, p, Black);
    EntriesTrans(mem, mem0, mem1);
    ShapeLinks(mem, root, sub, g);
    assert Recolored(mem, mem1, {g, p});
    RecoloredShape(mem, mem1, root, sub, {g, p});
    hide Shape;
  }

  // ----- around a removed node -----

  lemma KidThere(mem: Mem, root: Ref, sub: Below, n: Ref, right: bool)
    requires Shape(mem, root, sub) && n in Nodes(mem)
    ensures Kid(mem[n], right) in mem && Kid(mem[n], right) in sub && n !in sub[Kid(mem[n], right)]
  {
    KidBelow(mem, root, sub, n, right);
  }

  lemma OneFewer(s: set<Ref>, d: Ref)
    requires d in s
    ensures |s - {d}| == |s| - 1
  {}

  // What the assignments of mapnode_remove make of the map.
  lemma OutFacts(mem: Mem, root: Ref, sub: Below, bh: Heights, node: Ref, d: Ref, y: Ref, z: Ref) returns (mem': Mem)
    requires Shape(mem, root, sub) && Balanced(mem, bh) && UniqueKeys(mem) && node in Nodes(mem) && d in Nodes(mem) &&
             OnlyChild(mem, d, y) && z == mem[d].parent
    requires mem[node].left in sub
    requires node != d ==> d in sub[mem[node].left] && forall x :: x in sub[mem[node].left] ==> x in mem && (x == d || mem[x].key < mem[d].key)
    ensures y in mem && z in mem && y != d && z != d && mem' == Relinked(Moved(mem, node, d), d, y, z) - {d} &&
            d in sub && d in bh
    ensures var root', sub' := if z == NIL then y else root, BelowWithout(sub, d);
            Shape(mem', root', sub') && Nodes(mem') == Nodes(mem) - {d} && UniqueKeys(mem') &&
            View(mem') == View(mem) - {mem[node].key} &&
            if z == NIL || mem[d].color == Red then Balanced(mem', Without(bh, d))
            else RemoveState(mem', root, sub', Without(bh, d), y, z, mem[z].left != d)
  {
    hide UnlinkedRec, RekeyedRec, UniqueKeys, View, RemoveState, Balanced, Relinked, Moved;
    LeavesThere(mem, root, sub, d, y, z);
    mem' := Relinked(Moved(mem, node, d), d, y, z) - {d};
    RelinkedIs(mem, root, sub, node, d, y, z);
    ShapeLinks(mem, root, sub, node);
    IsRekeyed(mem, mem', root, sub, node, d);
    hide Shape, Rekeyed;
    Unlink(mem, mem', root, sub, bh, node, d, y, z);
    ShapeUnique(mem', if z == NIL then y else root, BelowWithout(sub, d));
    UnlinkView(mem, mem', sub, node, d);
    BalancedKeys(mem, bh);
  }

  lemma IsRekeyed(mem: Mem, mem': Mem, root: Ref, sub: Below, node: Ref, d: Ref)
    requires Shape(mem, root, sub) && node in Nodes(mem) && d in mem && mem[node].left in sub
    requires node != d ==> d in sub[mem[node].left] && forall x :: x in sub[mem[node].left] ==> x in mem && (x == d || mem[x].key < mem[d].key)
    requires forall n {:trigger RekeyedRec(mem, mem', node, d, n)} :: n in mem' && n != NIL ==> RekeyedRec(mem, mem', node, d, n)
    ensures Rekeyed(mem, mem', sub, node, d)
  {
    KidThere(mem, root, sub, node, true);
    hide Shape, RekeyedRec;
  }

  lemma BalancedKeys(mem: Mem, bh: Heights)
    requires Balanced(mem, bh)
    ensures bh.Keys == mem.Keys
  {}

  lemma LeavesThere(mem: Mem, root: Ref, sub: Below, d: Ref, y: Ref, z: Ref)
    requires Shape(mem, root, sub) && d in Nodes(mem) && OnlyChild(mem, d, y) && z == mem[d].parent
    ensures Leaves(mem, root, sub, d, y, z) && y != d && z != d && d in sub
  {
    ShapeLinks(mem, root, sub, d);
    LeavesFacts(mem, root, sub, d, y, z);
  }

  lemma RemoveLinks(mem: Mem, root: Ref, sub: Below, bh: Heights, y: Ref, z: Ref, side: bool)
    requires RemoveState(mem, root, sub, bh, y, z, side)
    ensures y in mem && z in mem && y in sub && z in sub && root in mem && NIL in mem && (z == NIL <==> y == root) &&
            sub.Keys == mem.Keys && bh.Keys == mem.Keys
    ensures mem[z].parent in mem && sub[y] <= Nodes(mem) && (y != root ==> bh[z] > 0) && mem[NIL] == NIL_NODE
  {
    if z != NIL { ShapeLinks(mem, root, sub, z); }
    forall x | x in sub[y] ensures x in Nodes(mem) { BelowTrans(mem, root, sub, y, x); }
  }

  lemma NephewsThere(mem: Mem, root: Ref, sub: Below, bh: Heights, y: Ref, z: Ref, side: bool, s: Ref)
    requires RemoveState(mem, root, sub, bh, y, z, side) && Siblings(mem, bh, y, z, side, s)
    ensures s in mem && mem[s].left in mem && mem[s].right in mem && z in mem && mem[z].parent in mem
  {
    ShapeLinks(mem, root, sub, s);
    ShapeLinks(mem, root, sub, z);
  }

  lemma ShortParent(mem: Mem, root: Ref, sub: Below, bh: Heights, y: Ref, z: Ref, side: bool)
    requires RemoveState(mem, root, sub, bh, y, z, side) && z != NIL
    ensures bh[z] > 0
  {}

  lemma SiblingLinks(mem: Mem, bh: Heights, y: Ref, z: Ref, side: bool, s: Ref)
    requires Siblings(mem, bh, y, z, side, s)
    ensures s in mem && z in mem
  {}

  lemma RotateColor(mem: Mem, root: Ref, sub: Below, x: Ref, dir: bool, n: Ref)
    requires Shape(mem, root, sub) && x in Nodes(mem) && Kid(mem[x], !dir) != NIL && n in mem
    ensures Kid(mem[x], !dir) in mem && n in Rotated(mem, x, dir) && Rotated(mem, x, dir)[n].color == mem[n].color
  {
    hide Rotated;
    IsAround(mem, root, sub, x, dir);
    var y := Kid(mem[x], !dir);
    RotatedIs(mem, x, y, Kid(mem[x], dir), Kid(mem[y], dir), Kid(mem[y], !dir), mem[x].parent, dir);
    hide Shape;
  }

  // Whichever node is on top now is black.
  lemma LoweredRoot(mem: Mem, mem1: Mem, root: Ref, sub: Below, bh: Heights, y: Ref, z: Ref, dir: bool, sibling: Ref)
    requires RemoveState(mem, root, sub, bh, y, z, dir) && z in Nodes(mem) && sibling in Nodes(mem) && z != sibling
    requires mem1 == Paint(Paint(mem, sibling, Black), z, Red) && Shape(mem1, root, sub) && Kid(mem1[z], !dir) == sibling
    ensures root in mem && Kid(mem1[z], !dir) in mem1
    ensures var root' := if mem1[z].parent == NIL then sibling else root;
            root' in Rotated(mem1, z, dir) && (mem[root].color == Black ==> Rotated(mem1, z, dir)[root'].color == Black)
  {
    hide RemoveState, Rotated;
    RotateColor(mem1, root, sub, z, dir, sibling);
    RootHasNoParent(mem1, root, sub);
    RotateColor(mem1, root, sub, z, dir, root);
    ShapeLinks(mem1, root, sub, z);
    hide Shape;
  }

  lemma NephewApart(mem: Mem, root: Ref, sub: Below, bh: Heights, y: Ref, z: Ref, side: bool, s: Ref)
    requires RemoveState(mem, root, sub, bh, y, z, side) && Siblings(mem, bh, y, z, side, s)
    ensures s in mem && Kid(mem[s], side) != s && Kid(mem[s], !side) != s
  {
    KidThere(mem, root, sub, s, side);
    KidThere(mem, root, sub, s, !side);
    KidBelow(mem, root, sub, s, side);
    hide Shape;
  }

  lemma RemovePaint(mem: Mem, mem1: Mem, root: Ref, sub: Below, bh: Heights, y: Ref, z: Ref, side: bool,
                    where: set<Ref>)
    requires RemoveState(mem, root, sub, bh, y, z, side) && Recolored(mem, mem1, where)
    ensures Shape(mem1, root, sub) && SameEntries(mem, mem1)
  {
    RecoloredShape(mem, mem1, root, sub, where);
    forall n | n in mem ensures SameEntry(mem, mem1, n) {}
  }

  lemma KeepsBelow(mem: Mem, sub: Below, x: Ref, dir: bool, y: Ref)
    requires x in mem && x in sub && Kid(mem[x], dir) in sub && Kid(mem[x], !dir) in mem &&
             Kid(mem[Kid(mem[x], !dir)], dir) in sub
    requires y in sub && y != x && y != Kid(mem[x], !dir)
    ensures y in RotatedBelow(mem, sub, x, dir) && RotatedBelow(mem, sub, x, dir)[y] == sub[y]
  {}

  lemma RemoveEnds(mem: Mem, root: Ref, sub: Below, bh: Heights, y: Ref, z: Ref, side: bool)
    requires RemoveState(mem, root, sub, bh, y, z, side) && !(y != root && mem[y].color == Black)
    ensures y == root || Weight(mem, y) == 0
  {}
}
