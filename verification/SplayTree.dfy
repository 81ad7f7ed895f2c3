/** The splay tree: top-down splaying in place, and the operations built on it. */
module SplayTree {
  import opened Elements
  import opened Order
  import opened Sides
  import opened SplayShape
  import opened SplayMemory

  class Head {
    var root: Node?
    ghost var mem: Memory
    ghost var shape: Tree<Node>

    /** `mem` is what the fields of the known elements say. */
    ghost predicate Coupled()
      reads this, mem.Keys
    {
      forall n :: n in mem ==> mem[n] == Cell(n.speLeft, n.speRight)
    }

    /** A search tree, spelled out by its links. */
    ghost predicate Valid()
      reads this, mem.Keys
    {
      Coupled() && RepTree(mem, shape) && root == Root(shape) && Sorted(Items())
    }

    ghost function Items(): seq<Node>
      reads this
    {
      Inorder(shape)
    }

    constructor (ghost known: set<Node>)
      ensures Valid() && Items() == [] && mem.Keys == known
    {
      root, shape := null, Leaf;
      new;
      mem := map n | n in known :: Cell(n.speLeft, n.speRight);
    }

    function Child(n: Node, d: Side): Node?
      reads n
    {
      if d.Lhs? then n.speLeft else n.speRight
    }

    method SetChild(n: Node, d: Side, child: Node?)
      requires Coupled() && n in mem
      modifies this`mem, n
      ensures Coupled() && mem == old(mem)[n := old(mem)[n].WithChild(d, child)]
    {
      if d.Lhs? {
        n.speLeft := child;
      } else {
        n.speRight := child;
      }
      mem := mem[n := mem[n].WithChild(d, child)];
    }

    /** SPLAY_ROTATE_RIGHT for side Lhs, SPLAY_ROTATE_LEFT for side Rhs. */
    method RotateRoot(d: Side, tmp: Node)
      requires Coupled() && root != null && root in mem && mem[root].Child(d) == tmp && tmp in mem
      modifies this`root, this`mem, mem.Keys
      ensures Coupled() && root == tmp && mem == RotatedMem(old(mem), old(root), d)
    {
      SetChild(root, d, Child(tmp, d.Flip()));
      SetChild(tmp, d.Flip(), root);
      root := tmp;
    }

    /** SPLAY_LINKLEFT for side Lhs, SPLAY_LINKRIGHT for side Rhs. */
    method LinkRoot(d: Side, end: Node, ghost base: Node,
                    ghost near: Spine<Node>, ghost t: Tree<Node>, ghost other: Spine<Node>) returns (end': Node)
      requires Coupled() && Cut(mem, root, base, d, near, t, other) && end == Bottom(near, base)
      requires t.Child(d).Branch?
      modifies this`root, this`mem, mem.Keys
      ensures
        var near' := Link(near, t.elm, t.Child(d.Flip()));
        && Coupled() && Cut(mem, root, base, d, near', t.Child(d), other) && end' == Bottom(near', base)
        && Parts(d, near', t.Child(d), other) == Parts(d, near, t, other)
      ensures Only(old(mem), mem, [base] + Parts(d, near, t, other))
    {
      LinkedCut(mem, base, d, near, t, other);
      LinkedParts(d, near, t, other);
      assert near.Link? ==> near.elm in Strand(near, d);
      SetChild(end, d, root);
      end' := root;
      root := Child(root, d);
    }

    /** One turn of either splay loop once the child `tmp` on side `d` is known to exist: an optional rotation
        (`straight`), then SPLAY_LINKLEFT (side Lhs) or SPLAY_LINKRIGHT (side Rhs) under `end`. */
    method Turn(d: Side, straight: bool, tmp: Node, end: Node,
                ghost base: Node, ghost near: Spine<Node>, ghost t: Tree<Node>, ghost other: Spine<Node>)
      returns (stop: bool, end': Node, ghost near': Spine<Node>, ghost t': Tree<Node>)
      requires Coupled() && Cut(mem, root, base, d, near, t, other) && end == Bottom(near, base)
      requires t.Child(d).Branch? && tmp == t.Child(d).elm
      modifies this`root, this`mem, mem.Keys
      ensures Coupled() && Cut(mem, root, base, d, near', t', other) && end' == Bottom(near', base)
      ensures
        var t1 := if straight then Rotated(t, d) else t;
        && (stop <==> straight && t1.Child(d).Leaf?)
        && (stop ==> t' == t1 && near' == near)
        && (!stop ==> t' == t1.Child(d) && near' == Link(near, t1.elm, t1.Child(d.Flip())))
      ensures Parts(d, near', t', other) == Parts(d, near, t, other)
      ensures Only(old(mem), mem, [base] + Parts(d, near, t, other))
    {
      stop, end', near', t' := false, end, near, t;
      if straight {
        RotatedCut(mem, base, d, near, t, other);
        RotatedInorder(t, d);
        RotateRoot(d, tmp);
        t' := Rotated(t, d);
        if Child(root, d) == null {
          return true, end', near', t';
        }
      }
      end' := LinkRoot(d, end, base, near, t', other);
      near' := Link(near, t'.elm, t'.Child(d.Flip()));
      t' := t'.Child(d);
    }

    /** SPLAY_ASSEMBLE: the parts below and above become the subtrees of the root. */
    method Assemble(node: Node, lo: Node, hi: Node, ghost l: Spine<Node>, ghost t: Tree<Node>, ghost r: Spine<Node>)
      requires Coupled() && Cut(mem, root, node, Lhs, r, t, l) && lo == Bottom(l, node) && hi == Bottom(r, node)
      modifies this`mem, this`shape, mem.Keys
      ensures Valid() && shape == Assembled(l, t, r) && Items() == Parts(Lhs, r, t, l)
      ensures OnlyBut(old(mem), mem, node, Parts(Lhs, r, t, l))
    {
      AssembledRep(mem, node, l, t, r);
      AssembledInorder(l, t, r);
      SetChild(lo, Rhs, root.speLeft);
      SetChild(hi, Lhs, root.speRight);
      SetChild(root, Lhs, node.speRight);
      SetChild(root, Rhs, node.speLeft);
      mem := mem - {node};
      shape := Assembled(l, t, r);
    }

    /** One turn while searching for `k`, which lies on side `d` of the root. */
    method SearchTurn(k: int, d: Side, end: Node,
                      ghost base: Node, ghost near: Spine<Node>, ghost t: Tree<Node>, ghost other: Spine<Node>)
      returns (stop: bool, end': Node, ghost near': Spine<Node>, ghost t': Tree<Node>)
      requires Coupled() && Cut(mem, root, base, d, near, t, other) && end == Bottom(near, base)
      requires Towards(k, t.elm, d) && Beyond(Strand(near, d), k, d)
      modifies this`root, this`mem, mem.Keys
      ensures Coupled() && Cut(mem, root, base, d, near', t', other) && end' == Bottom(near', base)
      ensures Beyond(Strand(near', d), k, d) && if stop then Final(t', k) else t' < t
      ensures Parts(d, near', t', other) == Parts(d, near, t, other)
      ensures Only(old(mem), mem, [base] + Parts(d, near, t, other))
    {
      var tmp := Child(root, d);
      if tmp == null {
        return true, end, near, t;
      }
      PartsApart(d, near, t, other);
      RotatedInorder(t, d);
      var straight := Towards(k, tmp, d);
      LinkedBeyond(d, near, if straight then Rotated(t, d) else t, k);
      stop, end', near', t' := Turn(d, straight, tmp, end, base, near, t, other);
    }

    /** Opens the splay: a fresh sentinel from which both parts will hang. */
    method Sentinel() returns (node: Node)
      requires Valid() && root != null
      modifies this`mem
      ensures fresh(node) && node !in old(mem) && Coupled() && mem == old(mem)[node := Cell(null, null)]
      ensures Cut(mem, root, node, Lhs, Base, shape, Base) && Parts(Lhs, Base, shape, Base) == Items()
    {
      node := new Node(0, 0);
      assert Parts(Lhs, Base, shape, Base) == Items();
      TreeFrame(mem, mem[node := Cell(null, null)], shape);
      InTree(mem, shape);
      mem := mem[node := Cell(null, null)];
    }

    /** The loop of SPLAY. */
    method SearchLoop(k: int, ghost t0: Tree<Node>, node: Node)
      returns (lo: Node, hi: Node, ghost l: Spine<Node>, ghost t: Tree<Node>, ghost r: Spine<Node>)
      requires Coupled() && Cut(mem, root, node, Lhs, Base, t0, Base)
      modifies this`root, this`mem, mem.Keys
      ensures Coupled() && Cut(mem, root, node, Lhs, r, t, l) && lo == Bottom(l, node) && hi == Bottom(r, node)
      ensures Below(Strand(l, Rhs), k) && Above(Strand(r, Lhs), k) && Final(t, k)
      ensures Parts(Lhs, r, t, l) == Parts(Lhs, Base, t0, Base)
      ensures Only(old(mem), mem, [node] + Parts(Lhs, Base, t0, Base))
    {
      lo, hi := node, node;
      l, t, r := Base, t0, Base;
      var stop := false;
      while !stop && root.key != k
        invariant Coupled() && Cut(mem, root, node, Lhs, r, t, l)
        invariant lo == Bottom(l, node) && hi == Bottom(r, node)
        invariant Below(Strand(l, Rhs), k) && Above(Strand(r, Lhs), k) && (stop ==> Final(t, k))
        invariant Parts(Lhs, r, t, l) == Parts(Lhs, Base, t0, Base)
        invariant Only(old(mem), mem, [node] + Parts(Lhs, Base, t0, Base))
        decreases !stop, t
      {
        if k < root.key {
          stop, hi, r, t := SearchTurn(k, Lhs, hi, node, r, t, l);
        } else {
          stop, lo, l, t := SearchTurn(k, Rhs, lo, node, l, t, r);
        }
      }
    }

    /** The loop and the assembly of SPLAY, under a given sentinel. */
    method SplayUnder(k: int, node: Node, ghost t0: Tree<Node>)
      requires Coupled() && Cut(mem, root, node, Lhs, Base, t0, Base)
      modifies this, mem.Keys
      ensures Valid() && root != null && Items() == Parts(Lhs, Base, t0, Base) && SplitAt(shape, k)
      ensures OnlyBut(old(mem), mem, node, Parts(Lhs, Base, t0, Base))
    {
      ghost var m := mem;
      var lo, hi;
      ghost var l, t, r;
      lo, hi, l, t, r := SearchLoop(k, t0, node);
      ghost var m1 := mem;
      AssembledSplit(l, t, r, k);
      Assemble(node, lo, hi, l, t, r);
      OnlyThenGone(m, node, m1, mem, Items());
    }

    /** SPLAY: the root becomes the element with key `k`, or one of the two it would stand between. */
    method Splay(k: int)
      requires Valid() && root != null
      modifies this, mem.Keys
      ensures Valid() && root != null && Items() == old(Items()) && SplitAt(shape, k)
      ensures Only(old(mem), mem, Items())
    {
      ghost var m := mem;
      var node := Sentinel();
      ghost var m1 := mem;
      SplayUnder(k, node, shape);
      OnlyWithoutSentinel(m, node, m1, mem, Items());
    }

    /** One turn towards the outermost element on side `d`. */
    method ExtremeTurn(d: Side, end: Node,
                       ghost base: Node, ghost near: Spine<Node>, ghost t: Tree<Node>, ghost other: Spine<Node>)
      returns (stop: bool, end': Node, ghost near': Spine<Node>, ghost t': Tree<Node>)
      requires Coupled() && Cut(mem, root, base, d, near, t, other) && end == Bottom(near, base)
      modifies this`root, this`mem, mem.Keys
      ensures Coupled() && Cut(mem, root, base, d, near', t', other) && end' == Bottom(near', base)
      ensures if stop then t'.Child(d).Leaf? else t' < t
      ensures Parts(d, near', t', other) == Parts(d, near, t, other)
      ensures Only(old(mem), mem, [base] + Parts(d, near, t, other))
    {
      var tmp := Child(root, d);
      if tmp == null {
        return true, end, near, t;
      }
      stop, end', near', t' := Turn(d, true, tmp, end, base, near, t, other);
    }

    /** The loop of SPLAY_MINMAX, which always turns to side `d`. */
    method ExtremeLoop(d: Side, ghost t0: Tree<Node>, node: Node)
      returns (end: Node, ghost near: Spine<Node>, ghost t: Tree<Node>)
      requires Coupled() && Cut(mem, root, node, d, Base, t0, Base)
      modifies this`root, this`mem, mem.Keys
      ensures Coupled() && Cut(mem, root, node, d, near, t, Base) && end == Bottom(near, node) && t.Child(d).Leaf?
      ensures Parts(d, near, t, Base) == Parts(d, Base, t0, Base)
      ensures Only(old(mem), mem, [node] + Parts(d, Base, t0, Base))
    {
      end, near, t := node, Base, t0;
      var stop := false;
      while !stop
        invariant Coupled() && Cut(mem, root, node, d, near, t, Base) && end == Bottom(near, node)
        invariant Parts(d, near, t, Base) == Parts(d, Base, t0, Base)
        invariant Only(old(mem), mem, [node] + Parts(d, Base, t0, Base))
        invariant stop ==> t.Child(d).Leaf?
        decreases !stop, t
      {
        stop, end, near, t := ExtremeTurn(d, end, node, near, t, Base);
      }
    }

    /** The loop and the assembly of SPLAY_MINMAX, under a given sentinel. */
    method SplayMinMaxUnder(d: Side, node: Node, ghost t0: Tree<Node>)
      requires Coupled() && Cut(mem, root, node, d, Base, t0, Base)
      modifies this, mem.Keys
      ensures Valid() && root != null && Items() == Parts(d, Base, t0, Base) && shape.Child(d).Leaf?
      ensures OnlyBut(old(mem), mem, node, Parts(d, Base, t0, Base))
    {
      ghost var m := mem;
      var end;
      ghost var near, t;
      end, near, t := ExtremeLoop(d, t0, node);
      ghost var m1 := mem;
      if d.Lhs? {
        Assemble(node, node, end, Base, t, near);
      } else {
        Assemble(node, end, node, near, t, Base);
      }
      OnlyThenGone(m, node, m1, mem, Items());
    }

    /** SPLAY_MINMAX: a negative `comp` brings the least element to the root, a positive one the greatest. */
    method SplayMinMax(comp: int)
      requires Valid() && root != null && comp != 0
      modifies this, mem.Keys
      ensures Valid() && root != null && Items() == old(Items())
      ensures shape.Child(if comp < 0 then Lhs else Rhs).Leaf?
      ensures Only(old(mem), mem, Items())
    {
      ghost var m := mem;
      var node := Sentinel();
      ghost var m1 := mem;
      SplayMinMaxUnder(if comp < 0 then Lhs else Rhs, node, shape);
      OnlyWithoutSentinel(m, node, m1, mem, Items());
    }

    // ---------- the operations ----------

    /** SPLAY_FIND. */
    method Find(k: int) returns (r: Node?)
      requires Valid()
      modifies this, mem.Keys
      ensures Valid() && Items() == old(Items()) && Only(old(mem), mem, Items())
      ensures r != null ==> r in Items() && r.key == k && r == root
      ensures r == null ==> forall n :: n in Items() ==> n.key != k
    {
      if root == null {
        return null;
      }
      Splay(k);
      return if root.key == k then root else null;
    }

    /** The pointer writes that put `elm` above the root. */
    method LinkAbove(elm: Node, d: Side, ghost t: Tree<Node>)
      requires Coupled() && root == Root(t) && t.Branch? && t.elm in mem && elm in mem && elm != t.elm
      requires RepTree(mem, t)
      modifies this`root, this`mem, mem.Keys
      ensures Coupled() && root == elm && mem == AddedMem(old(mem), t, elm, d)
    {
      SetChild(elm, d, Child(root, d));
      SetChild(elm, d.Flip(), root);
      SetChild(root, d, null);
      root := elm;
    }

    /** `elm` becomes the root; what lies on side `d` of the old root goes to that side of `elm`. */
    method AddRoot(elm: Node, d: Side)
      requires Valid() && SplitAt(shape, elm.key) && elm in mem && Towards(elm.key, root, d)
      modifies this, mem.Keys
      ensures Valid() && root == elm && shape == AddedShape(old(shape), elm, d)
      ensures mem == AddedMem(old(mem), old(shape), elm, d)
    {
      ghost var t := shape;
      AddedRep(mem, t, elm, d);
      AddedOrder(t, elm, d);
      LinkAbove(elm, d, t);
      shape := AddedShape(t, elm, d);
    }

    /** SPLAY_INSERT: adds `elm`, or returns the element that already has its key. */
    method Insert(elm: Node) returns (r: Node?)
      requires Valid() && elm in mem
      modifies this, mem.Keys
      ensures Valid()
      ensures r != null ==> r in Items() && r.key == elm.key && Items() == old(Items())
      ensures r == null ==> elm in Items() && Without(Items(), elm) == old(Items())
      ensures r == null ==> forall n :: n in old(Items()) ==> n.key != elm.key
      ensures Only(old(mem), mem, Items())
    {
      if root == null {
        SetChild(elm, Rhs, null);
        SetChild(elm, Lhs, null);
        shape := Branch(Leaf, elm, Leaf);
        root := elm;
        return null;
      }
      Splay(elm.key);
      if elm.key == root.key {
        return root;
      }
      ghost var m, t := mem, shape;
      var d := if elm.key < root.key then Lhs else Rhs;
      AddRoot(elm, d);
      AddedOrder(t, elm, d);
      AddedOnly(m, t, elm, d);
      OnlyThen(old(mem), m, Inorder(t), mem, Items());
      return null;
    }

    /** The part left of the removed root is splayed for its key, which leaves a root without a right child, and
        the part right of it is hung there. */
    method JoinParts(k: int, tmp: Node?, ghost l: Tree<Node>, ghost r: Tree<Node>)
      requires Valid() && shape == l && l.Branch? && RepTree(mem, r) && tmp == Root(r)
      requires Sorted(Inorder(l) + Inorder(r)) && Below(Inorder(l), k)
      modifies this, mem.Keys
      ensures Valid() && Items() == Inorder(l) + Inorder(r) && Only(old(mem), mem, Inorder(l))
    {
      SortedApart(Inorder(l), Inorder(r));
      Splay(k);
      TreeFrame(old(mem), mem, r);
      NothingAbove(shape, k);
      HungRight(mem, shape, r);
      SetChild(root, Rhs, tmp);
      shape := Branch(shape.left, root, r);
    }

    /** The root is taken out. */
    method RemoveRoot(k: int)
      requires Valid() && root != null && root.key == k
      modifies this, mem.Keys
      ensures Valid() && Items() == Without(old(Items()), old(root)) && Only(old(mem), mem, old(Items()))
    {
      ghost var t := shape;
      RemovedOrder(t);
      if root.speLeft == null {
        root := root.speRight;
        shape := t.right;
      } else {
        var tmp := root.speRight;
        root := root.speLeft;
        shape := t.left;
        JoinParts(k, tmp, t.left, t.right);
        OnlyWithin(old(mem), mem, Inorder(t.left), Inorder(t));
      }
    }

    /** SPLAY_REMOVE: takes out the element with the key of `elm`, if there is one. */
    method Remove(elm: Node) returns (r: Node?, ghost gone: Node?)
      requires Valid()
      modifies this, mem.Keys
      ensures Valid() && Only(old(mem), mem, old(Items()))
      ensures r == null ==> Items() == old(Items()) && forall n :: n in Items() ==> n.key != elm.key
      ensures r != null ==> r == elm && gone != null && gone in old(Items()) && gone.key == elm.key
      ensures r != null ==> Items() == Without(old(Items()), gone)
    {
      if root == null {
        return null, null;
      }
      Splay(elm.key);
      if elm.key != root.key {
        return null, null;
      }
      gone := root;
      ghost var m, s := mem, Items();
      RemoveRoot(elm.key);
      OnlyThen(old(mem), m, s, mem, s);
      return elm, gone;
    }
  }
}
