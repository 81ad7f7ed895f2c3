/** The red-black tree: packed parent words, rotations, insertion and removal, in place. */
module RbTree {
  import opened Elements
  import opened Order
  import opened Sides
  import opened PackedWord
  import opened RbShape
  import opened RbMemory
  import opened RbBalance
  import opened RbOrder

  /** Names an element whose cell is about to be looked up; without it no cell is unfolded. */
  ghost predicate Touch(n: Node) {
    true
  }

  class Head {
    var root: Node?
    const space: map<bv64, Node>
    ghost const arena: set<Node>
    ghost var mem: Memory
    ghost var shape: Tree<Node>

    /** Every element of the arena is found at its own, aligned, address, and `mem` is what its fields say. */
    ghost predicate Coupled()
      reads this, arena
    {
      mem.Keys == arena &&
      forall n {:trigger Touch(n)} :: Touch(n) && n in arena ==>
        && Aligned(n.addr) && n.addr != PLACEHOLDER && n.addr in space && space[n.addr] == n
        && mem[n] == Cell(n.left, n.right, ParentIn(n.word), ColorIn(n.word))
    }

    /** The links spell out `shape`. */
    ghost predicate WellLinked()
      reads this, arena
    {
      Coupled() && At(mem, root, Top, shape)
    }

    /** RB_INIT over a given arena of elements. */
    constructor (space: map<bv64, Node>, ghost arena: set<Node>)
      requires forall n :: n in arena ==>
        Aligned(n.addr) && n.addr != PLACEHOLDER && n.addr in space && space[n.addr] == n
      ensures Valid() && Items() == [] && this.space == space && this.arena == arena
    {
      this.space, this.arena := space, arena;
      root, shape := null, Leaf;
      new;
      mem := map n | n in arena :: Cell(n.left, n.right, ParentIn(n.word), ColorIn(n.word));
    }

    ghost function Items(): seq<Node>
      reads this
    {
      Inorder(shape)
    }

    /** A red-black tree: properly linked, in search order, balanced. */
    ghost predicate Valid()
      reads this, arena
    {
      WellLinked() && Sorted(Items()) && RedBlack(shape)
    }

    twostate predicate Unchanged()
      reads this
    {
      root == old(root) && mem == old(mem) && shape == old(shape)
    }

    /** Nothing outside the tree is written. */
    twostate predicate Framed()
      reads this
    {
      Same(old(mem), mem, arena - Nodes(shape)) && Nodes(shape) == old(Nodes(shape))
    }

    // ---------- fields ----------

    function ParentIn(word: bv64): Node? {
      var a := Address(word);
      if a == PLACEHOLDER || a !in space then null else space[a]
    }

    function ColorIn(word: bv64): Color {
      if Tag(word) == 0 then Black else Red
    }

    method GetParent(n: Node) returns (p: Node?)
      requires Coupled() && n in arena
      ensures p == mem[n].parent
    {
      assert Touch(n);
      p := ParentIn(n.word);
    }

    method GetColor(n: Node) returns (c: Color)
      requires Coupled() && n in arena
      ensures c == mem[n].color
    {
      assert Touch(n);
      c := ColorIn(n.word);
    }

    method GetChild(n: Node, s: Side) returns (c: Node?)
      requires Coupled() && n in arena
      ensures c == mem[n].Child(s)
    {
      assert Touch(n);
      c := if s.Lhs? then n.left else n.right;
    }

    method SetChild(n: Node, s: Side, child: Node?)
      requires Coupled() && n in arena
      modifies this`mem, n
      ensures Coupled() && mem == Linked(old(mem), n, s, child)
    {
      assert Touch(n);
      if s.Lhs? {
        n.left := child;
      } else {
        n.right := child;
      }
      mem := mem[n := mem[n].WithChild(s, child)];
    }

    method SetColor(n: Node, c: Color)
      requires Coupled() && n in arena
      modifies this`mem, n
      ensures Coupled() && mem == old(mem)[n := old(mem)[n].(color := c)]
    {
      assert Touch(n);
      TagWritten(n.word, if c.Red? then 1 else 0);
      n.word := WithTag(n.word, if c.Red? then 1 else 0);
      mem := mem[n := mem[n].(color := c)];
    }

    method SetParent(n: Node, p: Node?)
      requires Coupled() && n in arena && (p == null || p in arena)
      modifies this`mem, n
      ensures Coupled() && mem == Adopted(old(mem), n, p)
    {
      assert Touch(n) && (p != null ==> Touch(p));
      var a := if p == null then PLACEHOLDER else p.addr;
      Plain(PLACEHOLDER);
      AddressWritten(n.word, a);
      n.word := WithAddress(n.word, a);
      mem := mem[n := mem[n].(parent := p)];
    }

    /** Makes the link that points down to `was` point to `child`: a field of its parent `up`, or the root. */
    method Relink(up: Node?, was: Node, child: Node?)
      requires Coupled() && (up == null || up in arena)
      modifies this`root, this`mem, arena
      ensures Coupled() && mem == Relinked(old(mem), up, was, child)
      ensures root == if up == null then child else old(root)
    {
      if up != null {
        var left := GetChild(up, Lhs);
        SetChild(up, if left == was then Lhs else Rhs, child);
      } else {
        root := child;
      }
    }

    // ---------- rotation and recolouring on the shape ----------

    method RotateLinks(elm: Node, s: Side) returns (tmp: Node)
      requires Coupled() && CanRotate(mem, elm, s)
      modifies this`root, this`mem, arena
      ensures tmp == old(mem)[elm].Child(s.Flip())
      ensures Coupled() && mem == RotatedMem(old(mem), elm, s)
      ensures root == if old(mem)[elm].parent == null then tmp else old(root)
    {
      tmp := GetChild(elm, s.Flip());
      var inner := GetChild(tmp, s);
      SetChild(elm, s.Flip(), inner);
      if inner != null {
        SetParent(inner, elm);
      }
      var up := GetParent(elm);
      SetParent(tmp, up);
      Relink(up, elm, tmp);
      SetChild(tmp, s, elm);
      SetParent(elm, tmp);
    }

    method Rotate(elm: Node, s: Side, ghost p: Path<Node>, ghost t: Tree<Node>) returns (tmp: Node)
      requires WellLinked() && shape == Plug(p, t)
      requires t.Branch? && t.elm == elm && t.Child(s.Flip()).Branch?
      modifies this, arena
      ensures WellLinked() && shape == Plug(p, Rotated(t, s)) && tmp == t.Child(s.Flip()).elm
      ensures Framed() && Inorder(shape) == old(Inorder(shape))
    {
      RotatedPlug(mem, root, p, t, s);
      RotatedInorder(t, s);
      PlugInorder(p, t);
      PlugInorder(p, Rotated(t, s));
      tmp := RotateLinks(elm, s);
      shape := Plug(p, Rotated(t, s));
    }

    /** A rotation and the opposite one leave every link, parent and colour as they were. */
    method RotateAndBack(elm: Node, s: Side, ghost p: Path<Node>, ghost t: Tree<Node>)
      requires WellLinked() && shape == Plug(p, t)
      requires t.Branch? && t.elm == elm && t.Child(s.Flip()).Branch?
      modifies this, arena
      ensures WellLinked() && root == old(root) && mem == old(mem) && shape == old(shape)
    {
      ghost var m := mem;
      var tmp := Rotate(elm, s, p, t);
      RotatedBack(t, s);
      var _ := Rotate(tmp, s.Flip(), p, Rotated(t, s));
      SpelledCells(m, mem, shape, null);
    }

    method Paint(elm: Node, c: Color, ghost p: Path<Node>, ghost t: Tree<Node>)
      requires WellLinked() && shape == Plug(p, t) && t.Branch? && t.elm == elm
      modifies this`shape, this`mem, arena
      ensures WellLinked() && shape == Plug(p, t.(color := c))
      ensures Framed() && Inorder(shape) == old(Inorder(shape))
    {
      RecoloredPlug(mem, root, p, t, c);
      PlugInorder(p, t);
      PlugInorder(p, t.(color := c));
      SetColor(elm, c);
      shape := Plug(p, t.(color := c));
    }

    // ---------- insertion ----------

    /** Red uncle. */
    method FlipColors(parent: Node, gparent: Node, uncle: Node, ghost p: Path<Node>, ghost t: Tree<Node>)
      requires WellLinked() && shape == Plug(p, t) && !p.Top? && !p.up.Top? && p.up.sib.Branch?
      requires parent == p.elm && gparent == p.up.elm && uncle == p.up.sib.elm
      modifies this`shape, this`mem, arena
      ensures WellLinked() && shape == Plug(p.up.up, Flipped(p, t))
      ensures Framed() && Inorder(shape) == old(Inorder(shape))
    {
      ghost var g := p.up;
      Paint(uncle, Black, Across(g, Lifted(p, t)), g.sib);
      ghost var g' := g.(sib := g.sib.(color := Black));
      Paint(parent, Black, g', Lifted(p, t));
      Paint(gparent, Red, g.up, Lifted(g', Lifted(p, t).(color := Black)));
    }

    /** Black uncle, inner grandchild: the parent is rotated outwards, and the two swap roles. */
    method RotateInner(elm: Node, parent: Node, s: Side, ghost p: Path<Node>, ghost t: Tree<Node>)
      returns (ghost p': Path<Node>, ghost t': Tree<Node>)
      requires WellLinked() && shape == Plug(p, t) && RedParent(p, t) && !p.up.Top?
      requires elm == t.elm && parent == p.elm && s == p.up.side == p.side.Flip()
      modifies this, arena
      ensures p' == Went(p.up, s, Red, elm, t.Child(s.Flip())) && t' == Join(s, p.sib, Red, parent, t.Child(s))
      ensures WellLinked() && shape == Plug(p', t') && RedParent(p', t')
      ensures Framed() && Inorder(shape) == old(Inorder(shape))
    {
      InnerGrows(p, t);
      var _ := Rotate(parent, s, p.up, Lifted(p, t));
      p', t' := Went(p.up, s, Red, elm, t.Child(s.Flip())), Join(s, p.sib, Red, p.elm, t.Child(s));
    }

    /** Black uncle, outer grandchild. */
    method RotateOuter(parent: Node, gparent: Node, s: Side, ghost p: Path<Node>, ghost t: Tree<Node>)
      returns (ghost p': Path<Node>)
      requires WellLinked() && shape == Plug(p, t) && RedParent(p, t) && !p.up.Top? && !IsRed(p.up.sib)
      requires parent == p.elm && gparent == p.up.elm && s == p.side == p.up.side
      modifies this, arena
      ensures p' == Went(p.up.up, s, Black, p.elm, Join(s, p.sib, Red, p.up.elm, p.up.sib))
      ensures WellLinked() && shape == Plug(p', t) && Growing(p', t)
      ensures Framed() && Inorder(shape) == old(Inorder(shape))
    {
      OuterGrows(p, t);
      ghost var g := p.up;
      Paint(parent, Black, g, Lifted(p, t));
      Paint(gparent, Red, g.up, Lifted(g, Lifted(p, t).(color := Black)));
      var _ := Rotate(gparent, s.Flip(), g.up, Lifted(g, Lifted(p, t).(color := Black)).(color := Red));
      p' := Went(p.up.up, s, Black, p.elm, Join(s, p.sib, Red, p.up.elm, p.up.sib));
    }

    /** The parent of `elm`, the side `elm` is on, its sibling, and whether the sibling is red. */
    method Uncle(elm: Node, ghost p: Path<Node>, ghost t: Tree<Node>)
      returns (parent: Node, s: Side, tmp: Node?, red: bool)
      requires WellLinked() && shape == Plug(p, t) && !p.Top? && t.Branch? && elm == t.elm
      ensures parent == p.elm && s == p.side && tmp == Root(p.sib) && (red <==> IsRed(p.sib))
    {
      Look(mem, root, p, t);
      Look(mem, root, Across(p, t), p.sib);
      parent := GetParent(elm);
      var left := GetChild(parent, Lhs);
      s := if elm == left then Lhs else Rhs;
      tmp := GetChild(parent, s.Flip());
      red := false;
      if tmp != null {
        var color := GetColor(tmp);
        red := color == Red;
      }
    }

    /** One turn of the loop: `elm` is red and so is its parent. */
    method InsertStep(e: Node, par: Node, ghost p: Path<Node>, ghost t: Tree<Node>)
      returns (elm: Node, ghost p': Path<Node>, ghost t': Tree<Node>)
      requires WellLinked() && shape == Plug(p, t) && RedParent(p, t) && e == t.elm && par == p.elm
      modifies this, arena
      ensures WellLinked() && shape == Plug(p', t') && Growing(p', t') && elm == t'.elm && Depth(p') < Depth(p)
      ensures Framed() && Inorder(shape) == old(Inorder(shape))
    {
      elm, p', t' := e, p, t;
      var parent := par;
      GrandparentBlack(p, t);
      Look(mem, root, p, t);
      var gparent, s, tmp, red := Uncle(parent, p.up, Lifted(p, t));
      if red {
        FlippedGrows(p, t);
        FlipColors(parent, gparent, tmp, p, t);
        elm, p', t' := gparent, p.up.up, Flipped(p, t);
      } else {
        var inner := GetChild(parent, s.Flip());
        if inner == elm {
          p', t' := RotateInner(elm, parent, s, p, t);
          parent, elm := elm, parent;
        }
        p' := RotateOuter(parent, gparent, s, p', t');
      }
    }

    method InsertColor(e: Node, ghost p0: Path<Node>, ghost t0: Tree<Node>)
      requires WellLinked() && shape == Plug(p0, t0) && Growing(p0, t0) && t0.elm == e
      modifies this, arena
      ensures WellLinked() && RedBlack(shape)
      ensures Framed() && Inorder(shape) == old(Inorder(shape))
    {
      var elm := e;
      ghost var p, t := p0, t0;
      while true
        invariant WellLinked() && shape == Plug(p, t) && Growing(p, t) && t.elm == elm
        invariant Framed() && Inorder(shape) == old(Inorder(shape))
        decreases Depth(p)
      {
        Look(mem, root, p, t);
        var parent := GetParent(elm);
        if parent == null { break; }
        var color := GetColor(parent);
        if color != Red { break; }
        elm, p, t := InsertStep(elm, parent, p, t);
      }
      GrownBlackened(p, t, shape);
      Look(mem, root, Top, shape);
      Paint(root, Black, Top, shape);
    }

    /** A red element without children below `parent`. */
    method SetLinks(elm: Node, parent: Node?)
      requires Coupled() && elm in arena && (parent == null || parent in arena)
      modifies this`mem, elm
      ensures Coupled() && mem == old(mem)[elm := Cell(null, null, parent, Red)]
    {
      SetParent(elm, parent);
      SetChild(elm, Rhs, null);
      SetChild(elm, Lhs, null);
      SetColor(elm, Red);
    }

    /** Hangs `elm`, red and without children, at the empty place at the end of `p`. */
    method Attach(elm: Node, parent: Node?, s: Side, ghost p: Path<Node>)
      requires WellLinked() && shape == Plug(p, Leaf) && elm in arena && elm !in Nodes(shape)
      requires parent == Parent(p) && (!p.Top? ==> s == p.side)
      modifies this, arena
      ensures WellLinked() && shape == Plug(p, Branch(Leaf, Red, elm, Leaf))
      ensures Nodes(shape) == old(Nodes(shape)) + {elm}
      ensures Same(old(mem), mem, arena - Nodes(shape))
    {
      AttachedPlug(mem, root, p, elm);
      SetLinks(elm, parent);
      if parent != null {
        SetChild(parent, s, elm);
      } else {
        root := elm;
      }
      shape := Plug(p, Branch(Leaf, Red, elm, Leaf));
    }

    /** Follows `k` down to its element or to the empty place where it belongs. */
    method Search(k: int) returns (tmp: Node?, parent: Node?, s: Side, ghost p: Path<Node>, ghost t: Tree<Node>)
      requires WellLinked() && Sorted(Items())
      ensures shape == Plug(p, t) && tmp == Root(t) && parent == Parent(p) && (!p.Top? ==> s == p.side)
      ensures Bracketed(p, k) && (t.Branch? ==> t.elm.key == k)
    {
      tmp, parent, s := root, null, Lhs;
      p, t := Top, shape;
      Look(mem, root, Top, shape);
      while tmp != null
        invariant shape == Plug(p, t) && Bracketed(p, k)
        invariant tmp == Root(t) && parent == Parent(p) && (!p.Top? ==> s == p.side)
        decreases t
      {
        Look(mem, root, p, t);
        PlugInorder(p, t);
        if k < tmp.key {
          s := Lhs;
        } else if k > tmp.key {
          s := Rhs;
        } else {
          return;
        }
        Descend(p, t, k, s);
        parent := tmp;
        tmp := GetChild(tmp, s);
        p, t := Went(p, s, t.color, t.elm, t.Child(s.Flip())), t.Child(s);
      }
    }

    method InsertAt(elm: Node, parent: Node?, s: Side, ghost p: Path<Node>)
      requires Valid() && shape == Plug(p, Leaf) && Bracketed(p, elm.key) && elm in arena
      requires parent == Parent(p) && (!p.Top? ==> s == p.side)
      modifies this, arena
      ensures Valid() && elm in Items() && Without(Items(), elm) == old(Items())
      ensures Same(old(mem), mem, arena - Nodes(shape))
    {
      PlugInorder(p, Leaf);
      Placed(p, elm);
      InorderNodes(shape);
      PlugGrows(p, elm);
      Attach(elm, parent, s, p);
      InsertColor(elm, p, Branch(Leaf, Red, elm, Leaf));
    }

    /** Adds `elm`, or returns the element that already has its key. */
    method Insert(elm: Node) returns (r: Node?)
      requires Valid() && elm in arena
      modifies this, arena
      ensures Valid()
      ensures r != null ==> r in Items() && r.key == elm.key && Unchanged()
      ensures r == null ==> elm in Items() && Without(Items(), elm) == old(Items())
      ensures r == null ==> forall n :: n in old(Items()) ==> n.key != elm.key
      ensures Same(old(mem), mem, arena - Nodes(shape))
    {
      var tmp, parent, s;
      ghost var p, t;
      tmp, parent, s, p, t := Search(elm.key);
      PlugInorder(p, t);
      if tmp != null {
        return tmp;
      }
      InsertAt(elm, parent, s, p);
      return null;
    }

    // ---------- removal ----------

    /** Whether a child is missing or black. */
    method ChildIsBlack(n: Node, s: Side, ghost p: Path<Node>, ghost t: Tree<Node>) returns (b: bool)
      requires WellLinked() && shape == Plug(p, t) && t.Branch? && n == t.elm
      ensures b <==> !IsRed(t.Child(s))
    {
      Look(mem, root, p, t);
      Look(mem, root, Went(p, s, t.color, t.elm, t.Child(s.Flip())), t.Child(s));
      var child := GetChild(n, s);
      if child == null {
        return true;
      }
      var color := GetColor(child);
      return color == Black;
    }

    method NephewsBlack(tmp: Node, s: Side, ghost p: Path<Node>, ghost t: Tree<Node>) returns (near: bool, far: bool)
      requires WellLinked() && shape == Plug(p, t) && !p.Top? && p.sib.Branch? && tmp == p.sib.elm
      ensures near <==> !IsRed(p.sib.Child(s))
      ensures far <==> !IsRed(p.sib.Child(s.Flip()))
    {
      near := ChildIsBlack(tmp, s, Across(p, t), p.sib);
      far := ChildIsBlack(tmp, s.Flip(), Across(p, t), p.sib);
    }

    method RotateRedSibling(parent: Node, sibling: Node, s: Side, ghost p: Path<Node>, ghost t: Tree<Node>)
      returns (tmp: Node, ghost p': Path<Node>)
      requires WellLinked() && shape == Plug(p, t) && Lacking(p, t) && IsRed(p.sib)
      requires parent == p.elm && sibling == p.sib.elm && s == p.side
      modifies this, arena
      ensures p' == Went(Went(p.up, s, Black, p.sib.elm, p.sib.Child(s.Flip())), s, Red, parent, p.sib.Child(s))
      ensures WellLinked() && shape == Plug(p', t) && Lacking(p', t) && p'.sib.Branch? && tmp == p'.sib.elm
      ensures Framed() && Inorder(shape) == old(Inorder(shape))
    {
      RedSibling(p, t);
      Paint(sibling, Black, Across(p, t), p.sib);
      ghost var q := p.(sib := p.sib.(color := Black));
      Paint(parent, Red, q.up, Lifted(q, t));
      var _ := Rotate(parent, s, q.up, Lifted(q, t).(color := Red));
      p' := Went(Went(p.up, s, Black, p.sib.elm, p.sib.Child(s.Flip())), s, Red, parent, p.sib.Child(s));
      Look(mem, root, p', t);
      tmp := GetChild(parent, s.Flip());
    }

    /** Trades colours between the black sibling and its red inner child. */
    method SwapInner(sibling: Node, s: Side, ghost p: Path<Node>, ghost t: Tree<Node>) returns (ghost sib: Tree<Node>)
      requires WellLinked() && shape == Plug(p, t) && !p.Top? && s == p.side
      requires p.sib.Branch? && sibling == p.sib.elm && p.sib.Child(s).Branch?
      modifies this`shape, this`mem, arena
      ensures sib == Join(s, p.sib.Child(s).(color := Black), Red, sibling, p.sib.Child(s.Flip()))
      ensures WellLinked() && shape == Plug(Across(p, t), sib)
      ensures Framed() && Inorder(shape) == old(Inorder(shape))
    {
      ghost var q, near, far := Across(p, t), p.sib.Child(s), p.sib.Child(s.Flip());
      Look(mem, root, q, p.sib);
      var oleft := GetChild(sibling, s);
      Paint(oleft, Black, Went(q, s, p.sib.color, sibling, far), near);
      sib := Join(s, near.(color := Black), p.sib.color, sibling, far);
      Paint(sibling, Red, q, sib);
      sib := sib.(color := Red);
    }

    method RotateInnerNephew(parent: Node, sibling: Node, s: Side, ghost p: Path<Node>, ghost t: Tree<Node>)
      returns (tmp: Node, ghost p': Path<Node>)
      requires WellLinked() && shape == Plug(p, t) && Lacking(p, t)
      requires p.sib.Branch? && !IsRed(p.sib) && !BlackNephews(p) && !IsRed(p.sib.Child(p.side.Flip()))
      requires parent == p.elm && sibling == p.sib.elm && s == p.side
      modifies this, arena
      ensures WellLinked() && shape == Plug(p', t) && Lacking(p', t) && p' == p.(sib := p'.sib)
      ensures p'.sib.Branch? && !IsRed(p'.sib) && IsRed(p'.sib.Child(s.Flip())) && tmp == p'.sib.elm
      ensures Framed() && Inorder(shape) == old(Inorder(shape))
    {
      InnerNephew(p, t);
      ghost var sib := SwapInner(sibling, s, p, t);
      var _ := Rotate(sibling, s.Flip(), Across(p, t), sib);
      p' := p.(sib := Rotated(sib, s.Flip()));
      Look(mem, root, p', t);
      tmp := GetChild(parent, s.Flip());
    }

    /** The sibling takes the parent's colour, and the parent turns black. */
    method PassColor(parent: Node, tmp: Node, ghost p: Path<Node>, ghost t: Tree<Node>)
      returns (ghost q: Path<Node>)
      requires WellLinked() && shape == Plug(p, t) && !p.Top?
      requires p.sib.Branch? && parent == p.elm && tmp == p.sib.elm
      modifies this`shape, this`mem, arena
      ensures q == p.(color := Black, sib := p.sib.(color := p.color))
      ensures WellLinked() && shape == Plug(q, t)
      ensures Framed() && Inorder(shape) == old(Inorder(shape))
    {
      Look(mem, root, p, t);
      var color := GetColor(parent);
      Paint(tmp, color, Across(p, t), p.sib);
      q := p.(sib := p.sib.(color := color));
      Paint(parent, Black, q.up, Lifted(q, t));
      q := q.(color := Black);
    }

    /** The outer nephew turns black. */
    method PaintOuter(tmp: Node, s: Side, ghost p: Path<Node>, ghost t: Tree<Node>) returns (ghost q: Path<Node>)
      requires WellLinked() && shape == Plug(p, t) && !p.Top? && s == p.side
      requires p.sib.Branch? && p.sib.Child(s.Flip()).Branch? && tmp == p.sib.elm
      modifies this`shape, this`mem, arena
      ensures
        var far := p.sib.Child(s.Flip()).(color := Black);
        q == p.(sib := Join(s, p.sib.Child(s), p.sib.color, tmp, far))
      ensures WellLinked() && shape == Plug(q, t)
      ensures Framed() && Inorder(shape) == old(Inorder(shape))
    {
      ghost var near, far := p.sib.Child(s), p.sib.Child(s.Flip());
      Look(mem, root, Across(p, t), p.sib);
      var outer := GetChild(tmp, s.Flip());
      Paint(outer, Black, Went(Across(p, t), s.Flip(), p.sib.color, tmp, near), far);
      q := p.(sib := Join(s, near, p.sib.color, tmp, far.(color := Black)));
    }

    method RotateOuterNephew(parent: Node, tmp: Node, s: Side, ghost p: Path<Node>, ghost t: Tree<Node>)
      requires WellLinked() && shape == Plug(p, t) && Lacking(p, t)
      requires p.sib.Branch? && !IsRed(p.sib) && IsRed(p.sib.Child(s.Flip()))
      requires parent == p.elm && tmp == p.sib.elm && s == p.side
      modifies this, arena
      ensures WellLinked() && RedBlack(shape)
      ensures Framed() && Inorder(shape) == old(Inorder(shape))
    {
      OuterNephew(p, t);
      ghost var q := PassColor(parent, tmp, p, t);
      q := PaintOuter(tmp, s, q, t);
      var _ := Rotate(parent, s, q.up, Lifted(q, t));
    }

    /** The side of the focus and its sibling, which is rotated up first when it is red. */
    method BlackSiblingOf(elm: Node?, parent: Node, ghost p: Path<Node>, ghost t: Tree<Node>)
      returns (s: Side, tmp: Node, ghost p': Path<Node>)
      requires WellLinked() && shape == Plug(p, t) && Lacking(p, t) && elm == Root(t) && parent == p.elm
      modifies this, arena
      ensures WellLinked() && shape == Plug(p', t) && Lacking(p', t) && parent == p'.elm && s == p'.side
      ensures p'.sib.Branch? && !IsRed(p'.sib) && tmp == p'.sib.elm
      ensures p' == p || (Depth(p') == Depth(p) + 1 && p'.color == Red)
      ensures Framed() && Inorder(shape) == old(Inorder(shape))
    {
      SiblingExists(p, t);
      Look(mem, root, p, t);
      Look(mem, root, Across(p, t), p.sib);
      var left := GetChild(parent, Lhs);
      s := if left == elm then Lhs else Rhs;
      tmp := GetChild(parent, s.Flip());
      p' := p;
      var color := GetColor(tmp);
      if color == Red {
        tmp, p' := RotateRedSibling(parent, tmp, s, p, t);
      }
    }

    /** Both nephews black: the sibling turns red and the parent's subtree lacks one instead. */
    method PassUp(par: Node, tmp: Node, ghost p: Path<Node>, ghost t: Tree<Node>)
      returns (parent: Node?, ghost t': Tree<Node>)
      requires WellLinked() && shape == Plug(p, t) && Lacking(p, t) && par == p.elm
      requires p.sib.Branch? && !IsRed(p.sib) && BlackNephews(p) && tmp == p.sib.elm
      modifies this`shape, this`mem, arena
      ensures WellLinked() && shape == Plug(p.up, t') && Short(p.up, t') && par == Root(t') && parent == Parent(p.up)
      ensures IsRed(t') <==> p.color == Red
      ensures Framed() && Inorder(shape) == old(Inorder(shape))
    {
      BlackSibling(p, t);
      Paint(tmp, Red, Across(p, t), p.sib);
      t' := Join(p.side, t, p.color, p.elm, p.sib.(color := Red));
      Look(mem, root, p.up, t');
      parent := GetParent(par);
    }

    /** A red nephew: one or two rotations supply the missing black node. */
    method SupplyBlack(parent: Node, sibling: Node, s: Side, farBlack: bool, ghost p: Path<Node>, ghost t: Tree<Node>)
      requires WellLinked() && shape == Plug(p, t) && Lacking(p, t)
      requires p.sib.Branch? && !IsRed(p.sib) && !BlackNephews(p) && (farBlack <==> !IsRed(p.sib.Child(s.Flip())))
      requires parent == p.elm && sibling == p.sib.elm && s == p.side
      modifies this, arena
      ensures WellLinked() && RedBlack(shape)
      ensures Framed() && Inorder(shape) == old(Inorder(shape))
    {
      var tmp := sibling;
      ghost var q := p;
      if farBlack {
        tmp, q := RotateInnerNephew(parent, tmp, s, q, t);
      }
      RotateOuterNephew(parent, tmp, s, q, t);
    }

    /** One turn of the loop: `e`, missing or black, lacks one black node. `done` stands for the break. */
    method RemoveStep(e: Node?, par: Node, ghost p: Path<Node>, ghost t: Tree<Node>)
      returns (elm: Node?, parent: Node?, done: bool, ghost p': Path<Node>, ghost t': Tree<Node>)
      requires WellLinked() && shape == Plug(p, t) && Lacking(p, t) && e == Root(t) && par == p.elm
      modifies this, arena
      ensures WellLinked() && shape == Plug(p', t') && Short(p', t') && elm == Root(t')
      ensures if done then p' == Top && !IsRed(t') else parent == Parent(p')
      ensures done || Depth(p') < Depth(p) || (Depth(p') == Depth(p) && IsRed(t'))
      ensures Framed() && Inorder(shape) == old(Inorder(shape))
    {
      var s, tmp;
      s, tmp, p' := BlackSiblingOf(e, par, p, t);
      var nearBlack, farBlack := NephewsBlack(tmp, s, p', t);
      if nearBlack && farBlack {
        elm, done := par, false;
        parent, t' := PassUp(par, tmp, p', t);
        p' := p'.up;
      } else {
        SupplyBlack(par, tmp, s, farBlack, p', t);
        Look(mem, root, Top, shape);
        elm, parent, done := root, null, true;
        p', t' := Top, shape;
      }
    }

    /** The loop condition: the place of `elm` is missing or black, and not the root. */
    method IsLacking(elm: Node?, ghost p: Path<Node>, ghost t: Tree<Node>) returns (b: bool)
      requires WellLinked() && shape == Plug(p, t) && elm == Root(t)
      ensures b <==> !IsRed(t) && !p.Top?
    {
      Look(mem, root, p, t);
      var color := Black;
      if elm != null {
        color := GetColor(elm);
      }
      return color == Black && elm != root;
    }

    /** Restores the balance after a black node left the place of `e`, whose parent is `par`. */
    method RemoveColor(par: Node?, e: Node?, ghost p0: Path<Node>, ghost t0: Tree<Node>)
      requires WellLinked() && shape == Plug(p0, t0) && Short(p0, t0) && e == Root(t0) && par == Parent(p0)
      modifies this, arena
      ensures WellLinked() && RedBlack(shape)
      ensures Framed() && Inorder(shape) == old(Inorder(shape))
    {
      var parent, elm, done := par, e, false;
      ghost var p, t := p0, t0;
      while !done
        invariant WellLinked() && shape == Plug(p, t) && Short(p, t) && elm == Root(t)
        invariant if done then p == Top || IsRed(t) else parent == Parent(p)
        invariant Framed() && Inorder(shape) == old(Inorder(shape))
        decreases !done, Depth(p), !IsRed(t)
      {
        var lacking := IsLacking(elm, p, t);
        if lacking {
          elm, parent, done, p, t := RemoveStep(elm, parent, p, t);
        } else {
          done := true;
        }
      }
      ShortBlackened(p, t);
      if elm != null {
        Paint(elm, Black, p, t);
      }
    }

    /** From an element to the outermost one on side `s` below it. */
    method Extreme(n: Node, s: Side, ghost p: Path<Node>, ghost t: Tree<Node>)
      returns (elm: Node, ghost q: Path<Node>, ghost t': Tree<Node>)
      requires WellLinked() && shape == Plug(p, t) && t.Branch? && n == t.elm
      ensures Along(q, s) && Plug(q, t') == t && shape == Plug(Under(q, p), t')
      ensures t'.Branch? && elm == t'.elm && t'.Child(s).Leaf?
    {
      elm, q, t' := n, Top, t;
      while true
        invariant Along(q, s) && Plug(q, t') == t && shape == Plug(Under(q, p), t')
        invariant t'.Branch? && elm == t'.elm
        decreases t'
      {
        Look(mem, root, Under(q, p), t');
        var left := GetChild(elm, s);
        if left == null { break; }
        elm := left;
        q, t' := Went(q, s, t'.color, t'.elm, t'.Child(s.Flip())), t'.Child(s);
      }
    }

    /** Bypasses an element that has at most one child. */
    method Splice(elm: Node, child: Node?, parent: Node?, ghost p: Path<Node>, ghost t: Tree<Node>)
      requires WellLinked() && shape == Plug(p, t) && t.Branch? && (t.left.Leaf? || t.right.Leaf?)
      requires elm == t.elm && child == Root(OnlyChild(t)) && parent == Parent(p)
      modifies this, arena
      ensures WellLinked() && shape == Plug(p, OnlyChild(t))
      ensures Nodes(shape) == old(Nodes(shape)) - {elm} && Same(old(mem), mem, arena - Nodes(shape))
    {
      Look(mem, root, p, t);
      FocusTop(mem, root, p, t);
      KnownRoots(mem, t, Parent(p));
      ghost var m := mem;
      if child != null {
        SetParent(child, parent);
      }
      Relink(parent, elm, child);
      SplicedPlug(m, old(root), p, t, mem);
      shape := Plug(p, OnlyChild(t));
    }

    method CopyLinks(elm: Node, from: Node)
      requires Coupled() && elm in arena && from in arena
      modifies this`mem, elm
      ensures Coupled() && mem == old(mem)[elm := old(mem)[from]]
    {
      assert Touch(elm) && Touch(from);
      elm.left, elm.right, elm.word := from.left, from.right, from.word;
      mem := mem[elm := mem[from]];
    }

    /** `elm` takes over all links of `was`, in both directions. */
    method TakeOver(was: Node, elm: Node)
      requires Coupled() && was in arena && elm in arena && mem[was].left != null && mem[was].left in arena
      requires Known(mem, mem[was].parent) && Known(mem, mem[was].right)
      requires was != elm && mem[was].parent != was && mem[was].left != was
      modifies this`root, this`mem, arena
      ensures Coupled() && mem == ReplacedMem(old(mem), was, elm)
      ensures root == if old(mem)[was].parent == null then elm else old(root)
    {
      CopyLinks(elm, was);
      var up := GetParent(was);
      Relink(up, was, elm);
      var left := GetChild(was, Lhs);
      SetParent(left, elm);
      var right := GetChild(was, Rhs);
      if right != null {
        SetParent(right, elm);
      }
    }

    /** Puts the unlinked `elm` in the place of `was`. */
    method Replace(was: Node, elm: Node, ghost p: Path<Node>, ghost t: Tree<Node>)
      requires WellLinked() && shape == Plug(p, t) && t.Branch? && was == t.elm && t.left.Branch?
      requires elm in arena && elm !in Nodes(shape)
      modifies this, arena
      ensures WellLinked() && shape == Plug(p, t.(elm := elm))
      ensures Nodes(shape) == old(Nodes(shape)) - {was} + {elm}
      ensures Same(old(mem), mem, arena - Nodes(shape))
    {
      ReplacedPlug(mem, root, p, t, elm);
      Look(mem, root, p, t);
      FocusTop(mem, root, p, t);
      KnownRoots(mem, t, Parent(p));
      PlugNodes(p, t);
      TakeOver(was, elm);
      shape := Plug(p, t.(elm := elm));
    }

    /** Unlinks the successor of an element with two children, which is the leftmost one on its right. */
    method UnlinkSuccessor(right: Node, ghost p0: Path<Node>, ghost t: Tree<Node>)
      returns (elm: Node, parent: Node, child: Node?, color: Color, ghost q: Path<Node>, ghost t': Tree<Node>)
      requires WellLinked() && shape == Plug(p0, t) && !p0.Top? && t.Branch? && right == t.elm
      modifies this, arena
      ensures Along(q, Lhs) && t'.Branch? && t'.left.Leaf? && elm == t'.elm && color == t'.color
      ensures old(shape) == Plug(Under(q, p0), t') && child == Root(t'.right) && parent == Under(q, p0).elm
      ensures WellLinked() && shape == Plug(Under(q, p0), t'.right) && elm in arena && mem[elm].parent == parent
      ensures parent == p0.elm <==> q == Top
      ensures Nodes(shape) == old(Nodes(shape)) - {elm} && Same(old(mem), mem, arena - Nodes(shape))
      ensures elm in old(Nodes(shape))
    {
      elm, q, t' := Extreme(right, Lhs, p0, t);
      ghost var p := Under(q, p0);
      if !q.Top? {
        UnderDistinct(q, p0, t');
      }
      Look(mem, root, p, t');
      PlugNodes(p, t');
      child := GetChild(elm, Rhs);
      parent := GetParent(elm);
      color := GetColor(elm);
      Splice(elm, child, parent, p, t');
    }

    /** Takes out an element with two children: its successor is unlinked and put in its place. */
    method PromoteSuccessor(was: Node, right: Node, ghost p: Path<Node>, ghost t: Tree<Node>)
      returns (parent: Node, child: Node?, color: Color, ghost q: Path<Node>, ghost t': Tree<Node>)
      requires WellLinked() && shape == Plug(p, t) && t.Branch? && t.left.Branch? && t.right.Branch?
      requires was == t.elm && right == t.right.elm
      modifies this, arena
      ensures Along(q, Lhs) && t'.Branch? && t'.left.Leaf? && color == t'.color
      ensures old(shape) == Plug(Under(q, Went(p, Rhs, t.color, t.elm, t.left)), t')
      ensures WellLinked() && shape == Plug(Under(q, Went(p, Rhs, t.color, t'.elm, t.left)), t'.right)
      ensures parent == Under(q, Went(p, Rhs, t.color, t'.elm, t.left)).elm && child == Root(t'.right)
      ensures Nodes(shape) == old(Nodes(shape)) - {was} && Same(old(mem), mem, arena - old(Nodes(shape)))
    {
      ghost var p0 := Went(p, Rhs, t.color, t.elm, t.left);
      var elm;
      elm, parent, child, color, q, t' := UnlinkSuccessor(right, p0, t.right);
      PlugUnder(q, p0, t'.right);
      PlugUnder(q, Went(p, Rhs, t.color, elm, t.left), t'.right);
      PlugNodes(p, t);
      var up := GetParent(elm);
      if up == was {
        parent := elm;
      }
      Replace(was, elm, p, Branch(t.left, t.color, was, Plug(q, t'.right)));
    }

    /** The case of at most one child. */
    method RemoveSimple(elm: Node, child: Node?, ghost p: Path<Node>, ghost t: Tree<Node>)
      requires Valid() && shape == Plug(p, t) && t.Branch? && (t.left.Leaf? || t.right.Leaf?)
      requires elm == t.elm && child == Root(OnlyChild(t))
      modifies this, arena
      ensures Valid() && Items() == Without(old(Items()), elm) && Nodes(shape) == old(Nodes(shape)) - {elm}
      ensures Same(old(mem), mem, arena - Nodes(shape))
    {
      Look(mem, root, p, t);
      SplicedInorder(p, t);
      PlugRedBlack(p, t);
      SplicedBalance(p, t);
      PlugRedBlack(p, OnlyChild(t));
      var parent := GetParent(elm);
      var color := GetColor(elm);
      Splice(elm, child, parent, p, t);
      if color == Black {
        RemoveColor(parent, child, p, OnlyChild(t));
      }
    }

    /** The case of two children. */
    method RemoveInner(elm: Node, right: Node, ghost p: Path<Node>, ghost t: Tree<Node>)
      requires Valid() && shape == Plug(p, t) && t.Branch? && t.left.Branch? && t.right.Branch?
      requires elm == t.elm && right == t.right.elm
      modifies this, arena
      ensures Valid() && Items() == Without(old(Items()), elm) && Nodes(shape) == old(Nodes(shape)) - {elm}
      ensures Same(old(mem), mem, arena - old(Nodes(shape)))
    {
      var parent, child, color;
      ghost var q, u;
      parent, child, color, q, u := PromoteSuccessor(elm, right, p, t);
      ghost var p0 := Went(p, Rhs, t.color, elm, t.left);
      ghost var p1 := Under(q, p0.(elm := u.elm));
      PromotedInorder(q, p, t.color, elm, t.left, u);
      PlugRedBlack(Under(q, p0), u);
      SplicedBalance(Under(q, p0), u);
      RenamedBalance(q, p0, u.right, u.elm);
      PlugRedBlack(p1, u.right);
      if color == Black {
        RemoveColor(parent, child, p1, u.right);
      }
    }

    /** Takes `elm` out of the tree. */
    method Remove(elm: Node) returns (r: Node)
      requires Valid() && elm in Items()
      modifies this, arena
      ensures Valid() && r == elm && Items() == Without(old(Items()), elm)
      ensures Nodes(shape) == old(Nodes(shape)) - {elm}
      ensures Same(old(mem), mem, arena - old(Nodes(shape)))
    {
      InorderNodes(shape);
      ghost var p, t := Focus(Top, shape, elm);
      Look(mem, root, p, t);
      var left := GetChild(elm, Lhs);
      var right := GetChild(elm, Rhs);
      if left == null {
        RemoveSimple(elm, right, p, t);
      } else if right == null {
        RemoveSimple(elm, left, p, t);
      } else {
        RemoveInner(elm, right, p, t);
      }
      return elm;
    }
  }
}
