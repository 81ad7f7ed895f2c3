/** How the two fix-up loops restore the red-black conditions, on shapes alone. */
module RbBalance {
  import opened Sides
  import opened RbShape

  /** The subtree in focus put under its parent: the focus moves up one step. */
  function Lifted<E>(p: Path<E>, t: Tree<E>): Tree<E>
    requires !p.Top?
  {
    Join(p.side, t, p.color, p.elm, p.sib)
  }

  // ---------- insertion ----------

  /** A tree with at most one violation: the red node in focus may have a red parent. */
  predicate Growing<E>(p: Path<E>, t: Tree<E>) {
    IsRed(t) && Balanced(t) && NoRedRed(t) &&
    PathBalanced(p, BlackHeight(t)) && PathNoRedRed(p) && RootBlack(p)
  }

  predicate RedParent<E>(p: Path<E>, t: Tree<E>) {
    Growing(p, t) && PathRed(p)
  }

  lemma GrandparentBlack<E>(p: Path<E>, t: Tree<E>)
    requires RedParent(p, t)
    ensures !p.up.Top? && p.up.color.Black?
  {
  }

  /** A new red node at an empty place. */
  lemma PlugGrows<E>(p: Path<E>, e: E)
    requires RedBlack(Plug(p, Leaf))
    ensures
      var t := Branch(Leaf, Red, e, Leaf);
      Growing(p, t) && Inorder(Plug(p, t)) == Front(p) + [e] + Back(p)
  {
    PlugBalanced(p, Leaf);
    PlugNoRedRed(p, Leaf);
    PlugRootBlack(p, Leaf);
    assert Inorder(Branch(Leaf, Red, e, Leaf)) == [e];
    PlugInorder(p, Branch(Leaf, Red, e, Leaf));
  }

  /** Red uncle: parent and uncle turn black, the grandparent red. */
  function Flipped<E>(p: Path<E>, t: Tree<E>): Tree<E>
    requires !p.Top? && !p.up.Top? && p.up.sib.Branch?
  {
    Join(p.up.side, Join(p.side, t, Black, p.elm, p.sib), Red, p.up.elm, p.up.sib.(color := Black))
  }

  lemma FlippedGrows<E>(p: Path<E>, t: Tree<E>)
    requires RedParent(p, t) && !p.up.Top? && IsRed(p.up.sib)
    ensures Growing(p.up.up, Flipped(p, t))
  {
    assert PathBalanced(p.up, BlackHeight(t)) && PathNoRedRed(p.up) && RootBlack(p.up);
    var parent := Join(p.side, t, Black, p.elm, p.sib);
    assert Balanced(parent) && BlackHeight(parent) == BlackHeight(t) + 1 && NoRedRed(parent);
  }

  /** Black uncle, inner grandchild: after the parent is rotated outwards the violation sits at the old parent. */
  lemma InnerGrows<E>(p: Path<E>, t: Tree<E>)
    requires RedParent(p, t) && !p.up.Top? && p.side != p.up.side
    ensures
      var s := p.up.side;
      var t' := Join(s, p.sib, Red, p.elm, t.Child(s));
      var p' := Went(p.up, s, Red, t.elm, t.Child(s.Flip()));
      RedParent(p', t') && Rotated(Lifted(p, t), s) == Lifted(p', t')
  {
  }

  /** Black uncle, outer grandchild: recoloured and rotated, the violation is gone. */
  lemma OuterGrows<E>(p: Path<E>, t: Tree<E>)
    requires RedParent(p, t) && !p.up.Top? && p.side == p.up.side && !IsRed(p.up.sib)
    ensures
      var s := p.side;
      var g := Join(s, Join(s, t, Black, p.elm, p.sib), Red, p.up.elm, p.up.sib);
      var p' := Went(p.up.up, s, Black, p.elm, Join(s, p.sib, Red, p.up.elm, p.up.sib));
      Growing(p', t) && Rotated(g, s.Flip()) == Lifted(p', t)
  {
    assert PathBalanced(p.up, BlackHeight(t)) && PathNoRedRed(p.up) && RootBlack(p.up);
  }

  lemma GrownBlackened<E>(p: Path<E>, t: Tree<E>, root: Tree<E>)
    requires Growing(p, t) && !PathRed(p) && root == Plug(p, t)
    ensures root.Branch? && RedBlack(root.(color := Black))
  {
    PlugBalanced(p, t);
    PlugNoRedRed(p, t);
    PlugRootBlack(p, t);
    PlugNodes(p, t);
  }

  // ---------- removal ----------

  /** Every path has the same black count, except that those through the focus lack exactly one. The topmost
      node in focus may be red, and will be painted black. */
  predicate Short<E>(p: Path<E>, t: Tree<E>) {
    Balanced(t) && (t.Branch? ==> NoRedRed(t.(color := Black))) &&
    PathBalanced(p, BlackHeight(t) + 1) && PathNoRedRed(p) && RootBlack(p)
  }

  /** The focus needs work: it is not red, and there is something above it. */
  predicate Lacking<E>(p: Path<E>, t: Tree<E>) {
    Short(p, t) && !IsRed(t) && !p.Top?
  }

  lemma SiblingExists<E>(p: Path<E>, t: Tree<E>)
    requires Lacking(p, t)
    ensures p.sib.Branch? && (IsRed(p.sib) ==> p.color.Black?)
  {
  }

  predicate BlackNephews<E>(p: Path<E>)
    requires !p.Top? && p.sib.Branch?
  {
    !IsRed(p.sib.left) && !IsRed(p.sib.right)
  }

  /** Red sibling: it is rotated over the parent, which turns red; the new sibling is black. */
  lemma RedSibling<E>(p: Path<E>, t: Tree<E>)
    requires Lacking(p, t) && IsRed(p.sib)
    ensures
      var s := p.side;
      var p' := Went(Went(p.up, s, Black, p.sib.elm, p.sib.Child(s.Flip())), s, Red, p.elm, p.sib.Child(s));
      && Lacking(p', t) && p'.sib.Branch? && !IsRed(p'.sib)
      && Rotated(Join(s, t, Red, p.elm, p.sib.(color := Black)), s) == Lifted(p'.up, Lifted(p', t))
  {
  }

  /** Black sibling, black nephews: the sibling turns red and the whole subtree lacks one. */
  lemma BlackSibling<E>(p: Path<E>, t: Tree<E>)
    requires Lacking(p, t) && p.sib.Branch? && !IsRed(p.sib) && BlackNephews(p)
    ensures Short(p.up, Join(p.side, t, p.color, p.elm, p.sib.(color := Red)))
  {
  }

  /** Black sibling, only the inner nephew red: it is rotated into the sibling's place. */
  lemma InnerNephew<E>(p: Path<E>, t: Tree<E>)
    requires Lacking(p, t) && p.sib.Branch? && !IsRed(p.sib) && !BlackNephews(p)
    requires !IsRed(p.sib.Child(p.side.Flip()))
    ensures
      var s := p.side;
      var near := p.sib.Child(s);
      near.Branch? &&
      var sib := Join(s, near.(color := Black), Red, p.sib.elm, p.sib.Child(s.Flip()));
      var p' := p.(sib := Rotated(sib, s.Flip()));
      Lacking(p', t) && p'.sib.Branch? && !IsRed(p'.sib) && IsRed(p'.sib.Child(s.Flip()))
  {
    var s, near, far := p.side, p.sib.Child(p.side), p.sib.Child(p.side.Flip());
    assert Balanced(near) && NoRedRed(near) && Balanced(far) && NoRedRed(far);
    var far' := Join(s, near.Child(s.Flip()), Red, p.sib.elm, far);
    assert Balanced(far') && NoRedRed(far') && BlackHeight(far') == BlackHeight(near);
  }

  /** Black sibling, outer nephew red: one rotation supplies the missing black node. */
  lemma OuterNephew<E>(p: Path<E>, t: Tree<E>)
    requires Lacking(p, t) && p.sib.Branch? && !IsRed(p.sib) && IsRed(p.sib.Child(p.side.Flip()))
    ensures
      var s := p.side;
      var sib := Join(s, p.sib.Child(s), p.color, p.sib.elm, p.sib.Child(s.Flip()).(color := Black));
      RedBlack(Plug(p.up, Rotated(Join(s, t, Black, p.elm, sib), s)))
  {
    var s := p.side;
    var sib := Join(s, p.sib.Child(s), p.color, p.sib.elm, p.sib.Child(s.Flip()).(color := Black));
    var t' := Rotated(Join(s, t, Black, p.elm, sib), s);
    var near, far := p.sib.Child(s), p.sib.Child(s.Flip());
    assert Balanced(near) && NoRedRed(near) && BlackHeight(near) == BlackHeight(t);
    assert Balanced(far) && NoRedRed(far) && BlackHeight(far) == BlackHeight(t);
    assert Balanced(far.(color := Black)) && NoRedRed(far.(color := Black));
    var near' := Join(s, t, Black, p.elm, near);
    assert Balanced(near') && NoRedRed(near') && BlackHeight(near') == BlackHeight(t) + 1;
    PlugBalanced(p.up, t');
    PlugNoRedRed(p.up, t');
    PlugRootBlack(p.up, t');
  }

  lemma ShortBlackened<E>(p: Path<E>, t: Tree<E>)
    requires Short(p, t) && (IsRed(t) || p.Top?)
    ensures t.Branch? ==> RedBlack(Plug(p, t.(color := Black)))
    ensures t.Leaf? ==> RedBlack(Plug(p, t))
  {
    if t.Branch? {
      PlugBalanced(p, t.(color := Black));
      PlugNoRedRed(p, t.(color := Black));
      PlugRootBlack(p, t.(color := Black));
    }
  }

  function OnlyChild<E>(t: Tree<E>): Tree<E>
    requires t.Branch?
  {
    if t.left.Leaf? then t.right else t.left
  }

  /** The conditions of the whole tree, split at the focus. */
  predicate RedBlackAt<E>(p: Path<E>, t: Tree<E>) {
    && Balanced(t) && PathBalanced(p, BlackHeight(t))
    && NoRedRed(t) && PathNoRedRed(p) && !(IsRed(t) && PathRed(p))
    && (if p.Top? then !IsRed(t) else RootBlack(p))
  }

  lemma PlugRedBlack<E>(p: Path<E>, t: Tree<E>)
    ensures RedBlack(Plug(p, t)) <==> RedBlackAt(p, t)
  {
    PlugBalanced(p, t);
    PlugNoRedRed(p, t);
    PlugRootBlack(p, t);
  }

  /** Bypassing a black element leaves its place one short; bypassing a red one leaves nothing to repair. */
  lemma SplicedBalance<E>(p: Path<E>, t: Tree<E>)
    requires RedBlackAt(p, t) && t.Branch? && (t.left.Leaf? || t.right.Leaf?)
    ensures t.color == Black ==> Short(p, OnlyChild(t))
    ensures t.color == Red ==> RedBlackAt(p, OnlyChild(t))
  {
    assert NoRedRed(OnlyChild(t));
  }

  /** Which element sits at a step of the path does not matter. */
  lemma RenamedBalance<E>(q: Path<E>, p: Path<E>, t: Tree<E>, e: E)
    requires !p.Top?
    ensures Short(Under(q, p), t) <==> Short(Under(q, p.(elm := e)), t)
    ensures RedBlackAt(Under(q, p), t) <==> RedBlackAt(Under(q, p.(elm := e)), t)
  {
    UnderRenamed(q, p, e, BlackHeight(t) + 1);
    UnderRenamed(q, p, e, BlackHeight(t));
  }
}
