/** Pure shapes of the red-black tree: the tree itself, the path from a node up to the root,
    and the red-black conditions stated on both. No heap is involved here. */
module RbShape {
  import opened Sides

  datatype Color = Black | Red

  datatype Tree<E> = Leaf | Branch(left: Tree<E>, color: Color, elm: E, right: Tree<E>) {
    function Child(s: Side): Tree<E>
      requires Branch?
    {
      if s.Lhs? then left else right
    }
  }

  /** A branch whose subtree on side `s` is `near`. */
  function Join<E>(s: Side, near: Tree<E>, c: Color, e: E, far: Tree<E>): Tree<E> {
    if s.Lhs? then Branch(near, c, e, far) else Branch(far, c, e, near)
  }

  /** The way from a subtree back to the root, innermost step outermost: `Went(up, s, c, e, sib)` says that
      the subtree in focus is the child of `e` on side `s`, and `sib` is the other child. */
  datatype Path<E> = Top | Went(up: Path<E>, side: Side, color: Color, elm: E, sib: Tree<E>)

  function Inorder<E>(t: Tree<E>): seq<E> {
    match t
    case Leaf => []
    case Branch(l, _, e, r) => Inorder(l) + [e] + Inorder(r)
  }

  /** The elements in front of, and behind, the subtree in focus. */
  function Front<E>(p: Path<E>): seq<E> {
    if p.Top? then []
    else if p.side.Lhs? then Front(p.up)
    else Front(p.up) + Inorder(p.sib) + [p.elm]
  }

  function Back<E>(p: Path<E>): seq<E> {
    if p.Top? then []
    else if p.side.Rhs? then Back(p.up)
    else [p.elm] + Inorder(p.sib) + Back(p.up)
  }

  function Whole<E>(p: Path<E>, t: Tree<E>): seq<E> {
    Front(p) + Inorder(t) + Back(p)
  }

  /** Puts the subtree back under its path. */
  function Plug<E>(p: Path<E>, t: Tree<E>): Tree<E>
    decreases p
  {
    if p.Top? then t else Plug(p.up, Join(p.side, t, p.color, p.elm, p.sib))
  }

  /** The way to the sibling of the subtree in focus. */
  function Across<E>(p: Path<E>, t: Tree<E>): Path<E>
    requires !p.Top?
  {
    Went(p.up, p.side.Flip(), p.color, p.elm, t)
  }

  function Depth<E>(p: Path<E>): nat {
    if p.Top? then 0 else 1 + Depth(p.up)
  }

  function Nodes<E>(t: Tree<E>): set<E> {
    match t
    case Leaf => {}
    case Branch(l, _, e, r) => Nodes(l) + {e} + Nodes(r)
  }

  function PathNodes<E>(p: Path<E>): set<E> {
    if p.Top? then {} else PathNodes(p.up) + {p.elm} + Nodes(p.sib)
  }

  /** No element occurs twice. */
  ghost predicate Distinct<E>(t: Tree<E>) {
    match t
    case Leaf => true
    case Branch(l, _, e, r) =>
      e !in Nodes(l) && e !in Nodes(r) && Nodes(l) !! Nodes(r) && Distinct(l) && Distinct(r)
  }

  ghost predicate PathDistinct<E>(p: Path<E>) {
    p.Top? ||
    (PathDistinct(p.up) && Distinct(p.sib) &&
     p.elm !in PathNodes(p.up) && p.elm !in Nodes(p.sib) && PathNodes(p.up) !! Nodes(p.sib))
  }

  /** A rotation towards side `s`: the child on the far side becomes the root. */
  function Rotated<E>(t: Tree<E>, s: Side): Tree<E>
    requires t.Branch? && t.Child(s.Flip()).Branch?
  {
    var y := t.Child(s.Flip());
    Join(s, Join(s, t.Child(s), t.color, t.elm, y.Child(s)), y.color, y.elm, y.Child(s.Flip()))
  }

  lemma RotatedNodes<E>(t: Tree<E>, s: Side)
    requires t.Branch? && t.Child(s.Flip()).Branch?
    ensures Nodes(Rotated(t, s)) == Nodes(t)
    ensures Distinct(Rotated(t, s)) <==> Distinct(t)
  {
    assert Distinct(t) ==> Distinct(t.Child(s.Flip()));
    assert Distinct(Rotated(t, s)) ==> Distinct(Rotated(t, s).Child(s));
  }

  lemma RotatedBack<E>(t: Tree<E>, s: Side)
    requires t.Branch? && t.Child(s.Flip()).Branch?
    ensures Rotated(t, s).Child(s).Branch? && Rotated(Rotated(t, s), s.Flip()) == t
  {
  }

  lemma RotatedInorder<E>(t: Tree<E>, s: Side)
    requires t.Branch? && t.Child(s.Flip()).Branch?
    ensures Inorder(Rotated(t, s)) == Inorder(t)
  {
  }

  // ---------- red-black conditions ----------

  predicate IsRed<E>(t: Tree<E>) {
    t.Branch? && t.color.Red?
  }

  predicate PathRed<E>(p: Path<E>) {
    !p.Top? && p.color.Red?
  }

  function Weight(c: Color): nat {
    if c.Black? then 1 else 0
  }

  /** Black nodes on the leftmost way down; on a balanced tree, on every way down. */
  function BlackHeight<E>(t: Tree<E>): nat {
    match t
    case Leaf => 0
    case Branch(l, c, _, _) => BlackHeight(l) + Weight(c)
  }

  /** Every way down passes the same number of black nodes. */
  predicate Balanced<E>(t: Tree<E>) {
    match t
    case Leaf => true
    case Branch(l, _, _, r) => Balanced(l) && Balanced(r) && BlackHeight(l) == BlackHeight(r)
  }

  /** No red node has a red child. */
  predicate NoRedRed<E>(t: Tree<E>) {
    match t
    case Leaf => true
    case Branch(l, c, _, r) => NoRedRed(l) && NoRedRed(r) && (c.Red? ==> !IsRed(l) && !IsRed(r))
  }

  predicate RedBlack<E>(t: Tree<E>) {
    Balanced(t) && NoRedRed(t) && !IsRed(t)
  }

  /** A subtree of black height `h` in focus makes the whole tree balanced. */
  predicate PathBalanced<E>(p: Path<E>, h: nat)
    decreases p
  {
    p.Top? || (Balanced(p.sib) && BlackHeight(p.sib) == h && PathBalanced(p.up, h + Weight(p.color)))
  }

  /** No red node outside the subtree in focus has a red child outside it. */
  predicate PathNoRedRed<E>(p: Path<E>) {
    p.Top? ||
    (PathNoRedRed(p.up) && NoRedRed(p.sib) && (p.color.Red? ==> !IsRed(p.sib) && !PathRed(p.up)))
  }

  predicate RootBlack<E>(p: Path<E>) {
    p.Top? || (if p.up.Top? then p.color.Black? else RootBlack(p.up))
  }

  // ---------- putting a subtree back ----------

  lemma {:induction false} PlugInorder<E>(p: Path<E>, t: Tree<E>)
    ensures Inorder(Plug(p, t)) == Whole(p, t)
    decreases p
  {
    if !p.Top? {
      PlugInorder(p.up, Join(p.side, t, p.color, p.elm, p.sib));
    }
  }

  lemma {:induction false} PlugNodes<E>(p: Path<E>, t: Tree<E>)
    ensures Nodes(Plug(p, t)) == PathNodes(p) + Nodes(t)
    decreases p
  {
    if !p.Top? {
      PlugNodes(p.up, Join(p.side, t, p.color, p.elm, p.sib));
    }
  }

  lemma {:induction false} PlugDistinct<E>(p: Path<E>, t: Tree<E>)
    ensures Distinct(Plug(p, t)) <==> Distinct(t) && PathDistinct(p) && Nodes(t) !! PathNodes(p)
    decreases p
  {
    if !p.Top? {
      PlugDistinct(p.up, Join(p.side, t, p.color, p.elm, p.sib));
    }
  }

  lemma {:induction false} PlugBalanced<E>(p: Path<E>, t: Tree<E>)
    ensures Balanced(Plug(p, t)) <==> Balanced(t) && PathBalanced(p, BlackHeight(t))
    decreases p
  {
    if !p.Top? {
      PlugBalanced(p.up, Join(p.side, t, p.color, p.elm, p.sib));
    }
  }

  lemma {:induction false} PlugNoRedRed<E>(p: Path<E>, t: Tree<E>)
    ensures NoRedRed(Plug(p, t)) <==>
            NoRedRed(t) && PathNoRedRed(p) && !(IsRed(t) && PathRed(p))
    decreases p
  {
    if !p.Top? {
      PlugNoRedRed(p.up, Join(p.side, t, p.color, p.elm, p.sib));
    }
  }

  lemma {:induction false} PlugRootBlack<E>(p: Path<E>, t: Tree<E>)
    ensures IsRed(Plug(p, t)) <==> if p.Top? then IsRed(t) else !RootBlack(p)
    decreases p
  {
    if !p.Top? {
      PlugRootBlack(p.up, Join(p.side, t, p.color, p.elm, p.sib));
    }
  }

  // ---------- paths under paths ----------

  /** The way up through `q` and then on through `p`. */
  function Under<E>(q: Path<E>, p: Path<E>): Path<E> {
    if q.Top? then p else Went(Under(q.up, p), q.side, q.color, q.elm, q.sib)
  }

  /** Every step comes from side `s`. */
  predicate Along<E>(q: Path<E>, s: Side) {
    q.Top? || (q.side == s && Along(q.up, s))
  }

  lemma {:induction false} PlugUnder<E>(q: Path<E>, p: Path<E>, t: Tree<E>)
    ensures Plug(Under(q, p), t) == Plug(p, Plug(q, t))
    decreases q
  {
    if !q.Top? {
      PlugUnder(q.up, p, Join(q.side, t, q.color, q.elm, q.sib));
    }
  }

  lemma Regrouped<T>(a: seq<T>, b: seq<T>, c: seq<T>)
    ensures a + (b + c) == (a + b) + c
  {
  }

  lemma {:induction false} AlongInorder<E>(q: Path<E>, p: Path<E>)
    requires Along(q, Lhs)
    ensures Front(Under(q, p)) == Front(p) && Back(Under(q, p)) == Back(q) + Back(p)
  {
    if !q.Top? {
      AlongInorder(q.up, p);
      Regrouped([q.elm] + Inorder(q.sib), Back(q.up), Back(p));
    }
  }

  lemma {:induction false} AlongEmpty<E>(q: Path<E>, s: Side)
    requires Along(q, s)
    ensures s.Lhs? ==> Front(q) == []
    ensures s.Rhs? ==> Back(q) == []
  {
    if !q.Top? {
      AlongEmpty(q.up, s);
    }
  }

  /** The element at the end of a way along side `s` is the outermost one on that side. */
  lemma OutermostAlong<E>(q: Path<E>, t: Tree<E>, s: Side)
    requires Along(q, s) && t.Branch? && t.Child(s).Leaf?
    ensures
      var w := Inorder(Plug(q, t));
      |w| > 0 && t.elm == if s.Lhs? then w[0] else w[|w| - 1]
  {
    PlugInorder(q, t);
    AlongEmpty(q, s);
    if s.Lhs? {
      assert Inorder(t) == [t.elm] + Inorder(t.right);
      assert Inorder(Plug(q, t)) == [t.elm] + (Inorder(t.right) + Back(q));
    } else {
      assert Inorder(t) == Inorder(t.left) + [t.elm];
      assert Inorder(Plug(q, t)) == (Front(q) + Inorder(t.left)) + [t.elm];
    }
  }

  /** The conditions on a path do not depend on which element sits at one of its steps. */
  lemma {:induction false} UnderRenamed<E>(q: Path<E>, p: Path<E>, e: E, h: nat)
    requires !p.Top?
    ensures PathBalanced(Under(q, p), h) <==> PathBalanced(Under(q, p.(elm := e)), h)
    ensures PathNoRedRed(Under(q, p)) <==> PathNoRedRed(Under(q, p.(elm := e)))
    ensures RootBlack(Under(q, p)) <==> RootBlack(Under(q, p.(elm := e)))
    ensures PathRed(Under(q, p)) <==> PathRed(Under(q, p.(elm := e)))
    decreases q
  {
    if !q.Top? {
      UnderRenamed(q.up, p, e, h + Weight(q.color));
    }
  }

  lemma UnderDistinct<E>(q: Path<E>, p: Path<E>, t: Tree<E>)
    requires !p.Top? && !q.Top? && Distinct(Plug(Under(q, p), t))
    ensures q.elm != p.elm
  {
    PlugUnder(q, p, t);
    PlugDistinct(p, Plug(q, t));
    PlugNodes(q, t);
    assert p.elm in PathNodes(p) && q.elm in PathNodes(q);
  }

  /** Every element can be brought into focus. */
  lemma {:induction false} Focus<E>(p: Path<E>, t: Tree<E>, e: E) returns (p': Path<E>, t': Tree<E>)
    requires e in Nodes(t)
    ensures Plug(p', t') == Plug(p, t) && t'.Branch? && t'.elm == e
    decreases t
  {
    p', t' := p, t;
    if e in Nodes(t.left) {
      p', t' := Focus(Went(p, Lhs, t.color, t.elm, t.right), t.left, e);
    } else if e in Nodes(t.right) {
      p', t' := Focus(Went(p, Rhs, t.color, t.elm, t.left), t.right, e);
    }
  }
}
