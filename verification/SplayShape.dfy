/** Pure shapes of the splay tree: the tree, and the two parts that top-down splaying cuts off. */
module SplayShape {
  import opened Sides

  datatype Tree<E> = Leaf | Branch(left: Tree<E>, elm: E, right: Tree<E>) {
    function Child(s: Side): Tree<E>
      requires Branch?
    {
      if s.Lhs? then left else right
    }
  }

  /** A branch whose subtree on side `s` is `near`. */
  function Join<E>(s: Side, near: Tree<E>, e: E, far: Tree<E>): Tree<E> {
    if s.Lhs? then Branch(near, e, far) else Branch(far, e, near)
  }

  function Inorder<E>(t: Tree<E>): seq<E> {
    match t
    case Leaf => []
    case Branch(l, e, r) => Inorder(l) + [e] + Inorder(r)
  }

  /** A cut-off part that is still open at one end. The spine of side `d` is a chain of elements, each hung under
      the one before by its link on side `d`, with a finished subtree `far` on the other side; the link on side
      `d` of the last one is open. Side Lhs holds the elements above the key, side Rhs those below. */
  datatype Spine<E> = Base | Link(up: Spine<E>, elm: E, far: Tree<E>)

  function Strand<E>(s: Spine<E>, d: Side): seq<E> {
    match s
    case Base => []
    case Link(up, e, far) =>
      if d.Lhs? then [e] + (Inorder(far) + Strand(up, d)) else Strand(up, d) + Inorder(far) + [e]
  }

  /** Closes the open end with `t`. */
  function Fill<E>(s: Spine<E>, d: Side, t: Tree<E>): Tree<E>
    decreases s
  {
    match s
    case Base => t
    case Link(up, e, far) => Fill(up, d, Join(d, t, e, far))
  }

  lemma {:induction false} FillInorder<E>(s: Spine<E>, d: Side, t: Tree<E>)
    ensures Inorder(Fill(s, d, t)) == if d.Lhs? then Inorder(t) + Strand(s, d) else Strand(s, d) + Inorder(t)
    decreases s
  {
    if s.Link? {
      FillInorder(s.up, d, Join(d, t, s.elm, s.far));
      if d.Lhs? {
        Regroup([], Inorder(t), [s.elm], Inorder(s.far), Strand(s.up, d));
      } else {
        Regroup(Strand(s.up, d), Inorder(s.far), [s.elm], Inorder(t), []);
      }
    }
  }

  /** The child on side `d` becomes the root. */
  function Rotated<E>(t: Tree<E>, d: Side): Tree<E>
    requires t.Branch? && t.Child(d).Branch?
  {
    var y := t.Child(d);
    Join(d, y.Child(d), y.elm, Join(d, y.Child(d.Flip()), t.elm, t.Child(d.Flip())))
  }

  lemma RotatedInorder<E>(t: Tree<E>, d: Side)
    requires t.Branch? && t.Child(d).Branch?
    ensures Inorder(Rotated(t, d)) == Inorder(t)
  {
  }

  /** All elements in order, while the tree `t` is cut: `near` is the spine of side `d`, `other` that of the other. */
  function Parts<E>(d: Side, near: Spine<E>, t: Tree<E>, other: Spine<E>): seq<E> {
    if d.Lhs? then Strand(other, Rhs) + Inorder(t) + Strand(near, Lhs)
    else Strand(near, Rhs) + Inorder(t) + Strand(other, Lhs)
  }

  /** Linking the root and its far subtree into the spine moves no element. */
  lemma LinkedParts<E>(d: Side, near: Spine<E>, t: Tree<E>, other: Spine<E>)
    requires t.Branch?
    ensures Parts(d, Link(near, t.elm, t.Child(d.Flip())), t.Child(d), other) == Parts(d, near, t, other)
  {
    var l, r := Inorder(t.left), Inorder(t.right);
    if d.Lhs? {
      Regroup(Strand(other, Rhs), l, [t.elm], r, Strand(near, Lhs));
    } else {
      Regroup(Strand(near, Rhs), l, [t.elm], r, Strand(other, Lhs));
    }
  }

  lemma Regroup<T>(a: seq<T>, b: seq<T>, c: seq<T>, d: seq<T>, e: seq<T>)
    ensures a + (b + c + d) + e == (a + b) + (c + (d + e))
    ensures a + (b + c + d) + e == ((a + b + c) + d) + e
  {
  }

  /** Both open ends closed with the subtrees of the root. */
  function Assembled<E>(l: Spine<E>, t: Tree<E>, r: Spine<E>): Tree<E>
    requires t.Branch?
  {
    Branch(Fill(l, Rhs, t.left), t.elm, Fill(r, Lhs, t.right))
  }

  lemma AssembledInorder<E>(l: Spine<E>, t: Tree<E>, r: Spine<E>)
    requires t.Branch?
    ensures Inorder(Assembled(l, t, r)) == Parts(Lhs, r, t, l)
  {
    FillInorder(l, Rhs, t.left);
    FillInorder(r, Lhs, t.right);
  }

  /** `e` as the new root: what lies on side `d` of the old root goes to that side of `e`. */
  function AddedShape<E>(t: Tree<E>, e: E, d: Side): Tree<E>
    requires t.Branch?
  {
    Join(d, t.Child(d), e, Join(d, Leaf, t.elm, t.Child(d.Flip())))
  }

  lemma AddedInorder<E>(t: Tree<E>, e: E, d: Side)
    requires t.Branch?
    ensures
      var l, r := Inorder(t.left), Inorder(t.right);
      Inorder(AddedShape(t, e, d)) == if d.Lhs? then l + [e] + ([t.elm] + r) else (l + [t.elm]) + [e] + r
  {
    assert Inorder(Branch(Leaf, t.elm, t.right)) == [t.elm] + Inorder(t.right);
    assert Inorder(Branch(t.left, t.elm, Leaf)) == Inorder(t.left) + [t.elm];
  }
}
