/** Search order: the elements in key order, and where a key belongs among them. */
module RbOrder {
  import opened Elements
  import opened Order
  import opened Sides
  import opened RbShape
  import opened RbMemory
  import opened RbBalance

  /** The key `k` can only be found in the subtree in focus. */
  ghost predicate Bracketed(p: Path<Node>, k: int) {
    Below(Front(p), k) && Above(Back(p), k)
  }

  lemma {:induction false} InorderNodes(t: Tree<Node>)
    ensures forall n :: n in Inorder(t) <==> n in Nodes(t)
  {
    if t.Branch? {
      InorderNodes(t.left);
      InorderNodes(t.right);
    }
  }

  /** One step of the search, towards the side where `k` belongs. */
  lemma Descend(p: Path<Node>, t: Tree<Node>, k: int, s: Side)
    requires Sorted(Whole(p, t)) && Bracketed(p, k) && t.Branch?
    requires if s.Lhs? then k < t.elm.key else t.elm.key < k
    ensures
      var p' := Went(p, s, t.color, t.elm, t.Child(s.Flip()));
      Bracketed(p', k) && Plug(p', t.Child(s)) == Plug(p, t)
  {
    var a, e, b := Inorder(t.left), t.elm, Inorder(t.right);
    assert Whole(p, t) == (Front(p) + a) + [e] + (b + Back(p));
    SortedSplit(Front(p) + a, e, b + Back(p));
  }

  /** A key that belongs at an empty place can be put there. */
  lemma Placed(p: Path<Node>, e: Node)
    requires Sorted(Whole(p, Leaf)) && Bracketed(p, e.key)
    ensures Sorted(Front(p) + [e] + Back(p))
    ensures e !in Front(p) && e !in Back(p)
    ensures Without(Front(p) + [e] + Back(p), e) == Whole(p, Leaf)
  {
    assert Whole(p, Leaf) == Front(p) + Back(p);
    InsertedOrder(Front(p), e, Back(p));
  }

  lemma SplicedInorder(p: Path<Node>, t: Tree<Node>)
    requires Sorted(Inorder(Plug(p, t))) && t.Branch? && (t.left.Leaf? || t.right.Leaf?)
    ensures Inorder(Plug(p, OnlyChild(t))) == Without(Inorder(Plug(p, t)), t.elm)
    ensures Sorted(Inorder(Plug(p, OnlyChild(t))))
  {
    var a, b := Front(p) + Inorder(t.left), Inorder(t.right) + Back(p);
    PlugInorder(p, t);
    PlugInorder(p, OnlyChild(t));
    assert Whole(p, t) == a + [t.elm] + b;
    assert Whole(p, OnlyChild(t)) == a + b;
    SortedWithout(a, t.elm, b);
  }

  /** The successor of `x` moved up into its place: the order is that of before without `x`. */
  lemma PromotedInorder(q: Path<Node>, p: Path<Node>, c: Color, x: Node, l: Tree<Node>, t: Tree<Node>)
    requires Along(q, Lhs) && t.Branch? && t.left.Leaf?
    requires Sorted(Inorder(Plug(Under(q, Went(p, Rhs, c, x, l)), t)))
    ensures
      var was := Inorder(Plug(Under(q, Went(p, Rhs, c, x, l)), t));
      var now := Inorder(Plug(Under(q, Went(p, Rhs, c, t.elm, l)), t.right));
      now == Without(was, x) && Sorted(now)
  {
    var p0, p1 := Went(p, Rhs, c, x, l), Went(p, Rhs, c, t.elm, l);
    var a, r, b := Front(p) + Inorder(l), Inorder(t.right), Back(q) + Back(p);
    assert Inorder(t) == [t.elm] + r;
    AlongWhole(q, p0, t);
    AlongWhole(q, p1, t.right);
    Regroup(a, x, t.elm, r, b);
    SortedWithout(a, x, [t.elm] + r + b);
  }

  lemma AlongWhole(q: Path<Node>, p: Path<Node>, t: Tree<Node>)
    requires Along(q, Lhs)
    ensures Inorder(Plug(Under(q, p), t)) == Front(p) + Inorder(t) + (Back(q) + Back(p))
  {
    AlongInorder(q, p);
    PlugInorder(Under(q, p), t);
  }

  lemma Regroup<T>(a: seq<T>, x: T, e: T, r: seq<T>, b: seq<T>)
    ensures (a + [x]) + ([e] + r) + b == a + [x] + ([e] + r + b)
    ensures (a + [e]) + r + b == a + ([e] + r + b)
  {
  }
}
