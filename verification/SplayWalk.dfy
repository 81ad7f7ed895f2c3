/** Walking over a splay tree, and whole runs of its operations. */
module SplayWalk {
  import opened Elements
  import opened Order
  import opened Sides
  import opened SplayShape
  import opened SplayMemory
  import opened SplayTree
  import opened OrderedStore

  /** Splaying for the key of an element brings that element to the root. */
  lemma FoundAtRoot(t: Tree<Node>, e: Node)
    requires SplitAt(t, e.key) && e in Inorder(t)
    ensures t.elm == e
  {
  }

  /** The neighbour of the root is the least element of its right subtree. */
  lemma RootNeighbour(t: Tree<Node>, i: nat)
    requires Sorted(Inorder(t)) && t.Branch? && i < |Inorder(t)| && Inorder(t)[i] == t.elm
    ensures Neighbour(Inorder(t), i, Rhs) == Nearest(Inorder(t.right), Rhs)
  {
    NeighbourAround(Inorder(t.left), t.elm, Inorder(t.right), i, Rhs);
  }

  /** SPLAY_NEXT: the tree is restructured, and the successor found below the new root. */
  method Next(h: Head, e: Node, ghost i: nat) returns (elm: Node?)
    requires h.Valid() && i < |h.Items()| && h.Items()[i] == e
    modifies h, h.mem.Keys
    ensures h.Valid() && h.Items() == old(h.Items()) && h.mem.Keys == old(h.mem.Keys)
    ensures elm == Neighbour(h.Items(), i, Rhs)
  {
    h.Splay(e.key);
    FoundAtRoot(h.shape, e);
    RootNeighbour(h.shape, i);
    if e.speRight == null {
      return null;
    }
    ghost var t := h.shape.right;
    ghost var first := Inorder(t)[0];
    elm := e.speRight;
    while elm.speLeft != null
      invariant t.Branch? && elm == t.elm && RepTree(h.mem, t) && Inorder(t)[0] == first
      decreases t
    {
      elm := elm.speLeft;
      t := t.left;
    }
  }

  /** A root with nothing on one side is the outermost element there. */
  lemma OutermostRoot(t: Tree<Node>, d: Side)
    requires t.Branch? && t.Child(d).Leaf?
    ensures Nearest(Inorder(t), d.Flip()) == t.elm
  {
    assert Inorder(t) == Inorder(t.left) + [t.elm] + Inorder(t.right);
    if d.Rhs? {
      assert Inorder(t) == Inorder(t.left) + [t.elm];
    } else {
      assert Inorder(t) == [t.elm] + Inorder(t.right);
    }
  }

  /** SPLAY_MIN and SPLAY_MAX. */
  method Extreme(h: Head, comp: int) returns (elm: Node?)
    requires h.Valid() && comp != 0
    modifies h, h.mem.Keys
    ensures h.Valid() && h.Items() == old(h.Items()) && h.mem.Keys == old(h.mem.Keys)
    ensures elm == h.root && elm == Nearest(h.Items(), if comp < 0 then Rhs else Lhs)
  {
    if h.root == null {
      return null;
    }
    h.SplayMinMax(comp);
    ghost var t := h.shape;
    OutermostRoot(t, if comp < 0 then Lhs else Rhs);
    return h.root;
  }

  /** SPLAY_FOREACH: every element once, in order, though every step restructures the tree. */
  method Foreach(h: Head) returns (visited: seq<Node>)
    requires h.Valid()
    modifies h, h.mem.Keys
    ensures h.Valid() && h.Items() == old(h.Items()) && visited == h.Items()
  {
    ghost var s := h.Items();
    visited := [];
    var x := Extreme(h, -1);
    while x != null
      invariant h.Valid() && h.Items() == s && h.mem.Keys == old(h.mem.Keys)
      invariant visited <= s
      invariant x == if |visited| < |s| then s[|visited|] else null
      decreases |s| - |visited|
    {
      var y := Next(h, x, |visited|);
      visited := visited + [x];
      x := y;
    }
  }

  /** One operation refines its effect on the store. */
  method Perform(h: Head, op: Op) returns (r: Node?)
    requires h.Valid() && (op.Add? ==> op.elm in h.mem)
    modifies h, h.mem.Keys
    ensures h.Valid() && h.mem.Keys == old(h.mem.Keys)
    ensures StoreOf(h.Items()) == After(StoreOf(old(h.Items())), op) && r == Answer(StoreOf(old(h.Items())), op)
  {
    ghost var s := h.Items();
    match op
    case Add(e) =>
      Unanswered(s, e.key);
      r := h.Insert(e);
      if r == null {
        Added(s, e, h.Items());
      }
    case Drop(e) =>
      ghost var gone;
      r, gone := h.Remove(e);
      if r != null {
        Dropped(s, e, gone, h.Items());
      } else {
        Missing(s, e);
      }
    case Seek(k) =>
      Unanswered(s, k);
      r := h.Find(k);
  }

  /** Any run of operations refines the run on the store, answer by answer. */
  method Run(h: Head, ops: seq<Op>) returns (answers: seq<Node?>)
    requires h.Valid() && forall op :: op in ops && op.Add? ==> op.elm in h.mem
    modifies h, h.mem.Keys
    ensures h.Valid() && StoreOf(h.Items()) == AfterAll(StoreOf(old(h.Items())), ops, |ops|)
    ensures |answers| == |ops|
    ensures forall j :: 0 <= j < |ops| ==> Answers(StoreOf(old(h.Items())), ops, j, answers[j])
  {
    ghost var st := StoreOf(h.Items());
    answers := [];
    for i := 0 to |ops|
      invariant h.Valid() && h.mem.Keys == old(h.mem.Keys)
      invariant StoreOf(h.Items()) == AfterAll(st, ops, i) && |answers| == i
      invariant forall j :: 0 <= j < i ==> Answers(st, ops, j, answers[j])
    {
      var r := Perform(h, ops[i]);
      answers := answers + [r];
    }
  }
}
