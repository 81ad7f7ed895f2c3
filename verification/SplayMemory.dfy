/** The links of a splay tree as a map from element to cell. */
module SplayMemory {
  import opened Elements
  import opened Order
  import opened Sides
  import opened SplayShape

  datatype Cell = Cell(left: Node?, right: Node?) {
    function Child(s: Side): Node? {
      if s.Lhs? then left else right
    }

    function WithChild(s: Side, n: Node?): Cell {
      if s.Lhs? then this.(left := n) else this.(right := n)
    }
  }

  type Memory = map<Node, Cell>

  function Root(t: Tree<Node>): Node? {
    if t.Leaf? then null else t.elm
  }

  ghost predicate RepTree(m: Memory, t: Tree<Node>) {
    match t
    case Leaf => true
    case Branch(l, e, r) => e in m && m[e] == Cell(Root(l), Root(r)) && RepTree(m, l) && RepTree(m, r)
  }

  /** The last element of a spine, or the sentinel `base` it starts from. */
  function Bottom(s: Spine<Node>, base: Node): Node {
    if s.Base? then base else s.elm
  }

  ghost predicate RepSpine(m: Memory, s: Spine<Node>, d: Side, base: Node) {
    s.Base? ||
    (var b := Bottom(s.up, base);
     b in m && m[b].Child(d) == s.elm && s.elm in m && m[s.elm].Child(d.Flip()) == Root(s.far) &&
     RepTree(m, s.far) && RepSpine(m, s.up, d, base))
  }

  ghost predicate Same(m: Memory, m': Memory, s: seq<Node>) {
    forall n :: n in s && n in m ==> n in m' && m'[n] == m[n]
  }

  lemma {:induction false} TreeFrame(m: Memory, m': Memory, t: Tree<Node>)
    requires RepTree(m, t) && Same(m, m', Inorder(t))
    ensures RepTree(m', t)
  {
    if t.Branch? {
      TreeFrame(m, m', t.left);
      TreeFrame(m, m', t.right);
    }
  }

  lemma {:induction false} InTree(m: Memory, t: Tree<Node>)
    requires RepTree(m, t)
    ensures forall n :: n in Inorder(t) ==> n in m
  {
    if t.Branch? {
      InTree(m, t.left);
      InTree(m, t.right);
    }
  }

  lemma {:induction false} SpineFrame(m: Memory, m': Memory, s: Spine<Node>, d: Side, base: Node)
    requires RepSpine(m, s, d, base) && Same(m, m', Strand(s, d))
    requires s.Link? && base in m ==> base in m' && m'[base].Child(d) == m[base].Child(d)
    ensures RepSpine(m', s, d, base)
  {
    if s.Link? {
      TreeFrame(m, m', s.far);
      SpineFrame(m, m', s.up, d, base);
    }
  }

  /** Only the open link of the spine was written. */
  lemma SpineOpen(m: Memory, m': Memory, s: Spine<Node>, d: Side, base: Node, x: Node?)
    requires RepSpine(m, s, d, base) && Sorted(Strand(s, d)) && base !in Strand(s, d) && Bottom(s, base) in m
    requires m' == m[Bottom(s, base) := m[Bottom(s, base)].WithChild(d, x)]
    ensures RepSpine(m', s, d, base)
  {
    if s.Link? {
      if d.Lhs? {
        assert Strand(s, d) == [] + [s.elm] + (Inorder(s.far) + Strand(s.up, d));
        SortedSplit([], s.elm, Inorder(s.far) + Strand(s.up, d));
      } else {
        assert Strand(s, d) == (Strand(s.up, d) + Inorder(s.far)) + [s.elm] + [];
        SortedSplit(Strand(s.up, d) + Inorder(s.far), s.elm, []);
      }
      assert s.elm !in Inorder(s.far) && s.elm !in Strand(s.up, d);
      assert s.up.Link? ==> s.up.elm in Strand(s.up, d);
      TreeFrame(m, m', s.far);
      SpineFrame(m, m', s.up, d, base);
    }
  }

  // ---------- the tree while it is cut ----------

  /** `root` is the tree that remains; the parts cut off hang from the sentinel `base`. */
  ghost predicate Cut(m: Memory, root: Node?, base: Node,
                      d: Side, near: Spine<Node>, t: Tree<Node>, other: Spine<Node>)
  {
    && t.Branch? && root == t.elm && base in m && RepTree(m, t)
    && RepSpine(m, near, d, base) && RepSpine(m, other, d.Flip(), base)
    && Sorted(Parts(d, near, t, other)) && base !in Parts(d, near, t, other)
  }

  ghost predicate Apart(s: seq<Node>, t: seq<Node>) {
    forall n :: n in s ==> n !in t
  }

  lemma SortedApart(a: seq<Node>, b: seq<Node>)
    requires Sorted(a + b)
    ensures Apart(a, b)
  {
    forall n | n in a
      ensures n !in b
    {
      var i :| 0 <= i < |a| && a[i] == n;
      assert (a + b)[i] == n;
      assert forall j :: 0 <= j < |b| ==> b[j] == (a + b)[|a| + j];
    }
  }

  lemma ThreeApart(a: seq<Node>, b: seq<Node>, c: seq<Node>)
    requires Sorted(a + b + c)
    ensures Sorted(a) && Sorted(b) && Sorted(c) && Apart(a, b) && Apart(b, a) && Apart(a, c) && Apart(c, a)
    ensures Apart(b, c) && Apart(c, b)
  {
    SortedParts(a + b, c);
    SortedParts(a, b);
    SortedApart(a + b, c);
    SortedApart(a, b);
  }

  lemma PartsApart(d: Side, near: Spine<Node>, t: Tree<Node>, other: Spine<Node>)
    requires Sorted(Parts(d, near, t, other))
    ensures Sorted(Strand(near, d)) && Sorted(Inorder(t)) && Sorted(Strand(other, d.Flip()))
    ensures Apart(Strand(near, d), Inorder(t)) && Apart(Strand(other, d.Flip()), Inorder(t))
    ensures Apart(Strand(near, d), Strand(other, d.Flip()))
  {
    if d.Lhs? {
      ThreeApart(Strand(other, Rhs), Inorder(t), Strand(near, Lhs));
    } else {
      ThreeApart(Strand(near, Rhs), Inorder(t), Strand(other, Lhs));
    }
  }

  lemma RootApart(t: Tree<Node>)
    requires Sorted(Inorder(t)) && t.Branch?
    ensures Sorted(Inorder(t.left)) && Sorted(Inorder(t.right)) && Apart(Inorder(t.left), Inorder(t.right))
    ensures t.elm !in Inorder(t.left) && t.elm !in Inorder(t.right)
    ensures t.left.Branch? ==> t.left.elm in Inorder(t.left)
    ensures t.right.Branch? ==> t.right.elm in Inorder(t.right)
  {
    SortedSplit(Inorder(t.left), t.elm, Inorder(t.right));
  }

  // ---------- the steps of splaying ----------

  function RotatedMem(m: Memory, x: Node, d: Side): Memory
    requires x in m && m[x].Child(d) != null && m[x].Child(d) in m
  {
    var y := m[x].Child(d);
    var m1 := m[x := m[x].WithChild(d, m[y].Child(d.Flip()))];
    m1[y := m1[y].WithChild(d.Flip(), x)]
  }

  lemma RotatedApart(t: Tree<Node>, d: Side)
    requires Sorted(Inorder(t)) && t.Branch? && t.Child(d).Branch?
    ensures
      var y := t.Child(d);
      var s := Inorder(y.Child(d)) + Inorder(y.Child(d.Flip())) + Inorder(t.Child(d.Flip()));
      t.elm !in s && y.elm !in s && t.elm != y.elm
  {
    RootApart(t);
    RootApart(t.Child(d));
  }

  lemma RotatedTree(m: Memory, t: Tree<Node>, d: Side)
    requires RepTree(m, t) && Sorted(Inorder(t)) && t.Branch? && t.Child(d).Branch?
    ensures t.elm in m && m[t.elm].Child(d) == t.Child(d).elm && t.Child(d).elm in m
    ensures RepTree(RotatedMem(m, t.elm, d), Rotated(t, d))
    ensures Inorder(Rotated(t, d)) == Inorder(t)
    ensures forall n :: n in m && n !in Inorder(t) ==> RotatedMem(m, t.elm, d)[n] == m[n]
  {
    var y := t.Child(d);
    assert RepTree(m, y);
    var m' := RotatedMem(m, t.elm, d);
    RotatedApart(t, d);
    RotatedInorder(t, d);
    TreeFrame(m, m', y.Child(d));
    TreeFrame(m, m', y.Child(d.Flip()));
    TreeFrame(m, m', t.Child(d.Flip()));
  }

  lemma RotatedCut(m: Memory, base: Node, d: Side, near: Spine<Node>, t: Tree<Node>, other: Spine<Node>)
    requires Cut(m, Root(t), base, d, near, t, other) && t.Child(d).Branch?
    ensures t.elm in m && m[t.elm].Child(d) == t.Child(d).elm && t.Child(d).elm in m
    ensures Cut(RotatedMem(m, t.elm, d), t.Child(d).elm, base, d, near, Rotated(t, d), other)
    ensures forall n :: n in m && n !in Inorder(t) ==> RotatedMem(m, t.elm, d)[n] == m[n]
  {
    PartsApart(d, near, t, other);
    RotatedTree(m, t, d);
    var m' := RotatedMem(m, t.elm, d);
    SpineFrame(m, m', near, d, base);
    SpineFrame(m, m', other, d.Flip(), base);
  }

  /** Writing the open link of one spine disturbs nothing else. */
  lemma OpenWritten(m: Memory, base: Node, d: Side, near: Spine<Node>, t: Tree<Node>, other: Spine<Node>,
                    x: Node?, m': Memory)
    requires t.Branch? && base in m && RepTree(m, t)
    requires RepSpine(m, near, d, base) && RepSpine(m, other, d.Flip(), base)
    requires Sorted(Parts(d, near, t, other)) && base !in Parts(d, near, t, other)
    requires Bottom(near, base) in m
    requires m' == m[Bottom(near, base) := m[Bottom(near, base)].WithChild(d, x)]
    ensures RepTree(m', t) && RepSpine(m', near, d, base) && RepSpine(m', other, d.Flip(), base)
    ensures Bottom(near, base) !in Inorder(t)
  {
    PartsApart(d, near, t, other);
    assert near.Link? ==> near.elm in Strand(near, d);
    SpineOpen(m, m', near, d, base, x);
    SpineFrame(m, m', other, d.Flip(), base);
    TreeFrame(m, m', t);
  }

  lemma LinkedCut(m: Memory, base: Node, d: Side, near: Spine<Node>, t: Tree<Node>, other: Spine<Node>)
    requires Cut(m, Root(t), base, d, near, t, other) && t.Child(d).Branch?
    ensures Bottom(near, base) in m && Bottom(near, base) !in Inorder(t) && t.elm in m
    ensures m[t.elm].Child(d) == t.Child(d).elm
    ensures
      var b := Bottom(near, base);
      var m' := m[b := m[b].WithChild(d, t.elm)];
      var near' := Link(near, t.elm, t.Child(d.Flip()));
      Cut(m', t.Child(d).elm, base, d, near', t.Child(d), other)
  {
    var b := Bottom(near, base);
    var m' := m[b := m[b].WithChild(d, t.elm)];
    OpenWritten(m, base, d, near, t, other, t.elm, m');
    LinkedParts(d, near, t, other);
    assert RepTree(m', t.Child(d)) && RepTree(m', t.Child(d.Flip()));
  }

  lemma {:induction false} FilledRep(m: Memory, s: Spine<Node>, d: Side, base: Node, t: Tree<Node>)
    requires RepSpine(m, s, d, base) && RepTree(m, t) && base in m
    requires Bottom(s, base) in m && m[Bottom(s, base)].Child(d) == Root(t)
    ensures RepTree(m, Fill(s, d, t)) && m[base].Child(d) == Root(Fill(s, d, t))
    decreases s
  {
    if s.Link? {
      FilledRep(m, s.up, d, base, Join(d, t, s.elm, s.far));
    }
  }

  /** Only elements of `s` were written. */
  ghost predicate Only(m: Memory, m': Memory, s: seq<Node>) {
    m'.Keys == m.Keys && forall n :: n in m && n !in s ==> m'[n] == m[n]
  }

  /** The sentinel `node` is gone, and beyond it only elements of `s` were written. */
  ghost predicate OnlyBut(m: Memory, m': Memory, node: Node, s: seq<Node>) {
    m'.Keys == m.Keys - {node} && forall n :: n in m' && n !in s ==> m'[n] == m[n]
  }

  lemma OnlyThenGone(m: Memory, node: Node, m1: Memory, m2: Memory, s: seq<Node>)
    requires Only(m, m1, [node] + s) && OnlyBut(m1, m2, node, s)
    ensures OnlyBut(m, m2, node, s)
  {
  }

  /** The sentinel comes and goes. */
  lemma OnlyWithoutSentinel(m: Memory, node: Node, m1: Memory, m2: Memory, s: seq<Node>)
    requires node !in m && m1 == m[node := Cell(null, null)] && OnlyBut(m1, m2, node, s)
    ensures Only(m, m2, s)
  {
  }

  lemma OnlyWithin(m: Memory, m': Memory, s: seq<Node>, s': seq<Node>)
    requires Only(m, m', s) && forall n :: n in s ==> n in s'
    ensures Only(m, m', s')
  {
  }

  lemma OnlyThen(m: Memory, m1: Memory, s: seq<Node>, m2: Memory, s': seq<Node>)
    requires Only(m, m1, s) && Only(m1, m2, s') && forall n :: n in s ==> n in s'
    ensures Only(m, m2, s')
  {
  }

  lemma BottomsApart(d: Side, near: Spine<Node>, t: Tree<Node>, other: Spine<Node>, base: Node)
    requires Sorted(Parts(d, near, t, other)) && base !in Parts(d, near, t, other)
    ensures Bottom(near, base) == Bottom(other, base) <==> near.Base? && other.Base?
  {
    PartsApart(d, near, t, other);
    assert near.Link? ==> near.elm in Strand(near, d);
    assert other.Link? ==> other.elm in Strand(other, d.Flip());
  }

  /** SPLAY_ASSEMBLE, write by write. */
  function AssembledMem(m: Memory, x: Node, base: Node, lo: Node, hi: Node): Memory
    requires x in m && base in m && lo in m && hi in m
  {
    var m1 := m[lo := m[lo].WithChild(Rhs, m[x].left)];
    var m2 := m1[hi := m1[hi].WithChild(Lhs, m1[x].right)];
    var m3 := m2[x := m2[x].WithChild(Lhs, m2[base].right)];
    m3[x := m3[x].WithChild(Rhs, m3[base].left)]
  }

  lemma AssembledRep(m: Memory, base: Node, l: Spine<Node>, t: Tree<Node>, r: Spine<Node>)
    requires Cut(m, Root(t), base, Lhs, r, t, l)
    ensures t.elm in m && Bottom(l, base) in m && Bottom(r, base) in m
    ensures
      var m' := AssembledMem(m, t.elm, base, Bottom(l, base), Bottom(r, base)) - {base};
      RepTree(m', Assembled(l, t, r)) && m'.Keys == m.Keys - {base}
    ensures
      var m' := AssembledMem(m, t.elm, base, Bottom(l, base), Bottom(r, base));
      Only(m, m', [base] + Parts(Lhs, r, t, l))
  {
    var x, lo, hi := t.elm, Bottom(l, base), Bottom(r, base);
    assert m[x] == Cell(Root(t.left), Root(t.right));
    var m1 := m[lo := m[lo].WithChild(Rhs, m[x].left)];
    var m2 := m1[hi := m1[hi].WithChild(Lhs, m1[x].right)];
    OpenWritten(m, base, Rhs, l, t, r, Root(t.left), m1);
    OpenWritten(m1, base, Lhs, r, t, l, Root(t.right), m2);
    BottomsApart(Lhs, r, t, l, base);
    FilledRep(m2, l, Rhs, base, t.left);
    FilledRep(m2, r, Lhs, base, t.right);
    AssembledFrame(m2, base, l, t, r);
    AssembledInParts(base, l, t, r);
  }

  lemma AssembledInParts(base: Node, l: Spine<Node>, t: Tree<Node>, r: Spine<Node>)
    requires t.Branch?
    ensures t.elm in Parts(Lhs, r, t, l)
    ensures Bottom(l, base) in [base] + Parts(Lhs, r, t, l)
    ensures Bottom(r, base) in [base] + Parts(Lhs, r, t, l)
  {
    assert l.Link? ==> l.elm in Strand(l, Rhs);
    assert r.Link? ==> r.elm in Strand(r, Lhs);
    assert t.elm in Inorder(t);
  }

  /** The last two writes make the root the parent of both closed parts. */
  lemma AssembledFrame(m: Memory, base: Node, l: Spine<Node>, t: Tree<Node>, r: Spine<Node>)
    requires t.Branch? && t.elm in m && base in m
    requires Sorted(Parts(Lhs, r, t, l)) && base !in Parts(Lhs, r, t, l)
    requires RepTree(m, Fill(l, Rhs, t.left)) && m[base].right == Root(Fill(l, Rhs, t.left))
    requires RepTree(m, Fill(r, Lhs, t.right)) && m[base].left == Root(Fill(r, Lhs, t.right))
    ensures
      var m3 := m[t.elm := m[t.elm].WithChild(Lhs, m[base].right)];
      var m' := m3[t.elm := m3[t.elm].WithChild(Rhs, m3[base].left)] - {base};
      RepTree(m', Assembled(l, t, r))
  {
    var a := Assembled(l, t, r);
    AssembledInorder(l, t, r);
    RootApart(a);
    var m3 := m[t.elm := m[t.elm].WithChild(Lhs, m[base].right)];
    var m' := m3[t.elm := m3[t.elm].WithChild(Rhs, m3[base].left)] - {base};
    assert t.elm in Inorder(a);
    TreeFrame(m, m', a.left);
    TreeFrame(m, m', a.right);
  }

  // ---------- the sought key ----------

  ghost predicate Beyond(s: seq<Node>, k: int, d: Side) {
    if d.Lhs? then Above(s, k) else Below(s, k)
  }

  /** The root separates the elements below `k` from those above it. */
  ghost predicate SplitAt(t: Tree<Node>, k: int) {
    t.Branch? && Below(Inorder(t.left), k) && Above(Inorder(t.right), k)
  }

  /** The key lies on side `d` of `n`. */
  predicate Towards(k: int, n: Node, d: Side) {
    if d.Lhs? then k < n.key else n.key < k
  }

  /** What is linked into the spine lies beyond the key. */
  lemma LinkedBeyond(d: Side, near: Spine<Node>, t: Tree<Node>, k: int)
    requires Sorted(Inorder(t)) && t.Branch? && Towards(k, t.elm, d) && Beyond(Strand(near, d), k, d)
    ensures Beyond(Strand(Link(near, t.elm, t.Child(d.Flip())), d), k, d)
  {
    SortedSplit(Inorder(t.left), t.elm, Inorder(t.right));
  }

  /** Where the loop may end. */
  predicate Final(t: Tree<Node>, k: int) {
    t.Branch? &&
    (t.elm.key == k || (k < t.elm.key && t.left.Leaf?) || (t.elm.key < k && t.right.Leaf?))
  }

  lemma AssembledSplit(l: Spine<Node>, t: Tree<Node>, r: Spine<Node>, k: int)
    requires Sorted(Parts(Lhs, r, t, l)) && Final(t, k)
    requires Below(Strand(l, Rhs), k) && Above(Strand(r, Lhs), k)
    ensures SplitAt(Assembled(l, t, r), k)
  {
    PartsApart(Lhs, r, t, l);
    SortedSplit(Inorder(t.left), t.elm, Inorder(t.right));
    FillInorder(l, Rhs, t.left);
    FillInorder(r, Lhs, t.right);
  }

  function AddedMem(m: Memory, t: Tree<Node>, e: Node, d: Side): Memory
    requires t.Branch? && t.elm in m && e in m
  {
    var m1 := m[e := m[e].WithChild(d, Root(t.Child(d)))];
    var m2 := m1[e := m1[e].WithChild(d.Flip(), t.elm)];
    m2[t.elm := m2[t.elm].WithChild(d, null)]
  }

  /** A new root takes over one subtree of the old root, and the old root becomes its other child. */
  lemma AddedRep(m: Memory, t: Tree<Node>, e: Node, d: Side)
    requires RepTree(m, t) && Sorted(Inorder(t)) && t.Branch? && e in m && e !in Inorder(t)
    ensures t.elm in m && m[t.elm].Child(d) == Root(t.Child(d))
    ensures RepTree(AddedMem(m, t, e, d), AddedShape(t, e, d))
  {
    RootApart(t);
    var m' := AddedMem(m, t, e, d);
    TreeFrame(m, m', t.left);
    TreeFrame(m, m', t.right);
  }

  lemma AddedOnly(m: Memory, t: Tree<Node>, e: Node, d: Side)
    requires t.Branch? && t.elm in m && e in m
    ensures Only(m, AddedMem(m, t, e, d), Inorder(AddedShape(t, e, d)))
  {
    AddedInorder(t, e, d);
  }

  lemma AddedOrder(t: Tree<Node>, e: Node, d: Side)
    requires Sorted(Inorder(t)) && SplitAt(t, e.key) && e !in Inorder(t) && Towards(e.key, t.elm, d)
    ensures
      var t' := AddedShape(t, e, d);
      Sorted(Inorder(t')) && e in Inorder(t') && Without(Inorder(t'), e) == Inorder(t) && t.elm in Inorder(t')
    ensures forall n :: n in Inorder(t) ==> n.key != e.key && n in Inorder(AddedShape(t, e, d))
  {
    var l, x, r := Inorder(t.left), t.elm, Inorder(t.right);
    AddedInorder(t, e, d);
    if d.Lhs? {
      AddedBefore(l, x, r, e);
    } else {
      AddedAfter(l, x, r, e);
    }
  }

  lemma AddedBefore(l: seq<Node>, x: Node, r: seq<Node>, e: Node)
    requires Sorted(l + [x] + r) && Below(l, e.key) && Above(r, e.key) && e.key < x.key
    ensures var w := l + [e] + ([x] + r);
      Sorted(w) && e in w && x in w && Without(w, e) == l + [x] + r &&
      forall n :: n in l + [x] + r ==> n in w && n.key != e.key
  {
    var w := l + [e] + ([x] + r);
    assert l + [x] + r == l + ([x] + r);
    InsertedOrder(l, e, [x] + r);
    assert w[|l|] == e && w[|l| + 1] == x;
  }

  lemma AddedAfter(l: seq<Node>, x: Node, r: seq<Node>, e: Node)
    requires Sorted(l + [x] + r) && Below(l, e.key) && Above(r, e.key) && x.key < e.key
    ensures var w := (l + [x]) + [e] + r;
      Sorted(w) && e in w && x in w && Without(w, e) == l + [x] + r &&
      forall n :: n in l + [x] + r ==> n in w && n.key != e.key
  {
    var w := (l + [x]) + [e] + r;
    InsertedOrder(l + [x], e, r);
    assert w[|l|] == x && w[|l| + 1] == e;
  }

  lemma RemovedOrder(t: Tree<Node>)
    requires Sorted(Inorder(t)) && t.Branch?
    ensures Sorted(Inorder(t.left)) && Sorted(Inorder(t.right)) && Sorted(Inorder(t.left) + Inorder(t.right))
    ensures Below(Inorder(t.left), t.elm.key)
    ensures Without(Inorder(t), t.elm) == Inorder(t.left) + Inorder(t.right)
    ensures t.left.Leaf? ==> Without(Inorder(t), t.elm) == Inorder(t.right)
    ensures forall n :: n in Inorder(t.left) ==> n in Inorder(t)
    ensures t.elm in Inorder(t)
  {
    SortedSplit(Inorder(t.left), t.elm, Inorder(t.right));
    SortedWithout(Inorder(t.left), t.elm, Inorder(t.right));
    assert t.left.Leaf? ==> Inorder(t.left) + Inorder(t.right) == Inorder(t.right);
  }

  /** Splaying for a key above every element leaves nothing to the right of the root. */
  lemma NothingAbove(t: Tree<Node>, k: int)
    requires SplitAt(t, k) && Below(Inorder(t), k)
    ensures t.right.Leaf?
  {
    assert forall n :: n in Inorder(t.right) ==> n in Inorder(t);
    RootInside(t.right);
  }

  lemma RootInside(t: Tree<Node>)
    ensures t.Branch? ==> t.elm in Inorder(t)
  {
  }

  /** A subtree of greater elements is hung to the right of a root that has nothing there. */
  lemma HungRight(m: Memory, t: Tree<Node>, u: Tree<Node>)
    requires RepTree(m, t) && RepTree(m, u) && t.Branch? && t.right.Leaf? && Sorted(Inorder(t) + Inorder(u))
    ensures t.elm in m && RepTree(m[t.elm := m[t.elm].WithChild(Rhs, Root(u))], Branch(t.left, t.elm, u))
    ensures Inorder(Branch(t.left, t.elm, u)) == Inorder(t) + Inorder(u) && t.elm in Inorder(t)
  {
    assert Inorder(t) == Inorder(t.left) + [t.elm];
    SortedSplit(Inorder(t.left), t.elm, Inorder(u));
    var m' := m[t.elm := m[t.elm].WithChild(Rhs, Root(u))];
    TreeFrame(m, m', t.left);
    TreeFrame(m, m', u);
  }
}
