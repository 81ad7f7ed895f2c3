/** The links between elements, as a map from element to cell, and what it means for those
    links to spell out a shape. Stated on values, so that every step of an algorithm is a map update. */
module RbMemory {
  import opened Elements
  import opened Sides
  import opened RbShape
  import opened RbBalance

  /** The links of one element once its packed word is read. */
  datatype Cell = Cell(left: Node?, right: Node?, parent: Node?, color: Color) {
    function Child(s: Side): Node? {
      if s.Lhs? then left else right
    }

    function WithChild(s: Side, n: Node?): Cell {
      if s.Lhs? then this.(left := n) else this.(right := n)
    }
  }

  function CellOn(s: Side, near: Node?, far: Node?, parent: Node?, color: Color): Cell {
    if s.Lhs? then Cell(near, far, parent, color) else Cell(far, near, parent, color)
  }

  type Memory = map<Node, Cell>

  predicate Known(m: Memory, n: Node?) {
    n == null || n in m
  }

  function Root(t: Tree<Node>): Node? {
    if t.Leaf? then null else t.elm
  }

  function Parent(p: Path<Node>): Node? {
    if p.Top? then null else p.elm
  }

  /** The topmost element when `child` is the root of the subtree in focus. */
  function Topmost(p: Path<Node>, child: Node?): Node? {
    if p.Top? then child else Topmost(p.up, p.elm)
  }

  /** The links in `m` spell out `t`, whose topmost element has parent `p`. */
  ghost predicate RepTree(m: Memory, t: Tree<Node>, p: Node?) {
    match t
    case Leaf => true
    case Branch(l, c, e, r) =>
      e in m && m[e] == Cell(Root(l), Root(r), p, c) && RepTree(m, l, e) && RepTree(m, r, e)
  }

  ghost predicate RepPath(m: Memory, p: Path<Node>, child: Node?) {
    p.Top? ||
    (p.elm in m && m[p.elm] == CellOn(p.side, child, Root(p.sib), Parent(p.up), p.color) &&
     RepTree(m, p.sib, p.elm) && RepPath(m, p.up, p.elm))
  }

  ghost predicate DistinctAt(p: Path<Node>, t: Tree<Node>) {
    Distinct(t) && PathDistinct(p) && PathNodes(p) !! Nodes(t)
  }

  /** The links in `m` below `root` spell out the tree whose subtree `t` hangs at the end of `p`. */
  ghost predicate At(m: Memory, root: Node?, p: Path<Node>, t: Tree<Node>) {
    RepTree(m, t, Parent(p)) && RepPath(m, p, Root(t)) && root == Topmost(p, Root(t)) && DistinctAt(p, t)
  }

  /** Nothing known about the elements of `s` was changed. */
  ghost predicate Same(m: Memory, m': Memory, s: set<Node>) {
    forall n :: n in s && n in m ==> n in m' && m'[n] == m[n]
  }

  lemma {:induction false} TreeFrame(m: Memory, m': Memory, t: Tree<Node>, p: Node?)
    requires RepTree(m, t, p) && Same(m, m', Nodes(t))
    ensures RepTree(m', t, p)
  {
    if t.Branch? {
      TreeFrame(m, m', t.left, t.elm);
      TreeFrame(m, m', t.right, t.elm);
    }
  }

  lemma {:induction false} PathFrame(m: Memory, m': Memory, p: Path<Node>, child: Node?)
    requires RepPath(m, p, child) && Same(m, m', PathNodes(p))
    ensures RepPath(m', p, child)
  {
    if !p.Top? {
      TreeFrame(m, m', p.sib, p.elm);
      PathFrame(m, m', p.up, p.elm);
    }
  }

  /** A shape leaves no freedom in the cells of its elements. */
  lemma {:induction false} SpelledCells(m: Memory, m': Memory, t: Tree<Node>, p: Node?)
    requires RepTree(m, t, p) && RepTree(m', t, p)
    ensures forall n :: n in Nodes(t) ==> n in m && n in m' && m[n] == m'[n]
  {
    if t.Branch? {
      SpelledCells(m, m', t.left, t.elm);
      SpelledCells(m, m', t.right, t.elm);
    }
  }

  /** Only the parent pointer of the topmost element of `t` changed. */
  lemma TreeReparent(m: Memory, m': Memory, t: Tree<Node>, p: Node?, p': Node?)
    requires RepTree(m, t, p) && Distinct(t)
    requires t.Branch? ==> t.elm in m' && m'[t.elm] == m[t.elm].(parent := p') && Same(m, m', Nodes(t) - {t.elm})
    ensures RepTree(m', t, p')
  {
    if t.Branch? {
      TreeFrame(m, m', t.left, t.elm);
      TreeFrame(m, m', t.right, t.elm);
    }
  }

  /** Only the link of the innermost parent that leads to the focus changed. */
  lemma PathRelink(m: Memory, m': Memory, p: Path<Node>, was: Node?, child: Node?)
    requires RepPath(m, p, was) && PathDistinct(p)
    requires !p.Top? ==>
      p.elm in m' && m'[p.elm] == m[p.elm].WithChild(p.side, child) && Same(m, m', PathNodes(p) - {p.elm})
    ensures RepPath(m', p, child)
  {
    if !p.Top? {
      TreeFrame(m, m', p.sib, p.elm);
      PathFrame(m, m', p.up, p.elm);
    }
  }

  // ---------- single writes ----------

  function Linked(m: Memory, n: Node, s: Side, child: Node?): Memory
    requires n in m
  {
    m[n := m[n].WithChild(s, child)]
  }

  /** The link that points down to `was`, in its parent `up`, is made to point to `child`. */
  function Relinked(m: Memory, up: Node?, was: Node, child: Node?): Memory
    requires Known(m, up)
  {
    if up == null then m
    else Linked(m, up, if m[up].left == was then Lhs else Rhs, child)
  }

  function Adopted(m: Memory, child: Node?, p: Node?): Memory
    requires Known(m, child)
  {
    if child == null then m else m[child := m[child].(parent := p)]
  }

  // ---------- rotation ----------

  predicate CanRotate(m: Memory, x: Node, s: Side) {
    && x in m && Known(m, m[x].parent) && m[x].parent != x
    && var y := m[x].Child(s.Flip());
       y != null && y in m && y != x && Known(m, m[y].Child(s)) && m[y].Child(s) != x
  }

  /** The writes of a rotation of `x` towards side `s`, in order. */
  function RotatedMem(m: Memory, x: Node, s: Side): Memory
    requires CanRotate(m, x, s)
  {
    var y := m[x].Child(s.Flip());
    var inner := m[y].Child(s);
    var m1 := Adopted(Linked(m, x, s.Flip(), inner), inner, x);
    var m2 := Relinked(Adopted(m1, y, m1[x].parent), m1[x].parent, x, y);
    Adopted(Linked(m2, y, s, x), x, y)
  }

  /** What a rotation relies on, read off the tree in focus. */
  lemma RotatePieces(m: Memory, p: Path<Node>, t: Tree<Node>, s: Side)
    requires RepTree(m, t, Parent(p)) && RepPath(m, p, Root(t)) && DistinctAt(p, t)
    requires t.Branch? && t.Child(s.Flip()).Branch?
    ensures CanRotate(m, t.elm, s) && m[t.elm].parent == Parent(p)
    ensures
      var x, y := t.elm, t.Child(s.Flip());
      && m[x] == CellOn(s, Root(t.Child(s)), y.elm, Parent(p), t.color)
      && m[y.elm] == CellOn(s, Root(y.Child(s)), Root(y.Child(s.Flip())), x, y.color)
      && Root(y.Child(s)) != x && y.elm != x && Distinct(y)
      && (!p.Top? ==> p.elm !in Nodes(t) && (m[p.elm].left == x <==> p.side.Lhs?))
      && RepTree(m, t.Child(s), x) && RepTree(m, y.Child(s), y.elm) && RepTree(m, y.Child(s.Flip()), y.elm)
  {
    var y := t.Child(s.Flip());
    assert RepTree(m, y, t.elm) && Distinct(y);
    assert RepTree(m, y.Child(s), y.elm);
    assert y.Child(s).Branch? ==> y.Child(s).elm in Nodes(y);
    if !p.Top? && p.sib.Branch? {
      assert p.sib.elm in Nodes(p.sib);
    }
  }

  /** What the writes of a rotation amount to, cell by cell. */
  lemma RotatedCells(m: Memory, x: Node, s: Side, m': Memory)
    requires CanRotate(m, x, s) && m' == RotatedMem(m, x, s)
    requires
      var y := m[x].Child(s.Flip());
      m[x].parent != y && m[y].Child(s) != y && (m[x].parent != null ==> m[y].Child(s) != m[x].parent)
    ensures
      var y, up := m[x].Child(s.Flip()), m[x].parent;
      var inner := m[y].Child(s);
      && m'[x] == m[x].WithChild(s.Flip(), inner).(parent := y)
      && m'[y] == m[y].WithChild(s, x).(parent := up)
      && (inner != null ==> m'[inner] == m[inner].(parent := x))
      && (up != null ==> m'[up] == m[up].WithChild(if m[up].left == x then Lhs else Rhs, y))
      && m'.Keys == m.Keys
      && forall n :: n in m && n !in {x, y, inner, up} ==> m'[n] == m[n]
  {
  }

  /** The subtree in focus after a rotation. */
  lemma RotatedTree(m: Memory, p: Node?, t: Tree<Node>, s: Side, m': Memory)
    requires RepTree(m, t, p) && Distinct(t) && t.Branch? && t.Child(s.Flip()).Branch?
    requires
      var x, y := t.elm, t.Child(s.Flip());
      var inner := Root(y.Child(s));
      && x in m' && m'[x] == CellOn(s, Root(t.Child(s)), inner, y.elm, t.color)
      && y.elm in m' && m'[y.elm] == CellOn(s, x, Root(y.Child(s.Flip())), p, y.color)
      && (inner != null ==> inner in m && inner in m' && m'[inner] == m[inner].(parent := x))
      && Same(m, m', Nodes(t) - {x, y.elm, inner})
    ensures RepTree(m', Rotated(t, s), p)
  {
    var x, y := t.elm, t.Child(s.Flip());
    assert RepTree(m, y, x) && Distinct(y);
    if y.Child(s).Branch? {
      assert y.Child(s).elm in Nodes(y.Child(s));
    }
    TreeFrame(m, m', t.Child(s), x);
    TreeFrame(m, m', y.Child(s.Flip()), y.elm);
    TreeReparent(m, m', y.Child(s), y.elm, x);
  }

  lemma RotatedAt(m: Memory, root: Node?, p: Path<Node>, t: Tree<Node>, s: Side, m': Memory)
    requires At(m, root, p, t) && t.Branch? && t.Child(s.Flip()).Branch?
    requires CanRotate(m, t.elm, s) && m' == RotatedMem(m, t.elm, s)
    ensures At(m', if p.Top? then t.Child(s.Flip()).elm else root, p, Rotated(t, s))
    ensures Same(m, m', m.Keys - Nodes(t) - PathNodes(p))
  {
    RotatePieces(m, p, t, s);
    RotatedCells(m, t.elm, s, m');
    RotatedTree(m, Parent(p), t, s, m');
    RotatedNodes(t, s);
    PathRelink(m, m', p, t.elm, t.Child(s.Flip()).elm);
  }

  // ---------- moving the focus ----------

  lemma {:induction false} FocusTop(m: Memory, root: Node?, p: Path<Node>, t: Tree<Node>)
    ensures At(m, root, p, t) <==> At(m, root, Top, Plug(p, t))
    decreases p
  {
    if !p.Top? {
      FocusTop(m, root, p.up, Join(p.side, t, p.color, p.elm, p.sib));
    }
  }

  /** The cells around the focus. */
  lemma Look(m: Memory, root: Node?, p: Path<Node>, t: Tree<Node>)
    requires At(m, root, Top, Plug(p, t))
    ensures t.Branch? ==> t.elm in m && m[t.elm] == Cell(Root(t.left), Root(t.right), Parent(p), t.color)
    ensures !p.Top? ==>
      && p.elm in m && m[p.elm] == CellOn(p.side, Root(t), Root(p.sib), Parent(p.up), p.color)
      && (t.Branch? || p.sib.Branch? ==> Root(t) != Root(p.sib))
    ensures root == Root(t) <==> p.Top?
  {
    FocusTop(m, root, p, t);
    if t.Branch? {
      assert t.elm in Nodes(t);
    }
    if !p.Top? {
      TopmostInPath(p, Root(t));
      assert p.sib.Branch? ==> p.sib.elm in Nodes(p.sib);
    }
  }

  lemma {:induction false} TopmostInPath(p: Path<Node>, child: Node?)
    requires !p.Top?
    ensures Topmost(p, child) in PathNodes(p)
  {
    if !p.up.Top? {
      TopmostInPath(p.up, p.elm);
    }
  }

  lemma RotatedPlug(m: Memory, root: Node?, p: Path<Node>, t: Tree<Node>, s: Side)
    requires At(m, root, Top, Plug(p, t)) && t.Branch? && t.Child(s.Flip()).Branch?
    ensures CanRotate(m, t.elm, s) && m[t.elm].Child(s.Flip()) == t.Child(s.Flip()).elm
    ensures
      var tmp := t.Child(s.Flip()).elm;
      At(RotatedMem(m, t.elm, s), if m[t.elm].parent == null then tmp else root, Top, Plug(p, Rotated(t, s)))
    ensures Same(m, RotatedMem(m, t.elm, s), m.Keys - Nodes(Plug(p, t)))
    ensures Nodes(Plug(p, Rotated(t, s))) == Nodes(Plug(p, t))
  {
    FocusTop(m, root, p, t);
    RotatePieces(m, p, t, s);
    RotatedAt(m, root, p, t, s, RotatedMem(m, t.elm, s));
    FocusTop(RotatedMem(m, t.elm, s), if p.Top? then t.Child(s.Flip()).elm else root, p, Rotated(t, s));
    PlugNodes(p, t);
    PlugNodes(p, Rotated(t, s));
    RotatedNodes(t, s);
  }

  lemma RecoloredAt(m: Memory, root: Node?, p: Path<Node>, t: Tree<Node>, c: Color, m': Memory)
    requires At(m, root, p, t) && t.Branch? && t.elm in m && m' == m[t.elm := m[t.elm].(color := c)]
    ensures At(m', root, p, t.(color := c))
  {
    TreeFrame(m, m', t.left, t.elm);
    TreeFrame(m, m', t.right, t.elm);
    PathFrame(m, m', p, t.elm);
  }

  lemma RecoloredPlug(m: Memory, root: Node?, p: Path<Node>, t: Tree<Node>, c: Color)
    requires At(m, root, Top, Plug(p, t)) && t.Branch?
    ensures t.elm in m && At(m[t.elm := m[t.elm].(color := c)], root, Top, Plug(p, t.(color := c)))
    ensures Nodes(Plug(p, t.(color := c))) == Nodes(Plug(p, t)) && t.elm in Nodes(Plug(p, t))
  {
    FocusTop(m, root, p, t);
    var m' := m[t.elm := m[t.elm].(color := c)];
    RecoloredAt(m, root, p, t, c, m');
    FocusTop(m', root, p, t.(color := c));
    PlugNodes(p, t);
    PlugNodes(p, t.(color := c));
  }

  // ---------- linking a new element in ----------

  /** The writes that hang the new red element `e` at the end of `p`. */
  function AttachedMem(m: Memory, p: Path<Node>, e: Node): Memory
    requires p.Top? || p.elm in m
  {
    var m1 := m[e := Cell(null, null, Parent(p), Red)];
    if p.Top? then m1 else Linked(m1, p.elm, p.side, e)
  }

  lemma AttachedPlug(m: Memory, root: Node?, p: Path<Node>, e: Node)
    requires At(m, root, Top, Plug(p, Leaf)) && e !in Nodes(Plug(p, Leaf))
    ensures
      var t := Branch(Leaf, Red, e, Leaf);
      && (p.Top? || p.elm in m)
      && At(AttachedMem(m, p, e), if p.Top? then e else root, Top, Plug(p, t))
      && Nodes(Plug(p, t)) == Nodes(Plug(p, Leaf)) + {e}
      && Same(m, AttachedMem(m, p, e), m.Keys - Nodes(Plug(p, t)))
  {
    var t := Branch(Leaf, Red, e, Leaf);
    PlugNodes(p, Leaf);
    PlugNodes(p, t);
    FocusTop(m, root, p, Leaf);
    var m' := AttachedMem(m, p, e);
    assert !p.Top? ==> p.elm in PathNodes(p);
    assert m'[e] == Cell(null, null, Parent(p), Red);
    assert RepTree(m', Leaf, e);
    PathRelink(m, m', p, null, e);
    FocusTop(m', if p.Top? then e else root, p, t);
  }

  // ---------- taking an element out ----------

  /** An element with at most one child is bypassed. Its own links stay as they were. */
  lemma SplicedPlug(m: Memory, root: Node?, p: Path<Node>, t: Tree<Node>, m': Memory)
    requires At(m, root, Top, Plug(p, t)) && t.Branch? && (t.left.Leaf? || t.right.Leaf?)
    requires Known(m, Root(OnlyChild(t))) && Known(m, Parent(p))
    requires m' == Relinked(Adopted(m, Root(OnlyChild(t)), Parent(p)), Parent(p), t.elm, Root(OnlyChild(t)))
    ensures At(m', if p.Top? then Root(OnlyChild(t)) else root, Top, Plug(p, OnlyChild(t)))
    ensures Nodes(Plug(p, OnlyChild(t))) == Nodes(Plug(p, t)) - {t.elm}
    ensures m'.Keys == m.Keys && Same(m, m', m.Keys - Nodes(Plug(p, OnlyChild(t))))
  {
    var c := OnlyChild(t);
    Look(m, root, p, t);
    FocusTop(m, root, p, t);
    PlugNodes(p, t);
    PlugNodes(p, c);
    assert c.Branch? ==> c.elm in Nodes(c);
    assert !p.Top? ==> p.elm in PathNodes(p);
    TreeReparent(m, m', c, t.elm, Parent(p));
    PathRelink(m, m', p, t.elm, Root(c));
    FocusTop(m', if p.Top? then Root(c) else root, p, c);
  }

  /** `e` takes over the links of the element in focus and the links that lead to it. */
  function ReplacedMem(m: Memory, x: Node, e: Node): Memory
    requires x in m && Known(m, m[x].parent) && Known(m, m[x].left) && Known(m, m[x].right)
  {
    var m1 := Relinked(m[e := m[x]], m[x].parent, x, e);
    Adopted(Adopted(m1, m[x].left, e), m[x].right, e)
  }

  /** What the takeover amounts to, cell by cell. */
  lemma ReplacedCells(m: Memory, x: Node, e: Node, m': Memory)
    requires x in m && Known(m, m[x].parent) && Known(m, m[x].left) && Known(m, m[x].right)
    requires m' == ReplacedMem(m, x, e) && e in m
    requires e !in {x, m[x].parent, m[x].left, m[x].right}
    requires m[x].left != null ==> m[x].left !in {m[x].parent, m[x].right}
    requires m[x].right != null ==> m[x].right != m[x].parent
    ensures
      var c := m[x];
      && m'.Keys == m.Keys && m'[e] == c
      && (c.parent != null ==> m'[c.parent] == m[c.parent].WithChild(if m[c.parent].left == x then Lhs else Rhs, e))
      && (c.left != null ==> m'[c.left] == m[c.left].(parent := e))
      && (c.right != null ==> m'[c.right] == m[c.right].(parent := e))
      && forall n :: n in m && n !in {e, c.parent, c.left, c.right} ==> m'[n] == m[n]
  {
  }

  lemma KnownRoots(m: Memory, t: Tree<Node>, p: Node?)
    requires RepTree(m, t, p) && t.Branch?
    ensures Known(m, Root(t.left)) && Known(m, Root(t.right))
    ensures t.left.Branch? ==> t.left.elm in Nodes(t.left)
    ensures t.right.Branch? ==> t.right.elm in Nodes(t.right)
  {
    assert RepTree(m, t.left, t.elm) && RepTree(m, t.right, t.elm);
  }

  lemma ReplacedPlug(m: Memory, root: Node?, p: Path<Node>, t: Tree<Node>, e: Node)
    requires At(m, root, Top, Plug(p, t)) && t.Branch? && e in m && e !in Nodes(Plug(p, t))
    ensures t.elm in m && Known(m, Parent(p)) && Known(m, m[t.elm].left) && Known(m, m[t.elm].right)
    ensures m[t.elm].parent == Parent(p)
    ensures
      var m', t' := ReplacedMem(m, t.elm, e), t.(elm := e);
      && At(m', if p.Top? then e else root, Top, Plug(p, t'))
      && Nodes(Plug(p, t')) == Nodes(Plug(p, t)) - {t.elm} + {e}
      && Same(m, m', m.Keys - Nodes(Plug(p, t')))
  {
    var t' := t.(elm := e);
    Look(m, root, p, t);
    FocusTop(m, root, p, t);
    KnownRoots(m, t, Parent(p));
    PlugNodes(p, t);
    PlugNodes(p, t');
    assert !p.Top? ==> p.elm in PathNodes(p);
    var m' := ReplacedMem(m, t.elm, e);
    ReplacedCells(m, t.elm, e, m');
    ReplacedAt(m, root, p, t, e, m');
    FocusTop(m', if p.Top? then e else root, p, t');
  }

  lemma ReplacedAt(m: Memory, root: Node?, p: Path<Node>, t: Tree<Node>, e: Node, m': Memory)
    requires At(m, root, p, t) && t.Branch? && e in m && e !in Nodes(t) && e !in PathNodes(p)
    requires m'.Keys == m.Keys && m'[e] == m[t.elm]
    requires t.left.Branch? ==> t.left.elm in m && m'[t.left.elm] == m[t.left.elm].(parent := e)
    requires t.right.Branch? ==> t.right.elm in m && m'[t.right.elm] == m[t.right.elm].(parent := e)
    requires !p.Top? ==> p.elm in m && m'[p.elm] == m[p.elm].WithChild(p.side, e)
    requires forall n :: n in m && n !in {e, Parent(p), Root(t.left), Root(t.right)} ==> m'[n] == m[n]
    ensures At(m', if p.Top? then e else root, p, t.(elm := e))
  {
    KnownRoots(m, t, Parent(p));
    TreeReparent(m, m', t.left, t.elm, e);
    TreeReparent(m, m', t.right, t.elm, e);
    PathRelink(m, m', p, t.elm, e);
  }
}
