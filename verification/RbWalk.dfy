/** Looking up and walking over a red-black tree. */
module RbWalk {
  import opened Elements
  import opened Order
  import opened Sides
  import opened RbShape
  import opened RbMemory
  import opened RbOrder
  import opened RbBalance
  import opened Powers
  import opened RbHeight
  import opened RbTree
  import opened OrderedStore

  /** What lies beyond the element in focus on side `d`, and the nearest element of it. */
  function Beyond(p: Path<Node>, t: Tree<Node>, d: Side): seq<Node>
    requires t.Branch?
  {
    if d.Rhs? then Inorder(t.right) + Back(p) else Front(p) + Inorder(t.left)
  }

  function Outside(p: Path<Node>, d: Side): seq<Node> {
    if d.Rhs? then Back(p) else Front(p)
  }

  lemma NeighbourInFocus(p: Path<Node>, t: Tree<Node>, i: nat, d: Side)
    requires Sorted(Inorder(Plug(p, t))) && t.Branch?
    requires i < |Inorder(Plug(p, t))| && Inorder(Plug(p, t))[i] == t.elm
    ensures Neighbour(Inorder(Plug(p, t)), i, d) == Nearest(Beyond(p, t, d), d)
  {
    var a, b := Beyond(p, t, Lhs), Beyond(p, t, Rhs);
    PlugInorder(p, t);
    assert Inorder(Plug(p, t)) == a + [t.elm] + b;
    NeighbourAround(a, t.elm, b, i, d);
  }

  /** The outermost element of a subtree on the side that faces the focus. */
  lemma NearestBelow(p: Path<Node>, t: Tree<Node>, d: Side, q: Path<Node>, u: Tree<Node>)
    requires t.Branch? && t.Child(d) == Plug(q, u) && Along(q, d.Flip()) && u.Branch? && u.Child(d.Flip()).Leaf?
    ensures Nearest(Beyond(p, t, d), d) == u.elm
  {
    OutermostAlong(q, u, d.Flip());
    var w := Inorder(t.Child(d));
    if d.Rhs? {
      assert Beyond(p, t, d)[0] == w[0];
    } else {
      assert Beyond(p, t, d)[|Front(p)| + |w| - 1] == w[|w| - 1];
    }
  }

  /** Brings `s[i]` into focus. */
  lemma FocusNeighbour(shape: Tree<Node>, e: Node, i: nat, d: Side) returns (p: Path<Node>, t: Tree<Node>)
    requires Sorted(Inorder(shape)) && i < |Inorder(shape)| && Inorder(shape)[i] == e
    ensures shape == Plug(p, t) && t.Branch? && t.elm == e
    ensures Neighbour(Inorder(shape), i, d) == Nearest(Beyond(p, t, d), d)
    ensures t.Child(d).Leaf? ==> Beyond(p, t, d) == Outside(p, d)
  {
    InorderNodes(shape);
    p, t := Focus(Top, shape, e);
    NeighbourInFocus(p, t, i, d);
    if t.Child(d).Leaf? {
      assert Beyond(p, t, d) == Outside(p, d);
    }
  }

  /** RB_NEXT for side Rhs, RB_PREV for side Lhs: the neighbour in order, or null at the end. */
  method Step(h: Head, e: Node, d: Side, ghost i: nat) returns (elm: Node?)
    requires h.Valid() && i < |h.Items()| && h.Items()[i] == e
    ensures elm == Neighbour(h.Items(), i, d)
  {
    ghost var p, t := FocusNeighbour(h.shape, e, i, d);
    elm := StepFrom(h, e, d, p, t);
  }

  /** Down if there is something below, up otherwise. */
  method StepFrom(h: Head, e: Node, d: Side, ghost p: Path<Node>, ghost t: Tree<Node>) returns (elm: Node?)
    requires h.WellLinked() && h.shape == Plug(p, t) && t.Branch? && t.elm == e
    ensures elm == Nearest(if t.Child(d).Leaf? then Outside(p, d) else Beyond(p, t, d), d)
  {
    Look(h.mem, h.root, p, t);
    var child := h.GetChild(e, d);
    if child != null {
      elm := Dive(h, child, d, p, t);
    } else {
      elm := Climb(h, e, d, p, t);
    }
  }

  /** The way down: to the outermost element of the subtree on side `d` that faces the focus. */
  method Dive(h: Head, child: Node, d: Side, ghost p: Path<Node>, ghost t: Tree<Node>) returns (elm: Node)
    requires h.WellLinked() && h.shape == Plug(p, t) && t.Branch? && t.Child(d).Branch? && child == t.Child(d).elm
    ensures elm == Nearest(Beyond(p, t, d), d)
  {
    ghost var q, u;
    elm, q, u := h.Extreme(child, d.Flip(), Went(p, d, t.color, t.elm, t.Child(d.Flip())), t.Child(d));
    NearestBelow(p, t, d, q, u);
  }

  /** The way up when there is nothing below: to the first ancestor that is left behind on the other side. */
  method Climb(h: Head, e: Node, d: Side, ghost p0: Path<Node>, ghost t0: Tree<Node>) returns (elm: Node?)
    requires h.WellLinked() && h.shape == Plug(p0, t0) && t0.Branch? && t0.elm == e
    ensures elm == Nearest(Outside(p0, d), d)
  {
    ghost var p, t := p0, t0;
    Look(h.mem, h.root, p, t);
    elm := e;
    var parent := h.GetParent(elm);
    while parent != null
      invariant h.shape == Plug(p, t) && t.Branch? && t.elm == elm && parent == Parent(p)
      invariant Nearest(Outside(p, d), d) == Nearest(Outside(p0, d), d)
      decreases p
    {
      Look(h.mem, h.root, p, t);
      var side := h.GetChild(parent, d);
      if side != elm { break; }
      Look(h.mem, h.root, p.up, Lifted(p, t));
      elm := parent;
      p, t := p.up, Lifted(p, t);
      parent := h.GetParent(elm);
    }
    elm := parent;
  }

  /** RB_MIN and RB_MAX. */
  method MinMax(h: Head, val: int) returns (parent: Node?)
    requires h.Valid()
    ensures parent == Nearest(h.Items(), if val < 0 then Rhs else Lhs)
  {
    var s := if val < 0 then Lhs else Rhs;
    var tmp := h.root;
    parent := null;
    ghost var p: Path<Node>, t := Top, h.shape;
    Look(h.mem, h.root, Top, h.shape);
    while tmp != null
      invariant h.shape == Plug(p, t) && tmp == Root(t) && parent == Parent(p) && Along(p, s)
      decreases t
    {
      Look(h.mem, h.root, p, t);
      parent := tmp;
      tmp := h.GetChild(tmp, s);
      p, t := Went(p, s, t.color, t.elm, t.Child(s.Flip())), t.Child(s);
    }
    if parent != null {
      ghost var u := Lifted(p, t);
      OutermostAlong(p.up, u, s);
    }
  }

  /** RB_FIND, counting the turns of its loop. */
  method Find(h: Head, k: int) returns (r: Node?, ghost turns: nat)
    requires h.Valid()
    ensures r != null ==> r in h.Items() && r.key == k
    ensures r == null ==> forall n :: n in h.Items() ==> n.key != k
    ensures Pow2(turns) <= (|h.Items()| + 1) * (|h.Items()| + 1)
  {
    HeightBound(h.shape);
    var tmp := h.root;
    turns := 0;
    ghost var p: Path<Node>, t := Top, h.shape;
    Look(h.mem, h.root, Top, h.shape);
    while tmp != null
      invariant h.shape == Plug(p, t) && tmp == Root(t) && Bracketed(p, k)
      invariant turns + Height(t) <= Height(h.shape)
      decreases t
    {
      Look(h.mem, h.root, p, t);
      PlugInorder(p, t);
      turns := turns + 1;
      Pow2Monotone(turns, Height(h.shape));
      var s;
      if k < tmp.key {
        s := Lhs;
      } else if k > tmp.key {
        s := Rhs;
      } else {
        return tmp, turns;
      }
      Descend(p, t, k, s);
      tmp := h.GetChild(tmp, s);
      p, t := Went(p, s, t.color, t.elm, t.Child(s.Flip())), t.Child(s);
    }
    PlugInorder(p, t);
    Pow2Monotone(turns, Height(h.shape));
    return null, turns;
  }

  /** Where both exist, RB_NEXT and RB_PREV undo each other. */
  method StepBack(h: Head, e: Node, d: Side, ghost i: nat) returns (there: Node?, back: Node?)
    requires h.Valid() && i < |h.Items()| && h.Items()[i] == e
    ensures there != null ==> back == e
  {
    there := Step(h, e, d, i);
    back := null;
    if there != null {
      back := Step(h, there, d.Flip(), if d.Rhs? then i + 1 else i - 1);
    }
  }

  /** RB_FOREACH (from RB_MIN by RB_NEXT): every element once, in order. */
  method Foreach(h: Head) returns (visited: seq<Node>)
    requires h.Valid()
    ensures visited == h.Items()
  {
    visited := [];
    var x := MinMax(h, -1);
    while x != null
      invariant visited <= h.Items()
      invariant x == if |visited| < |h.Items()| then h.Items()[|visited|] else null
      decreases |h.Items()| - |visited|
    {
      var y := Step(h, x, Rhs, |visited|);
      visited := visited + [x];
      x := y;
    }
  }

  /** The elements among the first `k` of `s` that are not gone. */
  function Kept(s: seq<Node>, k: nat, gone: set<Node>): seq<Node>
    requires k <= |s|
  {
    if k == 0 then [] else Kept(s, k - 1, gone) + (if s[k - 1] in gone then [] else [s[k - 1]])
  }

  lemma {:induction false} KeptMembers(s: seq<Node>, k: nat, gone: set<Node>)
    requires k <= |s|
    ensures forall n :: n in Kept(s, k, gone) <==> n in s[..k] && n !in gone
  {
    if k != 0 {
      KeptMembers(s, k - 1, gone);
      assert s[..k] == s[..k - 1] + [s[k - 1]];
    }
  }

  lemma {:induction false} KeptWithout(s: seq<Node>, k: nat, gone: set<Node>, n: Node)
    requires k <= |s|
    ensures Without(Kept(s, k, gone), n) == Kept(s, k, gone + {n})
  {
    if k != 0 {
      KeptWithout(s, k - 1, gone, n);
      var last := if s[k - 1] in gone then [] else [s[k - 1]];
      WithoutConcat(Kept(s, k - 1, gone), last, n);
      assert last != [] ==> last[1..] == [];
    }
  }

  /** `k` elements of `s` were visited, and those in `gone`, all visited, were removed. */
  ghost predicate Progress(s: seq<Node>, k: nat, gone: set<Node>, now: seq<Node>) {
    k <= |s| && now == Kept(s, k, gone) + s[k..] && forall n :: n in gone ==> n in s[..k]
  }

  /** The element in hand stands behind what was kept, and its successor is the next element. */
  lemma SuccessorSaved(s: seq<Node>, k: nat, gone: set<Node>, now: seq<Node>)
    requires k < |s| && Progress(s, k, gone, now)
    ensures
      var i := |Kept(s, k, gone)|;
      i < |now| && now[i] == s[k] && Neighbour(now, i, Rhs) == if k + 1 < |s| then s[k + 1] else null
  {
    var a := Kept(s, k, gone);
    assert now[|a|..] == s[k..];
  }

  /** No element stands on both sides of a position. */
  lemma EarlierNotLater(s: seq<Node>, k: nat, n: Node)
    requires Sorted(s) && k <= |s| && n in s[..k]
    ensures n !in s[k..]
  {
    var i :| 0 <= i < k && s[i] == n;
    assert forall j :: 0 <= j < |s[k..]| ==> s[k..][j] == s[k + j];
  }

  lemma Visit(s: seq<Node>, k: nat, gone: set<Node>, now: seq<Node>)
    requires Sorted(s) && k < |s| && Progress(s, k, gone, now)
    ensures Progress(s, k + 1, gone, now)
  {
    assert s[k..][0] == s[k];
    if s[k] in gone {
      EarlierNotLater(s, k, s[k]);
    }
    assert Kept(s, k, gone) + s[k..] == (Kept(s, k, gone) + [s[k]]) + s[k + 1..];
    assert forall n :: n in s[..k] ==> n in s[..k + 1];
  }

  /** A visited element is removed. */
  lemma Removal(s: seq<Node>, k: nat, gone: set<Node>, now: seq<Node>, n: Node)
    requires Sorted(s) && Progress(s, k, gone, now) && n in s[..k] && n !in gone
    ensures n in now && Progress(s, k, gone + {n}, Without(now, n))
  {
    KeptMembers(s, k, gone);
    KeptWithout(s, k, gone, n);
    EarlierNotLater(s, k, n);
    WithoutConcat(Kept(s, k, gone), s[k..], n);
    WithoutAbsent(s[k..], n);
  }

  /** What the loop body asks for when the `k`-th element is visited. */
  function Batch(batches: seq<seq<Node>>, k: nat): seq<Node> {
    if k < |batches| then batches[k] else []
  }

  /** Everything removed in the first `k` turns: what was asked for once it was visited. */
  ghost function Gone(s: seq<Node>, batches: seq<seq<Node>>, k: nat): set<Node>
    requires k <= |s|
  {
    if k == 0 then {} else Gone(s, batches, k - 1) + Asked(s, k, Batch(batches, k - 1))
  }

  ghost function Asked(s: seq<Node>, k: nat, batch: seq<Node>): set<Node>
    requires k <= |s|
  {
    set n | n in batch && n in s[..k]
  }

  /** In one of the first `k` turns the body asked for this element, which was the one in hand or visited before. */
  predicate TakenOut(s: seq<Node>, batches: seq<seq<Node>>, k: nat, n: Node) {
    exists j :: 0 <= j < k <= |s| && j < |batches| && n in batches[j] && n in s[..j + 1]
  }

  lemma {:induction false} GoneExactly(s: seq<Node>, batches: seq<seq<Node>>, k: nat)
    requires k <= |s|
    ensures forall n :: n in Gone(s, batches, k) <==> TakenOut(s, batches, k, n)
  {
    if k > 0 {
      GoneExactly(s, batches, k - 1);
      forall n: Node
        ensures n in Gone(s, batches, k) <==> TakenOut(s, batches, k, n)
      {
        TakenOutNext(s, batches, k, n);
      }
    }
  }

  lemma TakenOutNext(s: seq<Node>, batches: seq<seq<Node>>, k: nat, n: Node)
    requires 0 < k <= |s|
    ensures TakenOut(s, batches, k, n)
            <==> TakenOut(s, batches, k - 1, n) || n in Asked(s, k, Batch(batches, k - 1))
  {
    if TakenOut(s, batches, k - 1, n) {
      var j :| 0 <= j < k - 1 && j < |batches| && n in batches[j] && n in s[..j + 1];
      assert n in batches[j] && n in s[..j + 1];
    }
    if n in Asked(s, k, Batch(batches, k - 1)) {
      assert n in batches[k - 1] && n in s[..(k - 1) + 1];
    }
  }

  /** Removes an element if it was visited and is still there. */
  method RemoveVisited(h: Head, n: Node, visited: seq<Node>, removed: set<Node>, ghost s: seq<Node>)
    returns (gone: set<Node>)
    requires h.Valid() && Sorted(s) && visited <= s && Progress(s, |visited|, removed, h.Items())
    modifies h, h.arena
    ensures h.Valid() && Progress(s, |visited|, gone, h.Items())
    ensures gone == removed + (if n in s[..|visited|] then {n} else {})
  {
    gone := removed;
    assert visited == s[..|visited|];
    if n in visited && n !in removed {
      Removal(s, |visited|, removed, h.Items(), n);
      var _ := h.Remove(n);
      gone := removed + {n};
    }
  }

  /** The body of the loop: it removes those elements of the batch that were visited and are still there. */
  method RemoveBatch(h: Head, batch: seq<Node>, visited: seq<Node>, removed: set<Node>, ghost s: seq<Node>)
    returns (gone: set<Node>)
    requires h.Valid() && Sorted(s) && visited <= s && Progress(s, |visited|, removed, h.Items())
    modifies h, h.arena
    ensures h.Valid() && gone == removed + Asked(s, |visited|, batch)
    ensures Progress(s, |visited|, gone, h.Items())
  {
    gone := removed;
    assert Asked(s, |visited|, batch[..0]) == {};
    for i := 0 to |batch|
      invariant h.Valid() && gone == removed + Asked(s, |visited|, batch[..i])
      invariant Progress(s, |visited|, gone, h.Items())
    {
      AskedNext(s, |visited|, batch, i);
      gone := RemoveVisited(h, batch[i], visited, gone, s);
    }
    assert batch[..|batch|] == batch;
  }

  lemma AskedNext(s: seq<Node>, k: nat, batch: seq<Node>, i: nat)
    requires k <= |s| && i < |batch|
    ensures Asked(s, k, batch[..i + 1])
            == Asked(s, k, batch[..i]) + (if batch[i] in s[..k] then {batch[i]} else {})
  {
    assert batch[..i + 1] == batch[..i] + [batch[i]];
  }

  /** Between two turns: `visited` is done and `x` comes next. */
  ghost predicate Walking(s: seq<Node>, batches: seq<seq<Node>>, visited: seq<Node>, gone: set<Node>, x: Node?,
                          now: seq<Node>)
  {
    && visited <= s && gone == Gone(s, batches, |visited|) && Progress(s, |visited|, gone, now)
    && x == if |visited| < |s| then s[|visited|] else null
  }

  lemma OneMore(s: seq<Node>, before: seq<Node>, x: Node, batches: seq<seq<Node>>)
    requires before <= s && |before| < |s| && x == s[|before|]
    ensures before + [x] <= s && |before + [x]| == |before| + 1
    ensures Gone(s, batches, |before| + 1)
            == Gone(s, batches, |before|) + Asked(s, |before| + 1, Batch(batches, |before|))
  {
  }

  method SafeTurn(h: Head, x: Node, before: seq<Node>, batches: seq<seq<Node>>, removed: set<Node>, ghost s: seq<Node>)
    returns (y: Node?, gone: set<Node>)
    requires h.Valid() && Sorted(s) && |before| < |s| && Walking(s, batches, before, removed, x, h.Items())
    modifies h, h.arena
    ensures h.Valid() && Walking(s, batches, before + [x], gone, y, h.Items())
  {
    SuccessorSaved(s, |before|, removed, h.Items());
    y := Step(h, x, Rhs, |Kept(s, |before|, removed)|);
    Visit(s, |before|, removed, h.Items());
    OneMore(s, before, x, batches);
    gone := RemoveBatch(h, Batch(batches, |before|), before + [x], removed, s);
  }

  lemma ProgressDone(s: seq<Node>, k: nat, gone: set<Node>, now: seq<Node>)
    requires Progress(s, k, gone, now) && k == |s|
    ensures now == Kept(s, |s|, gone)
  {
    assert s[k..] == [];
  }

  /** RB_FOREACH_SAFE with a body that removes whichever visited elements it likes, the one in hand included: the
      successor saved beforehand stays in the tree and the walk misses nothing. */
  method ForeachSafe(h: Head, batches: seq<seq<Node>>) returns (visited: seq<Node>)
    requires h.Valid()
    modifies h, h.arena
    ensures h.Valid() && visited == old(h.Items())
    ensures forall n :: n in h.Items() <==> n in visited && !TakenOut(visited, batches, |visited|, n)
    ensures h.Items() == Kept(visited, |visited|, Gone(visited, batches, |visited|))
  {
    ghost var s := h.Items();
    var x := MinMax(h, -1);
    visited := SafeLoop(h, x, batches, s);
    ProgressDone(s, |s|, Gone(s, batches, |s|), h.Items());
    KeptMembers(s, |s|, Gone(s, batches, |s|));
    GoneExactly(s, batches, |s|);
    assert s[..|s|] == s;
  }

  method SafeLoop(h: Head, first: Node?, batches: seq<seq<Node>>, ghost s: seq<Node>) returns (visited: seq<Node>)
    requires h.Valid() && Sorted(s) && Walking(s, batches, [], {}, first, h.Items())
    modifies h, h.arena
    ensures h.Valid() && visited == s && Progress(s, |s|, Gone(s, batches, |s|), h.Items())
  {
    var x, gone := first, {};
    visited := [];
    while x != null
      invariant h.Valid() && Walking(s, batches, visited, gone, x, h.Items())
      decreases |s| - |visited|
    {
      var y;
      y, gone := SafeTurn(h, x, visited, batches, gone, s);
      visited := visited + [x];
      x := y;
    }
  }

  method FindAndRemove(h: Head, e: Node) returns (r: Node?)
    requires h.Valid()
    modifies h, h.arena
    ensures h.Valid() && StoreOf(h.Items()) == After(StoreOf(old(h.Items())), Drop(e))
    ensures r == Answer(StoreOf(old(h.Items())), Seek(e.key))
  {
    ghost var s, turns := h.Items(), 0;
    r, turns := Find(h, e.key);
    if r != null {
      Found(s, r);
      var _ := h.Remove(r);
      Dropped(s, e, r, h.Items());
    } else {
      Missing(s, e);
    }
  }

  /** One operation refines its effect on the store. An element is dropped by looking it up and removing it. */
  method Perform(h: Head, op: Op) returns (r: Node?)
    requires h.Valid() && (op.Add? ==> op.elm in h.arena)
    modifies h, h.arena
    ensures h.Valid()
    ensures StoreOf(h.Items()) == After(StoreOf(old(h.Items())), op)
    ensures r == Answer(StoreOf(old(h.Items())), LookedUp(op))
  {
    ghost var s, turns := h.Items(), 0;
    match op
    case Add(e) =>
      Unanswered(s, e.key);
      r := h.Insert(e);
      if r == null {
        Added(s, e, h.Items());
      }
    case Drop(e) =>
      r := FindAndRemove(h, e);
    case Seek(k) =>
      Unanswered(s, k);
      r, turns := Find(h, k);
  }

  /** Any run of operations refines the run on the store, answer by answer, and leaves a valid tree; with the bound
      of `Find`, a lookup in it takes at most 2 lg (n + 1) turns. */
  method Run(h: Head, ops: seq<Op>) returns (answers: seq<Node?>)
    requires h.Valid() && forall op :: op in ops && op.Add? ==> op.elm in h.arena
    modifies h, h.arena
    ensures h.Valid() && StoreOf(h.Items()) == AfterAll(StoreOf(old(h.Items())), ops, |ops|)
    ensures |answers| == |ops|
    ensures forall j :: 0 <= j < |ops| ==> AnswersFound(StoreOf(old(h.Items())), ops, j, answers[j])
  {
    ghost var st := StoreOf(h.Items());
    answers := [];
    for i := 0 to |ops|
      invariant h.Valid() && StoreOf(h.Items()) == AfterAll(st, ops, i) && |answers| == i
      invariant forall j :: 0 <= j < i ==> AnswersFound(st, ops, j, answers[j])
    {
      var r := Perform(h, ops[i]);
      answers := answers + [r];
    }
  }
}
