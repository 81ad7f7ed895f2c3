/** Sequences of elements in key order. */
module Order {
  import opened Elements
  import opened Sides

  ghost predicate Sorted(s: seq<Node>) {
    forall i, j :: 0 <= i < j < |s| ==> s[i].key < s[j].key
  }

  ghost predicate Below(s: seq<Node>, k: int) {
    forall n :: n in s ==> n.key < k
  }

  ghost predicate Above(s: seq<Node>, k: int) {
    forall n :: n in s ==> k < n.key
  }

  lemma SortedParts(a: seq<Node>, b: seq<Node>)
    requires Sorted(a + b)
    ensures Sorted(a) && Sorted(b)
  {
    assert forall i :: 0 <= i < |a| ==> a[i] == (a + b)[i];
    assert forall i :: 0 <= i < |b| ==> b[i] == (a + b)[|a| + i];
  }

  lemma SortedSplit(a: seq<Node>, e: Node, b: seq<Node>)
    ensures Sorted(a + [e] + b) <==> Sorted(a) && Sorted(b) && Below(a, e.key) && Above(b, e.key)
  {
    var w := a + [e] + b;
    if Sorted(w) {
      assert a + ([e] + b) == w;
      SortedParts(a, [e] + b);
      SortedParts(a + [e], b);
      assert w[|a|] == e;
      forall n | n in a
        ensures n.key < e.key
      {
        var j :| 0 <= j < |a| && a[j] == n;
        assert w[j] == n;
      }
      forall n | n in b
        ensures e.key < n.key
      {
        var j :| 0 <= j < |b| && b[j] == n;
        assert w[|a| + 1 + j] == n;
      }
    }
  }

  /** `s` with every occurrence of `e` left out. */
  function Without(s: seq<Node>, e: Node): seq<Node> {
    if s == [] then []
    else (if s[0] == e then [] else [s[0]]) + Without(s[1..], e)
  }

  lemma {:induction false} WithoutConcat(a: seq<Node>, b: seq<Node>, e: Node)
    ensures Without(a + b, e) == Without(a, e) + Without(b, e)
  {
    if a == [] {
      assert a + b == b;
    } else {
      assert (a + b)[1..] == a[1..] + b;
      WithoutConcat(a[1..], b, e);
    }
  }

  lemma {:induction false} WithoutSplit(a: seq<Node>, e: Node, b: seq<Node>)
    requires e !in a && e !in b
    ensures Without(a + [e] + b, e) == a + b
  {
    if a == [] {
      WithoutAbsent(b, e);
      assert ([e] + b)[1..] == b;
      assert a + [e] + b == [e] + b && a + b == b;
    } else {
      assert (a + [e] + b)[1..] == a[1..] + [e] + b;
      WithoutSplit(a[1..], e, b);
    }
  }

  lemma {:induction false} WithoutAbsent(s: seq<Node>, e: Node)
    requires e !in s
    ensures Without(s, e) == s
  {
    if s != [] {
      WithoutAbsent(s[1..], e);
    }
  }

  lemma SortedWithout(a: seq<Node>, e: Node, b: seq<Node>)
    requires Sorted(a + [e] + b)
    ensures Sorted(a + b) && Without(a + [e] + b, e) == a + b
  {
    SortedSplit(a, e, b);
    WithoutSplit(a, e, b);
  }

  /** An element put where its key belongs. */
  lemma InsertedOrder(a: seq<Node>, e: Node, b: seq<Node>)
    requires Sorted(a + b) && Below(a, e.key) && Above(b, e.key)
    ensures Sorted(a + [e] + b) && Without(a + [e] + b, e) == a + b
    ensures forall n :: n in a + b ==> n in a + [e] + b && n.key != e.key
  {
    SortedParts(a, b);
    SortedSplit(a, e, b);
    WithoutSplit(a, e, b);
  }

  /** The neighbour of `s[i]` on side `d`. */
  function Neighbour(s: seq<Node>, i: nat, d: Side): Node?
    requires i < |s|
  {
    if d.Rhs? then (if i + 1 < |s| then s[i + 1] else null)
    else (if i > 0 then s[i - 1] else null)
  }

  /** The first of what follows, or the last of what precedes. */
  function Nearest(s: seq<Node>, d: Side): Node? {
    if s == [] then null else if d.Rhs? then s[0] else s[|s| - 1]
  }

  lemma NeighbourAround(a: seq<Node>, e: Node, b: seq<Node>, i: nat, d: Side)
    requires Sorted(a + [e] + b) && i < |a + [e] + b| && (a + [e] + b)[i] == e
    ensures Neighbour(a + [e] + b, i, d) == Nearest(if d.Rhs? then b else a, d)
  {
    var s := a + [e] + b;
    assert s[|a|] == e;
    assert i == |a|;
  }

  lemma {:induction false} WithoutMembers(s: seq<Node>, e: Node)
    ensures forall n :: n in Without(s, e) <==> n in s && n != e
  {
    if s != [] {
      WithoutMembers(s[1..], e);
    }
  }

  lemma KeysUnique(s: seq<Node>)
    requires Sorted(s)
    ensures forall m, n :: m in s && n in s && m.key == n.key ==> m == n
  {
    forall m, n | m in s && n in s && m.key == n.key
      ensures m == n
    {
      var i :| 0 <= i < |s| && s[i] == m;
      var j :| 0 <= j < |s| && s[j] == n;
    }
  }
}
