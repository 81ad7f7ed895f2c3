/** What both trees stand for: a finite map from keys to elements, and the effect of a run of operations on it. */
module OrderedStore {
  import opened Elements
  import opened Order

  type Store = map<int, Node>

  datatype Op = Add(elm: Node) | Drop(elm: Node) | Seek(key: int)

  /** The store a sequence of elements stands for. */
  ghost function StoreOf(s: seq<Node>): Store
    requires Sorted(s)
  {
    KeysUnique(s);
    map n | n in s :: n.key := n
  }

  /** Adding keeps the element that has the key already and returns it. Dropping goes by key, and hands back the
      element it was called with. */
  function After(st: Store, op: Op): Store {
    match op
    case Add(e) => if e.key in st then st else st[e.key := e]
    case Drop(e) => st - {e.key}
    case Seek(_) => st
  }

  function Answer(st: Store, op: Op): Node? {
    match op
    case Add(e) => if e.key in st then st[e.key] else null
    case Drop(e) => if e.key in st then e else null
    case Seek(k) => if k in st then st[k] else null
  }

  /** A red-black tree drops an element by looking it up first, and hands back the one that was found. */
  function LookedUp(op: Op): Op {
    if op.Drop? then Seek(op.elm.key) else op
  }

  function AfterAll(st: Store, ops: seq<Op>, k: nat): Store
    requires k <= |ops|
  {
    if k == 0 then st else After(AfterAll(st, ops, k - 1), ops[k - 1])
  }

  /** `r` is the answer of operation `j`. */
  predicate Answers(st: Store, ops: seq<Op>, j: nat, r: Node?) {
    j < |ops| && r == Answer(AfterAll(st, ops, j), ops[j])
  }

  /** The same where elements are dropped by looking them up. */
  predicate AnswersFound(st: Store, ops: seq<Op>, j: nat, r: Node?) {
    j < |ops| && r == Answer(AfterAll(st, ops, j), LookedUp(ops[j]))
  }

  lemma Unanswered(s: seq<Node>, k: int)
    requires Sorted(s)
    ensures k in StoreOf(s) <==> exists n :: n in s && n.key == k
    ensures forall n :: n in s ==> n.key in StoreOf(s) && StoreOf(s)[n.key] == n
  {
  }

  lemma StoreIs(s: seq<Node>, st: Store)
    requires Sorted(s)
    requires forall n :: n in s ==> n.key in st && st[n.key] == n
    requires forall k :: k in st ==> st[k] in s && st[k].key == k
    ensures StoreOf(s) == st
  {
    forall k | k in st
      ensures k in StoreOf(s) && StoreOf(s)[k] == st[k]
    {
      assert st[k] in s;
    }
  }

  lemma Added(s: seq<Node>, e: Node, s': seq<Node>)
    requires Sorted(s) && Sorted(s') && e in s' && Without(s', e) == s
    requires forall n :: n in s ==> n.key != e.key
    ensures StoreOf(s') == After(StoreOf(s), Add(e)) && Answer(StoreOf(s), Add(e)) == null
  {
    WithoutMembers(s', e);
    Unanswered(s, e.key);
    StoreIs(s', StoreOf(s)[e.key := e]);
  }

  lemma Dropped(s: seq<Node>, e: Node, gone: Node, s': seq<Node>)
    requires Sorted(s) && Sorted(s') && gone in s && gone.key == e.key && s' == Without(s, gone)
    ensures StoreOf(s') == After(StoreOf(s), Drop(e)) && Answer(StoreOf(s), Drop(e)) == e
  {
    WithoutMembers(s, gone);
    Unanswered(s, e.key);
    KeysUnique(s);
    StoreIs(s', StoreOf(s) - {e.key});
  }

  lemma Missing(s: seq<Node>, e: Node)
    requires Sorted(s) && forall n :: n in s ==> n.key != e.key
    ensures After(StoreOf(s), Drop(e)) == StoreOf(s) && Answer(StoreOf(s), Drop(e)) == null
    ensures Answer(StoreOf(s), Seek(e.key)) == null
  {
    Unanswered(s, e.key);
  }

  lemma Found(s: seq<Node>, n: Node)
    requires Sorted(s) && n in s
    ensures Answer(StoreOf(s), Seek(n.key)) == n
  {
    Unanswered(s, n.key);
  }

  // ---------- a history of operations ----------

  predicate DropsKey(op: Op, key: int) {
    op.Drop? && op.elm.key == key
  }

  /** Among operations `i` up to, not including, `k` the key is dropped. */
  predicate DroppedIn(ops: seq<Op>, i: nat, k: nat, key: int) {
    exists j :: i <= j < k && j < |ops| && DropsKey(ops[j], key)
  }

  /** Operation `j` is the first addition of this key after its latest drop. */
  predicate Holds(ops: seq<Op>, k: nat, key: int, j: nat) {
    && j < k <= |ops| && ops[j].Add? && ops[j].elm.key == key && !DroppedIn(ops, j, k, key)
    && forall i: nat :: i < j && ops[i].Add? && ops[i].elm.key == key ==> DroppedIn(ops, i, j, key)
  }

  lemma {:induction false} SomeHolds(ops: seq<Op>, k: nat, key: int, i: nat)
    requires i < k <= |ops| && ops[i].Add? && ops[i].elm.key == key && !DroppedIn(ops, i, k, key)
    ensures exists j: nat :: Holds(ops, k, key, j)
  {
    if h: nat :| h < i && ops[h].Add? && ops[h].elm.key == key && !DroppedIn(ops, h, i, key) {
      SomeHolds(ops, k, key, h);
    } else {
      assert Holds(ops, k, key, i);
    }
  }

  /** One operation more: from `m` to `k`. */
  lemma HoldsStays(ops: seq<Op>, m: nat, k: nat, key: int, j: nat)
    requires j < m < k == m + 1 <= |ops|
    ensures Holds(ops, k, key, j) <==> Holds(ops, m, key, j) && !DropsKey(ops[m], key)
  {
    assert DropsKey(ops[m], key) ==> DroppedIn(ops, j, k, key);
  }

  lemma HoldsNow(ops: seq<Op>, m: nat, k: nat, key: int)
    requires k == m + 1 <= |ops|
    ensures Holds(ops, k, key, m)
            <==> ops[m].Add? && ops[m].elm.key == key && !exists j: nat :: Holds(ops, m, key, j)
  {
    if i: nat :| i < m && ops[i].Add? && ops[i].elm.key == key && !DroppedIn(ops, i, m, key) {
      SomeHolds(ops, m, key, i);
    }
  }

  /** What a run from the empty store leaves: each key that was added and not dropped since, with the element that was
      added first since its latest drop. */
  lemma {:induction false} HistoryOfStore(ops: seq<Op>, k: nat, key: int)
    requires k <= |ops|
    ensures key in AfterAll(map[], ops, k) <==> exists j: nat :: Holds(ops, k, key, j)
    ensures forall j: nat :: Holds(ops, k, key, j) ==> AfterAll(map[], ops, k)[key] == ops[j].elm
  {
    if k > 0 {
      var m := k - 1;
      HistoryOfStore(ops, m, key);
      HoldsNow(ops, m, k, key);
      if j: nat :| Holds(ops, m, key, j) {
        HoldsStays(ops, m, k, key, j);
      }
      forall j: nat | Holds(ops, k, key, j)
        ensures j < m ==> Holds(ops, m, key, j) && !DropsKey(ops[m], key)
      {
        if j < m {
          HoldsStays(ops, m, k, key, j);
        }
      }
    }
  }
}
