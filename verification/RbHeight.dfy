/** The logarithmic height bound of red-black trees. */
module RbHeight {
  import opened Powers
  import opened RbShape

  /** Nodes on the longest way down. */
  function Height<E>(t: Tree<E>): nat {
    match t
    case Leaf => 0
    case Branch(l, _, _, r) => 1 + if Height(l) < Height(r) then Height(r) else Height(l)
  }

  lemma Pow2Monotone(a: nat, b: nat)
    requires a <= b
    ensures Pow2(a) <= Pow2(b)
  {
    if a < b {
      Pow2Grows(a, b);
    }
  }

  /** Red nodes make up at most half of any way down. */
  lemma {:induction false} HeightByBlack<E>(t: Tree<E>)
    requires Balanced(t) && NoRedRed(t)
    ensures Height(t) <= 2 * BlackHeight(t) + (if IsRed(t) then 1 else 0)
  {
    if t.Branch? {
      HeightByBlack(t.left);
      HeightByBlack(t.right);
    }
  }

  /** The black nodes alone fill a complete tree. */
  lemma {:induction false} SizeByBlack<E>(t: Tree<E>)
    requires Balanced(t)
    ensures Pow2(BlackHeight(t)) <= |Inorder(t)| + 1
  {
    if t.Branch? {
      SizeByBlack(t.left);
      SizeByBlack(t.right);
    }
  }

  /** The stated maximum height: height <= 2 lg (n + 1). */
  lemma HeightBound<E>(t: Tree<E>)
    requires RedBlack(t)
    ensures Pow2(Height(t)) <= (|Inorder(t)| + 1) * (|Inorder(t)| + 1)
  {
    var b, n := BlackHeight(t), |Inorder(t)| + 1;
    HeightByBlack(t);
    SizeByBlack(t);
    Pow2Monotone(Height(t), b + b);
    Pow2Sum(b, b);
    Squared(Pow2(b), n);
  }

  lemma Squared(a: nat, b: nat)
    requires a <= b
    ensures a * a <= b * b
  {
    assert a * a <= a * b;
    assert a * b <= b * b;
  }
}
