/** The two sides of a binary tree. */
module Sides {
  /** The source writes every algorithm twice, mirrored; here one text serves both sides. */
  datatype Side = Lhs | Rhs {
    function Flip(): Side {
      if this.Lhs? then Rhs else Lhs
    }
  }
}

/** The elements that the trees link together. */
module Elements {
  /** A structure with two embedded entries: `left`, `right` and `word` for a red-black tree (`word` holds the
      parent pointer and the colour), `speLeft` and `speRight` for a splay tree. Its key never changes. */
  class Node {
    const key: int
    const addr: bv64
    var left: Node?
    var right: Node?
    var word: bv64
    var speLeft: Node?
    var speRight: Node?

    constructor (key: int, addr: bv64)
      ensures this.key == key && this.addr == addr && speLeft == null && speRight == null
    {
      this.key, this.addr := key, addr;
      left, right, word := null, null, 0;
      speLeft, speRight := null, null;
    }
  }
}
