/** A parent pointer that carries a colour: nodes are aligned, so bit 0 of an address is free. */
module PackedWord {
  const MASK: bv64 := 1
  const PLACEHOLDER: bv64 := 0

  predicate Aligned(a: bv64) {
    a & MASK == 0
  }

  function Address(w: bv64): bv64 {
    w & !MASK
  }

  function Tag(w: bv64): bv64 {
    w & MASK
  }

  function Tagged(a: bv64, tag: bv64): bv64 {
    a | tag
  }

  lemma Untag(a: bv64, tag: bv64)
    requires Aligned(a) && tag <= 1
    ensures Address(Tagged(a, tag)) == a && Tag(Tagged(a, tag)) == tag
  {
  }

  lemma Parts(w: bv64)
    ensures Aligned(Address(w)) && Address(Address(w)) == Address(w) && Tag(w) <= 1
  {
  }

  lemma Plain(a: bv64)
    requires Aligned(a)
    ensures Address(a) == a && Tag(a) == 0
  {
  }

  /** SETCOLOR and SETPARENT on the word. */
  function WithTag(w: bv64, tag: bv64): bv64 {
    Tagged(Address(w), tag)
  }

  function WithAddress(w: bv64, a: bv64): bv64 {
    if Tag(w) != 0 then WithTag(a, Tag(w)) else a
  }

  /** Each setter writes its own half of the word and keeps the other. */
  lemma TagWritten(w: bv64, tag: bv64)
    requires tag <= 1
    ensures Address(WithTag(w, tag)) == Address(w) && Tag(WithTag(w, tag)) == tag
  {
    Parts(w);
    Untag(Address(w), tag);
  }

  lemma AddressWritten(w: bv64, a: bv64)
    requires Aligned(a)
    ensures Address(WithAddress(w, a)) == a && Tag(WithAddress(w, a)) == Tag(w)
  {
    Parts(w);
    Plain(a);
    Untag(a, Tag(w));
  }

  datatype Write = SetAddress(a: bv64) | SetTag(tag: bv64)

  predicate Proper(op: Write) {
    if op.SetAddress? then Aligned(op.a) else op.tag <= 1
  }

  function WrittenOnce(w: bv64, op: Write): bv64 {
    match op
    case SetAddress(a) => WithAddress(w, a)
    case SetTag(tag) => WithTag(w, tag)
  }

  function Written(w: bv64, ops: seq<Write>): bv64 {
    if ops == [] then w else WrittenOnce(Written(w, ops[..|ops| - 1]), ops[|ops| - 1])
  }

  /** The same writes to two separate fields. */
  function OnceApart(v: (bv64, bv64), op: Write): (bv64, bv64) {
    match op
    case SetAddress(a) => (a, v.1)
    case SetTag(tag) => (v.0, tag)
  }

  function WrittenApart(v: (bv64, bv64), ops: seq<Write>): (bv64, bv64) {
    if ops == [] then v else OnceApart(WrittenApart(v, ops[..|ops| - 1]), ops[|ops| - 1])
  }

  function Read(w: bv64): (bv64, bv64) {
    (Address(w), Tag(w))
  }

  lemma OnceRefinesApart(w: bv64, op: Write)
    requires Proper(op)
    ensures Read(WrittenOnce(w, op)) == OnceApart(Read(w), op)
  {
    match op
    case SetAddress(a) => AddressWritten(w, a);
    case SetTag(tag) => TagWritten(w, tag);
  }

  /** After any sequence of writes the word reads like a separate parent and a separate colour; this includes a
      tagged null pointer. */
  lemma {:induction false} PackedRefinesApart(w: bv64, ops: seq<Write>)
    requires forall op :: op in ops ==> Proper(op)
    ensures Read(Written(w, ops)) == WrittenApart(Read(w), ops)
  {
    if ops != [] {
      PackedRefinesApart(w, ops[..|ops| - 1]);
      OnceRefinesApart(Written(w, ops[..|ops| - 1]), ops[|ops| - 1]);
    }
  }
}
