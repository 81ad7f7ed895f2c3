/** IPv4 networks: an address and a prefix length (section 3.1 of RFC 4632). */
module Networks {
  import opened Powers

  type Addr = a: int | 0 <= a < 0x1_0000_0000

  datatype Net = Net(base: Addr, len: nat)

  /** How many addresses a prefix of this length leaves open. */
  function Size(len: nat): (r: nat)
    requires len <= 32
    ensures r >= 1
  {
    Pow2(32 - len)
  }

  /** The address with its host bits cleared. */
  function Masked(a: Addr, len: nat): (r: Addr)
    requires len <= 32
  {
    RestAtMost(a, Size(len));
    a - a % Size(len)
  }

  lemma RestAtMost(a: nat, s: nat)
    requires s > 0
    ensures a % s <= a
  {
  }

  /** As ParseCIDR returns it: the host bits are clear. */
  predicate Canonical(n: Net) {
    n.len <= 32 && n.base % Size(n.len) == 0
  }

  predicate Contains(n: Net, a: Addr) {
    n.len <= 32 && Masked(a, n.len) == n.base
  }

  lemma {:induction false} MultiplesApart(x: int, y: int, s: int)
    requires s > 0 && x < y
    ensures x * s + s <= y * s
    decreases y - x
  {
    assert y * s == (y - 1) * s + s;
    if x < y - 1 { MultiplesApart(x, y - 1, s); }
  }

  /** `b` is a multiple of `s`; then rounding `a` down to a multiple of `s` gives `b` exactly within `s` above `b`. */
  lemma RoundedDown(a: int, b: int, s: int)
    requires s > 0 && b % s == 0
    ensures a - a % s == b <==> b <= a < b + s
  {
    var x, y := a / s, b / s;
    assert a == x * s + a % s && b == y * s;
    if x < y { MultiplesApart(x, y, s); }
    if y < x { MultiplesApart(y, x, s); }
  }

  /** A network is a range of addresses that starts at its base. */
  lemma ContainsRange(n: Net, a: Addr)
    requires Canonical(n)
    ensures Contains(n, a) <==> n.base <= a < n.base + Size(n.len)
  {
    RoundedDown(a, n.base, Size(n.len));
  }

  lemma Pow2Of32()
    ensures Pow2(32) == 0x1_0000_0000
  {
    assert Pow2(8) == 256;
    Pow2Sum(8, 8);
    Pow2Sum(16, 16);
  }

  lemma MultipleBelow(b: int, s: int, k: int)
    requires s > 0 && b % s == 0 && b < s * k
    ensures b + s <= s * k
  {
    var y := b / s;
    assert b == y * s;
    if y >= k {
      MultipliesUp(k, y, s);
      assert false;
    }
    MultiplesApart(y, k, s);
  }

  lemma MultipliesUp(x: int, y: int, s: int)
    requires s > 0 && x <= y
    ensures x * s <= y * s
  {
    if x < y { MultiplesApart(x, y, s); }
  }

  /** The last address of a network is an address. */
  lemma FitsIn(n: Net)
    requires Canonical(n)
    ensures n.base + Size(n.len) <= 0x1_0000_0000
  {
    Pow2Of32();
    Pow2Sum(32 - n.len, n.len);
    MultipleBelow(n.base, Size(n.len), Pow2(n.len));
  }

  ghost predicate SameAddresses(m: Net, n: Net) {
    forall a: Addr :: Contains(m, a) <==> Contains(n, a)
  }

  /** Equal notation means equal networks: two networks hold the same addresses only if they are written alike. */
  lemma SameNetwork(m: Net, n: Net)
    requires Canonical(m) && Canonical(n)
    ensures SameAddresses(m, n) <==> m == n
  {
    if SameAddresses(m, n) {
      FitsIn(m);
      FitsIn(n);
      var ends: seq<Addr> := [m.base, n.base, m.base + Size(m.len) - 1, n.base + Size(n.len) - 1];
      forall i | 0 <= i < 4
        ensures m.base <= ends[i] < m.base + Size(m.len) <==> n.base <= ends[i] < n.base + Size(n.len)
      {
        ContainsRange(m, ends[i]);
        ContainsRange(n, ends[i]);
        assert Contains(m, ends[i]) <==> Contains(n, ends[i]);
      }
      assert ends[0] == m.base && ends[1] == n.base;
      assert ends[2] == m.base + Size(m.len) - 1 && ends[3] == n.base + Size(n.len) - 1;
      assert Size(m.len) == Size(n.len);
      if m.len < n.len { Pow2Grows(32 - n.len, 32 - m.len); }
      if n.len < m.len { Pow2Grows(32 - m.len, 32 - n.len); }
    }
  }

  lemma {:induction false} Reassociated(y: nat, s: int, k: int)
    ensures y * (s * k) == (y * k) * s
  {
    if y > 0 {
      Reassociated(y - 1, s, k);
      assert y * (s * k) == (y - 1) * (s * k) + s * k;
      assert y * k == (y - 1) * k + k;
      assert ((y - 1) * k + k) * s == ((y - 1) * k) * s + k * s;
    }
  }

  lemma MultipleOfMultiple(b: nat, s: int, k: int)
    requires s > 0 && s * k > 0 && b % (s * k) == 0
    ensures b % s == 0
  {
    var y := b / (s * k);
    assert b == y * (s * k);
    Reassociated(y, s, k);
    MultipleRest(y * k, s);
  }

  lemma MultipleRest(x: int, s: int)
    requires s > 0
    ensures (x * s) % s == 0
  {
    var q, r := (x * s) / s, (x * s) % s;
    assert x * s == q * s + r;
    if q < x { MultiplesApart(q, x, s); }
    if x < q { MultiplesApart(x, q, s); }
  }

  /** Two networks are nested or disjoint: with one address in common, the longer prefix lies inside the shorter. */
  lemma Nested(m: Net, n: Net, a: Addr, b: Addr)
    requires Canonical(m) && Canonical(n) && m.len <= n.len
    requires Contains(m, a) && Contains(n, a) && Contains(n, b)
    ensures Contains(m, b)
  {
    ContainsRange(m, a);
    ContainsRange(n, a);
    ContainsRange(n, b);
    ContainsRange(m, b);
    var s, k := Size(n.len), Pow2(n.len - m.len);
    assert Size(m.len) == s * k by { Pow2Sum(32 - n.len, n.len - m.len); }
    RangesNested(m.base, n.base, s, k, a, b);
  }

  lemma RangesNested(m: nat, n: nat, s: int, k: int, a: int, b: int)
    requires s > 0 && k > 0 && s * k > 0 && m % (s * k) == 0 && n % s == 0
    requires m <= a < m + s * k && n <= a < n + s && n <= b < n + s
    ensures m <= b < m + s * k
  {
    MultipleOfMultiple(m, s, k);
    var x, y := m / s, n / s;
    assert m == x * s && n == y * s;
    NestedRanges(x, y, k, s, a, b);
  }

  lemma NestedRanges(x: int, y: int, k: int, s: int, a: int, b: int)
    requires s > 0 && k > 0
    requires x * s <= a < x * s + s * k && y * s <= a < y * s + s && y * s <= b < y * s + s
    ensures x * s <= b < x * s + s * k
  {
    assert x * s + k * s == (x + k) * s;
    if y < x { MultiplesApart(y, x, s); } else { MultipliesUp(x, y, s); }
    if x + k <= y { MultipliesUp(x + k, y, s); } else { MultiplesApart(y, x + k, s); }
  }
}
