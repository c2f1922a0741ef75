/** Facts about division that the solver does not find on its own. */
module Division {

  lemma SmallRemainder(n: nat, m: nat)
    requires n < m
    ensures n % m == n
  {
  }

  lemma RemainderOf(m: nat, a: nat, r: nat)
    requires r < m
    ensures (m * a + r) % m == r
  {
    var n: int := m * a + r;
    var d: int := n / m - a;
    Multiples(d, m);
    assert m * (n / m) == m * a + d * m;
  }

  lemma ScaledRemainder(x: nat, m: nat, k: nat)
    requires 0 < m && 0 < k
    ensures x * k % (m * k) == x % m * k
  {
    var a, b := x / m, x % m;
    assert x == m * a + b;
    assert x * k == (m * k) * a + b * k;
    assert b * k < m * k;
    RemainderOf(m * k, a, b * k);
  }

  lemma Multiples(k: int, m: nat)
    ensures k >= 1 ==> k * m >= m
    ensures k <= -1 ==> k * m + m <= 0
  {
    if k >= 1 {
      assert (k - 1) * m >= 0;
    } else if k <= -1 {
      assert (-k - 1) * m >= 0;
    }
  }

  lemma QuotientOf(m: nat, a: nat, r: nat)
    requires r < m
    ensures (m * a + r) / m == a
  {
    var n: int := m * a + r;
    var d: int := n / m - a;
    Multiples(d, m);
    assert m * (n / m) == m * a + d * m;
  }
}

/** Slices of slices. */
module Slices {

  lemma SliceOfSlice<T>(s: seq<T>, lo: nat, hi: nat, from: nat, to: nat)
    requires lo <= hi <= |s| && from <= to <= hi - lo
    ensures s[lo..hi][from..to] == s[lo + from..lo + to]
  {
    var a, b := s[lo..hi][from..to], s[lo + from..lo + to];
    assert forall k :: 0 <= k < to - from ==> a[k] == s[lo + from + k] == b[k];
  }

  lemma AdjacentSlices<T>(s: seq<T>, lo: nat, mid: nat, hi: nat)
    requires lo <= mid <= hi <= |s|
    ensures s[lo..mid] + s[mid..hi] == s[lo..hi]
  {
    var a, b := s[lo..mid] + s[mid..hi], s[lo..hi];
    assert forall k :: 0 <= k < hi - lo ==> a[k] == s[lo + k] == b[k];
  }
}

/** Bytes as numbers. */
module Bytes {

  type Byte = x: int | 0 <= x < 0x100

  function Zeros(n: nat): (z: seq<Byte>)
    ensures |z| == n
  {
    seq(n, i => 0)
  }
}
