/** Constants and notions that several modules share. */
module Common {
  const NUM_IDS: nat := 64
  const MAX_CHILDREN: nat := 3

  /** The bounds of user space. */
  const USERLO: nat := 0x4000_0000
  const USERHI: nat := 0xf000_0000

  predicate Distinct(q: seq<nat>) { forall i, j :: 0 <= i < j < |q| ==> q[i] != q[j] }

  /** q without its first occurrence of b. */
  function Without(q: seq<nat>, b: nat): (r: seq<nat>) {
    if q == [] then [] else if q[0] == b then q[1..] else [q[0]] + Without(q[1..], b)
  }

  lemma {:induction false} WithoutIs(q: seq<nat>, b: nat)
    requires Distinct(q)
    ensures Distinct(Without(q, b))
    ensures forall a :: a in Without(q, b) <==> a in q && a != b
    ensures |Without(q, b)| == if b in q then |q| - 1 else |q|
  {
    if q != [] {
      WithoutIs(q[1..], b);
      assert q == [q[0]] + q[1..];
      assert q[0] !in q[1..];
      if q[0] != b {
        var w := Without(q[1..], b);
        assert forall i :: 0 <= i < |w| ==> w[i] in q[1..] && w[i] != q[0];
      }
    }
  }

  lemma {:induction false} WithoutAt(q: seq<nat>, k: nat)
    requires Distinct(q) && k < |q|
    ensures Without(q, q[k]) == q[..k] + q[k + 1..]
  {
    if k > 0 {
      WithoutAt(q[1..], k - 1);
      assert q[1..][..k - 1] == q[1..k] && q[1..][k..] == q[k + 1..];
      assert q[..k] == [q[0]] + q[1..k];
    }
  }

  lemma {:induction false} WithoutNone(q: seq<nat>, p: nat)
    requires p !in q
    ensures Without(q, p) == q
  {
    if q != [] { WithoutNone(q[1..], p); }
  }
}
