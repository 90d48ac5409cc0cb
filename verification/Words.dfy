/** Bytes, 32-bit little-endian words inside byte sequences, and disk blocks. */
module Words {

  type byte = x: int | 0 <= x < 256

  const U32: int := 0x1_0000_0000

  type Block = b: seq<byte> | |b| == 512 witness seq(512, _ => 0)

  /** The word a 32-bit x86 load reads at byte offset o. */
  function LoadU32(s: seq<byte>, o: nat): (v: nat)
    requires o + 4 <= |s|
    ensures v < U32
  {
    var (b0: int, b1: int, b2: int, b3: int) := (s[o], s[o + 1], s[o + 2], s[o + 3]);
    b0 + 0x100 * b1 + 0x1_0000 * b2 + 0x100_0000 * b3
  }

  /** The short a 16-bit x86 load reads at byte offset o. */
  function LoadU16(s: seq<byte>, o: nat): (v: nat)
    requires o + 2 <= |s|
    ensures v < 0x1_0000
  {
    var (b0: int, b1: int) := (s[o], s[o + 1]);
    b0 + 0x100 * b1
  }

  /** The bytes after a 32-bit x86 store of v at byte offset o. */
  function StoreU32(s: seq<byte>, o: nat, v: nat): (r: seq<byte>)
    requires o + 4 <= |s| && v < U32
    ensures |r| == |s|
    ensures LoadU32(r, o) == v
    ensures forall i :: 0 <= i < |s| && !(o <= i < o + 4) ==> r[i] == s[i]
  {
    var (q1, q2, q3) := (v / 0x100, v / 0x100 / 0x100, v / 0x100 / 0x100 / 0x100);
    s[o := v % 0x100][o + 1 := q1 % 0x100][o + 2 := q2 % 0x100][o + 3 := q3]
  }

  lemma LoadOther(s: seq<byte>, o: nat, v: nat, p: nat)
    requires o + 4 <= |s| && p + 4 <= |s| && v < U32 && (p + 4 <= o || o + 4 <= p)
    ensures LoadU32(StoreU32(s, o, v), p) == LoadU32(s, p)
  {
  }

  /** x with y copied over it from byte o on. */
  function Splice(x: seq<byte>, o: nat, y: seq<byte>): (r: seq<byte>)
    requires o + |y| <= |x|
    ensures |r| == |x| && forall k :: 0 <= k < |x| ==> r[k] == if o <= k < o + |y| then y[k - o] else x[k]
  {
    x[..o] + y + x[o + |y|..]
  }

  function ZeroBlock(): (z: Block)
    ensures forall i :: 0 <= i < 512 ==> z[i] == 0
  {
    seq(512, _ => 0)
  }

  // ---- single bits ---------------------------------------------------------------------

  predicate BitAt(x: nat, k: nat) { if k == 0 then x % 2 == 1 else BitAt(x / 2, k - 1) }

  function Pow2(w: nat): (p: nat)
    ensures p > 0
  {
    if w == 0 then 1 else 2 * Pow2(w - 1)
  }

  /** Or-ing bit k into a number below 2^w. */
  function SetBit(x: nat, k: nat, w: nat): (r: nat)
    requires k < w && x < Pow2(w)
    ensures r < Pow2(w)
  {
    var half := Pow2(w - 1);
    assert x < 2 * half && x / 2 < half;
    if k == 0 then (if x % 2 == 1 then x else x + 1) else 2 * SetBit(x / 2, k - 1, w - 1) + x % 2
  }

  /** Masking bit k out of it. */
  function ClearBit(x: nat, k: nat, w: nat): (r: nat)
    requires k < w && x < Pow2(w)
    ensures r < Pow2(w)
  {
    var half := Pow2(w - 1);
    assert x < 2 * half && x / 2 < half;
    if k == 0 then (if x % 2 == 1 then x - 1 else x) else 2 * ClearBit(x / 2, k - 1, w - 1) + x % 2
  }

  lemma {:induction false} BitSet(x: nat, k: nat, w: nat, j: nat)
    requires k < w && x < Pow2(w)
    ensures BitAt(SetBit(x, k, w), j) <==> j == k || BitAt(x, j)
    decreases w
  {
    if k > 0 {
      assert x / 2 < Pow2(w - 1);
      Halves(SetBit(x / 2, k - 1, w - 1), x % 2);
      if j > 0 { BitSet(x / 2, k - 1, w - 1, j - 1); }
    }
  }

  lemma {:induction false} BitCleared(x: nat, k: nat, w: nat, j: nat)
    requires k < w && x < Pow2(w)
    ensures BitAt(ClearBit(x, k, w), j) <==> j != k && BitAt(x, j)
    decreases w
  {
    if k > 0 {
      assert x / 2 < Pow2(w - 1);
      Halves(ClearBit(x / 2, k - 1, w - 1), x % 2);
      if j > 0 { BitCleared(x / 2, k - 1, w - 1, j - 1); }
    }
  }

  lemma Halves(y: nat, b: nat)
    requires b < 2
    ensures (2 * y + b) / 2 == y && (2 * y + b) % 2 == b
  {
  }

  /** Setting or clearing a bit changes no other. */
  lemma OneBit(x: nat, k: nat, w: nat, j: nat)
    requires k < w && x < Pow2(w)
    ensures BitAt(SetBit(x, k, w), j) <==> j == k || BitAt(x, j)
    ensures BitAt(ClearBit(x, k, w), j) <==> j != k && BitAt(x, j)
  {
    BitSet(x, k, w, j);
    BitCleared(x, k, w, j);
  }
}
