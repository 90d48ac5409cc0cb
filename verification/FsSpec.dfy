/** Who owns which disk block, and what the bytes of a file are. */
module FsSpec {
  import opened Words
  import opened Layout

  /** Block pointer k of inode i: 0..11 direct, 12 the indirect block, 13.. the indirect block's entries. */
  datatype Slot = Slot(i: nat, k: nat)

  const NSLOTS: nat := 141

  type Nodes = map<nat, Node>
  type Owners = map<nat, Slot>

  function Entry(m: Flat, a: nat, j: nat): nat
    requires j < NINDIRECT
  {
    if a != 0 && a in m then LoadU32(m[a], 4 * j) else 0
  }

  function Addr(m: Flat, n: Node, k: nat): nat
    requires |n.addrs| == NDIRECT + 1 && k < NSLOTS
  {
    if k <= NDIRECT then n.addrs[k] else Entry(m, n.addrs[NDIRECT], k - NDIRECT - 1)
  }

  predicate Shaped(nodes: Nodes) { forall i :: i in nodes ==> |nodes[i].addrs| == NDIRECT + 1 }

  predicate Mounted(sb: Super, m: Flat) { sb.Good() && Spans(sb, m) }

  /**
   * Block ownership. own maps each data or indirect block in use to the one slot that points to it;
   * limbo holds blocks between allocation and placement, or between removal and freeing.
   */
  ghost predicate Owned(sb: Super, m: Flat, nodes: Nodes, own: Owners, limbo: set<nat>) {
    && Mounted(sb, m) && Shaped(nodes)
    && Pointers(m, nodes, own) && Pointees(sb, m, nodes, own)
    && (forall b :: b in limbo ==> sb.InData(b) && b !in own)
    && Bits(sb, m, own, limbo)
  }

  ghost predicate Pointers(m: Flat, nodes: Nodes, own: Owners)
    requires Shaped(nodes)
  {
    forall i, k :: i in nodes && 0 <= k < NSLOTS && Addr(m, nodes[i], k) != 0 ==>
      Addr(m, nodes[i], k) in own && own[Addr(m, nodes[i], k)] == Slot(i, k)
  }

  ghost predicate Pointees(sb: Super, m: Flat, nodes: Nodes, own: Owners)
    requires Shaped(nodes)
  {
    forall b :: b in own ==>
      sb.InData(b) && own[b].i in nodes && own[b].k < NSLOTS && Addr(m, nodes[own[b].i], own[b].k) == b
  }

  ghost predicate Bits(sb: Super, m: Flat, own: Owners, limbo: set<nat>)
    requires Mounted(sb, m)
  {
    forall b :: 0 <= b < sb.LogStart() ==> (InUse(sb, m, b) <==> b < sb.DataStart() || b in own || b in limbo)
  }

  /** Exactly one slot points to each block: the conservation law in plain terms. */
  lemma OneOwner(sb: Super, m: Flat, nodes: Nodes, own: Owners, b: nat, i: nat, k: nat, j: nat, l: nat)
    requires Owned(sb, m, nodes, own, {}) && i in nodes && j in nodes && k < NSLOTS && l < NSLOTS
    requires b != 0 && Addr(m, nodes[i], k) == b == Addr(m, nodes[j], l)
    ensures i == j && k == l && sb.InData(b) && InUse(sb, m, b)
  {
    assert own[b] == Slot(i, k) && own[b] == Slot(j, l);
  }

  lemma UsedHasOwner(sb: Super, m: Flat, nodes: Nodes, own: Owners, b: nat)
    requires Owned(sb, m, nodes, own, {}) && sb.InData(b)
    ensures InUse(sb, m, b) <==> exists i, k :: i in nodes && 0 <= k < NSLOTS && Addr(m, nodes[i], k) == b
  {
    if InUse(sb, m, b) {
      assert b in own;
      assert Addr(m, nodes[own[b].i], own[b].k) == b;
    }
  }

  // ---- steps on ownership -------------------------------------------------------------

  lemma AllocKeeps(sb: Super, m: Flat, nodes: Nodes, own: Owners, limbo: set<nat>, b: nat, z: Block)
    requires Owned(sb, m, nodes, own, limbo) && sb.InData(b) && !InUse(sb, m, b)
    ensures b !in own && b !in limbo
    ensures Owned(sb, m[sb.BitBlock() := Mark(m[sb.BitBlock()], b, true)][b := z], nodes, own, limbo + {b})
  {
    var m' := m[sb.BitBlock() := Mark(m[sb.BitBlock()], b, true)][b := z];
    forall i, k | i in nodes && 0 <= k < NSLOTS ensures Addr(m', nodes[i], k) == Addr(m, nodes[i], k) {
      AddrSame(sb, m, nodes, own, limbo, m', i, k);
    }
    forall c | 0 <= c < sb.LogStart() ensures InUse(sb, m', c) <==> if c == b then true else InUse(sb, m, c) { }
  }

  /** Pointers live in dinodes and in owned indirect blocks, nowhere else. */
  lemma AddrSame(sb: Super, m: Flat, nodes: Nodes, own: Owners, limbo: set<nat>, m': Flat, i: nat, k: nat)
    requires Owned(sb, m, nodes, own, limbo) && i in nodes && k < NSLOTS
    requires forall a :: a in own && own[a].k == NDIRECT ==> a in m' && m'[a] == m[a]
    ensures Addr(m', nodes[i], k) == Addr(m, nodes[i], k)
  {
    var a := nodes[i].addrs[NDIRECT];
    assert a == Addr(m, nodes[i], NDIRECT);
  }

  lemma FreeKeeps(sb: Super, m: Flat, nodes: Nodes, own: Owners, limbo: set<nat>, b: nat)
    requires Owned(sb, m, nodes, own, limbo) && b in limbo
    ensures InUse(sb, m, b)
    ensures Owned(sb, m[sb.BitBlock() := Mark(m[sb.BitBlock()], b, false)], nodes, own, limbo - {b})
  {
    var m' := m[sb.BitBlock() := Mark(m[sb.BitBlock()], b, false)];
    forall i, k | i in nodes && 0 <= k < NSLOTS ensures Addr(m', nodes[i], k) == Addr(m, nodes[i], k) {
      AddrSame(sb, m, nodes, own, limbo, m', i, k);
    }
    forall c | 0 <= c < sb.LogStart() ensures InUse(sb, m', c) <==> if c == b then false else InUse(sb, m, c) { }
  }

  /** A write to a block that holds no pointers and no bitmap. */
  lemma WriteKeeps(sb: Super, m: Flat, nodes: Nodes, own: Owners, limbo: set<nat>, s: nat, x: Block)
    requires Owned(sb, m, nodes, own, limbo) && s in m && s != sb.BitBlock() && (s in own ==> own[s].k != NDIRECT)
    ensures Owned(sb, m[s := x], nodes, own, limbo)
    ensures forall i, k :: i in nodes && 0 <= k < NSLOTS ==> Addr(m[s := x], nodes[i], k) == Addr(m, nodes[i], k)
  {
    var m' := m[s := x];
    forall i, k | i in nodes && 0 <= k < NSLOTS ensures Addr(m', nodes[i], k) == Addr(m, nodes[i], k) {
      AddrSame(sb, m, nodes, own, limbo, m', i, k);
    }
    forall c | 0 <= c < sb.LogStart() ensures InUse(sb, m', c) <==> InUse(sb, m, c) { }
  }

  function SetAddr(n: Node, k: nat, b: nat): Node
    requires k < |n.addrs|
  {
    n.(addrs := n.addrs[k := b])
  }

  /** A block in limbo becomes direct block k of inode i, or its (zeroed) indirect block. */
  lemma PlaceKeeps(sb: Super, m: Flat, nodes: Nodes, own: Owners, limbo: set<nat>, i: nat, k: nat, b: nat)
    requires Owned(sb, m, nodes, own, limbo) && i in nodes && k <= NDIRECT && nodes[i].addrs[k] == 0 && b in limbo
    requires k == NDIRECT ==> forall j :: 0 <= j < NINDIRECT ==> Entry(m, b, j) == 0
    ensures Owned(sb, m, nodes[i := SetAddr(nodes[i], k, b)], own[b := Slot(i, k)], limbo - {b})
  {
    var n := SetAddr(nodes[i], k, b);
    forall l | 0 <= l < NSLOTS && l != k ensures Addr(m, n, l) == Addr(m, nodes[i], l) {
      if l > NDIRECT && k == NDIRECT { assert Entry(m, b, l - NDIRECT - 1) == 0; }
    }
    assert forall c :: c in own ==> own[c] != Slot(i, k);
  }

  /** A block in limbo becomes entry j of inode i's indirect block. */
  lemma EnterKeeps(sb: Super, m: Flat, nodes: Nodes, own: Owners, limbo: set<nat>, i: nat, j: nat, b: nat)
    requires Owned(sb, m, nodes, own, limbo) && i in nodes && j < NINDIRECT && b in limbo && b < U32
    requires nodes[i].addrs[NDIRECT] != 0 && Entry(m, nodes[i].addrs[NDIRECT], j) == 0
    ensures var a := nodes[i].addrs[NDIRECT];
            && a in m
            && Owned(sb, m[a := StoreU32(m[a], 4 * j, b)], nodes, own[b := Slot(i, NDIRECT + 1 + j)], limbo - {b})
  {
    var a := nodes[i].addrs[NDIRECT];
    assert Addr(m, nodes[i], NDIRECT) == a;
    var m' := m[a := StoreU32(m[a], 4 * j, b)];
    forall h, k | h in nodes && 0 <= k < NSLOTS
      ensures Addr(m', nodes[h], k) == if h == i && k == NDIRECT + 1 + j then b else Addr(m, nodes[h], k)
    {
      EnteredAddr(sb, m, nodes, own, limbo, i, j, b, h, k);
    }
    assert forall c :: c in own ==> own[c] != Slot(i, NDIRECT + 1 + j);
    forall c | 0 <= c < sb.LogStart() ensures InUse(sb, m', c) <==> InUse(sb, m, c) { }
  }

  lemma EnteredAddr(sb: Super, m: Flat, nodes: Nodes, own: Owners, limbo: set<nat>, i: nat, j: nat, b: nat, h: nat,
                    k: nat)
    requires Owned(sb, m, nodes, own, limbo) && i in nodes && j < NINDIRECT && b < U32
    requires nodes[i].addrs[NDIRECT] != 0 && nodes[i].addrs[NDIRECT] in m && h in nodes && k < NSLOTS
    ensures var a := nodes[i].addrs[NDIRECT];
            Addr(m[a := StoreU32(m[a], 4 * j, b)], nodes[h], k) ==
            if h == i && k == NDIRECT + 1 + j then b else Addr(m, nodes[h], k)
  {
    var a := nodes[i].addrs[NDIRECT];
    if k > NDIRECT {
      var l := k - NDIRECT - 1;
      assert Addr(m, nodes[i], NDIRECT) == a;
      assert Addr(m, nodes[h], NDIRECT) == nodes[h].addrs[NDIRECT];
      if h == i && l != j { LoadOther(m[a], 4 * j, b, 4 * l); }
    }
  }

  /** Direct block k leaves inode i. */
  lemma UnplaceKeeps(sb: Super, m: Flat, nodes: Nodes, own: Owners, limbo: set<nat>, i: nat, k: nat)
    requires Owned(sb, m, nodes, own, limbo) && i in nodes && k < NDIRECT && nodes[i].addrs[k] != 0
    ensures var b := nodes[i].addrs[k];
            b in own && Owned(sb, m, nodes[i := SetAddr(nodes[i], k, 0)], own - {b}, limbo + {b})
  {
    var b := nodes[i].addrs[k];
    assert Addr(m, nodes[i], k) == b;
    var n := SetAddr(nodes[i], k, 0);
    forall l | 0 <= l < NSLOTS && l != k ensures Addr(m, n, l) == Addr(m, nodes[i], l) { }
    assert forall c :: c in own && c != b ==> own[c] != Slot(i, k);
  }

  /** The indirect block of inode i, and all it points to. */
  function Indirect(own: Owners, i: nat): set<nat> {
    set b | b in own && own[b].i == i && own[b].k >= NDIRECT
  }

  /** The indirect block leaves inode i, and every block it points to with it. */
  lemma DetachKeeps(sb: Super, m: Flat, nodes: Nodes, own: Owners, limbo: set<nat>, i: nat)
    requires Owned(sb, m, nodes, own, limbo) && i in nodes && nodes[i].addrs[NDIRECT] != 0
    ensures Owned(sb, m, nodes[i := SetAddr(nodes[i], NDIRECT, 0)], own - Indirect(own, i), limbo + Indirect(own, i))
  {
    var n := SetAddr(nodes[i], NDIRECT, 0);
    var gone := Indirect(own, i);
    forall l | 0 <= l < NSLOTS ensures Addr(m, n, l) == if l < NDIRECT then Addr(m, nodes[i], l) else 0 { }
    forall c | 0 <= c < sb.LogStart()
      ensures InUse(sb, m, c) <==> c < sb.DataStart() || c in own - gone || c in limbo + gone
    {
      assert c in own <==> c in own - gone || c in gone;
    }
  }

  /** Those are the indirect block itself and its nonzero entries. */
  lemma IndirectIs(sb: Super, m: Flat, nodes: Nodes, own: Owners, limbo: set<nat>, i: nat, b: nat)
    requires Owned(sb, m, nodes, own, limbo) && i in nodes && nodes[i].addrs[NDIRECT] != 0
    ensures var a := nodes[i].addrs[NDIRECT];
            b in Indirect(own, i) <==> b == a || (b != 0 && exists j :: 0 <= j < NINDIRECT && Entry(m, a, j) == b)
  {
    var a := nodes[i].addrs[NDIRECT];
    assert Addr(m, nodes[i], NDIRECT) == a;
    if b in Indirect(own, i) && b != a {
      var j := own[b].k - NDIRECT - 1;
      assert Addr(m, nodes[i], own[b].k) == b == Entry(m, a, j);
    }
    if j :| 0 <= j < NINDIRECT && Entry(m, a, j) == b {
      assert Addr(m, nodes[i], NDIRECT + 1 + j) == b;
    }
  }

  // ---- contents ----------------------------------------------------------------------------

  /** The slot of file block bn. */
  function SlotOf(bn: nat): nat { if bn < NDIRECT then bn else bn + 1 }

  /** No holes: the first c file blocks are present and no others, and the indirect block just if needed. */
  ghost predicate Filled(m: Flat, n: Node, c: nat) {
    && |n.addrs| == NDIRECT + 1 && c <= MAXFILE
    && (forall bn :: 0 <= bn < MAXFILE ==> (Addr(m, n, SlotOf(bn)) != 0 <==> bn < c))
    && (n.addrs[NDIRECT] != 0 <==> c > NDIRECT)
  }

  function BlocksFor(size: nat): nat { (size + 511) / 512 }

  /** The block behind file block bn. */
  function BlockAt(m: Flat, n: Node, bn: nat): Block
    requires |n.addrs| == NDIRECT + 1 && bn < MAXFILE
  {
    if Addr(m, n, SlotOf(bn)) in m then m[Addr(m, n, SlotOf(bn))] else seq(512, _ => 0)
  }

  function ByteAt(m: Flat, n: Node, y: nat): byte
    requires |n.addrs| == NDIRECT + 1 && y < MAXFILE * 512
  {
    BlockAt(m, n, y / 512)[y % 512]
  }

  /** The bytes of a file. */
  function Contents(m: Flat, n: Node): (s: seq<byte>)
    requires |n.addrs| == NDIRECT + 1 && n.size <= MAXFILE * 512
    ensures |s| == n.size
  {
    seq(n.size, y requires 0 <= y < n.size => ByteAt(m, n, y))
  }

  /** Every block of every file but i, and of i outside the given file blocks, is where and what it was. */
  ghost predicate SameData(m: Flat, nodes: Nodes, m': Flat, nodes': Nodes, i: nat, lo: int, hi: int)
  {
    && Shaped(nodes) && Shaped(nodes') && nodes'.Keys == nodes.Keys
    && (forall j :: j in nodes && j != i ==> nodes'[j] == nodes[j])
    && (forall j, k :: j in nodes && 0 <= k < NSLOTS && (j != i || Addr(m, nodes[j], k) != 0) ==>
          Addr(m', nodes'[j], k) == Addr(m, nodes[j], k))
    && (forall j, bn ::
          j in nodes && 0 <= bn < MAXFILE && Addr(m, nodes[j], SlotOf(bn)) != 0 && !(j == i && lo <= bn < hi) ==>
          BlockAt(m', nodes'[j], bn) == BlockAt(m, nodes[j], bn))
  }

  lemma SameDataTransitive(m: Flat, nodes: Nodes, m': Flat, nodes': Nodes, m'': Flat, nodes'': Nodes, i: nat, lo: int,
                           hi: int)
    requires SameData(m, nodes, m', nodes', i, lo, hi) && SameData(m', nodes', m'', nodes'', i, lo, hi)
    ensures SameData(m, nodes, m'', nodes'', i, lo, hi)
  {
  }

  /** Files whose data is the same have the same bytes. */
  lemma SameContents(m: Flat, nodes: Nodes, m': Flat, nodes': Nodes, i: nat, lo: int, hi: int, j: nat)
    requires SameData(m, nodes, m', nodes', i, lo, hi)
    requires j in nodes && j != i && nodes'[j].size == nodes[j].size <= MAXFILE * 512
    requires Filled(m, nodes[j], BlocksFor(nodes[j].size))
    ensures Contents(m', nodes'[j]) == Contents(m, nodes[j])
  {
    forall y | 0 <= y < nodes[j].size ensures ByteAt(m', nodes'[j], y) == ByteAt(m, nodes[j], y) {
      assert Addr(m, nodes[j], SlotOf(y / 512)) != 0;
    }
  }

  lemma AllocSame(sb: Super, m: Flat, nodes: Nodes, own: Owners, limbo: set<nat>, b: nat, h: Block, z: Block, i: nat)
    requires Owned(sb, m, nodes, own, limbo) && b in m && b !in own
    ensures SameData(m, nodes, m[sb.BitBlock() := h][b := z], nodes, i, 0, 0)
  {
    var m' := m[sb.BitBlock() := h][b := z];
    forall j, k | j in nodes && 0 <= k < NSLOTS ensures Addr(m', nodes[j], k) == Addr(m, nodes[j], k) {
      AddrSame(sb, m, nodes, own, limbo, m', j, k);
    }
    forall j, bn | j in nodes && 0 <= bn < MAXFILE && Addr(m, nodes[j], SlotOf(bn)) != 0
      ensures BlockAt(m', nodes[j], bn) == BlockAt(m, nodes[j], bn)
    {
      assert Addr(m, nodes[j], SlotOf(bn)) in own;
    }
  }

  lemma PlaceSame(sb: Super, m: Flat, nodes: Nodes, own: Owners, limbo: set<nat>, i: nat, k: nat, b: nat)
    requires Owned(sb, m, nodes, own, limbo) && i in nodes && k <= NDIRECT && nodes[i].addrs[k] == 0 && Shaped(nodes)
    ensures SameData(m, nodes, m, nodes[i := SetAddr(nodes[i], k, b)], i, 0, 0)
  {
    var n := SetAddr(nodes[i], k, b);
    forall l | 0 <= l < NSLOTS && Addr(m, nodes[i], l) != 0 ensures Addr(m, n, l) == Addr(m, nodes[i], l) { }
  }

  lemma EnterSame(sb: Super, m: Flat, nodes: Nodes, own: Owners, limbo: set<nat>, i: nat, j: nat, b: nat)
    requires Owned(sb, m, nodes, own, limbo) && i in nodes && j < NINDIRECT && b < U32
    requires nodes[i].addrs[NDIRECT] != 0 && nodes[i].addrs[NDIRECT] in m && Entry(m, nodes[i].addrs[NDIRECT], j) == 0
    ensures var a := nodes[i].addrs[NDIRECT]; SameData(m, nodes, m[a := StoreU32(m[a], 4 * j, b)], nodes, i, 0, 0)
  {
    var a := nodes[i].addrs[NDIRECT];
    assert Addr(m, nodes[i], NDIRECT) == a;
    var m' := m[a := StoreU32(m[a], 4 * j, b)];
    forall h, k | h in nodes && 0 <= k < NSLOTS && (h != i || Addr(m, nodes[h], k) != 0)
      ensures Addr(m', nodes[h], k) == Addr(m, nodes[h], k)
    {
      EnteredAddr(sb, m, nodes, own, limbo, i, j, b, h, k);
    }
    forall h, bn | h in nodes && 0 <= bn < MAXFILE && Addr(m, nodes[h], SlotOf(bn)) != 0
      ensures BlockAt(m', nodes[h], bn) == BlockAt(m, nodes[h], bn)
    {
      assert own[Addr(m, nodes[h], SlotOf(bn))] == Slot(h, SlotOf(bn));
    }
  }

  /** Rewriting file block bn of inode i changes that block and no other. */
  lemma WriteSame(sb: Super, m: Flat, nodes: Nodes, own: Owners, limbo: set<nat>, i: nat, bn: nat, x: Block)
    requires Owned(sb, m, nodes, own, limbo) && i in nodes && bn < MAXFILE && Addr(m, nodes[i], SlotOf(bn)) != 0
    ensures var m' := m[Addr(m, nodes[i], SlotOf(bn)) := x];
            && Owned(sb, m', nodes, own, limbo) && SameData(m, nodes, m', nodes, i, bn, bn + 1)
            && BlockAt(m', nodes[i], bn) == x
            && (forall k :: 0 <= k < NSLOTS ==> Addr(m', nodes[i], k) == Addr(m, nodes[i], k))
  {
    var s := Addr(m, nodes[i], SlotOf(bn));
    assert own[s] == Slot(i, SlotOf(bn)) && sb.InData(s);
    WriteKeeps(sb, m, nodes, own, limbo, s, x);
    var m' := m[s := x];
    forall j, c | j in nodes && 0 <= c < MAXFILE && Addr(m, nodes[j], SlotOf(c)) != 0 && !(j == i && c == bn)
      ensures BlockAt(m', nodes[j], c) == BlockAt(m, nodes[j], c)
    {
      assert own[Addr(m, nodes[j], SlotOf(c))] == Slot(j, SlotOf(c));
    }
  }
}
