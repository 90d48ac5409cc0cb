/** On-disk layout of the file system: geometry, bitmap bits, dinodes and indirect blocks. */
module Layout {
  import opened Words

  const NDIRECT: nat := 12
  const NINDIRECT: nat := 128
  const MAXFILE: nat := 140
  const IPB: nat := 8
  const BPB: nat := 4096

  type Flat = map<nat, Block>

  /** The superblock's fields. */
  datatype Super = Super(size: nat, nblocks: nat, ninodes: nat, nlog: nat) {
    function LogStart(): int { size - nlog }
    function BitBlock(): nat { ninodes / IPB + 3 }
    function DataStart(): nat { BitBlock() + 1 }
    predicate InData(b: nat) { DataStart() <= b < LogStart() }
    predicate IsInode(i: nat) { 1 <= i < ninodes }
    function InodeBlock(i: nat): nat { i / IPB + 2 }

    /** One bitmap block, and room for data between it and the log. */
    predicate Good() { size < BPB && nlog >= 1 && DataStart() < LogStart() }
  }

  /** The sectors of the home area. */
  predicate Spans(sb: Super, m: Flat) { forall s :: 0 <= s < sb.LogStart() ==> s in m }

  /** Block 1 holds the superblock. */
  predicate HasSuper(sb: Super, m: Flat) {
    && 1 in m && LoadU32(m[1], 0) == sb.size && LoadU32(m[1], 4) == sb.nblocks
    && LoadU32(m[1], 8) == sb.ninodes && LoadU32(m[1], 12) == sb.nlog
  }

  // ---- bitmap ------------------------------------------------------------------------

  /** Whether the bitmap block h marks block b used. */
  predicate Marked(h: Block, b: nat)
    requires b < BPB
  {
    BitAt(h[b / 8], b % 8)
  }

  function Byte(x: byte, k: nat, used: bool): byte
    requires k < 8
  {
    assert Pow2(8) == 256 by { assert Pow2(4) == 16; }
    if used then SetBit(x, k, 8) else ClearBit(x, k, 8)
  }

  /** The bitmap block with the bit of block b set or cleared. */
  function Mark(h: Block, b: nat, used: bool): (r: Block)
    requires b < BPB
    ensures forall c: nat :: c < BPB ==> (Marked(r, c) <==> if c == b then used else Marked(h, c))
  {
    MarkIs(h, b, used);
    h[b / 8 := Byte(h[b / 8], b % 8, used)]
  }

  lemma MarkIs(h: Block, b: nat, used: bool)
    requires b < BPB
    ensures forall c: nat :: c < BPB ==>
              (Marked(h[b / 8 := Byte(h[b / 8], b % 8, used)], c) <==> if c == b then used else Marked(h, c))
  {
    forall c: nat | c < BPB
      ensures Marked(h[b / 8 := Byte(h[b / 8], b % 8, used)], c) <==> if c == b then used else Marked(h, c)
    {
      assert Pow2(8) == 256 by { assert Pow2(4) == 16; }
      OneBit(h[b / 8], b % 8, 8, c % 8);
    }
  }

  predicate InUse(sb: Super, m: Flat, b: nat)
    requires sb.BitBlock() in m && b < BPB
  {
    Marked(m[sb.BitBlock()], b)
  }

  // ---- dinodes -------------------------------------------------------------------------

  /** A dinode; kind, major, minor and nlink are its 16-bit fields. */
  datatype Node = Node(kind: nat, major: nat, minor: nat, nlink: nat, size: nat, addrs: seq<nat>) {
    predicate Fits() {
      && kind < 0x1_0000 && major < 0x1_0000 && minor < 0x1_0000 && nlink < 0x1_0000 && size < U32
      && |addrs| == NDIRECT + 1 && forall k :: 0 <= k < |addrs| ==> addrs[k] < U32
    }

    /** The sixteen words of a dinode. */
    function Words(): (ws: seq<nat>)
      requires Fits()
      ensures |ws| == 16 && forall i :: 0 <= i < 16 ==> ws[i] < U32
    {
      [kind + 0x1_0000 * major, minor + 0x1_0000 * nlink, size] + addrs
    }
  }

  function NodeIn(h: Block, o: nat): (n: Node)
    requires o + 64 <= 512
    ensures n.Fits()
  {
    Node(LoadU32(h, o) % 0x1_0000, LoadU32(h, o) / 0x1_0000, LoadU32(h, o + 4) % 0x1_0000, LoadU32(h, o + 4) / 0x1_0000,
         LoadU32(h, o + 8), seq(NDIRECT + 1, k requires 0 <= k <= NDIRECT => LoadU32(h, o + 12 + 4 * k)))
  }

  /** Where struct dinode keeps its fields: four shorts, the size, and the addresses. */
  lemma DinodeFields(h: Block, o: nat, k: nat)
    requires o + 64 <= 512 && k <= NDIRECT
    ensures var n := NodeIn(h, o);
            && n.kind == LoadU16(h, o) && n.major == LoadU16(h, o + 2)
            && n.minor == LoadU16(h, o + 4) && n.nlink == LoadU16(h, o + 6)
            && n.size == LoadU32(h, o + 8) && n.addrs[k] == LoadU32(h, o + 12 + 4 * k)
  {
    TwoShorts(h, o);
    TwoShorts(h, o + 4);
    hide LoadU32, LoadU16;
  }

  lemma TwoShorts(h: Block, o: nat)
    requires o + 4 <= 512
    ensures LoadU32(h, o) % 0x1_0000 == LoadU16(h, o) && LoadU32(h, o) / 0x1_0000 == LoadU16(h, o + 2)
  {
    var (lo, hi) := (LoadU16(h, o), LoadU16(h, o + 2));
    assert LoadU32(h, o) == lo + 0x1_0000 * hi;
    hide LoadU32, LoadU16;
  }

  /** Store ws as consecutive words from byte o on. */
  function StoreWords(h: Block, o: nat, ws: seq<nat>): (r: Block)
    requires o + 4 * |ws| <= 512 && forall i :: 0 <= i < |ws| ==> ws[i] < U32
    ensures forall i :: 0 <= i < 512 && !(o <= i < o + 4 * |ws|) ==> r[i] == h[i]
  {
    if ws == [] then h else StoreU32(StoreWords(h, o, ws[..|ws| - 1]), o + 4 * (|ws| - 1), ws[|ws| - 1])
  }

  lemma {:induction false} StoredWord(h: Block, o: nat, ws: seq<nat>, i: nat)
    requires o + 4 * |ws| <= 512 && i < |ws| && forall i :: 0 <= i < |ws| ==> ws[i] < U32
    ensures LoadU32(StoreWords(h, o, ws), o + 4 * i) == ws[i]
  {
    var n := |ws| - 1;
    if i < n {
      StoredWord(h, o, ws[..n], i);
    }
  }

  function PutNode(h: Block, o: nat, n: Node): (r: Block)
    requires o + 64 <= 512 && n.Fits()
  {
    StoreWords(h, o, n.Words())
  }

  /** A dinode reads back as written, and the others in its block are untouched. */
  lemma PutNodeIs(h: Block, o: nat, n: Node, p: nat)
    requires o + 64 <= 512 && p + 64 <= 512 && n.Fits() && (p == o || p + 64 <= o || o + 64 <= p)
    ensures NodeIn(PutNode(h, o, n), p) == if p == o then n else NodeIn(h, p)
  {
    var r := PutNode(h, o, n);
    if p == o {
      var ws := n.Words();
      forall i | 0 <= i < 16 ensures LoadU32(r, o + 4 * i) == ws[i] { StoredWord(h, o, ws, i); }
      NodeOfWords(r, o, n);
    } else {
      SameNodeIn(h, r, p);
    }
    hide NodeIn, PutNode;
  }

  /** A dinode is its sixteen words. */
  lemma NodeOfWords(r: Block, o: nat, n: Node)
    requires o + 64 <= 512 && n.Fits() && forall i :: 0 <= i < 16 ==> LoadU32(r, o + 4 * i) == n.Words()[i]
    ensures NodeIn(r, o) == n
  {
    hide LoadU32;
    var ws := n.Words();
    assert LoadU32(r, o + 4 * 0) == ws[0] && LoadU32(r, o + 4 * 1) == ws[1] && LoadU32(r, o + 4 * 2) == ws[2];
    forall k | 0 <= k <= NDIRECT ensures LoadU32(r, o + 12 + 4 * k) == n.addrs[k] {
      assert LoadU32(r, o + 4 * (k + 3)) == ws[k + 3];
    }
  }

  lemma SameNodeIn(h: Block, r: Block, p: nat)
    requires p + 64 <= 512 && forall i :: p <= i < p + 64 ==> r[i] == h[i]
    ensures NodeIn(r, p) == NodeIn(h, p)
  {
    forall q | p <= q <= p + 60 ensures LoadU32(r, q) == LoadU32(h, q) { }
    hide LoadU32;
  }

  function NodeAt(sb: Super, m: Flat, i: nat): (n: Node)
    requires sb.InodeBlock(i) in m
    ensures n.Fits()
  {
    NodeIn(m[sb.InodeBlock(i)], 64 * (i % IPB))
  }
}
