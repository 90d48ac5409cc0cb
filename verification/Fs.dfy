/** The bitmap allocator and the block maps of inodes, as code over the transaction store. */
module Fs {
  import opened Common
  import opened Words
  import opened Layout
  import opened FsSpec
  import LogDisk
  import Log
  import BufCache
  import opened TxStore

  /** In-memory copy of an inode. */
  class Inode {
    const inum: nat
    var kind: nat
    var major: nat
    var minor: nat
    var nlink: nat
    var size: nat
    const addrs: array<nat>

    constructor (inum: nat, n: Node)
      requires n.Fits()
      ensures this.inum == inum && Value() == n && fresh(addrs)
    {
      this.inum := inum;
      kind, major, minor, nlink, size := n.kind, n.major, n.minor, n.nlink, n.size;
      addrs := new nat[NDIRECT + 1](i requires 0 <= i <= NDIRECT => n.addrs[i]);
      new;
      assert addrs[..] == n.addrs;
    }

    ghost function Value(): Node
      reads this, addrs
    {
      Node(kind, major, minor, nlink, size, addrs[..])
    }
  }

  /** The inner scan of block_alloc: the first block below size not marked in the bitmap. */
  method Scan(h: Block, size: nat) returns (b: nat)
    requires size < BPB && exists f :: 0 <= f < size && !Marked(h, f)
    ensures b < size && !Marked(h, b) && forall c :: 0 <= c < b ==> Marked(h, c)
  {
    b := 0;
    while b < size && Marked(h, b)
      invariant b <= size && forall c :: 0 <= c < b ==> Marked(h, c)
    {
      b := b + 1;
    }
  }

  lemma AllocFacts(sb: Super, m: Flat, nodes: Nodes, own: Owners, limbo: set<nat>)
    requires Owned(sb, m, nodes, own, limbo)
    ensures Mounted(sb, m) && Shaped(nodes) && (forall b :: b in own || b in limbo ==> sb.InData(b))
  {
  }

  /** Blocks below the data area are marked used, so the lowest free block is a data block. */
  lemma AllocatedIn(sb: Super, m: Flat, nodes: Nodes, own: Owners, limbo: set<nat>, b: nat)
    requires Owned(sb, m, nodes, own, limbo) && b < BPB && !Marked(m[sb.BitBlock()], b)
    requires forall c :: 0 <= c < b ==> Marked(m[sb.BitBlock()], c)
    requires exists f :: sb.InData(f) && !InUse(sb, m, f)
    ensures sb.InData(b) && !InUse(sb, m, b)
  {
    var f :| sb.InData(f) && !InUse(sb, m, f);
    assert InUse(sb, m, b) <==> b < sb.DataStart() || b in own || b in limbo;
  }

  lemma AllocStays(sb: Super, m: Flat, nodes: Nodes, own: Owners, limbo: set<nat>, b: nat)
    requires Owned(sb, m, nodes, own, limbo) && HasSuper(sb, m) && sb.InData(b) && !InUse(sb, m, b)
    ensures b !in own && b !in limbo && b < BPB && HasSuper(sb, Allocated(sb, m, b))
    ensures Owned(sb, Allocated(sb, m, b), nodes, own, limbo + {b})
  {
    hide LoadU32, Mark, ZeroBlock;
    AllocKeeps(sb, m, nodes, own, limbo, b, ZeroBlock());
  }

  function FreeBlocks(sb: Super, m: Flat): set<nat> {
    if Mounted(sb, m) then set b | sb.DataStart() <= b < sb.LogStart() && !InUse(sb, m, b) else {}
  }

  lemma FreeOne(sb: Super, m: Flat)
    requires Mounted(sb, m) && FreeBlocks(sb, m) != {}
    ensures exists f :: sb.InData(f) && !InUse(sb, m, f)
  {
    var f :| f in FreeBlocks(sb, m);
    assert sb.InData(f);
  }

  /** The disk after block_alloc has handed out b. */
  function Allocated(sb: Super, m: Flat, b: nat): Flat
    requires sb.BitBlock() in m && b < BPB
  {
    m[sb.BitBlock() := Mark(m[sb.BitBlock()], b, true)][b := ZeroBlock()]
  }

  lemma AllocFree(sb: Super, m: Flat, nodes: Nodes, own: Owners, b: nat, i: nat)
    requires Owned(sb, m, nodes, own, {}) && sb.InData(b) && !InUse(sb, m, b)
    ensures Mounted(sb, Allocated(sb, m, b)) && b in FreeBlocks(sb, m)
    ensures FreeBlocks(sb, Allocated(sb, m, b)) == FreeBlocks(sb, m) - {b}
  {
    var m' := Allocated(sb, m, b);
    forall c | sb.DataStart() <= c < sb.LogStart() ensures InUse(sb, m', c) <==> c == b || InUse(sb, m, c) { }
  }

  lemma ZeroEntries(m: Flat, b: nat)
    requires b in m && m[b] == ZeroBlock()
    ensures forall j :: 0 <= j < NINDIRECT ==> Entry(m, b, j) == 0
  {
  }

  /** From n on disk m to n' on disk m', slot k came to point to b and no other slot changed. */
  ghost predicate OnlySlot(m: Flat, n: Node, m': Flat, n': Node, k: nat, b: nat) {
    && |n.addrs| == NDIRECT + 1 == |n'.addrs|
    && forall l :: 0 <= l < NSLOTS ==> Addr(m', n', l) == if l == k then b else Addr(m, n, l)
  }

  /** The superblock and the dinodes are as they were. */
  ghost predicate SameHead(sb: Super, m: Flat, m': Flat) {
    forall s :: 0 <= s < sb.BitBlock() && s in m ==> s in m' && m'[s] == m[s]
  }

  /** Slot k of inode i now points to b: as before, or to a newly allocated block of zeros. No file's data moved. */
  ghost predicate Mapped(sb: Super, m: Flat, nodes: Nodes, m': Flat, nodes': Nodes, i: nat, k: nat, b: nat) {
    && i in nodes && i in nodes' && k < NSLOTS && b != 0 && b in m'
    && OnlySlot(m, nodes[i], m', nodes'[i], k, b) && SameData(m, nodes, m', nodes', i, 0, 0)
    && FreeBlocks(sb, m') == FreeBlocks(sb, m) - {b} && SameHead(sb, m, m')
    && if Addr(m, nodes[i], k) == 0 then b in FreeBlocks(sb, m) && m'[b] == ZeroBlock() else m' == m && nodes' == nodes
  }

  /** Slot k of inode i is in use, or there is a free block for it. */
  ghost predicate Mappable(sb: Super, m: Flat, nodes: Nodes, i: nat, k: nat) {
    && i in nodes && |nodes[i].addrs| == NDIRECT + 1 && k < NSLOTS
    && (Addr(m, nodes[i], k) == 0 ==> FreeBlocks(sb, m) != {})
  }

  /** Allocation and placement together: ownership is kept and no file's data moves. */
  lemma PlaceAlloc(sb: Super, m: Flat, nodes: Nodes, own: Owners, m': Flat, i: nat, k: nat, b: nat)
    requires Owned(sb, m, nodes, own, {}) && b !in own && sb.InData(b) && m' == Allocated(sb, m, b)
    requires Owned(sb, m', nodes, own, {b})
    requires i in nodes && k <= NDIRECT && |nodes[i].addrs| == NDIRECT + 1 && nodes[i].addrs[k] == 0
    requires b in FreeBlocks(sb, m) && FreeBlocks(sb, m') == FreeBlocks(sb, m) - {b}
    ensures var ns := nodes[i := SetAddr(nodes[i], k, b)];
            Owned(sb, m', ns, own[b := Slot(i, k)], {}) && Mapped(sb, m, nodes, m', ns, i, k, b)
  {
    hide FreeBlocks, SameData;
    var ns := nodes[i := SetAddr(nodes[i], k, b)];
    ZeroEntries(m', b);
    PlaceKeeps(sb, m', nodes, own, {b}, i, k, b);
    assert {b} - {b} == {};
    AllocSame(sb, m, nodes, own, {}, b, m'[sb.BitBlock()], ZeroBlock(), i);
    PlaceSame(sb, m', nodes, own, {b}, i, k, b);
    SameDataTransitive(m, nodes, m', nodes, m', ns, i, 0, 0);
    PlaceOnly(sb, m, nodes, own, i, k, b);
  }

  lemma PlaceOnly(sb: Super, m: Flat, nodes: Nodes, own: Owners, i: nat, k: nat, b: nat)
    requires Owned(sb, m, nodes, own, {}) && b !in own && sb.InData(b)
    requires i in nodes && k <= NDIRECT && |nodes[i].addrs| == NDIRECT + 1 && nodes[i].addrs[k] == 0
    ensures OnlySlot(m, nodes[i], Allocated(sb, m, b), SetAddr(nodes[i], k, b), k, b)
  {
    var (m', n') := (Allocated(sb, m, b), SetAddr(nodes[i], k, b));
    ZeroEntries(m', b);
    forall l: nat | l < NSLOTS && l != k ensures Addr(m', n', l) == Addr(m, nodes[i], l) {
      AddrSame(sb, m, nodes, own, {}, m', i, l);
      if l > NDIRECT && k == NDIRECT { assert Entry(m', b, l - NDIRECT - 1) == 0; }
    }
  }

  lemma IndirectOwned(sb: Super, m: Flat, nodes: Nodes, own: Owners, i: nat)
    requires Owned(sb, m, nodes, own, {}) && i in nodes && |nodes[i].addrs| == NDIRECT + 1
    requires nodes[i].addrs[NDIRECT] != 0
    ensures var a := nodes[i].addrs[NDIRECT]; a in own && sb.InData(a) && a in m && a < U32
  {
    assert Addr(m, nodes[i], NDIRECT) == nodes[i].addrs[NDIRECT];
  }

  /** A slot in use points to a used data block, so nothing changes. */
  lemma AlreadyMapped(sb: Super, m: Flat, nodes: Nodes, own: Owners, i: nat, k: nat)
    requires Owned(sb, m, nodes, own, {}) && i in nodes && |nodes[i].addrs| == NDIRECT + 1 && k < NSLOTS
    requires Addr(m, nodes[i], k) != 0
    ensures Mapped(sb, m, nodes, m, nodes, i, k, Addr(m, nodes[i], k))
  {
    assert FreeBlocks(sb, m) == FreeBlocks(sb, m) - {Addr(m, nodes[i], k)};
  }

  /** Allocation and entry into the indirect block together. */
  lemma EnterAlloc(sb: Super, m: Flat, nodes: Nodes, own: Owners, m': Flat, i: nat, j: nat, b: nat)
    requires Owned(sb, m, nodes, own, {}) && b !in own && sb.InData(b) && m' == Allocated(sb, m, b)
    requires Owned(sb, m', nodes, own, {b})
    requires i in nodes && j < NINDIRECT && |nodes[i].addrs| == NDIRECT + 1 && nodes[i].addrs[NDIRECT] != 0
    requires Entry(m, nodes[i].addrs[NDIRECT], j) == 0
    requires b in FreeBlocks(sb, m) && FreeBlocks(sb, m') == FreeBlocks(sb, m) - {b}
    ensures var a := nodes[i].addrs[NDIRECT];
            && a in m && a != b && a != sb.BitBlock() && a != 1
            && var m'' := m'[a := StoreU32(m[a], 4 * j, b)];
            && Owned(sb, m'', nodes, own[b := Slot(i, NDIRECT + 1 + j)], {})
            && Mapped(sb, m, nodes, m'', nodes, i, NDIRECT + 1 + j, b)
  {
    hide FreeBlocks, SameData, Owned;
    var a := nodes[i].addrs[NDIRECT];
    AllocSpares(sb, m, nodes, own, i, b);
    EnterKeeps(sb, m', nodes, own, {b}, i, j, b);
    assert {b} - {b} == {};
    var m'' := m'[a := StoreU32(m[a], 4 * j, b)];
    AllocSame(sb, m, nodes, own, {}, b, m'[sb.BitBlock()], ZeroBlock(), i);
    EnterSame(sb, m', nodes, own, {b}, i, j, b);
    SameDataTransitive(m, nodes, m', nodes, m'', nodes, i, 0, 0);
    EnterOnly(sb, m, nodes, own, m', i, j, b);
    SameFree(sb, m', m'');
  }

  /** An allocation does not touch the indirect block of a file. */
  lemma AllocSpares(sb: Super, m: Flat, nodes: Nodes, own: Owners, i: nat, b: nat)
    requires Owned(sb, m, nodes, own, {}) && b !in own && sb.InData(b)
    requires i in nodes && |nodes[i].addrs| == NDIRECT + 1 && nodes[i].addrs[NDIRECT] != 0
    ensures var (a, m') := (nodes[i].addrs[NDIRECT], Allocated(sb, m, b));
            && a in m && b in m && a != b && sb.InData(a) && a in m' && m'[a] == m[a] && b < U32
            && m'[b] == ZeroBlock() && SameHead(sb, m, m')
            && Mounted(sb, m') && Mounted(sb, m'[a := m[a]])
  {
    IndirectOwned(sb, m, nodes, own, i);
  }

  lemma EnterOnly(sb: Super, m: Flat, nodes: Nodes, own: Owners, m': Flat, i: nat, j: nat, b: nat)
    requires Owned(sb, m, nodes, own, {}) && b !in own && sb.InData(b) && m' == Allocated(sb, m, b)
    requires Owned(sb, m', nodes, own, {b})
    requires i in nodes && j < NINDIRECT && |nodes[i].addrs| == NDIRECT + 1 && nodes[i].addrs[NDIRECT] != 0
    requires nodes[i].addrs[NDIRECT] in m'
    ensures var (a, n) := (nodes[i].addrs[NDIRECT], nodes[i]);
            OnlySlot(m, n, m'[a := StoreU32(m'[a], 4 * j, b)], n, NDIRECT + 1 + j, b)
  {
    hide StoreU32;
    var (a, n) := (nodes[i].addrs[NDIRECT], nodes[i]);
    var m'' := m'[a := StoreU32(m'[a], 4 * j, b)];
    forall l: nat | l < NSLOTS ensures Addr(m'', n, l) == if l == NDIRECT + 1 + j then b else Addr(m, n, l) {
      AddrSame(sb, m, nodes, own, {}, m', i, l);
      EnteredAddr(sb, m', nodes, own, {b}, i, j, b, i, l);
      hide Addr;
    }
  }

  lemma SameFree(sb: Super, m: Flat, m': Flat)
    requires Mounted(sb, m) && Mounted(sb, m') && m'[sb.BitBlock()] == m[sb.BitBlock()]
    ensures FreeBlocks(sb, m') == FreeBlocks(sb, m)
  {
    forall c | sb.DataStart() <= c < sb.LogStart() ensures InUse(sb, m', c) <==> InUse(sb, m, c) { }
  }

  // ---- bmap ----------------------------------------------------------------------------

  function Max(x: nat, y: nat): nat { if x < y then y else x }

  /** Blocks taken when a file of c blocks grows to d blocks; the indirect block comes with the thirteenth. */
  function Need(c: nat, d: nat): int { d - c + if c <= NDIRECT < d then 1 else 0 }

  /** File block bn of inode i is b, where the file had c blocks and bn <= c; at bn == c it is a new block of zeros. */
  ghost predicate Extended(sb: Super, m: Flat, nodes: Nodes, m': Flat, nodes': Nodes, i: nat, c: nat, bn: nat, b: nat) {
    && i in nodes && i in nodes' && bn < MAXFILE && b != 0 && b in m'
    && Filled(m', nodes'[i], Max(c, bn + 1)) && b == Addr(m', nodes'[i], SlotOf(bn))
    && SameData(m, nodes, m', nodes', i, 0, 0) && SameHead(sb, m, m')
    && |FreeBlocks(sb, m')| == |FreeBlocks(sb, m)| - Need(c, Max(c, bn + 1))
    && if bn == c then m'[b] == ZeroBlock() else m' == m && nodes' == nodes
  }

  lemma MappedExtends(sb: Super, m: Flat, nodes: Nodes, m': Flat, nodes': Nodes, i: nat, c: nat, bn: nat, b: nat)
    requires Mapped(sb, m, nodes, m', nodes', i, SlotOf(bn), b) && Filled(m, nodes[i], c)
    requires bn < MAXFILE && bn <= c && !(bn == c == NDIRECT)
    ensures Extended(sb, m, nodes, m', nodes', i, c, bn, b)
  {
    hide FreeBlocks, SameData;
    var (n, n') := (nodes[i], nodes'[i]);
    assert n.addrs[NDIRECT] == Addr(m, n, NDIRECT) && n'.addrs[NDIRECT] == Addr(m', n', NDIRECT);
    forall x | 0 <= x < MAXFILE ensures Addr(m', n', SlotOf(x)) != 0 <==> x < Max(c, bn + 1) {
      assert x != bn ==> Addr(m', n', SlotOf(x)) == Addr(m, n, SlotOf(x));
    }
  }

  lemma MappedBothExtends(sb: Super, m: Flat, nodes: Nodes, m1: Flat, nodes1: Nodes, a: nat, m2: Flat, nodes2: Nodes,
                          i: nat, b: nat)
    requires Mapped(sb, m, nodes, m1, nodes1, i, NDIRECT, a) && Mapped(sb, m1, nodes1, m2, nodes2, i, NDIRECT + 1, b)
    requires Filled(m, nodes[i], NDIRECT)
    ensures Extended(sb, m, nodes, m2, nodes2, i, NDIRECT, NDIRECT, b)
  {
    hide FreeBlocks, SameData;
    var (n, n1, n2) := (nodes[i], nodes1[i], nodes2[i]);
    assert n.addrs[NDIRECT] == Addr(m, n, NDIRECT) && n2.addrs[NDIRECT] == Addr(m2, n2, NDIRECT);
    forall x | 0 <= x < MAXFILE ensures Addr(m2, n2, SlotOf(x)) != 0 <==> x <= NDIRECT {
      assert x != NDIRECT ==> Addr(m2, n2, SlotOf(x)) == Addr(m1, n1, SlotOf(x)) == Addr(m, n, SlotOf(x));
    }
    assert Addr(m1, n1, NDIRECT + 1) == Addr(m, n, SlotOf(NDIRECT)) == 0;
    MappedSame(sb, m, nodes, m1, nodes1, a, m2, nodes2, i, b);
  }

  lemma MappedSame(sb: Super, m: Flat, nodes: Nodes, m1: Flat, nodes1: Nodes, a: nat, m2: Flat, nodes2: Nodes, i: nat,
                   b: nat)
    requires Mapped(sb, m, nodes, m1, nodes1, i, NDIRECT, a) && Mapped(sb, m1, nodes1, m2, nodes2, i, NDIRECT + 1, b)
    ensures SameData(m, nodes, m2, nodes2, i, 0, 0)
  {
    hide FreeBlocks, OnlySlot;
    SameDataTransitive(m, nodes, m1, nodes1, m2, nodes2, i, 0, 0);
  }

  /** The distinct sectors secs all lie in u. */
  ghost predicate LogsOnly(secs: seq<nat>, u: set<nat>) { Distinct(secs) && forall s :: s in secs ==> s in u }

  lemma {:induction false} LogBound(secs: seq<nat>, u: set<nat>)
    requires LogsOnly(secs, u)
    ensures |secs| <= |u|
  {
    if secs != [] {
      var s := secs[|secs| - 1];
      assert s in secs;
      LogBound(secs[..|secs| - 1], u - {s});
    }
  }

  lemma LogsSlotted(secs: seq<nat>, s: nat, u: set<nat>, v: set<nat>)
    requires LogsOnly(secs, u) && u <= v && s in v
    ensures LogsOnly(Log.Slotted(secs, s), v)
  {
  }

  /** Sectors a write may log besides data blocks and the dinode: the bitmap and the indirect block. */
  function Meta(sb: Super, n: Node): set<nat>
    requires |n.addrs| == NDIRECT + 1
  {
    if n.addrs[NDIRECT] == 0 then {sb.BitBlock()} else {sb.BitBlock(), n.addrs[NDIRECT]}
  }

  lemma LogRoom(sb: Super, n: Node, d: set<nat>, secs: seq<nat>)
    requires |n.addrs| == NDIRECT + 1 && LogsOnly(secs, Meta(sb, n) + d)
    ensures |secs| <= |Log.Slotted(secs, sb.BitBlock())| <= 2 + |d|
  {
    LogBound(Log.Slotted(secs, sb.BitBlock()), Meta(sb, n) + d);
    assert |{sb.BitBlock(), n.addrs[NDIRECT]}| <= 2;
  }

  /** The sectors of a block_alloc: the bitmap block and the new block. */
  lemma LogsAlloc(sb: Super, secs: seq<nat>, b: nat, u: set<nat>, v: set<nat>)
    requires LogsOnly(secs, u) && u <= v && sb.BitBlock() in v && b in v
    ensures LogsOnly(Log.Slotted(Log.Slotted(secs, sb.BitBlock()), b), v)
  {
    LogsSlotted(secs, sb.BitBlock(), u, v);
    LogsSlotted(Log.Slotted(secs, sb.BitBlock()), b, v, v);
  }

  lemma LogsMore(secs: seq<nat>, u: set<nat>, v: set<nat>)
    requires LogsOnly(secs, u) && u <= v
    ensures LogsOnly(secs, v)
  {
  }

  lemma MapEntryLogs(sb: Super, d: set<nat>, secs: seq<nat>, n: Node, b: nat, secs': seq<nat>)
    requires |n.addrs| == NDIRECT + 1 && LogsOnly(secs, Meta(sb, n) + d) && n.addrs[NDIRECT] != 0
    requires secs' == secs || secs' == Log.Slotted(Log.Slotted(Log.Slotted(secs, sb.BitBlock()), b), n.addrs[NDIRECT])
    ensures LogsOnly(secs', Meta(sb, n) + d + {b})
  {
    hide LogsOnly, Log.Slotted;
    var (u, v) := (Meta(sb, n) + d, Meta(sb, n) + d + {b});
    LogsMore(secs, u, v);
    LogsAlloc(sb, secs, b, u, v);
    LogsSlotted(Log.Slotted(Log.Slotted(secs, sb.BitBlock()), b), n.addrs[NDIRECT], v, v);
  }

  lemma CanMapEntry(sb: Super, m: Flat, nodes: Nodes, m': Flat, nodes': Nodes, i: nat, a: nat)
    requires Mapped(sb, m, nodes, m', nodes', i, NDIRECT, a) && |FreeBlocks(sb, m)| >= 2
    ensures a != 0 && Mappable(sb, m', nodes', i, NDIRECT + 1)
  {
    hide FreeBlocks;
    assert |FreeBlocks(sb, m) - {a}| >= 1;
  }

  /** What a file with c blocks needs mapped for file block bn can be mapped. */
  lemma CanMap(sb: Super, m: Flat, nodes: Nodes, i: nat, c: nat, bn: nat)
    requires i in nodes && Filled(m, nodes[i], c) && bn < MAXFILE && bn <= c
    requires |FreeBlocks(sb, m)| >= Need(c, Max(c, bn + 1))
    ensures |nodes[i].addrs| == NDIRECT + 1
    ensures Mappable(sb, m, nodes, i, SlotOf(bn))
    ensures Addr(m, nodes[i], SlotOf(bn)) == 0 <==> bn == c
    ensures bn >= NDIRECT ==> (nodes[i].addrs[NDIRECT] == 0 <==> bn == c == NDIRECT)
    ensures bn == c == NDIRECT ==> Mappable(sb, m, nodes, i, NDIRECT) && |FreeBlocks(sb, m)| >= 2
  {
  }

  class FileSystem {
    const store: Store
    ghost const sb: Super
    ghost var nodes: Nodes
    ghost var own: Owners

    ghost predicate In(limbo: set<nat>)
      reads this, store, store.log, store.log.cache, store.log.cache.bufs, store.log.cache.link, store.log.sector
    {
      && store.Valid() && store.log.area.start == sb.LogStart() && store.log.area.size == sb.nlog >= LogDisk.LOGSIZE
      && HasSuper(sb, store.home) && Owned(sb, store.home, nodes, own, limbo)
      && (forall i :: i in nodes ==> sb.IsInode(i))
      && (forall k :: 0 <= k < |store.held| ==> store.held[k] in own || store.held[k] in limbo)
    }

    constructor (store: Store, ghost sb: Super, ghost nodes: Nodes, ghost own: Owners)
      requires store.Valid() && store.held == [] && store.log.area.start == sb.LogStart()
      requires store.log.area.size == sb.nlog >= LogDisk.LOGSIZE
      requires HasSuper(sb, store.home) && Owned(sb, store.home, nodes, own, {})
      requires forall i :: i in nodes ==> sb.IsInode(i)
      ensures In({}) && this.store == store && this.sb == sb && this.nodes == nodes && this.own == own
    {
      hide Store.Valid, Owned;
      this.store, this.sb, this.nodes, this.own := store, sb, nodes, own;
    }

    /** read_superblock. */
    method ReadSuper(ghost limbo: set<nat>) returns (r: Super)
      requires In(limbo) && |store.logged| + |store.held| < BufCache.NBUF
      modifies store.log.cache, store.log.cache.bufs, store.log.cache.link
      ensures In(limbo) && r == sb
    {
      hide Store.Valid, Owned, LoadU32;
      AllocFacts(sb, store.home, nodes, own, limbo);
      var sup := store.Read(1);
      r := Super(LoadU32(sup, 0), LoadU32(sup, 4), LoadU32(sup, 8), LoadU32(sup, 12));
    }

    /** block_alloc: mark the lowest free block used and zero it. */
    method BlockAlloc(ghost limbo: set<nat>) returns (b: nat)
      requires In(limbo) && store.log.busy && |store.held| <= 1 && |Log.Slotted(store.logged, sb.BitBlock())| <= 7
      requires exists f :: sb.InData(f) && !InUse(sb, store.home, f)
      modifies store`home, store`logged, store`held, store`keep, store.log`n, store.log`pin, store.log`ups
      modifies store.log.sector
      modifies store.log.cache, store.log.cache.bufs, store.log.cache.link
      ensures In(limbo + {b}) && store.held == old(store.held) && store.keep == old(store.keep) && b !in own
      ensures b !in limbo && sb.InData(b)
      ensures !InUse(sb, old(store.home), b) && forall c :: 0 <= c < b ==> InUse(sb, old(store.home), c)
      ensures store.home ==
                old(store.home)[sb.BitBlock() := Mark(old(store.home)[sb.BitBlock()], b, true)][b := ZeroBlock()]
      ensures store.logged == Log.Slotted(Log.Slotted(old(store.logged), sb.BitBlock()), b)
    {
      hide Store.Valid, Owned, HasSuper, Mark, ZeroBlock, Log.Slotted;
      ghost var m := store.home;
      AllocFacts(sb, m, nodes, own, limbo);
      var sup := ReadSuper(limbo);
      var bb := sup.ninodes / IPB + 3;
      var hb, h := store.Hold(bb);
      b := Scan(h, sup.size);
      AllocatedIn(sb, m, nodes, own, limbo, b);
      AllocStays(sb, m, nodes, own, limbo, b);
      store.WriteHeld(hb, Mark(h, b, true));
      store.Release(hb);
      store.Write(b, ZeroBlock());
    }

    /** block_free of a block no inode points to any more. */
    method BlockFree(b: nat, ghost limbo: set<nat>)
      requires In(limbo) && b in limbo && b !in store.held && store.log.busy && |store.held| <= 1 && |store.logged| <= 7
      modifies store`home, store`logged, store`held, store`keep, store.log`n, store.log`pin, store.log`ups
      modifies store.log.sector
      modifies store.log.cache, store.log.cache.bufs, store.log.cache.link
      ensures In(limbo - {b}) && store.held == old(store.held) && store.keep == old(store.keep) && sb.InData(b)
      ensures store.home == old(store.home)[sb.BitBlock() := Mark(old(store.home)[sb.BitBlock()], b, false)]
      ensures store.logged == Log.Slotted(old(store.logged), sb.BitBlock())
    {
      hide Store.Valid, Owned, LoadU32, Mark, Log.Slotted;
      ghost var m := store.home;
      AllocFacts(sb, m, nodes, own, limbo);
      FreeKeeps(sb, m, nodes, own, limbo, b);
      var sup := ReadSuper(limbo);
      var bb := sup.ninodes / IPB + 3;
      var hb, h := store.Hold(bb);
      assert Marked(h, b); // the "freeing free block" panic cannot happen
      store.WriteHeld(hb, Mark(h, b, false));
      store.Release(hb);
    }

    /** Allocate a block and make it pointer k of the inode: a direct block or the indirect block. */
    method AllocInto(ip: Inode, k: nat) returns (b: nat)
      requires In({}) && store.log.busy && store.held == [] && |Log.Slotted(store.logged, sb.BitBlock())| <= 7
      requires ip.addrs != store.log.sector
      requires ip.inum in nodes && nodes[ip.inum] == ip.Value() && k <= NDIRECT && ip.addrs.Length == NDIRECT + 1
      requires ip.addrs[k] == 0
      requires Mappable(sb, store.home, nodes, ip.inum, k)
      modifies this`nodes, this`own, ip.addrs
      modifies store`home, store`logged, store`held, store`keep, store.log`n, store.log`pin, store.log`ups
      modifies store.log.sector
      modifies store.log.cache, store.log.cache.bufs, store.log.cache.link
      ensures In({}) && store.held == [] && nodes == old(nodes)[ip.inum := ip.Value()]
      ensures ip.addrs[..] == old(ip.addrs[..])[k := b]
      ensures Mapped(sb, old(store.home), old(nodes), store.home, nodes, ip.inum, k, b)
      ensures store.logged == Log.Slotted(Log.Slotted(old(store.logged), sb.BitBlock()), b)
    {
      hide Store.Valid, Owned, SameData, InUse, HasSuper, FreeBlocks, OnlySlot, Mapped;
      ghost var (m, ns, ow, i) := (store.home, nodes, own, ip.inum);
      AllocFacts(sb, m, nodes, own, {});
      FreeOne(sb, m);
      b := BlockAlloc({});
      assert {} + {b} == {b};
      AllocFree(sb, m, nodes, own, b, i);
      ip.addrs[k] := b;
      nodes, own := nodes[i := ip.Value()], own[b := Slot(i, k)];
      assert ip.Value() == SetAddr(ns[i], k, b);
      PlaceAlloc(sb, m, ns, ow, store.home, i, k, b);
    }

    /** The part of bmap behind the indirect block: look up entry j, allocating it if it is empty. */
    method MapEntry(ghost i: nat, a: nat, j: nat) returns (b: nat)
      requires In({}) && store.held == [] && |store.logged| < BufCache.NBUF && j < NINDIRECT
      requires Mappable(sb, store.home, nodes, i, NDIRECT + 1 + j) && a == nodes[i].addrs[NDIRECT] != 0
      requires Addr(store.home, nodes[i], NDIRECT + 1 + j) == 0 ==>
                 store.log.busy && |Log.Slotted(store.logged, sb.BitBlock())| <= 7
      modifies this`own, store`home, store`logged, store`held, store`keep, store.log`n, store.log`pin, store.log`ups
      modifies store.log.sector
      modifies store.log.cache, store.log.cache.bufs, store.log.cache.link
      ensures In({}) && store.held == []
      ensures Mapped(sb, old(store.home), nodes, store.home, nodes, i, NDIRECT + 1 + j, b)
      ensures if old(Addr(store.home, nodes[i], NDIRECT + 1 + j)) != 0 then store.logged == old(store.logged) else
                store.logged == Log.Slotted(Log.Slotted(Log.Slotted(old(store.logged), sb.BitBlock()), b), a)
    {
      hide Store.Valid, Owned, SameData, InUse, LoadU32, StoreU32, Mark, FreeBlocks, OnlySlot, Mapped,
           Log.Slotted, ZeroBlock;
      ghost var m := store.home;
      AllocFacts(sb, m, nodes, own, {});
      IndirectOwned(sb, m, nodes, own, i);
      var hb, x := store.Hold(a);
      b := LoadU32(x, 4 * j);
      if b == 0 {
        FreeOne(sb, m);
        b := BlockAlloc({});
        assert {} + {b} == {b};
        AllocFree(sb, m, nodes, own, b, i);
        EnterAlloc(sb, m, nodes, own, store.home, i, j, b);
        store.WriteHeld(hb, StoreU32(x, 4 * j, b));
        own := own[b := Slot(i, NDIRECT + 1 + j)];
      } else {
        AlreadyMapped(sb, m, nodes, own, i, NDIRECT + 1 + j);
      }
      store.Release(hb);
    }

    /** ip is the in-memory copy of one of the inodes. */
    ghost predicate Open(ip: Inode)
      reads this, ip, ip.addrs
    {
      ip.inum in nodes && nodes[ip.inum] == ip.Value() && ip.addrs.Length == NDIRECT + 1
    }

    /** bmap: the disk block of file block bn, allocating it at the end of the file. */
    method BMap(ip: Inode, bn: nat, ghost c: nat, ghost d: set<nat>) returns (b: nat)
      requires In({}) && store.held == [] && Open(ip) && ip.addrs != store.log.sector
      requires bn < MAXFILE && bn <= c && Filled(store.home, ip.Value(), c) && |store.logged| < BufCache.NBUF
      requires |FreeBlocks(sb, store.home)| >= Need(c, Max(c, bn + 1))
      requires bn == c ==> store.log.busy && |d| <= 5 && LogsOnly(store.logged, Meta(sb, ip.Value()) + d)
      modifies this`nodes, this`own, ip.addrs, store`held, store`keep
      modifies store`home, store`logged, store.log`n, store.log`pin, store.log`ups, store.log.sector
      modifies store.log.cache, store.log.cache.bufs, store.log.cache.link
      ensures In({}) && store.held == [] && Open(ip) && nodes == old(nodes)[ip.inum := ip.Value()]
      ensures Extended(sb, old(store.home), old(nodes), store.home, nodes, ip.inum, c, bn, b)
      ensures if bn < c then store.logged == old(store.logged) && ip.addrs[..] == old(ip.addrs[..])
              else LogsOnly(store.logged, Meta(sb, ip.Value()) + d + {b})
    {
      hide Store.Valid, Owned, SameData, InUse, HasSuper, FreeBlocks, OnlySlot, Mapped, Extended, Filled, LogsOnly,
           Log.Slotted;
      ghost var (m, ns, i, u) := (store.home, nodes, ip.inum, Meta(sb, ip.Value()) + d);
      CanMap(sb, m, ns, i, c, bn);
      if bn < NDIRECT {
        b := ip.addrs[bn];
        if b == 0 {
          LogRoom(sb, ip.Value(), d, store.logged);
          b := AllocInto(ip, bn);
          LogsAlloc(sb, old(store.logged), b, u, u + {b});
        } else {
          AlreadyMapped(sb, m, ns, own, i, bn);
        }
        MappedExtends(sb, m, ns, store.home, nodes, i, c, bn, b);
      } else {
        b := BMapIndirect(ip, bn, c, d);
      }
    }

    /** bmap past the direct blocks. */
    method BMapIndirect(ip: Inode, bn: nat, ghost c: nat, ghost d: set<nat>) returns (b: nat)
      requires In({}) && store.held == [] && Open(ip) && ip.addrs != store.log.sector
      requires NDIRECT <= bn < MAXFILE && bn <= c && Filled(store.home, ip.Value(), c) && |store.logged| < BufCache.NBUF
      requires |FreeBlocks(sb, store.home)| >= Need(c, Max(c, bn + 1))
      requires bn == c ==> store.log.busy && |d| <= 5 && LogsOnly(store.logged, Meta(sb, ip.Value()) + d)
      modifies this`nodes, this`own, ip.addrs, store`held, store`keep
      modifies store`home, store`logged, store.log`n, store.log`pin, store.log`ups, store.log.sector
      modifies store.log.cache, store.log.cache.bufs, store.log.cache.link
      ensures In({}) && store.held == [] && Open(ip) && nodes == old(nodes)[ip.inum := ip.Value()]
      ensures Extended(sb, old(store.home), old(nodes), store.home, nodes, ip.inum, c, bn, b)
      ensures if bn < c then store.logged == old(store.logged) && ip.addrs[..] == old(ip.addrs[..])
              else LogsOnly(store.logged, Meta(sb, ip.Value()) + d + {b})
    {
      hide Store.Valid, Owned, SameData, InUse, HasSuper, FreeBlocks, OnlySlot, Mapped, Extended, Filled, LogsOnly,
           Log.Slotted;
      ghost var (m, ns, i, u) := (store.home, nodes, ip.inum, Meta(sb, ip.Value()) + d);
      CanMap(sb, m, ns, i, c, bn);
      var a := ip.addrs[NDIRECT];
      if bn == c { LogRoom(sb, ip.Value(), d, store.logged); }
      if a == 0 {
        a := AllocInto(ip, NDIRECT);
        ghost var (m1, ns1, v) := (store.home, nodes, Meta(sb, ip.Value()) + d);
        CanMapEntry(sb, m, ns, m1, ns1, i, a);
        LogsAlloc(sb, old(store.logged), a, u, v);
        LogRoom(sb, ip.Value(), d, store.logged);
        ghost var secs := store.logged;
        b := MapEntry(i, a, 0);
        MapEntryLogs(sb, d, secs, ip.Value(), b, store.logged);
        MappedBothExtends(sb, m, ns, m1, ns1, a, store.home, nodes, i, b);
      } else {
        b := MapEntry(i, a, bn - NDIRECT);
        if bn == c { MapEntryLogs(sb, d, old(store.logged), ip.Value(), b, store.logged); }
        MappedExtends(sb, m, ns, store.home, nodes, i, c, bn, b);
      }
    }
  }
}
