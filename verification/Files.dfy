/** Reading and writing files: inode.c on top of bmap. */
module Files {
  import opened Words
  import opened Layout
  import opened FsSpec
  import opened Fs
  import opened TxStore
  import Log
  import BufCache

  /** x was written at byte off of inode i, within one block, where the file had c blocks. */
  ghost predicate Wrote(sb: Super, m: Flat, nodes: Nodes, m': Flat, nodes': Nodes, i: nat, c: nat, off: nat,
                        x: seq<byte>) {
    && i in nodes && i in nodes' && |nodes[i].addrs| == NDIRECT + 1 && off / 512 < MAXFILE && off % 512 + |x| <= 512
    && var bn := off / 512;
    && Filled(m', nodes'[i], Max(c, bn + 1))
    && BlockAt(m', nodes'[i], bn) == Splice(if bn < c then BlockAt(m, nodes[i], bn) else ZeroBlock(), off % 512, x)
    && SameData(m, nodes, m', nodes', i, bn, bn + 1) && SameHead(sb, m, m') && (bn < c ==> nodes' == nodes)
    && |FreeBlocks(sb, m')| == |FreeBlocks(sb, m)| - Need(c, Max(c, bn + 1))
  }

  lemma SameDataWider(m: Flat, nodes: Nodes, m': Flat, nodes': Nodes, i: nat, lo: int, hi: int, lo': int, hi': int)
    requires SameData(m, nodes, m', nodes', i, lo, hi) && (lo == hi || lo' <= lo <= hi <= hi')
    ensures SameData(m, nodes, m', nodes', i, lo', hi')
  {
  }

  lemma WroteBlock(sb: Super, m: Flat, nodes: Nodes, m1: Flat, nodes1: Nodes, own1: Owners, i: nat, c: nat, off: nat,
                   x: seq<byte>, b: nat)
    requires Extended(sb, m, nodes, m1, nodes1, i, c, off / 512, b) && Owned(sb, m1, nodes1, own1, {})
    requires off / 512 <= c && off % 512 + |x| <= 512 && |nodes[i].addrs| == NDIRECT + 1
    ensures var m2 := m1[b := Splice(m1[b], off % 512, x)];
            && b in own1 && b in m1 && 1 < b < U32 && Owned(sb, m2, nodes1, own1, {})
            && Wrote(sb, m, nodes, m2, nodes1, i, c, off, x)
            && Addr(m2, nodes1[i], NDIRECT) == Addr(m1, nodes1[i], NDIRECT)
  {
    hide FreeBlocks, Owned, SameData;
    var bn := off / 512;
    var y: Block := Splice(m1[b], off % 512, x);
    var m2 := m1[b := y];
    DataBlock(sb, m1, nodes1, own1, i, bn);
    WriteSame(sb, m1, nodes1, own1, {}, i, bn, y);
    WroteData(m, nodes, m1, nodes1, m2, i, bn);
    SameFree(sb, m1, m2);
    assert bn < c ==> BlockAt(m, nodes[i], bn) == m1[b];
    forall z | 0 <= z < MAXFILE ensures Addr(m2, nodes1[i], SlotOf(z)) == Addr(m1, nodes1[i], SlotOf(z)) { }
  }

  lemma DataBlock(sb: Super, m: Flat, nodes: Nodes, own: Owners, i: nat, bn: nat)
    requires Owned(sb, m, nodes, own, {}) && i in nodes && |nodes[i].addrs| == NDIRECT + 1 && bn < MAXFILE
    requires Addr(m, nodes[i], SlotOf(bn)) != 0
    ensures var b := Addr(m, nodes[i], SlotOf(bn)); b in own && sb.InData(b) && b in m && b < U32
    ensures Mounted(sb, m)
  {
  }

  lemma WroteData(m: Flat, nodes: Nodes, m1: Flat, nodes1: Nodes, m2: Flat, i: nat, bn: nat)
    requires SameData(m, nodes, m1, nodes1, i, 0, 0) && SameData(m1, nodes1, m2, nodes1, i, bn, bn + 1)
    ensures SameData(m, nodes, m2, nodes1, i, bn, bn + 1)
  {
    SameDataWider(m, nodes, m1, nodes1, i, 0, 0, bn, bn + 1);
    SameDataTransitive(m, nodes, m1, nodes1, m2, nodes1, i, bn, bn + 1);
  }

  /** One round of inode_write: map a block, change some of its bytes and log it. */
  method WriteBlock(fs: FileSystem, ip: Inode, off: nat, x: seq<byte>, ghost c: nat, ghost d: set<nat>)
    returns (ghost b: nat)
    requires fs.In({}) && fs.store.log.busy && fs.store.held == [] && fs.Open(ip) && ip.addrs != fs.store.log.sector
    requires off / 512 < MAXFILE && off / 512 <= c && off % 512 + |x| <= 512 && Filled(fs.store.home, ip.Value(), c)
    requires |FreeBlocks(fs.sb, fs.store.home)| >= Need(c, Max(c, off / 512 + 1))
    requires |d| <= 5 && LogsOnly(fs.store.logged, Meta(fs.sb, ip.Value()) + d)
    modifies fs`nodes, fs`own, ip.addrs, fs.store`held, fs.store`keep
    modifies fs.store`home, fs.store`logged, fs.store.log`n, fs.store.log`pin, fs.store.log`ups, fs.store.log.sector
    modifies fs.store.log.cache, fs.store.log.cache.bufs, fs.store.log.cache.link
    ensures fs.In({}) && fs.store.held == [] && fs.Open(ip) && fs.nodes == old(fs.nodes)[ip.inum := ip.Value()]
    ensures Wrote(fs.sb, old(fs.store.home), old(fs.nodes), fs.store.home, fs.nodes, ip.inum, c, off, x)
    ensures LogsOnly(fs.store.logged, Meta(fs.sb, ip.Value()) + d + {b})
  {
    hide Store.Valid, Owned, SameData, InUse, FreeBlocks, Extended, Wrote, LogsOnly, Filled, Log.Slotted, Splice,
         FileSystem.In;
    ghost var (m, ns) := (fs.store.home, fs.nodes);
    LogRoom(fs.sb, ip.Value(), d, fs.store.logged);
    var a := fs.BMap(ip, off / 512, c, d);
    b := a;
    ghost var (m1, ns1, u) := (fs.store.home, fs.nodes, Meta(fs.sb, ip.Value()) + d + {b});
    if off / 512 < c { LogsMore(fs.store.logged, Meta(fs.sb, ip.Value()) + d, u); }
    InFacts(fs);
    WroteBlock(fs.sb, m, ns, m1, ns1, fs.own, ip.inum, c, off, x, b);
    assert u == Meta(fs.sb, ip.Value()) + (d + {b});
    LogRoom(fs.sb, ip.Value(), d + {b}, fs.store.logged);
    LogsSlotted(fs.store.logged, b, u, u);
    PutBlock(fs, a, off % 512, x);
  }

  /** Change bytes of a data block and log it. */
  method PutBlock(fs: FileSystem, a: nat, o: nat, x: seq<byte>)
    requires fs.In({}) && fs.store.log.busy && fs.store.held == [] && |fs.store.logged| <= 8 && o + |x| <= 512
    requires a in fs.store.home && 1 < a < U32
    requires Owned(fs.sb, fs.store.home[a := Splice(fs.store.home[a], o, x)], fs.nodes, fs.own, {})
    modifies fs.store`held, fs.store`keep
    modifies fs.store`home, fs.store`logged, fs.store.log`n, fs.store.log`pin, fs.store.log`ups, fs.store.log.sector
    modifies fs.store.log.cache, fs.store.log.cache.bufs, fs.store.log.cache.link
    ensures fs.In({}) && fs.store.held == []
    ensures fs.store.home == old(fs.store.home)[a := Splice(old(fs.store.home)[a], o, x)]
    ensures fs.store.logged == Log.Slotted(old(fs.store.logged), a)
  {
    hide Store.Valid, Owned, Splice, Log.Slotted, LoadU32;
    var hb, y := fs.store.Hold(a);
    fs.store.WriteHeld(hb, Splice(y, o, x));
    fs.store.Release(hb);
  }

  // ---- the whole write -------------------------------------------------------------------

  /** Blocks of a file of the given size once bytes up to end are written. */
  function Grown(size: nat, end: nat): nat { Max(BlocksFor(size), BlocksFor(end)) }

  ghost predicate Sized(m: Flat, n: Node) {
    |n.addrs| == NDIRECT + 1 && n.size <= MAXFILE * 512 && Filled(m, n, BlocksFor(n.size))
  }

  /** From (m, ns) to (m', ns'), the first tot bytes of src have been written at off of inode i. */
  ghost predicate Progress(sb: Super, m: Flat, ns: Nodes, m': Flat, ns': Nodes, i: nat, off: nat, src: seq<byte>,
                           tot: nat) {
    && i in ns && i in ns' && Sized(m, ns[i]) && off <= ns[i].size && tot <= |src| && off + tot <= MAXFILE * 512
    && Filled(m', ns'[i], Grown(ns[i].size, off + tot))
    && (forall y :: 0 <= y < ns[i].size || off <= y < off + tot ==>
          ByteAt(m', ns'[i], y) == if off <= y < off + tot then src[y - off] else ByteAt(m, ns[i], y))
    && SameData(m, ns, m', ns', i, 0, MAXFILE) && SameHead(sb, m, m')
    && |FreeBlocks(sb, m')| == |FreeBlocks(sb, m)| - Need(BlocksFor(ns[i].size), Grown(ns[i].size, off + tot))
    && (BlocksFor(off + tot) <= BlocksFor(ns[i].size) ==> ns' == ns)
  }

  lemma ProgressNone(sb: Super, m: Flat, ns: Nodes, i: nat, off: nat, src: seq<byte>)
    requires i in ns && Shaped(ns) && Sized(m, ns[i]) && off <= ns[i].size
    ensures Progress(sb, m, ns, m, ns, i, off, src, 0)
  {
    hide FreeBlocks;
  }

  lemma WroteByte(sb: Super, m: Flat, ns: Nodes, m': Flat, ns': Nodes, i: nat, c: nat, o: nat, x: seq<byte>, y: nat)
    requires Wrote(sb, m, ns, m', ns', i, c, o, x) && Filled(m, ns[i], c) && y < MAXFILE * 512
    requires y / 512 < c || o <= y < o + |x|
    ensures ByteAt(m', ns'[i], y) == if o <= y < o + |x| then x[y - o] else ByteAt(m, ns[i], y)
  {
    hide FreeBlocks, SameData, Addr;
    if y / 512 != o / 512 {
      BlockSame(m, ns, m', ns', i, c, o / 512, y / 512);
    } else {
      hide BlockAt;
      WithinBlock(o, |x|, y);
    }
  }

  lemma BlockSame(m: Flat, ns: Nodes, m': Flat, ns': Nodes, i: nat, c: nat, bn: nat, z: nat)
    requires SameData(m, ns, m', ns', i, bn, bn + 1) && i in ns && Filled(m, ns[i], c) && z < c && z != bn
    ensures i in ns' && |ns'[i].addrs| == NDIRECT + 1 && BlockAt(m', ns'[i], z) == BlockAt(m, ns[i], z)
  {
    assert Addr(m, ns[i], SlotOf(z)) != 0;
  }

  lemma WithinBlock(o: nat, n: nat, y: nat)
    requires y / 512 == o / 512 && o % 512 + n <= 512
    ensures (o <= y < o + n <==> o % 512 <= y % 512 < o % 512 + n) && y % 512 - o % 512 == y - o
  {
  }

  lemma ProgressBytes(sb: Super, m: Flat, ns: Nodes, m1: Flat, ns1: Nodes, i: nat, off: nat, src: seq<byte>, tot: nat,
                      k: nat, m2: Flat, ns2: Nodes, y: nat)
    requires Progress(sb, m, ns, m1, ns1, i, off, src, tot) && tot + k <= |src| && off + tot + k <= MAXFILE * 512
    requires Wrote(sb, m1, ns1, m2, ns2, i, Grown(ns[i].size, off + tot), off + tot, src[tot..tot + k])
    requires y < ns[i].size || off <= y < off + tot + k
    ensures y < MAXFILE * 512 && |ns2[i].addrs| == NDIRECT + 1
    ensures ByteAt(m2, ns2[i], y) == if off <= y < off + tot + k then src[y - off] else ByteAt(m, ns[i], y)
  {
    hide Wrote, FreeBlocks, SameData, ByteAt, Addr;
    assert |ns2[i].addrs| == NDIRECT + 1 by {
      WroteFacts(sb, m1, ns1, m2, ns2, i, Grown(ns[i].size, off + tot), off + tot, src[tot..tot + k]);
    }
    WroteByte(sb, m1, ns1, m2, ns2, i, Grown(ns[i].size, off + tot), off + tot, src[tot..tot + k], y);
  }

  lemma WroteFacts(sb: Super, m: Flat, ns: Nodes, m': Flat, ns': Nodes, i: nat, c: nat, o: nat, x: seq<byte>)
    requires Wrote(sb, m, ns, m', ns', i, c, o, x)
    ensures i in ns' && |ns'[i].addrs| == NDIRECT + 1 && o / 512 < MAXFILE
    ensures Filled(m', ns'[i], Max(c, o / 512 + 1)) && SameData(m, ns, m', ns', i, o / 512, o / 512 + 1)
    ensures SameHead(sb, m, m')
    ensures (o / 512 < c ==> ns' == ns) && |FreeBlocks(sb, m')| == |FreeBlocks(sb, m)| - Need(c, Max(c, o / 512 + 1))
  {
    hide FreeBlocks, SameData;
  }

  lemma ProgressData(m: Flat, ns: Nodes, m1: Flat, ns1: Nodes, m2: Flat, ns2: Nodes, i: nat, bn: nat)
    requires SameData(m, ns, m1, ns1, i, 0, MAXFILE) && SameData(m1, ns1, m2, ns2, i, bn, bn + 1) && bn < MAXFILE
    ensures SameData(m, ns, m2, ns2, i, 0, MAXFILE)
  {
    SameDataWider(m1, ns1, m2, ns2, i, bn, bn + 1, 0, MAXFILE);
    SameDataTransitive(m, ns, m1, ns1, m2, ns2, i, 0, MAXFILE);
  }

  lemma ProgressStep(sb: Super, m: Flat, ns: Nodes, m1: Flat, ns1: Nodes, i: nat, off: nat, src: seq<byte>, tot: nat,
                     k: nat, m2: Flat, ns2: Nodes)
    requires Progress(sb, m, ns, m1, ns1, i, off, src, tot) && 1 <= k <= 512 - (off + tot) % 512 && tot + k <= |src|
    requires off + tot + k <= MAXFILE * 512
    requires Wrote(sb, m1, ns1, m2, ns2, i, Grown(ns[i].size, off + tot), off + tot, src[tot..tot + k])
    ensures Progress(sb, m, ns, m2, ns2, i, off, src, tot + k)
  {
    hide FreeBlocks, SameData, ByteAt, Filled, Wrote;
    WroteFacts(sb, m1, ns1, m2, ns2, i, Grown(ns[i].size, off + tot), off + tot, src[tot..tot + k]);
    forall y | 0 <= y < ns[i].size || off <= y < off + tot + k
      ensures ByteAt(m2, ns2[i], y) == if off <= y < off + tot + k then src[y - off] else ByteAt(m, ns[i], y)
    {
      ProgressBytes(sb, m, ns, m1, ns1, i, off, src, tot, k, m2, ns2, y);
    }
    ProgressData(m, ns, m1, ns1, m2, ns2, i, (off + tot) / 512);
    assert BlocksFor(off + tot + k) == (off + tot) / 512 + 1;
  }

  // ---- inode_update ------------------------------------------------------------------------

  /** The disk after dinode i is overwritten with n. */
  function Recorded(sb: Super, m: Flat, i: nat, n: Node): Flat
    requires sb.InodeBlock(i) in m && n.Fits()
  {
    m[sb.InodeBlock(i) := PutNode(m[sb.InodeBlock(i)], 64 * (i % IPB), n)]
  }

  lemma RecordedNode(sb: Super, m: Flat, i: nat, n: Node, j: nat)
    requires sb.InodeBlock(i) in m && sb.InodeBlock(j) in m && n.Fits()
    ensures NodeAt(sb, Recorded(sb, m, i, n), j) == if j == i then n else NodeAt(sb, m, j)
  {
    if sb.InodeBlock(j) == sb.InodeBlock(i) {
      PutNodeIs(m[sb.InodeBlock(i)], 64 * (i % IPB), n, 64 * (j % IPB));
    }
  }

  /** Recording a dinode moves no block and changes no data. */
  lemma RecordKeeps(sb: Super, m: Flat, ns: Nodes, own: Owners, i: nat, n: Node)
    requires Owned(sb, m, ns, own, {}) && i in ns && sb.IsInode(i) && n.Fits() && n.addrs == ns[i].addrs
    ensures 1 < sb.InodeBlock(i) < U32 && sb.InodeBlock(i) in m
    ensures var m' := Recorded(sb, m, i, n);
            && Owned(sb, m', ns[i := n], own, {}) && FreeBlocks(sb, m') == FreeBlocks(sb, m)
            && SameData(m, ns, m', ns[i := n], i, 0, 0)
            && (forall k :: 0 <= k < NSLOTS ==> Addr(m', n, k) == Addr(m, ns[i], k))
  {
    hide PutNode, FreeBlocks, InUse;
    var (ib, m', ns') := (sb.InodeBlock(i), Recorded(sb, m, i, n), ns[i := n]);
    assert ib !in own;
    WriteKeeps(sb, m, ns, own, {}, ib, m'[ib]);
    SameFree(sb, m, m');
    forall j, k | j in ns && 0 <= k < NSLOTS ensures Addr(m', ns'[j], k) == Addr(m, ns[j], k) { }
    RenodeKeeps(sb, m', ns, own, i, n);
    RecordSame(sb, m, ns, own, i, n);
  }

  /** Metadata other than the block addresses does not matter for ownership. */
  lemma RenodeKeeps(sb: Super, m: Flat, ns: Nodes, own: Owners, i: nat, n: Node)
    requires Owned(sb, m, ns, own, {}) && i in ns && n.addrs == ns[i].addrs
    ensures Owned(sb, m, ns[i := n], own, {})
  {
    var ns' := ns[i := n];
    forall j, k | j in ns' && 0 <= k < NSLOTS && Addr(m, ns'[j], k) != 0
      ensures Addr(m, ns'[j], k) in own && own[Addr(m, ns'[j], k)] == Slot(j, k)
    {
      assert Addr(m, ns'[j], k) == Addr(m, ns[j], k);
    }
    forall b | b in own ensures Addr(m, ns'[own[b].i], own[b].k) == b { assert Addr(m, ns[own[b].i], own[b].k) == b; }
  }

  lemma RecordSame(sb: Super, m: Flat, ns: Nodes, own: Owners, i: nat, n: Node)
    requires Owned(sb, m, ns, own, {}) && i in ns && sb.IsInode(i) && n.Fits() && n.addrs == ns[i].addrs
    requires sb.InodeBlock(i) in m
    requires forall j, k :: j in ns && 0 <= k < NSLOTS ==>
               Addr(Recorded(sb, m, i, n), ns[i := n][j], k) == Addr(m, ns[j], k)
    ensures SameData(m, ns, Recorded(sb, m, i, n), ns[i := n], i, 0, 0)
  {
    hide PutNode, InUse;
    var (m', ns') := (Recorded(sb, m, i, n), ns[i := n]);
    forall j, bn | j in ns && 0 <= bn < MAXFILE && Addr(m, ns[j], SlotOf(bn)) != 0
      ensures BlockAt(m', ns'[j], bn) == BlockAt(m, ns[j], bn)
    {
      assert Addr(m, ns[j], SlotOf(bn)) in own;
    }
  }

  lemma NodeFits(sb: Super, m: Flat, ns: Nodes, own: Owners, limbo: set<nat>, i: nat, n: Node)
    requires Owned(sb, m, ns, own, limbo) && i in ns && n.addrs == ns[i].addrs && n.size < U32
    requires n.kind < 0x1_0000 && n.major < 0x1_0000 && n.minor < 0x1_0000 && n.nlink < 0x1_0000
    ensures n.Fits()
  {
    forall k | 0 <= k <= NDIRECT ensures n.addrs[k] < U32 {
      assert Addr(m, ns[i], k) == n.addrs[k];
    }
  }

  /** inode_update. */
  method InodeUpdate(fs: FileSystem, ip: Inode)
    requires fs.In({}) && fs.store.log.busy && fs.store.held == [] && |fs.store.logged| <= 8
    requires ip.inum in fs.nodes && fs.nodes[ip.inum].addrs == ip.addrs[..] && ip.Value().Fits()
    modifies fs`nodes, fs.store`home, fs.store`logged, fs.store`held, fs.store`keep
    modifies fs.store.log`n, fs.store.log`pin, fs.store.log`ups, fs.store.log.sector
    modifies fs.store.log.cache, fs.store.log.cache.bufs, fs.store.log.cache.link
    requires ip.addrs != fs.store.log.sector
    ensures fs.In({}) && fs.store.held == [] && fs.nodes == old(fs.nodes)[ip.inum := ip.Value()]
    ensures fs.sb.InodeBlock(ip.inum) in old(fs.store.home)
    ensures fs.store.home == Recorded(fs.sb, old(fs.store.home), ip.inum, ip.Value())
    ensures fs.store.logged == Log.Slotted(old(fs.store.logged), fs.sb.InodeBlock(ip.inum))
  {
    hide Store.Valid, Owned, SameData, FreeBlocks, PutNode, Node.Fits, Log.Slotted;
    ghost var (m, i, n) := (fs.store.home, ip.inum, ip.Value());
    RecordKeeps(fs.sb, m, fs.nodes, fs.own, i, n);
    var hb, h := fs.store.Hold(ip.inum / IPB + 2);
    var dip := Node(ip.kind, ip.major, ip.minor, ip.nlink, ip.size, ip.addrs[..]);
    fs.store.WriteHeld(hb, PutNode(h, 64 * (ip.inum % IPB), dip));
    fs.store.Release(hb);
    fs.nodes := fs.nodes[i := n];
  }

  /** The part of inode_lock that reads the dinode: the in-memory copy agrees with the disk. */
  method InodeLoad(fs: FileSystem, inum: nat) returns (ip: Inode)
    requires fs.In({}) && |fs.store.logged| + |fs.store.held| < BufCache.NBUF && fs.store.held == []
    requires inum in fs.nodes && Tidy(fs.sb, fs.store.home, fs.nodes)
    modifies fs.store.log.cache, fs.store.log.cache.bufs, fs.store.log.cache.link
    ensures fs.In({}) && fs.Open(ip) && ip.inum == inum && fresh(ip) && fresh(ip.addrs)
  {
    hide Store.Valid, Owned, NodeIn, Sized;
    var h := fs.store.Read(inum / IPB + 2);
    ip := new Inode(inum, NodeIn(h, 64 * (inum % IPB)));
  }

  /** A file system before mkfs adds the root directory: a bitmap of the leading blocks, and no file has blocks. */
  lemma EmptyFs(sb: Super, m: Flat, ns: Nodes)
    requires Mounted(sb, m) && forall b :: 0 <= b < BPB ==> (Marked(m[sb.BitBlock()], b) <==> b < sb.DataStart())
    requires forall i :: i in ns ==> sb.IsInode(i) && ns[i] == NodeAt(sb, m, i) && ns[i].size == 0
    requires Shaped(ns) && forall i, k :: i in ns && 0 <= k <= NDIRECT ==> ns[i].addrs[k] == 0
    ensures Owned(sb, m, ns, map[], {}) && Tidy(sb, m, ns) && forall b: nat :: b in FreeBlocks(sb, m) <==> sb.InData(b)
  {
    hide NodeIn;
  }

  /** As mkfs leaves it: the root directory, inode 1, has the first data block. */
  lemma RootFs(sb: Super, m: Flat, ns: Nodes)
    requires Mounted(sb, m) && forall b :: 0 <= b < BPB ==> (Marked(m[sb.BitBlock()], b) <==> b <= sb.DataStart())
    requires Shaped(ns) && 1 in ns && ns[1].addrs[0] == sb.DataStart() && ns[1].size == 512
    requires forall i :: i in ns ==> sb.IsInode(i) && ns[i] == NodeAt(sb, m, i) && (i != 1 ==> ns[i].size == 0)
    requires forall i, k :: i in ns && 0 <= k <= NDIRECT && !(i == 1 && k == 0) ==> ns[i].addrs[k] == 0
    ensures Owned(sb, m, ns, map[sb.DataStart() := Slot(1, 0)], {}) && Tidy(sb, m, ns)
    ensures forall b: nat :: b in FreeBlocks(sb, m) <==> sb.InData(b) && b != sb.DataStart()
  {
    hide NodeIn;
  }

  // ---- inode_write -------------------------------------------------------------------------

  function Min(x: nat, y: nat): nat { if x < y then x else y }

  /** How many blocks the bytes off .. off + n lie in. */
  function Touched(off: nat, n: nat): nat { if n == 0 then 0 else (off + n - 1) / 512 - off / 512 + 1 }

  lemma RoundFits(sb: Super, m: Flat, ns: Nodes, m': Flat, ns': Nodes, i: nat, off: nat, src: seq<byte>, tot: nat)
    requires Progress(sb, m, ns, m', ns', i, off, src, tot) && tot < |src| && off + |src| <= MAXFILE * 512
    requires |FreeBlocks(sb, m)| >= Need(BlocksFor(ns[i].size), Grown(ns[i].size, off + |src|))
    ensures i in ns && var c := Grown(ns[i].size, off + tot);
            && (off + tot) / 512 < MAXFILE && (off + tot) / 512 <= c && Filled(m', ns'[i], c)
            && |FreeBlocks(sb, m')| >= Need(c, Max(c, (off + tot) / 512 + 1))
  {
    hide FreeBlocks, Filled, SameData, SameHead;
  }

  lemma TouchedStep(off: nat, tot: nat, n: nat)
    requires tot < n && (tot > 0 ==> (off + tot) % 512 == 0)
    ensures var k := Min(n - tot, 512 - (off + tot) % 512);
            && Touched(off, tot + k) == Touched(off, tot) + 1 <= Touched(off, n)
            && (tot + k < n ==> (off + tot + k) % 512 == 0)
  {
  }

  method WriteRound(fs: FileSystem, ip: Inode, src: seq<byte>, off: nat, tot: nat, ghost m: Flat, ghost ns: Nodes,
                    ghost e: set<nat>)
    returns (k: nat, ghost b: nat)
    requires fs.In({}) && fs.store.log.busy && fs.store.held == [] && fs.Open(ip) && ip.addrs != fs.store.log.sector
    requires Progress(fs.sb, m, ns, fs.store.home, fs.nodes, ip.inum, off, src, tot) && tot < |src|
    requires off + |src| <= MAXFILE * 512
    requires |FreeBlocks(fs.sb, m)| >= Need(BlocksFor(ns[ip.inum].size), Grown(ns[ip.inum].size, off + |src|))
    requires |e| <= 5 && LogsOnly(fs.store.logged, Meta(fs.sb, ip.Value()) + e)
    modifies fs`nodes, fs`own, ip.addrs, fs.store`held, fs.store`keep
    modifies fs.store`home, fs.store`logged, fs.store.log`n, fs.store.log`pin, fs.store.log`ups, fs.store.log.sector
    modifies fs.store.log.cache, fs.store.log.cache.bufs, fs.store.log.cache.link
    ensures k == Min(|src| - tot, 512 - (off + tot) % 512)
    ensures fs.In({}) && fs.store.held == [] && fs.Open(ip) && fs.nodes == old(fs.nodes)[ip.inum := ip.Value()]
    ensures Progress(fs.sb, m, ns, fs.store.home, fs.nodes, ip.inum, off, src, tot + k)
    ensures LogsOnly(fs.store.logged, Meta(fs.sb, ip.Value()) + (e + {b}))
  {
    hide Store.Valid, Owned, SameData, FreeBlocks, Filled, Wrote, LogsOnly, Progress, FileSystem.In;
    k := Min(|src| - tot, 512 - (off + tot) % 512);
    ghost var (m1, ns1, i) := (fs.store.home, fs.nodes, ip.inum);
    RoundFits(fs.sb, m, ns, m1, ns1, i, off, src, tot);
    b := WriteBlock(fs, ip, off + tot, src[tot..tot + k], Grown(ns[i].size, off + tot), e);
    ProgressStep(fs.sb, m, ns, m1, ns1, i, off, src, tot, k, fs.store.home, fs.nodes);
    assert Meta(fs.sb, ip.Value()) + (e + {b}) == Meta(fs.sb, ip.Value()) + e + {b};
  }

  /** The copy loop of inode_write. e collects the data blocks it logs. */
  method WriteLoop(fs: FileSystem, ip: Inode, src: seq<byte>, off: nat, ghost d: set<nat>) returns (ghost e: set<nat>)
    requires fs.In({}) && fs.store.log.busy && fs.store.held == [] && fs.Open(ip) && ip.addrs != fs.store.log.sector
    requires Sized(fs.store.home, ip.Value()) && off <= ip.size && off + |src| <= MAXFILE * 512
    requires |FreeBlocks(fs.sb, fs.store.home)| >= Need(BlocksFor(ip.size), Grown(ip.size, off + |src|))
    requires |d| + Touched(off, |src|) <= 6 && LogsOnly(fs.store.logged, Meta(fs.sb, ip.Value()) + d)
    modifies fs`nodes, fs`own, ip.addrs, fs.store`held, fs.store`keep
    modifies fs.store`home, fs.store`logged, fs.store.log`n, fs.store.log`pin, fs.store.log`ups, fs.store.log.sector
    modifies fs.store.log.cache, fs.store.log.cache.bufs, fs.store.log.cache.link
    ensures fs.In({}) && fs.store.held == [] && fs.Open(ip) && fs.nodes == old(fs.nodes)[ip.inum := ip.Value()]
    ensures Progress(fs.sb, old(fs.store.home), old(fs.nodes), fs.store.home, fs.nodes, ip.inum, off, src, |src|)
    ensures |e| <= |d| + Touched(off, |src|) && LogsOnly(fs.store.logged, Meta(fs.sb, ip.Value()) + e)
  {
    hide Store.Valid, Owned, SameData, FreeBlocks, Filled, Wrote, LogsOnly, Progress;
    ghost var (m, ns, i) := (fs.store.home, fs.nodes, ip.inum);
    AllocFacts(fs.sb, m, ns, fs.own, {});
    ProgressNone(fs.sb, m, ns, i, off, src);
    hide FileSystem.In;
    e := d;
    var tot := 0;
    while tot < |src|
      invariant tot <= |src| && (0 < tot < |src| ==> (off + tot) % 512 == 0)
      invariant fs.In({}) && fs.store.held == [] && fs.Open(ip) && fs.nodes == ns[i := ip.Value()]
      invariant Progress(fs.sb, m, ns, fs.store.home, fs.nodes, i, off, src, tot)
      invariant |e| <= |d| + Touched(off, tot) && LogsOnly(fs.store.logged, Meta(fs.sb, ip.Value()) + e)
    {
      TouchedStep(off, tot, |src|);
      var k: nat;
      ghost var b;
      k, b := WriteRound(fs, ip, src, off, tot, m, ns, e);
      e := e + {b};
      tot := tot + k;
    }
  }

  /** In every file: no holes, and the dinode on disk is the inode. */
  ghost predicate Tidy(sb: Super, m: Flat, ns: Nodes) {
    forall j :: j in ns ==> sb.InodeBlock(j) in m && NodeAt(sb, m, j) == ns[j] && Sized(m, ns[j])
  }

  /** The bytes s with x written over them from off on. */
  function Overwrite(s: seq<byte>, off: nat, x: seq<byte>): seq<byte>
    requires off <= |s|
  {
    s[..off] + x + if off + |x| <= |s| then s[off + |x|..] else []
  }

  lemma OverwriteIs(m: Flat, n: Node, m': Flat, n': Node, off: nat, src: seq<byte>)
    requires |n.addrs| == NDIRECT + 1 == |n'.addrs| && off <= n.size
    requires n'.size == Max(n.size, off + |src|) <= MAXFILE * 512
    requires forall y :: 0 <= y < n'.size ==>
               ByteAt(m', n', y) == if off <= y < off + |src| then src[y - off] else ByteAt(m, n, y)
    ensures Contents(m', n') == Overwrite(Contents(m, n), off, src)
  {
    hide ByteAt;
  }

  /** What a write of src at off of inode i means: that file's bytes change as asked, the others not at all. */
  ghost predicate Written(sb: Super, m: Flat, ns: Nodes, m': Flat, ns': Nodes, i: nat, off: nat, src: seq<byte>) {
    && i in ns && Tidy(sb, m, ns) && Tidy(sb, m', ns') && ns'.Keys == ns.Keys && off <= ns[i].size
    && ns'[i] == ns[i].(size := Max(ns[i].size, off + |src|), addrs := ns'[i].addrs)
    && Contents(m', ns'[i]) == Overwrite(Contents(m, ns[i]), off, src)
    && |FreeBlocks(sb, m')| == |FreeBlocks(sb, m)| - Need(BlocksFor(ns[i].size), BlocksFor(ns'[i].size))
    && (forall j :: j in ns && j != i ==> ns'[j] == ns[j] && SameFile(m, m', ns[j]))
  }

  /** The file of n has the same bytes on both disks. */
  ghost predicate SameFile(m: Flat, m': Flat, n: Node) {
    |n.addrs| == NDIRECT + 1 && n.size <= MAXFILE * 512 && Contents(m', n) == Contents(m, n)
  }

  /** A write that stays within the file. */
  lemma WrittenInside(sb: Super, m: Flat, ns: Nodes, m': Flat, i: nat, off: nat, src: seq<byte>)
    requires Tidy(sb, m, ns) && Progress(sb, m, ns, m', ns, i, off, src, |src|) && off + |src| <= ns[i].size
    requires forall j :: j in ns ==> sb.IsInode(j)
    ensures Written(sb, m, ns, m', ns, i, off, src)
  {
    hide FreeBlocks, ByteAt;
    OverwriteIs(m, ns[i], m', ns[i], off, src);
    forall j | j in ns
      ensures sb.InodeBlock(j) in m' && NodeAt(sb, m', j) == ns[j] && Sized(m', ns[j])
      ensures j != i ==> Contents(m', ns[j]) == Contents(m, ns[j])
    {
      OthersSame(sb, m, ns, m', ns, i, j);
    }
  }

  lemma OthersSame(sb: Super, m: Flat, ns: Nodes, m': Flat, ns': Nodes, i: nat, j: nat)
    requires Tidy(sb, m, ns) && SameData(m, ns, m', ns', i, 0, MAXFILE) && SameHead(sb, m, m') && j in ns
    requires sb.IsInode(j) && ns'[j] == ns[j]
    ensures sb.InodeBlock(j) in m' && NodeAt(sb, m', j) == ns[j]
    ensures j != i ==> Sized(m', ns[j]) && Contents(m', ns[j]) == Contents(m, ns[j])
  {
    hide ByteAt, NodeIn;
    if j != i {
      assert forall bn :: 0 <= bn < MAXFILE ==> Addr(m', ns[j], SlotOf(bn)) == Addr(m, ns[j], SlotOf(bn));
      SameContents(m, ns, m', ns', i, 0, MAXFILE, j);
    }
  }

  lemma RecordedBytes(sb: Super, m: Flat, ns: Nodes, own: Owners, i: nat, n: Node, c: nat, y: nat)
    requires Owned(sb, m, ns, own, {}) && i in ns && sb.IsInode(i) && n.Fits() && n.addrs == ns[i].addrs
    requires Filled(m, ns[i], c)
    requires sb.InodeBlock(i) in m && y < 512 * c
    ensures y < MAXFILE * 512 && ByteAt(Recorded(sb, m, i, n), n, y) == ByteAt(m, ns[i], y)
  {
    hide Owned, FreeBlocks, PutNode, Node.Fits, Addr;
    RecordKeeps(sb, m, ns, own, i, n);
    assert Addr(m, ns[i], SlotOf(y / 512)) != 0;
  }

  lemma RecordedSized(sb: Super, m: Flat, ns: Nodes, own: Owners, i: nat, n: Node)
    requires Owned(sb, m, ns, own, {}) && i in ns && sb.IsInode(i) && n.Fits() && n.addrs == ns[i].addrs
    requires n.size <= MAXFILE * 512 && Filled(m, ns[i], BlocksFor(n.size)) && sb.InodeBlock(i) in m
    ensures Sized(Recorded(sb, m, i, n), n)
  {
    hide Owned, FreeBlocks, PutNode, Node.Fits, Addr, SameData;
    RecordKeeps(sb, m, ns, own, i, n);
  }

  /** A write that makes the file longer, then inode_update. */
  lemma WrittenBeyond(sb: Super, m: Flat, ns: Nodes, m1: Flat, ns1: Nodes, own1: Owners, i: nat, off: nat,
                      src: seq<byte>, n: Node)
    requires Tidy(sb, m, ns) && Progress(sb, m, ns, m1, ns1, i, off, src, |src|) && off + |src| > ns[i].size
    requires (forall j :: j in ns ==> sb.IsInode(j)) && Owned(sb, m1, ns1, own1, {}) && n.Fits()
    requires ns1 == ns[i := ns1[i]] && ns1[i] == ns[i].(addrs := n.addrs) && n == ns1[i].(size := off + |src|)
    ensures sb.InodeBlock(i) in m1 && Written(sb, m, ns, Recorded(sb, m1, i, n), ns1[i := n], i, off, src)
  {
    hide Owned, FreeBlocks, PutNode, Node.Fits, ByteAt, Filled, NodeIn, Recorded;
    assert sb.InodeBlock(i) in m1;
    var (m2, ns2) := (Recorded(sb, m1, i, n), ns1[i := n]);
    RecordKeeps(sb, m1, ns1, own1, i, n);
    RecordedSized(sb, m1, ns1, own1, i, n);
    forall y | 0 <= y < n.size
      ensures ByteAt(m2, n, y) == if off <= y < off + |src| then src[y - off] else ByteAt(m, ns[i], y)
    {
      RecordedBytes(sb, m1, ns1, own1, i, n, Grown(ns[i].size, off + |src|), y);
    }
    OverwriteIs(m, ns[i], m2, n, off, src);
    forall j | j in ns
      ensures sb.InodeBlock(j) in m2 && NodeAt(sb, m2, j) == ns2[j]
      ensures j != i ==> Sized(m2, ns[j]) && Contents(m2, ns[j]) == Contents(m, ns[j])
    {
      BeyondOthers(sb, m, ns, m1, ns1, own1, i, n, j);
    }
  }

  lemma BeyondOthers(sb: Super, m: Flat, ns: Nodes, m1: Flat, ns1: Nodes, own1: Owners, i: nat, n: Node, j: nat)
    requires Tidy(sb, m, ns) && SameData(m, ns, m1, ns1, i, 0, MAXFILE) && SameHead(sb, m, m1) && j in ns && i in ns
    requires (forall j :: j in ns ==> sb.IsInode(j)) && Owned(sb, m1, ns1, own1, {}) && n.Fits()
    requires n.addrs == ns1[i].addrs && sb.InodeBlock(i) in m1
    ensures var m2 := Recorded(sb, m1, i, n);
            && sb.InodeBlock(j) in m2 && NodeAt(sb, m2, j) == (if j == i then n else ns[j])
            && (j != i ==> Sized(m2, ns[j]) && Contents(m2, ns[j]) == Contents(m, ns[j]))
  {
    hide Owned, FreeBlocks, PutNode, Node.Fits, ByteAt, NodeIn, Filled, Contents;
    RecordKeeps(sb, m1, ns1, own1, i, n);
    RecordedNode(sb, m1, i, n, j);
    if j != i {
      OthersSame(sb, m, ns, m1, ns1, i, j);
      OthersSameAgain(m1, ns1, Recorded(sb, m1, i, n), ns1[i := n], i, j);
    }
  }

  lemma OthersSameAgain(m: Flat, ns: Nodes, m': Flat, ns': Nodes, i: nat, j: nat)
    requires SameData(m, ns, m', ns', i, 0, 0) && j in ns && j != i && Sized(m, ns[j])
    ensures Sized(m', ns[j]) && Contents(m', ns[j]) == Contents(m, ns[j])
  {
    hide ByteAt, Contents;
    assert forall bn :: 0 <= bn < MAXFILE ==> Addr(m', ns[j], SlotOf(bn)) == Addr(m, ns[j], SlotOf(bn));
    SameContents(m, ns, m', ns', i, 0, 0, j);
  }

  lemma InFacts(fs: FileSystem)
    requires fs.In({})
    ensures Owned(fs.sb, fs.store.home, fs.nodes, fs.own, {}) && forall j :: j in fs.nodes ==> fs.sb.IsInode(j)
  {
  }

  const T_DEV: nat := 3

  /** Writing n bytes at off is possible: neither past the end of the file nor past the largest file. */
  predicate WriteFits(size: nat, off: nat, n: nat) { off <= size && off + n <= MAXFILE * 512 }

  /** There are blocks and log entries for the write; d are the other sectors the transaction logs. */
  ghost predicate Affordable(sb: Super, m: Flat, n: Node, off: nat, len: nat, secs: seq<nat>, d: set<nat>) {
    && |FreeBlocks(sb, m)| >= Need(BlocksFor(n.size), Grown(n.size, off + len))
    && |n.addrs| == NDIRECT + 1 && |d| + Touched(off, len) <= 6 && LogsOnly(secs, Meta(sb, n) + d)
  }

  /** inode_write. */
  method InodeWrite(fs: FileSystem, ip: Inode, src: seq<byte>, off: nat, ghost d: set<nat>) returns (r: int)
    requires fs.In({}) && fs.store.log.busy && fs.store.held == [] && fs.Open(ip) && ip.addrs != fs.store.log.sector
    requires Tidy(fs.sb, fs.store.home, fs.nodes) && ip.kind != T_DEV && off < U32 && |src| < U32
    requires WriteFits(ip.size, off, |src|) ==>
               Affordable(fs.sb, fs.store.home, ip.Value(), off, |src|, fs.store.logged, d)
    modifies fs`nodes, fs`own, ip`size, ip.addrs, fs.store`held, fs.store`keep
    modifies fs.store`home, fs.store`logged, fs.store.log`n, fs.store.log`pin, fs.store.log`ups, fs.store.log.sector
    modifies fs.store.log.cache, fs.store.log.cache.bufs, fs.store.log.cache.link
    ensures fs.In({}) && fs.store.held == [] && fs.Open(ip)
    ensures r == if WriteFits(old(ip.size), off, |src|) then |src| else -1
    ensures r == -1 ==> fs.store.home == old(fs.store.home) && fs.nodes == old(fs.nodes)
    ensures r == -1 ==> fs.store.logged == old(fs.store.logged)
    ensures r >= 0 ==> Written(fs.sb, old(fs.store.home), old(fs.nodes), fs.store.home, fs.nodes, ip.inum, off, src)
    ensures r >= 0 ==> |fs.store.logged| <= 3 + |d| + Touched(off, |src|)
  {
    hide Store.Valid, Owned, FreeBlocks, LogsOnly, Written, Tidy, Touched, FileSystem.In, Affordable;
    if off > ip.size || (off + |src|) % U32 < off {
      return -1;
    }
    if (off + |src|) % U32 > MAXFILE * 512 {
      return -1;
    }
    WriteAll(fs, ip, src, off, d);
    r := |src|;
  }

  /** inode_write once its checks have passed. */
  method WriteAll(fs: FileSystem, ip: Inode, src: seq<byte>, off: nat, ghost d: set<nat>)
    requires fs.In({}) && fs.store.log.busy && fs.store.held == [] && fs.Open(ip) && ip.addrs != fs.store.log.sector
    requires Tidy(fs.sb, fs.store.home, fs.nodes) && WriteFits(ip.size, off, |src|)
    requires Affordable(fs.sb, fs.store.home, ip.Value(), off, |src|, fs.store.logged, d)
    modifies fs`nodes, fs`own, ip`size, ip.addrs, fs.store`held, fs.store`keep
    modifies fs.store`home, fs.store`logged, fs.store.log`n, fs.store.log`pin, fs.store.log`ups, fs.store.log.sector
    modifies fs.store.log.cache, fs.store.log.cache.bufs, fs.store.log.cache.link
    ensures fs.In({}) && fs.store.held == [] && fs.Open(ip)
    ensures Written(fs.sb, old(fs.store.home), old(fs.nodes), fs.store.home, fs.nodes, ip.inum, off, src)
    ensures |fs.store.logged| <= 3 + |d| + Touched(off, |src|)
  {
    hide Store.Valid, Owned, SameData, FreeBlocks, Filled, LogsOnly, Progress, Written, Recorded, NodeIn, Touched,
         FileSystem.In;
    ghost var (m, ns, i, size) := (fs.store.home, fs.nodes, ip.inum, ip.size);
    ghost var e := WriteLoop(fs, ip, src, off, d);
    LogRoom(fs.sb, ip.Value(), e, fs.store.logged);
    ghost var (m1, ns1) := (fs.store.home, fs.nodes);
    InFacts(fs);
    if |src| > 0 && off + |src| > ip.size {
      ip.size := off + |src|;
      NodeFits(fs.sb, m1, ns1, fs.own, {}, i, ip.Value());
      WrittenBeyond(fs.sb, m, ns, m1, ns1, fs.own, i, off, src, ip.Value());
      InodeUpdate(fs, ip);
    } else {
      InsideSame(fs.sb, m, ns, m1, ns1, i, off, src);
      WrittenInside(fs.sb, m, ns, m1, i, off, src);
    }
  }

  lemma InsideSame(sb: Super, m: Flat, ns: Nodes, m': Flat, ns': Nodes, i: nat, off: nat, src: seq<byte>)
    requires Progress(sb, m, ns, m', ns', i, off, src, |src|) && (|src| == 0 || off + |src| <= ns[i].size)
    ensures ns' == ns && off + |src| <= ns[i].size
  {
  }

  /** One round of inode_read. */
  method ReadBlock(fs: FileSystem, ip: Inode, o: nat, k: nat) returns (x: seq<byte>)
    requires fs.In({}) && fs.store.held == [] && fs.Open(ip) && ip.addrs != fs.store.log.sector
    requires |fs.store.logged| < BufCache.NBUF
    requires Sized(fs.store.home, ip.Value()) && o < o + k <= ip.size && o % 512 + k <= 512
    modifies fs`nodes, fs`own, ip.addrs, fs.store`held, fs.store`keep
    modifies fs.store`home, fs.store`logged, fs.store.log`n, fs.store.log`pin, fs.store.log`ups, fs.store.log.sector
    modifies fs.store.log.cache, fs.store.log.cache.bufs, fs.store.log.cache.link
    ensures fs.In({}) && fs.store.held == [] && fs.Open(ip) && ip.addrs[..] == old(ip.addrs[..])
    ensures fs.store.home == old(fs.store.home) && fs.store.logged == old(fs.store.logged) && fs.nodes == old(fs.nodes)
    ensures x == Contents(fs.store.home, ip.Value())[o..o + k]
  {
    hide Store.Valid, Owned, SameData, FreeBlocks, Filled, LogsOnly, Extended, Contents;
    ghost var (m, ns, v, c) := (fs.store.home, fs.nodes, ip.Value(), BlocksFor(ip.size));
    var a := fs.BMap(ip, o / 512, c, {});
    ReadFacts(fs.sb, m, ns, fs.store.home, fs.nodes, fs.own, ip.inum, c, o / 512, a);
    var hb, y := fs.store.Hold(a);
    ReadChunk(m, v, o, k);
    x := y[o % 512..o % 512 + k];
    fs.store.Release(hb);
  }

  /** A read of n bytes at off returns r and dst: what the file has of them, or -1 past its end. */
  ghost predicate ReadIs(m: Flat, v: Node, off: nat, n: nat, r: int, dst: seq<byte>) {
    Sized(m, v) && if off > v.size || off + n >= U32 then r == -1 && dst == []
                   else r == Min(n, v.size - off) && dst == Contents(m, v)[off..off + r]
  }

  /** inode_read: exactly the bytes asked for that the file has, and nothing changes. */
  method InodeRead(fs: FileSystem, ip: Inode, off: nat, n: nat) returns (r: int, dst: seq<byte>)
    requires fs.In({}) && fs.store.held == [] && fs.Open(ip) && ip.addrs != fs.store.log.sector
    requires |fs.store.logged| < BufCache.NBUF
    requires Sized(fs.store.home, ip.Value()) && ip.kind != T_DEV && off < U32 && n < U32
    modifies fs`nodes, fs`own, ip.addrs, fs.store`held, fs.store`keep
    modifies fs.store`home, fs.store`logged, fs.store.log`n, fs.store.log`pin, fs.store.log`ups, fs.store.log.sector
    modifies fs.store.log.cache, fs.store.log.cache.bufs, fs.store.log.cache.link
    ensures fs.In({}) && fs.store.held == [] && fs.Open(ip) && ip.addrs[..] == old(ip.addrs[..])
    ensures fs.store.home == old(fs.store.home) && fs.store.logged == old(fs.store.logged) && fs.nodes == old(fs.nodes)
    ensures ReadIs(fs.store.home, ip.Value(), off, n, r, dst)
  {
    hide Store.Valid, Owned, SameData, FreeBlocks, Filled, LogsOnly, Extended, Contents, FileSystem.In, ByteAt;
    dst := [];
    if off > ip.size || (off + n) % U32 < off {
      return -1, [];
    }
    var cnt := n;
    if (off + n) % U32 > ip.size {
      cnt := ip.size - off;
    }
    dst := ReadLoop(fs, ip, off, cnt);
    r := cnt;
  }

  /** The copy loop of inode_read. */
  method ReadLoop(fs: FileSystem, ip: Inode, off: nat, cnt: nat) returns (dst: seq<byte>)
    requires fs.In({}) && fs.store.held == [] && fs.Open(ip) && ip.addrs != fs.store.log.sector
    requires |fs.store.logged| < BufCache.NBUF
    requires Sized(fs.store.home, ip.Value()) && off + cnt <= ip.size
    modifies fs`nodes, fs`own, ip.addrs, fs.store`held, fs.store`keep
    modifies fs.store`home, fs.store`logged, fs.store.log`n, fs.store.log`pin, fs.store.log`ups, fs.store.log.sector
    modifies fs.store.log.cache, fs.store.log.cache.bufs, fs.store.log.cache.link
    ensures fs.In({}) && fs.store.held == [] && fs.Open(ip) && ip.addrs[..] == old(ip.addrs[..])
    ensures fs.store.home == old(fs.store.home) && fs.store.logged == old(fs.store.logged) && fs.nodes == old(fs.nodes)
    ensures dst == Contents(fs.store.home, ip.Value())[off..off + cnt]
  {
    hide Store.Valid, Owned, SameData, FreeBlocks, Filled, LogsOnly, Extended, Contents, FileSystem.In, ByteAt;
    ghost var (m, ns, v) := (fs.store.home, fs.nodes, ip.Value());
    dst := [];
    var tot := 0;
    while tot < cnt
      invariant tot <= cnt
      invariant fs.In({}) && fs.store.held == [] && fs.Open(ip) && ip.Value() == v
      invariant fs.store.home == m && fs.nodes == ns && fs.store.logged == old(fs.store.logged)
      invariant dst == Contents(m, v)[off..off + tot]
    {
      var k := Min(cnt - tot, 512 - (off + tot) % 512);
      var x := ReadBlock(fs, ip, off + tot, k);
      dst := dst + x;
      tot := tot + k;
    }
  }

  lemma ReadFacts(sb: Super, m: Flat, ns: Nodes, m': Flat, ns': Nodes, own: Owners, i: nat, c: nat, bn: nat, a: nat)
    requires Extended(sb, m, ns, m', ns', i, c, bn, a) && bn < c && Owned(sb, m', ns', own, {})
    ensures m' == m && ns' == ns && i in ns && |ns[i].addrs| == NDIRECT + 1
    ensures a == Addr(m, ns[i], SlotOf(bn)) && a in own && a in m && a < U32
  {
    DataBlock(sb, m, ns, own, i, bn);
  }

  lemma ReadChunk(m: Flat, n: Node, o: nat, k: nat)
    requires |n.addrs| == NDIRECT + 1 && o < o + k <= n.size <= MAXFILE * 512 && o % 512 + k <= 512
    requires Addr(m, n, SlotOf(o / 512)) in m
    ensures o / 512 < MAXFILE && m[Addr(m, n, SlotOf(o / 512))][o % 512..o % 512 + k] == Contents(m, n)[o..o + k]
  {
    forall y | o <= y < o + k ensures Contents(m, n)[y] == m[Addr(m, n, SlotOf(o / 512))][o % 512 + (y - o)] {
      assert y / 512 == o / 512;
    }
  }
}
