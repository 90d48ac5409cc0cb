/** file_write: a long write as a series of small transactions. */
module FileIo {
  import opened Words
  import opened Layout
  import opened FsSpec
  import opened Fs
  import opened Files
  import opened TxStore
  import LogSpec
  import LogDisk
  import Log
  import BufCache

  /** An open file. */
  class File {
    const ip: Inode
    const writable: bool
    var off: nat

    constructor (ip: Inode, writable: bool)
      ensures this.ip == ip && this.writable == writable && off == 0
    {
      this.ip, this.writable, off := ip, writable, 0;
    }
  }

  /** Between transactions, with the inode of f in memory. */
  ghost predicate Resting(fs: FileSystem, ip: Inode)
    reads fs, fs.store, fs.store.log, fs.store.log.cache, fs.store.log.cache.bufs, fs.store.log.cache.link
    reads fs.store.log.sector
    reads ip, ip.addrs
  {
    && fs.In({}) && fs.store.held == [] && !fs.store.log.busy && fs.store.log.ups == [] && fs.store.logged == []
    && fs.Open(ip) && ip.addrs != fs.store.log.sector && ip.kind != T_DEV && Tidy(fs.sb, fs.store.home, fs.nodes)
  }

  const CHUNK: nat := ((LogDisk.LOGSIZE - 1 - 1 - 2) / 2) * 512

  /** begin_trans, seen from the file system. */
  method Begin(fs: FileSystem)
    requires fs.In({}) && !fs.store.log.busy && fs.store.log.ups == []
    modifies fs.store.log`busy
    ensures fs.In({}) && fs.store.log.busy && LogDisk.OnDisk(fs.store.log.area, fs.store.log.base)
    ensures LogDisk.Decode(fs.store.log.area, fs.store.log.base).home == fs.store.home
  {
    hide Store.Valid, Owned, HasSuper, LogDisk.Decode;
    fs.store.Begin();
  }

  /** commit_trans, seen from the file system. */
  method Commit(fs: FileSystem)
    requires fs.In({}) && fs.store.log.busy && fs.store.held == [] && |fs.store.logged| < BufCache.NBUF
    modifies fs.store`logged, fs.store.log, fs.store.log.cache, fs.store.log.cache.bufs, fs.store.log.cache.link
    ensures fs.In({}) && !fs.store.log.busy && fs.store.log.ups == [] && fs.store.logged == []
    ensures fs.store.home == old(fs.store.home) && LogDisk.OnDisk(fs.store.log.area, old(fs.store.log.base))
    ensures var before := LogDisk.Decode(fs.store.log.area, old(fs.store.log.base)).home;
            Transacted(fs.store.log, old(fs.store.log.past), old(fs.store.log.base), before, fs.store.home,
                       |old(fs.store.logged)|)
  {
    hide Store.Valid, Owned, HasSuper, LogDisk.Decode, Transacted;
    fs.store.Commit();
  }

  /** One round of file_write: a transaction around one inode_write. */
  method WriteChunk(fs: FileSystem, f: File, x: seq<byte>) returns (r: int)
    requires Resting(fs, f.ip) && |x| <= CHUNK && f.off < U32
    requires WriteFits(f.ip.size, f.off, |x|) ==>
               |FreeBlocks(fs.sb, fs.store.home)| >= Need(BlocksFor(f.ip.size), Grown(f.ip.size, f.off + |x|))
    modifies f, fs`nodes, fs`own, f.ip`size, f.ip.addrs, fs.store`held, fs.store`keep, fs.store`home, fs.store`logged
    modifies fs.store.log, fs.store.log.sector, fs.store.log.cache, fs.store.log.cache.bufs, fs.store.log.cache.link
    ensures Resting(fs, f.ip) && r == if WriteFits(old(f.ip.size), old(f.off), |x|) then |x| else -1
    ensures r == -1 ==> fs.store.home == old(fs.store.home) && fs.nodes == old(fs.nodes) && f.off == old(f.off)
    ensures r >= 0 ==> f.off == old(f.off) + |x|
    ensures r >= 0 ==>
              Written(fs.sb, old(fs.store.home), old(fs.nodes), fs.store.home, fs.nodes, f.ip.inum, old(f.off), x)
    ensures Transacted(fs.store.log, old(fs.store.log.past), old(fs.store.log.base), old(fs.store.home), fs.store.home,
                       7)
  {
    hide FileSystem.In, Written, Tidy, FreeBlocks, Transacted, Touched, LogsOnly, LogDisk.Decode;
    Begin(fs);
    ghost var (base, past) := (fs.store.log.base, fs.store.log.past);
    ChunkAffordable(fs.sb, fs.store.home, f.ip.Value(), f.off, |x|);
    r := InodeWrite(fs, f.ip, x, f.off, {});
    if r > 0 {
      f.off := f.off + r;
    }
    if r >= 0 {
      WrittenTidy(fs.sb, old(fs.store.home), old(fs.nodes), fs.store.home, fs.nodes, f.ip.inum, old(f.off), x);
    }
    ghost var count := |fs.store.logged|;
    Commit(fs);
    TransactedWithin(fs.store.log, past, base, old(fs.store.home), fs.store.home, count, 7);
  }

  /** A chunk lies in at most four blocks. */
  lemma ChunkAffordable(sb: Super, m: Flat, n: Node, off: nat, len: nat)
    requires |n.addrs| == NDIRECT + 1 && len <= CHUNK
    requires WriteFits(n.size, off, len) ==> |FreeBlocks(sb, m)| >= Need(BlocksFor(n.size), Grown(n.size, off + len))
    ensures Touched(off, len) <= 4
    ensures WriteFits(n.size, off, len) ==> Affordable(sb, m, n, off, len, [], {})
  {
    hide FreeBlocks;
  }

  lemma WrittenTidy(sb: Super, m: Flat, ns: Nodes, m': Flat, ns': Nodes, i: nat, off: nat, x: seq<byte>)
    requires Written(sb, m, ns, m', ns', i, off, x)
    ensures Tidy(sb, m', ns') && i in ns && i in ns' && off <= ns[i].size <= MAXFILE * 512
    ensures ns'[i].size == Max(ns[i].size, off + |x|)
    ensures |FreeBlocks(sb, m')| == |FreeBlocks(sb, m)| - Need(BlocksFor(ns[i].size), BlocksFor(ns'[i].size))
  {
    hide FreeBlocks, Contents;
  }

  lemma OverwriteTwice(s: seq<byte>, off: nat, x: seq<byte>, y: seq<byte>)
    requires off <= |s|
    ensures off + |x| <= |Overwrite(s, off, x)|
    ensures Overwrite(Overwrite(s, off, x), off + |x|, y) == Overwrite(s, off, x + y)
  {
  }

  /** Two consecutive writes are one. */
  lemma WrittenTwice(sb: Super, m: Flat, ns: Nodes, m1: Flat, ns1: Nodes, m2: Flat, ns2: Nodes, i: nat, off: nat,
                     x: seq<byte>, y: seq<byte>)
    requires Written(sb, m, ns, m1, ns1, i, off, x) && Written(sb, m1, ns1, m2, ns2, i, off + |x|, y)
    ensures Written(sb, m, ns, m2, ns2, i, off, x + y)
  {
    hide FreeBlocks, Overwrite, Contents, Filled, NodeIn;
    assert |ns[i].addrs| == NDIRECT + 1 && ns[i].size <= MAXFILE * 512;
    OverwriteTwice(Contents(m, ns[i]), off, x, y);
  }

  /** There are free blocks for all of a write from off up to `end`, or up to the largest size of a file. */
  ghost predicate Enough(sb: Super, m: Flat, size: nat, off: nat, end: nat) {
    off <= size <= MAXFILE * 512 ==> |FreeBlocks(sb, m)| >= Need(BlocksFor(size), Grown(size, Min(end, MAXFILE * 512)))
  }

  lemma ChunkEnough(sb: Super, m: Flat, size: nat, off: nat, end: nat, k: nat)
    requires Enough(sb, m, size, off, end) && off + k <= end && WriteFits(size, off, k) && size <= MAXFILE * 512
    ensures |FreeBlocks(sb, m)| >= Need(BlocksFor(size), Grown(size, off + k))
  {
    hide FreeBlocks;
  }

  lemma EnoughLeft(sb: Super, m: Flat, ns: Nodes, m': Flat, ns': Nodes, i: nat, off: nat, x: seq<byte>, end: nat)
    requires Written(sb, m, ns, m', ns', i, off, x) && off + |x| <= end && Enough(sb, m, ns[i].size, off, end)
    ensures i in ns' && Enough(sb, m', ns'[i].size, off + |x|, end)
  {
    hide FreeBlocks, Written;
    WrittenTidy(sb, m, ns, m', ns', i, off, x);
  }

  /** The bytes of file j as a machine that boots from home area h finds them. */
  function FileBytes(sb: Super, h: Flat, j: nat): seq<byte> {
    if sb.InodeBlock(j) in h && NodeAt(sb, h, j).size <= MAXFILE * 512 then Contents(h, NodeAt(sb, h, j)) else []
  }

  lemma BytesAre(sb: Super, m: Flat, ns: Nodes, j: nat)
    requires Tidy(sb, m, ns) && j in ns
    ensures |ns[j].addrs| == NDIRECT + 1 && ns[j].size <= MAXFILE * 512 && FileBytes(sb, m, j) == Contents(m, ns[j])
  {
    hide Contents;
  }

  lemma SameBytes(sb: Super, m: Flat, ns: Nodes, m': Flat, ns': Nodes, i: nat, off: nat, x: seq<byte>)
    requires Written(sb, m, ns, m', ns', i, off, x)
    ensures forall j :: j in ns && j != i ==> FileBytes(sb, m', j) == FileBytes(sb, m, j)
    ensures off <= |FileBytes(sb, m, i)| && FileBytes(sb, m', i) == Overwrite(FileBytes(sb, m, i), off, x)
  {
    hide FreeBlocks, Contents, NodeAt, Overwrite, FileBytes;
    BytesAre(sb, m, ns, i);
    BytesAre(sb, m', ns', i);
    forall j | j in ns && j != i ensures FileBytes(sb, m', j) == FileBytes(sb, m, j) {
      BytesAre(sb, m, ns, j);
      BytesAre(sb, m', ns', j);
      assert SameFile(m, m', ns[j]);
    }
  }

  /** The first q chunks of src. */
  function FirstChunks(src: seq<byte>, q: nat): seq<byte> { src[..Min(q * CHUNK, |src|)] }

  /** s' is s, or s overwritten from off on with a whole number of chunks of src. */
  ghost predicate ChunksOf(s: seq<byte>, s': seq<byte>, off: nat, src: seq<byte>) {
    s' == s || (off <= |s| && exists q: nat :: s' == Overwrite(s, off, FirstChunks(src, q)))
  }

  /** Home area h is m with a whole number of chunks written to file i, and every other file as it was. */
  ghost predicate WholeChunks(sb: Super, m: Flat, ns: Nodes, h: Flat, i: nat, off: nat, src: seq<byte>) {
    && (forall j :: j in ns && j != i ==> FileBytes(sb, h, j) == FileBytes(sb, m, j))
    && ChunksOf(FileBytes(sb, m, i), FileBytes(sb, h, i), off, src)
  }

  /** So is the home area that recovery finds on disk e. */
  ghost predicate BootsToChunks(a: LogDisk.Area, e: Flat, sb: Super, m: Flat, ns: Nodes, i: nat, off: nat,
                                src: seq<byte>) {
    LogDisk.Bootable(a, e) && WholeChunks(sb, m, ns, LogSpec.Durable(LogDisk.Decode(a, e)), i, off, src)
  }

  /** Wherever the sector writes tr on base are cut off. */
  ghost predicate CutAnywhere(a: LogDisk.Area, base: Flat, tr: LogDisk.Trace,
                              sb: Super, m: Flat, ns: Nodes, i: nat, off: nat, src: seq<byte>) {
    forall k :: 0 <= k <= |tr| ==> BootsToChunks(a, LogDisk.Replay(base, tr[..k]), sb, m, ns, i, off, src)
  }

  lemma ChunksWritten(sb: Super, m: Flat, ns: Nodes, m': Flat, ns': Nodes, i: nat, off: nat, src: seq<byte>, q: nat)
    requires Written(sb, m, ns, m', ns', i, off, FirstChunks(src, q))
    ensures WholeChunks(sb, m, ns, m', i, off, src)
  {
    hide Written, FileBytes, Overwrite, FirstChunks;
    SameBytes(sb, m, ns, m', ns', i, off, FirstChunks(src, q));
  }

  /** One more transaction after a series of them. */
  lemma CutOneMore(a: LogDisk.Area, base: Flat, tr: LogDisk.Trace, tr1: LogDisk.Trace, m1: Flat, m2: Flat,
                   sb: Super, m: Flat, ns: Nodes, i: nat, off: nat, src: seq<byte>)
    requires CutAnywhere(a, base, tr, sb, m, ns, i, off, src) && Log.CrashSafe(a, LogDisk.Replay(base, tr), tr1, m1, m2)
    requires WholeChunks(sb, m, ns, m1, i, off, src) && WholeChunks(sb, m, ns, m2, i, off, src)
    ensures CutAnywhere(a, base, tr + tr1, sb, m, ns, i, off, src)
  {
    hide LogDisk.Replay, LogDisk.Bootable, LogDisk.Decode, WholeChunks, LogSpec.Durable;
    forall k | 0 <= k <= |tr + tr1|
      ensures BootsToChunks(a, LogDisk.Replay(base, (tr + tr1)[..k]), sb, m, ns, i, off, src)
    {
      if k <= |tr| {
        assert (tr + tr1)[..k] == tr[..k];
      } else {
        var l := k - |tr|;
        assert (tr + tr1)[..k] == tr + tr1[..l];
        Log.ReplayAppend(base, tr, tr1[..l]);
        assert Log.RecoversTo(a, LogDisk.Replay(LogDisk.Replay(base, tr), tr1[..l]), m1, m2);
      }
    }
  }

  /** Before the first chunk. */
  lemma CutNowhere(a: LogDisk.Area, base: Flat, sb: Super, m: Flat, ns: Nodes, i: nat, off: nat, src: seq<byte>)
    requires Log.CrashSafe(a, base, [], m, m)
    ensures CutAnywhere(a, base, [], sb, m, ns, i, off, src) && LogDisk.Replay(base, []) == base
  {
    hide LogDisk.Bootable, LogDisk.Decode, LogSpec.Durable, FileBytes;
    var none: LogDisk.Trace := [];
    assert none[..0] == none;
    assert Log.RecoversTo(a, LogDisk.Replay(base, none[..0]), m, m);
  }

  /** The first k bytes of src have been written. */
  ghost predicate Progress(sb: Super, m: Flat, ns: Nodes, m': Flat, ns': Nodes, i: nat, off: nat, src: seq<byte>,
                           k: nat) {
    k <= |src| && if k == 0 then m' == m && ns' == ns else Written(sb, m, ns, m', ns', i, off, src[..k])
  }

  /** The log between chunks: tr are the sector writes since the disk was `base` and its trace `past`. */
  ghost predicate Series(log: Log.TxLog, past: LogDisk.Trace, base: Flat, tr: LogDisk.Trace,
                         sb: Super, m: Flat, ns: Nodes, i: nat, off: nat, src: seq<byte>)
    reads log, log.cache
  {
    && log.past == log.cache.trace == past + tr && log.base == LogDisk.Replay(base, tr)
    && CutAnywhere(log.area, base, tr, sb, m, ns, i, off, src)
  }

  lemma SeriesStarts(fs: FileSystem, ip: Inode, off: nat, src: seq<byte>)
    requires Resting(fs, ip)
    ensures Series(fs.store.log, fs.store.log.past, fs.store.log.base, [], fs.sb, fs.store.home, fs.nodes, ip.inum,
                   off, src)
  {
    hide Store.Valid, Owned, Tidy, Log.CrashSafe, CutAnywhere, LogDisk.Replay;
    fs.store.AtRest();
    CutNowhere(fs.store.log.area, fs.store.log.base, fs.sb, fs.store.home, fs.nodes, ip.inum, off, src);
  }

  /**
   * file_write. The first `done` bytes are written, one chunk per transaction; all of them exactly
   * if the result is not -1, and otherwise the chunk that follows does not fit. A machine that crashes after
   * any sector write of the call, and boots, finds a whole number of chunks written and every other file as it was.
   */
  method FileWrite(fs: FileSystem, f: File, src: seq<byte>) returns (r: int, ghost done: nat)
    requires Resting(fs, f.ip) && f.off < U32 && Enough(fs.sb, fs.store.home, f.ip.size, f.off, f.off + |src|)
    modifies f, fs`nodes, fs`own, f.ip`size, f.ip.addrs, fs.store`held, fs.store`keep, fs.store`home, fs.store`logged
    modifies fs.store.log, fs.store.log.sector, fs.store.log.cache, fs.store.log.cache.bufs, fs.store.log.cache.link
    ensures Resting(fs, f.ip) && done <= |src| && f.off == old(f.off) + done
    ensures !f.writable ==> r == -1 && done == 0
    ensures f.writable ==> r == if done == |src| then |src| else -1
    ensures f.writable && done < |src| ==> !WriteFits(f.ip.size, f.off, Min(CHUNK, |src| - done))
    ensures Progress(fs.sb, old(fs.store.home), old(fs.nodes), fs.store.home, fs.nodes, f.ip.inum, old(f.off), src,
                     done)
    ensures old(fs.store.log.past) <= fs.store.log.cache.trace
    ensures CutAnywhere(fs.store.log.area, old(fs.store.log.base), fs.store.log.cache.trace[|old(fs.store.log.past)|..],
                        fs.sb, old(fs.store.home), old(fs.nodes), f.ip.inum, old(f.off), src)
  {
    hide Written, Tidy, FreeBlocks, Enough, FileSystem.In, CutAnywhere, LogDisk.Replay;
    done := 0;
    ghost var (m, ns, i, off) := (fs.store.home, fs.nodes, f.ip.inum, f.off);
    ghost var (log, base, past) := (fs.store.log, fs.store.log.base, fs.store.log.past);
    ghost var tr: LogDisk.Trace := [];
    SeriesStarts(fs, f.ip, off, src);
    assert log.cache.trace[|past|..] == tr;
    if !f.writable {
      return -1, 0;
    }
    var k := 0;
    while k < |src|
      invariant k <= |src| && k == done && Resting(fs, f.ip) && f.off == off + k < U32
      invariant Enough(fs.sb, fs.store.home, f.ip.size, f.off, off + |src|)
      invariant Progress(fs.sb, m, ns, fs.store.home, fs.nodes, i, off, src, k)
      invariant (k < |src| ==> k % CHUNK == 0) && Series(log, past, base, tr, fs.sb, m, ns, i, off, src)
    {
      var n1 := |src| - k;
      if n1 > CHUNK {
        n1 := CHUNK;
      }
      var q;
      q, tr := WriteNext(fs, f, src, k, n1, m, ns, off, past, base, tr);
      if q < 0 {
        break;
      }
      k, done := k + q, done + q;
    }
    r := if k == |src| then |src| else -1;
    assert log.cache.trace[|past|..] == tr;
  }

  method WriteNext(fs: FileSystem, f: File, src: seq<byte>, k: nat, n1: nat, ghost m: Flat, ghost ns: Nodes,
                   ghost off: nat, ghost past: LogDisk.Trace, ghost base: Flat, ghost tr: LogDisk.Trace)
    returns (q: int, ghost tr': LogDisk.Trace)
    requires Resting(fs, f.ip) && k < |src| && n1 == Min(CHUNK, |src| - k) && f.off == off + k < U32 && k % CHUNK == 0
    requires Enough(fs.sb, fs.store.home, f.ip.size, f.off, off + |src|)
    requires Progress(fs.sb, m, ns, fs.store.home, fs.nodes, f.ip.inum, off, src, k)
    requires Series(fs.store.log, past, base, tr, fs.sb, m, ns, f.ip.inum, off, src)
    modifies f, fs`nodes, fs`own, f.ip`size, f.ip.addrs, fs.store`held, fs.store`keep, fs.store`home, fs.store`logged
    modifies fs.store.log, fs.store.log.sector, fs.store.log.cache, fs.store.log.cache.bufs, fs.store.log.cache.link
    ensures Resting(fs, f.ip) && q == if WriteFits(old(f.ip.size), old(f.off), n1) then n1 else -1
    ensures q == -1 ==> fs.store.home == old(fs.store.home) && fs.nodes == old(fs.nodes) && f.off == old(f.off)
    ensures q != -1 ==> f.off == old(f.off) + n1 < U32 && Enough(fs.sb, fs.store.home, f.ip.size, f.off, off + |src|)
    ensures Progress(fs.sb, m, ns, fs.store.home, fs.nodes, f.ip.inum, off, src, if q == -1 then k else k + n1)
    ensures Series(fs.store.log, past, base, tr', fs.sb, m, ns, f.ip.inum, off, src)
  {
    hide Written, Tidy, FreeBlocks, Log.CrashSafe, Enough, FileSystem.In, Log.HeadersWithin, CutAnywhere, WholeChunks,
         LogDisk.Replay, Progress;
    ghost var (m1, ns1, i, size) := (fs.store.home, fs.nodes, f.ip.inum, f.ip.size);
    ghost var was := fs.store.log.past;
    TidySize(fs.sb, m1, ns1, i);
    if WriteFits(size, f.off, n1) { ChunkEnough(fs.sb, m1, size, f.off, off + |src|, n1); }
    q := WriteChunk(fs, f, src[k..k + n1]);
    if q >= 0 {
      EnoughLeft(fs.sb, m1, ns1, fs.store.home, fs.nodes, i, off + k, src[k..k + n1], off + |src|);
      ProgressOn(fs.sb, m, ns, m1, ns1, fs.store.home, fs.nodes, i, off, src, k, n1);
    }
    ghost var tr1 := fs.store.log.cache.trace[|was|..];
    tr' := tr + tr1;
    StillWhole(fs.sb, m, ns, m1, ns1, i, off, src, k);
    StillWhole(fs.sb, m, ns, fs.store.home, fs.nodes, i, off, src, if q < 0 then k else k + n1);
    CutOneMore(fs.store.log.area, base, tr, tr1, m1, fs.store.home, fs.sb, m, ns, i, off, src);
    Log.ReplayAppend(base, tr, tr1);
  }

  lemma ProgressOn(sb: Super, m: Flat, ns: Nodes, m1: Flat, ns1: Nodes, m2: Flat, ns2: Nodes, i: nat, off: nat,
                   src: seq<byte>, k: nat, n: nat)
    requires Progress(sb, m, ns, m1, ns1, i, off, src, k) && k < k + n <= |src|
    requires Written(sb, m1, ns1, m2, ns2, i, off + k, src[k..k + n])
    ensures Progress(sb, m, ns, m2, ns2, i, off, src, k + n)
  {
    hide Written;
    assert src[..k] + src[k..k + n] == src[..k + n];
    if k > 0 { WrittenTwice(sb, m, ns, m1, ns1, m2, ns2, i, off, src[..k], src[k..k + n]); }
  }

  lemma StillWhole(sb: Super, m: Flat, ns: Nodes, m': Flat, ns': Nodes, i: nat, off: nat, src: seq<byte>, k: nat)
    requires Progress(sb, m, ns, m', ns', i, off, src, k) && (k % CHUNK == 0 || k == |src|)
    ensures WholeChunks(sb, m, ns, m', i, off, src)
  {
    hide Written, FileBytes, Overwrite;
    if k > 0 {
      var q := (k + CHUNK - 1) / CHUNK;
      assert FirstChunks(src, q) == src[..k];
      ChunksWritten(sb, m, ns, m', ns', i, off, src, q);
    }
  }

  lemma TidySize(sb: Super, m: Flat, ns: Nodes, i: nat)
    requires Tidy(sb, m, ns) && i in ns
    ensures ns[i].size <= MAXFILE * 512
  {
  }

  /**
   * End to end: if the sector writes of a chunk are cut off anywhere, the files found after recovery are
   * as before the chunk or as after it: one file overwritten as a whole or not at all, the others untouched.
   */
  lemma CrashLeavesFilesWhole(a: LogDisk.Area, base: Flat, tr: LogDisk.Trace, k: nat,
                              sb: Super, m: Flat, ns: Nodes, m': Flat, ns': Nodes, i: nat, off: nat, x: seq<byte>)
    requires Log.CrashSafe(a, base, tr, m, m') && k <= |tr| && Written(sb, m, ns, m', ns', i, off, x)
    ensures LogDisk.OnDisk(a, LogDisk.Replay(base, tr[..k]))
    ensures LogSpec.Formatted(LogDisk.Decode(a, LogDisk.Replay(base, tr[..k])))
    ensures var h := LogSpec.Durable(LogDisk.Decode(a, LogDisk.Replay(base, tr[..k])));
            && (forall j :: j in ns && j != i ==> FileBytes(sb, h, j) == FileBytes(sb, m, j))
            && off <= |FileBytes(sb, m, i)|
            && (|| FileBytes(sb, h, i) == FileBytes(sb, m, i)
                || FileBytes(sb, h, i) == Overwrite(FileBytes(sb, m, i), off, x))
  {
    hide LogDisk.Replay, LogDisk.Decode, FreeBlocks, Contents, NodeAt, Overwrite;
    assert Log.RecoversTo(a, LogDisk.Replay(base, tr[..k]), m, m');
    SameBytes(sb, m, ns, m', ns', i, off, x);
  }

  /**
   * The whole way: a machine that crashed after k sector writes of file_write, and whose next boots were cut off
   * too, finds a whole number of chunks in the file and every other file as it was.
   */
  method BootFindsChunks(a: LogDisk.Area, base: Flat, tr: LogDisk.Trace, k: nat, zero: Words.Block, ks: seq<nat>,
                         ghost sb: Super, ghost m: Flat, ghost ns: Nodes, ghost i: nat, ghost off: nat,
                         ghost src: seq<byte>)
    returns (log: Log.TxLog)
    requires CutAnywhere(a, base, tr, sb, m, ns, i, off, src) && k <= |tr|
    ensures log.Valid() && !log.busy && log.n == 0 && WholeChunks(sb, m, ns, log.Home(), i, off, src)
  {
    hide WholeChunks, LogDisk.Replay, LogDisk.Decode, LogDisk.Bootable, LogSpec.Durable, Log.LogState, Log.Pins,
         Log.HomeOf;
    assert BootsToChunks(a, LogDisk.Replay(base, tr[..k]), sb, m, ns, i, off, src);
    log := Log.BootAfterCrashes(a, LogDisk.Replay(base, tr[..k]), zero, ks);
  }
}
