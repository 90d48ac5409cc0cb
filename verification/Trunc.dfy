/** inode_trunc: it frees exactly the blocks its inode owns. */
module Trunc {
  import opened Words
  import opened Layout
  import opened FsSpec
  import opened Fs
  import opened Files
  import opened TxStore
  import Log
  import LogSpec

  /** Blocks that slots lo .. hi of inode i point to. */
  function OwnedIn(own: Owners, i: nat, lo: nat, hi: nat): set<nat> {
    set b | b in own && own[b].i == i && lo <= own[b].k < hi
  }

  /** Only the bitmap block differs. */
  ghost predicate OnlyBits(sb: Super, m: Flat, m': Flat) {
    m'.Keys == m.Keys && forall s :: s in m && s != sb.BitBlock() ==> m'[s] == m[s]
  }

  /** Freeing one block. */
  lemma FreedOne(sb: Super, m: Flat, nodes: Nodes, own: Owners, limbo: set<nat>, b: nat)
    requires Owned(sb, m, nodes, own, limbo) && b in limbo
    ensures var m' := m[sb.BitBlock() := Mark(m[sb.BitBlock()], b, false)];
            FreeBlocks(sb, m') == FreeBlocks(sb, m) + {b} && OnlyBits(sb, m, m')
  {
    var m' := m[sb.BitBlock() := Mark(m[sb.BitBlock()], b, false)];
    forall c | sb.DataStart() <= c < sb.LogStart() ensures InUse(sb, m', c) <==> c != b && InUse(sb, m, c) { }
  }

  lemma DirectOne(sb: Super, m: Flat, nodes: Nodes, own: Owners, i: nat, k: nat)
    requires Owned(sb, m, nodes, own, {}) && i in nodes && k < NDIRECT
    ensures |nodes[i].addrs| == NDIRECT + 1
    ensures OwnedIn(own, i, k, k + 1) == if nodes[i].addrs[k] == 0 then {} else {nodes[i].addrs[k]}
  {
    assert Addr(m, nodes[i], k) == nodes[i].addrs[k];
    forall b | b in own && own[b] == Slot(i, k) ensures b == nodes[i].addrs[k] && b != 0 { }
  }

  /** One round of the first loop of inode_trunc. */
  method FreeDirect(fs: FileSystem, ip: Inode, k: nat)
    requires fs.In({}) && fs.store.log.busy && fs.store.held == [] && fs.Open(ip) && ip.addrs != fs.store.log.sector
    requires k < NDIRECT && |fs.store.logged| <= 7
    modifies fs`nodes, fs`own, ip.addrs
    modifies fs.store`held, fs.store`keep, fs.store`home, fs.store`logged, fs.store.log`n, fs.store.log`pin
    modifies fs.store.log`ups, fs.store.log.sector
    modifies fs.store.log.cache, fs.store.log.cache.bufs, fs.store.log.cache.link
    ensures fs.store.held == []
    ensures fs.In({}) && fs.Open(ip) && fs.nodes == old(fs.nodes)[ip.inum := ip.Value()]
    ensures ip.addrs[..] == old(ip.addrs[..])[k := 0]
    ensures fs.own == old(fs.own) - OwnedIn(old(fs.own), ip.inum, k, k + 1)
    ensures FreeBlocks(fs.sb, fs.store.home) ==
              old(FreeBlocks(fs.sb, fs.store.home)) + OwnedIn(old(fs.own), ip.inum, k, k + 1)
    ensures OnlyBits(fs.sb, old(fs.store.home), fs.store.home)
    ensures || fs.store.logged == old(fs.store.logged)
            || fs.store.logged == Log.Slotted(old(fs.store.logged), fs.sb.BitBlock())
  {
    hide Store.Valid, Owned, FreeBlocks, OwnedIn, Log.Slotted, Mark;
    ghost var (m, ns, i) := (fs.store.home, fs.nodes, ip.inum);
    DirectOne(fs.sb, m, ns, fs.own, i, k);
    var b := ip.addrs[k];
    if b != 0 {
      UnplaceKeeps(fs.sb, m, ns, fs.own, {}, i, k);
      assert {} + {b} == {b};
      fs.nodes, fs.own := ns[i := SetAddr(ns[i], k, 0)], fs.own - {b};
      FreedOne(fs.sb, m, fs.nodes, fs.own, {b}, b);
      fs.BlockFree(b, {b});
      assert {b} - {b} == {};
      ip.addrs[k] := 0;
      assert ip.Value() == SetAddr(ns[i], k, 0);
    } else {
      assert ip.addrs[..][k := 0] == ip.addrs[..];
    }
  }

  lemma OwnedStep(own: Owners, i: nat, lo: nat, mid: nat, hi: nat)
    requires lo <= mid <= hi
    ensures OwnedIn(own, i, lo, mid) + OwnedIn(own, i, mid, hi) == OwnedIn(own, i, lo, hi)
    ensures OwnedIn(own - OwnedIn(own, i, lo, mid), i, mid, hi) == OwnedIn(own, i, mid, hi)
    ensures own - OwnedIn(own, i, lo, mid) - OwnedIn(own, i, mid, hi) == own - OwnedIn(own, i, lo, hi)
  {
  }

  lemma SlottedTwice(secs: seq<nat>, s: nat)
    ensures Log.Slotted(Log.Slotted(secs, s), s) == Log.Slotted(secs, s)
  {
    var t := Log.Slotted(secs, s);
    assert exists j :: 0 <= j < |t| && t[j] == s by {
      if LogSpec.IndexOf(secs, s) < |secs| { assert t[LogSpec.IndexOf(secs, s)] == s; } else { assert t[|secs|] == s; }
    }
  }

  /** What freeing the blocks of slots lo .. hi of inode i does. */
  ghost predicate Freed(sb: Super, m: Flat, own: Owners, secs: seq<nat>, m': Flat, own': Owners, secs': seq<nat>,
                        i: nat, lo: nat, hi: nat) {
    && OnlyBits(sb, m, m') && own' == own - OwnedIn(own, i, lo, hi)
    && FreeBlocks(sb, m') == FreeBlocks(sb, m) + OwnedIn(own, i, lo, hi)
    && (secs' == secs || secs' == Log.Slotted(secs, sb.BitBlock()))
  }

  lemma FreedMore(sb: Super, m: Flat, own: Owners, secs: seq<nat>, m1: Flat, own1: Owners, secs1: seq<nat>,
                  m2: Flat, own2: Owners, secs2: seq<nat>, i: nat, mid: nat, hi: nat)
    requires Freed(sb, m, own, secs, m1, own1, secs1, i, 0, mid)
    requires Freed(sb, m1, own1, secs1, m2, own2, secs2, i, mid, hi) && mid <= hi
    ensures Freed(sb, m, own, secs, m2, own2, secs2, i, 0, hi)
  {
    hide FreeBlocks, OwnedIn, Log.Slotted;
    OwnedStep(own, i, 0, mid, hi);
    SlottedTwice(secs, sb.BitBlock());
  }

  /** The first loop of inode_trunc. */
  method FreeDirects(fs: FileSystem, ip: Inode)
    requires fs.In({}) && fs.store.log.busy && fs.store.held == [] && fs.Open(ip) && ip.addrs != fs.store.log.sector
    requires |fs.store.logged| <= 6
    modifies fs`nodes, fs`own, ip.addrs
    modifies fs.store`held, fs.store`keep, fs.store`home, fs.store`logged, fs.store.log`n, fs.store.log`pin
    modifies fs.store.log`ups, fs.store.log.sector
    modifies fs.store.log.cache, fs.store.log.cache.bufs, fs.store.log.cache.link
    ensures fs.store.held == []
    ensures fs.In({}) && fs.Open(ip) && fs.nodes == old(fs.nodes)[ip.inum := ip.Value()]
    ensures (forall l :: 0 <= l < NDIRECT ==> ip.addrs[l] == 0) && ip.addrs[NDIRECT] == old(ip.addrs[NDIRECT])
    ensures Freed(fs.sb, old(fs.store.home), old(fs.own), old(fs.store.logged), fs.store.home, fs.own, fs.store.logged,
                  ip.inum, 0, NDIRECT)
  {
    hide Store.Valid, Owned, FreeBlocks, OwnedIn, Log.Slotted, FileSystem.In, Freed;
    ghost var (m, ns, own, secs, i) := (fs.store.home, fs.nodes, fs.own, fs.store.logged, ip.inum);
    FreedNone(fs.sb, m, own, secs, i, 0);
    var k := 0;
    while k < NDIRECT
      invariant k <= NDIRECT && fs.store.held == [] && fs.In({}) && fs.Open(ip) && fs.nodes == ns[i := ip.Value()]
      invariant forall l :: 0 <= l <= NDIRECT ==> ip.addrs[l] == if l < k then 0 else old(ip.addrs[l])
      invariant Freed(fs.sb, m, own, secs, fs.store.home, fs.own, fs.store.logged, i, 0, k)
    {
      ghost var (m1, own1, secs1) := (fs.store.home, fs.own, fs.store.logged);
      FreedRoom(fs.sb, m, own, secs, m1, own1, secs1, i, 0, k);
      FreeDirect(fs, ip, k);
      FreedIs(fs.sb, m1, own1, secs1, fs.store.home, fs.own, fs.store.logged, i, k, k + 1);
      FreedMore(fs.sb, m, own, secs, m1, own1, secs1, fs.store.home, fs.own, fs.store.logged, i, k, k + 1);
      k := k + 1;
    }
  }

  lemma FreedNone(sb: Super, m: Flat, own: Owners, secs: seq<nat>, i: nat, k: nat)
    ensures Freed(sb, m, own, secs, m, own, secs, i, k, k)
  {
    assert own - {} == own;
  }

  lemma FreedIs(sb: Super, m: Flat, own: Owners, secs: seq<nat>, m': Flat, own': Owners, secs': seq<nat>, i: nat,
                lo: nat, hi: nat)
    requires OnlyBits(sb, m, m') && own' == own - OwnedIn(own, i, lo, hi)
    requires FreeBlocks(sb, m') == FreeBlocks(sb, m) + OwnedIn(own, i, lo, hi)
    requires secs' == secs || secs' == Log.Slotted(secs, sb.BitBlock())
    ensures Freed(sb, m, own, secs, m', own', secs', i, lo, hi)
  {
  }

  lemma FreedRoom(sb: Super, m: Flat, own: Owners, secs: seq<nat>, m': Flat, own': Owners, secs': seq<nat>, i: nat,
                  lo: nat, hi: nat)
    requires Freed(sb, m, own, secs, m', own', secs', i, lo, hi)
    ensures |secs'| <= |secs| + 1
  {
    SlottedTwice(secs, sb.BitBlock());
  }

  // ---- the indirect block ----------------------------------------------------------------

  /** The nonzero entries among the first n of the indirect block x. */
  function Entries(x: Block, n: nat): set<nat>
    requires n <= NINDIRECT
  {
    set j | 0 <= j < n && LoadU32(x, 4 * j) != 0 :: LoadU32(x, 4 * j)
  }

  /** The nonzero entries of x are distinct members of g other than a. */
  ghost predicate EntriesIn(x: Block, a: nat, g: set<nat>) {
    && a in g
    && (forall j :: 0 <= j < NINDIRECT && LoadU32(x, 4 * j) != 0 ==> LoadU32(x, 4 * j) in g && LoadU32(x, 4 * j) != a)
    && (forall j, l :: 0 <= j < l < NINDIRECT && LoadU32(x, 4 * j) != 0 ==> LoadU32(x, 4 * j) != LoadU32(x, 4 * l))
  }

  lemma DetachedEntries(sb: Super, m: Flat, nodes: Nodes, own: Owners, i: nat)
    requires Owned(sb, m, nodes, own, {}) && i in nodes && |nodes[i].addrs| == NDIRECT + 1
    requires nodes[i].addrs[NDIRECT] != 0
    ensures var a := nodes[i].addrs[NDIRECT];
            && a in own && a in m && EntriesIn(m[a], a, Indirect(own, i))
            && Indirect(own, i) - Entries(m[a], NINDIRECT) == {a}
  {
    var a := nodes[i].addrs[NDIRECT];
    IndirectOwned(sb, m, nodes, own, i);
    forall j | 0 <= j < NINDIRECT && LoadU32(m[a], 4 * j) != 0
      ensures LoadU32(m[a], 4 * j) in own && own[LoadU32(m[a], 4 * j)] == Slot(i, NDIRECT + 1 + j)
    {
      assert Addr(m, nodes[i], NDIRECT + 1 + j) == LoadU32(m[a], 4 * j);
    }
    assert own[a] == Slot(i, NDIRECT) by { assert Addr(m, nodes[i], NDIRECT) == a; }
    forall b | b in Indirect(own, i) && b != a ensures b in Entries(m[a], NINDIRECT) {
      IndirectIs(sb, m, nodes, own, {}, i, b);
    }
  }

  /** The second loop of inode_trunc, with the indirect block a held. */
  method FreeEntries(fs: FileSystem, a: nat, x: Block, ghost g: set<nat>)
    requires fs.In(g) && fs.store.log.busy && fs.store.held == [a] && |fs.store.logged| <= 7 && EntriesIn(x, a, g)
    requires |Log.Slotted(fs.store.logged, fs.sb.BitBlock())| <= 7
    modifies fs.store`held, fs.store`keep, fs.store`home, fs.store`logged, fs.store.log`n, fs.store.log`pin
    modifies fs.store.log`ups, fs.store.log.sector
    modifies fs.store.log.cache, fs.store.log.cache.bufs, fs.store.log.cache.link
    ensures fs.store.held == [a] && fs.store.keep == old(fs.store.keep)
    ensures fs.In(g - Entries(x, NINDIRECT)) && OnlyBits(fs.sb, old(fs.store.home), fs.store.home)
    ensures FreeBlocks(fs.sb, fs.store.home) == old(FreeBlocks(fs.sb, fs.store.home)) + Entries(x, NINDIRECT)
    ensures || fs.store.logged == old(fs.store.logged)
            || fs.store.logged == Log.Slotted(old(fs.store.logged), fs.sb.BitBlock())
  {
    hide Store.Valid, Owned, FreeBlocks, Log.Slotted, Mark, FileSystem.In, LoadU32, Entries, EntriesIn;
    ghost var (m, secs) := (fs.store.home, fs.store.logged);
    SlottedTwice(secs, fs.sb.BitBlock());
    NoEntries(x, g);
    var j := 0;
    while j < NINDIRECT
      invariant j <= NINDIRECT && fs.store.held == [a] && fs.store.keep == old(fs.store.keep)
      invariant fs.In(g - Entries(x, j)) && OnlyBits(fs.sb, m, fs.store.home)
      invariant FreeBlocks(fs.sb, fs.store.home) == FreeBlocks(fs.sb, m) + Entries(x, j)
      invariant fs.store.logged == secs || fs.store.logged == Log.Slotted(secs, fs.sb.BitBlock())
    {
      EntryStep(x, a, g, j);
      if LoadU32(x, 4 * j) != 0 {
        ghost var m1 := fs.store.home;
        FreedHere(fs, g - Entries(x, j), LoadU32(x, 4 * j));
        fs.BlockFree(LoadU32(x, 4 * j), g - Entries(x, j));
      }
      j := j + 1;
    }
  }

  lemma NoEntries(x: Block, g: set<nat>)
    ensures Entries(x, 0) == {} && g - Entries(x, 0) == g
  {
  }

  lemma EntryStep(x: Block, a: nat, g: set<nat>, j: nat)
    requires EntriesIn(x, a, g) && j < NINDIRECT
    ensures var e := LoadU32(x, 4 * j);
            if e == 0 then Entries(x, j + 1) == Entries(x, j)
            else e in g - Entries(x, j) && e != a && Entries(x, j + 1) == Entries(x, j) + {e}
                 && g - Entries(x, j + 1) == g - Entries(x, j) - {e}
  {
  }

  lemma FreedHere(fs: FileSystem, limbo: set<nat>, b: nat)
    requires fs.In(limbo) && b in limbo
    ensures fs.sb.BitBlock() in fs.store.home && fs.sb.BitBlock() < BPB && b < BPB
    ensures var m := fs.store.home; var m' := m[fs.sb.BitBlock() := Mark(m[fs.sb.BitBlock()], b, false)];
            FreeBlocks(fs.sb, m') == FreeBlocks(fs.sb, m) + {b} && OnlyBits(fs.sb, m, m')
  {
    FreedOne(fs.sb, fs.store.home, fs.nodes, fs.own, limbo, b);
  }

  lemma IndirectSlots(sb: Super, m: Flat, nodes: Nodes, own: Owners, i: nat)
    requires Owned(sb, m, nodes, own, {}) && i in nodes && |nodes[i].addrs| == NDIRECT + 1
    ensures OwnedIn(own, i, NDIRECT, NSLOTS) == if nodes[i].addrs[NDIRECT] == 0 then {} else Indirect(own, i)
  {
    forall b | b in own && own[b].i == i && own[b].k >= NDIRECT ensures nodes[i].addrs[NDIRECT] != 0 {
      assert Addr(m, nodes[i], own[b].k) == b;
    }
  }

  /** The rest of inode_trunc's freeing. */
  method FreeIndirect(fs: FileSystem, ip: Inode)
    requires fs.In({}) && fs.store.log.busy && fs.store.held == [] && fs.Open(ip) && ip.addrs != fs.store.log.sector
    requires |Log.Slotted(fs.store.logged, fs.sb.BitBlock())| <= 7
    modifies fs`nodes, fs`own, ip.addrs, fs.store`held, fs.store`keep
    modifies fs.store`home, fs.store`logged, fs.store.log`n, fs.store.log`pin, fs.store.log`ups, fs.store.log.sector
    modifies fs.store.log.cache, fs.store.log.cache.bufs, fs.store.log.cache.link
    ensures fs.In({}) && fs.store.held == [] && fs.Open(ip) && fs.nodes == old(fs.nodes)[ip.inum := ip.Value()]
    ensures ip.addrs[..] == old(ip.addrs[..])[NDIRECT := 0]
    ensures Freed(fs.sb, old(fs.store.home), old(fs.own), old(fs.store.logged), fs.store.home, fs.own, fs.store.logged,
                  ip.inum, NDIRECT, NSLOTS)
  {
    hide Store.Valid, Owned, FreeBlocks, OwnedIn, Log.Slotted, Mark, Freed, LoadU32, Entries, EntriesIn, Indirect,
         HasSuper;
    ghost var (m, ns, own, secs, i) := (fs.store.home, fs.nodes, fs.own, fs.store.logged, ip.inum);
    IndirectSlots(fs.sb, m, ns, own, i);
    SlottedTwice(secs, fs.sb.BitBlock());
    var a := ip.addrs[NDIRECT];
    if a != 0 {
      FreeAttached(fs, ip, a);
    } else {
      assert ip.addrs[..][NDIRECT := 0] == ip.addrs[..];
      assert own - {} == own;
    }
    FreedIs(fs.sb, m, own, secs, fs.store.home, fs.own, fs.store.logged, i, NDIRECT, NSLOTS);
  }

  /** As FreeIndirect, for an inode that has the indirect block a. */
  method FreeAttached(fs: FileSystem, ip: Inode, a: nat)
    requires fs.In({}) && fs.store.log.busy && fs.store.held == [] && fs.Open(ip) && ip.addrs != fs.store.log.sector
    requires a == ip.addrs[NDIRECT] != 0 && |Log.Slotted(fs.store.logged, fs.sb.BitBlock())| <= 7
    modifies fs`nodes, fs`own, ip.addrs, fs.store`held, fs.store`keep
    modifies fs.store`home, fs.store`logged, fs.store.log`n, fs.store.log`pin, fs.store.log`ups, fs.store.log.sector
    modifies fs.store.log.cache, fs.store.log.cache.bufs, fs.store.log.cache.link
    ensures fs.In({}) && fs.store.held == [] && fs.Open(ip) && fs.nodes == old(fs.nodes)[ip.inum := ip.Value()]
    ensures ip.addrs[..] == old(ip.addrs[..])[NDIRECT := 0] && fs.own == old(fs.own) - Indirect(old(fs.own), ip.inum)
    ensures FreeBlocks(fs.sb, fs.store.home) == old(FreeBlocks(fs.sb, fs.store.home)) + Indirect(old(fs.own), ip.inum)
    ensures OnlyBits(fs.sb, old(fs.store.home), fs.store.home)
    ensures fs.store.logged == Log.Slotted(old(fs.store.logged), fs.sb.BitBlock())
  {
    hide Store.Valid, Owned, FreeBlocks, Log.Slotted, Mark, LoadU32, Entries, EntriesIn, Indirect, HasSuper;
    ghost var (m, ns, own, secs, i) := (fs.store.home, fs.nodes, fs.own, fs.store.logged, ip.inum);
    SlottedTwice(secs, fs.sb.BitBlock());
    ghost var g := Indirect(own, i);
    DetachedEntries(fs.sb, m, ns, own, i);
    DetachKeeps(fs.sb, m, ns, own, {}, i);
    assert {} + g == g;
    fs.nodes, fs.own := ns[i := SetAddr(ns[i], NDIRECT, 0)], own - g;
    FreeDetached(fs, a, g);
    ip.addrs[NDIRECT] := 0;
    assert ip.Value() == SetAddr(ns[i], NDIRECT, 0);
  }

  /** Free the blocks g, which are the indirect block a and all it points to. */
  method FreeDetached(fs: FileSystem, a: nat, ghost g: set<nat>)
    requires fs.In(g) && fs.store.log.busy && fs.store.held == []
    requires |Log.Slotted(fs.store.logged, fs.sb.BitBlock())| <= 7
    requires a in fs.store.home && EntriesIn(fs.store.home[a], a, g) && g - Entries(fs.store.home[a], NINDIRECT) == {a}
    modifies fs.store`held, fs.store`keep
    modifies fs.store`home, fs.store`logged, fs.store.log`n, fs.store.log`pin, fs.store.log`ups, fs.store.log.sector
    modifies fs.store.log.cache, fs.store.log.cache.bufs, fs.store.log.cache.link
    ensures fs.In({}) && fs.store.held == [] && OnlyBits(fs.sb, old(fs.store.home), fs.store.home)
    ensures FreeBlocks(fs.sb, fs.store.home) == old(FreeBlocks(fs.sb, fs.store.home)) + g
    ensures fs.store.logged == Log.Slotted(old(fs.store.logged), fs.sb.BitBlock())
  {
    hide Store.Valid, Owned, FreeBlocks, Log.Slotted, Mark, LoadU32, Entries, EntriesIn, HasSuper, OnlyBits;
    ghost var (sb, m) := (fs.sb, fs.store.home);
    SlottedTwice(fs.store.logged, sb.BitBlock());
    var hb, x := fs.store.Hold(a);
    AllEntries(x, a, g);
    FreeEntries(fs, a, x, g);
    fs.store.Release(hb);
    FreedHere(fs, {a}, a);
    ghost var m1 := fs.store.home;
    fs.BlockFree(a, {a});
    OnlyBitsTwice(sb, m, m1, fs.store.home);
    assert {a} - {a} == {};
    FreedBoth(FreeBlocks(sb, m), Entries(x, NINDIRECT), a, g);
  }

  lemma OnlyBitsTwice(sb: Super, m: Flat, m1: Flat, m2: Flat)
    requires OnlyBits(sb, m, m1) && OnlyBits(sb, m1, m2)
    ensures OnlyBits(sb, m, m2)
  {
  }

  lemma FreedBoth(free: set<nat>, es: set<nat>, a: nat, g: set<nat>)
    requires g == es + {a}
    ensures free + es + {a} == free + g
  {
  }

  lemma AllEntries(x: Block, a: nat, g: set<nat>)
    requires EntriesIn(x, a, g) && g - Entries(x, NINDIRECT) == {a}
    ensures g == Entries(x, NINDIRECT) + {a} && a in g
  {
    forall b ensures b in g <==> b in Entries(x, NINDIRECT) || b == a {
      assert b in g - Entries(x, NINDIRECT) <==> b == a;
    }
  }

  /** inode_trunc. */
  method InodeTrunc(fs: FileSystem, ip: Inode)
    requires fs.In({}) && fs.store.log.busy && fs.store.held == [] && fs.Open(ip) && ip.addrs != fs.store.log.sector
    requires |fs.store.logged| <= 6 && Tidy(fs.sb, fs.store.home, fs.nodes)
    modifies fs`nodes, fs`own, ip`size, ip.addrs, fs.store`held, fs.store`keep
    modifies fs.store`home, fs.store`logged, fs.store.log`n, fs.store.log`pin, fs.store.log`ups, fs.store.log.sector
    modifies fs.store.log.cache, fs.store.log.cache.bufs, fs.store.log.cache.link
    ensures fs.In({}) && fs.store.held == [] && fs.Open(ip)
    ensures Truncated(fs.sb, old(fs.store.home), old(fs.nodes), old(fs.own), fs.store.home, fs.nodes, fs.own, ip.inum)
    ensures |fs.store.logged| <= |old(fs.store.logged)| + 2
  {
    hide Store.Valid, Owned, FreeBlocks, OwnedIn, Log.Slotted, Freed, Recorded, FileSystem.In, Truncated, Sized, NodeIn;
    ghost var (m, ns, own, secs, i) := (fs.store.home, fs.nodes, fs.own, fs.store.logged, ip.inum);
    ghost var bb := fs.sb.BitBlock();
    SlottedTwice(secs, bb);
    InFacts(fs);
    FreeDirects(fs, ip);
    ghost var (m1, own1, secs1) := (fs.store.home, fs.own, fs.store.logged);
    FreedLogs(fs.sb, m, own, secs, m1, own1, secs1, i, 0, NDIRECT);
    FreeIndirect(fs, ip);
    ghost var (m2, own2, secs2) := (fs.store.home, fs.own, fs.store.logged);
    FreedMore(fs.sb, m, own, secs, m1, own1, secs1, m2, own2, secs2, i, NDIRECT, NSLOTS);
    FreedLogs(fs.sb, m, own, secs, m2, own2, secs2, i, 0, NSLOTS);
    InFacts(fs);
    ip.size := 0;
    assert ip.addrs[..] == NoBlocks();
    NodeFits(fs.sb, m2, fs.nodes, fs.own, {}, i, ip.Value());
    TruncatedIs(fs.sb, m, ns, own, m2, fs.nodes, own2, secs, secs2, i, ip.Value());
    SlottedTwice(secs2, fs.sb.InodeBlock(i));
    InodeUpdate(fs, ip);
  }

  lemma FreedLogs(sb: Super, m: Flat, own: Owners, secs: seq<nat>, m': Flat, own': Owners, secs': seq<nat>, i: nat,
                  lo: nat, hi: nat)
    requires Freed(sb, m, own, secs, m', own', secs', i, lo, hi)
    ensures |secs'| <= |secs| + 1 && |Log.Slotted(secs', sb.BitBlock())| <= |secs| + 1
  {
    hide Log.Slotted;
    SlottedTwice(secs, sb.BitBlock());
  }

  function NoBlocks(): (s: seq<nat>)
    ensures |s| == NDIRECT + 1 && forall l :: 0 <= l <= NDIRECT ==> s[l] == 0
  {
    seq(NDIRECT + 1, _ => 0)
  }

  /** Truncation: the file is empty, exactly its blocks became free, and no other file changed. */
  ghost predicate Truncated(sb: Super, m: Flat, ns: Nodes, own: Owners, m': Flat, ns': Nodes, own': Owners, i: nat) {
    && i in ns && Tidy(sb, m, ns) && Tidy(sb, m', ns') && ns'.Keys == ns.Keys
    && ns'[i] == ns[i].(size := 0, addrs := NoBlocks())
    && own' == own - OwnedIn(own, i, 0, NSLOTS) && FreeBlocks(sb, m') == FreeBlocks(sb, m) + OwnedIn(own, i, 0, NSLOTS)
    && (forall j :: j in ns && j != i ==> ns'[j] == ns[j] && SameFile(m, m', ns[j]))
  }

  lemma TruncatedIs(sb: Super, m: Flat, ns: Nodes, own: Owners, m2: Flat, ns2: Nodes, own2: Owners, secs: seq<nat>,
                    secs2: seq<nat>, i: nat, n: Node)
    requires Owned(sb, m, ns, own, {}) && Owned(sb, m2, ns2, own2, {}) && Tidy(sb, m, ns) && i in ns && i in ns2
    requires ns2 == ns[i := ns2[i]]
    requires Freed(sb, m, own, secs, m2, own2, secs2, i, 0, NSLOTS) && forall j :: j in ns ==> sb.IsInode(j)
    requires n.Fits() && n == ns[i].(size := 0, addrs := NoBlocks()) && ns2[i].addrs == NoBlocks()
    ensures sb.InodeBlock(i) in m2
    ensures Truncated(sb, m, ns, own, Recorded(sb, m2, i, n), ns2[i := n], own2, i)
  {
    hide FreeBlocks, OwnedIn, Owned, PutNode, Recorded, NodeIn, Filled, NoBlocks, Sized, SameData, SameFile;
    RecordKeeps(sb, m2, ns2, own2, i, n);
    var (m', ns') := (Recorded(sb, m2, i, n), ns2[i := n]);
    EmptyFile(m', n);
    forall j | j in ns
      ensures sb.InodeBlock(j) in m' && NodeAt(sb, m', j) == ns'[j]
      ensures j != i ==> Sized(m', ns[j]) && SameFile(m, m', ns[j])
    {
      TruncatedOther(sb, m, ns, own, m2, ns2, own2, i, n, j);
    }
  }

  lemma EmptyFile(m: Flat, n: Node)
    requires n.addrs == NoBlocks() && n.size == 0
    ensures Sized(m, n)
  {
  }

  lemma TruncatedOther(sb: Super, m: Flat, ns: Nodes, own: Owners, m2: Flat, ns2: Nodes, own2: Owners, i: nat, n: Node,
                       j: nat)
    requires Owned(sb, m, ns, own, {}) && Owned(sb, m2, ns2, own2, {}) && Tidy(sb, m, ns) && i in ns && i in ns2
    requires ns2 == ns[i := ns2[i]]
    requires OnlyBits(sb, m, m2) && j in ns && (forall j :: j in ns ==> sb.IsInode(j)) && n.Fits() && i in ns2
    requires ns2[i].addrs == n.addrs
    ensures sb.InodeBlock(i) in m2 && sb.InodeBlock(j) in m2
    ensures var m' := Recorded(sb, m2, i, n);
            && sb.InodeBlock(j) in m' && NodeAt(sb, m', j) == (if j == i then n else ns[j])
            && (j != i ==> Sized(m', ns[j]) && SameFile(m, m', ns[j]))
  {
    hide FreeBlocks, PutNode, NodeIn;
    RecordedNode(sb, m2, i, n, j);
    if j != i {
      KeptOther(sb, m, ns, own, m2, j);
      RecordKeeps(sb, m2, ns2, own2, i, n);
      OthersSameAgain(m2, ns2, Recorded(sb, m2, i, n), ns2[i := n], i, j);
    }
  }

  /** A file none of whose blocks changed. */
  lemma KeptOther(sb: Super, m: Flat, ns: Nodes, own: Owners, m': Flat, j: nat)
    requires Owned(sb, m, ns, own, {}) && OnlyBits(sb, m, m') && j in ns && Sized(m, ns[j])
    ensures Sized(m', ns[j]) && Contents(m', ns[j]) == Contents(m, ns[j])
  {
    forall k | 0 <= k < NSLOTS ensures Addr(m', ns[j], k) == Addr(m, ns[j], k) {
      AddrSame(sb, m, ns, own, {}, m', j, k);
    }
    forall y | 0 <= y < ns[j].size ensures ByteAt(m', ns[j], y) == ByteAt(m, ns[j], y) {
      assert Addr(m, ns[j], SlotOf(y / 512)) in own;
    }
  }
}
