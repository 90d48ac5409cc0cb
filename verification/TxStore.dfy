/** What file-system code uses: sectors read, changed and logged inside one transaction. */
module TxStore {
  import opened Common
  import opened Words
  import opened LogDisk
  import opened CacheSpec
  import Log
  import BufCache

  /**
   * The last transaction began with disk base, home area before and the sector writes past. Cut off anywhere, it
   * recovers to before or after, and none of its headers names more than n sectors.
   */
  ghost predicate Transacted(log: Log.TxLog, past: Trace, base: Flat, before: Flat, after: Flat, n: nat)
    reads log, log.cache
  {
    && past <= log.cache.trace && log.past == log.cache.trace && log.base == Replay(base, log.cache.trace[|past|..])
    && Log.CrashSafe(log.area, base, log.cache.trace[|past|..], before, after)
    && Log.HeadersWithin(log.area, log.cache.trace[|past|..], n)
  }

  lemma TransactedWithin(log: Log.TxLog, past: Trace, base: Flat, before: Flat, after: Flat, n: nat, n': nat)
    requires Transacted(log, past, base, before, after, n) && n <= n'
    ensures Transacted(log, past, base, before, after, n')
  {
    hide Log.CrashSafe;
    Log.HeadersFewer(log.area, log.cache.trace[|past|..], n, n');
  }

  /** logged is the transaction's header, home the home area as read, held the sectors with a buffer in use. */
  class Store {
    const log: Log.TxLog
    ghost var home: Flat
    ghost var logged: seq<nat>
    ghost var held: seq<nat>
    ghost var keep: seq<nat>

    ghost predicate Valid()
      reads this, log, log.cache, log.cache.bufs, log.cache.link, log.sector
    {
      && log.Valid() && log.cache.stale == {}
      && home == log.Home() && logged == log.sector[..log.n]
      && Log.BusyOnly(log.cache.bufs[..], keep) && |held| == |keep| && Distinct(held) && Distinct(keep)
      && (forall k :: 0 <= k < |keep| ==>
            Holds(log.cache.bufs[keep[k]], held[k]) && log.cache.bufs[keep[k]].valid && held[k] in home
            && log.cache.bufs[keep[k]].data == home[held[k]])
    }

    /** A store with no buffer in use. */
    constructor (log: Log.TxLog)
      requires log.Valid() && log.cache.stale == {} && Log.NoneBusy(log.cache.bufs[..])
      ensures Valid() && this.log == log && home == log.Home() && logged == log.sector[..log.n] && held == []
    {
      hide CacheSpec.View, BufCache.Linked, CacheSpec.Inv, Log.LogState, Decode, Log.Pins, Log.HomeOf;
      this.log := log;
      home, logged, held, keep := log.Home(), log.sector[..log.n], [], [];
    }

    /** Between transactions the disk holds what the file system sees, and recovery would find just that. */
    lemma AtRest()
      requires Valid() && log.ups == []
      ensures log.past == log.cache.trace && Log.CrashSafe(log.area, log.base, [], home, home)
    {
      Log.ViewInTransaction(log.area, log.base, log.cache.Abs(), log.cache.trace[|log.past|..], log.ups,
                            log.sector[..log.n], log.pin);
      assert |Meanings(log.area, log.cache.trace[|log.past|..])| == 0;
      Log.CommitCrashSafe(log.area, log.base, [], []);
    }

    /** begin_trans: the home area on disk is what the file system sees. */
    method Begin()
      requires Valid() && !log.busy && log.ups == []
      modifies log`busy
      ensures Valid() && log.busy && OnDisk(log.area, log.base) && Decode(log.area, log.base).home == home
    {
      hide CacheSpec.View, BufCache.Linked, CacheSpec.Inv, Decode, Log.Pins, Log.HomeOf;
      Log.ViewInTransaction(log.area, log.base, log.cache.Abs(), log.cache.trace[|log.past|..], log.ups,
                            log.sector[..log.n], log.pin);
      log.BeginTrans();
    }

    /**
     * commit_trans: nothing the file system sees changes and the log is empty again. A crash at any
     * sector write since the transaction began recovers to the home area before it or after it, and
     * no header it writes names more than the logged sectors.
     */
    method Commit()
      requires Valid() && log.busy && held == [] && |logged| < BufCache.NBUF
      modifies this`logged, log`n, log`busy, log`pin, log`base, log`past, log`ups, log.cache, log.cache.bufs
      modifies log.cache.link
      ensures Valid() && !log.busy && log.ups == [] && logged == [] && home == old(home)
      ensures OnDisk(log.area, old(log.base))
      ensures Transacted(log, old(log.past), old(log.base), Decode(log.area, old(log.base)).home, home, |old(logged)|)
    {
      hide Log.CrashSafe, Log.HeadersWithin;
      hide CacheSpec.View, BufCache.Linked, CacheSpec.Inv, Log.LogState, Decode, Log.Pins, Log.DirtyOnly,
           LogSpec.Updated, Replay, Log.HomeOf;
      log.CommitTrans();
      logged := [];
    }

    lemma InHome(s: nat)
      requires Valid() && s in home
      ensures s in log.cache.disk && !log.area.InLog(s) && log.L()[s] == home[s]
      ensures |logged| == log.n && Distinct(logged)
    {
      Log.LogFacts(log.area, log.base, log.cache.disk, log.cache.trace[|log.past|..], log.ups, log.sector[..log.n]);
    }

    method Read(s: nat) returns (x: Words.Block)
      requires Valid() && s in home && s !in held && |logged| + |held| < BufCache.NBUF
      modifies log.cache, log.cache.bufs, log.cache.link
      ensures Valid() && x == home[s]
    {
      hide CacheSpec.View, BufCache.Linked, CacheSpec.Inv, Log.LogState, Decode, Log.Pins, Log.HomeOf;
      InHome(s);
      x := log.Fetch(s, keep);
    }

    /** log_write of a changed sector. */
    method Write(s: nat, x: Words.Block)
      requires Valid() && log.busy && s in home && s < U32 && s !in held
      requires |logged| < LOGSIZE && |logged| + 1 < log.area.size && |logged| + |held| + 1 < BufCache.NBUF
      modifies this`home, this`logged, log`n, log`pin, log`ups, log.sector, log.cache, log.cache.bufs, log.cache.link
      ensures Valid() && home == old(home)[s := x] && logged == Log.Slotted(old(logged), s)
    {
      hide CacheSpec.View, BufCache.Linked, CacheSpec.Inv, Log.LogState, Decode, Log.Pins, Log.HomeOf;
      InHome(s);
      log.Rewrite(s, x, keep);
      home, logged := log.Home(), log.sector[..log.n];
    }

    /** bufcache_read without release. */
    method Hold(s: nat) returns (b: nat, x: Words.Block)
      requires Valid() && s in home && s !in held && |logged| + |held| < BufCache.NBUF
      modifies this`held, this`keep, log.cache, log.cache.bufs, log.cache.link
      ensures Valid() && x == home[s] && held == old(held) + [s] && keep == old(keep) + [b]
    {
      hide CacheSpec.View, BufCache.Linked, CacheSpec.Inv, Log.LogState, Decode, Log.Pins, Log.HomeOf;
      InHome(s);
      b := log.Acquire(s, keep);
      x := log.cache.bufs[b].data;
      held, keep := held + [s], keep + [b];
    }

    /** log_write of the sector held last. */
    method WriteHeld(b: nat, x: Words.Block)
      requires Valid() && log.busy && keep != [] && b == keep[|keep| - 1] && held[|held| - 1] < U32
      requires |logged| < LOGSIZE && |logged| + 1 < log.area.size && |logged| + |held| < BufCache.NBUF
      modifies this`home, this`logged, log`n, log`pin, log`ups, log.sector, log.cache, log.cache.bufs, log.cache.link
      ensures Valid() && home == old(home)[held[|held| - 1] := x]
      ensures logged == Log.Slotted(old(logged), held[|held| - 1])
    {
      hide CacheSpec.View, BufCache.Linked, CacheSpec.Inv, Log.LogState, Decode, Log.Pins, Log.HomeOf;
      InHome(held[|held| - 1]);
      log.Put(b, x, keep);
      home, logged := log.Home(), log.sector[..log.n];
    }

    /** bufcache_release of the sector held last. */
    method Release(b: nat)
      requires Valid() && keep != [] && b == keep[|keep| - 1]
      modifies this`held, this`keep, log.cache, log.cache.bufs, log.cache.link
      ensures Valid() && held == old(held)[..|old(held)| - 1] && keep == old(keep)[..|old(keep)| - 1]
    {
      hide CacheSpec.View, BufCache.Linked, CacheSpec.Inv, Log.LogState, Decode, Log.Pins, Log.HomeOf;
      assert keep == keep[..|keep| - 1] + [b];
      log.Drop(b, keep[..|keep| - 1]);
      held, keep := held[..|held| - 1], keep[..|keep| - 1];
    }
  }
}
