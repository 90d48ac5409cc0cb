/** The transaction log over the buffer cache. */
module Log {
  import opened Common
  import opened Words
  import opened LogSpec
  import opened LogDisk
  import opened CacheSpec
  import BufCache

  type Buffer = CacheSpec.Buf<Words.Block>

  /** Buffer pin[i] keeps the new content of logged sector i in memory until it is installed. */
  predicate Pins(bufs: seq<Buffer>, stale: set<nat>, pin: seq<nat>, secs: seq<nat>, slots: seq<Words.Block>) {
    && |pin| == |secs| <= |slots|
    && (forall i :: 0 <= i < |pin| ==>
          && pin[i] < |bufs| && Holds(bufs[pin[i]], secs[i]) && bufs[pin[i]].dirty
          && (pin[i] !in stale ==> bufs[pin[i]].data == slots[i]))
    && (forall b :: 0 <= b < |bufs| && bufs[b].dirty ==> b in pin)
  }

  predicate Unique(x: seq<Buffer>) {
    forall c, d :: 0 <= c < d < |x| && x[c].dev == ROOTDEV && x[d].dev == ROOTDEV ==> x[c].sector != x[d].sector
  }

  lemma InvFacts(c: Cache<Words.Block>, stale: set<nat>)
    requires Inv(c, stale)
    ensures Unique(c.bufs)
    ensures forall b :: 0 <= b < |c.bufs| && c.bufs[b].dev == ROOTDEV ==> c.bufs[b].sector in c.disk
  {
    forall b | 0 <= b < |c.bufs| && c.bufs[b].dev == ROOTDEV
      ensures c.bufs[b].sector in c.disk
    {
      assert BufOk(c, stale, b);
    }
  }

  /** Logging a pinned buffer again replaces its log block. */
  lemma PinAgain(x: seq<Buffer>, stale: set<nat>, pin: seq<nat>, secs: seq<nat>, slots: seq<Words.Block>,
                 y: seq<Buffer>, b: nat, i: nat)
    requires Pins(x, stale, pin, secs, slots) && KeepsPinned(x, y) && Unique(x) && Distinct(secs)
    requires b < |x| && x[b].busy && x[b].dev == ROOTDEV && i < |secs| && secs[i] == x[b].sector
    ensures Pins(y[b := y[b].(dirty := true)], stale - {b}, pin, secs, slots[i := x[b].data])
  {
    assert pin[i] == b;
    var z := y[b := y[b].(dirty := true)];
    forall k | 0 <= k < |pin|
      ensures pin[k] < |z| && Holds(z[pin[k]], secs[k]) && z[pin[k]].dirty
      ensures pin[k] !in stale - {b} ==> z[pin[k]].data == slots[i := x[b].data][k]
    {
      assert y[pin[k]] == x[pin[k]];
    }
  }

  /** Logging another held buffer pins it under a new log block. */
  lemma PinNew(x: seq<Buffer>, stale: set<nat>, pin: seq<nat>, secs: seq<nat>, slots: seq<Words.Block>, y: seq<Buffer>,
               b: nat)
    requires Pins(x, stale, pin, secs, slots) && KeepsPinned(x, y) && |secs| < |slots|
    requires b < |x| && x[b].busy && x[b].dev == ROOTDEV && x[b].sector !in secs
    ensures Pins(y[b := y[b].(dirty := true)], stale - {b}, pin + [b], secs + [x[b].sector], slots[|secs| := x[b].data])
  {
    var z := y[b := y[b].(dirty := true)];
    forall k | 0 <= k < |pin|
      ensures pin[k] != b && z[pin[k]] == x[pin[k]]
    {
      assert x[pin[k]].sector == secs[k];
    }
  }

  /** Either way, log_write pins its buffer. */
  lemma PinOne(x: seq<Buffer>, stale: set<nat>, pin: seq<nat>, secs: seq<nat>, slots: seq<Words.Block>, y: seq<Buffer>,
               b: nat, i: nat)
    requires Pins(x, stale, pin, secs, slots) && KeepsPinned(x, y) && Unique(x) && Distinct(secs)
    requires b < |x| && x[b].busy && x[b].dev == ROOTDEV && i == IndexOf(secs, x[b].sector) < |slots|
    ensures Pins(y[b := y[b].(dirty := true)], stale - {b}, if i < |secs| then pin else pin + [b],
                 Slotted(secs, x[b].sector), slots[i := x[b].data])
  {
    if i < |secs| { PinAgain(x, stale, pin, secs, slots, y, b, i); } else { PinNew(x, stale, pin, secs, slots, y, b); }
  }

  /**
   * The sector writes tr since the transaction began, on disk `base`, are exactly the log blocks
   * of its log_write calls ups; secs is the in-memory header.
   */
  predicate LogState(a: Area, base: Flat, disk: Flat, tr: Trace, ups: Updates, secs: seq<nat>) {
    && OnDisk(a, base) && HeadOf(base[a.start]) == []
    && Loggable(Decode(a, base), ups) && Logged(ups) == secs
    && disk.Keys == base.Keys && disk == Replay(base, tr)
    && (forall i :: 0 <= i < |tr| ==> tr[i].0 in base)
    && (forall i :: 0 <= i < |secs| ==> secs[i] < U32)
    && Meanings(a, tr) == LogWrites(ups)
  }

  lemma LogFacts(a: Area, base: Flat, disk: Flat, tr: Trace, ups: Updates, secs: seq<nat>)
    requires LogState(a, base, disk, tr, ups, secs)
    ensures OnDisk(a, disk) && |Decode(a, disk).slots| == a.size - 1
    ensures Distinct(secs) && (forall i :: 0 <= i < |secs| ==> secs[i] < U32 && secs[i] in disk && !a.InLog(secs[i]))
  {
    LoggedInHome(Decode(a, base), ups);
    forall i | 0 <= i < |secs| ensures secs[i] in Decode(a, base).home { assert secs[i] in Logged(ups); }
  }

  function Slotted(secs: seq<nat>, s: nat): (r: seq<nat>)
    ensures |secs| <= |r| <= |secs| + 1
  {
    if IndexOf(secs, s) < |secs| then secs else secs + [s]
  }

  lemma LogOneCall(d: LogSpec.Disk<Words.Block>, ups: Updates, u: Update<Words.Block>)
    requires Loggable(d, ups) && |Logged(ups)| < |d.slots| && u.sector in d.home
    ensures Loggable(d, ups + [u]) && Logged(ups + [u]) == Slotted(Logged(ups), u.sector)
    ensures LogWrites(ups + [u]) == LogWrites(ups) + [Slot(IndexOf(Logged(ups), u.sector), u.data)]
  {
    assert (ups + [u])[..|ups|] == ups;
  }

  lemma LogOne(a: Area, base: Flat, disk: Flat, tr: Trace, ups: Updates, secs: seq<nat>,
               u: Update<Words.Block>, at: nat)
    requires LogState(a, base, disk, tr, ups, secs) && |secs| + 1 < a.size
    requires u.sector in disk && u.sector < U32 && !a.InLog(u.sector) && at == a.start + 1 + IndexOf(secs, u.sector)
    ensures at in disk
    ensures LogState(a, base, disk[at := u.data], tr + [(at, u.data)], ups + [u], Slotted(secs, u.sector))
    ensures Decode(a, disk[at := u.data]) ==
              Decode(a, disk).(slots := Decode(a, disk).slots[IndexOf(secs, u.sector) := u.data])
  {
    hide HeadOf, Loggable, Logged, LogWrites, IndexOf, Slotted, Decode, Meanings, Replay;
    InHome(a, base, u.sector);
    LogOneCall(Decode(a, base), ups, u);
    SlotWritten(a, disk, IndexOf(secs, u.sector), u.data);
    MeaningsSlot(a, tr, IndexOf(secs, u.sector), u.data);
    SlottedBound(secs, u.sector);
    ReplayLast(base, tr, (at, u.data));
  }

  lemma InHome(a: Area, d: Flat, s: nat)
    requires OnDisk(a, d) && s in d && !a.InLog(s)
    ensures s in Decode(a, d).home && |Decode(a, d).slots| == a.size - 1
  {
  }

  lemma MeaningsSlot(a: Area, tr: Trace, i: nat, x: Words.Block)
    requires i + 1 < a.size
    ensures Meanings(a, tr + [(a.start + 1 + i, x)]) == Meanings(a, tr) + [Slot(i, x)]
  {
  }

  lemma SlottedBound(secs: seq<nat>, s: nat)
    requires s < U32 && forall i :: 0 <= i < |secs| ==> secs[i] < U32
    ensures forall i :: 0 <= i < |Slotted(secs, s)| ==> Slotted(secs, s)[i] < U32
  {
  }

  lemma SlotWritten(a: Area, disk: Flat, i: nat, x: Words.Block)
    requires OnDisk(a, disk) && i + 1 < a.size
    ensures a.start + 1 + i in disk && OnDisk(a, disk[a.start + 1 + i := x])
    ensures Decode(a, disk[a.start + 1 + i := x]) == Decode(a, disk).(slots := Decode(a, disk).slots[i := x])
  {
    DecodeWrite(a, disk, a.start + 1 + i, x);
  }

  /** Buffers in use or waiting to be installed are as they were, and no others have become so. */
  predicate KeepsPinned(x: seq<Buffer>, y: seq<Buffer>) {
    && |x| == |y|
    && forall b :: 0 <= b < |x| ==>
         if x[b].busy || x[b].dirty then y[b] == x[b] else !y[b].busy && !y[b].dirty
  }

  /** Nobody holds on to log sectors. */
  predicate LogFree(a: Area, bufs: seq<Buffer>) {
    forall b :: 0 <= b < |bufs| && bufs[b].dev == ROOTDEV && a.InLog(bufs[b].sector) ==> Evictable(bufs[b])
  }

  lemma MarkFrame(a: Area, x: seq<Buffer>, y: seq<Buffer>, b: nat)
    requires KeepsPinned(x, y) && LogFree(a, x) && b < |x| && x[b].busy && !a.InLog(x[b].sector)
    ensures y[b] == x[b]
    ensures var z := y[b := x[b].(dirty := true)]; LogFree(a, z) && KeepsPinned(x, z[b := x[b]])
  {
  }

  predicate HasRoom(bufs: seq<Buffer>) {
    exists b :: 0 <= b < |bufs| && Evictable(bufs[b])
  }

  predicate Untouched(bufs: seq<Buffer>, s: nat) {
    forall b :: 0 <= b < |bufs| && Holds(bufs[b], s) ==> Evictable(bufs[b])
  }

  predicate NoneBusy(bufs: seq<Buffer>) { forall b :: 0 <= b < |bufs| ==> !bufs[b].busy }

  /** Only listed buffers are dirty, and each listed one holds the sector listed with it. */
  predicate DirtyOnly(bufs: seq<Buffer>, pins: seq<nat>, secs: seq<nat>) {
    && (pins == [] || |pins| == |secs|)
    && (forall b :: 0 <= b < |bufs| && bufs[b].dirty ==> b in pins)
    && (forall i :: 0 <= i < |pins| ==> pins[i] < |bufs| && Holds(bufs[pins[i]], secs[i]) && bufs[pins[i]].dirty)
  }

  /** A list shorter than n misses a number below n. */
  lemma {:induction false} Pigeonhole(q: seq<nat>, n: nat) returns (b: nat)
    requires |q| < n
    ensures b < n && b !in q
  {
    if n - 1 in q {
      var k :| 0 <= k < |q| && q[k] == n - 1;
      b := Pigeonhole(q[..k] + q[k + 1..], n - 1);
      assert q == q[..k] + [q[k]] + q[k + 1..];
    } else {
      b := n - 1;
    }
  }

  lemma RoomToInstall(bufs: seq<Buffer>, pins: seq<nat>, secs: seq<nat>)
    requires DirtyOnly(bufs, pins, secs) && NoneBusy(bufs) && |pins| < |bufs|
    ensures HasRoom(bufs)
  {
    var b := Pigeonhole(pins, |bufs|);
    assert Evictable(bufs[b]);
  }

  /** A sector nobody is changing reads as it is on disk. */
  lemma ViewOfClean(c: Cache<Words.Block>, stale: set<nat>, s: nat)
    requires Inv(c, stale) && s in c.disk
    requires forall b :: 0 <= b < |c.bufs| && Holds(c.bufs[b], s) ==> !c.bufs[b].dirty && b !in stale
    ensures View(c)[s] == c.disk[s]
  {
    if b :| 0 <= b < |c.bufs| && Holds(c.bufs[b], s) {
      ViewHeld(c, stale, b);
      assert BufOk(c, stale, b);
    } else {
      ViewMissing(c, s);
    }
  }

  /** With the log block's buffer l in use there is still a buffer for the home sector. */
  lemma RoomForHome(x: seq<Buffer>, l: nat, z: seq<Buffer>, pins: seq<nat>, secs: seq<nat>)
    requires DirtyOnly(x, pins, secs) && NoneBusy(x) && secs != [] && |x| == BufCache.NBUF && l < |x| == |z|
    requires z == x[l := z[l]] && !x[l].dirty && !Holds(z[l], secs[0])
    ensures forall b :: 0 <= b < |z| && Holds(z[b], secs[0]) ==> !z[b].busy
    ensures exists b :: 0 <= b < |z| && (Holds(z[b], secs[0]) || Evictable(z[b]))
  {
    if pins == [] {
      var b := if l == 0 then 1 else 0;
      assert Evictable(z[b]);
    } else {
      assert Holds(z[pins[0]], secs[0]);
    }
  }

  lemma InstalledOne(x: seq<Buffer>, pins: seq<nat>, secs: seq<nat>, y: seq<Buffer>, l: nat, d: nat)
    requires DirtyOnly(x, pins, secs) && (pins != [] ==> Distinct(secs)) && secs != []
    requires |y| == |x| && Unique(y) && l < |x| && d < |x| && l != d
    requires forall b :: 0 <= b < |x| && b != l && b != d ==> y[b] == x[b]
    requires !x[l].dirty && !y[l].dirty && !y[d].dirty && Holds(y[d], secs[0])
    ensures DirtyOnly(y, if pins == [] then [] else pins[1..], secs[1..])
  {
    if pins != [] {
      assert Holds(x[pins[0]], secs[0]);
      assert pins[0] == d;
      forall i | 0 <= i < |pins[1..]| ensures pins[1..][i] != d { assert Holds(x[pins[i + 1]], secs[i + 1]); }
    }
  }

  lemma InstalledFree(a: Area, x: seq<Buffer>, y: seq<Buffer>, l: nat, d: nat)
    requires NoneBusy(x) && LogFree(a, x) && |y| == |x| && l < |x| && d < |x| && Evictable(y[l]) && Evictable(y[d])
    requires forall b :: 0 <= b < |x| && b != l && b != d ==> y[b] == x[b]
    ensures NoneBusy(y) && LogFree(a, y)
  {
  }

  lemma NoneLeft(bufs: seq<Buffer>, pins: seq<nat>, secs: seq<nat>)
    requires DirtyOnly(bufs, pins, secs) && secs == []
    ensures DirtyOnly(bufs, [], [])
  {
  }

  /** The first k sector writes of install_trans. */
  function Copies(a: Area, d: Flat, secs: seq<nat>, k: nat): (ws: Trace)
    requires OnDisk(a, d) && k <= |secs| < a.size
    ensures |ws| == k
  {
    seq(k, i requires 0 <= i < k => (secs[i], d[a.start + 1 + i]))
  }

  lemma CopyNone(a: Area, d: Flat, secs: seq<nat>)
    requires OnDisk(a, d) && |secs| < a.size
    ensures Copies(a, d, secs, 0) == [] && Replay(d, Copies(a, d, secs, 0)) == d
  {
  }

  lemma HeadIsHome(a: Area, d: Flat)
    requires OnDisk(a, d) && Formatted(Decode(a, d))
    ensures forall i :: 0 <= i < |HeadOf(d[a.start])| ==> HeadOf(d[a.start])[i] in d && !a.InLog(HeadOf(d[a.start])[i])
  {
    var h := Decode(a, d).head;
    forall i | 0 <= i < |h| ensures h[i] in d && !a.InLog(h[i]) { assert h[i] in Decode(a, d).home; }
  }

  lemma CopyOne(a: Area, d: Flat, secs: seq<nat>, k: nat)
    requires OnDisk(a, d) && k < |secs| < a.size
    ensures Copies(a, d, secs, k + 1) == Copies(a, d, secs, k) + [(secs[k], d[a.start + 1 + k])]
    ensures Replay(d, Copies(a, d, secs, k + 1)) == Replay(d, Copies(a, d, secs, k))[secs[k] := d[a.start + 1 + k]]
  {
    assert Copies(a, d, secs, k + 1)[..k] == Copies(a, d, secs, k);
  }

  // ---- what the traces mean -----------------------------------------------------------

  lemma MeaningsAppend(a: Area, x: Trace, y: Trace)
    ensures Meanings(a, x + y) == Meanings(a, x) + Meanings(a, y)
  {
  }

  lemma {:induction false} ReplayAppend(d: Flat, x: Trace, y: Trace)
    ensures Replay(d, x + y) == Replay(Replay(d, x), y)
  {
    if y == [] {
      assert x + y == x;
    } else {
      ReplayAppend(d, x, y[..|y| - 1]);
      assert (x + y)[..|x + y| - 1] == x + y[..|y| - 1];
    }
  }

  /** Installing, then clearing the header, is what recovery writes. */
  lemma InstallMeans(a: Area, d: Flat, h: Words.Block)
    requires OnDisk(a, d) && Formatted(Decode(a, d)) && HeadOf(h) == []
    ensures var secs := HeadOf(d[a.start]);
            Meanings(a, Copies(a, d, secs, |secs|) + [(a.start, h)]) == RecoverWrites(Decode(a, d))
  {
    HeadIsHome(a, d);
    hide HeadOf, Formatted;
    var secs := HeadOf(d[a.start]);
    var c := Decode(a, d);
    assert |secs| <= |c.slots|;
    forall i | 0 <= i < |secs|
      ensures Meaning(a, secs[i], d[a.start + 1 + i]) == LogSpec.Block(c.head[i], c.slots[i])
    {
    }
  }

  /**
   * Write-ahead discipline: while a transaction is open the header on disk stays empty, no home
   * sector on disk changes, and the log blocks hold the newest content of the logged sectors.
   */
  lemma WriteAhead(a: Area, base: Flat, disk: Flat, tr: Trace, ups: Updates, secs: seq<nat>)
    requires LogState(a, base, disk, tr, ups, secs)
    ensures OnDisk(a, disk) && HeadOf(disk[a.start]) == [] && Decode(a, disk).home == Decode(a, base).home
    ensures Decode(a, disk).(head := secs) == CommitPoint(Decode(a, base), ups)
    ensures forall i :: 0 <= i < |secs| ==>
              && secs[i] in Updated(Decode(a, base).home, ups)
              && Decode(a, disk).slots[i] == Updated(Decode(a, base).home, ups)[secs[i]]
  {
    ReplayMeans(a, base, tr);
    Logging(Decode(a, base), ups);
  }

  /** Every crash point of a transaction's real sector writes leaves the old or the new home area. */
  lemma CrashAnywhere(a: Area, base: Flat, ups: Updates, tr: Trace, k: nat)
    requires OnDisk(a, base) && HeadOf(base[a.start]) == [] && Loggable(Decode(a, base), ups)
    requires (forall i :: 0 <= i < |tr| ==> tr[i].0 in base) && k <= |tr|
    requires Meanings(a, tr) == TransactionWrites(Decode(a, base), ups)
    ensures var e := Replay(base, tr[..k]);
            && e.Keys == base.Keys && Formatted(Decode(a, e)) && |Decode(a, e).head| <= |Logged(ups)|
            && Durable(Decode(a, e)) ==
                 if k > |ups| then Updated(Decode(a, base).home, ups) else Decode(a, base).home
  {
    hide Replay, Meanings, TransactionWrites, Loggable, Durable, Updated, Logged, Formatted, HeadOf;
    CrashAtomic(Decode(a, base), ups, k);
    ReplayMeans(a, base, tr[..k]);
    MeaningsPrefix(a, tr, k);
  }

  /** Recovery can start from disk e, and ends with the home area `before` or `after`. */
  ghost predicate RecoversTo(a: Area, e: Flat, before: Flat, after: Flat) {
    Bootable(a, e) && (Durable(Decode(a, e)) == before || Durable(Decode(a, e)) == after)
  }

  /** Wherever the sector writes tr on base are cut off, recovery ends with `before` or `after`. */
  ghost predicate CrashSafe(a: Area, base: Flat, tr: Trace, before: Flat, after: Flat) {
    forall k :: 0 <= k <= |tr| ==> RecoversTo(a, Replay(base, tr[..k]), before, after)
  }

  /** No header among the sector writes tr names more than n sectors. */
  ghost predicate HeadersWithin(a: Area, tr: Trace, n: nat) {
    forall i :: 0 <= i < |tr| && tr[i].0 == a.start ==> |HeadOf(tr[i].1)| <= n
  }

  lemma HeadersBound(a: Area, base: Flat, ups: Updates, tr: Trace, n: nat)
    requires OnDisk(a, base) && Loggable(Decode(a, base), ups) && |Logged(ups)| <= n
    requires Meanings(a, tr) == TransactionWrites(Decode(a, base), ups)
    ensures HeadersWithin(a, tr, n)
  {
    hide HeadOf, Loggable, Logged, Decode;
    var d := Decode(a, base);
    SlotsOnly(ups);
    forall i | 0 <= i < |tr| && tr[i].0 == a.start ensures |HeadOf(tr[i].1)| <= n {
      assert Meanings(a, tr)[i] == Head(HeadOf(tr[i].1)) == TransactionWrites(d, ups)[i];
    }
  }

  lemma HeadersFewer(a: Area, tr: Trace, n: nat, m: nat)
    requires HeadersWithin(a, tr, n) && n <= m
    ensures HeadersWithin(a, tr, m)
  {
  }

  lemma {:induction false} SlotsOnly(ups: Updates)
    ensures forall i :: 0 <= i < |ups| ==> LogWrites(ups)[i].Slot?
  {
    if ups != [] { SlotsOnly(ups[..|ups| - 1]); }
  }

  lemma CommitCrashSafe(a: Area, base: Flat, ups: Updates, tr: Trace)
    requires OnDisk(a, base) && HeadOf(base[a.start]) == [] && Loggable(Decode(a, base), ups)
    requires |Logged(ups)| <= LOGSIZE
    requires forall i :: 0 <= i < |tr| ==> tr[i].0 in base
    requires Meanings(a, tr) == TransactionWrites(Decode(a, base), ups)
    ensures CrashSafe(a, base, tr, Decode(a, base).home, Updated(Decode(a, base).home, ups))
  {
    hide HeadOf, Loggable, Updated, TransactionWrites, Replay;
    forall k | 0 <= k <= |tr|
      ensures RecoversTo(a, Replay(base, tr[..k]), Decode(a, base).home, Updated(Decode(a, base).home, ups))
    {
      CrashAnywhere(a, base, ups, tr, k);
    }
  }

  /** With nothing dirty and nothing being changed, reads and the disk agree. */
  lemma CleanView(c: Cache<Words.Block>)
    requires Inv(c, {}) && DirtyOnly(c.bufs, [], [])
    ensures View(c) == c.disk
  {
    forall s | s in c.disk ensures View(c)[s] == c.disk[s] { ViewOfClean(c, {}, s); }
  }

  /** Between operations of a transaction, reads see its updates on top of the old home area. */
  lemma ViewInTransaction(a: Area, base: Flat, c: Cache<Words.Block>, tr: Trace, ups: Updates,
                          secs: seq<nat>, pin: seq<nat>)
    requires LogState(a, base, c.disk, tr, ups, secs) && Inv(c, {}) && OnDisk(a, c.disk)
    requires Pins(c.bufs, {}, pin, secs, Decode(a, c.disk).slots)
    ensures OnDisk(a, base) && HomeOf(a, View(c)) == Updated(Decode(a, base).home, ups)
  {
    hide View, Pins;
    var h := Updated(Decode(a, base).home, ups);
    forall s
      ensures s in h <==> s in c.disk && !a.InLog(s)
      ensures s in c.disk && !a.InLog(s) ==> View(c)[s] == h[s]
    {
      ViewInTransactionAt(a, base, c, tr, ups, secs, pin, s);
    }
  }

  lemma ViewInTransactionAt(a: Area, base: Flat, c: Cache<Words.Block>, tr: Trace, ups: Updates,
                            secs: seq<nat>, pin: seq<nat>, s: nat)
    requires LogState(a, base, c.disk, tr, ups, secs) && Inv(c, {}) && OnDisk(a, c.disk)
    requires Pins(c.bufs, {}, pin, secs, Decode(a, c.disk).slots)
    ensures s in Updated(Decode(a, base).home, ups) <==> s in c.disk && !a.InLog(s)
    ensures s in c.disk && !a.InLog(s) ==> View(c)[s] == Updated(Decode(a, base).home, ups)[s]
  {
    WriteAhead(a, base, c.disk, tr, ups, secs);
    LogFacts(a, base, c.disk, tr, ups, secs);
    hide HeadOf, LogState;
    if s in secs {
      var i :| 0 <= i < |secs| && secs[i] == s;
      ViewHeld(c, {}, pin[i]);
      assert BufOk(c, {}, pin[i]);
    } else {
      assert secs == Logged(ups) by { LoggedIs(a, base, c.disk, tr, ups, secs); }
      UpdatedAt(Decode(a, base).home, ups, s);
      assert s in Decode(a, base).home <==> s in Decode(a, c.disk).home;
      if s in c.disk { ViewOfClean(c, {}, s); }
    }
  }

  lemma LoggedIs(a: Area, base: Flat, disk: Flat, tr: Trace, ups: Updates, secs: seq<nat>)
    requires LogState(a, base, disk, tr, ups, secs)
    ensures Logged(ups) == secs
  {
  }

  lemma TraceSince(past: Trace, t: Trace, x: Trace, y: Trace)
    requires past <= t
    ensures past <= t + x + y && (t + x + y)[|past|..] == t[|past|..] + x + y
  {
  }

  lemma ReplayLast(d: Flat, ws: Trace, w: (nat, Words.Block))
    ensures Replay(d, ws + [w]) == Replay(d, ws)[w.0 := w.1]
  {
    assert (ws + [w])[..|ws|] == ws;
  }

  lemma CopyTargets(a: Area, d: Flat, secs: seq<nat>)
    requires OnDisk(a, d) && |secs| < a.size
    ensures forall i :: 0 <= i < |secs| ==> Copies(a, d, secs, |secs|)[i].0 == secs[i]
  {
  }

  lemma AtCommitPoint(a: Area, base: Flat, disk: Flat, tr: Trace, ups: Updates, secs: seq<nat>,
                      h: Words.Block)
    requires LogState(a, base, disk, tr, ups, secs) && HeadOf(h) == secs
    ensures Loggable(Decode(a, base), ups) && a.start in disk && OnDisk(a, disk[a.start := h])
    ensures Decode(a, disk[a.start := h]) == CommitPoint(Decode(a, base), ups)
    ensures Formatted(Decode(a, disk[a.start := h]))
  {
    WriteAhead(a, base, disk, tr, ups, secs);
    DecodeWrite(a, disk, a.start, h);
  }

  /** The trace of a committed transaction, and the disk it leaves. */
  lemma CommitMeans(a: Area, base: Flat, disk: Flat, tr: Trace, ups: Updates, secs: seq<nat>,
                    h: Words.Block, ws: Trace)
    requires LogState(a, base, disk, tr, ups, secs) && HeadOf(h) == secs && 0 < |secs| <= LOGSIZE
    requires OnDisk(a, disk[a.start := h]) && Formatted(Decode(a, disk[a.start := h]))
    requires (forall i :: 0 <= i < |ws| ==> ws[i].0 in disk[a.start := h])
    requires Meanings(a, ws) == RecoverWrites(Decode(a, disk[a.start := h]))
    ensures var all := tr + [(a.start, h)] + ws;
            && Loggable(Decode(a, base), ups) && Meanings(a, all) == TransactionWrites(Decode(a, base), ups)
            && Replay(base, all) == Replay(disk[a.start := h], ws) && OnDisk(a, Replay(base, all))
            && HeadOf(Replay(base, all)[a.start]) == []
            && Decode(a, Replay(base, all)).home == Updated(Decode(a, base).home, ups)
            && CrashSafe(a, base, all, Decode(a, base).home, Updated(Decode(a, base).home, ups))
  {
    hide CrashSafe;
    AtCommitPoint(a, base, disk, tr, ups, secs, h);
    var all := tr + [(a.start, h)] + ws;
    MeaningsAppend(a, tr + [(a.start, h)], ws);
    MeaningsAppend(a, tr, [(a.start, h)]);
    assert Meanings(a, [(a.start, h)]) == [Head(secs)];
    ReplayAppend(base, tr + [(a.start, h)], ws);
    ReplayLast(base, tr, (a.start, h));
    CommittedDisk(a, base, ups, all);
  }

  lemma CommittedDisk(a: Area, base: Flat, ups: Updates, all: Trace)
    requires OnDisk(a, base) && HeadOf(base[a.start]) == [] && Loggable(Decode(a, base), ups) && ups != []
    requires |Logged(ups)| <= LOGSIZE
    requires (forall i :: 0 <= i < |all| ==> all[i].0 in base)
    requires Meanings(a, all) == TransactionWrites(Decode(a, base), ups)
    ensures OnDisk(a, Replay(base, all)) && HeadOf(Replay(base, all)[a.start]) == []
    ensures Decode(a, Replay(base, all)).home == Updated(Decode(a, base).home, ups)
    ensures CrashSafe(a, base, all, Decode(a, base).home, Updated(Decode(a, base).home, ups))
  {
    hide CrashSafe;
    CommitCrashSafe(a, base, ups, all);
    ReplayMeans(a, base, all);
    CrashAtomic(Decode(a, base), ups, |all|);
    assert Meanings(a, all)[..|all|] == Meanings(a, all);
  }

  lemma RoomToCommit(bufs: seq<Buffer>, pin: seq<nat>, secs: seq<nat>, slots: seq<Words.Block>)
    requires Pins(bufs, {}, pin, secs, slots) && NoneBusy(bufs) && |secs| < |bufs|
    ensures HasRoom(bufs)
  {
    var b := Pigeonhole(pin, |bufs|);
    assert Evictable(bufs[b]);
  }

  lemma PinnedAreDirty(a: Area, x: seq<Buffer>, pin: seq<nat>, secs: seq<nat>, slots: seq<Words.Block>, y: seq<Buffer>)
    requires Pins(x, {}, pin, secs, slots) && KeepsPinned(x, y) && NoneBusy(x) && LogFree(a, x)
    ensures DirtyOnly(y, pin, secs) && NoneBusy(y) && LogFree(a, y)
  {
  }

  lemma NothingToCommit(a: Area, base: Flat, c: Cache<Words.Block>, tr: Trace, ups: Updates,
                        secs: seq<nat>, pin: seq<nat>)
    requires LogState(a, base, c.disk, tr, ups, secs) && secs == [] && OnDisk(a, c.disk)
    requires Pins(c.bufs, {}, pin, secs, Decode(a, c.disk).slots)
    ensures ups == [] && tr == [] && c.disk == base && DirtyOnly(c.bufs, [], []) && HeadOf(c.disk[a.start]) == []
    ensures Loggable(Decode(a, base), ups) && Meanings(a, tr) == TransactionWrites(Decode(a, base), ups)
    ensures CrashSafe(a, base, tr, Decode(a, base).home, Updated(Decode(a, base).home, ups))
  {
    hide CrashSafe;
    CommitCrashSafe(a, base, ups, tr);
  }

  lemma FreshLog(a: Area, d: Flat)
    requires OnDisk(a, d) && HeadOf(d[a.start]) == []
    ensures LogState(a, d, d, [], [], [])
  {
  }

  lemma NoPins(bufs: seq<Buffer>, slots: seq<Words.Block>)
    requires DirtyOnly(bufs, [], [])
    ensures Pins(bufs, {}, [], [], slots)
  {
  }

  lemma HomeAt(a: Area, d: Flat)
    requires OnDisk(a, d)
    ensures Decode(a, d).home == HomeOf(a, d)
  {
  }

  lemma HeadIs(h: Words.Block, secs: seq<nat>)
    requires |secs| == LoadU32(h, 0) <= LOGSIZE && forall i :: 0 <= i < |secs| ==> secs[i] == LoadU32(h, 4 + 4 * i)
    ensures HeadOf(h) == secs
  {
  }

  lemma CountFits(a: Area, d: Flat)
    requires Bootable(a, d)
    ensures LoadU32(d[a.start], 0) < a.size && LoadU32(d[a.start], 0) <= LOGSIZE
  {
    assert |Decode(a, d).head| == LoadU32(d[a.start], 0);
  }

  lemma Recovered(a: Area, d: Flat, ws: Trace)
    requires OnDisk(a, d) && Formatted(Decode(a, d)) && Meanings(a, ws) == RecoverWrites(Decode(a, d))
    requires forall i :: 0 <= i < |ws| ==> ws[i].0 in d
    ensures OnDisk(a, Replay(d, ws)) && HeadOf(Replay(d, ws)[a.start]) == []
    ensures Decode(a, Replay(d, ws)).home == Durable(Decode(a, d))
  {
    ReplayMeans(a, d, ws);
    RecoveryKeepsDurable(Decode(a, d), |ws|);
    assert Meanings(a, ws)[..|ws|] == Meanings(a, ws);
  }

  /** Recovery cut off anywhere leaves a disk that it can start from again, to the same end. */
  lemma RecoveryCrashSafe(a: Area, d: Flat, ws: Trace)
    requires Bootable(a, d) && Meanings(a, ws) == RecoverWrites(Decode(a, d))
    requires forall i :: 0 <= i < |ws| ==> ws[i].0 in d
    ensures CrashSafe(a, d, ws, Durable(Decode(a, d)), Durable(Decode(a, d)))
  {
    hide HeadOf, Replay, Decode, Meanings, RecoverWrites, Durable;
    forall k | 0 <= k <= |ws|
      ensures RecoversTo(a, Replay(d, ws[..k]), Durable(Decode(a, d)), Durable(Decode(a, d)))
    {
      ReplayMeans(a, d, ws[..k]);
      MeaningsPrefix(a, ws, k);
      RecoveryKeepsDurable(Decode(a, d), k);
    }
  }

  lemma MeaningsPrefix(a: Area, ws: Trace, k: nat)
    requires k <= |ws|
    ensures Meanings(a, ws[..k]) == Meanings(a, ws)[..k]
  {
  }

  /** Exactly the buffers of the list are in use. */
  predicate BusyOnly(bufs: seq<Buffer>, keep: seq<nat>) {
    && (forall b :: 0 <= b < |bufs| ==> (bufs[b].busy <==> b in keep))
    && (forall k :: 0 <= k < |keep| ==> keep[k] < |bufs|)
  }

  /** A transaction of few sectors never uses up the cache. */
  lemma RoomFor(bufs: seq<Buffer>, pin: seq<nat>, secs: seq<nat>, slots: seq<Words.Block>, keep: seq<nat>)
    requires Pins(bufs, {}, pin, secs, slots) && BusyOnly(bufs, keep) && |secs| + |keep| < |bufs|
    ensures HasRoom(bufs)
  {
    var b := Pigeonhole(pin + keep, |bufs|);
    assert Evictable(bufs[b]);
  }

  lemma DirtyShows(c: Cache<Words.Block>, s: nat)
    requires Inv(c, {})
    ensures forall b :: 0 <= b < |c.bufs| && c.bufs[b].dirty && Holds(c.bufs[b], s) ==>
              s in c.disk && c.bufs[b].valid && View(c)[s] == c.bufs[b].data
  {
    forall b | 0 <= b < |c.bufs| && c.bufs[b].dirty && Holds(c.bufs[b], s)
      ensures s in c.disk && c.bufs[b].valid && View(c)[s] == c.bufs[b].data
    {
      assert BufOk(c, {}, b);
      ViewHeld(c, {}, b);
    }
  }

  lemma TakeKeeps(a: Area, x: seq<Buffer>, pin: seq<nat>, secs: seq<nat>, slots: seq<Words.Block>, keep: seq<nat>,
                  y: seq<Buffer>, b: nat)
    requires Pins(x, {}, pin, secs, slots) && BusyOnly(x, keep) && LogFree(a, x)
    requires b < |x| == |y| && y == x[b := y[b]] && !x[b].busy && y[b].busy && !a.InLog(y[b].sector)
    requires if x[b].dirty then y[b] == x[b].(busy := true) else !y[b].dirty
    ensures Pins(y, {}, pin, secs, slots) && BusyOnly(y, keep + [b]) && LogFree(a, y)
    ensures KeepsPinned(x, y[b := y[b].(busy := false)])
  {
    forall c | 0 <= c < |y| ensures y[c].busy <==> c in keep + [b] {
      assert c in keep + [b] <==> c in keep || c == b;
    }
  }

  lemma SetKeeps(a: Area, x: seq<Buffer>, pin: seq<nat>, secs: seq<nat>, slots: seq<Words.Block>, keep: seq<nat>,
                 b: nat, v: Words.Block)
    requires Pins(x, {}, pin, secs, slots) && BusyOnly(x, keep) && LogFree(a, x) && HasRoom(x) && b < |x| && x[b].busy
    ensures var y := x[b := x[b].(data := v)]; Pins(y, {b}, pin, secs, slots) && LogFree(a, y) && HasRoom(y)
  {
    var y := x[b := x[b].(data := v)];
    var c :| 0 <= c < |x| && Evictable(x[c]);
    assert Evictable(y[c]);
  }

  lemma PutKeeps(x: seq<Buffer>, m: seq<Buffer>, z: seq<Buffer>, keep: seq<nat>, b: nat, v: Words.Block)
    requires BusyOnly(x, keep) && b < |x| == |z| && x[b].busy && m == x[b := x[b].(data := v)]
    requires KeepsPinned(m, z[b := m[b]]) && z[b] == m[b].(dirty := true)
    ensures BusyOnly(z, keep) && KeepsPinned(x, z[b := x[b]])
  {
    forall c | 0 <= c < |x| && c != b
      ensures if x[c].busy || x[c].dirty then z[c] == x[c] else !z[c].busy && !z[c].dirty
    {
      assert m[c] == x[c] && z[b := m[b]][c] == z[c];
    }
  }

  lemma DropKeeps(a: Area, x: seq<Buffer>, pin: seq<nat>, secs: seq<nat>, slots: seq<Words.Block>, keep: seq<nat>,
                  b: nat)
    requires Pins(x, {}, pin, secs, slots) && BusyOnly(x, keep + [b]) && LogFree(a, x) && b !in keep && b < |x|
    ensures var y := x[b := x[b].(busy := false)]; Pins(y, {}, pin, secs, slots) && BusyOnly(y, keep) && LogFree(a, y)
  {
    var y := x[b := x[b].(busy := false)];
    forall c | 0 <= c < |y| ensures y[c].busy <==> c in keep {
      assert c in keep + [b] <==> c in keep || c == b;
    }
    forall k | 0 <= k < |keep| ensures keep[k] < |y| { assert (keep + [b])[k] == keep[k]; }
  }

  function HomeOf(a: Area, m: Flat): Flat { map s | s in m && !a.InLog(s) :: m[s] }

  lemma HomeAfter(a: Area, m: Flat, s: nat, x: Words.Block, at: nat)
    requires !a.InLog(s) && a.InLog(at)
    ensures HomeOf(a, m[s := x][at := x]) == HomeOf(a, m)[s := x]
  {
  }

  class TxLog {
    const cache: BufCache.BufCache<Words.Block>
    const area: Area
    const sector: array<nat>
    var n: nat
    var busy: bool
    ghost var pin: seq<nat>
    /** The disk, and its sector writes so far, when the transaction began; its log_write calls. */
    ghost var base: Flat
    ghost var past: Trace
    ghost var ups: Updates

    ghost predicate Shape()
      reads this, cache, cache.bufs, cache.link, sector
    {
      && cache.Valid() && cache.queue == []
      && sector.Length == LOGSIZE && n <= LOGSIZE && n + 1 <= area.size
      && OnDisk(area, cache.disk)
    }

    ghost predicate Valid()
      reads this, cache, cache.bufs, cache.link, sector
    {
      && Shape()
      && past <= cache.trace && LogState(area, base, cache.disk, cache.trace[|past|..], ups, sector[..n])
      && Pins(cache.bufs[..], cache.stale, pin, sector[..n], Decode(area, cache.disk).slots)
      && LogFree(area, cache.bufs[..])
    }

    /** A machine that has just started: nothing cached, nothing known of the log. */
    constructor (area: Area, disk: Flat, zero: Words.Block)
      requires OnDisk(area, disk)
      ensures this.area == area && fresh(cache) && fresh(cache.bufs) && fresh(cache.link) && fresh(sector)
      ensures Shape() && !busy && cache.disk == disk && cache.trace == [] && HasRoom(cache.bufs[..])
      ensures NoneBusy(cache.bufs[..]) && DirtyOnly(cache.bufs[..], [], []) && cache.stale == {}
    {
      this.area := area;
      cache := new BufCache.BufCache(disk, zero);
      sector := new nat[LOGSIZE](_ => 0);
      n, busy := 0, false;
      pin, base, past, ups := [], disk, [], [];
      new;
      assert Evictable(cache.bufs[..][0]);
    }

    /**
     * log_init, recover_from_log. The sector writes are those of RecoverWrites, so recovery may
     * itself be cut off anywhere.
     */
    method LogInit()
      requires Shape() && HasRoom(cache.bufs[..]) && cache.trace == []
      requires NoneBusy(cache.bufs[..]) && DirtyOnly(cache.bufs[..], [], []) && cache.stale == {}
      requires Bootable(area, cache.disk)
      modifies this`n, this`pin, this`base, this`past, this`ups, sector, cache, cache.bufs, cache.link
      ensures Valid() && n == 0 && ups == [] && NoneBusy(cache.bufs[..]) && cache.stale == {} && L() == cache.disk
      ensures Meanings(area, cache.trace) == RecoverWrites(Decode(area, old(cache.disk)))
      ensures cache.disk == Replay(old(cache.disk), cache.trace)
      ensures Decode(area, cache.disk).home == Durable(Decode(area, old(cache.disk)))
      ensures var h := Durable(Decode(area, old(cache.disk))); CrashSafe(area, old(cache.disk), cache.trace, h, h)
    {
      hide CacheSpec.View, BufCache.Linked, CacheSpec.Inv, HeadOf, Decode, LogState, Pins, Replay, Formatted, Durable,
           CrashSafe;
      ghost var d0 := cache.disk;
      CountFits(area, d0);
      ReadHead();
      ghost var ws := InstallAndClear([]);
      assert cache.trace == ws;
      Recovered(area, d0, ws);
      RecoveryCrashSafe(area, d0, ws);
      CleanView(cache.Abs());
      FreshLog(area, cache.disk);
      NoPins(cache.bufs[..], Decode(area, cache.disk).slots);
      pin, base, past, ups := [], cache.disk, cache.trace, [];
      assert cache.trace[|past|..] == [] && sector[..n] == [];
    }

    /** What the file system sees. */
    ghost function L(): Flat
      requires Shape()
      reads this, cache, cache.bufs, cache.link, sector
    {
      View(cache.Abs())
    }

    /** Put a block into a held buffer, write it to disk and release it. */
    method Flush(b: nat, x: Words.Block)
      requires Shape() && b < BufCache.NBUF && cache.bufs[b].busy && cache.bufs[b].valid
      modifies cache, cache.bufs, cache.link
      ensures Shape() && cache.stale == old(cache.stale) - {b}
      ensures var o := old(cache.bufs[b]);
              && cache.bufs[..] == old(cache.bufs[..])[b := o.(data := x, dirty := false, busy := false)]
              && o.sector in old(cache.disk) && cache.disk == old(cache.disk)[o.sector := x]
              && cache.trace == old(cache.trace) + [(o.sector, x)]
              && L() == old(L())[o.sector := x]
    {
      hide CacheSpec.Inv, CacheSpec.View;
      cache.SetData(b, x);
      cache.Write(b);
      cache.Release(b);
    }

    /** read_head. */
    method ReadHead()
      requires Shape() && HasRoom(cache.bufs[..]) && NoneBusy(cache.bufs[..]) && DirtyOnly(cache.bufs[..], [], [])
      requires cache.stale == {}
      requires LoadU32(cache.disk[area.start], 0) <= LOGSIZE && LoadU32(cache.disk[area.start], 0) < area.size
      modifies this`n, sector, cache, cache.bufs, cache.link
      ensures Shape() && NoneBusy(cache.bufs[..]) && DirtyOnly(cache.bufs[..], [], []) && cache.stale == {}
      ensures cache.disk == old(cache.disk) && cache.trace == old(cache.trace)
      ensures n <= LOGSIZE && HeadOf(cache.disk[area.start]) == sector[..n]
    {
      hide CacheSpec.Inv, CacheSpec.View, BufCache.Linked, HeadOf;
      ViewOfClean(cache.Abs(), cache.stale, area.start);
      var b := cache.Read(area.start);
      var h := cache.bufs[b].data;
      n := LoadU32(h, 0);
      var i := 0;
      while i < n
        invariant 0 <= i <= n && forall j :: 0 <= j < i ==> sector[j] == LoadU32(h, 4 + 4 * j)
        modifies sector
      {
        sector[i] := LoadU32(h, 4 + 4 * i);
        i := i + 1;
      }
      HeadIs(h, sector[..n]);
      cache.Release(b);
    }

    /** The header block of write_head, over what the block held before. */
    method BuildHead(was: Words.Block) returns (h: Words.Block)
      requires sector.Length == LOGSIZE && n <= LOGSIZE && forall i :: 0 <= i < n ==> sector[i] < U32
      ensures HeadOf(h) == sector[..n]
    {
      hide StoreU32;
      h := StoreU32(was, 0, n);
      var i := 0;
      while i < n
        invariant 0 <= i <= n && LoadU32(h, 0) == n
        invariant forall j :: 0 <= j < i ==> LoadU32(h, 4 + 4 * j) == sector[j]
      {
        forall j | -1 <= j < i ensures LoadU32(StoreU32(h, 4 + 4 * i, sector[i]), 4 + 4 * j) == LoadU32(h, 4 + 4 * j) {
          LoadOther(h, 4 + 4 * i, sector[i], 4 + 4 * j);
        }
        h := StoreU32(h, 4 + 4 * i, sector[i]);
        i := i + 1;
      }
    }

    /** write_head. */
    method WriteHead()
      requires Shape() && HasRoom(cache.bufs[..]) && Untouched(cache.bufs[..], area.start)
      requires forall i :: 0 <= i < n ==> sector[i] < U32
      modifies cache, cache.bufs, cache.link
      ensures Shape() && KeepsPinned(old(cache.bufs[..]), cache.bufs[..]) && cache.stale == old(cache.stale)
      ensures exists h :: HeadOf(h) == sector[..n] && cache.disk == old(cache.disk)[area.start := h]
                          && cache.trace == old(cache.trace) + [(area.start, h)]
                          && L() == old(L())[area.start := h]
    {
      hide CacheSpec.Inv, CacheSpec.View, BufCache.Linked, HeadOf;
      var b := cache.Read(area.start);
      var h := BuildHead(cache.bufs[b].data);
      Flush(b, h);
    }

    /** The search of log_write for an earlier entry to absorb into. */
    method FindSlot(s: nat) returns (i: nat)
      requires sector.Length == LOGSIZE && n <= LOGSIZE
      ensures i == IndexOf(sector[..n], s)
    {
      i := 0;
      while i < n && sector[i] != s
        invariant 0 <= i <= n && forall j :: 0 <= j < i ==> sector[j] != s
      {
        i := i + 1;
      }
    }

    /** Read a log sector's buffer, replace its content and write it out. */
    method Overwrite(s: nat, x: Words.Block)
      requires Shape() && s in cache.disk && HasRoom(cache.bufs[..]) && Untouched(cache.bufs[..], s)
      modifies cache, cache.bufs, cache.link
      ensures Shape() && KeepsPinned(old(cache.bufs[..]), cache.bufs[..]) && cache.stale == old(cache.stale)
      ensures cache.disk == old(cache.disk)[s := x] && cache.trace == old(cache.trace) + [(s, x)]
      ensures L() == old(L())[s := x]
    {
      hide CacheSpec.Inv, CacheSpec.View, BufCache.Linked;
      var b := cache.Read(s);
      Flush(b, x);
    }

    /** The disk half of log_write: write the block into its log block and note the sector. */
    method Append(s: nat, x: Words.Block) returns (i: nat)
      requires Valid() && n < LOGSIZE && n + 1 < area.size && HasRoom(cache.bufs[..])
      requires s in cache.disk && !area.InLog(s) && s < U32
      modifies this`n, this`ups, sector, cache, cache.bufs, cache.link
      ensures Shape() && past <= cache.trace
      ensures LogState(area, base, cache.disk, cache.trace[|past|..], ups, sector[..n])
      ensures i == IndexOf(old(sector[..n]), s) < |old(Decode(area, cache.disk).slots)|
      ensures sector[..n] == Slotted(old(sector[..n]), s) && ups == old(ups) + [Update(s, x)]
      ensures KeepsPinned(old(cache.bufs[..]), cache.bufs[..]) && cache.stale == old(cache.stale)
      ensures Decode(area, cache.disk).slots == old(Decode(area, cache.disk).slots)[i := x]
      ensures L() == old(L())[area.start + 1 + i := x]
    {
      hide CacheSpec.View, BufCache.Linked, CacheSpec.Inv, LogState, Decode, Pins, KeepsPinned, HasRoom;
      ghost var (secs, u) := (sector[..n], Update(s, x));
      LogFacts(area, base, cache.disk, cache.trace[|past|..], ups, secs);
      i := FindSlot(s);
      LogOne(area, base, cache.disk, cache.trace[|past|..], ups, secs, u, area.start + 1 + i);
      sector[i] := s;
      Overwrite(area.start + i + 1, x);
      assert cache.trace[|past|..] == old(cache.trace[|past|..]) + [(area.start + 1 + i, x)];
      if i == n {
        n := n + 1;
      }
      assert sector[..n] == Slotted(secs, s);
      ups := ups + [u];
    }

    /** log_write for a held buffer: append or absorb, and pin the buffer. */
    method LogWrite(b: nat)
      requires Valid() && busy && n < LOGSIZE && n + 1 < area.size && HasRoom(cache.bufs[..])
      requires b < BufCache.NBUF && cache.bufs[b].busy && cache.bufs[b].valid && cache.bufs[b].dev == ROOTDEV
      requires !area.InLog(cache.bufs[b].sector) && cache.bufs[b].sector < U32
      modifies this`n, this`pin, this`ups, sector, cache, cache.bufs, cache.link
      ensures Valid() && ups == old(ups) + [Update(old(cache.bufs[b].sector), old(cache.bufs[b].data))]
      ensures sector[..n] == Slotted(old(sector[..n]), old(cache.bufs[b].sector))
      ensures cache.stale == old(cache.stale) - {b} && cache.bufs[b] == old(cache.bufs[b]).(dirty := true)
      ensures KeepsPinned(old(cache.bufs[..]), cache.bufs[..][b := old(cache.bufs[b])])
      ensures exists at :: area.InLog(at) && L() == old(L())[at := old(cache.bufs[b].data)]
    {
      hide CacheSpec.View, BufCache.Linked, CacheSpec.Inv, LogState, Decode, Pins, KeepsPinned, HasRoom, LogFree,
           Slotted, IndexOf, OnDisk;
      InvFacts(cache.Abs(), cache.stale);
      LogFacts(area, base, cache.disk, cache.trace[|past|..], ups, sector[..n]);
      ghost var (secs, was, slots) := (sector[..n], cache.bufs[..], Decode(area, cache.disk).slots);
      var i := Append(cache.bufs[b].sector, cache.bufs[b].data);
      MarkFrame(area, was, cache.bufs[..], b);
      PinOne(was, cache.stale, pin, secs, slots, cache.bufs[..], b, i);
      pin := if i < |secs| then pin else pin + [b];
      cache.Mark(b);
      assert area.InLog(area.start + 1 + i);
    }

    /** The two reads of an install_trans round. */
    method ReadBoth(from: nat, to: nat, ghost pins: seq<nat>, ghost secs: seq<nat>) returns (l: nat, d: nat)
      requires Shape() && from in cache.disk && to in cache.disk && area.InLog(from) && !area.InLog(to)
      requires NoneBusy(cache.bufs[..]) && cache.stale == {} && LogFree(area, cache.bufs[..])
      requires DirtyOnly(cache.bufs[..], pins, secs) && secs != [] && secs[0] == to && |pins| < BufCache.NBUF
      modifies cache, cache.bufs, cache.link
      ensures Shape() && cache.stale == {} && cache.disk == old(cache.disk) && cache.trace == old(cache.trace)
      ensures l < BufCache.NBUF && d < BufCache.NBUF && l != d && !old(cache.bufs[l].dirty)
      ensures cache.bufs[l] == Buf(ROOTDEV, from, true, true, false, cache.disk[from])
      ensures Holds(cache.bufs[d], to) && cache.bufs[d].busy && cache.bufs[d].valid
      ensures forall b :: 0 <= b < BufCache.NBUF && b != l && b != d ==> cache.bufs[b] == old(cache.bufs[b])
    {
      hide CacheSpec.View, BufCache.Linked, CacheSpec.Inv;
      RoomToInstall(cache.bufs[..], pins, secs);
      ViewOfClean(cache.Abs(), cache.stale, from);
      ghost var was := cache.bufs[..];
      l := cache.Read(from);
      RoomForHome(was, l, cache.bufs[..], pins, secs);
      d := cache.Read(to);
    }

    /** One round of install_trans: copy a log block to its home sector, in the cache and on disk. */
    method InstallOne(from: nat, to: nat, ghost pins: seq<nat>, ghost secs: seq<nat>)
      requires Shape() && from in cache.disk && to in cache.disk && area.InLog(from) && !area.InLog(to)
      requires NoneBusy(cache.bufs[..]) && cache.stale == {} && LogFree(area, cache.bufs[..])
      requires DirtyOnly(cache.bufs[..], pins, secs) && (pins != [] ==> Distinct(secs))
      requires secs != [] && secs[0] == to && |pins| < BufCache.NBUF
      modifies cache, cache.bufs, cache.link
      ensures Shape() && NoneBusy(cache.bufs[..]) && cache.stale == {} && LogFree(area, cache.bufs[..])
      ensures cache.disk == old(cache.disk)[to := old(cache.disk)[from]]
      ensures cache.trace == old(cache.trace) + [(to, old(cache.disk)[from])]
      ensures DirtyOnly(cache.bufs[..], if pins == [] then [] else pins[1..], secs[1..])
    {
      hide CacheSpec.View, BufCache.Linked, CacheSpec.Inv, DirtyOnly, LogFree, NoneBusy;
      ghost var was := cache.bufs[..];
      var l, d := ReadBoth(from, to, pins, secs);
      cache.SetData(d, cache.bufs[l].data);
      cache.Write(d);
      cache.Release(l);
      cache.Release(d);
      InvFacts(cache.Abs(), cache.stale);
      InstalledOne(was, pins, secs, cache.bufs[..], l, d);
      InstalledFree(area, was, cache.bufs[..], l, d);
    }

    /** install_trans for the log on disk: what recovery writes, short of clearing the header. */
    method InstallTrans(ghost pinned: seq<nat>)
      requires Shape() && Formatted(Decode(area, cache.disk)) && HeadOf(cache.disk[area.start]) == sector[..n]
      requires NoneBusy(cache.bufs[..]) && cache.stale == {} && LogFree(area, cache.bufs[..])
      requires |pinned| < BufCache.NBUF
      requires DirtyOnly(cache.bufs[..], pinned, sector[..n]) && (pinned != [] ==> Distinct(sector[..n]))
      modifies cache, cache.bufs, cache.link
      ensures Shape() && NoneBusy(cache.bufs[..]) && cache.stale == {} && LogFree(area, cache.bufs[..])
      ensures DirtyOnly(cache.bufs[..], [], [])
      ensures cache.trace == old(cache.trace) + Copies(area, old(cache.disk), sector[..n], n)
      ensures cache.disk == Replay(old(cache.disk), Copies(area, old(cache.disk), sector[..n], n))
    {
      hide CacheSpec.View, BufCache.Linked, CacheSpec.Inv, HeadOf, DirtyOnly, Decode, Formatted, Copies, Replay;
      var tail := 0;
      ghost var (pins, d0, secs) := (pinned, cache.disk, sector[..n]);
      HeadIsHome(area, d0);
      CopyNone(area, d0, secs);
      while tail < n
        invariant 0 <= tail <= n && Shape()
        invariant NoneBusy(cache.bufs[..]) && cache.stale == {} && LogFree(area, cache.bufs[..])
        invariant |pins| < BufCache.NBUF && DirtyOnly(cache.bufs[..], pins, secs[tail..])
        invariant (pins != [] ==> Distinct(secs))
        invariant cache.disk.Keys == d0.Keys && forall s :: s in d0 && area.InLog(s) ==> cache.disk[s] == d0[s]
        invariant cache.trace == old(cache.trace) + Copies(area, d0, secs, tail)
        invariant cache.disk == Replay(d0, Copies(area, d0, secs, tail))
      {
        InstallOne(area.start + tail + 1, sector[tail], pins, secs[tail..]);
        CopyOne(area, d0, secs, tail);
        assert secs[tail..][1..] == secs[tail + 1..];
        pins := if pins == [] then [] else pins[1..];
        tail := tail + 1;
      }
      NoneLeft(cache.bufs[..], pins, secs[n..]);
    }

    /** install_trans and an empty header: all of recovery, and commit_trans after its first header. */
    method InstallAndClear(ghost pinned: seq<nat>) returns (ghost ws: Trace)
      requires Shape() && Formatted(Decode(area, cache.disk)) && HeadOf(cache.disk[area.start]) == sector[..n]
      requires NoneBusy(cache.bufs[..]) && cache.stale == {} && LogFree(area, cache.bufs[..])
      requires |pinned| < BufCache.NBUF
      requires DirtyOnly(cache.bufs[..], pinned, sector[..n]) && (pinned != [] ==> Distinct(sector[..n]))
      modifies this`n, cache, cache.bufs, cache.link
      ensures Shape() && NoneBusy(cache.bufs[..]) && cache.stale == {} && LogFree(area, cache.bufs[..])
      ensures n == 0 && DirtyOnly(cache.bufs[..], [], [])
      ensures cache.trace == old(cache.trace) + ws && cache.disk == Replay(old(cache.disk), ws)
      ensures (forall i :: 0 <= i < |ws| ==> ws[i].0 in old(cache.disk))
      ensures Meanings(area, ws) == RecoverWrites(Decode(area, old(cache.disk)))
    {
      hide CacheSpec.View, BufCache.Linked, CacheSpec.Inv, HeadOf, Decode, Formatted, Copies, Replay;
      ghost var (d0, secs) := (cache.disk, sector[..n]);
      HeadIsHome(area, d0);
      InstallTrans(pinned);
      n := 0;
      assert Evictable(cache.bufs[..][0]);
      WriteHead();
      ghost var h :| HeadOf(h) == sector[..n]
                     && cache.trace == old(cache.trace) + Copies(area, d0, secs, |secs|) + [(area.start, h)]
                     && cache.disk == Replay(d0, Copies(area, d0, secs, |secs|))[area.start := h];
      ws := Copies(area, d0, secs, |secs|) + [(area.start, h)];
      InstallMeans(area, d0, h);
      ReplayLast(d0, Copies(area, d0, secs, |secs|), (area.start, h));
      CopyTargets(area, d0, secs);
    }

    /** The part of commit_trans that a non-empty transaction goes through. */
    method CommitInstall()
      requires Valid() && NoneBusy(cache.bufs[..]) && cache.stale == {} && 0 < n < BufCache.NBUF
      modifies this`n, cache, cache.bufs, cache.link
      ensures Shape() && NoneBusy(cache.bufs[..]) && cache.stale == {} && LogFree(area, cache.bufs[..])
      ensures n == 0 && DirtyOnly(cache.bufs[..], [], []) && past <= cache.trace
      ensures Loggable(Decode(area, base), ups)
      ensures Meanings(area, cache.trace[|past|..]) == TransactionWrites(Decode(area, base), ups)
      ensures cache.disk == Replay(base, cache.trace[|past|..]) && HeadOf(cache.disk[area.start]) == []
      ensures Decode(area, cache.disk).home == Updated(Decode(area, base).home, ups)
      ensures CrashSafe(area, base, cache.trace[|past|..], Decode(area, base).home,
                        Updated(Decode(area, base).home, ups))
    {
      hide CacheSpec.View, BufCache.Linked, CacheSpec.Inv, HeadOf, Decode, LogState, DirtyOnly, Replay, Formatted,
           Loggable, Pins, CrashSafe, Meanings, TransactionWrites, Updated, RecoverWrites, KeepsPinned, OnDisk;
      ghost var (tr, secs, d0) := (cache.trace[|past|..], sector[..n], cache.disk);
      LogFacts(area, base, d0, tr, ups, secs);
      RoomToCommit(cache.bufs[..], pin, secs, Decode(area, d0).slots);
      WriteHead();
      ghost var h :| HeadOf(h) == secs && cache.disk == d0[area.start := h]
                     && cache.trace == old(cache.trace) + [(area.start, h)];
      AtCommitPoint(area, base, d0, tr, ups, secs, h);
      PinnedAreDirty(area, old(cache.bufs[..]), pin, secs, Decode(area, d0).slots, cache.bufs[..]);
      ghost var ws := InstallAndClear(pin);
      CommitMeans(area, base, d0, tr, ups, secs, h, ws);
      TraceSince(past, old(cache.trace), [(area.start, h)], ws);
    }

    method CommitBody()
      requires Valid() && NoneBusy(cache.bufs[..]) && cache.stale == {} && n < BufCache.NBUF
      modifies this`n, cache, cache.bufs, cache.link
      ensures Shape() && NoneBusy(cache.bufs[..]) && cache.stale == {} && LogFree(area, cache.bufs[..])
      ensures n == 0 && DirtyOnly(cache.bufs[..], [], []) && past <= cache.trace
      ensures Loggable(Decode(area, base), ups)
      ensures Meanings(area, cache.trace[|past|..]) == TransactionWrites(Decode(area, base), ups)
      ensures cache.disk == Replay(base, cache.trace[|past|..]) && HeadOf(cache.disk[area.start]) == []
      ensures Decode(area, cache.disk).home == Updated(Decode(area, base).home, ups)
      ensures CrashSafe(area, base, cache.trace[|past|..], Decode(area, base).home,
                        Updated(Decode(area, base).home, ups))
    {
      hide CacheSpec.View, BufCache.Linked, CacheSpec.Inv, HeadOf, Decode, LogState, DirtyOnly, Formatted, Loggable,
           Pins, CrashSafe;
      if n > 0 {
        CommitInstall();
      } else {
        NothingToCommit(area, base, cache.Abs(), cache.trace[|past|..], ups, sector[..n], pin);
      }
    }

    /** commit_trans: the whole transaction becomes durable; reads see what they saw before. */
    method CommitTrans()
      requires Valid() && busy && NoneBusy(cache.bufs[..]) && cache.stale == {} && n < BufCache.NBUF
      modifies this`n, this`busy, this`pin, this`base, this`past, this`ups, cache, cache.bufs, cache.link
      ensures Valid() && !busy && n == 0 && ups == [] && base == cache.disk && past == cache.trace
      ensures NoneBusy(cache.bufs[..]) && cache.stale == {} && DirtyOnly(cache.bufs[..], [], [])
      ensures old(past) <= cache.trace
      ensures Meanings(area, cache.trace[|old(past)|..]) == TransactionWrites(Decode(area, old(base)), old(ups))
      ensures cache.disk == Replay(old(base), cache.trace[|old(past)|..])
      ensures Decode(area, cache.disk).home == Updated(Decode(area, old(base)).home, old(ups))
      ensures L() == cache.disk && Home() == old(Home())
      ensures HeadersWithin(area, cache.trace[|old(past)|..], old(n))
      ensures OnDisk(area, old(base))
      ensures CrashSafe(area, old(base), cache.trace[|old(past)|..], Decode(area, old(base)).home, Home())
    {
      hide CacheSpec.View, BufCache.Linked, CacheSpec.Inv, HeadOf, Decode, LogState, Pins, DirtyOnly, Replay,
           Formatted, Loggable, Updated, CrashSafe, Logged, TransactionWrites, Meanings, HeadersWithin;
      ViewInTransaction(area, base, cache.Abs(), cache.trace[|past|..], ups, sector[..n], pin);
      LoggedIs(area, base, cache.disk, cache.trace[|past|..], ups, sector[..n]);
      CommitBody();
      HeadersBound(area, base, ups, cache.trace[|past|..], old(n));
      HomeAt(area, cache.disk);
      busy := false;
      CleanView(cache.Abs());
      FreshLog(area, cache.disk);
      NoPins(cache.bufs[..], Decode(area, cache.disk).slots);
      pin, base, past, ups := [], cache.disk, cache.trace, [];
      assert cache.trace[|past|..] == [] && sector[..n] == [];
    }

    /** begin_trans, when no transaction is active; otherwise it sleeps. */
    method BeginTrans()
      requires Valid() && !busy
      modifies this`busy
      ensures Valid() && busy
    {
      busy := true;
    }

    // ---- the idioms of file-system code -------------------------------------------------

    /** The home area as the file system sees it. */
    ghost function Home(): Flat
      requires Shape()
      reads this, cache, cache.bufs, cache.link, sector
    {
      HomeOf(area, L())
    }

    /** bufcache_read of a home sector; keep lists the buffers already held. */
    method Acquire(s: nat, ghost keep: seq<nat>) returns (b: nat)
      requires Valid() && cache.stale == {} && BusyOnly(cache.bufs[..], keep) && n + |keep| < BufCache.NBUF
      requires s in cache.disk && !area.InLog(s) && forall k :: 0 <= k < |keep| ==> !Holds(cache.bufs[..][keep[k]], s)
      modifies cache, cache.bufs, cache.link
      ensures Valid() && cache.stale == {} && BusyOnly(cache.bufs[..], keep + [b]) && L() == old(L())
      ensures b < BufCache.NBUF && !old(cache.bufs[b].busy)
      ensures Holds(cache.bufs[b], s) && cache.bufs[b].valid && cache.bufs[b].data == L()[s]
      ensures KeepsPinned(old(cache.bufs[..]), cache.bufs[..][b := cache.bufs[b].(busy := false)])
    {
      hide CacheSpec.View, BufCache.Linked, CacheSpec.Inv, LogState, Decode, Pins;
      ghost var was := cache.bufs[..];
      RoomFor(was, pin, sector[..n], Decode(area, cache.disk).slots, keep);
      DirtyShows(cache.Abs(), s);
      b := cache.Read(s);
      TakeKeeps(area, was, pin, sector[..n], Decode(area, cache.disk).slots, keep, cache.bufs[..], b);
    }

    /** Change the data of a held buffer and log_write it. */
    method Put(b: nat, x: Words.Block, ghost keep: seq<nat>)
      requires Valid() && busy && n < LOGSIZE && n + 1 < area.size && cache.stale == {}
      requires BusyOnly(cache.bufs[..], keep) && n + |keep| < BufCache.NBUF
      requires b in keep && cache.bufs[b].valid && cache.bufs[b].dev == ROOTDEV
      requires !area.InLog(cache.bufs[b].sector) && cache.bufs[b].sector < U32
      modifies this`n, this`pin, this`ups, sector, cache, cache.bufs, cache.link
      ensures Valid() && cache.stale == {} && BusyOnly(cache.bufs[..], keep)
      ensures sector[..n] == Slotted(old(sector[..n]), old(cache.bufs[b].sector))
      ensures cache.bufs[b] == old(cache.bufs[b]).(data := x, dirty := true)
      ensures KeepsPinned(old(cache.bufs[..]), cache.bufs[..][b := old(cache.bufs[b])])
      ensures Home() == old(Home())[old(cache.bufs[b].sector) := x]
    {
      hide CacheSpec.View, BufCache.Linked, CacheSpec.Inv, LogState, Decode, Pins, KeepsPinned, HomeOf;
      ghost var was := cache.bufs[..];
      RoomFor(was, pin, sector[..n], Decode(area, cache.disk).slots, keep);
      InvFacts(cache.Abs(), cache.stale);
      cache.SetData(b, x);
      SetKeeps(area, was, pin, sector[..n], Decode(area, cache.disk).slots, keep, b, x);
      ghost var (mid, m) := (L(), cache.bufs[..]);
      assert cache.stale == {b};
      LogWrite(b);
      PutKeeps(was, m, cache.bufs[..], keep, b, x);
      ghost var at :| area.InLog(at) && L() == mid[at := x];
      HomeAfter(area, old(L()), was[b].sector, x, at);
    }

    /** bufcache_release. */
    method Drop(b: nat, ghost keep: seq<nat>)
      requires b < BufCache.NBUF && Valid() && cache.stale == {} && BusyOnly(cache.bufs[..], keep + [b]) && b !in keep
      modifies cache, cache.bufs, cache.link
      ensures Valid() && cache.stale == {} && BusyOnly(cache.bufs[..], keep) && L() == old(L())
      ensures cache.bufs[..] == old(cache.bufs[..])[b := old(cache.bufs[b]).(busy := false)]
    {
      hide CacheSpec.View, BufCache.Linked, CacheSpec.Inv, LogState, Decode, Pins;
      assert (keep + [b])[|keep|] == b;
      DropKeeps(area, cache.bufs[..], pin, sector[..n], Decode(area, cache.disk).slots, keep, b);
      cache.Release(b);
    }

    /** Read a sector and release its buffer. */
    method Fetch(s: nat, ghost keep: seq<nat>) returns (x: Words.Block)
      requires Valid() && cache.stale == {} && BusyOnly(cache.bufs[..], keep) && n + |keep| < BufCache.NBUF
      requires s in cache.disk && !area.InLog(s) && forall k :: 0 <= k < |keep| ==> !Holds(cache.bufs[..][keep[k]], s)
      modifies cache, cache.bufs, cache.link
      ensures Valid() && cache.stale == {} && BusyOnly(cache.bufs[..], keep) && L() == old(L()) && x == L()[s]
      ensures KeepsPinned(old(cache.bufs[..]), cache.bufs[..])
    {
      hide CacheSpec.View, BufCache.Linked, CacheSpec.Inv, LogState, Decode, Pins, KeepsPinned;
      var b := Acquire(s, keep);
      x := cache.bufs[b].data;
      Drop(b, keep);
    }

    /** Read a sector, replace its content, log it and release it. */
    method Rewrite(s: nat, x: Words.Block, ghost keep: seq<nat>)
      requires Valid() && busy && n < LOGSIZE && n + 1 < area.size && cache.stale == {}
      requires BusyOnly(cache.bufs[..], keep) && n + |keep| + 1 < BufCache.NBUF
      requires s in cache.disk && s < U32 && !area.InLog(s)
      requires forall k :: 0 <= k < |keep| ==> !Holds(cache.bufs[..][keep[k]], s)
      modifies this`n, this`pin, this`ups, sector, cache, cache.bufs, cache.link
      ensures Valid() && cache.stale == {} && BusyOnly(cache.bufs[..], keep)
      ensures sector[..n] == Slotted(old(sector[..n]), s) && Home() == old(Home())[s := x]
      ensures forall b :: 0 <= b < BufCache.NBUF && old(cache.bufs[b].busy) ==> cache.bufs[b] == old(cache.bufs[b])
    {
      hide CacheSpec.View, BufCache.Linked, CacheSpec.Inv, LogState, Decode, Pins;
      var b := Acquire(s, keep);
      Put(b, x, keep + [b]);
      Drop(b, keep);
    }
  }

  /** A machine boots: its log is empty and its home area is the one the disk stood for. */
  method Boot(a: Area, disk: Flat, zero: Words.Block) returns (log: TxLog)
    requires Bootable(a, disk)
    ensures fresh(log) && fresh(log.cache) && fresh(log.cache.bufs) && fresh(log.cache.link) && fresh(log.sector)
    ensures log.Valid() && log.area == a && !log.busy && log.n == 0 && log.ups == []
    ensures NoneBusy(log.cache.bufs[..]) && log.cache.stale == {}
    ensures var h := Durable(Decode(a, disk)); log.Home() == h && CrashSafe(a, disk, log.cache.trace, h, h)
  {
    hide CacheSpec.View, BufCache.Linked, CacheSpec.Inv, HeadOf, Decode, LogState, Pins, Replay, Formatted, Durable,
         CrashSafe, HomeOf;
    log := new TxLog(a, disk, zero);
    log.LogInit();
    HomeAt(a, log.cache.disk);
  }

  /**
   * Boots that are cut off in the middle of recovery, after the given numbers of sector writes, and one that
   * completes: together they find the home area that one boot would have found.
   */
  method BootAfterCrashes(a: Area, disk: Flat, zero: Words.Block, ks: seq<nat>) returns (log: TxLog)
    requires Bootable(a, disk)
    ensures fresh(log) && fresh(log.cache) && fresh(log.cache.bufs) && fresh(log.cache.link) && fresh(log.sector)
    ensures log.Valid() && log.area == a && !log.busy && log.n == 0 && log.ups == []
    ensures NoneBusy(log.cache.bufs[..]) && log.cache.stale == {} && log.Home() == Durable(Decode(a, disk))
  {
    hide CacheSpec.View, BufCache.Linked, CacheSpec.Inv, HeadOf, Decode, LogState, Pins, Replay, Formatted, Durable,
         HomeOf;
    var (d, i) := (disk, 0);
    while i < |ks|
      invariant i <= |ks| && Bootable(a, d) && Durable(Decode(a, d)) == Durable(Decode(a, disk))
    {
      log := Boot(a, d, zero);
      var tr := log.cache.trace;
      var k := if ks[i] <= |tr| then ks[i] else |tr|;
      ghost var h := Durable(Decode(a, d));
      assert RecoversTo(a, Replay(d, tr[..k]), h, h);
      d := Replay(d, tr[..k]);
      i := i + 1;
    }
    log := Boot(a, d, zero);
  }
}
