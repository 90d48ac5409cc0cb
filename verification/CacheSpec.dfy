/**
 * The buffer cache as values: buffers with flags, the LRU order, the disk and the driver's queue.
 * One function per atomic section; runs interleave the sections of any number of threads.
 */
module CacheSpec {
  import opened Common

  const ROOTDEV: int := 1

  /** dev is -1 for a buffer that has never been used. */
  datatype Buf<B> = Buf(dev: int, sector: nat, busy: bool, valid: bool, dirty: bool, data: B)

  /** lru lists buffer numbers from most to least recently used; queue is the driver's request queue. */
  datatype Cache<B> = Cache(bufs: seq<Buf<B>>, lru: seq<nat>, disk: map<nat, B>, queue: seq<nat>)

  predicate Holds<B>(b: Buf<B>, s: nat) { b.dev == ROOTDEV && b.sector == s }

  predicate Evictable<B>(b: Buf<B>) { !b.busy && !b.dirty }

  /** The order is a permutation of the buffers. */
  predicate Permutation(q: seq<nat>, n: nat) {
    |q| == n && Distinct(q) && (forall b :: 0 <= b < n ==> b in q) && (forall i :: 0 <= i < |q| ==> q[i] < n)
  }

  // ---- lookups ------------------------------------------------------------------------

  /** The first place in the order, from i on, of a buffer for sector s. */
  function FindFrom<B>(c: Cache<B>, s: nat, i: nat): (k: nat)
    requires i <= |c.lru| && forall j :: 0 <= j < |c.lru| ==> c.lru[j] < |c.bufs|
    ensures i <= k <= |c.lru|
    ensures k < |c.lru| ==> Holds(c.bufs[c.lru[k]], s)
    ensures forall j :: i <= j < k ==> !Holds(c.bufs[c.lru[j]], s)
    decreases |c.lru| - i
  {
    if i == |c.lru| || Holds(c.bufs[c.lru[i]], s) then i else FindFrom(c, s, i + 1)
  }

  /** One past the last place in the order, up to i, of an evictable buffer; 0 if there is none. */
  function VictimUpTo<B>(c: Cache<B>, i: nat): (k: nat)
    requires i <= |c.lru| && forall j :: 0 <= j < |c.lru| ==> c.lru[j] < |c.bufs|
    ensures k <= i
    ensures k > 0 ==> Evictable(c.bufs[c.lru[k - 1]])
    ensures forall j :: k <= j < i ==> !Evictable(c.bufs[c.lru[j]])
  {
    if i == 0 || Evictable(c.bufs[c.lru[i - 1]]) then i else VictimUpTo(c, i - 1)
  }

  // ---- the atomic sections ---------------------------------------------------------------

  datatype Got = Hit(b: nat) | Wait(b: nat) | Recycle(b: nat) | NoBuffers

  /** What bufcache_get decides in one pass over the list. */
  function Decide<B>(c: Cache<B>, s: nat): (g: Got)
    requires Permutation(c.lru, |c.bufs|)
    ensures !g.NoBuffers? ==> g.b < |c.bufs|
  {
    var k := FindFrom(c, s, 0);
    if k < |c.lru| then
      if c.bufs[c.lru[k]].busy then Wait(c.lru[k]) else Hit(c.lru[k])
    else
      var v := VictimUpTo(c, |c.lru|);
      if v > 0 then Recycle(c.lru[v - 1]) else NoBuffers
  }

  function SetBuf<B>(c: Cache<B>, b: nat, x: Buf<B>): Cache<B>
    requires b < |c.bufs|
  {
    c.(bufs := c.bufs[b := x])
  }

  function Get<B>(c: Cache<B>, s: nat): Cache<B>
    requires Permutation(c.lru, |c.bufs|)
  {
    match Decide(c, s)
    case Hit(b) => SetBuf(c, b, c.bufs[b].(busy := true))
    case Recycle(b) => SetBuf(c, b, Buf(ROOTDEV, s, true, false, false, c.bufs[b].data))
    case _ => c
  }

  function MarkDirty<B>(c: Cache<B>, b: nat): Cache<B>
    requires b < |c.bufs|
  {
    SetBuf(c, b, c.bufs[b].(dirty := true))
  }

  function Modify<B>(c: Cache<B>, b: nat, x: B): Cache<B>
    requires b < |c.bufs|
  {
    SetBuf(c, b, c.bufs[b].(data := x))
  }

  /** ide_rw up to its sleep: append the request. */
  function Request<B>(c: Cache<B>, b: nat): Cache<B> {
    c.(queue := c.queue + [b])
  }

  /** ide_intr: finish the request at the head of the queue; a spurious interrupt changes nothing. */
  function Interrupt<B>(c: Cache<B>): Cache<B>
    requires c.queue != [] ==> c.queue[0] < |c.bufs| && c.bufs[c.queue[0]].sector in c.disk
  {
    if c.queue == [] then c
    else
      var b := c.queue[0];
      var x := c.bufs[b];
      var c' := c.(queue := c.queue[1..]);
      if x.dirty then
        SetBuf(c', b, x.(valid := true, dirty := false)).(disk := c.disk[x.sector := x.data])
      else
        SetBuf(c', b, x.(valid := true, data := c.disk[x.sector]))
  }

  function Release<B>(c: Cache<B>, b: nat): Cache<B>
    requires b < |c.bufs|
  {
    SetBuf(c, b, c.bufs[b].(busy := false)).(lru := [b] + Without(c.lru, b))
  }

  // ---- invariant ---------------------------------------------------------------------------

  /** A buffer in use for a sector of the disk; clean buffers not being changed equal the disk. */
  predicate BufOk<B(==)>(c: Cache<B>, stale: set<nat>, b: nat)
    requires b < |c.bufs|
  {
    var x := c.bufs[b];
    && (x.dev == ROOTDEV ==> x.sector in c.disk)
    && (x.dev == ROOTDEV && x.valid && !x.dirty && b !in stale ==> x.data == c.disk[x.sector])
    && (x.busy || x.dirty || x.valid ==> x.dev == ROOTDEV)
    && (x.dirty ==> x.valid)
    && (b in stale ==> x.valid && (x.busy || x.dirty))
  }

  /** stale: buffers whose holder has changed the data and not yet marked or written it. */
  predicate Inv<B(==)>(c: Cache<B>, stale: set<nat>) {
    && Permutation(c.lru, |c.bufs|)
    && (forall b :: 0 <= b < |c.bufs| ==> BufOk(c, stale, b))
    && (forall a, b :: 0 <= a < b < |c.bufs| && c.bufs[a].dev == ROOTDEV && c.bufs[b].dev == ROOTDEV ==>
          c.bufs[a].sector != c.bufs[b].sector)
    && Distinct(c.queue)
    && (forall i :: 0 <= i < |c.queue| ==>
          c.queue[i] < |c.bufs| && c.bufs[c.queue[i]].busy && (c.bufs[c.queue[i]].dirty || !c.bufs[c.queue[i]].valid))
  }

  /** What a reader of sector s is entitled to see. */
  function ViewAt<B>(c: Cache<B>, s: nat): (x: B)
    requires Permutation(c.lru, |c.bufs|) && s in c.disk
  {
    var k := FindFrom(c, s, 0);
    if k < |c.lru| && c.bufs[c.lru[k]].valid then c.bufs[c.lru[k]].data else c.disk[s]
  }

  function View<B>(c: Cache<B>): (m: map<nat, B>)
    requires Permutation(c.lru, |c.bufs|)
    ensures m.Keys == c.disk.Keys
  {
    map s | s in c.disk :: ViewAt(c, s)
  }

  /** The view in terms of any buffer that holds the sector, wherever it stands in the order. */
  lemma ViewHeld<B>(c: Cache<B>, stale: set<nat>, b: nat)
    requires Inv(c, stale) && b < |c.bufs| && c.bufs[b].dev == ROOTDEV
    ensures c.bufs[b].sector in c.disk
    ensures ViewAt(c, c.bufs[b].sector) == if c.bufs[b].valid then c.bufs[b].data else c.disk[c.bufs[b].sector]
  {
    assert BufOk(c, stale, b);
    assert b in c.lru;
    var k :| 0 <= k < |c.lru| && c.lru[k] == b;
    assert Holds(c.bufs[c.lru[k]], c.bufs[b].sector);
  }

  lemma ViewMissing<B>(c: Cache<B>, s: nat)
    requires Permutation(c.lru, |c.bufs|) && s in c.disk
    requires forall b :: 0 <= b < |c.bufs| ==> !Holds(c.bufs[b], s)
    ensures ViewAt(c, s) == c.disk[s]
  {
  }

  /** Two caches that agree on who holds s, and on its value, show the same. */
  lemma SameView<B>(c: Cache<B>, stale: set<nat>, d: Cache<B>, stale': set<nat>, s: nat)
    requires Inv(c, stale) && Inv(d, stale') && |c.bufs| == |d.bufs| && s in c.disk && s in d.disk
    requires forall b :: 0 <= b < |c.bufs| ==> (Holds(c.bufs[b], s) <==> Holds(d.bufs[b], s))
    requires forall b :: 0 <= b < |c.bufs| && Holds(c.bufs[b], s) ==>
               c.bufs[b].valid == d.bufs[b].valid && c.bufs[b].data == d.bufs[b].data
    requires c.disk[s] == d.disk[s] || exists b :: 0 <= b < |c.bufs| && Holds(c.bufs[b], s) && c.bufs[b].valid
    ensures ViewAt(c, s) == ViewAt(d, s)
  {
    if b :| 0 <= b < |c.bufs| && Holds(c.bufs[b], s) {
      ViewHeld(c, stale, b);
      ViewHeld(d, stale', b);
    } else {
      ViewMissing(c, s);
      ViewMissing(d, s);
    }
  }

  /** A step on one held buffer, and perhaps its disk sector, shows only at that sector. */
  lemma OneBufView<B>(c: Cache<B>, stale: set<nat>, d: Cache<B>, stale': set<nat>, b: nat)
    requires Inv(c, stale) && Inv(d, stale') && b < |c.bufs| && c.bufs[b].dev == ROOTDEV
    requires |d.bufs| == |c.bufs| && d.bufs == c.bufs[b := d.bufs[b]]
    requires d.bufs[b].dev == ROOTDEV && d.bufs[b].sector == c.bufs[b].sector
    requires forall r :: r in d.disk <==> r in c.disk
    requires forall r :: r in c.disk && r != c.bufs[b].sector ==> d.disk[r] == c.disk[r]
    ensures var (s, x) := (c.bufs[b].sector, d.bufs[b]);
            s in d.disk && View(d) == View(c)[s := if x.valid then x.data else d.disk[s]]
    ensures var (s, x) := (c.bufs[b].sector, c.bufs[b]);
            s in c.disk && View(c)[s] == if x.valid then x.data else c.disk[s]
  {
    hide ViewAt, FindFrom;
    ViewHeld(c, stale, b);
    ViewHeld(d, stale', b);
    forall r | r in c.disk && r != c.bufs[b].sector ensures ViewAt(d, r) == ViewAt(c, r) {
      SameView(c, stale, d, stale', r);
    }
  }

  // ---- each section keeps the invariant, and only Modify changes the view --------------------

  lemma GetKeeps<B>(c: Cache<B>, stale: set<nat>, s: nat)
    requires Inv(c, stale) && s in c.disk
    ensures Inv(Get(c, s), stale) && View(Get(c, s)) == View(c)
    ensures Decide(c, s).Hit? || Decide(c, s).Recycle? ==>
              var b := Decide(c, s).b;
              !c.bufs[b].busy && Holds(Get(c, s).bufs[b], s) && Get(c, s).bufs[b].busy
  {
    hide ViewAt, View, VictimUpTo;
    var d := Get(c, s);
    match Decide(c, s) {
      case Hit(b) => HitKeeps(c, stale, b);
      case Recycle(b) => RecycleKeeps(c, stale, s);
      case _ =>
    }
  }

  lemma HitKeeps<B>(c: Cache<B>, stale: set<nat>, b: nat)
    requires Inv(c, stale) && b < |c.bufs| && !c.bufs[b].busy && c.bufs[b].dev == ROOTDEV
    ensures var d := SetBuf(c, b, c.bufs[b].(busy := true)); Inv(d, stale) && View(d) == View(c)
  {
    hide ViewAt, FindFrom;
    var d := SetBuf(c, b, c.bufs[b].(busy := true));
    assert BufOk(c, stale, b);
    assert forall a :: 0 <= a < |c.bufs| && a != b ==> BufOk(c, stale, a) == BufOk(d, stale, a);
    OneBufView(c, stale, d, stale, b);
  }

  lemma NotHeld<B>(c: Cache<B>, s: nat)
    requires Permutation(c.lru, |c.bufs|) && FindFrom(c, s, 0) == |c.lru|
    ensures forall a :: 0 <= a < |c.bufs| ==> !Holds(c.bufs[a], s)
  {
    forall a | 0 <= a < |c.bufs| ensures !Holds(c.bufs[a], s) { assert a in c.lru; }
  }

  lemma RecycleInv<B>(c: Cache<B>, stale: set<nat>, s: nat)
    requires Inv(c, stale) && s in c.disk && Decide(c, s).Recycle?
    ensures Inv(Get(c, s), stale) && Get(c, s).disk == c.disk
  {
    var d := Get(c, s);
    var b := Decide(c, s).b;
    assert BufOk(c, stale, b);
    assert forall a :: 0 <= a < |c.bufs| && a != b ==> BufOk(c, stale, a) == BufOk(d, stale, a);
    NotHeld(c, s);
  }

  lemma RecycleKeeps<B>(c: Cache<B>, stale: set<nat>, s: nat)
    requires Inv(c, stale) && s in c.disk && Decide(c, s).Recycle?
    ensures Inv(Get(c, s), stale) && View(Get(c, s)) == View(c)
  {
    hide ViewAt, Get, Decide, FindFrom, BufOk;
    RecycleInv(c, stale, s);
    forall r | r in c.disk ensures ViewAt(Get(c, s), r) == ViewAt(c, r) { RecycledAt(c, stale, s, r); }
  }

  lemma RecycledAt<B>(c: Cache<B>, stale: set<nat>, s: nat, r: nat)
    requires Inv(c, stale) && s in c.disk && r in c.disk && Decide(c, s).Recycle? && Inv(Get(c, s), stale)
    ensures ViewAt(Get(c, s), r) == ViewAt(c, r)
  {
    NotHeld(c, s);
    var d := Get(c, s);
    var b := Decide(c, s).b;
    assert BufOk(c, stale, b);
    hide ViewAt, FindFrom, VictimUpTo;
    if r == s {
      ViewMissing(c, r);
      ViewHeld(d, stale, b);
    } else if Holds(c.bufs[b], r) {
      ViewHeld(c, stale, b);
      ViewMissing(d, r);
    } else {
      SameView(c, stale, d, stale, r);
    }
  }

  /** What the caller of bufcache_get finds in the buffer it was given. */
  lemma GotBuffer<B>(c: Cache<B>, stale: set<nat>, s: nat)
    requires Inv(c, stale) && s in c.disk && (Decide(c, s).Hit? || Decide(c, s).Recycle?)
    ensures var b := Decide(c, s).b; var (x, y) := (c.bufs[b], Get(c, s).bufs[b]);
            && Get(c, s) == c.(bufs := c.bufs[b := y])
            && !x.busy && (x.dirty ==> Holds(x, s) && y.valid) && (b in stale ==> x.dirty)
            && y == Buf(ROOTDEV, s, true, y.valid, x.dirty, x.data)
            && (if y.valid then y.data else c.disk[s]) == View(c)[s]
  {
    hide Get, Decide, View, ViewAt, FindFrom;
    GetKeeps(c, stale, s);
    GotShape(c, stale, s);
    ViewHeld(Get(c, s), stale, Decide(c, s).b);
    ViewIs(Get(c, s), s);
  }

  lemma GotShape<B>(c: Cache<B>, stale: set<nat>, s: nat)
    requires Inv(c, stale) && s in c.disk && (Decide(c, s).Hit? || Decide(c, s).Recycle?)
    ensures |Get(c, s).bufs| == |c.bufs|
    ensures var b := Decide(c, s).b; var (x, y) := (c.bufs[b], Get(c, s).bufs[b]);
            && Get(c, s) == c.(bufs := c.bufs[b := y])
            && !x.busy && (x.dirty ==> Holds(x, s) && y.valid) && (b in stale ==> x.dirty)
            && y == Buf(ROOTDEV, s, true, y.valid, x.dirty, x.data)
  {
    assert BufOk(c, stale, Decide(c, s).b);
  }

  lemma ViewIs<B>(c: Cache<B>, s: nat)
    requires Permutation(c.lru, |c.bufs|) && s in c.disk
    ensures View(c)[s] == ViewAt(c, s)
  {
  }

  /** bufcache_get for s neither sleeps nor panics. */
  predicate CanGet<B>(c: Cache<B>, s: nat) {
    && (forall b :: 0 <= b < |c.bufs| && Holds(c.bufs[b], s) ==> !c.bufs[b].busy)
    && exists b :: 0 <= b < |c.bufs| && (Holds(c.bufs[b], s) || Evictable(c.bufs[b]))
  }

  /** It is exactly so: the scans sleep on a busy holder and panic when nothing can be recycled. */
  lemma CanGetIff<B>(c: Cache<B>, stale: set<nat>, s: nat)
    requires Inv(c, stale)
    ensures CanGet(c, s) <==> Decide(c, s).Hit? || Decide(c, s).Recycle?
  {
    match Decide(c, s) {
      case Hit(b) => assert Holds(c.bufs[b], s);
      case Wait(b) => assert Holds(c.bufs[b], s);
      case Recycle(b) => NotHeld(c, s); assert Evictable(c.bufs[b]);
      case NoBuffers =>
        NotHeld(c, s);
        forall b | 0 <= b < |c.bufs| ensures !Evictable(c.bufs[b]) { assert b in c.lru; }
    }
  }

  lemma MarkKeeps<B>(c: Cache<B>, stale: set<nat>, b: nat)
    requires Inv(c, stale) && b < |c.bufs| && c.bufs[b].busy && c.bufs[b].valid && b !in c.queue
    ensures Inv(MarkDirty(c, b), stale - {b}) && View(MarkDirty(c, b)) == View(c)
  {
    hide ViewAt, FindFrom;
    var d := MarkDirty(c, b);
    assert BufOk(c, stale, b);
    assert forall a :: 0 <= a < |c.bufs| && a != b ==> BufOk(c, stale, a) == BufOk(d, stale - {b}, a);
    OneBufView(c, stale, d, stale - {b}, b);
  }

  lemma ModifyKeeps<B>(c: Cache<B>, stale: set<nat>, b: nat, x: B)
    requires Inv(c, stale) && b < |c.bufs| && c.bufs[b].busy && c.bufs[b].valid && b !in c.queue
    ensures c.bufs[b].sector in c.disk
    ensures Inv(Modify(c, b, x), stale + {b}) && View(Modify(c, b, x)) == View(c)[c.bufs[b].sector := x]
  {
    hide ViewAt, FindFrom;
    var d := Modify(c, b, x);
    assert BufOk(c, stale, b);
    assert forall a :: 0 <= a < |c.bufs| && a != b ==> BufOk(c, stale, a) == BufOk(d, stale + {b}, a);
    OneBufView(c, stale, d, stale + {b}, b);
  }

  lemma RequestKeeps<B>(c: Cache<B>, stale: set<nat>, b: nat)
    requires Inv(c, stale) && b < |c.bufs| && c.bufs[b].busy && (c.bufs[b].dirty || !c.bufs[b].valid) && b !in c.queue
    ensures Inv(Request(c, b), stale) && View(Request(c, b)) == View(c)
  {
    hide ViewAt, FindFrom;
    var d := Request(c, b);
    forall a | 0 <= a < |c.bufs| ensures BufOk(d, stale, a) { assert BufOk(c, stale, a); }
    assert BufOk(c, stale, b) && d.bufs == c.bufs[b := d.bufs[b]];
    OneBufView(c, stale, d, stale, b);
  }

  /** The buffer the next interrupt finishes. */
  function Served<B>(c: Cache<B>): set<nat> { if c.queue == [] then {} else {c.queue[0]} }

  lemma ServedInv<B>(c: Cache<B>, stale: set<nat>)
    requires Inv(c, stale) && c.queue != []
    ensures BufOk(c, stale, c.queue[0])
    ensures Inv(Interrupt(c), stale - Served(c))
    ensures var x := Interrupt(c).bufs[c.queue[0]];
            x.dev == ROOTDEV && x.valid && !x.dirty && x.sector in c.disk && x.data == Interrupt(c).disk[x.sector]
    ensures Interrupt(c).disk.Keys == c.disk.Keys
  {
    var b := c.queue[0];
    assert BufOk(c, stale, b);
    var d := Interrupt(c);
    forall a | 0 <= a < |c.bufs| ensures BufOk(d, stale - {b}, a) { assert BufOk(c, stale, a); }
    assert forall i :: 0 <= i < |d.queue| ==> d.queue[i] == c.queue[i + 1];
  }

  /** A finished request leaves its buffer valid, clean and equal to the disk, and shows nothing new. */
  lemma InterruptKeeps<B>(c: Cache<B>, stale: set<nat>)
    requires Inv(c, stale)
    ensures c.queue != [] ==> BufOk(c, stale, c.queue[0])
    ensures Inv(Interrupt(c), stale - Served(c)) && View(Interrupt(c)) == View(c)
    ensures c.queue != [] ==>
              var x := Interrupt(c).bufs[c.queue[0]];
              x.valid && !x.dirty && x.sector in c.disk && x.data == Interrupt(c).disk[x.sector]
  {
    if c.queue == [] {
      assert stale - Served(c) == stale;
    } else {
      ServedInv(c, stale);
      ServedView(c, stale);
    }
  }

  lemma ServedView<B>(c: Cache<B>, stale: set<nat>)
    requires Inv(c, stale) && c.queue != []
    requires BufOk(c, stale, c.queue[0]) && Inv(Interrupt(c), stale - Served(c))
    ensures View(Interrupt(c)) == View(c)
  {
    var d := Interrupt(c);
    var left := stale - Served(c);
    OneBufView(c, stale, d, left, c.queue[0]);
  }

  lemma ReleaseOrder<B>(lru: seq<nat>, n: nat, b: nat)
    requires Permutation(lru, n) && b < n
    ensures Permutation([b] + Without(lru, b), n)
  {
    WithoutIs(lru, b);
    var q := [b] + Without(lru, b);
    assert forall i :: 0 < i < |q| ==> q[i] == Without(lru, b)[i - 1];
    forall a | 0 <= a < n ensures a in q { assert a in lru; }
    forall i | 0 <= i < |q| ensures q[i] < n { if i > 0 { assert q[i] in lru; } }
    forall i, j | 0 <= i < j < |q| ensures q[i] != q[j] { assert q[j] in Without(lru, b); }
  }

  /** x stands before y. */
  ghost predicate Before(q: seq<nat>, x: nat, y: nat) { exists i, j :: 0 <= i < j < |q| && q[i] == x && q[j] == y }

  lemma BeforeAt(q: seq<nat>, i: nat, j: nat)
    requires Distinct(q) && i < |q| && j < |q|
    ensures Before(q, q[i], q[j]) <==> i < j
  {
  }

  /** b is first, and all others keep their order. */
  ghost predicate MovedToFront(q: seq<nat>, r: seq<nat>, b: nat) {
    && r != [] && r[0] == b && |r| == |q|
    && forall x: nat, y: nat :: x in q && y in q && x != b && y != b ==> (Before(r, x, y) <==> Before(q, x, y))
  }

  lemma FrontAt(q: seq<nat>, k: nat, i: nat)
    requires k < |q| && i < |q| && i != k
    ensures ([q[k]] + (q[..k] + q[k + 1..]))[if i < k then i + 1 else i] == q[i]
  {
  }

  lemma FrontOrder(q: seq<nat>, r: seq<nat>, k: nat, i: nat, j: nat)
    requires Distinct(q) && Distinct(r) && k < |q| && i < |q| && j < |q| && i != k && j != k
    requires r == [q[k]] + (q[..k] + q[k + 1..])
    ensures Before(r, q[i], q[j]) <==> Before(q, q[i], q[j])
  {
    hide Before;
    FrontAt(q, k, i);
    FrontAt(q, k, j);
    BeforeAt(q, i, j);
    BeforeAt(r, if i < k then i + 1 else i, if j < k then j + 1 else j);
  }

  /** A released buffer becomes the first of the order. */
  lemma ReleaseFirst<B>(c: Cache<B>, b: nat)
    requires Permutation(c.lru, |c.bufs|) && b < |c.bufs|
    ensures MovedToFront(c.lru, Release(c, b).lru, b)
  {
    var (q, r) := (c.lru, Release(c, b).lru);
    ReleaseOrder<B>(q, |c.bufs|, b);
    assert b in q && Distinct(q) && Distinct(r) && |r| == |q|;
    hide Without, Permutation, Before, Distinct;
    var k :| 0 <= k < |q| && q[k] == b;
    WithoutAt(q, k);
    forall x: nat, y: nat | x in q && y in q && x != b && y != b ensures Before(r, x, y) <==> Before(q, x, y) {
      var i :| 0 <= i < |q| && q[i] == x;
      var j :| 0 <= j < |q| && q[j] == y;
      FrontOrder(q, r, k, i, j);
    }
  }

  lemma ReleaseKeeps<B>(c: Cache<B>, stale: set<nat>, b: nat)
    requires Inv(c, stale) && b < |c.bufs| && c.bufs[b].busy && b !in c.queue && (b in stale ==> c.bufs[b].dirty)
    ensures Inv(Release(c, b), stale) && View(Release(c, b)) == View(c)
  {
    var d := Release(c, b);
    ReleaseOrder<B>(c.lru, |c.bufs|, b);
    assert BufOk(c, stale, b);
    assert forall a :: 0 <= a < |c.bufs| && a != b ==> BufOk(c, stale, a) == BufOk(d, stale, a);
    OneBufView(c, stale, d, stale, b);
  }

  /**
   * Why holders must mark what they change: releasing a clean buffer keeps the cache honest
   * exactly when the buffer was not changed since it last agreed with the disk.
   */
  lemma ReleaseHonest<B>(c: Cache<B>, stale: set<nat>, b: nat)
    requires Inv(c, stale) && b < |c.bufs| && c.bufs[b].busy && c.bufs[b].valid && !c.bufs[b].dirty && b !in c.queue
    ensures c.bufs[b].sector in c.disk
    ensures Inv(Release(c, b), stale - {b}) <==> c.bufs[b].data == c.disk[c.bufs[b].sector]
  {
    assert BufOk(c, stale, b);
    var d := Release(c, b);
    ReleaseOrder<B>(c.lru, |c.bufs|, b);
    assert forall a :: 0 <= a < |c.bufs| && a != b ==> BufOk(c, stale, a) == BufOk(d, stale - {b}, a);
    assert Inv(d, stale - {b}) ==> BufOk(d, stale - {b}, b);
  }

  // ---- interleavings --------------------------------------------------------------------------

  datatype Step<B> =
    | DoGet(t: nat, s: nat) | DoMark(t: nat, b: nat) | DoModify(t: nat, b: nat, x: B)
    | DoRequest(t: nat, b: nat) | DoInterrupt | DoRelease(t: nat, b: nat)

  /** owner maps each buffer handed out to the thread that has it. */
  datatype World<B> = World(c: Cache<B>, owner: map<nat, nat>, stale: set<nat>)

  ghost predicate WorldInv<B>(w: World<B>) {
    Inv(w.c, w.stale) && (forall b: nat :: b in w.owner <==> b < |w.c.bufs| && w.c.bufs[b].busy)
  }

  /** Indices and sectors are in range, so that a step makes sense; the invariant implies it. */
  predicate InRange<B>(w: World<B>) {
    && Permutation(w.c.lru, |w.c.bufs|) && (forall b :: b in w.owner ==> b < |w.c.bufs|)
    && (w.c.queue != [] ==> w.c.queue[0] < |w.c.bufs| && w.c.bufs[w.c.queue[0]].sector in w.c.disk)
  }

  /** Thread t has buffer b and is not waiting for the disk with it. */
  predicate Mine<B>(w: World<B>, t: nat, b: nat) { b in w.owner && w.owner[b] == t && b !in w.c.queue }

  /** The rules callers follow: use only buffers you hold, not while waiting for the disk, and mark changes. */
  predicate Enabled<B>(w: World<B>, a: Step<B>) {
    && InRange(w)
    && match a
       case DoGet(t, s) => s in w.c.disk && !Decide(w.c, s).NoBuffers?
       case DoMark(t, b) => Mine(w, t, b) && w.c.bufs[b].valid
       case DoModify(t, b, x) => Mine(w, t, b) && w.c.bufs[b].valid
       case DoRequest(t, b) => Mine(w, t, b) && (w.c.bufs[b].dirty || !w.c.bufs[b].valid)
       case DoInterrupt => true
       case DoRelease(t, b) => Mine(w, t, b) && (b in w.stale ==> w.c.bufs[b].dirty)
  }

  lemma InvInRange<B>(w: World<B>)
    requires WorldInv(w)
    ensures InRange(w)
  {
    if w.c.queue != [] { assert BufOk(w.c, w.stale, w.c.queue[0]); }
  }

  function Next<B>(w: World<B>, a: Step<B>): World<B>
    requires Enabled(w, a)
  {
    match a
    case DoGet(t, s) =>
      var g := Decide(w.c, s);
      World(Get(w.c, s), if g.Wait? then w.owner else w.owner[g.b := t], w.stale)
    case DoMark(t, b) => World(MarkDirty(w.c, b), w.owner, w.stale - {b})
    case DoModify(t, b, x) => World(Modify(w.c, b, x), w.owner, w.stale + {b})
    case DoRequest(t, b) => World(Request(w.c, b), w.owner, w.stale)
    case DoInterrupt => World(Interrupt(w.c), w.owner, w.stale - Served(w.c))
    case DoRelease(t, b) => World(Release(w.c, b), w.owner - {b}, w.stale)
  }

  lemma StepKeeps<B>(w: World<B>, a: Step<B>)
    requires WorldInv(w) && Enabled(w, a)
    ensures WorldInv(Next(w, a))
    ensures View(Next(w, a).c) == if a.DoModify? then View(w.c)[w.c.bufs[a.b].sector := a.x] else View(w.c)
  {
    hide View, Decide, Permutation, BufOk;
    match a {
      case DoGet(t, s) => GetKeeps(w.c, w.stale, s); GetOwner(w, t, s);
      case DoMark(t, b) => MarkKeeps(w.c, w.stale, b);
      case DoModify(t, b, x) => ModifyKeeps(w.c, w.stale, b, x);
      case DoRequest(t, b) => RequestKeeps(w.c, w.stale, b);
      case DoInterrupt => InterruptKeeps(w.c, w.stale); InterruptOwner(w);
      case DoRelease(t, b) => ReleaseKeeps(w.c, w.stale, b);
    }
  }

  /** A buffer that bufcache_get hands out had no owner. */
  lemma GetOwner<B>(w: World<B>, t: nat, s: nat)
    requires WorldInv(w) && Enabled(w, DoGet(t, s))
    ensures Inv(Get(w.c, s), w.stale) ==> WorldInv(Next(w, DoGet(t, s)))
    ensures !Decide(w.c, s).Wait? ==> Decide(w.c, s).b !in w.owner
  {
  }

  lemma InterruptOwner<B>(w: World<B>)
    requires WorldInv(w)
    requires w.c.queue != [] ==> BufOk(w.c, w.stale, w.c.queue[0])
    ensures forall b: nat :: b in w.owner <==> b < |Interrupt(w.c).bufs| && Interrupt(w.c).bufs[b].busy
  {
  }

  /** A change that is not yet on disk is never lost: its buffer keeps it until the disk has it. */
  predicate Kept<B(==)>(c: Cache<B>, d: Cache<B>, b: nat)
    requires b < |c.bufs| == |d.bufs|
  {
    var (x, y) := (c.bufs[b], d.bufs[b]);
    x.dirty ==>
      && y.dev == x.dev && y.sector == x.sector && y.valid
      && (y.dirty || (x.sector in d.disk && d.disk[x.sector] == x.data == y.data))
  }

  lemma InterruptNeverDrops<B>(c: Cache<B>, stale: set<nat>, b: nat)
    requires Inv(c, stale) && b < |c.bufs|
    requires c.queue != [] ==> BufOk(c, stale, c.queue[0])
    ensures Kept(c, Interrupt(c), b)
  {
    assert BufOk(c, stale, b);
  }

  lemma NothingDirtyIsDropped<B>(w: World<B>, a: Step<B>, b: nat)
    requires WorldInv(w) && Enabled(w, a) && b < |w.c.bufs|
    ensures |Next(w, a).c.bufs| == |w.c.bufs| && Kept(w.c, Next(w, a).c, b)
  {
    assert BufOk(w.c, w.stale, b);
    if a.DoInterrupt? {
      InterruptKeeps(w.c, w.stale);
      InterruptNeverDrops(w.c, w.stale, b);
    }
  }

  ghost predicate Trace<B>(ws: seq<World<B>>, run: seq<Step<B>>) {
    && |ws| == |run| + 1
    && forall i :: 0 <= i < |run| ==> Enabled(ws[i], run[i]) && ws[i + 1] == Next(ws[i], run[i])
  }

  /** A plain memory in which only the changes happen. */
  function Plain<B>(m: map<nat, B>, ws: seq<World<B>>, run: seq<Step<B>>): map<nat, B>
    requires Trace(ws, run)
  {
    if run == [] then m
    else
      var n := |run| - 1;
      var p := Plain(m, ws[..n + 1], run[..n]);
      if run[n].DoModify? then p[ws[n].c.bufs[run[n].b].sector := run[n].x] else p
  }

  /** Under every interleaving the invariant holds and the cached disk behaves as a plain memory. */
  lemma {:induction false} RunsAreTransparent<B>(ws: seq<World<B>>, run: seq<Step<B>>)
    requires ws != [] && WorldInv(ws[0]) && Trace(ws, run)
    ensures WorldInv(ws[|run|])
    ensures View(ws[|run|].c) == Plain(View(ws[0].c), ws, run)
  {
    if run != [] {
      var n := |run| - 1;
      hide WorldInv, Enabled, Next, View;
      RunsAreTransparent(ws[..n + 1], run[..n]);
      StepKeeps(ws[n], run[n]);
    }
  }

  // ---- the order of use, over runs -----------------------------------------------------------------

  /** The last of the first n steps that released buffer b; -1 if there is none. */
  function LastRelease<B>(run: seq<Step<B>>, n: nat, b: nat): int
    requires n <= |run|
  {
    if n == 0 then -1
    else if run[n - 1].DoRelease? && run[n - 1].b == b then n - 1
    else LastRelease(run, n - 1, b)
  }

  lemma {:induction false} LastReleaseIs<B>(run: seq<Step<B>>, n: nat, b: nat)
    requires n <= |run|
    ensures -1 <= LastRelease(run, n, b) < n
    ensures var l := LastRelease(run, n, b);
            && (l >= 0 ==> run[l].DoRelease? && run[l].b == b)
            && forall k :: l < k < n ==> !(run[k].DoRelease? && run[k].b == b)
  {
    if n > 0 { LastReleaseIs(run, n - 1, b); }
  }

  /** Only a release changes the order. */
  lemma OrderStep<B>(w: World<B>, a: Step<B>)
    requires Enabled(w, a)
    ensures !a.DoRelease? ==> Next(w, a).c.lru == w.c.lru
    ensures a.DoRelease? ==> MovedToFront(w.c.lru, Next(w, a).c.lru, a.b) && Permutation(Next(w, a).c.lru, |w.c.bufs|)
    ensures |Next(w, a).c.bufs| == |w.c.bufs|
  {
    hide Decide, Permutation, Without, MovedToFront;
    if a.DoRelease? {
      ReleaseFirst(w.c, a.b);
      ReleaseOrder<B>(w.c.lru, |w.c.bufs|, a.b);
    }
  }

  lemma {:induction false} SameBuffers<B>(ws: seq<World<B>>, run: seq<Step<B>>, n: nat)
    requires Trace(ws, run) && n <= |run| && Permutation(ws[0].c.lru, |ws[0].c.bufs|)
    ensures |ws[n].c.bufs| == |ws[0].c.bufs| && Permutation(ws[n].c.lru, |ws[n].c.bufs|)
  {
    hide Enabled, Next, Permutation, MovedToFront;
    if n > 0 {
      SameBuffers(ws, run, n - 1);
      OrderStep(ws[n - 1], run[n - 1]);
    }
  }

  /**
   * The order is that of last releases, over every run: x stands before y if it was released later, and buffers
   * never released keep the order they had at the start.
   */
  lemma {:induction false} OrderOfReleases<B>(ws: seq<World<B>>, run: seq<Step<B>>, n: nat, x: nat, y: nat)
    requires Trace(ws, run) && n <= |run| && Permutation(ws[0].c.lru, |ws[0].c.bufs|)
    requires x < |ws[0].c.bufs| && y < |ws[0].c.bufs| && x != y
    ensures var (l, k) := (LastRelease(run, n, x), LastRelease(run, n, y));
            Before(ws[n].c.lru, x, y) <==> l > k || (l == k == -1 && Before(ws[0].c.lru, x, y))
  {
    hide Enabled, Next, Before;
    if n > 0 {
      OrderOfReleases(ws, run, n - 1, x, y);
      SameBuffers(ws, run, n - 1);
      OrderStep(ws[n - 1], run[n - 1]);
      LastReleaseIs(run, n - 1, x);
      LastReleaseIs(run, n - 1, y);
      if run[n - 1].DoRelease? { FirstOf(ws[n - 1].c.lru, ws[n].c.lru, |ws[0].c.bufs|, run[n - 1].b, x, y); }
    }
  }

  lemma FirstOf(q: seq<nat>, r: seq<nat>, n: nat, b: nat, x: nat, y: nat)
    requires Permutation(q, n) && Permutation(r, n) && MovedToFront(q, r, b) && x < n && y < n && x != y && b < n
    ensures Before(r, x, y) <==> x == b || (y != b && Before(q, x, y))
  {
    assert x in r && y in r && x in q && y in q;
    var i :| 0 <= i < |r| && r[i] == x;
    var j :| 0 <= j < |r| && r[j] == y;
    BeforeAt(r, i, j);
    hide Permutation, Before;
  }

  /** The buffer bufcache_get recycles is the one, of those it could recycle, whose last release lies furthest back. */
  lemma VictimIsOldest<B>(ws: seq<World<B>>, run: seq<Step<B>>, n: nat, y: nat)
    requires Trace(ws, run) && Permutation(ws[0].c.lru, |ws[0].c.bufs|)
    requires n < |run| && run[n].DoGet? && Decide(ws[n].c, run[n].s).Recycle?
    requires y < |ws[n].c.bufs| && Evictable(ws[n].c.bufs[y])
    ensures var b := Decide(ws[n].c, run[n].s).b; var (l, k) := (LastRelease(run, n, b), LastRelease(run, n, y));
            Evictable(ws[n].c.bufs[b]) && (y != b ==> l < k || (l == k == -1 && Before(ws[0].c.lru, y, b)))
  {
    hide Next, Before, Permutation;
    var (c, s) := (ws[n].c, run[n].s);
    SameBuffers(ws, run, n);
    LastOf(c, s, y);
    if y != Decide(c, s).b { OrderOfReleases(ws, run, n, y, Decide(c, s).b); }
  }

  lemma LastOf<B>(c: Cache<B>, s: nat, y: nat)
    requires Permutation(c.lru, |c.bufs|) && Decide(c, s).Recycle? && y < |c.bufs| && Evictable(c.bufs[y])
    ensures y != Decide(c, s).b ==> Before(c.lru, y, Decide(c, s).b)
  {
    var v := VictimUpTo(c, |c.lru|);
    assert y in c.lru;
    var j :| 0 <= j < |c.lru| && c.lru[j] == y;
    if j != v - 1 { BeforeAt(c.lru, j, v - 1); }
  }

  // ---- the driver's queue, over runs -----------------------------------------------------------------

  /** The requests among the first n steps, in order. */
  function Requests<B>(run: seq<Step<B>>, n: nat): seq<nat>
    requires n <= |run|
  {
    if n == 0 then []
    else Requests(run, n - 1) + if run[n - 1].DoRequest? then [run[n - 1].b] else []
  }

  /** How many of the first n steps are interrupts that finish a request. */
  ghost function Finished<B>(ws: seq<World<B>>, run: seq<Step<B>>, n: nat): nat
    requires Trace(ws, run) && n <= |run|
  {
    if n == 0 then 0
    else Finished(ws, run, n - 1) + if run[n - 1].DoInterrupt? && ws[n - 1].c.queue != [] then 1 else 0
  }

  /** Requests are served in the order in which they were made, over every run. */
  lemma {:induction false} ServedInOrder<B>(ws: seq<World<B>>, run: seq<Step<B>>, n: nat)
    requires Trace(ws, run) && n <= |run|
    ensures var all := ws[0].c.queue + Requests(run, n);
            Finished(ws, run, n) <= |all| && ws[n].c.queue == all[Finished(ws, run, n)..]
  {
    hide Enabled, Next;
    if n > 0 {
      ServedInOrder(ws, run, n - 1);
      QueueStep(ws[n - 1], run[n - 1]);
      var (r, f) := (Requests(run, n - 1), Finished(ws, run, n - 1));
      QueueShift(ws[0].c.queue, r, Requests(run, n)[|r|..], f);
    }
  }

  lemma QueueShift(q: seq<nat>, r: seq<nat>, x: seq<nat>, f: nat)
    requires f <= |q + r|
    ensures q + (r + x) == q + r + x && (q + (r + x))[f..] == (q + r)[f..] + x
    ensures (q + r)[f..] != [] ==> (q + r)[f + 1..] == (q + r)[f..][1..]
  {
  }

  lemma QueueStep<B>(w: World<B>, a: Step<B>)
    requires Enabled(w, a)
    ensures Next(w, a).c.queue ==
              match a
              case DoRequest(t, b) => w.c.queue + [b]
              case DoInterrupt => if w.c.queue == [] then [] else w.c.queue[1..]
              case _ => w.c.queue
  {
    hide Decide, Permutation;
  }
}
