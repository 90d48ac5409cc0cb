/** The buffer cache with its circular doubly linked LRU list, and the disk driver below it. */
module BufCache {
  import opened Common
  import opened CacheSpec

  const NBUF: nat := 10

  /** List links; index NBUF is the list head. */
  datatype Link = Link(prev: nat, next: nat)

  /** Place i of the circular list: places -1 and |q| are the head. */
  function At(q: seq<nat>, i: int): nat { if 0 <= i < |q| then q[i] else NBUF }

  predicate Linked(ls: seq<Link>, q: seq<nat>) {
    && |ls| == NBUF + 1
    && (forall i :: 0 <= i < |q| ==> q[i] < NBUF)
    && (forall i :: -1 <= i < |q| ==> ls[At(q, i)].next == At(q, i + 1))
    && (forall i :: 0 <= i <= |q| ==> ls[At(q, i)].prev == At(q, i - 1))
  }

  function SetNext(ls: seq<Link>, i: nat, n: nat): seq<Link>
    requires i < |ls|
  {
    ls[i := ls[i].(next := n)]
  }

  function SetPrev(ls: seq<Link>, i: nat, p: nat): seq<Link>
    requires i < |ls|
  {
    ls[i := ls[i].(prev := p)]
  }

  /** The pointer assignments of bufcache_init's loop body. */
  function PushFront(ls: seq<Link>, b: nat): (r: seq<Link>)
    requires |ls| == NBUF + 1 && b < NBUF && ls[NBUF].next <= NBUF
  {
    var l1 := SetNext(ls, b, ls[NBUF].next);
    var l2 := SetPrev(l1, b, NBUF);
    var l3 := SetPrev(l2, l2[NBUF].next, b);
    SetNext(l3, NBUF, b)
  }

  lemma PushFrontLinks(ls: seq<Link>, q: seq<nat>, b: nat)
    requires Linked(ls, q) && Distinct(q) && b < NBUF && b !in q
    ensures ls[NBUF].next <= NBUF && Linked(PushFront(ls, b), [b] + q)
  {
    assert At(q, -1) == NBUF && ls[NBUF].next == At(q, 0);
    var r := PushFront(ls, b);
    var p := [b] + q;
    assert forall i :: 0 <= i <= |q| ==> At(p, i + 1) == At(q, i);
    forall i | -1 <= i < |p| ensures r[At(p, i)].next == At(p, i + 1) {
      assert i >= 1 ==> At(p, i) == At(q, i - 1) && ls[At(q, i - 1)].next == At(q, i);
    }
    forall i | 0 <= i <= |p| ensures r[At(p, i)].prev == At(p, i - 1) {
      assert i >= 1 ==> At(p, i) == At(q, i - 1) && ls[At(q, i - 1)].prev == At(q, i - 2);
      assert i >= 2 ==> At(p, i - 1) == At(q, i - 2) && At(q, i - 1) != At(q, 0);
    }
  }

  /** The two unlinking assignments of bufcache_release. */
  function Unlink(ls: seq<Link>, b: nat): (r: seq<Link>)
    requires |ls| == NBUF + 1 && b < NBUF && ls[b].next <= NBUF && ls[b].prev <= NBUF
  {
    SetNext(SetPrev(ls, ls[b].next, ls[b].prev), ls[b].prev, ls[b].next)
  }

  /** The list without place k, place by place. */
  lemma AtWithout(q: seq<nat>, k: nat, i: int)
    requires k < |q| && -1 <= i < |q|
    ensures At(q[..k] + q[k + 1..], i) == At(q, if i < k then i else i + 1)
  {
  }

  lemma UnlinkedNext(ls: seq<Link>, q: seq<nat>, k: nat, i: int)
    requires Linked(ls, q) && Distinct(q) && k < |q| && -1 <= i < |q| - 1
    ensures ls[q[k]].next <= NBUF && ls[q[k]].prev <= NBUF
    ensures var p := q[..k] + q[k + 1..]; Unlink(ls, q[k])[At(p, i)].next == At(p, i + 1)
  {
    AtWithout(q, k, i);
    AtWithout(q, k, i + 1);
    assert At(q, k) == q[k] && ls[At(q, k)].next == At(q, k + 1) && ls[At(q, k)].prev == At(q, k - 1);
    var j := if i < k then i else i + 1;
    assert ls[At(q, j)].next == At(q, j + 1);
  }

  lemma UnlinkedPrev(ls: seq<Link>, q: seq<nat>, k: nat, i: int)
    requires Linked(ls, q) && Distinct(q) && k < |q| && 0 <= i <= |q| - 1
    ensures ls[q[k]].next <= NBUF && ls[q[k]].prev <= NBUF
    ensures var p := q[..k] + q[k + 1..]; Unlink(ls, q[k])[At(p, i)].prev == At(p, i - 1)
  {
    AtWithout(q, k, i);
    AtWithout(q, k, i - 1);
    assert At(q, k) == q[k] && ls[At(q, k)].next == At(q, k + 1) && ls[At(q, k)].prev == At(q, k - 1);
    var j := if i < k then i else i + 1;
    assert ls[At(q, j)].prev == At(q, j - 1);
  }

  lemma UnlinkLinks(ls: seq<Link>, q: seq<nat>, k: nat)
    requires Linked(ls, q) && Distinct(q) && k < |q|
    ensures ls[q[k]].next <= NBUF && ls[q[k]].prev <= NBUF
    ensures Linked(Unlink(ls, q[k]), q[..k] + q[k + 1..])
  {
    assert At(q, k) == q[k];
    assert ls[q[k]].next == At(q, k + 1) && ls[q[k]].prev == At(q, k - 1);
    var r := Unlink(ls, q[k]);
    var p := q[..k] + q[k + 1..];
    forall i | -1 <= i < |p| ensures r[At(p, i)].next == At(p, i + 1) { UnlinkedNext(ls, q, k, i); }
    forall i | 0 <= i <= |p| ensures r[At(p, i)].prev == At(p, i - 1) { UnlinkedPrev(ls, q, k, i); }
    hide Unlink;
  }

  lemma FrontLink(ls: seq<Link>, q: seq<nat>)
    requires Linked(ls, q) && q != []
    ensures |ls| == NBUF + 1 && ls[NBUF].next == q[0]
  {
    assert ls[At(q, -1)].next == At(q, 0);
  }

  /** A request on an idle queue and the interrupt that serves it. */
  lemma RequestServed<B>(c: Cache<B>, stale: set<nat>, b: nat)
    requires Inv(c, stale) && c.queue == [] && b < |c.bufs| && c.bufs[b].busy && (c.bufs[b].dirty || !c.bufs[b].valid)
    ensures c.bufs[b].sector in c.disk && Inv(Request(c, b), stale)
    ensures var (x, d) := (c.bufs[b], Interrupt(Request(c, b)));
            && d.queue == [] && d.lru == c.lru && d.disk == (if x.dirty then c.disk[x.sector := x.data] else c.disk)
            && d.bufs == c.bufs[b := x.(valid := true, dirty := false, data := d.disk[x.sector])]
            && Inv(d, stale - {b}) && View(d) == View(c)
  {
    assert BufOk(c, stale, b);
    RequestKeeps(c, stale, b);
    InterruptKeeps(Request(c, b), stale);
    hide View, Inv;
    assert Served(Request(c, b)) == {b};
  }

  class BufCache<B(0, ==)> {
    const bufs: array<Buf<B>>
    const link: array<Link>
    var disk: map<nat, B>
    var queue: seq<nat>
    ghost var lru: seq<nat>
    ghost var stale: set<nat>
    /** Every sector write the disk has performed, oldest first. */
    var trace: seq<(nat, B)>

    ghost function Abs(): Cache<B>
      reads this, bufs
    {
      Cache(bufs[..], lru, disk, queue)
    }

    ghost predicate Valid()
      reads this, bufs, link
    {
      bufs.Length == NBUF && Linked(link[..], lru) && Inv(Abs(), stale)
    }

    constructor (disk: map<nat, B>, zero: B)
      ensures Valid() && fresh(bufs) && fresh(link)
      ensures this.disk == disk && queue == [] && stale == {} && trace == []
      ensures forall i :: 0 <= i < NBUF ==> bufs[i] == Buf(-1, 0, false, false, false, zero)
    {
      this.disk := disk;
      queue, stale, trace, lru := [], {}, [], [];
      bufs := new Buf<B>[NBUF](_ => Buf(-1, 0, false, false, false, zero));
      link := new Link[NBUF + 1](_ => Link(NBUF, NBUF));
      new;
      var b := 0;
      while b < NBUF
        invariant 0 <= b <= NBUF && |lru| == b && link.Length == NBUF + 1
        invariant forall i :: 0 <= i < b ==> lru[i] == b - 1 - i
        invariant Linked(link[..], lru)
        invariant this.disk == disk && queue == [] && stale == {} && trace == []
        invariant bufs.Length == NBUF && forall i :: 0 <= i < NBUF ==> bufs[i] == Buf(-1, 0, false, false, false, zero)
      {
        ghost var was := link[..];
        PushFrontLinks(was, lru, b);
        link[b] := link[b].(next := link[NBUF].next);
        link[b] := link[b].(prev := NBUF);
        link[link[NBUF].next] := link[link[NBUF].next].(prev := b);
        link[NBUF] := link[NBUF].(next := b);
        assert link[..] == PushFront(was, b);
        lru := [b] + lru;
        b := b + 1;
      }
      forall b | 0 <= b < NBUF ensures b in lru { assert lru[NBUF - 1 - b] == b; }
    }

    /** The first scan of bufcache_get: NBUF if no buffer holds the sector. */
    method Lookup(s: nat) returns (b: nat)
      requires Valid()
      ensures b == At(lru, FindFrom(Abs(), s, 0))
    {
      ghost var c := Abs();
      assert At(lru, -1) == NBUF;
      b := link[NBUF].next;
      ghost var i := 0;
      while b != NBUF && !(bufs[b].dev == ROOTDEV && bufs[b].sector == s)
        invariant 0 <= i <= |lru| && b == At(lru, i) && FindFrom(c, s, i) == FindFrom(c, s, 0)
        decreases |lru| - i
      {
        assert link[..][At(lru, i)].next == At(lru, i + 1);
        b := link[b].next;
        i := i + 1;
      }
    }

    /** The second scan of bufcache_get, backwards: NBUF if every buffer is busy or dirty. */
    method Victim() returns (b: nat)
      requires Valid()
      ensures b == At(lru, VictimUpTo(Abs(), |lru|) - 1)
    {
      ghost var c := Abs();
      assert link[..][At(lru, |lru|)].prev == At(lru, |lru| - 1);
      b := link[NBUF].prev;
      ghost var i := |lru|;
      while b != NBUF && (bufs[b].busy || bufs[b].dirty)
        invariant 0 <= i <= |lru| && b == At(lru, i - 1) && VictimUpTo(c, i) == VictimUpTo(c, |lru|)
        decreases i
      {
        assert link[..][At(lru, i - 1)].prev == At(lru, i - 2);
        b := link[b].prev;
        i := i - 1;
      }
    }

    /** Both scans: hit, sleep, recycle or panic. */
    method Choose(s: nat) returns (g: Got)
      requires Valid()
      ensures g == Decide(Abs(), s)
    {
      var b := Lookup(s);
      if b != NBUF {
        g := if bufs[b].busy then Wait(b) else Hit(b);
      } else {
        b := Victim();
        g := if b != NBUF then Recycle(b) else NoBuffers;
      }
    }

    /** bufcache_get up to the point where it would sleep or panic. */
    method Get(s: nat) returns (g: Got)
      requires Valid() && s in disk
      modifies bufs
      ensures Valid()
      ensures g == Decide(old(Abs()), s) && Abs() == CacheSpec.Get(old(Abs()), s)
    {
      hide Linked, View, Decide, BufOk;
      ghost var c := Abs();
      GetKeeps(c, stale, s);
      g := Choose(s);
      if g.Hit? {
        bufs[g.b] := bufs[g.b].(busy := true);
      } else if g.Recycle? {
        bufs[g.b] := Buf(ROOTDEV, s, true, false, false, bufs[g.b].data);
      }
      assert Abs() == CacheSpec.Get(c, s);
    }

    /** ide_intr with a request to finish. */
    method Serve()
      requires Valid() && queue != []
      modifies this`disk, this`queue, this`stale, this`trace, bufs
      ensures Valid()
      ensures BufOk(old(Abs()), old(stale), old(queue)[0])
      ensures Abs() == CacheSpec.Interrupt(old(Abs())) && stale == old(stale) - {old(queue)[0]}
      ensures var x := old(bufs[queue[0]]); trace == old(trace) + if x.dirty then [(x.sector, x.data)] else []
    {
      ghost var c := Abs();
      ServedInv(c, stale);
      var (b, x) := (queue[0], bufs[queue[0]]);
      queue, stale := queue[1..], stale - {b};
      if x.dirty {
        disk := disk[x.sector := x.data];
        trace := trace + [(x.sector, x.data)];
      }
      bufs[b] := x.(valid := true, dirty := false, data := disk[x.sector]);
      assert bufs[..] == CacheSpec.Interrupt(c).bufs;
      assert Abs() == CacheSpec.Interrupt(c);
    }

    /** ide_intr; with nothing queued it is a spurious interrupt. */
    method Interrupt()
      requires Valid()
      modifies this`disk, this`queue, this`stale, this`trace, bufs
      ensures Valid()
      ensures old(queue) != [] ==> BufOk(old(Abs()), old(stale), old(queue)[0])
      ensures Abs() == CacheSpec.Interrupt(old(Abs())) && stale == old(stale) - Served(old(Abs()))
    {
      if queue != [] { Serve(); }
    }

    /** ide_rw: queue the request and wait until interrupts have served it. */
    method IdeRw(b: nat)
      requires Valid() && b < NBUF && bufs[b].busy && (bufs[b].dirty || !bufs[b].valid) && queue == []
      modifies this`disk, this`queue, this`stale, this`trace, bufs
      ensures Valid() && queue == []
      ensures old(bufs[b]).sector in old(disk)
      ensures var x := old(bufs[b]);
              && disk == (if x.dirty then old(disk)[x.sector := x.data] else old(disk))
              && bufs[..] == old(bufs[..])[b := x.(valid := true, dirty := false, data := disk[x.sector])]
              && trace == old(trace) + (if x.dirty then [(x.sector, x.data)] else [])
              && stale == old(stale) - {b}
      ensures View(Abs()) == View(old(Abs()))
    {
      hide Linked, Inv, View, CacheSpec.Interrupt;
      RequestServed(Abs(), stale, b);
      queue := queue + [b];
      Serve();
    }

    /** bufcache_get, when it neither sleeps nor panics. */
    method Grab(s: nat) returns (b: nat)
      requires Valid() && s in disk && CanGet(Abs(), s)
      modifies bufs
      ensures Valid() && b < NBUF && !old(bufs[b].busy) && (b in stale ==> old(bufs[b].dirty))
      ensures old(bufs[b].dirty) ==> old(Holds(bufs[b], s)) && bufs[b].valid
      ensures bufs[..] ==
                old(bufs[..])[b := Buf(ROOTDEV, s, true, bufs[b].valid, old(bufs[b].dirty), old(bufs[b].data))]
      ensures (if bufs[b].valid then bufs[b].data else disk[s]) == old(View(Abs()))[s]
      ensures View(Abs()) == old(View(Abs()))
    {
      ghost var c := Abs();
      CanGetIff(c, stale, s);
      GetKeeps(c, stale, s);
      GotBuffer(c, stale, s);
      var g := Get(s);
      b := g.b;
    }

    /** The second half of bufcache_read: load the sector unless the buffer already has it. */
    method Fill(b: nat)
      requires Valid() && queue == [] && b < NBUF && bufs[b].busy && (b in stale || bufs[b].dirty ==> bufs[b].valid)
      requires bufs[b].sector in disk
      modifies this`disk, this`queue, this`stale, this`trace, bufs
      ensures Valid() && queue == [] && disk == old(disk) && trace == old(trace) && stale == old(stale)
      ensures var x := old(bufs[b]);
              bufs[..] == old(bufs[..])[b := x.(valid := true, data := if x.valid then x.data else disk[x.sector])]
      ensures View(Abs()) == old(View(Abs()))
    {
      hide Linked, Inv, View;
      if !bufs[b].valid {
        IdeRw(b);
      }
    }

    /** bufcache_read, when it neither sleeps nor panics: a busy buffer with the sector's contents. */
    method Read(s: nat) returns (b: nat)
      requires Valid() && queue == [] && s in disk && CanGet(Abs(), s)
      modifies this`disk, this`queue, this`stale, this`trace, bufs
      ensures Valid() && queue == [] && disk == old(disk) && trace == old(trace) && stale == old(stale)
      ensures b < NBUF && !old(bufs[b].busy) && (old(bufs[b].dirty) ==> old(Holds(bufs[b], s)))
      ensures b in stale ==> old(bufs[b].dirty)
      ensures bufs[..] == old(bufs[..])[b := Buf(ROOTDEV, s, true, true, old(bufs[b].dirty), old(View(Abs()))[s])]
      ensures View(Abs()) == old(View(Abs()))
    {
      hide Linked, Inv, View, CanGet, CacheSpec.Interrupt;
      b := Grab(s);
      Fill(b);
    }

    /** The holder changes the data of its buffer. */
    method SetData(b: nat, x: B)
      requires Valid() && queue == [] && b < NBUF && bufs[b].busy && bufs[b].valid
      modifies this`stale, bufs
      ensures Valid() && stale == old(stale) + {b}
      ensures bufs[..] == old(bufs[..])[b := old(bufs[b]).(data := x)]
      ensures View(Abs()) == old(View(Abs()))[old(bufs[b].sector) := x]
    {
      ModifyKeeps(Abs(), stale, b, x);
      ghost var d := Modify(Abs(), b, x);
      bufs[b] := bufs[b].(data := x);
      stale := stale + {b};
      assert Abs() == d;
    }

    /** b->flags |= B_DIRTY. */
    method Mark(b: nat)
      requires Valid() && queue == [] && b < NBUF && bufs[b].busy && bufs[b].valid
      modifies this`stale, bufs
      ensures Valid() && stale == old(stale) - {b}
      ensures bufs[..] == old(bufs[..])[b := old(bufs[b]).(dirty := true)]
      ensures View(Abs()) == old(View(Abs()))
    {
      MarkKeeps(Abs(), stale, b);
      ghost var d := MarkDirty(Abs(), b);
      bufs[b] := bufs[b].(dirty := true);
      stale := stale - {b};
      assert Abs() == d;
    }

    /** bufcache_write: the sector is on disk when it returns. */
    method Write(b: nat)
      requires Valid() && queue == [] && b < NBUF && bufs[b].busy && bufs[b].valid
      modifies this`disk, this`queue, this`stale, this`trace, bufs
      ensures Valid() && queue == [] && stale == old(stale) - {b}
      ensures old(bufs[b].sector) in old(disk)
      ensures bufs[..] == old(bufs[..])[b := old(bufs[b]).(dirty := false)]
      ensures disk == old(disk)[old(bufs[b].sector) := old(bufs[b].data)]
      ensures trace == old(trace) + [(old(bufs[b].sector), old(bufs[b].data))]
      ensures View(Abs()) == old(View(Abs()))
    {
      hide Linked, Inv, View;
      Mark(b);
      IdeRw(b);
    }

    /** The pointer assignments of bufcache_release. */
    method MoveToFront(b: nat)
      requires Linked(link[..], lru) && Permutation(lru, NBUF) && b < NBUF
      modifies this`lru, link
      ensures Linked(link[..], lru) && lru == [b] + Without(old(lru), b)
    {
      assert b in lru;
      ghost var k :| 0 <= k < |lru| && lru[k] == b;
      WithoutIs(lru, b);
      WithoutAt(lru, k);
      ghost var was := link[..];
      UnlinkLinks(was, lru, k);
      hide Linked, Permutation;
      link[link[b].next] := link[link[b].next].(prev := link[b].prev);
      link[link[b].prev] := link[link[b].prev].(next := link[b].next);
      assert link[..] == Unlink(was, b);
      PushFrontLinks(link[..], Without(lru, b), b);
      was := link[..];
      link[b] := link[b].(next := link[NBUF].next);
      link[b] := link[b].(prev := NBUF);
      link[link[NBUF].next] := link[link[NBUF].next].(prev := b);
      link[NBUF] := link[NBUF].(next := b);
      assert link[..] == PushFront(was, b);
      lru := [b] + Without(lru, b);
    }

    /** bufcache_release: move the buffer to the front of the list and give it up. */
    method Release(b: nat)
      requires Valid() && b < NBUF && bufs[b].busy && b !in queue && (b in stale ==> bufs[b].dirty)
      modifies this`lru, bufs, link
      ensures Valid()
      ensures bufs[..] == old(bufs[..])[b := old(bufs[b]).(busy := false)]
      ensures Abs() == CacheSpec.Release(old(Abs()), b) && View(Abs()) == old(View(Abs()))
      ensures MovedToFront(old(lru), lru, b) && link[NBUF].next == b
    {
      hide Linked, View, BufOk, Without, MovedToFront;
      ghost var c := Abs();
      ReleaseKeeps(c, stale, b);
      ReleaseFirst(c, b);
      MoveToFront(b);
      FrontLink(link[..], lru);
      bufs[b] := bufs[b].(busy := false);
      assert Abs() == CacheSpec.Release(c, b);
    }
  }
}
