/** The ready queue: a doubly linked list threaded by index through the thread control blocks. */
module ThreadQueue {
  import opened Common

  ghost function Place(q: seq<nat>, p: nat): (k: nat)
    requires p in q
    ensures k < |q| && q[k] == p
  {
    var k :| 0 <= k < |q| && q[k] == p;
    k
  }

  // What taking the head and appending do to the members of a queue.

  lemma FrontOff(q: seq<nat>)
    requires Distinct(q) && q != []
    ensures Distinct(q[1..]) && q[0] in q && forall p :: p in q[1..] <==> p in q && p != q[0]
  {
    forall p ensures p in q[1..] <==> p in q && p != q[0] {
      assert q == [q[0]] + q[1..];
    }
  }

  lemma BackOn(q: seq<nat>, p: nat)
    requires Distinct(q) && p !in q
    ensures Distinct(q + [p]) && forall r :: r in q + [p] <==> r in q || r == p
  {
  }

  /** The links of the thread at place k of q name its neighbours. */
  predicate LinksAt(prev: seq<nat>, next: seq<nat>, q: seq<nat>, k: nat) {
    && k < |q| && q[k] < |prev| && q[k] < |next|
    && prev[q[k]] == (if k == 0 then NUM_IDS else q[k - 1])
    && next[q[k]] == (if k + 1 == |q| then NUM_IDS else q[k + 1])
  }

  /** The links spell the queue q, and threads outside it have null links. */
  ghost predicate Linked(prev: seq<nat>, next: seq<nat>, head: nat, tail: nat, q: seq<nat>) {
    && |prev| == NUM_IDS == |next| && Distinct(q)
    && head == (if q == [] then NUM_IDS else q[0]) && tail == (if q == [] then NUM_IDS else q[|q| - 1])
    && (forall k :: 0 <= k < |q| ==> LinksAt(prev, next, q, k))
    && (forall p :: 0 <= p < NUM_IDS && p !in q ==> prev[p] == NUM_IDS && next[p] == NUM_IDS)
  }

  lemma InRange(prev: seq<nat>, next: seq<nat>, head: nat, tail: nat, q: seq<nat>)
    requires Linked(prev, next, head, tail, q)
    ensures Distinct(q) && forall p :: p in q ==> p < NUM_IDS
    ensures forall p :: 0 <= p < NUM_IDS ==> prev[p] <= NUM_IDS && next[p] <= NUM_IDS
    ensures head == NUM_IDS <==> q == []
    ensures tail == NUM_IDS <==> q == []
  {
    forall p | p in q ensures p < NUM_IDS {
      var k :| 0 <= k < |q| && q[k] == p;
      assert LinksAt(prev, next, q, k);
    }
    if q != [] {
      assert q[0] in q && q[|q| - 1] in q;
    }
    forall p | 0 <= p < NUM_IDS ensures prev[p] <= NUM_IDS && next[p] <= NUM_IDS {
      if p in q {
        var k :| 0 <= k < |q| && q[k] == p;
        assert LinksAt(prev, next, q, k);
        assert k > 0 ==> q[k - 1] in q;
        assert k + 1 < |q| ==> q[k + 1] in q;
      }
    }
  }

  lemma Enqueued(prev: seq<nat>, next: seq<nat>, head: nat, tail: nat, q: seq<nat>, p: nat)
    requires Linked(prev, next, head, tail, q) && p < NUM_IDS && p !in q
    ensures q == [] ==> Linked(prev, next, p, p, [p])
    ensures q != [] ==> tail < NUM_IDS && Linked(prev[p := tail], next[tail := p][p := NUM_IDS], head, p, q + [p])
  {
    InRange(prev, next, head, tail, q);
    if q == [] {
      assert LinksAt(prev, next, [p], 0);
    } else {
      assert q[|q| - 1] in q;
      var prev', next' := prev[p := tail], next[tail := p][p := NUM_IDS];
      forall k | 0 <= k < |q| + 1 ensures LinksAt(prev', next', q + [p], k) {
        if k < |q| { assert LinksAt(prev, next, q, k); }
      }
    }
  }

  lemma Dequeued(prev: seq<nat>, next: seq<nat>, head: nat, tail: nat, q: seq<nat>)
    requires Linked(prev, next, head, tail, q) && q != []
    ensures head < NUM_IDS
    ensures if |q| == 1 then
              && next[head] == NUM_IDS
              && Linked(prev[head := NUM_IDS], next[head := NUM_IDS], NUM_IDS, NUM_IDS, [])
            else
              && next[head] == q[1] < NUM_IDS
              && Linked(prev[q[1] := NUM_IDS][head := NUM_IDS], next[head := NUM_IDS], q[1], tail, q[1..])
  {
    InRange(prev, next, head, tail, q);
    assert LinksAt(prev, next, q, 0);
    if |q| > 1 {
      assert q[1] in q;
      var prev', next' := prev[q[1] := NUM_IDS][head := NUM_IDS], next[head := NUM_IDS];
      forall k | 0 <= k < |q| - 1 ensures LinksAt(prev', next', q[1..], k) {
        assert LinksAt(prev, next, q, k + 1);
      }
    }
  }

  /** The prev links, and by symmetry the next links, after p is unlinked from its neighbours. */
  function Cut(links: seq<nat>, others: seq<nat>, p: nat): (r: seq<nat>)
    requires p < |links| == |others|
  {
    (if others[p] < |links| then links[others[p] := links[p]] else links)[p := NUM_IDS]
  }

  lemma RemovedAt(prev: seq<nat>, next: seq<nat>, head: nat, tail: nat, q: seq<nat>, k: nat, j: nat)
    requires Linked(prev, next, head, tail, q) && k < |q| && j < |q| - 1
    ensures q[k] < NUM_IDS && LinksAt(Cut(prev, next, q[k]), Cut(next, prev, q[k]), q[..k] + q[k + 1..], j)
  {
    var r := q[..k] + q[k + 1..];
    assert LinksAt(prev, next, q, k);
    var i := if j < k then j else j + 1;
    assert r[j] == q[i];
    assert LinksAt(prev, next, q, i);
    if j > 0 { assert r[j - 1] == q[if j - 1 < k then j - 1 else j]; }
    if j + 1 < |r| { assert r[j + 1] == q[if j + 1 < k then j + 1 else j + 2]; }
    if k > 0 { assert LinksAt(prev, next, q, k - 1); }
    if k + 1 < |q| { assert LinksAt(prev, next, q, k + 1); }
  }

  lemma Removed(prev: seq<nat>, next: seq<nat>, head: nat, tail: nat, q: seq<nat>, k: nat)
    requires Linked(prev, next, head, tail, q) && k < |q|
    ensures var p := q[k];
            && p < NUM_IDS && (prev[p] == next[p] ==> prev[p] == NUM_IDS)
            && Linked(Cut(prev, next, p), Cut(next, prev, p), if prev[p] == NUM_IDS then next[p] else head,
                      if next[p] == NUM_IDS then prev[p] else tail, q[..k] + q[k + 1..])
  {
    hide Cut;
    var (p, r) := (q[k], q[..k] + q[k + 1..]);
    assert LinksAt(prev, next, q, k);
    InRange(prev, next, head, tail, q);
    forall j | 0 <= j < |r|
      ensures LinksAt(Cut(prev, next, p), Cut(next, prev, p), r, j)
    {
      RemovedAt(prev, next, head, tail, q, k, j);
    }
    RemovedOut(prev, next, head, tail, q, k);
    assert forall j :: 0 <= j < |r| ==> r[j] == q[if j < k then j else j + 1];
    assert (k > 0 ==> q[k - 1] in q) && (k + 1 < |q| ==> q[k + 1] in q);
  }

  lemma RemovedOut(prev: seq<nat>, next: seq<nat>, head: nat, tail: nat, q: seq<nat>, k: nat)
    requires Linked(prev, next, head, tail, q) && k < |q|
    ensures q[k] < NUM_IDS && |Cut(prev, next, q[k])| == NUM_IDS == |Cut(next, prev, q[k])|
    ensures forall p :: 0 <= p < NUM_IDS && p !in q[..k] + q[k + 1..] ==>
              Cut(prev, next, q[k])[p] == NUM_IDS && Cut(next, prev, q[k])[p] == NUM_IDS
  {
    var r := q[..k] + q[k + 1..];
    assert LinksAt(prev, next, q, k);
    assert k > 0 ==> q[k - 1] == r[k - 1];
    assert k + 1 < |q| ==> q[k + 1] == r[k];
    forall i | 0 <= i < |q| && i != k ensures q[i] in r { assert q[i] == r[if i < k then i else i - 1]; }
  }

  /** Removing a thread that is not queued leaves null ends: the queue is lost unless it was empty. */
  lemma RemoveLost(prev: seq<nat>, next: seq<nat>, head: nat, tail: nat, q: seq<nat>, p: nat)
    requires Linked(prev, next, head, tail, q) && p < NUM_IDS && p !in q
    ensures prev[p] == NUM_IDS == next[p] && Without(q, p) == q
    ensures Linked(prev, next, NUM_IDS, NUM_IDS, q) <==> q == []
  {
    WithoutNone(q, p);
    InRange(prev, next, head, tail, q);
    assert q != [] ==> q[0] in q;
  }

  class ReadyQueue {
    const prev: array<nat>
    const next: array<nat>
    var head: nat
    var tail: nat
    ghost var q: seq<nat>

    ghost predicate Valid()
      reads this, prev, next
    {
      prev != next && prev.Length == NUM_IDS == next.Length && Linked(prev[..], next[..], head, tail, q)
    }

    constructor ()
      ensures Valid() && q == [] && fresh(prev) && fresh(next)
    {
      prev := new nat[NUM_IDS](_ => NUM_IDS);
      next := new nat[NUM_IDS](_ => NUM_IDS);
      head, tail, q := NUM_IDS, NUM_IDS, [];
    }

    /** tqueue_enqueue. */
    method Enqueue(pid: nat)
      requires Valid() && pid < NUM_IDS && pid !in q
      modifies this, prev, next
      ensures Valid() && q == old(q) + [pid]
    {
      InRange(prev[..], next[..], head, tail, q);
      Enqueued(prev[..], next[..], head, tail, q, pid);
      if tail == NUM_IDS {
        prev[pid], next[pid] := NUM_IDS, NUM_IDS;
        head, tail := pid, pid;
        assert prev[..] == old(prev[..]) && next[..] == old(next[..]);
      } else {
        next[tail] := pid;
        prev[pid] := tail;
        next[pid] := NUM_IDS;
        tail := pid;
      }
      q := q + [pid];
    }

    /** tqueue_dequeue. */
    method Dequeue() returns (pid: nat)
      requires Valid()
      modifies this, prev, next
      ensures Valid() && if old(q) == [] then pid == NUM_IDS && q == [] else pid == old(q)[0] && q == old(q)[1..]
    {
      InRange(prev[..], next[..], head, tail, q);
      pid := NUM_IDS;
      if head != NUM_IDS {
        Dequeued(prev[..], next[..], head, tail, q);
        pid := head;
        var nx := next[head];
        if nx == NUM_IDS {
          head, tail := NUM_IDS, NUM_IDS;
        } else {
          prev[nx] := NUM_IDS;
          head := nx;
        }
        prev[pid] := NUM_IDS;
        next[pid] := NUM_IDS;
        q := q[1..];
      }
    }

    /**
     * tqueue_remove. On a thread that is not queued it empties the queue, so it does its job exactly
     * when the thread is queued or the queue is empty anyway.
     */
    method Remove(pid: nat)
      requires Valid() && pid < NUM_IDS
      modifies this, prev, next
      ensures pid in old(q) ==> Valid() && q == Without(old(q), pid)
      ensures pid !in old(q) ==>
                head == NUM_IDS && tail == NUM_IDS && prev[..] == old(prev[..]) && next[..] == old(next[..])
      ensures Linked(prev[..], next[..], head, tail, Without(old(q), pid)) <==> pid in old(q) || old(q) == []
    {
      hide Linked;
      ghost var (pv0, nx0, h, t) := (prev[..], next[..], head, tail);
      InRange(pv0, nx0, h, t, q);
      ghost var k: nat := if pid in q then Place(q, pid) else 0;
      if pid in q { Removed(pv0, nx0, h, t, q, k); WithoutAt(q, k); } else { RemoveLost(pv0, nx0, h, t, q, pid); }
      var pv, nx := prev[pid], next[pid];
      if pv == NUM_IDS {
        if nx == NUM_IDS {
          head, tail := NUM_IDS, NUM_IDS;
        } else {
          prev[nx] := NUM_IDS;
          head := nx;
        }
      } else {
        if nx == NUM_IDS {
          next[pv] := NUM_IDS;
          tail := pv;
        } else {
          if pv != nx {
            next[pv] := nx;
          }
          prev[nx] := pv;
        }
      }
      prev[pid] := NUM_IDS;
      next[pid] := NUM_IDS;
      q := Without(q, pid);
    }
  }
}
