/** The scheduler's code: it keeps the arrays and the linked queue in step with the state machine. */
module Threads {
  import opened Common
  import opened Words
  import opened ThreadQueue
  import opened Sched

  /** Signal k is taken from thread p's mask, and nothing else from any mask. */
  ghost predicate Cleared(pend: seq<nat>, pend': seq<nat>, p: nat, k: nat) {
    && p < |pend| == |pend'| && pend' == pend[p := pend'[p]]
    && forall j: nat :: j < NSIG ==> (BitAt(pend'[p], j) <==> j != k && BitAt(pend[p], j))
  }

  /**
   * From s to t a trap return took the lowest signal k that was pending. If k is not SIGKILL and has a handler, it is
   * to be delivered and nothing but its bit changes; else the running thread is dead and the next one runs. With
   * nothing pending, nothing changes.
   */
  ghost predicate Returned(s: Sched, handled: set<nat>, deliver: nat, t: Sched) {
    && s.Sized() && t.Sized()
    && (forall k: nat :: Lowest(s.pend[s.cur], k) ==>
          if k != SIGKILL && k in handled then
            deliver == k && t == s.(pend := t.pend) && Cleared(s.pend, t.pend, s.cur, k)
          else
            && deliver == NSIG && t.st[s.cur] == Dead && t.pend[s.cur] == 0
            && s.ready != [] && t.cur == s.ready[0] != s.cur && t.ready == s.ready[1..])
    && ((forall j: nat :: 1 <= j < NSIG ==> !BitAt(s.pend[s.cur], j)) ==> deliver == NSIG && t == s)
  }

  lemma TrapReturnIs(s: Sched, handled: set<nat>)
    requires Inv(s) && CanReturn(s, handled)
    ensures Returned(s, handled, Delivery(s, handled), DoTrapReturn(s, handled))
  {
    TrapReturnKeeps(s, handled);
    hide Queued, OneRuns, Channels, Forest, DoTrapReturn, Delivery, Dies, LowestFrom;
    var t := DoTrapReturn(s, handled);
    forall k: nat | Lowest(s.pend[s.cur], k)
      ensures if k != SIGKILL && k in handled then
                Delivery(s, handled) == k && t == s.(pend := t.pend) && Cleared(s.pend, t.pend, s.cur, k)
              else
                && Delivery(s, handled) == NSIG && t.st[s.cur] == Dead && t.pend[s.cur] == 0
                && s.ready != [] && t.cur == s.ready[0] != s.cur && t.ready == s.ready[1..]
    {
      if k != SIGKILL && k in handled {
        HandledIsDelivered(s, handled, k);
      } else {
        DiesIff(s, handled);
        DiedIsDead(s, handled, k);
      }
    }
    if forall j: nat :: 1 <= j < NSIG ==> !BitAt(s.pend[s.cur], j) { NothingToDeliver(s, handled); }
  }

  lemma OffQueue(s: Sched, p: nat)
    requires Inv(s) && p < NUM_IDS
    ensures p !in Terminate(s, p).ready
  {
    hide Channels, Forest, Without;
    TerminateQueued(s, p);
  }

  /** If the running thread is to die, there is another one to run. */
  predicate CanReturn(s: Sched, handled: set<nat>) {
    s.Sized() && s.st[s.cur] != Ready && (Dies(s, handled) ==> s.ready != [])
  }

  /** The thread table with its ready queue; nch is the container table's count of children. */
  class Threads {
    const st: array<TState>
    const chan: array<nat>
    const pend: array<nat>
    const nch: array<nat>
    const rq: ReadyQueue
    var cur: nat

    ghost predicate Shape()
      reads this, st, chan, pend, nch, rq, rq.prev, rq.next
    {
      && st.Length == NUM_IDS && chan.Length == NUM_IDS && pend.Length == NUM_IDS && nch.Length == NUM_IDS
      && cur < NUM_IDS
      && chan != pend && chan != nch && pend != nch
      && rq.prev != chan && rq.prev != pend && rq.prev != nch && rq.next != chan && rq.next != pend && rq.next != nch
      && rq.Valid()
    }

    ghost function Abs(): Sched
      reads this, st, chan, pend, nch, rq
    {
      Sched(st[..], chan[..], pend[..], nch[..], rq.q, cur)
    }

    ghost predicate Valid()
      reads this, st, chan, pend, nch, rq, rq.prev, rq.next
    {
      Shape() && Inv(Abs())
    }

    /** The tables after the hand-off to the shell. */
    constructor ()
      ensures Valid() && Abs() == Boot()
      ensures fresh(st) && fresh(chan) && fresh(pend) && fresh(nch) && fresh(rq) && fresh(rq.prev) && fresh(rq.next)
    {
      st := new TState[NUM_IDS](p => if p == 0 || p == 2 then Run else if p == 1 then Ready else Dead);
      chan := new nat[NUM_IDS](_ => 0);
      pend := new nat[NUM_IDS](_ => 0);
      nch := new nat[NUM_IDS](p => if p == 0 then 2 else 0);
      rq := new ReadyQueue();
      cur := 2;
      new;
      rq.Enqueue(1);
      BootInv();
      assert Abs() == Boot();
    }

    /** The switch at the end of thread_yield, thread_sleep and thread_exit. */
    method Switch()
      requires Shape() && rq.q != [] && Abs().Sized()
      modifies this`cur, st, rq, rq.prev, rq.next
      ensures Shape() && Abs() == Dispatch(old(Abs()))
    {
      assert rq.q[0] in rq.q;
      var p := rq.Dequeue();
      st[p] := Run;
      cur := p;
    }

    method Yield()
      requires Valid()
      modifies this`cur, st, rq, rq.prev, rq.next
      ensures Valid() && Abs() == DoYield(old(Abs()))
    {
      hide Forest, Channels;
      YieldKeeps(Abs());
      st[cur] := Ready;
      rq.Enqueue(cur);
      Switch();
    }

    /** thread_sleep up to the context switch. */
    method Sleep(c: nat)
      requires Valid() && rq.q != [] && c != 0
      modifies this`cur, st, chan, rq, rq.prev, rq.next
      ensures Valid() && Abs() == DoSleep(old(Abs()), c)
      ensures st[old(cur)] == Asleep && chan[old(cur)] == c && cur == old(rq.q[0]) && rq.q == old(rq.q[1..])
    {
      hide Forest, Channels;
      SleepKeeps(Abs(), c);
      SleepIs(Abs(), c);
      st[cur] := Asleep;
      chan[cur] := c;
      Switch();
    }

    /** The tail of thread_sleep, when its thread runs again: the waker has already cleared the channel. */
    method SleepResume()
      requires Valid()
      modifies chan
      ensures Valid() && Abs() == old(Abs())
    {
      hide Forest;
      assert chan[cur] == 0;
      chan[cur] := 0;
      assert chan[..] == old(chan[..]);
    }

    method Wakeup(c: nat)
      requires Valid()
      modifies st, chan, rq, rq.prev, rq.next
      ensures Valid() && Abs() == DoWakeup(old(Abs()), c)
      ensures forall p :: 1 <= p < NUM_IDS && old(st[p]) == Asleep && old(chan[p]) == c ==>
                st[p] == Ready && chan[p] == 0 && p in rq.q
    {
      hide Forest, Channels, OneRuns;
      ghost var s := Abs();
      var p := 1;
      while p < NUM_IDS
        invariant 1 <= p <= NUM_IDS && Shape() && Inv(s) && Abs() == WakeUpTo(s, c, p)
      {
        WakeupKeeps(s, c, p);
        if chan[p] == c && st[p] == Asleep {
          st[p] := Ready;
          chan[p] := 0;
          rq.Enqueue(p);
        }
        p := p + 1;
      }
      WakeupKeeps(s, c, NUM_IDS);
      forall q: nat | 1 <= q < NUM_IDS && s.st[q] == Asleep && s.chan[q] == c
        ensures Abs().st[q] == Ready && Abs().chan[q] == 0 && q in Abs().ready
      {
        WakeupIs(s, c, NUM_IDS, q);
      }
    }

    /** thread_spawn by the current process. */
    method Spawn() returns (child: nat)
      requires Valid() && CanSpawn(Abs())
      modifies st, nch, rq, rq.prev, rq.next
      ensures Valid() && Abs() == DoSpawn(old(Abs())) && child == Child(old(Abs())) && !old(Abs()).Born(child)
      ensures child < NUM_IDS && st[child] == Ready && rq.q == old(rq.q) + [child]
    {
      hide Channels, Forest, OneRuns, Queued, Sched.Born;
      ChildNotQueued(Abs());
      SpawnKeeps(Abs());
      var nc := nch[cur];
      child := cur * MAX_CHILDREN + 1 + nc;
      nch[cur] := nc + 1;
      nch[child] := 0;
      st[child] := Ready;
      rq.Enqueue(child);
    }

    /** terminate_process, and SIGKILL in sys_kill. */
    method TerminateProcess(p: nat)
      requires Valid() && p < NUM_IDS
      modifies st, pend, rq, rq.prev, rq.next
      ensures Shape() && Abs() == Terminate(old(Abs()), p)
    {
      hide Channels, Forest;
      if st[p] == Ready {
        rq.Remove(p);
      }
      st[p] := Dead;
      pend[p] := 0;
    }

    /** sys_kill: 0, or -1 for a bad signal number or target. */
    method Kill(p: int, sig: int) returns (r: int)
      requires Valid()
      modifies st, chan, pend, rq, rq.prev, rq.next
      ensures Shape() && (Valid() <==> !(p == cur && sig == SIGKILL))
      ensures r == -1 <==> sig < 1 || sig >= NSIG || p < 0 || p >= NUM_IDS || old(st[p]) == Dead
      ensures Abs() == if p < 0 || sig < 0 then old(Abs()) else DoKill(old(Abs()), p, sig)
      ensures r == -1 ==> Abs() == old(Abs())
      ensures r == 0 && sig == SIGKILL ==> st[p] == Dead && pend[p] == 0 && p !in rq.q
      ensures r == 0 && sig != SIGKILL ==>
                && (forall j: nat :: j < NSIG ==> (BitAt(pend[p], j) <==> j == sig || BitAt(old(pend[p]), j)))
                && (forall q :: 0 <= q < NUM_IDS && q != p ==> pend[q] == old(pend[q]))
                && (old(st[p]) == Asleep ==> st[p] == Ready && p in rq.q)
    {
      hide Channels, Forest, Queued, OneRuns, SetBit, WakeUpTo, Without, Pow2;
      CurAlive(Abs());
      if sig < 1 || sig >= NSIG {
        return -1;
      }
      if p < 0 || p >= NUM_IDS || st[p] == Dead {
        return -1;
      }
      KillKeepsIff(Abs(), p, sig);
      r := 0;
      if sig == SIGKILL {
        OffQueue(Abs(), p);
        TerminateProcess(p);
        return;
      }
      SignalIsPending(Abs(), p, sig);
      PendKeeps(Abs(), p, SetBit(pend[p], sig, NSIG));
      pend[p] := SetBit(pend[p], sig, NSIG);
      if st[p] == Asleep && chan[p] != 0 {
        Wakeup(chan[p]);
      }
    }

    method Pause()
      requires Valid()
      modifies this`cur, st, rq, rq.prev, rq.next
      ensures Valid() && Abs() == DoPause(old(Abs()))
      ensures Abs() == if old(pend[cur]) != 0 then old(Abs()) else DoYield(old(Abs()))
    {
      hide Channels, Forest;
      PauseIsYield(Abs());
      if pend[cur] != 0 {
        return;
      }
      YieldKeeps(Abs());
      st[cur] := Asleep;
      // thread_yield, from that state
      st[cur] := Ready;
      rq.Enqueue(cur);
      Switch();
    }

    /** The search of handle_pending_signals. */
    method FindPending() returns (k: nat)
      requires Shape() && Abs().Sized()
      ensures k == LowestFrom(pend[cur], 1)
    {
      k := 1;
      while k < NSIG && !BitAt(pend[cur], k)
        invariant 1 <= k <= NSIG && LowestFrom(pend[cur], 1) == LowestFrom(pend[cur], k)
      {
        k := k + 1;
      }
    }

    /** handle_pending_signals; it returns the signal to deliver to its handler, if any. */
    method HandlePending(handled: set<nat>) returns (deliver: nat)
      requires Valid() && CanReturn(Abs(), handled)
      modifies this`cur, st, pend, rq, rq.prev, rq.next
      ensures Valid() && Abs() == DoTrapReturn(old(Abs()), handled) && deliver == Delivery(old(Abs()), handled)
      ensures Returned(old(Abs()), handled, deliver, Abs())
    {
      hide Channels, Forest, Queued, LowestFrom, ClearBit, Returned;
      TrapReturnKeeps(Abs(), handled);
      TrapReturnIs(Abs(), handled);
      deliver := FindPending();
      if deliver < NSIG {
        PendKeeps(Abs(), cur, ClearBit(pend[cur], deliver, NSIG));
        pend[cur] := ClearBit(pend[cur], deliver, NSIG);
        if deliver == SIGKILL || deliver !in handled {
          TerminateProcess(cur);
          Switch();
          deliver := NSIG;
        }
      }
    }
  }
}
