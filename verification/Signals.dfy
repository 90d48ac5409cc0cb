/** Pending signals are delivered one per trap return, lowest first, until none is left. */
module Signals {
  import opened Common
  import opened Words
  import opened ThreadQueue
  import opened Sched

  // ---- draining the pending mask ----------------------------------------------------------

  /** How many of the signals n .. 31 are pending. */
  function Pending(mask: nat, n: nat): (c: nat)
    requires n <= NSIG
    decreases NSIG - n
  {
    if n == NSIG then 0 else (if BitAt(mask, n) then 1 else 0) + Pending(mask, n + 1)
  }

  lemma {:induction false} PendingClear(mask: nat, k: nat, n: nat)
    requires mask < Pow2(NSIG) && k < NSIG && BitAt(mask, k) && n <= NSIG
    ensures Pending(ClearBit(mask, k, NSIG), n) == Pending(mask, n) - if n <= k then 1 else 0
    decreases NSIG - n
  {
    if n < NSIG {
      PendingClear(mask, k, n + 1);
      OneBit(mask, k, NSIG, n);
    }
  }

  lemma {:induction false} PendingSome(mask: nat, n: nat)
    requires n <= NSIG
    ensures Pending(mask, n) > 0 <==> LowestFrom(mask, n) < NSIG
    decreases NSIG - n
  {
    if n < NSIG { PendingSome(mask, n + 1); }
  }

  /** The signals that successive trap returns take from a mask nobody adds to. */
  function Drain(mask: nat): (r: seq<nat>)
    requires mask < Pow2(NSIG)
    decreases Pending(mask, 1)
  {
    var k := LowestFrom(mask, 1);
    PendingSome(mask, 1);
    if k == NSIG then [] else PendingClear(mask, k, 1); [k] + Drain(ClearBit(mask, k, NSIG))
  }

  /** They are the pending signals from 1 to 31, each once, in ascending order. */
  lemma {:induction false} DrainIs(mask: nat)
    requires mask < Pow2(NSIG)
    ensures forall i, j :: 0 <= i < j < |Drain(mask)| ==> Drain(mask)[i] < Drain(mask)[j]
    ensures forall k :: k in Drain(mask) <==> 1 <= k < NSIG && BitAt(mask, k)
    ensures |Drain(mask)| == Pending(mask, 1)
    decreases Pending(mask, 1)
  {
    hide ClearBit, BitAt, Pow2, Pending, LowestFrom;
    var k := LowestFrom(mask, 1);
    PendingSome(mask, 1);
    if k < NSIG {
      var rest := ClearBit(mask, k, NSIG);
      PendingClear(mask, k, 1);
      DrainIs(rest);
      forall j | 0 <= j < NSIG ensures BitAt(rest, j) <==> j != k && BitAt(mask, j) { OneBit(mask, k, NSIG, j); }
      forall i | 0 <= i < |Drain(rest)| ensures k < Drain(rest)[i] { assert Drain(rest)[i] in Drain(rest); }
    }
  }

  /** Sending a pending signal again changes nothing. */
  lemma {:induction false} SendTwice(mask: nat, k: nat, w: nat)
    requires k < w && mask < Pow2(w)
    ensures SetBit(SetBit(mask, k, w), k, w) == SetBit(mask, k, w)
    decreases w
  {
    if k > 0 {
      var half := Pow2(w - 1);
      assert mask / 2 < half;
      SendTwice(mask / 2, k - 1, w - 1);
      var x := SetBit(mask / 2, k - 1, w - 1);
      assert (2 * x + mask % 2) / 2 == x && (2 * x + mask % 2) % 2 == mask % 2;
    }
  }

  /** The signal that a step takes from thread p's mask, if it is p's trap return. */
  function Taken(s: Sched, a: Step, p: nat): (r: seq<nat>)
    requires Enabled(s, a) && p < NUM_IDS
  {
    if a.TrapReturn? && s.cur == p && LowestFrom(s.pend[p], 1) < NSIG then [LowestFrom(s.pend[p], 1)] else []
  }

  /** All signals that the steps i .. j of a run take from p's mask, in order. */
  ghost function Delivered(ss: seq<Sched>, steps: seq<Step>, i: nat, j: nat, p: nat): seq<nat>
    requires IsRun(ss, steps) && i <= j <= |steps| && p < NUM_IDS
  {
    if i == j then [] else Delivered(ss, steps, i, j - 1, p) + Taken(ss[j - 1], steps[j - 1], p)
  }

  predicate Alive(s: Sched, p: nat) { s.Sized() && p < NUM_IDS && s.st[p] != Dead }

  /** The signals still to be taken from p's mask. */
  function Left(s: Sched, p: nat): seq<nat> { if s.Sized() && p < NUM_IDS then Drain(s.pend[p]) else [] }

  /** One step: what it takes from p's mask is the first of what is left, unless p dies or is sent a signal. */
  lemma DrainStep(s: Sched, a: Step, p: nat)
    requires Inv(s) && Enabled(s, a) && 1 <= p < NUM_IDS && !(a.Kill? && a.pid == p)
    requires Alive(Next(s, a), p)
    ensures Taken(s, a, p) + Left(Next(s, a), p) == Left(s, p)
  {
    hide Queued, OneRuns, Channels, Forest, WakeUpTo, LowestFrom, ClearBit, Drain;
    match a
    case Wakeup(c) => WakeupIs(s, c, NUM_IDS, p);
    case Kill(q, sig) => KillPend(s, q, sig, p);
    case TrapReturn(h) => TrapDrain(s, h, p);
    case Pause => PauseIsYield(s);
    case _ =>
  }

  lemma KillPend(s: Sched, q: nat, sig: nat, p: nat)
    requires s.Sized() && p < NUM_IDS && p != q
    ensures var t := DoKill(s, q, sig); |t.pend| == NUM_IDS && t.pend[p] == s.pend[p]
  {
    hide WakeUpTo;
    if q < NUM_IDS && 1 <= sig < NSIG && sig != SIGKILL && s.st[q] == Asleep {
      WakeupIs(s.(pend := s.pend[q := SetBit(s.pend[q], sig, NSIG)]), s.chan[q], NUM_IDS, p);
    }
  }

  lemma TrapDrain(s: Sched, h: set<nat>, p: nat)
    requires Inv(s) && Enabled(s, TrapReturn(h)) && 1 <= p < NUM_IDS
    requires DoTrapReturn(s, h).Sized() && DoTrapReturn(s, h).st[p] != Dead
    ensures Taken(s, TrapReturn(h), p) + Drain(DoTrapReturn(s, h).pend[p]) == Drain(s.pend[p])
  {
    hide Queued, Channels, Forest, LowestFrom, ClearBit;
    if p == s.cur && Dies(s, h) {
      LowestIs(s.pend[p], LowestFrom(s.pend[p], 1));
      DiedIsDead(s, h, LowestFrom(s.pend[p], 1));
      assert false;
    }
  }

  /**
   * Over a run in which nobody signals p and p lives, the signals delivered to it followed by those
   * still to come are exactly the ones pending at the start, in ascending order.
   */
  lemma {:induction false} SignalsDrain(ss: seq<Sched>, steps: seq<Step>, i: nat, j: nat, p: nat)
    requires IsRun(ss, steps) && Inv(ss[0]) && i <= j <= |steps| && 1 <= p < NUM_IDS
    requires forall l :: i <= l < j ==> !(steps[l].Kill? && steps[l].pid == p)
    requires forall l :: i <= l <= j ==> Alive(ss[l], p)
    ensures Delivered(ss, steps, i, j, p) + Left(ss[j], p) == Left(ss[i], p)
  {
    hide Inv, Enabled, Next, Taken, Alive, Left;
    if i < j {
      SignalsDrain(ss, steps, i, j - 1, p);
      RunsKeepInv(ss, steps, j - 1);
      assert Alive(ss[j], p) && ss[j] == Next(ss[j - 1], steps[j - 1]);
      DrainStep(ss[j - 1], steps[j - 1], p);
    } else {
      assert [] + Left(ss[i], p) == Left(ss[i], p);
    }
  }

  /** How many of the steps i .. j are trap returns of p. */
  ghost function Returns(ss: seq<Sched>, steps: seq<Step>, i: nat, j: nat, p: nat): nat
    requires IsRun(ss, steps) && i <= j <= |steps|
  {
    if i == j then 0
    else Returns(ss, steps, i, j - 1, p) + if steps[j - 1].TrapReturn? && ss[j - 1].cur == p then 1 else 0
  }

  /** A trap return of p takes a signal exactly if one is left. */
  lemma TakenIff(s: Sched, a: Step, p: nat)
    requires Inv(s) && Enabled(s, a) && 1 <= p < NUM_IDS
    ensures |Taken(s, a, p)| == if a.TrapReturn? && s.cur == p && Left(s, p) != [] then 1 else 0
  {
    hide Queued, OneRuns, Channels, Forest, ClearBit;
  }

  lemma {:induction false} OnePerReturn(ss: seq<Sched>, steps: seq<Step>, i: nat, j: nat, p: nat)
    requires IsRun(ss, steps) && Inv(ss[0]) && i <= j <= |steps| && 1 <= p < NUM_IDS
    requires forall l :: i <= l < j ==> !(steps[l].Kill? && steps[l].pid == p)
    requires forall l :: i <= l <= j ==> Alive(ss[l], p)
    ensures Left(ss[j], p) == [] || |Delivered(ss, steps, i, j, p)| == Returns(ss, steps, i, j, p)
  {
    hide Inv, Enabled, Next, Taken, Alive, Left;
    if i < j {
      OnePerReturn(ss, steps, i, j - 1, p);
      RunsKeepInv(ss, steps, j - 1);
      assert Alive(ss[j], p) && ss[j] == Next(ss[j - 1], steps[j - 1]);
      DrainStep(ss[j - 1], steps[j - 1], p);
      TakenIff(ss[j - 1], steps[j - 1], p);
    }
  }

  /** Once p has returned from as many traps as it had signals pending, all of them have been delivered. */
  lemma DrainedInTime(ss: seq<Sched>, steps: seq<Step>, i: nat, j: nat, p: nat)
    requires IsRun(ss, steps) && Inv(ss[0]) && i <= j <= |steps| && 1 <= p < NUM_IDS
    requires forall l :: i <= l < j ==> !(steps[l].Kill? && steps[l].pid == p)
    requires forall l :: i <= l <= j ==> Alive(ss[l], p)
    requires Returns(ss, steps, i, j, p) >= |Left(ss[i], p)|
    ensures Left(ss[j], p) == [] && Delivered(ss, steps, i, j, p) == Left(ss[i], p)
  {
    hide Inv, Enabled, Next, Taken, Alive, Left;
    SignalsDrain(ss, steps, i, j, p);
    OnePerReturn(ss, steps, i, j, p);
  }

  /** What a trap return takes is what handle_pending_signals returns for delivery, if its thread lives on. */
  lemma TakenIsDelivered(s: Sched, h: set<nat>, p: nat)
    requires Inv(s) && Enabled(s, TrapReturn(h)) && 1 <= p < NUM_IDS && Alive(Next(s, TrapReturn(h)), p)
    ensures Taken(s, TrapReturn(h), p) == if s.cur == p && Delivery(s, h) < NSIG then [Delivery(s, h)] else []
    ensures s.cur == p && Delivery(s, h) < NSIG ==> Lowest(s.pend[p], Delivery(s, h)) && Delivery(s, h) in h
  {
    hide Queued, Channels, Forest, ClearBit;
    LowestIs(s.pend[s.cur], LowestFrom(s.pend[s.cur], 1));
    if s.cur == p && Dies(s, h) {
      DiedIsDead(s, h, LowestFrom(s.pend[p], 1));
      assert false;
    }
  }

  // ---- signals sent and delivered --------------------------------------------------------------

  /** The step sends signal k to p. */
  predicate Sends(a: Step, p: nat, k: nat) { a == Kill(p, k) && Sendable(k) }

  lemma LeftIs(s: Sched, p: nat, k: nat)
    requires s.Sized() && p < NUM_IDS && 1 <= k < NSIG
    ensures k in Left(s, p) <==> BitAt(s.pend[p], k)
    ensures multiset(Left(s, p))[k] == if k in Left(s, p) then 1 else 0
  {
    DrainIs(s.pend[p]);
    Once(Drain(s.pend[p]), k);
  }

  lemma {:induction false} Once(q: seq<nat>, k: nat)
    requires forall i, j :: 0 <= i < j < |q| ==> q[i] < q[j]
    ensures multiset(q)[k] == if k in q then 1 else 0
  {
    if q != [] {
      assert q == [q[0]] + q[1..];
      Once(q[1..], k);
    }
  }

  /** One step: k is pending afterwards if it was sent, or was pending and not taken. */
  lemma PendingStep(s: Sched, a: Step, p: nat, k: nat)
    requires Inv(s) && Enabled(s, a) && 1 <= p < NUM_IDS && 1 <= k < NSIG && Alive(s, p) && Alive(Next(s, a), p)
    ensures var (was, now) := (multiset(Left(s, p))[k], multiset(Left(Next(s, a), p))[k]);
            multiset(Taken(s, a, p))[k] + now == was + if Sends(a, p, k) && k !in Left(s, p) then 1 else 0
  {
    hide Inv, Enabled, Next, Left, Taken;
    if a.Kill? && a.pid == p {
      SentStep(s, a.sig, p, k);
    } else {
      DrainStep(s, a, p);
      assert multiset(Taken(s, a, p) + Left(Next(s, a), p)) == multiset(Taken(s, a, p)) + multiset(Left(Next(s, a), p));
    }
  }

  lemma SentStep(s: Sched, sig: nat, p: nat, k: nat)
    requires Inv(s) && Enabled(s, Kill(p, sig)) && 1 <= p < NUM_IDS && 1 <= k < NSIG
    requires Alive(s, p) && Alive(Next(s, Kill(p, sig)), p)
    ensures var (a, t) := (Kill(p, sig), Next(s, Kill(p, sig)));
            && Taken(s, a, p) == []
            && multiset(Left(t, p))[k] == multiset(Left(s, p))[k] + if Sends(a, p, k) && k !in Left(s, p) then 1 else 0
  {
    hide Queued, OneRuns, Channels, Forest, WakeUpTo, Drain, SetBit, Without;
    LeftIs(s, p, k);
    LeftIs(Next(s, Kill(p, sig)), p, k);
    if Sendable(sig) {
      SignalIsPending(s, p, sig);
    } else if sig == SIGKILL {
      KilledIsDead(s, p);
      assert false;
    }
  }

  /** How many of the steps i .. j send k to p while it is not pending. */
  ghost function Raised(ss: seq<Sched>, steps: seq<Step>, i: nat, j: nat, p: nat, k: nat): nat
    requires IsRun(ss, steps) && i <= j <= |steps|
  {
    if i == j then 0
    else Raised(ss, steps, i, j - 1, p, k) + if Sends(steps[j - 1], p, k) && k !in Left(ss[j - 1], p) then 1 else 0
  }

  /**
   * Conservation of signals, over every run on which p lives: what was pending and what was sent while it was not
   * pending is what was delivered and what still is pending.
   */
  lemma {:induction false} SignalsConserved(ss: seq<Sched>, steps: seq<Step>, i: nat, j: nat, p: nat, k: nat)
    requires IsRun(ss, steps) && Inv(ss[0]) && i <= j <= |steps| && 1 <= p < NUM_IDS && 1 <= k < NSIG
    requires forall l :: i <= l <= j ==> Alive(ss[l], p)
    ensures multiset(Delivered(ss, steps, i, j, p))[k] + multiset(Left(ss[j], p))[k] ==
              multiset(Left(ss[i], p))[k] + Raised(ss, steps, i, j, p, k)
  {
    hide Inv, Enabled, Next, Taken, Alive, Left, Sends;
    if i < j {
      SignalsConserved(ss, steps, i, j - 1, p, k);
      RunsKeepInv(ss, steps, j - 1);
      assert Alive(ss[j - 1], p) && Alive(ss[j], p) && ss[j] == Next(ss[j - 1], steps[j - 1]);
      PendingStep(ss[j - 1], steps[j - 1], p, k);
      var (d, t) := (Delivered(ss, steps, i, j - 1, p), Taken(ss[j - 1], steps[j - 1], p));
      assert multiset(d + t) == multiset(d) + multiset(t);
    }
  }

  /** A signal sent to p at step i is delivered afterwards or still to come, as long as p lives. */
  lemma NoSignalLost(ss: seq<Sched>, steps: seq<Step>, i: nat, j: nat, p: nat, k: nat)
    requires IsRun(ss, steps) && Inv(ss[0]) && i < j <= |steps| && 1 <= p < NUM_IDS && Sends(steps[i], p, k)
    requires forall l :: i <= l <= j ==> Alive(ss[l], p)
    ensures k in Left(ss[i + 1], p)
    ensures k in Delivered(ss, steps, i + 1, j, p) || k in Left(ss[j], p)
  {
    hide Inv, Enabled, Taken, Left;
    RunsKeepInv(ss, steps, i);
    assert Alive(ss[i], p) && Alive(ss[i + 1], p);
    SentStep(ss[i], k, p, k);
    LeftIs(ss[i], p, k);
    SignalsConserved(ss, steps, i + 1, j, p, k);
  }

  /** However often it was sent before, a signal that is not sent again is delivered at most once. */
  lemma SendsCollapse(ss: seq<Sched>, steps: seq<Step>, i: nat, j: nat, p: nat, k: nat)
    requires IsRun(ss, steps) && Inv(ss[0]) && i <= j <= |steps| && 1 <= p < NUM_IDS && 1 <= k < NSIG
    requires forall l :: i <= l <= j ==> Alive(ss[l], p)
    requires forall l :: i <= l < j ==> !Sends(steps[l], p, k)
    ensures multiset(Delivered(ss, steps, i, j, p))[k] + (if k in Left(ss[j], p) then 1 else 0) ==
              if k in Left(ss[i], p) then 1 else 0
  {
    hide Inv, Enabled, Next, Taken, Left, Sends;
    assert Alive(ss[i], p) && Alive(ss[j], p);
    LeftIs(ss[i], p, k);
    LeftIs(ss[j], p, k);
    SignalsConserved(ss, steps, i, j, p, k);
    NoneRaised(ss, steps, i, j, p, k);
  }

  lemma {:induction false} NoneRaised(ss: seq<Sched>, steps: seq<Step>, i: nat, j: nat, p: nat, k: nat)
    requires IsRun(ss, steps) && i <= j <= |steps| && forall l :: i <= l < j ==> !Sends(steps[l], p, k)
    ensures Raised(ss, steps, i, j, p, k) == 0
  {
    hide Enabled, Next, Left, Sends;
    if i < j { NoneRaised(ss, steps, i, j - 1, p, k); }
  }
}
