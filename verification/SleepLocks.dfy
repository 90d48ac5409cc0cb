/**
 * The sleeping locks of the file system (the transaction, buffers, inodes) under every interleaving of
 * lock-level steps. Each resource has a busy flag guarded by a spinlock; waiters sleep on its channel.
 */
module SleepLocks {

  /** What a thread can own: the running transaction, a buffer, an inode. */
  datatype Res = Transaction | Buffer(b: nat) | Inode(i: nat)

  /** The spinlocks log.lock, bcache.lock and inode_cache.lock. */
  datatype Lock = LogLock | CacheLock | InodeLock

  /** The spinlock that guards a resource's busy flag. */
  function Guard(r: Res): Lock {
    match r
    case Transaction => LogLock
    case Buffer(_) => CacheLock
    case Inode(_) => InodeLock
  }

  /** Where a thread stands in begin_trans, bufcache_get or inode_lock, or in the matching release. */
  datatype Pc =
    | Idle
    | Want(g: Lock)          // about to take spinlock g, at first or after a sleep
    | Locked(g: Lock)        // has g, about to look at a busy flag
    | Got(g: Lock)           // has set the flag, about to drop g
    | Sleepy(r: Res)        // saw r busy; in thread_sleep, about to take the scheduler lock
    | SleepyBoth(r: Res)    // has both locks, about to drop the guard
    | SleepyOnly(r: Res)    // has the scheduler lock, about to go to sleep
    | Asleep(r: Res)
    | Woken(r: Res)         // runs again, about to take the scheduler lock
    | Tidying(r: Res)       // clears its channel, about to drop the scheduler lock
    | RelWant(r: Res)       // releases r: about to take the guard
    | RelLocked(r: Res)     // has the guard, about to clear the flag
    | RelWake(r: Res)       // flag cleared; in thread_wakeup, about to take the scheduler lock
    | RelWaking(r: Res)     // wakes the sleepers, about to drop the scheduler lock
    | RelDone(g: Lock)       // about to drop the guard

  /** locks and sched say who has which spinlock; holds[t] are the resources thread t owns. */
  datatype State = State(pc: seq<Pc>, locks: map<Lock, nat>, sched: seq<nat>, busy: set<Res>, holds: seq<set<Res>>)

  datatype Move = Start(g: Lock) | Try(r: Res) | Release(r: Res) | Poke(r: Res) | Go

  function At(s: State, t: nat, p: Pc): State
    requires t < |s.pc|
  {
    s.(pc := s.pc[t := p])
  }

  function Take(s: State, g: Lock, t: nat): State { s.(locks := s.locks[g := t]) }

  function Drop(s: State, g: Lock): State { s.(locks := s.locks - {g}) }

  /** thread_wakeup: everyone asleep on r. */
  function WakeAll(pc: seq<Pc>, r: Res): (q: seq<Pc>)
    ensures |q| == |pc| && forall t :: 0 <= t < |pc| ==> q[t] == if pc[t] == Asleep(r) then Woken(r) else pc[t]
  {
    seq(|pc|, t requires 0 <= t < |pc| => if pc[t] == Asleep(r) then Woken(r) else pc[t])
  }

  /** Whether thread t can make the move. */
  predicate Enabled(s: State, t: nat, a: Move) {
    && t < |s.pc| == |s.holds|
    && match s.pc[t]
       case Idle =>
         a.Start? || (a.Release? && a.r in s.holds[t]) || (a.Poke? && s.sched == [])
       case Want(g) => a == Go && g !in s.locks
       case Locked(g) => a.Try? && Guard(a.r) == g
       case Sleepy(_) => a == Go && s.sched == []
       case Asleep(_) => false
       case Woken(_) => a == Go && s.sched == []
       case RelWant(r) => a == Go && Guard(r) !in s.locks
       case RelWake(_) => a == Go && s.sched == []
       case _ => a == Go
  }

  function Next(s: State, t: nat, a: Move): State
    requires Enabled(s, t, a)
  {
    match s.pc[t]
    case Idle =>
      (match a
       case Start(g) => At(s, t, Want(g))
       case Release(r) => At(s, t, RelWant(r))
       case Poke(r) => s.(pc := WakeAll(s.pc, r)))
    case Want(g) => Take(At(s, t, Locked(g)), g, t)
    case Locked(g) =>
      if a.r in s.busy then At(s, t, Sleepy(a.r))
      else At(s, t, Got(g)).(busy := s.busy + {a.r}, holds := s.holds[t := s.holds[t] + {a.r}])
    case Got(g) => Drop(At(s, t, Idle), g)
    case Sleepy(r) => At(s, t, SleepyBoth(r)).(sched := [t])
    case SleepyBoth(r) => Drop(At(s, t, SleepyOnly(r)), Guard(r))
    case SleepyOnly(r) => At(s, t, Asleep(r)).(sched := [])
    case Woken(r) => At(s, t, Tidying(r)).(sched := [t])
    case Tidying(r) => At(s, t, Want(Guard(r))).(sched := [])
    case RelWant(r) => Take(At(s, t, RelLocked(r)), Guard(r), t)
    case RelLocked(r) => At(s, t, RelWake(r)).(busy := s.busy - {r}, holds := s.holds[t := s.holds[t] - {r}])
    case RelWake(r) => At(s, t, RelWaking(r)).(sched := [t])
    case RelWaking(r) => s.(pc := WakeAll(s.pc, r)[t := RelDone(Guard(r))], sched := [])
    case RelDone(g) => Drop(At(s, t, Idle), g)
  }

  // ---- the invariant --------------------------------------------------------------------

  predicate HasLock(p: Pc, g: Lock) {
    match p
    case Locked(h) => g == h
    case Got(h) => g == h
    case RelDone(h) => g == h
    case Sleepy(r) => g == Guard(r)
    case SleepyBoth(r) => g == Guard(r)
    case RelLocked(r) => g == Guard(r)
    case RelWake(r) => g == Guard(r)
    case RelWaking(r) => g == Guard(r)
    case _ => false
  }

  predicate HasSched(p: Pc) { p.SleepyBoth? || p.SleepyOnly? || p.Tidying? || p.RelWaking? }

  /** Spinlocks: g is recorded as t's exactly while t is where it has g. */
  ghost predicate LocksOk(s: State) {
    && (forall g :: g in s.locks ==> s.locks[g] < |s.pc|)
    && (forall t, g :: 0 <= t < |s.pc| ==> (HasLock(s.pc[t], g) <==> g in s.locks && s.locks[g] == t))
    && |s.sched| <= 1 && (s.sched != [] ==> s.sched[0] < |s.pc|)
    && (forall t :: 0 <= t < |s.pc| ==> (HasSched(s.pc[t]) <==> s.sched == [t]))
  }

  /** Each busy resource has one holder, and nothing else has a holder. */
  ghost predicate HoldersOk(s: State) {
    && |s.holds| == |s.pc|
    && (forall t, r :: 0 <= t < |s.holds| && r in s.holds[t] ==> r in s.busy)
    && (forall t, u, r :: 0 <= t < u < |s.holds| && r in s.holds[t] ==> r !in s.holds[u])
    && (forall r :: r in s.busy ==> exists t :: 0 <= t < |s.holds| && r in s.holds[t])
    && (forall t :: 0 <= t < |s.pc| && (s.pc[t].RelWant? || s.pc[t].RelLocked?) ==> s.pc[t].r in s.holds[t])
  }

  /** A releaser has cleared r's flag and has not finished waking its sleepers. */
  predicate Waking(s: State, r: Res) {
    && Guard(r) in s.locks && s.locks[Guard(r)] < |s.pc|
    && (s.pc[s.locks[Guard(r)]] == RelWake(r) || s.pc[s.locks[Guard(r)]] == RelWaking(r))
  }

  /** If thread u sleeps on r, or is about to, somebody will still wake it. */
  ghost predicate Promised(s: State, u: nat)
    requires u < |s.pc|
  {
    match s.pc[u]
    case Sleepy(r) => r in s.busy
    case SleepyBoth(r) => r in s.busy
    case SleepyOnly(r) => r in s.busy || Waking(s, r)
    case Asleep(r) => r in s.busy || Waking(s, r)
    case _ => true
  }

  ghost predicate SleepersOk(s: State) { forall u :: 0 <= u < |s.pc| ==> Promised(s, u) }

  ghost predicate Inv(s: State) { LocksOk(s) && HoldersOk(s) && SleepersOk(s) }

  function Initial(n: nat): State { State(seq(n, _ => Idle), map[], [], {}, seq(n, _ => {})) }

  lemma InitialInv(n: nat)
    ensures Inv(Initial(n))
  {
  }

  // ---- how a step moves the locks -----------------------------------------------------------

  lemma SameLocks(s: State, t: nat, p: Pc)
    requires LocksOk(s) && t < |s.pc| && HasSched(p) == HasSched(s.pc[t])
    requires forall g :: HasLock(p, g) == HasLock(s.pc[t], g)
    ensures LocksOk(At(s, t, p))
  {
    hide HasLock, HasSched;
  }

  lemma TakeLock(s: State, t: nat, p: Pc, g: Lock)
    requires LocksOk(s) && t < |s.pc| && g !in s.locks && HasSched(p) == HasSched(s.pc[t])
    requires forall h :: !HasLock(s.pc[t], h) && (HasLock(p, h) <==> h == g)
    ensures LocksOk(Take(At(s, t, p), g, t))
  {
    hide HasLock, HasSched;
  }

  lemma DropLock(s: State, t: nat, p: Pc, g: Lock)
    requires LocksOk(s) && t < |s.pc| && HasSched(p) == HasSched(s.pc[t])
    requires forall h :: !HasLock(p, h) && (HasLock(s.pc[t], h) <==> h == g)
    ensures LocksOk(Drop(At(s, t, p), g))
  {
    hide HasLock, HasSched;
    var s' := Drop(At(s, t, p), g);
    assert HasLock(s.pc[t], g);
    forall u, h | 0 <= u < |s'.pc| ensures HasLock(s'.pc[u], h) <==> h in s'.locks && s'.locks[h] == u {
      assert HasLock(s.pc[u], h) <==> h in s.locks && s.locks[h] == u;
    }
  }

  lemma TakeSched(s: State, t: nat, p: Pc)
    requires LocksOk(s) && t < |s.pc| && s.sched == [] && HasSched(p)
    requires forall g :: HasLock(p, g) == HasLock(s.pc[t], g)
    ensures LocksOk(At(s, t, p).(sched := [t]))
  {
    hide HasLock, HasSched;
  }

  lemma DropSched(s: State, t: nat, p: Pc)
    requires LocksOk(s) && t < |s.pc| && HasSched(s.pc[t]) && !HasSched(p)
    requires forall g :: HasLock(p, g) == HasLock(s.pc[t], g)
    ensures LocksOk(At(s, t, p).(sched := []))
  {
    hide HasLock, HasSched;
  }

  /** Neither sleepers nor the newly woken have a lock. */
  lemma WakeLocks(s: State, r: Res)
    requires LocksOk(s)
    ensures LocksOk(s.(pc := WakeAll(s.pc, r)))
  {
    var q := WakeAll(s.pc, r);
    forall t | 0 <= t < |q|
      ensures HasSched(q[t]) == HasSched(s.pc[t]) && forall g :: HasLock(q[t], g) == HasLock(s.pc[t], g)
    {
    }
    hide HasLock, HasSched, WakeAll;
  }

  lemma LocksKept(s: State, t: nat, a: Move)
    requires LocksOk(s) && Enabled(s, t, a)
    ensures LocksOk(Next(s, t, a))
  {
    hide LocksOk, WakeAll;
    match s.pc[t]
    case Idle =>
      if a.Poke? { WakeLocks(s, a.r); } else { SameLocks(s, t, Next(s, t, a).pc[t]); }
    case Want(g) => TakeLock(s, t, Locked(g), g);
    case Locked(g) => SameLocks(s, t, Next(s, t, a).pc[t]); Frame(At(s, t, Next(s, t, a).pc[t]), Next(s, t, a));
    case Got(g) => DropLock(s, t, Idle, g);
    case Sleepy(r) => TakeSched(s, t, SleepyBoth(r));
    case SleepyBoth(r) => DropLock(s, t, SleepyOnly(r), Guard(r));
    case SleepyOnly(r) => DropSched(s, t, Asleep(r));
    case Woken(r) => TakeSched(s, t, Tidying(r));
    case Tidying(r) => DropSched(s, t, Want(Guard(r)));
    case RelWant(r) => TakeLock(s, t, RelLocked(r), Guard(r));
    case RelLocked(r) => SameLocks(s, t, RelWake(r)); Frame(At(s, t, RelWake(r)), Next(s, t, a));
    case RelWake(r) => TakeSched(s, t, RelWaking(r));
    case RelWaking(r) => WakeLocks(s, r); DropSched(s.(pc := WakeAll(s.pc, r)), t, RelDone(Guard(r)));
    case RelDone(g) => DropLock(s, t, Idle, g);
  }

  lemma Frame(s: State, s': State)
    requires LocksOk(s) && s'.pc == s.pc && s'.locks == s.locks && s'.sched == s.sched
    ensures LocksOk(s')
  {
  }

  lemma SameHolders(s: State, s': State)
    requires HoldersOk(s) && |s'.pc| == |s.pc| && s'.busy == s.busy && s'.holds == s.holds
    requires forall t :: 0 <= t < |s.pc| && (s'.pc[t].RelWant? || s'.pc[t].RelLocked?) ==> s'.pc[t].r in s.holds[t]
    ensures HoldersOk(s')
  {
  }

  lemma NewHolder(s: State, t: nat, p: Pc, r: Res)
    requires HoldersOk(s) && t < |s.pc| && r !in s.busy && !p.RelWant? && !p.RelLocked?
    ensures HoldersOk(At(s, t, p).(busy := s.busy + {r}, holds := s.holds[t := s.holds[t] + {r}]))
  {
    var s' := At(s, t, p).(busy := s.busy + {r}, holds := s.holds[t := s.holds[t] + {r}]);
    forall x | x in s'.busy ensures exists u :: 0 <= u < |s'.holds| && x in s'.holds[u] {
      if x == r {
        assert x in s'.holds[t];
      } else {
        var u :| 0 <= u < |s.holds| && x in s.holds[u];
        assert x in s'.holds[u];
      }
    }
  }

  lemma NoHolder(s: State, t: nat, p: Pc, r: Res)
    requires HoldersOk(s) && t < |s.pc| && r in s.holds[t] && !p.RelWant? && !p.RelLocked?
    ensures HoldersOk(At(s, t, p).(busy := s.busy - {r}, holds := s.holds[t := s.holds[t] - {r}]))
  {
    var s' := At(s, t, p).(busy := s.busy - {r}, holds := s.holds[t := s.holds[t] - {r}]);
    forall x | x in s'.busy ensures exists u :: 0 <= u < |s'.holds| && x in s'.holds[u] {
      var u :| 0 <= u < |s.holds| && x in s.holds[u];
      assert x in s'.holds[u];
    }
  }

  lemma HoldersKept(s: State, t: nat, a: Move)
    requires HoldersOk(s) && Enabled(s, t, a)
    ensures HoldersOk(Next(s, t, a))
  {
    var s' := Next(s, t, a);
    if s.pc[t].Locked? && a.r !in s.busy {
      NewHolder(s, t, Got(s.pc[t].g), a.r);
    } else if s.pc[t].RelLocked? {
      NoHolder(s, t, RelWake(s.pc[t].r), s.pc[t].r);
    } else {
      SameHolders(s, s');
    }
  }

  /** A step by t keeps the promise made to another thread u. */
  lemma OtherPromised(s: State, t: nat, a: Move, u: nat)
    requires Inv(s) && Enabled(s, t, a) && u < |s.pc| && u != t
    ensures Promised(Next(s, t, a), u)
  {
    hide HoldersOk, WakeAll;
    assert Promised(s, u);
    assert HasSched(s.pc[t]) <==> s.sched == [t];
    assert HasSched(s.pc[u]) <==> s.sched == [u];
    if s.pc[u].Sleepy? || s.pc[u].SleepyBoth? || s.pc[u].SleepyOnly? || s.pc[u].Asleep? {
      var r := s.pc[u].r;
      assert HasLock(s.pc[t], Guard(r)) <==> Guard(r) in s.locks && s.locks[Guard(r)] == t;
      assert HasLock(s.pc[u], Guard(r)) <==> Guard(r) in s.locks && s.locks[Guard(r)] == u;
      hide LocksOk, SleepersOk;
      if s.pc[t] == RelLocked(r) {
        assert Waking(Next(s, t, a), r);
      } else {
        if r in s.busy { BusyStays(s, t, a, r); } else { WakingStays(s, t, a, r); }
      }
    }
    hide LocksOk, SleepersOk;
  }

  lemma BusyStays(s: State, t: nat, a: Move, r: Res)
    requires Enabled(s, t, a) && s.pc[t] != RelLocked(r) && r in s.busy
    ensures r in Next(s, t, a).busy
  {
  }

  /** A releaser stays in its wakeup until it has woken everyone. */
  lemma WakingStays(s: State, t: nat, a: Move, r: Res)
    requires Enabled(s, t, a) && Waking(s, r)
    requires HasLock(s.pc[t], Guard(r)) <==> Guard(r) in s.locks && s.locks[Guard(r)] == t
    ensures Waking(Next(s, t, a), r) || s.pc[t] == RelWaking(r)
  {
  }

  lemma OwnPromised(s: State, t: nat, a: Move)
    requires Inv(s) && Enabled(s, t, a)
    ensures Promised(Next(s, t, a), t)
  {
    hide HoldersOk, WakeAll;
    assert Promised(s, t);
    assert HasSched(s.pc[t]) <==> s.sched == [t];
    if s.pc[t].SleepyOnly? {
      var r := s.pc[t].r;
      assert Waking(s, r) ==> s.locks[Guard(r)] != t;
    }
    hide LocksOk, SleepersOk;
  }

  lemma SleepersKept(s: State, t: nat, a: Move)
    requires Inv(s) && Enabled(s, t, a)
    ensures SleepersOk(Next(s, t, a))
  {
    var s' := Next(s, t, a);
    forall u | 0 <= u < |s'.pc| ensures Promised(s', u) {
      if u == t { OwnPromised(s, t, a); } else { OtherPromised(s, t, a, u); }
    }
    hide Next, Inv, Enabled;
  }

  /** Every step keeps the invariant. */
  lemma StepKeeps(s: State, t: nat, a: Move)
    requires Inv(s) && Enabled(s, t, a)
    ensures Inv(Next(s, t, a))
  {
    hide LocksOk, HoldersOk, SleepersOk;
    LocksKept(s, t, a);
    HoldersKept(s, t, a);
    SleepersKept(s, t, a);
  }

  ghost predicate IsRun(ss: seq<State>, ts: seq<nat>, ms: seq<Move>) {
    && |ss| == |ts| + 1 && |ms| == |ts|
    && forall i :: 0 <= i < |ts| ==> Enabled(ss[i], ts[i], ms[i]) && ss[i + 1] == Next(ss[i], ts[i], ms[i])
  }

  lemma {:induction false} RunsKeep(ss: seq<State>, ts: seq<nat>, ms: seq<Move>, i: nat)
    requires IsRun(ss, ts, ms) && Inv(ss[0]) && i < |ss|
    ensures Inv(ss[i])
  {
    hide Inv, Enabled, Next;
    if i > 0 {
      RunsKeep(ss, ts, ms, i - 1);
      StepKeeps(ss[i - 1], ts[i - 1], ms[i - 1]);
    }
  }

  /** In every state of every interleaving a transaction, buffer or inode has at most one holder. */
  lemma SingleHolder(ss: seq<State>, ts: seq<nat>, ms: seq<Move>, i: nat, t: nat, u: nat, r: Res)
    requires IsRun(ss, ts, ms) && Inv(ss[0]) && i < |ss| && t < |ss[i].holds| && u < |ss[i].holds|
    requires r in ss[i].holds[t] && r in ss[i].holds[u]
    ensures t == u && r in ss[i].busy
  {
    hide Enabled, Next, IsRun, LocksOk, SleepersOk;
    RunsKeep(ss, ts, ms, i);
  }

  /**
   * No lost wakeup: in every state of every interleaving in which nobody is inside r's guard, a thread
   * asleep on r means r is still busy, and so that its holder has yet to wake it.
   */
  lemma NoLostWakeup(ss: seq<State>, ts: seq<nat>, ms: seq<Move>, i: nat, t: nat)
    requires IsRun(ss, ts, ms) && Inv(ss[0]) && i < |ss| && t < |ss[i].pc|
    requires ss[i].pc[t].Asleep? && Guard(ss[i].pc[t].r) !in ss[i].locks
    ensures ss[i].pc[t].r in ss[i].busy && exists u :: 0 <= u < |ss[i].holds| && ss[i].pc[t].r in ss[i].holds[u]
  {
    hide Enabled, Next, IsRun, LocksOk;
    RunsKeep(ss, ts, ms, i);
    assert Promised(ss[i], t);
  }

  /** The end of a release leaves nobody asleep on the resource, nor about to be. */
  lemma ReleaseWakesAll(s: State, t: nat, r: Res, u: nat)
    requires Inv(s) && t < |s.pc| && s.pc[t] == RelWaking(r) && u < |s.pc|
    ensures var q := Next(s, t, Go).pc[u];
            q != Asleep(r) && q != SleepyOnly(r) && q != SleepyBoth(r) && q != Sleepy(r)
  {
    hide HoldersOk, SleepersOk;
    assert HasSched(s.pc[u]) <==> s.sched == [u];
    assert HasSched(s.pc[t]) <==> s.sched == [t];
    assert HasLock(s.pc[u], Guard(r)) <==> Guard(r) in s.locks && s.locks[Guard(r)] == u;
    assert HasLock(s.pc[t], Guard(r)) <==> Guard(r) in s.locks && s.locks[Guard(r)] == t;
  }

  // ---- who owns what, over runs ---------------------------------------------------------------

  /** Thread t sees r free inside its guard, and so takes it. */
  predicate Takes(s: State, u: nat, a: Move, t: nat, r: Res) {
    u == t < |s.pc| && s.pc[t] == Locked(Guard(r)) && a == Try(r) && r !in s.busy
  }

  /** Thread t, inside the guard, gives r up. */
  predicate GivesUp(s: State, u: nat, t: nat, r: Res) { u == t < |s.pc| && s.pc[t] == RelLocked(r) }

  /** Whether t has taken r and not given it up since, going by the first n steps. */
  ghost predicate HasTaken(ss: seq<State>, ts: seq<nat>, ms: seq<Move>, n: nat, t: nat, r: Res)
    requires IsRun(ss, ts, ms) && n < |ss| && t < |ss[0].holds|
  {
    if n == 0 then r in ss[0].holds[t]
    else if Takes(ss[n - 1], ts[n - 1], ms[n - 1], t, r) then true
    else if GivesUp(ss[n - 1], ts[n - 1], t, r) then false
    else HasTaken(ss, ts, ms, n - 1, t, r)
  }

  lemma HoldStep(s: State, u: nat, a: Move, t: nat, r: Res)
    requires Enabled(s, u, a) && t < |s.holds|
    ensures |Next(s, u, a).holds| == |s.holds|
    ensures r in Next(s, u, a).holds[t] <==> Takes(s, u, a, t, r) || (r in s.holds[t] && !GivesUp(s, u, t, r))
  {
    hide WakeAll;
  }

  /** In every interleaving a resource belongs to exactly those threads that took it and have not given it up. */
  lemma {:induction false} HoldsIffTaken(ss: seq<State>, ts: seq<nat>, ms: seq<Move>, n: nat, t: nat, r: Res)
    requires IsRun(ss, ts, ms) && n < |ss| && t < |ss[0].holds|
    ensures t < |ss[n].holds| && (r in ss[n].holds[t] <==> HasTaken(ss, ts, ms, n, t, r))
  {
    hide Enabled, Next, Takes, GivesUp;
    if n > 0 {
      HoldsIffTaken(ss, ts, ms, n - 1, t, r);
      HoldStep(ss[n - 1], ts[n - 1], ms[n - 1], t, r);
    }
  }

  /** It is busy exactly while somebody has it so. */
  lemma BusyIffTaken(ss: seq<State>, ts: seq<nat>, ms: seq<Move>, n: nat, r: Res)
    requires IsRun(ss, ts, ms) && Inv(ss[0]) && n < |ss|
    ensures r in ss[n].busy <==> exists t :: 0 <= t < |ss[0].holds| && HasTaken(ss, ts, ms, n, t, r)
  {
    hide Enabled, Next, IsRun, LocksOk, SleepersOk, HasTaken;
    RunsKeep(ss, ts, ms, n);
    SameThreads(ss, ts, ms, n);
    if r in ss[n].busy {
      var t :| 0 <= t < |ss[n].holds| && r in ss[n].holds[t];
      HoldsIffTaken(ss, ts, ms, n, t, r);
    }
    forall t: nat | t < |ss[0].holds| && HasTaken(ss, ts, ms, n, t, r) ensures r in ss[n].busy {
      HoldsIffTaken(ss, ts, ms, n, t, r);
    }
  }

  lemma {:induction false} SameThreads(ss: seq<State>, ts: seq<nat>, ms: seq<Move>, n: nat)
    requires IsRun(ss, ts, ms) && n < |ss|
    ensures |ss[n].pc| == |ss[0].pc| && |ss[n].holds| == |ss[0].holds|
  {
    hide Enabled, Next;
    if n > 0 {
      SameThreads(ss, ts, ms, n - 1);
      SameSize(ss[n - 1], ts[n - 1], ms[n - 1]);
    }
  }

  lemma SameSize(s: State, t: nat, a: Move)
    requires Enabled(s, t, a)
    ensures |Next(s, t, a).pc| == |s.pc| && |Next(s, t, a).holds| == |s.holds|
  {
  }

  /** The places of a thread that sleeps on r or has been woken and not yet gone back for the guard. */
  predicate Resting(p: Pc, r: Res) { p == Asleep(r) || p == Woken(r) || p == Tidying(r) }

  lemma RestStep(s: State, u: nat, a: Move, t: nat, r: Res)
    requires Enabled(s, u, a) && t < |s.pc| && Resting(s.pc[t], r)
    ensures |Next(s, u, a).pc| == |s.pc|
    ensures Resting(Next(s, u, a).pc[t], r) || Next(s, u, a).pc[t] == Want(Guard(r))
  {
  }

  /** A thread that slept on r looks at r again: it goes nowhere else before it asks for the guard. */
  lemma {:induction false} SleeperRetries(ss: seq<State>, ts: seq<nat>, ms: seq<Move>, i: nat, j: nat, t: nat, r: Res)
    requires IsRun(ss, ts, ms) && i <= j < |ss| && t < |ss[i].pc| && ss[i].pc[t] == Asleep(r)
    requires forall l :: i <= l <= j ==> t < |ss[l].pc| && ss[l].pc[t] != Want(Guard(r))
    ensures Resting(ss[j].pc[t], r)
  {
    hide Enabled, Next;
    if i < j {
      SleeperRetries(ss, ts, ms, i, j - 1, t, r);
      RestStep(ss[j - 1], ts[j - 1], ms[j - 1], t, r);
    }
  }
}
