/** The scheduler as a state machine: thread states, sleep channels, pending signals and the ready queue. */
module Sched {
  import opened Common
  import opened Words
  import opened ThreadQueue

  const NSIG: nat := 32
  const SIGKILL: nat := 9

  datatype TState = Ready | Run | Asleep | Dead

  /** pend holds the pending-signal masks, nch how many children each process has had. */
  datatype Sched = Sched(st: seq<TState>, chan: seq<nat>, pend: seq<nat>, nch: seq<nat>, ready: seq<nat>, cur: nat) {
    predicate Sized() {
      && |st| == NUM_IDS && |chan| == NUM_IDS && |pend| == NUM_IDS && |nch| == NUM_IDS && cur < NUM_IDS
      && (forall p :: 0 <= p < NUM_IDS ==> pend[p] < Pow2(NSIG))
      && forall p :: p in ready ==> p < NUM_IDS
    }

    /** p has been created at some time: it is one of its parent's first nch children. */
    predicate Born(p: nat)
      requires |nch| == NUM_IDS
    {
      1 <= p < NUM_IDS && (p - 1) % MAX_CHILDREN < nch[(p - 1) / MAX_CHILDREN]
    }
  }

  // ---- the operations -----------------------------------------------------------------

  /** Run the first thread of the ready queue. */
  function Dispatch(s: Sched): (r: Sched)
    requires s.Sized() && s.ready != []
    ensures |r.st| == NUM_IDS
  {
    assert s.ready[0] in s.ready;
    s.(st := s.st[s.ready[0] := Run], ready := s.ready[1..], cur := s.ready[0])
  }

  /** thread_yield. */
  function DoYield(s: Sched): (r: Sched)
    requires s.Sized()
    ensures |r.st| == NUM_IDS
  {
    assert (s.ready + [s.cur])[0] in s.ready + [s.cur];
    Dispatch(s.(st := s.st[s.cur := Ready], ready := s.ready + [s.cur]))
  }

  /** thread_sleep, up to the switch. */
  function DoSleep(s: Sched, c: nat): Sched
    requires s.Sized() && s.ready != []
  {
    Dispatch(s.(st := s.st[s.cur := Asleep], chan := s.chan[s.cur := c]))
  }

  /** One round of thread_wakeup. */
  function Wake(s: Sched, c: nat, p: nat): Sched
    requires s.Sized() && p < NUM_IDS
  {
    if s.chan[p] == c && s.st[p] == Asleep
    then s.(st := s.st[p := Ready], chan := s.chan[p := 0], ready := s.ready + [p]) else s
  }

  /** thread_wakeup for the threads 1 .. n. */
  function WakeUpTo(s: Sched, c: nat, n: nat): (r: Sched)
    requires s.Sized() && 1 <= n <= NUM_IDS
    ensures r.Sized()
  {
    if n == 1 then s else Wake(WakeUpTo(s, c, n - 1), c, n - 1)
  }

  function DoWakeup(s: Sched, c: nat): (r: Sched)
    requires s.Sized()
    ensures r.Sized()
  {
    WakeUpTo(s, c, NUM_IDS)
  }

  /** terminate_process, and what SIGKILL does at once. */
  function Terminate(s: Sched, p: nat): Sched
    requires s.Sized() && p < NUM_IDS
  {
    s.(st := s.st[p := Dead], pend := s.pend[p := 0],
       ready := if s.st[p] == Ready then Without(s.ready, p) else s.ready)
  }

  /** sys_kill; a bad signal number or target changes nothing. */
  function DoKill(s: Sched, p: nat, sig: nat): Sched
    requires s.Sized()
  {
    if sig < 1 || sig >= NSIG || p >= NUM_IDS || s.st[p] == Dead then s
    else if sig == SIGKILL then Terminate(s, p)
    else
      var t := s.(pend := s.pend[p := SetBit(s.pend[p], sig, NSIG)]);
      if s.st[p] == Asleep && s.chan[p] != 0 then DoWakeup(t, s.chan[p]) else t
  }

  /** sys_pause as written: the state is set to SLEEP and then thread_yield is called. */
  function DoPause(s: Sched): Sched
    requires s.Sized()
  {
    if s.pend[s.cur] != 0 then s else DoYield(s.(st := s.st[s.cur := Asleep]))
  }

  /** terminate_process of the running thread, then thread_exit. */
  function DoDie(s: Sched): Sched
    requires s.Sized() && s.ready != [] && s.st[s.cur] != Ready
  {
    Dispatch(Terminate(s, s.cur))
  }

  /** The signal handle_pending_signals acts on: the lowest pending one from n up to 31, or 32. */
  function LowestFrom(mask: nat, n: nat): (k: nat)
    requires n <= NSIG
    ensures n <= k <= NSIG && (k < NSIG ==> BitAt(mask, k)) && forall j :: n <= j < k ==> !BitAt(mask, j)
    decreases NSIG - n
  {
    if n == NSIG || BitAt(mask, n) then n else LowestFrom(mask, n + 1)
  }

  /** Whether a trap return ends the running thread; handled are the signals it has handlers for. */
  predicate Dies(s: Sched, handled: set<nat>)
    requires s.Sized()
  {
    var k := LowestFrom(s.pend[s.cur], 1);
    k < NSIG && (k == SIGKILL || k !in handled)
  }

  /** The signal a trap return delivers to a handler; NSIG if none. */
  function Delivery(s: Sched, handled: set<nat>): nat {
    if s.Sized() && !Dies(s, handled) then LowestFrom(s.pend[s.cur], 1) else NSIG
  }

  /** handle_pending_signals, short of what a handler's delivery does to the user stack. */
  function DoTrapReturn(s: Sched, handled: set<nat>): Sched
    requires s.Sized() && (Dies(s, handled) ==> s.ready != [] && s.st[s.cur] != Ready)
  {
    var k := LowestFrom(s.pend[s.cur], 1);
    if k == NSIG then s
    else
      var t := s.(pend := s.pend[s.cur := ClearBit(s.pend[s.cur], k, NSIG)]);
      if Dies(s, handled) then DoDie(t) else t
  }

  /** thread_spawn by the running process, once sys_spawn's checks have passed. */
  function DoSpawn(s: Sched): Sched
    requires s.Sized() && CanSpawn(s)
  {
    var child := Child(s);
    s.(st := s.st[child := Ready], ready := s.ready + [child], nch := s.nch[s.cur := s.nch[s.cur] + 1][child := 0])
  }

  predicate CanSpawn(s: Sched)
    requires s.Sized()
  {
    s.cur * MAX_CHILDREN + 1 + MAX_CHILDREN <= NUM_IDS && s.nch[s.cur] < MAX_CHILDREN
  }

  function Child(s: Sched): nat
    requires s.Sized()
  {
    s.cur * MAX_CHILDREN + 1 + s.nch[s.cur]
  }

  // ---- runs ---------------------------------------------------------------------------

  datatype Step =
    | Spawn
    | Yield
    | Sleep(chan: nat)
    | Wakeup(chan: nat)
    | Kill(pid: nat, sig: nat)
    | Pause
    | TrapReturn(handled: set<nat>)

  /** The steps a kernel may take; the last line leaves out SIGKILL to oneself. */
  predicate Enabled(s: Sched, a: Step) {
    && s.Sized() && s.st[s.cur] != Ready
    && (a.Spawn? ==> CanSpawn(s))
    && (a.Sleep? ==> a.chan != 0 && s.ready != [])
    && (a.TrapReturn? && Dies(s, a.handled) ==> s.ready != [])
    && (a.Kill? ==> !(a.pid == s.cur && a.sig == SIGKILL))
  }

  function Next(s: Sched, a: Step): Sched
    requires Enabled(s, a)
  {
    match a
    case Spawn => DoSpawn(s)
    case Yield => DoYield(s)
    case Sleep(c) => DoSleep(s, c)
    case Wakeup(c) => DoWakeup(s, c)
    case Kill(p, sig) => DoKill(s, p, sig)
    case Pause => DoPause(s)
    case TrapReturn(h) => DoTrapReturn(s, h)
  }

  /** Each state follows from the one before by an enabled step. */
  ghost predicate IsRun(ss: seq<Sched>, steps: seq<Step>) {
    && |ss| == |steps| + 1
    && forall i :: 0 <= i < |steps| ==> Enabled(ss[i], steps[i]) && ss[i + 1] == Next(ss[i], steps[i])
  }

  // ---- the invariant --------------------------------------------------------------------

  /** The ready queue holds exactly the READY threads, once each. */
  ghost predicate Queued(s: Sched)
    requires s.Sized()
  {
    Distinct(s.ready) && forall p :: p in s.ready <==> 1 <= p < NUM_IDS && s.st[p] == Ready
  }

  /** The current thread is the only RUN one; process 0 stays out of it. */
  ghost predicate OneRuns(s: Sched)
    requires s.Sized()
  {
    && 1 <= s.cur && s.st[0] != Ready && s.st[0] != Asleep
    && forall p :: 1 <= p < NUM_IDS ==> (s.st[p] == Run <==> p == s.cur)
  }

  /** Sleepers have a channel, and threads that can run have none. */
  ghost predicate Channels(s: Sched)
    requires s.Sized()
  {
    forall p :: 1 <= p < NUM_IDS && s.st[p] != Dead ==> (s.chan[p] != 0 <==> s.st[p] == Asleep)
  }

  /** Only created processes are alive, and process numbers are handed out in order. */
  ghost predicate Forest(s: Sched)
    requires s.Sized()
  {
    && (forall p :: 1 <= p < NUM_IDS && s.st[p] != Dead ==> s.Born(p))
    && (forall p :: 0 <= p < NUM_IDS ==> s.nch[p] <= MAX_CHILDREN)
    && (forall p :: 1 <= p < NUM_IDS && !s.Born(p) ==> s.nch[p] == 0 && s.chan[p] == 0)
  }

  ghost predicate Inv(s: Sched) { s.Sized() && Queued(s) && OneRuns(s) && Channels(s) && Forest(s) }

  /** After the hand-off of kern_main: idle is process 1 and ready, the shell is process 2 and runs. */
  function Boot(): Sched {
    Sched(seq(NUM_IDS, p => if p == 0 || p == 2 then Run else if p == 1 then Ready else Dead), seq(NUM_IDS, _ => 0),
          seq(NUM_IDS, _ => 0), seq(NUM_IDS, p => if p == 0 then 2 else 0), [1], 2)
  }

  lemma BootInv()
    ensures Inv(Boot())
  {
  }

  /** The invariant inside a switch: the running thread is gone and the next is not chosen yet. */
  ghost predicate Between(s: Sched) {
    && s.Sized() && Queued(s) && Channels(s) && Forest(s) && s.st[0] != Ready && s.st[0] != Asleep
    && forall p :: 1 <= p < NUM_IDS ==> s.st[p] != Run
  }

  lemma DispatchKeeps(s: Sched)
    requires Between(s) && s.ready != []
    ensures Inv(Dispatch(s))
  {
    FrontOff(s.ready);
  }

  lemma YieldKeeps(s: Sched)
    requires Inv(s)
    ensures Inv(DoYield(s))
  {
    hide Forest;
    BackOn(s.ready, s.cur);
    var t := s.(st := s.st[s.cur := Ready], ready := s.ready + [s.cur]);
    SameForest(s, t);
    DispatchKeeps(t);
  }

  /** Who has been born does not depend on the rest of the state. */
  lemma SameForest(s: Sched, t: Sched)
    requires s.Sized() && t.Sized() && Forest(s) && t.nch == s.nch
    requires forall p :: 1 <= p < NUM_IDS && t.st[p] != Dead ==> s.st[p] != Dead
    requires forall p :: 1 <= p < NUM_IDS && t.chan[p] != 0 ==> s.chan[p] != 0 || s.st[p] != Dead
    ensures Forest(t)
  {
    assert forall p :: t.Born(p) <==> s.Born(p);
  }

  lemma SleepKeeps(s: Sched, c: nat)
    requires Inv(s) && s.ready != [] && c != 0
    ensures Inv(DoSleep(s, c))
  {
    hide Forest;
    var t := s.(st := s.st[s.cur := Asleep], chan := s.chan[s.cur := c]);
    SameForest(s, t);
    DispatchKeeps(t);
  }

  lemma WakeKeeps(s: Sched, c: nat, p: nat)
    requires Inv(s) && 1 <= p < NUM_IDS
    ensures Inv(Wake(s, c, p))
  {
    hide Forest;
    if s.chan[p] == c && s.st[p] == Asleep {
      BackOn(s.ready, p);
      SameForest(s, Wake(s, c, p));
    }
  }

  lemma {:induction false} WakeupKeeps(s: Sched, c: nat, n: nat)
    requires Inv(s) && 1 <= n <= NUM_IDS
    ensures Inv(WakeUpTo(s, c, n))
  {
    hide Queued, OneRuns, Channels, Forest;
    if n > 1 {
      WakeupKeeps(s, c, n - 1);
      WakeKeeps(WakeUpTo(s, c, n - 1), c, n - 1);
    }
  }

  lemma CurAlive(s: Sched)
    requires Inv(s)
    ensures s.st[s.cur] != Dead
  {
  }

  /** The state guard of the kill paths: a READY thread is queued, so its removal is safe. */
  lemma TerminateKeeps(s: Sched, p: nat)
    requires Inv(s) && p < NUM_IDS && p != s.cur
    ensures s.st[p] == Ready ==> p in s.ready
    ensures Inv(Terminate(s, p))
  {
    hide Forest, Queued, Without;
    TerminateQueued(s, p);
    SameForest(s, Terminate(s, p));
  }

  lemma TerminateQueued(s: Sched, p: nat)
    requires s.Sized() && Queued(s) && s.st[0] != Ready && p < NUM_IDS
    ensures (s.st[p] == Ready ==> p in s.ready) && Terminate(s, p).Sized() && Queued(Terminate(s, p))
  {
    hide Without;
    if s.st[p] == Ready { WithoutIs(s.ready, p); }
  }

  lemma DieKeeps(s: Sched)
    requires Inv(s) && s.ready != []
    ensures Inv(DoDie(s))
  {
    hide Forest;
    var t := Terminate(s, s.cur);
    SameForest(s, t);
    DispatchKeeps(t);
  }

  lemma PendKeeps(s: Sched, p: nat, x: nat)
    requires Inv(s) && p < NUM_IDS && x < Pow2(NSIG)
    ensures Inv(s.(pend := s.pend[p := x]))
  {
    SameForest(s, s.(pend := s.pend[p := x]));
  }

  /** Process numbers: one more child is born, and it was never born before. */
  lemma Birth(s: Sched, p: nat)
    requires s.Sized() && CanSpawn(s) && Forest(s) && 1 <= p < NUM_IDS
    ensures var t := s.(nch := s.nch[s.cur := s.nch[s.cur] + 1][Child(s) := 0]);
            !s.Born(Child(s)) && (t.Born(p) <==> s.Born(p) || p == Child(s))
  {
    var c := Child(s);
    assert (c - 1) / MAX_CHILDREN == s.cur && (c - 1) % MAX_CHILDREN == s.nch[s.cur];
    assert p == (p - 1) / MAX_CHILDREN * MAX_CHILDREN + (p - 1) % MAX_CHILDREN + 1;
  }

  lemma SpawnKeeps(s: Sched)
    requires Inv(s) && CanSpawn(s)
    ensures Inv(DoSpawn(s)) && !s.Born(Child(s)) && DoSpawn(s).Born(Child(s))
    ensures forall p :: s.Born(p) ==> DoSpawn(s).Born(p)
    ensures var (c, t) := (Child(s), DoSpawn(s));
            && t.st[c] == Ready && t.ready == s.ready + [c] && t.cur == s.cur && t.pend == s.pend && t.chan == s.chan
            && forall p :: 0 <= p < NUM_IDS && p != c ==> t.st[p] == s.st[p]
  {
    hide Forest, Sched.Born;
    Births(s);
    BackOn(s.ready, Child(s));
    SpawnForest(s);
  }

  lemma Births(s: Sched)
    requires s.Sized() && CanSpawn(s) && Forest(s)
    ensures DoSpawn(s).Sized() && s.st[Child(s)] == Dead && s.chan[Child(s)] == 0
    ensures !s.Born(Child(s)) && forall p: nat :: DoSpawn(s).Born(p) <==> s.Born(p) || p == Child(s)
  {
    Birth(s, Child(s));
    forall p: nat | 1 <= p < NUM_IDS ensures DoSpawn(s).Born(p) <==> s.Born(p) || p == Child(s) { Birth(s, p); }
  }

  lemma ChildNotQueued(s: Sched)
    requires Inv(s) && CanSpawn(s)
    ensures Child(s) !in s.ready && Child(s) != s.cur
  {
    hide Channels, Forest, Sched.Born;
    Births(s);
  }

  lemma SpawnForest(s: Sched)
    requires s.Sized() && CanSpawn(s) && Forest(s) && s.st[s.cur] != Dead && 1 <= s.cur
    ensures DoSpawn(s).Sized() && Forest(DoSpawn(s))
  {
    hide Sched.Born;
    Births(s);
  }

  /** A wakeup makes exactly the sleepers on the channel ready, and touches no other thread. */
  lemma {:induction false} WakeupIs(s: Sched, c: nat, n: nat, p: nat)
    requires s.Sized() && 1 <= n <= NUM_IDS && p < NUM_IDS
    ensures var r := WakeUpTo(s, c, n); var woken := 1 <= p < n && s.st[p] == Asleep && s.chan[p] == c;
            && r.st[p] == (if woken then Ready else s.st[p]) && r.chan[p] == (if woken then 0 else s.chan[p])
            && r.cur == s.cur && r.nch == s.nch && r.pend == s.pend && s.ready <= r.ready
  {
    if n > 1 { WakeupIs(s, c, n - 1, p); }
  }

  lemma KillKeeps(s: Sched, p: nat, sig: nat)
    requires Inv(s) && !(p == s.cur && sig == SIGKILL)
    ensures Inv(DoKill(s, p, sig))
  {
    hide Queued, OneRuns, Channels, Forest;
    if !(sig < 1 || sig >= NSIG || p >= NUM_IDS || s.st[p] == Dead) {
      if sig == SIGKILL {
        TerminateKeeps(s, p);
      } else {
        PendKeeps(s, p, SetBit(s.pend[p], sig, NSIG));
        WakeupKeeps(s.(pend := s.pend[p := SetBit(s.pend[p], sig, NSIG)]), s.chan[p], NUM_IDS);
      }
    }
  }

  /** sys_kill keeps the invariant exactly when it is not SIGKILL to oneself. */
  lemma KillKeepsIff(s: Sched, p: nat, sig: nat)
    requires Inv(s)
    ensures Inv(DoKill(s, p, sig)) <==> !(p == s.cur && sig == SIGKILL)
  {
    if !(p == s.cur && sig == SIGKILL) { KillKeeps(s, p, sig); }
  }

  /**
   * After SIGKILL to oneself the next yield undoes the death: it is the yield of a thread that has merely lost its
   * pending signals. The thread is ready again, or goes on running if nobody else is.
   */
  lemma SelfKillRevives(s: Sched)
    requires Inv(s)
    ensures DoKill(s, s.cur, SIGKILL) == s.(st := s.st[s.cur := Dead], pend := s.pend[s.cur := 0])
    ensures DoYield(DoKill(s, s.cur, SIGKILL)) == DoYield(s.(pend := s.pend[s.cur := 0]))
    ensures var t := DoYield(DoKill(s, s.cur, SIGKILL));
            Inv(t) && t.st[s.cur] == (if s.ready == [] then Run else Ready) && (s.ready != [] ==> s.cur in t.ready)
  {
    hide Queued, Channels, Forest;
    var u := s.(pend := s.pend[s.cur := 0]);
    assert s.st[s.cur := Dead][s.cur := Ready] == s.st[s.cur := Ready];
    PendKeeps(s, s.cur, 0);
    YieldKeeps(u);
    NotQueued(s);
  }

  /** The running thread is not in the ready queue. */
  lemma NotQueued(s: Sched)
    requires Inv(s)
    ensures s.cur !in s.ready
    ensures s.ready != [] ==> (s.ready + [s.cur])[0] == s.ready[0] && s.cur in (s.ready + [s.cur])[1..]
  {
    hide Channels, Forest;
    if s.ready != [] { assert (s.ready + [s.cur])[1..][|s.ready| - 1] == s.cur; }
  }

  /** sys_pause with nothing pending is a yield, whatever it set before. */
  lemma PauseIsYield(s: Sched)
    requires s.Sized()
    ensures DoPause(s) == if s.pend[s.cur] == 0 then DoYield(s) else s
  {
    assert s.st[s.cur := Asleep][s.cur := Ready] == s.st[s.cur := Ready];
  }

  lemma TrapReturnKeeps(s: Sched, handled: set<nat>)
    requires Inv(s) && (Dies(s, handled) ==> s.ready != [])
    ensures Inv(DoTrapReturn(s, handled))
  {
    hide Queued, Channels, Forest;
    var k := LowestFrom(s.pend[s.cur], 1);
    if k < NSIG {
      PendKeeps(s, s.cur, ClearBit(s.pend[s.cur], k, NSIG));
      if Dies(s, handled) { DieKeeps(s.(pend := s.pend[s.cur := ClearBit(s.pend[s.cur], k, NSIG)])); }
    }
  }

  lemma StepKeeps(s: Sched, a: Step)
    requires Inv(s) && Enabled(s, a)
    ensures Inv(Next(s, a))
  {
    hide Queued, OneRuns, Channels, Forest, DoSpawn, DoYield, DoSleep, DoKill, DoTrapReturn, WakeUpTo;
    match a
    case Spawn => SpawnKeeps(s);
    case Yield => YieldKeeps(s);
    case Sleep(c) => SleepKeeps(s, c);
    case Wakeup(c) => WakeupKeeps(s, c, NUM_IDS);
    case Kill(p, sig) => KillKeeps(s, p, sig);
    case Pause => PauseIsYield(s); YieldKeeps(s);
    case TrapReturn(h) => TrapReturnKeeps(s, h);
  }

  /** The scheduler invariant holds in every state of every run. */
  lemma {:induction false} RunsKeepInv(ss: seq<Sched>, steps: seq<Step>, i: nat)
    requires IsRun(ss, steps) && Inv(ss[0]) && i < |ss|
    ensures Inv(ss[i])
  {
    hide Inv, Enabled, Next;
    if i > 0 {
      RunsKeepInv(ss, steps, i - 1);
      StepKeeps(ss[i - 1], steps[i - 1]);
    }
  }

  // ---- dead stays dead --------------------------------------------------------------------

  /** No step revives a dead process or hands out its number again. */
  lemma DeadStep(s: Sched, a: Step, p: nat)
    requires Inv(s) && Enabled(s, a) && s.Born(p) && s.st[p] == Dead
    ensures var t := Next(s, a); t.Sized() && t.Born(p) && t.st[p] == Dead
  {
    hide Queued, OneRuns, Channels, Forest, WakeUpTo, Without, LowestFrom, ClearBit;
    StepKeeps(s, a);
    DeadIdle(s, p);
    match a
    case Spawn => SpawnKeeps(s);
    case Wakeup(c) => WakeupIs(s, c, NUM_IDS, p);
    case Kill(q, sig) => DeadKill(s, q, sig, p);
    case _ =>
  }

  lemma DeadIdle(s: Sched, p: nat)
    requires Inv(s) && s.Born(p) && s.st[p] == Dead
    ensures p != s.cur && p !in s.ready && s.st[s.cur] != Ready
  {
    hide Channels, Forest;
  }

  lemma DeadKill(s: Sched, q: nat, sig: nat, p: nat)
    requires s.Sized() && s.Born(p) && s.st[p] == Dead
    ensures var t := DoKill(s, q, sig); t.Sized() ==> t.Born(p) && t.st[p] == Dead
  {
    hide WakeUpTo;
    if !(sig < 1 || sig >= NSIG || q >= NUM_IDS || s.st[q] == Dead || sig == SIGKILL) {
      WakeupIs(s.(pend := s.pend[q := SetBit(s.pend[q], sig, NSIG)]), s.chan[q], NUM_IDS, p);
    }
  }

  /** Once dead, a process stays dead through every continuation of the run. */
  lemma {:induction false} DeadStaysDead(ss: seq<Sched>, steps: seq<Step>, i: nat, j: nat, p: nat)
    requires IsRun(ss, steps) && Inv(ss[0]) && i <= j < |ss|
    requires ss[i].Sized() && ss[i].Born(p) && ss[i].st[p] == Dead
    ensures ss[j].Sized() && ss[j].Born(p) && ss[j].st[p] == Dead
  {
    hide Inv, Enabled, Next;
    if i < j {
      DeadStaysDead(ss, steps, i, j - 1, p);
      RunsKeepInv(ss, steps, j - 1);
      DeadStep(ss[j - 1], steps[j - 1], p);
    }
  }

  /** SIGKILL makes another thread dead and leaves everybody else alone. */
  lemma KilledIsDead(s: Sched, p: nat)
    requires Inv(s) && 1 <= p < NUM_IDS && p != s.cur && s.st[p] != Dead
    ensures var t := DoKill(s, p, SIGKILL);
            && t.Sized() && t.st[p] == Dead && t.Born(p) && p !in t.ready && t.pend[p] == 0 && t.cur == s.cur
            && forall q :: 0 <= q < NUM_IDS && q != p ==> t.st[q] == s.st[q] && t.pend[q] == s.pend[q]
  {
    TerminateKeeps(s, p);
  }

  // ---- trap returns -----------------------------------------------------------------------------

  /** k is pending and no lower signal is. */
  ghost predicate Lowest(mask: nat, k: nat) {
    1 <= k < NSIG && BitAt(mask, k) && forall j: nat :: 1 <= j < k ==> !BitAt(mask, j)
  }

  lemma LowestIs(mask: nat, k: nat)
    ensures Lowest(mask, k) <==> k == LowestFrom(mask, 1) < NSIG
  {
  }

  /** The running thread dies exactly if the signal in turn is SIGKILL or has no handler. */
  lemma DiesIff(s: Sched, handled: set<nat>)
    requires s.Sized()
    ensures Dies(s, handled) <==> exists k: nat :: Lowest(s.pend[s.cur], k) && (k == SIGKILL || k !in handled)
  {
    var k := LowestFrom(s.pend[s.cur], 1);
    LowestIs(s.pend[s.cur], k);
    forall j: nat ensures Lowest(s.pend[s.cur], j) ==> j == k { LowestIs(s.pend[s.cur], j); }
    hide LowestFrom;
  }

  /** A signal with a handler is delivered, and nothing but its bit changes. */
  lemma HandledIsDelivered(s: Sched, handled: set<nat>, k: nat)
    requires Inv(s) && Lowest(s.pend[s.cur], k) && k != SIGKILL && k in handled
    ensures !Dies(s, handled) && Delivery(s, handled) == k
    ensures var t := DoTrapReturn(s, handled);
            && t == s.(pend := t.pend) && t.pend == s.pend[s.cur := t.pend[s.cur]]
            && forall j: nat :: j < NSIG ==> (BitAt(t.pend[s.cur], j) <==> j != k && BitAt(s.pend[s.cur], j))
  {
    hide ClearBit, Queued, OneRuns, Channels, Forest;
    LowestIs(s.pend[s.cur], k);
    forall j: nat | j < NSIG
      ensures BitAt(ClearBit(s.pend[s.cur], k, NSIG), j) <==> j != k && BitAt(s.pend[s.cur], j)
    {
      OneBit(s.pend[s.cur], k, NSIG, j);
    }
  }

  /** SIGKILL and a signal without a handler end the running thread; the next one in the queue runs. */
  lemma DiedIsDead(s: Sched, handled: set<nat>, k: nat)
    requires Inv(s) && Lowest(s.pend[s.cur], k) && (k == SIGKILL || k !in handled) && s.ready != []
    ensures Dies(s, handled) && Delivery(s, handled) == NSIG
    ensures var t := DoTrapReturn(s, handled);
            && t.Sized() && t.st[s.cur] == Dead && t.Born(s.cur) && s.cur !in t.ready && t.pend[s.cur] == 0
            && t.cur == s.ready[0] != s.cur && t.ready == s.ready[1..]
            && forall q :: 0 <= q < NUM_IDS && q != s.cur && q != t.cur ==> t.st[q] == s.st[q] && t.pend[q] == s.pend[q]
  {
    LowestIs(s.pend[s.cur], k);
    TrapReturnKeeps(s, handled);
    NotQueued(s);
    assert s.ready[0] in s.ready;
    hide LowestFrom, ClearBit, Channels;
  }

  /** With no signal from 1 to 31 pending, a trap return changes nothing. */
  lemma NothingToDeliver(s: Sched, handled: set<nat>)
    requires s.Sized() && forall j: nat :: 1 <= j < NSIG ==> !BitAt(s.pend[s.cur], j)
    ensures !Dies(s, handled) && Delivery(s, handled) == NSIG && DoTrapReturn(s, handled) == s
  {
  }

  // ---- sending a signal ---------------------------------------------------------------------------

  predicate Sendable(sig: nat) { 1 <= sig < NSIG && sig != SIGKILL }

  /** sys_kill sets that bit of its target's mask and of nobody else's; a sleeping target becomes ready. */
  lemma SignalIsPending(s: Sched, p: nat, sig: nat)
    requires Inv(s) && p < NUM_IDS && s.st[p] != Dead && Sendable(sig)
    ensures var t := DoKill(s, p, sig);
            && t.Sized() && t.cur == s.cur && t.pend == s.pend[p := t.pend[p]]
            && (forall j: nat :: j < NSIG ==> (BitAt(t.pend[p], j) <==> j == sig || BitAt(s.pend[p], j)))
            && (s.st[p] == Asleep ==> t.st[p] == Ready && p in t.ready)
            && forall q :: 0 <= q < NUM_IDS && !(s.st[p] == Asleep == s.st[q] && s.chan[q] == s.chan[p]) ==>
                 t.st[q] == s.st[q] && t.chan[q] == s.chan[q]
  {
    hide SetBit, WakeUpTo, Forest;
    var u := s.(pend := s.pend[p := SetBit(s.pend[p], sig, NSIG)]);
    forall j: nat | j < NSIG ensures BitAt(u.pend[p], j) <==> j == sig || BitAt(s.pend[p], j) {
      OneBit(s.pend[p], sig, NSIG, j);
    }
    KillKeeps(s, p, sig);
    forall q: nat | q < NUM_IDS
      ensures var r := DoWakeup(u, s.chan[p]);
              && r.st[q] == (if 1 <= q && s.st[q] == Asleep && s.chan[q] == s.chan[p] then Ready else s.st[q])
              && r.chan[q] == (if 1 <= q && s.st[q] == Asleep && s.chan[q] == s.chan[p] then 0 else s.chan[q])
              && r.cur == s.cur && r.pend == u.pend
    {
      WakeupIs(u, s.chan[p], NUM_IDS, q);
    }
  }

  // ---- sleeping -----------------------------------------------------------------------------

  predicate SleepsOn(s: Sched, p: nat, c: nat) {
    s.Sized() && 1 <= p < NUM_IDS && s.st[p] == Asleep && s.chan[p] == c
  }

  /** The steps that wake the sleepers on c: a wakeup, or a signal to one of them. */
  predicate Wakes(s: Sched, a: Step, c: nat) {
    a == Wakeup(c) || (a.Kill? && Sendable(a.sig) && SleepsOn(s, a.pid, c))
  }

  /** thread_sleep puts the running thread to sleep on the channel it names, and runs the next one. */
  lemma SleepIs(s: Sched, c: nat)
    requires Inv(s) && s.ready != [] && c != 0
    ensures var t := DoSleep(s, c);
            && SleepsOn(t, s.cur, c) && t.cur == s.ready[0] && t.st[t.cur] == Run && t.ready == s.ready[1..]
            && t.pend == s.pend && t.nch == s.nch
            && forall q :: 0 <= q < NUM_IDS && q != s.cur ==>
                 t.chan[q] == s.chan[q] && (q != t.cur ==> t.st[q] == s.st[q])
  {
    hide Channels, Forest;
    SleepKeeps(s, c);
    NotQueued(s);
    assert s.ready[0] in s.ready;
  }

  /** No other step disturbs a sleeper. */
  lemma SleeperStays(s: Sched, a: Step, p: nat, c: nat)
    requires Inv(s) && Enabled(s, a) && SleepsOn(s, p, c) && !Wakes(s, a, c) && a != Kill(p, SIGKILL)
    ensures SleepsOn(Next(s, a), p, c)
  {
    hide Queued, OneRuns, Channels, Forest, WakeUpTo, Without, LowestFrom, ClearBit, DoKill;
    StepKeeps(s, a);
    SleeperIdle(s, p, c);
    match a
    case Spawn => SpawnKeeps(s); Births(s);
    case Wakeup(d) => WakeupIs(s, d, NUM_IDS, p);
    case Kill(q, sig) => SleeperUnsignalled(s, q, sig, p, c);
    case _ =>
  }

  lemma SleeperUnsignalled(s: Sched, q: nat, sig: nat, p: nat, c: nat)
    requires Inv(s) && SleepsOn(s, p, c) && !Wakes(s, Kill(q, sig), c) && !(q == p && sig == SIGKILL)
    ensures var t := DoKill(s, q, sig); |t.st| == |t.chan| == NUM_IDS && t.st[p] == Asleep && t.chan[p] == c
  {
    hide Queued, OneRuns, Channels, Forest, WakeUpTo, Without, SetBit;
    SleeperIdle(s, p, c);
    if q < NUM_IDS && Sendable(sig) && s.st[q] != Dead {
      WakeupIs(s.(pend := s.pend[q := SetBit(s.pend[q], sig, NSIG)]), s.chan[q], NUM_IDS, p);
    }
  }

  lemma SleeperIdle(s: Sched, p: nat, c: nat)
    requires Inv(s) && SleepsOn(s, p, c)
    ensures p != s.cur && p !in s.ready && s.st[s.cur] == Run && s.st[0] != Asleep && c != 0
  {
    hide Forest;
  }

  /** A waking step makes every sleeper on the channel ready. */
  lemma WakerWakes(s: Sched, a: Step, p: nat, c: nat)
    requires Inv(s) && Enabled(s, a) && SleepsOn(s, p, c) && Wakes(s, a, c)
    ensures var t := Next(s, a); t.Sized() && t.st[p] == Ready && t.chan[p] == 0 && p in t.ready
  {
    hide OneRuns, Forest, WakeUpTo, SetBit;
    StepKeeps(s, a);
    if a.Kill? {
      WakeupIs(s.(pend := s.pend[a.pid := SetBit(s.pend[a.pid], a.sig, NSIG)]), c, NUM_IDS, p);
    } else {
      WakeupIs(s, c, NUM_IDS, p);
    }
  }

  /** From thread_sleep on, p stays asleep on its channel as long as nobody wakes the channel or kills p. */
  lemma {:induction false} SleepsUntilWoken(ss: seq<Sched>, steps: seq<Step>, i: nat, j: nat, p: nat, c: nat)
    requires IsRun(ss, steps) && Inv(ss[0]) && i < j < |ss| && steps[i] == Sleep(c) && ss[i].cur == p
    requires forall l :: i < l < j ==> !Wakes(ss[l], steps[l], c) && steps[l] != Kill(p, SIGKILL)
    ensures SleepsOn(ss[j], p, c)
  {
    hide Inv, Wakes, SleepsOn, DoSpawn, DoYield, DoKill, DoPause, DoTrapReturn, WakeUpTo;
    RunsKeepInv(ss, steps, j - 1);
    if i == j - 1 {
      SleepIs(ss[i], c);
    } else {
      SleepsUntilWoken(ss, steps, i, j - 1, p, c);
      SleeperStays(ss[j - 1], steps[j - 1], p, c);
    }
  }

  /** And the first step that wakes the channel makes it ready again. */
  lemma WokenIsReady(ss: seq<Sched>, steps: seq<Step>, i: nat, j: nat, p: nat, c: nat)
    requires IsRun(ss, steps) && Inv(ss[0]) && i < j < |steps| && steps[i] == Sleep(c) && ss[i].cur == p
    requires forall l :: i < l < j ==> !Wakes(ss[l], steps[l], c) && steps[l] != Kill(p, SIGKILL)
    requires Wakes(ss[j], steps[j], c)
    ensures ss[j + 1].Sized() && ss[j + 1].st[p] == Ready && ss[j + 1].chan[p] == 0 && p in ss[j + 1].ready
  {
    hide Inv, Next, Wakes, SleepsOn;
    SleepsUntilWoken(ss, steps, i, j, p, c);
    RunsKeepInv(ss, steps, j);
    WakerWakes(ss[j], steps[j], p, c);
  }

  /** Woken threads join the queue in the order of their numbers, behind everybody who was there. */
  lemma {:induction false} WakeOrder(s: Sched, c: nat, n: nat)
    requires s.Sized() && 1 <= n <= NUM_IDS
    ensures var r := WakeUpTo(s, c, n);
            && s.ready <= r.ready
            && (forall q :: q in r.ready[|s.ready|..] <==> 1 <= q < n && s.st[q] == Asleep && s.chan[q] == c)
            && forall i, j :: |s.ready| <= i < j < |r.ready| ==> r.ready[i] < r.ready[j]
  {
    if n > 1 {
      WakeOrder(s, c, n - 1);
      WakeupIs(s, c, n - 1, n - 1);
      var (r, t) := (WakeUpTo(s, c, n - 1), WakeUpTo(s, c, n));
      assert forall i :: |s.ready| <= i < |r.ready| ==> r.ready[i] in r.ready[|s.ready|..];
      if t != r { assert t.ready[|s.ready|..] == r.ready[|s.ready|..] + [n - 1]; }
    }
  }

  // ---- waiting ------------------------------------------------------------------------------

  /** Whether the step switches to the head of the ready queue. */
  predicate Switches(s: Sched, a: Step)
    requires Enabled(s, a)
  {
    a.Yield? || a.Sleep? || (a.Pause? && s.pend[s.cur] == 0) || (a.TrapReturn? && Dies(s, a.handled))
  }

  /** How many of the steps i .. j of a run switch. */
  ghost function Switched(ss: seq<Sched>, steps: seq<Step>, i: nat, j: nat): nat
    requires IsRun(ss, steps) && i <= j <= |steps|
    decreases j - i
  {
    if i == j then 0 else (if Switches(ss[i], steps[i]) then 1 else 0) + Switched(ss, steps, i + 1, j)
  }

  /** A switch moves every waiting thread up by one; other steps move none back. */
  lemma Advance(s: Sched, a: Step, k: nat) returns (k': nat)
    requires Inv(s) && Enabled(s, a) && k < |s.ready| && a != Kill(s.ready[k], SIGKILL)
    ensures var t := Next(s, a);
            if Switches(s, a)
            then if k == 0 then t.cur == s.ready[0] else k' == k - 1 < |t.ready| && t.ready[k'] == s.ready[k]
            else k' <= k && k' < |t.ready| && t.ready[k'] == s.ready[k]
  {
    hide Queued, OneRuns, Channels, Forest, WakeUpTo, LowestFrom, SetBit, ClearBit;
    k' := if Switches(s, a) && k > 0 then k - 1 else k;
    match a
    case Wakeup(c) => WakeupIs(s, c, NUM_IDS, 0);
    case Kill(q, sig) => k' := KillAdvance(s, q, sig, k);
    case Pause => PauseIsYield(s);
    case _ =>
  }

  lemma KillAdvance(s: Sched, q: nat, sig: nat, k: nat) returns (k': nat)
    requires Inv(s) && k < |s.ready| && !(q == s.ready[k] && sig == SIGKILL)
    ensures var t := DoKill(s, q, sig); k' <= k && k' < |t.ready| && t.ready[k'] == s.ready[k]
  {
    hide OneRuns, Channels, Forest, WakeUpTo;
    k' := k;
    if !(sig < 1 || sig >= NSIG || q >= NUM_IDS || s.st[q] == Dead) {
      if sig != SIGKILL {
        WakeupIs(s.(pend := s.pend[q := SetBit(s.pend[q], sig, NSIG)]), s.chan[q], NUM_IDS, 0);
      } else if q in s.ready {
        var j := Place(s.ready, q);
        WithoutAt(s.ready, j);
        k' := if j < k then k - 1 else k;
      } else {
        WithoutNone(s.ready, q);
      }
    }
  }

  /** Bounded waiting: a thread with k threads ahead of it runs within k + 1 switches, unless it is killed. */
  lemma {:induction false} BoundedWaiting(ss: seq<Sched>, steps: seq<Step>, i: nat, j: nat, p: nat, k: nat)
    returns (n: nat)
    requires IsRun(ss, steps) && Inv(ss[0]) && i <= j <= |steps|
    requires k < |ss[i].ready| && ss[i].ready[k] == p && Switched(ss, steps, i, j) >= k + 1
    requires forall l :: i <= l < j ==> steps[l] != Kill(p, SIGKILL)
    ensures i < n <= j && ss[n].cur == p
    decreases j - i
  {
    hide Inv, Enabled, Next, Switches;
    RunsKeepInv(ss, steps, i);
    var k' := Advance(ss[i], steps[i], k);
    if Switches(ss[i], steps[i]) && k == 0 {
      n := i + 1;
    } else {
      n := BoundedWaiting(ss, steps, i + 1, j, p, k');
    }
  }

  // ---- the idle thread ------------------------------------------------------------------------

  const IDLE: nat := 1

  /** The step neither kills the idle thread nor makes it sleep or die. */
  predicate SparesIdle(s: Sched, a: Step)
    requires Enabled(s, a)
  {
    && a != Kill(IDLE, SIGKILL)
    && (s.cur == IDLE ==> !a.Sleep? && !(a.TrapReturn? && Dies(s, a.handled)))
  }

  lemma IdleStep(s: Sched, a: Step)
    requires Inv(s) && Enabled(s, a) && SparesIdle(s, a) && (s.cur == IDLE || IDLE in s.ready)
    ensures Next(s, a).cur == IDLE || IDLE in Next(s, a).ready
  {
    hide Queued, OneRuns, Channels, Forest;
    if IDLE in s.ready {
      var k := Place(s.ready, IDLE);
      var k' := Advance(s, a, k);
    } else {
      IdleRuns(s, a);
    }
  }

  lemma IdleRuns(s: Sched, a: Step)
    requires Inv(s) && Enabled(s, a) && SparesIdle(s, a) && s.cur == IDLE
    ensures Next(s, a).cur == IDLE || IDLE in Next(s, a).ready
  {
    hide Queued, OneRuns, Channels, Forest, WakeUpTo;
    match a
    case Wakeup(c) => WakeupIs(s, c, NUM_IDS, 0);
    case Kill(q, sig) => KillCur(s, q, sig);
    case Yield => YieldStays(s);
    case Pause => PauseIsYield(s); YieldStays(s);
    case _ =>
  }

  lemma KillCur(s: Sched, q: nat, sig: nat)
    requires s.Sized()
    ensures DoKill(s, q, sig).cur == s.cur
  {
    hide WakeUpTo;
    if q < NUM_IDS && 1 <= sig < NSIG && sig != SIGKILL && s.st[q] == Asleep {
      WakeupIs(s.(pend := s.pend[q := SetBit(s.pend[q], sig, NSIG)]), s.chan[q], NUM_IDS, 0);
    }
  }

  lemma YieldStays(s: Sched)
    requires s.Sized()
    ensures DoYield(s).cur == s.cur || s.cur in DoYield(s).ready
  {
    var q := s.ready + [s.cur];
    if |q| > 1 { assert q[1..][|q| - 2] == s.cur; }
  }

  /**
   * With a spared idle thread, whenever another thread runs the ready queue is not empty: the
   * dequeue in thread_sleep and thread_exit never returns the null index.
   */
  lemma {:induction false} NeverNull(ss: seq<Sched>, steps: seq<Step>, i: nat)
    requires IsRun(ss, steps) && Inv(ss[0]) && i < |ss| && (ss[0].cur == IDLE || IDLE in ss[0].ready)
    requires forall l :: 0 <= l < |steps| ==> SparesIdle(ss[l], steps[l])
    ensures ss[i].cur == IDLE || IDLE in ss[i].ready
    ensures ss[i].cur != IDLE ==> ss[i].ready != []
  {
    hide Inv, Enabled, Next;
    if i > 0 {
      NeverNull(ss, steps, i - 1);
      RunsKeepInv(ss, steps, i - 1);
      IdleStep(ss[i - 1], steps[i - 1]);
    }
  }
}
