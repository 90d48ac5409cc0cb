/** deliver_signal and sys_sigreturn on a user stack behind page tables, where a page may have to be found first. */
module SignalStack {
  import opened Common
  import opened Words
  import opened PageTables
  import opened Paging
  import opened UserCopy
  import SignalFrame

  // ---- room for a range, while parts of it are copied ------------------------------------------

  /** Mapping part a .. b of a range takes off its need what that part needed. */
  lemma PagesAfter(v: Vm, v': Vm, p: nat, a: nat, b: nat, lo: nat, hi: nat)
    requires lo <= a < b <= hi && OnlyIn(v, v', p, a, b) && AllMapped(v', p, a, b - a)
    ensures MissingPages(v', p, lo, hi) == MissingPages(v, p, lo, hi) - MissingPages(v, p, a, b)
    ensures MissingPages(v, p, a, b) <= MissingPages(v, p, lo, hi)
  {
    hide Entry;
    forall g: nat | a / PAGESIZE <= g <= (b - 1) / PAGESIZE ensures !NoPage(v', p, g) { PageThere(v', p, a, b - a, g); }
    forall g: nat | !(a / PAGESIZE <= g <= (b - 1) / PAGESIZE) ensures NoPage(v', p, g) <==> NoPage(v, p, g) { }
    hide NoPage;
  }

  lemma TablesAfter(v: Vm, v': Vm, p: nat, a: nat, b: nat, lo: nat, hi: nat)
    requires lo <= a < b <= hi && OnlyIn(v, v', p, a, b) && AllMapped(v', p, a, b - a)
    ensures MissingTables(v', p, lo, hi) == MissingTables(v, p, lo, hi) - MissingTables(v, p, a, b)
    ensures MissingTables(v, p, a, b) <= MissingTables(v, p, lo, hi)
  {
    forall d: nat | PdIndex(a) <= d <= PdIndex(b - 1) ensures !NoTable(v', p, d) { TableThere(v', p, a, b - a, d); }
    forall d: nat | !(PdIndex(a) <= d <= PdIndex(b - 1)) ensures NoTable(v', p, d) <==> NoTable(v, p, d) { }
    hide NoTable;
  }

  lemma SubsetSize(x: set<nat>, y: set<nat>)
    requires y <= x
    ensures |x - y| == |x| - |y|
  {
    assert x == (x - y) + y;
  }

  lemma NeedAfter(v: Vm, v': Vm, p: nat, a: nat, b: nat, lo: nat, hi: nat)
    requires lo <= a < b <= hi && OnlyIn(v, v', p, a, b) && AllMapped(v', p, a, b - a)
    ensures Need(v', p, lo, hi) == Need(v, p, lo, hi) - Need(v, p, a, b)
  {
    PagesAfter(v, v', p, a, b, lo, hi);
    TablesAfter(v, v', p, a, b, lo, hi);
    SubsetSize(MissingPages(v, p, lo, hi), MissingPages(v, p, a, b));
    SubsetSize(MissingTables(v, p, lo, hi), MissingTables(v, p, a, b));
    hide MissingPages, MissingTables;
  }

  lemma IndicesGrow(a: nat, b: nat)
    requires a <= b
    ensures a / PAGESIZE <= b / PAGESIZE && PdIndex(a) <= PdIndex(b)
  {
  }

  lemma PartNeedsLess(v: Vm, p: nat, a: nat, b: nat, lo: nat, hi: nat)
    requires lo <= a < b <= hi
    ensures Need(v, p, a, b) <= Need(v, p, lo, hi)
  {
    hide NoPage, NoTable, PdIndex;
    IndicesGrow(lo, a);
    IndicesGrow(b - 1, hi - 1);
    SubsetSize(MissingPages(v, p, lo, hi), MissingPages(v, p, a, b));
    SubsetSize(MissingTables(v, p, lo, hi), MissingTables(v, p, a, b));
  }

  /** Process p has room for what the user addresses lo .. hi need. */
  ghost predicate Affords(pg: Paging, p: nat, lo: nat, hi: nat)
    reads pg, pg.cont, pg.cont.c, pg.cont.pages, pg.cont.pages.at
  {
    USERLO <= lo && hi <= USERHI && Need(pg.Value(), p, lo, hi) <= Spare(pg, p)
  }

  /** Bytes stay where they are when others change. */
  lemma HoldsStill(v: Vm, v': Vm, p: nat, lo: nat, hi: nat, va: nat, x: seq<byte>)
    requires Same(v, v', p, lo, hi) && Holds(v, p, va, x) && (va + |x| <= lo || hi <= va || hi <= lo)
    ensures Holds(v', p, va, x)
  {
    hide Entry, Byte;
  }

  lemma SameBoth(v: Vm, v1: Vm, v2: Vm, p: nat, a: nat, b: nat, c: nat, d: nat)
    requires Same(v, v1, p, a, b) && Same(v1, v2, p, c, d) && c <= d <= a <= b
    ensures Same(v, v2, p, c, b)
  {
    hide Entry, Byte;
  }

  /** pt_copyout of part of a stack frame: what the process can afford, it gets, and can still afford. */
  method Push(pg: Paging, x: seq<byte>, kva: nat, p: nat, va: nat)
    requires Ready(pg, p) && 1 <= p < NUM_IDS && x != [] && va + |x| < U32 && kva + |x| <= USERHI
    modifies pg`pdir, pg`mem, pg`role, pg.cont`own, pg.cont`lost, pg.cont.c, pg.cont.pages`hint, pg.cont.pages.at
    ensures Ready(pg, p) && Same(old(pg.Value()), pg.Value(), p, va, va + |x|)
    ensures forall lo: nat, hi: nat :: lo <= va && va + |x| <= hi && old(Affords(pg, p, lo, hi)) ==>
              Affords(pg, p, lo, hi) && Holds(pg.Value(), p, va, x)
  {
    hide Same, Entry, Holds, Ready, Need, Spare, OnlyIn, AllMapped;
    ghost var (v, spare) := (pg.Value(), Spare(pg, p));
    var copied := CopyOut(pg, x, kva, p, va);
    SameWider(v, pg.Value(), p, va, va + copied, va + |x|);
    forall lo: nat, hi: nat | lo <= va && va + |x| <= hi && USERLO <= lo && hi <= USERHI && Need(v, p, lo, hi) <= spare
      ensures Affords(pg, p, lo, hi) && Holds(pg.Value(), p, va, x)
    {
      PartNeedsLess(v, p, va, va + |x|, lo, hi);
      NeedAfter(v, pg.Value(), p, va, va + |x|, lo, hi);
    }
  }

  // ---- the running process ------------------------------------------------------------------------

  /** The two words sys_sigreturn goes by. */
  ghost predicate SavedHeld(v: Vm, p: nat, espAt: nat, eipAt: nat, esp: nat, eip: nat)
    requires esp < U32 && eip < U32
  {
    Holds(v, p, espAt, SignalFrame.WordBytes(esp)) && Holds(v, p, eipAt, SignalFrame.WordBytes(eip))
  }

  /** What the handler finds at its stack pointer sp: its return address, the signal number, the trampoline. */
  ghost predicate HandlerHeld(v: Vm, p: nat, sp: nat, trampoline: nat, sig: nat)
    requires trampoline < U32 && sig < U32
  {
    && Holds(v, p, sp, SignalFrame.WordBytes(trampoline)) && Holds(v, p, sp + 4, SignalFrame.WordBytes(sig))
    && Holds(v, p, trampoline, SignalFrame.Trampoline())
  }

  /** The lowest address of the frame pushed below e. */
  function FrameLow(e: nat): (r: nat)
    requires 31 <= e
    ensures r % 4 == 0 && e - 31 <= r <= e - 28
  {
    e - 20 - (e - 20) % 4 - 8
  }

  class Task {
    const pg: Paging
    const p: nat
    var esp: nat
    var eip: nat
    var savedEsp: nat
    var savedEip: nat

    ghost predicate Valid()
      reads this, pg, pg.cont, pg.cont.c, pg.cont.pages, pg.cont.pages.at
    {
      && Ready(pg, p) && 1 <= p < NUM_IDS && esp < U32 && eip < U32 && savedEsp + 4 < U32 && savedEip + 4 < U32
    }

    constructor (pg: Paging, p: nat, esp: nat, eip: nat)
      requires Ready(pg, p) && 1 <= p < NUM_IDS && esp < U32 && eip < U32
      ensures Valid() && this.pg == pg && this.p == p && this.esp == esp && this.eip == eip && savedEsp == 0 == savedEip
    {
      this.pg, this.p, this.esp, this.eip, savedEsp, savedEip := pg, p, esp, eip, 0, 0;
    }

    /** The saved EIP and ESP. */
    method PushContext(kva: nat)
      requires Valid() && 31 <= esp && kva + 12 <= USERHI
      modifies pg`pdir, pg`mem, pg`role, pg.cont`own, pg.cont`lost, pg.cont.c, pg.cont.pages`hint, pg.cont.pages.at
      ensures Valid() && Same(old(pg.Value()), pg.Value(), p, esp - 8, esp)
      ensures forall lo: nat :: lo <= esp - 8 && old(Affords(pg, p, lo, esp)) ==>
                Affords(pg, p, lo, esp) && SavedHeld(pg.Value(), p, esp - 8, esp - 4, esp, eip)
    {
      hide Same, Holds, Ready, Affords, SignalFrame.WordBytes;
      ghost var v := pg.Value();
      Push(pg, SignalFrame.WordBytes(eip), kva, p, esp - 4);
      label one:
      ghost var v1 := pg.Value();
      Push(pg, SignalFrame.WordBytes(esp), kva, p, esp - 8);
      SameBoth(v, v1, pg.Value(), p, esp - 4, esp, esp - 8, esp - 4);
      if Holds(v1, p, esp - 4, SignalFrame.WordBytes(eip)) {
        HoldsStill(v1, pg.Value(), p, esp - 8, esp - 4, esp - 4, SignalFrame.WordBytes(eip));
      }
      assert forall lo: nat :: old(Affords(pg, p, lo, esp)) && lo <= esp - 8 ==> old@one(Affords(pg, p, lo, esp));
    }

    /** The trampoline, the signal number and the return address. */
    method PushCall(sig: nat, kva: nat)
      requires Valid() && 31 <= esp && kva + 12 <= USERHI && sig < U32
      modifies pg`pdir, pg`mem, pg`role, pg.cont`own, pg.cont`lost, pg.cont.c, pg.cont.pages`hint, pg.cont.pages.at
      ensures Valid() && Same(old(pg.Value()), pg.Value(), p, FrameLow(esp), esp - 8)
      ensures old(Affords(pg, p, FrameLow(esp), esp)) ==> HandlerHeld(pg.Value(), p, FrameLow(esp), esp - 20, sig)
    {
      hide Same, Holds, Ready, Affords, SignalFrame.WordBytes, SignalFrame.Trampoline;
      var (back, sp) := (esp - 20, FrameLow(esp));
      ghost var v := pg.Value();
      Push(pg, SignalFrame.Trampoline(), kva, p, back);
      ghost var v1 := pg.Value();
      Push(pg, SignalFrame.WordBytes(sig), kva, p, sp + 4);
      ghost var v2 := pg.Value();
      Push(pg, SignalFrame.WordBytes(back), kva, p, sp);
      SameBoth(v, v1, v2, p, back, back + 12, sp + 4, sp + 8);
      SameBoth(v, v2, pg.Value(), p, sp + 4, back + 12, sp, sp + 4);
      if Holds(v1, p, back, SignalFrame.Trampoline()) && Holds(v2, p, sp + 4, SignalFrame.WordBytes(sig)) {
        HoldsStill(v1, v2, p, sp + 4, sp + 8, back, SignalFrame.Trampoline());
        HoldsStill(v2, pg.Value(), p, sp, sp + 4, back, SignalFrame.Trampoline());
        HoldsStill(v2, pg.Value(), p, sp, sp + 4, sp + 4, SignalFrame.WordBytes(sig));
      }
    }

    /**
     * deliver_signal; handler 0 is none. Nothing outside the frame changes; the saved words are in place if the
     * process could afford their eight bytes, and the whole frame if it could afford all of it.
     */
    method Deliver(handler: nat, sig: nat, kva: nat)
      requires Valid() && 31 <= esp && kva + 12 <= USERHI && handler < U32 && sig < U32
      modifies this, pg`pdir, pg`mem, pg`role, pg.cont`own, pg.cont`lost, pg.cont.c, pg.cont.pages`hint
      modifies pg.cont.pages.at
      ensures Valid()
      ensures handler == 0 ==>
                esp == old(esp) && eip == old(eip) && savedEsp == old(savedEsp) && savedEip == old(savedEip)
      ensures handler != 0 ==>
                esp == FrameLow(old(esp)) && eip == handler && savedEsp == old(esp) - 8 && savedEip == old(esp) - 4
      ensures Same(old(pg.Value()), pg.Value(), p, FrameLow(old(esp)), old(esp))
      ensures handler != 0 && old(Affords(pg, p, esp - 8, esp)) ==>
                SavedHeld(pg.Value(), p, savedEsp, savedEip, old(esp), old(eip))
      ensures handler != 0 && old(Affords(pg, p, FrameLow(esp), esp)) ==>
                HandlerHeld(pg.Value(), p, esp, old(esp) - 20, sig)
    {
      hide Same, Holds, Ready, Affords, SignalFrame.WordBytes, HandlerHeld;
      var (e, pc) := (esp, eip);
      ghost var v := pg.Value();
      if handler == 0 {
        NothingPushed(pg, p, FrameLow(e), e);
        return;
      }
      PushContext(kva);
      ghost var v1 := pg.Value();
      PushCall(sig, kva);
      SameBoth(v, v1, pg.Value(), p, e - 8, e, FrameLow(e), e - 8);
      if SavedHeld(v1, p, e - 8, e - 4, e, pc) {
        SavedStill(v1, pg.Value(), p, FrameLow(e), e - 8, e - 8, e - 4, e, pc);
      }
      esp, eip, savedEsp, savedEip := FrameLow(e), handler, e - 8, e - 4;
    }

    /** sys_sigreturn: it restores the words that stand at the saved addresses, if they are user addresses. */
    method SigReturn(kva: nat) returns (r: SignalFrame.Result)
      requires Valid() && kva + 4 <= USERHI
      modifies this, pg`pdir, pg`mem, pg`role, pg.cont`own, pg.cont`lost, pg.cont.c, pg.cont.pages`hint
      modifies pg.cont.pages.at
      ensures Valid() && Same(old(pg.Value()), pg.Value(), p, old(savedEsp), old(savedEsp))
      ensures r == SignalFrame.NoContext <==> old(savedEsp == 0 || savedEip == 0)
      ensures r == SignalFrame.Done <==> old(SignalFrame.InUser(savedEsp, 4) && SignalFrame.InUser(savedEip, 4))
      ensures r != SignalFrame.Done ==>
                esp == old(esp) && eip == old(eip) && savedEsp == old(savedEsp) && savedEip == old(savedEip)
      ensures r == SignalFrame.Done ==> savedEsp == 0 == savedEip
      ensures r == SignalFrame.Done ==>
                forall x: nat, y: nat ::
                  x < U32 && y < U32 && old(SavedHeld(pg.Value(), p, savedEsp, savedEip, x, y)) ==>
                    esp == x && eip == y
    {
      hide Same, Holds, Ready, SignalFrame.WordBytes, Need, Spare, AllMapped, LoadU32;
      ghost var v := pg.Value();
      ReadyFacts(pg, p);
      SameSelf(v, p, savedEsp);
      if savedEsp == 0 || savedEip == 0 {
        return SignalFrame.NoContext;
      }
      var sp := CopyIn(pg, p, savedEsp, kva, 4);
      ghost var v1 := pg.Value();
      if |sp| != 4 {
        return SignalFrame.BadAddress;
      }
      var pc := CopyIn(pg, p, savedEip, kva, 4);
      SameTwice(v, v1, pg.Value(), p, savedEsp, savedEip);
      if |pc| != 4 {
        return SignalFrame.BadAddress;
      }
      forall x: nat, y: nat | x < U32 && y < U32 && SavedHeld(v, p, savedEsp, savedEip, x, y)
        ensures LoadU32(sp, 0) == x && LoadU32(pc, 0) == y
      {
        ReadBack(v, v1, p, savedEsp, x, sp);
        HoldsStill(v, v1, p, savedEsp, savedEsp, savedEip, SignalFrame.WordBytes(y));
        ReadBack(v1, pg.Value(), p, savedEip, y, pc);
      }
      esp, eip, savedEsp, savedEip := LoadU32(sp, 0), LoadU32(pc, 0), 0, 0;
      r := SignalFrame.Done;
    }

    /**
     * Signal round trip. If the stack pointer leaves room in user space for the saved words, and the process can
     * afford them, sys_sigreturn after deliver_signal restores the interrupted ESP and EIP; if the stack pointer
     * leaves no room, it fails.
     */
    method RoundTrip(handler: nat, sig: nat, kva: nat) returns (r: SignalFrame.Result)
      requires Valid() && 31 <= esp && kva + 12 <= USERHI && 0 < handler < U32 && sig < U32
      modifies this, pg`pdir, pg`mem, pg`role, pg.cont`own, pg.cont`lost, pg.cont.c, pg.cont.pages`hint
      modifies pg.cont.pages.at
      ensures Valid() && (r == SignalFrame.Done <==> USERLO + 8 <= old(esp) <= USERHI)
      ensures old(Affords(pg, p, esp - 8, esp)) ==> r == SignalFrame.Done && esp == old(esp) && eip == old(eip)
    {
      hide Same, Holds, Ready, SignalFrame.WordBytes, Need, Spare, SavedHeld;
      Deliver(handler, sig, kva);
      r := SigReturn(kva);
    }
  }

  lemma NothingPushed(pg: Paging, p: nat, lo: nat, hi: nat)
    requires Ready(pg, p) && lo <= hi
    ensures Same(pg.Value(), pg.Value(), p, lo, hi)
  {
    ReadyFacts(pg, p);
    SameSelf(pg.Value(), p, lo);
    SameWider(pg.Value(), pg.Value(), p, lo, lo, hi);
    hide Same;
  }

  /** Whatever a handler, or another process, writes elsewhere leaves the saved words alone. */
  lemma SavedStill(v: Vm, v': Vm, p: nat, lo: nat, hi: nat, espAt: nat, eipAt: nat, esp: nat, eip: nat)
    requires Same(v, v', p, lo, hi) && esp < U32 && eip < U32 && SavedHeld(v, p, espAt, eipAt, esp, eip)
    requires (espAt + 4 <= lo || hi <= espAt) && (eipAt + 4 <= lo || hi <= eipAt)
    ensures SavedHeld(v', p, espAt, eipAt, esp, eip)
  {
    hide Same, Holds, SignalFrame.WordBytes;
    HoldsStill(v, v', p, lo, hi, espAt, SignalFrame.WordBytes(esp));
    HoldsStill(v, v', p, lo, hi, eipAt, SignalFrame.WordBytes(eip));
  }

  lemma ReadBack(v: Vm, v': Vm, p: nat, at: nat, x: nat, bs: seq<byte>)
    requires x < U32 && |bs| == 4 && Holds(v, p, at, SignalFrame.WordBytes(x))
    requires AllMapped(v, p, at, 4) ==> v' == v
    requires AllMapped(v', p, at, 4) ==> Holds(v', p, at, bs)
    ensures LoadU32(bs, 0) == x
  {
    hide Entry, Byte, SignalFrame.WordBytes, LoadU32;
    HoldsOnce(v, p, at, SignalFrame.WordBytes(x), bs);
  }
}
