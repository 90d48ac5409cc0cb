/** The user stack frame of a signal handler: deliver_signal and sys_sigreturn. */
module SignalFrame {
  import opened Common
  import opened Words

  /** The 32-bit address space of a process. */
  type Memory = m: seq<byte> | |m| == U32 witness seq(U32, _ => 0)

  /** The range check of pt_copyin and pt_copyout, in 32-bit arithmetic. */
  predicate InUser(a: nat, n: nat) { USERLO <= a && Add(a, n) <= USERHI }

  /** 32-bit addition and subtraction. */
  function Add(a: nat, n: nat): int { if a + n < U32 then a + n else a + n - U32 }

  function Sub(a: nat, n: nat): (r: nat)
    requires a < U32 && n <= U32
    ensures r < U32
  {
    if n <= a then a - n else a - n + U32
  }

  function Get(m: Memory, a: nat, n: nat): (r: seq<byte>)
    ensures |r| == n
  {
    seq(n, i => m[(a + i) % U32])
  }

  /** pt_copyout: outside user space it copies nothing. */
  function Out(m: Memory, a: nat, bs: seq<byte>): (r: Memory)
    requires a < U32 && |bs| < U32
  {
    if InUser(a, |bs|) then seq(U32, x requires 0 <= x < U32 => if Sub(x, a) < |bs| then bs[Sub(x, a)] else m[x]) else m
  }

  lemma GetAt(m: Memory, a: nat, n: nat, i: nat)
    requires i < n
    ensures Get(m, a, n)[i] == m[(a + i) % U32]
  {
  }

  lemma OutAt(m: Memory, a: nat, bs: seq<byte>, x: nat)
    requires a < U32 && |bs| < U32 && x < U32
    ensures Out(m, a, bs)[x] == if InUser(a, |bs|) && Sub(x, a) < |bs| then bs[Sub(x, a)] else m[x]
  {
  }

  /** The distance from a to the address i further on. */
  lemma WrapBack(a: nat, i: nat)
    requires a < U32 && i < U32
    ensures Sub((a + i) % U32, a) == i
  {
  }

  lemma OutGet(m: Memory, a: nat, bs: seq<byte>)
    requires a < U32 && |bs| < U32 && InUser(a, |bs|)
    ensures Get(Out(m, a, bs), a, |bs|) == bs
  {
    hide Get, Out, Sub;
    forall i: nat | i < |bs| ensures Get(Out(m, a, bs), a, |bs|)[i] == bs[i] {
      GetAt(Out(m, a, bs), a, |bs|, i);
      OutAt(m, a, bs, (a + i) % U32);
      WrapBack(a, i);
    }
  }

  lemma OutKeeps(m: Memory, a: nat, bs: seq<byte>, b: nat, n: nat)
    requires a + |bs| <= U32 && b + n <= U32 && a < U32 && |bs| < U32 && (b + n <= a || a + |bs| <= b)
    ensures Get(Out(m, a, bs), b, n) == Get(m, b, n)
  {
    hide Get, Out;
    forall i: nat | i < n ensures Get(Out(m, a, bs), b, n)[i] == Get(m, b, n)[i] {
      GetAt(Out(m, a, bs), b, n, i);
      GetAt(m, b, n, i);
      OutAt(m, a, bs, (b + i) % U32);
      assert (b + i) % U32 == b + i;
    }
  }

  function WordBytes(v: nat): (r: seq<byte>)
    requires v < U32
    ensures |r| == 4 && LoadU32(r, 0) == v
  {
    StoreU32([0, 0, 0, 0], 0, v)
  }

  /** mov eax, SYS_sigreturn; int 0x30; jmp $; and padding. */
  function Trampoline(): (r: seq<byte>)
    ensures |r| == 12
  {
    [0xB8, 28, 0, 0, 0, 0xCD, 0x30, 0xEB, 0xFE, 0x90, 0x90, 0x90]
  }

  /** The user context: the trap frame's ESP and EIP, the saved-context slot of the TCB, and memory. */
  datatype Ctx = Ctx(esp: nat, eip: nat, savedEsp: nat, savedEip: nat, mem: Memory) {
    predicate Fits() { esp < U32 && eip < U32 && savedEsp < U32 && savedEip < U32 }
  }

  function TrampolineAt(esp: nat): nat
    requires esp < U32
  {
    Sub(Sub(Sub(esp, 4), 4), 12)
  }

  function SignumAt(esp: nat): nat
    requires esp < U32
  {
    Sub(TrampolineAt(esp) - TrampolineAt(esp) % 4, 4)
  }

  /** deliver_signal to a registered handler. */
  function Delivered(c: Ctx, handler: nat, sig: nat): (r: Ctx)
    requires c.Fits() && handler < U32 && sig < U32
    ensures r.Fits()
  {
    var (a1, a3, a4) := (Sub(c.esp, 4), TrampolineAt(c.esp), SignumAt(c.esp));
    var (a2, a5) := (Sub(a1, 4), Sub(a4, 4));
    var m2 := Out(Out(c.mem, a1, WordBytes(c.eip)), a2, WordBytes(c.esp));
    var m4 := Out(Out(m2, a3, Trampoline()), a4, WordBytes(sig));
    Ctx(a5, handler, a2, a1, Out(m4, a5, WordBytes(a3)))
  }

  datatype Result = Done | NoContext | BadAddress

  /** sys_sigreturn: ESP and EIP come from the saved words, and the saved-context slot is cleared. */
  function Returned(c: Ctx): (r: (Result, Ctx))
    requires c.Fits()
    ensures r.1.Fits() && (r.0 != Done ==> r.1 == c) && (r.0 == NoContext <==> c.savedEsp == 0 || c.savedEip == 0)
    ensures r.0 == Done ==> r.1.savedEsp == 0 == r.1.savedEip && r.1.mem == c.mem
  {
    if c.savedEsp == 0 || c.savedEip == 0 then (NoContext, c)
    else if !InUser(c.savedEsp, 4) || !InUser(c.savedEip, 4) then (BadAddress, c)
    else (Done, Ctx(LoadU32(Get(c.mem, c.savedEsp, 4), 0), LoadU32(Get(c.mem, c.savedEip, 4), 0), 0, 0, c.mem))
  }

  /** Where the frame lies when nothing wraps around. */
  lemma FrameIs(c: Ctx, handler: nat, sig: nat)
    requires c.Fits() && handler < U32 && sig < U32 && USERLO + 8 <= c.esp
    ensures var (e, a3, a4) := (c.esp, TrampolineAt(c.esp), SignumAt(c.esp));
            && a3 == e - 20 && e - 27 <= a4 <= e - 24 && a4 % 4 == 0
            && Delivered(c, handler, sig) == Ctx(a4 - 4, handler, e - 8, e - 4,
                 Out(Out(Out(Out(Out(c.mem, e - 4, WordBytes(c.eip)), e - 8, WordBytes(e)), a3, Trampoline()),
                         a4, WordBytes(sig)),
                     a4 - 4, WordBytes(a3)))
  {
    hide Get, Out, WordBytes, Trampoline;
  }

  /** The first two words pushed, and that the rest of the delivery leaves them alone. */
  lemma SavedWords(c: Ctx, handler: nat, sig: nat)
    requires c.Fits() && handler < U32 && sig < U32 && USERLO + 8 <= c.esp <= USERHI
    ensures Get(Delivered(c, handler, sig).mem, c.esp - 4, 4) == WordBytes(c.eip)
    ensures Get(Delivered(c, handler, sig).mem, c.esp - 8, 4) == WordBytes(c.esp)
  {
    hide Get, Out, WordBytes, Trampoline, Delivered, TrampolineAt, SignumAt, Sub;
    FrameIs(c, handler, sig);
    var (e, a3, a4) := (c.esp, TrampolineAt(c.esp), SignumAt(c.esp));
    var m1 := Out(c.mem, e - 4, WordBytes(c.eip));
    var m2 := Out(m1, e - 8, WordBytes(e));
    var m3 := Out(m2, a3, Trampoline());
    var m4 := Out(m3, a4, WordBytes(sig));
    OutGet(c.mem, e - 4, WordBytes(c.eip));
    OutGet(m1, e - 8, WordBytes(e));
    OutKeeps(m1, e - 8, WordBytes(e), e - 4, 4);
    forall b | b == e - 4 || b == e - 8 ensures Get(Out(m4, a4 - 4, WordBytes(a3)), b, 4) == Get(m2, b, 4) {
      OutKeeps(m2, a3, Trampoline(), b, 4);
      OutKeeps(m3, a4, WordBytes(sig), b, 4);
      OutKeeps(m4, a4 - 4, WordBytes(a3), b, 4);
    }
  }

  /** The two save slots are both in user space just if the stack pointer leaves room for them. */
  lemma SavedAt(c: Ctx, handler: nat, sig: nat)
    requires c.Fits() && handler < U32 && sig < U32
    ensures var r := Delivered(c, handler, sig);
            && (InUser(r.savedEsp, 4) && InUser(r.savedEip, 4) <==> USERLO + 8 <= c.esp <= USERHI)
            && (USERLO + 8 <= c.esp ==> r.savedEip == c.esp - 4 && r.savedEsp == c.esp - 8)
  {
    hide Get, Out, WordBytes, Trampoline;
  }

  /**
   * Signal round trip. d is any context in which the handler has left the saved-context slot and the
   * eight saved bytes as delivery made them. sys_sigreturn restores the interrupted ESP and EIP
   * exactly when the stack pointer left room in user space; otherwise it fails and changes nothing.
   */
  lemma RoundTrip(c: Ctx, handler: nat, sig: nat, d: Ctx)
    requires c.Fits() && handler < U32 && sig < U32 && d.Fits()
    requires var r := Delivered(c, handler, sig);
             d.savedEsp == r.savedEsp && d.savedEip == r.savedEip
             && Get(d.mem, r.savedEsp, 4) == Get(r.mem, r.savedEsp, 4)
             && Get(d.mem, r.savedEip, 4) == Get(r.mem, r.savedEip, 4)
    ensures Returned(d).0 == Done <==> USERLO + 8 <= c.esp <= USERHI
    ensures Returned(d).0 == Done ==> Returned(d).1 == Ctx(c.esp, c.eip, 0, 0, d.mem)
    ensures Returned(d).0 != Done ==> Returned(d).1 == d
  {
    hide Get, Out, WordBytes, Delivered, InUser, Sub;
    SavedAt(c, handler, sig);
    if USERLO + 8 <= c.esp <= USERHI { SavedWords(c, handler, sig); }
  }

  /**
   * What the handler finds: at an aligned ESP its return address, which is the trampoline's, above it
   * the signal number, and the trampoline intact.
   */
  lemma HandlerSees(c: Ctx, handler: nat, sig: nat)
    requires c.Fits() && handler < U32 && sig < U32 && USERLO + 28 <= c.esp <= USERHI
    ensures var r := Delivered(c, handler, sig);
            && r.eip == handler && r.esp % 4 == 0 && USERLO <= r.esp <= c.esp - 28
            && Get(r.mem, r.esp, 4) == WordBytes(TrampolineAt(c.esp)) && Get(r.mem, r.esp + 4, 4) == WordBytes(sig)
            && Get(r.mem, TrampolineAt(c.esp), 12) == Trampoline()
  {
    hide Get, Out, WordBytes, Trampoline, Delivered, TrampolineAt, SignumAt, Sub;
    FrameIs(c, handler, sig);
    var (e, a3, a4) := (c.esp, TrampolineAt(c.esp), SignumAt(c.esp));
    var m2 := Out(Out(c.mem, e - 4, WordBytes(c.eip)), e - 8, WordBytes(e));
    AlignedAbove(a4);
    LastThree(m2, a3, Trampoline(), a4, WordBytes(sig), WordBytes(a3));
  }

  lemma AlignedAbove(a: nat)
    requires a % 4 == 0 && USERLO < a
    ensures USERLO + 4 <= a && (a - 4) % 4 == 0
  {
  }

  /** Three copies one below the other are all there afterwards. */
  lemma LastThree(m: Memory, a: nat, x: seq<byte>, b: nat, y: seq<byte>, z: seq<byte>)
    requires |y| == 4 && |z| == 4 && USERLO + 4 <= b && b + 4 <= a && a + |x| <= USERHI
    ensures var r := Out(Out(Out(m, a, x), b, y), b - 4, z);
            Get(r, b - 4, 4) == z && Get(r, b, 4) == y && Get(r, a, |x|) == x
  {
    hide Get, Out;
    var m1 := Out(m, a, x);
    var m2 := Out(m1, b, y);
    OutGet(m, a, x);
    OutGet(m1, b, y);
    OutGet(m2, b - 4, z);
    OutKeeps(m1, b, y, a, |x|);
    OutKeeps(m2, b - 4, z, a, |x|);
    OutKeeps(m2, b - 4, z, b, 4);
  }

  /** Nothing outside the frame changes. */
  lemma FrameOnly(c: Ctx, handler: nat, sig: nat, a: nat, n: nat)
    requires c.Fits() && handler < U32 && sig < U32 && USERLO + 28 <= c.esp <= USERHI
    requires a + n <= Delivered(c, handler, sig).esp || c.esp <= a <= a + n <= U32
    ensures Get(Delivered(c, handler, sig).mem, a, n) == Get(c.mem, a, n)
  {
    hide Get, Out, WordBytes, Trampoline, Delivered, TrampolineAt, SignumAt, Sub;
    FrameIs(c, handler, sig);
    var (e, a3, a4) := (c.esp, TrampolineAt(c.esp), SignumAt(c.esp));
    var m1 := Out(c.mem, e - 4, WordBytes(c.eip));
    var m2 := Out(m1, e - 8, WordBytes(e));
    var m3 := Out(m2, a3, Trampoline());
    var m4 := Out(m3, a4, WordBytes(sig));
    OutKeeps(c.mem, e - 4, WordBytes(c.eip), a, n);
    OutKeeps(m1, e - 8, WordBytes(e), a, n);
    OutKeeps(m2, a3, Trampoline(), a, n);
    OutKeeps(m3, a4, WordBytes(sig), a, n);
    OutKeeps(m4, a4 - 4, WordBytes(a3), a, n);
  }

  // ---- the way back ---------------------------------------------------------------------------

  const SYS_SIGRETURN: nat := 28
  const T_SYSCALL: nat := 0x30

  /** The registers a trampoline uses, and what one instruction does. */
  datatype Cpu = Cpu(eax: nat, eip: nat)

  datatype Effect = Continue(cpu: Cpu) | Trap(number: nat, cpu: Cpu) | Other

  /** mov eax, imm32; int imm8; jmp rel8; nop. */
  function Execute(m: Memory, c: Cpu): Effect
    requires c.eip < U32
  {
    var (op: int, imm: int) := (m[c.eip], m[(c.eip + 1) % U32]);
    if op == 0xB8 then Continue(Cpu(LoadU32(Get(m, c.eip + 1, 4), 0), (c.eip + 5) % U32))
    else if op == 0xCD then Trap(imm, c.(eip := (c.eip + 2) % U32))
    else if op == 0xEB then Continue(c.(eip := (c.eip + 2 + if imm < 128 then imm else imm - 256) % U32))
    else if op == 0x90 then Continue(c.(eip := (c.eip + 1) % U32))
    else Other
  }

  /** Control that reaches the trampoline makes the sigreturn system call, and spins there should it ever come back. */
  lemma TrampolineReturns(m: Memory, a: nat, eax: nat)
    requires a + 12 <= U32 && Get(m, a, 12) == Trampoline()
    ensures Execute(m, Cpu(eax, a)) == Continue(Cpu(SYS_SIGRETURN, a + 5))
    ensures Execute(m, Cpu(SYS_SIGRETURN, a + 5)) == Trap(T_SYSCALL, Cpu(SYS_SIGRETURN, a + 7))
    ensures Execute(m, Cpu(eax, a + 7)) == Continue(Cpu(eax, a + 7))
  {
    hide Get;
    InTrampoline(m, a, 0);
    InTrampoline(m, a, 5);
    InTrampoline(m, a, 6);
    InTrampoline(m, a, 7);
    InTrampoline(m, a, 8);
    var imm := Get(m, a + 1, 4);
    forall i: nat | i < 4 ensures imm[i] == [28, 0, 0, 0][i] {
      GetAt(m, a + 1, 4, i);
      InTrampoline(m, a, i + 1);
    }
    assert imm == [28, 0, 0, 0];
  }

  lemma InTrampoline(m: Memory, a: nat, i: nat)
    requires a + 12 <= U32 && Get(m, a, 12) == Trampoline() && i < 12
    ensures m[a + i] == Trampoline()[i]
  {
    hide Get;
    GetAt(m, a, 12, i);
  }

  /** A handler that returns to the word on top of its stack gets to the trampoline, and so to sys_sigreturn. */
  lemma HandlerReturns(c: Ctx, handler: nat, sig: nat, eax: nat)
    requires c.Fits() && handler < U32 && sig < U32 && USERLO + 28 <= c.esp <= USERHI
    ensures var r := Delivered(c, handler, sig); var back := LoadU32(Get(r.mem, r.esp, 4), 0);
            && back + 12 <= U32 && Execute(r.mem, Cpu(eax, back)) == Continue(Cpu(SYS_SIGRETURN, back + 5))
            && Execute(r.mem, Cpu(SYS_SIGRETURN, back + 5)) == Trap(T_SYSCALL, Cpu(SYS_SIGRETURN, back + 7))
  {
    hide Get, Delivered, Execute, WordBytes, Trampoline;
    HandlerSees(c, handler, sig);
    TrampolineReturns(Delivered(c, handler, sig).mem, TrampolineAt(c.esp), eax);
  }

  class Process {
    var esp: nat
    var eip: nat
    var savedEsp: nat
    var savedEip: nat
    var mem: Memory

    constructor (c: Ctx)
      ensures Value() == c
    {
      esp, eip, savedEsp, savedEip, mem := c.esp, c.eip, c.savedEsp, c.savedEip, c.mem;
    }

    ghost function Value(): Ctx
      reads this
    {
      Ctx(esp, eip, savedEsp, savedEip, mem)
    }

    /** deliver_signal; handler 0 is none. */
    method Deliver(handler: nat, sig: nat)
      requires Value().Fits() && handler < U32 && sig < U32
      modifies this
      ensures Value() == if handler == 0 then old(Value()) else Delivered(old(Value()), handler, sig)
    {
      hide Get, Out, WordBytes, Trampoline;
      if handler != 0 {
        var sp := Sub(esp, 4);
        mem := Out(mem, sp, WordBytes(eip));
        var eipAt := sp;
        sp := Sub(sp, 4);
        mem := Out(mem, sp, WordBytes(esp));
        var espAt := sp;
        sp := Sub(sp, 12);
        mem := Out(mem, sp, Trampoline());
        var back := sp;
        sp := sp - sp % 4;
        sp := Sub(sp, 4);
        mem := Out(mem, sp, WordBytes(sig));
        sp := Sub(sp, 4);
        mem := Out(mem, sp, WordBytes(back));
        esp, eip := sp, handler;
        savedEsp, savedEip := espAt, eipAt;
      }
    }

    method SigReturn() returns (r: Result)
      requires Value().Fits()
      modifies this
      ensures (r, Value()) == Returned(old(Value()))
    {
      if savedEsp == 0 || savedEip == 0 {
        return NoContext;
      }
      if !InUser(savedEsp, 4) || !InUser(savedEip, 4) {
        return BadAddress;
      }
      var (sp, pc) := (LoadU32(Get(mem, savedEsp, 4), 0), LoadU32(Get(mem, savedEip, 4), 0));
      savedEsp, savedEip := 0, 0;
      esp, eip := sp, pc;
      r := Done;
    }
  }
}
