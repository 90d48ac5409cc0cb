/** The page-table code: allocation of page tables and pages, mapping and unmapping. */
module Paging {
  import opened Common
  import opened Words
  import opened PageAlloc
  import opened Container
  import opened PageTables

  const MAGIC: nat := 1048577

  function PdIndex(va: nat): nat { va / (4096 * 1024) }

  function PtIndex(va: nat): nat { va / 4096 % 1024 }

  function Pid(r: Role): nat { r.p }

  /** The identity map's page table entry. */
  function Identity(d: nat, j: nat): nat { (d * ENTRIES + j) * PAGESIZE + if d < 256 || d >= 960 then 0x103 else 3 }

  /** It maps an address to itself, present and writable but not for users, and globally outside user space. */
  lemma IdentityIs(va: nat)
    requires va < U32
    ensures var x := Identity(PdIndex(va), PtIndex(va));
            && x < U32 && x / PAGESIZE * PAGESIZE + va % PAGESIZE == va
            && x % 2 == 1 && x / 2 % 2 == 1 && x / 4 % 2 == 0
            && (x / 256 % 2 == 1 <==> va < USERLO || USERHI <= va)
  {
    var (d, j) := (PdIndex(va), PtIndex(va));
    assert va / 4096 / 1024 == va / (4096 * 1024);
    assert d * 1024 + j == va / 4096;
    var c := if d < 256 || d >= 960 then 0x103 else 3;
    LowBits(va / 4096, c);
  }

  lemma LowBits(m: nat, c: nat)
    requires c == 0x103 || c == 3
    ensures var x := m * 4096 + c;
            && x / 4096 == m && x % 2 == 1 && x / 2 % 2 == 1 && x / 4 % 2 == 0 && (x / 256 % 2 == 1 <==> c == 0x103)
  {
    var (h, k) := (c / 2, c / 256);
    Halves(m * 4096 + c, m * 2048 + h);
    Halves(m * 2048 + h, m * 1024 + h / 2);
    Halves(m * 1024 + h / 2, m * 512 + h / 4);
    Halves(m * 16 + k, m * 8);
    assert (m * 4096 + c) / 256 == m * 16 + k;
    assert (m * 4096 + c) / 4 == (m * 4096 + c) / 2 / 2;
  }

  lemma Halves(x: nat, q: nat)
    requires 2 * q <= x < 2 * q + 2
    ensures x / 2 == q && x % 2 == x - 2 * q
  {
  }

  lemma InDirectory(va: nat)
    requires va < U32
    ensures PdIndex(va) < ENTRIES && PtIndex(va) < ENTRIES
  {
  }

  /** Exactly the allocated frames have roles, and their process pays for them. */
  ghost predicate Paid(role: Roles, own: Owners) {
    role.Keys == own.Keys && forall f :: f in role ==> Pid(role[f]) == own[f]
  }

  /** Directory entries of kernel addresses, and all of process 0's, point into the identity tables. */
  ghost predicate IdentityPdes(pdir: seq<seq<nat>>, idtbl: nat) {
    && |pdir| == NUM_IDS && (forall p :: 0 <= p < NUM_IDS ==> |pdir[p]| == ENTRIES)
    && forall p, d :: 0 <= p < NUM_IDS && 0 <= d < ENTRIES && !User(p, d) ==>
         pdir[p][d] == (idtbl + d) * PAGESIZE + PERM
  }

  ghost predicate IdentityTables(mem: seq<Frame>, idtbl: nat) {
    && idtbl + ENTRIES <= |mem|
    && forall d, j :: 0 <= d < ENTRIES && 0 <= j < ENTRIES ==> LoadU32(mem[idtbl + d], 4 * j) == Identity(d, j)
  }

  /** Entry k of slot e of process q is as it was, and so is the page behind it. */
  predicate SamePage(v: Vm, v': Vm, q: nat, e: nat, k: nat)
    requires Shape(v) && Shape(v') && User(q, e) && k < ENTRIES
  {
    var g := Pte(v, q, e, k) / PAGESIZE;
    && Pte(v', q, e, k) == Pte(v, q, e, k)
    && (Pte(v, q, e, k) != 0 && g < |v.mem| ==> g < |v'.mem| && v'.mem[g] == v.mem[g])
  }

  /** So is every entry but, perhaps, entry j of slot d of process p. */
  ghost predicate KeptBut(v: Vm, v': Vm, p: nat, d: nat, j: nat) {
    && Shape(v) && Shape(v') && |v'.mem| == |v.mem|
    && forall q, e, k :: User(q, e) && 0 <= k < ENTRIES && !(q == p && e == d && k == j) ==> SamePage(v, v', q, e, k)
  }

  ghost predicate Kept(v: Vm, v': Vm) {
    && Shape(v) && Shape(v') && |v'.mem| == |v.mem|
    && forall q, e, k :: User(q, e) && 0 <= k < ENTRIES ==> SamePage(v, v', q, e, k)
  }

  /** So is every directory slot but, perhaps, slot d of process p. */
  ghost predicate SlotsBut(v: Vm, v': Vm, p: nat, d: nat) {
    && Shape(v) && Shape(v')
    && forall q: nat, e: nat :: User(q, e) && !(q == p && e == d) ==> Pde(v', q, e) == Pde(v, q, e)
  }

  /** Frames that a new page behind slot d of process p takes: the page, and a table if there is none. */
  function PageNeed(v: Vm, p: nat, d: nat): nat
    requires Shape(v) && User(p, d)
  {
    if Pde(v, p, d) == 0 then 2 else 1
  }

  class Paging {
    var pdir: seq<seq<nat>>
    var mem: seq<Frame>
    const idtbl: nat
    const cont: Containers
    ghost var role: Roles

    ghost function Value(): Vm
      reads this
    {
      Vm(pdir, mem)
    }

    ghost predicate Valid()
      reads this, cont, cont.c, cont.pages, cont.pages.at
    {
      && cont.Valid() && Owned(Value(), role) && Paid(role, cont.own)
      && IdentityPdes(pdir, idtbl) && IdentityTables(mem, idtbl)
      && |mem| == cont.pages.at.Length <= 0x10_0000 && idtbl >= 1
      && (forall f :: f in cont.base ==> !(idtbl <= f < idtbl + ENTRIES) && 1 <= f < |mem|)
    }

    lemma Facts()
      requires Valid()
      ensures |mem| > 0 && Shape(Value())
      ensures forall f :: f in role ==> f in cont.base && 1 <= f < |mem| && !(idtbl <= f < idtbl + ENTRIES)
    {
    }

    /** The hardware's walk of a kernel address, in any process, and of any address in process 0, leads to itself. */
    lemma KernelIsIdentity(p: nat, va: nat)
      requires Valid() && p < NUM_IDS && va < U32 && !User(p, PdIndex(va))
      ensures PdIndex(va) < |pdir[p]| && pdir[p][PdIndex(va)] % 2 == 1 && pdir[p][PdIndex(va)] / PAGESIZE < |mem|
      ensures var x := LoadU32(mem[pdir[p][PdIndex(va)] / PAGESIZE], 4 * PtIndex(va));
              x % 2 == 1 && x / PAGESIZE * PAGESIZE + va % PAGESIZE == va
    {
      hide Containers.Valid, Owned, LoadU32, Identity, PdIndex, PtIndex;
      IdentityIs(va);
      InDirectory(va);
      EntryParts(idtbl + PdIndex(va), PERM);
    }

    /** pdir_init and pdir_init_kern, after container_init. */
    constructor (cont: Containers, mem: seq<Frame>, idtbl: nat)
      requires cont.Valid() && cont.own == map[] && |mem| == cont.pages.at.Length <= 0x10_0000
      requires 1 <= idtbl < idtbl + ENTRIES <= |mem|
      requires forall f :: f in cont.base ==> !(idtbl <= f < idtbl + ENTRIES)
      ensures Valid() && this.cont == cont && this.idtbl == idtbl && role == map[]
      ensures forall p, d :: User(p, d) ==> Pde(Value(), p, d) == 0
    {
      this.cont, this.mem, this.idtbl, role := cont, mem, idtbl, map[];
      pdir := seq(NUM_IDS, _ => seq(ENTRIES, _ => 0));
      new;
      IdptblInit();
      PdirInit();
      NothingMapped(Value());
      BaseInTable(cont);
    }

    /** The inner loop of idptbl_init. */
    method IdentityRow(d: nat)
      requires d < ENTRIES && idtbl + d < |mem|
      modifies this`mem
      ensures |mem| == |old(mem)| && mem == old(mem)[idtbl + d := mem[idtbl + d]]
      ensures forall j :: 0 <= j < ENTRIES ==> LoadU32(mem[idtbl + d], 4 * j) == Identity(d, j)
    {
      var f := idtbl + d;
      var j := 0;
      while j < ENTRIES
        invariant j <= ENTRIES && |mem| == |old(mem)| && mem == old(mem)[f := mem[f]]
        invariant forall k :: 0 <= k < j ==> LoadU32(mem[f], 4 * k) == Identity(d, k)
      {
        ghost var x := mem[f];
        mem := mem[f := StoreU32(mem[f], 4 * j, Identity(d, j))];
        forall k | 0 <= k < j
          ensures LoadU32(mem[f], 4 * k) == Identity(d, k)
        {
          LoadOther(x, 4 * j, Identity(d, j), 4 * k);
        }
        j := j + 1;
      }
    }

    method IdptblInit()
      requires idtbl + ENTRIES <= |mem|
      modifies this`mem
      ensures |mem| == |old(mem)| && IdentityTables(mem, idtbl)
    {
      hide LoadU32, Identity;
      var d := 0;
      while d < ENTRIES
        invariant d <= ENTRIES && |mem| == |old(mem)|
        invariant forall e, j :: 0 <= e < d && 0 <= j < ENTRIES ==> LoadU32(mem[idtbl + e], 4 * j) == Identity(e, j)
      {
        IdentityRow(d);
        d := d + 1;
      }
    }

    /** The inner loop of pdir_init, with pdir_init_kern's entries for process 0. */
    method PdirRow(p: nat)
      requires p < NUM_IDS == |pdir| && |pdir[p]| == ENTRIES
      modifies this`pdir
      ensures |pdir| == NUM_IDS && |pdir[p]| == ENTRIES
      ensures forall q: nat :: q < NUM_IDS && q != p ==> pdir[q] == old(pdir)[q]
      ensures forall d: nat :: d < ENTRIES ==> pdir[p][d] == if User(p, d) then 0 else (idtbl + d) * PAGESIZE + PERM
    {
      var d := 0;
      while d < ENTRIES
        invariant d <= ENTRIES && |pdir| == NUM_IDS && |pdir[p]| == ENTRIES
        invariant forall q: nat :: q < NUM_IDS && q != p ==> pdir[q] == old(pdir)[q]
        invariant forall e: nat :: e < d ==> pdir[p][e] == if User(p, e) then 0 else (idtbl + e) * PAGESIZE + PERM
      {
        var row: seq<nat> := pdir[p][d := if p > 0 && 256 <= d < 960 then 0 else (idtbl + d) * PAGESIZE + PERM];
        pdir := pdir[p := row];
        d := d + 1;
      }
    }

    method PdirInit()
      requires |pdir| == NUM_IDS && forall p :: 0 <= p < NUM_IDS ==> |pdir[p]| == ENTRIES
      modifies this`pdir
      ensures IdentityPdes(pdir, idtbl) && forall p: nat, d: nat :: User(p, d) ==> pdir[p][d] == 0
    {
      var p := 0;
      while p < NUM_IDS
        invariant p <= NUM_IDS && |pdir| == NUM_IDS && forall q: nat :: q < NUM_IDS ==> |pdir[q]| == ENTRIES
        invariant forall q: nat, d: nat :: q < p && d < ENTRIES ==>
                    pdir[q][d] == if User(q, d) then 0 else (idtbl + d) * PAGESIZE + PERM
      {
        PdirRow(p);
        p := p + 1;
      }
    }

    /** The loop of alloc_ptbl that clears the new table. */
    method ClearTable(f: nat)
      requires f < |mem|
      modifies this`mem
      ensures mem == old(mem)[f := ZeroFrame()]
    {
      var i := 0;
      while i < ENTRIES
        invariant i <= ENTRIES && |mem| == |old(mem)| && mem == old(mem)[f := mem[f]]
        invariant forall k :: 0 <= k < 4 * i ==> mem[f][k] == 0
      {
        ghost var x := mem[f];
        mem := mem[f := StoreU32(mem[f], 4 * i, 0)];
        ZeroWord(mem[f], 4 * i);
        i := i + 1;
      }
      assert mem[f] == ZeroFrame();
    }

    /** alloc_ptbl for an empty directory slot: the new table's frame, or 0. */
    method AllocPtbl(p: nat, va: nat) returns (pi: nat)
      requires Valid() && User(p, PdIndex(va)) && Live(cont.c[..], p) && Pde(Value(), p, PdIndex(va)) == 0
      modifies this`pdir, this`mem, this`role, cont`own, cont`lost, cont.c, cont.pages`hint, cont.pages.at
      ensures Valid() && Live(cont.c[..], p) && Kept(old(Value()), Value())
      ensures pi == 0 ==> pdir == old(pdir) && mem == old(mem) && role == old(role)
      ensures pi != 0 ==>
                pi !in old(role) && role == old(role)[pi := Table(p, PdIndex(va))] && Pde(Value(), p, PdIndex(va)) != 0
      ensures pi != 0 ==> forall j :: 0 <= j < ENTRIES ==> Pte(Value(), p, PdIndex(va), j) == 0
      ensures pi == Next(old(cont.c[..]), old(cont.pages.at[..]), old(cont.pages.hint), p)
      ensures (pi != 0 <==> old(cont.Spare(p)) > 0) && (pi != 0 ==> cont.Spare(p) == old(cont.Spare(p)) - 1)
      ensures SlotsBut(old(Value()), Value(), p, PdIndex(va))
    {
      hide Containers.Valid, Owned, Kept, IdentityPdes, IdentityTables, Pte, Used, Room, Next;
      ghost var (v, r) := (Value(), role);
      BaseInTable(cont);
      OwnedFacts(v, r);
      pi := cont.Alloc(p);
      if pi != 0 {
        var d := PdIndex(va);
        TableAdded(v, r, p, d, pi, idtbl);
        pdir := SetPde(Vm(pdir, mem), p, d, pi * PAGESIZE + PERM).pdir;
        ClearTable(pi);
        role := role[pi := Table(p, d)];
      }
    }

    /** map_page of a frame that is allocated and not mapped: the new table's frame, 0, or MAGIC. */
    method MapPage(p: nat, va: nat, g: nat, perm: nat) returns (r: nat)
      requires Valid() && User(p, PdIndex(va)) && Live(cont.c[..], p) && g in role && role[g] == Loose(p)
      requires perm < PAGESIZE && perm % 2 == 1
      modifies this`pdir, this`mem, this`role, cont`own, cont`lost, cont.c, cont.pages`hint, cont.pages.at
      ensures Valid() && Live(cont.c[..], p)
      ensures r == MAGIC ==> pdir == old(pdir) && mem == old(mem) && role == old(role)
      ensures r != MAGIC ==> Pte(Value(), p, PdIndex(va), PtIndex(va)) == g * PAGESIZE + perm
      ensures r != MAGIC ==> KeptBut(old(Value()), Value(), p, PdIndex(va), PtIndex(va))
      ensures r != MAGIC ==> g in role && role[g] == Data(p, PdIndex(va), PtIndex(va)) && old(role).Keys <= role.Keys
      ensures r == MAGIC <==> old(Pde(Value(), p, PdIndex(va)) == 0 && cont.Spare(p) == 0)
      ensures r != MAGIC ==> cont.Spare(p) == old(cont.Spare(p) + 1 - PageNeed(Value(), p, PdIndex(va)))
      ensures SlotsBut(old(Value()), Value(), p, PdIndex(va))
    {
      hide Containers.Valid, Owned, Kept, KeptBut, IdentityPdes, IdentityTables, Pte, SetPte, Live, Room, Next;
      ghost var v := Value();
      var (d, j) := (PdIndex(va), PtIndex(va));
      OwnedFacts(v, role);
      KeptIsKeptBut(v, v, p, d, j);
      var pde := pdir[p][d];
      if pde != 0 {
        r := 0;
      } else {
        r := AllocPtbl(p, va);
        if r == 0 {
          return MAGIC;
        }
        KeptIsKeptBut(v, Value(), p, d, j);
        FrameBelow(Value(), role, r);
      }
      ghost var (v1, role1) := (Value(), role);
      Facts();
      EntrySet(v1, role1, p, d, j, g, perm, idtbl);
      var f := pdir[p][d] / PAGESIZE;
      mem := mem[f := StoreU32(mem[f], 4 * j, g * PAGESIZE + perm)];
      role := Unmapped(v1, role1, p, d, j)[g := Data(p, d, j)];
      SetPteValue(v1, p, d, j, g * PAGESIZE + perm);
      KeptTwice(v, v1, Value(), p, d, j);
      UnmappedPaid(v1, role1, p, d, j, g, cont.own);
    }

    /** get_ptbl_entry_by_va for a user address; 0 if there is no mapping. */
    method GetEntry(p: nat, va: nat) returns (x: nat)
      requires Valid() && User(p, PdIndex(va))
      ensures x == Pte(Value(), p, PdIndex(va), PtIndex(va))
    {
      hide Containers.Valid, IdentityPdes, IdentityTables, LoadU32;
      var d := PdIndex(va);
      var pde := pdir[p][d];
      assert TableOk(Value(), role, p, d);
      if pde == 0 {
        return 0;
      }
      assert RoleOk(Value(), role, pde / PAGESIZE);
      x := LoadU32(mem[pde / PAGESIZE], 4 * PtIndex(va));
    }

    /** alloc_page: a frame new to everybody behind the address, or MAGIC. */
    method AllocPage(p: nat, va: nat, perm: nat) returns (r: nat)
      requires Valid() && User(p, PdIndex(va)) && Live(cont.c[..], p) && perm < PAGESIZE && perm % 2 == 1
      modifies this`pdir, this`mem, this`role, cont`own, cont`lost, cont.c, cont.pages`hint, cont.pages.at
      ensures Valid() && Live(cont.c[..], p) && old(role).Keys <= role.Keys
      ensures r == MAGIC ==> pdir == old(pdir) && mem == old(mem)
      ensures r != MAGIC ==> KeptBut(old(Value()), Value(), p, PdIndex(va), PtIndex(va))
      ensures r != MAGIC ==>
                exists g :: g !in old(role) && Pte(Value(), p, PdIndex(va), PtIndex(va)) == g * PAGESIZE + perm
      ensures r == MAGIC <==> old(cont.Spare(p) < PageNeed(Value(), p, PdIndex(va)))
      ensures r != MAGIC ==> cont.Spare(p) == old(cont.Spare(p) - PageNeed(Value(), p, PdIndex(va)))
      ensures SlotsBut(old(Value()), Value(), p, PdIndex(va))
    {
      hide Containers.Valid, Owned, Kept, KeptBut, IdentityPdes, IdentityTables, Pte, Live, Used, Room, Next;
      ghost var (v, r0) := (Value(), role);
      OwnedFacts(v, r0);
      BaseInTable(cont);
      var pi := cont.Alloc(p);
      if pi == 0 {
        return MAGIC;
      }
      LooseKeeps(v, r0, pi, p);
      role := role[pi := Loose(p)];
      assert role.Keys == r0.Keys + {pi};
      r := MapPage(p, va, pi, perm);
    }

    /** unmap_page: the entry as it was; the page stays allocated. */
    method UnmapPage(p: nat, va: nat) returns (x: nat)
      requires Valid() && User(p, PdIndex(va))
      modifies this`mem, this`role
      ensures Valid() && x == old(Pte(Value(), p, PdIndex(va), PtIndex(va)))
      ensures Pte(Value(), p, PdIndex(va), PtIndex(va)) == 0
      ensures KeptBut(old(Value()), Value(), p, PdIndex(va), PtIndex(va))
    {
      hide Containers.Valid, Owned, Kept, KeptBut, IdentityPdes, IdentityTables, Pte, SetPte;
      ghost var (v, role0) := (Value(), role);
      var (d, j) := (PdIndex(va), PtIndex(va));
      Facts();
      OwnedFacts(v, role);
      KeptIsKeptBut(v, v, p, d, j);
      x := GetEntry(p, va);
      if x != 0 {
        EntryCleared(v, role0, p, d, j, idtbl);
        var f := pdir[p][d] / PAGESIZE;
        mem := mem[f := StoreU32(mem[f], 4 * j, 0)];
        role := Unmapped(v, role0, p, d, j);
        SetPteValue(v, p, d, j, 0);
        ClearedPaid(v, role0, p, d, j, cont.own);
      }
    }

    /** free_ptbl: the slot is empty, its pages are no longer mapped, and its table's frame is free again. */
    method FreePtbl(p: nat, va: nat)
      requires Valid() && User(p, PdIndex(va)) && Live(cont.c[..], p)
      modifies this`pdir, this`role, cont`own, cont.c, cont.pages.at
      ensures Valid() && Live(cont.c[..], p) && Pde(Value(), p, PdIndex(va)) == 0
      ensures forall q, e :: User(q, e) && !(q == p && e == PdIndex(va)) ==>
                Pde(Value(), q, e) == old(Pde(Value(), q, e))
      ensures cont.own == old(cont.own) - {old(Pde(Value(), p, PdIndex(va))) / PAGESIZE}
    {
      hide Owned, IdentityTables, IdentityPdes, Pte, Live, Containers.Valid;
      ghost var (v, role0) := (Value(), role);
      var d := PdIndex(va);
      Facts();
      BaseInTable(cont);
      ClearPde(v, p, d, idtbl);
      var pde := pdir[p][d];
      if pde != 0 {
        DetachKeeps(v, role0, p, d);
        TableIs(v, role0, p, d);
        role := Detached(role0, p, d, pde / PAGESIZE);
      }
      pdir := SetPde(Vm(pdir, mem), p, d, 0).pdir;
      cont.Free(p, pde / PAGESIZE);
    }
  }

  lemma OwnedFacts(v: Vm, role: Roles)
    requires Owned(v, role)
    ensures Shape(v) && Kept(v, v)
  {
  }

  /** A new frame as page table: nothing mapped changes, and the identity map stays. */
  lemma TableAdded(v: Vm, role: Roles, p: nat, d: nat, f: nat, idtbl: nat)
    requires Owned(v, role) && IdentityPdes(v.pdir, idtbl) && IdentityTables(v.mem, idtbl) && |v.mem| <= 0x10_0000
    requires User(p, d) && Pde(v, p, d) == 0 && f !in role && 1 <= f < |v.mem| && !(idtbl <= f < idtbl + ENTRIES)
    ensures var v' := SetFrame(SetPde(v, p, d, f * PAGESIZE + PERM), f, ZeroFrame());
            && Owned(v', role[f := Table(p, d)]) && Kept(v, v') && IdentityPdes(v'.pdir, idtbl)
            && IdentityTables(v'.mem, idtbl)
            && Pde(v', p, d) != 0 && forall j :: 0 <= j < ENTRIES ==> Pte(v', p, d, j) == 0
  {
    hide LoadU32;
    LooseKeeps(v, role, f, p);
    TableKeeps(v, role[f := Loose(p)], p, d, f);
    assert role[f := Loose(p)][f := Table(p, d)] == role[f := Table(p, d)];
    var v' := SetFrame(SetPde(v, p, d, f * PAGESIZE + PERM), f, ZeroFrame());
    assert (f * PAGESIZE + PERM) / PAGESIZE == f;
    forall q, e, k | User(q, e) && 0 <= k < ENTRIES
      ensures Pte(v', q, e, k) == Pte(v, q, e, k) && Pte(v, q, e, k) / PAGESIZE != f
    {
      assert TableOk(v, role, q, e) && DataOk(v, role, q, e, k);
      ZeroLoads(k);
    }
  }

  lemma KeptIsKeptBut(v: Vm, v': Vm, p: nat, d: nat, j: nat)
    requires Kept(v, v')
    ensures KeptBut(v, v', p, d, j)
  {
  }

  lemma FrameBelow(v: Vm, role: Roles, f: nat)
    requires Owned(v, role) && f in role
    ensures f < |v.mem|
  {
    assert RoleOk(v, role, f);
  }

  lemma KeptTwice(v: Vm, v1: Vm, v2: Vm, p: nat, d: nat, j: nat)
    requires KeptBut(v, v1, p, d, j) && KeptBut(v1, v2, p, d, j)
    ensures KeptBut(v, v2, p, d, j)
  {
    forall q, e, k | User(q, e) && 0 <= k < ENTRIES && !(q == p && e == d && k == j)
      ensures SamePage(v, v2, q, e, k)
    {
      assert SamePage(v, v1, q, e, k);
      assert SamePage(v1, v2, q, e, k);
      hide Pte;
    }
  }

  lemma SetPteValue(v: Vm, p: nat, d: nat, j: nat, x: nat)
    requires Shape(v) && p < NUM_IDS && d < ENTRIES && j < ENTRIES && x < U32 && v.pdir[p][d] / PAGESIZE < |v.mem|
    ensures SetPte(v, p, d, j, x) ==
              Vm(v.pdir, v.mem[v.pdir[p][d] / PAGESIZE := StoreU32(v.mem[v.pdir[p][d] / PAGESIZE], 4 * j, x)])
  {
  }

  /** Putting a loose frame behind an entry: other mapped pages and the identity map stay. */
  lemma EntrySet(v: Vm, role: Roles, p: nat, d: nat, j: nat, g: nat, perm: nat, idtbl: nat)
    requires Owned(v, role) && IdentityPdes(v.pdir, idtbl) && IdentityTables(v.mem, idtbl)
    requires User(p, d) && j < ENTRIES && Pde(v, p, d) != 0 && g in role && role[g].Loose? && perm < PAGESIZE
    requires perm % 2 == 1
    requires forall f :: f in role ==> !(idtbl <= f < idtbl + ENTRIES)
    ensures v.pdir[p][d] / PAGESIZE < |v.mem| && g * PAGESIZE + perm < U32
    ensures var v' := SetPte(v, p, d, j, g * PAGESIZE + perm);
            && Owned(v', Unmapped(v, role, p, d, j)[g := Data(p, d, j)]) && Pte(v', p, d, j) == g * PAGESIZE + perm
            && KeptBut(v, v', p, d, j) && IdentityPdes(v'.pdir, idtbl) && IdentityTables(v'.mem, idtbl)
  {
    hide LoadU32, StoreU32, Pte, KeptBut, IdentityPdes, IdentityTables;
    assert TableOk(v, role, p, d) && RoleOk(v, role, g) && RoleOk(v, role, Pde(v, p, d) / PAGESIZE);
    var (f, x) := (Pde(v, p, d) / PAGESIZE, g * PAGESIZE + perm);
    UnmapKeeps(v, role, p, d, j);
    var (v1, role1) := (SetPte(v, p, d, j, 0), Unmapped(v, role, p, d, j));
    SetPteIs(v, role, p, d, j, 0, p, d, j);
    assert g in role1 && role1[g].Loose? by { assert DataOk(v, role, p, d, j); }
    MapKeeps(v1, role1, p, d, j, g, perm);
    StoreTwice(v.mem[f], 4 * j, 0, x);
    assert SetPte(v1, p, d, j, x) == SetPte(v, p, d, j, x);
    EntryKept(v, role, p, d, j, x, idtbl);
  }

  /** Storing an entry leaves the other entries, the pages and the identity map alone. */
  lemma EntryKept(v: Vm, role: Roles, p: nat, d: nat, j: nat, x: nat, idtbl: nat)
    requires Owned(v, role) && IdentityPdes(v.pdir, idtbl) && IdentityTables(v.mem, idtbl)
    requires User(p, d) && j < ENTRIES && Pde(v, p, d) != 0 && x < U32
    requires forall f :: f in role ==> !(idtbl <= f < idtbl + ENTRIES)
    ensures v.pdir[p][d] / PAGESIZE < |v.mem|
    ensures var v' := SetPte(v, p, d, j, x);
            && Pte(v', p, d, j) == x && KeptBut(v, v', p, d, j)
            && IdentityPdes(v'.pdir, idtbl) && IdentityTables(v'.mem, idtbl)
  {
    hide LoadU32, StoreU32, Pte;
    assert TableOk(v, role, p, d) && RoleOk(v, role, Pde(v, p, d) / PAGESIZE);
    SetPteIs(v, role, p, d, j, x, p, d, j);
    forall q, e, k | User(q, e) && 0 <= k < ENTRIES && !(q == p && e == d && k == j)
      ensures SamePage(v, SetPte(v, p, d, j, x), q, e, k)
    {
      SetPteIs(v, role, p, d, j, x, q, e, k);
      assert DataOk(v, role, q, e, k);
    }
  }

  lemma StoreTwice(s: seq<byte>, o: nat, x: nat, y: nat)
    requires o + 4 <= |s| && x < U32 && y < U32
    ensures StoreU32(StoreU32(s, o, x), o, y) == StoreU32(s, o, y)
  {
  }

  lemma UnmappedPaid(v: Vm, role: Roles, p: nat, d: nat, j: nat, g: nat, own: Owners)
    requires Owned(v, role) && User(p, d) && j < ENTRIES && Paid(role, own) && g in role && role[g] == Loose(p)
    ensures var r := Unmapped(v, role, p, d, j)[g := Data(p, d, j)]; Paid(r, own) && role.Keys <= r.Keys
  {
    hide Pte;
    assert DataOk(v, role, p, d, j);
  }

  lemma TableIs(v: Vm, role: Roles, p: nat, d: nat)
    requires Owned(v, role) && User(p, d) && Pde(v, p, d) != 0
    ensures var f := Pde(v, p, d) / PAGESIZE; f in role && role[f] == Table(p, d)
  {
    assert TableOk(v, role, p, d);
  }

  lemma EntryCleared(v: Vm, role: Roles, p: nat, d: nat, j: nat, idtbl: nat)
    requires Owned(v, role) && IdentityPdes(v.pdir, idtbl) && IdentityTables(v.mem, idtbl)
    requires User(p, d) && j < ENTRIES && Pte(v, p, d, j) != 0
    requires forall f :: f in role ==> !(idtbl <= f < idtbl + ENTRIES)
    ensures v.pdir[p][d] / PAGESIZE < |v.mem|
    ensures var v' := SetPte(v, p, d, j, 0);
            && Owned(v', Unmapped(v, role, p, d, j)) && Pte(v', p, d, j) == 0
            && KeptBut(v, v', p, d, j) && IdentityPdes(v'.pdir, idtbl) && IdentityTables(v'.mem, idtbl)
  {
    hide LoadU32, StoreU32, KeptBut, IdentityPdes, IdentityTables;
    UnmapKeeps(v, role, p, d, j);
    EntryKept(v, role, p, d, j, 0, idtbl);
  }

  lemma ClearedPaid(v: Vm, role: Roles, p: nat, d: nat, j: nat, own: Owners)
    requires Owned(v, role) && User(p, d) && j < ENTRIES && Paid(role, own)
    ensures Paid(Unmapped(v, role, p, d, j), own)
  {
    hide Pte;
    assert DataOk(v, role, p, d, j);
  }

  lemma NothingMapped(v: Vm)
    requires Shape(v) && forall p, d :: User(p, d) ==> Pde(v, p, d) == 0
    ensures Owned(v, map[])
  {
  }

  lemma BaseInTable(cont: Containers)
    requires cont.Valid()
    ensures forall f :: f in cont.base ==> 1 <= f < cont.pages.at.Length
    ensures cont.pages.at.Length > 0 && cont.pages.at[0].used == 0
  {
  }

  lemma ClearPde(v: Vm, p: nat, d: nat, idtbl: nat)
    requires Shape(v) && User(p, d) && IdentityPdes(v.pdir, idtbl)
    ensures IdentityPdes(SetPde(v, p, d, 0).pdir, idtbl)
    ensures Pde(v, p, d) == 0 ==> SetPde(v, p, d, 0) == v
  {
    if Pde(v, p, d) == 0 {
      var row: seq<nat> := v.pdir[p][d := 0];
      assert row == v.pdir[p];
    }
  }

  lemma ZeroWord(s: seq<byte>, o: nat)
    requires o + 4 <= |s| && LoadU32(s, o) == 0
    ensures s[o] == 0 && s[o + 1] == 0 && s[o + 2] == 0 && s[o + 3] == 0
  {
  }
}
