/** Two-level page tables kept in the physical memory they map, and who owns each frame. */
module PageTables {
  import opened Common
  import opened Words

  const PAGESIZE: nat := 4096
  const ENTRIES: nat := 1024
  const PERM: nat := 7 // present, writable, user

  /** A physical page. */
  type Frame = f: seq<byte> | |f| == 4096 witness seq(4096, _ => 0)

  function ZeroFrame(): (z: Frame)
    ensures forall i :: 0 <= i < 4096 ==> z[i] == 0
  {
    seq(4096, _ => 0)
  }

  /** The page directories of all processes, and physical memory. */
  datatype Vm = Vm(pdir: seq<seq<nat>>, mem: seq<Frame>)

  /** What an allocated frame is for: a page table, a mapped page, or a page not mapped (yet, or any more). */
  datatype Role = Table(p: nat, d: nat) | Data(p: nat, d: nat, j: nat) | Loose(p: nat)

  type Roles = map<nat, Role>

  /** User processes, and the directory slots of user addresses; the others map the kernel identically. */
  predicate User(p: nat, d: nat) { 1 <= p < NUM_IDS && 256 <= d < 960 }

  predicate Shape(v: Vm) {
    |v.pdir| == NUM_IDS && forall p :: 0 <= p < NUM_IDS ==> |v.pdir[p]| == ENTRIES
  }

  function Pde(v: Vm, p: nat, d: nat): nat
    requires Shape(v) && p < NUM_IDS && d < ENTRIES
  {
    v.pdir[p][d]
  }

  /** Page table entry j of the table that directory entry d points to; 0 where there is none. */
  function Pte(v: Vm, p: nat, d: nat, j: nat): nat
    requires Shape(v) && p < NUM_IDS && d < ENTRIES && j < ENTRIES
  {
    var f := Pde(v, p, d) / PAGESIZE;
    if Pde(v, p, d) != 0 && f < |v.mem| then LoadU32(v.mem[f], 4 * j) else 0
  }

  predicate TableOk(v: Vm, role: Roles, p: nat, d: nat)
    requires Shape(v) && User(p, d)
  {
    var f := Pde(v, p, d) / PAGESIZE;
    Pde(v, p, d) != 0 ==> Pde(v, p, d) == f * PAGESIZE + PERM && f in role && role[f] == Table(p, d)
  }

  /** A mapped page is present: bit 0 of its entry is set. */
  predicate DataOk(v: Vm, role: Roles, p: nat, d: nat, j: nat)
    requires Shape(v) && User(p, d) && j < ENTRIES
  {
    var g := Pte(v, p, d, j) / PAGESIZE;
    Pte(v, p, d, j) != 0 ==> Pte(v, p, d, j) % 2 == 1 && g in role && role[g] == Data(p, d, j)
  }

  predicate RoleOk(v: Vm, role: Roles, f: nat)
    requires Shape(v) && f in role
  {
    && 1 <= f < |v.mem| && f * PAGESIZE + PAGESIZE <= U32
    && match role[f]
       case Table(p, d) => User(p, d) && Pde(v, p, d) == f * PAGESIZE + PERM
       case Data(p, d, j) => User(p, d) && j < ENTRIES && Pte(v, p, d, j) != 0 && Pte(v, p, d, j) / PAGESIZE == f
       case Loose(_) => true
  }

  /** Frame ownership: tables and data pages are where their roles say, and nothing else is mapped. */
  ghost predicate Owned(v: Vm, role: Roles) {
    && Shape(v)
    && (forall p, d :: User(p, d) ==> TableOk(v, role, p, d))
    && (forall p, d, j :: User(p, d) && 0 <= j < ENTRIES ==> DataOk(v, role, p, d, j))
    && (forall f :: f in role ==> RoleOk(v, role, f))
  }

  /** No frame is mapped at two places, or both mapped and a page table. */
  lemma OnePlace(v: Vm, role: Roles, p: nat, d: nat, j: nat, q: nat, e: nat, k: nat)
    requires Owned(v, role) && User(p, d) && User(q, e) && j < ENTRIES && k < ENTRIES && Pte(v, p, d, j) != 0
    ensures Pte(v, q, e, k) != 0 && Pte(v, p, d, j) / PAGESIZE == Pte(v, q, e, k) / PAGESIZE ==>
              p == q && d == e && j == k
    ensures Pde(v, q, e) != 0 ==> Pte(v, p, d, j) / PAGESIZE != Pde(v, q, e) / PAGESIZE
  {
    assert DataOk(v, role, p, d, j) && DataOk(v, role, q, e, k) && TableOk(v, role, q, e);
  }

  // ---- the steps ------------------------------------------------------------------------

  function SetPde(v: Vm, p: nat, d: nat, x: nat): (r: Vm)
    requires Shape(v) && p < NUM_IDS && d < ENTRIES
    ensures Shape(r)
  {
    var row: seq<nat> := v.pdir[p][d := x];
    v.(pdir := v.pdir[p := row])
  }

  function SetFrame(v: Vm, f: nat, x: Frame): Vm
    requires f < |v.mem|
  {
    v.(mem := v.mem[f := x])
  }

  lemma ZeroLoads(j: nat)
    requires j < ENTRIES
    ensures LoadU32(ZeroFrame(), 4 * j) == 0
  {
  }

  /** A loose frame, zeroed, becomes a page table. */
  lemma TableKeeps(v: Vm, role: Roles, p: nat, d: nat, f: nat)
    requires Owned(v, role) && User(p, d) && Pde(v, p, d) == 0 && f in role && role[f].Loose?
    ensures f < |v.mem|
    ensures Owned(SetFrame(SetPde(v, p, d, f * PAGESIZE + PERM), f, ZeroFrame()), role[f := Table(p, d)])
  {
    hide LoadU32;
    assert RoleOk(v, role, f);
    var v' := SetFrame(SetPde(v, p, d, f * PAGESIZE + PERM), f, ZeroFrame());
    var role' := role[f := Table(p, d)];
    assert (f * PAGESIZE + PERM) / PAGESIZE == f;
    forall q, e, j | User(q, e) && 0 <= j < ENTRIES ensures Pte(v', q, e, j) == Pte(v, q, e, j) {
      assert TableOk(v, role, q, e);
      ZeroLoads(j);
    }
    forall q, e, j | User(q, e) && 0 <= j < ENTRIES
      ensures DataOk(v', role', q, e, j)
    {
      assert DataOk(v, role, q, e, j);
    }
    forall q, e | User(q, e) ensures TableOk(v', role', q, e) { assert TableOk(v, role, q, e); }
    forall g | g in role' ensures RoleOk(v', role', g) { assert g in role; assert RoleOk(v, role, g); }
  }

  /** A newly allocated frame is loose. */
  lemma LooseKeeps(v: Vm, role: Roles, f: nat, p: nat)
    requires Owned(v, role) && f !in role && 1 <= f < |v.mem| && f * PAGESIZE + PAGESIZE <= U32
    ensures Owned(v, role[f := Loose(p)])
  {
    hide LoadU32, Pte;
    var role' := role[f := Loose(p)];
    forall q, e, j | User(q, e) && 0 <= j < ENTRIES
      ensures DataOk(v, role', q, e, j)
    {
      assert DataOk(v, role, q, e, j);
    }
    forall q, e | User(q, e) ensures TableOk(v, role', q, e) { assert TableOk(v, role, q, e); }
    forall g | g in role' ensures RoleOk(v, role', g) { if g != f { assert RoleOk(v, role, g); } }
  }

  /** Storing word x at entry j of the page table of slot d. */
  function SetPte(v: Vm, p: nat, d: nat, j: nat, x: nat): (r: Vm)
    requires Shape(v) && p < NUM_IDS && d < ENTRIES && j < ENTRIES && x < U32 && Pde(v, p, d) / PAGESIZE < |v.mem|
    ensures Shape(r) && r.pdir == v.pdir && |r.mem| == |v.mem|
  {
    var f := Pde(v, p, d) / PAGESIZE;
    SetFrame(v, f, StoreU32(v.mem[f], 4 * j, x))
  }

  /** It changes that entry and no other. */
  lemma SetPteIs(v: Vm, role: Roles, p: nat, d: nat, j: nat, x: nat, q: nat, e: nat, k: nat)
    requires Owned(v, role) && User(p, d) && User(q, e) && j < ENTRIES && k < ENTRIES && x < U32 && Pde(v, p, d) != 0
    ensures Pde(v, p, d) / PAGESIZE < |v.mem|
    ensures Pte(SetPte(v, p, d, j, x), q, e, k) == if q == p && e == d && k == j then x else Pte(v, q, e, k)
  {
    assert TableOk(v, role, p, d) && TableOk(v, role, q, e);
    assert RoleOk(v, role, Pde(v, p, d) / PAGESIZE);
    var f := Pde(v, p, d) / PAGESIZE;
    if k != j { LoadOther(v.mem[f], 4 * j, x, 4 * k); }
    hide LoadU32, StoreU32;
  }

  /** Roles once entry j of slot d no longer maps its page. */
  function Unmapped(v: Vm, role: Roles, p: nat, d: nat, j: nat): Roles
    requires Shape(v) && User(p, d) && j < ENTRIES
  {
    if Pte(v, p, d, j) == 0 then role else role[Pte(v, p, d, j) / PAGESIZE := Loose(p)]
  }

  lemma UnmapKeeps(v: Vm, role: Roles, p: nat, d: nat, j: nat)
    requires Owned(v, role) && User(p, d) && j < ENTRIES && Pde(v, p, d) != 0
    ensures Pde(v, p, d) / PAGESIZE < |v.mem|
    ensures Owned(SetPte(v, p, d, j, 0), Unmapped(v, role, p, d, j))
  {
    SetPteIs(v, role, p, d, j, 0, p, d, j);
    var (v', role') := (SetPte(v, p, d, j, 0), Unmapped(v, role, p, d, j));
    assert DataOk(v, role, p, d, j);
    forall q, e, k | User(q, e) && 0 <= k < ENTRIES ensures DataOk(v', role', q, e, k) {
      SetPteIs(v, role, p, d, j, 0, q, e, k);
      assert DataOk(v, role, q, e, k);
      hide Pte;
    }
    forall q, e | User(q, e) ensures TableOk(v', role', q, e) { assert TableOk(v, role, q, e); hide Pte; }
    forall g | g in role' ensures RoleOk(v', role', g) { UnmapRole(v, role, p, d, j, g); hide Pte; }
  }

  lemma UnmapRole(v: Vm, role: Roles, p: nat, d: nat, j: nat, g: nat)
    requires Owned(v, role) && User(p, d) && j < ENTRIES && Pde(v, p, d) != 0 && g in Unmapped(v, role, p, d, j)
    ensures Pde(v, p, d) / PAGESIZE < |v.mem|
    ensures RoleOk(SetPte(v, p, d, j, 0), Unmapped(v, role, p, d, j), g)
  {
    SetPteIs(v, role, p, d, j, 0, p, d, j);
    assert DataOk(v, role, p, d, j);
    assert g in role;
    assert RoleOk(v, role, g);
    if role[g].Data? { SetPteIs(v, role, p, d, j, 0, role[g].p, role[g].d, role[g].j); }
    hide Pte;
  }

  /** A loose frame becomes the page behind an empty entry. */
  lemma MapKeeps(v: Vm, role: Roles, p: nat, d: nat, j: nat, g: nat, perm: nat)
    requires Owned(v, role) && User(p, d) && j < ENTRIES && Pde(v, p, d) != 0 && Pte(v, p, d, j) == 0
    requires g in role && role[g].Loose? && perm < PAGESIZE && perm % 2 == 1
    ensures Pde(v, p, d) / PAGESIZE < |v.mem| && g * PAGESIZE + perm < U32
    ensures Owned(SetPte(v, p, d, j, g * PAGESIZE + perm), role[g := Data(p, d, j)])
  {
    hide Pte, SetPte, LoadU32, StoreU32;
    assert RoleOk(v, role, g);
    var x := g * PAGESIZE + perm;
    EntryParts(g, perm);
    SetPteIs(v, role, p, d, j, x, p, d, j);
    var (v', role') := (SetPte(v, p, d, j, x), role[g := Data(p, d, j)]);
    forall q, e, k | User(q, e) && 0 <= k < ENTRIES ensures DataOk(v', role', q, e, k) {
      SetPteIs(v, role, p, d, j, x, q, e, k);
      assert DataOk(v, role, q, e, k);
    }
    forall q, e | User(q, e) ensures TableOk(v', role', q, e) { assert TableOk(v, role, q, e); }
    forall f | f in role' ensures RoleOk(v', role', f) {
      assert f in role;
      assert RoleOk(v, role, f);
      if role[f].Data? { SetPteIs(v, role, p, d, j, x, role[f].p, role[f].d, role[f].j); }
    }
  }

  lemma EntryParts(g: nat, perm: nat)
    requires perm < PAGESIZE && perm % 2 == 1
    ensures var x := g * PAGESIZE + perm; x / PAGESIZE == g && x % 2 == 1
  {
  }

  /** Writing a frame that is not a page table moves nothing. */
  lemma WriteKeeps(v: Vm, role: Roles, f: nat, x: Frame)
    requires Owned(v, role) && f < |v.mem| && (f in role ==> !role[f].Table?)
    ensures Owned(SetFrame(v, f, x), role)
    ensures forall p, d, j :: User(p, d) && 0 <= j < ENTRIES ==> Pte(SetFrame(v, f, x), p, d, j) == Pte(v, p, d, j)
  {
    var v' := SetFrame(v, f, x);
    forall p, d, j | User(p, d) && 0 <= j < ENTRIES
      ensures Pte(v', p, d, j) == Pte(v, p, d, j) && DataOk(v', role, p, d, j)
    {
      assert TableOk(v, role, p, d) && DataOk(v, role, p, d, j);
    }
    forall q, e | User(q, e) ensures TableOk(v', role, q, e) { assert TableOk(v, role, q, e); }
    forall g | g in role ensures RoleOk(v', role, g) { assert RoleOk(v, role, g); }
  }

  /** Roles once slot d of p has no page table: its pages are loose, and the table's frame is free. */
  function Detached(role: Roles, p: nat, d: nat, f: nat): Roles {
    map g | g in role && g != f :: if role[g].Data? && role[g].p == p && role[g].d == d then Loose(p) else role[g]
  }

  lemma DetachKeeps(v: Vm, role: Roles, p: nat, d: nat)
    requires Owned(v, role) && User(p, d) && Pde(v, p, d) != 0
    ensures var f := Pde(v, p, d) / PAGESIZE; f in role && Owned(SetPde(v, p, d, 0), Detached(role, p, d, f))
  {
    hide LoadU32;
    var f := Pde(v, p, d) / PAGESIZE;
    assert TableOk(v, role, p, d);
    var (v', role') := (SetPde(v, p, d, 0), Detached(role, p, d, f));
    forall q, e | User(q, e) ensures TableOk(v', role', q, e) { assert TableOk(v, role, q, e); }
    forall q, e, k | User(q, e) && 0 <= k < ENTRIES
      ensures DataOk(v', role', q, e, k)
    {
      assert DataOk(v, role, q, e, k);
    }
    forall g | g in role' ensures RoleOk(v', role', g) { assert RoleOk(v, role, g); }
  }
}
