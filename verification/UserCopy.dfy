/** pt_copyout and pt_copyin: copying across page boundaries into and out of a process's memory. */
module UserCopy {
  import opened Common
  import opened Words
  import PageAlloc
  import opened Container
  import opened PageTables
  import opened Paging

  /** A user address of a user process. */
  predicate UserVa(q: nat, va: nat) { 1 <= q < NUM_IDS && USERLO <= va < USERHI }

  /** The page table entry of a user address. */
  function Entry(v: Vm, q: nat, va: nat): nat
    requires Shape(v) && UserVa(q, va)
  {
    Pte(v, q, PdIndex(va), PtIndex(va))
  }

  /** What process q reads at va; only meaningful where it is mapped. */
  function Byte(v: Vm, q: nat, va: nat): byte
    requires Shape(v) && UserVa(q, va)
  {
    var g := Entry(v, q, va) / PAGESIZE;
    if g < |v.mem| then v.mem[g][va % PAGESIZE] else 0
  }

  lemma UserIndex(q: nat, va: nat)
    requires UserVa(q, va)
    ensures User(q, PdIndex(va)) && PtIndex(va) < ENTRIES
  {
  }

  /** Addresses with the same table indices lie in the same page. */
  lemma SameIndices(va: nat, vb: nat)
    requires PdIndex(va) == PdIndex(vb) && PtIndex(va) == PtIndex(vb)
    ensures va / PAGESIZE == vb / PAGESIZE
  {
    assert va / 4096 / 1024 == va / (4096 * 1024) && vb / 4096 / 1024 == vb / (4096 * 1024);
  }

  /** From v to v', nothing that was mapped moved or changed, except the bytes lo .. hi of process p. */
  ghost predicate Same(v: Vm, v': Vm, p: nat, lo: nat, hi: nat) {
    && Shape(v) && Shape(v') && |v'.mem| == |v.mem|
    && (forall q: nat, va: nat :: UserVa(q, va) && Entry(v, q, va) != 0 ==> Entry(v', q, va) == Entry(v, q, va))
    && (forall q: nat, va: nat :: UserVa(q, va) && Entry(v, q, va) != 0 && !(q == p && lo <= va < hi) ==>
         Byte(v', q, va) == Byte(v, q, va))
  }

  /** The bytes x are mapped at va of process p. */
  ghost predicate Holds(v: Vm, p: nat, va: nat, x: seq<byte>) {
    && Shape(v)
    && forall a: nat :: va <= a < va + |x| ==> UserVa(p, a) && Entry(v, p, a) != 0 && Byte(v, p, a) == x[a - va]
  }

  /** Two mapped user addresses share a frame only if they are in the same page of the same process. */
  lemma SameFrame(v: Vm, role: Roles, p: nat, va: nat, q: nat, vb: nat)
    requires PageTables.Owned(v, role) && UserVa(p, va) && UserVa(q, vb) && Entry(v, p, va) != 0 && Entry(v, q, vb) != 0
    ensures Entry(v, p, va) / PAGESIZE == Entry(v, q, vb) / PAGESIZE <==> p == q && va / PAGESIZE == vb / PAGESIZE
  {
    UserIndex(p, va);
    UserIndex(q, vb);
    OnePlace(v, role, p, PdIndex(va), PtIndex(va), q, PdIndex(vb), PtIndex(vb));
    if PdIndex(va) == PdIndex(vb) && PtIndex(va) == PtIndex(vb) { SameIndices(va, vb); }
    if va / PAGESIZE == vb / PAGESIZE {
      assert va / 4096 / 1024 == va / (4096 * 1024) && vb / 4096 / 1024 == vb / (4096 * 1024);
    }
    hide Pte, PageTables.Owned;
  }

  lemma DataFrame(v: Vm, role: Roles, p: nat, va: nat)
    requires PageTables.Owned(v, role) && UserVa(p, va) && Entry(v, p, va) != 0
    ensures var g := Entry(v, p, va) / PAGESIZE; 1 <= g < |v.mem| && g in role && role[g].Data?
    ensures Entry(v, p, va) % 2 == 1
  {
    UserIndex(p, va);
    assert DataOk(v, role, p, PdIndex(va), PtIndex(va)) && RoleOk(v, role, Entry(v, p, va) / PAGESIZE);
  }

  /** Memory after y is written at va, within the page mapped there. */
  function WriteAt(v: Vm, p: nat, va: nat, y: seq<byte>): Vm
    requires Shape(v) && UserVa(p, va) && va % PAGESIZE + |y| <= PAGESIZE && Entry(v, p, va) / PAGESIZE < |v.mem|
  {
    var g := Entry(v, p, va) / PAGESIZE;
    SetFrame(v, g, Splice(v.mem[g], va % PAGESIZE, y))
  }

  lemma WriteEntries(v: Vm, role: Roles, p: nat, va: nat, y: seq<byte>)
    requires PageTables.Owned(v, role) && UserVa(p, va) && Entry(v, p, va) != 0 && va % PAGESIZE + |y| <= PAGESIZE
    ensures Entry(v, p, va) / PAGESIZE < |v.mem|
    ensures var v' := WriteAt(v, p, va, y);
            && PageTables.Owned(v', role)
            && forall q: nat, vb: nat :: UserVa(q, vb) ==> Entry(v', q, vb) == Entry(v, q, vb)
  {
    DataFrame(v, role, p, va);
    var g := Entry(v, p, va) / PAGESIZE;
    WriteKeeps(v, role, g, Splice(v.mem[g], va % PAGESIZE, y));
    forall q: nat, vb: nat | UserVa(q, vb)
      ensures Entry(WriteAt(v, p, va, y), q, vb) == Entry(v, q, vb)
    {
      UserIndex(q, vb);
    }
  }

  /** The write changes those bytes of that process and no other mapped byte. */
  lemma Wrote(v: Vm, role: Roles, p: nat, va: nat, y: seq<byte>, q: nat, vb: nat)
    requires PageTables.Owned(v, role) && UserVa(p, va) && UserVa(q, vb) && Entry(v, p, va) != 0 && Entry(v, q, vb) != 0
    requires va % PAGESIZE + |y| <= PAGESIZE
    ensures Entry(v, p, va) / PAGESIZE < |v.mem|
    ensures Byte(WriteAt(v, p, va, y), q, vb) == if q == p && va <= vb < va + |y| then y[vb - va] else Byte(v, q, vb)
  {
    hide PageTables.Owned, Entry;
    DataFrame(v, role, p, va);
    WriteEntries(v, role, p, va, y);
    SameFrame(v, role, p, va, q, vb);
  }

  lemma OnePage(v: Vm, p: nat, va: nat, a: nat)
    requires Shape(v) && UserVa(p, va) && va <= a < va - va % PAGESIZE + PAGESIZE
    ensures UserVa(p, a) && Entry(v, p, a) == Entry(v, p, va)
  {
    assert va / 4096 == a / 4096;
    assert va / 4096 / 1024 == va / (4096 * 1024) && a / 4096 / 1024 == a / (4096 * 1024);
  }

  /** One piece of the copy. */
  lemma PieceCopied(v0: Vm, v: Vm, role: Roles, p: nat, lo: nat, hi: nat, y: seq<byte>, x: seq<byte>)
    requires PageTables.Owned(v, role) && Same(v0, v, p, lo, hi) && lo <= hi && hi % PAGESIZE + |y| <= PAGESIZE
    requires UserVa(p, hi) && Entry(v, p, hi) != 0 && |x| == hi - lo
    ensures Entry(v, p, hi) / PAGESIZE < |v.mem|
    ensures Same(v0, WriteAt(v, p, hi, y), p, lo, hi + |y|)
    ensures Holds(v, p, lo, x) && hi + |y| <= USERHI ==> Holds(WriteAt(v, p, hi, y), p, lo, x + y)
  {
    hide PageTables.Owned, Entry, Byte;
    WriteEntries(v, role, p, hi, y);
    var v' := WriteAt(v, p, hi, y);
    forall q: nat, vb: nat | UserVa(q, vb) && Entry(v, q, vb) != 0
      ensures Byte(v', q, vb) == if q == p && hi <= vb < hi + |y| then y[vb - hi] else Byte(v, q, vb)
    {
      Wrote(v, role, p, hi, y, q, vb);
    }
    if Holds(v, p, lo, x) && hi + |y| <= USERHI {
      forall a: nat | lo <= a < hi + |y|
        ensures UserVa(p, a) && Entry(v', p, a) != 0 && Byte(v', p, a) == (x + y)[a - lo]
      {
        if hi <= a { OnePage(v, p, hi, a); }
      }
    }
  }

  lemma ThenSame(v0: Vm, v: Vm, v1: Vm, p: nat, lo: nat, hi: nat, x: seq<byte>)
    requires Same(v0, v, p, lo, hi) && Same(v, v1, p, hi, hi)
    ensures Same(v0, v1, p, lo, hi) && (Holds(v, p, lo, x) ==> Holds(v1, p, lo, x))
  {
    hide Entry, Byte;
  }

  lemma FrameZero(v: Vm, role: Roles)
    requires PageTables.Owned(v, role)
    ensures 0 !in role
  {
    forall f | f in role ensures f >= 1 { assert RoleOk(v, role, f); }
  }

  /** Frame 0, where a failed allocation sends the copy, belongs to nobody. */
  lemma StrayWrite(v: Vm, role: Roles, p: nat, lo: nat, x: Frame)
    requires PageTables.Owned(v, role) && |v.mem| > 0
    ensures PageTables.Owned(SetFrame(v, 0, x), role) && Same(v, SetFrame(v, 0, x), p, lo, lo)
    ensures forall q: nat, va: nat :: UserVa(q, va) ==> Entry(SetFrame(v, 0, x), q, va) == Entry(v, q, va)
  {
    FrameZero(v, role);
    WriteKeeps(v, role, 0, x);
    forall q: nat, va: nat | UserVa(q, va)
      ensures Entry(SetFrame(v, 0, x), q, va) == Entry(v, q, va)
    {
      UserIndex(q, va);
    }
    forall q: nat, va: nat | UserVa(q, va) && Entry(v, q, va) != 0
      ensures Entry(SetFrame(v, 0, x), q, va) == Entry(v, q, va) && Byte(SetFrame(v, 0, x), q, va) == Byte(v, q, va)
    {
      UserIndex(q, va);
      DataFrame(v, role, q, va);
    }
  }

  lemma SameSelf(v: Vm, p: nat, lo: nat)
    requires Shape(v)
    ensures Same(v, v, p, lo, lo)
  {
  }

  /** The pages of all other addresses are mapped as they were, or not mapped as they were not. */
  ghost predicate OthersAsWere(v: Vm, v': Vm, p: nat, va: nat) {
    && Shape(v) && Shape(v')
    && forall q: nat, vb: nat :: UserVa(q, vb) && !(q == p && vb / PAGESIZE == va / PAGESIZE) ==>
         Entry(v', q, vb) == Entry(v, q, vb)
  }

  lemma NewPage(v: Vm, v': Vm, p: nat, va: nat)
    requires UserVa(p, va) && Shape(v) && Entry(v, p, va) == 0 && KeptBut(v, v', p, PdIndex(va), PtIndex(va))
    ensures Same(v, v', p, va, va) && OthersAsWere(v, v', p, va)
  {
    forall q: nat, vb: nat | UserVa(q, vb) && !(q == p && PdIndex(vb) == PdIndex(va) && PtIndex(vb) == PtIndex(va))
      ensures Entry(v', q, vb) == Entry(v, q, vb) && (Entry(v, q, vb) != 0 ==> Byte(v', q, vb) == Byte(v, q, vb))
    {
      UserIndex(q, vb);
      assert SamePage(v, v', q, PdIndex(vb), PtIndex(vb));
      hide Pte;
    }
    forall vb: nat | UserVa(p, vb) && PdIndex(vb) == PdIndex(va) && PtIndex(vb) == PtIndex(va)
      ensures Entry(v, p, vb) == 0 && vb / PAGESIZE == va / PAGESIZE
    {
      SameIndices(va, vb);
    }
    hide Pte, PdIndex, PtIndex;
  }

  // ---- the frames a range still needs -----------------------------------------------------------

  /** Page g of process p's user space is not mapped. */
  predicate NoPage(v: Vm, p: nat, g: nat) {
    Shape(v) && UserVa(p, g * PAGESIZE) && Entry(v, p, g * PAGESIZE) == 0
  }

  predicate NoTable(v: Vm, p: nat, d: nat) { Shape(v) && User(p, d) && Pde(v, p, d) == 0 }

  function MissingPages(v: Vm, p: nat, lo: nat, hi: nat): set<nat> {
    set g: nat | lo < hi && lo / PAGESIZE <= g <= (hi - 1) / PAGESIZE && NoPage(v, p, g)
  }

  function MissingTables(v: Vm, p: nat, lo: nat, hi: nat): set<nat> {
    set d: nat | lo < hi && PdIndex(lo) <= d <= PdIndex(hi - 1) && NoTable(v, p, d)
  }

  /** Frames it takes to map the addresses lo .. hi: the unmapped pages, and the slots without a table. */
  function Need(v: Vm, p: nat, lo: nat, hi: nat): nat {
    |MissingPages(v, p, lo, hi)| + |MissingTables(v, p, lo, hi)|
  }

  /** Frames it takes to map one address. */
  function Cost(v: Vm, p: nat, va: nat): nat
    requires Shape(v) && UserVa(p, va)
  {
    UserIndex(p, va);
    if Entry(v, p, va) != 0 then 0 else PageNeed(v, p, PdIndex(va))
  }

  lemma PageBase(v: Vm, p: nat, va: nat)
    requires Shape(v) && UserVa(p, va)
    ensures var b := va / PAGESIZE * PAGESIZE; UserVa(p, b) && Entry(v, p, b) == Entry(v, p, va)
  {
    OnePage(v, p, va / PAGESIZE * PAGESIZE, va);
  }

  /** A round of a copy takes the piece va .. va + k, which ends its page or the range. */
  predicate Round(p: nat, va: nat, k: nat, end: nat) {
    && UserVa(p, va) && 1 <= k && va % PAGESIZE + k <= PAGESIZE && va + k <= end <= USERHI
    && (va + k < end ==> (va + k) % PAGESIZE == 0)
  }

  lemma RoundIndices(p: nat, va: nat, k: nat, end: nat)
    requires Round(p, va, k, end)
    ensures if va + k < end then (va + k) / PAGESIZE == va / PAGESIZE + 1 else (end - 1) / PAGESIZE == va / PAGESIZE
    ensures if va + k < end then PdIndex(va) <= PdIndex(va + k) <= PdIndex(va) + 1 else PdIndex(end - 1) == PdIndex(va)
    ensures PdIndex(va) <= PdIndex(end - 1) && va / PAGESIZE <= (end - 1) / PAGESIZE
  {
    assert va / 4096 / 1024 == va / (4096 * 1024) && (end - 1) / 4096 / 1024 == (end - 1) / (4096 * 1024);
    assert (va + k) / 4096 / 1024 == (va + k) / (4096 * 1024);
  }

  lemma PagesStep(v: Vm, v': Vm, p: nat, va: nat, k: nat, end: nat)
    requires Round(p, va, k, end) && OthersAsWere(v, v', p, va) && Entry(v', p, va) != 0
    ensures MissingPages(v', p, va + k, end) == MissingPages(v, p, va, end) - {va / PAGESIZE}
    ensures va / PAGESIZE in MissingPages(v, p, va, end) <==> Entry(v, p, va) == 0
  {
    hide Entry;
    RoundIndices(p, va, k, end);
    PageBase(v, p, va);
    PageBase(v', p, va);
    forall g: nat | g != va / PAGESIZE ensures NoPage(v', p, g) <==> NoPage(v, p, g) { }
  }

  lemma TablesStep(v: Vm, v': Vm, p: nat, va: nat, k: nat, end: nat)
    requires Round(p, va, k, end) && SlotsBut(v, v', p, PdIndex(va)) && !NoTable(v', p, PdIndex(va))
    ensures MissingTables(v', p, va + k, end) == MissingTables(v, p, va, end) - {PdIndex(va)}
    ensures PdIndex(va) in MissingTables(v, p, va, end) <==> NoTable(v, p, PdIndex(va))
  {
    RoundIndices(p, va, k, end);
    UserIndex(p, va);
    hide PdIndex;
  }

  lemma HasTable(v: Vm, p: nat, va: nat)
    requires Shape(v) && UserVa(p, va) && Entry(v, p, va) != 0
    ensures !NoTable(v, p, PdIndex(va))
  {
  }

  /** What a round costs comes off what the rest of the range needs. */
  lemma NeedStep(v: Vm, v': Vm, p: nat, va: nat, k: nat, end: nat)
    requires Round(p, va, k, end) && OthersAsWere(v, v', p, va) && SlotsBut(v, v', p, PdIndex(va))
    requires Entry(v', p, va) != 0
    ensures Need(v', p, va + k, end) == Need(v, p, va, end) - Cost(v, p, va)
  {
    HasTable(v', p, va);
    if Entry(v, p, va) != 0 { HasTable(v, p, va); }
    UserIndex(p, va);
    PagesStep(v, v', p, va, k, end);
    TablesStep(v, v', p, va, k, end);
    hide MissingPages, MissingTables, Entry, PdIndex;
  }

  lemma CostIsNeeded(v: Vm, p: nat, va: nat, k: nat, end: nat)
    requires Shape(v) && Round(p, va, k, end)
    ensures Cost(v, p, va) <= Need(v, p, va, end)
  {
    if Entry(v, p, va) == 0 {
      RoundIndices(p, va, k, end);
      PageBase(v, p, va);
      UserIndex(p, va);
      var (gs, ds) := (MissingPages(v, p, va, end), MissingTables(v, p, va, end));
      assert va / PAGESIZE in gs && (NoTable(v, p, PdIndex(va)) ==> PdIndex(va) in ds);
      assert |gs| >= 1 && (PdIndex(va) in ds ==> |ds| >= 1);
    }
  }

  lemma PageThere(v: Vm, p: nat, uva: nat, n: nat, g: nat)
    requires AllMapped(v, p, uva, n)
    ensures g !in MissingPages(v, p, uva, uva + n)
  {
    if n > 0 && uva / PAGESIZE <= g <= (uva + n - 1) / PAGESIZE {
      var a := if g * PAGESIZE < uva then uva else g * PAGESIZE;
      assert a / PAGESIZE == g;
      PageBase(v, p, a);
    }
  }

  lemma TableThere(v: Vm, p: nat, uva: nat, n: nat, d: nat)
    requires AllMapped(v, p, uva, n)
    ensures d !in MissingTables(v, p, uva, uva + n)
  {
    if n > 0 && PdIndex(uva) <= d <= PdIndex(uva + n - 1) {
      var a := if d * 4194304 < uva then uva else d * 4194304;
      assert PdIndex(a) == d;
      HasTable(v, p, a);
    }
  }

  /** A range that is mapped needs nothing. */
  lemma MappedNeedsNothing(v: Vm, p: nat, uva: nat, n: nat)
    requires AllMapped(v, p, uva, n)
    ensures Need(v, p, uva, uva + n) == 0
  {
    var (gs, ds) := (MissingPages(v, p, uva, uva + n), MissingTables(v, p, uva, uva + n));
    forall g: nat ensures g !in gs { PageThere(v, p, uva, n, g); }
    forall d: nat ensures d !in ds { TableThere(v, p, uva, n, d); }
    assert gs == {} && ds == {};
  }

  /** While all rounds found their page, room and need have gone down together; else the room was too small. */
  predicate Ledger(balance: int, ok: bool, spare: nat, need: nat) {
    if ok then spare - need == balance else balance < 0
  }

  lemma LedgerStep(v: Vm, v': Vm, p: nat, va: nat, k: nat, end: nat, balance: int, ok: bool, spare: nat, spare': nat,
                   got: bool)
    requires Shape(v) && Round(p, va, k, end) && Ledger(balance, ok, spare, Need(v, p, va, end))
    requires OthersAsWere(v, v', p, va) && SlotsBut(v, v', p, PdIndex(va))
    requires (got <==> Entry(v', p, va) != 0) && (got <==> spare >= Cost(v, p, va))
    requires got ==> spare' == spare - Cost(v, p, va)
    ensures Ledger(balance, ok && got, spare', Need(v', p, va + k, end))
  {
    hide Need, Cost, Entry;
    CostIsNeeded(v, p, va, k, end);
    if got { NeedStep(v, v', p, va, k, end); }
  }

  /** Only pages and directory slots of the addresses lo .. hi of process p have changed their mapping. */
  ghost predicate OnlyIn(v: Vm, v': Vm, p: nat, lo: nat, hi: nat) {
    && Shape(v) && Shape(v')
    && (forall q: nat, va: nat ::
          UserVa(q, va) && !(q == p && lo < hi && lo / PAGESIZE <= va / PAGESIZE <= (hi - 1) / PAGESIZE) ==>
            Entry(v', q, va) == Entry(v, q, va))
    && (forall q: nat, d: nat ::
          User(q, d) && !(q == p && lo < hi && PdIndex(lo) <= d <= PdIndex(hi - 1)) ==>
            Pde(v', q, d) == Pde(v, q, d))
  }

  lemma OnlyInMore(v: Vm, v1: Vm, v2: Vm, p: nat, lo: nat, va: nat, k: nat)
    requires OnlyIn(v, v1, p, lo, va) && OthersAsWere(v1, v2, p, va) && SlotsBut(v1, v2, p, PdIndex(va)) && lo <= va
    requires 1 <= k
    ensures OnlyIn(v, v2, p, lo, va + k)
  {
    hide Entry, Pde;
  }

  lemma OnlyInSelf(v: Vm, p: nat, lo: nat)
    requires Shape(v)
    ensures OnlyIn(v, v, p, lo, lo)
  {
  }

  lemma NoNeed(v: Vm, p: nat, va: nat)
    ensures Need(v, p, va, va) == 0
  {
  }

  /** The pages that process p can have in a row. */
  ghost function Spare(pg: Paging, p: nat): nat
    reads pg, pg.cont, pg.cont.c, pg.cont.pages, pg.cont.pages.at
  {
    if pg.cont.c.Length == NUM_IDS && p < NUM_IDS then pg.cont.Spare(p) else 0
  }

  /** The paging state is sound and p is a process that exists. */
  ghost predicate Ready(pg: Paging, p: nat)
    reads pg, pg.cont, pg.cont.c, pg.cont.pages, pg.cont.pages.at
  {
    pg.Valid() && Live(pg.cont.c[..], p)
  }

  lemma ReadyFacts(pg: Paging, p: nat)
    requires Ready(pg, p)
    ensures |pg.mem| > 0 && Shape(pg.Value()) && pg.cont.c.Length == NUM_IDS && p < NUM_IDS
  {
    pg.Facts();
  }

  /** Look up the page of an address, allocating one if there is none; 0 if that fails. */
  method Present(pg: Paging, p: nat, va: nat) returns (x: nat)
    requires Ready(pg, p) && UserVa(p, va)
    modifies pg`pdir, pg`mem, pg`role, pg.cont`own, pg.cont`lost, pg.cont.c, pg.cont.pages`hint, pg.cont.pages.at
    ensures Ready(pg, p)
    ensures x == Entry(pg.Value(), p, va) && Same(old(pg.Value()), pg.Value(), p, va, va)
    ensures old(Entry(pg.Value(), p, va)) != 0 ==> pg.Value() == old(pg.Value())
    ensures OthersAsWere(old(pg.Value()), pg.Value(), p, va) && SlotsBut(old(pg.Value()), pg.Value(), p, PdIndex(va))
    ensures x != 0 <==> old(Spare(pg, p) >= Cost(pg.Value(), p, va))
    ensures x != 0 ==> Spare(pg, p) == old(Spare(pg, p) - Cost(pg.Value(), p, va))
  {
    hide Containers.Valid, PageTables.Owned, Kept, KeptBut, IdentityPdes, IdentityTables, Pte, Live, Same, Entry, Room;
    ghost var v := pg.Value();
    pg.Facts();
    ReadyFacts(pg, p);
    UserIndex(p, va);
    SameSelf(v, p, va);
    x := pg.GetEntry(p, va);
    EntryIs(v, p, va);
    if x != 0 { DataFrame(v, pg.role, p, va); }
    if x % 2 == 0 {
      var r := pg.AllocPage(p, va, PERM);
      if r != MAGIC { NewPage(v, pg.Value(), p, va); }
      x := pg.GetEntry(p, va);
      pg.Facts();
      EntryIs(pg.Value(), p, va);
    }
  }

  lemma EntryIs(v: Vm, p: nat, va: nat)
    requires Shape(v) && UserVa(p, va)
    ensures User(p, PdIndex(va)) && PtIndex(va) < ENTRIES && Entry(v, p, va) == Pte(v, p, PdIndex(va), PtIndex(va))
  {
    UserIndex(p, va);
  }

  /** One round of pt_copyout. If no page can be had, the piece goes to physical page 0. */
  method PutPiece(pg: Paging, p: nat, va: nat, y: seq<byte>, ghost v0: Vm, ghost lo: nat, ghost x: seq<byte>)
    returns (ghost ok: bool)
    requires Ready(pg, p) && UserVa(p, va) && va % PAGESIZE + |y| <= PAGESIZE && va + |y| <= USERHI
    requires Same(v0, pg.Value(), p, lo, va) && lo <= va && |x| == va - lo
    modifies pg`pdir, pg`mem, pg`role, pg.cont`own, pg.cont`lost, pg.cont.c, pg.cont.pages`hint, pg.cont.pages.at
    ensures Ready(pg, p) && Same(v0, pg.Value(), p, lo, va + |y|)
    ensures ok && old(Holds(pg.Value(), p, lo, x)) ==> Holds(pg.Value(), p, lo, x + y)
    ensures ok <==> Entry(pg.Value(), p, va) != 0
    ensures OthersAsWere(old(pg.Value()), pg.Value(), p, va) && SlotsBut(old(pg.Value()), pg.Value(), p, PdIndex(va))
    ensures ok <==> old(Spare(pg, p) >= Cost(pg.Value(), p, va))
    ensures ok ==> Spare(pg, p) == old(Spare(pg, p) - Cost(pg.Value(), p, va))
  {
    hide Containers.Valid, PageTables.Owned, IdentityPdes, Live, Same, Entry, Holds, Splice, LoadU32, Cost, Room;
    var e := Present(pg, p, va);
    ghost var v1 := pg.Value();
    pg.Facts();
    ThenSame(v0, old(pg.Value()), v1, p, lo, va, x);
    ok := e != 0;
    var f := e / PAGESIZE;
    if ok {
      DataFrame(v1, pg.role, p, va);
      PieceCopied(v0, v1, pg.role, p, lo, va, y, x);
      WriteEntries(v1, pg.role, p, va, y);
    } else {
      StrayWrite(v1, pg.role, p, va, Splice(pg.mem[0], va % PAGESIZE, y));
      ThenSame(v0, v1, SetFrame(v1, 0, Splice(pg.mem[0], va % PAGESIZE, y)), p, lo, va, x);
      SameWider(v0, SetFrame(v1, 0, Splice(pg.mem[0], va % PAGESIZE, y)), p, lo, va, va + |y|);
    }
    pg.mem := pg.mem[f := Splice(pg.mem[f], va % PAGESIZE, y)];
  }

  lemma SameWider(v: Vm, v': Vm, p: nat, lo: nat, hi: nat, hi': nat)
    requires Same(v, v', p, lo, hi) && hi <= hi'
    ensures Same(v, v', p, lo, hi')
  {
  }

  // ---- the whole copies ---------------------------------------------------------------------

  /** The range checks on the user and the kernel address. */
  predicate InRange(uva: nat, kva: nat, n: nat) { USERLO <= uva && uva + n <= USERHI && kva + n <= USERHI }

  /** Every address of the range is mapped. */
  ghost predicate AllMapped(v: Vm, p: nat, uva: nat, n: nat) {
    Shape(v) && forall a: nat :: uva <= a < uva + n ==> UserVa(p, a) && Entry(v, p, a) != 0
  }

  /** Either the bytes so far are in place, or some page before va could not be had. */
  ghost predicate CopiedSoFar(v: Vm, p: nat, uva: nat, x: seq<byte>, ok: bool, bad: nat) {
    if ok then Holds(v, p, uva, x)
    else
      && uva <= bad < uva + |x| && bad / PAGESIZE < (uva + |x| + PAGESIZE - 1) / PAGESIZE
      && UserVa(p, bad) && Shape(v) && Entry(v, p, bad) == 0
  }

  /** Rounds after the first start at a page boundary. */
  predicate AtPage(uva: nat, done: nat, n: nat) { 0 < done < n ==> (uva + done) % PAGESIZE == 0 }

  function Piece(va: nat, left: nat): (k: nat)
    requires left > 0
    ensures 1 <= k <= left && va % PAGESIZE + k <= PAGESIZE && (k < left ==> (va + k) % PAGESIZE == 0)
  {
    if left < PAGESIZE - va % PAGESIZE then left else PAGESIZE - va % PAGESIZE
  }

  /** A round of pt_copyout, with what is known of the bytes so far. */
  method PutNext(pg: Paging, src: seq<byte>, p: nat, uva: nat, copied: nat, ghost v: Vm, ghost balance: int,
                 ghost ok: bool, ghost bad: nat)
    returns (k: nat, ghost ok': bool, ghost bad': nat)
    requires Ready(pg, p) && 1 <= p < NUM_IDS && USERLO <= uva && uva + |src| <= USERHI && copied < |src|
    requires AtPage(uva, copied, |src|)
    requires Same(v, pg.Value(), p, uva, uva + copied) && CopiedSoFar(pg.Value(), p, uva, src[..copied], ok, bad)
    requires Ledger(balance, ok, Spare(pg, p), Need(pg.Value(), p, uva + copied, uva + |src|))
    requires OnlyIn(v, pg.Value(), p, uva, uva + copied)
    modifies pg`pdir, pg`mem, pg`role, pg.cont`own, pg.cont`lost, pg.cont.c, pg.cont.pages`hint, pg.cont.pages.at
    ensures Ready(pg, p) && 1 <= k <= |src| - copied && AtPage(uva, copied + k, |src|)
    ensures Same(v, pg.Value(), p, uva, uva + copied + k)
    ensures CopiedSoFar(pg.Value(), p, uva, src[..copied + k], ok', bad')
    ensures Ledger(balance, ok', Spare(pg, p), Need(pg.Value(), p, uva + copied + k, uva + |src|))
    ensures OnlyIn(v, pg.Value(), p, uva, uva + copied + k)
  {
    hide Same, Entry, Holds, Ready, Spare, Need, Cost, Ledger, OnlyIn;
    ghost var (v1, spare) := (pg.Value(), Spare(pg, p));
    k := Piece(uva + copied, |src| - copied);
    ghost var got := PutPiece(pg, p, uva + copied, src[copied..copied + k], v, uva, src[..copied]);
    assert src[..copied] + src[copied..copied + k] == src[..copied + k];
    ReadyFacts(pg, p);
    ok', bad' := ok && got, if ok then uva + copied else bad;
    LedgerStep(v1, pg.Value(), p, uva + copied, k, uva + |src|, balance, ok, spare, Spare(pg, p), got);
    OnlyInMore(v, v1, pg.Value(), p, uva, uva + copied, k);
    if !ok { StillUnmapped(v1, pg.Value(), p, uva + copied, bad); }
  }

  /**
   * pt_copyout. Nothing mapped moves, no byte outside the range changes, in this process or another;
   * and the bytes are in place exactly if the process had room for the pages and tables the range needs.
   */
  method CopyOut(pg: Paging, src: seq<byte>, kva: nat, p: nat, uva: nat) returns (copied: nat)
    requires Ready(pg, p) && 1 <= p < NUM_IDS && uva + |src| < U32 && kva + |src| < U32
    modifies pg`pdir, pg`mem, pg`role, pg.cont`own, pg.cont`lost, pg.cont.c, pg.cont.pages`hint, pg.cont.pages.at
    ensures Ready(pg, p)
    ensures copied == if InRange(uva, kva, |src|) then |src| else 0
    ensures Same(old(pg.Value()), pg.Value(), p, uva, uva + copied)
    ensures InRange(uva, kva, |src|) ==> (Holds(pg.Value(), p, uva, src) <==> AllMapped(pg.Value(), p, uva, |src|))
    ensures InRange(uva, kva, |src|) ==>
              (Holds(pg.Value(), p, uva, src) <==> old(Need(pg.Value(), p, uva, uva + |src|) <= Spare(pg, p)))
    ensures OnlyIn(old(pg.Value()), pg.Value(), p, uva, uva + copied)
    ensures copied > 0 && Holds(pg.Value(), p, uva, src) ==>
              Spare(pg, p) == old(Spare(pg, p) - Need(pg.Value(), p, uva, uva + |src|))
  {
    hide Same, Entry, Holds, Ready, CopiedSoFar, AllMapped, Shape, AtPage, Spare, Need, OnlyIn;
    ghost var v := pg.Value();
    ReadyFacts(pg, p);
    SameSelf(v, p, uva);
    OnlyInSelf(v, p, uva);
    copied := 0;
    if !(USERLO <= uva && uva + |src| <= USERHI) {
      return;
    }
    if kva + |src| > USERHI {
      return;
    }
    ghost var ok: bool, bad: nat := true, 0;
    ghost var balance := Spare(pg, p) - Need(v, p, uva, uva + |src|);
    SoFarNone(v, p, uva, |src|);
    while copied < |src|
      invariant copied <= |src| && Ready(pg, p)
      invariant AtPage(uva, copied, |src|)
      invariant Same(v, pg.Value(), p, uva, uva + copied)
      invariant CopiedSoFar(pg.Value(), p, uva, src[..copied], ok, bad)
      invariant Ledger(balance, ok, Spare(pg, p), Need(pg.Value(), p, uva + copied, uva + |src|))
      invariant OnlyIn(v, pg.Value(), p, uva, uva + copied)
    {
      var k: nat;
      k, ok, bad := PutNext(pg, src, p, uva, copied, v, balance, ok, bad);
      copied := copied + k;
    }
    assert src[..copied] == src;
    SoFarDone(pg.Value(), p, uva, src, ok, bad);
    NoNeed(pg.Value(), p, uva + |src|);
  }

  lemma SoFarNone(v: Vm, p: nat, uva: nat, n: nat)
    requires Shape(v)
    ensures CopiedSoFar(v, p, uva, [], true, 0) && AtPage(uva, 0, n)
  {
  }

  lemma SoFarDone(v: Vm, p: nat, uva: nat, x: seq<byte>, ok: bool, bad: nat)
    requires CopiedSoFar(v, p, uva, x, ok, bad)
    ensures (Holds(v, p, uva, x) <==> AllMapped(v, p, uva, |x|)) && (Holds(v, p, uva, x) <==> ok)
  {
    hide Entry, Byte;
    if !ok { assert !AllMapped(v, p, uva, |x|); }
  }

  lemma StillUnmapped(v: Vm, v': Vm, p: nat, va: nat, bad: nat)
    requires OthersAsWere(v, v', p, va) && UserVa(p, bad) && bad / PAGESIZE < va / PAGESIZE && Entry(v, p, bad) == 0
    ensures Entry(v', p, bad) == 0
  {
  }

  lemma ReadPiece(v: Vm, role: Roles, p: nat, va: nat, k: nat)
    requires PageTables.Owned(v, role) && UserVa(p, va) && Entry(v, p, va) != 0 && va % PAGESIZE + k <= PAGESIZE
    ensures var g := Entry(v, p, va) / PAGESIZE;
            g < |v.mem| && Holds(v, p, va, v.mem[g][va % PAGESIZE..va % PAGESIZE + k])
  {
    hide PageTables.Owned, Entry;
    OwnedFacts(v, role);
    DataFrame(v, role, p, va);
    forall a: nat | va <= a < va + k
      ensures UserVa(p, a) && Entry(v, p, a) != 0
      ensures Byte(v, p, a) == v.mem[Entry(v, p, va) / PAGESIZE][va % PAGESIZE..va % PAGESIZE + k][a - va]
    {
      OnePage(v, p, va, a);
      assert a % PAGESIZE == va % PAGESIZE + (a - va);
    }
  }

  lemma HoldsMore(v: Vm, v': Vm, p: nat, lo: nat, va: nat, x: seq<byte>, y: seq<byte>)
    requires Holds(v, p, lo, x) && Same(v, v', p, va, va) && Holds(v', p, va, y) && lo + |x| == va
    ensures Holds(v', p, lo, x + y)
  {
    hide Entry, Byte;
  }

  /** One round of pt_copyin. */
  method GetPiece(pg: Paging, p: nat, va: nat, k: nat) returns (y: seq<byte>, ghost ok: bool)
    requires Ready(pg, p) && UserVa(p, va) && va % PAGESIZE + k <= PAGESIZE
    modifies pg`pdir, pg`mem, pg`role, pg.cont`own, pg.cont`lost, pg.cont.c, pg.cont.pages`hint, pg.cont.pages.at
    ensures Ready(pg, p) && Same(old(pg.Value()), pg.Value(), p, va, va) && |y| == k
    ensures old(Entry(pg.Value(), p, va)) != 0 ==> pg.Value() == old(pg.Value())
    ensures (ok ==> Holds(pg.Value(), p, va, y)) && (ok <==> Entry(pg.Value(), p, va) != 0)
    ensures OthersAsWere(old(pg.Value()), pg.Value(), p, va) && SlotsBut(old(pg.Value()), pg.Value(), p, PdIndex(va))
    ensures ok <==> old(Spare(pg, p) >= Cost(pg.Value(), p, va))
    ensures ok ==> Spare(pg, p) == old(Spare(pg, p) - Cost(pg.Value(), p, va))
  {
    hide Containers.Valid, PageTables.Owned, IdentityPdes, IdentityTables, Live, Same, Entry, Holds, Cost, Room;
    var e := Present(pg, p, va);
    pg.Facts();
    ok := e != 0;
    var f := e / PAGESIZE;
    if ok { ReadPiece(pg.Value(), pg.role, p, va, k); }
    y := pg.mem[f][va % PAGESIZE..va % PAGESIZE + k];
  }

  /** A round of pt_copyin, with what is known of the bytes so far. */
  method GetNext(pg: Paging, p: nat, uva: nat, dst: seq<byte>, n: nat, ghost balance: int, ghost ok: bool,
                 ghost bad: nat)
    returns (y: seq<byte>, ghost ok': bool, ghost bad': nat)
    requires Ready(pg, p) && 1 <= p < NUM_IDS && USERLO <= uva && uva + n <= USERHI && |dst| < n
    requires AtPage(uva, |dst|, n) && CopiedSoFar(pg.Value(), p, uva, dst, ok, bad)
    requires Ledger(balance, ok, Spare(pg, p), Need(pg.Value(), p, uva + |dst|, uva + n))
    modifies pg`pdir, pg`mem, pg`role, pg.cont`own, pg.cont`lost, pg.cont.c, pg.cont.pages`hint, pg.cont.pages.at
    ensures Ready(pg, p) && 1 <= |y| <= n - |dst| && AtPage(uva, |dst| + |y|, n)
    ensures Same(old(pg.Value()), pg.Value(), p, uva + |dst|, uva + |dst|)
    ensures CopiedSoFar(pg.Value(), p, uva, dst + y, ok', bad')
    ensures old(AllMapped(pg.Value(), p, uva, n)) ==> pg.Value() == old(pg.Value())
    ensures Ledger(balance, ok', Spare(pg, p), Need(pg.Value(), p, uva + |dst| + |y|, uva + n))
  {
    hide Same, Entry, Holds, Ready, Spare, Need, Cost, Ledger;
    ghost var (v1, spare) := (pg.Value(), Spare(pg, p));
    var va := uva + |dst|;
    ghost var got: bool;
    y, got := GetPiece(pg, p, va, Piece(va, n - |dst|));
    ReadyFacts(pg, p);
    ok', bad' := ok && got, if ok then va else bad;
    LedgerStep(v1, pg.Value(), p, va, |y|, uva + n, balance, ok, spare, Spare(pg, p), got);
    if ok && got {
      HoldsMore(v1, pg.Value(), p, uva, va, dst, y);
    } else if !ok {
      StillUnmapped(v1, pg.Value(), p, va, bad);
    }
  }

  /** pt_copyin: the bytes of the range, exactly if there was room for what the range needs. It changes no byte. */
  method CopyIn(pg: Paging, p: nat, uva: nat, kva: nat, n: nat) returns (dst: seq<byte>)
    requires Ready(pg, p) && 1 <= p < NUM_IDS && uva + n < U32 && kva + n < U32
    modifies pg`pdir, pg`mem, pg`role, pg.cont`own, pg.cont`lost, pg.cont.c, pg.cont.pages`hint, pg.cont.pages.at
    ensures Ready(pg, p) && |dst| == if InRange(uva, kva, n) then n else 0
    ensures Same(old(pg.Value()), pg.Value(), p, uva, uva)
    ensures InRange(uva, kva, n) && AllMapped(pg.Value(), p, uva, n) ==> Holds(pg.Value(), p, uva, dst)
    ensures InRange(uva, kva, n) ==>
              (Holds(pg.Value(), p, uva, dst) <==> old(Need(pg.Value(), p, uva, uva + n) <= Spare(pg, p)))
    ensures old(AllMapped(pg.Value(), p, uva, n)) ==> pg.Value() == old(pg.Value())
  {
    hide Same, Entry, Holds, Ready, CopiedSoFar, AllMapped, Shape, AtPage, Spare, Need;
    ghost var v := pg.Value();
    ReadyFacts(pg, p);
    SameSelf(v, p, uva);
    dst := [];
    if !(USERLO <= uva && uva + n <= USERHI) {
      return;
    }
    if kva + n > USERHI {
      return;
    }
    ghost var ok: bool, bad: nat := true, 0;
    ghost var balance := Spare(pg, p) - Need(v, p, uva, uva + n);
    SoFarNone(v, p, uva, n);
    while |dst| < n
      invariant |dst| <= n && Ready(pg, p)
      invariant AtPage(uva, |dst|, n)
      invariant Same(v, pg.Value(), p, uva, uva)
      invariant AllMapped(v, p, uva, n) ==> pg.Value() == v
      invariant CopiedSoFar(pg.Value(), p, uva, dst, ok, bad)
      invariant Ledger(balance, ok, Spare(pg, p), Need(pg.Value(), p, uva + |dst|, uva + n))
    {
      ghost var v1 := pg.Value();
      var y: seq<byte>;
      y, ok, bad := GetNext(pg, p, uva, dst, n, balance, ok, bad);
      SameTwice(v, v1, pg.Value(), p, uva, uva + |dst|);
      dst := dst + y;
    }
    SoFarDone(pg.Value(), p, uva, dst, ok, bad);
    NoNeed(pg.Value(), p, uva + n);
  }

  lemma SameTwice(v: Vm, v1: Vm, v2: Vm, p: nat, lo: nat, va: nat)
    requires Same(v, v1, p, lo, lo) && Same(v1, v2, p, va, va)
    ensures Same(v, v2, p, lo, lo)
  {
  }

  lemma HoldsOnce(v: Vm, p: nat, uva: nat, x: seq<byte>, y: seq<byte>)
    requires Holds(v, p, uva, x) && Holds(v, p, uva, y) && |x| == |y|
    ensures x == y
  {
    forall i | 0 <= i < |x| ensures x[i] == y[i] {
      assert Byte(v, p, uva + i) == x[i] == y[i];
    }
  }

  /**
   * Copying out and back in returns the same bytes, whatever the length and alignment, if the process had room
   * for what the range needs; a range that is mapped needs nothing.
   */
  method CopyOutThenIn(pg: Paging, src: seq<byte>, kva: nat, p: nat, uva: nat) returns (back: seq<byte>)
    requires Ready(pg, p) && 1 <= p < NUM_IDS && InRange(uva, kva, |src|)
    modifies pg`pdir, pg`mem, pg`role, pg.cont`own, pg.cont`lost, pg.cont.c, pg.cont.pages`hint, pg.cont.pages.at
    ensures Ready(pg, p) && Same(old(pg.Value()), pg.Value(), p, uva, uva + |src|)
    ensures old(Need(pg.Value(), p, uva, uva + |src|) <= Spare(pg, p)) ==>
              back == src && AllMapped(pg.Value(), p, uva, |src|)
    ensures old(AllMapped(pg.Value(), p, uva, |src|)) ==> back == src
  {
    hide Same, Entry, Holds, Ready, AllMapped, Spare, Need;
    ghost var (v, enough) := (pg.Value(), Need(pg.Value(), p, uva, uva + |src|) <= Spare(pg, p));
    var n := CopyOut(pg, src, kva, p, uva);
    ghost var v1 := pg.Value();
    if AllMapped(v, p, uva, |src|) { MappedNeedsNothing(v, p, uva, |src|); }
    back := CopyIn(pg, p, uva, kva, |src|);
    if enough { HoldsOnce(pg.Value(), p, uva, src, back); }
    SameAfter(v, v1, pg.Value(), p, uva, uva + |src|);
  }

  lemma SameAfter(v: Vm, v1: Vm, v2: Vm, p: nat, lo: nat, hi: nat)
    requires Same(v, v1, p, lo, hi) && Same(v1, v2, p, lo, lo)
    ensures Same(v, v2, p, lo, hi)
  {
  }

  // ---- a copy that is lost ------------------------------------------------------------------

  lemma UnmappedNeeds(v: Vm, p: nat, uva: nat, n: nat)
    requires Shape(v) && 1 <= p < NUM_IDS && USERLO <= uva && uva + n <= USERHI && !AllMapped(v, p, uva, n)
    ensures Need(v, p, uva, uva + n) > 0
  {
    hide Entry;
    var a: nat :| uva <= a < uva + n && Entry(v, p, a) == 0;
    PageBase(v, p, a);
    assert a / PAGESIZE in MissingPages(v, p, uva, uva + n);
  }

  /** With quota left but free pages only up to the hint, pt_copyout reports success and the bytes are lost. */
  method LostCopy(pg: Paging, src: seq<byte>, kva: nat, p: nat, uva: nat) returns (copied: nat)
    requires Ready(pg, p) && 1 <= p < NUM_IDS && InRange(uva, kva, |src|) && !AllMapped(pg.Value(), p, uva, |src|)
    requires pg.cont.c[p].usage < pg.cont.c[p].quota
    requires forall g: nat :: pg.cont.pages.hint < g ==> !PageAlloc.FreeAt(pg.cont.pages.at[..], g)
    modifies pg`pdir, pg`mem, pg`role, pg.cont`own, pg.cont`lost, pg.cont.c, pg.cont.pages`hint, pg.cont.pages.at
    ensures copied == |src| && !Holds(pg.Value(), p, uva, src)
  {
    hide Same, Entry, Holds, AllMapped, Need, Containers.Valid, PageTables.Owned, IdentityPdes, IdentityTables, Live;
    ReadyFacts(pg, p);
    UnmappedNeeds(pg.Value(), p, uva, |src|);
    BelowHintIsLost(pg.cont.c[..], pg.cont.pages.at[..], pg.cont.pages.hint, p);
    copied := CopyOut(pg, src, kva, p, uva);
  }

  lemma OneFree(at: seq<PageAlloc.Entry>, p: nat)
    requires 1 <= p && forall g: nat :: PageAlloc.FreeAt(at, g) <==> g == p
    ensures FreeFrom(at, 1) == {p}
  {
    assert PageAlloc.FreeAt(at, p);
  }

  /** Such a machine: its one normal page is the first of user space, where pmem_init leaves the hint. */
  method SmallMachine() returns (pg: Paging)
    ensures Ready(pg, 1) && pg.cont.c[1].usage < pg.cont.c[1].quota && PageAlloc.FreeAt(pg.cont.pages.at[..], 262144)
    ensures forall g: nat :: pg.cont.pages.hint < g ==> !PageAlloc.FreeAt(pg.cont.pages.at[..], g)
    ensures !AllMapped(pg.Value(), 1, USERLO, 1)
  {
    hide Containers.Valid, PageTables.Owned, IdentityPdes, IdentityTables, Inv, FreeFrom;
    var table := seq(262145, i => PageAlloc.Entry(if i == 262144 then 2 else 1, 0));
    var pages := new PageAlloc.Pages(table);
    var cont := new Containers(pages);
    OneFree(table, 262144);
    var child := cont.Split(0, 1);
    pg := new Paging(cont, seq(262145, _ => ZeroFrame()), 1);
    pg.Facts();
    assert Pde(pg.Value(), 1, 256) == 0;
    assert Entry(pg.Value(), 1, USERLO) == 0;
  }
}
