/** Memory quotas: a tree of containers, each of which pays for its pages and its children's quotas. */
module Container {
  import opened Common
  import opened PageAlloc
  import opened Words

  datatype Cont = Cont(quota: nat, usage: nat, parent: nat, nch: nat, used: bool)

  type Conts = s: seq<Cont> | |s| == NUM_IDS witness seq(NUM_IDS, _ => Cont(0, 0, 0, 0, false))

  /** Which container owns which allocated page. */
  type Owners = map<nat, nat>

  /** How often each container has been charged for a page that was not found. */
  type Lost = s: seq<nat> | |s| == NUM_IDS witness seq(NUM_IDS, _ => 0)

  /** i is the root, or one of the children its parent has split off. */
  predicate Live(cs: Conts, i: nat) {
    i == 0 || (i < NUM_IDS && (i - 1) % MAX_CHILDREN < cs[(i - 1) / MAX_CHILDREN].nch)
  }

  function LiveQuota(cs: Conts, i: nat): nat { if i < NUM_IDS && Live(cs, i) then cs[i].quota else 0 }

  function ChildQuota(cs: Conts, i: nat): nat {
    LiveQuota(cs, 3 * i + 1) + LiveQuota(cs, 3 * i + 2) + LiveQuota(cs, 3 * i + 3)
  }

  function Held(own: Owners, i: nat): set<nat> { set p | p in own && own[p] == i }

  /** Container i in the tree: only live containers have children, and a child knows its parent. */
  predicate Rooted(cs: Conts, i: nat)
    requires i < NUM_IDS
  {
    && cs[i].nch <= MAX_CHILDREN && (cs[i].nch > 0 ==> Live(cs, i) && 3 * i + 3 < NUM_IDS)
    && (i >= 1 && Live(cs, i) ==> cs[i].parent == (i - 1) / MAX_CHILDREN && cs[i].used)
  }

  /**
   * The books of one container, exactly: it is charged for its pages, its children's quotas and the charges that
   * found no page, and the sum is within its quota.
   */
  predicate Balanced(cs: Conts, own: Owners, lost: Lost, i: nat)
    requires i < NUM_IDS
  {
    Live(cs, i) ==> |Held(own, i)| + ChildQuota(cs, i) + lost[i] == cs[i].usage <= cs[i].quota
  }

  ghost predicate Tree(cs: Conts) { forall i :: 0 <= i < NUM_IDS ==> Rooted(cs, i) }

  ghost predicate Books(cs: Conts, own: Owners, lost: Lost) {
    && (forall i :: 0 <= i < NUM_IDS ==> Balanced(cs, own, lost, i))
    && (forall p :: p in own ==> own[p] < NUM_IDS && Live(cs, own[p]))
  }

  /** base are the pages that were free at the start; exactly the owned ones among them are allocated. */
  ghost predicate Table(at: seq<Entry>, own: Owners, base: set<nat>) {
    && (forall p :: p in base ==> 1 <= p < |at| && at[p].perm > 1 && (at[p].used != 0 <==> p in own))
    && (forall p :: p in own ==> p in base) && (|at| > 0 ==> at[0].used == 0)
    && (forall p :: 1 <= p < |at| && FreeAt(at, p) ==> p in base)
  }

  ghost predicate Inv(cs: Conts, own: Owners, lost: Lost, at: seq<Entry>, base: set<nat>) {
    Tree(cs) && Books(cs, own, lost) && Table(at, own, base) && cs[0].quota == |base|
  }

  /** A parent has a smaller number than its child. */
  lemma ParentsDecrease(cs: Conts, own: Owners, lost: Lost, at: seq<Entry>, base: set<nat>, i: nat)
    requires Inv(cs, own, lost, at, base) && 1 <= i < NUM_IDS && Live(cs, i)
    ensures cs[i].parent < i && Live(cs, cs[i].parent)
  {
    assert Rooted(cs, i) && Rooted(cs, (i - 1) / MAX_CHILDREN);
  }

  /** The container n parents up from i; the root is its own ancestor. */
  function Ancestor(cs: Conts, i: nat, n: nat): nat {
    if n == 0 then i else var a := Ancestor(cs, i, n - 1); if 0 < a < NUM_IDS then cs[a].parent else 0
  }

  /** Following parents from any live container stays among live containers and reaches the root. */
  lemma ReachesRoot(cs: Conts, own: Owners, lost: Lost, at: seq<Entry>, base: set<nat>, i: nat, n: nat)
    requires Inv(cs, own, lost, at, base) && i < NUM_IDS && Live(cs, i)
    ensures var a := Ancestor(cs, i, n); Live(cs, a) && a < NUM_IDS && (a == 0 || a + n <= i)
    ensures Ancestor(cs, i, i) == 0
  {
    AncestorBelow(cs, own, lost, at, base, i, n);
    AncestorBelow(cs, own, lost, at, base, i, i);
  }

  lemma {:induction false} AncestorBelow(cs: Conts, own: Owners, lost: Lost, at: seq<Entry>, base: set<nat>, i: nat,
                                         n: nat)
    requires Inv(cs, own, lost, at, base) && i < NUM_IDS && Live(cs, i)
    ensures var a := Ancestor(cs, i, n); Live(cs, a) && a < NUM_IDS && (a == 0 || a + n <= i)
  {
    if n > 0 {
      AncestorBelow(cs, own, lost, at, base, i, n - 1);
      var a := Ancestor(cs, i, n - 1);
      if a > 0 { ParentsDecrease(cs, own, lost, at, base, a); }
    }
  }

  // ---- the sum over the tree ------------------------------------------------------------

  function SumUsage(cs: Conts, n: nat): nat
    requires n <= NUM_IDS
  {
    if n == 0 then 0 else SumUsage(cs, n - 1) + if Live(cs, n - 1) then cs[n - 1].usage else 0
  }

  function SumChildQuota(cs: Conts, n: nat): nat
    requires n <= NUM_IDS
  {
    if n == 0 then 0 else SumChildQuota(cs, n - 1) + ChildQuota(cs, n - 1)
  }

  /** The quotas of the live containers 1 .. m. */
  function SumQuota(cs: Conts, m: nat): nat { if m == 0 then 0 else SumQuota(cs, m - 1) + LiveQuota(cs, m) }

  /** Every container but the root is some container's child, once. */
  lemma {:induction false} ChildrenCovered(cs: Conts, n: nat)
    requires n <= NUM_IDS
    ensures SumChildQuota(cs, n) == SumQuota(cs, 3 * n)
  {
    if n > 0 {
      ChildrenCovered(cs, n - 1);
      assert SumQuota(cs, 3 * n - 2) == SumQuota(cs, 3 * n - 3) + LiveQuota(cs, 3 * n - 2);
      assert SumQuota(cs, 3 * n - 1) == SumQuota(cs, 3 * n - 2) + LiveQuota(cs, 3 * n - 1);
      assert SumQuota(cs, 3 * n) == SumQuota(cs, 3 * n - 1) + LiveQuota(cs, 3 * n);
    }
  }

  lemma {:induction false} NoneBeyond(cs: Conts, m: nat)
    requires m >= NUM_IDS - 1
    ensures SumQuota(cs, m) == SumQuota(cs, NUM_IDS - 1)
  {
    if m > NUM_IDS - 1 { NoneBeyond(cs, m - 1); }
  }

  function HeldBelow(own: Owners, n: nat): set<nat> { set p | p in own && own[p] < n }

  lemma HeldStep(own: Owners, n: nat)
    requires n > 0
    ensures |HeldBelow(own, n)| == |HeldBelow(own, n - 1)| + |Held(own, n - 1)|
  {
    assert HeldBelow(own, n) == HeldBelow(own, n - 1) + Held(own, n - 1);
    assert HeldBelow(own, n - 1) * Held(own, n - 1) == {};
  }

  lemma NotHeld(cs: Conts, own: Owners, lost: Lost, i: nat)
    requires Books(cs, own, lost) && !Live(cs, i)
    ensures Held(own, i) == {}
  {
  }

  lemma {:induction false} PagesFit(cs: Conts, own: Owners, lost: Lost, n: nat)
    requires Tree(cs) && Books(cs, own, lost) && n <= NUM_IDS
    ensures |HeldBelow(own, n)| + SumChildQuota(cs, n) <= SumUsage(cs, n)
  {
    if n == 0 {
      assert HeldBelow(own, 0) == {};
    } else {
      PagesFit(cs, own, lost, n - 1);
      HeldStep(own, n);
      assert Balanced(cs, own, lost, n - 1) && Rooted(cs, n - 1);
      hide Live, ChildQuota, Held, HeldBelow;
      if !Live(cs, n - 1) {
        NotHeld(cs, own, lost, n - 1);
        NoChildren(cs, n - 1);
      }
    }
  }

  lemma NoChildren(cs: Conts, i: nat)
    requires i < NUM_IDS && cs[i].nch == 0
    ensures ChildQuota(cs, i) == 0
  {
    assert (3 * i + 1 - 1) / 3 == i && (3 * i + 2 - 1) / 3 == i && (3 * i + 3 - 1) / 3 == i;
  }

  /** Usage is below quota, strictly so in total when strictly so for container k < n. */
  lemma {:induction false} UsageFits(cs: Conts, own: Owners, lost: Lost, n: nat, k: nat)
    requires Tree(cs) && Books(cs, own, lost) && 1 <= n <= NUM_IDS && k < NUM_IDS && Live(cs, k)
    requires cs[k].usage < cs[k].quota
    ensures SumUsage(cs, n) + (if k < n then 1 else 0) <= cs[0].quota + SumQuota(cs, n - 1)
  {
    assert Balanced(cs, own, lost, n - 1) && Balanced(cs, own, lost, k);
    hide Live, ChildQuota, Held;
    assert SumUsage(cs, 0) == 0 && SumQuota(cs, 0) == 0;
    if n > 1 { UsageFits(cs, own, lost, n - 1, k); }
  }

  /** Whenever any container is below its quota, some normal page is free. */
  lemma BelowQuotaMeansFree(cs: Conts, own: Owners, lost: Lost, at: seq<Entry>, base: set<nat>, k: nat) returns (p: nat)
    requires Inv(cs, own, lost, at, base) && k < NUM_IDS && Live(cs, k) && cs[k].usage < cs[k].quota
    ensures 1 <= p && FreeAt(at, p)
  {
    PagesFit(cs, own, lost, NUM_IDS);
    ChildrenCovered(cs, NUM_IDS);
    NoneBeyond(cs, 3 * NUM_IDS);
    UsageFits(cs, own, lost, NUM_IDS, k);
    assert HeldBelow(own, NUM_IDS) == own.Keys;
    assert |own.Keys| < |base|;
    p := SomeMissing(base, own.Keys);
  }

  lemma {:induction false} SomeMissing(a: set<nat>, b: set<nat>) returns (p: nat)
    requires |b| < |a|
    ensures p in a && p !in b
  {
    p :| p in a;
    if p in b { p := SomeMissing(a - {p}, b - {p}); }
  }

  // ---- container_split --------------------------------------------------------------------

  function Child(cs: Conts, id: nat): nat
    requires id < NUM_IDS
  {
    id * MAX_CHILDREN + 1 + cs[id].nch
  }

  predicate CanHaveChild(cs: Conts, id: nat) {
    id < NUM_IDS && Live(cs, id) && id * MAX_CHILDREN + 1 + MAX_CHILDREN <= NUM_IDS && cs[id].nch < MAX_CHILDREN
  }

  /** What sys_spawn checks before it splits: the quota fits, and the process may have another child. */
  predicate CanSplit(cs: Conts, id: nat, q: nat) { CanHaveChild(cs, id) && cs[id].usage + q <= cs[id].quota }

  function SplitOff(cs: Conts, id: nat, q: nat): Conts
    requires CanHaveChild(cs, id)
  {
    var ch := Child(cs, id);
    cs[ch := Cont(q, 0, id, 0, true)][id := cs[id].(usage := cs[id].usage + q, nch := cs[id].nch + 1)]
  }

  /** The child's number is new, and nobody else comes to life. */
  lemma SplitLive(cs: Conts, id: nat, q: nat, i: nat)
    requires CanHaveChild(cs, id) && Tree(cs)
    ensures !Live(cs, Child(cs, id)) && (Live(SplitOff(cs, id, q), i) <==> Live(cs, i) || i == Child(cs, id))
  {
    var ch := Child(cs, id);
    assert (ch - 1) / MAX_CHILDREN == id && (ch - 1) % MAX_CHILDREN == cs[id].nch;
    assert Rooted(cs, ch);
    if 1 <= i < NUM_IDS {
      assert i == (i - 1) / MAX_CHILDREN * MAX_CHILDREN + (i - 1) % MAX_CHILDREN + 1;
    }
  }

  lemma SplitTree(cs: Conts, id: nat, q: nat)
    requires CanHaveChild(cs, id) && Tree(cs)
    ensures Tree(SplitOff(cs, id, q))
  {
    var ch := Child(cs, id);
    assert (ch - 1) / MAX_CHILDREN == id;
    forall i | 0 <= i < NUM_IDS ensures Rooted(SplitOff(cs, id, q), i) {
      SplitLive(cs, id, q, i);
      assert Rooted(cs, i);
      hide Live;
    }
  }

  lemma SplitQuota(cs: Conts, id: nat, q: nat, i: nat)
    requires CanHaveChild(cs, id) && Tree(cs)
    ensures LiveQuota(SplitOff(cs, id, q), i) == if i == Child(cs, id) then q else LiveQuota(cs, i)
  {
    SplitLive(cs, id, q, i);
    hide Live;
  }

  lemma SplitChildQuota(cs: Conts, id: nat, q: nat, i: nat)
    requires CanHaveChild(cs, id) && Tree(cs) && i < NUM_IDS
    ensures ChildQuota(SplitOff(cs, id, q), i) == ChildQuota(cs, i) + if i == id then q else 0
  {
    SplitQuota(cs, id, q, 3 * i + 1);
    SplitQuota(cs, id, q, 3 * i + 2);
    SplitQuota(cs, id, q, 3 * i + 3);
    SplitLive(cs, id, q, 0);
    hide Live, SplitOff;
  }

  lemma SplitKeeps(cs: Conts, own: Owners, lost: Lost, at: seq<Entry>, base: set<nat>, id: nat, q: nat)
    requires Inv(cs, own, lost, at, base) && CanSplit(cs, id, q)
    ensures Inv(SplitOff(cs, id, q), own, lost[Child(cs, id) := 0], at, base) && !Live(cs, Child(cs, id))
    ensures Live(SplitOff(cs, id, q), Child(cs, id))
  {
    var (cs', ch) := (SplitOff(cs, id, q), Child(cs, id));
    var lost' := lost[ch := 0];
    SplitTree(cs, id, q);
    SplitLive(cs, id, q, ch);
    NotHeld(cs, own, lost, ch);
    forall i | 0 <= i < NUM_IDS ensures Balanced(cs', own, lost', i) {
      SplitBalanced(cs, own, lost, id, q, i);
    }
    forall p | p in own ensures Live(cs', own[p]) { SplitLive(cs, id, q, own[p]); }
    hide Live, Held, ChildQuota, Rooted, Balanced;
  }

  lemma SplitBalanced(cs: Conts, own: Owners, lost: Lost, id: nat, q: nat, i: nat)
    requires Tree(cs) && Books(cs, own, lost) && CanSplit(cs, id, q) && i < NUM_IDS
    ensures Balanced(SplitOff(cs, id, q), own, lost[Child(cs, id) := 0], i)
  {
    SplitLive(cs, id, q, i);
    SplitChildQuota(cs, id, q, i);
    assert Balanced(cs, own, lost, i) && Rooted(cs, i);
    if i == Child(cs, id) {
      NotHeld(cs, own, lost, i);
      NoChildren(cs, i);
    }
    hide Live, ChildQuota, Held;
  }

  /** container_can_consume in 32-bit arithmetic. */
  predicate CanConsume(usage: nat, quota: nat, n: nat) { (usage + n) % U32 <= quota }

  /** It answers wrongly exactly when the sum wraps around to something within the quota. */
  lemma CanConsumeIff(usage: nat, quota: nat, n: nat)
    requires usage <= quota < U32 && n < U32
    ensures (CanConsume(usage, quota, n) <==> usage + n <= quota) <==> !(U32 <= usage + n <= U32 + quota)
  {
  }

  /** container_split as it runs: the parent's usage wraps around in 32 bits. */
  function SplitWrapping(cs: Conts, id: nat, q: nat): Conts
    requires CanHaveChild(cs, id)
  {
    Used(SplitOff(cs, id, q), id, (cs[id].usage + q) % U32)
  }

  /**
   * A split that container_can_consume lets through keeps the parent's books exactly if the sum does not
   * wrap around; otherwise the child's quota alone exceeds what the parent is charged.
   */
  lemma SplitBooksIff(cs: Conts, own: Owners, lost: Lost, at: seq<Entry>, base: set<nat>, id: nat, q: nat)
    requires Inv(cs, own, lost, at, base) && CanHaveChild(cs, id) && CanConsume(cs[id].usage, cs[id].quota, q)
    requires cs[id].quota < U32 && q < U32
    ensures Balanced(SplitWrapping(cs, id, q), own, lost, id) <==> cs[id].usage + q <= cs[id].quota
    ensures cs[id].usage + q > cs[id].quota ==> SplitWrapping(cs, id, q)[id].usage < q
  {
    assert Balanced(cs, own, lost, id);
    SplitLive(cs, id, q, id);
    SplitChildQuota(cs, id, q, id);
    UsedTree(SplitOff(cs, id, q), id, (cs[id].usage + q) % U32, id);
    hide Live, ChildQuota, Held;
  }

  /** A container that has used one page may be asked for a quota of 2^32 - 1, and its usage is then 0. */
  lemma WrappedSplit(cs: Conts, id: nat)
    requires CanHaveChild(cs, id) && cs[id].usage == 1
    ensures CanConsume(cs[id].usage, cs[id].quota, 0xFFFF_FFFF)
    ensures var cs' := SplitWrapping(cs, id, 0xFFFF_FFFF); cs'[id].usage == 0 && cs'[Child(cs, id)].quota == 0xFFFF_FFFF
  {
  }

  // ---- container_alloc and container_free -----------------------------------------------------

  function Used(cs: Conts, id: nat, u: nat): Conts
    requires id < NUM_IDS
  {
    cs[id := cs[id].(usage := u)]
  }

  /** Usage alone does not change the tree. */
  lemma UsedTree(cs: Conts, id: nat, u: nat, i: nat)
    requires id < NUM_IDS
    ensures (Live(Used(cs, id, u), i) <==> Live(cs, i)) && ChildQuota(Used(cs, id, u), i) == ChildQuota(cs, i)
  {
    forall j ensures Live(Used(cs, id, u), j) <==> Live(cs, j) { }
    assert forall j :: 0 <= j < NUM_IDS ==> Used(cs, id, u)[j].quota == cs[j].quota;
    hide Live, Used;
  }

  lemma UsedKeepsTree(cs: Conts, id: nat, u: nat)
    requires id < NUM_IDS && Tree(cs)
    ensures Tree(Used(cs, id, u))
  {
    forall i | 0 <= i < NUM_IDS ensures Rooted(Used(cs, id, u), i) {
      UsedTree(cs, id, u, i);
      assert Rooted(cs, i);
      hide Live;
    }
  }

  /** Charging a container for a page that is not found. */
  lemma ChargeKeeps(cs: Conts, own: Owners, lost: Lost, at: seq<Entry>, base: set<nat>, id: nat)
    requires Inv(cs, own, lost, at, base) && id < NUM_IDS && cs[id].usage < cs[id].quota
    ensures Inv(Used(cs, id, cs[id].usage + 1), own, lost[id := lost[id] + 1], at, base)
  {
    var cs' := Used(cs, id, cs[id].usage + 1);
    var lost' := lost[id := lost[id] + 1];
    UsedKeepsTree(cs, id, cs[id].usage + 1);
    forall i | 0 <= i < NUM_IDS ensures Balanced(cs', own, lost', i) {
      UsedTree(cs, id, cs[id].usage + 1, i);
      assert Balanced(cs, own, lost, i);
      hide Live, ChildQuota, Held;
    }
    forall p | p in own ensures Live(cs', own[p]) { UsedTree(cs, id, cs[id].usage + 1, own[p]); }
  }

  lemma HeldMore(own: Owners, p: nat, id: nat, i: nat)
    requires p !in own
    ensures Held(own[p := id], i) == if i == id then Held(own, i) + {p} else Held(own, i)
  {
  }

  /** A page from palloc goes to the container that pays for it. */
  lemma AllocKeeps(cs: Conts, own: Owners, lost: Lost, at: seq<Entry>, base: set<nat>, id: nat, p: nat)
    requires Inv(cs, own, lost, at, base) && id < NUM_IDS && Live(cs, id) && cs[id].usage < cs[id].quota && 1 <= p
    requires FreeAt(at, p)
    ensures p in base && p !in own
    ensures Inv(Used(cs, id, cs[id].usage + 1), own[p := id], lost, at[p := at[p].(used := 1)], base)
  {
    var u := cs[id].usage + 1;
    var (cs', own') := (Used(cs, id, u), own[p := id]);
    UsedKeepsTree(cs, id, u);
    forall i | 0 <= i < NUM_IDS ensures Balanced(cs', own', lost, i) {
      UsedTree(cs, id, u, i);
      HeldMore(own, p, id, i);
      assert Balanced(cs, own, lost, i);
      hide Live, ChildQuota, Held;
    }
    forall r | r in own' ensures own'[r] < NUM_IDS && Live(cs', own'[r]) { UsedTree(cs, id, u, own'[r]); }
    AllocTable(at, own, base, id, p);
  }

  lemma AllocTable(at: seq<Entry>, own: Owners, base: set<nat>, id: nat, p: nat)
    requires Table(at, own, base) && 1 <= p && FreeAt(at, p)
    ensures Table(at[p := at[p].(used := 1)], own[p := id], base)
  {
  }

  lemma HeldLess(own: Owners, p: nat, i: nat)
    requires p in own
    ensures Held(own - {p}, i) == if i == own[p] then Held(own, i) - {p} else Held(own, i)
  {
  }

  /** Freeing an owned page takes one off its owner's usage. */
  lemma FreeKeeps(cs: Conts, own: Owners, lost: Lost, at: seq<Entry>, base: set<nat>, p: nat)
    requires Inv(cs, own, lost, at, base) && p in own
    ensures p < |at| && own[p] < NUM_IDS && cs[own[p]].usage > 0
    ensures Inv(Used(cs, own[p], cs[own[p]].usage - 1), own - {p}, lost, at[p := at[p].(used := 0)], base)
  {
    var id := own[p];
    assert p in Held(own, id);
    assert Balanced(cs, own, lost, id);
    assert |Held(own, id)| >= 1 by { assert {p} <= Held(own, id); assert |Held(own, id) - {p}| == |Held(own, id)| - 1; }
    var u := cs[id].usage - 1;
    var (cs', own') := (Used(cs, id, u), own - {p});
    UsedKeepsTree(cs, id, u);
    forall i | 0 <= i < NUM_IDS ensures Balanced(cs', own', lost, i) {
      UsedTree(cs, id, u, i);
      HeldLess(own, p, i);
      assert Balanced(cs, own, lost, i);
      hide Live, ChildQuota, Held;
    }
    forall r | r in own' ensures own'[r] < NUM_IDS && Live(cs', own'[r]) { UsedTree(cs, id, u, own'[r]); }
    FreeTable(at, own, base, p);
  }

  /** A freed page is a page of quota again: the next call finds whatever palloc would find. */
  lemma FreeThenAlloc(cs: Conts, own: Owners, lost: Lost, at: seq<Entry>, base: set<nat>, hint: nat, p: nat)
    requires Inv(cs, own, lost, at, base) && p in own
    ensures p < |at| && own[p] < NUM_IDS && cs[own[p]].usage > 0
    ensures var (id, at') := (own[p], at[p := at[p].(used := 0)]);
            && Next(Used(cs, id, cs[id].usage - 1), at', hint, id) == NextFit(at', hint)
            && (hint < p ==> Next(Used(cs, id, cs[id].usage - 1), at', hint, id) != 0)
  {
    FreeKeeps(cs, own, lost, at, base, p);
    assert Balanced(cs, own, lost, own[p]);
    assert FreeAt(at[p := at[p].(used := 0)], p);
    hide Inv, Live, Held, ChildQuota;
  }

  lemma FreeTable(at: seq<Entry>, own: Owners, base: set<nat>, p: nat)
    requires Table(at, own, base) && p in own
    ensures Table(at[p := at[p].(used := 0)], own - {p}, base)
  {
  }

  /** The free normal pages from page n on. */
  function FreeFrom(at: seq<Entry>, n: nat): set<nat> { set p | n <= p < |at| && FreeAt(at, p) }

  // ---- how many pages container_alloc can still hand out -----------------------------------------

  /** What container_alloc returns to container id. */
  function Next(cs: Conts, at: seq<Entry>, hint: nat, id: nat): nat
    requires id < NUM_IDS
  {
    if cs[id].usage == cs[id].quota then 0 else NextFit(at, hint)
  }

  /** Pages that container id can have in a row: what its quota leaves, and no more than lie above the hint. */
  function Room(cs: Conts, at: seq<Entry>, hint: nat, id: nat): nat
    requires id < NUM_IDS
  {
    var left := if cs[id].usage <= cs[id].quota then cs[id].quota - cs[id].usage else 0;
    var above := |FreeFrom(at, hint + 1)|;
    if left < above then left else above
  }

  lemma SomeAbove(at: seq<Entry>, hint: nat)
    ensures NextFit(at, hint) != 0 <==> |FreeFrom(at, hint + 1)| > 0
  {
    if NextFit(at, hint) != 0 { assert NextFit(at, hint) in FreeFrom(at, hint + 1); }
  }

  lemma OneFewerAbove(at: seq<Entry>, hint: nat)
    requires NextFit(at, hint) != 0
    ensures var p := NextFit(at, hint);
            |FreeFrom(at[p := at[p].(used := 1)], p + 1)| == |FreeFrom(at, hint + 1)| - 1
  {
    var p := NextFit(at, hint);
    assert FreeFrom(at[p := at[p].(used := 1)], p + 1) == FreeFrom(at, hint + 1) - {p};
    assert p in FreeFrom(at, hint + 1);
  }

  /** A call succeeds exactly if there is room, and then takes one off it. */
  lemma NextIffRoom(cs: Conts, at: seq<Entry>, hint: nat, id: nat)
    requires id < NUM_IDS && cs[id].usage <= cs[id].quota
    ensures var p := Next(cs, at, hint, id);
            && (p != 0 <==> Room(cs, at, hint, id) > 0)
            && (p != 0 ==> Room(Used(cs, id, cs[id].usage + 1), at[p := at[p].(used := 1)], p, id)
                             == Room(cs, at, hint, id) - 1)
  {
    SomeAbove(at, hint);
    if Next(cs, at, hint, id) != 0 { OneFewerAbove(at, hint); }
    hide FreeFrom;
  }

  /** With free pages at or below the hint only, a container with quota left gets nothing. */
  lemma BelowHintIsLost(cs: Conts, at: seq<Entry>, hint: nat, id: nat)
    requires id < NUM_IDS && cs[id].usage < cs[id].quota && forall p :: hint < p < |at| ==> !FreeAt(at, p)
    ensures Next(cs, at, hint, id) == 0 && Room(cs, at, hint, id) == 0
  {
    assert FreeFrom(at, hint + 1) == {};
  }

  class Containers {
    const c: array<Cont>
    const pages: Pages
    ghost var own: Owners
    ghost var lost: Lost
    ghost const base: set<nat>

    ghost predicate Valid()
      reads this, c, pages, pages.at
    {
      c.Length == NUM_IDS && pages.at.Length > 0 && Inv(c[..], own, lost, pages.at[..], base)
    }

    /** container_init: the root's quota is the number of free normal pages, page 0 left aside. */
    constructor (pages: Pages)
      requires pages.at.Length > 0 && pages.at[0].used == 0
      ensures Valid() && this.pages == pages && own == map[] && base == FreeFrom(pages.at[..], 1) && fresh(c)
      ensures forall i :: 1 <= i < NUM_IDS ==> !Live(c[..], i)
      ensures forall i :: 0 <= i < NUM_IDS ==>
                c[i] == Cont(if i == 0 then |base| else 0, 0, 0, 0, i == 0) && lost[i] == 0
    {
      var quota := 0;
      var nps := pages.at.Length;
      var i := 1;
      while i < nps
        invariant 1 <= i <= nps
        invariant quota + |FreeFrom(pages.at[..], i)| == |FreeFrom(pages.at[..], 1)|
      {
        FreeStep(pages.at[..], i);
        if pages.at[i].perm > 1 && pages.at[i].used == 0 {
          quota := quota + 1;
        }
        i := i + 1;
      }
      assert FreeFrom(pages.at[..], nps) == {};
      c := new Cont[NUM_IDS](j => Cont(if j == 0 then quota else 0, 0, 0, 0, j == 0));
      this.pages, own, base := pages, map[], FreeFrom(pages.at[..], 1);
      lost := seq(NUM_IDS, _ => 0);
      new;
      StartInv(c[..], pages.at[..]);
    }

    method Split(id: nat, q: nat) returns (ch: nat)
      requires Valid() && CanSplit(c[..], id, q)
      modifies this`lost, c
      ensures lost == old(lost)[Child(old(c[..]), id) := 0]
      ensures Valid() && ch == Child(old(c[..]), id) && !Live(old(c[..]), ch) && c[..] == SplitOff(old(c[..]), id, q)
    {
      hide Inv, Live;
      SplitKeeps(c[..], own, lost, pages.at[..], base, id, q);
      lost := lost[Child(c[..], id) := 0];
      var nc := c[id].nch;
      ch := id * MAX_CHILDREN + 1 + nc;
      c[ch] := Cont(q, 0, id, 0, true);
      c[id] := c[id].(usage := c[id].usage + q);
      c[id] := c[id].(nch := nc + 1);
      assert c[..] == SplitOff(old(c[..]), id, q);
    }

    /** The pages that container id can have in a row. */
    ghost function Spare(id: nat): nat
      requires c.Length == NUM_IDS && id < NUM_IDS
      reads c, pages, pages.at
    {
      Room(c[..], pages.at[..], pages.hint, id)
    }

    /** container_alloc: a page new to everybody, or 0; a call that finds no page keeps its charge. */
    method Alloc(id: nat) returns (p: nat)
      requires Valid() && id < NUM_IDS && Live(c[..], id)
      modifies this`own, this`lost, c, pages`hint, pages.at
      ensures Valid() && Live(c[..], id)
      ensures if p == 0 then own == old(own) && pages.at[..] == old(pages.at[..])
              else p in base && p !in old(own) && own == old(own)[p := id]
      ensures old(c[id].usage) == c[id].quota ==> p == 0 && c[..] == old(c[..])
      ensures old(c[id].usage) < c[id].quota ==> c[..] == Used(old(c[..]), id, old(c[id].usage) + 1)
      ensures p == Next(old(c[..]), old(pages.at[..]), old(pages.hint), id)
      ensures pages.hint == if old(c[id].usage) == old(c[id].quota) then old(pages.hint) else p
      ensures p != 0 ==> pages.at[..] == old(pages.at[..])[p := old(pages.at[p]).(used := 1)]
      ensures (p != 0 <==> old(Spare(id)) > 0) && (p != 0 ==> Spare(id) == old(Spare(id)) - 1)
      ensures p == 0 && c[id].usage > old(c[id].usage) <==>
                old(c[id].usage < c[id].quota && FreeFrom(pages.at[..], pages.hint + 1) == {})
      ensures lost == if p == 0 && c[id].usage > old(c[id].usage) then old(lost)[id := old(lost)[id] + 1] else old(lost)
    {
      hide Live, NextFit, Inv, Room, FreeFrom;
      var u := c[id].usage;
      QuotaLeft(c[..], own, lost, pages.at[..], base, id);
      NextIffRoom(c[..], pages.at[..], pages.hint, id);
      SomeAbove(pages.at[..], pages.hint);
      if u == c[id].quota {
        return 0;
      }
      ChargeKeeps(c[..], own, lost, pages.at[..], base, id);
      ghost var (cs, at) := (c[..], pages.at[..]);
      UsedTree(cs, id, u + 1, id);
      c[id] := c[id].(usage := u + 1);
      assert c[..] == Used(cs, id, u + 1) by { UsedIs(cs, id, u + 1, c[..]); }
      p := pages.Palloc();
      if p != 0 {
        AllocKeeps(cs, own, lost, at, base, id, p);
        own := own[p := id];
      } else {
        lost := lost[id := lost[id] + 1];
      }
    }

    /** container_free of a page the container owns; a page that is not allocated is left alone. */
    method Free(id: nat, p: nat)
      requires Valid() && id < NUM_IDS && p < pages.at.Length && (pages.at[p].used != 0 ==> p in own && own[p] == id)
      modifies this`own, c, pages.at
      ensures Valid() && own == old(own) - {p}
      ensures forall i :: Live(c[..], i) <==> Live(old(c[..]), i)
      ensures pages.at[..] == old(pages.at[..])[p := old(pages.at[p]).(used := 0)]
      ensures old(pages.at[p].used) != 0 ==> old(c[id].usage) > 0
      ensures c[..] == if old(pages.at[p].used) == 0 then old(c[..]) else Used(old(c[..]), id, old(c[id].usage) - 1)
    {
      hide Live, Used;
      ghost var (cs, at) := (c[..], pages.at[..]);
      if pages.at[p].used != 0 {
        FreeKeeps(cs, own, lost, at, base, p);
        forall i
          ensures Live(Used(cs, id, cs[id].usage - 1), i) <==> Live(cs, i)
        {
          UsedTree(cs, id, cs[id].usage - 1, i);
        }
        pages.Pfree(p);
        if c[id].usage > 0 {
          c[id] := c[id].(usage := c[id].usage - 1);
        }
        UsedIs(cs, id, cs[id].usage - 1, c[..]);
        own := own - {p};
      } else {
        assert p !in own;
        assert own - {p} == own && at[p := at[p].(used := 0)] == at;
      }
    }
  }

  lemma FreeStep(at: seq<Entry>, i: nat)
    requires i < |at|
    ensures |FreeFrom(at, i)| == |FreeFrom(at, i + 1)| + if FreeAt(at, i) then 1 else 0
  {
    if FreeAt(at, i) {
      assert FreeFrom(at, i) == FreeFrom(at, i + 1) + {i};
    } else {
      assert FreeFrom(at, i) == FreeFrom(at, i + 1);
    }
  }

  lemma StartInv(cs: Conts, at: seq<Entry>)
    requires cs[0].nch == 0 && cs[0].usage == 0 && cs[0].quota == |FreeFrom(at, 1)|
    requires (forall i :: 1 <= i < NUM_IDS ==> cs[i].nch == 0) && (|at| > 0 ==> at[0].used == 0)
    ensures Inv(cs, map[], seq(NUM_IDS, _ => 0), at, FreeFrom(at, 1)) && forall i :: 1 <= i < NUM_IDS ==> !Live(cs, i)
  {
    forall i | 0 <= i < NUM_IDS ensures Rooted(cs, i) && Balanced(cs, map[], seq(NUM_IDS, _ => 0), i) {
      NoChildren(cs, i);
      assert Held(map[], i) == {};
    }
  }

  lemma QuotaLeft(cs: Conts, own: Owners, lost: Lost, at: seq<Entry>, base: set<nat>, id: nat)
    requires Inv(cs, own, lost, at, base) && id < NUM_IDS && Live(cs, id)
    ensures cs[id].usage <= cs[id].quota
  {
    assert Balanced(cs, own, lost, id);
  }

  lemma UsedIs(cs: Conts, id: nat, u: nat, cs': Conts)
    requires id < NUM_IDS && cs' == cs[id := cs[id].(usage := u)]
    ensures cs' == Used(cs, id, u)
  {
  }
}
