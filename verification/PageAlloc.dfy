/** The physical page allocator: next fit over the allocation table. */
module PageAlloc {

  /** An entry of the allocation table; perm is 0 for BIOS, 1 for the kernel, more for normal pages. */
  datatype Entry = Entry(perm: nat, used: nat) {
    predicate Free() { perm > 1 && used == 0 }
  }

  predicate FreeAt(at: seq<Entry>, i: nat) { i < |at| && at[i].Free() }

  /** The lowest free normal page from n on, or the length of the table. */
  function Lowest(at: seq<Entry>, n: nat): (r: nat)
    ensures r >= n && forall i :: n <= i < r ==> !FreeAt(at, i)
    ensures n <= |at| ==> r <= |at|
    ensures r < |at| ==> FreeAt(at, r)
    decreases |at| - n
  {
    if n >= |at| || FreeAt(at, n) then n else Lowest(at, n + 1)
  }

  /** What palloc hands out with its hint at h: the lowest free normal page above the hint, or 0. */
  function NextFit(at: seq<Entry>, h: nat): (r: nat)
    ensures r == 0 <==> forall i :: h < i < |at| ==> !FreeAt(at, i)
    ensures r != 0 ==> h < r && FreeAt(at, r) && forall i :: h < i < r ==> !FreeAt(at, i)
  {
    var i := Lowest(at, h + 1);
    if i < |at| then i else 0
  }

  lemma NextFitIs(at: seq<Entry>, h: nat, r: nat)
    requires r < |at| ==> h < r && FreeAt(at, r)
    requires forall i :: h < i < |at| && i < r ==> !FreeAt(at, i)
    ensures NextFit(at, h) == if r < |at| then r else 0
  {
  }

  lemma SmallMod(r: nat, n: nat)
    requires r < n
    ensures r % n == r
  {
  }

  /** A failed call moves the hint to 0, so the next call fails only if no page at all is free. */
  lemma RetryFinds(at: seq<Entry>, h: nat, i: nat)
    requires 1 <= i && FreeAt(at, i)
    ensures NextFit(at, h) != 0 || NextFit(at, 0) != 0
    ensures NextFit(at, h) == 0 ==> NextFit(at, 0) <= i
  {
  }

  /** palloc tried twice is first fit with wrap-around, starting above the hint. */
  lemma WrapsAround(at: seq<Entry>, h: nat)
    ensures var r := if NextFit(at, h) != 0 then NextFit(at, h) else NextFit(at, 0);
            && (r == 0 <==> forall i :: 1 <= i < |at| ==> !FreeAt(at, i))
            && (r > h ==> forall i :: h < i < r ==> !FreeAt(at, i))
            && (0 < r <= h ==> forall i :: h < i < |at| || 1 <= i < r ==> !FreeAt(at, i))
  {
  }

  class Pages {
    const at: array<Entry>
    var hint: nat

    /** The table as pmem_init leaves it; the hint starts at the first user page. */
    constructor (table: seq<Entry>)
      ensures at[..] == table && hint == 262144 && fresh(at)
    {
      at := new Entry[|table|](i requires 0 <= i < |table| => table[i]);
      hint := 262144;
      new;
      assert at[..] == table;
    }

    /** The scan of palloc: the page to hand out, or the number of pages. */
    method Scan() returns (found: nat)
      ensures found <= at.Length && NextFit(at[..], hint) == if found < at.Length then found else 0
      ensures found < at.Length ==> found > hint
    {
      hide NextFit, Lowest;
      var nps := at.Length;
      ghost var table := at[..];
      var i := hint + 1;
      found := nps;
      while i < nps && found == nps
        invariant i > hint && found <= nps
        invariant forall j :: hint < j < i && j < nps && j != found ==> !FreeAt(table, j)
        invariant found < nps ==> hint < found && FreeAt(table, found) && i == found + 1
        decreases nps - i
      {
        if at[i].perm > 1 {
          if at[i].used == 0 {
            found := i;
          }
        }
        i := i + 1;
      }
      NextFitIs(table, hint, found);
    }

    /** palloc: it marks the page it returns, and no other. */
    method Palloc() returns (r: nat)
      requires at.Length > 0
      modifies this`hint, at
      ensures r == NextFit(old(at[..]), old(hint)) && hint == r
      ensures at[..] == if r == 0 then old(at[..]) else old(at[..])[r := old(at[r]).(used := 1)]
    {
      hide NextFit, Lowest;
      var found := Scan();
      if found == at.Length {
        r := 0;
      } else {
        r := found;
        at[r] := at[r].(used := 1);
      }
      SmallMod(r, at.Length);
      hint := r % at.Length;
    }

    method Pfree(i: nat)
      requires i < at.Length
      modifies at
      ensures at[..] == old(at[..])[i := old(at[i]).(used := 0)]
    {
      at[i] := at[i].(used := 0);
    }
  }
}
