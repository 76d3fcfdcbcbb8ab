/** arch/i386/passage.c: the temporary address spaces of the passage page, against the page walk of the processor
    (sections 4.3 and 4.4 of volume 3A of the Intel SDM, paging with 4 KB pages). */
module Passage {
  import opened Bytes

  /** _KERNPG_TABLE: present, writable, accessed, dirty. */
  const KERNPG: int := 0x63

  predicate Aligned(a: int) { a % 4096 == 0 }

  function Entry(a: u32): (e: int) { a + KERNPG }

  predicate Present(e: int) { e % 2 == 1 }

  predicate Writable(e: int) { e / 2 % 2 == 1 }

  function Frame(e: int): (a: int) { e / 4096 * 4096 }

  lemma EntryReadsBack(a: u32)
    requires Aligned(a)
    ensures Present(Entry(a)) && Writable(Entry(a)) && Frame(Entry(a)) == a && Entry(a) != 0
  {
    Flagged(a / 4096, KERNPG);
    Odd(1024 * (a / 4096) + KERNPG / 4);
  }

  /** An address of a page with an odd number in the bits below it. */
  lemma Flagged(q: int, f: int)
    requires 0 <= f < 4096 && f % 2 == 1
    ensures (4096 * q + f) / 4096 == q && (4096 * q + f) % 2 == 1
  {
    Odd(2048 * q + f / 2);
  }

  lemma Odd(x: int)
    ensures (2 * x + 1) % 2 == 1
  {
  }

  predicate SamePage(v: u32, w: u32) { v / 4096 == w / 4096 }

  /** The address space that maps the pages of va and wa to the page at pa, and nothing else. */
  function Expected(v: u32, va: u32, wa: u32, pa: u32): (r: Option<int>) {
    if SamePage(v, va) || SamePage(v, wa) then Some(pa + v % 4096) else None
  }

  // ---- two levels

  function Dir(v: u32): (d: nat)
    ensures d < 1024
  {
    v / 0x40_0000
  }

  function Tab(v: u32): (t: nat)
    ensures t < 1024
  {
    v % 0x40_0000 / 4096
  }

  lemma PageIsDirTab(v: u32, w: u32)
    ensures SamePage(v, w) <==> Dir(v) == Dir(w) && Tab(v) == Tab(w)
  {
    assert v / 4096 == 1024 * Dir(v) + Tab(v);
    assert w / 4096 == 1024 * Dir(w) + Tab(w);
  }

  class Normal {
    const pgd: array<int>
    const pte: array2<int>
    /** co_os_virt_to_phys of the two page tables. */
    const phys0: u32
    const phys1: u32

    ghost predicate Shape()
      reads this
    {
      && pgd.Length == 1024 && pte.Length0 == 2 && pte.Length1 == 1024
      && Aligned(phys0) && Aligned(phys1) && phys0 != phys1
    }

    ghost predicate Zero()
      requires Shape()
      reads this, pgd, pte
    {
      (forall d :: 0 <= d < 1024 ==> pgd[d] == 0) && forall j, t :: 0 <= j < 2 && 0 <= t < 1024 ==> pte[j, t] == 0
    }

    function Phys(j: nat): (a: u32)
      requires j < 2
      reads this
    {
      if j == 0 then phys0 else phys1
    }

    /** The walk of the processor: None is a page fault. */
    function Walk(v: u32): (r: Option<int>)
      requires Shape()
      reads this, pgd, pte
    {
      var e := pgd[Dir(v)];
      if !Present(e) then None
      else if Frame(e) == phys0 then Leaf(0, v)
      else if Frame(e) == phys1 then Leaf(1, v)
      else None
    }

    function Leaf(j: nat, v: u32): (r: Option<int>)
      requires Shape() && j < 2
      reads this, pte
    {
      var e := pte[j, Tab(v)];
      if Present(e) then Some(Frame(e) + v % 4096) else None
    }

    /** What the builders leave in the tables: which table serves the second address. */
    ghost predicate Built(va: u32, wa: u32, pa: u32, j: nat, first: bool, second: bool)
      requires Shape()
      reads this, pgd, pte
    {
      && (forall d :: 0 <= d < 1024 ==>
            pgd[d] ==
              if first && d == Dir(va) then Entry(phys0) else if second && d == Dir(wa) then Entry(phys1) else 0)
      && (forall k, t :: 0 <= k < 2 && 0 <= t < 1024 ==>
            pte[k, t] ==
              if (first && k == 0 && t == Tab(va)) || (second && k == j && t == Tab(wa)) then Entry(pa) else 0)
    }

    lemma WalkIsExact(va: u32, wa: u32, pa: u32, j: nat, v: u32)
      requires Shape() && Aligned(pa) && Built(va, wa, pa, j, true, true) && j == if Dir(va) == Dir(wa) then 0 else 1
      ensures Walk(v) == Expected(v, va, wa, pa)
    {
      EntryReadsBack(phys0);
      EntryReadsBack(phys1);
      EntryReadsBack(pa);
      PageIsDirTab(v, va);
      PageIsDirTab(v, wa);
    }

    /** short_temp_address_space_init. */
    method InitShort(pa: u32, va: u32, wa: u32)
      requires Shape() && Zero() && Aligned(pa)
      modifies pgd, pte
      ensures forall v: u32 :: Walk(v) == Expected(v, va, wa, pa)
    {
      if Dir(va) == Dir(wa) {
        pgd[Dir(va)] := Entry(phys0);
        pte[0, Tab(va)] := Entry(pa);
        pte[0, Tab(wa)] := Entry(pa);
      } else {
        pgd[Dir(va)] := Entry(phys0);
        pgd[Dir(wa)] := Entry(phys1);
        pte[0, Tab(va)] := Entry(pa);
        pte[1, Tab(wa)] := Entry(pa);
      }
      forall v: u32 ensures Walk(v) == Expected(v, va, wa, pa) {
        WalkIsExact(va, wa, pa, if Dir(va) == Dir(wa) then 0 else 1, v);
      }
    }

    /** normal_temp_address_space_init: the second address is the physical address itself. */
    method InitNormal(pa: u32, va: u32)
      requires Shape() && Zero() && Aligned(pa)
      modifies pgd, pte
      ensures forall v: u32 :: Walk(v) == Expected(v, va, pa, pa)
    {
      var vas := [va, pa];
      ghost var same := if Dir(va) == Dir(pa) then 0 else 1;
      var i := 0;
      while i < 2
        invariant 0 <= i <= 2 && Built(va, pa, pa, same, i >= 1, i >= 2)
      {
        var d, t, j := Dir(vas[i]), Tab(vas[i]), i;
        EntryReadsBack(phys0);
        if pgd[d] == 0 {
          pgd[d] := Entry(Phys(j));
        } else {
          j := 0;
        }
        pte[j, t] := Entry(pa);
        i := i + 1;
      }
      forall v: u32 ensures Walk(v) == Expected(v, va, pa, pa) {
        WalkIsExact(va, pa, pa, same, v);
      }
    }
  }

  // ---- three levels

  function Top(v: u32): (p: nat)
    ensures p < 4
  {
    v / 0x4000_0000
  }

  function Mid(v: u32): (d: nat)
    ensures d < 512
  {
    v % 0x4000_0000 / 0x20_0000
  }

  function Low(v: u32): (t: nat)
    ensures t < 512
  {
    v % 0x20_0000 / 4096
  }

  lemma {:induction false} PageIsTopMidLow(v: u32, w: u32)
    ensures SamePage(v, w) <==> Top(v) == Top(w) && Mid(v) == Mid(w) && Low(v) == Low(w)
  {
    PageNumber(v);
    PageNumber(w);
  }

  lemma PageNumber(v: u32)
    ensures v / 4096 == 0x4_0000 * Top(v) + 512 * Mid(v) + Low(v)
  {
    var m := v % 0x4000_0000;
    assert v == 0x4000_0000 * Top(v) + m;
    assert m == 0x20_0000 * Mid(v) + m % 0x20_0000;
    assert m % 0x20_0000 == v % 0x20_0000;
    assert v % 0x20_0000 == 4096 * Low(v) + v % 4096;
  }

  class Pae {
    const top: array<int>
    const pgd: array2<int>
    const pte: array2<int>
    const dirPhys: seq<u32>
    const tabPhys: seq<u32>

    ghost predicate Shape()
      reads this
    {
      && top.Length == 4 && pgd.Length0 == 2 && pgd.Length1 == 512 && pte.Length0 == 2 && pte.Length1 == 512 &&
        pgd != pte
      && |dirPhys| == 2 && |tabPhys| == 2 && dirPhys[0] != dirPhys[1] && tabPhys[0] != tabPhys[1]
      && Aligned(dirPhys[0]) && Aligned(dirPhys[1]) && Aligned(tabPhys[0]) && Aligned(tabPhys[1])
    }

    ghost predicate Zero()
      requires Shape()
      reads this, top, pgd, pte
    {
      && (forall p :: 0 <= p < 4 ==> top[p] == 0)
      && (forall j, d :: 0 <= j < 2 && 0 <= d < 512 ==> pgd[j, d] == 0)
      && (forall k, t :: 0 <= k < 2 && 0 <= t < 512 ==> pte[k, t] == 0)
    }

    function Walk(v: u32): (r: Option<int>)
      requires Shape()
      reads this, top, pgd, pte
    {
      var e := top[Top(v)];
      if !Present(e) then None
      else if Frame(e) == dirPhys[0] then Inner(0, v)
      else if Frame(e) == dirPhys[1] then Inner(1, v)
      else None
    }

    function Inner(j: nat, v: u32): (r: Option<int>)
      requires Shape() && j < 2
      reads this, pgd, pte
    {
      var e := pgd[j, Mid(v)];
      if !Present(e) then None
      else if Frame(e) == tabPhys[0] then Leaf(0, v)
      else if Frame(e) == tabPhys[1] then Leaf(1, v)
      else None
    }

    function Leaf(k: nat, v: u32): (r: Option<int>)
      requires Shape() && k < 2
      reads this, pte
    {
      var e := pte[k, Low(v)];
      if Present(e) then Some(Frame(e) + v % 4096) else None
    }

    /** The directory and the table that serve the second address. */
    ghost function SecondDir(va: u32, wa: u32): (j: nat) { if Top(va) == Top(wa) then 0 else 1 }
    ghost function SecondTab(va: u32, wa: u32): (k: nat) { if Top(va) == Top(wa) && Mid(va) == Mid(wa) then 0 else 1 }

    ghost predicate Built(va: u32, wa: u32, pa: u32, first: bool, second: bool)
      requires Shape()
      reads this, top, pgd, pte
    {
      && (forall p :: 0 <= p < 4 ==>
            top[p] ==
              if first && p == Top(va) then 1 + dirPhys[0]
              else if second && p == Top(wa) then 1 + dirPhys[1] else 0)
      && (forall j, d :: 0 <= j < 2 && 0 <= d < 512 ==>
            pgd[j, d] ==
            if first && j == 0 && d == Mid(va) then Entry(tabPhys[0])
            else if second && j == SecondDir(va, wa) && d == Mid(wa) then Entry(tabPhys[1]) else 0)
      && (forall k, t :: 0 <= k < 2 && 0 <= t < 512 ==>
            pte[k, t] ==
              if (first && k == 0 && t == Low(va)) || (second && k == SecondTab(va, wa) && t == Low(wa))
              then Entry(pa) else 0)
    }

    lemma WalkIsExact(va: u32, wa: u32, pa: u32, v: u32)
      requires Shape() && Aligned(pa) && Built(va, wa, pa, true, true)
      ensures Walk(v) == Expected(v, va, wa, pa)
    {
      TopReadsBack(dirPhys[0]);
      TopReadsBack(dirPhys[1]);
      EntryReadsBack(tabPhys[0]);
      EntryReadsBack(tabPhys[1]);
      EntryReadsBack(pa);
      PageIsTopMidLow(v, va);
      PageIsTopMidLow(v, wa);
    }

    /** pae_temp_address_space_init. */
    method InitPae(pa: u32, va: u32)
      requires Shape() && Zero() && Aligned(pa)
      modifies top, pgd, pte
      ensures forall v: u32 :: Walk(v) == Expected(v, va, pa, pa)
    {
      var vas := [va, pa];
      var i := 0;
      while i < 2
        invariant 0 <= i <= 2 && Built(va, pa, pa, i >= 1, i >= 2)
      {
        var v, j, k := vas[i], i, i;
        EntryReadsBack(tabPhys[0]);
        if top[Top(v)] == 0 {
          top[Top(v)] := 1 + dirPhys[j];
        } else {
          j := 0;
        }
        if pgd[j, Mid(v)] == 0 {
          pgd[j, Mid(v)] := Entry(tabPhys[k]);
        } else {
          k := 0;
        }
        pte[k, Low(v)] := Entry(pa);
        i := i + 1;
      }
      forall v: u32 ensures Walk(v) == Expected(v, va, pa, pa) {
        WalkIsExact(va, pa, pa, v);
      }
    }
  }

  lemma TopReadsBack(a: u32)
    requires Aligned(a)
    ensures Present(1 + a) && Frame(1 + a) == a
  {
    Flagged(a / 4096, 1);
  }
}
