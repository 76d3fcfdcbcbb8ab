/** kernel/pages.c, kernel/reversedpfns.c: the guest's pseudo RAM. A page of the guest is recorded three times: in
    the two-level array `pp`, in a page-table entry that lies in guest memory itself, and in a reverse map that lies
    in host frames. All three end up in the same host memory, `ram`. */
module GuestPages {
  import opened Bytes

  type Page = p: seq<byte> | |p| == 4096 witness seq(4096, _ => 0)

  /** A page number of the guest's 32-bit address space. */
  type Vpn = x: int | 0 <= x < 0x10_0000

  /** The number of a host frame. */
  type Pfn = f: int | 0 <= f < 0x10_0000

  const KERNEL_PAGE: nat := 0xC0000
  const TABLES_PAGE: nat := 0xFEB00
  const MAX_PAGES: nat := 984 * 256
  /** _PAGE_PRESENT | _PAGE_RW | _PAGE_ACCESSED | _PAGE_DIRTY */
  const FLAGS: nat := 0x63

  /** `free`: the frames that the host may still hand out. `pages`: memory_size >> 12. */
  datatype Mem = Mem(pp: seq<Option<seq<nat>>>, ram: seq<Page>, rev: seq<nat>, free: set<nat>, pages: nat)

  // ---- words in pages

  function Word(p: Page, i: nat): (w: u32)
    requires i < 1024
  {
    p[4 * i] as int + 0x100 * (p[4 * i + 1] as int) + 0x1_0000 * (p[4 * i + 2] as int) +
      0x100_0000 * (p[4 * i + 3] as int)
  }

  function SetWord(p: Page, i: nat, w: u32): (r: Page)
    requires i < 1024
  {
    p[4 * i := w % 0x100][4 * i + 1 := w / 0x100 % 0x100][4 * i + 2 := w / 0x100 / 0x100 % 0x100]
     [4 * i + 3 := w / 0x100 / 0x100 / 0x100]
  }

  lemma WordAfterSet(p: Page, i: nat, w: u32, j: nat)
    requires i < 1024 && j < 1024
    ensures Word(SetWord(p, i, w), j) == if i == j then w else Word(p, j)
  {
    if i == j {
      Digits(w);
    }
  }

  lemma Digits(w: u32)
    ensures w == w % 0x100 + 0x100 * (w / 0x100 % 0x100) + 0x1_0000 * (w / 0x100 / 0x100 % 0x100)
      + 0x100_0000 * (w / 0x100 / 0x100 / 0x100)
  {
    var x := w / 0x100;
    var y := x / 0x100;
    assert w == w % 0x100 + 0x100 * x;
    assert x == x % 0x100 + 0x100 * y;
  }

  function PutWord(ram: seq<Page>, frame: nat, i: nat, w: u32): (r: seq<Page>)
    requires frame < |ram| && i < 1024
    ensures |r| == |ram|
    ensures Word(r[frame], i) == w
    ensures forall f :: 0 <= f < |ram| && f != frame ==> r[f] == ram[f]
    ensures forall j :: 0 <= j < 1024 && j != i ==> Word(r[frame], j) == Word(ram[frame], j)
  {
    WordAfterSet(ram[frame], i, w, i);
    assert forall j :: 0 <= j < 1024 && j != i ==> Word(SetWord(ram[frame], i, w), j) == Word(ram[frame], j) by {
      forall j | 0 <= j < 1024 && j != i ensures Word(SetWord(ram[frame], i, w), j) == Word(ram[frame], j) {
        WordAfterSet(ram[frame], i, w, j);
      }
    }
    ram[frame := SetWord(ram[frame], i, w)]
  }

  // ---- the forward map

  predicate Shape(m: Mem) {
    && |m.pp| == 1024
    && (forall g :: 0 <= g < 1024 && m.pp[g].Some? ==> |m.pp[g].value| == 1024)
    && 0 < |m.ram| <= 0x10_0000
    && |m.rev| == |m.ram| / 1024
    && m.pages <= MAX_PAGES
  }

  /** The frame of a guest page; 0 when it has none. */
  function PfnAt(m: Mem, v: Vpn): (f: nat)
    requires Shape(m)
  {
    if m.pp[v / 1024].None? then 0 else m.pp[v / 1024].value[v % 1024]
  }

  function AddGroup(m: Mem, v: Vpn): (r: Mem)
    requires Shape(m) && m.pp[v / 1024].None?
    ensures Shape(r) && r.pp[v / 1024].Some?
    ensures forall w: Vpn :: PfnAt(r, w) == PfnAt(m, w)
  {
    m.(pp := m.pp[v / 1024 := Some(seq(1024, _ => 0))])
  }

  function SetPfn(m: Mem, v: Vpn, f: nat): (r: Mem)
    requires Shape(m) && m.pp[v / 1024].Some?
    ensures Shape(r) && PfnAt(r, v) == f
    ensures forall w: Vpn :: w != v ==> PfnAt(r, w) == PfnAt(m, w)
    ensures forall g :: 0 <= g < 1024 ==> r.pp[g].Some? == m.pp[g].Some?
  {
    var r := m.(pp := m.pp[v / 1024 := Some(m.pp[v / 1024].value[v % 1024 := f])]);
    assert forall w: Vpn :: w != v ==> PfnAt(r, w) == PfnAt(m, w) by {
      forall w: Vpn | w != v ensures PfnAt(r, w) == PfnAt(m, w) {
        assert w / 1024 != v / 1024 || w % 1024 != v % 1024;
      }
    }
    r
  }

  /** What the host answers while one page is looked for: whether a group array can be allocated, which frame. */
  datatype Luck = Luck(heap: bool, frame: Option<nat>)

  ghost predicate Offered(m: Mem, k: Luck) { k.frame.Some? ==> k.frame.value in m.free }

  datatype Ensured = Failed | Had(frame: nat) | Got(frame: nat)

  /** The lookup with allocation that co_monitor_alloc_and_map_page and scan_pfns_split_callback share. */
  function Ensure(m: Mem, v: Vpn, k: Luck): (r: (Mem, Ensured))
    requires Shape(m)
    ensures Shape(r.0) && r.0.ram == m.ram && r.0.rev == m.rev && r.0.pages == m.pages
    ensures forall w: Vpn :: w != v ==> PfnAt(r.0, w) == PfnAt(m, w)
  {
    if m.pp[v / 1024].None? && !k.heap then
      (m, Failed)
    else
      var m1 := if m.pp[v / 1024].None? then AddGroup(m, v) else m;
      if PfnAt(m1, v) != 0 then
        (m1, Had(PfnAt(m1, v)))
      else if k.frame.None? then
        (m1, Failed)
      else
        var m2 := m1.(free := m1.free - {k.frame.value});
        if k.frame.value >= |m.ram| then (m2, Failed) else (SetPfn(m2, v, k.frame.value), Got(k.frame.value))
  }

  // ---- the reverse map and the page-table entries

  function Reverse(m: Mem, f: nat): (v: u32)
    requires f / 1024 < |m.rev| && m.rev[f / 1024] < |m.ram|
  {
    Word(m.ram[m.rev[f / 1024]], f % 1024)
  }

  /** co_manager_set_reversed_pfn. */
  function SetReverse(m: Mem, f: nat, v: u32): (r: Option<Mem>)
    requires Shape(m) && forall i :: 0 <= i < |m.rev| ==> m.rev[i] < |m.ram|
    ensures r.Some? <==> f / 1024 < |m.rev|
    ensures r.Some? ==> Shape(r.value) && forall w: Vpn :: PfnAt(r.value, w) == PfnAt(m, w)
  {
    if f / 1024 >= |m.rev| then None
    else Some(m.(ram := PutWord(m.ram, m.rev[f / 1024], f % 1024, v)))
  }

  /** The guest page with number v from 0xC0000000 on, (v << 12) + 0xC0000000 in 32 bits. The first `pages` of them are
      the pseudo RAM. */
  function RamPage(v: Vpn): (p: Vpn) { if v < 0x4_0000 then KERNEL_PAGE + v else v - 0x4_0000 }

  /** The page that holds the page-table entry of page v; there is one for every address. */
  function TablePage(v: Vpn): (t: Vpn) { TABLES_PAGE + v / 1024 }

  predicate IsTable(p: Vpn) { TABLES_PAGE <= p < TABLES_PAGE + 1024 }

  function Pte(m: Mem, v: Vpn): (w: u32)
    requires Shape(m) && PfnAt(m, TablePage(v)) < |m.ram|
  {
    Word(m.ram[PfnAt(m, TablePage(v))], v % 1024)
  }

  function Entry(f: Pfn): (w: u32) { if f != 0 then f * 4096 + FLAGS else 0 }

  /** co_monitor_create_ptes for one entry; the entry's own page is allocated when it is missing. */
  function CreatePte(m: Mem, v: Vpn, f: Pfn, k: Luck): (r: (Mem, bool))
    requires InRange(m)
    ensures InRange(r.0)
    ensures forall w: Vpn :: w != TablePage(v) ==> PfnAt(r.0, w) == PfnAt(m, w)
  {
    var (m1, e) := Ensure(m, TablePage(v), k);
    if e.Failed? then (m1, false)
    else (m1.(ram := PutWord(m1.ram, e.frame, v % 1024, Entry(f))), true)
  }

  /** The frame that the processor finds in a page-table entry (section 4.3 of volume 3A of the Intel SDM). */
  function Mapped(e: u32): (f: Option<nat>) { if e % 2 == 1 then Some(e / 4096) else None }

  /** The bits of an entry: present, writable, accessed and dirty, and no other below the frame. */
  lemma EntryMaps(f: Pfn)
    ensures Mapped(Entry(f)) == if f != 0 then Some(f) else None
    ensures f != 0 ==> Entry(f) % 0x1000 == 1 + 2 + 0x20 + 0x40
  {
    if f != 0 {
      assert f * 4096 + 0x63 == 2 * (f * 2048 + 0x31) + 1;
      assert (2 * (f * 2048 + 0x31) + 1) % 2 == 1;
    }
  }

  // ---- the invariant

  ghost predicate InRange(m: Mem) { Shape(m) && forall v: Vpn :: PfnAt(m, v) < |m.ram| }

  /** Frames are in range, and no frame has two uses. */
  ghost predicate Apart(m: Mem)
    requires Shape(m)
  {
    && (forall v: Vpn :: PfnAt(m, v) < |m.ram|)
    && (forall v: Vpn, w: Vpn :: v != w && PfnAt(m, v) != 0 ==> PfnAt(m, v) != PfnAt(m, w))
    && (forall v: Vpn :: PfnAt(m, v) !in m.rev && PfnAt(m, v) !in m.free)
    && (forall i, j :: 0 <= i < j < |m.rev| ==> m.rev[i] != m.rev[j])
    && (forall i :: 0 <= i < |m.rev| ==> 0 < m.rev[i] < |m.ram| && m.rev[i] !in m.free)
    && 0 !in m.free
  }

  /** What every request keeps, whatever its address. */
  ghost predicate Sane(m: Mem) { Shape(m) && Apart(m) }

  /** t holds page-table entries of the pseudo RAM. */
  predicate InUse(m: Mem, t: Vpn) { TABLES_PAGE <= t && (t - TABLES_PAGE) * 1024 < m.pages }

  /** alloc_pp_ram_mapping has provided a page for every page-table entry. */
  ghost predicate Tables(m: Mem)
    requires Shape(m)
  {
    forall t: Vpn :: InUse(m, t) ==> PfnAt(m, t) != 0
  }

  /** The frame of page v. */
  function Backing(m: Mem, v: Vpn): (f: nat)
    requires Shape(m)
  {
    PfnAt(m, RamPage(v))
  }

  predicate Covered(m: Mem, f: nat) { f / 1024 < |m.rev| }

  /** The records of page v agree: its page-table entry maps its frame, and the reverse map, where it has a cell for
      the frame, leads back. */
  ghost predicate Agrees(m: Mem, v: Vpn)
    requires Sane(m)
  {
    var f := Backing(m, v);
    Pte(m, v) == Entry(f) && (Covered(m, f) ==> Reverse(m, f) == v)
  }

  /** Page v has no frame, or one that the reverse map has no cell for. */
  ghost predicate Unrecorded(m: Mem, v: Vpn)
    requires Shape(m)
  {
    Backing(m, v) == 0 || !Covered(m, Backing(m, v))
  }

  /** Pages that are not recorded have empty page-table entries. The host's frames are not cleared when they become page
      tables, so this is not part of the invariant: it holds if those frames were clear. */
  ghost predicate Blank(m: Mem)
    requires Sane(m)
  {
    forall v :: 0 <= v < m.pages && Unrecorded(m, v) ==> Pte(m, v) == 0
  }

  ghost predicate Inv(m: Mem) {
    && Sane(m) && Tables(m)
    && forall v :: 0 <= v < m.pages && !Unrecorded(m, v) ==> Agrees(m, v)
  }

  // ---- the operations, on page v of the whole address space

  /** co_monitor_alloc_and_map_page. */
  function AllocAndMap(m: Mem, v: Vpn, k: Luck, k': Luck): (r: (Mem, bool))
    requires Sane(m)
  {
    var (m1, e) := Ensure(m, RamPage(v), k);
    match e
    case Failed => (m1, false)
    case Had(_) => (m1, true)
    case Got(f) =>
      match SetReverse(m1, f, v)
      case None => (m1, false)
      case Some(m2) => CreatePte(m2, v, f, k')
  }

  /** The reverse entry of f cleared, where it has a cell. */
  function Unreversed(m: Mem, f: nat): (r: Mem)
    requires InRange(m) && forall i :: 0 <= i < |m.rev| ==> m.rev[i] < |m.ram|
    ensures r == m.(ram := r.ram) && Shape(r)
  {
    match SetReverse(m, f, 0) case None => m case Some(x) => x
  }

  /** co_monitor_free_and_unmap_page. */
  function FreeAndUnmap(m: Mem, v: Vpn, k: Luck): (r: (Mem, bool))
    requires Sane(m)
  {
    if m.pp[RamPage(v) / 1024].None? then (m, false)
    else
      var m1 := CreatePte(m, v, 0, k).0;
      var f := Backing(m1, v);
      if f == 0 then (m1, true)
      else
        var m2 := Unreversed(m1, f);
        (SetPfn(m2, RamPage(v), 0).(free := m2.free + {f}), true)
  }

  /** The host answers from its free frames while page v is allocated. */
  ghost predicate Answers(m: Mem, v: Vpn, k: Luck, k': Luck)
    requires Shape(m)
  {
    Offered(m, k) && Offered(Ensure(m, RamPage(v), k).0, k')
  }

  // ---- what each write leaves alone

  /** Memory of the same size, and the same pages of the reverse map. */
  predicate SameHost(m: Mem, r: Mem) { |r.ram| == |m.ram| && r.rev == m.rev && r.pages == m.pages }

  /** Every page keeps its frame; t may have been given one. */
  ghost predicate Grown(m: Mem, t: Vpn, r: Mem)
    requires Shape(m) && Shape(r)
  {
    SameHost(m, r) && forall w: Vpn :: w != t || PfnAt(m, t) != 0 ==> PfnAt(r, w) == PfnAt(m, w)
  }

  lemma EnsureKeeps(m: Mem, v: Vpn, k: Luck)
    requires Sane(m) && Offered(m, k)
    ensures Sane(Ensure(m, v, k).0) && Grown(m, v, Ensure(m, v, k).0) && Ensure(m, v, k).0.free <= m.free
    ensures
      match Ensure(m, v, k).1
      case Failed => PfnAt(m, v) == 0 == PfnAt(Ensure(m, v, k).0, v)
      case Had(f) => f == PfnAt(m, v) != 0 && Ensure(m, v, k).0 == m
      case Got(f) =>
        && PfnAt(m, v) == 0 && PfnAt(Ensure(m, v, k).0, v) == f != 0 && f < |m.ram| && f in m.free
        && f == k.frame.value
  {
  }

  lemma ReverseWrite(m: Mem, f: nat, w: u32)
    requires Sane(m) && Covered(m, f)
    ensures var r := SetReverse(m, f, w).value;
      && r == m.(ram := r.ram) && |r.ram| == |m.ram| && Sane(r)
      && (forall g :: 0 <= g && Covered(m, g) ==> Reverse(r, g) == if g == f then w else Reverse(m, g))
      && (forall h :: 0 <= h < |m.ram| && h !in m.rev ==> r.ram[h] == m.ram[h])
  {
    var r := SetReverse(m, f, w).value;
    assert m.rev[f / 1024] in m.rev;
    forall g | 0 <= g && Covered(m, g) && g != f ensures Reverse(r, g) == Reverse(m, g) {
      if g / 1024 == f / 1024 {
        assert g % 1024 != f % 1024;
      } else {
        assert m.rev[g / 1024] != m.rev[f / 1024];
      }
    }
  }

  /** r is m with the page-table entry of page v set to e, if `ok`; its own page may have been given a frame. */
  ghost predicate PteSet(m: Mem, r: Mem, v: Vpn, ok: bool, e: u32)
    requires Sane(m)
  {
    && Sane(r) && Grown(m, TablePage(v), r) && r.free <= m.free && (ok <==> PfnAt(r, TablePage(v)) != 0)
    && (ok ==> Pte(r, v) == e)
    && (forall u: Vpn :: u != v && PfnAt(m, TablePage(u)) != 0 ==> Pte(r, u) == Pte(m, u))
    && (forall h :: 0 <= h < |m.ram| && h != PfnAt(r, TablePage(v)) ==> r.ram[h] == m.ram[h])
  }

  lemma PteWrite(m: Mem, v: Vpn, f: Pfn, k: Luck)
    requires Sane(m) && Offered(m, k)
    ensures PteSet(m, CreatePte(m, v, f, k).0, v, CreatePte(m, v, f, k).1, Entry(f))
  {
    var t, r := TablePage(v), CreatePte(m, v, f, k).0;
    EnsureKeeps(m, t, k);
    var m1 := Ensure(m, t, k).0;
    assert forall w: Vpn :: PfnAt(r, w) == PfnAt(m1, w);
    forall u: Vpn | u != v && PfnAt(m, TablePage(u)) != 0 ensures Pte(r, u) == Pte(m, u) {
      if TablePage(u) == t {
        assert u % 1024 != v % 1024;
      } else {
        assert PfnAt(m1, TablePage(u)) != PfnAt(m1, t);
      }
    }
  }

  /** r is m with the reverse entry of f set to w, and the page-table entry of page v to e, if `ok`. */
  ghost predicate Written(m: Mem, r: Mem, v: Vpn, f: nat, w: u32, ok: bool, e: u32)
    requires Sane(m)
  {
    && Sane(r) && Grown(m, TablePage(v), r) && r.free <= m.free && (ok <==> PfnAt(r, TablePage(v)) != 0)
    && (ok ==> Pte(r, v) == e)
    && (forall u: Vpn :: u != v && PfnAt(m, TablePage(u)) != 0 ==> Pte(r, u) == Pte(m, u))
    && (forall g :: 0 <= g && Covered(m, g) ==> Reverse(r, g) == if g == f then w else Reverse(m, g))
    && (forall h :: 0 <= h < |m.ram| && h !in m.rev && h != PfnAt(r, TablePage(v)) ==> r.ram[h] == m.ram[h])
  }

  /** Page-table entries lie outside the reverse map. */
  lemma PtesKept(m: Mem, r: Mem)
    requires Sane(m) && Sane(r) && r == m.(ram := r.ram) && |r.ram| == |m.ram|
    requires forall h :: 0 <= h < |m.ram| && h !in m.rev ==> r.ram[h] == m.ram[h]
    ensures forall u: Vpn :: PfnAt(r, u) == PfnAt(m, u) && Pte(r, u) == Pte(m, u)
  {
    assert forall u: Vpn :: PfnAt(r, u) == PfnAt(m, u);
  }

  /** ... and the reverse map outside page tables. */
  lemma ReverseKept(m: Mem, r: Mem, t: Vpn)
    requires Sane(m) && Sane(r) && Grown(m, t, r)
    requires forall h :: 0 <= h < |m.ram| && h != PfnAt(r, t) ==> r.ram[h] == m.ram[h]
    ensures forall g :: 0 <= g && Covered(m, g) ==> Reverse(r, g) == Reverse(m, g)
  {
    forall g | 0 <= g && Covered(m, g) ensures Reverse(r, g) == Reverse(m, g) {
      assert m.rev[g / 1024] in r.rev;
    }
  }

  /** The order of an allocation: reverse map, then page-table entry. */
  lemma ReverseThenPte(m: Mem, v: Vpn, f: Pfn, k: Luck)
    requires Sane(m) && Offered(m, k) && Covered(m, f)
    ensures Sane(SetReverse(m, f, v).value)
    ensures var (r, ok) := CreatePte(SetReverse(m, f, v).value, v, f, k); Written(m, r, v, f, v, ok, Entry(f))
  {
    var m2 := SetReverse(m, f, v).value;
    ReverseWrite(m, f, v);
    PtesKept(m, m2);
    PteWrite(m2, v, f, k);
    ReverseKept(m2, CreatePte(m2, v, f, k).0, TablePage(v));
  }

  /** The order of a release: page-table entry, then reverse map, where it has a cell. */
  lemma PteThenReverse(m: Mem, m1: Mem, v: Vpn, ok: bool, f: nat)
    requires Sane(m) && PteSet(m, m1, v, ok, 0)
    ensures Written(m, Unreversed(m1, f), v, f, 0, ok, 0)
  {
    ReverseKept(m, m1, TablePage(v));
    if Covered(m1, f) {
      ReverseWrite(m1, f, 0);
      var r := SetReverse(m1, f, 0).value;
      PtesKept(m1, r);
      ReversedAfter(m, m1, r, f);
      BothWritten(m, m1, r, v, ok, f);
    } else {
      PteAlone(m, m1, v, ok, f);
    }
  }

  lemma PteAlone(m: Mem, m1: Mem, v: Vpn, ok: bool, f: nat)
    requires Sane(m) && PteSet(m, m1, v, ok, 0) && !Covered(m, f)
    requires forall g :: 0 <= g && Covered(m, g) ==> Reverse(m1, g) == Reverse(m, g)
    ensures Written(m, m1, v, f, 0, ok, 0)
  {
  }

  lemma BothWritten(m: Mem, m1: Mem, r: Mem, v: Vpn, ok: bool, f: nat)
    requires Sane(m) && PteSet(m, m1, v, ok, 0) && Sane(r) && SameHost(m1, r) && r.free == m1.free
    requires forall u: Vpn :: PfnAt(r, u) == PfnAt(m1, u) && Pte(r, u) == Pte(m1, u)
    requires forall g :: 0 <= g && Covered(m, g) ==> Reverse(r, g) == if g == f then 0 else Reverse(m, g)
    requires forall h :: 0 <= h < |m.ram| && h !in m.rev ==> r.ram[h] == m1.ram[h]
    ensures Written(m, r, v, f, 0, ok, 0)
  {
  }

  lemma ReversedAfter(m: Mem, m1: Mem, r: Mem, f: nat)
    requires Sane(m) && Sane(m1) && Sane(r) && SameHost(m, m1) && SameHost(m1, r)
    requires forall g :: 0 <= g && Covered(m, g) ==> Reverse(m1, g) == Reverse(m, g)
    requires forall g :: 0 <= g && Covered(m1, g) ==> Reverse(r, g) == if g == f then 0 else Reverse(m1, g)
    ensures forall g :: 0 <= g && Covered(m, g) ==> Reverse(r, g) == if g == f then 0 else Reverse(m, g)
  {
  }

  // ---- what an allocation and a release leave alone

  /** r differs from m in the frames of page v and of its page table alone, and in no byte of a guest page but of that
      page table, which keeps its frame if it had one. */
  ghost predicate OnlyPage(m: Mem, v: Vpn, r: Mem)
    requires Sane(m)
  {
    && Shape(r) && SameHost(m, r)
    && (forall w: Vpn :: w != RamPage(v) && (w != TablePage(v) || PfnAt(m, w) != 0) ==> PfnAt(r, w) == PfnAt(m, w))
    && (forall w: Vpn :: w != TablePage(v) && PfnAt(m, w) != 0 ==> r.ram[PfnAt(m, w)] == m.ram[PfnAt(m, w)])
  }

  /** What an allocation does to the state m1 in which page v has just been given frame f. */
  lemma Taken(m: Mem, m1: Mem, r: Mem, v: Vpn, f: Pfn, ok: bool)
    requires Sane(m) && Sane(m1) && Grown(m, RamPage(v), m1) && m1.ram == m.ram
    requires Backing(m, v) == 0 && Backing(m1, v) == f != 0 && Covered(m, f)
    requires Written(m1, r, v, f, v, ok, Entry(f))
    ensures OnlyPage(m, v, r) && (Inv(m) ==> Inv(r))
  {
    TakenBytes(m, m1, r, v, f, ok);
    if Inv(m) {
      forall u | 0 <= u < r.pages && !Unrecorded(r, u) ensures Agrees(r, u) {
        if u != v {
          assert Backing(r, u) == Backing(m1, u) == Backing(m, u) && Agrees(m, u);
          assert InUse(m, TablePage(u)) && PfnAt(m1, TablePage(u)) == PfnAt(m, TablePage(u)) != 0;
        } else {
          assert InUse(m, TablePage(v)) && PfnAt(m1, TablePage(v)) == PfnAt(m, TablePage(v)) != 0;
        }
      }
    }
  }

  lemma TakenBytes(m: Mem, m1: Mem, r: Mem, v: Vpn, f: Pfn, ok: bool)
    requires Sane(m) && Sane(m1) && Grown(m, RamPage(v), m1) && m1.ram == m.ram
    requires Backing(m, v) == 0 && Written(m1, r, v, f, v, ok, Entry(f))
    ensures OnlyPage(m, v, r)
  {
    forall w: Vpn | w != TablePage(v) && PfnAt(m, w) != 0 ensures r.ram[PfnAt(m, w)] == m.ram[PfnAt(m, w)] {
      assert PfnAt(r, w) == PfnAt(m1, w) == PfnAt(m, w);
    }
  }

  /** Page v, which has frame f in m2, gives it back. */
  lemma Dropped(m: Mem, m2: Mem, v: Vpn, f: nat, ok: bool)
    requires Sane(m) && Written(m, m2, v, f, 0, ok, 0) && Backing(m2, v) == f != 0
    ensures m2.pp[RamPage(v) / 1024].Some?
    ensures var r := SetPfn(m2, RamPage(v), 0).(free := m2.free + {f});
      && Sane(r) && OnlyPage(m, v, r) && Backing(r, v) == 0 && (Inv(m) && !InUse(m, RamPage(v)) ==> Inv(r))
  {
    var r := SetPfn(m2, RamPage(v), 0).(free := m2.free + {f});
    DroppedSane(m2, r, v, f);
    DroppedBytes(m, m2, r, v, f, ok);
    if Inv(m) && !InUse(m, RamPage(v)) {
      DroppedInv(m, m2, r, v, f, ok);
    }
  }

  lemma DroppedSane(m: Mem, r: Mem, v: Vpn, f: nat)
    requires Sane(m) && Shape(r) && Backing(m, v) == f != 0 && SameHost(m, r) && r.free == m.free + {f}
    requires forall w: Vpn :: PfnAt(r, w) == if w == RamPage(v) then 0 else PfnAt(m, w)
    ensures Sane(r)
  {
    forall w: Vpn ensures PfnAt(r, w) !in r.rev && PfnAt(r, w) !in r.free {
      assert 0 !in m.rev;
    }
    forall i | 0 <= i < |r.rev| ensures r.rev[i] !in r.free {
      assert r.rev[i] in m.rev;
    }
  }

  lemma DroppedBytes(m: Mem, m2: Mem, r: Mem, v: Vpn, f: nat, ok: bool)
    requires Sane(m) && Written(m, m2, v, f, 0, ok, 0) && Shape(r) && r.ram == m2.ram && SameHost(m2, r)
    requires forall w: Vpn :: PfnAt(r, w) == if w == RamPage(v) then 0 else PfnAt(m2, w)
    ensures OnlyPage(m, v, r)
  {
    forall w: Vpn | w != TablePage(v) && PfnAt(m, w) != 0 ensures r.ram[PfnAt(m, w)] == m.ram[PfnAt(m, w)] {
      assert PfnAt(m2, w) == PfnAt(m, w);
    }
  }

  lemma DroppedInv(m: Mem, m2: Mem, r: Mem, v: Vpn, f: nat, ok: bool)
    requires Inv(m) && !InUse(m, RamPage(v)) && Written(m, m2, v, f, 0, ok, 0) && Backing(m2, v) == f != 0
    requires Sane(r) && r.ram == m2.ram && SameHost(m2, r)
    requires forall w: Vpn :: PfnAt(r, w) == if w == RamPage(v) then 0 else PfnAt(m2, w)
    ensures Inv(r)
  {
    forall u | 0 <= u < r.pages && !Unrecorded(r, u) ensures Agrees(r, u) {
      assert Backing(r, u) == Backing(m2, u) == Backing(m, u) && Agrees(m, u);
      assert InUse(m, TablePage(u)) && PfnAt(m2, TablePage(u)) == PfnAt(m, TablePage(u)) != 0;
    }
  }

  /** Nothing is recorded about a page without a frame. */
  lemma Erased(m: Mem, r: Mem, v: Vpn, ok: bool)
    requires Sane(m) && PteSet(m, r, v, ok, 0) && Backing(r, v) == 0
    ensures OnlyPage(m, v, r) && (Inv(m) ==> Inv(r) && !InUse(m, RamPage(v)))
  {
    ReverseKept(m, r, TablePage(v));
    forall w: Vpn | w != TablePage(v) && PfnAt(m, w) != 0 ensures r.ram[PfnAt(m, w)] == m.ram[PfnAt(m, w)] {
      assert PfnAt(r, w) == PfnAt(m, w);
    }
    if Inv(m) {
      forall u | 0 <= u < r.pages && !Unrecorded(r, u) ensures Agrees(r, u) {
        assert Backing(r, u) == Backing(m, u) && Agrees(m, u);
        assert InUse(m, TablePage(u)) && PfnAt(m, TablePage(u)) != 0;
      }
    }
  }

  // ---- allocation and release, at every address

  lemma AllocKeeps(m: Mem, v: Vpn, k: Luck, k': Luck)
    requires Sane(m) && Answers(m, v, k, k')
    ensures Sane(AllocAndMap(m, v, k, k').0)
    ensures OnlyPage(m, v, AllocAndMap(m, v, k, k').0)
    ensures Inv(m) ==> Inv(AllocAndMap(m, v, k, k').0)
  {
    EnsureKeeps(m, RamPage(v), k);
    var (m1, e) := Ensure(m, RamPage(v), k);
    if e.Got? && Covered(m, e.frame) {
      ReverseThenPte(m1, v, e.frame, k');
      var (r, ok) := CreatePte(SetReverse(m1, e.frame, v).value, v, e.frame, k');
      Taken(m, m1, r, v, e.frame, ok);
    } else if Inv(m) {
      NothingRecorded(m, m1, v);
    }
  }

  lemma NothingRecorded(m: Mem, m1: Mem, v: Vpn)
    requires Inv(m) && Sane(m1) && Grown(m, RamPage(v), m1) && m1.ram == m.ram
    requires Backing(m1, v) == Backing(m, v) || Unrecorded(m1, v)
    ensures Inv(m1)
  {
    forall u | 0 <= u < m1.pages && !Unrecorded(m1, u) ensures Agrees(m1, u) {
      assert Backing(m1, u) == Backing(m, u) && Agrees(m, u);
      assert InUse(m, TablePage(u)) && PfnAt(m1, TablePage(u)) == PfnAt(m, TablePage(u));
    }
  }

  lemma FreeKeeps(m: Mem, v: Vpn, k: Luck)
    requires Sane(m) && Offered(m, k)
    ensures Sane(FreeAndUnmap(m, v, k).0)
    ensures OnlyPage(m, v, FreeAndUnmap(m, v, k).0)
    ensures Backing(FreeAndUnmap(m, v, k).0, v) == 0
    ensures Inv(m) && !InUse(m, RamPage(v)) ==> Inv(FreeAndUnmap(m, v, k).0)
  {
    if m.pp[RamPage(v) / 1024].Some? {
      PteWrite(m, v, 0, k);
      var (m1, ok) := CreatePte(m, v, 0, k);
      if Backing(m1, v) == 0 {
        Erased(m, m1, v, ok);
      } else {
        PteThenReverse(m, m1, v, ok, Backing(m1, v));
        Dropped(m, Unreversed(m1, Backing(m1, v)), v, Backing(m1, v), ok);
      }
    }
  }

  /** A release keeps the invariant if and only if it is not that of a page-table page of the pseudo RAM. */
  lemma FreeKeepsIff(m: Mem, v: Vpn, k: Luck)
    requires Inv(m) && Offered(m, k)
    ensures Inv(FreeAndUnmap(m, v, k).0) <==> !InUse(m, RamPage(v))
  {
    FreeKeeps(m, v, k);
  }

  /** The first page-table page, which holds the entries of the first 1024 pages: address 0xFEB00000. */
  lemma FreeOfTable(m: Mem, k: Luck)
    requires Inv(m) && m.pages > 0 && Offered(m, k)
    ensures RamPage(0x3_EB00) == TABLES_PAGE && PfnAt(m, TABLES_PAGE) != 0
    ensures var r := FreeAndUnmap(m, 0x3_EB00, k).0; Sane(r) && PfnAt(r, TABLES_PAGE) == 0 && !Inv(r)
  {
    FreeKeeps(m, 0x3_EB00, k);
    assert InUse(m, TABLES_PAGE);
  }

  /** Over clear tables the processor finds the frame of every recorded page of the pseudo RAM, and faults at every
      other one. */
  lemma GuestSees(m: Mem, v: Vpn)
    requires Inv(m) && Blank(m) && v < m.pages
    ensures InUse(m, TablePage(v)) && PfnAt(m, TablePage(v)) < |m.ram|
    ensures Mapped(Pte(m, v)) == if Unrecorded(m, v) then None else Some(Backing(m, v))
  {
    if !Unrecorded(m, v) {
      assert Agrees(m, v);
      EntryMaps(Backing(m, v));
    }
  }

  // ---- the reverse map

  /** The frame that a release of page v gives back, 0 for none: that of the page, or the one that the page has just got
      because it holds its own page-table entry. */
  function Released(m: Mem, v: Vpn, k: Luck): (f: nat)
    requires InRange(m)
  {
    if m.pp[RamPage(v) / 1024].None? then 0 else Backing(CreatePte(m, v, 0, k).0, v)
  }

  lemma ReleasedIs(m: Mem, v: Vpn, k: Luck)
    requires Sane(m) && Offered(m, k) && m.pp[RamPage(v) / 1024].Some?
    ensures Backing(m, v) != 0 || RamPage(v) != TablePage(v) ==> Released(m, v, k) == Backing(m, v)
  {
    PteWrite(m, v, 0, k);
  }

  /** A release clears the reverse entry of the frame that it gives back, where there is a cell, and no other; it
      succeeds if and only if the page's group has a page with a frame or ever had one. */
  lemma FreeReverse(m: Mem, v: Vpn, k: Luck)
    requires Sane(m) && Offered(m, k)
    ensures var (r, ok) := FreeAndUnmap(m, v, k);
      && Sane(r) && SameHost(m, r) && (ok <==> m.pp[RamPage(v) / 1024].Some?) && (!ok ==> r == m)
      && (Backing(m, v) != 0 ==> ok && Released(m, v, k) == Backing(m, v))
      && forall g :: 0 <= g && Covered(m, g) ==>
           Reverse(r, g) == if g != 0 && g == Released(m, v, k) then 0 else Reverse(m, g)
  {
    FreeKeeps(m, v, k);
    if m.pp[RamPage(v) / 1024].Some? {
      ReleasedIs(m, v, k);
      PteWrite(m, v, 0, k);
      var (m1, ok) := CreatePte(m, v, 0, k);
      ReverseKept(m, m1, TablePage(v));
      if Backing(m1, v) != 0 {
        PteThenReverse(m, m1, v, ok, Backing(m1, v));
      }
    }
  }

  /** An allocation makes the reverse entry of a new frame that of the page, where there is a cell, and changes no
      other. */
  lemma AllocReverse(m: Mem, v: Vpn, k: Luck, k': Luck)
    requires Sane(m) && Answers(m, v, k, k')
    ensures var r, e := AllocAndMap(m, v, k, k').0, Ensure(m, RamPage(v), k).1;
      && Sane(r) && SameHost(m, r)
      && forall g :: 0 <= g && Covered(m, g) ==> Reverse(r, g) == if e == Got(g) then v else Reverse(m, g)
  {
    EnsureKeeps(m, RamPage(v), k);
    AllocKeeps(m, v, k, k');
    var (m1, e) := Ensure(m, RamPage(v), k);
    if e.Got? && Covered(m, e.frame) {
      ReverseThenPte(m1, v, e.frame, k');
    }
  }

  /** A frame that the host may hand out has no reverse entry. */
  ghost predicate CellClear(m: Mem, f: nat)
    requires Sane(m)
  {
    f in m.free && Covered(m, f) ==> Reverse(m, f) == 0
  }

  lemma FreeClears(m: Mem, v: Vpn, k: Luck, f: nat)
    requires Sane(m) && Offered(m, k) && CellClear(m, f)
    ensures Sane(FreeAndUnmap(m, v, k).0) && CellClear(FreeAndUnmap(m, v, k).0, f)
  {
    FreeReverse(m, v, k);
    if m.pp[RamPage(v) / 1024].Some? {
      PteWrite(m, v, 0, k);
    }
  }

  lemma AllocClears(m: Mem, v: Vpn, k: Luck, k': Luck, f: nat)
    requires Sane(m) && Answers(m, v, k, k') && CellClear(m, f)
    ensures Sane(AllocAndMap(m, v, k, k').0) && CellClear(AllocAndMap(m, v, k, k').0, f)
  {
    AllocReverse(m, v, k, k');
    EnsureKeeps(m, RamPage(v), k);
    var (m1, e) := Ensure(m, RamPage(v), k);
    if e.Got? && Covered(m, e.frame) {
      ReverseThenPte(m1, v, e.frame, k');
      assert e.frame !in AllocAndMap(m, v, k, k').0.free;
    }
  }

  // ---- page-table entries

  /** What one allocation does to page-table entries: the entry of the page becomes that of its new frame if the reverse
      map covers the frame, and every other entry stays. */
  lemma AllocEntries(m: Mem, v: Vpn, k: Luck, k': Luck)
    requires Inv(m) && Answers(m, v, k, k')
    ensures Inv(AllocAndMap(m, v, k, k').0)
    ensures var r, e := AllocAndMap(m, v, k, k').0, Ensure(m, RamPage(v), k).1;
      forall u :: 0 <= u < m.pages ==>
        Pte(r, u) == if u == v && e.Got? && Covered(m, e.frame) then Entry(e.frame) else Pte(m, u)
  {
    AllocKeeps(m, v, k, k');
    EnsureKeeps(m, RamPage(v), k);
    var (m1, e) := Ensure(m, RamPage(v), k);
    assert forall u :: 0 <= u < m.pages ==> InUse(m, TablePage(u));
    if e.Got? && Covered(m, e.frame) {
      ReverseThenPte(m1, v, e.frame, k');
    }
  }

  lemma AllocBlank(m: Mem, v: Vpn, k: Luck, k': Luck)
    requires Inv(m) && Blank(m) && Answers(m, v, k, k')
    ensures Inv(AllocAndMap(m, v, k, k').0) && Blank(AllocAndMap(m, v, k, k').0)
  {
    AllocEntries(m, v, k, k');
    AllocKeeps(m, v, k, k');
    EnsureKeeps(m, RamPage(v), k);
    AllocBacking(m, v, k, k');
    var r := AllocAndMap(m, v, k, k').0;
    forall u | 0 <= u < m.pages && Unrecorded(r, u) ensures Pte(r, u) == 0 {
      if u != v {
        assert Backing(r, u) == Backing(m, u) && Unrecorded(m, u);
      }
    }
  }

  lemma AllocBacking(m: Mem, v: Vpn, k: Luck, k': Luck)
    requires Sane(m) && Answers(m, v, k, k')
    ensures Sane(AllocAndMap(m, v, k, k').0)
    ensures Backing(AllocAndMap(m, v, k, k').0, v) ==
      if Ensure(m, RamPage(v), k).1.Got? then k.frame.value else Backing(m, v)
  {
    AllocKeeps(m, v, k, k');
    EnsureKeeps(m, RamPage(v), k);
    var (m1, e) := Ensure(m, RamPage(v), k);
    if e.Got? && Covered(m, e.frame) {
      ReverseThenPte(m1, v, e.frame, k');
    }
  }

  /** A page that gets a frame is recorded alike everywhere if and only if the reverse map covers the frame that the
      host offers, or the page-table entry happened to be that frame's before; never the latter over clear tables. */
  lemma AllocAgreesIff(m: Mem, v: Vpn, k: Luck, k': Luck)
    requires Inv(m) && v < m.pages && Answers(m, v, k, k') && Ensure(m, RamPage(v), k).1.Got?
    ensures Inv(AllocAndMap(m, v, k, k').0)
    ensures var f := k.frame.value;
      && (Agrees(AllocAndMap(m, v, k, k').0, v) <==> Covered(m, f) || Pte(m, v) == Entry(f))
      && (Blank(m) ==> Pte(m, v) != Entry(f))
  {
    AllocEntries(m, v, k, k');
    AllocBacking(m, v, k, k');
    EnsureKeeps(m, RamPage(v), k);
    assert Backing(m, v) == 0;
  }

  /** Over clear tables, exactly the pages whose frame lies within the reverse map are recorded alike everywhere. */
  lemma AgreeIffCovered(m: Mem, v: Vpn)
    requires Inv(m) && Blank(m) && v < m.pages && Backing(m, v) != 0
    ensures Agrees(m, v) <==> Covered(m, Backing(m, v))
  {
    if !Covered(m, Backing(m, v)) {
      assert Pte(m, v) == 0 != Entry(Backing(m, v));
    }
  }

  /** A call succeeds exactly when the page was there, or a frame that the reverse map covers was found for it and its
      page table is there now; the page tables of the pseudo RAM always are. */
  lemma AllocSucceedsIff(m: Mem, v: Vpn, k: Luck, k': Luck)
    requires Sane(m) && Answers(m, v, k, k')
    ensures Sane(AllocAndMap(m, v, k, k').0)
    ensures var (r, ok), e := AllocAndMap(m, v, k, k'), Ensure(m, RamPage(v), k).1;
      && (ok <==> Backing(m, v) != 0 || (e.Got? && Covered(m, k.frame.value) && PfnAt(r, TablePage(v)) != 0))
      && (ok ==> Backing(r, v) != 0)
      && (Inv(m) && v < m.pages ==> PfnAt(r, TablePage(v)) != 0)
  {
    AllocKeeps(m, v, k, k');
    AllocBacking(m, v, k, k');
    EnsureKeeps(m, RamPage(v), k);
    var (m1, e) := Ensure(m, RamPage(v), k);
    if e.Got? && Covered(m, e.frame) {
      ReverseThenPte(m1, v, e.frame, k');
    }
    if Inv(m) && v < m.pages {
      assert InUse(m, TablePage(v));
    }
  }

  /** A frame beyond the reverse map makes the call fail and stays in the forward map, with the page-table entry as it
      was: the next call then succeeds and changes nothing. */
  lemma UncoveredFrameStays(m: Mem, v: Vpn, k: Luck, k': Luck, l: Luck, l': Luck)
    requires Inv(m) && Answers(m, v, k, k')
    requires Ensure(m, RamPage(v), k).1.Got? && !Covered(m, k.frame.value)
    ensures var r := AllocAndMap(m, v, k, k');
      && !r.1 && Inv(r.0) && Backing(r.0, v) == k.frame.value
      && (v < m.pages ==> Pte(r.0, v) == Pte(m, v) && (Blank(m) ==> Pte(r.0, v) == 0 && !Agrees(r.0, v)))
      && AllocAndMap(r.0, v, l, l') == (r.0, true)
  {
    AllocKeeps(m, v, k, k');
    EnsureKeeps(m, RamPage(v), k);
    AllocEntries(m, v, k, k');
    if v < m.pages {
      AllocAgreesIff(m, v, k, k');
    }
    assert Backing(m, v) == 0;
  }

  /** A release that keeps the invariant changes no entry of the pseudo RAM but its own. */
  lemma FreeEntries(m: Mem, v: Vpn, k: Luck)
    requires Inv(m) && Offered(m, k) && !InUse(m, RamPage(v))
    ensures Inv(FreeAndUnmap(m, v, k).0)
    ensures var (r, ok) := FreeAndUnmap(m, v, k);
      forall u :: 0 <= u < m.pages ==> Pte(r, u) == if u == v && ok then 0 else Pte(m, u)
  {
    FreeKeeps(m, v, k);
    if m.pp[RamPage(v) / 1024].Some? {
      PteWrite(m, v, 0, k);
      var (m1, ok) := CreatePte(m, v, 0, k);
      assert forall u :: 0 <= u < m.pages ==> InUse(m, TablePage(u));
      if Backing(m1, v) != 0 {
        PteThenReverse(m, m1, v, ok, Backing(m1, v));
        EntriesStay(m, Unreversed(m1, Backing(m1, v)), v);
      }
    }
  }

  lemma EntriesStay(m: Mem, m2: Mem, v: Vpn)
    requires Sane(m2) && SameHost(m, m2) && m2.pp[RamPage(v) / 1024].Some? && !InUse(m, RamPage(v))
    ensures var r := SetPfn(m2, RamPage(v), 0);
      forall u :: 0 <= u < m.pages ==> PfnAt(r, TablePage(u)) < |r.ram| && Pte(r, u) == Pte(m2, u)
  {
    assert forall u :: 0 <= u < m.pages ==> InUse(m, TablePage(u));
  }

  lemma FreeBlank(m: Mem, v: Vpn, k: Luck)
    requires Inv(m) && Blank(m) && Offered(m, k) && !InUse(m, RamPage(v))
    ensures Inv(FreeAndUnmap(m, v, k).0) && Blank(FreeAndUnmap(m, v, k).0)
  {
    FreeKeeps(m, v, k);
    FreeEntries(m, v, k);
    var r := FreeAndUnmap(m, v, k).0;
    forall u | 0 <= u < m.pages && Unrecorded(r, u) ensures Pte(r, u) == 0 {
      if u != v {
        assert Backing(r, u) == Backing(m, u) && Unrecorded(m, u);
      } else if !FreeAndUnmap(m, v, k).1 {
        assert Backing(m, v) == 0;
      }
    }
  }

  // ---- frames

  /** The frames that guest pages hold, and those still free: none is lost, none held twice. */
  ghost predicate SameFrames(m: Mem, r: Mem)
    requires Shape(m) && Shape(r)
  {
    forall f :: 0 < f < |m.ram| ==> (Used(m, f) || f in m.free <==> Used(r, f) || f in r.free)
  }

  ghost predicate Used(m: Mem, f: nat)
    requires Shape(m)
  {
    exists v: Vpn :: PfnAt(m, v) == f
  }

  lemma FramesBut(m: Mem, r: Mem, p: Vpn)
    requires Shape(m) && Shape(r)
    requires forall w: Vpn :: w != p ==> PfnAt(r, w) == PfnAt(m, w)
    requires forall f :: 0 < f < |m.ram| ==> (f == PfnAt(m, p) || f in m.free <==> f == PfnAt(r, p) || f in r.free)
    ensures SameFrames(m, r)
  {
    forall f | 0 < f < |m.ram| ensures Used(m, f) || f in m.free <==> Used(r, f) || f in r.free {
      UsedBut(m, r, p, f);
    }
  }

  lemma UsedBut(m: Mem, r: Mem, p: Vpn, f: nat)
    requires Shape(m) && Shape(r)
    requires forall w: Vpn :: w != p ==> PfnAt(r, w) == PfnAt(m, w)
    ensures Used(m, f) || f == PfnAt(r, p) <==> Used(r, f) || f == PfnAt(m, p)
  {
    if Used(m, f) {
      var w: Vpn :| PfnAt(m, w) == f;
      assert w == p || PfnAt(r, w) == f;
    }
    if Used(r, f) {
      var w: Vpn :| PfnAt(r, w) == f;
      assert w == p || PfnAt(m, w) == f;
    }
  }

  lemma FramesThen(m: Mem, m1: Mem, r: Mem)
    requires Shape(m) && Shape(m1) && Shape(r) && |m1.ram| == |m.ram| && SameFrames(m, m1) && SameFrames(m1, r)
    ensures SameFrames(m, r)
  {
  }

  lemma EnsureFrames(m: Mem, p: Vpn, k: Luck)
    requires Sane(m) && Offered(m, k)
    ensures SameFrames(m, Ensure(m, p, k).0)
  {
    EnsureKeeps(m, p, k);
    FramesBut(m, Ensure(m, p, k).0, p);
  }

  lemma PteFrames(m: Mem, v: Vpn, f: Pfn, k: Luck)
    requires Sane(m) && Offered(m, k)
    ensures SameFrames(m, CreatePte(m, v, f, k).0)
  {
    EnsureFrames(m, TablePage(v), k);
    FramesBut(Ensure(m, TablePage(v), k).0, CreatePte(m, v, f, k).0, 0);
    FramesThen(m, Ensure(m, TablePage(v), k).0, CreatePte(m, v, f, k).0);
  }

  lemma AllocFrames(m: Mem, v: Vpn, k: Luck, k': Luck)
    requires Sane(m) && Answers(m, v, k, k')
    ensures Sane(AllocAndMap(m, v, k, k').0) && SameFrames(m, AllocAndMap(m, v, k, k').0)
  {
    AllocKeeps(m, v, k, k');
    EnsureKeeps(m, RamPage(v), k);
    EnsureFrames(m, RamPage(v), k);
    var (m1, e) := Ensure(m, RamPage(v), k);
    if e.Got? && Covered(m, e.frame) {
      var m2 := SetReverse(m1, e.frame, v).value;
      ReverseWrite(m1, e.frame, v);
      FramesBut(m1, m2, 0);
      PteFrames(m2, v, e.frame, k');
      FramesThen(m, m1, m2);
      FramesThen(m, m2, CreatePte(m2, v, e.frame, k').0);
    }
  }

  lemma DropFrames(m: Mem, v: Vpn)
    requires Sane(m)
    ensures var f := Backing(m, v);
      if f == 0 then SameFrames(m, m)
      else SameFrames(m, SetPfn(Unreversed(m, f), RamPage(v), 0).(free := m.free + {f}))
  {
    var f := Backing(m, v);
    FramesBut(m, if f == 0 then m else SetPfn(Unreversed(m, f), RamPage(v), 0).(free := m.free + {f}), RamPage(v));
  }

  lemma FreeFrames(m: Mem, v: Vpn, k: Luck)
    requires Sane(m) && Offered(m, k)
    ensures Sane(FreeAndUnmap(m, v, k).0) && SameFrames(m, FreeAndUnmap(m, v, k).0)
  {
    FreeKeeps(m, v, k);
    if m.pp[RamPage(v) / 1024].Some? {
      PteWrite(m, v, 0, k);
      PteFrames(m, v, 0, k);
      var (m1, ok) := CreatePte(m, v, 0, k);
      DropFrames(m1, v);
      FramesThen(m, m1, FreeAndUnmap(m, v, k).0);
    } else {
      FramesBut(m, m, 0);
    }
  }

  // ---- lists of page-table entries

  /** How far y lies ahead of a, where counting starts again at `top`. */
  function Ahead(a: nat, y: nat, top: nat): (d: nat)
    requires a < top && y < top
    ensures d < top
  {
    if y >= a then y - a else y + top - a
  }

  /** n further on. */
  function Past(a: nat, n: nat, top: nat): (y: nat)
    requires a < top && n < top
    ensures y < top
  {
    if a + n < top then a + n else a + n - top
  }

  /** The words of the address space. */
  const WORDS: nat := 0x4000_0000

  /** create_ptes_callback: consecutive entries of one page. */
  function PutEntries(ram: seq<Page>, frame: nat, i: nat, fs: seq<Pfn>): (r: seq<Page>)
    requires frame < |ram| && i + |fs| <= 1024
    ensures |r| == |ram|
  {
    if fs == [] then ram
    else
      var n := |fs| - 1;
      PutWord(PutEntries(ram, frame, i, fs[..n]), frame, i + n, Entry(fs[n]))
  }

  lemma {:induction false} PutEntriesAt(ram: seq<Page>, frame: nat, i: nat, fs: seq<Pfn>, g: nat, j: nat)
    requires frame < |ram| && i + |fs| <= 1024 && g < |ram| && j < 1024
    ensures Word(PutEntries(ram, frame, i, fs)[g], j) ==
      if g == frame && i <= j < i + |fs| then Entry(fs[j - i]) else Word(ram[g], j)
    decreases |fs|
  {
    if fs != [] {
      PutEntriesAt(ram, frame, i, fs[..|fs| - 1], g, j);
    }
  }

  /** The entries in page p, which is allocated when it is missing. */
  function PutPart(m: Mem, p: Vpn, i: nat, fs: seq<Pfn>, k: Luck): (r: (Mem, bool))
    requires InRange(m) && i + |fs| <= 1024
    ensures InRange(r.0)
  {
    var (m1, e) := Ensure(m, p, k);
    if e.Failed? then (m1, false)
    else
      var r := m1.(ram := PutEntries(m1.ram, e.frame, i, fs));
      assert forall w: Vpn :: PfnAt(r, w) == PfnAt(m1, w);
      (r, true)
  }

  lemma OneEntry(m: Mem, v: Vpn, f: Pfn, k: Luck)
    requires InRange(m)
    ensures PutPart(m, TablePage(v), v % 1024, [f], k) == CreatePte(m, v, f, k)
  {
    var (m1, e) := Ensure(m, TablePage(v), k);
    if !e.Failed? {
      assert [f][..0] == [];
      assert PutEntries(m1.ram, e.frame, v % 1024, [f]) == PutWord(m1.ram, e.frame, v % 1024, Entry(f));
    }
  }

  lemma PartFrames(m: Mem, p: Vpn, i: nat, fs: seq<Pfn>, k: Luck)
    requires Sane(m) && Offered(m, k) && i + |fs| <= 1024
    ensures SameFrames(m, PutPart(m, p, i, fs, k).0) && SameHost(m, PutPart(m, p, i, fs, k).0)
  {
    EnsureKeeps(m, p, k);
    EnsureFrames(m, p, k);
    FramesBut(Ensure(m, p, k).0, PutPart(m, p, i, fs, k).0, 0);
    FramesThen(m, Ensure(m, p, k).0, PutPart(m, p, i, fs, k).0);
  }

  /** Word j of page w. */
  function WordAt(m: Mem, w: Vpn, j: nat): (x: u32)
    requires InRange(m) && j < 1024
  {
    Word(m.ram[PfnAt(m, w)], j)
  }

  lemma PartWords(m: Mem, p: Vpn, i: nat, fs: seq<Pfn>, k: Luck, w: Vpn, j: nat)
    requires Sane(m) && Offered(m, k) && i + |fs| <= 1024 && j < 1024
    ensures var (r, ok) := PutPart(m, p, i, fs, k);
      && Sane(r) && Grown(m, p, r) && (ok ==> PfnAt(r, p) != 0)
      && (ok && w == p && i <= j < i + |fs| ==> WordAt(r, w, j) == Entry(fs[j - i]))
      && (!(w == p && i <= j < i + |fs|) && PfnAt(m, w) != 0 ==> WordAt(r, w, j) == WordAt(m, w, j))
  {
    EnsureKeeps(m, p, k);
    var (m1, e) := Ensure(m, p, k);
    var r := PutPart(m, p, i, fs, k).0;
    assert forall u: Vpn :: PfnAt(r, u) == PfnAt(m1, u);
    if !e.Failed? {
      PutEntriesAt(m1.ram, e.frame, i, fs, PfnAt(m1, w), j);
    }
  }

  /** r is m with the entries for fs from word a on: they lie at consecutive words, through the end of the address space
      if need be; here seen at word j of page w. */
  ghost predicate Listed(m: Mem, r: Mem, a: nat, fs: seq<Pfn>, w: Vpn, j: nat)
    requires InRange(m) && InRange(r) && a < WORDS && j < 1024
  {
    var d := Ahead(a, 1024 * w + j, WORDS);
    && (PfnAt(m, w) != 0 ==> PfnAt(r, w) == PfnAt(m, w))
    && (d < |fs| ==> PfnAt(r, w) != 0 && WordAt(r, w, j) == Entry(fs[d]))
    && (d >= |fs| && PfnAt(m, w) != 0 ==> WordAt(r, w, j) == WordAt(m, w, j))
  }

  ghost predicate AllListed(m: Mem, r: Mem, a: nat, fs: seq<Pfn>)
    requires InRange(m) && InRange(r) && a < WORDS
  {
    forall w: Vpn, j :: 0 <= j < 1024 ==> Listed(m, r, a, fs, w, j)
  }

  /** Entries that do not leave their page. */
  lemma PartListed(m: Mem, p: Vpn, i: nat, fs: seq<Pfn>, k: Luck)
    requires Sane(m) && Offered(m, k) && fs != [] && i + |fs| <= 1024
    ensures var (r, ok) := PutPart(m, p, i, fs, k); Sane(r) && AllListed(m, r, 1024 * p + i, if ok then fs else [])
  {
    var (r, ok) := PutPart(m, p, i, fs, k);
    var gs, a := if ok then fs else [], 1024 * p + i;
    PartWords(m, p, i, fs, k, 0, 0);
    forall w: Vpn, j | 0 <= j < 1024 ensures Listed(m, r, a, gs, w, j) {
      PartWords(m, p, i, fs, k, w, j);
      SlotsAhead(p, i, |fs|, w, j);
    }
  }

  lemma SlotsAhead(p: Vpn, i: nat, n: nat, w: Vpn, j: nat)
    requires i < 1024 && j < 1024 && n <= 1024 - i
    ensures var a, y := 1024 * p + i, 1024 * w + j;
      && (Ahead(a, y, WORDS) < n <==> w == p && i <= j < i + n)
      && (w == p && i <= j < i + n ==> Ahead(a, y, WORDS) == j - i)
  {
  }

  /** ... and lists one after the other. */
  lemma ListedThen(m: Mem, m1: Mem, r: Mem, a: nat, fs: seq<Pfn>, gs: seq<Pfn>)
    requires InRange(m) && InRange(m1) && InRange(r) && a < WORDS && |fs| + |gs| < WORDS
    requires AllListed(m, m1, a, fs) && AllListed(m1, r, Past(a, |fs|, WORDS), gs)
    ensures AllListed(m, r, a, fs + gs)
  {
    forall w: Vpn, j | 0 <= j < 1024 ensures Listed(m, r, a, fs + gs, w, j) {
      assert Listed(m, m1, a, fs, w, j) && Listed(m1, r, Past(a, |fs|, WORDS), gs, w, j);
      AheadPast(a, |fs|, 1024 * w + j, WORDS);
    }
  }

  lemma AheadPast(a: nat, n: nat, y: nat, top: nat)
    requires a < top && n < top && y < top
    ensures var d := Ahead(a, y, top); Ahead(Past(a, n, top), y, top) == if d >= n then d - n else d + top - n
  {
  }
}
