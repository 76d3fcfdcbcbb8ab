/** Whole runs of allocation, release and copying, and the operations in place. */
module GuestMonitor {
  import opened Bytes
  import opened GuestPages
  import opened GuestMemory

  // ---- runs

  /** Requests for page v of the whole address space, and a copy from the host to address a. */
  datatype Request = Alloc(v: Vpn, k: Luck, k': Luck) | Free(v: Vpn, k: Luck) | Write(a: u32, bs: seq<byte>)

  /** The host hands out frames it has; sizes have 32 bits. */
  ghost predicate Offers(m: Mem, q: Request)
    requires Sane(m)
  {
    match q
    case Alloc(v, k, k') => Answers(m, v, k, k')
    case Free(_, k) => Offered(m, k)
    case Write(_, bs) => |bs| < SPACE
  }

  ghost function Apply(m: Mem, q: Request): (r: Mem)
    requires Sane(m)
  {
    match q
    case Alloc(v, k, k') => AllocAndMap(m, v, k, k').0
    case Free(v, k) => FreeAndUnmap(m, v, k).0
    case Write(a, bs) => ToGuest(m, a, bs).0
  }

  /** No frame is lost or has two uses, and nothing fixed at start-up has changed since m. */
  ghost predicate Steady(m: Mem, r: Mem)
    requires Shape(m)
  {
    Sane(r) && SameFrames(m, r) && SameHost(m, r)
  }

  lemma AllocStep(m: Mem, v: Vpn, k: Luck, k': Luck)
    requires Sane(m) && Answers(m, v, k, k')
    ensures Steady(m, AllocAndMap(m, v, k, k').0)
  {
    AllocFrames(m, v, k, k');
    AllocKeeps(m, v, k, k');
  }

  lemma FreeStep(m: Mem, v: Vpn, k: Luck)
    requires Sane(m) && Offered(m, k)
    ensures Steady(m, FreeAndUnmap(m, v, k).0)
  {
    FreeFrames(m, v, k);
    FreeKeeps(m, v, k);
  }

  lemma WriteStep(m: Mem, a: u32, bs: seq<byte>)
    requires Sane(m)
    ensures Steady(m, ToGuest(m, a, bs).0)
  {
    RecordsAfter(m, a, bs);
    FramesBut(m, ToGuest(m, a, bs).0, 0);
  }

  /** Any request, at any address. */
  ghost function Step(m: Mem, q: Request): (r: Mem)
    requires Sane(m) && Offers(m, q)
    ensures Steady(m, r)
  {
    match q
    case Alloc(v, k, k') =>
      AllocStep(m, v, k, k');
      AllocAndMap(m, v, k, k').0
    case Free(v, k) =>
      FreeStep(m, v, k);
      FreeAndUnmap(m, v, k).0
    case Write(a, bs) =>
      WriteStep(m, a, bs);
      ToGuest(m, a, bs).0
  }

  /** Every release but that of a page-table page of the pseudo RAM, and every copy that is harmless. */
  ghost predicate Keeping(m: Mem, q: Request)
    requires Sane(m)
  {
    match q
    case Alloc(_, _, _) => true
    case Free(v, _) => !InUse(m, RamPage(v))
    case Write(a, bs) => Harmless(m, a, bs)
  }

  /** A request keeps the invariant if and only if it is one of these. */
  lemma StepKeepsIff(m: Mem, q: Request)
    requires Inv(m) && Offers(m, q)
    ensures Inv(Step(m, q)) <==> Keeping(m, q)
  {
    match q
    case Alloc(v, k, k') => AllocKeeps(m, v, k, k');
    case Free(v, k) => FreeKeepsIff(m, v, k);
    case Write(a, bs) => ToGuestKeepsIff(m, a, bs);
  }

  /** The request changes no page-table entry but its own. */
  predicate Careful(m: Mem, q: Request)
    requires InRange(m)
  {
    match q
    case Write(a, bs) => Tidy(m, a, bs)
    case _ => true
  }

  lemma StepBlank(m: Mem, q: Request)
    requires Inv(m) && Blank(m) && Offers(m, q) && Keeping(m, q) && Careful(m, q)
    ensures Blank(Step(m, q))
  {
    match q
    case Alloc(v, k, k') => AllocBlank(m, v, k, k');
    case Free(v, k) => FreeBlank(m, v, k);
    case Write(a, bs) => ToGuestTidy(m, a, bs);
  }

  /** r is the state after the requests, the host's answers being possible in the states they meet. */
  ghost predicate Reaches(m: Mem, qs: seq<Request>, r: Mem)
    requires Sane(m)
    decreases |qs|
  {
    if qs == [] then r == m else Offers(m, qs[0]) && Reaches(Step(m, qs[0]), qs[1..], r)
  }

  /** After every run of any requests at any addresses: no frame is lost, none backs two guest pages, and none of the
      guest's or the host's frames lies in the reverse map. */
  lemma {:induction false} RunSafe(m: Mem, qs: seq<Request>, r: Mem)
    requires Sane(m) && Reaches(m, qs, r)
    ensures Steady(m, r)
    decreases |qs|
  {
    if qs == [] {
      FramesBut(m, m, 0);
    } else {
      RunSafe(Step(m, qs[0]), qs[1..], r);
      FramesThen(m, Step(m, qs[0]), r);
    }
  }

  lemma StepClears(m: Mem, q: Request, f: nat)
    requires Sane(m) && Offers(m, q) && CellClear(m, f)
    ensures CellClear(Step(m, q), f)
  {
    match q
    case Alloc(v, k, k') => AllocClears(m, v, k, k', f);
    case Free(v, k) => FreeClears(m, v, k, f);
    case Write(a, bs) => RecordsAfter(m, a, bs);
  }

  /** After every run of any requests at any addresses: a frame that the host may hand out has no reverse entry, if it
      had none when the run began. */
  lemma {:induction false} RunClears(m: Mem, qs: seq<Request>, r: Mem, f: nat)
    requires Sane(m) && Reaches(m, qs, r) && CellClear(m, f)
    ensures Sane(r) && CellClear(r, f)
    decreases |qs|
  {
    if qs != [] {
      StepClears(m, qs[0], f);
      RunClears(Step(m, qs[0]), qs[1..], r, f);
    }
  }

  /** All requests of the run are of the kind that keeps the invariant; `careful`: and change no other entries. */
  ghost predicate AllKeeping(m: Mem, qs: seq<Request>, careful: bool)
    requires Sane(m)
    decreases |qs|
  {
    qs == [] || (Offers(m, qs[0]) && Keeping(m, qs[0]) && (careful ==> Careful(m, qs[0])) &&
      AllKeeping(Step(m, qs[0]), qs[1..], careful))
  }

  lemma {:induction false} RunKept(m: Mem, qs: seq<Request>, r: Mem, careful: bool)
    requires Inv(m) && Reaches(m, qs, r) && AllKeeping(m, qs, careful)
    ensures Inv(r) && (careful && Blank(m) ==> Blank(r))
    decreases |qs|
  {
    if qs != [] {
      StepKeepsIff(m, qs[0]);
      if careful && Blank(m) {
        StepBlank(m, qs[0]);
      }
      RunKept(Step(m, qs[0]), qs[1..], r, careful);
    }
  }

  /** After every run of requests that keep the invariant: the records of every page agree whose frame the reverse map
      covers, and over clear tables the records of no other page do; they all agree when the host's memory is a whole
      number of reverse-map pages. */
  lemma RunConsistent(m: Mem, qs: seq<Request>, r: Mem, careful: bool)
    requires Inv(m) && Reaches(m, qs, r) && AllKeeping(m, qs, careful)
    ensures Steady(m, r) && Inv(r)
    ensures forall v :: 0 <= v < r.pages && Backing(r, v) != 0 && Covered(r, Backing(r, v)) ==> Agrees(r, v)
    ensures careful && Blank(m) ==>
      forall v :: 0 <= v < r.pages && Backing(r, v) != 0 ==> (Agrees(r, v) <==> Covered(r, Backing(r, v)))
    ensures |m.ram| % 1024 == 0 ==> forall v :: 0 <= v < r.pages && Backing(r, v) != 0 ==> Agrees(r, v)
  {
    RunSafe(m, qs, r);
    RunKept(m, qs, r, careful);
    if careful && Blank(m) {
      forall v | 0 <= v < r.pages && Backing(r, v) != 0 ensures Agrees(r, v) <==> Covered(r, Backing(r, v)) {
        AgreeIffCovered(r, v);
      }
    }
    assert Apart(r);
  }

  // ---- ranges of pages, which may wrap around the address space

  const PAGES: nat := 0x10_0000

  /** virtual_pfn of guest page p. */
  function Virtual(p: Vpn): (v: Vpn)
    ensures RamPage(v) == p
  {
    if p >= KERNEL_PAGE then p - KERNEL_PAGE else p + 0x4_0000
  }

  lemma VirtualPfn(a: u32)
    ensures (a as int - KERNEL_OFFSET) % SPACE / 4096 == Virtual(a / 4096)
  {
    if a < KERNEL_OFFSET {
      assert (a as int - KERNEL_OFFSET) % SPACE == a + 0x4000_0000;
    }
  }

  /** Guest page w has in r the frame and the bytes that it has in m. */
  ghost predicate Unchanged(m: Mem, r: Mem, w: Vpn)
    requires Sane(m) && Sane(r) && SameHost(m, r)
  {
    PfnAt(r, w) == PfnAt(m, w) && (PfnAt(m, w) != 0 ==> r.ram[PfnAt(m, w)] == m.ram[PfnAt(m, w)])
  }

  /** So have all pages outside the n pages from p on, page tables aside. */
  ghost predicate Elsewhere(m: Mem, p: Vpn, n: nat, r: Mem)
    requires Sane(m) && Steady(m, r)
  {
    forall w: Vpn :: !IsTable(w) && Ahead(p, w, PAGES) >= n ==> Unchanged(m, r, w)
  }

  lemma OneElsewhere(m: Mem, v: Vpn, r: Mem, w: Vpn)
    requires Sane(m) && Steady(m, r) && OnlyPage(m, v, r) && !IsTable(w) && w != RamPage(v)
    ensures Unchanged(m, r, w)
  {
  }

  lemma ElsewhereNext(m: Mem, p: Vpn, n: nat, r: Mem, v: Vpn, s: Mem)
    requires Sane(m) && Steady(m, r) && Elsewhere(m, p, n, r) && Steady(r, s) && OnlyPage(r, v, s)
    requires Ahead(p, RamPage(v), PAGES) < n
    ensures Steady(m, s) && Elsewhere(m, p, n, s)
  {
    FramesThen(m, r, s);
    forall w: Vpn | !IsTable(w) && Ahead(p, w, PAGES) >= n ensures Unchanged(m, s, w) {
      assert Unchanged(m, r, w);
      OneElsewhere(r, v, s, w);
    }
  }

  lemma ElsewhereThen(m: Mem, p: Vpn, n: nat, r: Mem, l: nat, s: Mem)
    requires Sane(m) && Steady(m, r) && Elsewhere(m, p, n, r) && Steady(r, s) && Elsewhere(r, p, l, s) && l <= n
    ensures Steady(m, s) && Elsewhere(m, p, n, s)
  {
    FramesThen(m, r, s);
    forall w: Vpn | !IsTable(w) && Ahead(p, w, PAGES) >= n ensures Unchanged(m, s, w) {
      assert Unchanged(m, r, w) && Unchanged(r, s, w);
    }
  }

  /** None of the j pages from p on is a page-table page of the pseudo RAM. */
  ghost predicate NoTables(m: Mem, p: Vpn, j: nat) { forall t: Vpn :: InUse(m, t) ==> Ahead(p, t, PAGES) >= j }

  /** One is, and has lost its frame. */
  ghost predicate Gone(m: Mem, p: Vpn, j: nat)
    requires Shape(m)
  {
    exists t: Vpn :: InUse(m, t) && p <= t < p + j && PfnAt(m, t) == 0
  }

  /** r is m after the release of j of the n pages from p on. */
  ghost predicate Freeing(m: Mem, p: Vpn, n: nat, j: nat, r: Mem)
    requires Sane(m)
  {
    && Steady(m, r) && Elsewhere(m, p, n, r)
    && (forall w: Vpn :: !IsTable(w) && Ahead(p, w, PAGES) < j ==> PfnAt(r, w) == 0)
    && (Inv(m) && NoTables(m, p, j) ==> Inv(r))
    && (!NoTables(m, p, j) && p + j <= PAGES ==> Gone(r, p, j))
  }

  lemma FreeingNone(m: Mem, p: Vpn, n: nat)
    requires Sane(m)
    ensures Freeing(m, p, n, 0, m)
  {
    FramesBut(m, m, 0);
  }

  lemma FreeingNext(m: Mem, p: Vpn, n: nat, j: nat, r: Mem, q: Vpn, k: Luck)
    requires Sane(m) && Freeing(m, p, n, j, r) && j < n && Ahead(p, q, PAGES) == j % PAGES && Offered(r, k)
    ensures Freeing(m, p, n, j + 1, FreeAndUnmap(r, Virtual(q), k).0)
  {
    FreeStep(r, Virtual(q), k);
    FreeKeeps(r, Virtual(q), k);
    FreeingStep(m, p, n, j, r, q, FreeAndUnmap(r, Virtual(q), k).0);
  }

  lemma FreeingStep(m: Mem, p: Vpn, n: nat, j: nat, r: Mem, q: Vpn, s: Mem)
    requires Sane(m) && Freeing(m, p, n, j, r) && j < n && Ahead(p, q, PAGES) == j % PAGES
    requires Steady(r, s) && OnlyPage(r, Virtual(q), s) && PfnAt(s, q) == 0 && (Inv(r) && !InUse(r, q) ==> Inv(s))
    ensures Freeing(m, p, n, j + 1, s)
  {
    AheadBelow(p, q, j, n);
    ElsewhereNext(m, p, n, r, Virtual(q), s);
    FreedNext(p, j, r, q, s);
    KeptNext(m, p, j, r, q, Inv(m), Inv(r), Inv(s));
    GoneStep(m, p, j, r, q, s);
  }

  lemma AheadBelow(p: Vpn, q: Vpn, j: nat, n: nat)
    requires Ahead(p, q, PAGES) == j % PAGES && j < n
    ensures RamPage(Virtual(q)) == q && Ahead(p, RamPage(Virtual(q)), PAGES) < n
  {
  }

  lemma GoneStep(m: Mem, p: Vpn, j: nat, r: Mem, q: Vpn, s: Mem)
    requires Sane(r) && Shape(m) && SameHost(m, r) && OnlyPage(r, Virtual(q), s) && PfnAt(s, q) == 0
    requires Ahead(p, q, PAGES) == j % PAGES && (!NoTables(m, p, j) && p + j <= PAGES ==> Gone(r, p, j))
    ensures !NoTables(m, p, j + 1) && p + j + 1 <= PAGES ==> Gone(s, p, j + 1)
  {
    if !NoTables(m, p, j + 1) && p + j + 1 <= PAGES {
      NthPage(p, j, q);
      GoneNext(m, p, j, r, q, s);
    }
  }

  /** kept, keptR, keptS: the invariant of m, of r and of the state after the next release. */
  lemma KeptNext(m: Mem, p: Vpn, j: nat, r: Mem, q: Vpn, kept: bool, keptR: bool, keptS: bool)
    requires SameHost(m, r) && Ahead(p, q, PAGES) == j % PAGES
    requires (kept && NoTables(m, p, j) ==> keptR) && (keptR && !InUse(r, q) ==> keptS)
    ensures kept && NoTables(m, p, j + 1) ==> keptS
  {
    if NoTables(m, p, j + 1) {
      NoTablesNext(m, p, j, q);
    }
  }

  lemma NthPage(p: Vpn, j: nat, q: Vpn)
    requires p + j + 1 <= PAGES && Ahead(p, q, PAGES) == j % PAGES
    ensures q == p + j
  {
  }

  lemma FreedNext(p: Vpn, j: nat, r: Mem, q: Vpn, s: Mem)
    requires Sane(r) && OnlyPage(r, Virtual(q), s) && PfnAt(s, q) == 0 && Ahead(p, q, PAGES) == j % PAGES
    requires forall w: Vpn :: !IsTable(w) && Ahead(p, w, PAGES) < j ==> PfnAt(r, w) == 0
    ensures forall w: Vpn :: !IsTable(w) && Ahead(p, w, PAGES) < j + 1 ==> PfnAt(s, w) == 0
  {
    forall w: Vpn | !IsTable(w) && Ahead(p, w, PAGES) < j + 1 ensures PfnAt(s, w) == 0 {
      SameAhead(p, w, q, j);
    }
  }

  lemma SameAhead(p: Vpn, w: Vpn, q: Vpn, j: nat)
    requires Ahead(p, q, PAGES) == j % PAGES && Ahead(p, w, PAGES) < j + 1
    ensures w == q || Ahead(p, w, PAGES) < j
  {
  }

  lemma NoTablesNext(m: Mem, p: Vpn, j: nat, q: Vpn)
    requires NoTables(m, p, j + 1) && Ahead(p, q, PAGES) == j % PAGES
    ensures NoTables(m, p, j) && !InUse(m, q)
  {
    assert j % PAGES <= j;
    forall t: Vpn | InUse(m, t) ensures Ahead(p, t, PAGES) >= j {
      assert Ahead(p, t, PAGES) >= j + 1;
    }
  }

  /** A page-table page that is gone stays gone while pages above it are released: their entries lie elsewhere. */
  lemma GoneNext(m: Mem, p: Vpn, j: nat, r: Mem, q: Vpn, s: Mem)
    requires Sane(r) && SameHost(m, r) && OnlyPage(r, Virtual(q), s) && PfnAt(s, q) == 0
    requires Shape(m) && p + j + 1 <= PAGES && q == p + j && !NoTables(m, p, j + 1)
    requires !NoTables(m, p, j) ==> Gone(r, p, j)
    ensures Gone(s, p, j + 1)
  {
    if Gone(r, p, j) {
      var t: Vpn :| InUse(r, t) && p <= t < p + j && PfnAt(r, t) == 0;
      TableApart(r, t, q);
      assert PfnAt(s, t) == 0;
    } else {
      var t: Vpn :| InUse(m, t) && Ahead(p, t, PAGES) < j + 1;
      assert Ahead(p, t, PAGES) >= j;
      assert t == q && InUse(s, q);
    }
  }

  lemma TableApart(m: Mem, t: Vpn, q: Vpn)
    requires Shape(m) && InUse(m, t) && t < q
    ensures TablePage(Virtual(q)) != t
  {
  }

  /** After a release of n pages the invariant holds if none was a page-table page of the pseudo RAM; and only then,
      when the range does not wrap around. */
  lemma FreeingKeepsIff(m: Mem, p: Vpn, n: nat, r: Mem)
    requires Inv(m) && Freeing(m, p, n, n, r)
    ensures NoTables(m, p, n) ==> Inv(r)
    ensures p + n <= PAGES ==> (Inv(r) <==> NoTables(m, p, n))
  {
  }

  /** Every page that m has a frame for keeps it in r. */
  ghost predicate StillThere(m: Mem, r: Mem)
    requires Shape(m) && Shape(r)
  {
    forall w: Vpn :: PfnAt(m, w) != 0 ==> PfnAt(r, w) == PfnAt(m, w)
  }

  /** r is m after the allocation of j of the n pages from p on. */
  ghost predicate Allocating(m: Mem, p: Vpn, n: nat, j: nat, r: Mem)
    requires Sane(m)
  {
    && Steady(m, r) && Elsewhere(m, p, n, r) && StillThere(m, r) && (Inv(m) ==> Inv(r))
    && (forall w: Vpn :: Ahead(p, w, PAGES) < j ==> PfnAt(r, w) != 0)
  }

  lemma AllocatingNone(m: Mem, p: Vpn, n: nat)
    requires Sane(m)
    ensures Allocating(m, p, n, 0, m)
  {
    FramesBut(m, m, 0);
  }

  lemma AllocatingNext(m: Mem, p: Vpn, n: nat, j: nat, r: Mem, q: Vpn, k: Luck, k': Luck)
    requires Sane(m) && Allocating(m, p, n, j, r) && j < n && Ahead(p, q, PAGES) == j % PAGES
    requires Answers(r, Virtual(q), k, k')
    ensures var (s, ok) := AllocAndMap(r, Virtual(q), k, k');
      Allocating(m, p, n, if ok then j + 1 else j, s) && (!ok ==> PfnAt(m, q) == 0)
  {
    var v := Virtual(q);
    var (s, ok) := AllocAndMap(r, v, k, k');
    AllocStep(r, v, k, k');
    AllocKeeps(r, v, k, k');
    AllocSucceedsIff(r, v, k, k');
    AllocStays(r, v, k, k');
    ElsewhereNext(m, p, n, r, v, s);
    if ok {
      forall w: Vpn | Ahead(p, w, PAGES) < j + 1 ensures PfnAt(s, w) != 0 {
        SameAhead(p, w, q, j);
      }
    }
  }

  lemma AllocStays(m: Mem, v: Vpn, k: Luck, k': Luck)
    requires Sane(m) && Answers(m, v, k, k')
    ensures Sane(AllocAndMap(m, v, k, k').0) && StillThere(m, AllocAndMap(m, v, k, k').0)
  {
    AllocKeeps(m, v, k, k');
    AllocBacking(m, v, k, k');
    EnsureKeeps(m, RamPage(v), k);
  }

  /** What m maps outside the page tables, r maps to the same frames. */
  ghost predicate Intact(m: Mem, r: Mem)
    requires Shape(m) && Shape(r)
  {
    forall w: Vpn :: !IsTable(w) && PfnAt(m, w) != 0 ==> PfnAt(r, w) == PfnAt(m, w)
  }

  /** s is m after an allocation of n pages that failed at page j: the j pages before it are released, whether or not
      the call had allocated them. So it leaves what was mapped before if and only if none of them was, and the
      invariant if none of them is a page-table page of the pseudo RAM; and only then, when the range does not wrap
      around. */
  ghost predicate Undone(m: Mem, p: Vpn, n: nat, j: nat, s: Mem)
    requires Sane(m)
  {
    && Steady(m, s) && Elsewhere(m, p, n, s)
    && (forall w: Vpn :: !IsTable(w) && Ahead(p, w, PAGES) < j ==> PfnAt(s, w) == 0)
    && (Intact(m, s) <==> forall w: Vpn :: !IsTable(w) && Ahead(p, w, PAGES) < j ==> PfnAt(m, w) == 0)
    && (Inv(m) ==> (NoTables(m, p, j) ==> Inv(s)) && (p + j <= PAGES ==> (Inv(s) <==> NoTables(m, p, j))))
  }

  lemma UndoneIff(m: Mem, p: Vpn, n: nat, j: nat, r: Mem, s: Mem)
    requires Sane(m) && Allocating(m, p, n, j, r) && j < n && Freeing(r, p, j, j, s)
    ensures Undone(m, p, n, j, s)
  {
    ElsewhereThen(m, p, n, r, j, s);
    UndoneIntact(m, p, n, j, r, s);
    if Inv(m) {
      SameTables(m, r, p, j);
      FreeingKeepsIff(r, p, j, s);
    }
  }

  lemma UndoneIntact(m: Mem, p: Vpn, n: nat, j: nat, r: Mem, s: Mem)
    requires Sane(m) && Allocating(m, p, n, j, r) && j < n && Freeing(r, p, j, j, s)
    ensures Intact(m, s) <==> forall w: Vpn :: !IsTable(w) && Ahead(p, w, PAGES) < j ==> PfnAt(m, w) == 0
  {
    if forall w: Vpn :: !IsTable(w) && Ahead(p, w, PAGES) < j ==> PfnAt(m, w) == 0 {
      forall w: Vpn | !IsTable(w) && PfnAt(m, w) != 0 ensures PfnAt(s, w) == PfnAt(m, w) {
        assert Unchanged(r, s, w);
      }
    }
  }

  lemma SameTables(m: Mem, r: Mem, p: Vpn, j: nat)
    requires r.pages == m.pages
    ensures NoTables(m, p, j) <==> NoTables(r, p, j)
  {
    if NoTables(m, p, j) {
      forall t: Vpn | InUse(r, t) ensures Ahead(p, t, PAGES) >= j { assert InUse(m, t); }
    }
    if NoTables(r, p, j) {
      forall t: Vpn | InUse(m, t) ensures Ahead(p, t, PAGES) >= j { assert InUse(r, t); }
    }
  }

  /** The next page of a scan. */
  lemma NextScan(p: Vpn, scan: u32, j: nat)
    requires Ahead(p, scan / 4096, PAGES) == j % PAGES
    ensures Ahead(p, (scan + 4096) % SPACE / 4096, PAGES) == (j + 1) % PAGES
  {
    var q := scan / 4096;
    assert (scan + 4096) % SPACE / 4096 == if q == PAGES - 1 then 0 else q + 1;
  }

  // ---- bytes across allocations

  /** Bytes of mapped pages outside a..a+n are the same in r, page tables aside. */
  ghost predicate SameBytes(m: Mem, a: u32, n: nat, r: Mem)
    requires InRange(m) && InRange(r)
  {
    forall y: u32 :: PfnAt(m, y / 4096) != 0 && !IsTable(y / 4096) && Ahead(a, y, SPACE) >= n ==> SameByte(m, r, y)
  }

  ghost predicate SameByte(m: Mem, r: Mem, y: u32)
    requires InRange(m) && InRange(r)
  {
    PfnAt(r, y / 4096) == PfnAt(m, y / 4096) && At(r, y) == At(m, y)
  }

  /** The bytes bs are mapped and stored from address a on, page tables aside. */
  ghost predicate Holds(m: Mem, a: u32, bs: seq<byte>)
    requires InRange(m)
  {
    forall i :: 0 <= i < |bs| && !IsTable(On(a, i) / 4096) ==>
      PfnAt(m, On(a, i) / 4096) != 0 && At(m, On(a, i)) == bs[i]
  }

  /** r is m after a copy of bs to a that may have stopped early. */
  ghost predicate Copied(m: Mem, a: u32, bs: seq<byte>, r: Mem, ok: bool)
    requires Sane(m)
  {
    && Steady(m, r) && SameBytes(m, a, |bs|, r) && (ok ==> Holds(r, a, bs))
    && (Inv(m) && NoEntries(m, a, |bs|) ==> Inv(r))
  }

  /** ... of the first d bytes. */
  ghost predicate CopiedTo(m: Mem, a: u32, bs: seq<byte>, d: nat, r: Mem, ok: bool)
    requires Sane(m) && d <= |bs|
  {
    Copied(m, a, bs[..d], r, ok)
  }

  /** A copy of bs that has done d bytes and goes on at `offset`. */
  ghost predicate Copying(m: Mem, a: u32, bs: seq<byte>, d: nat, offset: u32, r: Mem)
    requires Sane(m)
  {
    d <= |bs| && offset == On(a, d) && CopiedTo(m, a, bs, d, r, true)
  }

  lemma CopyingStarts(m: Mem, a: u32, bs: seq<byte>)
    requires Sane(m)
    ensures Copying(m, a, bs, 0, a, m)
  {
    CopiedNothing(m, a);
  }

  lemma CopiedWhole(m: Mem, a: u32, bs: seq<byte>, r: Mem, ok: bool)
    requires Sane(m) && CopiedTo(m, a, bs, |bs|, r, ok)
    ensures Copied(m, a, bs, r, ok)
  {
    assert bs[..|bs|] == bs;
  }

  lemma CopiedNothing(m: Mem, a: u32)
    requires Sane(m)
    ensures Copied(m, a, [], m, true)
  {
    FramesBut(m, m, 0);
  }

  lemma AllocBytes(m: Mem, a: u32, v: Vpn, k: Luck, k': Luck)
    requires Sane(m) && Answers(m, v, k, k')
    ensures Steady(m, AllocAndMap(m, v, k, k').0) && SameBytes(m, a, 0, AllocAndMap(m, v, k, k').0)
    ensures Inv(m) ==> Inv(AllocAndMap(m, v, k, k').0)
  {
    AllocStep(m, v, k, k');
    AllocKeeps(m, v, k, k');
    AllocStays(m, v, k, k');
    var r := AllocAndMap(m, v, k, k').0;
    forall y: u32 | PfnAt(m, y / 4096) != 0 && !IsTable(y / 4096) ensures SameByte(m, r, y) {
      assert r.ram[PfnAt(m, y / 4096)] == m.ram[PfnAt(m, y / 4096)];
    }
  }

  lemma BytesThen(m: Mem, a: u32, m1: Mem, n: nat, r: Mem)
    requires InRange(m) && InRange(m1) && InRange(r) && SameBytes(m, a, 0, m1) && SameBytes(m1, a, n, r)
    ensures SameBytes(m, a, n, r)
  {
    forall y: u32 | PfnAt(m, y / 4096) != 0 && !IsTable(y / 4096) && Ahead(a, y, SPACE) >= n ensures SameByte(m, r, y) {
      assert SameByte(m, m1, y) && SameByte(m1, r, y);
    }
  }

  /** A chunk is a copy of its own. */
  lemma StoreIsToGuest(m: Mem, a: u32, bs: seq<byte>)
    requires InRange(m) && bs != [] && a % 4096 + |bs| <= 4096 && m.pp[a / 4096 / 1024].Some?
    ensures ToGuest(m, a, bs) == (Store(m, a, bs), true)
  {
    assert Room(a, |bs|) == |bs| && bs[..|bs|] == bs && bs[|bs|..] == [];
  }

  lemma StoredChunk(m: Mem, a: u32, bs: seq<byte>)
    requires Sane(m) && bs != [] && a % 4096 + |bs| <= 4096 && PfnAt(m, a / 4096) != 0
    ensures Copied(m, a, bs, Store(m, a, bs), true)
  {
    var r := Store(m, a, bs);
    StoreIsToGuest(m, a, bs);
    WriteStep(m, a, bs);
    ChunkBytes(m, a, bs);
    if Inv(m) && NoEntries(m, a, |bs|) {
      ToGuestTidy(m, a, bs);
    }
  }

  lemma ChunkBytes(m: Mem, a: u32, bs: seq<byte>)
    requires Sane(m) && bs != [] && a % 4096 + |bs| <= 4096 && PfnAt(m, a / 4096) != 0
    ensures SameBytes(m, a, |bs|, Store(m, a, bs)) && Holds(Store(m, a, bs), a, bs)
  {
    var r := Store(m, a, bs);
    StoreSane(m, a, bs);
    forall y: u32 | PfnAt(m, y / 4096) != 0 && !IsTable(y / 4096) &&
      Ahead(a, y, SPACE) >= |bs| ensures SameByte(m, r, y) {
      StoreBytes(m, a, bs, y);
    }
    forall i | 0 <= i < |bs| ensures PfnAt(r, On(a, i) / 4096) != 0 && At(r, On(a, i)) == bs[i] {
      ChunkPage(a, |bs|, i);
      StoreBytes(m, a, bs, On(a, i));
      AheadOn(a, i);
    }
  }

  /** A chunk whose page has just been allocated. */
  lemma CopiedChunk(m: Mem, m1: Mem, a: u32, bs: seq<byte>)
    requires Sane(m) && Steady(m, m1) && SameBytes(m, a, 0, m1) && (Inv(m) ==> Inv(m1))
    requires bs != [] && a % 4096 + |bs| <= 4096 && PfnAt(m1, a / 4096) != 0
    ensures Copied(m, a, bs, Store(m1, a, bs), true)
  {
    var r := Store(m1, a, bs);
    StoredChunk(m1, a, bs);
    FramesThen(m, m1, r);
    BytesThen(m, a, m1, |bs|, r);
    if Inv(m) && NoEntries(m, a, |bs|) {
      SameEntries(m, m1, a, |bs|);
    }
  }

  lemma SameEntries(m: Mem, r: Mem, a: u32, n: nat)
    requires NoEntries(m, a, n) && r.pages == m.pages
    ensures NoEntries(r, a, n)
  {
    forall i | 0 <= i < n ensures !IsEntry(r, On(a, i)) {
      assert !IsEntry(m, On(a, i));
    }
  }

  lemma CopiedFailed(m: Mem, m1: Mem, a: u32, bs: seq<byte>)
    requires Sane(m) && Steady(m, m1) && SameBytes(m, a, 0, m1) && (Inv(m) ==> Inv(m1))
    ensures Copied(m, a, bs, m1, false)
  {
  }

  lemma BytesPast(m: Mem, a: u32, d: nat, m1: Mem, n: nat, r: Mem)
    requires InRange(m) && InRange(m1) && InRange(r) && d + n <= SPACE && d < SPACE
    requires SameBytes(m, a, d, m1) && SameBytes(m1, On(a, d), n, r)
    ensures SameBytes(m, a, d + n, r)
  {
    forall y: u32 | PfnAt(m, y / 4096) != 0 && !IsTable(y / 4096) && Ahead(a, y, SPACE) >= d + n
      ensures SameByte(m, r, y)
    {
      AheadNext(a, d, y);
      assert SameByte(m, m1, y) && SameByte(m1, r, y);
    }
  }

  lemma HoldsPast(m1: Mem, a: u32, bs: seq<byte>, d: nat, n: nat, r: Mem)
    requires InRange(m1) && InRange(r) && d + n <= |bs| <= SPACE && d < SPACE
    requires Holds(m1, a, bs[..d]) && SameBytes(m1, On(a, d), n, r) && Holds(r, On(a, d), bs[d..d + n])
    ensures Holds(r, a, bs[..d + n])
  {
    var cs := bs[..d + n];
    forall i | 0 <= i < d + n && !IsTable(On(a, i) / 4096)
      ensures PfnAt(r, On(a, i) / 4096) != 0 && At(r, On(a, i)) == cs[i]
    {
      if i < d {
        AheadOn(a, i);
        AheadNext(a, d, On(a, i));
        assert At(m1, On(a, i)) == bs[..d][i] && SameByte(m1, r, On(a, i));
      } else {
        OnOn(a, d, i - d);
        assert At(r, On(On(a, d), i - d)) == bs[d..d + n][i - d];
      }
    }
  }

  lemma EntriesSplit(m: Mem, a: u32, d: nat, n: nat)
    requires NoEntries(m, a, d + n)
    ensures NoEntries(m, a, d) && NoEntries(m, On(a, d), n)
  {
    forall i | 0 <= i < n ensures !IsEntry(m, On(On(a, d), i)) {
      OnOn(a, d, i);
      assert !IsEntry(m, On(a, d + i));
    }
  }

  /** One chunk more. */
  lemma CopiedNext(m: Mem, a: u32, bs: seq<byte>, d: nat, n: nat, m1: Mem, r: Mem, ok: bool)
    requires Sane(m) && d < d + n <= |bs| <= SPACE
    requires CopiedTo(m, a, bs, d, m1, true) && Copied(m1, On(a, d), bs[d..d + n], r, ok)
    ensures CopiedTo(m, a, bs, if ok then d + n else |bs|, r, ok)
  {
    FramesThen(m, m1, r);
    BytesPast(m, a, d, m1, n, r);
    if ok {
      HoldsPast(m1, a, bs, d, n, r);
    }
    if Inv(m) && NoEntries(m, a, d + n) {
      EntriesSplit(m, a, d, n);
      SameEntries(m, m1, On(a, d), n);
    }
  }

  // ---- start-up

  /** r has frames for the n guest pages from p on, and is otherwise m. */
  ghost predicate Filled(m: Mem, p: Vpn, n: nat, r: Mem)
    requires Shape(m)
  {
    && Sane(r) && r.ram == m.ram && SameHost(m, r) && SameFrames(m, r) && r.free <= m.free
    && (forall w: Vpn :: Ahead(p, w, PAGES) < n ==> PfnAt(r, w) != 0)
    && (forall w: Vpn :: PfnAt(r, w) == PfnAt(m, w) || (PfnAt(m, w) == 0 && PfnAt(r, w) in m.free))
    && (forall w: Vpn :: Ahead(p, w, PAGES) >= n ==> PfnAt(r, w) == PfnAt(m, w))
  }

  lemma FilledNone(m: Mem, p: Vpn)
    requires Sane(m)
    ensures Filled(m, p, 0, m)
  {
    FramesBut(m, m, 0);
  }

  lemma FilledNext(m: Mem, p: Vpn, n: nat, r: Mem, q: Vpn, k: Luck)
    requires Shape(m) && Filled(m, p, n, r) && Offered(r, k) && Ahead(p, q, PAGES) == n % PAGES
    ensures var (s, e) := Ensure(r, q, k); Filled(m, p, if e.Failed? then n else n + 1, s)
  {
    EnsureKeeps(r, q, k);
    EnsureFrames(r, q, k);
    FramesThen(m, r, Ensure(r, q, k).0);
    FilledPages(m, p, n, r, q, Ensure(r, q, k).0);
  }

  lemma FilledPages(m: Mem, p: Vpn, n: nat, r: Mem, q: Vpn, s: Mem)
    requires Shape(m) && Filled(m, p, n, r) && Sane(s) && Grown(r, q, s) && Ahead(p, q, PAGES) == n % PAGES
    requires PfnAt(s, q) == PfnAt(r, q) || (PfnAt(r, q) == 0 && PfnAt(s, q) in r.free)
    ensures PfnAt(s, q) != 0 ==> forall w: Vpn :: Ahead(p, w, PAGES) < n + 1 ==> PfnAt(s, w) != 0
    ensures forall w: Vpn :: Ahead(p, w, PAGES) < n ==> PfnAt(s, w) != 0
    ensures forall w: Vpn :: PfnAt(s, w) == PfnAt(m, w) || (PfnAt(m, w) == 0 && PfnAt(s, w) in m.free)
    ensures forall w: Vpn :: Ahead(p, w, PAGES) >= n + 1 ==> PfnAt(s, w) == PfnAt(m, w)
    ensures PfnAt(s, q) == 0 ==> forall w: Vpn :: Ahead(p, w, PAGES) >= n ==> PfnAt(s, w) == PfnAt(m, w)
  {
    assert n % PAGES <= n;
    if PfnAt(s, q) != 0 {
      forall w: Vpn | Ahead(p, w, PAGES) < n + 1 ensures PfnAt(s, w) != 0 {
        SameAhead(p, w, q, n);
      }
    }
  }

  lemma FilledThen(m: Mem, p: Vpn, n: nat, r: Mem, l: nat, s: Mem)
    requires Shape(m) && n < PAGES && l < PAGES && p + n + l < PAGES
    requires Filled(m, p, n, r) && Filled(r, p + n, l, s)
    ensures Filled(m, p, n + l, s)
  {
    FramesThen(m, r, s);
  }

  lemma PartialFilled(m: Mem, n: nat, r: Mem, l: nat, s: Mem, a: u32)
    requires Shape(m) && a / 4096 == TABLES_PAGE + n && n <= 1024 && l <= 1
    requires Filled(m, TABLES_PAGE, n, r) && Filled(r, a / 4096, l, s)
    ensures Filled(m, TABLES_PAGE, n + l, s)
  {
    FilledThen(m, TABLES_PAGE, n, r, l, s);
  }

  lemma TablesDone(m: Mem, n: nat, r: Mem)
    requires Shape(m) && (forall w: Vpn :: PfnAt(m, w) == 0)
    requires Filled(m, TABLES_PAGE, n, r) && n <= 1024 && 1024 * n >= m.pages
    ensures Inv(r) && forall v :: 0 <= v < r.pages ==> Backing(r, v) == 0
  {
  }

  /** The frames that the host still has are clear. */
  ghost predicate Clear(m: Mem) {
    forall f :: f in m.free && f < |m.ram| ==> m.ram[f] == seq(4096, _ => 0)
  }

  lemma BlankDone(m: Mem, n: nat, r: Mem)
    requires Shape(m) && (forall w: Vpn :: PfnAt(m, w) == 0) && Clear(m)
    requires Filled(m, TABLES_PAGE, n, r) && 1024 * n >= m.pages
    ensures Blank(r)
  {
    forall v | 0 <= v < r.pages ensures Pte(r, v) == 0 {
      assert Ahead(TABLES_PAGE, TablePage(v), PAGES) < n;
      assert PfnAt(r, TablePage(v)) in m.free;
    }
  }

  ghost predicate UsedBelow(m: Mem, n: nat, f: nat)
    requires Shape(m)
  {
    f != 0 && exists w: Vpn :: w < n && PfnAt(m, w) == f
  }

  lemma UsedNext(m: Mem, w: Vpn, f: nat)
    requires Shape(m)
    ensures UsedBelow(m, w + 1, f) <==> UsedBelow(m, w, f) || (f != 0 && PfnAt(m, w) == f)
  {
    if UsedBelow(m, w, f) {
      var u: Vpn :| u < w && PfnAt(m, u) == f;
    }
  }

  function Prepend(bs: seq<byte>, r: (seq<byte>, bool)): (seq<byte>, bool) { (bs + r.0, r.1) }

  lemma Prepended(r: (seq<byte>, bool))
    ensures Prepend([], r) == r
  {
    Nil(r.0);
  }

  lemma OutStep(m: Mem, a: u32, size: nat, n: nat, bs: seq<byte>, c: seq<byte>)
    requires InRange(m) && size > 0 && n == Room(a, size) && m.pp[a / 4096 / 1024].Some?
    requires c == m.ram[PfnAt(m, a / 4096)][a % 4096..a % 4096 + n]
    ensures Prepend(bs, FromGuest(m, a, size)) == Prepend(bs + c, FromGuest(m, On(a, n), size - n))
  {
    Assoc(bs, c, FromGuest(m, On(a, n), size - n).0);
  }

  lemma NoneListed(m: Mem, a: nat)
    requires InRange(m) && a < WORDS
    ensures AllListed(m, m, a, [])
  {
  }

  /** Entry v of the page tables. */
  lemma EntryAddress(v: Vpn)
    ensures var a := 4096 * TABLES_PAGE + 4 * v; a < SPACE && a / 4096 == TablePage(v) && a % 4096 / 4 == v % 1024
    ensures (4096 * TABLES_PAGE + 4 * v) % 4096 + 4 <= 4096
  {
  }

  /** A part of a list of entries, in the bytes that it takes. */
  lemma PartOfList(a: u32, l: nat)
    requires a % 4 == 0 && 0 < l && 4 * l < SPACE
    ensures var n := Room(a, 4 * l) / 4;
      0 < n <= l && 4 * n == Room(a, 4 * l) && a % 4096 / 4 + n <= 1024 && 1024 * (a / 4096) + a % 4096 / 4 == a / 4
    ensures Room(a, 4 * l) == 4 * l <==> OnePage(a, l)
  {
    if Room(a, 4 * l) != 4 * l {
      assert Room(a, 4 * l) == 4096 - a % 4096;
    }
  }

  lemma WordsOn(a: u32, n: nat)
    requires a % 4 == 0 && n < WORDS
    ensures On(a, 4 * n) % 4 == 0 && On(a, 4 * n) / 4 == Past(a / 4, n, WORDS)
  {
    assert On(a, 4 * n) == if a + 4 * n >= SPACE then a + 4 * n - SPACE else a + 4 * n;
  }

  lemma PastPast(a: nat, n: nat, l: nat, top: nat)
    requires a < top && n + l < top
    ensures Past(Past(a, n, top), l, top) == Past(a, n + l, top)
  {
  }

  /** A list of l entries at a does not leave its page. */
  predicate OnePage(a: u32, l: nat) { a % 4096 / 4 + l <= 1024 }

  /** r is m with the list fs at a, in one page, if `ok`. */
  ghost predicate PartPut(m: Mem, a: u32, fs: seq<Pfn>, k: Luck, r: Mem, ok: bool)
    requires Sane(m) && a % 4096 / 4 + |fs| <= 1024
  {
    Offered(m, k) && (r, ok) == PutPart(m, a / 4096, a % 4096 / 4, fs, k)
  }

  /** r is m with the first d entries of the list at word a. */
  ghost predicate ListPut(m: Mem, a: nat, fs: seq<Pfn>, d: nat, r: Mem)
    requires Sane(m) && a < WORDS
  {
    d <= |fs| && Steady(m, r) && AllListed(m, r, a, fs[..d])
  }

  lemma NonePut(m: Mem, a: nat, fs: seq<Pfn>)
    requires Sane(m) && a < WORDS
    ensures ListPut(m, a, fs, 0, m)
  {
    FramesBut(m, m, 0);
    NoneListed(m, a);
  }

  /** The n bytes of the list from entry `done` on lie in the page of `offset`. */
  predicate InPage(offset: u32, fs: seq<Pfn>, done: nat, n: nat) {
    n > 0 && n % 4 == 0 && done + n / 4 <= |fs| && offset % 4096 / 4 + n / 4 <= 1024
  }

  lemma PartSteady(m: Mem, r: Mem, p: Vpn, i: nat, fs: seq<Pfn>, k: Luck)
    requires Sane(m) && Steady(m, r) && Offered(r, k) && fs != [] && i + |fs| <= 1024
    ensures Steady(m, PutPart(r, p, i, fs, k).0)
  {
    PartListed(r, p, i, fs, k);
    PartFrames(r, p, i, fs, k);
    FramesThen(m, r, PutPart(r, p, i, fs, k).0);
  }

  /** A part more of the list. */
  lemma PartAdded(m: Mem, r: Mem, a: nat, offset: u32, fs: seq<Pfn>, done: nat, n: nat, k: Luck, s: Mem, ok: bool)
    requires Sane(m) && a < WORDS && ListPut(m, a, fs, done, r) && |fs| < WORDS
    requires InPage(offset, fs, done, 4 * n) && offset % 4 == 0 && offset / 4 == Past(a, done, WORDS)
    requires PartPut(r, offset, fs[done..done + n], k, s, ok)
    ensures ListPut(m, a, fs, if ok then done + n else done, s)
  {
    PutListed(r, offset, fs[done..done + n], k, s, ok);
    PartSteady(m, r, offset / 4096, offset % 4096 / 4, fs[done..done + n], k);
    assert !ok ==> fs[done..done] == [];
    ListsJoined(m, r, s, a, fs, done, if ok then n else 0);
  }

  lemma PutListed(m: Mem, a: u32, fs: seq<Pfn>, k: Luck, r: Mem, ok: bool)
    requires Sane(m) && fs != [] && a % 4 == 0 && a % 4096 / 4 + |fs| <= 1024 && PartPut(m, a, fs, k, r, ok)
    ensures Sane(r) && AllListed(m, r, a / 4, if ok then fs else [])
  {
    PartListed(m, a / 4096, a % 4096 / 4, fs, k);
    assert 1024 * (a / 4096) + a % 4096 / 4 == a / 4;
  }

  lemma ListsJoined(m: Mem, r: Mem, s: Mem, a: nat, fs: seq<Pfn>, done: nat, n: nat)
    requires InRange(m) && InRange(r) && InRange(s) && a < WORDS && done + n <= |fs| < WORDS
    requires AllListed(m, r, a, fs[..done]) && AllListed(r, s, Past(a, done, WORDS), fs[done..done + n])
    ensures AllListed(m, s, a, fs[..done + n])
  {
    ListedThen(m, r, s, a, fs[..done], fs[done..done + n]);
    assert fs[..done] + fs[done..done + n] == fs[..done + n];
  }

  /** How many pages n bytes from a on touch. */
  function Touched(a: u32, n: nat): (l: nat) { if n == 0 then 0 else (a % 4096 + n - 1) / 4096 + 1 }

  lemma TableEnds(n: nat)
    requires n <= MAX_PAGES
    ensures var full, partial := 4096 * (n / 1024), 4 * (n % 1024);
      && 4096 * TABLES_PAGE + full < SPACE && (4096 * TABLES_PAGE + full) / 4096 == TABLES_PAGE + n / 1024
      && Touched(4096 * TABLES_PAGE, full) == n / 1024
      && Touched(4096 * TABLES_PAGE + full, partial) == if partial == 0 then 0 else 1
  {
  }

  /** A scan of `size` bytes from a on has done n pages; `left` bytes are left, from `offset` on. */
  predicate Scanned(a: u32, size: nat, offset: u32, left: nat, n: nat) {
    && left <= size && (left > 0 ==> Ahead(a / 4096, offset / 4096, PAGES) == n % PAGES)
    && if n == 0 then left == size && offset == a
       else if left > 0 then offset % 4096 == 0 && a % 4096 + size - left == 4096 * n
       else n == Touched(a, size)
  }

  /** r is what n rounds of that scan make of m. */
  ghost predicate Scanning(m: Mem, a: u32, size: nat, offset: u32, left: nat, n: nat, r: Mem)
    requires Sane(m)
  {
    Filled(m, a / 4096, n, r) && Scanned(a, size, offset, left, n)
  }

  lemma ScanStarts(m: Mem, a: u32, size: u32)
    requires Sane(m)
    ensures Scanning(m, a, size, a, size, 0, m)
  {
    FilledNone(m, a / 4096);
  }

  lemma ScanEnds(m: Mem, a: u32, size: u32, offset: u32, n: nat, r: Mem)
    requires Sane(m) && Scanning(m, a, size, offset, 0, n, r)
    ensures Filled(m, a / 4096, n, r) && n == Touched(a, size)
  {
  }

  lemma ScannedNext(a: u32, size: u32, offset: u32, left: nat, n: nat)
    requires Scanned(a, size, offset, left, n) && left > 0
    ensures var l := Room(offset, left); Scanned(a, size, On(offset, l), left - l, n + 1)
    ensures n + 1 <= Touched(a, size)
  {
    var l := Room(offset, left);
    ScannedBytes(a, size, offset, left, n, l);
    if l < left {
      NextChunk(a / 4096, offset, l, n);
    }
  }

  lemma ScannedBytes(a: u32, size: u32, offset: u32, left: nat, n: nat, l: nat)
    requires Scanned(a, size, offset, left, n) && left > 0 && l == Room(offset, left)
    ensures offset % 4096 + size - left == (if n == 0 then offset % 4096 else 4096 * n - a % 4096)
    ensures l < left ==> offset % 4096 + l == 4096 && a % 4096 + size - (left - l) == 4096 * (n + 1)
    ensures l == left ==> n + 1 == Touched(a, size)
    ensures n + 1 <= Touched(a, size)
  {
  }

  lemma NextChunk(p: Vpn, offset: u32, l: nat, n: nat)
    requires Ahead(p, offset / 4096, PAGES) == n % PAGES && offset % 4096 + l == 4096
    ensures On(offset, l) % 4096 == 0 && Ahead(p, On(offset, l) / 4096, PAGES) == (n + 1) % PAGES
  {
    NextScan(p, offset, n);
    assert On(offset, l) == if offset + l >= SPACE then offset + l - SPACE else offset + l;
    assert On(offset, l) / 4096 == (offset + 4096) % SPACE / 4096;
  }

  // ---- in place

  class Monitor {
    var pp: seq<Option<seq<nat>>>
    var ram: seq<Page>
    var rev: seq<nat>
    var free: set<nat>
    const pages: nat

    function View(): (m: Mem)
      reads this
    {
      Mem(pp, ram, rev, free, pages)
    }

    /** co_os_get_page: the host fails or hands out any frame it has. */
    method OsGetPage() returns (f: Option<nat>)
      modifies this`free
      ensures f.Some? ==> f.value in old(free) && free == old(free) - {f.value}
      ensures f.None? ==> free == old(free)
    {
      if * {
        return None;
      }
      if free == {} {
        return None;
      }
      var x :| x in free;
      free := free - {x};
      f := Some(x);
    }

    /** co_os_put_page; a frame that is already free must not be put again. */
    method OsPutPage(f: nat)
      requires f !in free
      modifies this`free
      ensures free == old(free) + {f}
    {
      free := free + {f};
    }

    /** Find page v, allocating its group array and its frame (co_manager_get_page) where they are missing. */
    method EnsurePage(v: Vpn) returns (e: Ensured, ghost k: Luck)
      requires Shape(View())
      modifies this`pp, this`free
      ensures (View(), e) == Ensure(old(View()), v, k) && Offered(old(View()), k)
    {
      if pp[v / 1024].None? {
        if * {
          return Failed, Luck(false, None);
        }
        pp := pp[v / 1024 := Some(seq(1024, _ => 0))];
      }
      var f := pp[v / 1024].value[v % 1024];
      if f != 0 {
        return Had(f), Luck(true, None);
      }
      var got := OsGetPage();
      k := Luck(true, got);
      if got.None? || got.value >= |ram| {
        return Failed, k;
      }
      pp := pp[v / 1024 := Some(pp[v / 1024].value[v % 1024 := got.value])];
      e := Got(got.value);
    }

    /** co_manager_set_reversed_pfn. */
    method SetReversedPfn(f: nat, v: u32) returns (ok: bool)
      requires Shape(View()) && forall i :: 0 <= i < |rev| ==> rev[i] < |ram|
      modifies this`ram
      ensures ok <==> SetReverse(old(View()), f, v).Some?
      ensures View() == if ok then SetReverse(old(View()), f, v).value else old(View())
    {
      if f / 1024 >= |rev| {
        return false;
      }
      ram := PutWord(ram, rev[f / 1024], f % 1024, v);
      ok := true;
    }

    /** create_ptes_callback. */
    method WriteEntries(frame: nat, i: nat, fs: seq<Pfn>)
      requires frame < |ram| && i + |fs| <= 1024
      modifies this`ram
      ensures ram == PutEntries(old(ram), frame, i, fs)
    {
      var n := 0;
      while n < |fs|
        invariant n <= |fs| && |ram| == |old(ram)| && ram == PutEntries(old(ram), frame, i, fs[..n])
      {
        assert fs[..n + 1][..n] == fs[..n];
        ram := PutWord(ram, frame, i + n, Entry(fs[n]));
        n := n + 1;
      }
      assert fs[..n] == fs;
    }

    /** A part of the list, in one page. */
    method CreatePart(p: Vpn, i: nat, fs: seq<Pfn>) returns (ok: bool, ghost k: Luck)
      requires Sane(View()) && i + |fs| <= 1024
      modifies this`pp, this`free, this`ram
      ensures Offered(old(View()), k) && (View(), ok) == PutPart(old(View()), p, i, fs, k)
    {
      var e;
      e, k := EnsurePage(p);
      if e.Failed? {
        return false, k;
      }
      WriteEntries(e.frame, i, fs);
      ok := true;
    }

    /** co_monitor_create_ptes: the entries for fs from address a on; the first d of them when it fails. */
    method CreatePtes(a: u32, fs: seq<Pfn>) returns (ok: bool, ghost d: nat, ghost k: Luck)
      requires Sane(View()) && a % 4 == 0 && 4 * |fs| < SPACE
      modifies this`pp, this`free, this`ram
      ensures ListPut(old(View()), a / 4, fs, d, View()) && (ok <==> d == |fs|)
      ensures fs != [] && OnePage(a, |fs|) ==> PartPut(old(View()), a, fs, k, View(), ok)
    {
      ghost var m := View();
      var offset: u32, done: nat := a, 0;
      ok, k := true, Luck(false, None);
      NonePut(m, a / 4, fs);
      while done < |fs|
        invariant ok && offset % 4 == 0 && ListPut(m, a / 4, fs, done, View()) && offset / 4 == Past(a / 4, done, WORDS)
        invariant done == 0 ==> offset == a && View() == m
        invariant done > 0 && OnePage(a, |fs|) ==> done == |fs| && PartPut(m, a, fs, k, View(), true)
      {
        var n;
        ok, n, k := PutNext(offset, fs, done, m, a);
        if !ok {
          break;
        }
        done := done + n / 4;
        offset := On(offset, n);
      }
      d := done;
    }

    /** One round of its loop, n bytes. */
    method PutNext(offset: u32, fs: seq<Pfn>, done: nat, ghost m: Mem, ghost a: u32)
      returns (ok: bool, n: u32, ghost k: Luck)
      requires Sane(m) && ListPut(m, a / 4, fs, done, View()) && done < |fs| && 4 * |fs| < SPACE
      requires a % 4 == 0 && offset % 4 == 0 && offset / 4 == Past(a / 4, done, WORDS)
      requires done == 0 ==> offset == a && View() == m
      modifies this`pp, this`free, this`ram
      ensures n > 0 && n % 4 == 0 && done + n / 4 <= |fs|
      ensures ListPut(m, a / 4, fs, if ok then done + n / 4 else done, View())
      ensures On(offset, n) % 4 == 0 && On(offset, n) / 4 == Past(a / 4, done + n / 4, WORDS)
      ensures done == 0 && OnePage(a, |fs|) ==> n == 4 * |fs| && PartPut(m, a, fs, k, View(), ok)
    {
      ghost var r := View();
      ok, n, k := NextPart(offset, fs, done, a);
      PartAdded(m, r, a / 4, offset, fs, done, n / 4, k, View(), ok);
    }

    /** The part of the list in its page. */
    method NextPart(offset: u32, fs: seq<Pfn>, done: nat, ghost a: u32) returns (ok: bool, n: u32, ghost k: Luck)
      requires Sane(View()) && done < |fs| && 4 * |fs| < SPACE
      requires a % 4 == 0 && offset % 4 == 0 && offset / 4 == Past(a / 4, done, WORDS) && (done == 0 ==> offset == a)
      modifies this`pp, this`free, this`ram
      ensures InPage(offset, fs, done, n) && On(offset, n) % 4 == 0
      ensures On(offset, n) / 4 == Past(a / 4, done + n / 4, WORDS)
      ensures done == 0 && OnePage(a, |fs|) ==> n == 4 * |fs| && fs[done..done + n / 4] == fs
      ensures PartPut(old(View()), offset, fs[done..done + n / 4], k, View(), ok)
    {
      n := PartSize(offset, 4 * (|fs| - done));
      PartOfList(offset, |fs| - done);
      WordsOn(offset, n / 4);
      PastPast(a / 4, done, n / 4, WORDS);
      ok, k := CreatePart(offset / 4096, offset % 4096 / 4, fs[done..done + n / 4]);
    }

    /** co_monitor_alloc_and_map_page. */
    method AllocAndMapPage(a: u32) returns (ok: bool, ghost k: Luck, ghost k': Luck)
      requires Sane(View())
      modifies this`pp, this`free, this`ram
      ensures Answers(old(View()), Virtual(a / 4096), k, k')
      ensures (View(), ok) == AllocAndMap(old(View()), Virtual(a / 4096), k, k')
    {
      k' := Luck(false, None);
      ghost var before := View();
      var e;
      e, k := EnsurePage(a / 4096);
      EnsureKeeps(before, a / 4096, k);
      if e.Failed? {
        ok := false;
      } else if e.Had? {
        ok := true;
      } else {
        var v := (a as int - KERNEL_OFFSET) % SPACE / 4096;
        VirtualPfn(a);
        ghost var m1 := View();
        ok := SetReversedPfn(e.frame, v);
        if ok {
          ReverseWrite(m1, e.frame, v);
          ok, k' := MapPage(v, e.frame);
        }
      }
    }

    /** The page-table entry of page v. */
    method MapPage(v: Vpn, f: Pfn) returns (ok: bool, ghost k: Luck)
      requires Sane(View())
      modifies this`pp, this`free, this`ram
      ensures Offered(old(View()), k) && (View(), ok) == CreatePte(old(View()), v, f, k)
    {
      ghost var m := View();
      EntryAddress(v);
      ghost var d;
      ok, d, k := CreatePtes(4096 * TABLES_PAGE + 4 * v, [f]);
      OneEntry(m, v, f, k);
    }

    /** co_monitor_free_and_unmap_page. */
    method FreeAndUnmapPage(a: u32) returns (ok: bool, ghost k: Luck)
      requires Sane(View())
      modifies this`pp, this`free, this`ram
      ensures Offered(old(View()), k) && (View(), ok) == FreeAndUnmap(old(View()), Virtual(a / 4096), k)
    {
      ghost var m := View();
      var g, i := a / 4096 / 1024, a / 4096 % 1024;
      k := Luck(false, None);
      if pp[g].None? {
        return false, k;
      }
      var v := (a as int - KERNEL_OFFSET) % SPACE / 4096;
      VirtualPfn(a);
      ok, k := MapPage(v, 0);
      PteWrite(m, v, 0, k);
      var f := pp[g].value[i];
      assert f == PfnAt(View(), a / 4096) && f !in free;
      if f != 0 {
        ok := SetReversedPfn(f, 0);
        OsPutPage(f);
        pp := pp[g := Some(pp[g].value[i := 0])];
      }
      ok := true;
    }

    /** co_free_pages: n pages from address a on, wrapping if need be. */
    method FreePages(a: u32, n: nat)
      requires Sane(View())
      modifies this`pp, this`free, this`ram
      ensures Freeing(old(View()), a / 4096, n, n, View())
      ensures Inv(old(View())) && NoTables(old(View()), a / 4096, n) ==> Inv(View())
      ensures Inv(old(View())) && a / 4096 + n <= PAGES ==> (Inv(View()) <==> NoTables(old(View()), a / 4096, n))
    {
      ghost var m, p := View(), a / 4096;
      var j: nat, scan: u32 := 0, a;
      FreeingNone(m, p, n);
      while j < n
        invariant 0 <= j <= n && Ahead(p, scan / 4096, PAGES) == j % PAGES && Freeing(m, p, n, j, View())
      {
        FreeNext(scan, m, p, n, j);
        scan := (scan + 4096) % SPACE;
        j := j + 1;
      }
      if Inv(m) {
        FreeingKeepsIff(m, p, n, View());
      }
    }

    method FreeNext(scan: u32, ghost m: Mem, ghost p: Vpn, ghost n: nat, ghost j: nat)
      requires Sane(m) && Freeing(m, p, n, j, View()) && j < n && Ahead(p, scan / 4096, PAGES) == j % PAGES
      modifies this`pp, this`free, this`ram
      ensures Freeing(m, p, n, j + 1, View()) && Ahead(p, (scan + 4096) % SPACE / 4096, PAGES) == (j + 1) % PAGES
    {
      ghost var r := View();
      var _, k := FreeAndUnmapPage(scan);
      FreeingNext(m, p, n, j, r, scan / 4096, k);
      NextScan(p, scan, j);
    }

    /** The loop of co_alloc_pages, up to page i. */
    method AllocLoop(a: u32, n: nat) returns (ok: bool, i: nat)
      requires Sane(View())
      modifies this`pp, this`free, this`ram
      ensures Allocating(old(View()), a / 4096, n, i, View()) && if ok then i == n else i < n
    {
      ghost var m, p := View(), a / 4096;
      var scan: u32;
      i, scan, ok := 0, a, true;
      AllocatingNone(m, p, n);
      while i < n
        invariant 0 <= i <= n && ok && Ahead(p, scan / 4096, PAGES) == i % PAGES && Allocating(m, p, n, i, View())
      {
        ok := AllocNext(scan, m, p, n, i);
        if !ok {
          break;
        }
        NextScan(p, scan, i);
        scan := (scan + 4096) % SPACE;
        i := i + 1;
      }
    }

    method AllocNext(scan: u32, ghost m: Mem, ghost p: Vpn, ghost n: nat, ghost i: nat) returns (ok: bool)
      requires Sane(m) && Allocating(m, p, n, i, View()) && i < n && Ahead(p, scan / 4096, PAGES) == i % PAGES
      modifies this`pp, this`free, this`ram
      ensures Allocating(m, p, n, if ok then i + 1 else i, View())
    {
      ghost var r := View();
      ghost var k, k';
      ok, k, k' := AllocAndMapPage(scan);
      AllocatingNext(m, p, n, i, r, scan / 4096, k, k');
    }

    /** co_alloc_pages: on a failure at page `done` the pages before it are released again. */
    method AllocPages(a: u32, n: nat) returns (ok: bool, ghost done: nat)
      requires Sane(View())
      modifies this`pp, this`free, this`ram
      ensures if ok then Allocating(old(View()), a / 4096, n, n, View())
        else done < n && Undone(old(View()), a / 4096, n, done, View())
    {
      ghost var m := View();
      var i;
      ok, i := AllocLoop(a, n);
      done := i;
      if !ok {
        ghost var r := View();
        FreePages(a, i);
        UndoneIff(m, a / 4096, n, i, r, View());
      }
    }

    /** The mapping of one page by co_monitor_get_pfn and co_os_map, and a copy into it. */
    method CopyIn(a: u32, bs: seq<byte>) returns (ok: bool)
      requires InRange(View()) && a % 4096 + |bs| <= 4096
      modifies this`ram
      ensures ok <==> pp[a / 4096 / 1024].Some?
      ensures View() == if ok then Store(old(View()), a, bs) else old(View())
    {
      var group := pp[a / 4096 / 1024];
      ok := group.Some?;
      if ok {
        var f := group.value[a / 4096 % 1024];
        assert f == PfnAt(View(), a / 4096);
        ram := ram[f := Blit(ram[f], a % 4096, bs)];
      }
    }

    /** The loop of co_monitor_host_linuxvm_transfer, from the host. */
    method TransferIn(bs: seq<byte>, a: u32) returns (ok: bool)
      requires InRange(View()) && |bs| < 0x1_0000_0000
      modifies this`ram
      ensures (View(), ok) == ToGuest(old(View()), a, bs)
    {
      ghost var all := ToGuest(View(), a, bs);
      var vaddr: nat, rest := a, bs;
      while rest != []
        invariant InRange(View()) && |rest| <= |bs| && vaddr < 0x1_0000_0000 && all == ToGuest(View(), vaddr, rest)
        decreases |rest|
      {
        var n := PartSize(vaddr, |rest|);
        ok := CopyIn(vaddr, rest[..n]);
        if !ok {
          return false;
        }
        rest := rest[n..];
        vaddr := On(vaddr, n);
      }
      ok := true;
    }

    /** co_monitor_host_to_linuxvm. */
    method HostToGuest(bs: seq<byte>, a: u32) returns (ok: bool)
      requires InRange(View()) && |bs| < 0x1_0000_0000
      modifies this`ram
      ensures if InBounds(a, |bs|, KERNEL_OFFSET + 4096 * pages) then (View(), ok) == ToGuest(old(View()), a, bs)
        else !ok && View() == old(View())
    {
      if !InBounds(a, |bs|, KERNEL_OFFSET + 4096 * pages) {
        return false;
      }
      ok := TransferIn(bs, a);
    }

    /** The mapping of one page and a copy out of it. */
    method CopyOut(a: u32, n: nat) returns (bs: seq<byte>, ok: bool)
      requires InRange(View()) && a % 4096 + n <= 4096
      ensures ok <==> pp[a / 4096 / 1024].Some?
      ensures ok ==> bs == ram[PfnAt(View(), a / 4096)][a % 4096..a % 4096 + n]
    {
      var group := pp[a / 4096 / 1024];
      bs, ok := [], group.Some?;
      if ok {
        assert group.value[a / 4096 % 1024] == PfnAt(View(), a / 4096);
        bs := ram[group.value[a / 4096 % 1024]][a % 4096..a % 4096 + n];
      }
    }

    /** The loop of co_monitor_host_linuxvm_transfer, to the host. */
    method TransferOut(a: u32, size: u32) returns (bs: seq<byte>, ok: bool)
      requires InRange(View())
      ensures (bs, ok) == FromGuest(View(), a, size)
    {
      ghost var all := FromGuest(View(), a, size);
      bs := [];
      var vaddr: nat, left: nat := a, size;
      Prepended(all);
      while left > 0
        invariant left <= size && vaddr < 0x1_0000_0000 && all == Prepend(bs, FromGuest(View(), vaddr, left))
      {
        var n := PartSize(vaddr, left);
        var c;
        c, ok := CopyOut(vaddr, n);
        if !ok {
          Nil(bs);
          return bs, false;
        }
        OutStep(View(), vaddr, left, n, bs, c);
        bs := bs + c;
        left := left - n;
        vaddr := On(vaddr, n);
      }
      Nil(bs);
      ok := true;
    }

    /** co_monitor_linuxvm_to_host. */
    method GuestToHost(a: u32, size: u32) returns (bs: seq<byte>, ok: bool)
      requires InRange(View())
      ensures (bs, ok) ==
        if InBounds(a, size, KERNEL_OFFSET + 4096 * pages) then FromGuest(View(), a, size) else ([], false)
    {
      if !InBounds(a, size, KERNEL_OFFSET + 4096 * pages) {
        return [], false;
      }
      bs, ok := TransferOut(a, size);
    }

    /** copy_region_split_callback: allocate the page, then copy into it. */
    method RegionChunk(a: u32, bs: seq<byte>) returns (ok: bool)
      requires Sane(View()) && bs != [] && a % 4096 + |bs| <= 4096
      modifies this`pp, this`free, this`ram
      ensures Copied(old(View()), a, bs, View(), ok)
    {
      ghost var m := View();
      ghost var k, k';
      ok, k, k' := AllocAndMapPage(a - a % 4096);
      ghost var m1 := View();
      assert (a - a % 4096) / 4096 == a / 4096;
      AllocBytes(m, a, Virtual(a / 4096), k, k');
      AllocSucceedsIff(m, Virtual(a / 4096), k, k');
      if ok {
        ok := CopyIn(a, bs);
        CopiedChunk(m, m1, a, bs);
      } else {
        CopiedFailed(m, m1, a, bs);
      }
    }

    /** co_monitor_copy_region with data, or with zeros when there is none, to any addresses. */
    method CopyRegion(a: u32, size: u32, data: Option<seq<byte>>) returns (ok: bool)
      requires Sane(View()) && (data.Some? ==> |data.value| == size)
      modifies this`pp, this`free, this`ram
      ensures Copied(old(View()), a, if data.Some? then data.value else seq(size, _ => 0), View(), ok)
    {
      ok := CopyBytes(a, if data.Some? then data.value else seq(size, _ => 0));
    }

    method CopyBytes(a: u32, bs: seq<byte>) returns (ok: bool)
      requires Sane(View()) && |bs| < SPACE
      modifies this`pp, this`free, this`ram
      ensures Copied(old(View()), a, bs, View(), ok)
    {
      ghost var m := View();
      var offset: u32, done: nat := a, 0;
      ok := true;
      CopyingStarts(m, a, bs);
      while done < |bs|
        invariant ok && Copying(m, a, bs, done, offset, View())
      {
        ok, done, offset := RegionNext(offset, bs, done, m, a);
        if !ok {
          break;
        }
      }
      CopiedWhole(m, a, bs, View(), ok);
    }

    /** One round of co_monitor_copy_region. */
    method RegionNext(offset: u32, bs: seq<byte>, done: nat, ghost m: Mem, ghost a: u32)
      returns (ok: bool, done': nat, offset': u32)
      requires Sane(m) && done < |bs| < SPACE && Copying(m, a, bs, done, offset, View())
      modifies this`pp, this`free, this`ram
      ensures done < done' <= |bs|
      ensures if ok then Copying(m, a, bs, done', offset', View()) else CopiedTo(m, a, bs, |bs|, View(), false)
    {
      ghost var m1 := View();
      var n := PartSize(offset, |bs| - done);
      ok := RegionChunk(offset, bs[done..done + n]);
      OnOn(a, done, n);
      CopiedNext(m, a, bs, done, n, m1, View(), ok);
      done', offset' := done + n, On(offset, n);
    }

    /** co_monitor_scan_and_create_pfns: every page that the range touches has a frame, or the first n have. */
    method ScanAndCreate(a: u32, size: u32) returns (ok: bool, ghost n: nat)
      requires Sane(View())
      modifies this`pp, this`free
      ensures Filled(old(View()), a / 4096, n, View()) && if ok then n == Touched(a, size) else n < Touched(a, size)
    {
      ghost var m := View();
      var offset: u32, left: u32 := a, size;
      n, ok := 0, true;
      ScanStarts(m, a, size);
      while left > 0
        invariant ok && Scanning(m, a, size, offset, left, n, View())
      {
        ok, offset, left, n := ScanNext(a, size, offset, left, m, n);
        if !ok {
          return;
        }
      }
      ScanEnds(m, a, size, offset, n, View());
    }

    /** One round of that loop. */
    method ScanNext(ghost a: u32, ghost size: u32, offset: u32, left: u32, ghost m: Mem, ghost n: nat)
      returns (ok: bool, offset': u32, left': u32, ghost n': nat)
      requires Sane(m) && Scanning(m, a, size, offset, left, n, View()) && left > 0
      modifies this`pp, this`free
      ensures left' < left
      ensures if ok then Scanning(m, a, size, offset', left', n', View())
              else Filled(m, a / 4096, n', View()) && n' < Touched(a, size)
    {
      ScannedNext(a, size, offset, left, n);
      var l := PartSize(offset, left);
      ok := ScanPage(offset, m, a / 4096, n);
      offset', left', n' := On(offset, l), left - l, if ok then n + 1 else n;
    }

    /** scan_pfns_split_callback without a callback of its own. */
    method ScanPage(offset: u32, ghost m: Mem, ghost p: Vpn, ghost n: nat) returns (ok: bool)
      requires Shape(m) && Filled(m, p, n, View()) && Ahead(p, offset / 4096, PAGES) == n % PAGES
      modifies this`pp, this`free
      ensures Filled(m, p, if ok then n + 1 else n, View())
    {
      ghost var r := View();
      var e, k := EnsurePage(offset / 4096);
      FilledNext(m, p, n, r, offset / 4096, k);
      ok := !e.Failed?;
    }

    /** free_pseudo_physical_memory: every frame goes back to the host once. */
    method FreePseudoPhysicalMemory()
      requires Shape(View()) && Apart(View())
      modifies this`pp, this`free
      ensures pp == seq(1024, _ => None)
      ensures forall f :: f in free <==> f in old(free) || UsedBelow(old(View()), 0x10_0000, f)
    {
      ghost var m := View();
      var i := 0;
      while i < 1024
        invariant 0 <= i <= 1024 && pp == m.pp
        invariant forall f :: f in free <==> f in m.free || UsedBelow(m, 1024 * i, f)
      {
        var j := 0;
        while j < 1024
          invariant 0 <= j <= 1024 && pp == m.pp
          invariant forall f :: f in free <==> f in m.free || UsedBelow(m, 1024 * i + j, f)
        {
          ghost var w: Vpn := 1024 * i + j;
          assert w / 1024 == i && w % 1024 == j;
          if pp[i].Some? && pp[i].value[j] != 0 {
            assert pp[i].value[j] == PfnAt(m, w);
            OsPutPage(pp[i].value[j]);
          }
          forall f ensures UsedBelow(m, w + 1, f) <==> UsedBelow(m, w, f) || (f != 0 && PfnAt(m, w) == f) {
            UsedNext(m, w, f);
          }
          j := j + 1;
        }
        i := i + 1;
      }
      pp := seq(1024, _ => None);
    }

    /** The two scans of alloc_pp_ram_mapping. */
    method ScanTables() returns (ok: bool, ghost n: nat)
      requires Sane(View())
      modifies this`pp, this`free
      ensures Filled(old(View()), TABLES_PAGE, n, View()) && (ok ==> n <= 1024 && 1024 * n >= pages)
    {
      ghost var m := View();
      TableEnds(pages);
      ok, n := ScanAndCreate(4096 * TABLES_PAGE, 4096 * (pages / 1024));
      if ok && pages % 1024 != 0 {
        ok, n := ScanPartial(m, n);
      }
    }

    /** The second: the page of the last, incomplete table. */
    method ScanPartial(ghost m: Mem, ghost n: nat) returns (ok: bool, ghost n': nat)
      requires Shape(m) && Filled(m, TABLES_PAGE, n, View()) && n == pages / 1024 && pages <= MAX_PAGES
      modifies this`pp, this`free
      ensures Filled(m, TABLES_PAGE, n', View()) && (ok ==> n' <= 1024 && 1024 * n' >= pages)
    {
      ghost var r := View();
      TableEnds(pages);
      var a: u32 := 4096 * TABLES_PAGE + 4096 * (pages / 1024);
      ghost var l;
      ok, l := ScanAndCreate(a, 4 * (pages % 1024));
      PartialFilled(m, n, r, l, View(), a);
      n' := n + l;
    }

    /** Its failure: every frame goes back. */
    method GiveBack(ghost m: Mem, ghost n: nat)
      requires Shape(m) && (forall w: Vpn :: PfnAt(m, w) == 0) && Filled(m, TABLES_PAGE, n, View())
      modifies this`pp, this`free
      ensures pp == seq(1024, _ => None) && forall f :: 0 < f < |ram| ==> (f in free <==> f in m.free)
    {
      ghost var r := View();
      FreePseudoPhysicalMemory();
      forall f | 0 < f < |ram| ensures f in free <==> f in m.free {
        assert UsedBelow(r, 0x10_0000, f) <==> Used(r, f);
        assert !Used(m, f);
      }
    }

    /** alloc_pp_ram_mapping: on success the monitor is consistent, and its page tables are clear if the host's frames
        were; on failure all frames are back with the host. */
    method AllocPpRamMapping() returns (ok: bool)
      requires Sane(View()) && pp == seq(1024, _ => None)
      modifies this`pp, this`free
      ensures ok ==>
        && Inv(View()) && SameFrames(old(View()), View())
        && forall v :: 0 <= v < pages ==> Backing(View(), v) == 0
      ensures ok && Clear(old(View())) ==> Blank(View())
      ensures !ok ==> pp == old(pp) && forall f :: 0 < f < |ram| ==> (f in free <==> f in old(free))
    {
      ghost var m := View();
      ghost var n;
      ok, n := ScanTables();
      if ok {
        TablesDone(m, n, View());
        if Clear(m) {
          BlankDone(m, n, View());
        }
      } else {
        GiveBack(m, n);
      }
    }
  }
}
