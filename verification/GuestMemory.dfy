/** kernel/transfer.c and the cutting of ranges in kernel/pages.c: copies that are cut at page borders, against a memory
    of bytes. */
module GuestMemory {
  import opened Bytes
  import opened GuestPages

  // ---- cutting a range at page borders

  const KERNEL_OFFSET: u32 := 0xC000_0000

  /** The bytes from a to the end of its page, at most size. */
  function Room(a: nat, size: nat): (n: nat)
    requires size > 0
    ensures 0 < n <= size && a % 4096 + n <= 4096
    ensures n == size || (a + n) % 4096 == 0
  {
    assert a + (4096 - a % 4096) == 4096 * (a / 4096 + 1);
    if size < 4096 - a % 4096 then size else 4096 - a % 4096
  }

  /** ((a + PAGE_SIZE) & PAGE_MASK) - a in 32-bit arithmetic, bounded by size. */
  method PartSize(a: u32, size: u32) returns (n: u32)
    requires size > 0
    ensures n == Room(a, size)
  {
    var up := (a + 4096) % 0x1_0000_0000 / 4096 * 4096;
    n := (up - a) % 0x1_0000_0000;
    RoundUp(a);
    if n > size {
      n := size;
    }
  }

  lemma RoundUp(a: u32)
    ensures ((a + 4096) % 0x1_0000_0000 / 4096 * 4096 - a) % 0x1_0000_0000 == 4096 - a % 4096
  {
    var q, o := a / 4096, a % 4096;
    assert a == 4096 * q + o;
    if q < 0xF_FFFF {
      assert (a + 4096) / 4096 == q + 1;
    } else {
      assert (a + 4096) % 0x1_0000_0000 == o;
    }
  }

  datatype Chunk = Chunk(start: nat, len: nat)

  /** The chunks lie end to end from a to z, each is non-empty and inside one page, and only z cuts a page short.
      Addresses are counted on where the range wraps around the address space. */
  ghost predicate Tiles(a: nat, z: nat, cs: seq<Chunk>)
    decreases |cs|
  {
    if cs == [] then a == z
    else
      && cs[0].start == a % 0x1_0000_0000 && 0 < cs[0].len && a % 4096 + cs[0].len <= 4096
      && (a + cs[0].len == z || (a + cs[0].len) % 4096 == 0)
      && Tiles(a + cs[0].len, z, cs[1..])
  }

  lemma {:induction false} TilesSnoc(a: nat, y: nat, cs: seq<Chunk>, c: Chunk)
    requires Tiles(a, y, cs) && c.start == y % 0x1_0000_0000 && 0 < c.len && y % 4096 + c.len <= 4096
    requires cs != [] ==> y % 4096 == 0
    ensures Tiles(a, y + c.len, cs + [c])
    decreases |cs|
  {
    if cs == [] {
      assert (cs + [c])[1..] == [];
    } else {
      assert (cs + [c])[1..] == cs[1..] + [c];
      TilesSnoc(a + cs[0].len, y, cs[1..], c);
    }
  }

  /** The chunks are one per page that the range touches. */
  lemma {:induction false} TilesCount(a: nat, z: nat, cs: seq<Chunk>)
    requires Tiles(a, z, cs)
    ensures a <= z && |cs| == if a == z then 0 else (z - 1) / 4096 - a / 4096 + 1
    decreases |cs|
  {
    if cs != [] {
      TilesCount(a + cs[0].len, z, cs[1..]);
    }
  }

  /** co_split_by_pages_and_callback with a callback that records its arguments. */
  method SplitByPages(a: u32, size: u32) returns (cs: seq<Chunk>)
    ensures Tiles(a, a + size, cs)
  {
    cs := [];
    var offset: u32, left: u32 := a, size;
    ghost var y: nat := a;
    while left > 0
      invariant y + left == a + size && offset == y % 0x1_0000_0000
      invariant Tiles(a, y, cs)
      invariant left > 0 && cs != [] ==> y % 4096 == 0
    {
      var n := PartSize(offset, left);
      SameRoom(y, left);
      TilesSnoc(a, y, cs, Chunk(offset, n));
      cs := cs + [Chunk(offset, n)];
      WrapOn(y, n);
      left := left - n;
      offset := (offset + n) % 0x1_0000_0000;
      y := y + n;
    }
  }

  /** An address and its place in the 32-bit address space have the same place in their page. */
  lemma SameRoom(y: nat, size: nat)
    requires size > 0
    ensures y % 0x1_0000_0000 % 4096 == y % 4096 && Room(y % 0x1_0000_0000, size) == Room(y, size)
  {
    var q, o := y / 0x1_0000_0000, y % 0x1_0000_0000;
    assert y == 4096 * (0x10_0000 * q) + o;
  }

  lemma WrapOn(y: nat, n: nat)
    ensures (y % 0x1_0000_0000 + n) % 0x1_0000_0000 == (y + n) % 0x1_0000_0000
  {
  }

  /** The two range tests at the head of co_monitor_host_linuxvm_transfer. */
  predicate InBounds(a: u32, size: u32, end: u32) {
    && !(a < KERNEL_OFFSET || a >= end)
    && !((a + size) % 0x1_0000_0000 < KERNEL_OFFSET || (a + size) % 0x1_0000_0000 > end)
  }

  /** The tests accept exactly the ranges inside the pseudo RAM, and those that wrap around back into it. */
  lemma InBoundsIff(a: u32, size: u32, end: u32)
    ensures InBounds(a, size, end) <==>
      KERNEL_OFFSET <= a < end && (a + size <= end || 0x1_0000_0000 + KERNEL_OFFSET <= a + size <= 0x1_0000_0000 + end)
  {
    if a + size >= 0x1_0000_0000 {
      assert (a + size) % 0x1_0000_0000 == a + size - 0x1_0000_0000;
    }
  }

  // ---- addresses

  const SPACE: nat := 0x1_0000_0000

  /** The address i bytes on. */
  function On(a: u32, i: nat): (y: u32) { (a + i) % SPACE }

  lemma AheadOn(a: u32, i: nat)
    requires i < SPACE
    ensures Ahead(a, On(a, i), SPACE) == i
  {
    if a + i >= SPACE {
      assert On(a, i) == a + i - SPACE;
    }
  }

  lemma OnAhead(a: u32, y: u32)
    ensures On(a, Ahead(a, y, SPACE)) == y
  {
    if y < a {
      assert a + Ahead(a, y, SPACE) == y + SPACE;
    }
  }

  lemma OnOn(a: u32, i: nat, j: nat)
    ensures On(On(a, i), j) == On(a, i + j)
  {
    WrapOn(a + i, j);
  }

  lemma AheadNext(a: u32, n: nat, y: u32)
    requires n < SPACE
    ensures var d := Ahead(a, y, SPACE); Ahead(On(a, n), y, SPACE) == if d >= n then d - n else d + SPACE - n
  {
    if a + n >= SPACE {
      assert On(a, n) == a + n - SPACE;
    }
  }

  /** The bytes of one chunk lie in its page. */
  lemma InChunk(a: u32, n: nat, y: u32)
    requires a % 4096 + n <= 4096
    ensures Ahead(a, y, SPACE) < n <==> y / 4096 == a / 4096 && a % 4096 <= y % 4096 < a % 4096 + n
    ensures Ahead(a, y, SPACE) < n ==> y % 4096 == a % 4096 + Ahead(a, y, SPACE)
  {
  }

  // ---- bytes

  /** The byte at guest address y. A page without a frame reads as host frame 0, as it does in the source. */
  function At(m: Mem, y: u32): (b: byte)
    requires InRange(m)
  {
    m.ram[PfnAt(m, y / 4096)][y % 4096]
  }

  /** One chunk copied into the page that is mapped at guest address a. */
  function Store(m: Mem, a: u32, bs: seq<byte>): (r: Mem)
    requires InRange(m) && a % 4096 + |bs| <= 4096
    ensures InRange(r) && r == m.(ram := r.ram) && |r.ram| == |m.ram|
  {
    var f := PfnAt(m, a / 4096);
    var r := m.(ram := m.ram[f := Blit(m.ram[f], a % 4096, bs)]);
    assert forall w: Vpn :: PfnAt(r, w) == PfnAt(m, w);
    r
  }

  /** The loop of co_monitor_host_linuxvm_transfer, from the host: it stops at the first page whose group array is
      missing. Addresses wrap. */
  function ToGuest(m: Mem, a: u32, bs: seq<byte>): (r: (Mem, bool))
    requires InRange(m)
    ensures r.0 == m.(ram := r.0.ram) && |r.0.ram| == |m.ram| && InRange(r.0)
    decreases |bs|
  {
    if bs == [] then (m, true)
    else if m.pp[a / 4096 / 1024].None? then (m, false)
    else
      var n := Room(a, |bs|);
      ToGuest(Store(m, a, bs[..n]), On(a, n), bs[n..])
  }

  /** The same loop, to the host. */
  function FromGuest(m: Mem, a: u32, size: nat): (r: (seq<byte>, bool))
    requires InRange(m)
    decreases size
  {
    if size == 0 then ([], true)
    else if m.pp[a / 4096 / 1024].None? then ([], false)
    else
      var n := Room(a, size);
      var rest := FromGuest(m, On(a, n), size - n);
      (m.ram[PfnAt(m, a / 4096)][a % 4096..a % 4096 + n] + rest.0, rest.1)
  }

  /** How far the loop gets. */
  function Reach(m: Mem, a: u32, size: nat): (l: nat)
    requires Shape(m)
    ensures l <= size
    decreases size
  {
    if size == 0 || m.pp[a / 4096 / 1024].None? then 0
    else
      var n := Room(a, size);
      n + Reach(m, On(a, n), size - n)
  }

  /** It gets to the first byte in whose page group no page has ever had a frame. */
  lemma {:induction false} ReachIsFirst(m: Mem, a: u32, size: nat)
    requires Shape(m)
    ensures forall i :: 0 <= i < Reach(m, a, size) ==> m.pp[On(a, i) / 4096 / 1024].Some?
    ensures Reach(m, a, size) < size ==> m.pp[On(a, Reach(m, a, size)) / 4096 / 1024].None?
    decreases size
  {
    if size != 0 && m.pp[a / 4096 / 1024].Some? {
      var n := Room(a, size);
      var b, l := On(a, n), Reach(m, On(a, n), size - n);
      ReachIsFirst(m, b, size - n);
      forall i | 0 <= i < n + l ensures m.pp[On(a, i) / 4096 / 1024].Some? {
        if i < n {
          ChunkPage(a, n, i);
        } else {
          OnOn(a, n, i - n);
        }
      }
      OnOn(a, n, l);
    } else {
      ChunkPage(a, 1, 0);
    }
  }

  lemma ChunkPage(a: u32, n: nat, i: nat)
    requires a % 4096 + n <= 4096 && i < n
    ensures On(a, i) / 4096 == a / 4096 && On(a, i) % 4096 == a % 4096 + i
  {
    AheadOn(a, i);
    InChunk(a, n, On(a, i));
  }

  // ---- a copy from the host, byte by byte

  /** r is m with l bytes of bs stored from address a on, as seen at y. */
  ghost predicate Stored(m: Mem, r: Mem, a: u32, bs: seq<byte>, l: nat, y: u32)
    requires InRange(m) && InRange(r) && l <= |bs|
  {
    At(r, y) == if Ahead(a, y, SPACE) < l then bs[Ahead(a, y, SPACE)] else At(m, y)
  }

  lemma StoreBytes(m: Mem, a: u32, bs: seq<byte>, y: u32)
    requires Sane(m) && a % 4096 + |bs| <= 4096 && PfnAt(m, y / 4096) != 0
    ensures Stored(m, Store(m, a, bs), a, bs, |bs|, y)
  {
    InChunk(a, |bs|, y);
    assert y / 4096 != a / 4096 ==> PfnAt(m, y / 4096) != PfnAt(m, a / 4096);
  }

  lemma StoredThen(m: Mem, m1: Mem, r: Mem, a: u32, bs: seq<byte>, n: nat, l: nat, y: u32)
    requires InRange(m) && InRange(m1) && InRange(r) && n < SPACE && n + l <= |bs| <= SPACE
    requires Stored(m, m1, a, bs[..n], n, y) && Stored(m1, r, On(a, n), bs[n..], l, y)
    ensures Stored(m, r, a, bs, n + l, y)
  {
    AheadNext(a, n, y);
  }

  lemma StoreSane(m: Mem, a: u32, bs: seq<byte>)
    requires Sane(m) && a % 4096 + |bs| <= 4096
    ensures Sane(Store(m, a, bs)) && forall w: Vpn :: PfnAt(Store(m, a, bs), w) == PfnAt(m, w)
  {
    assert forall w: Vpn :: PfnAt(Store(m, a, bs), w) == PfnAt(m, w);
  }

  /** A copy from the host, from any address, wrapping or not: every byte of a page with a frame is the buffer's if the
      loop gets to it, and what it was otherwise; the call succeeds exactly if the loop gets to all. */
  lemma ToGuestBytes(m: Mem, a: u32, bs: seq<byte>, y: u32)
    requires Sane(m) && |bs| <= SPACE && PfnAt(m, y / 4096) != 0
    ensures var (r, ok), l := ToGuest(m, a, bs), Reach(m, a, |bs|);
      Sane(r) && Stored(m, r, a, bs, l, y) && (ok <==> l == |bs|)
  {
    BytesAfter(m, a, bs, y, ToGuest(m, a, bs), Reach(m, a, |bs|));
  }

  lemma {:induction false} BytesAfter(m: Mem, a: u32, bs: seq<byte>, y: u32, r: (Mem, bool), l: nat)
    requires Sane(m) && |bs| <= SPACE && PfnAt(m, y / 4096) != 0
    requires r == ToGuest(m, a, bs) && l == Reach(m, a, |bs|)
    ensures Sane(r.0) && Stored(m, r.0, a, bs, l, y) && (r.1 <==> l == |bs|)
    decreases |bs|
  {
    if bs != [] && m.pp[a / 4096 / 1024].Some? {
      var n := Room(a, |bs|);
      var m1 := FirstChunk(m, a, bs, n, y, r, l);
      BytesAfter(m1, On(a, n), bs[n..], y, r, l - n);
      StoredThen(m, m1, r.0, a, bs, n, l - n, y);
    }
  }

  lemma FirstChunk(m: Mem, a: u32, bs: seq<byte>, n: nat, y: u32, r: (Mem, bool), l: nat) returns (m1: Mem)
    requires Sane(m) && PfnAt(m, y / 4096) != 0 && bs != [] && n == Room(a, |bs|) && m.pp[a / 4096 / 1024].Some?
    requires r == ToGuest(m, a, bs) && l == Reach(m, a, |bs|)
    ensures Sane(m1) && PfnAt(m1, y / 4096) != 0 && Stored(m, m1, a, bs[..n], n, y)
    ensures n <= l && r == ToGuest(m1, On(a, n), bs[n..]) && l - n == Reach(m1, On(a, n), |bs[n..]|)
  {
    m1 := Store(m, a, bs[..n]);
    StoreSane(m, a, bs[..n]);
    StoreBytes(m, a, bs[..n], y);
    SameReach(m, m1, On(a, n), |bs| - n);
  }

  lemma {:induction false} SameReach(m: Mem, r: Mem, a: u32, size: nat)
    requires Shape(m) && Shape(r) && r.pp == m.pp
    ensures Reach(r, a, size) == Reach(m, a, size)
    decreases size
  {
    if size != 0 && m.pp[a / 4096 / 1024].Some? {
      SameReach(m, r, On(a, Room(a, size)), size - Room(a, size));
    }
  }

  /** Frames that back no page, and are not host frame 0, keep their bytes. */
  lemma {:induction false} OtherFrames(m: Mem, a: u32, bs: seq<byte>, h: nat)
    requires InRange(m) && h < |m.ram| && forall w: Vpn :: PfnAt(m, w) != h
    ensures ToGuest(m, a, bs).0.ram[h] == m.ram[h]
    decreases |bs|
  {
    if bs != [] && m.pp[a / 4096 / 1024].Some? {
      var n := Room(a, |bs|);
      var m1 := Store(m, a, bs[..n]);
      assert forall w: Vpn :: PfnAt(m1, w) == PfnAt(m, w);
      OtherFrames(m1, On(a, n), bs[n..], h);
    }
  }

  // ---- which copies keep the invariant

  /** The page whose entry lies at address y, if any. */
  function EntryAt(y: u32): (v: int) { (y / 4096 - TABLES_PAGE) * 1024 + y % 4096 / 4 }

  /** Address y belongs to the page-table entry of a page of the pseudo RAM. */
  predicate IsEntry(m: Mem, y: u32) { 0 <= EntryAt(y) < m.pages }

  function EntryByte(v: Vpn, k: nat): (y: u32)
    requires k < 4
    ensures y / 4096 == TablePage(v) && y % 4096 == 4 * (v % 1024) + k && EntryAt(y) == v
  {
    4096 * TablePage(v) + 4 * (v % 1024) + k
  }

  lemma EntryBytes(y: u32)
    requires 0 <= EntryAt(y) < 0x10_0000
    ensures y == EntryByte(EntryAt(y), y % 4)
  {
    var v, o := EntryAt(y), y % 4096;
    assert v / 1024 == y / 4096 - TABLES_PAGE && v % 1024 == o / 4;
    assert o == 4 * (o / 4) + o % 4 && y == 4096 * (y / 4096) + o;
  }

  lemma WordsAlike(p: Page, q: Page, i: nat)
    requires i < 1024
    ensures Word(p, i) == Word(q, i) <==>
      p[4 * i] == q[4 * i] && p[4 * i + 1] == q[4 * i + 1] && p[4 * i + 2] == q[4 * i + 2] &&
        p[4 * i + 3] == q[4 * i + 3]
  {
    var x, y := p[4 * i..], q[4 * i..];
    if Word(p, i) == Word(q, i) {
      var x1, y1 := x[1] as int + 0x100 * x[2] as int + 0x1_0000 * x[3] as int, y[1] as int + 0x100 * y[2] as int +
        0x1_0000 * y[3] as int;
      LowByte(x[0], x1, y[0], y1);
      LowByte(x[1], x[2] as int + 0x100 * x[3] as int, y[1], y[2] as int + 0x100 * y[3] as int);
      LowByte(x[2], x[3] as int, y[2], y[3] as int);
    }
  }

  lemma LowByte(a: byte, n: int, b: byte, l: int)
    requires a as int + 0x100 * n == b as int + 0x100 * l
    ensures a == b && n == l
  {
  }

  /** The bytes that the copy brings to page-table entries of recorded pages are those that are there. */
  ghost predicate Harmless(m: Mem, a: u32, bs: seq<byte>)
    requires InRange(m)
  {
    forall i :: 0 <= i < Reach(m, a, |bs|) && IsEntry(m, On(a, i)) && !Unrecorded(m, EntryAt(On(a, i))) ==>
      bs[i] == At(m, On(a, i))
  }

  lemma RecordsAfter(m: Mem, a: u32, bs: seq<byte>)
    requires Sane(m)
    ensures var r := ToGuest(m, a, bs).0;
      && Sane(r) && (forall w: Vpn :: PfnAt(r, w) == PfnAt(m, w))
      && (forall g :: 0 <= g && Covered(m, g) ==> Reverse(r, g) == Reverse(m, g))
  {
    var r := ToGuest(m, a, bs).0;
    assert forall w: Vpn :: PfnAt(r, w) == PfnAt(m, w);
    forall g | 0 <= g && Covered(m, g) ensures Reverse(r, g) == Reverse(m, g) {
      assert m.rev[g / 1024] in m.rev;
      OtherFrames(m, a, bs, m.rev[g / 1024]);
    }
  }

  /** The copy brings byte y what is there, or does not get to it. */
  predicate Brings(m: Mem, a: u32, bs: seq<byte>, y: u32)
    requires InRange(m)
  {
    Ahead(a, y, SPACE) < Reach(m, a, |bs|) ==> bs[Ahead(a, y, SPACE)] == At(m, y)
  }

  predicate BringsEntry(m: Mem, a: u32, bs: seq<byte>, v: Vpn)
    requires InRange(m)
  {
    && Brings(m, a, bs, EntryByte(v, 0)) && Brings(m, a, bs, EntryByte(v, 1))
    && Brings(m, a, bs, EntryByte(v, 2)) && Brings(m, a, bs, EntryByte(v, 3))
  }

  lemma EntryAfter(m: Mem, a: u32, bs: seq<byte>, v: Vpn)
    requires Sane(m) && |bs| <= SPACE && PfnAt(m, TablePage(v)) != 0
    ensures Sane(ToGuest(m, a, bs).0)
    ensures Pte(ToGuest(m, a, bs).0, v) == Pte(m, v) <==> BringsEntry(m, a, bs, v)
  {
    var r := ToGuest(m, a, bs).0;
    RecordsAfter(m, a, bs);
    PtesAlike(m, r, v);
    ByteAfter(m, a, bs, v, 0);
    ByteAfter(m, a, bs, v, 1);
    ByteAfter(m, a, bs, v, 2);
    ByteAfter(m, a, bs, v, 3);
  }

  lemma ByteAfter(m: Mem, a: u32, bs: seq<byte>, v: Vpn, k: nat)
    requires Sane(m) && |bs| <= SPACE && PfnAt(m, TablePage(v)) != 0 && k < 4
    ensures At(ToGuest(m, a, bs).0, EntryByte(v, k)) == At(m, EntryByte(v, k)) <==> Brings(m, a, bs, EntryByte(v, k))
  {
    ToGuestBytes(m, a, bs, EntryByte(v, k));
  }

  lemma PtesAlike(m: Mem, r: Mem, v: Vpn)
    requires InRange(m) && InRange(r)
    ensures Pte(r, v) == Pte(m, v) <==>
      && At(r, EntryByte(v, 0)) == At(m, EntryByte(v, 0)) && At(r, EntryByte(v, 1)) == At(m, EntryByte(v, 1))
      && At(r, EntryByte(v, 2)) == At(m, EntryByte(v, 2)) && At(r, EntryByte(v, 3)) == At(m, EntryByte(v, 3))
  {
    WordsAlike(r.ram[PfnAt(r, TablePage(v))], m.ram[PfnAt(m, TablePage(v))], v % 1024);
  }

  /** ... seen from the buffer. */
  lemma BringsAt(m: Mem, a: u32, bs: seq<byte>, v: Vpn)
    requires InRange(m) && |bs| <= SPACE
    requires forall i :: 0 <= i < Reach(m, a, |bs|) && EntryAt(On(a, i)) == v ==> bs[i] == At(m, On(a, i))
    ensures BringsEntry(m, a, bs, v)
  {
    forall k | 0 <= k < 4 ensures Brings(m, a, bs, EntryByte(v, k)) {
      OnAhead(a, EntryByte(v, k));
    }
  }

  lemma BroughtAt(m: Mem, a: u32, bs: seq<byte>, i: nat)
    requires InRange(m) && |bs| <= SPACE && i < Reach(m, a, |bs|) && 0 <= EntryAt(On(a, i)) < 0x10_0000
    requires BringsEntry(m, a, bs, EntryAt(On(a, i)))
    ensures bs[i] == At(m, On(a, i))
  {
    AheadOn(a, i);
    BringsByte(m, a, bs, On(a, i));
  }

  lemma BringsByte(m: Mem, a: u32, bs: seq<byte>, y: u32)
    requires InRange(m) && 0 <= EntryAt(y) < 0x10_0000 && BringsEntry(m, a, bs, EntryAt(y))
    ensures Brings(m, a, bs, y)
  {
    var k := y % 4;
    EntryBytes(y);
    assert k == 0 || k == 1 || k == 2 || k == 3;
  }

  lemma AgreesAfter(m: Mem, a: u32, bs: seq<byte>, v: Vpn)
    requires Inv(m) && v < m.pages && !Unrecorded(m, v)
    ensures Sane(ToGuest(m, a, bs).0) && !Unrecorded(ToGuest(m, a, bs).0, v) && PfnAt(m, TablePage(v)) != 0
    ensures Agrees(ToGuest(m, a, bs).0, v) <==> Pte(ToGuest(m, a, bs).0, v) == Pte(m, v)
  {
    RecordsAfter(m, a, bs);
    assert InUse(m, TablePage(v)) && Agrees(m, v);
  }

  lemma HarmlessKeeps(m: Mem, a: u32, bs: seq<byte>)
    requires Inv(m) && |bs| <= SPACE && Harmless(m, a, bs)
    ensures Inv(ToGuest(m, a, bs).0)
  {
    var r := ToGuest(m, a, bs).0;
    RecordsAfter(m, a, bs);
    forall v | 0 <= v < r.pages && !Unrecorded(r, v) ensures Agrees(r, v) {
      AgreesAfter(m, a, bs, v);
      BringsAt(m, a, bs, v);
      EntryAfter(m, a, bs, v);
    }
  }

  lemma KeptHarmless(m: Mem, a: u32, bs: seq<byte>, i: nat)
    requires Inv(m) && |bs| <= SPACE && Inv(ToGuest(m, a, bs).0) && i < Reach(m, a, |bs|)
    requires IsEntry(m, On(a, i)) && !Unrecorded(m, EntryAt(On(a, i)))
    ensures bs[i] == At(m, On(a, i))
  {
    var v := EntryAt(On(a, i));
    AgreesAfter(m, a, bs, v);
    assert Agrees(ToGuest(m, a, bs).0, v);
    EntryAfter(m, a, bs, v);
    BroughtAt(m, a, bs, i);
  }

  /** A copy from the host, to any addresses, keeps the invariant if and only if it is harmless. */
  lemma ToGuestKeepsIff(m: Mem, a: u32, bs: seq<byte>)
    requires Inv(m) && |bs| <= SPACE
    ensures Inv(ToGuest(m, a, bs).0) <==> Harmless(m, a, bs)
  {
    if Harmless(m, a, bs) {
      HarmlessKeeps(m, a, bs);
    }
    if Inv(ToGuest(m, a, bs).0) {
      forall i | 0 <= i < Reach(m, a, |bs|) && IsEntry(m, On(a, i)) && !Unrecorded(m, EntryAt(On(a, i)))
        ensures bs[i] == At(m, On(a, i))
      {
        KeptHarmless(m, a, bs, i);
      }
    }
  }

  /** The copy changes no page-table entry of the pseudo RAM. */
  predicate Tidy(m: Mem, a: u32, bs: seq<byte>)
    requires InRange(m)
  {
    forall i :: 0 <= i < Reach(m, a, |bs|) && IsEntry(m, On(a, i)) ==> bs[i] == At(m, On(a, i))
  }

  lemma ToGuestTidy(m: Mem, a: u32, bs: seq<byte>)
    requires Inv(m) && |bs| <= SPACE && Tidy(m, a, bs)
    ensures Inv(ToGuest(m, a, bs).0) && (Blank(m) ==> Blank(ToGuest(m, a, bs).0))
  {
    var r := ToGuest(m, a, bs).0;
    ToGuestKeepsIff(m, a, bs);
    RecordsAfter(m, a, bs);
    if Blank(m) {
      forall v | 0 <= v < r.pages && Unrecorded(r, v) ensures Pte(r, v) == 0 {
        assert InUse(m, TablePage(v)) && Unrecorded(m, v);
        BringsAt(m, a, bs, v);
        EntryAfter(m, a, bs, v);
      }
    }
  }

  predicate NoEntries(m: Mem, a: u32, n: nat) { forall i :: 0 <= i < n ==> !IsEntry(m, On(a, i)) }

  /** There are no page-table entries inside the pseudo RAM. */
  lemma InsideNoEntries(m: Mem, a: u32, n: nat)
    requires Shape(m) && KERNEL_OFFSET <= a && a + n <= KERNEL_OFFSET + 4096 * m.pages
    ensures NoEntries(m, a, n)
  {
    forall i | 0 <= i < n ensures !IsEntry(m, On(a, i)) {
      assert On(a, i) == a + i;
    }
  }

  /** A range that wraps around into the pseudo RAM takes in every page-table entry. */
  lemma WrapHitsEntries(m: Mem, a: u32, size: u32, v: Vpn, k: nat)
    requires Shape(m) && InBounds(a, size, KERNEL_OFFSET + 4096 * m.pages) && a + size > KERNEL_OFFSET + 4096 * m.pages
    requires k < 4
    ensures Ahead(a, EntryByte(v, k), SPACE) < size
  {
    InBoundsIff(a, size, KERNEL_OFFSET + 4096 * m.pages);
  }

  /** A copy that the range tests accept and that gets through keeps the invariant if and only if it does not wrap, or
      happens to carry the page-table entries of all recorded pages. */
  lemma HostCopyKeepsIff(m: Mem, a: u32, bs: seq<byte>)
    requires Inv(m) && |bs| < SPACE && InBounds(a, |bs|, KERNEL_OFFSET + 4096 * m.pages) && ToGuest(m, a, bs).1
    ensures Inv(ToGuest(m, a, bs).0) <==>
      a + |bs| <= KERNEL_OFFSET + 4096 * m.pages ||
      forall v, k :: 0 <= v < m.pages && !Unrecorded(m, v) && 0 <= k < 4 ==>
        Ahead(a, EntryByte(v, k), SPACE) < |bs| && bs[Ahead(a, EntryByte(v, k), SPACE)] == At(m, EntryByte(v, k))
  {
    ToGuestKeepsIff(m, a, bs);
    InBoundsIff(a, |bs|, KERNEL_OFFSET + 4096 * m.pages);
    if a + |bs| <= KERNEL_OFFSET + 4096 * m.pages {
      InsideNoEntries(m, a, |bs|);
    } else {
      WrappedHarmless(m, a, bs);
    }
  }

  lemma WrappedHarmless(m: Mem, a: u32, bs: seq<byte>)
    requires Sane(m) && |bs| < SPACE && InBounds(a, |bs|, KERNEL_OFFSET + 4096 * m.pages) && ToGuest(m, a, bs).1
    requires a + |bs| > KERNEL_OFFSET + 4096 * m.pages
    ensures Harmless(m, a, bs) <==>
      forall v, k :: 0 <= v < m.pages && !Unrecorded(m, v) && 0 <= k < 4 ==>
        Ahead(a, EntryByte(v, k), SPACE) < |bs| && bs[Ahead(a, EntryByte(v, k), SPACE)] == At(m, EntryByte(v, k))
  {
    Through(m, a, bs);
    forall v, k | 0 <= v < m.pages && !Unrecorded(m, v) && 0 <= k < 4
      ensures Ahead(a, EntryByte(v, k), SPACE) < |bs| && On(a, Ahead(a, EntryByte(v, k), SPACE)) == EntryByte(v, k)
    {
      WrapHitsEntries(m, a, |bs|, v, k);
      OnAhead(a, EntryByte(v, k));
    }
    forall i | 0 <= i < |bs| && IsEntry(m, On(a, i))
      ensures Ahead(a, EntryByte(EntryAt(On(a, i)), On(a, i) % 4), SPACE) == i
    {
      AheadOn(a, i);
      EntryBytes(On(a, i));
    }
  }

  /** A call that succeeds has got to all bytes. */
  lemma {:induction false} Through(m: Mem, a: u32, bs: seq<byte>)
    requires InRange(m)
    ensures ToGuest(m, a, bs).1 <==> Reach(m, a, |bs|) == |bs|
    decreases |bs|
  {
    if bs != [] && m.pp[a / 4096 / 1024].Some? {
      var n := Room(a, |bs|);
      Through(Store(m, a, bs[..n]), On(a, n), bs[n..]);
      SameReach(m, Store(m, a, bs[..n]), On(a, n), |bs| - n);
    }
  }

  // ---- pages without a frame

  /** Every byte of the range lies in a page with a frame. */
  ghost predicate AllMapped(m: Mem, a: u32, n: nat)
    requires Shape(m)
  {
    forall i :: 0 <= i < n ==> PfnAt(m, On(a, i) / 4096) != 0
  }

  lemma MappedReach(m: Mem, a: u32, n: nat)
    requires Shape(m) && AllMapped(m, a, n)
    ensures Reach(m, a, n) == n
  {
    ReachIsFirst(m, a, n);
  }

  lemma MappedRest(m: Mem, m1: Mem, a: u32, n: nat, size: nat)
    requires Shape(m) && Shape(m1) && m1.pp == m.pp && AllMapped(m, a, size) && n <= size
    ensures AllMapped(m1, On(a, n), size - n)
  {
    forall i | 0 <= i < size - n ensures PfnAt(m1, On(On(a, n), i) / 4096) != 0 {
      OnOn(a, n, i);
      assert PfnAt(m, On(a, n + i) / 4096) != 0;
    }
  }

  lemma {:induction false} ZeroKept(m: Mem, a: u32, bs: seq<byte>)
    requires Sane(m) && AllMapped(m, a, |bs|)
    ensures ToGuest(m, a, bs).0.ram[0] == m.ram[0]
    decreases |bs|
  {
    if bs != [] && m.pp[a / 4096 / 1024].Some? {
      var n := Room(a, |bs|);
      var m1 := Store(m, a, bs[..n]);
      assert PfnAt(m, On(a, 0) / 4096) != 0 && On(a, 0) == a;
      StoreSane(m, a, bs[..n]);
      MappedRest(m, m1, a, n, |bs|);
      ZeroKept(m1, On(a, n), bs[n..]);
    }
  }

  predicate Only(bs: seq<byte>, c: byte) { forall i :: 0 <= i < |bs| ==> bs[i] == c }

  lemma {:induction false} ZeroStays(m: Mem, a: u32, bs: seq<byte>, c: byte, o: nat)
    requires InRange(m) && Only(bs, c) && o < 4096 && m.ram[0][o] == c
    ensures ToGuest(m, a, bs).0.ram[0][o] == c
    decreases |bs|
  {
    if bs != [] && m.pp[a / 4096 / 1024].Some? {
      var n := Room(a, |bs|);
      ZeroStays(Store(m, a, bs[..n]), On(a, n), bs[n..], c, o);
    }
  }

  /** A byte that the copy brings to a page without a frame is written to host frame 0. */
  lemma {:induction false} ZeroHit(m: Mem, a: u32, bs: seq<byte>, c: byte, i: nat)
    requires InRange(m) && Only(bs, c) && i < Reach(m, a, |bs|) && PfnAt(m, On(a, i) / 4096) == 0
    ensures ToGuest(m, a, bs).0.ram[0][On(a, i) % 4096] == c
    decreases |bs|
  {
    var n := Room(a, |bs|);
    var m1 := Store(m, a, bs[..n]);
    if i < n {
      ChunkPage(a, n, i);
      ZeroStays(m1, On(a, n), bs[n..], c, On(a, i) % 4096);
    } else {
      OnOn(a, n, i - n);
      SameReach(m, m1, On(a, n), |bs| - n);
      ZeroHit(m1, On(a, n), bs[n..], c, i - n);
    }
  }

  /** Every buffer of n bytes can be copied to the range, and without a byte written to host frame 0, if and only if all
      of the range has frames. */
  lemma ToGuestSafeIff(m: Mem, a: u32, n: nat)
    requires Sane(m)
    ensures (forall bs: seq<byte> :: |bs| == n ==> ToGuest(m, a, bs).1 && ToGuest(m, a, bs).0.ram[0] == m.ram[0]) <==>
      AllMapped(m, a, n)
  {
    if AllMapped(m, a, n) {
      forall bs: seq<byte> | |bs| == n ensures ToGuest(m, a, bs).1 && ToGuest(m, a, bs).0.ram[0] == m.ram[0] {
        MappedReach(m, a, n);
        Through(m, a, bs);
        ZeroKept(m, a, bs);
      }
    } else {
      var i: nat :| i < n && PfnAt(m, On(a, i) / 4096) == 0;
      var bs := ZeroSpoilt(m, a, n, i);
    }
  }

  lemma ZeroSpoilt(m: Mem, a: u32, n: nat, i: nat) returns (bs: seq<byte>)
    requires InRange(m) && i < n && PfnAt(m, On(a, i) / 4096) == 0
    ensures |bs| == n && !(ToGuest(m, a, bs).1 && ToGuest(m, a, bs).0.ram[0] == m.ram[0])
  {
    var c: byte := if m.ram[0][On(a, i) % 4096] == 0 then 1 else 0;
    bs := seq(n, _ => c);
    Through(m, a, bs);
    if Reach(m, a, n) == n {
      ZeroHit(m, a, bs, c, i);
    }
  }

  // ---- a copy to the host, byte by byte

  /** The bytes up to where the loop gets; the call succeeds exactly if it gets to all. */
  lemma {:induction false} FromGuestBytes(m: Mem, a: u32, size: nat)
    requires InRange(m)
    ensures var (s, ok) := FromGuest(m, a, size);
      && |s| == Reach(m, a, size) && (ok <==> |s| == size)
      && forall i :: 0 <= i < |s| ==> s[i] == At(m, On(a, i))
    decreases size
  {
    if size != 0 && m.pp[a / 4096 / 1024].Some? {
      var n := Room(a, size);
      FromGuestBytes(m, On(a, n), size - n);
      FirstBytes(m, a, n, FromGuest(m, On(a, n), size - n).0);
    }
  }

  lemma FirstBytes(m: Mem, a: u32, n: nat, rest: seq<byte>)
    requires InRange(m) && a % 4096 + n <= 4096 && forall i :: 0 <= i < |rest| ==> rest[i] == At(m, On(On(a, n), i))
    ensures var s := m.ram[PfnAt(m, a / 4096)][a % 4096..a % 4096 + n] + rest;
      forall i :: 0 <= i < |s| ==> s[i] == At(m, On(a, i))
  {
    var s := m.ram[PfnAt(m, a / 4096)][a % 4096..a % 4096 + n] + rest;
    forall i | 0 <= i < |s| ensures s[i] == At(m, On(a, i)) {
      if i < n {
        ChunkPage(a, n, i);
      } else {
        OnOn(a, n, i - n);
        assert s[i] == rest[i - n];
      }
    }
  }

  lemma ReadsAlike(m: Mem, a: u32, s: seq<byte>, t: seq<byte>)
    requires InRange(m) && |s| == |t|
    requires forall i :: 0 <= i < |s| ==> s[i] == At(m, On(a, i))
    requires forall i :: 0 <= i < |s| ==> t[i] == At(m, On(a, i))
    ensures s == t
  {
  }

  /** What the host reads is the guest's, whatever lies in host frame 0, if and only if all of the range has frames. */
  lemma FromGuestSafeIff(m: Mem, a: u32, n: nat)
    requires Sane(m)
    ensures FromGuest(m, a, n).1 && (forall z: Page :: FromGuest(Zeroed(m, z), a, n) == FromGuest(m, a, n)) <==>
      AllMapped(m, a, n)
  {
    if AllMapped(m, a, n) {
      MappedReach(m, a, n);
      FromGuestBytes(m, a, n);
      forall z: Page ensures FromGuest(Zeroed(m, z), a, n) == FromGuest(m, a, n) {
        ZeroUnseen(m, a, n, z);
      }
    } else if FromGuest(m, a, n).1 {
      var i: nat :| i < n && PfnAt(m, On(a, i) / 4096) == 0;
      ZeroSeen(m, a, n, i);
    }
  }

  lemma MappedAlike(m: Mem, a: u32, n: nat, z: Page)
    requires InRange(m) && AllMapped(m, a, n)
    ensures forall i :: 0 <= i < n ==> At(Zeroed(m, z), On(a, i)) == At(m, On(a, i))
  {
    forall i | 0 <= i < n ensures At(Zeroed(m, z), On(a, i)) == At(m, On(a, i)) {
      assert PfnAt(m, On(a, i) / 4096) != 0;
    }
  }

  lemma ZeroUnseen(m: Mem, a: u32, n: nat, z: Page)
    requires InRange(m) && AllMapped(m, a, n)
    ensures FromGuest(Zeroed(m, z), a, n) == FromGuest(m, a, n)
  {
    SameReach(m, Zeroed(m, z), a, n);
    MappedReach(m, a, n);
    FromGuestBytes(m, a, n);
    FromGuestBytes(Zeroed(m, z), a, n);
    MappedAlike(m, a, n, z);
    ReadsAlike(m, a, FromGuest(m, a, n).0, FromGuest(Zeroed(m, z), a, n).0);
  }

  /** The memory with other contents of host frame 0. */
  function Zeroed(m: Mem, z: Page): (r: Mem)
    requires InRange(m)
    ensures InRange(r) && forall w: Vpn :: PfnAt(r, w) == PfnAt(m, w)
  {
    var r := m.(ram := m.ram[0 := z]);
    assert forall w: Vpn :: PfnAt(r, w) == PfnAt(m, w);
    r
  }

  lemma ZeroSeen(m: Mem, a: u32, n: nat, i: nat)
    requires InRange(m) && FromGuest(m, a, n).1 && i < n && PfnAt(m, On(a, i) / 4096) == 0
    ensures exists z: Page :: FromGuest(Zeroed(m, z), a, n) != FromGuest(m, a, n)
  {
    var c: byte := if m.ram[0][On(a, i) % 4096] == 0 then 1 else 0;
    var z: Page := seq(4096, _ => c);
    FromGuestBytes(m, a, n);
    FromGuestBytes(Zeroed(m, z), a, n);
    SameReach(m, Zeroed(m, z), a, n);
    assert FromGuest(Zeroed(m, z), a, n).0[i] == c != FromGuest(m, a, n).0[i];
  }

  /** What the host wrote is what the host reads back. */
  lemma HostRoundTrip(m: Mem, a: u32, bs: seq<byte>)
    requires Sane(m) && |bs| <= SPACE && AllMapped(m, a, |bs|)
    ensures FromGuest(ToGuest(m, a, bs).0, a, |bs|) == (bs, true)
  {
    var r := ToGuest(m, a, bs).0;
    MappedReach(m, a, |bs|);
    SameReach(m, r, a, |bs|);
    FromGuestBytes(r, a, |bs|);
    WrittenBytes(m, a, bs);
    ReadsAlike(r, a, FromGuest(r, a, |bs|).0, bs);
  }

  lemma WrittenBytes(m: Mem, a: u32, bs: seq<byte>)
    requires Sane(m) && |bs| <= SPACE && AllMapped(m, a, |bs|) && Reach(m, a, |bs|) == |bs|
    ensures forall i :: 0 <= i < |bs| ==> bs[i] == At(ToGuest(m, a, bs).0, On(a, i))
  {
    forall i | 0 <= i < |bs| ensures bs[i] == At(ToGuest(m, a, bs).0, On(a, i)) {
      assert PfnAt(m, On(a, i) / 4096) != 0;
      WrittenByte(m, a, bs, i);
    }
  }

  lemma WrittenByte(m: Mem, a: u32, bs: seq<byte>, i: nat)
    requires Sane(m) && i < |bs| <= SPACE && Reach(m, a, |bs|) == |bs| && PfnAt(m, On(a, i) / 4096) != 0
    ensures At(ToGuest(m, a, bs).0, On(a, i)) == bs[i]
  {
    ToGuestBytes(m, a, bs, On(a, i));
    AheadOn(a, i);
  }

  // ---- the flat view

  predicate Within(m: Mem, x: nat, n: nat) { x + n <= 4096 * m.pages }

  /** The pseudo RAM as one string of bytes. */
  ghost function Flat(m: Mem): (s: seq<byte>)
    requires InRange(m)
    ensures |s| == 4096 * m.pages
  {
    seq(4096 * m.pages, y requires 0 <= y < 4096 * m.pages => RamByte(m, y))
  }

  /** Byte y of the pseudo RAM. */
  function RamByte(m: Mem, y: nat): (b: byte)
    requires InRange(m)
  {
    At(m, On(KERNEL_OFFSET, y))
  }

  /** Offset x of the pseudo RAM. */
  lemma RamAddress(m: Mem, x: nat, n: nat, i: nat)
    requires Shape(m) && Within(m, x, n) && i < n
    ensures var a := On(KERNEL_OFFSET, x);
      a == KERNEL_OFFSET + x && On(a, i) == On(KERNEL_OFFSET, x + i) == KERNEL_OFFSET + x + i
  {
  }

  lemma RamAhead(m: Mem, x: nat, n: nat, y: nat)
    requires Shape(m) && Within(m, x, n) && y < 4096 * m.pages && n > 0
    ensures Ahead(On(KERNEL_OFFSET, x), On(KERNEL_OFFSET, y), SPACE) < n <==> x <= y < x + n
    ensures x <= y < x + n ==> Ahead(On(KERNEL_OFFSET, x), On(KERNEL_OFFSET, y), SPACE) == y - x
  {
  }

  /** Inside the pseudo RAM, a copy from the host is one write to the flat memory, whatever frames back the pages. */
  lemma ToGuestIsFlat(m: Mem, x: nat, bs: seq<byte>)
    requires Sane(m) && Within(m, x, |bs|) && AllMapped(m, On(KERNEL_OFFSET, x), |bs|)
    ensures var (r, ok) := ToGuest(m, On(KERNEL_OFFSET, x), bs); ok && Sane(r) && Flat(r) == Blit(Flat(m), x, bs)
  {
    var a := On(KERNEL_OFFSET, x);
    RecordsAfter(m, a, bs);
    MappedReach(m, a, |bs|);
    Through(m, a, bs);
    if bs != [] {
      ZeroKept(m, a, bs);
      FlatBytes(m, x, bs, ToGuest(m, a, bs).0);
    }
  }

  lemma FlatBytes(m: Mem, x: nat, bs: seq<byte>, r: Mem)
    requires Sane(m) && Within(m, x, |bs|) && AllMapped(m, On(KERNEL_OFFSET, x), |bs|) && bs != []
    requires Reach(m, On(KERNEL_OFFSET, x), |bs|) == |bs| && r == ToGuest(m, On(KERNEL_OFFSET, x), bs).0
    requires r.ram[0] == m.ram[0] && Sane(r)
    ensures Flat(r) == Blit(Flat(m), x, bs)
  {
    var s, t := Flat(r), Blit(Flat(m), x, bs);
    forall y | 0 <= y < 4096 * m.pages ensures s[y] == t[y] {
      MappedOrOutside(m, x, |bs|, y);
      ByteOutside(m, On(KERNEL_OFFSET, x), bs, r, On(KERNEL_OFFSET, y));
      FlatByte(m, x, bs, r, y);
    }
  }

  lemma MappedOrOutside(m: Mem, x: nat, n: nat, y: nat)
    requires Shape(m) && Within(m, x, n) && AllMapped(m, On(KERNEL_OFFSET, x), n) && n > 0 && y < 4096 * m.pages
    ensures PfnAt(m, On(KERNEL_OFFSET, y) / 4096) == 0 ==> Ahead(On(KERNEL_OFFSET, x), On(KERNEL_OFFSET, y), SPACE) >= n
  {
    RamAhead(m, x, n, y);
    if x <= y < x + n {
      RamAddress(m, x, n, y - x);
      assert PfnAt(m, On(On(KERNEL_OFFSET, x), y - x) / 4096) != 0;
    }
  }

  lemma FlatByte(m: Mem, x: nat, bs: seq<byte>, r: Mem, y: nat)
    requires InRange(m) && InRange(r) && Within(m, x, |bs|) && bs != [] && y < 4096 * m.pages
    requires Stored(m, r, On(KERNEL_OFFSET, x), bs, |bs|, On(KERNEL_OFFSET, y))
    ensures RamByte(r, y) == if x <= y < x + |bs| then bs[y - x] else RamByte(m, y)
  {
    RamAhead(m, x, |bs|, y);
  }

  /** ... also of a page without a frame, when host frame 0 keeps its bytes. */
  lemma ByteOutside(m: Mem, a: u32, bs: seq<byte>, r: Mem, y: u32)
    requires Sane(m) && |bs| <= SPACE && Reach(m, a, |bs|) == |bs| && r == ToGuest(m, a, bs).0 && r.ram[0] == m.ram[0]
    requires PfnAt(m, y / 4096) == 0 ==> Ahead(a, y, SPACE) >= |bs|
    ensures Stored(m, r, a, bs, |bs|, y)
  {
    if PfnAt(m, y / 4096) != 0 {
      ToGuestBytes(m, a, bs, y);
    } else {
      assert PfnAt(r, y / 4096) == PfnAt(m, y / 4096);
    }
  }

  /** A copy to the host is a slice of the flat memory, if and only if the loop gets to all of it. */
  lemma FromGuestIsFlat(m: Mem, x: nat, n: nat)
    requires InRange(m) && Within(m, x, n)
    ensures FromGuest(m, On(KERNEL_OFFSET, x), n) == (Flat(m)[x..x + n], true) <==>
      Reach(m, On(KERNEL_OFFSET, x), n) == n
  {
    var a := On(KERNEL_OFFSET, x);
    FromGuestBytes(m, a, n);
    if Reach(m, a, n) == n {
      SliceBytes(m, x, n, FromGuest(m, a, n).0);
    }
  }

  lemma SliceBytes(m: Mem, x: nat, n: nat, s: seq<byte>)
    requires InRange(m) && Within(m, x, n) && |s| == n
    requires forall i :: 0 <= i < n ==> s[i] == At(m, On(On(KERNEL_OFFSET, x), i))
    ensures s == Flat(m)[x..x + n]
  {
    var t := Flat(m)[x..x + n];
    forall i | 0 <= i < n ensures s[i] == t[i] {
      RamAddress(m, x, n, i);
      assert t[i] == RamByte(m, x + i);
    }
  }
}
