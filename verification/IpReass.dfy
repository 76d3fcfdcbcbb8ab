/** slirp/ip_input.c, reassembly of one datagram: the sorted, overlap-trimmed fragment chain
    of ip_reass, against the reading of section 3.2 of RFC 791 that a datagram is the union of
    the byte ranges its fragments carry. */
module IpReass {
  import opened Bytes
  import opened Mbufs

  /** struct ipasfrag and its mbuf: ip_off and ip_len are 16-bit fields. `hdr` is where the IP header starts in the
      block, `hl` its length; the window of m holds the payload. */
  datatype Frag = Frag(hdr: nat, hl: nat, off: u16, len: u16, mff: bool, m: Mbuf) {
    function End(): nat { off + len }
  }

  /** What ip_reass hands up: the rebuilt mbuf with its header visible again, and ip_len in 16 bits. */
  datatype Datagram = Datagram(hdr: nat, hl: nat, len: u16, m: Mbuf) {
    /** The window starts at the header and `len` payload bytes follow it. */
    predicate Valid() { |m.head| == hdr && |m.bytes| == hl + len }

    function Payload(): seq<byte>
      requires Valid()
    {
      m.bytes[hl..]
    }
  }

  // ----- ip_reass as functions on the chain -----

  /** Window of a fragment is consistent with its header fields. */
  predicate WellFormed(f: Frag) {
    |f.m.bytes| == f.len && f.hdr + f.hl <= |f.m.head|
  }

  predicate AllWellFormed(q: seq<Frag>) { forall f <- q :: WellFormed(f) }

  /** No byte of the fragment lies past the 16-bit offsets. */
  predicate NoWrap(f: Frag) { f.End() <= 0x1_0000 }

  predicate NoneWrap(q: seq<Frag>) { forall f <- q :: NoWrap(f) }

  /** m_adj(i) together with off += i, len -= i; the offset wraps at 16 bits. */
  function Advance(f: Frag, i: nat): (r: Frag)
    requires WellFormed(f) && i <= f.len
    ensures WellFormed(r) && r.m.bytes == f.m.bytes[i..] && r.mff == f.mff
    ensures r.off == f.off + i && r.End() == f.End() <==> f.off + i <= 0xFFFF
  {
    f.(off := (f.off + i) % 0x1_0000, len := f.len - i, m := Adj(f.m, i))
  }

  /** Index of the first fragment that begins after `off`. */
  function Find(q: seq<Frag>, off: nat): (k: nat)
    ensures k <= |q| && (k < |q| ==> q[k].off > off)
    ensures forall i :: 0 <= i < k ==> q[i].off <= off
  {
    if |q| == 0 || q[0].off > off then 0 else 1 + Find(q[1..], off)
  }

  /** Succeeding fragments overlapped by data up to `end`: covered ones go, the first other one is trimmed. */
  function TrimTail(q: seq<Frag>, end: nat): seq<Frag>
    requires AllWellFormed(q)
  {
    if |q| == 0 || end <= q[0].off then q
    else if end - q[0].off < q[0].len then [Advance(q[0], end - q[0].off)] + q[1..]
    else TrimTail(q[1..], end)
  }

  /** How many leading bytes of a fragment at `off` the preceding fragment already provides. */
  function Overlap(q: seq<Frag>, k: nat, off: nat): int
    requires k <= |q|
  {
    if k == 0 then 0 else q[k - 1].End() - off
  }

  /** dropfrag: the preceding fragment provides all of the new data. */
  predicate Drops(q: seq<Frag>, f: Frag) {
    var i := Overlap(q, Find(q, f.off), f.off);
    i > 0 && i >= f.len
  }

  /** The new fragment without the data that the preceding one provides. */
  function Placed(q: seq<Frag>, f: Frag): (g: Frag)
    requires WellFormed(f) && !Drops(q, f)
    ensures WellFormed(g) && (NoWrap(f) ==> f.off <= g.off && g.End() == f.End())
  {
    var i := Overlap(q, Find(q, f.off), f.off);
    if i > 0 then Advance(f, i) else f
  }

  /** The chain after a fragment that is not dropped has been linked in. */
  function Insert(q: seq<Frag>, f: Frag): seq<Frag>
    requires WellFormed(f) && AllWellFormed(q) && !Drops(q, f)
  {
    var k := Find(q, f.off);
    q[..k] + [Placed(q, f)] + TrimTail(q[k..], Placed(q, f).End())
  }

  /** Where a gap-free prefix starting at `next` ends, if the whole chain is gap-free. */
  function Contiguous(q: seq<Frag>, next: nat): Option<nat> {
    if |q| == 0 then Some(next)
    else if q[0].off != next then None
    else Contiguous(q[1..], next + q[0].len)
  }

  predicate Complete(q: seq<Frag>) {
    |q| > 0 && Contiguous(q, 0).Some? && !q[|q| - 1].mff
  }

  /** m_cat of every fragment of q onto m, in order. */
  function CatAll(m: Mbuf, q: seq<Frag>): (r: Option<Mbuf>)
    ensures r.Some? ==> r.value.head == m.head
    decreases |q|
  {
    if |q| == 0 then Some(m)
    else
      match Cat(m, q[0].m)
      case None => None
      case Some(m') => CatAll(m', q[1..])
  }

  /** m_data -= n, m_len += n. */
  function Unhide(m: Mbuf, n: nat): Mbuf
    requires n <= |m.head|
  {
    m.(head := m.head[..|m.head| - n], bytes := m.head[|m.head| - n..] + m.bytes)
  }

  /** Concatenate a gap-free chain and make the first header visible again. */
  function Join(q: seq<Frag>): Option<Datagram>
    requires |q| > 0 && AllWellFormed(q) && Contiguous(q, 0).Some?
  {
    assert WellFormed(q[0]);
    match CatAll(q[0].m, q[1..])
    case None => None
    case Some(m) =>
      Some(Datagram(q[0].hdr, q[0].hl, Contiguous(q, 0).value % 0x1_0000, Unhide(m, q[0].hl)))
  }

  /** One call of ip_reass on the chain of a datagram: the chain left behind ([] when the queue is gone)
      and what is returned. */
  function Step(q: seq<Frag>, f: Frag): (r: (seq<Frag>, Option<Datagram>))
    requires WellFormed(f) && AllWellFormed(q)
    ensures AllWellFormed(r.0)
  {
    if Drops(q, f) then (q, None)
    else
      InsertWellFormed(q, f);
      var q' := Insert(q, f);
      if Complete(q') then ([], Join(q')) else (q', None)
  }

  lemma {:induction false} TrimTailWellFormed(q: seq<Frag>, end: nat)
    requires AllWellFormed(q)
    ensures AllWellFormed(TrimTail(q, end))
  {
    if |q| > 0 { TrimTailWellFormed(q[1..], end); }
  }

  lemma InsertWellFormed(q: seq<Frag>, f: Frag)
    requires WellFormed(f) && AllWellFormed(q) && !Drops(q, f)
    ensures AllWellFormed(Insert(q, f))
  {
    TrimTailWellFormed(q[Find(q, f.off)..], Placed(q, f).End());
  }

  // ----- Fragments of one datagram -----

  /** f is a non-empty piece of a datagram of n bytes, with MF clear exactly when it reaches the end. */
  predicate Fits(f: Frag, n: nat) {
    WellFormed(f) && 0 < f.len && f.End() <= n && (f.mff <==> f.End() < n)
  }

  /** f carries the bytes of d at its offset and, when it carries the first byte, its header is still
      next to its data. */
  ghost predicate Cut(f: Frag, d: seq<byte>) {
    Fits(f, |d|) && f.m.bytes == d[f.off..f.End()] && (f.off == 0 ==> |f.m.head| == f.hdr + f.hl)
  }

  predicate Sorted(q: seq<Frag>) { forall i, j :: 0 <= i < j < |q| ==> q[i].End() <= q[j].off }

  /** Pieces of a datagram of n bytes, in order and without overlap. */
  predicate Laid(q: seq<Frag>, n: nat) { (forall f <- q :: Fits(f, n)) && Sorted(q) }

  /** The stored chain: pieces of d, in order and without overlap. */
  ghost predicate Chain(q: seq<Frag>, d: seq<byte>) { (forall f <- q :: Cut(f, d)) && Sorted(q) }

  predicate InRange(f: Frag, x: int) { f.off <= x < f.End() }

  /** Some fragment of q carries byte x of the datagram. */
  predicate Covers(q: seq<Frag>, x: int) { exists f <- q :: InRange(f, x) }

  predicate CoversAll(q: seq<Frag>, n: nat) { forall x :: 0 <= x < n ==> Covers(q, x) }

  lemma ChainLaid(q: seq<Frag>, d: seq<byte>)
    requires Chain(q, d)
    ensures Laid(q, |d|) && AllWellFormed(q) && (|d| <= 0x1_0000 ==> NoneWrap(q))
  {
  }

  lemma CoversSplit(a: seq<Frag>, b: seq<Frag>, x: int)
    ensures Covers(a + b, x) <==> Covers(a, x) || Covers(b, x)
  {
    if Covers(a, x) { var f :| f in a && InRange(f, x); assert f in a + b; }
    if Covers(b, x) { var f :| f in b && InRange(f, x); assert f in a + b; }
  }

  lemma CoversOne(f: Frag, x: int)
    ensures Covers([f], x) <==> InRange(f, x)
  {
    assert f in [f];
  }

  lemma CoversCons(f: Frag, q: seq<Frag>, x: int)
    ensures Covers([f] + q, x) <==> InRange(f, x) || Covers(q, x)
  {
    CoversSplit([f], q, x);
    CoversOne(f, x);
  }

  // ----- Trimming -----

  lemma AdvanceCut(f: Frag, i: nat, d: seq<byte>)
    requires Cut(f, d) && 0 < i < f.len && |d| <= 0x1_0000
    ensures Cut(Advance(f, i), d)
  {
    assert d[f.off..f.End()][i..] == d[f.off + i..f.End()];
  }

  lemma {:induction false} TrimTailCut(q: seq<Frag>, end: nat, d: seq<byte>)
    requires AllWellFormed(q) && |d| <= 0x1_0000 && forall f <- q :: Cut(f, d)
    ensures forall f <- TrimTail(q, end) :: Cut(f, d)
    decreases |q|
  {
    if |q| == 0 || end <= q[0].off {
    } else if end - q[0].off < q[0].len {
      AdvanceCut(q[0], end - q[0].off, d);
    } else {
      TrimTailCut(q[1..], end, d);
    }
  }

  lemma FirstIsLowest(q: seq<Frag>, f: Frag)
    requires Sorted(q) && f in q
    ensures f == q[0] || q[0].End() <= f.off
  {
    var j :| 0 <= j < |q| && q[j] == f;
  }

  lemma SortedCons(g: Frag, q: seq<Frag>)
    requires Sorted(q) && forall f <- q :: g.End() <= f.off
    ensures Sorted([g] + q)
  {
    forall j | 0 <= j < |q| ensures g.End() <= q[j].off { assert q[j] in q; }
  }

  /** Trimming leaves a sorted chain of which nothing starts below `end`. */
  lemma {:induction false} TrimTailSorted(q: seq<Frag>, end: nat)
    requires AllWellFormed(q) && NoneWrap(q) && Sorted(q)
    ensures Sorted(TrimTail(q, end)) && forall f <- TrimTail(q, end) :: end <= f.off
    decreases |q|
  {
    forall f | f in q ensures f == q[0] || q[0].End() <= f.off { FirstIsLowest(q, f); }
    if |q| == 0 || end <= q[0].off {
    } else if end - q[0].off < q[0].len {
      assert NoWrap(q[0]);
      var g := Advance(q[0], end - q[0].off);
      forall f | f in q[1..] ensures g.End() <= f.off {
        var j :| 0 < j < |q| && q[j] == f;
        assert q[0].End() <= q[j].off;
      }
      SortedCons(g, q[1..]);
    } else {
      TrimTailSorted(q[1..], end);
    }
  }

  /** Trimming removes exactly the bytes below `end`. */
  lemma {:induction false} TrimTailCovers(q: seq<Frag>, end: nat, x: int)
    requires AllWellFormed(q) && NoneWrap(q) && Sorted(q) && end <= x
    ensures Covers(q, x) <==> Covers(TrimTail(q, end), x)
    decreases |q|
  {
    if |q| == 0 || end <= q[0].off {
    } else {
      assert q == [q[0]] + q[1..];
      CoversCons(q[0], q[1..], x);
      if end - q[0].off < q[0].len {
        CoversCons(Advance(q[0], end - q[0].off), q[1..], x);
      } else {
        TrimTailCovers(q[1..], end, x);
      }
    }
  }

  // ----- Insertion -----

  /** A dropped fragment brings nothing new. */
  lemma DropAddsNothing(q: seq<Frag>, f: Frag, x: int)
    requires Drops(q, f) && InRange(f, x)
    ensures Covers(q, x)
  {
    var k := Find(q, f.off);
    assert q[k - 1] in q;
  }

  lemma PlacedCut(q: seq<Frag>, f: Frag, d: seq<byte>)
    requires Cut(f, d) && !Drops(q, f) && |d| <= 0x1_0000
    ensures Cut(Placed(q, f), d)
  {
    var i := Overlap(q, Find(q, f.off), f.off);
    if i > 0 { AdvanceCut(f, i, d); }
  }

  /** Fragments before the insertion point end before the placed one starts. */
  lemma PrefixEndsBefore(q: seq<Frag>, f: Frag)
    requires WellFormed(f) && NoWrap(f) && !Drops(q, f) && Sorted(q)
    ensures forall i :: 0 <= i < Find(q, f.off) ==> q[i].End() <= Placed(q, f).off
  {
    var k := Find(q, f.off);
    forall i | 0 <= i < k ensures q[i].End() <= Placed(q, f).off {
      if i < k - 1 { assert q[i].End() <= q[k - 1].off; }
    }
  }

  lemma SortedGlue(a: seq<Frag>, g: Frag, t: seq<Frag>)
    requires Sorted(a) && Sorted(t)
    requires forall i :: 0 <= i < |a| ==> a[i].End() <= g.off
    requires forall f <- t :: g.End() <= f.off
    ensures Sorted(a + [g] + t)
  {
    var r := a + [g] + t;
    forall i, j | 0 <= i < j < |r| ensures r[i].End() <= r[j].off {
      if j > |a| { assert r[j] == t[j - |a| - 1]; assert t[j - |a| - 1] in t; }
    }
  }

  /** Linking a fragment in keeps the chain sorted, disjoint and true to the datagram. */
  lemma InsertChain(q: seq<Frag>, f: Frag, d: seq<byte>)
    requires AllWellFormed(q) && Chain(q, d) && Cut(f, d) && !Drops(q, f) && |d| <= 0x1_0000
    ensures Chain(Insert(q, f), d)
  {
    var k := Find(q, f.off);
    ChainLaid(q, d);
    PlacedCut(q, f, d);
    PrefixEndsBefore(q, f);
    TrimTailSorted(q[k..], f.End());
    TrimTailCut(q[k..], f.End(), d);
    SortedGlue(q[..k], Placed(q, f), TrimTail(q[k..], f.End()));
  }

  lemma SuffixFloor(q: seq<Frag>, k: nat, x: int)
    requires Sorted(q) && k <= |q| && Covers(q[k..], x)
    ensures k < |q| && q[k].off <= x
  {
    var h :| h in q[k..] && InRange(h, x);
    var j :| 0 <= j < |q[k..]| && q[k..][j] == h;
    if j > 0 { assert q[k].End() <= q[k + j].off; }
  }

  /** Of the fragments behind the insertion point, what survives is what lies beyond the new one;
      what does not survive lies within it. */
  lemma TailCovers(q: seq<Frag>, f: Frag, x: int)
    requires AllWellFormed(q) && NoneWrap(q) && Sorted(q)
    ensures var s := q[Find(q, f.off)..]; Covers(TrimTail(s, f.End()), x) <==> Covers(s, x) && f.End() <= x
    ensures var s := q[Find(q, f.off)..]; Covers(s, x) && x < f.End() ==> InRange(f, x)
  {
    var k := Find(q, f.off);
    var s := q[k..];
    TrimTailSorted(s, f.End());
    if x < f.End() {
      if Covers(s, x) { SuffixFloor(q, k, x); }
    } else {
      TrimTailCovers(s, f.End(), x);
    }
  }

  /** What placing cuts off the new fragment, its predecessor provides. */
  lemma PlacedCovers(q: seq<Frag>, f: Frag, x: int)
    requires WellFormed(f) && NoWrap(f) && !Drops(q, f)
    ensures var p := q[..Find(q, f.off)];
      Covers(p, x) || InRange(Placed(q, f), x) <==> Covers(p, x) || InRange(f, x)
  {
    var k := Find(q, f.off);
    if f.off <= x < Placed(q, f).off {
      assert q[k - 1] in q[..k] && InRange(q[k - 1], x);
    }
  }

  /** ... and the chain then covers exactly what it covered plus the range of the fragment. */
  lemma InsertCovers(q: seq<Frag>, f: Frag, x: int)
    requires AllWellFormed(q) && NoneWrap(q) && Sorted(q) && WellFormed(f) && NoWrap(f) && !Drops(q, f)
    ensures Covers(Insert(q, f), x) <==> Covers(q, x) || InRange(f, x)
  {
    var k, g := Find(q, f.off), Placed(q, f);
    var p, s := q[..k], q[k..];
    TailCovers(q, f, x);
    PlacedCovers(q, f, x);
    CoversSplit(p + [g], TrimTail(s, f.End()), x);
    CoversSplit(p, [g], x);
    CoversOne(g, x);
    assert q == p + s;
    CoversSplit(p, s, x);
  }

  // ----- Completeness -----

  /** A gap-free chain covers up to its end; a chain with a gap misses a byte. */
  lemma {:induction false} ContiguousCovers(q: seq<Frag>, next: nat, n: nat)
    requires Laid(q, n) && next <= n && (|q| > 0 ==> next <= q[0].off)
    ensures match Contiguous(q, next)
      case Some(e) => e <= n && (forall x :: next <= x < e ==> Covers(q, x)) && (|q| > 0 ==> e == q[|q| - 1].End())
      case None => exists x :: next <= x < n && !Covers(q, x)
    decreases |q|
  {
    if |q| > 0 {
      assert Fits(q[0], n);
      if q[0].off != next {
        GapUncovered(q, next);
      } else {
        var next', rest := next + q[0].len, q[1..];
        assert |rest| > 0 ==> q[0].End() <= q[1].off;
        ContiguousCovers(rest, next', n);
        assert q == [q[0]] + rest;
        forall x ensures Covers(q, x) <==> InRange(q[0], x) || Covers(rest, x) { CoversCons(q[0], rest, x); }
      }
    }
  }

  lemma GapUncovered(q: seq<Frag>, x: nat)
    requires Sorted(q) && |q| > 0 && x < q[0].off
    ensures !Covers(q, x)
  {
    forall f | f in q ensures x < f.off {
      var j :| 0 <= j < |q| && q[j] == f;
      assert j > 0 ==> q[0].End() <= q[j].off;
    }
  }

  lemma EndUncovered(q: seq<Frag>)
    requires Sorted(q) && |q| > 0
    ensures !Covers(q, q[|q| - 1].End())
  {
    var last := q[|q| - 1];
    forall f | f in q ensures f.End() <= last.End() {
      var j :| 0 <= j < |q| && q[j] == f;
      assert j < |q| - 1 ==> q[j].End() <= last.off;
    }
  }

  /** The scan of ip_reass decides exactly whether every byte has arrived. */
  lemma CompleteIffCovered(q: seq<Frag>, n: nat)
    requires Laid(q, n) && |q| > 0
    ensures Complete(q) <==> CoversAll(q, n)
  {
    ContiguousCovers(q, 0, n);
    assert Fits(q[|q| - 1], n);
    EndUncovered(q);
  }

  // ----- Concatenation -----

  /** m_cat takes the payloads of q one after another into a block with `room` bytes left: none is longer than the
      room at its turn and one growth. */
  predicate Takes(room: nat, q: seq<Frag>)
    decreases |q|
  {
    |q| > 0 ==>
      var n := |q[0].m.bytes|;
      n <= room + MINCSIZE && Takes(if n <= room then room - n else room + MINCSIZE - n, q[1..])
  }

  /** The payloads of the chain fit behind its first one. */
  predicate Joins(q: seq<Frag>) { |q| > 0 && Takes(q[0].m.room, q[1..]) }

  lemma {:induction false} CatAllIff(m: Mbuf, q: seq<Frag>)
    ensures CatAll(m, q).Some? <==> Takes(m.room, q)
    decreases |q|
  {
    if |q| > 0 && |q[0].m.bytes| <= m.room + MINCSIZE { CatAllIff(Cat(m, q[0].m).value, q[1..]); }
  }

  predicate NoLonger(q: seq<Frag>, l: nat) { forall f <- q :: |f.m.bytes| <= l }

  lemma {:induction false} ShortTaken(room: nat, q: seq<Frag>)
    requires NoLonger(q, MINCSIZE)
    ensures Takes(room, q)
    decreases |q|
  {
    if |q| > 0 {
      var n := |q[0].m.bytes|;
      assert q[0] in q;
      ShortTaken(if n <= room then room - n else room + MINCSIZE - n, q[1..]);
    }
  }

  /** Fragments of at most l bytes join whatever the room, if and only if l is at most MINCSIZE: a block without room
      and one fragment of MINCSIZE + 1 bytes is past the growth of m_cat. */
  lemma JoinIff(l: nat)
    ensures (forall m, q :: NoLonger(q, l) ==> CatAll(m, q).Some?) <==> l <= MINCSIZE
  {
    if l <= MINCSIZE {
      forall m, q | NoLonger(q, l) ensures CatAll(m, q).Some? {
        ShortTaken(m.room, q);
        CatAllIff(m, q);
      }
    } else {
      var m, f := Mbuf([], [], 0), Frag(0, 0, 0, MINCSIZE + 1, false, Mbuf([], seq(MINCSIZE + 1, _ => 0), 0));
      CatAllIff(m, [f]);
      assert NoLonger([f], l) && CatAll(m, [f]).None?;
    }
  }

  lemma {:induction false} CatAllJoins(m: Mbuf, q: seq<Frag>, next: nat, d: seq<byte>)
    requires (forall f <- q :: Cut(f, d)) && CatAll(m, q).Some? && Contiguous(q, next).Some?
    requires next <= |d| && m.bytes == d[..next]
    ensures Contiguous(q, next).value <= |d| && CatAll(m, q).value.bytes == d[..Contiguous(q, next).value]
    decreases |q|
  {
    if |q| > 0 {
      var f := q[0];
      assert Cut(f, d);
      assert d[..next] + d[f.off..f.End()] == d[..f.End()];
      CatAllJoins(Cat(m, f.m).value, q[1..], next + f.len, d);
    }
  }

  /** g is d as ip_input and the protocols read it: ip_len and the window agree and hold d. */
  ghost predicate Rebuilt(g: Datagram, d: seq<byte>) { g.Valid() && g.Payload() == d && g.len == |d| }

  /** A complete chain that fits joins into the datagram, behind the header of the fragment that carried byte 0. Its
      length field is right if and only if 16 bits hold it. */
  lemma JoinIsDatagram(q: seq<Frag>, d: seq<byte>)
    requires |q| > 0 && AllWellFormed(q) && Chain(q, d) && Complete(q)
    ensures Join(q).Some? <==> Joins(q)
    ensures Joins(q) ==> var g, f := Join(q).value, q[0];
      && (Rebuilt(g, d) <==> |d| <= 0xFFFF) && g.len == |d| % 0x1_0000 && |g.m.bytes| == g.hl + |d| &&
        g.m.bytes[g.hl..] == d
      && WellFormed(f) && g.m.bytes[..g.hl] == f.m.head[f.hdr..f.hdr + f.hl] && g.m.head == f.m.head[..f.hdr]
  {
    var f := q[0];
    assert Cut(f, d) && WellFormed(f);
    ChainLaid(q, d);
    ContiguousCovers(q, 0, |d|);
    assert Cut(q[|q| - 1], d);
    CatAllIff(f.m, q[1..]);
    if Joins(q) {
      assert d[0..f.len] == d[..f.len] && d[..|d|] == d;
      CatAllJoins(f.m, q[1..], f.len, d);
    }
  }

  // ----- Where 16 bits end -----

  /** f is linked into q as it should be: order is kept and every byte of f is added. */
  ghost predicate LinkedRight(q: seq<Frag>, f: Frag)
    requires WellFormed(f) && AllWellFormed(q)
  {
    !Drops(q, f) ==> Sorted(Insert(q, f)) && forall x :: Covers(Insert(q, f), x) <==> Covers(q, x) || InRange(f, x)
  }

  lemma LinkedWhenNarrow(q: seq<Frag>, f: Frag)
    requires AllWellFormed(q) && NoneWrap(q) && Sorted(q) && WellFormed(f) && NoWrap(f)
    ensures LinkedRight(q, f)
  {
    if !Drops(q, f) {
      forall x ensures Covers(Insert(q, f), x) <==> Covers(q, x) || InRange(f, x) { InsertCovers(q, f, x); }
      var k := Find(q, f.off);
      PrefixEndsBefore(q, f);
      TrimTailSorted(q[k..], f.End());
      SortedGlue(q[..k], Placed(q, f), TrimTail(q[k..], f.End()));
    }
  }

  /** A fragment is linked right into every chain if and only if it ends within the 16-bit offsets. */
  lemma LinkedRightIff(f: Frag)
    requires WellFormed(f)
    ensures (forall q :: AllWellFormed(q) && NoneWrap(q) && Sorted(q) ==> LinkedRight(q, f)) <==> NoWrap(f)
  {
    if NoWrap(f) {
      forall q | AllWellFormed(q) && NoneWrap(q) && Sorted(q) ensures LinkedRight(q, f) { LinkedWhenNarrow(q, f); }
    } else {
      var n := 0x1_0000 - f.off;
      var g := Frag(0, 0, f.off, n, true, Mbuf([], seq(n, _ => 0), 0));
      OffsetWraps(g, f);
      assert AllWellFormed([g]) && NoneWrap([g]) && Sorted([g]);
      assert !LinkedRight([g], f);
    }
  }

  /** What the new fragment adds beyond the 16-bit offsets comes to lie at the start of the datagram. */
  lemma OffsetWraps(g: Frag, f: Frag)
    requires WellFormed(f) && WellFormed(g) && g.off == f.off && g.End() == 0x1_0000 < f.End()
    ensures !Drops([g], f) && Insert([g], f) == [g, Placed([g], f)] && Placed([g], f).off == 0
    ensures InRange(f, 0x1_0000) && !Covers(Insert([g], f), 0x1_0000)
  {
    assert [g][1..] == [];
    assert Find([g], f.off) == 1;
  }

  /** The trimmed fragment of the datagram that ends at byte 65628 gets offset 4. */
  lemma TrimmedToFour(g: Frag, f: Frag)
    requires WellFormed(f) && WellFormed(g) && g.off == 65512 && g.End() == 65540 && f.off == 65528 && f.len == 100
    ensures !Drops([g], f) && Placed([g], f).off == 4 && Placed([g], f).len == 88
  {
    assert [g][1..] == [];
    assert Find([g], f.off) == 1;
  }

  /** Three fragments of 65504, 24 and 100 bytes, none longer than a packet can carry: joined without overlap their
      65628 bytes are handed up with a length of 92. */
  lemma LengthCut(g: Frag, h: Frag, f: Frag)
    requires AllWellFormed([g, h, f]) && g.mff && h.mff && !f.mff
    requires g.off == 0 && g.len == 65504 && h.off == 65504 && h.len == 24 && f.off == 65528 && f.len == 100
    ensures Feed([g, h, f]).0 == [] && |Feed([g, h, f]).1| == 1
    ensures var r := Feed([g, h, f]).1[0]; r.len == 92 && |r.m.bytes| == r.hl + 65628
  {
    TwoPending(g, h);
    assert f in [g, h, f] && [g, h] + [f] == [g, h, f];
    ThirdCloses(g, h, f);
    FeedAppend([g, h], f);
    assert [] + [Step([g, h], f).1.value] == [Step([g, h], f).1.value];
  }

  lemma TwoPending(g: Frag, h: Frag)
    requires WellFormed(g) && WellFormed(h) && g.mff && h.mff
    requires g.off == 0 && g.len == 65504 && h.off == 65504 && h.len == 24
    ensures AllWellFormed([g, h]) && Feed([g, h]) == ([g, h], [])
  {
    assert [g][1..] == [] && [g, h][1..] == [h] && [] + [g] == [g] && [g] + [h] == [g, h];
    assert Insert([], g) == [g];
    assert Find([g], h.off) == 1 && Insert([g], h) == [g, h];
    assert Step([], g) == ([g], None);
    assert Step([g], h) == ([g, h], None);
    OneFed(g);
    FeedAppend([g], h);
  }

  lemma OneFed(g: Frag)
    requires WellFormed(g) && Step([], g) == ([g], None)
    ensures Feed([g]) == ([g], [])
  {
    assert [g][..|[g]| - 1] == [] && [g][|[g]| - 1] == g;
    var r := Feed([]);
    assert r == ([], []) && r.1 + ToSeq(None) == [];
  }

  lemma ThirdCloses(g: Frag, h: Frag, f: Frag)
    requires WellFormed(g) && WellFormed(h) && WellFormed(f) && g.mff && h.mff && !f.mff
    requires g.off == 0 && g.len == 65504 && h.off == 65504 && h.len == 24 && f.off == 65528 && f.len == 100
    ensures AllWellFormed([g, h]) && Step([g, h], f).0 == [] && Step([g, h], f).1.Some?
    ensures var r := Step([g, h], f).1.value; r.len == 92 && |r.m.bytes| == r.hl + 65628
  {
    ThirdInserted(g, h, f);
    ThreeJoin(g, h, f);
  }

  lemma ThirdInserted(g: Frag, h: Frag, f: Frag)
    requires WellFormed(g) && WellFormed(h) && WellFormed(f)
    requires g.off == 0 && g.len == 65504 && h.off == 65504 && h.len == 24 && f.off == 65528 && f.len == 100
    ensures AllWellFormed([g, h]) && !Drops([g, h], f) && Insert([g, h], f) == [g, h, f]
  {
    assert [g, h][1..] == [h] && [h][1..] == [] && [g, h] + [f] == [g, h, f];
    assert Find([h], f.off) == 1 && Find([g, h], f.off) == 2;
  }

  lemma ThreeJoin(g: Frag, h: Frag, f: Frag)
    requires WellFormed(g) && WellFormed(h) && WellFormed(f) && !f.mff
    requires g.off == 0 && g.len == 65504 && h.off == 65504 && h.len == 24 && f.off == 65528 && f.len == 100
    ensures AllWellFormed([g, h, f]) && Complete([g, h, f]) && Joins([g, h, f]) && Join([g, h, f]).Some?
    ensures var r := Join([g, h, f]).value; r.len == 92 && |r.m.bytes| == r.hl + 65628
  {
    assert [g, h, f][1..] == [h, f] && [h, f][1..] == [f] && [f][1..] == [];
    assert Contiguous([f][1..], 65628) == Some(65628);
    assert Contiguous([f], 65528) == Some(65628);
    assert Contiguous([h, f], 65504) == Some(65628);
    assert Contiguous([g, h, f], 0) == Some(65628);
    var m1 := Cat(g.m, h.m).value;
    var m2 := Cat(m1, f.m).value;
    assert CatAll(m2, [f][1..]) == Some(m2);
    assert CatAll(m1, [f]) == Some(m2);
    assert CatAll(g.m, [h, f]) == Some(m2);
    CatAllIff(g.m, [h, f]);
  }

  // ----- Whose bytes win -----

  function ByteOf(f: Frag, x: int): (b: byte)
    requires WellFormed(f) && InRange(f, x)
  {
    f.m.bytes[x - f.off]
  }

  /** A stored fragment that begins no later than f has byte x. */
  predicate Earlier(q: seq<Frag>, f: Frag, x: int) { exists h <- q :: h.off <= f.off && InRange(h, x) }

  /** What is left of the following fragments are bytes of theirs, behind the new one. */
  lemma {:induction false} TrimOrigin(q: seq<Frag>, end: nat, g: Frag, x: int)
    requires AllWellFormed(q) && NoneWrap(q) && g in TrimTail(q, end) && InRange(g, x) && end <= 0x1_0000
    ensures WellFormed(g) && exists h <- q :: InRange(h, x) && ByteOf(h, x) == ByteOf(g, x)
  {
    if |q| > 0 && end > q[0].off {
      assert q[0] in q;
      if end - q[0].off < q[0].len {
        if g !in q[1..] { assert InRange(q[0], x) && ByteOf(q[0], x) == ByteOf(g, x); }
      } else {
        TrimOrigin(q[1..], end, g, x);
        var h :| h in q[1..] && InRange(h, x) && ByteOf(h, x) == ByteOf(g, x);
        assert h in q;
      }
    } else {
      assert g in q;
    }
  }

  lemma {:induction false} TrimBehind(q: seq<Frag>, end: nat, g: Frag)
    requires AllWellFormed(q) && NoneWrap(q) && Sorted(q) && g in TrimTail(q, end) && end <= 0x1_0000
    ensures g.off >= end
  {
    if |q| > 0 && end > q[0].off {
      assert q[0] in q;
      if end - q[0].off < q[0].len {
        if g in q[1..] { var j :| 1 <= j < |q| && q[j] == g; }
      } else {
        TrimBehind(q[1..], end, g);
      }
    } else {
      var j :| 0 <= j < |q| && q[j] == g;
    }
  }

  /** In a sorted chain, what begins no later than f stands before the place of f, and ends before the rest begins. */
  lemma EarlierPlace(q: seq<Frag>, f: Frag, j: nat)
    requires Sorted(q) && j < |q|
    ensures q[j].off <= f.off <==> j < Find(q, f.off)
    ensures Find(q, f.off) > 0 && j < Find(q, f.off) ==> q[j].End() <= q[Find(q, f.off) - 1].End()
  {
  }

  lemma NotEarlier(q: seq<Frag>, f: Frag, x: int)
    requires Sorted(q) && (Find(q, f.off) > 0 ==> x >= q[Find(q, f.off) - 1].End())
    ensures !Earlier(q, f, x)
  {
    forall h | h in q && h.off <= f.off ensures !InRange(h, x) {
      var j :| 0 <= j < |q| && q[j] == h;
      EarlierPlace(q, f, j);
    }
  }

  /** Where fragments overlap, in a sorted chain within the offsets: a stored one that begins no later than the new one
      keeps its bytes; all other bytes that the new one brings take the place of those stored; the rest stays. So it is
      for any contents, of one datagram or not. */
  lemma OverlapWins(q: seq<Frag>, f: Frag, g: Frag, x: int)
    requires AllWellFormed(q) && Sorted(q) && NoneWrap(q) && WellFormed(f) && NoWrap(f) && !Drops(q, f)
    requires g in Insert(q, f) && InRange(g, x)
    ensures WellFormed(g)
    ensures Earlier(q, f, x) ==> exists h <- q :: h.off <= f.off && InRange(h, x) && ByteOf(g, x) == ByteOf(h, x)
    ensures !Earlier(q, f, x) && InRange(f, x) ==> ByteOf(g, x) == ByteOf(f, x)
    ensures !Earlier(q, f, x) && !InRange(f, x) ==> exists h <- q :: InRange(h, x) && ByteOf(g, x) == ByteOf(h, x)
  {
    var k, p := Find(q, f.off), Placed(q, f);
    if g in q[..k] {
      var j :| 0 <= j < k && q[j] == g;
      assert g in q;
    } else if g == p {
      NotEarlier(q, f, x);
    } else {
      BehindWins(q, f, g, x);
    }
  }

  lemma BehindWins(q: seq<Frag>, f: Frag, g: Frag, x: int)
    requires AllWellFormed(q) && Sorted(q) && NoneWrap(q) && WellFormed(f) && NoWrap(f) && !Drops(q, f)
    requires g in TrimTail(q[Find(q, f.off)..], Placed(q, f).End()) && InRange(g, x)
    ensures WellFormed(g) && !Earlier(q, f, x) && !InRange(f, x)
    ensures exists h <- q :: InRange(h, x) && ByteOf(g, x) == ByteOf(h, x)
  {
    var k := Find(q, f.off);
    TrimOrigin(q[k..], Placed(q, f).End(), g, x);
    TrimBehind(q[k..], Placed(q, f).End(), g);
    var h :| h in q[k..] && InRange(h, x) && ByteOf(g, x) == ByteOf(h, x);
    var j :| k <= j < |q| && q[j] == h;
    assert h in q;
    NotEarlier(q, f, x);
  }

  // ----- One step, and whole runs -----

  /** A chain that is true to d and still short of it. */
  ghost predicate Pending(q: seq<Frag>, d: seq<byte>) { AllWellFormed(q) && Chain(q, d) && !CoversAll(q, |d|) }

  /** f closes the last gap. */
  ghost predicate Closes(q: seq<Frag>, f: Frag, d: seq<byte>) {
    forall x :: 0 <= x < |d| ==> Covers(q, x) || InRange(f, x)
  }

  /** The chain that f completes fits one block. */
  predicate Lands(q: seq<Frag>, f: Frag)
    requires WellFormed(f) && AllWellFormed(q)
  {
    !Drops(q, f) && Joins(Insert(q, f))
  }

  /** One call of ip_reass: the datagram comes back exactly when the new fragment closes the last gap and what it
      closes fits. */
  lemma StepCorrect(q: seq<Frag>, f: Frag, d: seq<byte>)
    requires Pending(q, d) && Cut(f, d) && |d| <= 0x1_0000
    ensures var (q', r) := Step(q, f);
      && (r.Some? <==> Closes(q, f, d) && Lands(q, f))
      && (r.Some? ==> (Rebuilt(r.value, d) <==> |d| <= 0xFFFF))
      && (Closes(q, f, d) ==> q' == [])
      && (!Closes(q, f, d) ==> Pending(q', d) && forall x :: Covers(q', x) <==> Covers(q, x) || InRange(f, x))
  {
    if Drops(q, f) {
      forall x | InRange(f, x) ensures Covers(q, x) { DropAddsNothing(q, f, x); }
    } else {
      var q' := Insert(q, f);
      InsertWellFormed(q, f);
      InsertChain(q, f, d);
      ChainLaid(q, d);
      forall x ensures Covers(q', x) <==> Covers(q, x) || InRange(f, x) { InsertCovers(q, f, x); }
      ChainLaid(q', d);
      CompleteIffCovered(q', |d|);
      if Complete(q') { JoinIsDatagram(q', d); }
    }
  }

  /** Feed fragments one after another, starting without a queue: the final chain and all datagrams returned. */
  function Feed(fs: seq<Frag>): (r: (seq<Frag>, seq<Datagram>))
    requires AllWellFormed(fs)
    ensures AllWellFormed(r.0)
  {
    if |fs| == 0 then ([], [])
    else
      var (q, outs) := Feed(fs[..|fs| - 1]);
      assert WellFormed(fs[|fs| - 1]);
      var (q', out) := Step(q, fs[|fs| - 1]);
      (q', outs + ToSeq(out))
  }

  lemma FeedAppend(fs: seq<Frag>, f: Frag)
    requires AllWellFormed(fs) && WellFormed(f)
    ensures AllWellFormed(fs + [f])
    ensures var s := Step(Feed(fs).0, f);
      Feed(fs + [f]) == (s.0, Feed(fs).1 + ToSeq(s.1))
  {
    assert (fs + [f])[..|fs|] == fs;
  }

  lemma CoversInit(fs: seq<Frag>, x: int)
    requires |fs| > 0
    ensures Covers(fs, x) <==> Covers(fs[..|fs| - 1], x) || InRange(fs[|fs| - 1], x)
  {
    var n := |fs| - 1;
    assert fs == fs[..n] + [fs[n]];
    CoversSplit(fs[..n], [fs[n]], x);
    CoversOne(fs[n], x);
  }

  /** Any fragments of d in any order, with duplicates and overlaps: until together they cover d nothing
      is returned, and the chain holds, sorted and disjoint, exactly the bytes seen. */
  lemma {:induction false} PendingUntilCovered(fs: seq<Frag>, d: seq<byte>)
    requires AllWellFormed(fs) && (forall f <- fs :: Cut(f, d)) && !CoversAll(fs, |d|) && |d| <= 0x1_0000
    ensures Feed(fs).1 == [] && Pending(Feed(fs).0, d)
    ensures forall x :: Covers(Feed(fs).0, x) <==> Covers(fs, x)
  {
    if |fs| > 0 {
      var init, f := fs[..|fs| - 1], fs[|fs| - 1];
      forall x ensures Covers(fs, x) <==> Covers(init, x) || InRange(f, x) { CoversInit(fs, x); }
      PendingUntilCovered(init, d);
      assert Cut(f, d);
      StepCorrect(Feed(init).0, f, d);
    }
  }

  /** The last fragment of fs completes the cover of n bytes. */
  predicate Completes(fs: seq<Frag>, n: nat) {
    |fs| > 0 && !CoversAll(fs[..|fs| - 1], n) && CoversAll(fs, n)
  }

  /** The run returned d, once, and kept nothing. */
  ghost predicate Delivered(fs: seq<Frag>, d: seq<byte>)
    requires AllWellFormed(fs)
  {
    Feed(fs).0 == [] && |Feed(fs).1| == 1 && Rebuilt(Feed(fs).1[0], d)
  }

  /** The chain as the last fragment finds it. */
  function Before(fs: seq<Frag>): (q: seq<Frag>)
    requires AllWellFormed(fs) && |fs| > 0
    ensures AllWellFormed(q) && WellFormed(fs[|fs| - 1])
  {
    assert fs[|fs| - 1] in fs;
    Feed(fs[..|fs| - 1]).0
  }

  /** ... and the fragment that completes the cover returns d if and only if 16 bits hold its length and the chain
      fits one block. */
  lemma DeliveredIff(fs: seq<Frag>, d: seq<byte>)
    requires AllWellFormed(fs) && (forall f <- fs :: Cut(f, d)) && Completes(fs, |d|)
    ensures Delivered(fs, d) <==> |d| <= 0xFFFF && Lands(Before(fs), fs[|fs| - 1])
  {
    var init, f := fs[..|fs| - 1], fs[|fs| - 1];
    if |d| <= 0xFFFF {
      forall x ensures Covers(fs, x) <==> Covers(init, x) || InRange(f, x) { CoversInit(fs, x); }
      PendingUntilCovered(init, d);
      assert Cut(f, d);
      StepCorrect(Feed(init).0, f, d);
    }
  }

  lemma {:induction false} TrimTailNoLonger(q: seq<Frag>, end: nat, l: nat)
    requires AllWellFormed(q) && NoLonger(q, l)
    ensures NoLonger(TrimTail(q, end), l)
    decreases |q|
  {
    if |q| > 0 { TrimTailNoLonger(q[1..], end, l); }
  }

  lemma {:induction false} FeedNoLonger(fs: seq<Frag>, l: nat)
    requires AllWellFormed(fs) && NoLonger(fs, l)
    ensures NoLonger(Feed(fs).0, l)
  {
    if |fs| > 0 {
      var q, f := Before(fs), fs[|fs| - 1];
      FeedNoLonger(fs[..|fs| - 1], l);
      assert f in fs;
      if !Drops(q, f) { InsertNoLonger(q, f, l); }
    }
  }

  lemma InsertNoLonger(q: seq<Frag>, f: Frag, l: nat)
    requires AllWellFormed(q) && WellFormed(f) && !Drops(q, f) && NoLonger(q, l) && |f.m.bytes| <= l
    ensures NoLonger(Insert(q, f), l)
  {
    TrimTailNoLonger(q[Find(q, f.off)..], Placed(q, f).End(), l);
  }

  /** Fragments of at most MINCSIZE bytes of a datagram of at most 65535 bytes always deliver it. */
  lemma DeliveredWhenShort(fs: seq<Frag>, d: seq<byte>)
    requires AllWellFormed(fs) && (forall f <- fs :: Cut(f, d)) && Completes(fs, |d|)
    requires |d| <= 0xFFFF && NoLonger(fs, MINCSIZE)
    ensures Delivered(fs, d)
  {
    var init, f := fs[..|fs| - 1], fs[|fs| - 1];
    DeliveredIff(fs, d);
    PendingUntilCovered(init, d);
    FeedNoLonger(init, MINCSIZE);
    var q := Before(fs);
    assert f in fs && Cut(f, d);
    forall x ensures Covers(fs, x) <==> Covers(init, x) || InRange(f, x) { CoversInit(fs, x); }
    if Drops(q, f) {
      forall x | InRange(f, x) ensures Covers(q, x) { DropAddsNothing(q, f, x); }
    }
    InsertNoLonger(q, f, MINCSIZE);
    ShortTaken(Insert(q, f)[0].m.room, Insert(q, f)[1..]);
  }

  /** However long the run, only d is ever returned. */
  lemma {:induction false} EveryDeliveryGenuine(fs: seq<Frag>, d: seq<byte>)
    requires AllWellFormed(fs) && (forall f <- fs :: Cut(f, d)) && 0 < |d| <= 0xFFFF
    ensures Pending(Feed(fs).0, d)
    ensures forall g <- Feed(fs).1 :: Rebuilt(g, d)
  {
    assert !Covers([], 0);
    if |fs| > 0 {
      var init, f := fs[..|fs| - 1], fs[|fs| - 1];
      EveryDeliveryGenuine(init, d);
      assert Cut(f, d);
      StepCorrect(Feed(init).0, f, d);
    }
  }

  // ----- ip_reass as loops over the chain -----

  /** The search for the first fragment that begins after `off`. */
  method SearchAfter(q: seq<Frag>, off: nat) returns (k: nat)
    ensures k == Find(q, off)
  {
    k := 0;
    while k < |q| && q[k].off <= off
      invariant k <= |q| && Find(q, off) == k + Find(q[k..], off)
    {
      k := k + 1;
    }
  }

  /** The loop that trims or dequeues the fragments overlapped by data up to `end`. */
  method TrimFollowing(q: seq<Frag>, end: nat) returns (r: seq<Frag>)
    requires AllWellFormed(q)
    ensures r == TrimTail(q, end)
  {
    r := q;
    while |r| > 0 && end > r[0].off
      invariant AllWellFormed(r) && TrimTail(r, end) == TrimTail(q, end)
      decreases |r|
    {
      var i := end - r[0].off;
      assert WellFormed(r[0]);
      if i < r[0].len {
        return [Advance(r[0], i)] + r[1..];
      }
      r := r[1..];   // m_freem, ip_deq
    }
  }

  /** The scan for a gap. */
  method ScanComplete(q: seq<Frag>) returns (next: nat, done: bool)
    requires |q| > 0
    ensures done == Complete(q) && (done ==> Contiguous(q, 0) == Some(next))
  {
    next := 0;
    var k := 0;
    while k < |q|
      invariant k <= |q| && Contiguous(q, 0) == Contiguous(q[k..], next)
    {
      if q[k].off != next {
        return next, false;
      }
      next, k := next + q[k].len, k + 1;
    }
    done := !q[|q| - 1].mff;
  }

  /** The concatenation loop. */
  method Concatenate(q: seq<Frag>) returns (r: Option<Mbuf>)
    requires |q| > 0
    ensures r == CatAll(q[0].m, q[1..])
  {
    var m, k := q[0].m, 1;
    while k < |q|
      invariant 1 <= k <= |q| && CatAll(q[0].m, q[1..]) == CatAll(m, q[k..])
    {
      match Cat(m, q[k].m)
      case None => return None;
      case Some(m') => m, k := m', k + 1;
    }
    r := Some(m);
  }

  /** ip_reass on the chain of an existing or new queue. */
  method Reass(q: seq<Frag>, f: Frag) returns (q': seq<Frag>, r: Option<Datagram>)
    requires WellFormed(f) && AllWellFormed(q)
    ensures (q', r) == Step(q, f)
  {
    var k := SearchAfter(q, f.off);
    var g := f;
    if k > 0 {
      var i := q[k - 1].off + q[k - 1].len - f.off;
      if i > 0 {
        if i >= f.len {
          return q, None;
        }
        g := Advance(f, i);
      }
    }
    var rest := TrimFollowing(q[k..], g.off + g.len);
    q' := q[..k] + [g] + rest;   // ip_enq
    InsertWellFormed(q, f);
    assert q' == Insert(q, f);
    q', r := Finish(q');
  }

  /** From the scan for completeness on. */
  method Finish(q: seq<Frag>) returns (q': seq<Frag>, r: Option<Datagram>)
    requires AllWellFormed(q) && |q| > 0
    ensures (q', r) == if Complete(q) then ([], Join(q)) else (q, None)
  {
    q' := q;
    var next, done := ScanComplete(q');
    if !done {
      return q', None;
    }
    assert WellFormed(q'[0]);
    var whole := Concatenate(q');
    match whole
    case None => return [], None;
    case Some(m) => r := Some(Datagram(q'[0].hdr, q'[0].hl, next % 0x1_0000, Unhide(m, q'[0].hl)));
    q' := [];
  }
}
