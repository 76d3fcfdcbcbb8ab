/** The round trip of a datagram: ip_output, the bytes on the wire, ip_input and ip_reass. */
module IpRoundTrip {
  import opened Bytes
  import opened Mbufs
  import opened IpReass
  import opened IpInput
  import opened IpOutput

  predicate AllGood(cs: seq<Cutting>, n: nat, l: nat) { forall i :: 0 <= i < |cs| ==> GoodCut(cs[i], n, l) }

  /** What ip_input makes of the packets. */
  function Frags(h: Header, d: seq<byte>, cs: seq<Cutting>, l: nat, size: nat): seq<Frag>
    requires h.Valid() && |d| + HLEN <= 0xFFFF && AllGood(cs, |d|, l) && 16 + HLEN + l <= size
  {
    seq(|cs|, i requires 0 <= i < |cs| => FragOf(PacketOf(h, d, cs[i]), size))
  }

  lemma FragOfOffered(h: Header, d: seq<byte>, c: Cutting, l: nat, size: nat)
    requires h.Valid() && |d| + HLEN <= 0xFFFF && GoodCut(c, |d|, l) && 16 + HLEN + l <= size
    ensures var f := FragOf(PacketOf(h, d, c), size); Cut(f, d) && f.off == c.o && f.len == c.l && f.End() == c.o + c.l
  {
    assert c.o / 8 * 8 == c.o;
  }

  /** Every fragment that ip_output sends is taken by ip_input as a piece of its datagram. */
  lemma FragmentAccepted(h: Header, d: seq<byte>, c: Cutting, l: nat, size: nat)
    requires h.Valid() && !h.df && h.ttl > 1 && l < |d| <= 0xFFFF - HLEN && GoodCut(c, |d|, l) && 16 + HLEN + l <= size
    ensures var p := PacketOf(h, d, c); Classify(Recv(Encode(p), size)) == Piece(KeyOf(h), FragOf(p, size))
  {
    PacketAccepted(PacketOf(h, d, c), size);
  }

  /** A permutation of disjoint, covering fragments covers with its last element and not before. */
  lemma PermutationCovers(fs: seq<Frag>, q: seq<Frag>, n: nat)
    requires multiset(fs) == multiset(q) && Laid(q, n) && CoversAll(q, n) && |q| > 0
    ensures |fs| > 0 && CoversAll(fs, n) && !CoversAll(fs[..|fs| - 1], n)
  {
    assert |fs| == |multiset(fs)| == |multiset(q)| == |q|;
    forall f ensures f in fs <==> f in q { assert f in multiset(fs) <==> f in multiset(q); }
    forall x | 0 <= x < n ensures Covers(fs, x) {
      assert Covers(q, x);
      var f :| f in q && InRange(f, x);
      assert f in fs;
    }
    LaidNoDup(q, n);
    NoDupCount(q);
    forall x | x in fs ensures multiset(fs)[x] == 1 { assert x in q; }
    NoDupCount(fs);
    var last := fs[|fs| - 1];
    assert last in fs && Fits(last, n);
    forall g | g in fs[..|fs| - 1] ensures !InRange(g, last.off) {
      var i :| 0 <= i < |fs| - 1 && fs[i] == g;
      assert g != last && g in q && last in q;
      LaidDisjoint(q, n, g, last);
    }
    assert !Covers(fs[..|fs| - 1], last.off);
  }

  lemma LaidNoDup(q: seq<Frag>, n: nat)
    requires Laid(q, n)
    ensures NoDup(q)
  {
    forall i, j | 0 <= i < j < |q| ensures q[i] != q[j] {
      assert q[i] in q && q[i].End() <= q[j].off;
    }
  }

  lemma LaidDisjoint(q: seq<Frag>, n: nat, f: Frag, g: Frag)
    requires Laid(q, n) && f in q && g in q && f != g
    ensures !InRange(f, g.off)
  {
    var i :| 0 <= i < |q| && q[i] == f;
    var j :| 0 <= j < |q| && q[j] == g;
  }

  lemma CutsAllGood(n: nat, l: nat)
    requires l > 0 && l % 8 == 0 && 0 < n
    ensures |Cuts(n, l, 0)| > 0 && AllGood(Cuts(n, l, 0), n, l)
  {
    var cs := Cuts(n, l, 0);
    CutsGood(n, l, 0);
    forall i | 0 <= i < |cs| ensures GoodCut(cs[i], n, l) { assert cs[i] in cs; }
  }

  lemma FragsFacts(h: Header, d: seq<byte>, cs: seq<Cutting>, l: nat, size: nat)
    requires h.Valid() && |d| + HLEN <= 0xFFFF && AllGood(cs, |d|, l) && 16 + HLEN + l <= size
    ensures var q := Frags(h, d, cs, l, size);
      forall i :: 0 <= i < |cs| ==> Cut(q[i], d) && q[i].off == cs[i].o && q[i].End() == cs[i].o + cs[i].l
  {
    forall i | 0 <= i < |cs| { FragOfOffered(h, d, cs[i], l, size); }
  }

  lemma MirrorCovers(q: seq<Frag>, cs: seq<Cutting>, x: int)
    requires |q| == |cs| && forall i :: 0 <= i < |cs| ==> q[i].off == cs[i].o && q[i].End() == cs[i].o + cs[i].l
    requires exists c <- cs :: c.o <= x < c.o + c.l
    ensures Covers(q, x)
  {
    var c :| c in cs && c.o <= x < c.o + c.l;
    var i :| 0 <= i < |cs| && cs[i] == c;
    assert q[i] in q && InRange(q[i], x);
  }

  /** The fragments of one datagram are disjoint, in order, true to it and cover it. */
  lemma FragsLaid(h: Header, d: seq<byte>, l: nat, size: nat)
    requires h.Valid() && 0 < |d| <= 0xFFFF - HLEN && 8 <= l && l % 8 == 0 && 16 + HLEN + l <= size
    ensures AllGood(Cuts(|d|, l, 0), |d|, l)
    ensures var q := Frags(h, d, Cuts(|d|, l, 0), l, size);
      |q| > 0 && (forall f <- q :: Cut(f, d)) && Laid(q, |d|) && CoversAll(q, |d|)
  {
    var cs := Cuts(|d|, l, 0);
    CutsAllGood(|d|, l);
    CutsApart(|d|, l, 0);
    var q := Frags(h, d, cs, l, size);
    FragsFacts(h, d, cs, l, size);
    forall x | 0 <= x < |d| ensures Covers(q, x) {
      CutsCover(|d|, l, 0, x);
      MirrorCovers(q, cs, x);
    }
  }

  // ----- Any order of arrival leads to the same chain -----

  predicate Clear(q: seq<Frag>, f: Frag) {
    f.len > 0 && forall g <- q :: g.len > 0 && (g.End() <= f.off || f.End() <= g.off)
  }

  lemma Gap(q: seq<Frag>, f: Frag)
    requires Sorted(q) && Clear(q, f)
    ensures var k := Find(q, f.off);
      && (k > 0 ==> q[k - 1].End() <= f.off) && (k < |q| ==> f.End() <= q[k].off)
      && (forall i :: 0 <= i < k ==> q[i].End() <= f.off)
  {
    forall i | 0 <= i < |q| ensures q[i].len > 0 && (q[i].End() <= f.off || f.End() <= q[i].off) { assert q[i] in q; }
  }

  lemma GapAfter(q: seq<Frag>, f: Frag, k: nat)
    requires Sorted(q) && k <= |q| && (k < |q| ==> f.End() <= q[k].off)
    ensures forall g <- q[k..] :: f.End() <= g.off
  {
    forall g | g in q[k..] ensures f.End() <= g.off { FirstIsLowest(q[k..], g); }
  }

  /** A fragment that overlaps nothing is linked in as it is. */
  lemma {:induction false} InsertClear(q: seq<Frag>, f: Frag)
    requires AllWellFormed(q) && WellFormed(f) && Sorted(q) && Clear(q, f)
    ensures !Drops(q, f) && Insert(q, f) == q[..Find(q, f.off)] + [f] + q[Find(q, f.off)..]
  {
    Gap(q, f);
  }

  lemma SortedCut(q: seq<Frag>, k: nat)
    requires Sorted(q) && k <= |q|
    ensures Sorted(q[..k]) && Sorted(q[k..]) && q == q[..k] + q[k..]
  {
  }

  lemma InsertClearSorted(q: seq<Frag>, f: Frag)
    requires AllWellFormed(q) && WellFormed(f) && Sorted(q) && Clear(q, f)
    ensures !Drops(q, f) && Sorted(Insert(q, f)) && multiset(Insert(q, f)) == multiset(q) + multiset{f}
  {
    var k := Find(q, f.off);
    InsertClear(q, f);
    assert Sorted(q[..k] + [f] + q[k..]) by {
      Gap(q, f);
      SortedCut(q, k);
      GapAfter(q, f, k);
      SortedGlue(q[..k], f, q[k..]);
    }
    MultisetGlue(q[..k], f, q[k..]);
    SortedCut(q, k);
  }

  lemma SameHead(p: seq<Frag>, q: seq<Frag>)
    requires Sorted(p) && Sorted(q) && |p| > 0 && |q| > 0 && p[0] in q && q[0] in p && q[0].len > 0
    ensures p[0] == q[0]
  {
    FirstIsLowest(p, q[0]);
    FirstIsLowest(q, p[0]);
  }

  lemma RestMultiset<T>(p: seq<T>, q: seq<T>)
    requires |p| > 0 && |q| > 0 && p[0] == q[0] && multiset(p) == multiset(q)
    ensures multiset(p[1..]) == multiset(q[1..])
  {
    assert p == [p[0]] + p[1..] && q == [q[0]] + q[1..];
    assert multiset(p[1..]) == multiset(p) - multiset{p[0]} && multiset(q[1..]) == multiset(q) - multiset{q[0]};
  }

  /** Sorted chains with the same fragments are the same. */
  lemma {:induction false} SortedUnique(p: seq<Frag>, q: seq<Frag>)
    requires Sorted(p) && Sorted(q) && multiset(p) == multiset(q) && forall f <- q :: f.len > 0
    ensures p == q
    decreases |q|
  {
    assert |p| == |multiset(p)| && |q| == |multiset(q)|;
    if |q| > 0 {
      assert p[0] in multiset(q) && q[0] in multiset(p);
      SameHead(p, q);
      RestMultiset(p, q);
      SortedRest(p);
      SortedRest(q);
      SortedUnique(p[1..], q[1..]);
    }
  }

  lemma SortedRest(q: seq<Frag>)
    requires Sorted(q) && |q| > 0
    ensures Sorted(q[1..])
  {
  }

  /** Until the last one is there, the chain holds the fragments that have arrived. */
  lemma {:induction false} ChainHolds(fs: seq<Frag>, q: seq<Frag>, n: nat)
    requires AllWellFormed(fs) && Laid(q, n) && NoDup(fs) && (forall f <- fs :: f in q) && !CoversAll(fs, n)
    ensures Sorted(Feed(fs).0) && multiset(Feed(fs).0) == multiset(fs)
  {
    if |fs| > 0 {
      var init, f := fs[..|fs| - 1], fs[|fs| - 1];
      assert fs == init + [f];
      forall x ensures Covers(fs, x) <==> Covers(init, x) || InRange(f, x) { CoversInit(fs, x); }
      ChainHolds(init, q, n);
      ArrivalClear(fs, q, n);
      var c := Feed(init).0;
      InsertClearSorted(c, f);
      InsertWellFormed(c, f);
      SameCover(Insert(c, f), fs, q, n);
    }
  }

  /** Chains of the same pieces cover the same bytes, and so are complete together. */
  lemma SameCover(c: seq<Frag>, fs: seq<Frag>, q: seq<Frag>, n: nat)
    requires Sorted(c) && multiset(c) == multiset(fs) && Laid(q, n) && (forall f <- fs :: f in q) && |c| > 0
    ensures Complete(c) <==> CoversAll(fs, n)
  {
    forall f ensures f in c <==> f in fs { assert f in multiset(c) <==> f in multiset(fs); }
    forall x ensures Covers(c, x) <==> Covers(fs, x) {
      if Covers(c, x) { var f :| f in c && InRange(f, x); assert f in fs; }
      if Covers(fs, x) { var f :| f in fs && InRange(f, x); assert f in c; }
    }
    CompleteIffCovered(c, n);
  }

  lemma ArrivalClear(fs: seq<Frag>, q: seq<Frag>, n: nat)
    requires |fs| > 0 && AllWellFormed(fs) && Laid(q, n) && NoDup(fs) && (forall f <- fs :: f in q)
    requires multiset(Feed(fs[..|fs| - 1]).0) == multiset(fs[..|fs| - 1])
    ensures Clear(Feed(fs[..|fs| - 1]).0, fs[|fs| - 1])
  {
    var init, f := fs[..|fs| - 1], fs[|fs| - 1];
    assert f in fs;
    forall g | g in Feed(init).0 ensures g.len > 0 && (g.End() <= f.off || f.End() <= g.off) {
      assert g in multiset(init);
      var i :| 0 <= i < |init| && init[i] == g;
      assert fs[i] != f && g in fs;
      LaidApart(q, n, f, g);
    }
  }

  lemma LaidApart(q: seq<Frag>, n: nat, f: Frag, g: Frag)
    requires Laid(q, n) && f in q && g in q && f != g
    ensures f.len > 0 && g.len > 0 && (f.End() <= g.off || g.End() <= f.off)
  {
    var i :| 0 <= i < |q| && q[i] == f;
    var j :| 0 <= j < |q| && q[j] == g;
  }

  /** Whatever the order, the last fragment completes the chain of all of them in the order of the datagram. */
  lemma LastCompletes(fs: seq<Frag>, q: seq<Frag>, n: nat)
    requires AllWellFormed(fs) && multiset(fs) == multiset(q) && Laid(q, n) && CoversAll(q, n) && |q| > 0
    ensures Completes(fs, n) && !Drops(Before(fs), fs[|fs| - 1]) && Insert(Before(fs), fs[|fs| - 1]) == q
  {
    PermutationCovers(fs, q, n);
    PermutationNoDup(fs, q, n);
    var init, f := fs[..|fs| - 1], fs[|fs| - 1];
    assert fs == init + [f];
    ChainHolds(init, q, n);
    ArrivalClear(fs, q, n);
    InsertClearSorted(Feed(init).0, f);
    SortedUnique(Insert(Feed(init).0, f), q);
  }

  lemma PermutationNoDup(fs: seq<Frag>, q: seq<Frag>, n: nat)
    requires multiset(fs) == multiset(q) && Laid(q, n)
    ensures NoDup(fs) && forall f <- fs :: f in q
  {
    LaidNoDup(q, n);
    NoDupCount(q);
    forall x | x in fs ensures x in q && multiset(fs)[x] == 1 { assert x in multiset(fs); }
    NoDupCount(fs);
  }

  // ----- From the bytes -----

  /** No packet is larger than the mtu, and its header is right. */
  predicate Fine(ps: seq<Packet>, mtu: nat) {
    forall p <- ps :: p.h.Valid() && p.h.len == HLEN + |p.data| && (HLEN + |p.data| <= mtu)
  }

  /** The packets as they arrive in mbufs of `size` bytes. */
  function Wire(ps: seq<Packet>, mtu: nat, size: nat): (ms: seq<Mbuf>)
    requires Fine(ps, mtu) && 16 + mtu <= size
    ensures |ms| == |ps| && forall i :: 0 <= i < |ps| ==> ms[i] == Recv(Encode(ps[i]), size)
  {
    seq(|ps|, i requires 0 <= i < |ps| => Recv(Encode(ps[i]), size))
  }

  /** The fragments they turn into. */
  function Parts(ps: seq<Packet>, mtu: nat, size: nat): (fs: seq<Frag>)
    requires Fine(ps, mtu) && 16 + mtu <= size
    ensures |fs| == |ps| && forall i :: 0 <= i < |ps| ==> fs[i] == FragOf(ps[i], size)
  {
    seq(|ps|, i requires 0 <= i < |ps| => FragOf(ps[i], size))
  }

  lemma SentFine(h: Header, d: seq<byte>, mtu: nat, pool: nat)
    requires h.Valid() && h.len == HLEN + |d| && Sending(h, d, mtu, pool).Some?
    ensures Fine(Sending(h, d, mtu, pool).value, mtu)
  {
    var ps, l := Sending(h, d, mtu, pool).value, DataPerPacket(mtu);
    if h.len > mtu {
      CutsWithin(|d|, l, 0);
      CutsAllGood(|d|, l);
      PacketsAt(h, d, Cuts(|d|, l, 0));
      forall p | p in ps ensures p.h.Valid() && p.h.len == HLEN + |p.data| && HLEN + |p.data| <= mtu {
        var i :| 0 <= i < |ps| && ps[i] == p;
        assert GoodCut(Cuts(|d|, l, 0)[i], |d|, l);
      }
    }
  }

  predicate Under(key: Key, v: Verdict) { !v.Bad? && v.key == key }

  /** The packets that arrive for a datagram, whatever ip_input makes of them. */
  function PacketsFor(evs: seq<Event>, key: Key): seq<Mbuf> { Collect(Taken(key), evs) }

  function Taken(key: Key): Event -> seq<Mbuf> {
    (e: Event) => if e.Arrival? && Under(key, Classify(e.m)) then [e.m] else []
  }

  function Piecing(key: Key): Mbuf -> seq<Frag> { (m: Mbuf) => PieceOf(key, Classify(m)) }

  /** The fragments of a datagram are the fragments among its packets. */
  lemma FragsArePieces(evs: seq<Event>, key: Key)
    ensures FragsFor(evs, key) == Collect(Piecing(key), PacketsFor(evs, key))
  {
    forall e ensures FragOfEvent(key)(e) == Collect(Piecing(key), Taken(key)(e)) { OnePiece(e, key); }
    CollectTwice(Taken(key), Piecing(key), FragOfEvent(key), evs);
  }

  lemma OnePiece(e: Event, key: Key)
    ensures FragOfEvent(key)(e) == Collect(Piecing(key), Taken(key)(e))
  {
    if e.Arrival? && Under(key, Classify(e.m)) {
      CollectAppend(Piecing(key), [], e.m);
      assert [] + [e.m] == [e.m];
    }
  }

  /** Exactly these packets arrive for the datagram, in any order and among any others, fewer than IPFRAGTTL ticks
      after the first of them, and m_get has an mbuf for its queue. */
  predicate Arrives(evs: seq<Event>, key: Key, ms: seq<Mbuf>) {
    && multiset(PacketsFor(evs, key)) == multiset(ms) && TicksSince(evs, key) < IPFRAGTTL
    && forall e <- evs :: e.Arrival? && Under(key, Classify(e.m)) ==> e.gotMbuf
  }

  lemma OnlyPieces(evs: seq<Event>, key: Key, ms: seq<Mbuf>)
    requires Arrives(evs, key, ms) && forall m <- ms :: Classify(m).Piece?
    ensures AllPlain(key, evs)
  {
    forall e | e in evs && e.Arrival? && Under(key, Classify(e.m)) ensures Classify(e.m).Piece? {
      CollectHas(Taken(key), evs, e, e.m);
      assert e.m in multiset(ms);
    }
  }

  lemma SoloSkip(evs: seq<Event>, e: Event, key: Key)
    requires Taken(key)(e) == [] && Solo(evs, key).0.None?
    ensures Solo(evs + [e], key) == Solo(evs, key)
  {
    SoloAppend(evs, e, key);
    assert Solo(evs, key).1 + [] == Solo(evs, key).1;
  }

  lemma AloneTakes(key: Key, v: Verdict, gotMbuf: bool)
    requires v.Whole? && v.key == key
    ensures Alone(None, key, v, gotMbuf) == (None, Some(v.g))
  {
  }

  lemma TakenOne(key: Key, e: Event, m: Mbuf)
    requires m in Taken(key)(e)
    ensures e.Arrival? && e.m == m && Under(key, Classify(m)) && Taken(key)(e) == [m]
  {
  }

  lemma SoloTakes(evs: seq<Event>, e: Event, key: Key, m: Mbuf)
    requires m in Taken(key)(e) && Classify(m).Whole? && Solo(evs, key) == (None, [])
    ensures Solo(evs + [e], key) == (None, [Classify(m).g])
  {
    TakenOne(key, e, m);
    SoloAppend(evs, e, key);
    AloneTakes(key, Classify(m), e.gotMbuf);
    assert [] + [Classify(m).g] == [Classify(m).g];
  }

  lemma {:induction false} SoloNothing(evs: seq<Event>, key: Key)
    requires PacketsFor(evs, key) == []
    ensures Solo(evs, key) == (None, [])
  {
    if |evs| > 0 {
      var init, e := evs[..|evs| - 1], evs[|evs| - 1];
      assert evs == init + [e];
      CollectAppend(Taken(key), init, e);
      SoloNothing(init, key);
      SoloSkip(init, e, key);
    }
  }

  lemma OneMore<T>(a: seq<T>, t: seq<T>, x: T)
    requires a + t == [x]
    ensures (t == [] && a == [x]) || (t == [x] && a == [])
  {
    assert |a + t| == 1 && (a + t)[0] == x;
    if t == [] { assert a + t == a; }
  }

  predicate GoesUp(evs: seq<Event>, key: Key, m: Mbuf) {
    Classify(m).Whole? && Solo(evs, key) == (None, [Classify(m).g])
  }

  /** What one collected value brings about, event by event. */
  lemma {:induction false} OneCollected<E, T>(p: seq<E> -> bool, g: E -> seq<T>, es: seq<E>, x: T)
    requires Collect(g, es) == [x]
    requires forall a, e :: Collect(g, a) + g(e) == [x] && (Collect(g, a) == [x] ==> p(a)) ==> p(a + [e])
    ensures p(es)
  {
    if |es| > 0 {
      var init, e := es[..|es| - 1], es[|es| - 1];
      assert es == init + [e];
      if Collect(g, init) == [x] { OneCollected(p, g, init, x); }
    }
  }

  /** Only a whole packet arrives, and goes up as it is. */
  lemma SoloWhole(evs: seq<Event>, key: Key, m: Mbuf)
    requires PacketsFor(evs, key) == [m] && Classify(m).Whole?
    ensures GoesUp(evs, key, m)
  {
    var p := (a: seq<Event>) => GoesUp(a, key, m);
    forall a, e | Collect(Taken(key), a) + Taken(key)(e) == [m] && (Collect(Taken(key), a) == [m] ==> p(a))
      ensures p(a + [e])
    {
      SoloWholeOne(a, e, key, m);
    }
    OneCollected(p, Taken(key), evs, m);
  }

  lemma SoloWholeOne(evs: seq<Event>, e: Event, key: Key, m: Mbuf)
    requires PacketsFor(evs, key) + Taken(key)(e) == [m] && Classify(m).Whole?
    requires PacketsFor(evs, key) == [m] ==> GoesUp(evs, key, m)
    ensures GoesUp(evs + [e], key, m)
  {
    OneMore(PacketsFor(evs, key), Taken(key)(e), m);
    if Taken(key)(e) == [] {
      SoloSkip(evs, e, key);
    } else {
      SoloNothing(evs, key);
      SoloTakes(evs, e, key, m);
    }
  }

  // ----- The round trip -----

  /** What is sent, as it arrives in mbufs of `size` bytes. */
  function Sent(h: Header, d: seq<byte>, mtu: nat, pool: nat, size: nat): seq<Mbuf>
    requires h.Valid() && h.len == HLEN + |d| && Sending(h, d, mtu, pool).Some? && 16 + mtu <= size
  {
    SentFine(h, d, mtu, pool);
    Wire(Sending(h, d, mtu, pool).value, mtu, size)
  }

  /** The pieces of the datagram in their order fit the block of the first one after at most one growth for each. */
  predicate Fit(h: Header, d: seq<byte>, mtu: nat, pool: nat, size: nat)
    requires h.Valid() && h.len == HLEN + |d| && Sending(h, d, mtu, pool).Some? && 16 + mtu <= size
  {
    SentFine(h, d, mtu, pool);
    Joins(Parts(Sending(h, d, mtu, pool).value, mtu, size))
  }

  /** A datagram that is not cut. */
  lemma WholeTrip(h: Header, d: seq<byte>, mtu: nat, pool: nat, size: nat, evs: seq<Event>)
    requires h.Valid() && h.len == HLEN + |d| && h.off == 0 && !h.mf && h.ttl > 1 && h.len <= mtu && 16 + mtu <= size
    requires Arrives(evs, KeyOf(h), Sent(h, d, mtu, pool, size))
    ensures Fit(h, d, mtu, pool, size)
    ensures var r := Solo(evs, KeyOf(h)); r.0 == None && |r.1| == 1 && Rebuilt(r.1[0], d)
  {
    var key, p := KeyOf(h), Packet(h, d);
    WholeAccepted(p, size);
    var m := Recv(Encode(p), size);
    assert Sent(h, d, mtu, pool, size) == [m];
    OneOf(PacketsFor(evs, key), m);
    SoloWhole(evs, key, m);
  }

  lemma OneOf<T>(s: seq<T>, x: T)
    requires multiset(s) == multiset([x])
    ensures s == [x]
  {
    assert |s| == |multiset(s)| == |multiset([x])| == 1;
    assert s[0] in multiset([x]);
  }

  /** Every packet of a datagram that is cut arrives as its piece. */
  lemma PartsAccepted(h: Header, d: seq<byte>, mtu: nat, pool: nat, size: nat)
    requires h.Valid() && h.len == HLEN + |d| > mtu && h.ttl > 1 && 16 + mtu <= size
    requires Sending(h, d, mtu, pool).Some?
    ensures Fine(Sending(h, d, mtu, pool).value, mtu)
    ensures var ms, fs := Sent(h, d, mtu, pool, size), Parts(Sending(h, d, mtu, pool).value, mtu, size);
      |ms| == |fs| && forall i :: 0 <= i < |ms| ==> Classify(ms[i]) == Piece(KeyOf(h), fs[i])
  {
    var l := DataPerPacket(mtu);
    var cs, ps := Cuts(|d|, l, 0), Sending(h, d, mtu, pool).value;
    SentFine(h, d, mtu, pool);
    CutsWithin(|d|, l, 0);
    CutsAllGood(|d|, l);
    PacketsAt(h, d, cs);
    var ms, fs := Sent(h, d, mtu, pool, size), Parts(ps, mtu, size);
    forall i | 0 <= i < |ms| ensures Classify(ms[i]) == Piece(KeyOf(h), fs[i]) {
      FragmentAccepted(h, d, cs[i], l, size);
    }
  }

  /** ... and the pieces lie end to end over the payload. */
  lemma PartsLaid(h: Header, d: seq<byte>, mtu: nat, pool: nat, size: nat)
    requires h.Valid() && h.len == HLEN + |d| > mtu && 16 + mtu <= size && Sending(h, d, mtu, pool).Some?
    ensures Fine(Sending(h, d, mtu, pool).value, mtu)
    ensures var q := Parts(Sending(h, d, mtu, pool).value, mtu, size);
      |q| > 0 && (forall f <- q :: Cut(f, d)) && Laid(q, |d|) && CoversAll(q, |d|)
  {
    var l := DataPerPacket(mtu);
    var cs, ps := Cuts(|d|, l, 0), Sending(h, d, mtu, pool).value;
    SentFine(h, d, mtu, pool);
    CutsWithin(|d|, l, 0);
    FragsLaid(h, d, l, size);
    PacketsAt(h, d, cs);
    var q := Parts(ps, mtu, size);
    assert q == Frags(h, d, cs, l, size);
  }

  lemma PartsShort(ps: seq<Packet>, mtu: nat, size: nat)
    requires Fine(ps, mtu) && 16 + mtu <= size && forall p <- ps :: |p.data| <= MINCSIZE
    ensures NoLonger(Parts(ps, mtu, size), MINCSIZE)
  {
    var q := Parts(ps, mtu, size);
    forall f | f in q ensures |f.m.bytes| <= MINCSIZE {
      var i :| 0 <= i < |q| && q[i] == f;
      assert ps[i] in ps;
    }
  }

  lemma DataShort(h: Header, d: seq<byte>, mtu: nat, pool: nat)
    requires h.Valid() && h.len == HLEN + |d| > mtu && Sending(h, d, mtu, pool).Some?
    ensures forall p <- Sending(h, d, mtu, pool).value :: |p.data| <= DataPerPacket(mtu)
  {
    var l := DataPerPacket(mtu);
    var cs, ps := Cuts(|d|, l, 0), Sending(h, d, mtu, pool).value;
    CutsWithin(|d|, l, 0);
    CutsAllGood(|d|, l);
    PacketsAt(h, d, cs);
    forall p | p in ps ensures |p.data| <= l {
      var i :| 0 <= i < |ps| && ps[i] == p;
      assert GoodCut(cs[i], |d|, l);
    }
  }

  /** The fragments that arrive are the pieces, in some order. */
  lemma PiecesArrive(h: Header, d: seq<byte>, mtu: nat, pool: nat, size: nat, evs: seq<Event>)
    requires h.Valid() && h.len == HLEN + |d| > mtu && h.ttl > 1 && 16 + mtu <= size
    requires Sending(h, d, mtu, pool).Some? && Arrives(evs, KeyOf(h), Sent(h, d, mtu, pool, size))
    ensures Fine(Sending(h, d, mtu, pool).value, mtu) && AllPlain(KeyOf(h), evs)
    ensures multiset(FragsFor(evs, KeyOf(h))) == multiset(Parts(Sending(h, d, mtu, pool).value, mtu, size))
  {
    PartsAccepted(h, d, mtu, pool, size);
    Gathered(KeyOf(h), evs, Sent(h, d, mtu, pool, size), Parts(Sending(h, d, mtu, pool).value, mtu, size));
  }

  /** What arrives in mbufs that are pieces of the datagram. */
  lemma {:induction false} Gathered(key: Key, evs: seq<Event>, ms: seq<Mbuf>, fs: seq<Frag>)
    requires Arrives(evs, key, ms) && |ms| == |fs|
    requires forall i :: 0 <= i < |ms| ==> Classify(ms[i]) == Piece(key, fs[i])
    ensures AllPlain(key, evs) && multiset(FragsFor(evs, key)) == multiset(fs)
  {
    forall m | m in ms ensures Classify(m).Piece? { var i :| 0 <= i < |ms| && ms[i] == m; }
    OnlyPieces(evs, key, ms);
    FragsArePieces(evs, key);
    CollectPermute(Piecing(key), PacketsFor(evs, key), ms);
    EachPiece(key, ms, fs);
  }

  lemma {:induction false} EachPiece(key: Key, ms: seq<Mbuf>, fs: seq<Frag>)
    requires |ms| == |fs| && forall i :: 0 <= i < |ms| ==> Classify(ms[i]) == Piece(key, fs[i])
    ensures Collect(Piecing(key), ms) == fs
  {
    forall i | 0 <= i < |ms| ensures Piecing(key)(ms[i]) == [fs[i]] { assert Classify(ms[i]) == Piece(key, fs[i]); }
    CollectEach(Piecing(key), ms, fs);
  }

  /** Give a datagram to ip_output and let its packets arrive in any order, mixed with any other packets and with
      ticks: it goes up exactly once, with the original payload, and no queue is left of it, if and only if its pieces
      fit; which they do for every mtu whose fragments are at most MINCSIZE bytes. */
  lemma RoundTrip(h: Header, d: seq<byte>, mtu: nat, pool: nat, size: nat, evs: seq<Event>)
    requires h.Valid() && h.len == HLEN + |d| && h.off == 0 && !h.mf && h.ttl > 1 && 16 + mtu <= size
    requires Sending(h, d, mtu, pool).Some? && Arrives(evs, KeyOf(h), Sent(h, d, mtu, pool, size))
    ensures var q, outs := QueueOf(Run(evs).0, KeyOf(h)), OutsFor(Run(evs).1, KeyOf(h));
      q == None && |outs| == 1 && Rebuilt(outs[0], d) <==> Fit(h, d, mtu, pool, size)
    ensures mtu < MINCSIZE + HLEN + 8 ==> Fit(h, d, mtu, pool, size)
  {
    RunProjects(evs, KeyOf(h));
    if h.len <= mtu {
      WholeTrip(h, d, mtu, pool, size, evs);
    } else {
      CutTrip(h, d, mtu, pool, size, evs);
      if mtu < MINCSIZE + HLEN + 8 { FitWhenShort(h, d, mtu, pool, size); }
    }
  }

  /** Whatever the order of the pieces, they rebuild the datagram if and only if they fit. */
  lemma AnyOrder(fs: seq<Frag>, q: seq<Frag>, d: seq<byte>)
    requires AllWellFormed(fs) && multiset(fs) == multiset(q) && |q| > 0 && |d| <= 0xFFFF
    requires (forall f <- q :: Cut(f, d)) && Laid(q, |d|) && CoversAll(q, |d|)
    ensures Delivered(fs, d) <==> Joins(q)
  {
    forall f | f in fs ensures Cut(f, d) { assert f in multiset(q); }
    LastCompletes(fs, q, |d|);
    DeliveredIff(fs, d);
  }

  lemma FitWhenShort(h: Header, d: seq<byte>, mtu: nat, pool: nat, size: nat)
    requires h.Valid() && h.len == HLEN + |d| > mtu && 16 + mtu <= size && Sending(h, d, mtu, pool).Some?
    requires mtu < MINCSIZE + HLEN + 8
    ensures Fit(h, d, mtu, pool, size)
  {
    PartsLaid(h, d, mtu, pool, size);
    DataShort(h, d, mtu, pool);
    PartsShort(Sending(h, d, mtu, pool).value, mtu, size);
    var q := Parts(Sending(h, d, mtu, pool).value, mtu, size);
    ShortTaken(q[0].m.room, q[1..]);
  }

  /** A datagram that is cut. */
  lemma CutTrip(h: Header, d: seq<byte>, mtu: nat, pool: nat, size: nat, evs: seq<Event>)
    requires h.Valid() && h.len == HLEN + |d| > mtu && h.ttl > 1 && 16 + mtu <= size
    requires Sending(h, d, mtu, pool).Some? && Arrives(evs, KeyOf(h), Sent(h, d, mtu, pool, size))
    ensures var r := Solo(evs, KeyOf(h));
      r.0 == None && |r.1| == 1 && Rebuilt(r.1[0], d) <==> Fit(h, d, mtu, pool, size)
  {
    var fs := FragsFor(evs, KeyOf(h));
    PiecesArrive(h, d, mtu, pool, size, evs);
    PartsLaid(h, d, mtu, pool, size);
    AnyOrder(fs, Parts(Sending(h, d, mtu, pool).value, mtu, size), d);
    SoloFeeds(evs, KeyOf(h));
    ChainOfNone(evs, KeyOf(h));
  }

  lemma ChainOfNone(evs: seq<Event>, key: Key)
    ensures ChainIn(Solo(evs, key).0) == [] <==> Solo(evs, key).0.None?
  {
  }

  // ----- A datagram that is too long -----

  /** A fragment packet of a datagram: 8 * off is where its data belong. */
  function Slice(h: Header, off: nat, mf: bool, data: seq<byte>): (p: Packet)
    requires |data| + HLEN <= 0xFFFF
  {
    Packet(h.(len := HLEN + |data|, df := false, mf := mf, off := off), data)
  }

  function SliceEvent(h: Header, off: nat, mf: bool, data: seq<byte>, size: nat): (e: Event)
    requires h.Valid() && |data| + HLEN <= 0xFFFF && 16 + HLEN + |data| <= size && off < 0x2000
  {
    Arrival(Recv(Encode(Slice(h, off, mf, data)), size), true)
  }

  function SliceFrag(h: Header, off: nat, mf: bool, data: seq<byte>, size: nat): (f: Frag)
    requires h.Valid() && |data| + HLEN <= 0xFFFF && 16 + HLEN + |data| <= size && off < 0x2000
    ensures WellFormed(f) && f.off == 8 * off && f.len == |data| && f.mff == mf
  {
    FragOf(Slice(h, off, mf, data), size)
  }

  /** The event is the arrival of fragment g. */
  predicate Brings(key: Key, e: Event, g: Frag) { e.Arrival? && e.gotMbuf && Classify(e.m) == Piece(key, g) }

  lemma SliceBrings(h: Header, off: nat, mf: bool, data: seq<byte>, size: nat)
    requires h.Valid() && h.ttl > 1 && |data| + HLEN <= 0xFFFF && 16 + HLEN + |data| <= size && off < 0x2000
    requires mf || off > 0
    ensures Brings(KeyOf(h), SliceEvent(h, off, mf, data, size), SliceFrag(h, off, mf, data, size))
  {
    PacketAccepted(Slice(h, off, mf, data), size);
  }

  lemma BroughtNext(key: Key, evs: seq<Event>, fs: seq<Frag>, e: Event, g: Frag)
    requires BringAll(key, evs, fs) && Brings(key, e, g)
    ensures BringAll(key, evs + [e], fs + [g])
  {
    SoloAppend(evs, e, key);
  }

  /** The events are plain, and bring the fragments fs. */
  predicate BringAll(key: Key, evs: seq<Event>, fs: seq<Frag>) {
    AllPlain(key, evs) && TicksSince(evs, key) == 0 && FragsFor(evs, key) == fs
  }

  lemma ThreeBrought(key: Key, e1: Event, e2: Event, e3: Event, g1: Frag, g2: Frag, g3: Frag)
    requires Brings(key, e1, g1) && Brings(key, e2, g2) && Brings(key, e3, g3)
    ensures BringAll(key, [e1] + [e2] + [e3], [g1, g2, g3])
  {
    TwoBrought(key, e1, e2, g1, g2);
    BroughtNext(key, [e1] + [e2], [g1] + [g2], e3, g3);
    assert [g1] + [g2] + [g3] == [g1, g2, g3];
  }

  lemma TwoBrought(key: Key, e1: Event, e2: Event, g1: Frag, g2: Frag)
    requires Brings(key, e1, g1) && Brings(key, e2, g2)
    ensures BringAll(key, [e1] + [e2], [g1] + [g2])
  {
    OneBrought(key, e1, g1);
    BroughtNext(key, [e1], [g1], e2, g2);
  }

  lemma OneBrought(key: Key, e: Event, g: Frag)
    requires Brings(key, e, g)
    ensures BringAll(key, [e], [g])
  {
    NoneBrought(key);
    BroughtNext(key, [], [], e, g);
    assert [] + [e] == [e] && [] + [g] == [g];
  }

  lemma NoneBrought(key: Key)
    ensures BringAll(key, [], [])
  {
  }

  /** Packets that ip_input accepts, of 65504, 24 and 100 bytes, laid end to end: their 65628 bytes go up as a datagram
      of 92. */
  lemma OversizeArrives(h: Header, a: seq<byte>, b: seq<byte>, c: seq<byte>, size: nat)
    requires h.Valid() && h.ttl > 1 && |a| == 65504 && |b| == 24 && |c| == 100 && 16 + HLEN + |a| <= size
    ensures
      var evs := [SliceEvent(h, 0, true, a, size)] + [SliceEvent(h, 8188, true, b, size)] +
        [SliceEvent(h, 8191, false, c, size)];
      var outs := OutsFor(Run(evs).1, KeyOf(h));
      |outs| == 1 && outs[0].len == 92 && |outs[0].m.bytes| == outs[0].hl + 65628
  {
    SliceBrings(h, 0, true, a, size);
    SliceBrings(h, 8188, true, b, size);
    SliceBrings(h, 8191, false, c, size);
    OversizeRun(KeyOf(h), SliceEvent(h, 0, true, a, size), SliceEvent(h, 8188, true, b, size),
                SliceEvent(h, 8191, false, c, size), SliceFrag(h, 0, true, a, size), SliceFrag(h, 8188, true, b, size),
                SliceFrag(h, 8191, false, c, size));
  }

  lemma OversizeRun(key: Key, e1: Event, e2: Event, e3: Event, g1: Frag, g2: Frag, g3: Frag)
    requires Brings(key, e1, g1) && Brings(key, e2, g2) && Brings(key, e3, g3)
    requires WellFormed(g1) && WellFormed(g2) && WellFormed(g3) && g1.mff && g2.mff && !g3.mff
    requires g1.off == 0 && g1.len == 65504 && g2.off == 65504 && g2.len == 24 && g3.off == 65528 && g3.len == 100
    ensures var outs := OutsFor(Run([e1] + [e2] + [e3]).1, key);
      |outs| == 1 && outs[0].len == 92 && |outs[0].m.bytes| == outs[0].hl + 65628
  {
    ThreeBrought(key, e1, e2, e3, g1, g2, g3);
    SoloFeeds([e1] + [e2] + [e3], key);
    RunProjects([e1] + [e2] + [e3], key);
    LengthCut(g1, g2, g3);
  }
}
