/** slirp/ip_output.c: fragmentation, and the packets as bytes. */
module IpOutput {
  import opened Bytes
  import opened Mbufs
  import opened IpReass
  import opened IpInput
  import Cksum

  const HLEN: nat := 20               // sizeof(struct ip): no options
  const IF_MAXLINKHDR: nat := 56      // 2 for alignment, 14 for ethernet, 40 for TCP/IP
  const MBUF_SLACK: nat := 6          // what msize_init adds besides

  /** The fields of an IP header that ip_output sets or copies; `off` counts 8-byte units. */
  datatype Header = Header(tos: byte, len: u16, id: u16, df: bool, mf: bool, off: nat,
                           ttl: byte, p: byte, src: seq<byte>, dst: seq<byte>)
  {
    predicate Valid() { |src| == 4 && |dst| == 4 && off < 0x2000 }

    function OffField(): (w: u16)
      requires Valid()
    {
      off + (if mf then 0x2000 else 0) + (if df then 0x4000 else 0)
    }
  }

  // ----- What fragmentation must produce -----

  /** One fragment: payload bytes [o, o + l), with or without the MF flag. */
  datatype Cutting = Cutting(o: nat, l: nat, more: bool)

  /** The cuttings of a payload of n bytes from offset o on, l bytes at a time. */
  function Cuts(n: nat, l: nat, o: nat): seq<Cutting>
    requires l > 0 && o <= n
    decreases n - o
  {
    if n - o <= l then [Cutting(o, n - o, false)] else [Cutting(o, l, true)] + Cuts(n, l, o + l)
  }

  predicate Within(cs: seq<Cutting>, n: nat) { forall c <- cs :: c.o + c.l <= n }

  lemma {:induction false} CutsWithin(n: nat, l: nat, o: nat)
    requires l > 0 && o <= n
    ensures Within(Cuts(n, l, o), n)
    decreases n - o
  {
    if n - o > l { CutsWithin(n, l, o + l); }
  }

  /** A packet as ip_output handles it: the header struct and the data behind it. */
  datatype Packet = Packet(h: Header, data: seq<byte>)

  /** The packet that carries a cutting of payload d. */
  function PacketOf(h: Header, d: seq<byte>, c: Cutting): Packet
    requires c.o + c.l <= |d| && |d| + HLEN <= 0xFFFF
  {
    Packet(h.(len := HLEN + c.l, off := c.o / 8, mf := c.more), d[c.o..c.o + c.l])
  }

  function Packets(h: Header, d: seq<byte>, cs: seq<Cutting>): seq<Packet>
    requires |d| + HLEN <= 0xFFFF && Within(cs, |d|)
  {
    if |cs| == 0 then [] else assert cs[0] in cs; [PacketOf(h, d, cs[0])] + Packets(h, d, cs[1..])
  }

  /** Data bytes per full fragment. */
  function DataPerPacket(mtu: int): int { (mtu - HLEN) / 8 * 8 }

  /** What reaches if_output: the datagram whole or the packets of its cuttings; None when it may not or cannot be cut,
      or when the `pool` of mbufs runs out. */
  function Sending(h: Header, d: seq<byte>, mtu: nat, pool: nat): Option<seq<Packet>>
    requires h.len == HLEN + |d|
  {
    var l := DataPerPacket(mtu);
    if h.len <= mtu then Some([Packet(h, d)])
    else if h.df || l < 8 || |Cuts(|d|, l, 0)| - 1 > pool then None
    else
      CutsWithin(|d|, l, 0);
      Some(Packets(h, d, Cuts(|d|, l, 0)))
  }

  // ----- When a datagram is sent, and in which packets -----

  /** The payload d goes out l bytes per packet, in as few packets as hold it: packet i has the bytes from i * l on, and
      the MF flag if there are more. Everything else in its header is that of the datagram. */
  ghost predicate Carries(h: Header, d: seq<byte>, l: nat, ps: seq<Packet>)
    requires l > 0
  {
    && |ps| == (if d == [] then 1 else (|d| - 1) / l + 1)
    && forall i :: 0 <= i < |ps| ==> Carried(h, d, l * i, l, ps[i])
  }

  /** One packet of it, with the bytes from o on. */
  predicate Carried(h: Header, d: seq<byte>, o: nat, l: nat, p: Packet) {
    var end := if o + l < |d| then o + l else |d|;
    && o <= |d| && p.data == d[o..end]
    && p.h == h.(len := p.h.len, off := p.h.off, mf := p.h.mf)
    && p.h.len == HLEN + |p.data| && p.h.off * 8 <= o < p.h.off * 8 + 8 && (p.h.mf <==> end < |d|)
  }

  lemma OneMore(m: nat, l: nat)
    requires l > 0
    ensures (m + l) / l == m / l + 1
  {
    var q, r := (m + l) / l - m / l - 1, m % l - (m + l) % l;
    assert l * q == r by {
      assert l * ((m + l) / l) + (m + l) % l == l * (m / l) + m % l + l;
    }
    if q != 0 {
      TooFar(l, q);
    }
  }

  lemma TooFar(l: nat, q: int)
    requires q != 0
    ensures l * q >= l || l * q + l <= 0
  {
  }

  lemma {:induction false} CutsCount(n: nat, l: nat, o: nat)
    requires l > 0 && o < n
    ensures |Cuts(n, l, o)| == (n - o - 1) / l + 1
    decreases n - o
  {
    if n - o > l {
      CutsCount(n, l, o + l);
      OneMore(n - o - l - 1, l);
    }
  }

  lemma {:induction false} CutsAt(n: nat, l: nat, o: nat, i: nat)
    requires l > 0 && o <= n && i < |Cuts(n, l, o)|
    ensures var c := Cuts(n, l, o)[i]; c.o == o + l * i <= n && c.l == (if n - c.o <= l then n - c.o else l)
    ensures Cuts(n, l, o)[i].more <==> Cuts(n, l, o)[i].o + l < n
    decreases n - o
  {
    if n - o > l && i > 0 {
      CutsAt(n, l, o + l, i - 1);
      assert l * i == l + l * (i - 1);
    } else {
      assert i == 0 && l * i == 0;
    }
  }

  lemma {:induction false} PacketsAt(h: Header, d: seq<byte>, cs: seq<Cutting>)
    requires |d| + HLEN <= 0xFFFF && Within(cs, |d|)
    ensures |Packets(h, d, cs)| == |cs|
    ensures forall i :: 0 <= i < |cs| ==>
      cs[i].o + cs[i].l <= |d| && Packets(h, d, cs)[i] == PacketOf(h, d, cs[i])
  {
    if cs != [] {
      PacketsAt(h, d, cs[1..]);
    }
  }

  lemma CutCarried(h: Header, d: seq<byte>, l: nat, i: nat)
    requires l > 0 && |d| + HLEN <= 0xFFFF && i < |Cuts(|d|, l, 0)|
    ensures var c := Cuts(|d|, l, 0)[i]; c.o + c.l <= |d| && Carried(h, d, l * i, l, PacketOf(h, d, c))
  {
    CutsAt(|d|, l, 0, i);
  }

  /** A datagram is sent if it fits the interface, or may be cut, into packets of 8 bytes of data at least, and there
      are mbufs for all but the first; and else it is not. */
  lemma SentIff(h: Header, d: seq<byte>, mtu: nat, pool: nat)
    requires h.len == HLEN + |d|
    ensures Sending(h, d, mtu, pool).Some? <==>
      h.len <= mtu || (!h.df && mtu >= HLEN + 8 && (|d| - 1) / DataPerPacket(mtu) <= pool)
  {
    var l := DataPerPacket(mtu);
    if h.len > mtu && l >= 8 {
      CutsCount(|d|, l, 0);
    }
  }

  lemma CutsCarried(h: Header, d: seq<byte>, l: nat)
    requires l > 0 && d != [] && |d| + HLEN <= 0xFFFF && Within(Cuts(|d|, l, 0), |d|)
    ensures Carries(h, d, l, Packets(h, d, Cuts(|d|, l, 0)))
  {
    var cs := Cuts(|d|, l, 0);
    var ps := Packets(h, d, cs);
    CutsCount(|d|, l, 0);
    PacketsAt(h, d, cs);
    forall i | 0 <= i < |ps| ensures Carried(h, d, l * i, l, ps[i]) {
      CutCarried(h, d, l, i);
      assert ps[i] == PacketOf(h, d, cs[i]);
    }
  }

  /** It then goes out in as few packets as hold it, or whole. */
  lemma SentCarries(h: Header, d: seq<byte>, mtu: nat, pool: nat)
    requires h.len == HLEN + |d| && h.off == 0 && !h.mf && Sending(h, d, mtu, pool).Some?
    ensures Carries(h, d, if h.len <= mtu then 0x10000 else DataPerPacket(mtu), Sending(h, d, mtu, pool).value)
  {
    var l := DataPerPacket(mtu);
    if h.len > mtu {
      CutsWithin(|d|, l, 0);
      CutsCarried(h, d, l);
    } else {
      assert Carried(h, d, 0x10000 * 0, 0x10000, Packet(h, d));
    }
  }

  // ----- ip_output -----

  /** m_get and m_data += if_maxlinkhdr, with room for an interface of this mtu. */
  function FreshMbuf(mtu: nat): Mbuf {
    Mbuf(seq(IF_MAXLINKHDR, _ => 0), [], mtu + MBUF_SLACK)
  }

  /** One pass of the loop: a new mbuf with a copied header and the data at `off` of m0. */
  method MakePacket(m0: Mbuf, h: Header, mtu: nat, off: nat, len: nat, more: bool) returns (p: Packet)
    requires HLEN <= off && off + len <= |m0.bytes| <= 0xFFFF && HLEN + len <= mtu
    ensures p == PacketOf(h, m0.bytes[HLEN..], Cutting(off - HLEN, len, more))
  {
    var mh := h.(off := (off - HLEN) / 8, mf := more, len := len + HLEN);
    var m := FreshMbuf(mtu);
    m := m.(bytes := m0.bytes[..HLEN], room := m.room - HLEN);   // *mhip = *ip
    var c := Copy(m, m0, off, len);                               // cannot fail: an mbuf holds a whole packet
    p := Packet(mh, c.value.bytes[HLEN..]);
    assert m0.bytes[off..off + len] == m0.bytes[HLEN..][off - HLEN..off - HLEN + len];
  }

  /** The loop that makes the fragments after the first; `pool` is how many mbufs m_get has. */
  method FragmentRest(m0: Mbuf, h: Header, mtu: nat, l: nat, pool: nat, ghost cs: seq<Cutting>)
    returns (ok: bool, rest: seq<Packet>)
    requires h.len == |m0.bytes| && HLEN + l <= mtu < h.len && l >= 8
    requires cs == Cuts(h.len - HLEN, l, l) && Within(cs, h.len - HLEN)
    ensures ok <==> |cs| <= pool
    ensures ok ==> rest == Packets(h, m0.bytes[HLEN..], cs)
  {
    var len, left := l, pool;
    ghost var d := m0.bytes[HLEN..];
    rest := [];
    ghost var todo := cs;
    var off := HLEN + len;
    while off < h.len
      invariant HLEN + l <= off <= h.len && left >= 0 && left == pool - |cs| + |todo| && (off < h.len ==> len == l)
      invariant todo == (if off < h.len then Cuts(h.len - HLEN, l, off - HLEN) else []) && Within(todo, |d|)
      invariant rest + Packets(h, d, todo) == Packets(h, d, cs)
      decreases h.len - off
    {
      if left == 0 {
        return false, rest;   // ips_odropped
      }
      left := left - 1;
      var p;
      p, len := NextPacket(m0, h, mtu, l, off, todo);
      PacketsUnfold(h, d, rest, todo, p);
      rest, todo, off := rest + [p], todo[1..], off + len;
    }
    assert rest + [] == rest;
    ok := true;
  }

  /** One round of the loop: the packet at off, and how much of the datagram it takes. */
  method NextPacket(m0: Mbuf, h: Header, mtu: nat, l: nat, off: nat, ghost todo: seq<Cutting>)
    returns (p: Packet, len: nat)
    requires h.len == |m0.bytes| && HLEN + l <= mtu < h.len && l >= 8 && HLEN <= off < h.len
    requires todo == Cuts(h.len - HLEN, l, off - HLEN) && Within(todo, h.len - HLEN)
    ensures |todo| > 0 && todo[0].o + todo[0].l <= h.len - HLEN && p == PacketOf(h, m0.bytes[HLEN..], todo[0])
    ensures 0 < len && off + len <= h.len && (off + len < h.len ==> len == l)
    ensures todo[1..] == if off + len < h.len then Cuts(h.len - HLEN, l, off + len - HLEN) else []
  {
    len := l;
    var more := off + len < h.len;
    if !more {
      len := h.len - off;
    }
    p := MakePacket(m0, h, mtu, off, len, more);
  }

  lemma PacketsUnfold(h: Header, d: seq<byte>, rest: seq<Packet>, cs: seq<Cutting>, p: Packet)
    requires |d| + HLEN <= 0xFFFF && Within(cs, |d|) && |cs| > 0 && cs[0].o + cs[0].l <= |d| &&
      p == PacketOf(h, d, cs[0])
    ensures rest + Packets(h, d, cs) == rest + [p] + Packets(h, d, cs[1..])
  {
  }

  /** ip_output: the packets handed to if_output, or error -1 and none of them. */
  method Output(m0: Mbuf, h: Header, mtu: nat, pool: nat) returns (error: int, out: seq<Packet>)
    requires h.off == 0 && !h.mf && h.len == |m0.bytes| >= HLEN
    ensures match Sending(h, m0.bytes[HLEN..], mtu, pool)
      case None => error == -1 && out == []
      case Some(ps) => error == 0 && out == ps
    ensures var l := DataPerPacket(mtu);
      && (error == 0 <==> h.len <= mtu || (!h.df && mtu >= HLEN + 8 && (|m0.bytes| - HLEN - 1) / l <= pool))
      && (error != 0 ==> error == -1 && out == [])
      && (error == 0 ==> Carries(h, m0.bytes[HLEN..], if h.len <= mtu then 0x10000 else l, out))
  {
    error, out := Send(m0, h, mtu, pool);
    SentIff(h, m0.bytes[HLEN..], mtu, pool);
    if error == 0 {
      SentCarries(h, m0.bytes[HLEN..], mtu, pool);
    }
  }

  method Send(m0: Mbuf, h: Header, mtu: nat, pool: nat) returns (error: int, out: seq<Packet>)
    requires h.off == 0 && !h.mf && h.len == |m0.bytes| >= HLEN
    ensures match Sending(h, m0.bytes[HLEN..], mtu, pool)
      case None => error == -1 && out == []
      case Some(ps) => error == 0 && out == ps
  {
    if h.len <= mtu {
      return 0, [Packet(h, m0.bytes[HLEN..])];
    }
    var len := (mtu - HLEN) / 8 * 8;
    if h.df || len < 8 {
      return -1, [];
    }
    ghost var d := m0.bytes[HLEN..];
    ghost var cs := Cuts(|d|, len, len);
    CutsWithin(|d|, len, 0);
    CutsWithin(|d|, len, len);
    var ok, rest := FragmentRest(m0, h, mtu, len, pool, cs);
    if !ok {
      return -1, [];   // sendorfree: everything is freed
    }
    var first := Adj(m0, HLEN + len - h.len);
    assert first.bytes[HLEN..] == d[0..len];
    out := [Packet(h.(len := |first.bytes|, mf := true), first.bytes[HLEN..])] + rest;
    error := 0;
    assert Cuts(|d|, len, 0) == [Cutting(0, len, true)] + cs;
  }

  // ----- The packet on the wire -----

  /** A header in network order with a zero checksum field. */
  function Blank(h: Header): (r: seq<byte>)
    requires h.Valid()
    ensures |r| == HLEN
  {
    var w := h.OffField();
    [0x45, h.tos, h.len / 256, h.len % 256, h.id / 256, h.id % 256, w / 256, w % 256, h.ttl, h.p, 0, 0] + h.src + h.dst
  }

  /** ... and with ip_sum = cksum(m, hlen). */
  function Seal(h: Header): (r: seq<byte>)
    requires h.Valid()
    ensures |r| == HLEN
  {
    Cksum.PutSum(Blank(h), 10, Cksum.RfcCksum(Blank(h)))
  }

  /** ip_len and ip_off in network order, ip_sum filled in. */
  function Encode(p: Packet): seq<byte>
    requires p.h.Valid()
  {
    Seal(p.h) + p.data
  }

  // ----- The receiving side -----

  /** slirp_input: the packet lands in a fresh mbuf behind 2 bytes of alignment and the ethernet header. */
  function Recv(w: seq<byte>, size: nat): Mbuf
    requires 16 + |w| <= size
  {
    Mbuf(seq(16, _ => 0), w, size - 16 - |w|)
  }

  /** The fragment that a received packet turns into. */
  function FragOf(p: Packet, size: nat): Frag
    requires p.h.Valid() && |p.data| <= 0xFFFF && 16 + HLEN + |p.data| <= size
  {
    Frag(16, HLEN, p.h.off * 8, |p.data|, p.h.mf,
      Mbuf(seq(16, _ => 0) + Seal(p.h), p.data, size - 16 - HLEN - |p.data|))
  }

  function KeyOf(h: Header): Key { Key(h.id, h.src, h.dst, h.p) }

  /** A sealed header sums to zero and reads back as the header it was made from. */
  lemma SealReadsBack(h: Header)
    requires h.Valid()
    ensures var b := Seal(h);
      && Cksum.RfcCksum(b) == 0 && b[0] == 0x45 && b[1] == h.tos
      && Be16(b[2], b[3]) == h.len && Be16(b[4], b[5]) == h.id
      && Be16(b[6], b[7]) == h.OffField() && b[8] == h.ttl && b[9] == h.p && b[12..16] == h.src && b[16..20] == h.dst
  {
    Cksum.StoredSumVerifies(Blank(h), 10);
    var a, b := Blank(h), Seal(h);
    assert b[..10] == a[..10] && b[12..] == a[12..];
    assert a[12..] == h.src + h.dst;
    assert b[12..16] == b[12..][..4] && b[16..20] == b[12..][4..];
  }

  /** The offset field unpacks into what it was packed from. */
  lemma OffFieldUnpacks(h: Header)
    requires h.Valid()
    ensures h.OffField() / 0x2000 % 2 == (if h.mf then 1 else 0) && h.OffField() % 0x2000 == h.off
    ensures h.OffField() == (if h.df then 0x4000 else 0) <==> !h.mf && h.off == 0
    ensures h.OffField() in {0, 0x4000} <==> !h.mf && h.off == 0
  {
  }

  /** ip_input hands an unfragmented packet straight up. */
  lemma WholeAccepted(p: Packet, size: nat)
    requires p.h.Valid() && p.h.ttl > 1 && p.h.len == HLEN + |p.data| && 16 + HLEN + |p.data| <= size
    requires !p.h.mf && p.h.off == 0
    ensures Classify(Recv(Encode(p), size)).Whole? && Classify(Recv(Encode(p), size)).key == KeyOf(p.h)
    ensures Rebuilt(Classify(Recv(Encode(p), size)).g, p.data)
  {
    var w := Encode(p);
    var m := Recv(w, size);
    SealReadsBack(p.h);
    assert w[..HLEN] == Seal(p.h) && w[HLEN..] == p.data;
    assert w[12..16] == Seal(p.h)[12..16] && w[16..20] == Seal(p.h)[16..20];
    assert Adj(m, 0).head == m.head && Adj(m, 0).bytes == w;
  }

  /** What ip_input looks at in the bytes of a packet. */
  predicate Reads(w: seq<byte>, h: Header)
    requires h.Valid()
  {
    && |w| == h.len >= HLEN && Cksum.RfcCksum(w[..HLEN]) == 0 && w[0] == 0x45 && Be16(w[2], w[3]) == h.len
    && Be16(w[4], w[5]) == h.id && Be16(w[6], w[7]) == h.OffField() && w[8] == h.ttl && w[9] == h.p
    && w[12..16] == h.src && w[16..20] == h.dst
  }

  lemma EncodedReads(p: Packet)
    requires p.h.Valid() && p.h.len == HLEN + |p.data|
    ensures Reads(Encode(p), p.h)
  {
    var w := Encode(p);
    SealReadsBack(p.h);
    assert w[..HLEN] == Seal(p.h);
    assert w[12..16] == Seal(p.h)[12..16] && w[16..20] == Seal(p.h)[16..20];
  }

  lemma PieceRead(w: seq<byte>, h: Header, m: Mbuf)
    requires h.Valid() && Reads(w, h) && h.ttl > 1 && (h.mf || h.off > 0) && m.bytes == w
    ensures Classify(m) == Piece(KeyOf(h), Frag(|m.head|, HLEN, h.off * 8, |w| - HLEN, h.mf, Adj(m, HLEN)))
  {
    OffFieldUnpacks(h);
    AdjNone(m);
    assert w[0] as int / 16 == 4 && w[0] as int % 16 * 4 == HLEN;
  }

  lemma AdjNone(m: Mbuf)
    ensures Adj(m, 0) == m
  {
    assert m.head + m.bytes[..0] == m.head && m.bytes[0..] == m.bytes;
  }

  /** ip_input accepts a fragment packet and recovers its key, offset, flag and data. */
  lemma PacketAccepted(p: Packet, size: nat)
    requires p.h.Valid() && p.h.ttl > 1 && p.h.len == HLEN + |p.data| && 16 + HLEN + |p.data| <= size
    requires p.h.mf || p.h.off > 0
    ensures Classify(Recv(Encode(p), size)) == Piece(KeyOf(p.h), FragOf(p, size))
  {
    var w := Encode(p);
    EncodedReads(p);
    PieceRead(w, p.h, Recv(w, size));
    assert w[..HLEN] == Seal(p.h) && w[HLEN..] == p.data;
  }

  // ----- Packets that come to harm on the way -----

  lemma {:induction false} WeighPositive(bs: seq<byte>, i: nat)
    requires i < |bs| && bs[i] != 0
    ensures Cksum.Weigh(bs) > 0
    decreases |bs|
  {
    if i < |bs| - 1 { WeighPositive(bs[..|bs| - 1], i); }
  }

  /** One word of the header of a packet replaced; the bytes in c are in machine order. */
  function Harmed(p: Packet, i: nat, c: u16): (w: seq<byte>)
    requires p.h.Valid() && i < 10
    ensures |w| == HLEN + |p.data|
  {
    Cksum.PutSum(Encode(p), 2 * i, c)
  }

  /** The header of the harmed packet sums to zero if and only if nothing changed, or 0 became 0xFFFF, or the other way
      around. */
  lemma HarmSeenIff(p: Packet, i: nat, c: u16)
    requires p.h.Valid() && p.h.ttl > 1 && p.h.len == HLEN + |p.data| && i < 10
    ensures var w, v := Encode(p), Harmed(p, i, c);
      var o := Cksum.Word(w[2 * i], w[2 * i + 1]);
      Cksum.RfcCksum(v[..HLEN]) == 0 <==> c == o || (c == 0 && o == 0xFFFF) || (c == 0xFFFF && o == 0)
  {
    var w, b := Encode(p), Encode(p)[..HLEN];
    EncodedReads(p);
    HarmedHeader(p, i, c);
    HeaderHarm(b, i, c);
    assert b[2 * i] == w[2 * i] && b[2 * i + 1] == w[2 * i + 1];
  }

  lemma HeaderHarm(b: seq<byte>, i: nat, c: u16)
    requires |b| == HLEN && i < 10 && b[0] != 0 && b[8] != 0 && Cksum.RfcCksum(b) == 0
    ensures var o := Cksum.Word(b[2 * i], b[2 * i + 1]);
      Cksum.RfcCksum(Cksum.PutSum(b, 2 * i, c)) == 0 <==> c == o || (c == 0 && o == 0xFFFF) || (c == 0xFFFF && o == 0)
  {
    OtherWords(b, i);
    Cksum.WordDetected(b, 2 * i, c);
  }

  lemma HarmedHeader(p: Packet, i: nat, c: u16)
    requires p.h.Valid() && i < 10
    ensures Harmed(p, i, c)[..HLEN] == Cksum.PutSum(Encode(p)[..HLEN], 2 * i, c)
  {
  }

  lemma OtherWords(b: seq<byte>, i: nat)
    requires |b| == HLEN && i < 10 && b[0] != 0 && b[8] != 0
    ensures Cksum.Weigh(b[..2 * i]) + Cksum.Weigh(b[2 * i + 2..]) > 0
  {
    if i == 0 {
      assert b[2..][6] == b[8];
      WeighPositive(b[2..], 6);
    } else {
      assert b[..2 * i][0] == b[0];
      WeighPositive(b[..2 * i], 0);
    }
  }

  lemma ShortUnsound(v: seq<byte>)
    requires |v| >= HLEN && v[0] % 16 <= 5 && Cksum.RfcCksum(v[..HLEN]) != 0
    ensures !Sound(v)
  {
  }

  /** ip_input drops a packet with a changed word in its header, unless the header sums to zero as before, or the
      changed word makes it longer. */
  lemma HarmedDropped(p: Packet, size: nat, i: nat, c: u16, qs: seq<Queue>, got: bool)
    requires p.h.Valid() && p.h.ttl > 1 && p.h.len == HLEN + |p.data| && 16 + HLEN + |p.data| <= size && i < 10
    requires var w := Encode(p);
      var o := Cksum.Word(w[2 * i], w[2 * i + 1]);
      c != o && !(c == 0 && o == 0xFFFF) && !(c == 0xFFFF && o == 0)
    requires (i == 0 ==> c % 16 <= 5) && TableInv(qs)
    ensures React(qs, Arrival(Recv(Harmed(p, i, c), size), got)) == (qs, None)
  {
    HarmSeenIff(p, i, c);
    EncodedReads(p);
    assert Harmed(p, i, c)[0] == if i == 0 then c % 256 else Encode(p)[0];
    ShortUnsound(Harmed(p, i, c));
    DroppedIff(qs, Recv(Harmed(p, i, c), size), got);
  }

  /** That one may go through: a header of 24 bytes sums to zero, if the first four of the data are 0xFE, 0xFF, 0, 0. */
  lemma LongerHeader(p: Packet, size: nat)
    requires p.h.Valid() && p.h.ttl > 1 && p.h.len == HLEN + |p.data| && 16 + HLEN + |p.data| <= size
    requires |p.data| >= 4 && p.data[..4] == [0xFE, 0xFF, 0, 0]
    ensures !Classify(Recv(Harmed(p, 0, Cksum.Word(0x46, p.h.tos)), size)).Bad?
  {
    var w, v := Encode(p), Harmed(p, 0, Cksum.Word(0x46, p.h.tos));
    EncodedReads(p);
    LongerSum(w, v, p.h.tos);
    DroppedIff([], Recv(v, size), true);
  }

  lemma {:induction false} LongerSum(w: seq<byte>, v: seq<byte>, tos: byte)
    requires |w| == |v| >= 24 && Cksum.RfcCksum(w[..20]) == 0 && w[0] == 0x45 && w[1] == tos && v[0] == 0x46
    requires v[1..] == w[1..] && w[20..24] == [0xFE, 0xFF, 0, 0]
    ensures Cksum.RfcCksum(v[..24]) == 0
  {
    Cksum.SumsToZero(w[..20]);
    Cksum.SumsToZero(v[..24]);
    var t := w[2..20];
    assert v[1] == v[1..][0] == tos && v[2..20] == v[1..][1..19] == t && v[20..24] == v[1..][19..23] == w[20..24];
    assert v[..24] == v[..2] + v[2..20] + v[20..24] && v[..2] == [0x46, tos];
    assert w[..20] == [] + [0x45, tos] + t;
    assert v[..24] == ([] + [0x46, tos] + t) + [0xFE, 0xFF, 0, 0];
    Cksum.WeighAround([], 0x45, tos, t);
    Cksum.WeighAround([], 0x46, tos, t);
    Cksum.WeighAppend([] + [0x46, tos] + t, [0xFE, 0xFF, 0, 0]);
    assert [0xFE, 0xFF, 0, 0] == [] + [0xFE, 0xFF] + [0, 0] && [0, 0] == [0, 0] + [];
    Cksum.WeighAround([], 0xFE, 0xFF, [0, 0]);
    Cksum.WeighPair(0, 0);
  }

  // ----- The fragments partition the payload -----

  /** Every fragment is non-empty, starts on an 8-byte boundary, fits, and has MF set unless it reaches the
      end; all but the last carry exactly l bytes. */
  predicate GoodCut(c: Cutting, n: nat, l: nat) {
    c.o % 8 == 0 && 0 < c.l <= l && c.o + c.l <= n && (c.more <==> c.o + c.l < n) && (c.more ==> c.l == l)
  }

  lemma {:induction false} CutsGood(n: nat, l: nat, o: nat)
    requires l > 0 && l % 8 == 0 && o % 8 == 0 && o < n
    ensures forall c <- Cuts(n, l, o) :: GoodCut(c, n, l) && o <= c.o
    decreases n - o
  {
    if n - o > l { CutsGood(n, l, o + l); }
  }

  lemma {:induction false} CutsCover(n: nat, l: nat, o: nat, x: nat)
    requires l > 0 && o <= x < n
    ensures exists c <- Cuts(n, l, o) :: c.o <= x < c.o + c.l
    decreases n - o
  {
    var cs := Cuts(n, l, o);
    if n - o <= l || x < o + l {
      assert cs[0] in cs;
    } else {
      CutsCover(n, l, o + l, x);
      var c :| c in Cuts(n, l, o + l) && c.o <= x < c.o + c.l;
      assert c in cs;
    }
  }

  lemma {:induction false} CutsApart(n: nat, l: nat, o: nat)
    requires l > 0 && o <= n
    ensures forall i, j :: 0 <= i < j < |Cuts(n, l, o)| ==>
      Cuts(n, l, o)[i].o + Cuts(n, l, o)[i].l <= Cuts(n, l, o)[j].o
    ensures forall c <- Cuts(n, l, o) :: o <= c.o
    decreases n - o
  {
    if n - o > l {
      CutsApart(n, l, o + l);
      ApartFront(Cutting(o, l, true), Cuts(n, l, o + l), o + l);
    }
  }

  lemma ApartFront(c: Cutting, rest: seq<Cutting>, o: nat)
    requires c.o + c.l <= o && forall d <- rest :: o <= d.o
    requires forall i, j :: 0 <= i < j < |rest| ==> rest[i].o + rest[i].l <= rest[j].o
    ensures var cs := [c] + rest;
      && (forall i, j :: 0 <= i < j < |cs| ==> cs[i].o + cs[i].l <= cs[j].o)
      && forall d <- cs :: c.o <= d.o
  {
    forall j | 0 <= j < |rest| ensures o <= rest[j].o { assert rest[j] in rest; }
  }
}
