/** slirp/ip_input.c: header checks, the table of reassembly queues and its timer. */
module IpInput {
  import opened Bytes
  import opened Mbufs
  import opened IpReass
  import Cksum

  const IPFRAGTTL: nat := 60
  const MIN_HEADER: nat := 20   // sizeof(struct ip)

  /** What identifies the datagram a fragment belongs to. */
  datatype Key = Key(id: nat, src: seq<byte>, dst: seq<byte>, p: byte)

  /** struct ipq. */
  datatype Queue = Queue(key: Key, ttl: nat, frags: seq<Frag>)

  // ----- ip_input up to the dispatch -----

  datatype Verdict =
    | Bad                              // dropped
    | Whole(key: Key, g: Datagram)     // not a fragment: goes straight up
    | Stray(key: Key, g: Datagram)     // only the reserved bit is set: any queue for it is discarded
    | Piece(key: Key, f: Frag)         // goes to ip_reass

  function Be16(hi: byte, lo: byte): u16 { 256 * (hi as int) + lo as int }

  /** The tests of ip_input on an mbuf that starts with an IP header. */
  function Classify(m: Mbuf): (v: Verdict)
    ensures v.Piece? ==> WellFormed(v.f)
  {
    var b := m.bytes;
    if |b| < MIN_HEADER || b[0] / 16 != 4 then Bad
    else
      var hlen: nat := (b[0] as int % 16) * 4;
      var ipLen: nat := Be16(b[2], b[3]);
      if hlen < MIN_HEADER || hlen > |b| || Cksum.RfcCksum(b[..hlen]) != 0 then Bad
      else if ipLen < hlen || |b| < ipLen || b[8] <= 1 then Bad
      else
        var t := Adj(m, ipLen - |b|);
        var key := Key(Be16(b[4], b[5]), b[12..16], b[16..20], b[9]);
        var field := Be16(b[6], b[7]);
        var mff, off := field / 0x2000 % 2 == 1, field % 0x2000 * 8;
        var g := Datagram(|t.head|, hlen, ipLen - hlen, t);
        if field == 0 || field == 0x4000 then Whole(key, g)
        else if mff || off != 0 then Piece(key, Frag(|t.head|, hlen, off, ipLen - hlen, mff, Adj(t, hlen)))
        else Stray(key, g)
  }

  // ----- The table -----

  function Lookup(qs: seq<Queue>, key: Key): (k: Option<nat>)
    ensures k.Some? ==> k.value < |qs| && qs[k.value].key == key
    ensures k.None? ==> forall q <- qs :: q.key != key
  {
    if |qs| == 0 then None
    else if qs[0].key == key then Some(0)
    else match Lookup(qs[1..], key)
      case None => None
      case Some(k) => Some(k + 1)
  }

  function QueueOf(qs: seq<Queue>, key: Key): (o: Option<Queue>)
    ensures o.Some? ==> o.value in qs && o.value.key == key
    ensures o.None? <==> Lookup(qs, key).None?
  {
    match Lookup(qs, key) case None => None case Some(k) => Some(qs[k])
  }

  predicate QueueOk(q: Queue) { |q.frags| > 0 && AllWellFormed(q.frags) && 1 <= q.ttl <= IPFRAGTTL }

  /** Every queue holds something, is not yet due, and has a key of its own. */
  predicate TableInv(qs: seq<Queue>) {
    && (forall q <- qs :: QueueOk(q))
    && (forall i, j :: 0 <= i < j < |qs| ==> qs[i].key != qs[j].key)
  }

  /** ip_reass with its queue: found, or made in front of the table if m_get has an mbuf for it. */
  function TableStep(qs: seq<Queue>, key: Key, f: Frag, gotMbuf: bool): (seq<Queue>, Option<Datagram>)
    requires TableInv(qs) && WellFormed(f)
  {
    match Lookup(qs, key)
    case None =>
      if !gotMbuf then (qs, None)
      else
        var (q', r) := Step([], f);
        (if q' == [] then qs else [Queue(key, IPFRAGTTL, q')] + qs, r)
    case Some(k) =>
      assert qs[k] in qs;
      var (q', r) := Step(qs[k].frags, f);
      (if q' == [] then qs[..k] + qs[k + 1..] else qs[k := qs[k].(frags := q')], r)
  }

  /** ip_freef of the queue of a datagram, if there is one. */
  function Without(qs: seq<Queue>, key: Key): seq<Queue> {
    match Lookup(qs, key) case None => qs case Some(k) => qs[..k] + qs[k + 1..]
  }

  /** What ip_input does with a packet once it is classified, and what it hands up. */
  function Dispatch(qs: seq<Queue>, v: Verdict, gotMbuf: bool): (seq<Queue>, Option<(Key, Datagram)>)
    requires TableInv(qs) && (v.Piece? ==> WellFormed(v.f))
  {
    match v
    case Bad => (qs, None)
    case Whole(key, g) => (qs, Some((key, g)))
    case Stray(key, g) => (Without(qs, key), Some((key, g)))
    case Piece(key, f) =>
      var (qs', r) := TableStep(qs, key, f, gotMbuf);
      (qs', match r case None => None case Some(g) => Some((key, g)))
  }

  lemma {:induction false} LookupAppend(a: seq<Queue>, b: seq<Queue>, key: Key)
    ensures QueueOf(a + b, key) == if Lookup(a, key).Some? then QueueOf(a, key) else QueueOf(b, key)
    decreases |a|
  {
    if |a| == 0 {
      assert a + b == b;
    } else {
      LookupAppend(a[1..], b, key);
      assert (a + b)[1..] == a[1..] + b;
    }
  }

  lemma TableSplit(qs: seq<Queue>, k: nat, key: Key)
    requires k < |qs|
    ensures qs == qs[..k] + ([qs[k]] + qs[k + 1..])
    ensures QueueOf(qs, key) == if Lookup(qs[..k], key).Some? then QueueOf(qs[..k], key)
                                else if qs[k].key == key then Some(qs[k]) else QueueOf(qs[k + 1..], key)
  {
    assert qs == qs[..k] + ([qs[k]] + qs[k + 1..]);
    LookupAppend(qs[..k], [qs[k]] + qs[k + 1..], key);
    LookupAppend([qs[k]], qs[k + 1..], key);
  }

  lemma KeyOnlyAt(qs: seq<Queue>, k: nat)
    requires TableInv(qs) && k < |qs|
    ensures Lookup(qs[..k], qs[k].key).None? && Lookup(qs[k + 1..], qs[k].key).None?
  {
  }

  lemma PushQueue(qs: seq<Queue>, q: Queue, key: Key)
    requires TableInv(qs) && Lookup(qs, q.key).None? && QueueOk(q)
    ensures TableInv([q] + qs)
    ensures QueueOf([q] + qs, key) == if key == q.key then Some(q) else QueueOf(qs, key)
  {
    LookupAppend([q], qs, key);
  }

  lemma SetQueue(qs: seq<Queue>, k: nat, frags: seq<Frag>, key: Key)
    requires TableInv(qs) && k < |qs| && |frags| > 0 && AllWellFormed(frags)
    ensures var q, r := qs[k].(frags := frags), qs[k := qs[k].(frags := frags)];
      TableInv(r) && QueueOf(r, key) == if key == q.key then Some(q) else QueueOf(qs, key)
  {
    var r := qs[k := qs[k].(frags := frags)];
    assert qs[k] in qs;
    KeyOnlyAt(qs, k);
    TableSplit(qs, k, key);
    TableSplit(r, k, key);
    assert r[..k] == qs[..k] && r[k + 1..] == qs[k + 1..];
  }

  lemma RemoveQueue(qs: seq<Queue>, k: nat, key: Key)
    requires TableInv(qs) && k < |qs|
    ensures var r := qs[..k] + qs[k + 1..];
      TableInv(r) && QueueOf(r, key) == if key == qs[k].key then None else QueueOf(qs, key)
  {
    RemoveKeepsInv(qs, k);
    KeyOnlyAt(qs, k);
    TableSplit(qs, k, key);
    LookupAppend(qs[..k], qs[k + 1..], key);
  }

  lemma RemoveKeepsInv(qs: seq<Queue>, k: nat)
    requires TableInv(qs) && k < |qs|
    ensures TableInv(qs[..k] + qs[k + 1..])
  {
    var r := qs[..k] + qs[k + 1..];
    forall q | q in r ensures q in qs {}
    forall i, j | 0 <= i < j < |r| ensures r[i].key != r[j].key {
      assert r[i] == qs[if i < k then i else i + 1] && r[j] == qs[if j < k then j else j + 1];
    }
  }

  // ----- A datagram on its own -----

  predicate OptionOk(o: Option<Queue>) { o.Some? ==> QueueOk(o.value) }

  /** ip_reass as the queue of one datagram sees it; without a queue nothing happens unless m_get has an mbuf. */
  function Serve(o: Option<Queue>, key: Key, f: Frag, gotMbuf: bool): (Option<Queue>, Option<Datagram>)
    requires OptionOk(o) && WellFormed(f)
  {
    if o.None? && !gotMbuf then (None, None)
    else
      var (chain, r) := Step(if o.None? then [] else o.value.frags, f);
      (if chain == [] then None else Some(Queue(key, if o.None? then IPFRAGTTL else o.value.ttl, chain)), r)
  }

  /** The table step acts on the queue of its own key as ip_reass does alone, and on no other queue, whether or not
      there is an mbuf. */
  lemma TableStepLocal(qs: seq<Queue>, key: Key, f: Frag, gotMbuf: bool, other: Key)
    requires TableInv(qs) && WellFormed(f)
    ensures OptionOk(QueueOf(qs, key))
    ensures var r, s := TableStep(qs, key, f, gotMbuf), Serve(QueueOf(qs, key), key, f, gotMbuf);
      TableInv(r.0) && r.1 == s.1 && QueueOf(r.0, other) == if other == key then s.0 else QueueOf(qs, other)
  {
    match Lookup(qs, key)
    case None =>
      var q' := Step([], f).0;
      if gotMbuf && q' != [] { PushQueue(qs, Queue(key, IPFRAGTTL, q'), other); }
    case Some(k) =>
      assert qs[k] in qs;
      var q' := Step(qs[k].frags, f).0;
      if q' == [] { RemoveQueue(qs, k, other); } else { SetQueue(qs, k, q', other); }
  }

  /** A packet for the datagram of `key`, or not for it. */
  function Alone(o: Option<Queue>, key: Key, v: Verdict, gotMbuf: bool): (Option<Queue>, Option<Datagram>)
    requires OptionOk(o) && (v.Piece? ==> WellFormed(v.f))
  {
    if v.Bad? || v.key != key then (o, None)
    else
      match v
      case Whole(_, g) => (o, Some(g))
      case Stray(_, g) => (None, Some(g))
      case Piece(_, f) => Serve(o, key, f, gotMbuf)
  }

  function For(key: Key, r: Option<(Key, Datagram)>): Option<Datagram> {
    if r.Some? && r.value.0 == key then Some(r.value.1) else None
  }

  lemma WithoutLocal(qs: seq<Queue>, key: Key, other: Key)
    requires TableInv(qs)
    ensures TableInv(Without(qs, key)) &&
      QueueOf(Without(qs, key), other) == if other == key then None else QueueOf(qs, other)
  {
    match Lookup(qs, key)
    case None =>
    case Some(k) => RemoveQueue(qs, k, other);
  }

  lemma OptionKept(qs: seq<Queue>, key: Key)
    requires TableInv(qs)
    ensures OptionOk(QueueOf(qs, key))
  {
  }

  lemma DispatchLocal(qs: seq<Queue>, v: Verdict, gotMbuf: bool, key: Key)
    requires TableInv(qs) && (v.Piece? ==> WellFormed(v.f))
    ensures OptionOk(QueueOf(qs, key))
    ensures var r, s := Dispatch(qs, v, gotMbuf), Alone(QueueOf(qs, key), key, v, gotMbuf);
      TableInv(r.0) && For(key, r.1) == s.1 && QueueOf(r.0, key) == s.0
  {
    OptionKept(qs, key);
    match v
    case Bad =>
    case Whole(_, _) =>
    case Stray(k, _) => WithoutLocal(qs, k, key);
    case Piece(k, f) => TableStepLocal(qs, k, f, gotMbuf, key);
  }

  // ----- The timer -----

  /** The table n ticks later: a queue with t ticks to live is freed on tick t. */
  function Aged(qs: seq<Queue>, n: nat): seq<Queue> {
    if |qs| == 0 then []
    else AgedOne(qs[0], n) + Aged(qs[1..], n)
  }

  lemma {:induction false} AgedTwice(qs: seq<Queue>, a: nat, b: nat)
    ensures Aged(Aged(qs, a), b) == Aged(qs, a + b)
  {
    if |qs| > 0 {
      AgedTwice(qs[1..], a, b);
      var rest := Aged(qs[1..], a);
      if qs[0].ttl > a {
        assert ([qs[0].(ttl := qs[0].ttl - a)] + rest)[1..] == rest;
      } else {
        assert [] + rest == rest;
      }
    }
  }

  lemma {:induction false} AgedKeepsInv(qs: seq<Queue>, n: nat)
    requires TableInv(qs)
    ensures TableInv(Aged(qs, n))
    ensures forall q <- Aged(qs, n) :: exists p <- qs :: p.ttl > n && q == p.(ttl := p.ttl - n)
  {
    if |qs| > 0 {
      AgedKeepsInv(qs[1..], n);
      var r := Aged(qs, n);
      assert qs[0] in qs;
      forall q | q in r ensures exists p <- qs :: p.ttl > n && q == p.(ttl := p.ttl - n) {
        if q in Aged(qs[1..], n) {
          var p :| p in qs[1..] && p.ttl > n && q == p.(ttl := p.ttl - n);
          assert p in qs;
        }
      }
      forall q | q in Aged(qs[1..], n) ensures q.key != qs[0].key {
        var p :| p in qs[1..] && p.ttl > n && q == p.(ttl := p.ttl - n);
        var j :| 0 < j < |qs| && qs[j] == p;
      }
    }
  }

  /** No queue outlives IPFRAGTTL ticks. */
  lemma {:induction false} AllExpire(qs: seq<Queue>)
    requires TableInv(qs)
    ensures Aged(qs, IPFRAGTTL) == []
  {
    if |qs| > 0 {
      assert qs[0] in qs;
      AllExpire(qs[1..]);
    }
  }

  function AgedOne(q: Queue, n: nat): (r: seq<Queue>) { if q.ttl <= n then [] else [q.(ttl := q.ttl - n)] }

  lemma {:induction false} AgedAppend(a: seq<Queue>, q: Queue, n: nat)
    ensures Aged(a + [q], n) == Aged(a, n) + AgedOne(q, n)
  {
    if |a| == 0 {
      assert (a + [q])[1..] == [];
      Nil(AgedOne(q, n));
    } else {
      assert (a + [q])[1..] == a[1..] + [q];
      AgedAppend(a[1..], q, n);
      Assoc(AgedOne(a[0], n), Aged(a[1..], n), AgedOne(q, n));
    }
  }

  /** The loop of ip_slowtimo over the queues. */
  method Tick(queues: seq<Queue>) returns (kept: seq<Queue>)
    requires TableInv(queues)
    ensures kept == Aged(queues, 1)
  {
    kept := [];
    var fp := 0;
    while fp < |queues|
      invariant fp <= |queues| && kept == Aged(queues[..fp], 1)
    {
      assert queues[..fp + 1] == queues[..fp] + [queues[fp]];
      AgedAppend(queues[..fp], queues[fp], 1);
      assert queues[fp] in queues;
      var ttl := queues[fp].ttl - 1;
      if ttl != 0 {
        kept := kept + [queues[fp].(ttl := ttl)];
      }
      fp := fp + 1;
    }
    assert queues[..fp] == queues;
  }

  lemma QueueCons(q: Queue, qs: seq<Queue>, key: Key)
    ensures QueueOf([q] + qs, key) == if q.key == key then Some(q) else QueueOf(qs, key)
  {
    assert ([q] + qs)[1..] == qs;
  }

  lemma AgedCons(q: Queue, qs: seq<Queue>, n: nat, key: Key)
    ensures QueueOf(Aged([q] + qs, n), key) ==
      if q.key == key && q.ttl > n then Some(q.(ttl := q.ttl - n)) else QueueOf(Aged(qs, n), key)
  {
    assert ([q] + qs)[1..] == qs && [] + Aged(qs, n) == Aged(qs, n);
    if q.ttl > n { QueueCons(q.(ttl := q.ttl - n), Aged(qs, n), key); }
  }

  /** Keys of their own, one queue at a time. */
  predicate Apart(qs: seq<Queue>) {
    |qs| > 0 ==> QueueOf(qs[1..], qs[0].key).None? && Apart(qs[1..])
  }

  lemma {:induction false} TableApart(qs: seq<Queue>)
    requires TableInv(qs)
    ensures Apart(qs)
  {
    if |qs| > 0 { TableApart(qs[1..]); }
  }

  lemma {:induction false} AgedAbsent(qs: seq<Queue>, n: nat, key: Key)
    requires QueueOf(qs, key).None?
    ensures QueueOf(Aged(qs, n), key).None?
  {
    if |qs| > 0 {
      assert qs == [qs[0]] + qs[1..];
      QueueCons(qs[0], qs[1..], key);
      AgedCons(qs[0], qs[1..], n, key);
      AgedAbsent(qs[1..], n, key);
    }
  }

  function Older(o: Option<Queue>, n: nat): Option<Queue> {
    if o.Some? && o.value.ttl > n then Some(o.value.(ttl := o.value.ttl - n)) else None
  }

  /** A tick ages the queue of a datagram and no other. */
  lemma {:induction false} AgedLocal(qs: seq<Queue>, n: nat, key: Key)
    requires Apart(qs)
    ensures QueueOf(Aged(qs, n), key) == Older(QueueOf(qs, key), n)
  {
    if |qs| > 0 {
      assert qs == [qs[0]] + qs[1..];
      QueueCons(qs[0], qs[1..], key);
      AgedCons(qs[0], qs[1..], n, key);
      if qs[0].key == key { AgedAbsent(qs[1..], n, key); } else { AgedLocal(qs[1..], n, key); }
    }
  }

  // ----- What is dropped, and what the rest is taken for -----

  /** A packet that may go on: version 4, lengths that hold one another, a header that sums to zero, hops left. */
  predicate Sound(b: seq<byte>) {
    |b| >= MIN_HEADER && b[0] / 16 == 4 && b[8] > 1 &&
    var hlen, len := (b[0] as int % 16) * 4, Be16(b[2], b[3]);
    MIN_HEADER <= hlen <= len <= |b| && Cksum.RfcCksum(b[..hlen]) == 0
  }

  /** ip_input drops a packet, whatever is under reassembly, if and only if it is not sound; then nothing goes up and
      the table stays as it is. */
  lemma DroppedIff(qs: seq<Queue>, m: Mbuf, got: bool)
    requires TableInv(qs)
    ensures Classify(m).Bad? <==> !Sound(m.bytes)
    ensures !Sound(m.bytes) ==> React(qs, Arrival(m, got)) == (qs, None)
  {
    BadIff(m);
  }

  lemma BadIff(m: Mbuf)
    ensures Classify(m).Bad? <==> !Sound(m.bytes)
  {
  }

  /** What a sound packet is taken for: t is its mbuf cut to the length in the header, w its field of flags and offset. */
  lemma {:induction false} TakenAs(m: Mbuf, t: Mbuf, w: u16, hlen: nat, n: nat)
    requires Sound(m.bytes) && hlen == (m.bytes[0] as int % 16) * 4 && n == Be16(m.bytes[2], m.bytes[3])
    requires w == Be16(m.bytes[6], m.bytes[7]) && t == Adj(m, n - |m.bytes|)
    ensures var b := m.bytes;
      var key, g := Key(Be16(b[4], b[5]), b[12..16], b[16..20], b[9]), Datagram(|t.head|, hlen, n - hlen, t);
      Classify(m) ==
        if w % 0x4000 != 0 then
          Piece(key, Frag(|t.head|, hlen, w % 0x2000 * 8, n - hlen, w / 0x2000 % 2 == 1, Adj(t, hlen)))
        else if w < 0x8000 then Whole(key, g) else Stray(key, g)
  {
    FieldBits(w);
  }

  lemma FieldBits(w: u16)
    ensures w / 0x2000 % 2 == 1 || w % 0x2000 * 8 != 0 <==> w % 0x4000 != 0
    ensures w == 0 || w == 0x4000 <==> w % 0x4000 == 0 && w < 0x8000
  {
  }

  /** Bits 14 to 0 of the field of flags and offset are DF, MF and the offset. A sound packet is a fragment if MF or the
      offset is not 0; without these it is whole, unless the reserved bit is set. Options and bytes behind the length in
      the header are not part of its data. */
  lemma {:induction false} TakenFor(m: Mbuf)
    requires Sound(m.bytes)
    ensures var b, v := m.bytes, Classify(m);
      var w, hlen, len := Be16(b[6], b[7]), (b[0] as int % 16) * 4, Be16(b[2], b[3]);
      && !v.Bad? && v.key == Key(Be16(b[4], b[5]), b[12..16], b[16..20], b[9])
      && (v.Piece? <==> w % 0x4000 != 0) && (v.Stray? <==> w % 0x4000 == 0 && w >= 0x8000)
      && (v.Piece? ==> v.f.off == w % 0x2000 * 8 && (v.f.mff <==> w / 0x2000 % 2 == 1))
      && (v.Piece? ==> v.f.len == len - hlen && v.f.m.bytes == b[hlen..len])
      && (v.Whole? || v.Stray? ==> v.g.hl == hlen && v.g.len == len - hlen && v.g.m.bytes == b[..len])
  {
    var b := m.bytes;
    var hlen, n := (b[0] as int % 16) * 4, Be16(b[2], b[3]);
    TakenAs(m, Adj(m, n - |b|), Be16(b[6], b[7]), hlen, n);
    assert b[..n][hlen..] == b[hlen..n];
  }

  /** Bytes behind the length in the header are room in the mbuf, and nothing else. */
  lemma {:induction false} TrailIgnored(head: seq<byte>, b: seq<byte>, trail: seq<byte>, room: nat)
    requires |b| >= MIN_HEADER && (b[0] as int % 16) * 4 <= |b| && Be16(b[2], b[3]) <= |b|
    ensures Classify(Mbuf(head, b + trail, room)) == Classify(Mbuf(head, b, room + |trail|))
  {
    SameHeader(b, trail);
    SameSoundness(b, trail);
    var m, m' := Mbuf(head, b + trail, room), Mbuf(head, b, room + |trail|);
    if Sound(b) {
      var hlen, n := (b[0] as int % 16) * 4, Be16(b[2], b[3]);
      SameCut(head, b, trail, room, n);
      TakenAs(m, Adj(m', n - |b|), Be16(b[6], b[7]), hlen, n);
      TakenAs(m', Adj(m', n - |b|), Be16(b[6], b[7]), hlen, n);
    } else {
      BadIff(m);
      BadIff(m');
    }
  }

  lemma SameHeader(b: seq<byte>, trail: seq<byte>)
    requires |b| >= MIN_HEADER && (b[0] as int % 16) * 4 <= |b|
    ensures var hlen := (b[0] as int % 16) * 4; (b + trail)[..hlen] == b[..hlen]
    ensures (b + trail)[12..16] == b[12..16] && (b + trail)[16..20] == b[16..20]
    ensures forall i :: 0 <= i < MIN_HEADER ==> (b + trail)[i] == b[i]
  {
  }

  lemma {:induction false} SameSoundness(b: seq<byte>, trail: seq<byte>)
    requires |b| >= MIN_HEADER && (b[0] as int % 16) * 4 <= |b| && Be16(b[2], b[3]) <= |b|
    ensures Sound(b + trail) <==> Sound(b)
  {
    SameHeader(b, trail);
  }

  lemma SameCut(head: seq<byte>, b: seq<byte>, trail: seq<byte>, room: nat, n: nat)
    requires n <= |b|
    ensures Adj(Mbuf(head, b + trail, room), n - |b + trail|) == Adj(Mbuf(head, b, room + |trail|), n - |b|)
  {
    assert (b + trail)[..n] == b[..n];
    TailCut(Mbuf(head, b + trail, room), n);
    TailCut(Mbuf(head, b, room + |trail|), n);
  }

  lemma TailCut(m: Mbuf, n: nat)
    requires n <= |m.bytes|
    ensures Adj(m, n - |m.bytes|) == Mbuf(m.head, m.bytes[..n], m.room + |m.bytes| - n)
  {
    if n == |m.bytes| {
      assert m.head + m.bytes[..0] == m.head && m.bytes[0..] == m.bytes == m.bytes[..n];
    }
  }

  // ----- Runs -----

  /** A packet arrives, and m_get has an mbuf for a new queue or not; or ip_slowtimo runs. */
  datatype Event = Arrival(m: Mbuf, gotMbuf: bool) | Ticked

  function React(qs: seq<Queue>, e: Event): (r: (seq<Queue>, Option<(Key, Datagram)>))
    requires TableInv(qs)
    ensures TableInv(r.0)
  {
    match e
    case Arrival(m, got) =>
      var v := Classify(m);
      DispatchKeeps(qs, v, got);
      Dispatch(qs, v, got)
    case Ticked =>
      AgedKeepsInv(qs, 1);
      (Aged(qs, 1), None)
  }

  lemma DispatchKeeps(qs: seq<Queue>, v: Verdict, gotMbuf: bool)
    requires TableInv(qs) && (v.Piece? ==> WellFormed(v.f))
    ensures TableInv(Dispatch(qs, v, gotMbuf).0)
  {
    DispatchLocal(qs, v, gotMbuf, if v.Bad? then Key(0, [], [], 0) else v.key);
  }

  /** Any packets, good or bad, of any number of datagrams, mixed with ticks: the table, and what went up. */
  function Run(evs: seq<Event>): (r: (seq<Queue>, seq<(Key, Datagram)>))
    ensures TableInv(r.0)
  {
    if |evs| == 0 then ([], [])
    else
      var (qs, outs) := Run(evs[..|evs| - 1]);
      var (qs', r) := React(qs, evs[|evs| - 1]);
      (qs', outs + ToSeq(r))
  }

  function SoloStep(o: Option<Queue>, key: Key, e: Event): (r: (Option<Queue>, Option<Datagram>))
    requires OptionOk(o)
    ensures OptionOk(r.0)
  {
    match e
    case Arrival(m, got) =>
      AloneOk(o, key, Classify(m), got);
      Alone(o, key, Classify(m), got)
    case Ticked =>
      OlderOk(o, 1);
      (Older(o, 1), None)
  }

  lemma AloneOk(o: Option<Queue>, key: Key, v: Verdict, gotMbuf: bool)
    requires OptionOk(o) && (v.Piece? ==> WellFormed(v.f))
    ensures OptionOk(Alone(o, key, v, gotMbuf).0)
  {
  }

  lemma OlderOk(o: Option<Queue>, n: nat)
    requires OptionOk(o)
    ensures OptionOk(Older(o, n))
  {
  }

  /** One datagram on its own: packets of other datagrams do not exist for it. */
  function Solo(evs: seq<Event>, key: Key): (r: (Option<Queue>, seq<Datagram>))
    ensures OptionOk(r.0)
  {
    if |evs| == 0 then (None, [])
    else
      var (o, outs) := Solo(evs[..|evs| - 1], key);
      var (o', r) := SoloStep(o, key, evs[|evs| - 1]);
      (o', outs + ToSeq(r))
  }

  lemma ReactLocal(qs: seq<Queue>, e: Event, key: Key)
    requires TableInv(qs)
    ensures OptionOk(QueueOf(qs, key))
    ensures var r, s := React(qs, e), SoloStep(QueueOf(qs, key), key, e);
      QueueOf(r.0, key) == s.0 && For(key, r.1) == s.1
  {
    OptionKept(qs, key);
    match e
    case Arrival(m, got) => DispatchLocal(qs, Classify(m), got, key);
    case Ticked =>
      TableApart(qs);
      AgedLocal(qs, 1, key);
  }

  function OutsFor(outs: seq<(Key, Datagram)>, key: Key): seq<Datagram> {
    if |outs| == 0 then []
    else OutsFor(outs[..|outs| - 1], key) + ToSeq(For(key, Some(outs[|outs| - 1])))
  }

  lemma OutsForAppend(outs: seq<(Key, Datagram)>, r: Option<(Key, Datagram)>, key: Key)
    ensures OutsFor(outs + ToSeq(r), key) == OutsFor(outs, key) + ToSeq(For(key, r))
  {
    if r.None? {
      assert outs + ToSeq(r) == outs && OutsFor(outs, key) + [] == OutsFor(outs, key);
    } else {
      assert (outs + [r.value])[..|outs|] == outs;
    }
  }

  /** Datagrams do not interfere: in any mixture of packets, missing mbufs and ticks, each fares as if no other
      existed. */
  lemma {:induction false} RunProjects(evs: seq<Event>, key: Key)
    ensures QueueOf(Run(evs).0, key) == Solo(evs, key).0 && OutsFor(Run(evs).1, key) == Solo(evs, key).1
  {
    if |evs| > 0 {
      var init, e := evs[..|evs| - 1], evs[|evs| - 1];
      RunProjects(init, key);
      ReactLocal(Run(init).0, e, key);
      OutsForAppend(Run(init).1, React(Run(init).0, e).1, key);
    }
  }

  // ----- What a packet does to the table -----

  /** A sound packet that is no fragment goes up at once. It leaves the table alone, unless the reserved bit is set:
      then the queue of its key is freed, and no other one. */
  lemma WholeEffect(qs: seq<Queue>, m: Mbuf, got: bool, key: Key)
    requires TableInv(qs) && Sound(m.bytes) && Be16(m.bytes[6], m.bytes[7]) % 0x4000 == 0
    ensures var v, r := Classify(m), React(qs, Arrival(m, got));
      && (v.Whole? || v.Stray?) && r.1 == Some((v.key, v.g))
      && (Be16(m.bytes[6], m.bytes[7]) < 0x8000 ==> r.0 == qs)
      && (Be16(m.bytes[6], m.bytes[7]) >= 0x8000 ==>
            QueueOf(r.0, key) == if key == v.key then None else QueueOf(qs, key))
  {
    TakenFor(m);
    if Classify(m).Stray? { WithoutLocal(qs, Classify(m).key, key); }
  }

  /** A fragment without a queue is lost when there is no mbuf for one; with an mbuf it gets a queue of its own, unless
      it is the whole datagram. Its queue keeps its time to live; those of other datagrams are not touched. */
  lemma PieceEffect(qs: seq<Queue>, m: Mbuf, got: bool, key: Key)
    requires TableInv(qs) && Sound(m.bytes) && Be16(m.bytes[6], m.bytes[7]) % 0x4000 != 0
    ensures var v, r := Classify(m), React(qs, Arrival(m, got));
      && v.Piece? && (v.key != key ==> QueueOf(r.0, key) == QueueOf(qs, key))
      && (QueueOf(qs, v.key).None? && !got ==> r.1 == None && QueueOf(r.0, v.key).None?)
      && (var q := QueueOf(qs, v.key); var chain := if q.None? then [] else q.value.frags;
          AllWellFormed(chain) && WellFormed(v.f) && (q.Some? || got ==>
            (QueueOf(r.0, v.key) == if Step(chain, v.f).0 == [] then None
              else Some(Queue(v.key, if q.None? then 60 else q.value.ttl, Step(chain, v.f).0)))))
  {
    TakenFor(m);
    var v := Classify(m);
    OptionKept(qs, v.key);
    TableStepLocal(qs, v.key, v.f, got, key);
    TableStepLocal(qs, v.key, v.f, got, v.key);
  }

  // ----- How long a queue lives -----

  /** The ticks since the datagram last had no queue. */
  function Age(evs: seq<Event>, key: Key): (n: nat) {
    if |evs| == 0 || Solo(evs, key).0.None? then 0
    else Age(evs[..|evs| - 1], key) + (if evs[|evs| - 1].Ticked? then 1 else 0)
  }

  lemma SoloStepAge(o: Option<Queue>, key: Key, e: Event)
    requires OptionOk(o)
    ensures var r := SoloStep(o, key, e).0;
      && (r.Some? && o.Some? ==> r.value.ttl == o.value.ttl - (if e.Ticked? then 1 else 0))
      && (r.Some? && o.None? ==> r.value.ttl == IPFRAGTTL && !e.Ticked?)
      && (e.Ticked? ==> (r.None? <==> o.None? || o.value.ttl == 1))
  {
  }

  /** In every run: later fragments do not lengthen the life of a queue, which is freed on tick IPFRAGTTL. */
  lemma {:induction false} RunAges(evs: seq<Event>, key: Key)
    ensures var o := QueueOf(Run(evs).0, key); o.Some? ==> o.value.ttl + Age(evs, key) == IPFRAGTTL
    ensures QueueOf(Run(evs + [Ticked]).0, key).None? <==>
      QueueOf(Run(evs).0, key).None? || Age(evs, key) == IPFRAGTTL - 1
    decreases |evs|
  {
    RunProjects(evs, key);
    if |evs| > 0 {
      var init := evs[..|evs| - 1];
      RunAges(init, key);
      RunProjects(init, key);
      SoloStepAge(Solo(init, key).0, key, evs[|evs| - 1]);
    }
    RunProjects(evs + [Ticked], key);
    assert (evs + [Ticked])[..|evs|] == evs;
    SoloStepAge(Solo(evs, key).0, key, Ticked);
  }

  // ----- Runs in which nothing of a datagram is lost -----

  function PieceOf(key: Key, v: Verdict): seq<Frag> { if v.Piece? && v.key == key then [v.f] else [] }

  function FragOfEvent(key: Key): Event -> seq<Frag> {
    (e: Event) => if e.Ticked? then [] else PieceOf(key, Classify(e.m))
  }

  /** The fragments of a datagram, in the order in which they arrive. */
  function FragsFor(evs: seq<Event>, key: Key): (fs: seq<Frag>)
    ensures AllWellFormed(fs)
  {
    FragsWellFormed(evs, key);
    Collect(FragOfEvent(key), evs)
  }

  lemma {:induction false} FragsWellFormed(evs: seq<Event>, key: Key)
    ensures AllWellFormed(Collect(FragOfEvent(key), evs))
  {
    if |evs| > 0 { FragsWellFormed(evs[..|evs| - 1], key); }
  }

  /** The ticks since the first fragment of the datagram arrived. */
  function TicksSince(evs: seq<Event>, key: Key): nat {
    if |evs| == 0 then 0
    else
      var init := evs[..|evs| - 1];
      TicksSince(init, key) + (if evs[|evs| - 1].Ticked? && FragsFor(init, key) != [] then 1 else 0)
  }

  /** e is not a whole or stray packet under the key, nor a fragment of it without an mbuf. */
  predicate Plain(key: Key, e: Event) {
    e.Ticked? ||
    match Classify(e.m)
    case Bad => true
    case Whole(k, _) => k != key
    case Stray(k, _) => k != key
    case Piece(k, _) => k == key ==> e.gotMbuf
  }

  function ChainIn(o: Option<Queue>): seq<Frag> { match o case None => [] case Some(q) => q.frags }

  /** A plain packet, seen from the chain. */
  lemma AloneFeeds(o: Option<Queue>, key: Key, v: Verdict, gotMbuf: bool, fs: seq<Frag>,
                   outs: seq<Datagram>)
    requires OptionOk(o) && AllWellFormed(fs) && (ChainIn(o), outs) == Feed(fs)
    requires v.Piece? ==> WellFormed(v.f) && (v.key == key ==> gotMbuf)
    requires v.Whole? || v.Stray? ==> v.key != key
    ensures var r, p := Alone(o, key, v, gotMbuf), PieceOf(key, v);
      && AllWellFormed(fs + p) && (ChainIn(r.0), outs + ToSeq(r.1)) == Feed(fs + p)
      && (r.0.Some? ==> r.0.value.ttl == if o.Some? then o.value.ttl else IPFRAGTTL) &&
        (r.0.Some? ==> o.Some? || p != [])
  {
    if v.Piece? && v.key == key {
      FeedAppend(fs, v.f);
    } else {
      assert outs + [] == outs && fs + [] == fs;
    }
  }

  /** A tick that comes too early to free the queue. */
  lemma TickFeeds(o: Option<Queue>, fs: seq<Frag>)
    requires OptionOk(o) && AllWellFormed(fs) && ChainIn(o) == Feed(fs).0 && (o.Some? ==> o.value.ttl > 1)
    ensures ChainIn(Older(o, 1)) == Feed(fs).0 &&
      (o.Some? ==> fs != [] && Older(o, 1).Some? && Older(o, 1).value.ttl == o.value.ttl - 1)
  {
    assert Feed([]) == ([], []);
  }

  /** As long as fewer than IPFRAGTTL ticks pass and mbufs last, the timer and the table are as nothing: the datagram
      is reassembled from its fragments in the order in which they arrive. */
  lemma {:induction false} SoloFeeds(evs: seq<Event>, key: Key)
    requires AllPlain(key, evs) && TicksSince(evs, key) < IPFRAGTTL
    ensures Feeds(evs, key)
    decreases |evs|
  {
    if |evs| == 0 {
      FeedsNone(evs, key);
    } else {
      var init, e := evs[..|evs| - 1], evs[|evs| - 1];
      assert evs == init + [e];
      PlainInit(key, evs, init, e);
      SoloFeeds(init, key);
      SoloFeedsNext(evs, init, e, key);
    }
  }

  lemma {:induction false} SoloFeedsNext(evs: seq<Event>, init: seq<Event>, e: Event, key: Key)
    requires evs == init + [e] && Plain(key, e) && TicksSince(evs, key) < IPFRAGTTL && Feeds(init, key)
    ensures Feeds(evs, key)
  {
    SoloFeedsOne(init, e, key);
  }

  lemma {:induction false} FeedsNone(evs: seq<Event>, key: Key)
    requires |evs| == 0
    ensures Feeds(evs, key)
  {
    assert Feed([]) == ([], []);
  }

  predicate AllPlain(key: Key, evs: seq<Event>) { forall e <- evs :: Plain(key, e) }

  lemma {:induction false} PlainInit(key: Key, all: seq<Event>, evs: seq<Event>, e: Event)
    requires all == evs + [e] && AllPlain(key, all)
    ensures AllPlain(key, evs) && Plain(key, e) && TicksSince(evs, key) <= TicksSince(all, key)
  {
    SoloAppend(evs, e, key);
    assert e in evs + [e];
    forall x | x in evs ensures x in evs + [e] {}
  }

  /** The datagram is where its fragments alone would have brought it, with time left. */
  predicate Feeds(evs: seq<Event>, key: Key) {
    var o := Solo(evs, key).0;
    && (ChainIn(o), Solo(evs, key).1) == Feed(FragsFor(evs, key))
    && (o.Some? ==> o.value.ttl >= IPFRAGTTL - TicksSince(evs, key))
  }

  lemma SoloAppend(evs: seq<Event>, e: Event, key: Key)
    ensures var r, s := Solo(evs, key), SoloStep(Solo(evs, key).0, key, e);
      Solo(evs + [e], key) == (s.0, r.1 + ToSeq(s.1))
    ensures FragsFor(evs + [e], key) == FragsFor(evs, key) + (if e.Ticked? then [] else PieceOf(key, Classify(e.m)))
    ensures TicksSince(evs + [e], key) ==
      TicksSince(evs, key) + (if e.Ticked? && FragsFor(evs, key) != [] then 1 else 0)
  {
    CollectAppend(FragOfEvent(key), evs, e);
    assert (evs + [e])[..|evs|] == evs;
  }

  lemma SoloFeedsOne(evs: seq<Event>, e: Event, key: Key)
    requires Plain(key, e) && TicksSince(evs + [e], key) < IPFRAGTTL && Feeds(evs, key)
    ensures Feeds(evs + [e], key)
  {
    var fs := FragsFor(evs, key);
    var (o, outs) := Solo(evs, key);
    SoloAppend(evs, e, key);
    match e
    case Arrival(m, got) => AloneFeeds(o, key, Classify(m), got, fs, outs);
    case Ticked =>
      assert fs + [] == fs && outs + [] == outs && Feed([]) == ([], []);
      TickFeeds(o, fs);
  }

  // ----- The table in place -----

  class FragTable {
    var queues: seq<Queue>

    ghost predicate Valid()
      reads this
    {
      TableInv(queues)
    }

    constructor ()
      ensures Valid() && queues == []
    {
      queues := [];
    }

    /** The walk along ipq for the queue of a datagram. */
    method FindQueue(key: Key) returns (k: Option<nat>)
      ensures k == Lookup(queues, key)
    {
      var i := 0;
      while i < |queues|
        invariant i <= |queues|
        invariant Lookup(queues, key) == match Lookup(queues[i..], key) case None => None case Some(j) => Some(i + j)
      {
        if queues[i].key == key {
          return Some(i);
        }
        i := i + 1;
      }
      k := None;
    }

    /** ip_reass. */
    method Reassemble(key: Key, f: Frag, gotMbuf: bool) returns (r: Option<Datagram>)
      requires Valid() && WellFormed(f)
      modifies this
      ensures Valid() && (queues, r) == TableStep(old(queues), key, f, gotMbuf)
    {
      TableStepLocal(queues, key, f, gotMbuf, key);
      var fp := FindQueue(key);
      var chain;
      match fp
      case None =>
        if !gotMbuf {
          return None;
        }
        chain, r := Reass([], f);
        if chain != [] {
          queues := [Queue(key, IPFRAGTTL, chain)] + queues;   // insque
        }
      case Some(k) =>
        assert queues[k] in queues;
        chain, r := Reass(queues[k].frags, f);
        if chain == [] {
          queues := queues[..k] + queues[k + 1..];   // remque
        } else {
          queues := queues[k := queues[k].(frags := chain)];
        }
    }

    /** ip_input: the table afterwards, and what goes up to the protocols. */
    method Input(m: Mbuf, gotMbuf: bool) returns (r: Option<(Key, Datagram)>)
      requires Valid()
      modifies this
      ensures Valid() && (queues, r) == React(old(queues), Arrival(m, gotMbuf))
    {
      var v := Classify(m);
      DispatchKeeps(queues, v, gotMbuf);
      match v
      case Bad =>
        r := None;
      case Whole(key, g) =>
        r := Some((key, g));
      case Stray(key, g) =>
        var fp := FindQueue(key);
        if fp.Some? {
          queues := queues[..fp.value] + queues[fp.value + 1..];   // ip_freef
        }
        r := Some((key, g));
      case Piece(key, f) =>
        var g := Reassemble(key, f, gotMbuf);
        r := match g case None => None case Some(g) => Some((key, g));
    }

    /** ip_slowtimo: one tick of every queue; those that reach zero are freed. */
    method SlowTimo()
      requires Valid()
      modifies this
      ensures Valid() && queues == React(old(queues), Ticked).0
    {
      AgedKeepsInv(queues, 1);
      queues := Tick(queues);
    }
  }
}
