/** slirp/if.c: the two-class packet scheduler. Each queue is a list of lists of packets, one list per
    session; the fast queue is served first, the batch queue round-robin through the cursor next_m. */
module IfQueue {
  import opened Bytes

  /** struct socket *, where NoSocket is NULL. */
  datatype Session = NoSocket | Socket(id: nat)

  /** An mbuf on an output queue. */
  datatype Packet = Packet(id: nat, so: Session)

  /** The packets of one session on one queue. */
  type List = seq<Packet>

  /** so_queued and so_nqueued of a socket. */
  datatype Counters = Counters(queued: int, nqueued: int)

  /** `next` is next_m: None is the head of the batch queue, Some(p) the list that starts with p. */
  datatype State = State(fastq: seq<List>, batchq: seq<List>, next: Option<Packet>,
                         queued: int, socks: map<nat, Counters>)

  const Init := State([], [], None, 0, map[])   // if_init

  function CountersOf(s: State, so: Session): Counters {
    if so.Socket? && so.id in s.socks then s.socks[so.id] else Counters(0, 0)
  }

  function SetCounters(s: State, so: Session, c: Counters): State {
    if so.Socket? then s.(socks := s.socks[so.id := c]) else s
  }

  // ----- if_output -----

  /** The batch list of a session, searched from the tail of the queue. */
  function FindBatch(ls: seq<List>, so: Session): (k: Option<nat>)
    requires forall l: List <- ls :: |l| > 0
    ensures k.Some? ==> k.value < |ls| && ls[k.value][0].so == so
    ensures k.None? ==> so !in Sessions(ls)
  {
    if |ls| == 0 then None
    else
      assert ls[|ls| - 1] in ls;
      SessionsAppend(ls[..|ls| - 1], [ls[|ls| - 1]]);
      assert ls == ls[..|ls| - 1] + [ls[|ls| - 1]];
      if ls[|ls| - 1][0].so == so then Some(|ls| - 1) else FindBatch(ls[..|ls| - 1], so)
  }

  /** Counters after one more packet of the session has been queued. */
  function Bump(c: Counters): Counters { Counters(c.queued + 1, c.nqueued + 1) }

  /** A session is downgraded when it has queued 6 packets without pausing and 3 of them are gone. */
  predicate Greedy(c: Counters) { c.nqueued >= 6 && c.nqueued - c.queued >= 3 }

  /** The queues after a packet of a session has been placed: with the batch list of its session if there is
      one; else, for interactive traffic, with the last fast list if that is its session's; else in a new list.
      The list of a greedy session then moves to the front of the batch queue. */
  function Place(fastq: seq<List>, batchq: seq<List>, p: Packet, low: bool, greedy: bool): (seq<List>, seq<List>)
    requires (forall l: List <- fastq :: |l| > 0) && (forall l: List <- batchq :: |l| > 0)
  {
    var so, n := p.so, |fastq|;
    match FindBatch(batchq, so)
    case Some(k) =>
      var l, a, b := batchq[k] + [p], batchq[..k], batchq[k + 1..];
      (fastq, if greedy then [l] + (a + b) else a + [l] + b)
    case None =>
      if so.Socket? && low then
        var join := n > 0 && SoOf(fastq[n - 1]) == so;
        var a := if join then fastq[..n - 1] else fastq;
        var l := if join then fastq[n - 1] + [p] else [p];
        if greedy then (a, [l] + batchq) else (a + [l], batchq)
      else
        (fastq, if greedy then [[p]] + batchq else batchq + [[p]])
  }

  /** if_output up to the call of if_start. */
  function Enqueue(s: State, low: bool, p: Packet): State
    requires (forall l: List <- s.fastq :: |l| > 0) && (forall l: List <- s.batchq :: |l| > 0)
  {
    var c := Bump(CountersOf(s, p.so));
    var q := Place(s.fastq, s.batchq, p, low, p.so.Socket? && Greedy(c));
    SetCounters(s.(queued := s.queued + 1, fastq := q.0, batchq := q.1), p.so, c)
  }

  // ----- if_start -----

  /** Which batch list next_m designates; 0 when next_m is the head of the queue. */
  function Cursor(ls: seq<List>, next: Option<Packet>): (k: nat)
    requires forall l: List <- ls :: |l| > 0
    ensures k <= |ls|
  {
    if next.None? || |ls| == 0 then 0
    else
      assert ls[0] in ls;
      if ls[0][0] == next.value then 0 else 1 + Cursor(ls[1..], next)
  }

  /** What is left of a session's list after its first packet has gone. */
  function Rest(l: seq<Packet>): seq<List>
    requires |l| > 0
  {
    if |l| > 1 then [l[1..]] else []
  }

  /** so_queued drops by one; when it reaches zero so_nqueued starts again. */
  function Drop(c: Counters): Counters { Counters(c.queued - 1, if c.queued - 1 == 0 then 0 else c.nqueued) }

  predicate Shape(s: State) {
    && (forall l: List <- s.fastq :: |l| > 0) && (forall l: List <- s.batchq :: |l| > 0)
    && (s.fastq == [] ==> |s.batchq| > 0 && Cursor(s.batchq, s.next) < |s.batchq|)
  }

  /** The packet that if_start sends next. */
  function Chosen(s: State): Packet
    requires Shape(s)
  {
    if |s.fastq| > 0 then assert s.fastq[0] in s.fastq; s.fastq[0][0]
    else
      var k := Cursor(s.batchq, s.next);
      assert s.batchq[k] in s.batchq; s.batchq[k][0]
  }

  /** One pass of the if_start loop. */
  function SendOne(s: State): State
    requires Shape(s)
  {
    var so := Chosen(s).so;
    var s1 := SetCounters(s.(queued := s.queued - 1), so, Drop(CountersOf(s, so)));
    if |s.fastq| > 0 then
      assert s.fastq[0] in s.fastq;
      s1.(fastq := Rest(s.fastq[0]) + s.fastq[1..])
    else
      var k := Cursor(s.batchq, s.next);
      assert s.batchq[k] in s.batchq;
      assert k + 1 < |s.batchq| ==> s.batchq[k + 1] in s.batchq;
      var next := if k + 1 < |s.batchq| then Some(s.batchq[k + 1][0]) else None;
      s1.(batchq := s.batchq[..k] + Rest(s.batchq[k]) + s.batchq[k + 1..], next := next)
  }

  // ----- The invariant -----

  predicate Uniform(l: seq<Packet>) { |l| > 0 && forall p <- l :: p.so == l[0].so }

  predicate AllUniform(ls: seq<List>) { forall l: List <- ls :: Uniform(l) }

  function SoOf(l: List): Session { if |l| == 0 then NoSocket else l[0].so }

  /** The sessions that have a list on a queue. */
  function Sessions(ls: seq<List>): set<Session> { set l: List <- ls :: SoOf(l) }

  /** No session has two lists. */
  predicate OnePerSession(ls: seq<List>) {
    |ls| == 0 || (SoOf(ls[0]) !in Sessions(ls[1..]) && OnePerSession(ls[1..]))
  }

  /** The first packets of the lists: what next_m may point to. */
  function Heads(ls: seq<List>): set<Packet> { set l: List <- ls | |l| > 0 :: l[0] }

  function Flat(ls: seq<List>): seq<Packet> {
    if |ls| == 0 then [] else ls[0] + Flat(ls[1..])
  }

  /** The packets of one session, in order. */
  function Only(ps: seq<Packet>, so: Session): seq<Packet> { Collect(Of(so), ps) }

  function Of(so: Session): Packet -> seq<Packet> { (p: Packet) => Tail(p, so) }

  function Tail(p: Packet, so: Session): seq<Packet> { if p.so == so then [p] else [] }

  /** The packets a session has on a queue: its lists, one after the other. */
  function Sess(ls: seq<List>, so: Session): seq<Packet> {
    if |ls| == 0 then [] else Part(ls[0], so) + Sess(ls[1..], so)
  }

  function Part(l: List, so: Session): List { if SoOf(l) == so then l else [] }

  /** The queued packets of a session in the order in which they will leave. */
  function Pending(s: State, so: Session): seq<Packet> { Sess(s.fastq, so) + Sess(s.batchq, so) }

  /** next_m is the head of the batch queue or the first packet of a list on it. */
  predicate CursorOk(ls: seq<List>, next: Option<Packet>) {
    next.None? || next.value in Heads(ls)
  }

  ghost predicate CountsOk(s: State) {
    && s.queued == |Flat(s.fastq)| + |Flat(s.batchq)|
    && forall so: Session :: so.Socket? ==>
         CountersOf(s, so).queued == |Pending(s, so)| <= CountersOf(s, so).nqueued
  }

  ghost predicate Inv(s: State) {
    AllUniform(s.fastq) && AllUniform(s.batchq) && OnePerSession(s.batchq) && CursorOk(s.batchq, s.next) && CountsOk(s)
  }

  // ----- Lists of lists -----

  lemma {:induction false} FlatAppend(a: seq<List>, b: seq<List>)
    ensures Flat(a + b) == Flat(a) + Flat(b)
  {
    if |a| == 0 {
      Nil(b);
      Nil(Flat(b));
    } else {
      FlatAppend(a[1..], b);
      assert (a + b)[1..] == a[1..] + b;
      Assoc(a[0], Flat(a[1..]), Flat(b));
    }
  }

  lemma {:induction false} SessAppend(a: seq<List>, b: seq<List>, so: Session)
    ensures Sess(a + b, so) == Sess(a, so) + Sess(b, so)
  {
    if |a| == 0 {
      Nil(b);
      Nil(Sess(b, so));
    } else {
      SessAppend(a[1..], b, so);
      assert (a + b)[1..] == a[1..] + b;
      Assoc(Part(a[0], so), Sess(a[1..], so), Sess(b, so));
    }
  }

  lemma One(l: List, so: Session)
    ensures Flat([l]) == l && Sess([l], so) == Part(l, so)
  {
    assert [l][1..] == [];
  }

  lemma {:induction false} SessAbsent(ls: seq<List>, so: Session)
    requires so !in Sessions(ls)
    ensures Sess(ls, so) == []
  {
    if |ls| > 0 {
      assert ls[0] in ls;
      assert ls == [ls[0]] + ls[1..];
      SessionsAppend([ls[0]], ls[1..]);
      SessAbsent(ls[1..], so);
    }
  }

  /** Splitting a queue around one list. */
  lemma SessAround(a: seq<List>, l: List, b: seq<List>, so: Session)
    ensures Sess(a + [l] + b, so) == Sess(a, so) + Part(l, so) + Sess(b, so)
    ensures |Flat(a + [l] + b)| == |Flat(a)| + |l| + |Flat(b)|
  {
    SessAppend(a + [l], b, so);
    SessAppend(a, [l], so);
    One(l, so);
    FlatAppend(a + [l], b);
    FlatAppend(a, [l]);
  }

  lemma SessionsAppend(a: seq<List>, b: seq<List>)
    ensures Sessions(a + b) == Sessions(a) + Sessions(b) && Heads(a + b) == Heads(a) + Heads(b)
    ensures AllUniform(a + b) <==> AllUniform(a) && AllUniform(b)
  {
    forall l: List ensures l in a + b <==> l in a || l in b {}
    forall x | x in Sessions(a) + Sessions(b) ensures x in Sessions(a + b) {
      var l: List :| (l in a || l in b) && SoOf(l) == x;
      assert l in a + b;
    }
    forall x | x in Heads(a) + Heads(b) ensures x in Heads(a + b) {
      var l: List :| (l in a || l in b) && |l| > 0 && l[0] == x;
      assert l in a + b;
    }
    if AllUniform(a + b) {
      forall l: List | l in a || l in b ensures Uniform(l) { assert l in a + b; }
    }
  }

  lemma SessionsOne(l: List)
    ensures Sessions([l]) == {SoOf(l)} && OnePerSession([l]) && Heads([l]) == if |l| > 0 then {l[0]} else {}
    ensures AllUniform([l]) <==> Uniform(l)
  {
    assert l in [l] && [l][1..] == [];
  }

  lemma {:induction false} OneAppend(a: seq<List>, b: seq<List>)
    ensures OnePerSession(a + b) <==> OnePerSession(a) && OnePerSession(b) && Sessions(a) !! Sessions(b)
  {
    if |a| == 0 {
      assert a + b == b;
    } else {
      var l, t := a[0], a[1..];
      OneAppend(t, b);
      SessionsAppend(t, b);
      SessionsAppend([l], t);
      SessionsOne(l);
      assert a == [l] + t && (a + b)[1..] == t + b;
    }
  }

  /** Sessions, heads and one-list-per-session of a queue, around one of its lists. */
  lemma OneAround(a: seq<List>, l: List, b: seq<List>)
    ensures Sessions(a + [l] + b) == Sessions(a) + {SoOf(l)} + Sessions(b)
    ensures Heads(a + [l] + b) == Heads(a) + Heads([l]) + Heads(b)
    ensures AllUniform(a + [l] + b) <==> AllUniform(a) && Uniform(l) && AllUniform(b)
    ensures OnePerSession(a + [l] + b) <==>
      OnePerSession(a) && OnePerSession(b) && Sessions(a) !! Sessions(b) && SoOf(l) !in Sessions(a) + Sessions(b)
  {
    SessionsAppend(a + [l], b);
    SessionsAppend(a, [l]);
    SessionsOne(l);
    OneAppend(a + [l], b);
    OneAppend(a, [l]);
  }

  /** The same with the list moved to the front of its queue. */
  lemma OneFront(a: seq<List>, l: List, b: seq<List>)
    ensures Sessions([l] + (a + b)) == Sessions(a) + {SoOf(l)} + Sessions(b)
    ensures Heads([l] + (a + b)) == Heads(a) + Heads([l]) + Heads(b)
    ensures AllUniform([l] + (a + b)) <==> AllUniform(a) && Uniform(l) && AllUniform(b)
    ensures OnePerSession([l] + (a + b)) <==> OnePerSession(a + [l] + b)
  {
    SessionsAppend([l], a + b);
    SessionsAppend(a, b);
    SessionsOne(l);
    OneAppend([l], a + b);
    OneAppend(a, b);
    OneAround(a, l, b);
  }

  lemma FlatFront(a: seq<List>, l: List, b: seq<List>)
    ensures |Flat([l] + (a + b))| == |Flat(a)| + |l| + |Flat(b)|
  {
    FlatAppend([l], a + b);
    FlatAppend(a, b);
    One(l, NoSocket);
  }

  /** A list whose session occurs nowhere before it can as well stand at the front. */
  lemma SessFront(a: seq<List>, l: List, b: seq<List>, so: Session)
    requires SoOf(l) !in Sessions(a)
    ensures Sess([l] + (a + b), so) == Sess(a + [l] + b, so)
  {
    SessAround(a, l, b, so);
    SessAppend([l], a + b, so);
    SessAppend(a, b, so);
    One(l, so);
    Nil(Part(l, so));
    Nil(Sess(b, so));
    Nil(Sess(a, so));
    Nil(Sess(a, so) + Sess(b, so));
    if so == SoOf(l) { SessAbsent(a, so); }
  }

  // ----- if_output keeps the order of every session -----

  lemma PartGrows(m: List, p: Packet, so: Session)
    requires Uniform(m) && SoOf(m) == p.so
    ensures Uniform(m + [p]) && SoOf(m + [p]) == p.so && Part(m + [p], so) == Part(m, so) + Tail(p, so)
  {
  }

  /** A packet joins the last list of its session. */
  lemma JoinSess(a: seq<List>, m: List, b: seq<List>, p: Packet, so: Session)
    requires Uniform(m) && SoOf(m) == p.so && p.so !in Sessions(b)
    ensures Sess(a + [m + [p]] + b, so) == Sess(a + [m] + b, so) + Tail(p, so)
    ensures |Flat(a + [m + [p]] + b)| == |Flat(a + [m] + b)| + 1
  {
    SessAround(a, m, b, so);
    SessAround(a, m + [p], b, so);
    PartGrows(m, p, so);
    var x, y, z := Sess(a, so), Part(m, so), Sess(b, so);
    Assoc(x, y, Tail(p, so));
    if so == p.so { SessAbsent(b, so); }
    Nil(x + y);
    Nil(x + y + Tail(p, so));
    Nil(x + y + z);
  }

  /** The batch queue part of the invariant. */
  predicate Batch(ls: seq<List>) { AllUniform(ls) && OnePerSession(ls) }

  /** A packet joins the batch list of its session, which may then move to the front. */
  lemma JoinBatch(a: seq<List>, m: List, b: seq<List>, p: Packet, front: bool, so: Session)
    requires Batch(a + [m] + b) && SoOf(m) == p.so
    ensures var l := m + [p]; var r := if front then [l] + (a + b) else a + [l] + b;
      Batch(r) && Heads(r) == Heads(a + [m] + b)
      && Sess(r, so) == Sess(a + [m] + b, so) + Tail(p, so) && |Flat(r)| == |Flat(a + [m] + b)| + 1
  {
    var l := m + [p];
    assert m in a + [m] + b;
    PartGrows(m, p, so);
    OneAround(a, m, b);
    OneAround(a, l, b);
    OneFront(a, l, b);
    SessionsOne(l);
    SessionsOne(m);
    JoinSess(a, m, b, p, so);
    SessFront(a, l, b, so);
    FlatFront(a, l, b);
    SessAround(a, l, b, so);
  }

  /** A new list for a session that has none on the batch queue. */
  lemma AddList(ls: seq<List>, l: List, front: bool, so: Session)
    requires Batch(ls) && Uniform(l) && SoOf(l) !in Sessions(ls)
    ensures var r := if front then [l] + ls else ls + [l];
      Batch(r) && Heads(ls) <= Heads(r)
      && Sess(r, so) == Sess(ls, so) + Part(l, so) && |Flat(r)| == |Flat(ls)| + |l|
  {
    OneAround(ls, l, []);
    OneFront(ls, l, []);
    SessAround(ls, l, [], so);
    SessFront(ls, l, [], so);
    FlatFront(ls, l, []);
    Nil(ls);
    Nil(ls + [l]);
    Nil(Sess(ls, so) + Part(l, so));
  }

  /** The fast queue as if_output splits it: the list the packet goes to, and what stands before it. */
  lemma FastSplit(a: seq<List>, m: List, p: Packet, so: Session)
    requires AllUniform(a + [m]) && SoOf(m) == p.so
    ensures AllUniform(a) && Uniform(m + [p]) && SoOf(m + [p]) == p.so && |Flat(a)| + |m + [p]| == |Flat(a + [m])| + 1
    ensures Sess(a, so) + Part(m + [p], so) == Sess(a + [m], so) + Tail(p, so)
  {
    SessionsAppend(a, [m]);
    SessionsOne(m);
    SessAppend(a, [m], so);
    One(m, so);
    FlatAppend(a, [m]);
    PartGrows(m, p, so);
    Assoc(Sess(a, so), Part(m, so), Tail(p, so));
  }

  /** What one call of if_output does to the queues. */
  ghost predicate Grown(s: State, s': State, p: Packet, so: Session) {
    && AllUniform(s'.fastq) && Batch(s'.batchq) && Heads(s.batchq) <= Heads(s'.batchq) && s'.next == s.next
    && Pending(s', so) == Pending(s, so) + Tail(p, so)
    && |Flat(s'.fastq)| + |Flat(s'.batchq)| == |Flat(s.fastq)| + |Flat(s.batchq)| + 1
  }

  /** The packet's list ends the fast queue, or has just been downgraded to the front of the batch queue. */
  lemma FastGrown(s: State, s': State, a: seq<List>, l: List, p: Packet, down: bool, so: Session)
    requires AllUniform(a) && Batch(s.batchq) && Uniform(l) && SoOf(l) == p.so && p.so !in Sessions(s.batchq)
    requires Sess(a, so) + Part(l, so) == Sess(s.fastq, so) + Tail(p, so)
    requires |Flat(a)| + |l| == |Flat(s.fastq)| + 1 && s'.next == s.next
    requires if down then s'.fastq == a && s'.batchq == [l] + s.batchq else s'.fastq == a + [l] && s'.batchq == s.batchq
    ensures Grown(s, s', p, so)
  {
    var x, y, z := Sess(a, so), Part(l, so), Sess(s.batchq, so);
    if so == p.so { SessAbsent(s.batchq, so); }
    Nil(x);
    Nil(y);
    Nil(z);
    Nil(x + y);
    Nil(x + z);
    Nil(Sess(s.fastq, so));
    if down {
      AddList(s.batchq, l, true, so);
    } else {
      SessionsAppend(a, [l]);
      SessionsOne(l);
      SessAppend(a, [l], so);
      One(l, so);
      FlatAppend(a, [l]);
    }
  }

  lemma EnqueueFast(s: State, p: Packet, so: Session)
    requires AllUniform(s.fastq) && Batch(s.batchq) && p.so.Socket? && FindBatch(s.batchq, p.so).None?
    ensures Grown(s, Enqueue(s, true, p), p, so)
  {
    var n, s' := |s.fastq|, Enqueue(s, true, p);
    var down := Greedy(Bump(CountersOf(s, p.so)));
    if n > 0 && SoOf(s.fastq[n - 1]) == p.so {
      var a, m := s.fastq[..n - 1], s.fastq[n - 1];
      assert s.fastq == a + [m];
      FastSplit(a, m, p, so);
      FastGrown(s, s', a, m + [p], p, down, so);
    } else {
      assert Part([p], so) == Tail(p, so);
      FastGrown(s, s', s.fastq, [p], p, down, so);
    }
  }

  /** if_output appends its packet to what its session has queued, and touches no other session. */
  lemma EnqueueGrown(s: State, low: bool, p: Packet, so: Session)
    requires AllUniform(s.fastq) && Batch(s.batchq)
    ensures Grown(s, Enqueue(s, low, p), p, so)
  {
    var down := p.so.Socket? && Greedy(Bump(CountersOf(s, p.so)));
    match FindBatch(s.batchq, p.so)
    case Some(k) =>
      var a, m, b := s.batchq[..k], s.batchq[k], s.batchq[k + 1..];
      assert s.batchq == a + [m] + b;
      JoinBatch(a, m, b, p, down, so);
      Assoc(Sess(s.fastq, so), Sess(s.batchq, so), Tail(p, so));
    case None =>
      if p.so.Socket? && low {
        EnqueueFast(s, p, so);
      } else {
        assert Part([p], so) == Tail(p, so);
        AddList(s.batchq, [p], down, so);
        Assoc(Sess(s.fastq, so), Sess(s.batchq, so), Tail(p, so));
      }
  }

  lemma EnqueueCounters(s: State, low: bool, p: Packet, so: Session)
    requires AllUniform(s.fastq) && AllUniform(s.batchq) && so.Socket?
    ensures var s' := Enqueue(s, low, p);
      s'.queued == s.queued + 1 &&
        CountersOf(s', so) == if so == p.so then Bump(CountersOf(s, so)) else CountersOf(s, so)
  {
  }

  lemma EnqueueInv(s: State, low: bool, p: Packet)
    requires Inv(s)
    ensures Inv(Enqueue(s, low, p))
  {
    var s' := Enqueue(s, low, p);
    EnqueueGrown(s, low, p, NoSocket);
    EnqueueCounters(s, low, p, Socket(0));
    forall so: Session | so.Socket?
      ensures CountersOf(s', so).queued == |Pending(s', so)| <= CountersOf(s', so).nqueued
    {
      EnqueueGrown(s, low, p, so);
      EnqueueCounters(s, low, p, so);
    }
  }

  // ----- if_start sends each session's packets in order -----

  lemma RestUniform(l: List)
    requires Uniform(l)
    ensures AllUniform(Rest(l)) && Sessions(Rest(l)) <= {SoOf(l)} && OnePerSession(Rest(l))
  {
    if |l| > 1 {
      forall p | p in l[1..] ensures p.so == l[0].so { assert p in l; }
      assert Uniform(l[1..]) by { assert l[1..][0] in l; }
      SessionsOne(l[1..]);
    }
  }

  lemma PartShrinks(l: List, so: Session)
    requires Uniform(l)
    ensures Part(l, so) == Tail(l[0], so) + Sess(Rest(l), so) && |l| == 1 + |Flat(Rest(l))|
  {
    RestUniform(l);
    if |l| > 1 {
      assert l == [l[0]] + l[1..] && l[1..] in Rest(l);
      One(l[1..], so);
    }
  }

  /** Taking the first packet of one list of a queue. */
  lemma TakeHead(a: seq<List>, l: List, b: seq<List>, so: Session)
    requires Uniform(l) && (so == SoOf(l) ==> Sess(a, so) == [])
    ensures Sess(a + [l] + b, so) == Tail(l[0], so) + Sess(a + Rest(l) + b, so)
    ensures |Flat(a + [l] + b)| == 1 + |Flat(a + Rest(l) + b)|
  {
    SessAround(a, l, b, so);
    PartShrinks(l, so);
    SessAppend(a + Rest(l), b, so);
    SessAppend(a, Rest(l), so);
    FlatAppend(a + Rest(l), b);
    FlatAppend(a, Rest(l));
    var t, x, y, z := Tail(l[0], so), Sess(a, so), Sess(Rest(l), so), Sess(b, so);
    Nil(t + y);
    Nil(y);
    Nil(x + y + z);
    Assoc(t, y, z);
  }

  /** The queue that remains still has one list per session, and the list after the served one is on it. */
  lemma TakeBatch(a: seq<List>, l: List, b: seq<List>)
    requires Batch(a + [l] + b) && Uniform(l)
    ensures Batch(a + Rest(l) + b) && Heads(b) <= Heads(a + Rest(l) + b) && SoOf(l) !in Sessions(a) && AllUniform(a)
  {
    OneAround(a, l, b);
    RestUniform(l);
    OneAppend(a + Rest(l), b);
    OneAppend(a, Rest(l));
    SessionsAppend(a + Rest(l), b);
    SessionsAppend(a, Rest(l));
  }

  lemma {:induction false} CursorFinds(ls: seq<List>, next: Option<Packet>)
    requires AllUniform(ls) && |ls| > 0 && CursorOk(ls, next)
    ensures (forall l: List <- ls :: |l| > 0) && Cursor(ls, next) < |ls|
    ensures next.Some? ==> ls[Cursor(ls, next)][0] == next.value
  {
    forall l: List | l in ls ensures |l| > 0 { assert Uniform(l); }
    assert ls[0] in ls;
    if next.Some? && ls[0][0] != next.value {
      assert ls == [ls[0]] + ls[1..];
      SessionsAppend([ls[0]], ls[1..]);
      SessionsOne(ls[0]);
      CursorFinds(ls[1..], next);
    }
  }

  lemma InvShape(s: State)
    requires Inv(s) && s.queued > 0
    ensures Shape(s)
  {
    forall l: List | l in s.fastq || l in s.batchq ensures |l| > 0 { assert Uniform(l); }
    if |s.batchq| > 0 { CursorFinds(s.batchq, s.next); }
  }

  /** What one pass of if_start does to the queues. */
  ghost predicate Served(s: State, s': State, p: Packet, so: Session) {
    && AllUniform(s'.fastq) && Batch(s'.batchq) && CursorOk(s'.batchq, s'.next)
    && Pending(s, so) == Tail(p, so) + Pending(s', so)
    && |Flat(s'.fastq)| + |Flat(s'.batchq)| == |Flat(s.fastq)| + |Flat(s.batchq)| - 1
  }

  /** The packet sent is the oldest one its session has queued, and nothing else leaves. */
  lemma SendServed(s: State, so: Session)
    requires Inv(s) && s.queued > 0
    ensures Shape(s) && Served(s, SendOne(s), Chosen(s), so)
  {
    InvShape(s);
    if |s.fastq| > 0 { ServeFast(s, so); } else { ServeBatch(s, so); }
  }

  lemma FrontTaken(l: List, b: seq<List>, so: Session)
    requires |l| > 0 && AllUniform([l] + b)
    ensures Sess([l] + b, so) == Tail(l[0], so) + Sess(Rest(l) + b, so)
    ensures |Flat([l] + b)| == 1 + |Flat(Rest(l) + b)| && AllUniform(Rest(l) + b)
  {
    assert l in [l] + b && [] + [l] + b == [l] + b && [] + Rest(l) + b == Rest(l) + b;
    TakeHead([], l, b, so);
    RestUniform(l);
  }

  lemma ServeFast(s: State, so: Session)
    requires Inv(s) && Shape(s) && |s.fastq| > 0
    ensures Served(s, SendOne(s), Chosen(s), so)
  {
    var l, b := s.fastq[0], s.fastq[1..];
    assert s.fastq == [l] + b;
    FrontTaken(l, b, so);
    Assoc(Tail(l[0], so), Sess(Rest(l) + b, so), Sess(s.batchq, so));
  }

  lemma ServeBatch(s: State, so: Session)
    requires Inv(s) && Shape(s) && |s.fastq| == 0
    ensures Served(s, SendOne(s), Chosen(s), so)
  {
    var k, ls, s' := Cursor(s.batchq, s.next), s.batchq, SendOne(s);
    assert ls[k] in ls;
    var r := ls[..k] + Rest(ls[k]) + ls[k + 1..];
    ServeList(ls, k, so);
    assert s'.fastq == [] && s'.batchq == r && Chosen(s) == ls[k][0];
    assert CursorOk(r, s'.next);
    ServedFrom(s, s', ls[k][0], so);
  }

  lemma ServedFrom(s: State, s': State, p: Packet, so: Session)
    requires s.fastq == s'.fastq == [] && Batch(s'.batchq) && CursorOk(s'.batchq, s'.next)
    requires Sess(s.batchq, so) == Tail(p, so) + Sess(s'.batchq, so) && |Flat(s.batchq)| == 1 + |Flat(s'.batchq)|
    ensures Served(s, s', p, so)
  {
    Nil(Sess(s.batchq, so));
    Nil(Sess(s'.batchq, so));
  }

  /** Serving list k of the batch queue. */
  lemma ServeList(ls: seq<List>, k: nat, so: Session)
    requires Batch(ls) && k < |ls| && Uniform(ls[k])
    ensures var r := ls[..k] + Rest(ls[k]) + ls[k + 1..];
      && Batch(r) && Sess(ls, so) == Tail(ls[k][0], so) + Sess(r, so) && |Flat(ls)| == 1 + |Flat(r)|
      && (k + 1 < |ls| ==> |ls[k + 1]| > 0 && ls[k + 1][0] in Heads(r))
  {
    var a, l, b := ls[..k], ls[k], ls[k + 1..];
    assert ls == a + [l] + b;
    TakeBatch(a, l, b);
    if so == SoOf(l) { SessAbsent(a, so); }
    TakeHead(a, l, b, so);
    if |b| > 0 { assert b[0] in ls && Uniform(b[0]) && b[0] in b && b[0][0] in Heads(b); }
  }

  lemma SendInv(s: State)
    requires Inv(s) && s.queued > 0
    ensures Shape(s) && Inv(SendOne(s)) && SendOne(s).queued == s.queued - 1
  {
    SendServed(s, NoSocket);
    var s' := SendOne(s);
    forall so: Session | so.Socket?
      ensures CountersOf(s', so).queued == |Pending(s', so)| <= CountersOf(s', so).nqueued
    {
      SendCounters(s, so);
    }
  }

  lemma SendCounters(s: State, so: Session)
    requires Inv(s) && s.queued > 0 && so.Socket?
    ensures Shape(s)
    ensures var s' := SendOne(s); CountersOf(s', so).queued == |Pending(s', so)| <= CountersOf(s', so).nqueued
  {
    SendServed(s, so);
    var s', p := SendOne(s), Chosen(s);
    assert CountersOf(s', so) == if so == p.so then Drop(CountersOf(s, so)) else CountersOf(s, so);
  }

  // ----- Runs -----

  /** A loop that stops when the step has nothing to do or the credits have run out. */
  function Loop<S, O>(step: S -> Option<(S, O)>, s: S, credits: nat): (r: (S, seq<O>)) {
    if credits == 0 then (s, [])
    else
      match step(s)
      case None => (s, [])
      case Some((s', o)) => var t := Loop(step, s', credits - 1); (t.0, [o] + t.1)
  }

  /** What every step takes from the state, it gives out. */
  lemma {:induction false} LoopConserves<S, O, X>(step: S -> Option<(S, O)>, inv: S -> bool, held: S -> seq<X>,
                                                  out: O -> seq<X>, s: S, credits: nat)
    requires inv(s)
    requires forall s: S, s': S, o: O :: inv(s) && step(s) == Some((s', o)) ==> inv(s') && held(s) == out(o) + held(s')
    ensures var r := Loop(step, s, credits); inv(r.0) && Collect(out, r.1) + held(r.0) == held(s)
  {
    if credits > 0 && step(s).Some? {
      var (s', o) := step(s).value;
      assert step(s) == Some((s', o));
      LoopConserves(step, inv, held, out, s', credits - 1);
      var t := Loop(step, s', credits - 1);
      CollectFirst(out, o, t.1);
      Assoc(out(o), Collect(out, t.1), held(t.0));
    } else {
      Nil(held(s));
    }
  }

  lemma CollectFirst<T, U>(f: T -> seq<U>, x: T, s: seq<T>)
    ensures Collect(f, [x] + s) == f(x) + Collect(f, s)
  {
    CollectJoin(f, [x], s);
    CollectAppend(f, [], x);
    Nil([x]);
    Nil(f(x));
  }

  /** With enough credits the loop ends for want of work. */
  lemma {:induction false} LoopEnds<S, O>(step: S -> Option<(S, O)>, inv: S -> bool, size: S -> int, s: S, credits: nat)
    requires inv(s) && size(s) <= credits
    requires forall s: S :: inv(s) ==> size(s) >= 0 && (step(s) == None <==> size(s) == 0)
    requires forall s: S, s': S, o: O :: inv(s) && step(s) == Some((s', o)) ==> inv(s') && size(s') < size(s)
    ensures size(Loop(step, s, credits).0) == 0
  {
    if step(s).Some? {
      var (s', o) := step(s).value;
      assert step(s) == Some((s', o));
      LoopEnds(step, inv, size, s', credits - 1);
    }
  }

  /** One pass of if_start: the state it leaves and the packet handed to if_encap. */
  function Pass(s: State): Option<(State, Packet)> {
    if s.queued != 0 && Shape(s) then Some((SendOne(s), Chosen(s))) else None
  }

  lemma PassKeeps(s: State)
    requires Inv(s)
    ensures s.queued >= 0 && (Pass(s) == None <==> s.queued == 0)
    ensures Pass(s).Some? ==> Inv(Pass(s).value.0) && Pass(s).value.0.queued == s.queued - 1
  {
    if s.queued > 0 { SendInv(s); }
  }

  /** if_start while slirp_can_output says yes `credits` times: the state and the packets sent. */
  function Start(s: State, credits: nat): (State, seq<Packet>) { Loop(Pass, s, credits) }

  lemma StartInv(s: State, credits: nat)
    requires Inv(s)
    ensures Inv(Start(s, credits).0)
  {
    StartFaithful(s, credits, NoSocket);
  }

  lemma QueuedPositive(s: State)
    requires Inv(s)
    ensures s.queued >= 0
  {
  }

  datatype Event =
    | Output(p: Packet, low: bool, linkUp: bool, credits: nat)   // if_output
    | Poll(credits: nat)                                         // if_start from the main loop

  ghost function Step(s: State, e: Event): (r: (State, seq<Packet>))
    requires Inv(s)
    ensures Inv(r.0)
  {
    match e
    case Output(p, low, linkUp, credits) =>
      EnqueueInv(s, low, p);
      var s1 := Enqueue(s, low, p);
      StartInv(s1, credits);
      if linkUp then Start(s1, credits) else (s1, [])
    case Poll(credits) =>
      StartInv(s, credits);
      Start(s, credits)
  }

  lemma InitInv()
    ensures Inv(Init)
  {
  }

  /** Any interleaving of if_output and if_start from the initial state: the state reached and all packets sent. */
  ghost function Run(evs: seq<Event>): (r: (State, seq<Packet>))
    ensures Inv(r.0)
  {
    if |evs| == 0 then InitInv(); (Init, [])
    else
      var (s, sent) := Run(evs[..|evs| - 1]);
      var (s', out) := Step(s, evs[|evs| - 1]);
      (s', sent + out)
  }

  function Offered(evs: seq<Event>): seq<Packet> {
    if |evs| == 0 then []
    else Offered(evs[..|evs| - 1]) + (match evs[|evs| - 1] case Output(p, _, _, _) => [p] case Poll(_) => [])
  }

  lemma StartUnfold(s: State, credits: nat)
    requires Inv(s) && s.queued > 0 && credits > 0
    ensures Shape(s) && Inv(SendOne(s))
    ensures var t := Start(SendOne(s), credits - 1); Start(s, credits) == (t.0, [Chosen(s)] + t.1)
  {
    SendInv(s);
  }

  /** What a session has sent and what it still has queued is what it had queued. */
  lemma StartFaithful(s: State, credits: nat, so: Session)
    requires Inv(s)
    ensures var r := Start(s, credits); Inv(r.0) && Only(r.1, so) + Pending(r.0, so) == Pending(s, so)
  {
    forall s: State, s': State, p: Packet | Inv(s) && Pass(s) == Some((s', p))
      ensures Inv(s') && Pending(s, so) == Of(so)(p) + Pending(s', so)
    {
      PassKeeps(s);
      SendServed(s, so);
    }
    LoopConserves(Pass, (s: State) => Inv(s), (s: State) => Pending(s, so), Of(so), s, credits);
  }

  lemma OnlyOne(p: Packet, so: Session)
    ensures Only([p], so) == Tail(p, so)
  {
    CollectFirst(Of(so), p, []);
    Nil(Tail(p, so));
  }

  lemma StepFaithful(s: State, e: Event, so: Session)
    requires Inv(s)
    ensures var (s', out) := Step(s, e);
      Only(out, so) + Pending(s', so) ==
        Pending(s, so) + Only(match e case Output(p, _, _, _) => [p] case Poll(_) => [], so)
  {
    match e
    case Output(p, low, linkUp, credits) =>
      EnqueueInv(s, low, p);
      EnqueueGrown(s, low, p, so);
      OnlyOne(p, so);
      var s1 := Enqueue(s, low, p);
      if linkUp { StartFaithful(s1, credits, so); } else { Nil(Pending(s1, so)); }
    case Poll(credits) =>
      StartFaithful(s, credits, so);
      Nil(Pending(s, so));
  }

  /** In every interleaving, what a session has been sent followed by what it has queued is exactly what it
      was given, in order: nothing is lost, duplicated or reordered within a session. */
  lemma {:induction false} RunFaithful(evs: seq<Event>, so: Session)
    ensures Only(Run(evs).1, so) + Pending(Run(evs).0, so) == Only(Offered(evs), so)
  {
    if |evs| > 0 {
      var init, e := evs[..|evs| - 1], evs[|evs| - 1];
      RunFaithful(init, so);
      var (s, sent) := Run(init);
      var (s', out) := Step(s, e);
      StepFaithful(s, e, so);
      var more := match e case Output(p, _, _, _) => [p] case Poll(_) => [];
      CollectJoin(Of(so), sent, out);
      CollectJoin(Of(so), Offered(init), more);
      Assoc(Only(sent, so), Only(out, so), Pending(s', so));
      Assoc(Only(sent, so), Pending(s, so), Only(more, so));
    }
  }

  // ----- Draining -----

  predicate NonEmpty(q: seq<List>) { forall l: List <- q :: |l| > 0 }

  lemma RotateOnce(q: seq<List>)
    requires |q| > 0 && NonEmpty(q)
    ensures |q[0]| > 0 && NonEmpty(q[1..] + Rest(q[0])) && |Flat(q[1..] + Rest(q[0]))| == |Flat(q)| - 1
  {
    assert q[0] in q;
    FlatAppend(q[1..], Rest(q[0]));
    if |q[0]| > 1 { One(q[0][1..], NoSocket); }
  }

  /** Strict rotation: serve one packet of the first session, then the others, then it again. */
  function RoundRobin(q: seq<List>): seq<Packet>
    requires NonEmpty(q)
    decreases |Flat(q)|
  {
    if |q| == 0 then []
    else
      RotateOnce(q);
      [q[0][0]] + RoundRobin(q[1..] + Rest(q[0]))
  }

  /** The first packet of every session, and what each has left; sessions that have nothing left drop out. */
  function Firsts(q: seq<List>): seq<Packet>
    requires NonEmpty(q)
  {
    if |q| == 0 then [] else assert q[0] in q; [q[0][0]] + Firsts(q[1..])
  }

  function Lefts(q: seq<List>): (r: seq<List>)
    requires NonEmpty(q)
    ensures NonEmpty(r)
  {
    if |q| == 0 then [] else assert q[0] in q; Rest(q[0]) + Lefts(q[1..])
  }

  /** Rotation goes in rounds: one packet per non-empty session, then the same for what is left. */
  lemma {:induction false} RoundsAreFair(q: seq<List>, done: seq<List>)
    requires NonEmpty(q) && NonEmpty(done)
    ensures NonEmpty(q + done) && NonEmpty(done + Lefts(q))
    ensures RoundRobin(q + done) == Firsts(q) + RoundRobin(done + Lefts(q))
    decreases |q|
  {
    if |q| == 0 {
      Nil(done);
      Nil(RoundRobin(done));
    } else {
      var l, t := q[0], q[1..];
      assert l in q && (q + done)[0] == l && (q + done)[1..] == t + done;
      RotateOnce(q + done);
      RoundsAreFair(t, done + Rest(l));
      Assoc(t, done, Rest(l));
      Assoc(done, Rest(l), Lefts(t));
      Assoc([l[0]], Firsts(t), RoundRobin(done + Lefts(q)));
    }
  }

  /** The batch queue as if_start will walk it. */
  function Rotation(s: State): (q: seq<List>)
    requires NonEmpty(s.batchq)
    ensures NonEmpty(q)
  {
    var k := Cursor(s.batchq, s.next);
    s.batchq[k..] + s.batchq[..k]
  }

  lemma {:induction false} CursorAt(a: seq<List>, m: List, b: seq<List>)
    requires NonEmpty(a + [m] + b) && |m| > 0 && SoOf(m) !in Sessions(a)
    ensures Cursor(a + [m] + b, Some(m[0])) == |a|
  {
    var ls := a + [m] + b;
    if |a| > 0 {
      assert ls[1..] == a[1..] + [m] + b && a[0] in a;
      SessionsAppend([a[0]], a[1..]);
      assert a == [a[0]] + a[1..];
      assert ls[0] in ls;
      CursorAt(a[1..], m, b);
    }
  }

  lemma UniformNonEmpty(ls: seq<List>)
    requires AllUniform(ls)
    ensures NonEmpty(ls)
  {
    forall l: List | l in ls ensures |l| > 0 { assert Uniform(l); }
  }

  /** Serving the list under the cursor rotates the walk by one. */
  lemma ServeRotates(a: seq<List>, l: List, b: seq<List>)
    requires Batch(a + [l] + b)
    ensures |l| > 0 && Batch(a + Rest(l) + b) && NonEmpty(a + Rest(l) + b) && (|b| > 0 ==> |b[0]| > 0)
    ensures var r := a + Rest(l) + b; var k := Cursor(r, if |b| > 0 then Some(b[0][0]) else None);
      r[k..] + r[..k] == b + a + Rest(l)
  {
    assert l in a + [l] + b && Uniform(l);
    TakeBatch(a, l, b);
    var r := a + Rest(l) + b;
    UniformNonEmpty(r);
    if |b| > 0 {
      var x := a + Rest(l);
      assert r == x + [b[0]] + b[1..] && b[0] in r;
      OneAround(x, b[0], b[1..]);
      CursorAt(x, b[0], b[1..]);
      assert r[|x|..] == b && r[..|x|] == x;
      Assoc(b, a, Rest(l));
    } else {
      assert b + a + Rest(l) == r && r[0..] + r[..0] == r;
    }
  }

  lemma DrainBatchStep(s: State)
    requires Inv(s) && Shape(s) && |s.fastq| == 0
    ensures NonEmpty(s.batchq) && NonEmpty(SendOne(s).batchq) && SendOne(s).fastq == []
    ensures var q := Rotation(s);
      |q| > 0 && |q[0]| > 0 && Chosen(s) == q[0][0] && Rotation(SendOne(s)) == q[1..] + Rest(q[0])
  {
    UniformNonEmpty(s.batchq);
    var k, s' := Cursor(s.batchq, s.next), SendOne(s);
    var a, l, b := s.batchq[..k], s.batchq[k], s.batchq[k + 1..];
    assert s.batchq == a + [l] + b;
    ServeRotates(a, l, b);
    assert s'.batchq == a + Rest(l) + b && s'.next == if |b| > 0 then Some(b[0][0]) else None;
    assert Rotation(s') == b + a + Rest(l);
    WalkFrom(a, l, b);
  }

  lemma WalkFrom(a: seq<List>, l: List, b: seq<List>)
    ensures var ls := a + [l] + b; var q := ls[|a|..] + ls[..|a|]; q[0] == l && q[1..] == b + a
  {
    var ls := a + [l] + b;
    assert ls[|a|..] == [l] + b && ls[..|a|] == a;
  }

  /** The order in which if_start sends everything when left to itself: first the fast queue front to back,
      then the batch sessions in strict rotation from the cursor on. */
  function Plan(s: State): seq<Packet>
    requires NonEmpty(s.batchq)
  {
    Flat(s.fastq) + RoundRobin(Rotation(s))
  }

  lemma FlatEmpty(ls: seq<List>)
    requires NonEmpty(ls)
    ensures |ls| > 0 ==> |Flat(ls)| > 0
  {
    if |ls| > 0 { assert ls[0] in ls; }
  }

  lemma PlanEmpty(s: State)
    requires Inv(s) && s.queued == 0
    ensures NonEmpty(s.batchq) && Plan(s) == []
  {
    UniformNonEmpty(s.batchq);
    UniformNonEmpty(s.fastq);
    FlatEmpty(s.fastq);
    FlatEmpty(s.batchq);
  }

  lemma PlanFast(s: State)
    requires Inv(s) && Shape(s) && |s.fastq| > 0
    ensures NonEmpty(s.batchq) && SendOne(s).batchq == s.batchq && SendOne(s).next == s.next
    ensures Plan(s) == [Chosen(s)] + Plan(SendOne(s))
  {
    UniformNonEmpty(s.batchq);
    var l, b := s.fastq[0], s.fastq[1..];
    assert l in s.fastq;
    FlatAppend(Rest(l), b);
    if |l| > 1 { One(l[1..], NoSocket); }
    assert Flat(s.fastq) == [l[0]] + Flat(SendOne(s).fastq);
    Assoc([l[0]], Flat(SendOne(s).fastq), RoundRobin(Rotation(s)));
  }

  lemma PlanBatch(s: State)
    requires Inv(s) && Shape(s) && |s.fastq| == 0
    ensures NonEmpty(s.batchq) && NonEmpty(SendOne(s).batchq)
    ensures Plan(s) == [Chosen(s)] + Plan(SendOne(s))
  {
    DrainBatchStep(s);
    Nil(RoundRobin(Rotation(s)));
    Nil(RoundRobin(Rotation(SendOne(s))));
  }

  function Planned(s: State): seq<Packet> { if NonEmpty(s.batchq) then Plan(s) else [] }

  /** Given credit for everything, if_start empties both queues in exactly that order. */
  lemma DrainOrder(s: State, credits: nat)
    requires Inv(s) && s.queued <= credits
    ensures NonEmpty(s.batchq) && Start(s, credits).0.queued == 0 && Start(s, credits).1 == Plan(s)
  {
    var r := Start(s, credits);
    StartInv(s, credits);
    StartEnds(s, credits);
    StartPlan(s, credits);
    PlanEmpty(r.0);
    UniformNonEmpty(s.batchq);
    Nil(r.1);
  }

  lemma StartEnds(s: State, credits: nat)
    requires Inv(s) && s.queued <= credits
    ensures Start(s, credits).0.queued == 0
  {
    forall s: State | Inv(s)
      ensures s.queued >= 0 && (Pass(s) == None <==> s.queued == 0)
      ensures forall s': State, p: Packet :: Pass(s) == Some((s', p)) ==> Inv(s') && s'.queued < s.queued
    {
      PassKeeps(s);
    }
    LoopEnds(Pass, (s: State) => Inv(s), (s: State) => s.queued, s, credits);
  }

  lemma StartPlan(s: State, credits: nat)
    requires Inv(s)
    ensures var r := Start(s, credits); r.1 + Planned(r.0) == Planned(s)
  {
    var one := (p: Packet) => [p];
    forall s: State, s': State, p: Packet | Inv(s) && Pass(s) == Some((s', p))
      ensures Inv(s') && Planned(s) == one(p) + Planned(s')
    {
      PassKeeps(s);
      PlanOne(s);
    }
    LoopConserves(Pass, (s: State) => Inv(s), (s: State) => Planned(s), one, s, credits);
    CollectOnes(Start(s, credits).1, one);
  }

  lemma {:induction false} CollectOnes<T>(ps: seq<T>, one: T -> seq<T>)
    requires forall p :: one(p) == [p]
    ensures Collect(one, ps) == ps
  {
    if |ps| > 0 {
      var init, p := ps[..|ps| - 1], ps[|ps| - 1];
      CollectOnes(init, one);
      assert ps == init + [p] && one(p) == [p];
    }
  }

  lemma PlanOne(s: State)
    requires Inv(s) && Shape(s)
    ensures NonEmpty(s.batchq) && NonEmpty(SendOne(s).batchq) && Plan(s) == [Chosen(s)] + Plan(SendOne(s))
  {
    if |s.fastq| > 0 { PlanFast(s); } else { PlanBatch(s); }
  }

  // ----- The scheduler in place -----

  /** The backward walk over the batch queue. */
  method Search(batchq: seq<List>, so: Session) returns (k: Option<nat>)
    requires NonEmpty(batchq)
    ensures k == FindBatch(batchq, so)
  {
    var i := |batchq|;
    assert batchq[..i] == batchq;
    while i > 0
      invariant 0 <= i <= |batchq| && NonEmpty(batchq[..i]) && FindBatch(batchq[..i], so) == FindBatch(batchq, so)
    {
      assert batchq[i - 1] in batchq && batchq[..i][..i - 1] == batchq[..i - 1] && batchq[..i][i - 1] == batchq[i - 1];
      if batchq[i - 1][0].so == so {
        return Some(i - 1);
      }
      i := i - 1;
    }
    k := None;
  }

  method PlacePacket(fastq: seq<List>, batchq: seq<List>, p: Packet, low: bool, down: bool)
    returns (fastq': seq<List>, batchq': seq<List>)
    requires NonEmpty(fastq) && NonEmpty(batchq)
    ensures (fastq', batchq') == Place(fastq, batchq, p, low, down)
  {
    fastq', batchq' := fastq, batchq;
    var k := Search(batchq, p.so);
    if k.Some? {
      var l, a, b := batchq[k.value] + [p], batchq[..k.value], batchq[k.value + 1..];
      batchq' := if down then [l] + (a + b) else a + [l] + b;
    } else if p.so.Socket? && low {
      var n := |fastq|;
      var l := [p];
      assert n > 0 ==> fastq[n - 1] in fastq;
      if n > 0 && fastq[n - 1][0].so == p.so {
        l := fastq[n - 1] + [p];
        fastq' := fastq[..n - 1];
      }
      if down { batchq' := [l] + batchq; } else { fastq' := fastq' + [l]; }
    } else {
      batchq' := if down then [[p]] + batchq else batchq + [[p]];
    }
  }

  class Scheduler {
    var fastq: seq<List>
    var batchq: seq<List>
    var nextM: Option<Packet>
    var ifQueued: int
    var socks: map<nat, Counters>

    function View(): State
      reads this
    {
      State(fastq, batchq, nextM, ifQueued, socks)
    }

    constructor ()   // if_init
      ensures View() == Init && Inv(View())
    {
      fastq, batchq, nextM, ifQueued, socks := [], [], None, 0, map[];
      new;
      InitInv();
    }

    /** if_output, without its call of if_start. */
    method Queue(p: Packet, low: bool)
      requires NonEmpty(fastq) && NonEmpty(batchq)
      modifies this
      ensures View() == Enqueue(old(View()), low, p)
    {
      var so := p.so;
      var c := if so.Socket? && so.id in socks then socks[so.id] else Counters(0, 0);
      c := Counters(c.queued + 1, c.nqueued + 1);
      var down := so.Socket? && c.nqueued >= 6 && c.nqueued - c.queued >= 3;
      fastq, batchq := PlacePacket(fastq, batchq, p, low, down);
      ifQueued := ifQueued + 1;
      if so.Socket? {
        socks := socks[so.id := c];
      }
    }

    /** One pass of the if_start loop. */
    method SendNext() returns (ifm: Packet)
      requires Shape(View())
      modifies this
      ensures View() == SendOne(old(View())) && ifm == Chosen(old(View()))
    {
      if fastq != [] {
        assert fastq[0] in fastq;
        ifm := fastq[0][0];
        fastq := Rest(fastq[0]) + fastq[1..];
      } else {
        var k := Cursor(batchq, nextM);
        assert batchq[k] in batchq;
        ifm := batchq[k][0];
        assert k + 1 < |batchq| ==> batchq[k + 1] in batchq;
        nextM := if k + 1 < |batchq| then Some(batchq[k + 1][0]) else None;
        batchq := batchq[..k] + Rest(batchq[k]) + batchq[k + 1..];
      }
      ifQueued := ifQueued - 1;
      if ifm.so.Socket? {
        var c := if ifm.so.id in socks then socks[ifm.so.id] else Counters(0, 0);
        socks := socks[ifm.so.id := Drop(c)];
      }
    }

    /** if_output: queue the packet and, when the link is up, send what can be sent. */
    method Output(p: Packet, low: bool, linkUp: bool, credits: nat) returns (sent: seq<Packet>)
      requires Inv(View())
      modifies this
      ensures Inv(View()) && (View(), sent) == Step(old(View()), Event.Output(p, low, linkUp, credits))
    {
      UniformNonEmpty(fastq);
      UniformNonEmpty(batchq);
      EnqueueInv(View(), low, p);
      Queue(p, low);
      sent := [];
      if linkUp {
        sent := Flush(credits);
      }
    }

    /** if_start: `credits` is how often slirp_can_output will say yes. */
    method Flush(credits: nat) returns (sent: seq<Packet>)
      requires Inv(View())
      modifies this
      ensures Inv(View()) && (View(), sent) == Start(old(View()), credits)
    {
      sent := [];
      var left := credits;
      ghost var goal := Start(View(), left);
      ghost var rest := goal.1;
      Nil(rest);
      while ifQueued != 0 && left > 0
        invariant Inv(View()) && left >= 0 && Start(View(), left) == (goal.0, rest) && sent + rest == goal.1
        decreases left
      {
        QueuedPositive(View());
        StartUnfold(View(), left);
        var p := SendNext();
        left := left - 1;
        rest := Start(View(), left).1;
        Assoc(sent, [p], rest);
        sent := sent + [p];
      }
      Nil(sent);
    }
  }
}
