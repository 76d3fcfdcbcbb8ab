/** slirp/if.c: which queue a packet goes to, in which order it leaves from there, and when a session is downgraded. */
module IfPlace {
  import opened Bytes
  import opened IfQueue

  // ----- One packet -----

  /** The lists of all other sessions, in order. */
  function Others(ls: seq<List>, so: Session): (r: seq<List>) {
    if ls == [] then [] else Unless(ls[0], so) + Others(ls[1..], so)
  }

  function Unless(l: List, so: Session): (r: seq<List>) { if SoOf(l) == so then [] else [l] }

  /** The session of each list, in order. */
  function Order(ls: seq<List>): (r: seq<Session>) {
    if ls == [] then [] else [SoOf(ls[0])] + Order(ls[1..])
  }

  lemma {:induction false} OthersAppend(a: seq<List>, b: seq<List>, so: Session)
    ensures Others(a + b, so) == Others(a, so) + Others(b, so)
  {
    if a == [] {
      Nil(b);
      Nil(Others(b, so));
    } else {
      OthersAppend(a[1..], b, so);
      assert (a + b)[1..] == a[1..] + b;
      Assoc(Unless(a[0], so), Others(a[1..], so), Others(b, so));
    }
  }

  lemma {:induction false} OrderAppend(a: seq<List>, b: seq<List>)
    ensures Order(a + b) == Order(a) + Order(b)
  {
    if a == [] {
      Nil(b);
      Nil(Order(b));
    } else {
      OrderAppend(a[1..], b);
      assert (a + b)[1..] == a[1..] + b;
      Assoc([SoOf(a[0])], Order(a[1..]), Order(b));
    }
  }

  lemma OthersOne(l: List, so: Session)
    ensures Others([l], so) == Unless(l, so) && Order([l]) == [SoOf(l)]
  {
    assert [l][1..] == [];
  }

  lemma {:induction false} OthersAbsent(ls: seq<List>, so: Session)
    requires so !in Sessions(ls)
    ensures Others(ls, so) == ls
  {
    if ls != [] {
      assert ls[0] in ls;
      assert ls == [ls[0]] + ls[1..];
      SessionsAppend([ls[0]], ls[1..]);
      OthersAbsent(ls[1..], so);
    }
  }

  lemma OthersAround(a: seq<List>, l: List, b: seq<List>, so: Session)
    requires SoOf(l) == so
    ensures Others(a + [l] + b, so) == Others(a, so) + Others(b, so)
    ensures Order(a + [l] + b) == Order(a) + [so] + Order(b)
    ensures Others([l] + (a + b), so) == Others(a, so) + Others(b, so)
  {
    OthersAppend(a + [l], b, so);
    OthersAppend(a, [l], so);
    OrderAppend(a + [l], b);
    OrderAppend(a, [l]);
    OthersOne(l, so);
    OthersAppend([l], a + b, so);
    OthersAppend(a, b, so);
    Nil(Others(a, so));
    Nil(Others(a, so) + Others(b, so));
  }

  /** The session has sent 3 of at least 6 packets, p being the last of them, since it last had none queued. */
  predicate Downgraded(s: State, p: Packet) {
    var c := CountersOf(s, p.so);
    p.so.Socket? && c.nqueued + 1 >= 6 && c.nqueued - c.queued >= 3
  }

  /** The packet is interactive, and its session has no batch list. */
  predicate Fast(s: State, low: bool, p: Packet) { p.so.Socket? && low && p.so !in Sessions(s.batchq) }

  /** The last list of a queue, if it is that of the session. */
  function LastOf(ls: seq<List>, so: Session): (l: List) {
    if ls != [] && SoOf(ls[|ls| - 1]) == so then ls[|ls| - 1] else []
  }

  /** An interactive packet of a session without a batch list ends the fast queue, and leaves the batch queue alone. */
  lemma FastPlace(s: State, low: bool, p: Packet)
    requires AllUniform(s.fastq) && Batch(s.batchq) && Fast(s, low, p) && !Downgraded(s, p)
    ensures var r := Enqueue(s, low, p); Flat(r.fastq) == Flat(s.fastq) + [p] && r.batchq == s.batchq
  {
    NotFound(s.batchq, p.so);
    var n := |s.fastq|;
    if n > 0 {
      var a, m := s.fastq[..n - 1], s.fastq[n - 1];
      assert s.fastq == a + [m];
      FlatEnd(a, m);
      FlatEnd(a, m + [p]);
      Assoc(Flat(a), m, [p]);
    }
    FlatEnd(s.fastq, [p]);
  }

  lemma FlatEnd(a: seq<List>, l: List)
    ensures Flat(a + [l]) == Flat(a) + l
  {
    FlatAppend(a, [l]);
    One(l, NoSocket);
  }

  lemma {:induction false} NotFound(ls: seq<List>, so: Session)
    requires AllUniform(ls)
    ensures (forall l: List <- ls :: |l| > 0) && (FindBatch(ls, so).None? <==> so !in Sessions(ls))
  {
    UniformNonEmpty(ls);
    if FindBatch(ls, so).Some? {
      assert ls[FindBatch(ls, so).value] in ls;
    }
  }

  /** Any other packet leaves the fast queue alone. */
  lemma BatchPlace(s: State, low: bool, p: Packet)
    requires AllUniform(s.fastq) && Batch(s.batchq) && !Fast(s, low, p)
    ensures Enqueue(s, low, p).fastq == s.fastq
  {
    NotFound(s.batchq, p.so);
  }

  /** ... and without a downgrade ends the list of its session, in its place in the rotation; a new list ends the
      rotation. */
  lemma BatchKeepsOrder(s: State, low: bool, p: Packet)
    requires AllUniform(s.fastq) && Batch(s.batchq) && !Fast(s, low, p) && !Downgraded(s, p)
    ensures var r, so := Enqueue(s, low, p), p.so;
      && Others(r.batchq, so) == Others(s.batchq, so)
      && Order(r.batchq) == Order(s.batchq) + (if so in Sessions(s.batchq) then [] else [so])
      && Sess(r.batchq, so) == Sess(s.batchq, so) + [p]
  {
    if p.so in Sessions(s.batchq) {
      var a, m, b := FoundPlace(s, low, p);
      JoinKeepsOrder(a, m, b, p);
      Nil(Order(s.batchq));
    } else {
      NotFound(s.batchq, p.so);
      NewKeepsOrder(s.batchq, p);
    }
  }

  /** The batch list of the session, and the queue after the packet has joined it. */
  lemma FoundPlace(s: State, low: bool, p: Packet) returns (a: seq<List>, m: List, b: seq<List>)
    requires AllUniform(s.fastq) && AllUniform(s.batchq) && p.so in Sessions(s.batchq)
    ensures s.batchq == a + [m] + b && SoOf(m) == p.so && m != []
    ensures Enqueue(s, low, p).batchq == if Downgraded(s, p) then [m + [p]] + (a + b) else a + [m + [p]] + b
  {
    NotFound(s.batchq, p.so);
    var k := FindBatch(s.batchq, p.so).value;
    assert s.batchq[k] in s.batchq;
    a, m, b := s.batchq[..k], s.batchq[k], s.batchq[k + 1..];
  }

  lemma JoinKeepsOrder(a: seq<List>, m: List, b: seq<List>, p: Packet)
    requires Batch(a + [m] + b) && SoOf(m) == p.so
    ensures var q, r := a + [m] + b, a + [m + [p]] + b;
      Others(r, p.so) == Others(q, p.so) && Order(r) == Order(q) && Sess(r, p.so) == Sess(q, p.so) + [p]
  {
    JoinBatch(a, m, b, p, false, p.so);
    OthersAround(a, m, b, p.so);
    OthersAround(a, m + [p], b, p.so);
  }

  lemma NewKeepsOrder(q: seq<List>, p: Packet)
    requires Batch(q) && p.so !in Sessions(q)
    ensures var r := q + [[p]];
      Others(r, p.so) == Others(q, p.so) && Order(r) == Order(q) + [p.so] && Sess(r, p.so) == Sess(q, p.so) + [p]
  {
    AddList(q, [p], false, p.so);
    OthersAppend(q, [[p]], p.so);
    OrderAppend(q, [[p]]);
    OthersOne([p], p.so);
    Nil(Others(q, p.so));
  }

  /** The list of a downgraded session moves to the front of the batch queue, from where it is: the batch queue, or the
      end of the fast queue. The lists of other sessions stay. */
  lemma DownPlace(s: State, low: bool, p: Packet)
    requires AllUniform(s.fastq) && Batch(s.batchq) && Downgraded(s, p)
    ensures var r, so := Enqueue(s, low, p), p.so;
      && r.batchq != [] && SoOf(r.batchq[0]) == so && Others(r.batchq, so) == Others(s.batchq, so)
      && (so in Sessions(s.batchq) ==> r.batchq[0] == Sess(s.batchq, so) + [p])
      && (so !in Sessions(s.batchq) ==> r.batchq[1..] == s.batchq)
      && if Fast(s, low, p) then
           r.fastq + Listed(LastOf(s.fastq, so)) == s.fastq && r.batchq[0] == LastOf(s.fastq, so) + [p]
         else r.fastq == s.fastq && (so !in Sessions(s.batchq) ==> r.batchq[0] == [p])
  {
    NotFound(s.batchq, p.so);
    if p.so in Sessions(s.batchq) {
      var a, m, b := FoundPlace(s, low, p);
      assert SoOf(m + [p]) == p.so;
      OthersAround(a, m, b, p.so);
      OthersAround(a, m + [p], b, p.so);
      OnlyList(a, m, b, p.so);
    } else {
      DownNew(s, low, p);
    }
  }

  lemma DownNew(s: State, low: bool, p: Packet)
    requires AllUniform(s.fastq) && Batch(s.batchq) && Downgraded(s, p) && NonEmpty(s.fastq)
    requires NonEmpty(s.batchq) && FindBatch(s.batchq, p.so).None?
    ensures var r, l := Enqueue(s, low, p), LastOf(s.fastq, p.so);
      && r.batchq == [if p.so.Socket? && low then l + [p] else [p]] + s.batchq
      && SoOf(r.batchq[0]) == p.so && Others(r.batchq, p.so) == Others(s.batchq, p.so)
      && if p.so.Socket? && low then r.fastq + Listed(l) == s.fastq else r.fastq == s.fastq
  {
    var n, r, l := |s.fastq|, Enqueue(s, low, p), LastOf(s.fastq, p.so);
    if n > 0 {
      assert s.fastq[n - 1] in s.fastq && s.fastq[..n - 1] + [s.fastq[n - 1]] == s.fastq;
    }
    assert [] + [p] == [p] && r.fastq + [] == r.fastq;
    assert r.batchq == [if p.so.Socket? && low then l + [p] else [p]] + s.batchq;
    OthersFront(s.batchq, if p.so.Socket? && low then l + [p] else [p], p.so);
  }

  function Listed(l: List): (r: seq<List>) { if l == [] then [] else [l] }

  lemma OnlyList(a: seq<List>, m: List, b: seq<List>, so: Session)
    requires Batch(a + [m] + b) && SoOf(m) == so
    ensures Sess(a + [m] + b, so) == m
  {
    OneAround(a, m, b);
    SessAround(a, m, b, so);
    SessAbsent(a, so);
    SessAbsent(b, so);
    Nil(m);
    assert Part(m, so) == m && [] + m + [] == m;
  }

  lemma OthersFront(ls: seq<List>, l: List, so: Session)
    requires SoOf(l) == so
    ensures Others([l] + ls, so) == Others(ls, so)
  {
    OthersAppend([l], ls, so);
    OthersOne(l, so);
  }

  // ----- Runs: what the fast queue holds -----

  function FastSet(s: State): (r: set<Packet>) { set p <- Flat(s.fastq) }

  lemma EnqueueFastSet(s: State, low: bool, p: Packet)
    requires AllUniform(s.fastq) && Batch(s.batchq)
    ensures NonEmpty(s.fastq) && NonEmpty(s.batchq)
    ensures FastSet(Enqueue(s, low, p)) <= FastSet(s) + (if Fast(s, low, p) then {p} else {})
  {
    NotFound(s.batchq, p.so);
    UniformNonEmpty(s.fastq);
    if !Fast(s, low, p) {
      BatchPlace(s, low, p);
    } else if Downgraded(s, p) {
      DownPlace(s, low, p);
      FlatAppend(Enqueue(s, low, p).fastq, Listed(LastOf(s.fastq, p.so)));
    } else {
      FastPlace(s, low, p);
    }
  }

  lemma SendFastSet(s: State)
    requires Shape(s)
    ensures FastSet(SendOne(s)) <= FastSet(s)
  {
    if |s.fastq| > 0 {
      var l, t := s.fastq[0], s.fastq[1..];
      assert l in s.fastq && s.fastq == [l] + t;
      FlatAppend(Rest(l), t);
      if |l| > 1 { One(l[1..], NoSocket); }
    }
  }

  lemma {:induction false} StartFastSet(s: State, credits: nat)
    requires Inv(s)
    ensures FastSet(Start(s, credits).0) <= FastSet(s)
    decreases credits
  {
    QueuedPositive(s);
    if credits > 0 && s.queued > 0 {
      StartUnfold(s, credits);
      SendFastSet(s);
      StartFastSet(SendOne(s), credits - 1);
    }
  }

  /** p was given to if_output for an interactive session of the run. */
  predicate GivenLow(evs: seq<Event>, p: Packet) {
    exists i :: 0 <= i < |evs| && evs[i].Output? && evs[i].p == p && evs[i].low && p.so.Socket?
  }

  lemma StepFastSet(s: State, e: Event, p: Packet)
    requires Inv(s) && p in FastSet(Step(s, e).0)
    ensures p in FastSet(s) || (e.Output? && e.p == p && e.low && p.so.Socket?)
  {
    match e
    case Output(q, low, linkUp, credits) =>
      EnqueueInv(s, low, q);
      EnqueueFastSet(s, low, q);
      if linkUp { StartFastSet(Enqueue(s, low, q), credits); }
    case Poll(credits) =>
      StartFastSet(s, credits);
  }

  /** In every run the fast queue holds only packets that were given as interactive ones. */
  lemma {:induction false} RunFastIsLow(evs: seq<Event>, p: Packet)
    requires p in Flat(Run(evs).0.fastq)
    ensures GivenLow(evs, p)
    decreases |evs|
  {
    if evs != [] {
      var n := |evs| - 1;
      assert p in FastSet(Run(evs).0);
      StepFastSet(Run(evs[..n]).0, evs[n], p);
      if p in FastSet(Run(evs[..n]).0) {
        RunFastIsLow(evs[..n], p);
        var i :| 0 <= i < n && evs[..n][i].Output? && evs[..n][i].p == p && evs[..n][i].low;
        assert evs[i].Output? && evs[i].p == p;
      }
    }
  }

  // ----- Runs: what the counters count -----

  /** The packets of a session since it last had none queued. */
  ghost function Burst(evs: seq<Event>, so: Session): (n: nat) {
    if evs == [] || Pending(Run(evs).0, so) == [] then 0
    else Burst(evs[..|evs| - 1], so) + (if evs[|evs| - 1].Output? && evs[|evs| - 1].p.so == so then 1 else 0)
  }

  /** A session without queued packets starts counting again. */
  ghost predicate Idle(s: State, so: Session) {
    Pending(s, so) == [] ==> CountersOf(s, so).nqueued == 0
  }

  lemma SendCounts(s: State, so: Session)
    requires Inv(s) && s.queued > 0 && so.Socket?
    ensures Shape(s)
    ensures var r := SendOne(s);
      CountersOf(r, so).nqueued == if Pending(r, so) == [] && Chosen(s).so == so then 0 else CountersOf(s, so).nqueued
    ensures Chosen(s).so != so ==> Pending(SendOne(s), so) == Pending(s, so)
    ensures Chosen(s).so == so ==> Pending(s, so) != []
  {
    SendServed(s, so);
    SendCounters(s, so);
    Nil(Pending(SendOne(s), so));
    assert CountersOf(s, so).queued == |Pending(s, so)|;
  }

  lemma {:induction false} StartCounts(s: State, credits: nat, so: Session)
    requires Inv(s) && so.Socket? && Idle(s, so)
    ensures var r := Start(s, credits).0;
      CountersOf(r, so).nqueued == if Pending(r, so) == [] then 0 else CountersOf(s, so).nqueued
    decreases credits
  {
    QueuedPositive(s);
    if credits > 0 && s.queued > 0 {
      StartUnfold(s, credits);
      SendCounts(s, so);
      StartCounts(SendOne(s), credits - 1, so);
      StartFaithful(SendOne(s), credits - 1, so);
      if Pending(SendOne(s), so) == [] {
        assert Pending(Start(s, credits).0, so) == [];
      }
    }
  }

  lemma StepCounts(s: State, e: Event, so: Session)
    requires Inv(s) && so.Socket? && Idle(s, so)
    ensures var r := Step(s, e).0;
      CountersOf(r, so).nqueued == if Pending(r, so) == [] then 0
        else CountersOf(s, so).nqueued + (if e.Output? && e.p.so == so then 1 else 0)
  {
    match e
    case Output(p, low, linkUp, credits) =>
      var s1 := Enqueue(s, low, p);
      EnqueueInv(s, low, p);
      EnqueueGrown(s, low, p, so);
      EnqueueCounters(s, low, p, so);
      Nil(Pending(s, so));
      if linkUp { StartCounts(s1, credits, so); }
    case Poll(credits) =>
      StartCounts(s, credits, so);
  }

  /** In every run so_queued counts the queued packets of a session, and so_nqueued those that it was given since it
      last had none queued; these two decide about its downgrade. */
  lemma {:induction false} RunCounts(evs: seq<Event>, so: Session)
    requires so.Socket?
    ensures CountersOf(Run(evs).0, so) == Counters(|Pending(Run(evs).0, so)|, Burst(evs, so))
    decreases |evs|
  {
    if evs != [] {
      var n := |evs| - 1;
      RunCounts(evs[..n], so);
      StepCounts(Run(evs[..n]).0, evs[n], so);
    }
    assert Inv(Run(evs).0);
  }

  // ----- Runs: how much is sent -----

  /** if_start sends as many packets as the link takes, or all. */
  lemma {:induction false} StartCount(s: State, credits: nat)
    requires Inv(s)
    ensures s.queued >= 0 && |Start(s, credits).1| == if credits < s.queued then credits else s.queued
    decreases credits
  {
    QueuedPositive(s);
    if credits > 0 && s.queued > 0 {
      StartUnfold(s, credits);
      StartCount(SendOne(s), credits - 1);
    }
  }

  /** if_output sends only while the link is up; then it does as if_start. */
  lemma StepCount(s: State, e: Event)
    requires Inv(s)
    ensures var n := s.queued + (if e.Output? then 1 else 0);
      |Step(s, e).1| == if e.Output? && !e.linkUp then 0 else if e.credits < n then e.credits else n
  {
    match e
    case Output(p, low, linkUp, credits) =>
      EnqueueInv(s, low, p);
      EnqueueCounters(s, low, p, Socket(0));
      StartCount(Enqueue(s, low, p), credits);
    case Poll(credits) =>
      StartCount(s, credits);
  }
}
