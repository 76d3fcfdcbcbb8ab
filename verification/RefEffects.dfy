/** kernel/manager.c, kernel/monitor.c: what each request changes, for descriptors, monitors and module slots. */
module RefEffects {
  import opened Bytes
  import opened RefProtocol

  // ---- CREATE

  /** A CREATE that succeeds makes its descriptor the owner of a new monitor with empty slots, which an ATTACH with its
      id now finds; an ATTACH with another id finds what it found. It fails, and changes nothing, if and only if the
      descriptor has a monitor or none can be made. */
  lemma CreateEffect(s: State, d: nat, m: nat, id: int, ok: bool, other: int)
    requires Inv(s) && d in s.descs && m !in s.mons
    ensures var r := Create(s, d, m, id, ok);
      && (r == s <==> s.descs[d].monitor.Some? || !ok)
      && (r != s ==>
        && m in r.mons && r.mons[m].slots == Empty(MODULES) && r.descs.Keys == s.descs.Keys
        && r.descs[d].monitor == Some(m) && r.descs[d].owner
        && FindMonitor(r, r.list, other) == (if other == id then Some(m) else FindMonitor(s, s.list, other)))
  {
    var r := Create(s, d, m, id, ok);
    if r != s {
      assert r.list[1..] == s.list;
      FindSame(s, r, s.list, other);
    }
  }

  lemma {:induction false} FindSame(s: State, r: State, list: seq<nat>, id: int)
    requires forall m :: m in list ==> m in s.mons && m in r.mons && r.mons[m].id == s.mons[m].id
    ensures FindMonitor(r, list, id) == FindMonitor(s, list, id)
  {
    if list != [] {
      FindSame(s, r, list[1..], id);
    }
  }

  /** A RESET puts a monitor that is not listed at the front of the list, where an ATTACH finds it. */
  lemma RelistEffect(s: State, m: nat)
    requires m in s.mons && !s.mons[m].listed
    ensures var r := Relist(s, m);
      r.mons[m].listed && r.list == [m] + s.list && FindMonitor(r, r.list, s.mons[m].id) == Some(m) &&
      r.descs == s.descs && r.mons[m].slots == s.mons[m].slots
  {
  }

  // ---- ATTACH

  /** The state of a descriptor, but for its count. */
  predicate SameButRefs(a: Desc, b: Desc) { a == b.(refs := a.refs) }

  lemma SeatEffect(s: State, m: nat, i: nat, d: nat, x: nat, j: nat)
    requires Seats(s, m, d) && i < MODULES && x in s.descs && j < MODULES
    ensures var r := Seat(s, m, i, d);
      && Seats(r, m, d) && x in r.descs && SameButRefs(r.descs[x], s.descs[x])
      && r.mons.Keys == s.mons.Keys && (forall n <- s.mons :: n != m ==> r.mons[n] == s.mons[n])
      && r.mons[m] == s.mons[m].(slots := r.mons[m].slots)
      && r.mons[m].slots[j] == (if j == i then Some(d) else s.mons[m].slots[j])
      && r.descs.Keys == s.descs.Keys && r.list == s.list && r.flying == s.flying
  {
  }

  lemma {:induction false} SeatAllEffect(s: State, m: nat, modules: seq<int>, d: nat, x: nat, j: nat)
    requires Seats(s, m, d) && AllInTable(modules) && x in s.descs && j < MODULES
    ensures var r := SeatAll(s, m, modules, d);
      && Seats(r, m, d) && x in r.descs && SameButRefs(r.descs[x], s.descs[x])
      && r.mons.Keys == s.mons.Keys && (forall n <- s.mons :: n != m ==> r.mons[n] == s.mons[n])
      && r.mons[m] == s.mons[m].(slots := r.mons[m].slots)
      && r.mons[m].slots[j] == (if j in modules then Some(d) else s.mons[m].slots[j])
      && r.descs.Keys == s.descs.Keys && r.list == s.list && r.flying == s.flying
    decreases |modules|
  {
    if modules != [] {
      var n := |modules| - 1;
      SeatAllEffect(s, m, modules[..n], d, x, j);
      SeatEffect(SeatAll(s, m, modules[..n], d), m, modules[n], d, x, j);
      assert modules == modules[..n] + [modules[n]];
    }
  }

  /** A sound ATTACH to a listed monitor gives its descriptor the slots of the modules that it means, and the pointer;
      all other slots, monitors and descriptors stay as they are, but for counts of references. */
  lemma AttachEffect(s: State, d: nat, id: int, modules: Modules, count: int, x: nat, j: nat)
    requires Inv(s) && d in s.descs && s.descs[d].open && s.descs[d].monitor.None? && Seatable(modules, count)
    requires FindMonitor(s, s.list, id).Some? && x in s.descs && j < MODULES
    ensures var r, m := Attach(s, d, id, modules, count).0, FindMonitor(s, s.list, id).value;
      && r.descs.Keys == s.descs.Keys && r.mons.Keys == s.mons.Keys && |r.mons[m].slots| == MODULES
      && SameButRefs(r.descs[x], if x == d then s.descs[d].(monitor := Some(m)) else s.descs[x])
      && r.mons[m].slots[j] == (if Means(modules, count, j) then Some(d) else s.mons[m].slots[j])
      && r.mons[m] == s.mons[m].(slots := r.mons[m].slots, refs := s.mons[m].refs + 1)
      && (forall n <- s.mons :: n != m ==> r.mons[n] == s.mons[n])
      && r.list == s.list && r.flying == s.flying
  {
    var m := FindMonitor(s, s.list, id).value;
    AllSeatedIff(modules, count);
    LinkSeats(s, d, m);
    LedIs(modules, count, j);
    SeatAllEffect(Link(s, d, m), m, modules[..Leading(modules, count, 0)], d, x, j);
    AttachIs(s, d, id, modules, count);
    LinkEffect(s, d, m, x);
  }

  lemma AttachIs(s: State, d: nat, id: int, modules: Modules, count: int)
    requires SlotsOk(s) && d in s.descs && FindMonitor(s, s.list, id).Some?
    ensures var m := FindMonitor(s, s.list, id).value;
      Seats(Link(s, d, m), m, d) &&
      Attach(s, d, id, modules, count).0 == SeatAll(Link(s, d, m), m, modules[..Leading(modules, count, 0)], d)
  {
    LinkSeats(s, d, FindMonitor(s, s.list, id).value);
  }

  lemma LinkSeats(s: State, d: nat, m: nat)
    requires SlotsOk(s) && d in s.descs && m in s.mons
    ensures Seats(Link(s, d, m), m, d)
  {
  }

  lemma LinkEffect(s: State, d: nat, m: nat, x: nat)
    requires d in s.descs && m in s.mons && x in s.descs
    ensures var r := Link(s, d, m);
      && r.descs.Keys == s.descs.Keys && r.mons.Keys == s.mons.Keys && r.list == s.list && r.flying == s.flying
      && r.descs[x] == (if x == d then s.descs[d].(monitor := Some(m)) else s.descs[x])
      && r.mons[m] == s.mons[m].(refs := s.mons[m].refs + 1)
      && (forall n <- s.mons :: n != m ==> r.mons[n] == s.mons[n])
  {
  }

  /** The request means module j. */
  predicate Means(modules: Modules, count: int, j: nat) {
    exists k :: 0 <= k < count && k < |modules| && modules[k] == j
  }

  lemma LedIs(modules: Modules, count: int, j: nat)
    requires count <= Leading(modules, count, 0)
    ensures j in modules[..Leading(modules, count, 0)] <==> Means(modules, count, j)
  {
    var l := Leading(modules, count, 0);
    if j in modules[..l] {
      var k :| 0 <= k < l && modules[k] == j;
      assert k < count || count < 0;
    }
  }

  // ---- a message

  /** A message for a module goes to the descriptor in its slot, which is held until it is delivered. */
  lemma DeliverEffect(s: State, m: nat, i: nat, x: nat)
    requires Inv(s) && m in s.mons && i < MODULES && x in s.descs
    ensures s.mons[m].slots[i].Some? ==> s.mons[m].slots[i].value in s.descs
    ensures var r, to := MessageIn(s, m, i), s.mons[m].slots[i];
      && r.mons == s.mons && r.list == s.list && r.descs.Keys == s.descs.Keys
      && r.flying == (match to case None => s.flying case Some(d) => s.flying + multiset{d})
      && r.descs[x] == s.descs[x].(refs := s.descs[x].refs + if to == Some(x) then 1 else 0)
  {
    SlotOpen(s, m, i);
    Delivered(s, m, i, x);
  }

  lemma SlotOpen(s: State, m: nat, i: nat)
    requires Inv(s) && m in s.mons && i < MODULES
    ensures |s.mons[m].slots| == MODULES
    ensures var to := s.mons[m].slots[i]; to.Some? ==> to.value in s.descs && s.descs[to.value].refs >= 1
  {
    assert s.mons[m].slots[i] in s.mons[m].slots;
  }

  lemma Delivered(s: State, m: nat, i: nat, x: nat)
    requires m in s.mons && i < |s.mons[m].slots| && x in s.descs
    requires var to := s.mons[m].slots[i]; to.Some? ==> to.value in s.descs && s.descs[to.value].refs >= 1
    ensures var r, to := MessageIn(s, m, i), s.mons[m].slots[i];
      && r.mons == s.mons && r.list == s.list && r.descs.Keys == s.descs.Keys
      && r.flying == (match to case None => s.flying case Some(d) => s.flying + multiset{d})
      && r.descs[x] == s.descs[x].(refs := s.descs[x].refs + if to == Some(x) then 1 else 0)
  {
  }

  // ---- the end of a descriptor

  /** The slots of monitor m name x. */
  predicate In(s: State, m: nat, x: nat) { m in s.mons && Some(x) in s.mons[m].slots }

  lemma EndDesc(s: State, m: nat, x: nat)
    requires m in s.mons && x in s.descs
    ensures var r := EndMessages(s, m);
      x in r.descs && r.descs[x] == s.descs[x].(refs := r.descs[x].refs, active := s.descs[x].active && !In(s, m, x))
  {
    CountPositive(s.mons[m].slots, x);
  }

  /** With the last reference to a descriptor goes the descriptor, and no other one. If it owned a monitor, all others
      in the slots of that monitor are told, and are no longer active. */
  lemma DestroyDesc(s: State, d: nat, x: nat)
    requires PointersOk(s) && d in s.descs && x in s.descs && x != d
    requires s.descs[d].monitor.Some? ==> s.mons[s.descs[d].monitor.value].refs >= 1
    ensures var r := Destroy(s, d);
      && r.descs.Keys == s.descs.Keys - {d} && r.flying == s.flying
      && r.descs[x] == s.descs[x].(refs := r.descs[x].refs, active := s.descs[x].active &&
           !(s.descs[d].owner && s.descs[d].monitor.Some? && In(s, s.descs[d].monitor.value, x)))
  {
    DestroyIsDetach(s, d);
    if s.descs[d].monitor.Some? && s.descs[d].owner {
      EndDesc(Unlist(s, s.descs[d].monitor.value), s.descs[d].monitor.value, x);
    }
  }

  /** Its monitor loses a reference, and is gone without one. If the descriptor owned it, it is no longer listed and has
      empty slots. No other monitor changes. */
  lemma DestroyMon(s: State, d: nat, n: nat)
    requires PointersOk(s) && d in s.descs && n in s.mons
    requires s.descs[d].monitor.Some? ==> s.mons[s.descs[d].monitor.value].refs >= 1
    ensures var r := Destroy(s, d);
      if s.descs[d].monitor != Some(n) then n in r.mons && r.mons[n] == s.mons[n]
      else
        && (n in r.mons <==> s.mons[n].refs > 1)
        && (n in r.mons ==> r.mons[n].id == s.mons[n].id && r.mons[n].listed == (s.mons[n].listed && !s.descs[d].owner))
        && (n in r.mons ==>
             r.mons[n].slots == (if s.descs[d].owner then Empty(|s.mons[n].slots|) else s.mons[n].slots))
  {
    DestroyIsDetach(s, d);
  }

  // ---- the close of a handle

  /** A close takes a descriptor out of its slots, and ends it if no message on its way holds it; if one does, the
      descriptor is inactive and waits for the last of them. Every other descriptor stays as it is, unless its monitor
      ends its work because the owner is gone. */
  lemma CloseEffect(s: State, d: nat, x: nat)
    requires Inv(s) && Handle(s, d) && x in s.descs
    ensures var r, m := CloseHandle(s, d), s.descs[d].monitor;
      && r.descs.Keys == s.descs.Keys - (if d in s.flying then {} else {d}) && r.flying == s.flying
      && (x == d && x in r.descs ==>
           r.descs[x] == s.descs[x].(refs := r.descs[x].refs, open := false, active := false))
      && (x != d ==> r.descs[x] == s.descs[x].(refs := r.descs[x].refs, active := s.descs[x].active &&
           !(d !in s.flying && s.descs[d].owner && m.Some? && In(s, m.value, x))))
  {
    CloseIs(s, d);
    ReleasedDesc(s, d, x);
    if d !in s.flying && x != d {
      DestroyDesc(Released(s, d), d, x);
      if s.descs[d].monitor.Some? {
        SlotsLeft(s, d, x);
      }
    } else if d !in s.flying {
      DestroyIsDetach(Released(s, d), d);
    }
  }

  /** A close in two steps. */
  lemma CloseIs(s: State, d: nat)
    requires Inv(s) && Handle(s, d)
    ensures var t := Released(s, d);
      && PointersOk(t) && d in t.descs && t.descs.Keys == s.descs.Keys && t.flying == s.flying
      && t.descs[d].monitor == s.descs[d].monitor && t.descs[d].owner == s.descs[d].owner
      && (t.descs[d].monitor.Some? ==> t.mons[t.descs[d].monitor.value].refs >= 1)
      && CloseHandle(s, d) == if d in s.flying then t else Destroy(t, d)
  {
    ReleasedShape(s, d);
    ReleasedKeeps(s, d);
    ReleasedLeft(s, d);
  }

  lemma ReleasedDesc(s: State, d: nat, x: nat)
    requires Inv(s) && Handle(s, d) && x in s.descs
    ensures var t := Released(s, d);
      x in t.descs && t.descs[x] ==
        if x == d then s.descs[d].(refs := t.descs[d].refs, open := false, active := false) else s.descs[x]
  {
    ReleasedShape(s, d);
  }

  /** After the handle's own reference is given up, the messages on their way hold the descriptor. */
  lemma ReleasedLeft(s: State, d: nat)
    requires Inv(s) && Handle(s, d)
    ensures Released(s, d).flying == s.flying && Released(s, d).descs[d].refs == s.flying[d]
  {
    ReleasedRefs(s, d);
    assert Released(s, d).descs[d].refs == Named(Released(s, d), d) + s.flying[d];
    if s.descs[d].monitor.Some? {
      var slots := Cleared(s.mons[s.descs[d].monitor.value].slots, d);
      CountPositive(slots, d);
    }
  }

  lemma SlotsLeft(s: State, d: nat, x: nat)
    requires Inv(s) && Handle(s, d) && x != d && s.descs[d].monitor.Some?
    ensures In(Released(s, d), s.descs[d].monitor.value, x) <==> In(s, s.descs[d].monitor.value, x)
  {
    ReleasedMon(s, d, s.descs[d].monitor.value);
    ClearedHas(s.mons[s.descs[d].monitor.value].slots, d, x);
  }

  lemma ClearedHas(slots: seq<Option<nat>>, d: nat, x: nat)
    requires x != d
    ensures Some(x) in Cleared(slots, d) <==> Some(x) in slots
  {
    if Some(x) in slots {
      var i :| 0 <= i < |slots| && slots[i] == Some(x);
      assert Cleared(slots, d)[i] == Some(x);
    }
  }

  /** Monitor n after a close: it is there as long as a descriptor points to it; it loses the slots of the closed
      descriptor, or, with its owner, all of them and its place on the list. */
  lemma CloseMon(s: State, d: nat, n: nat, j: nat)
    requires Inv(s) && Handle(s, d) && n in s.mons && j < MODULES
    ensures var r, mine := CloseHandle(s, d), s.descs[d].monitor == Some(n);
      var ended := mine && d !in s.flying;
      var emptied := mine && (s.mons[n].slots[j] == Some(d) || (ended && s.descs[d].owner));
      && (n in r.mons <==> !(ended && s.mons[n].refs == 1))
      && (n in r.mons ==> |r.mons[n].slots| == MODULES && r.mons[n].id == s.mons[n].id)
      && (n in r.mons ==> r.mons[n].listed == (s.mons[n].listed && !(ended && s.descs[d].owner)))
      && (n in r.mons ==> r.mons[n].slots[j] == if emptied then None else s.mons[n].slots[j])
  {
    CloseIs(s, d);
    ReleasedMon(s, d, n);
    if d !in s.flying {
      DestroyMon(Released(s, d), d, n);
    }
  }

  lemma ReleasedMon(s: State, d: nat, n: nat)
    requires Inv(s) && Handle(s, d) && n in s.mons
    ensures n in Released(s, d).mons && Released(s, d).mons[n] ==
      if s.descs[d].monitor == Some(n) then s.mons[n].(slots := Cleared(s.mons[n].slots, d)) else s.mons[n]
  {
  }

  // ---- the end of a message

  /** With the last message that holds it a closed descriptor goes, as in a close; an open one stays. */
  lemma SentEffect(s: State, d: nat)
    requires Inv(s) && d in s.flying
    ensures var r := MessageOut(s, d);
      && d in s.descs && r.flying == s.flying - multiset{d}
      && (d in r.descs <==> s.descs[d].open || s.flying[d] > 1)
      && r == if d in r.descs then Landed(s, d) else Destroy(Landed(s, d), d)
  {
    var t := Landed(s, d);
    LandedKeeps(s, d);
    LandedLeft(s, d);
    if t.descs[d].refs == 0 {
      DestroyIsDetach(t, d);
    }
  }

  /** Its reference gone, the descriptor has others if its handle is open or a message is on its way. */
  lemma LandedLeft(s: State, d: nat)
    requires Inv(s) && d in s.flying
    ensures d in s.descs && Landed(s, d).flying == s.flying - multiset{d} && SlotsOk(Landed(s, d))
    ensures Landed(s, d).descs[d].refs == 0 <==> !s.descs[d].open && s.flying[d] == 1
  {
    LandedRefs(s, d);
    LandedKeeps(s, d);
    var t := Landed(s, d);
    assert t.descs[d].refs == (if t.descs[d].open then 1 else 0) + Named(t, d) + t.flying[d];
    if !s.descs[d].open {
      NotNamed(t, d);
    }
  }

  lemma NotNamed(s: State, d: nat)
    requires SlotsOk(s) && d in s.descs && !s.descs[d].open
    ensures Named(s, d) == 0
  {
    if s.descs[d].monitor.Some? && s.descs[d].monitor.value in s.mons {
      CountPositive(s.mons[s.descs[d].monitor.value].slots, d);
    }
  }

  // ---- the CLOSE of a monitor

  /** d points to a monitor that counts it. */
  predicate Points(s: State, d: nat) {
    && d in s.descs && s.descs[d].monitor.Some?
    && s.descs[d].monitor.value in s.mons && s.mons[s.descs[d].monitor.value].refs >= 1
  }

  /** A CLOSE takes the pointer from its descriptor, and what belongs to an owner. Other descriptors stay as they are;
      if the owner leaves, those in a slot of the monitor are no longer active. */
  lemma LeaveDesc(s: State, d: nat, x: nat)
    requires Points(s, d) && x in s.descs
    ensures var r, m := Leave(s, d), s.descs[d].monitor.value;
      && r.descs.Keys == s.descs.Keys && r.flying == s.flying
      && (x == d ==> r.descs[x].monitor.None? && !r.descs[x].owner && r.descs[x].open == s.descs[x].open)
      && (x != d ==> r.descs[x] == s.descs[x].(refs := r.descs[x].refs,
            active := s.descs[x].active && !(s.descs[d].owner && In(s, m, x))))
  {
    LeaveIsUnpoint(s, d);
    if s.descs[d].owner {
      Ended(s, s.descs[d].monitor.value, x);
      Ended(s, s.descs[d].monitor.value, d);
    }
  }

  lemma Ended(s: State, m: nat, x: nat)
    requires m in s.mons && x in s.descs
    ensures var r := EndMessages(Unlist(s, m), m);
      && r.descs.Keys == s.descs.Keys && r.mons.Keys == s.mons.Keys && r.flying == s.flying
      && r.descs[x] == s.descs[x].(refs := r.descs[x].refs, active := s.descs[x].active && !In(s, m, x))
      && r.mons[m] == s.mons[m].(listed := false, slots := Empty(|s.mons[m].slots|))
      && forall n <- s.mons :: n != m ==> r.mons[n] == s.mons[n]
  {
    EndDesc(Unlist(s, m), m, x);
  }

  /** The monitor goes when no other descriptor points to it, and when its owner leaves it is no longer listed and has
      empty slots. No other monitor changes. */
  lemma LeaveMon(s: State, d: nat, n: nat)
    requires Points(s, d) && n in s.mons
    ensures var r, mine := Leave(s, d), s.descs[d].monitor == Some(n);
      && (n in r.mons <==> !mine || s.mons[n].refs > 1) && (!mine ==> r.mons[n] == s.mons[n])
      && (mine && n in r.mons ==> r.mons[n].listed == (s.mons[n].listed && !s.descs[d].owner))
      && (mine && n in r.mons ==>
            r.mons[n].slots == (if s.descs[d].owner then Empty(|s.mons[n].slots|) else s.mons[n].slots))
  {
    LeaveIsUnpoint(s, d);
    if s.descs[d].owner {
      Ended(s, s.descs[d].monitor.value, d);
    }
  }
}
