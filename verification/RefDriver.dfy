/** The reference protocol in place. Closing a reference may destroy a descriptor, which may end a monitor, which closes
    references again; the decreases clauses show that this never goes round twice. */
module RefDriver {
  import opened Bytes
  import opened RefProtocol

  ghost predicate PtrOk(s: State) {
    forall d :: d in s.descs && s.descs[d].monitor.Some? ==> s.descs[d].monitor.value in s.mons
  }

  /** Each descriptor in a slot of m has a reference beyond those of the slots. */
  ghost predicate Held(s: State, m: nat) {
    && PtrOk(s) && m in s.mons
    && forall x :: Some(x) in s.mons[m].slots ==> x in s.descs && s.descs[x].refs > Count(s.mons[m].slots, x)
  }

  lemma InvHeld(s: State, m: nat, d: nat)
    requires RefsOk(s) && SlotsOk(s) && PointersOk(s) && m in s.mons && d in s.descs && !s.descs[d].open
    ensures Held(s.(descs := s.descs[d := s.descs[d].(monitor := None)]), m)
  {
  }

  /** A descriptor without references that may be destroyed. */
  ghost predicate Closable(s: State, d: nat) {
    && PtrOk(s) && d in s.descs && s.descs[d].refs == 0
    && (s.descs[d].monitor.Some? ==>
          var m := s.descs[d].monitor.value;
          && Held(s.(descs := s.descs[d := s.descs[d].(monitor := None)]), m)
          && (s.mons[m].refs == 1 ==> forall i :: 0 <= i < |s.mons[m].slots| ==> s.mons[m].slots[i] == None))
  }

  lemma SoundClosable(s: State, d: nat)
    requires Sound(s) && d in s.descs && s.descs[d].refs == 0
    ensures Closable(s, d)
  {
    UnusedNow(s, d);
    if s.descs[d].monitor.Some? {
      var m := s.descs[d].monitor.value;
      InvHeld(s, m, d);
      if s.mons[m].refs == 1 {
        LastPointer(s, d, m);
      }
    }
  }

  lemma LinkHeld(s: State, d: nat, m: nat)
    requires RefsOk(s) && SlotsOk(s) && PointersOk(s) && m in s.mons && Handle(s, d)
    ensures Held(Link(s, d, m), m)
    ensures Link(s, d, m).descs[d].refs > Count(s.mons[m].slots, d)
  {
    CountPositive(s.mons[m].slots, d);
  }

  lemma {:induction false} CountHere(slots: seq<Option<nat>>, i: nat, x: nat)
    requires i < |slots|
    ensures Count(slots[..i + 1], x) == Count(slots[..i], x) + (if slots[i] == Some(x) then 1 else 0)
    ensures Count(slots[..i + 1], x) <= Count(slots, x)
  {
    if i == 0 {
      assert slots[..1][1..] == [];
    } else {
      assert slots[..i + 1][1..] == slots[1..][..i];
      assert slots[..i][1..] == slots[1..][..i - 1];
      CountHere(slots[1..], i - 1, x);
    }
  }

  // ---- the slot loops, up to slot i

  function EndTo(s: State, m: nat, i: nat): (r: State)
    requires m in s.mons && i <= |s.mons[m].slots|
  {
    var slots := s.mons[m].slots;
    s.(descs := map x | x in s.descs ::
         if Count(slots[..i], x) > 0 then s.descs[x].(refs := s.descs[x].refs - Count(slots[..i], x), active := false)
         else s.descs[x],
       mons := s.mons[m := s.mons[m].(slots := Empty(i) + slots[i..])])
  }

  lemma EndToEnds(s: State, m: nat)
    requires m in s.mons
    ensures EndTo(s, m, 0) == s && EndTo(s, m, |s.mons[m].slots|) == EndMessages(s, m)
  {
    var slots := s.mons[m].slots;
    assert slots[..|slots|] == slots;
    assert EndTo(s, m, 0).descs == s.descs;
    assert Empty(0) + slots[0..] == slots;
    assert Empty(|slots|) + slots[|slots|..] == Empty(|slots|);
    assert EndTo(s, m, 0).mons == s.mons;
    assert EndTo(s, m, |slots|).mons == EndMessages(s, m).mons;
  }

  lemma EndToSkip(s: State, m: nat, i: nat)
    requires m in s.mons && i < |s.mons[m].slots| && s.mons[m].slots[i].None?
    ensures EndTo(s, m, i + 1) == EndTo(s, m, i)
  {
    var slots := s.mons[m].slots;
    forall x ensures Count(slots[..i + 1], x) == Count(slots[..i], x) {
      CountHere(slots, i, x);
    }
    assert EndTo(s, m, i + 1).descs == EndTo(s, m, i).descs;
    assert Empty(i + 1) + slots[i + 1..] == Empty(i) + slots[i..];
  }

  /** One slot that names x: end of file, empty the slot, drop the reference. */
  lemma EndToNext(s: State, m: nat, i: nat, x: nat)
    requires m in s.mons && i < |s.mons[m].slots| && s.mons[m].slots[i] == Some(x) && x in s.descs
    ensures var t := EndTo(s, m, i);
      var u := SetSlot(t.(descs := t.descs[x := t.descs[x].(active := false)]), m, i, None);
      EndTo(s, m, i + 1) == Drop(u, x)
  {
    var slots := s.mons[m].slots;
    forall y ensures Count(slots[..i + 1], y) == Count(slots[..i], y) + if y == x then 1 else 0 {
      CountHere(slots, i, y);
    }
    var t := EndTo(s, m, i);
    var u := SetSlot(t.(descs := t.descs[x := t.descs[x].(active := false)]), m, i, None);
    assert EndTo(s, m, i + 1).descs == Drop(u, x).descs;
    EmptyNext(slots, i);
  }

  function UnseatTo(s: State, m: nat, d: nat, i: nat): (r: State)
    requires d in s.descs && m in s.mons && i <= |s.mons[m].slots|
  {
    var slots := s.mons[m].slots;
    s.(descs := s.descs[d := s.descs[d].(refs := s.descs[d].refs - Count(slots[..i], d))],
       mons := s.mons[m := s.mons[m].(slots := Cleared(slots[..i], d) + slots[i..])])
  }

  lemma UnseatToEnds(s: State, m: nat, d: nat)
    requires d in s.descs && m in s.mons
    ensures UnseatTo(s, m, d, 0) == s && UnseatTo(s, m, d, |s.mons[m].slots|) == Unseat(s, m, d)
  {
    var slots := s.mons[m].slots;
    assert slots[..|slots|] == slots;
    assert UnseatTo(s, m, d, 0).descs == s.descs;
    assert Cleared(slots[..0], d) + slots[0..] == slots;
    assert Cleared(slots, d) + slots[|slots|..] == Cleared(slots, d);
    assert UnseatTo(s, m, d, 0).mons == s.mons;
    assert UnseatTo(s, m, d, |slots|).mons == Unseat(s, m, d).mons;
  }

  lemma UnseatToNext(s: State, m: nat, d: nat, i: nat)
    requires d in s.descs && m in s.mons && i < |s.mons[m].slots|
    ensures var t := UnseatTo(s, m, d, i);
      UnseatTo(s, m, d, i + 1) == if s.mons[m].slots[i] == Some(d) then Drop(SetSlot(t, m, i, None), d) else t
  {
    var slots := s.mons[m].slots;
    CountHere(slots, i, d);
    ClearedNext(slots, d, i);
    UnseatParts(s, m, d, i);
  }

  /** Slots and references after one more slot. */
  lemma UnseatParts(s: State, m: nat, d: nat, i: nat)
    requires d in s.descs && m in s.mons && i < |s.mons[m].slots|
    requires var slots, b := s.mons[m].slots, Cleared(s.mons[m].slots[..i], d) + s.mons[m].slots[i..];
      && Count(slots[..i + 1], d) == Count(slots[..i], d) + (if slots[i] == Some(d) then 1 else 0)
      && Cleared(slots[..i + 1], d) + slots[i + 1..] == if slots[i] == Some(d) then b[i := None] else b
    ensures var t := UnseatTo(s, m, d, i);
      UnseatTo(s, m, d, i + 1) == if s.mons[m].slots[i] == Some(d) then Drop(SetSlot(t, m, i, None), d) else t
  {
  }

  lemma ClearedNext(slots: seq<Option<nat>>, d: nat, i: nat)
    requires i < |slots|
    ensures var b := Cleared(slots[..i], d) + slots[i..];
      Cleared(slots[..i + 1], d) + slots[i + 1..] == if slots[i] == Some(d) then b[i := None] else b
  {
  }

  lemma EmptyNext(slots: seq<Option<nat>>, i: nat)
    requires i < |slots|
    ensures Empty(i + 1) + slots[i + 1..] == (Empty(i) + slots[i..])[i := None]
  {
  }

  /** The new holder of a slot, too, has a reference of its own. */
  ghost predicate Holds(s: State, m: nat, d: nat) {
    && Held(s, m) && d in s.descs && s.descs[d].refs > Count(s.mons[m].slots, d) && |s.mons[m].slots| == MODULES
  }

  lemma SeatHeld(s: State, m: nat, i: nat, d: nat)
    requires Holds(s, m, d) && i < MODULES
    ensures s.mons[m].slots[i] in s.mons[m].slots
    ensures Holds(Seat(s, m, i, d), m, d)
  {
    var slots := s.mons[m].slots;
    var r := Seat(s, m, i, d);
    assert slots[i] in slots;
    forall x | x == d || Some(x) in r.mons[m].slots ensures x in r.descs &&
      r.descs[x].refs > Count(r.mons[m].slots, x) {
      CountSet(slots, i, Some(d), x);
    }
  }

  ghost predicate MayAttach(s: State, d: nat) {
    && d in s.descs && SlotsOk(s) && (forall m :: m in s.list ==> m in s.mons)
    && forall m :: m in s.mons ==> Holds(Link(s, d, m), m, d)
  }

  ghost predicate MayClose(s: State, d: nat) {
    && PtrOk(s) && d in s.descs && s.descs[d].refs > Named(s, d)
    && PtrOk(Shut(s, d)) && (Shut(s, d).descs[d].refs == 1 ==> Closable(Released(s, d), d))
  }

  lemma AttachReady(s: State, d: nat)
    requires RefsOk(s) && SlotsOk(s) && PointersOk(s) && Handle(s, d) && forall m :: m in s.list ==> m in s.mons
    ensures MayAttach(s, d)
  {
    forall m | m in s.mons ensures Holds(Link(s, d, m), m, d) {
      LinkHeld(s, d, m);
    }
  }

  lemma CloseReady(s: State, d: nat)
    requires Inv(s) && Handle(s, d)
    ensures MayClose(s, d)
  {
    ReleasedKeeps(s, d);
    ShutPtr(s, d);
    if Shut(s, d).descs[d].refs == 1 {
      SoundClosable(Released(s, d), d);
    }
  }

  lemma ShutPtr(s: State, d: nat)
    requires PtrOk(s) && d in s.descs
    ensures PtrOk(Shut(s, d))
  {
  }

  lemma LandedReady(s: State, d: nat)
    requires Inv(s) && d in s.flying
    ensures d in s.descs && PtrOk(s)
    ensures s.descs[d].refs == 1 ==> Closable(Landed(s, d), d)
  {
    LandedKeeps(s, d);
    if s.descs[d].refs == 1 {
      SoundClosable(Landed(s, d), d);
    }
  }

  ghost predicate MayLeave(s: State, d: nat) {
    && d in s.descs && s.descs[d].monitor.Some? && Held(s, s.descs[d].monitor.value)
    && var m := s.descs[d].monitor.value;
      s.mons[m].refs == 1 && !s.descs[d].owner ==> forall i :: 0 <= i < |s.mons[m].slots| ==> s.mons[m].slots[i] == None
  }

  lemma LeaveReady(s: State, d: nat)
    requires Inv(s) && Legal(s, Leaving(d))
    ensures MayLeave(s, d)
  {
    var m := s.descs[d].monitor.value;
    if s.mons[m].refs == 1 && !s.descs[d].owner {
      LastPointer(s, d, m);
    }
  }

  /** A legal step meets the needs of the code that carries it out. */
  lemma Prepared(s: State, op: Op)
    requires Ok(s) && Legal(s, op)
    ensures op.Leaving? ==> MayLeave(s, op.d)
    ensures op.Resetting? ==> s.descs[op.d].monitor.Some? && s.descs[op.d].monitor.value in s.mons
    ensures op.Attaching? ==> MayAttach(s, op.d)
    ensures op.Closing? ==> MayClose(s, op.d)
    ensures op.Sending? ==> var slot := s.mons[op.m].slots[op.i]; slot.Some? ==> slot.value in s.descs
    ensures op.Sent? ==> op.d in s.descs && PtrOk(s) && (s.descs[op.d].refs == 1 ==> Closable(Landed(s, op.d), op.d))
  {
    match op
    case Attaching(d, _, _, _) => AttachReady(s, d);
    case Leaving(d) => LeaveReady(s, d);
    case Closing(d) => CloseReady(s, d);
    case Sending(m, i) => MessageInKeeps(s, m, i);
    case Sent(d) => LandedReady(s, d);
    case _ =>
  }

  class Manager {
    var descs: map<nat, Desc>
    var mons: map<nat, Mon>
    var list: seq<nat>
    var opens: int
    var monitors: int
    var flying: multiset<nat>

    function View(): (s: State)
      reads this
    {
      State(descs, mons, list, opens, monitors, flying)
    }

    /** co_manager_close. */
    method CloseRef(d: nat)
      requires d in descs && PtrOk(View())
      requires descs[d].refs == 1 ==> Closable(Drop(View(), d), d)
      modifies this
      ensures View() == Close(old(View()), d)
      decreases if descs[d].refs == 1 then 4 else 0
    {
      descs := descs[d := descs[d].(refs := descs[d].refs - 1)];
      if descs[d].refs == 0 {
        CloseDesc(d);
      }
    }

    /** co_manager_close_. */
    method CloseDesc(d: nat)
      requires Closable(View(), d)
      modifies this
      ensures View() == Destroy(old(View()), d)
      decreases 3
    {
      if descs[d].monitor.Some? {
        var m := descs[d].monitor.value;
        descs := descs[d := descs[d].(monitor := None)];
        RefDown(m, descs[d].owner);
      }
      descs := descs - {d};
      opens := opens - 1;
    }

    /** co_monitor_refdown. */
    method RefDown(m: nat, owner: bool)
      requires Held(View(), m)
      requires mons[m].refs == 1 && !owner ==> forall i :: 0 <= i < |mons[m].slots| ==> mons[m].slots[i] == None
      modifies this
      ensures View() == Refdown(old(View()), m, owner)
      decreases 2
    {
      if mons[m].refs <= 0 {
        return;
      }
      if owner && mons[m].listed {
        mons := mons[m := mons[m].(listed := false)];
        monitors := monitors - 1;
        list := Remove(list, m);
      }
      if owner {
        SendEnds(m);
      }
      mons := mons[m := mons[m].(refs := mons[m].refs - 1)];
      if mons[m].refs == 0 {
        DestroyMonitor(m);
      }
    }

    /** co_monitor_destroy: only a monitor without references and with all slots empty. */
    method DestroyMonitor(m: nat)
      requires m in mons && mons[m].refs == 0 && forall i :: 0 <= i < |mons[m].slots| ==> mons[m].slots[i] == None
      modifies this`mons
      ensures mons == old(mons) - {m}
    {
      mons := mons - {m};
    }

    /** One slot of send_monitor_end_messages. */
    method EndSlot(m: nat, i: nat, ghost s: State)
      requires Held(s, m) && i < |s.mons[m].slots| && View() == EndTo(s, m, i)
      modifies this
      ensures View() == EndTo(s, m, i + 1)
      decreases 1, 0
    {
      var x := mons[m].slots[i];
      assert x == s.mons[m].slots[i] && x in s.mons[m].slots;
      if x.None? {
        EndToSkip(s, m, i);
      } else {
        EndToNext(s, m, i, x.value);
        CountHere(s.mons[m].slots, i, x.value);
        descs := descs[x.value := descs[x.value].(active := false)];
        mons := mons[m := mons[m].(slots := mons[m].slots[i := None])];
        assert descs[x.value].refs >= 2;
        CloseRef(x.value);
      }
    }

    /** send_monitor_end_messages. */
    method SendEnds(m: nat)
      requires Held(View(), m)
      modifies this
      ensures View() == EndMessages(old(View()), m)
      decreases 1, 1
    {
      ghost var s := View();
      EndToEnds(s, m);
      var i, n := 0, |mons[m].slots|;
      while i < n
        invariant 0 <= i <= n == |s.mons[m].slots| && View() == EndTo(s, m, i)
      {
        EndSlot(m, i, s);
        i := i + 1;
      }
    }

    /** co_manager_open, when the host grants the memory. */
    method OpenHandle(d: nat)
      requires d !in descs
      modifies this
      ensures View() == Open(old(View()), d)
    {
      descs := descs[d := Desc(1, None, false, true, true)];
      opens := opens + 1;
    }

    /** CO_MANAGER_IOCTL_CREATE. */
    method CreateMonitor(d: nat, m: nat, id: int, granted: bool) returns (ok: bool)
      requires d in descs && m !in mons
      modifies this
      ensures View() == Create(old(View()), d, m, id, granted)
      ensures ok <==> m in mons
    {
      if descs[d].monitor.Some? || !granted {
        return false;
      }
      mons := mons[m := Mon(1, Empty(MODULES), true, id, d)];
      monitors := monitors + 1;
      list := [m] + list;
      descs := descs[d := descs[d].(monitor := Some(m), owner := true)];
      ok := true;
    }

    method Find(id: int) returns (r: Option<nat>)
      requires forall m :: m in list ==> m in mons
      ensures r == FindMonitor(View(), list, id)
    {
      var i := 0;
      while i < |list|
        invariant 0 <= i <= |list|
        invariant FindMonitor(View(), list, id) == FindMonitor(View(), list[i..], id)
      {
        assert list[i] in list;
        if mons[list[i]].id == id {
          return Some(list[i]);
        }
        assert list[i..][1..] == list[i + 1..];
        i := i + 1;
      }
      r := None;
    }

    /** One module of CO_MANAGER_IOCTL_ATTACH. */
    method SeatModule(m: nat, i: nat, d: nat)
      requires Holds(View(), m, d) && i < MODULES
      modifies this
      ensures View() == Seat(old(View()), m, i, d) && Holds(View(), m, d)
    {
      ghost var s := View();
      SeatHeld(s, m, i, d);
      var before := mons[m].slots[i];
      if before.Some? {
        CountPositive(mons[m].slots, before.value);
        CloseRef(before.value);
      }
      mons := mons[m := mons[m].(slots := mons[m].slots[i := Some(d)])];
      descs := descs[d := descs[d].(refs := descs[d].refs + 1)];
    }

    /** CO_MANAGER_IOCTL_ATTACH, up to the first seat outside the slot table; `inside`: there is none. */
    method AttachTo(d: nat, id: int, modules: Modules, count: int) returns (ok: bool, inside: bool)
      requires MayAttach(View(), d)
      modifies this
      ensures (View(), inside) == Attach(old(View()), d, id, modules, count)
      ensures ok <==> FindMonitor(old(View()), old(list), id).Some?
    {
      var f := Find(id);
      if f.None? {
        descs := descs[d := descs[d].(monitor := None)];
        return false, true;
      }
      inside := LinkAndSeat(f.value, modules, count, d);
      ok := true;
    }

    method LinkAndSeat(m: nat, modules: Modules, count: int, d: nat) returns (inside: bool)
      requires d in descs && m in mons && Holds(Link(View(), d, m), m, d) && Seats(Link(View(), d, m), m, d)
      modifies this
      ensures var l := Leading(modules, count, 0);
        View() == SeatAll(Link(old(View()), d, m), m, modules[..l], d) && (inside <==> count <= l)
    {
      mons := mons[m := mons[m].(refs := mons[m].refs + 1)];
      descs := descs[d := descs[d].(monitor := Some(m))];
      inside := SeatModules(m, modules, count, d);
    }

    /** The seat loop. */
    method SeatModules(m: nat, modules: Modules, count: int, d: nat) returns (inside: bool)
      requires Holds(View(), m, d) && Seats(View(), m, d)
      modifies this
      ensures var l := Leading(modules, count, 0);
        View() == SeatAll(old(View()), m, modules[..l], d) && (inside <==> count <= l)
    {
      ghost var s := View();
      var i := 0;
      while i < count
        invariant 0 <= i <= |modules| && AllInTable(modules[..i]) && Holds(View(), m, d)
        invariant View() == SeatAll(s, m, modules[..i], d) && Leading(modules, count, 0) == Leading(modules, count, i)
        invariant count >= 0 ==> i <= count
        decreases count - i
      {
        if i == |modules| || !(0 <= modules[i] < MODULES) {
          return false;
        }
        SeatNext(m, modules, i, d, s);
        i := i + 1;
      }
      inside := true;
    }

    method SeatNext(m: nat, modules: seq<int>, i: nat, d: nat, ghost s: State)
      requires i < |modules| && AllInTable(modules[..i]) && 0 <= modules[i] < MODULES && Seats(s, m, d)
      requires Holds(View(), m, d) && View() == SeatAll(s, m, modules[..i], d)
      modifies this
      ensures AllInTable(modules[..i + 1]) && Holds(View(), m, d) && View() == SeatAll(s, m, modules[..i + 1], d)
    {
      SeatModule(m, modules[i], d);
      assert modules[..i + 1][..i] == modules[..i];
    }

    /** The slot loop of co_manager_open_desc_deactive_and_close. */
    method UnseatSlots(m: nat, d: nat)
      requires PtrOk(View()) && d in descs && m in mons && descs[d].refs > Count(mons[m].slots, d)
      modifies this
      ensures View() == Unseat(old(View()), m, d)
    {
      ghost var s := View();
      UnseatToEnds(s, m, d);
      var i, n := 0, |mons[m].slots|;
      while i < n
        invariant 0 <= i <= n == |s.mons[m].slots| && View() == UnseatTo(s, m, d, i)
      {
        UnseatToNext(s, m, d, i);
        CountHere(s.mons[m].slots, i, d);
        if mons[m].slots[i] == Some(d) {
          mons := mons[m := mons[m].(slots := mons[m].slots[i := None])];
          CloseRef(d);
        }
        i := i + 1;
      }
    }

    /** co_manager_open_desc_deactive_and_close. */
    method CloseHandle(d: nat)
      requires MayClose(View(), d)
      modifies this
      ensures View() == Close(Shut(old(View()), d), d)
    {
      descs := descs[d := descs[d].(active := false, open := false)];
      if descs[d].monitor.Some? {
        UnseatSlots(descs[d].monitor.value, d);
      }
      CloseRef(d);
    }

    /** CO_MONITOR_IOCTL_CLOSE. */
    method LeaveMonitor(d: nat)
      requires MayLeave(View(), d)
      modifies this
      ensures View() == Leave(old(View()), d)
    {
      RefDown(descs[d].monitor.value, descs[d].owner);
      descs := descs[d := descs[d].(monitor := None, owner := false)];
    }

    /** CO_MONITOR_IOCTL_RESET, on the list of monitors. */
    method ResetMonitor(m: nat)
      requires m in mons
      modifies this
      ensures View() == Relist(old(View()), m)
    {
      if !mons[m].listed {
        mons := mons[m := mons[m].(listed := true)];
        list := [m] + list;
      }
    }

    /** incoming_message up to the delivery. */
    method MessageBegin(m: nat, i: nat) returns (d: Option<nat>)
      requires m in mons && i < |mons[m].slots| && (mons[m].slots[i].Some? ==> mons[m].slots[i].value in descs)
      modifies this
      ensures View() == MessageIn(old(View()), m, i) && d == old(mons)[m].slots[i]
    {
      d := mons[m].slots[i];
      if d.Some? && descs[d.value].refs != 0 {
        descs := descs[d.value := descs[d.value].(refs := descs[d.value].refs + 1)];
        flying := flying + multiset{d.value};
      }
    }

    /** incoming_message after the delivery. */
    method MessageEnd(d: nat)
      requires d in descs && PtrOk(View()) && (descs[d].refs == 1 ==> Closable(Landed(View(), d), d))
      modifies this
      ensures View() == MessageOut(old(View()), d)
    {
      flying := flying - multiset{d};
      CloseRef(d);
    }

    /** Any step that the host allows. */
    method Serve(op: Op)
      requires Ok(View()) && Legal(View(), op)
      modifies this
      ensures View() == Step(old(View()), op) && Ok(View())
    {
      ghost var next := Step(View(), op);
      Prepared(View(), op);
      match op
      case Opening(d) => OpenHandle(d);
      case Creating(d, m, id, ok) => var _ := CreateMonitor(d, m, id, ok);
      case Attaching(d, id, modules, count) => var _, _ := AttachTo(d, id, modules, count);
      case Leaving(d) => LeaveMonitor(d);
      case Resetting(d) => ResetMonitor(descs[d].monitor.value);
      case Closing(d) => CloseHandle(d);
      case Sending(m, i) => var _ := MessageBegin(m, i);
      case Sent(d) => MessageEnd(d);
    }
  }
}
