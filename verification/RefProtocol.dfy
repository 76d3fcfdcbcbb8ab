/** kernel/manager.c, kernel/monitor.c: driver handles and monitors. A descriptor is kept alive by its open handle, by
    the module slots of a monitor that name it and by messages on their way to it; a monitor is kept alive by the
    descriptors that point to it. Each ioctl, close and message half is one atomic step. */
module RefProtocol {
  import opened Bytes

  const MODULES: nat := 156

  /** `open`: the user's handle has not been closed. `creator`: the descriptor whose CREATE made the monitor. Both are
      history, not fields of the driver. */
  datatype Desc = Desc(refs: int, monitor: Option<nat>, owner: bool, active: bool, open: bool)
  datatype Mon = Mon(refs: int, slots: seq<Option<nat>>, listed: bool, id: int, creator: nat)

  /** `list`: manager->monitors. `opens`: num_opens. `monitors`: monitors_count. `flying`: one element for each
      message that holds a reference. */
  datatype State = State(descs: map<nat, Desc>, mons: map<nat, Mon>, list: seq<nat>, opens: int, monitors: int,
                         flying: multiset<nat>)

  // ---- the invariant

  function Count(slots: seq<Option<nat>>, d: nat): (n: nat) {
    if slots == [] then 0 else (if slots[0] == Some(d) then 1 else 0) + Count(slots[1..], d)
  }

  ghost function Pointing(descs: map<nat, Desc>, m: nat): (ds: set<nat>) {
    set d | d in descs && descs[d].monitor == Some(m)
  }

  /** The slots that name d. */
  function Named(s: State, d: nat): (n: nat)
    requires d in s.descs
  {
    match s.descs[d].monitor
    case None => 0
    case Some(m) => if m in s.mons then Count(s.mons[m].slots, d) else 0
  }

  ghost predicate RefsOk(s: State) {
    forall d :: d in s.descs ==>
      s.descs[d].refs == (if s.descs[d].open then 1 else 0) + Named(s, d) + s.flying[d]
  }

  /** A slot names only a descriptor whose handle is open and which points back to the slot's monitor. */
  ghost predicate SlotsOk(s: State) {
    forall m :: m in s.mons ==>
      |s.mons[m].slots| == MODULES && forall d :: Some(d) in s.mons[m].slots ==>
        d in s.descs && s.descs[d].open && s.descs[d].monitor == Some(m)
  }

  ghost predicate PointersOk(s: State) {
    && (forall d :: d in s.descs && s.descs[d].monitor.Some? ==> s.descs[d].monitor.value in s.mons)
    && (forall m :: m in s.mons ==> s.mons[m].refs == |Pointing(s.descs, m)|)
  }

  /** A monitor is listed only as long as the descriptor that owns it exists. */
  ghost predicate OwnersOk(s: State) {
    && (forall d :: d in s.descs && s.descs[d].owner ==> s.descs[d].monitor.Some?)
    && (forall m :: m in s.mons && s.mons[m].listed ==>
          var c := s.mons[m].creator; c in s.descs && s.descs[c].owner && s.descs[c].monitor == Some(m))
  }

  ghost predicate ListOk(s: State) {
    && (forall m :: m in s.list <==> m in s.mons && s.mons[m].listed)
    && (forall i, j :: 0 <= i < j < |s.list| ==> s.list[i] != s.list[j])
    && s.monitors == |s.list| && s.opens == |s.descs|
    && (forall d :: d in s.flying ==> d in s.descs)
  }

  ghost predicate Sound(s: State) {
    RefsOk(s) && SlotsOk(s) && PointersOk(s) && OwnersOk(s) && ListOk(s)
  }

  ghost predicate Alive(s: State, but: set<nat>) {
    && (forall d :: d in s.descs && d !in but ==> s.descs[d].refs >= 1)
    && (forall m :: m in s.mons ==> s.mons[m].refs >= 1)
  }

  ghost predicate Inv(s: State) { Sound(s) && Alive(s, {}) }

  // ---- the steps

  /** co_manager_open. */
  function Open(s: State, d: nat): (r: State)
    requires d !in s.descs
  {
    s.(descs := s.descs[d := Desc(1, None, false, true, true)], opens := s.opens + 1)
  }

  /** The CREATE ioctl; `ok`: the outcome of co_monitor_create up to its last step. */
  function Create(s: State, d: nat, m: nat, id: int, ok: bool): (r: State)
    requires d in s.descs && m !in s.mons
  {
    if s.descs[d].monitor.Some? || !ok then s
    else
      s.(descs := s.descs[d := s.descs[d].(monitor := Some(m), owner := true)],
         mons := s.mons[m := Mon(1, Empty(MODULES), true, id, d)],
         list := [m] + s.list, monitors := s.monitors + 1)
  }

  /** The search of the ATTACH ioctl. */
  function FindMonitor(s: State, list: seq<nat>, id: int): (r: Option<nat>)
    ensures r.Some? ==> r.value in list && r.value in s.mons && s.mons[r.value].id == id
    ensures r.None? ==> forall m :: m in list && m in s.mons ==> s.mons[m].id != id
  {
    if list == [] then None
    else if list[0] in s.mons && s.mons[list[0]].id == id then Some(list[0])
    else FindMonitor(s, list[1..], id)
  }

  function Drop(s: State, d: nat): (r: State)
    requires d in s.descs
  {
    s.(descs := s.descs[d := s.descs[d].(refs := s.descs[d].refs - 1)])
  }

  function SetSlot(s: State, m: nat, i: nat, v: Option<nat>): (r: State)
    requires m in s.mons && i < |s.mons[m].slots|
  {
    s.(mons := s.mons[m := s.mons[m].(slots := s.mons[m].slots[i := v])])
  }

  /** One module of the ATTACH ioctl: the old holder of the slot loses a reference, the new one gains one. */
  function Seat(s: State, m: nat, i: nat, d: nat): (r: State)
    requires m in s.mons && i < |s.mons[m].slots| && d in s.descs
    requires forall x :: Some(x) in s.mons[m].slots ==> x in s.descs
  {
    var old_ := s.mons[m].slots[i];
    var s1 := if old_.Some? then Drop(s, old_.value) else s;
    var s2 := SetSlot(s1, m, i, Some(d));
    s2.(descs := s2.descs[d := s2.descs[d].(refs := s2.descs[d].refs + 1)])
  }

  function Link(s: State, d: nat, m: nat): (r: State)
    requires d in s.descs && m in s.mons
  {
    s.(descs := s.descs[d := s.descs[d].(monitor := Some(m))],
       mons := s.mons[m := s.mons[m].(refs := s.mons[m].refs + 1)])
  }

  /** The modules of an ATTACH request: a fixed array, of which the request says how many are meant. */
  type Modules = ms: seq<int> | |ms| == 16 witness seq(16, _ => 0)

  predicate AllInTable(modules: seq<int>) { forall j :: 0 <= j < |modules| ==> 0 <= modules[j] < MODULES }

  /** All modules that the request means lie in its array, and their slots in the slot table. */
  predicate Seatable(modules: Modules, count: int) {
    count <= |modules| && forall j :: 0 <= j < count ==> 0 <= modules[j] < MODULES
  }

  /** How far the seat loop gets, from module k on, before it leaves the array or the slot table. */
  function Leading(modules: Modules, count: int, k: nat): (l: nat)
    requires k <= |modules| && AllInTable(modules[..k])
    ensures k <= l <= |modules| && AllInTable(modules[..l]) && (k <= count ==> l <= count)
    ensures l < count && l < |modules| ==> !(0 <= modules[l] < MODULES)
    decreases |modules| - k
  {
    if k < count && k < |modules| && 0 <= modules[k] < MODULES then Leading(modules, count, k + 1) else k
  }

  /** The ATTACH ioctl, up to the first seat outside the slot table or module outside the array, which the code does not
      test; `ok`: there is none. */
  function Attach(s: State, d: nat, id: int, modules: Modules, count: int): (r: (State, bool))
    requires d in s.descs && SlotsOk(s)
  {
    match FindMonitor(s, s.list, id)
    case None => (s.(descs := s.descs[d := s.descs[d].(monitor := None)]), true)
    case Some(m) =>
      var l := Leading(modules, count, 0);
      (SeatAll(Link(s, d, m), m, modules[..l], d), count <= l)
  }

  lemma AllSeatedIff(modules: Modules, count: int)
    ensures count <= Leading(modules, count, 0) <==> Seatable(modules, count)
  {
    var l := Leading(modules, count, 0);
    if count <= l {
      forall j | 0 <= j < count ensures 0 <= modules[j] < MODULES {
        assert modules[..l][j] == modules[j];
      }
    }
  }

  ghost predicate Seats(s: State, m: nat, d: nat) {
    && m in s.mons && d in s.descs && |s.mons[m].slots| == MODULES
    && forall x :: Some(x) in s.mons[m].slots ==> x in s.descs
  }

  function SeatAll(s: State, m: nat, modules: seq<int>, d: nat): (r: State)
    requires Seats(s, m, d) && AllInTable(modules)
    ensures Seats(r, m, d)
    decreases |modules|
  {
    if modules == [] then s
    else
      var n := |modules| - 1;
      Seat(SeatAll(s, m, modules[..n], d), m, modules[n], d)
  }

  /** The slot loop of co_manager_open_desc_deactive_and_close. */
  function Unseat(s: State, m: nat, d: nat): (r: State)
    requires d in s.descs && m in s.mons
  {
    var slots := s.mons[m].slots;
    s.(descs := s.descs[d := s.descs[d].(refs := s.descs[d].refs - Count(slots, d))],
       mons := s.mons[m := s.mons[m].(slots := Cleared(slots, d))])
  }

  function Cleared(slots: seq<Option<nat>>, d: nat): (r: seq<Option<nat>>)
    ensures |r| == |slots| && forall i :: 0 <= i < |slots| ==> r[i] == if slots[i] == Some(d) then None else slots[i]
  {
    seq(|slots|, i requires 0 <= i < |slots| => if slots[i] == Some(d) then None else slots[i])
  }

  /** co_manager_open_desc_deactive_and_close up to its last line. */
  function Shut(s: State, d: nat): (r: State)
    requires d in s.descs && (s.descs[d].monitor.Some? ==> s.descs[d].monitor.value in s.mons)
  {
    var s1 := s.(descs := s.descs[d := s.descs[d].(active := false, open := false)]);
    if s1.descs[d].monitor.Some? then Unseat(s1, s1.descs[d].monitor.value, d) else s1
  }

  /** send_monitor_end_messages. */
  function EndMessages(s: State, m: nat): (r: State)
    requires m in s.mons
  {
    var slots := s.mons[m].slots;
    s.(descs := map x | x in s.descs ::
         if Count(slots, x) > 0 then s.descs[x].(refs := s.descs[x].refs - Count(slots, x), active := false)
         else s.descs[x],
       mons := s.mons[m := s.mons[m].(slots := Empty(|slots|))])
  }

  function Empty(n: nat): (r: seq<Option<nat>>)
    ensures |r| == n && forall i :: 0 <= i < n ==> r[i] == None
  {
    seq(n, _ => None)
  }

  function Unlist(s: State, m: nat): (r: State)
    requires m in s.mons
  {
    if !s.mons[m].listed then s
    else
      s.(mons := s.mons[m := s.mons[m].(listed := false)], monitors := s.monitors - 1, list := Remove(s.list, m))
  }

  function Remove(list: seq<nat>, m: nat): (r: seq<nat>) {
    if list == [] then [] else if list[0] == m then list[1..] else [list[0]] + Remove(list[1..], m)
  }

  /** co_monitor_refdown, after which co_monitor_destroy may have removed the monitor. */
  function Refdown(s: State, m: nat, owner: bool): (r: State)
    requires m in s.mons
  {
    if s.mons[m].refs <= 0 then s
    else
      var s1 := if owner then EndMessages(Unlist(s, m), m) else s;
      var n := s1.mons[m].refs - 1;
      if n == 0 then s1.(mons := s1.mons - {m}) else s1.(mons := s1.mons[m := s1.mons[m].(refs := n)])
  }

  /** co_manager_close_. */
  function Destroy(s: State, d: nat): (r: State)
    requires d in s.descs && (s.descs[d].monitor.Some? ==> s.descs[d].monitor.value in s.mons)
  {
    var s1 :=
      match s.descs[d].monitor
      case None => s
      case Some(m) => Refdown(s.(descs := s.descs[d := s.descs[d].(monitor := None)]), m, s.descs[d].owner);
    s1.(descs := s1.descs - {d}, opens := s1.opens - 1)
  }

  /** co_manager_close. */
  function Close(s: State, d: nat): (r: State)
    requires d in s.descs && (s.descs[d].monitor.Some? ==> s.descs[d].monitor.value in s.mons)
  {
    var s1 := Drop(s, d);
    if s1.descs[d].refs == 0 then Destroy(s1, d) else s1
  }

  /** The close of a handle. */
  function CloseHandle(s: State, d: nat): (r: State)
    requires d in s.descs && (s.descs[d].monitor.Some? ==> s.descs[d].monitor.value in s.mons)
  {
    Close(Shut(s, d), d)
  }

  /** The two halves of incoming_message. */
  function MessageIn(s: State, m: nat, i: nat): (r: State)
    requires m in s.mons && i < |s.mons[m].slots| && (s.mons[m].slots[i].Some? ==> s.mons[m].slots[i].value in s.descs)
  {
    match s.mons[m].slots[i]
    case None => s
    case Some(d) =>
      if s.descs[d].refs == 0 then s
      else s.(descs := s.descs[d := s.descs[d].(refs := s.descs[d].refs + 1)], flying := s.flying + multiset{d})
  }

  function MessageOut(s: State, d: nat): (r: State)
    requires d in s.descs && (s.descs[d].monitor.Some? ==> s.descs[d].monitor.value in s.mons)
  {
    Close(s.(flying := s.flying - multiset{d}), d)
  }

  /** The CLOSE request to a monitor. */
  function Leave(s: State, d: nat): (r: State)
    requires d in s.descs && s.descs[d].monitor.Some? && s.descs[d].monitor.value in s.mons
  {
    var s1 := Refdown(s, s.descs[d].monitor.value, s.descs[d].owner);
    s1.(descs := s1.descs[d := s1.descs[d].(monitor := None, owner := false)])
  }

  /** What the RESET request does to the list of monitors; monitors_count stays. */
  function Relist(s: State, m: nat): (r: State)
    requires m in s.mons
  {
    if s.mons[m].listed then s
    else s.(mons := s.mons[m := s.mons[m].(listed := true)], list := [m] + s.list)
  }

  // ---- counting

  lemma {:induction false} CountSet(slots: seq<Option<nat>>, i: nat, v: Option<nat>, d: nat)
    requires i < |slots|
    ensures Count(slots[i := v], d) ==
      Count(slots, d) - (if slots[i] == Some(d) then 1 else 0) + (if v == Some(d) then 1 else 0)
  {
    if i == 0 {
      assert slots[i := v][1..] == slots[1..];
    } else {
      assert slots[i := v][1..] == slots[1..][i - 1 := v];
      CountSet(slots[1..], i - 1, v, d);
    }
  }

  lemma {:induction false} CountPositive(slots: seq<Option<nat>>, d: nat)
    ensures Count(slots, d) > 0 <==> Some(d) in slots
  {
    if slots != [] {
      CountPositive(slots[1..], d);
    }
  }

  /** r has s's descriptors and monitors, with the same pointers, owners and lists. */
  ghost predicate SameShape(s: State, r: State) {
    && r.descs.Keys == s.descs.Keys && r.mons.Keys == s.mons.Keys
    && r.list == s.list && r.opens == s.opens && r.monitors == s.monitors
    && (forall d :: d in s.descs ==> r.descs[d].monitor == s.descs[d].monitor && r.descs[d].owner == s.descs[d].owner)
    && (forall m :: m in s.mons ==> r.mons[m] == s.mons[m].(slots := r.mons[m].slots))
    && (forall d :: d in r.flying ==> d in s.descs)
  }

  /** What depends on pointers, owners and lists alone carries over when these do not change. */
  lemma SamePointers(s: State, r: State)
    requires SameShape(s, r) && (forall d :: d in s.flying ==> d in s.descs)
    ensures PointersOk(s) ==> PointersOk(r)
    ensures OwnersOk(s) ==> OwnersOk(r)
    ensures ListOk(s) ==> ListOk(r)
  {
    assert |r.descs| == |r.descs.Keys| && |s.descs| == |s.descs.Keys|;
    forall m | m in s.mons ensures Pointing(r.descs, m) == Pointing(s.descs, m) {
      SamePointing(s, r, m);
    }
  }

  lemma SamePointing(s: State, r: State, m: nat)
    requires SameShape(s, r)
    ensures Pointing(r.descs, m) == Pointing(s.descs, m)
  {
  }

  lemma SeatOne(s: State, m: nat, i: nat, d: nat, x: nat)
    requires RefsOk(s) && Seats(s, m, d) && i < MODULES && s.descs[d].open && s.descs[d].monitor == Some(m) &&
      x in s.descs
    requires s.mons[m].slots[i] == Some(x) ==> s.descs[x].open && s.descs[x].monitor == Some(m)
    requires s.mons[m].slots[i].Some? ==> s.mons[m].slots[i].value in s.descs
    ensures var r := Seat(s, m, i, d);
      && r.descs[x] == s.descs[x].(refs := r.descs[x].refs)
      && r.descs[x].refs == (if r.descs[x].open then 1 else 0) + Named(r, x) + r.flying[x]
      && (s.descs[x].refs >= 1 ==> r.descs[x].refs >= 1)
  {
    CountSet(s.mons[m].slots, i, Some(d), x);
  }

  lemma SeatRefs(s: State, m: nat, i: nat, d: nat, r: State)
    requires RefsOk(s) && Alive(s, {}) && Seats(s, m, d) && i < MODULES && s.descs[d].open &&
      s.descs[d].monitor == Some(m)
    requires var o := s.mons[m].slots[i];
      o.Some? ==> o.value in s.descs && s.descs[o.value].open && s.descs[o.value].monitor == Some(m)
    requires r == Seat(s, m, i, d)
    ensures RefsOk(r) && (forall x :: x in s.descs ==>
      r.descs[x].refs >= 1 && r.descs[x] == s.descs[x].(refs := r.descs[x].refs))
  {
    assert r.descs.Keys == s.descs.Keys;
    forall x | x in s.descs
      ensures r.descs[x] == s.descs[x].(refs := r.descs[x].refs)
      ensures r.descs[x].refs == (if r.descs[x].open then 1 else 0) + Named(r, x) + r.flying[x]
      ensures r.descs[x].refs >= 1
    {
      SeatOne(s, m, i, d, x);
    }
  }

  lemma SeatShape(s: State, m: nat, i: nat, d: nat)
    requires Seats(s, m, d) && i < MODULES && (s.mons[m].slots[i].Some? ==> s.mons[m].slots[i].value in s.descs)
    requires forall x :: x in s.flying ==> x in s.descs
    ensures var r := Seat(s, m, i, d); SameShape(s, r) && r.descs[d].open == s.descs[d].open
  {
  }

  lemma SeatSlots(s: State, m: nat, i: nat, d: nat)
    requires SlotsOk(s) && Seats(s, m, d) && i < MODULES && s.descs[d].open && s.descs[d].monitor == Some(m)
    ensures SlotsOk(Seat(s, m, i, d)) && Seats(Seat(s, m, i, d), m, d)
  {
    var r := Seat(s, m, i, d);
    assert s.mons[m].slots[i] in s.mons[m].slots;
    SlotIn(s.mons[m].slots, i, d);
  }

  lemma SlotIn(slots: seq<Option<nat>>, i: nat, d: nat)
    requires i < |slots|
    ensures forall x :: Some(x) in slots[i := Some(d)] ==> x == d || Some(x) in slots
  {
  }

  ghost predicate Ready(s: State, m: nat, d: nat) {
    Inv(s) && Seats(s, m, d) && s.descs[d].open && s.descs[d].monitor == Some(m)
  }

  lemma SeatKeeps(s: State, m: nat, i: nat, d: nat)
    requires Inv(s) && Seats(s, m, d) && i < MODULES && s.descs[d].open && s.descs[d].monitor == Some(m)
    ensures Ready(Seat(s, m, i, d), m, d)
  {
    var r := Seat(s, m, i, d);
    assert s.mons[m].slots[i] in s.mons[m].slots;
    SeatShape(s, m, i, d);
    SamePointers(s, r);
    SeatRefs(s, m, i, d, r);
    SeatSlots(s, m, i, d);
  }

  lemma SeatNextKeeps(s: State, m: nat, i: nat, d: nat, r: State)
    requires Ready(s, m, d) && i < MODULES && r == Seat(s, m, i, d)
    ensures Ready(r, m, d)
  {
    SeatKeeps(s, m, i, d);
  }

  lemma {:induction false} SeatAllKeeps(s: State, m: nat, modules: seq<int>, d: nat)
    requires Ready(s, m, d) && AllInTable(modules)
    ensures Ready(SeatAll(s, m, modules, d), m, d)
    decreases |modules|
  {
    if modules == [] {
      assert SeatAll(s, m, modules, d) == s;
    } else {
      var n := |modules| - 1;
      SeatAllKeeps(s, m, modules[..n], d);
      SeatNextKeeps(SeatAll(s, m, modules[..n], d), m, modules[n], d, SeatAll(s, m, modules, d));
    }
  }

  // ---- attaching

  lemma LinkRefs(s: State, d: nat, m: nat)
    requires RefsOk(s) && SlotsOk(s) && d in s.descs && s.descs[d].monitor.None? && m in s.mons
    ensures RefsOk(Link(s, d, m)) && SlotsOk(Link(s, d, m)) && Seats(Link(s, d, m), m, d)
  {
    var r := Link(s, d, m);
    CountPositive(s.mons[m].slots, d);
    forall x | x in s.descs ensures Named(r, x) == Named(s, x) {
    }
  }

  lemma LinkPointers(s: State, d: nat, m: nat)
    requires PointersOk(s) && d in s.descs && s.descs[d].monitor.None? && m in s.mons
    ensures PointersOk(Link(s, d, m))
  {
    var r := Link(s, d, m);
    forall n | n in s.mons ensures r.mons[n].refs == |Pointing(r.descs, n)| {
      if n == m {
        assert Pointing(r.descs, n) == Pointing(s.descs, n) + {d};
      } else {
        SameButOne(s.descs, d, r.descs[d], n);
      }
    }
  }

  lemma LinkOwners(s: State, d: nat, m: nat)
    requires OwnersOk(s) && ListOk(s) && d in s.descs && s.descs[d].monitor.None? && m in s.mons
    ensures OwnersOk(Link(s, d, m)) && ListOk(Link(s, d, m))
  {
    var r := Link(s, d, m);
    assert r.descs.Keys == s.descs.Keys && |r.descs| == |r.descs.Keys| && |s.descs| == |s.descs.Keys|;
  }

  lemma LinkKeeps(s: State, d: nat, m: nat)
    requires Inv(s) && d in s.descs && s.descs[d].monitor.None? && m in s.mons
    ensures Inv(Link(s, d, m)) && Seats(Link(s, d, m), m, d)
  {
    LinkRefs(s, d, m);
    LinkPointers(s, d, m);
    LinkOwners(s, d, m);
    LinkAlive(s, d, m);
  }

  lemma LinkAlive(s: State, d: nat, m: nat)
    requires Alive(s, {}) && d in s.descs && m in s.mons
    ensures Alive(Link(s, d, m), {})
  {
  }

  lemma {:induction false} SeatAllShape(s: State, m: nat, modules: seq<int>, d: nat)
    requires Seats(s, m, d) && AllInTable(modules)
    requires forall x :: x in s.flying ==> x in s.descs
    ensures SameShape(s, SeatAll(s, m, modules, d))
    decreases |modules|
  {
    if modules != [] {
      var n := |modules| - 1;
      var t := SeatAll(s, m, modules[..n], d);
      SeatAllShape(s, m, modules[..n], d);
      assert t.mons[m].slots[modules[n]] in t.mons[m].slots;
      SeatShape(t, m, modules[n], d);
    }
  }

  lemma AttachKeeps(s: State, d: nat, id: int, modules: Modules, count: int)
    requires Inv(s) && d in s.descs && s.descs[d].open && s.descs[d].monitor.None?
    ensures Inv(Attach(s, d, id, modules, count).0)
  {
    var f := FindMonitor(s, s.list, id);
    if f.Some? {
      LinkKeeps(s, d, f.value);
      SeatAllKeeps(Link(s, d, f.value), f.value, modules[..Leading(modules, count, 0)], d);
    } else {
      AttachNothing(s, d, id, modules, count);
    }
  }

  lemma AttachNothing(s: State, d: nat, id: int, modules: Modules, count: int)
    requires d in s.descs && SlotsOk(s)
    requires s.descs[d].monitor.None? && FindMonitor(s, s.list, id).None?
    ensures Attach(s, d, id, modules, count) == (s, true)
  {
    assert s.descs[d := s.descs[d].(monitor := None)] == s.descs;
  }

  /** An attach stays inside the slot table and keeps the protocol sound exactly when the descriptor has no monitor yet,
      and no listed monitor has the id or all modules have slots. Where the descriptor had a monitor, that keeps a
      reference that nothing will give back. */
  lemma AttachSoundIff(s: State, d: nat, id: int, modules: Modules, count: int)
    requires Inv(s) && d in s.descs && s.descs[d].open
    ensures var (r, ok) := Attach(s, d, id, modules, count);
      ok && Inv(r) <==>
      s.descs[d].monitor.None? && (FindMonitor(s, s.list, id).None? || Seatable(modules, count))
  {
    AllSeatedIff(modules, count);
    if s.descs[d].monitor.None? {
      AttachKeeps(s, d, id, modules, count);
    } else {
      AttachLeaks(s, d, id, modules, count);
    }
  }

  /** Module number 156 has no slot. */
  lemma AttachOverruns(s: State, d: nat, id: int, modules: Modules)
    requires Inv(s) && d in s.descs && s.descs[d].monitor.None? && FindMonitor(s, s.list, id).Some? && modules[0] == 156
    ensures !Attach(s, d, id, modules, 1).1
  {
  }

  lemma AttachLeaks(s: State, d: nat, id: int, modules: Modules, count: int)
    requires SlotsOk(s) && PointersOk(s) && ListOk(s)
    requires d in s.descs && s.descs[d].monitor.Some?
    ensures var r, m := Attach(s, d, id, modules, count).0, s.descs[d].monitor.value;
      m in r.mons && r.mons[m].refs > |Pointing(r.descs, m)|
  {
    var m := s.descs[d].monitor.value;
    var f := FindMonitor(s, s.list, id);
    if f.Some? {
      var t, ms := Link(s, d, f.value), modules[..Leading(modules, count, 0)];
      LinkLeaks(s, d, f.value);
      SeatAllShape(t, f.value, ms, d);
      SamePointing(t, SeatAll(t, f.value, ms, d), m);
    } else {
      LessPointing(s.descs, d, s.descs[d].(monitor := None), m);
    }
  }

  lemma LessPointing(descs: map<nat, Desc>, d: nat, x: Desc, m: nat)
    requires d in descs && descs[d].monitor == Some(m) != x.monitor
    ensures |Pointing(descs[d := x], m)| == |Pointing(descs, m)| - 1
  {
    assert Pointing(descs[d := x], m) == Pointing(descs, m) - {d};
  }

  lemma SameButOne(descs: map<nat, Desc>, d: nat, x: Desc, m: nat)
    requires d in descs && (descs[d].monitor == Some(m) <==> x.monitor == Some(m))
    ensures Pointing(descs[d := x], m) == Pointing(descs, m)
  {
  }

  lemma LinkLeaks(s: State, d: nat, n: nat)
    requires PointersOk(s) && d in s.descs && s.descs[d].monitor.Some? && n in s.mons
    ensures var m := s.descs[d].monitor.value;
      Link(s, d, n).mons[m].refs > |Pointing(Link(s, d, n).descs, m)|
  {
    var m := s.descs[d].monitor.value;
    if n == m {
      SameButOne(s.descs, d, s.descs[d].(monitor := Some(n)), m);
    } else {
      LessPointing(s.descs, d, s.descs[d].(monitor := Some(n)), m);
    }
  }

  // ---- opening and creating

  lemma OpenRefs(s: State, d: nat)
    requires RefsOk(s) && SlotsOk(s) && d !in s.descs && d !in s.flying
    ensures RefsOk(Open(s, d)) && SlotsOk(Open(s, d))
  {
    var r := Open(s, d);
    forall x | x in s.descs ensures Named(r, x) == Named(s, x) {
    }
  }

  lemma OpenPointers(s: State, d: nat)
    requires PointersOk(s) && OwnersOk(s) && d !in s.descs
    ensures PointersOk(Open(s, d)) && OwnersOk(Open(s, d))
  {
    var r := Open(s, d);
    forall m | m in s.mons ensures Pointing(r.descs, m) == Pointing(s.descs, m) {
    }
  }

  lemma OpenList(s: State, d: nat)
    requires ListOk(s) && d !in s.descs
    ensures ListOk(Open(s, d))
  {
    OneMore(s.descs, d, Desc(1, None, false, true, true));
  }

  lemma OneMore<K, V>(m: map<K, V>, k: K, v: V)
    requires k !in m
    ensures |m[k := v]| == |m| + 1
  {
    assert m[k := v].Keys == m.Keys + {k} && |m[k := v].Keys| == |m[k := v]| && |m.Keys| == |m|;
  }

  lemma OpenKeeps(s: State, d: nat)
    requires Inv(s) && d !in s.descs
    ensures Inv(Open(s, d))
  {
    OpenRefs(s, d);
    OpenPointers(s, d);
    OpenList(s, d);
  }

  lemma CreateKeeps(s: State, d: nat, m: nat, id: int, ok: bool)
    requires Inv(s) && d in s.descs && m !in s.mons
    ensures Inv(Create(s, d, m, id, ok))
  {
    if s.descs[d].monitor.None? && ok {
      CreateRefs(s, d, m, id);
      CreatePointers(s, d, m, id);
      CreateOwners(s, d, m, id);
      CreateAlive(s, d, m, id);
    }
  }

  lemma CreateAlive(s: State, d: nat, m: nat, id: int)
    requires Alive(s, {}) && d in s.descs && m !in s.mons && s.descs[d].monitor.None?
    ensures Alive(Create(s, d, m, id, true), {})
  {
  }

  lemma CreatePointers(s: State, d: nat, m: nat, id: int)
    requires PointersOk(s) && d in s.descs && m !in s.mons && s.descs[d].monitor.None?
    ensures PointersOk(Create(s, d, m, id, true))
  {
    var r := Create(s, d, m, id, true);
    assert Pointing(r.descs, m) == {d};
    forall n | n in s.mons ensures Pointing(r.descs, n) == Pointing(s.descs, n) {
      SameButOne(s.descs, d, r.descs[d], n);
    }
  }

  lemma CreateRefs(s: State, d: nat, m: nat, id: int)
    requires RefsOk(s) && SlotsOk(s) && d in s.descs && m !in s.mons && s.descs[d].monitor.None?
    requires forall x :: x in s.descs ==> s.descs[x].monitor != Some(m)
    ensures var r := Create(s, d, m, id, true); RefsOk(r) && SlotsOk(r)
  {
    var r := Create(s, d, m, id, true);
    CountPositive(r.mons[m].slots, d);
    forall x | x in s.descs ensures Named(r, x) == Named(s, x) {
    }
  }

  lemma CreateOwners(s: State, d: nat, m: nat, id: int)
    requires PointersOk(s) && OwnersOk(s) && ListOk(s) && d in s.descs && m !in s.mons && s.descs[d].monitor.None?
    ensures var r := Create(s, d, m, id, true); OwnersOk(r) && ListOk(r)
  {
    var r := Create(s, d, m, id, true);
    assert r.descs.Keys == s.descs.Keys && |r.descs| == |r.descs.Keys| && |s.descs| == |s.descs.Keys|;
    assert r.descs[d].owner && r.descs[d].monitor == Some(m);
  }

  // ---- closing

  lemma {:induction false} CountCleared(slots: seq<Option<nat>>, d: nat, x: nat)
    ensures Count(Cleared(slots, d), x) == if x == d then 0 else Count(slots, x)
  {
    if slots != [] {
      assert Cleared(slots, d)[1..] == Cleared(slots[1..], d);
      CountCleared(slots[1..], d, x);
    }
  }

  /** Close the handle: clear the slots, and give up the handle's own reference. */
  function Released(s: State, d: nat): (r: State)
    requires d in s.descs && (s.descs[d].monitor.Some? ==> s.descs[d].monitor.value in s.mons)
  {
    Drop(Shut(s, d), d)
  }

  lemma ReleasedShape(s: State, d: nat)
    requires d in s.descs && (s.descs[d].monitor.Some? ==> s.descs[d].monitor.value in s.mons)
    requires forall x :: x in s.flying ==> x in s.descs
    ensures SameShape(s, Released(s, d))
    ensures forall x :: x in s.descs && x != d ==> Released(s, d).descs[x] == s.descs[x]
  {
  }

  lemma ReleasedRefs(s: State, d: nat)
    requires RefsOk(s) && d in s.descs && s.descs[d].open &&
      (s.descs[d].monitor.Some? ==> s.descs[d].monitor.value in s.mons)
    ensures RefsOk(Released(s, d))
  {
    var r := Released(s, d);
    assert r.descs.Keys == s.descs.Keys;
    forall x | x in s.descs
      ensures r.descs[x].refs == (if r.descs[x].open then 1 else 0) + Named(r, x) + r.flying[x]
    {
      assert s.descs[x].refs == (if s.descs[x].open then 1 else 0) + Named(s, x) + s.flying[x];
      if s.descs[d].monitor.Some? {
        CountCleared(s.mons[s.descs[d].monitor.value].slots, d, x);
      }
    }
  }

  lemma ReleasedSlots(s: State, d: nat)
    requires SlotsOk(s) && d in s.descs && (s.descs[d].monitor.Some? ==> s.descs[d].monitor.value in s.mons)
    ensures SlotsOk(Released(s, d))
  {
    var r := Released(s, d);
    forall m, x | m in r.mons && Some(x) in r.mons[m].slots
      ensures x in r.descs && r.descs[x].open && r.descs[x].monitor == Some(m)
    {
      assert Some(x) in s.mons[m].slots && x != d;
    }
  }

  lemma ReleasedAlive(s: State, d: nat)
    requires Alive(s, {}) && d in s.descs && (s.descs[d].monitor.Some? ==> s.descs[d].monitor.value in s.mons)
    ensures Alive(Released(s, d), {d})
  {
  }

  lemma ReleasedKeeps(s: State, d: nat)
    requires Inv(s) && d in s.descs && s.descs[d].open
    ensures Sound(Released(s, d)) && Alive(Released(s, d), {d})
  {
    ReleasedShape(s, d);
    SamePointers(s, Released(s, d));
    ReleasedRefs(s, d);
    ReleasedSlots(s, d);
    ReleasedAlive(s, d);
  }

  /** Give up a message's reference. */
  function Landed(s: State, d: nat): (r: State)
    requires d in s.descs
  {
    Drop(s.(flying := s.flying - multiset{d}), d)
  }

  lemma LandedKeeps(s: State, d: nat)
    requires Inv(s) && d in s.descs && d in s.flying
    ensures Sound(Landed(s, d)) && Alive(Landed(s, d), {d})
  {
    LandedShape(s, d);
    SamePointers(s, Landed(s, d));
    LandedRefs(s, d);
  }

  lemma LandedShape(s: State, d: nat)
    requires d in s.descs && forall x :: x in s.flying ==> x in s.descs
    ensures SameShape(s, Landed(s, d))
    ensures Alive(s, {}) ==> Alive(Landed(s, d), {d})
    ensures SlotsOk(s) ==> SlotsOk(Landed(s, d))
  {
  }

  lemma LandedRefs(s: State, d: nat)
    requires RefsOk(s) && d in s.descs && d in s.flying
    ensures RefsOk(Landed(s, d))
  {
    var r := Landed(s, d);
    forall x | x in s.descs ensures Named(r, x) == Named(s, x) &&
      r.flying[x] == s.flying[x] - (if x == d then 1 else 0) {
    }
  }

  lemma MessageInKeeps(s: State, m: nat, i: nat)
    requires Inv(s) && m in s.mons && i < MODULES
    ensures s.mons[m].slots[i].Some? ==> s.mons[m].slots[i].value in s.descs
    ensures Inv(MessageIn(s, m, i))
  {
    var o := s.mons[m].slots[i];
    assert o in s.mons[m].slots;
    if o.Some? {
      var r := MessageIn(s, m, i);
      MessageInShape(s, m, i);
      SamePointers(s, r);
      MessageInRefs(s, m, i);
    }
  }

  lemma MessageInShape(s: State, m: nat, i: nat)
    requires m in s.mons && i < |s.mons[m].slots| && s.mons[m].slots[i].Some? && s.mons[m].slots[i].value in s.descs
    requires forall x :: x in s.flying ==> x in s.descs
    ensures SameShape(s, MessageIn(s, m, i))
    ensures Alive(s, {}) ==> Alive(MessageIn(s, m, i), {})
    ensures SlotsOk(s) ==> SlotsOk(MessageIn(s, m, i))
  {
  }

  lemma MessageInRefs(s: State, m: nat, i: nat)
    requires RefsOk(s) && m in s.mons && i < |s.mons[m].slots| && s.mons[m].slots[i].Some? &&
      s.mons[m].slots[i].value in s.descs
    ensures RefsOk(MessageIn(s, m, i))
  {
    var r := MessageIn(s, m, i);
    forall x | x in s.descs ensures Named(r, x) == Named(s, x) {
    }
  }

  // ---- destroying

  lemma {:induction false} RemoveOk(list: seq<nat>, m: nat)
    requires m in list && forall i, j :: 0 <= i < j < |list| ==> list[i] != list[j]
    ensures var r := Remove(list, m);
      && |r| == |list| - 1 && (forall x :: x in r <==> x in list && x != m)
      && (forall i, j :: 0 <= i < j < |r| ==> r[i] != r[j])
  {
    if list[0] != m {
      RemoveOk(list[1..], m);
      var t := Remove(list[1..], m);
      assert list[0] !in t;
    } else {
      assert m !in list[1..];
    }
  }

  lemma UnlistKeeps(s: State, m: nat, d: nat)
    requires Sound(s) && Alive(s, {d}) && m in s.mons
    ensures Sound(Unlist(s, m)) && Alive(Unlist(s, m), {d})
  {
    if s.mons[m].listed {
      RemoveOk(s.list, m);
      UnlistList(s, m);
      UnlistPointers(s, m, d);
    }
  }

  lemma UnlistList(s: State, m: nat)
    requires ListOk(s) && m in s.mons && s.mons[m].listed
    ensures ListOk(Unlist(s, m))
  {
    RemoveOk(s.list, m);
  }

  lemma UnlistPointers(s: State, m: nat, d: nat)
    requires m in s.mons
    ensures RefsOk(s) ==> RefsOk(Unlist(s, m))
    ensures SlotsOk(s) ==> SlotsOk(Unlist(s, m))
    ensures PointersOk(s) ==> PointersOk(Unlist(s, m))
    ensures OwnersOk(s) ==> OwnersOk(Unlist(s, m))
    ensures Alive(s, {d}) ==> Alive(Unlist(s, m), {d})
  {
    var r := Unlist(s, m);
    forall x | x in s.descs ensures Named(r, x) == Named(s, x) {
    }
  }

  lemma EndShape(s: State, m: nat)
    requires m in s.mons && forall x :: x in s.flying ==> x in s.descs
    ensures SameShape(s, EndMessages(s, m))
    ensures SlotsOk(s) ==> SlotsOk(EndMessages(s, m))
  {
  }

  lemma EndOne(s: State, m: nat, x: nat)
    requires RefsOk(s) && SlotsOk(s) && m in s.mons && x in s.descs
    ensures var r := EndMessages(s, m);
      && r.descs[x].refs == (if r.descs[x].open then 1 else 0) + Named(r, x) + r.flying[x]
      && (s.descs[x].refs >= 1 ==> r.descs[x].refs >= 1)
      && (!s.descs[x].open ==> r.descs[x] == s.descs[x])
  {
    CountPositive(s.mons[m].slots, x);
    CountPositive(EndMessages(s, m).mons[m].slots, x);
  }

  lemma EndKeeps(s: State, m: nat, d: nat)
    requires Sound(s) && Alive(s, {d}) && m in s.mons
    ensures Sound(EndMessages(s, m)) && Alive(EndMessages(s, m), {d})
  {
    EndShape(s, m);
    SamePointers(s, EndMessages(s, m));
    EndRefs(s, m, d);
  }

  lemma EndRefs(s: State, m: nat, d: nat)
    requires RefsOk(s) && SlotsOk(s) && Alive(s, {d}) && m in s.mons
    ensures RefsOk(EndMessages(s, m)) && Alive(EndMessages(s, m), {d})
  {
    var r := EndMessages(s, m);
    forall x | x in s.descs
      ensures r.descs[x].refs == (if r.descs[x].open then 1 else 0) + Named(r, x) + r.flying[x]
      ensures s.descs[x].refs >= 1 ==> r.descs[x].refs >= 1
    {
      EndOne(s, m, x);
    }
  }

  /** Remove d, and its monitor when no other descriptor points to it. */
  function Detach(s: State, d: nat): (r: State)
    requires d in s.descs && (s.descs[d].monitor.Some? ==> s.descs[d].monitor.value in s.mons)
  {
    var mons :=
      match s.descs[d].monitor
      case None => s.mons
      case Some(m) =>
        if s.mons[m].refs == 1 then s.mons - {m} else s.mons[m := s.mons[m].(refs := s.mons[m].refs - 1)];
    s.(descs := s.descs - {d}, mons := mons, opens := s.opens - 1)
  }

  ghost predicate Unused(s: State, d: nat) {
    && d in s.descs && s.descs[d].refs == 0 && !s.descs[d].open && d !in s.flying
    && (s.descs[d].monitor.Some? ==> s.descs[d].monitor.value in s.mons)
  }

  /** The monitor that goes with d has no other descriptor, so if it holds no slot for d, all its slots are empty. */
  lemma LastPointer(s: State, d: nat, m: nat)
    requires SlotsOk(s) && PointersOk(s) && d in s.descs && s.descs[d].monitor == Some(m)
    requires m in s.mons && s.mons[m].refs == 1 && Some(d) !in s.mons[m].slots
    ensures forall x :: x in s.descs && s.descs[x].monitor == Some(m) ==> x == d
    ensures forall i :: 0 <= i < MODULES ==> s.mons[m].slots[i] == None
  {
    forall x | x in s.descs && s.descs[x].monitor == Some(m) ensures x == d {
      One(Pointing(s.descs, m), x, d);
    }
    forall i | 0 <= i < MODULES ensures s.mons[m].slots[i] == None {
      assert s.mons[m].slots[i] in s.mons[m].slots;
    }
  }

  lemma One(xs: set<nat>, x: nat, y: nat)
    requires |xs| == 1 && x in xs && y in xs
    ensures x == y
  {
    assert |xs - {x}| == 0;
  }

  lemma DetachRefs(s: State, d: nat)
    requires RefsOk(s) && SlotsOk(s) && PointersOk(s) && Unused(s, d)
    ensures RefsOk(Detach(s, d))
  {
    var r := Detach(s, d);
    if s.descs[d].monitor.Some? && s.mons[s.descs[d].monitor.value].refs == 1 {
      LastPointer(s, d, s.descs[d].monitor.value);
    }
    forall x | x in r.descs ensures Named(r, x) == Named(s, x) {
    }
  }

  lemma DetachSlots(s: State, d: nat)
    requires SlotsOk(s) && Unused(s, d)
    ensures SlotsOk(Detach(s, d))
  {
  }

  lemma DetachPointers(s: State, d: nat)
    requires SlotsOk(s) && PointersOk(s) && Unused(s, d)
    ensures PointersOk(Detach(s, d))
  {
    var r := Detach(s, d);
    if s.descs[d].monitor.Some? && s.mons[s.descs[d].monitor.value].refs == 1 {
      LastPointer(s, d, s.descs[d].monitor.value);
    }
    forall m | m in r.mons ensures r.mons[m].refs == |Pointing(r.descs, m)| {
      assert Pointing(r.descs, m) == Pointing(s.descs, m) - {d};
    }
  }

  lemma DetachOwners(s: State, d: nat)
    requires SlotsOk(s) && PointersOk(s) && OwnersOk(s) && Unused(s, d)
    requires s.descs[d].owner ==> !s.mons[s.descs[d].monitor.value].listed
    ensures OwnersOk(Detach(s, d))
  {
  }

  lemma DetachList(s: State, d: nat)
    requires SlotsOk(s) && PointersOk(s) && OwnersOk(s) && ListOk(s) && Unused(s, d)
    requires s.descs[d].owner ==> !s.mons[s.descs[d].monitor.value].listed
    ensures ListOk(Detach(s, d))
  {
    OneLess(s.descs, d);
    DetachListed(s, d);
  }

  lemma DetachListed(s: State, d: nat)
    requires SlotsOk(s) && PointersOk(s) && OwnersOk(s) && Unused(s, d)
    requires s.descs[d].owner ==> !s.mons[s.descs[d].monitor.value].listed
    ensures var r := Detach(s, d); forall m :: m in s.mons && s.mons[m].listed <==> m in r.mons && r.mons[m].listed
  {
    if s.descs[d].monitor.Some? && s.mons[s.descs[d].monitor.value].refs == 1 {
      LastUnlisted(s, d);
    }
  }

  lemma OneLess<K, V>(m: map<K, V>, k: K)
    requires k in m
    ensures |m - {k}| == |m| - 1
  {
    assert (m - {k}).Keys == m.Keys - {k} && |(m - {k}).Keys| == |m - {k}| && |m.Keys| == |m|;
  }

  lemma LastUnlisted(s: State, d: nat)
    requires SlotsOk(s) && PointersOk(s) && OwnersOk(s) && d in s.descs && s.descs[d].monitor.Some?
    requires var m := s.descs[d].monitor.value; s.mons[m].refs == 1 && Some(d) !in s.mons[m].slots
    requires s.descs[d].owner ==> !s.mons[s.descs[d].monitor.value].listed
    ensures !s.mons[s.descs[d].monitor.value].listed
  {
    LastPointer(s, d, s.descs[d].monitor.value);
  }

  lemma DetachAlive(s: State, d: nat)
    requires Alive(s, {d}) && Unused(s, d)
    ensures Alive(Detach(s, d), {})
  {
  }

  lemma DetachKeeps(s: State, d: nat)
    requires Sound(s) && Alive(s, {d}) && Unused(s, d)
    requires s.descs[d].owner ==> !s.mons[s.descs[d].monitor.value].listed
    ensures Inv(Detach(s, d))
  {
    DetachRefs(s, d);
    DetachSlots(s, d);
    DetachPointers(s, d);
    DetachOwners(s, d);
    DetachList(s, d);
    DetachAlive(s, d);
  }

  lemma EndsAlike(s: State, d: nat, m: nat)
    requires d in s.descs && m in s.mons
    ensures var s1 := EndMessages(Unlist(s, m), m);
      var t := EndMessages(Unlist(s.(descs := s.descs[d := s.descs[d].(monitor := None)]), m), m);
      && t == s1.(descs := t.descs) && t.descs - {d} == s1.descs - {d} && s1.descs.Keys == s.descs.Keys
      && s1.mons.Keys == s.mons.Keys && s1.mons[m].refs == s.mons[m].refs && s1.descs[d].monitor == s.descs[d].monitor
  {
    var s0 := s.(descs := s.descs[d := s.descs[d].(monitor := None)]);
    assert Unlist(s0, m) == Unlist(s, m).(descs := s0.descs);
    EndsShape(Unlist(s, m), m);
    EndsApart(Unlist(s, m), d, m);
  }

  lemma EndsShape(s: State, m: nat)
    requires m in s.mons
    ensures var r := EndMessages(s, m);
      && r.descs.Keys == s.descs.Keys && r.mons.Keys == s.mons.Keys && r.mons[m].refs == s.mons[m].refs
      && forall x :: x in s.descs ==> r.descs[x].monitor == s.descs[x].monitor
  {
  }

  lemma EndsApart(s: State, d: nat, m: nat)
    requires d in s.descs && m in s.mons
    ensures var r, t := EndMessages(s, m), EndMessages(s.(descs := s.descs[d := s.descs[d].(monitor := None)]), m);
      t == r.(descs := t.descs) && t.descs - {d} == r.descs - {d}
  {
  }

  /** What co_manager_close_ does, with the end messages sent before the descriptor is taken out. */
  lemma DestroyIsDetach(s: State, d: nat)
    requires d in s.descs && (s.descs[d].monitor.Some? ==> s.descs[d].monitor.value in s.mons)
    requires s.descs[d].monitor.Some? ==> s.mons[s.descs[d].monitor.value].refs >= 1
    ensures
      var s1 :=
        if s.descs[d].monitor.Some? && s.descs[d].owner then
          var m := s.descs[d].monitor.value; EndMessages(Unlist(s, m), m)
        else s;
      s1.descs.Keys == s.descs.Keys && s1.mons.Keys == s.mons.Keys && s1.descs[d].monitor == s.descs[d].monitor &&
      Destroy(s, d) == Detach(s1, d)
  {
    if s.descs[d].monitor.Some? && s.descs[d].owner {
      EndsAlike(s, d, s.descs[d].monitor.value);
    } else if s.descs[d].monitor.Some? {
      assert s.descs - {d} == s.descs[d := s.descs[d].(monitor := None)] - {d};
    }
  }

  lemma UnusedNow(s: State, d: nat)
    requires RefsOk(s) && PointersOk(s) && d in s.descs && s.descs[d].refs == 0
    ensures Unused(s, d)
  {
  }

  lemma DestroyKeeps(s: State, d: nat)
    requires Sound(s) && Alive(s, {d}) && d in s.descs && s.descs[d].refs == 0
    ensures Inv(Destroy(s, d))
  {
    UnusedNow(s, d);
    DestroyIsDetach(s, d);
    if s.descs[d].owner {
      var m := s.descs[d].monitor.value;
      UnlistKeeps(s, m, d);
      var t := Unlist(s, m);
      EndKeeps(t, m, d);
      EndOne(t, m, d);
      DetachKeeps(EndMessages(t, m), d);
    } else {
      DetachKeeps(s, d);
    }
  }

  // ---- leaving a monitor

  /** d gives up its pointer, and the monitor goes when no other descriptor points to it. */
  function Unpoint(s: State, d: nat): (r: State)
    requires d in s.descs && s.descs[d].monitor.Some? && s.descs[d].monitor.value in s.mons
  {
    var m := s.descs[d].monitor.value;
    s.(descs := s.descs[d := s.descs[d].(monitor := None, owner := false)],
       mons := if s.mons[m].refs == 1 then s.mons - {m} else s.mons[m := s.mons[m].(refs := s.mons[m].refs - 1)])
  }

  /** d points to a monitor that has no slot for it. */
  ghost predicate Unseated(s: State, d: nat) {
    && d in s.descs && s.descs[d].monitor.Some? && s.descs[d].monitor.value in s.mons
    && Some(d) !in s.mons[s.descs[d].monitor.value].slots
  }

  lemma UnpointEmpty(s: State, d: nat)
    requires SlotsOk(s) && PointersOk(s) && Unseated(s, d)
    ensures var m := s.descs[d].monitor.value;
      s.mons[m].refs == 1 ==> forall x :: x in s.descs && s.descs[x].monitor == Some(m) ==> x == d
  {
    var m := s.descs[d].monitor.value;
    if s.mons[m].refs == 1 {
      LastPointer(s, d, m);
    }
  }

  lemma UnpointNamed(s: State, d: nat, x: nat)
    requires Unseated(s, d) && x in s.descs
    requires var m := s.descs[d].monitor.value; s.mons[m].refs == 1 && s.descs[x].monitor == Some(m) ==> x == d
    ensures Named(Unpoint(s, d), x) == Named(s, x)
  {
    CountPositive(s.mons[s.descs[d].monitor.value].slots, d);
  }

  lemma UnpointRefs(s: State, d: nat)
    requires RefsOk(s) && SlotsOk(s) && PointersOk(s) && Unseated(s, d)
    ensures RefsOk(Unpoint(s, d))
  {
    var r := Unpoint(s, d);
    UnpointEmpty(s, d);
    forall x | x in r.descs ensures r.descs[x].refs == (if r.descs[x].open then 1 else 0) + Named(r, x) + r.flying[x] {
      UnpointNamed(s, d, x);
      assert s.descs[x].refs == (if s.descs[x].open then 1 else 0) + Named(s, x) + s.flying[x];
    }
  }

  lemma UnpointSlots(s: State, d: nat)
    requires SlotsOk(s) && Unseated(s, d)
    ensures SlotsOk(Unpoint(s, d))
  {
    var r := Unpoint(s, d);
    forall m | m in r.mons
      ensures |r.mons[m].slots| == MODULES
      ensures forall x :: Some(x) in r.mons[m].slots ==>
        x in r.descs && r.descs[x].open && r.descs[x].monitor == Some(m)
    {
      assert r.mons[m].slots == s.mons[m].slots;
    }
  }

  lemma UnpointPointers(s: State, d: nat)
    requires SlotsOk(s) && PointersOk(s) && Unseated(s, d)
    ensures PointersOk(Unpoint(s, d))
  {
    var r, m := Unpoint(s, d), s.descs[d].monitor.value;
    if s.mons[m].refs == 1 {
      LastPointer(s, d, m);
    }
    forall n | n in r.mons ensures r.mons[n].refs == |Pointing(r.descs, n)| {
      if n == m {
        LessPointing(s.descs, d, r.descs[d], n);
      } else {
        SameButOne(s.descs, d, r.descs[d], n);
      }
    }
  }

  lemma UnpointOwners(s: State, d: nat)
    requires SlotsOk(s) && PointersOk(s) && OwnersOk(s) && Unseated(s, d)
    requires s.descs[d].owner ==> !s.mons[s.descs[d].monitor.value].listed
    ensures OwnersOk(Unpoint(s, d))
  {
  }

  lemma UnpointList(s: State, d: nat)
    requires SlotsOk(s) && PointersOk(s) && OwnersOk(s) && ListOk(s) && Unseated(s, d)
    requires s.descs[d].owner ==> !s.mons[s.descs[d].monitor.value].listed
    ensures ListOk(Unpoint(s, d))
  {
    var r, m := Unpoint(s, d), s.descs[d].monitor.value;
    assert r.descs.Keys == s.descs.Keys && |r.descs| == |r.descs.Keys| && |s.descs| == |s.descs.Keys|;
    UnpointEmpty(s, d);
    assert s.mons[m].refs == 1 ==> !s.mons[m].listed;
  }

  lemma UnpointAlive(s: State, d: nat)
    requires Alive(s, {}) && Unseated(s, d)
    ensures Alive(Unpoint(s, d), {})
  {
  }

  lemma UnpointKeeps(s: State, d: nat)
    requires Inv(s) && Unseated(s, d)
    requires s.descs[d].owner ==> !s.mons[s.descs[d].monitor.value].listed
    ensures Inv(Unpoint(s, d))
  {
    UnpointRefs(s, d);
    UnpointSlots(s, d);
    UnpointPointers(s, d);
    UnpointOwners(s, d);
    UnpointList(s, d);
    UnpointAlive(s, d);
  }

  lemma LeaveIsUnpoint(s: State, d: nat)
    requires d in s.descs && s.descs[d].monitor.Some? && s.descs[d].monitor.value in s.mons
    requires s.mons[s.descs[d].monitor.value].refs >= 1
    ensures var m := s.descs[d].monitor.value;
      var s1 := if s.descs[d].owner then EndMessages(Unlist(s, m), m) else s;
      && d in s1.descs && s1.descs[d].monitor == Some(m) && m in s1.mons && s1.descs[d].owner == s.descs[d].owner
      && Leave(s, d) == Unpoint(s1, d)
  {
  }

  /** A CLOSE keeps the protocol sound exactly when no slot names the descriptor any more once the end messages of an
      owner are sent. */
  lemma LeaveSoundIff(s: State, d: nat)
    requires Inv(s) && d in s.descs && s.descs[d].monitor.Some?
    ensures Inv(Leave(s, d)) <==> s.descs[d].owner || Some(d) !in s.mons[s.descs[d].monitor.value].slots
  {
    LeaveIsUnpoint(s, d);
    if s.descs[d].owner {
      OwnerLeaves(s, d);
    } else if Some(d) !in s.mons[s.descs[d].monitor.value].slots {
      UnpointKeeps(s, d);
    } else {
      SeatedLeaveStays(s, d);
    }
  }

  lemma EndUnseats(s: State, m: nat, d: nat)
    requires d in s.descs && s.descs[d].monitor == Some(m) && m in s.mons && !s.mons[m].listed
    ensures var e := EndMessages(s, m);
      && Unseated(e, d) && !e.mons[m].listed
      && e.descs[d] == s.descs[d].(refs := e.descs[d].refs, active := e.descs[d].active)
  {
  }

  lemma OwnerLeaves(s: State, d: nat)
    requires Inv(s) && d in s.descs && s.descs[d].monitor.Some?
    ensures var e := EndMessages(Unlist(s, s.descs[d].monitor.value), s.descs[d].monitor.value);
      && d in e.descs && e.descs[d] == s.descs[d].(refs := e.descs[d].refs, active := e.descs[d].active)
      && Unseated(e, d) && Inv(Unpoint(e, d))
  {
    var m := s.descs[d].monitor.value;
    var t := Unlist(s, m);
    var e := EndMessages(t, m);
    UnlistKeeps(s, m, d);
    assert d in t.descs && t.descs[d] == s.descs[d] && !t.mons[m].listed && s.descs[d].refs >= 1;
    EndUnseats(t, m, d);
    assert Inv(e) by {
      EndKeeps(t, m, d);
      EndOne(t, m, d);
      Living(e, d);
    }
    UnpointKeeps(e, d);
  }

  /** After the CLOSE of a descriptor that does not own the monitor, its slots go on naming it, and the close of its
      handle will not find them. */
  lemma SeatedLeaveStays(s: State, d: nat)
    requires Inv(s) && d in s.descs && s.descs[d].monitor.Some? && !s.descs[d].owner
    requires Some(d) in s.mons[s.descs[d].monitor.value].slots
    ensures var m, r := s.descs[d].monitor.value, Leave(s, d);
      r.descs[d].monitor.None? && !RefsOk(r) && (m in r.mons ==> Some(d) in r.mons[m].slots && !SlotsOk(r))
  {
    CountPositive(s.mons[s.descs[d].monitor.value].slots, d);
  }

  // ---- requests

  datatype Op =
    | Opening(d: nat)
    | Creating(d: nat, m: nat, id: int, ok: bool)
    | Attaching(d: nat, id: int, modules: Modules, count: int)
    | Leaving(d: nat)
    | Resetting(d: nat)
    | Closing(d: nat)
    | Sending(m: nat, i: nat)
    | Sent(d: nat)

  predicate Handle(s: State, d: nat) { d in s.descs && s.descs[d].open }

  /** What the host allows: ioctls and a close come through an open handle, objects that are opened or created are
      new, a message ends once. An attach comes from a descriptor without a monitor and means modules with slots, a
      CLOSE from one that owns its monitor or sits in none of its slots; RESET is refused to all but owners. */
  predicate Legal(s: State, op: Op) {
    match op
    case Opening(d) => d !in s.descs
    case Creating(d, m, _, _) => Handle(s, d) && m !in s.mons
    case Attaching(d, id, modules, count) =>
      && Handle(s, d) && s.descs[d].monitor.None?
      && (FindMonitor(s, s.list, id).None? || Seatable(modules, count))
    case Leaving(d) =>
      && Handle(s, d) && s.descs[d].monitor.Some? && s.descs[d].monitor.value in s.mons
      && (s.descs[d].owner || Some(d) !in s.mons[s.descs[d].monitor.value].slots)
    case Resetting(d) => Handle(s, d) && s.descs[d].owner
    case Closing(d) => Handle(s, d)
    case Sending(m, i) => m in s.mons && i < MODULES
    case Sent(d) => d in s.flying
  }

  /** The owner of a monitor created it, and the monitor is listed as long as it has its owner. */
  ghost predicate Owns(s: State) {
    forall d :: d in s.descs && s.descs[d].owner ==>
      s.descs[d].monitor.Some? && var m := s.descs[d].monitor.value;
        m in s.mons && s.mons[m].listed && s.mons[m].creator == d
  }

  ghost predicate Ok(s: State) { Inv(s) && Owns(s) }

  ghost function Apply(s: State, op: Op): (r: State)
    requires SlotsOk(s) && PointersOk(s) && OwnersOk(s) && ListOk(s) && Legal(s, op)
  {
    match op
    case Opening(d) => Open(s, d)
    case Creating(d, m, id, ok) => Create(s, d, m, id, ok)
    case Attaching(d, id, modules, count) => Attach(s, d, id, modules, count).0
    case Leaving(d) => Leave(s, d)
    case Resetting(d) =>
      Relist(s, s.descs[d].monitor.value)
    case Closing(d) =>
      CloseHandle(s, d)
    case Sending(m, i) =>
      assert s.mons[m].slots[i] in s.mons[m].slots;
      MessageIn(s, m, i)
    case Sent(d) =>
      MessageOut(s, d)
  }

  lemma ClosingKeeps(s: State, d: nat)
    requires Inv(s) && Handle(s, d)
    ensures Inv(Close(Shut(s, d), d))
  {
    ReleasedKeeps(s, d);
    if Released(s, d).descs[d].refs == 0 {
      DestroyKeeps(Released(s, d), d);
    } else {
      Living(Released(s, d), d);
    }
  }

  lemma Living(s: State, d: nat)
    requires RefsOk(s) && Alive(s, {d}) && d in s.descs && s.descs[d].refs != 0
    ensures Alive(s, {})
  {
  }

  lemma SentKeeps(s: State, d: nat)
    requires Inv(s) && d in s.flying
    ensures Inv(MessageOut(s, d))
  {
    LandedKeeps(s, d);
    if Landed(s, d).descs[d].refs == 0 {
      DestroyKeeps(Landed(s, d), d);
    } else {
      Living(Landed(s, d), d);
    }
  }

  lemma ApplyKeeps(s: State, op: Op)
    requires Ok(s) && Legal(s, op)
    ensures Inv(Apply(s, op))
  {
    match op
    case Opening(d) => OpenKeeps(s, d);
    case Creating(d, m, id, ok) => CreateKeeps(s, d, m, id, ok);
    case Attaching(d, id, modules, count) => AttachKeeps(s, d, id, modules, count);
    case Leaving(d) => LeaveSoundIff(s, d);
    case Resetting(d) =>
    case Closing(d) => ClosingKeeps(s, d);
    case Sending(m, i) => MessageInKeeps(s, m, i);
    case Sent(d) => SentKeeps(s, d);
  }

  // ---- owners

  /** r differs from s in no owner, pointer or listing. */
  lemma SameOwns(s: State, r: State)
    requires Owns(s) && SameShape(s, r)
    ensures Owns(r)
  {
  }

  lemma RefdownOwns(s: State, d: nat, t: State, m: nat)
    requires Owns(s) && d in s.descs && s.descs[d].monitor == Some(m) && m in s.mons && PointersOk(s)
    requires t == s || t == s.(descs := s.descs[d := s.descs[d].(monitor := None)])
    ensures var r := Refdown(t, m, s.descs[d].owner);
      && r.descs.Keys == s.descs.Keys
      && forall x :: x in s.descs && x != d && r.descs[x].owner ==>
        r.descs[x].monitor.Some? && var n := r.descs[x].monitor.value;
          n in r.mons && r.mons[n].listed && r.mons[n].creator == x
  {
    var r := Refdown(t, m, s.descs[d].owner);
    forall x | x in s.descs && x != d && r.descs[x].owner
      ensures r.descs[x].monitor.Some? && var n := r.descs[x].monitor.value;
        n in r.mons && r.mons[n].listed && r.mons[n].creator == x
    {
      assert s.descs[x].owner && s.descs[x].monitor == r.descs[x].monitor;
      if s.descs[x].monitor == Some(m) {
        Two(Pointing(s.descs, m), x, d);
        assert s.mons[m].creator == x;
      } else {
        RefdownElse(t, m, s.descs[d].owner, s.descs[x].monitor.value);
      }
    }
  }

  lemma RefdownElse(s: State, m: nat, owner: bool, n: nat)
    requires m in s.mons && n in s.mons && n != m
    ensures var r := Refdown(s, m, owner); n in r.mons && r.mons[n] == s.mons[n]
  {
  }

  lemma Two(xs: set<nat>, x: nat, y: nat)
    requires x in xs && y in xs && x != y
    ensures |xs| >= 2
  {
    assert {x, y} <= xs;
    Larger({x, y}, xs);
  }

  lemma Larger(a: set<nat>, b: set<nat>)
    requires a <= b
    ensures |a| <= |b|
  {
    assert b == a + (b - a);
  }

  lemma DestroyOwns(s: State, d: nat)
    requires Owns(s) && PointersOk(s) && d in s.descs
    ensures Owns(Destroy(s, d))
  {
    if s.descs[d].monitor.Some? {
      var m := s.descs[d].monitor.value;
      RefdownOwns(s, d, s.(descs := s.descs[d := s.descs[d].(monitor := None)]), m);
    }
  }

  lemma LeaveOwns(s: State, d: nat)
    requires Owns(s) && PointersOk(s) && d in s.descs && s.descs[d].monitor.Some?
    ensures Owns(Leave(s, d))
  {
    RefdownOwns(s, d, s, s.descs[d].monitor.value);
  }

  lemma LinkOwns(s: State, d: nat, m: nat)
    requires Owns(s) && d in s.descs && s.descs[d].monitor.None? && m in s.mons
    ensures Owns(Link(s, d, m))
  {
  }

  lemma AttachOwns(s: State, d: nat, id: int, modules: Modules, count: int)
    requires Owns(s) && SlotsOk(s) && d in s.descs && s.descs[d].monitor.None?
    requires forall x :: x in s.flying ==> x in s.descs
    ensures Owns(Attach(s, d, id, modules, count).0)
  {
    var f := FindMonitor(s, s.list, id);
    if f.Some? {
      var t, ms := Link(s, d, f.value), modules[..Leading(modules, count, 0)];
      LinkOwns(s, d, f.value);
      SeatAllShape(t, f.value, ms, d);
      SameOwns(t, SeatAll(t, f.value, ms, d));
    } else {
      AttachNothing(s, d, id, modules, count);
    }
  }

  lemma CloseOwns(s: State, d: nat)
    requires Ok(s) && Handle(s, d)
    ensures Owns(Close(Shut(s, d), d))
  {
    ReleasedShape(s, d);
    ReleasedKeeps(s, d);
    SameOwns(s, Released(s, d));
    DestroyOwns(Released(s, d), d);
  }

  lemma SentOwns(s: State, d: nat)
    requires Ok(s) && d in s.flying
    ensures Owns(MessageOut(s, d))
  {
    LandedShape(s, d);
    LandedKeeps(s, d);
    SameOwns(s, Landed(s, d));
    DestroyOwns(Landed(s, d), d);
  }

  lemma SendOwns(s: State, m: nat, i: nat)
    requires Ok(s) && m in s.mons && i < MODULES
    ensures s.mons[m].slots[i].Some? ==> s.mons[m].slots[i].value in s.descs
    ensures Owns(MessageIn(s, m, i))
  {
    MessageInKeeps(s, m, i);
    if s.mons[m].slots[i].Some? {
      MessageInShape(s, m, i);
      SameOwns(s, MessageIn(s, m, i));
    }
  }

  lemma CreateOwns(s: State, d: nat, m: nat, id: int, ok: bool)
    requires Owns(s) && d in s.descs && m !in s.mons
    ensures Owns(Create(s, d, m, id, ok))
  {
  }

  lemma ApplyOwns(s: State, op: Op)
    requires Ok(s) && Legal(s, op)
    ensures Owns(Apply(s, op))
  {
    match op
    case Opening(d) =>
    case Creating(d, m, id, ok) => CreateOwns(s, d, m, id, ok);
    case Attaching(d, id, modules, count) => AttachOwns(s, d, id, modules, count);
    case Leaving(d) => LeaveOwns(s, d);
    case Resetting(d) =>
    case Closing(d) => CloseOwns(s, d);
    case Sending(m, i) => SendOwns(s, m, i);
    case Sent(d) => SentOwns(s, d);
  }

  // ---- runs

  /** One legal step. */
  ghost function Step(s: State, op: Op): (r: State)
    requires Ok(s) && Legal(s, op)
    ensures Ok(r)
  {
    ApplyKeeps(s, op);
    ApplyOwns(s, op);
    Apply(s, op)
  }

  ghost predicate Reaches(s: State, ops: seq<Op>, r: State)
    requires Ok(s)
    decreases |ops|
  {
    if ops == [] then r == s else Legal(s, ops[0]) && Reaches(Step(s, ops[0]), ops[1..], r)
  }

  /** A driver that has just been loaded. */
  const Loaded: State := State(map[], map[], [], 0, 0, multiset{})

  lemma {:induction false} ReachesSound(s: State, ops: seq<Op>, r: State)
    requires Ok(s) && Reaches(s, ops, r)
    ensures Ok(r)
    decreases |ops|
  {
    if ops != [] {
      ReachesSound(Step(s, ops[0]), ops[1..], r);
    }
  }

  /** Every state that a run from a freshly loaded driver reaches is sound, and has no monitor left over once all
      descriptors are gone. */
  lemma RunSound(ops: seq<Op>, r: State)
    requires Reaches(Loaded, ops, r)
    ensures Inv(r) && Owns(r) && (r.descs == map[] ==> r.mons == map[] && r.list == [])
  {
    ReachesSound(Loaded, ops, r);
    NothingLeft(r);
  }

  /** A RESET never lists a monitor again, because nobody but its owner may ask for it. */
  lemma {:induction false} ResetLists(ops: seq<Op>, r: State, d: nat)
    requires Reaches(Loaded, ops, r) && Legal(r, Resetting(d))
    ensures r.descs[d].monitor.Some? && r.descs[d].monitor.value in r.mons && Relist(r, r.descs[d].monitor.value) == r
  {
    ReachesSound(Loaded, ops, r);
  }

  lemma NothingLeft(s: State)
    requires Inv(s)
    ensures s.descs == map[] ==> s.mons == map[] && s.list == []
  {
    forall m | m in s.mons ensures s.descs != map[] {
      var d :| d in Pointing(s.descs, m);
      assert d in s.descs;
    }
    assert s.list != [] ==> s.list[0] in s.list;
  }

  // ---- a run to the states in which requests fail

  const First: Desc := Desc(1, None, false, true, true)
  const Owning: Desc := Desc(1, Some(0), true, true, true)

  const OneOpen: State := State(map[0 := First], map[], [], 1, 0, multiset{})
  const WithMonitor: State :=
    State(map[0 := Owning], map[0 := Mon(1, Empty(MODULES), true, 7, 0)], [0], 1, 1, multiset{})

  /** After an open, a CREATE with id 7, and another open. */
  const TwoOpen: State :=
    State(map[0 := Owning, 1 := First], map[0 := Mon(1, Empty(MODULES), true, 7, 0)], [0], 2, 1, multiset{})

  /** ... and an ATTACH of the second descriptor to the first slot. */
  const Attached: State :=
    State(map[0 := Owning, 1 := First.(refs := 2, monitor := Some(0))],
          map[0 := Mon(2, Empty(MODULES)[0 := Some(1)], true, 7, 0)], [0], 2, 1, multiset{})

  const Zeros: Modules := seq(16, _ => 0)

  lemma LoadedOk()
    ensures Ok(Loaded)
  {
  }

  lemma FirstOpen()
    ensures Ok(Loaded) && Legal(Loaded, Opening(0)) && Step(Loaded, Opening(0)) == OneOpen && Ok(OneOpen)
  {
    LoadedOk();
    assert Open(Loaded, 0) == OneOpen;
  }

  lemma Created()
    ensures Ok(OneOpen) && Legal(OneOpen, Creating(0, 0, 7, true))
    ensures Step(OneOpen, Creating(0, 0, 7, true)) == WithMonitor && Ok(WithMonitor)
  {
    FirstOpen();
    CreateOne();
    assert Apply(OneOpen, Creating(0, 0, 7, true)) == WithMonitor;
  }

  lemma CreateOne()
    ensures Create(OneOpen, 0, 0, 7, true) == WithMonitor
  {
    assert [0] + OneOpen.list == [0];
  }

  lemma SecondOpen()
    ensures Ok(WithMonitor) && Legal(WithMonitor, Opening(1)) && Step(WithMonitor, Opening(1)) == TwoOpen && Ok(TwoOpen)
  {
    Created();
    assert Apply(WithMonitor, Opening(1)) == Open(WithMonitor, 1) == TwoOpen;
  }

  lemma SecondAttached()
    ensures Ok(TwoOpen) && Legal(TwoOpen, Attaching(1, 7, Zeros, 1))
    ensures Step(TwoOpen, Attaching(1, 7, Zeros, 1)) == Attached && Ok(Attached)
  {
    SecondOpen();
    AttachOne();
    AllSeatedIff(Zeros, 1);
    AttachApplied();
  }

  lemma AttachApplied()
    requires SlotsOk(TwoOpen) && PointersOk(TwoOpen) && OwnersOk(TwoOpen) && ListOk(TwoOpen)
    requires Attach(TwoOpen, 1, 7, Zeros, 1) == (Attached, true)
    ensures Legal(TwoOpen, Attaching(1, 7, Zeros, 1)) && Apply(TwoOpen, Attaching(1, 7, Zeros, 1)) == Attached
  {
    AllSeatedIff(Zeros, 1);
  }

  lemma AttachOne()
    requires SlotsOk(TwoOpen)
    ensures FindMonitor(TwoOpen, TwoOpen.list, 7) == Some(0) && Attach(TwoOpen, 1, 7, Zeros, 1) == (Attached, true)
  {
    assert Leading(Zeros, 1, 0) == 1 && Zeros[..1] == [0];
    SeatOneModule(Link(TwoOpen, 1, 0));
    SeatFirst();
  }

  lemma SeatOneModule(s: State)
    requires Seats(s, 0, 1)
    ensures SeatAll(s, 0, [0], 1) == Seat(s, 0, 0, 1)
  {
    assert [0][..0] == [];
  }

  lemma SeatFirst()
    ensures Seats(Link(TwoOpen, 1, 0), 0, 1) && Seat(Link(TwoOpen, 1, 0), 0, 0, 1) == Attached
  {
  }

  lemma ReachesNext(s: State, op: Op, s1: State, ops: seq<Op>, r: State)
    requires Ok(s) && Legal(s, op) && Step(s, op) == s1 && Reaches(s1, ops, r)
    ensures Reaches(s, [op] + ops, r)
  {
    assert ([op] + ops)[1..] == ops;
  }

  lemma FromSecondOpen(ops: seq<Op>, r: State)
    requires Ok(TwoOpen) && Reaches(TwoOpen, ops, r)
    ensures Ok(WithMonitor) && Reaches(WithMonitor, [Opening(1)] + ops, r)
  {
    SecondOpen();
    ReachesNext(WithMonitor, Opening(1), TwoOpen, ops, r);
  }

  lemma FromCreate(ops: seq<Op>, r: State)
    requires Ok(WithMonitor) && Reaches(WithMonitor, ops, r)
    ensures Ok(OneOpen) && Reaches(OneOpen, [Creating(0, 0, 7, true)] + ops, r)
  {
    Created();
    ReachesNext(OneOpen, Creating(0, 0, 7, true), WithMonitor, ops, r);
  }

  lemma FromFirstOpen(ops: seq<Op>, r: State)
    requires Ok(OneOpen) && Reaches(OneOpen, ops, r)
    ensures Ok(Loaded) && Reaches(Loaded, [Opening(0)] + ops, r)
  {
    FirstOpen();
    ReachesNext(Loaded, Opening(0), OneOpen, ops, r);
  }

  lemma FromLoaded(ops: seq<Op>, r: State)
    requires Ok(TwoOpen) && Reaches(TwoOpen, ops, r)
    ensures Ok(Loaded) && Reaches(Loaded, [Opening(0)] + ([Creating(0, 0, 7, true)] + ([Opening(1)] + ops)), r)
  {
    FromSecondOpen(ops, r);
    FromCreate([Opening(1)] + ops, r);
    FromFirstOpen([Creating(0, 0, 7, true)] + ([Opening(1)] + ops), r);
  }

  lemma AttachedNext()
    ensures Ok(TwoOpen) && Reaches(TwoOpen, [], TwoOpen) && Reaches(TwoOpen, [Attaching(1, 7, Zeros, 1)], Attached)
  {
    SecondAttached();
    ReachesNext(TwoOpen, Attaching(1, 7, Zeros, 1), Attached, [], Attached);
    assert [Attaching(1, 7, Zeros, 1)] + [] == [Attaching(1, 7, Zeros, 1)];
  }

  /** Both states are reached from the loaded driver. */
  lemma RunToTwoOpen() returns (ops: seq<Op>)
    ensures Ok(Loaded) && Reaches(Loaded, ops, TwoOpen)
  {
    AttachedNext();
    FromLoaded([], TwoOpen);
    ops := [Opening(0)] + ([Creating(0, 0, 7, true)] + ([Opening(1)] + []));
  }

  lemma RunToAttached() returns (ops: seq<Op>)
    ensures Ok(Loaded) && Reaches(Loaded, ops, Attached)
  {
    AttachedNext();
    FromLoaded([Attaching(1, 7, Zeros, 1)], Attached);
    ops := [Opening(0)] + ([Creating(0, 0, 7, true)] + ([Opening(1)] + [Attaching(1, 7, Zeros, 1)]));
  }

  /** In them an ATTACH of module 156 leaves the slot table, an ATTACH of a descriptor that has a monitor breaks the
      counts, and so does a CLOSE of a descriptor in a slot. */
  lemma AllFail(modules: Modules)
    requires modules[0] == 156
    ensures Inv(TwoOpen) && !Attach(TwoOpen, 1, 7, modules, 1).1
    ensures Inv(Attached) && !Inv(Attach(Attached, 1, 7, Zeros, 1).0) && !Inv(Leave(Attached, 1))
  {
    SecondAttached();
    AttachOne();
    AttachOverruns(TwoOpen, 1, 7, modules);
    AttachSoundIff(Attached, 1, 7, Zeros, 1);
    SecondLeaves();
  }

  lemma SecondLeaves()
    requires Inv(Attached)
    ensures !Inv(Leave(Attached, 1))
  {
    assert Attached.mons[0].slots[0] == Some(1);
    LeaveSoundIff(Attached, 1);
  }
}
