/** kernel/debug.c: when a record is stored, what a fold changes, and which sections a read delivers. */
module LogEffects {
  import opened Bytes
  import opened DebugLog

  /** A message is stored if and only if its length fits, the log is not too full, and its section has room for the
      message and 8 bytes, or a new section can be had. The record then ends the section, with the next index; nothing
      else in the log changes. */
  lemma WriteEffect(s: Log, ptr: Option<nat>, payload: seq<byte>, id: nat, ok: bool)
    requires Inv(s) && Writer(s, ptr) && id !in s.secs
    ensures var (r, p, stored) := WriteLog(s, ptr, payload, id, ok);
      && (stored <==> |payload| <= 0xf8 && s.totalFilled <= MAX_FILL && HasRoom(s, ptr, |payload| + 8, ok))
      && (stored ==> Ends(s, ptr, id, r, p, Encode(Record(payload, s.index + 1))))
      && (forall y <- s.secs :: y in r.secs && (!stored || Some(y) != p ==> r.secs[y] == s.secs[y]))
      && r.index == (if |payload| <= 0xf8 then s.index + 1 else s.index)
      && (ptr.Some? ==> p == ptr && r.order == s.order && r.secs.Keys == s.secs.Keys)
      && (ptr.None? ==> r.order == s.order + (if p.Some? then [id] else []))
  {
    Nil(s.order);
    if |payload| <= 0xf8 {
      IndexAside(s, s.index + 1, 0);
      WriteVEffect(s.(index := s.index + 1), ptr, Encode(Record(payload, s.index + 1)), id, ok);
      WriteIs(s, ptr, payload, id, ok);
    }
  }

  /** The writer's section has room for n bytes; a new one has, if it can be had. */
  predicate HasRoom(s: Log, ptr: Option<nat>, n: nat, ok: bool)
    requires Writer(s, ptr)
  {
    match ptr case None => ok case Some(x) => |s.secs[x].bytes| + n <= s.secs[x].size
  }

  /** In r the data ends the writer's section, p. */
  predicate Ends(s: Log, ptr: Option<nat>, id: nat, r: Log, p: Option<nat>, data: seq<byte>)
    requires Writer(s, ptr)
  {
    var x := if ptr.Some? then ptr.value else id;
    p == Some(x) && x in r.secs && r.secs[x].bytes == Before(s, ptr) + data
  }

  lemma WriteVEffect(s: Log, ptr: Option<nat>, data: seq<byte>, id: nat, ok: bool)
    requires Inv(s) && Writer(s, ptr) && id !in s.secs && |data| <= START_SIZE
    ensures var (r, p, stored) := WriteV(s, ptr, data, id, ok);
      && (stored <==> s.totalFilled <= MAX_FILL && HasRoom(s, ptr, |data|, ok))
      && (stored ==> Ends(s, ptr, id, r, p, data))
      && (forall y <- s.secs :: y in r.secs && (!stored || Some(y) != p ==> r.secs[y] == s.secs[y]))
      && r.index == s.index
      && (ptr.Some? ==> p == ptr && r.order == s.order && r.secs.Keys == s.secs.Keys)
      && (ptr.None? ==> r.order == s.order + (if p.Some? then [id] else []))
  {
    Nil(s.order);
    WriteVStored(s, ptr, data, id, ok);
    if s.totalFilled <= MAX_FILL && (ptr.None? ==> ok) {
      WriteVIs(s, ptr, data, id, ok);
      StoredIs(s, ptr, data, id);
      Placed(s, ptr, Stored(s, ptr, data, id), id, WriteV(s, ptr, data, id, ok).0);
    }
  }

  /** The writer's section is x, and everything else in the sections is as before. */
  lemma Placed(s: Log, ptr: Option<nat>, x: Section, id: nat, r: Log)
    requires Writer(s, ptr) && id !in s.secs && r.secs == s.secs[if ptr.Some? then ptr.value else id := x]
    ensures var p := if ptr.Some? then ptr.value else id;
      p in r.secs && r.secs[p] == x && forall y <- s.secs :: y in r.secs && (y != p ==> r.secs[y] == s.secs[y])
  {
  }

  lemma WriteVStored(s: Log, ptr: Option<nat>, data: seq<byte>, id: nat, ok: bool)
    requires Writer(s, ptr) && |data| <= START_SIZE
    ensures var (r, p, stored) := WriteV(s, ptr, data, id, ok);
      && (stored <==> s.totalFilled <= MAX_FILL && HasRoom(s, ptr, |data|, ok))
      && p == (if ptr.None? && ok && s.totalFilled <= MAX_FILL then Some(id) else ptr)
      && (!(s.totalFilled <= MAX_FILL && (ptr.None? ==> ok)) ==> r == s)
  {
  }

  lemma StoredIs(s: Log, ptr: Option<nat>, data: seq<byte>, id: nat)
    requires Writer(s, ptr) && |data| <= START_SIZE
    ensures var x := Stored(s, ptr, data, id);
      if HasRoom(s, ptr, |data|, true) then x.bytes == Before(s, ptr) + data
      else ptr.Some? && x == s.secs[ptr.value]
  {
    Nil(data);
  }

  function Before(s: Log, ptr: Option<nat>): (b: seq<byte>)
    requires Writer(s, ptr)
  {
    if ptr.Some? then s.secs[ptr.value].bytes else []
  }

  /** A fold keeps the bytes of its section, which gets just their size if the smaller buffer can be had, and leaves
      everything else as it is. */
  lemma FoldEffect(s: Log, id: nat, ok: bool)
    requires Inv(s) && id in s.secs
    ensures var r := Fold(s, id, ok);
      && r.secs.Keys == s.secs.Keys && r.order == s.order && r.index == s.index
      && r.secs[id].folded && r.secs[id].bytes == s.secs[id].bytes
      && r.secs[id].size == (if ok then |s.secs[id].bytes| else s.secs[id].size)
      && forall y <- s.secs :: y != id ==> r.secs[y] == s.secs[y]
  {
    assert SectionOk(s.secs[id]);
    var x := s.secs[id];
    FoldIs(s, id, ok, if ok then x.(size := |x.bytes|, folded := true) else x.(folded := true));
  }

  // ---- what a read delivers

  lemma Front(ids: seq<nat>, n: nat)
    requires Apart(ids) && n < |ids|
    ensures Apart(ids[..n]) && ids[n] in ids && ids[n] !in ids[..n] && forall x :: x in ids[..n] ==> x in ids
  {
    forall i, j | 0 <= i < j < n ensures ids[..n][i] != ids[..n][j] {}
  }

  lemma Unmoved(t: (Log, seq<byte>, seq<nat>), id: nat, room: int, bad: set<nat>, y: nat)
    requires Inv(t.0) && id in t.0.secs && y in t.0.secs && y != id
    ensures var r := NextSection(t.0, id, t.1, t.2, room, bad).0; Inv(r) && y in r.secs && r.secs[y] == t.0.secs[y]
  {
    ReadOneKeeps(t.0, id, room - |t.1|, bad, y);
  }

  /** Sections that the loop has not got to are as they were. */
  lemma {:induction false} Ahead(s: Log, ids: seq<nat>, room: int, bad: set<nat>, y: nat)
    requires Inv(s) && Apart(ids) && (forall x :: x in ids ==> x in s.secs) && y in s.secs && y !in ids
    ensures var t := ReadAll(s, ids, room, bad).0; Inv(t) && y in t.secs && t.secs[y] == s.secs[y]
    decreases |ids|
  {
    if ids != [] {
      var n := |ids| - 1;
      Front(ids, n);
      Ahead(s, ids[..n], room, bad, y);
      Ahead(s, ids[..n], room, bad, ids[n]);
      Unmoved(ReadAll(s, ids[..n], room, bad), ids[n], room, bad, y);
    }
  }

  /** The loop after k of the sections ids. */
  function After(s: Log, ids: seq<nat>, k: nat, room: int, bad: set<nat>): (t: (Log, seq<byte>, seq<nat>))
    requires Apart(ids) && (forall x :: x in ids ==> x in s.secs) && k <= |ids|
  {
    ReadAll(s, ids[..k], room, bad)
  }

  lemma TakenNext(s: Log, ids: seq<nat>, k: nat, x: nat, room: int, bad: set<nat>)
    requires Apart(ids) && (forall x :: x in ids ==> x in s.secs) && k < |ids|
    ensures var t := After(s, ids, k, room, bad);
      ids[k] in t.0.secs && ids[k] !in t.2 &&
      (x in After(s, ids, k + 1, room, bad).2 <==> x in t.2 || (x == ids[k] && Saved(t.0, x, room - |t.1|, bad)))
  {
    Front(ids, k);
    ReadAllNext(s, ids, k, room, bad);
  }

  lemma {:induction false} TakenStays(s: Log, ids: seq<nat>, i: nat, k: nat, room: int, bad: set<nat>)
    requires Apart(ids) && (forall x :: x in ids ==> x in s.secs) && i < k <= |ids|
    ensures ids[i] in After(s, ids, k, room, bad).2 <==> ids[i] in After(s, ids, i + 1, room, bad).2
    decreases k
  {
    if k > i + 1 {
      TakenStays(s, ids, i, k - 1, room, bad);
      TakenNext(s, ids, k - 1, ids[i], room, bad);
    }
  }

  /** A section is delivered if and only if its copy succeeds and it fits the buffer, behind those delivered before. */
  lemma ReadTakesIff(s: Log, ids: seq<nat>, i: nat, room: int, bad: set<nat>)
    requires Inv(s) && Apart(ids) && (forall x :: x in ids ==> x in s.secs) && i < |ids|
    ensures ids[i] in After(s, ids, |ids|, room, bad).2 <==>
      ids[i] !in bad && |After(s, ids, i, room, bad).1| + |s.secs[ids[i]].bytes| <= room
  {
    AheadAt(s, ids, i, room, bad);
    TakenNext(s, ids, i, ids[i], room, bad);
    TakenStays(s, ids, i, |ids|, room, bad);
  }

  lemma AheadAt(s: Log, ids: seq<nat>, i: nat, room: int, bad: set<nat>)
    requires Inv(s) && Apart(ids) && (forall x :: x in ids ==> x in s.secs) && i < |ids|
    ensures ids[i] in After(s, ids, i, room, bad).0.secs
    ensures After(s, ids, i, room, bad).0.secs[ids[i]] == s.secs[ids[i]]
  {
    Front(ids, i);
    Ahead(s, ids[..i], room, bad, ids[i]);
  }

  /** The bytes of the sections ids. */
  function BytesOf(s: Log, ids: seq<nat>): (b: seq<byte>)
    requires forall x :: x in ids ==> x in s.secs
    decreases |ids|
  {
    if ids == [] then [] else
      assert ids[|ids| - 1] in ids;
      BytesOf(s, ids[..|ids| - 1]) + s.secs[ids[|ids| - 1]].bytes
  }

  /** When no copy fails and the buffer has room for all, all sections are delivered, in the order of the list. */
  lemma {:induction false} ReadWhole(s: Log, ids: seq<nat>, room: int, bad: set<nat>)
    requires Inv(s) && Apart(ids) && (forall x :: x in ids ==> x in s.secs && x !in bad) && |BytesOf(s, ids)| <= room
    ensures var r := ReadAll(s, ids, room, bad); r.1 == BytesOf(s, ids) && r.2 == ids
    decreases |ids|
  {
    if ids != [] {
      var n := |ids| - 1;
      Front(ids, n);
      assert ids[..n] + [ids[n]] == ids;
      ReadWhole(s, ids[..n], room, bad);
      Ahead(s, ids[..n], room, bad, ids[n]);
    }
  }

  lemma {:induction false} BytesTotal(s: Log, ids: seq<nat>)
    requires forall x :: x in ids ==> x in s.secs
    ensures |BytesOf(s, ids)| == Total(s.secs, ids, false)
    decreases |ids|
  {
    if ids != [] {
      var n := |ids| - 1;
      assert ids == ids[..n] + [ids[n]] && ids[n] in ids;
      BytesTotal(s, ids[..n]);
      TotalSnoc(s.secs, ids[..n], ids[n]);
    }
  }

  lemma {:induction false} TotalSnoc(secs: map<nat, Section>, ids: seq<nat>, x: nat)
    requires x in secs
    ensures Total(secs, ids + [x], false) == Total(secs, ids, false) + |secs[x].bytes|
  {
    if ids == [] {
      assert (ids + [x])[1..] == [];
    } else {
      assert (ids + [x])[1..] == ids[1..] + [x];
      TotalSnoc(secs, ids[1..], x);
    }
  }

  /** A read with a buffer as large as the log is full, without failures, leaves nothing pending. */
  lemma ReadEmpties(s: Log, room: int, y: nat)
    requires Inv(s) && s.totalFilled <= room
    ensures var r := Reader(s, room, {});
      Inv(r.0) && r.0.totalFilled == 0 && Pending(r.0, y) == [] && |r.1| == s.totalFilled && r.2 == s.order
  {
    DistinctApart(s.order);
    BytesTotal(s, s.order);
    ReadWhole(s, s.order, room, {});
    ReadAccounts(s, room, {}, y);
    NothingLeft(s, Reader(s, room, {}).0, room);
    if y !in s.order {
      Unlisted(s, y);
    }
  }

  lemma Unlisted(s: Log, y: nat)
    requires Inv(s) && y !in s.order
    ensures Pending(s, y) == []
  {
  }

  lemma NothingLeft(s: Log, r: Log, room: int)
    requires Inv(s) && Apart(s.order) && |BytesOf(s, s.order)| <= room && r == ReadAll(s, s.order, room, {}).0 && Inv(r)
    ensures r.totalFilled == 0
  {
    forall x | x in r.order ensures x in r.secs && r.secs[x].bytes == [] {
      EmptyAfter(s, s.order, x, room);
      OldSections(s, s.order, room, x);
    }
    AllEmpty(r.secs, r.order);
  }

  lemma {:induction false} OldSections(s: Log, ids: seq<nat>, room: int, x: nat)
    requires Inv(s) && Apart(ids) && (forall y :: y in ids ==> y in s.secs)
    ensures var r := ReadAll(s, ids, room, {}).0; Inv(r) && (x in r.secs ==> x in s.secs)
    decreases |ids|
  {
    if ids != [] {
      var n := |ids| - 1;
      Front(ids, n);
      OldSections(s, ids[..n], room, x);
      Ahead(s, ids[..n], room, {}, ids[n]);
      var t := ReadAll(s, ids[..n], room, {});
      ReadOneKeeps(t.0, ids[n], room - |t.1|, {}, x);
    }
  }

  lemma {:induction false} EmptyAfter(s: Log, ids: seq<nat>, x: nat, room: int)
    requires Inv(s) && Apart(ids) && (forall y :: y in ids ==> y in s.secs) && |BytesOf(s, ids)| <= room
    ensures var r := ReadAll(s, ids, room, {}).0; Inv(r) && (x in r.secs ==> x in ids ==> r.secs[x].bytes == [])
    decreases |ids|
  {
    if ids != [] {
      var n := |ids| - 1;
      Front(ids, n);
      EmptyAfter(s, ids[..n], x, room);
      ReadWhole(s, ids[..n], room, {});
      Ahead(s, ids[..n], room, {}, ids[n]);
      EmptyNext(ReadAll(s, ids[..n], room, {}), ids[n], x, room);
      assert x in ids ==> x in ids[..n] || x == ids[n];
    }
  }

  lemma EmptyNext(t: (Log, seq<byte>, seq<nat>), id: nat, x: nat, room: int)
    requires Inv(t.0) && id in t.0.secs && |t.1| + |t.0.secs[id].bytes| <= room
    ensures var r := NextSection(t.0, id, t.1, t.2, room, {}).0;
      Inv(r) && (x in r.secs ==> if x == id then r.secs[x].bytes == [] else x in t.0.secs && r.secs[x] == t.0.secs[x])
  {
    ReadOneKeeps(t.0, id, room - |t.1|, {}, x);
    ReadOneIs(t.0, id, room - |t.1|, {});
  }

  lemma {:induction false} AllEmpty(secs: map<nat, Section>, ids: seq<nat>)
    requires forall x :: x in ids ==> x in secs && secs[x].bytes == []
    ensures Total(secs, ids, false) == 0
  {
    if ids != [] {
      AllEmpty(secs, ids[1..]);
    }
  }
}
