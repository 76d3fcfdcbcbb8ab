/** kernel/debug.c, user/debug/main.c: the driver's log. Writers append type-length-value records to sections of their
    own; a reader takes whole sections; a folded section has lost its writer and goes with its last bytes. */
module DebugLog {
  import opened Bytes

  const START_SIZE: int := 0x1000
  const MAX_FILL: int := 0x10_0000
  const TYPE_TLV: byte := 0
  const TYPE_DRIVER_INDEX: byte := 10

  // ---- records

  datatype Tlv = Tlv(kind: byte, value: seq<byte>)

  function Encode(t: Tlv): (b: seq<byte>)
    requires |t.value| < 0x100
  {
    [t.kind, |t.value|] + t.value
  }

  /** The walk over a buffer of records; None when a record does not end inside the buffer. */
  function Walk(b: seq<byte>): (r: Option<seq<Tlv>>) {
    if b == [] then Some([])
    else if |b| < 2 || |b| < 2 + b[1] as int then None
    else
      var n := 2 + b[1] as int;
      match Walk(b[n..])
      case None => None
      case Some(ts) => Some([Tlv(b[0], b[2..n])] + ts)
  }

  /** One record in front. */
  lemma WalkFirst(t: Tlv, rest: seq<byte>)
    requires |t.value| < 0x100
    ensures Walk(Encode(t) + rest) == match Walk(rest) case None => None case Some(ts) => Some([t] + ts)
  {
    var b := Encode(t) + rest;
    var n := 2 + |t.value|;
    assert b[0] == t.kind && b[1] as int == |t.value|;
    assert b[2..n] == t.value;
    assert b[n..] == rest;
  }

  lemma WalkOne(t: Tlv)
    requires |t.value| < 0x100
    ensures Walk(Encode(t)) == Some([t])
  {
    WalkFirst(t, []);
    Nil(Encode(t));
    Nil([t]);
  }

  /** A buffer that can be walked starts with a record. */
  lemma WalkSplits(b: seq<byte>) returns (t: Tlv, rest: seq<byte>)
    requires b != [] && Walk(b).Some?
    ensures |t.value| < 0x100 && b == Encode(t) + rest && Walk(rest).Some? && Walk(b).value == [t] + Walk(rest).value
    ensures |b| >= 2 && t.kind == b[0] && |t.value| == b[1] && rest == b[2 + b[1] as int..] &&
      t.value == b[2..2 + b[1] as int]
  {
    var n := 2 + b[1] as int;
    t, rest := Tlv(b[0], b[2..n]), b[n..];
    assert [b[0], b[1]] + b[2..n] + b[n..] == b;
  }

  lemma {:induction false} WalkJoin(a: seq<byte>, b: seq<byte>)
    requires Walk(a).Some? && Walk(b).Some?
    ensures Walk(a + b) == Some(Walk(a).value + Walk(b).value)
    decreases |a|
  {
    if a == [] {
      Nil(b);
      Nil(Walk(b).value);
    } else {
      var t, rest := WalkSplits(a);
      WalkJoin(rest, b);
      WalkFirst(t, rest + b);
      Assoc(Encode(t), rest, b);
      Assoc([t], Walk(rest).value, Walk(b).value);
    }
  }

  /** The records that the reader's loop hands on: it stops at a header that is cut off, and after a record that runs
      past the end, of which only the bytes before the end are its own. */
  function Parsed(b: seq<byte>): (ts: seq<Tlv>) {
    if |b| < 2 then []
    else if |b| < 2 + b[1] as int then [Tlv(b[0], b[2..])]
    else [Tlv(b[0], b[2..2 + b[1] as int])] + Parsed(b[2 + b[1] as int..])
  }

  lemma ParsedFirst(t: Tlv, rest: seq<byte>)
    requires |t.value| < 0x100
    ensures Parsed(Encode(t) + rest) == [t] + Parsed(rest)
  {
    var b := Encode(t) + rest;
    var n := 2 + |t.value|;
    assert b[0] == t.kind && b[1] as int == |t.value|;
    assert b[2..n] == t.value && b[n..] == rest;
  }

  /** A buffer of whole records is taken apart as it was put together. */
  lemma {:induction false} ParsedWhole(b: seq<byte>)
    requires Walk(b).Some?
    ensures Parsed(b) == Walk(b).value
  {
    if b != [] {
      ParsedWhole(b[2 + b[1] as int..]);
    }
  }

  /** A buffer that is cut inside its last record gives all records before it, and the start of that one if its header
      is there. */
  lemma {:induction false} ParsedCut(a: seq<byte>, b: seq<byte>)
    requires Walk(a).Some? && b != [] && (|b| < 2 || |b| < 2 + b[1] as int)
    ensures Walk(a + b).None?
    ensures Parsed(a + b) == Walk(a).value + if |b| < 2 then [] else [Tlv(b[0], b[2..])]
    decreases |a|
  {
    if a == [] {
      Nil(b);
      Nil(Parsed(b));
    } else {
      var t, rest := WalkSplits(a);
      ParsedCut(rest, b);
      WalkFirst(t, rest + b);
      ParsedFirst(t, rest + b);
      Assoc(Encode(t), rest, b);
      Assoc([t], Walk(rest).value, if |b| < 2 then [] else [Tlv(b[0], b[2..])]);
    }
  }

  lemma ParsedNext(b: seq<byte>, end: nat)
    requires |b| >= 2 && end == if 2 + b[1] as int <= |b| then 2 + b[1] as int else |b|
    ensures Parsed(b) == [Tlv(b[0], b[2..end])] + Parsed(b[end..])
  {
    if end == |b| {
      assert b[2..end] == b[2..] && b[end..] == [];
      Nil([Tlv(b[0], b[2..])]);
    }
  }

  /** parse_tlv_buffer. */
  method ParseBuffer(b: seq<byte>) returns (ts: seq<Tlv>)
    ensures ts == Parsed(b)
  {
    ts := [];
    Nil(Parsed(b));
    var block, size: int := b, |b|;
    while size > 0
      invariant size <= |block| && (size >= 0 ==> size == |block|) && (size < 0 ==> block == [])
      invariant Parsed(b) == ts + Parsed(block)
    {
      if size < 2 {
        Nil(ts);
        return;
      }
      var n := 2 + block[1] as int;
      var end := if n <= |block| then n else |block|;
      var t := Tlv(block[0], block[2..end]);
      ParsedNext(block, end);
      Assoc(ts, [t], Parsed(block[end..]));
      ts := ts + [t];
      block := block[end..];
      size := size - n;
    }
    Nil(ts);
  }

  // ---- the records that co_debug_write_log makes

  function Le32(x: int): (b: seq<byte>)
    ensures |b| == 4
  {
    [x % 0x100, x / 0x100 % 0x100, x / 0x1_0000 % 0x100, x / 0x100_0000 % 0x100]
  }

  function IndexTlv(index: int): (t: Tlv) { Tlv(TYPE_DRIVER_INDEX, Le32(index)) }

  /** The record of a message: its own records, and the driver's index. */
  function Record(payload: seq<byte>, index: int): (t: Tlv)
    requires |payload| <= 0xf8
    ensures |t.value| <= 0xfe
  {
    Tlv(TYPE_TLV, payload + Encode(IndexTlv(index)))
  }

  /** The walk over one record yields what the caller put in, and then the index. */
  lemma RecordReads(payload: seq<byte>, index: int)
    requires |payload| <= 0xf8 && Walk(payload).Some?
    ensures Walk(Record(payload, index).value) == Some(Walk(payload).value + [IndexTlv(index)])
  {
    WalkOne(IndexTlv(index));
    WalkJoin(payload, Encode(IndexTlv(index)));
  }

  /** The bytes that the last record of p lacks. If only its first byte is there, the index record gives the length. */
  function Lack(p: seq<byte>): (n: nat) {
    if p == [] then 0
    else if |p| == 1 then 1 + TYPE_DRIVER_INDEX as int
    else if |p| < 2 + p[1] as int then 2 + p[1] as int - |p|
    else Lack(p[2 + p[1] as int..])
  }

  lemma {:induction false} LackNone(p: seq<byte>)
    ensures Lack(p) == 0 <==> Walk(p).Some?
  {
    if |p| >= 2 && |p| >= 2 + p[1] as int {
      LackNone(p[2 + p[1] as int..]);
    }
  }

  lemma WalkHead(b: seq<byte>, n: nat)
    requires |b| >= 2 && n == 2 + b[1] as int
    ensures Walk(b).Some? <==> n <= |b| && Walk(b[n..]).Some?
  {
  }

  lemma CutAt(p: seq<byte>, e: seq<byte>, n: nat)
    requires n <= |p| + |e|
    ensures (p + e)[n..] == if n <= |p| then p[n..] + e else e[n - |p|..]
  {
  }

  /** The walk over any payload and the index record that follows it. */
  lemma {:induction false} WalkPast(p: seq<byte>, e: seq<byte>)
    requires |e| == 6 && e[0] == TYPE_DRIVER_INDEX
    ensures Walk(p + e).Some? <==> Lack(p) <= 6 && Walk(e[Lack(p)..]).Some?
  {
    if p == [] {
      assert p + e == e == e[0..];
    } else {
      var n := 2 + (if |p| == 1 then e[0] else p[1]) as int;
      WalkHead(p + e, n);
      if n <= |p| + 6 {
        CutAt(p, e, n);
      }
      if n <= |p| {
        WalkPast(p[n..], e);
      }
    }
  }

  predicate Readable(payload: seq<byte>, index: int)
    requires |payload| <= 0xf8
  {
    Walk(Record(payload, index).value).Some?
  }

  lemma ReadableIff(payload: seq<byte>, index: int)
    requires |payload| <= 0xf8
    ensures Readable(payload, index) <==> Lack(payload) <= 6 && Walk(Encode(IndexTlv(index))[Lack(payload)..]).Some?
  {
    WalkPast(payload, Encode(IndexTlv(index)));
  }

  /** Whatever the index, the walk over the record of a message stays inside it, if and only if the message consists of
      whole records, or lacks just the six bytes of the index record at its end. */
  lemma RecordReadsIff(payload: seq<byte>)
    requires |payload| <= 0xf8
    ensures (forall index: int :: Readable(payload, index)) <==> Walk(payload).Some? || Lack(payload) == 6
  {
    LackNone(payload);
    if Lack(payload) == 0 || Lack(payload) == 6 {
      forall index: int ensures Readable(payload, index) {
        ReadableIff(payload, index);
        WholeIndex(index);
      }
    } else {
      var index := Spoiler(Lack(payload));
      ReadableIff(payload, index);
      if Lack(payload) < 6 {
        IndexCut(Lack(payload));
      }
      assert !Readable(payload, index);
    }
  }

  lemma WholeIndex(index: int)
    ensures var e := Encode(IndexTlv(index)); |e| == 6 && Walk(e[0..]).Some? && Walk(e[6..]).Some?
  {
    WalkOne(IndexTlv(index));
    assert Encode(IndexTlv(index))[0..] == Encode(IndexTlv(index));
  }

  /** An index record without its first n bytes is no record, for this index. */
  function Spoiler(n: nat): (index: int) {
    if n == 1 then 2 else if n == 2 then 0x100 else if n == 3 then 0 else 0x100_0000
  }

  lemma IndexCut(n: nat)
    requires 0 < n < 6
    ensures Walk(Encode(IndexTlv(Spoiler(n)))[n..]).None?
  {
    var b := Encode(IndexTlv(Spoiler(n)))[n..];
    if n == 1 {
      SpoilerBytes(2, 1, [4, 2, 0, 0, 0]);
      WalkSkip([4, 2, 0, 0, 0], [0]);
    } else if n == 2 {
      SpoilerBytes(0x100, 2, [0, 1, 0, 0]);
      WalkSkip([0, 1, 0, 0], [0]);
    } else if n == 3 {
      SpoilerBytes(0, 3, [0, 0, 0]);
      WalkSkip([0, 0, 0], [0]);
    }
  }

  lemma SpoilerBytes(index: int, n: nat, b: seq<byte>)
    requires n < 6 && b == ([TYPE_DRIVER_INDEX, 4] + Le32(index))[n..]
    ensures Encode(IndexTlv(index))[n..] == b
  {
  }

  lemma WalkSkip(b: seq<byte>, rest: seq<byte>)
    requires |b| >= 2 && |b| >= 2 + b[1] as int && b[2 + b[1] as int..] == rest
    ensures Walk(b).Some? <==> Walk(rest).Some?
  {
  }

  // ---- sections

  datatype Section = Section(bytes: seq<byte>, size: int, refs: int, folded: bool)

  /** `order`: the list of sections. `index`: debug_driver_index. */
  datatype Log = Log(secs: map<nat, Section>, order: seq<nat>, count: int, totalSize: int, totalFilled: int, index: int)

  function Weight(x: Section, size: bool): (n: int) { if size then x.size else |x.bytes| }

  /** The sum of the sizes or of the fills over a list. */
  function Total(secs: map<nat, Section>, order: seq<nat>, size: bool): (n: int) {
    if order == [] then 0
    else (if order[0] in secs then Weight(secs[order[0]], size) else 0) + Total(secs, order[1..], size)
  }

  predicate Distinct(order: seq<nat>) {
    order == [] || (order[0] !in order[1..] && Distinct(order[1..]))
  }

  function Without(order: seq<nat>, id: nat): (r: seq<nat>) {
    if order == [] then [] else if order[0] == id then order[1..] else [order[0]] + Without(order[1..], id)
  }

  ghost predicate SectionOk(x: Section) { x.refs == 1 && |x.bytes| <= x.size && Walk(x.bytes).Some? }

  ghost predicate Inv(s: Log) {
    && Distinct(s.order) && (forall id :: id in s.order <==> id in s.secs)
    && s.count == |s.order| && s.totalSize == Total(s.secs, s.order, true) &&
      s.totalFilled == Total(s.secs, s.order, false)
    && forall id :: id in s.secs ==> SectionOk(s.secs[id])
  }

  // ---- sums

  lemma {:induction false} TotalOutside(secs: map<nat, Section>, order: seq<nat>, size: bool, id: nat, x: Section)
    requires id !in order
    ensures Total(secs[id := x], order, size) == Total(secs, order, size)
    ensures Total(secs - {id}, order, size) == Total(secs, order, size)
  {
    if order != [] {
      TotalOutside(secs, order[1..], size, id, x);
    }
  }

  lemma {:induction false} TotalSet(secs: map<nat, Section>, order: seq<nat>, size: bool, id: nat, x: Section)
    requires Distinct(order) && id in order && id in secs
    ensures Total(secs[id := x], order, size) == Total(secs, order, size) - Weight(secs[id], size) + Weight(x, size)
  {
    if order[0] == id {
      TotalOutside(secs, order[1..], size, id, x);
    } else {
      TotalSet(secs, order[1..], size, id, x);
    }
  }

  lemma {:induction false} TotalAdd(secs: map<nat, Section>, order: seq<nat>, size: bool, id: nat, x: Section)
    requires id !in order
    ensures Total(secs[id := x], order + [id], size) == Total(secs, order, size) + Weight(x, size)
  {
    if order == [] {
      assert (order + [id])[1..] == [];
    } else {
      assert (order + [id])[1..] == order[1..] + [id];
      TotalAdd(secs, order[1..], size, id, x);
    }
  }

  lemma {:induction false} TotalRemove(secs: map<nat, Section>, order: seq<nat>, size: bool, id: nat)
    requires Distinct(order) && id in order && id in secs
    ensures Total(secs - {id}, Without(order, id), size) == Total(secs, order, size) - Weight(secs[id], size)
  {
    if order[0] == id {
      TotalOutside(secs, order[1..], size, id, secs[id]);
    } else {
      TotalRemove(secs, order[1..], size, id);
      assert ([order[0]] + Without(order[1..], id))[1..] == Without(order[1..], id);
    }
  }

  lemma {:induction false} WithoutOk(order: seq<nat>, id: nat)
    requires Distinct(order) && id in order
    ensures Distinct(Without(order, id)) && |Without(order, id)| == |order| - 1
    ensures forall x :: x in Without(order, id) <==> x in order && x != id
  {
    if order[0] != id {
      WithoutOk(order[1..], id);
      assert ([order[0]] + Without(order[1..], id))[1..] == Without(order[1..], id);
    }
  }

  lemma {:induction false} DistinctAdd(order: seq<nat>, id: nat)
    requires Distinct(order) && id !in order
    ensures Distinct(order + [id])
  {
    if order == [] {
      assert (order + [id])[1..] == [];
    } else {
      assert (order + [id])[1..] == order[1..] + [id];
      DistinctAdd(order[1..], id);
    }
  }

  // ---- the operations

  function Get(s: Log, id: nat): (r: Log)
    requires id in s.secs
  {
    s.(secs := s.secs[id := s.secs[id].(refs := s.secs[id].refs + 1)])
  }

  /** put_section: without references the section is freed. */
  function Put(s: Log, id: nat): (r: Log)
    requires id in s.secs
  {
    var x := s.secs[id].(refs := s.secs[id].refs - 1);
    if x.refs == 0 then s.(secs := s.secs - {id}, count := s.count - 1, totalSize := s.totalSize - x.size)
    else s.(secs := s.secs[id := x])
  }

  /** append_to_buffer; resize_section returns before it changes anything unless the sizes are equal. */
  function AppendTo(s: Log, id: nat, data: seq<byte>): (r: (Log, bool))
    requires id in s.secs
    ensures id in r.0.secs
  {
    var x := s.secs[id];
    if x.size - |x.bytes| < |data| then (s, false)
    else (s.(secs := s.secs[id := x.(bytes := x.bytes + data)], totalFilled := s.totalFilled + |data|), true)
  }

  /** create_section and the two references that the first write takes. */
  function Create(s: Log, id: nat): (r: Log) {
    s.(secs := s.secs[id := Section([], START_SIZE, 2, false)], order := s.order + [id], count := s.count + 1,
       totalSize := s.totalSize + START_SIZE)
  }

  /** co_debug_writev: the log, the writer's section and whether the record is stored. */
  function WriteV(s: Log, ptr: Option<nat>, data: seq<byte>, id: nat, ok: bool): (r: (Log, Option<nat>, bool))
    requires ptr.Some? ==> ptr.value in s.secs
  {
    if s.totalFilled > MAX_FILL || (ptr.None? && !ok) then (s, ptr, false)
    else
      var cur := if ptr.None? then id else ptr.value;
      var s1 := if ptr.None? then Create(s, id) else Get(s, cur);
      var (s2, stored) := AppendTo(s1, cur, data);
      (Put(s2, cur), Some(cur), stored)
  }

  /** co_debug_write_log. */
  function WriteLog(s: Log, ptr: Option<nat>, payload: seq<byte>, id: nat, ok: bool): (r: (Log, Option<nat>, bool))
    requires ptr.Some? ==> ptr.value in s.secs
  {
    if |payload| > 0xf8 then (s, ptr, false)
    else WriteV(s.(index := s.index + 1), ptr, Encode(Record(payload, s.index + 1)), id, ok)
  }

  /** co_debug_fold; `ok`: the smaller buffer could be allocated. */
  function Fold(s: Log, id: nat, ok: bool): (r: Log)
    requires id in s.secs
  {
    var s1 := Get(s, id);
    var x := s1.secs[id];
    var y := if ok then x.(size := |x.bytes|, folded := true) else x.(folded := true);
    Put(s1.(secs := s1.secs[id := y], totalSize := s1.totalSize - x.size + y.size), id)
  }

  /** The section fits what is left of the reader's buffer, and the copy succeeds. */
  predicate Saved(s: Log, id: nat, room: int, bad: set<nat>)
    requires id in s.secs
  {
    |s.secs[id].bytes| <= room && id !in bad
  }

  /** One section of co_debug_read. */
  function ReadOne(s: Log, id: nat, room: int, bad: set<nat>): (r: Log)
    requires id in s.secs
  {
    var s1 := Get(s, id);
    var x := s1.secs[id];
    if !Saved(s, id, room, bad) then Put(s1, id)
    else
      var s2 := s1.(secs := s1.secs[id := x.(bytes := [])], totalFilled := s1.totalFilled - |x.bytes|);
      if x.folded then
        Put(s2.(order := Without(s2.order, id),
                secs := s2.secs[id := x.(bytes := [], refs := x.refs - 1, folded := false)]), id)
      else Put(s2, id)
  }

  // ---- every operation keeps the totals

  lemma SetKeeps(s: Log, id: nat, x: Section)
    requires Inv(s) && id in s.secs && SectionOk(x)
    ensures Inv(s.(secs := s.secs[id := x], totalSize := s.totalSize - s.secs[id].size + x.size,
                   totalFilled := s.totalFilled - |s.secs[id].bytes| + |x.bytes|))
  {
    TotalSet(s.secs, s.order, true, id, x);
    TotalSet(s.secs, s.order, false, id, x);
  }

  lemma AddKeeps(s: Log, id: nat, x: Section)
    requires Inv(s) && id !in s.secs && SectionOk(x)
    ensures Inv(s.(secs := s.secs[id := x], order := s.order + [id], count := s.count + 1,
                   totalSize := s.totalSize + x.size, totalFilled := s.totalFilled + |x.bytes|))
  {
    TotalAdd(s.secs, s.order, true, id, x);
    TotalAdd(s.secs, s.order, false, id, x);
    DistinctAdd(s.order, id);
  }

  lemma RemoveKeeps(s: Log, id: nat)
    requires Inv(s) && id in s.secs
    ensures Inv(s.(secs := s.secs - {id}, order := Without(s.order, id), count := s.count - 1,
                   totalSize := s.totalSize - s.secs[id].size, totalFilled := s.totalFilled - |s.secs[id].bytes|))
  {
    TotalRemove(s.secs, s.order, true, id);
    TotalRemove(s.secs, s.order, false, id);
    WithoutOk(s.order, id);
  }

  /** The records in a section that have not been read. */
  function Pending(s: Log, id: nat): (ts: seq<Tlv>) {
    if id in s.secs && Walk(s.secs[id].bytes).Some? then Walk(s.secs[id].bytes).value else []
  }

  predicate Writer(s: Log, ptr: Option<nat>) { ptr.Some? ==> ptr.value in s.secs && !s.secs[ptr.value].folded }

  /** After a write: the section of the writer has grown by the data, or nothing but a new section has come. */
  function Stored(s: Log, ptr: Option<nat>, data: seq<byte>, id: nat): (x: Section)
    requires ptr.Some? ==> ptr.value in s.secs
  {
    var x := if ptr.Some? then s.secs[ptr.value] else Section([], START_SIZE, 1, false);
    if x.size - |x.bytes| < |data| then x else x.(bytes := x.bytes + data)
  }

  lemma WriteVIs(s: Log, ptr: Option<nat>, data: seq<byte>, id: nat, ok: bool)
    requires Inv(s) && Writer(s, ptr) && id !in s.secs && s.totalFilled <= MAX_FILL && (ptr.None? ==> ok)
    ensures var x := Stored(s, ptr, data, id);
      WriteV(s, ptr, data, id, ok).0 ==
      if ptr.Some? then
        s.(secs := s.secs[ptr.value := x], totalFilled := s.totalFilled - |s.secs[ptr.value].bytes| + |x.bytes|)
      else s.(secs := s.secs[id := x], order := s.order + [id], count := s.count + 1, totalSize := s.totalSize + x.size,
              totalFilled := s.totalFilled + |x.bytes|)
  {
    if ptr.Some? {
      assert SectionOk(s.secs[ptr.value]);
    }
  }

  lemma StoredOk(s: Log, ptr: Option<nat>, data: seq<byte>, id: nat)
    requires Inv(s) && Writer(s, ptr) && Walk(data).Some?
    ensures SectionOk(Stored(s, ptr, data, id))
  {
    var x := if ptr.Some? then s.secs[ptr.value] else Section([], START_SIZE, 1, false);
    assert SectionOk(x);
    WalkJoin(x.bytes, data);
  }

  lemma WriteVKeeps(s: Log, ptr: Option<nat>, t: Tlv, id: nat, ok: bool)
    requires Inv(s) && Writer(s, ptr) && id !in s.secs && |t.value| < 0x100
    ensures Inv(WriteV(s, ptr, Encode(t), id, ok).0) &&
      Writer(WriteV(s, ptr, Encode(t), id, ok).0, WriteV(s, ptr, Encode(t), id, ok).1)
  {
    if s.totalFilled <= MAX_FILL && (ptr.None? ==> ok) {
      WalkOne(t);
      WriteVIs(s, ptr, Encode(t), id, ok);
      StoredOk(s, ptr, Encode(t), id);
      var x := Stored(s, ptr, Encode(t), id);
      if ptr.Some? {
        SetKeeps(s, ptr.value, x);
      } else {
        AddKeeps(s, id, x);
      }
    }
  }

  /** A stored record comes after those that are pending in its section; no other section changes. */
  lemma WriteVPending(s: Log, ptr: Option<nat>, t: Tlv, id: nat, ok: bool, y: nat)
    requires Inv(s) && Writer(s, ptr) && id !in s.secs && |t.value| < 0x100
    ensures var (r, p, stored) := WriteV(s, ptr, Encode(t), id, ok);
      Pending(r, y) == Pending(s, y) + if stored && p == Some(y) then [t] else []
  {
    Nil(Pending(s, y));
    if s.totalFilled <= MAX_FILL && (ptr.None? ==> ok) {
      WalkOne(t);
      WriteVIs(s, ptr, Encode(t), id, ok);
      var cur := if ptr.None? then id else ptr.value;
      var before := if ptr.Some? then s.secs[ptr.value] else Section([], START_SIZE, 1, false);
      if ptr.Some? {
        assert SectionOk(s.secs[ptr.value]);
      }
      if y == cur {
        WalkJoin(before.bytes, Encode(t));
      }
    }
  }

  lemma FoldIs(s: Log, id: nat, ok: bool, z: Section)
    requires id in s.secs && s.secs[id].refs == 1
    requires z == if ok then s.secs[id].(size := |s.secs[id].bytes|, folded := true) else s.secs[id].(folded := true)
    ensures Fold(s, id, ok) == s.(secs := s.secs[id := z], totalSize := s.totalSize - s.secs[id].size + z.size)
  {
  }

  lemma FoldKeeps(s: Log, id: nat, ok: bool, y: nat)
    requires Inv(s) && id in s.secs
    ensures Inv(Fold(s, id, ok)) && Pending(Fold(s, id, ok), y) == Pending(s, y) &&
      Fold(s, id, ok).secs.Keys == s.secs.Keys
  {
    var x := s.secs[id];
    assert SectionOk(x);
    var z := if ok then x.(size := |x.bytes|, folded := true) else x.(folded := true);
    FoldIs(s, id, ok, z);
    SetKeeps(s, id, z);
  }

  /** A section that is not saved stays as it is; one that is saved is empty, and gone if it was folded. */
  lemma ReadOneIs(s: Log, id: nat, room: int, bad: set<nat>)
    requires Inv(s) && id in s.secs
    ensures ReadOne(s, id, room, bad) ==
      if !Saved(s, id, room, bad) then s
      else if s.secs[id].folded then
        s.(secs := s.secs - {id}, order := Without(s.order, id), count := s.count - 1,
           totalSize := s.totalSize - s.secs[id].size, totalFilled := s.totalFilled - |s.secs[id].bytes|)
      else s.(secs := s.secs[id := s.secs[id].(bytes := [])], totalFilled := s.totalFilled - |s.secs[id].bytes|)
  {
    assert SectionOk(s.secs[id]);
    if !Saved(s, id, room, bad) {
      UnsavedIs(s, id, room, bad);
    } else if s.secs[id].folded {
      FreedIs(s, id, room, bad);
    } else {
      EmptiedIs(s, id, room, bad);
    }
  }

  lemma {:induction false} UnsavedIs(s: Log, id: nat, room: int, bad: set<nat>)
    requires id in s.secs && s.secs[id].refs == 1 && !Saved(s, id, room, bad)
    ensures ReadOne(s, id, room, bad) == s
  {
    assert s.secs[id := s.secs[id]] == s.secs;
  }

  lemma {:induction false} EmptiedIs(s: Log, id: nat, room: int, bad: set<nat>)
    requires id in s.secs && s.secs[id].refs == 1 && !s.secs[id].folded && Saved(s, id, room, bad)
    ensures ReadOne(s, id, room, bad) ==
      s.(secs := s.secs[id := s.secs[id].(bytes := [])], totalFilled := s.totalFilled - |s.secs[id].bytes|)
  {
  }

  lemma FreedIs(s: Log, id: nat, room: int, bad: set<nat>)
    requires id in s.secs && s.secs[id].refs == 1 && s.secs[id].folded && Saved(s, id, room, bad)
    ensures ReadOne(s, id, room, bad) ==
      s.(secs := s.secs - {id}, order := Without(s.order, id), count := s.count - 1,
         totalSize := s.totalSize - s.secs[id].size, totalFilled := s.totalFilled - |s.secs[id].bytes|)
  {
    assert ReadOne(s, id, room, bad).secs == s.secs - {id};
  }

  lemma ReadOneKeeps(s: Log, id: nat, room: int, bad: set<nat>, y: nat)
    requires Inv(s) && id in s.secs
    ensures Inv(ReadOne(s, id, room, bad))
    ensures Pending(ReadOne(s, id, room, bad), y) == if y == id && Saved(s, id, room, bad) then [] else Pending(s, y)
    ensures y in s.secs && y !in ReadOne(s, id, room, bad).secs <==>
      y == id && s.secs[id].folded && Saved(s, id, room, bad)
    ensures y in ReadOne(s, id, room, bad).secs && y != id ==> ReadOne(s, id, room, bad).secs[y] == s.secs[y]
    ensures ReadOne(s, id, room, bad).secs.Keys <= s.secs.Keys
  {
    ReadOneIs(s, id, room, bad);
    assert SectionOk(s.secs[id]);
    if Saved(s, id, room, bad) {
      if s.secs[id].folded {
        RemoveKeeps(s, id);
      } else {
        SetKeeps(s, id, s.secs[id].(bytes := []));
      }
    }
  }

  // ---- reading

  predicate Apart(ids: seq<nat>) { forall i, j :: 0 <= i < j < |ids| ==> ids[i] != ids[j] }

  lemma {:induction false} DistinctApart(ids: seq<nat>)
    requires Distinct(ids)
    ensures Apart(ids)
  {
    if ids != [] {
      DistinctApart(ids[1..]);
      forall i, j | 0 <= i < j < |ids| ensures ids[i] != ids[j] {
        assert ids[j] == ids[1..][j - 1];
        if i > 0 {
          assert ids[i] == ids[1..][i - 1];
        }
      }
    }
  }

  /** The loop of co_debug_read over the sections ids: the log, the bytes and the sections that were delivered. */
  function ReadAll(s: Log, ids: seq<nat>, room: int, bad: set<nat>): (r: (Log, seq<byte>, seq<nat>))
    requires Apart(ids) && forall x :: x in ids ==> x in s.secs
    ensures (forall x :: x in s.secs && x !in ids ==> x in r.0.secs) && (forall x :: x in r.2 ==> x in ids)
    ensures room >= 0 ==> |r.1| <= room
    decreases |ids|
  {
    if ids == [] then (s, [], [])
    else
      var n := |ids| - 1;
      var (t, out, done) := ReadAll(s, ids[..n], room, bad);
      NextSection(t, ids[n], out, done, room, bad)
  }

  function NextSection(t: Log, id: nat, out: seq<byte>, done: seq<nat>, room: int, bad: set<nat>)
    : (r: (Log, seq<byte>, seq<nat>))
    requires id in t.secs
    ensures forall x :: x in t.secs && x != id ==> x in r.0.secs
  {
    var saved := Saved(t, id, room - |out|, bad);
    (ReadOne(t, id, room - |out|, bad), if saved then out + t.secs[id].bytes else out,
     if saved then done + [id] else done)
  }

  lemma ReadAllNext(s: Log, ids: seq<nat>, i: nat, room: int, bad: set<nat>)
    requires Apart(ids) && (forall x :: x in ids ==> x in s.secs) && i < |ids|
    ensures var t := ReadAll(s, ids[..i], room, bad);
      ids[i] in t.0.secs && ReadAll(s, ids[..i + 1], room, bad) == NextSection(t.0, ids[i], t.1, t.2, room, bad)
  {
    var js := ids[..i + 1];
    assert js[..i] == ids[..i] && js[i] == ids[i];
    assert ids[i] in ids && ids[i] !in ids[..i];
  }

  /** The records of the sections ids, one section after the other. */
  function RecordsOf(s: Log, ids: seq<nat>): (ts: seq<Tlv>)
    decreases |ids|
  {
    if ids == [] then [] else RecordsOf(s, ids[..|ids| - 1]) + Pending(s, ids[|ids| - 1])
  }

  /** What a read does to section y. */
  ghost predicate ReadEffect(s: Log, r: Log, done: seq<nat>, y: nat) {
    && Pending(r, y) == (if y in done then [] else Pending(s, y))
    && (y in done ==> y in s.secs)
    && (y in s.secs && y !in r.secs <==> y in done && s.secs[y].folded)
    && (y in r.secs ==> y in s.secs && r.secs[y].folded == s.secs[y].folded)
  }

  ghost predicate Delivers(s: Log, r: (Log, seq<byte>, seq<nat>)) {
    Inv(r.0) && Walk(r.1) == Some(RecordsOf(s, r.2)) && forall y :: 0 <= y ==> ReadEffect(s, r.0, r.2, y)
  }

  lemma ReadOneEffect(s: Log, id: nat, room: int, bad: set<nat>, y: nat)
    requires Inv(s) && id in s.secs
    ensures ReadEffect(s, ReadOne(s, id, room, bad), if Saved(s, id, room, bad) then [id] else [], y)
  {
    ReadOneKeeps(s, id, room, bad, y);
    ReadOneIs(s, id, room, bad);
  }

  lemma EffectThen(s: Log, t: Log, r: Log, id: nat, saved: bool, done: seq<nat>, y: nat)
    requires ReadEffect(s, t, done, y) && ReadEffect(t, r, if saved then [id] else [], y) && id !in done
    ensures ReadEffect(s, r, if saved then done + [id] else done, y)
  {
  }

  lemma NextDelivers(s: Log, t: (Log, seq<byte>, seq<nat>), id: nat, room: int, bad: set<nat>)
    requires Delivers(s, t) && id in t.0.secs && id !in t.2
    ensures Delivers(s, NextSection(t.0, id, t.1, t.2, room, bad))
  {
    var r := NextSection(t.0, id, t.1, t.2, room, bad);
    var saved := Saved(t.0, id, room - |t.1|, bad);
    ReadOneKeeps(t.0, id, room - |t.1|, bad, id);
    if saved {
      assert ReadEffect(s, t.0, t.2, id);
      NextWalk(s, t.0, id, t.1, t.2);
    }
    forall y | 0 <= y ensures ReadEffect(s, r.0, r.2, y) {
      ReadOneEffect(t.0, id, room - |t.1|, bad, y);
      EffectThen(s, t.0, r.0, id, saved, t.2, y);
    }
  }

  lemma NextWalk(s: Log, t: Log, id: nat, out: seq<byte>, done: seq<nat>)
    requires Inv(t) && id in t.secs && Walk(out) == Some(RecordsOf(s, done)) && Pending(t, id) == Pending(s, id)
    ensures Walk(out + t.secs[id].bytes) == Some(RecordsOf(s, done + [id]))
  {
    assert SectionOk(t.secs[id]);
    WalkJoin(out, t.secs[id].bytes);
    assert (done + [id])[..|done|] == done;
  }

  /** A read delivers whole sections, each of them once: walking its bytes gives the records of one section after the
      other, delivered sections are empty or, if folded, freed, and nothing else changes. */
  lemma {:induction false} ReadDelivers(s: Log, ids: seq<nat>, room: int, bad: set<nat>)
    requires Inv(s) && Apart(ids) && forall x :: x in ids ==> x in s.secs
    ensures Delivers(s, ReadAll(s, ids, room, bad))
    decreases |ids|
  {
    if ids != [] {
      var n := |ids| - 1;
      ReadDelivers(s, ids[..n], room, bad);
      NextDelivers(s, ReadAll(s, ids[..n], room, bad), ids[n], room, bad);
    }
  }

  // ---- runs

  datatype Op =
    | Writing(ptr: Option<nat>, payload: seq<byte>, id: nat, ok: bool)
    | Folding(id: nat, ok: bool)
    | Reading(room: int, bad: set<nat>)

  /** A writer uses a section of its own until it folds it; a new section has a new name. */
  predicate Legal(s: Log, op: Op) {
    match op
    case Writing(ptr, _, id, _) => Writer(s, ptr) && id !in s.secs
    case Folding(id, _) => id in s.secs && !s.secs[id].folded
    case Reading(_, _) => true
  }

  ghost function Reader(s: Log, room: int, bad: set<nat>): (r: (Log, seq<byte>, seq<nat>))
    requires Inv(s)
  {
    DistinctApart(s.order);
    ReadAll(s, s.order, room, bad)
  }

  ghost function Apply(s: Log, op: Op): (r: Log)
    requires Inv(s) && Legal(s, op)
  {
    match op
    case Writing(ptr, payload, id, ok) => WriteLog(s, ptr, payload, id, ok).0
    case Folding(id, ok) => Fold(s, id, ok)
    case Reading(room, bad) => Reader(s, room, bad).0
  }

  /** The records that op stores in section y, and those it delivers from there. */
  ghost function Accepted(s: Log, op: Op, y: nat): (ts: seq<Tlv>)
    requires Inv(s) && Legal(s, op)
  {
    match op
    case Writing(ptr, payload, id, ok) =>
      var r := WriteLog(s, ptr, payload, id, ok);
      if |payload| <= 0xf8 && r.2 && r.1 == Some(y) then [Record(payload, s.index + 1)] else []
    case _ => []
  }

  ghost function Delivered(s: Log, op: Op, y: nat): (ts: seq<Tlv>)
    requires Inv(s) && Legal(s, op)
  {
    match op
    case Reading(room, bad) => if y in Reader(s, room, bad).2 then Pending(s, y) else []
    case _ => []
  }

  lemma IndexAside(s: Log, index: int, y: nat)
    requires Inv(s)
    ensures Inv(s.(index := index)) && Pending(s.(index := index), y) == Pending(s, y)
  {
  }

  lemma WriteAccounts(s: Log, ptr: Option<nat>, payload: seq<byte>, id: nat, ok: bool, y: nat)
    requires Inv(s) && Writer(s, ptr) && id !in s.secs && |payload| <= 0xf8
    ensures var r := WriteLog(s, ptr, payload, id, ok);
      && Inv(r.0) && Writer(r.0, r.1)
      && Pending(r.0, y) == Pending(s, y) + if r.2 && r.1 == Some(y) then [Record(payload, s.index + 1)] else []
  {
    var s1 := s.(index := s.index + 1);
    var t := Record(payload, s.index + 1);
    IndexAside(s, s.index + 1, y);
    WriteVKeeps(s1, ptr, t, id, ok);
    WriteVPending(s1, ptr, t, id, ok, y);
    WriteIs(s, ptr, payload, id, ok);
  }

  lemma WriteIs(s: Log, ptr: Option<nat>, payload: seq<byte>, id: nat, ok: bool)
    requires Writer(s, ptr) && id !in s.secs && |payload| <= 0xf8
    ensures WriteLog(s, ptr, payload, id, ok) ==
      WriteV(s.(index := s.index + 1), ptr, Encode(Record(payload, s.index + 1)), id, ok)
  {
  }

  lemma ReadAccounts(s: Log, room: int, bad: set<nat>, y: nat)
    requires Inv(s)
    ensures var r := Reader(s, room, bad);
      Inv(r.0) && Pending(r.0, y) == if y in r.2 then [] else Pending(s, y)
  {
    DistinctApart(s.order);
    ReadDelivers(s, s.order, room, bad);
    assert ReadEffect(s, Reader(s, room, bad).0, Reader(s, room, bad).2, y);
  }

  lemma WritingAccounts(s: Log, op: Op, y: nat)
    requires Inv(s) && Legal(s, op) && op.Writing?
    ensures Inv(Apply(s, op)) && Pending(s, y) + Accepted(s, op, y) == Delivered(s, op, y) + Pending(Apply(s, op), y)
  {
    if |op.payload| <= 0xf8 {
      WriteStores(s, op, y);
    } else {
      WriteRefused(s, op, y);
    }
    WriteBalance(s, op, y);
  }

  lemma WriteStores(s: Log, op: Op, y: nat)
    requires Inv(s) && Legal(s, op) && op.Writing? && |op.payload| <= 0xf8
    ensures Inv(Apply(s, op)) && Pending(Apply(s, op), y) == Pending(s, y) + Accepted(s, op, y)
  {
    WriteAccounts(s, op.ptr, op.payload, op.id, op.ok, y);
    WritingIs(s, op, y);
  }

  lemma WritingIs(s: Log, op: Op, y: nat)
    requires Inv(s) && Legal(s, op) && op.Writing? && |op.payload| <= 0xf8
    ensures var r := WriteLog(s, op.ptr, op.payload, op.id, op.ok);
      Apply(s, op) == r.0 &&
      Accepted(s, op, y) == if r.2 && r.1 == Some(y) then [Record(op.payload, s.index + 1)] else []
  {
  }

  lemma WriteRefused(s: Log, op: Op, y: nat)
    requires Inv(s) && Legal(s, op) && op.Writing? && |op.payload| > 0xf8
    ensures Inv(Apply(s, op)) && Pending(Apply(s, op), y) == Pending(s, y) + Accepted(s, op, y)
  {
    assert Apply(s, op) == s;
    Nil(Pending(s, y));
  }

  lemma WriteBalance(s: Log, op: Op, y: nat)
    requires Inv(s) && Legal(s, op) && op.Writing? && Pending(Apply(s, op), y) == Pending(s, y) + Accepted(s, op, y)
    ensures Pending(s, y) + Accepted(s, op, y) == Delivered(s, op, y) + Pending(Apply(s, op), y)
  {
    Nil(Pending(Apply(s, op), y));
  }

  lemma ApplyAccounts(s: Log, op: Op, y: nat)
    requires Inv(s) && Legal(s, op)
    ensures Inv(Apply(s, op)) && Pending(s, y) + Accepted(s, op, y) == Delivered(s, op, y) + Pending(Apply(s, op), y)
  {
    Nil(Pending(s, y));
    Nil(Pending(Apply(s, op), y));
    match op
    case Writing(_, _, _, _) => WritingAccounts(s, op, y);
    case Folding(id, ok) => FoldKeeps(s, id, ok, y);
    case Reading(room, bad) => ReadAccounts(s, room, bad, y);
  }

  /** One legal operation. */
  ghost function Step(s: Log, op: Op): (r: Log)
    requires Inv(s) && Legal(s, op)
    ensures Inv(r)
  {
    ApplyAccounts(s, op, 0);
    Apply(s, op)
  }

  lemma StepAccounts(s: Log, op: Op, y: nat)
    requires Inv(s) && Legal(s, op)
    ensures Pending(s, y) + Accepted(s, op, y) == Delivered(s, op, y) + Pending(Step(s, op), y)
  {
    ApplyAccounts(s, op, y);
  }

  ghost predicate Runs(s: Log, ops: seq<Op>, y: nat, r: Log, stored: seq<Tlv>, taken: seq<Tlv>)
    requires Inv(s)
    decreases |ops|
  {
    if ops == [] then r == s && stored == [] && taken == []
    else
      && Legal(s, ops[0])
      && Accepted(s, ops[0], y) <= stored && Delivered(s, ops[0], y) <= taken
      && Runs(Step(s, ops[0]), ops[1..], y, r, stored[|Accepted(s, ops[0], y)|..], taken[|Delivered(s, ops[0], y)|..])
  }

  /** The log after co_debug_init. */
  const Fresh: Log := Log(map[], [], 0, 0, 0, 0)

  lemma FreshInv()
    ensures Inv(Fresh)
  {
  }

  /** Over every run and for every section: the records stored, in this order, are the records delivered followed by
      those still pending; totals and counts stay exact. */
  lemma {:induction false} RunAccounts(s: Log, ops: seq<Op>, y: nat, r: Log, stored: seq<Tlv>, taken: seq<Tlv>)
    requires Inv(s) && Runs(s, ops, y, r, stored, taken)
    ensures Inv(Fresh) && Inv(r) && Pending(s, y) + stored == taken + Pending(r, y)
    decreases |ops|
  {
    FreshInv();
    if ops == [] {
      Nil(Pending(s, y));
    } else {
      var a, d := Accepted(s, ops[0], y), Delivered(s, ops[0], y);
      var s1 := Step(s, ops[0]);
      StepAccounts(s, ops[0], y);
      RunAccounts(s1, ops[1..], y, r, stored[|a|..], taken[|d|..]);
      Chain(Pending(s, y), a, d, Pending(s1, y), stored[|a|..], taken[|d|..], Pending(r, y), stored, taken);
    }
  }

  lemma Chain<T>(p: seq<T>, a: seq<T>, d: seq<T>, p1: seq<T>, as1: seq<T>, ds1: seq<T>, p2: seq<T>,
                 stored: seq<T>, taken: seq<T>)
    requires p + a == d + p1 && p1 + as1 == ds1 + p2
    requires |a| <= |stored| && a == stored[..|a|] && as1 == stored[|a|..] && |d| <= |taken| && d == taken[..|d|] &&
      ds1 == taken[|d|..]
    ensures p + stored == taken + p2
  {
    assert stored == a + as1 && taken == d + ds1;
    Assoc(p, a, as1);
    Assoc(d, p1, as1);
    Assoc(d, ds1, p2);
  }

  // ---- write vectors

  datatype Vec = Leaf(ptr: seq<byte>) | Node(vec: seq<Vec>)

  function LeafBytes(v: Vec): (b: seq<byte>) {
    match v
    case Leaf(ptr) => ptr
    case Node(vec) => Flatten(vec)
  }

  function Flatten(vs: seq<Vec>): (b: seq<byte>) { if vs == [] then [] else LeafBytes(vs[0]) + Flatten(vs[1..]) }

  lemma BlitTwice(s: seq<byte>, p: nat, a: seq<byte>, b: seq<byte>)
    requires p + |a| + |b| <= |s|
    ensures |Blit(s, p, a)| == |s| && Blit(Blit(s, p, a), p + |a|, b) == Blit(s, p, a + b)
  {
  }

  /** memcpy_vector: the leaves, in order, in one piece. */
  method MemcpyVector(buf: array<byte>, at: nat, vs: seq<Vec>)
    requires at + |Flatten(vs)| <= buf.Length
    modifies buf
    ensures buf[..] == Blit(old(buf[..]), at, Flatten(vs))
    decreases vs
  {
    ghost var s := buf[..];
    var dest, i := at, 0;
    ghost var done: seq<byte> := [];
    while i < |vs|
      invariant 0 <= i <= |vs| && dest == at + |done| && Flatten(vs) == done + Flatten(vs[i..])
      invariant buf[..] == Blit(s, at, done)
      decreases |vs| - i
    {
      assert vs[i..][1..] == vs[i + 1..];
      ghost var rest := Flatten(vs[i + 1..]);
      Assoc(done, LeafBytes(vs[i]), rest);
      BlitTwice(s, at, done, LeafBytes(vs[i]));
      if vs[i].Node? {
        MemcpyVector(buf, dest, vs[i].vec);
      } else {
        Memcpy(buf, dest, vs[i].ptr);
      }
      dest := dest + |LeafBytes(vs[i])|;
      done := done + LeafBytes(vs[i]);
      i := i + 1;
    }
    Nil(done);
  }

  method Memcpy(buf: array<byte>, at: nat, bs: seq<byte>)
    requires at + |bs| <= buf.Length
    modifies buf
    ensures buf[..] == Blit(old(buf[..]), at, bs)
  {
    var i := 0;
    while i < |bs|
      invariant 0 <= i <= |bs|
      invariant forall k :: 0 <= k < buf.Length ==> buf[k] == if at <= k < at + i then bs[k - at] else old(buf[k])
    {
      buf[at + i] := bs[i];
      i := i + 1;
    }
  }

  /** The vector of co_debug_write_log is the record. */
  lemma LogVector(vec: seq<Vec>, index: int)
    requires |Flatten(vec)| <= 0xf8
    ensures var p := Flatten(vec);
      Flatten([Leaf([TYPE_TLV, |p| + 6]), Node(vec), Node([Leaf([TYPE_DRIVER_INDEX, 4]), Leaf(Le32(index))])])
      == Encode(Record(p, index))
  {
    var p := Flatten(vec);
    var tail := [Leaf([TYPE_DRIVER_INDEX, 4]), Leaf(Le32(index))];
    FlattenTwo(Leaf([TYPE_DRIVER_INDEX, 4]), Leaf(Le32(index)));
    FlattenTwo(Node(vec), Node(tail));
    var all := [Leaf([TYPE_TLV, |p| + 6]), Node(vec), Node(tail)];
    assert all[1..] == [Node(vec), Node(tail)];
    assert [TYPE_DRIVER_INDEX, 4] + Le32(index) == Encode(IndexTlv(index));
  }

  lemma FlattenTwo(a: Vec, b: Vec)
    ensures Flatten([a, b]) == LeafBytes(a) + LeafBytes(b)
  {
    assert [a, b][1..] == [b] && [b][1..] == [];
    assert Flatten([b]) == LeafBytes(b) + Flatten([]);
    Nil(LeafBytes(b));
  }

  method Gather(vs: seq<Vec>) returns (bs: seq<byte>)
    ensures bs == Flatten(vs)
  {
    var buf := new byte[|Flatten(vs)|];
    MemcpyVector(buf, 0, vs);
    bs := buf[..];
  }

  // ---- in place

  class Manager {
    var secs: map<nat, Section>
    var order: seq<nat>
    var count: int
    var totalSize: int
    var totalFilled: int
    var index: int

    function View(): (s: Log)
      reads this
    {
      Log(secs, order, count, totalSize, totalFilled, index)
    }

    /** get_section. */
    method GetSection(id: nat)
      requires id in secs
      modifies this`secs
      ensures View() == Get(old(View()), id)
    {
      secs := secs[id := secs[id].(refs := secs[id].refs + 1)];
    }

    /** put_section. */
    method PutSection(id: nat) returns (alive: bool)
      requires id in secs
      modifies this`secs, this`count, this`totalSize
      ensures View() == Put(old(View()), id) && (alive <==> id in secs)
    {
      secs := secs[id := secs[id].(refs := secs[id].refs - 1)];
      if secs[id].refs == 0 {
        count := count - 1;
        totalSize := totalSize - secs[id].size;
        assert secs - {id} == old(secs) - {id};
        secs := secs - {id};
        return false;
      }
      alive := true;
    }

    /** append_to_buffer. */
    method AppendToBuffer(id: nat, data: seq<byte>) returns (ok: bool)
      requires id in secs
      modifies this`secs, this`totalFilled
      ensures (View(), ok) == AppendTo(old(View()), id, data)
    {
      if secs[id].size - |secs[id].bytes| < |data| {
        return false;
      }
      secs := secs[id := secs[id].(bytes := secs[id].bytes + data)];
      totalFilled := totalFilled + |data|;
      ok := true;
    }

    /** co_debug_writev. */
    method WriteVec(ptr: Option<nat>, data: seq<byte>, id: nat, granted: bool) returns (p: Option<nat>, ok: bool)
      requires (ptr.Some? ==> ptr.value in secs && secs[ptr.value].refs == 1) && id !in secs
      modifies this
      ensures (View(), p, ok) == WriteV(old(View()), ptr, data, id, granted)
    {
      if totalFilled > MAX_FILL {
        return ptr, false;
      }
      var cur;
      if ptr.None? {
        if !granted {
          return None, false;
        }
        cur := id;
        secs := secs[id := Section([], START_SIZE, 0, false)];
        count := count + 1;
        totalSize := totalSize + START_SIZE;
        order := order + [id];
        GetSection(id);
        secs := secs[id := secs[id].(refs := secs[id].refs + 1)];
        assert secs == old(secs)[id := Section([], START_SIZE, 2, false)];
      } else {
        cur := ptr.value;
        GetSection(cur);
      }
      ok := AppendToBuffer(cur, data);
      assert secs[cur].refs == 2;
      var alive := PutSection(cur);
      p := if alive then Some(cur) else None;
    }

    /** co_debug_write_log. */
    method WriteLogEntry(ptr: Option<nat>, vec: seq<Vec>, id: nat, granted: bool) returns (p: Option<nat>, ok: bool)
      requires (ptr.Some? ==> ptr.value in secs && secs[ptr.value].refs == 1) && id !in secs
      modifies this
      ensures (View(), p, ok) == WriteLog(old(View()), ptr, Flatten(vec), id, granted)
    {
      var size := |Flatten(vec)|;
      if size > 0xf8 {
        return ptr, false;
      }
      index := index + 1;
      LogVector(vec, index);
      var data := Gather([Leaf([TYPE_TLV, size + 6]), Node(vec),
        Node([Leaf([TYPE_DRIVER_INDEX, 4]), Leaf(Le32(index))])]);
      p, ok := WriteVec(ptr, data, id, granted);
    }

    /** co_debug_fold. */
    method FoldSection(id: nat, granted: bool)
      requires id in secs && secs[id].refs == 1
      modifies this
      ensures View() == Fold(old(View()), id, granted)
    {
      GetSection(id);
      if granted {
        totalSize := totalSize - secs[id].size;
        secs := secs[id := secs[id].(size := |secs[id].bytes|)];
        totalSize := totalSize + secs[id].size;
      }
      secs := secs[id := secs[id].(folded := true)];
      var _ := PutSection(id);
    }

    /** One section of co_debug_read. */
    method ReadSection(id: nat, room: int, bad: set<nat>) returns (saved: bool, bytes: seq<byte>)
      requires id in secs
      modifies this
      ensures View() == ReadOne(old(View()), id, room, bad) && saved == Saved(old(View()), id, room, bad)
      ensures bytes == if saved then old(secs)[id].bytes else []
    {
      GetSection(id);
      saved, bytes := false, [];
      if |secs[id].bytes| <= room && id !in bad {
        bytes := secs[id].bytes;
        totalFilled := totalFilled - |bytes|;
        secs := secs[id := secs[id].(bytes := [])];
        saved := true;
      }
      if saved && secs[id].folded {
        order := Without(order, id);
        secs := secs[id := secs[id].(refs := secs[id].refs - 1, folded := false)];
      }
      var _ := PutSection(id);
    }

    method NextRead(id: nat, out: seq<byte>, ghost done: seq<nat>, room: int, bad: set<nat>)
      returns (out': seq<byte>, ghost done': seq<nat>)
      requires id in secs
      modifies this
      ensures (View(), out', done') == NextSection(old(View()), id, out, done, room, bad)
    {
      var saved, bytes := ReadSection(id, room - |out|, bad);
      out', done' := out, done;
      if saved {
        out' := out + bytes;
        done' := done + [id];
      }
    }

    /** The loop of co_debug_read. */
    method ReadList(ids: seq<nat>, room: int, bad: set<nat>, ghost s: Log)
      returns (out: seq<byte>, ghost done: seq<nat>)
      requires Apart(ids) && (forall x :: x in ids ==> x in s.secs) && View() == s
      modifies this
      ensures (View(), out, done) == ReadAll(s, ids, room, bad)
    {
      out, done := [], [];
      var i := 0;
      while i < |ids|
        invariant 0 <= i <= |ids| && (View(), out, done) == ReadAll(s, ids[..i], room, bad)
      {
        ReadAllNext(s, ids, i, room, bad);
        out, done := NextRead(ids[i], out, done, room, bad);
        i := i + 1;
      }
      assert ids[..i] == ids;
    }

    /** co_debug_read. */
    method ReadSections(room: int, bad: set<nat>) returns (out: seq<byte>, ghost done: seq<nat>)
      requires Inv(View())
      modifies this
      ensures (View(), out, done) == Reader(old(View()), room, bad)
    {
      DistinctApart(order);
      out, done := ReadList(order, room, bad, View());
    }
  }
}
