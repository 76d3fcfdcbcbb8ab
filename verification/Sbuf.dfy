/** slirp/sbuf.c and the ring-buffer sides of slirp/socket.c: a byte ring under partial sends and receives, against a
    plain byte string. The answers of send and recv are parameters; urgent data is not part of the model. */
module Sbuf {
  import opened Bytes

  /** Read and write pointers are offsets into the block. */
  datatype Ring = Ring(data: seq<byte>, r: nat, w: nat, cc: nat)

  predicate Good(s: Ring) {
    && s.r < |s.data| && s.w < |s.data| && s.cc <= |s.data|
    && s.w == Wrap(s.r + s.cc, |s.data|)
  }

  function Wrap(x: int, len: nat): (y: int) { if x >= len then x - len else x }

  /** The bytes in the buffer, oldest first. */
  function Contents(s: Ring): (bs: seq<byte>)
    requires Good(s)
    ensures |bs| == s.cc
  {
    if s.r + s.cc <= |s.data| then s.data[s.r..s.r + s.cc] else s.data[s.r..] + s.data[..s.r + s.cc - |s.data|]
  }

  function Space(s: Ring): (n: nat)
    requires Good(s)
  {
    |s.data| - s.cc
  }

  function Min(a: int, b: int): (m: int) { if a < b then a else b }

  /** sbdrop. */
  function Drop(s: Ring, num: nat): (t: Ring)
    requires Good(s)
  {
    var n := if num > s.cc then s.cc else num;
    s.(cc := s.cc - n, r := Wrap(s.r + n, |s.data|))
  }

  /** The copying of sbappendsb: first the bytes up to the read pointer or the end of the block, then the bytes at the
      start of the block. */
  function Append(s: Ring, m: seq<byte>): (t: Ring)
    requires s.r < |s.data| && s.w < |s.data|
  {
    if s.w < s.r then
      var n := Min(s.r - s.w, |m|);
      s.(data := Blit(s.data, s.w, m[..n]), cc := s.cc + n, w := Wrap(s.w + n, |s.data|))
    else
      var n := Min(|s.data| - s.w, |m|);
      var nn := Min(s.r, |m| - n);
      s.(data := Blit(Blit(s.data, s.w, m[..n]), 0, m[n..n + nn]), cc := s.cc + n + nn,
           w := Wrap(s.w + n + nn, |s.data|))
  }

  /** Where sbcopy starts. */
  function From(s: Ring, off: nat): (p: nat)
    requires Good(s)
    ensures off <= s.cc ==> p < |s.data|
  {
    Wrap(s.r + off, |s.data|)
  }

  /** sbcopy; None is a copy from past the end of the block, or of a negative count. */
  function Copy(s: Ring, off: nat, len: nat): (to: Option<seq<byte>>)
    requires Good(s)
  {
    var from := From(s, off);
    if from < s.w then
      var n := Min(len, s.cc);
      if from + n > |s.data| then None else Some(s.data[from..from + n])
    else if from > |s.data| then None
    else
      var n := Min(|s.data| - from, len);
      if len - n > |s.data| then None else Some(s.data[from..from + n] + s.data[..len - n])
  }

  // ---- the ring is a queue of bytes

  lemma ContentsAt(s: Ring, i: nat)
    requires Good(s) && i < s.cc
    ensures Contents(s)[i] == s.data[Wrap(s.r + i, |s.data|)]
  {
  }

  lemma DropIsSuffix(s: Ring, num: nat)
    requires Good(s)
    ensures Good(Drop(s, num)) && Contents(Drop(s, num)) == Contents(s)[Min(num, s.cc)..]
  {
    var t, n := Drop(s, num), Min(num, s.cc);
    forall i | 0 <= i < t.cc ensures Contents(t)[i] == Contents(s)[n..][i] {
      ContentsAt(t, i);
      ContentsAt(s, n + i);
    }
  }

  /** Two stretches of free space, filled one after the other. */
  lemma Filled(s: Ring, a: seq<byte>, b: seq<byte>, t: Ring)
    requires Good(s) && s.w + |a| <= |s.data| && |a| + |b| <= Space(s) && (b != [] ==> s.w + |a| == |s.data|)
    requires t.data == Blit(Blit(s.data, s.w, a), 0, b)
    requires t.r == s.r && t.cc == s.cc + |a| + |b| && t.w == Wrap(s.w + |a| + |b|, |s.data|)
    ensures Good(t) && Contents(t) == Contents(s) + (a + b)
  {
    forall i | 0 <= i < t.cc ensures Contents(t)[i] == (Contents(s) + (a + b))[i] {
      ContentsAt(t, i);
      FilledAt(s, a, b, i);
    }
  }

  lemma FilledAt(s: Ring, a: seq<byte>, b: seq<byte>, i: nat)
    requires Good(s) && s.w + |a| <= |s.data| && |a| + |b| <= Space(s) && (b != [] ==> s.w + |a| == |s.data|)
    requires i < s.cc + |a| + |b|
    ensures Blit(Blit(s.data, s.w, a), 0, b)[Wrap(s.r + i, |s.data|)] == (Contents(s) + (a + b))[i]
  {
    if i < s.cc {
      ContentsAt(s, i);
    }
  }

  /** The bytes that fit are appended, unless the ring is full and there is something to append. */
  lemma AppendIff(s: Ring, m: seq<byte>)
    requires Good(s)
    ensures Good(Append(s, m)) && Contents(Append(s, m)) == Contents(s) + m[..Min(|m|, Space(s))]
      <==> Space(s) > 0 || m == []
  {
    if Space(s) > 0 || m == [] {
      AppendFits(s, m);
    }
  }

  lemma AppendFits(s: Ring, m: seq<byte>)
    requires Good(s) && (Space(s) > 0 || m == [])
    ensures Good(Append(s, m)) && Contents(Append(s, m)) == Contents(s) + m[..Min(|m|, Space(s))]
  {
    if s.w < s.r {
      AppendBelow(s, m, Min(s.r - s.w, |m|));
    } else {
      var n := Min(|s.data| - s.w, |m|);
      AppendAbove(s, m, n, Min(s.r, |m| - n));
    }
  }

  lemma AppendBelow(s: Ring, m: seq<byte>, n: nat)
    requires Good(s) && s.w < s.r && n == Min(s.r - s.w, |m|)
    ensures Good(Append(s, m)) && Contents(Append(s, m)) == Contents(s) + m[..n]
  {
    assert Blit(Blit(s.data, s.w, m[..n]), 0, []) == Blit(s.data, s.w, m[..n]);
    Filled(s, m[..n], [], Append(s, m));
    assert m[..n] + [] == m[..n];
  }

  lemma AppendAbove(s: Ring, m: seq<byte>, n: nat, nn: nat)
    requires Good(s) && s.w >= s.r && n == Min(|s.data| - s.w, |m|) && nn == Min(s.r, |m| - n) && n + nn <= Space(s)
    ensures Good(Append(s, m)) && Contents(Append(s, m)) == Contents(s) + m[..n + nn]
  {
    Filled(s, m[..n], m[n..n + nn], Append(s, m));
    assert m[..n] + m[n..n + nn] == m[..n + nn];
  }

  lemma CopyIsSlice(s: Ring, off: nat, len: nat)
    requires Good(s) && off + len <= s.cc
    ensures Copy(s, off, len) == Some(Contents(s)[off..off + len])
  {
    var t, u := Copy(s, off, len).value, Contents(s)[off..off + len];
    forall i | 0 <= i < len ensures t[i] == u[i] {
      ContentsAt(s, off + i);
    }
    assert t == u;
  }

  lemma CopyAll(s: Ring, len: nat)
    requires Good(s) && s.r < s.w && s.cc <= len
    ensures Copy(s, 0, len) == Some(Contents(s))
  {
    CopyIsSlice(s, 0, s.cc);
    assert Contents(s)[0..s.cc] == Contents(s);
  }

  lemma CopyLength(s: Ring, off: nat, len: nat)
    requires Good(s) && off <= s.cc && Copy(s, off, len).Some?
    ensures |Copy(s, off, len).value| == if From(s, off) < s.w then Min(len, s.cc) else len
  {
  }

  /** The buffered bytes from off on, at most len. */
  function Slice(s: Ring, off: nat, len: nat): (bs: seq<byte>)
    requires Good(s)
  {
    if off > s.cc then [] else Contents(s)[off..Min(off + len, s.cc)]
  }

  /** sbcopy clips a slice that reaches past the buffered bytes, if and only if it starts with the first of them and
      these do not wrap around; otherwise it copies bytes that are not buffered. Past them it copies nothing if nothing
      is asked for at a place inside the block, or if nothing is buffered and the place lies before sb_wptr. */
  lemma CopyIff(s: Ring, off: nat, len: nat)
    requires Good(s)
    ensures Copy(s, off, len) == Some(Slice(s, off, len)) <==>
      || off + len <= s.cc || (off == 0 && s.r < s.w)
      || (off > s.cc && From(s, off) <= |s.data| && (len == 0 || (s.cc == 0 && From(s, off) < s.w)))
  {
    if off > s.cc {
      CopyPast(s, off, len);
    } else if off + len <= s.cc {
      CopyIsSlice(s, off, len);
    } else if off == 0 && s.r < s.w {
      CopyAll(s, len);
      assert Contents(s)[0..s.cc] == Contents(s);
    } else if Copy(s, off, len).Some? {
      CopyLength(s, off, len);
    }
  }

  lemma CopyPast(s: Ring, off: nat, len: nat)
    requires Good(s) && off > s.cc
    ensures Copy(s, off, len) == Some([]) <==>
      From(s, off) <= |s.data| && (len == 0 || (s.cc == 0 && From(s, off) < s.w))
  {
    if Copy(s, off, len).Some? {
      assert |Copy(s, off, len).value| == if From(s, off) < s.w then Min(len, s.cc) else len;
    }
  }

  // ---- partial input and output

  /** The two areas offered to the socket. */
  datatype Plan = Plan(n: nat, len0: nat, len1: nat)

  /** The areas of soread: all of the free space, or whole segments when more than one fits. */
  function ReadPlan(s: Ring, mss: nat): (p: Plan)
    requires Good(s) && mss > 0
  {
    var len := Space(s);
    if s.w < s.r then
      var l := Min(s.r - s.w, len);
      Plan(1, if l > mss then l - l % mss else l, 0)
    else
      var l0 := Min(|s.data| - s.w, len);
      if len - l0 == 0 then
        Plan(1, if l0 > mss then l0 - l0 % mss else l0, 0)
      else
        var l1 := Min(s.r, len - l0);
        if l0 + l1 > mss then
          var lss := (l0 + l1) % mss;
          if l1 > lss then Plan(2, l0, l1 - lss) else Plan(1, l0 - (lss - l1), 0)
        else
          Plan(2, l0, l1)
  }

  lemma ReadPlanExact(s: Ring, mss: nat)
    requires Good(s) && mss > 0
    ensures var p := ReadPlan(s, mss);
      && p.len0 + p.len1 == (if Space(s) > mss then mss * (Space(s) / mss) else Space(s)) <= Space(s)
      && s.w + p.len0 <= |s.data| && (p.n == 2 ==> s.w + p.len0 == |s.data|) && (p.n != 2 ==> p.len1 == 0)
      && p.len1 <= |s.data|
  {
    assert Space(s) == mss * (Space(s) / mss) + Space(s) % mss;
  }

  /** Bytes received into the first area, and into the second once the first is full. */
  predicate Fetched(p: Plan, b0: seq<byte>, b1: seq<byte>) {
    |b0| <= p.len0 && |b1| <= p.len1 && (b1 != [] ==> p.n == 2 && |b0| == p.len0 > 0)
  }

  /** soread; nothing received leaves the ring alone. */
  function Read(s: Ring, mss: nat, b0: seq<byte>, b1: seq<byte>): (t: Ring)
    requires Good(s) && mss > 0 && Fetched(ReadPlan(s, mss), b0, b1)
  {
    if b0 == [] then s
    else
      ReadPlanExact(s, mss);
      var nn := |b0| + |b1|;
      s.(data := Blit(Blit(s.data, s.w, b0), 0, b1), cc := s.cc + nn, w := Wrap(s.w + nn, |s.data|))
  }

  lemma ReadAppends(s: Ring, mss: nat, b0: seq<byte>, b1: seq<byte>)
    requires Good(s) && mss > 0 && Fetched(ReadPlan(s, mss), b0, b1)
    ensures Good(Read(s, mss, b0, b1)) && Contents(Read(s, mss, b0, b1)) == Contents(s) + (b0 + b1)
  {
    ReadPlanExact(s, mss);
    if b0 == [] {
      assert Contents(s) + (b0 + b1) == Contents(s);
    } else {
      Filled(s, b0, b1, Read(s, mss, b0, b1));
    }
  }

  /** The areas of sowrite. */
  function WritePlan(s: Ring): (p: Plan)
    requires Good(s)
  {
    if s.r < s.w then
      Plan(1, Min(s.w - s.r, s.cc), 0)
    else
      var l0 := Min(|s.data| - s.r, s.cc);
      if s.cc - l0 != 0 then Plan(2, l0, Min(s.w, s.cc - l0)) else Plan(1, l0, 0)
  }

  predicate Accepted(p: Plan, n0: nat, n1: nat) {
    n0 <= p.len0 && n1 <= p.len1 && (n1 > 0 ==> p.n == 2 && n0 == p.len0 > 0)
  }

  /** sowrite: the ring afterwards and the bytes that the socket took. */
  function Write(s: Ring, n0: nat, n1: nat): (t: (Ring, seq<byte>))
    requires Good(s) && Accepted(WritePlan(s), n0, n1)
  {
    if n0 == 0 then (s, [])
    else (s.(cc := s.cc - n0 - n1, r := Wrap(s.r + n0 + n1, |s.data|)), s.data[s.r..s.r + n0] + s.data[..n1])
  }

  /** The areas hold exactly what is buffered, and the socket takes a prefix of it. */
  lemma WriteTakes(s: Ring, n0: nat, n1: nat)
    requires Good(s) && Accepted(WritePlan(s), n0, n1)
    ensures WritePlan(s).len0 + WritePlan(s).len1 == s.cc
    ensures Good(Write(s, n0, n1).0) && Contents(s) == Write(s, n0, n1).1 + Contents(Write(s, n0, n1).0)
    ensures |Write(s, n0, n1).1| == n0 + n1
  {
    WritePlanExact(s);
    if n0 == 0 {
      Nil(Contents(s));
    } else {
      Taken(s, n0, n1, Write(s, n0, n1));
    }
  }

  lemma Taken(s: Ring, n0: nat, n1: nat, t: (Ring, seq<byte>))
    requires Good(s) && n0 + n1 <= s.cc && s.r + n0 <= |s.data| && n1 <= |s.data| && (n1 > 0 ==> s.r + n0 == |s.data|)
    requires t.0 == s.(cc := s.cc - n0 - n1, r := Wrap(s.r + n0 + n1, |s.data|))
    requires t.1 == s.data[s.r..s.r + n0] + s.data[..n1]
    ensures Good(t.0) && Contents(s) == t.1 + Contents(t.0)
  {
    assert t.0 == Drop(s, n0 + n1);
    DropIsSuffix(s, n0 + n1);
    WritePrefix(s, n0, n1);
    Cut(Contents(s), n0 + n1, t.1, Contents(t.0));
  }

  lemma Cut(c: seq<byte>, n: nat, a: seq<byte>, b: seq<byte>)
    requires n <= |c| && a == c[..n] && b == c[n..]
    ensures c == a + b
  {
  }

  lemma WritePlanExact(s: Ring)
    requires Good(s)
    ensures var p := WritePlan(s);
      p.len0 + p.len1 == s.cc && s.r + p.len0 <= |s.data| && (p.n == 2 ==> s.r + p.len0 == |s.data|) &&
        (p.n != 2 ==> p.len1 == 0)
  {
  }

  lemma WritePrefix(s: Ring, n0: nat, n1: nat)
    requires Good(s) && n0 + n1 <= s.cc && s.r + n0 <= |s.data| && (n1 > 0 ==> s.r + n0 == |s.data|)
    ensures n1 <= |s.data| && s.data[s.r..s.r + n0] + s.data[..n1] == Contents(s)[..n0 + n1]
  {
    var out := s.data[s.r..s.r + n0] + s.data[..n1];
    forall i | 0 <= i < n0 + n1 ensures out[i] == Contents(s)[i] {
      ContentsAt(s, i);
    }
  }

  /** sbappend without urgent data: `sent` is what the socket answers when nothing is waiting before m. */
  function AppendOrSend(s: Ring, m: seq<byte>, sent: int): (t: (Ring, seq<byte>))
    requires Good(s) && sent <= |m|
  {
    if m == [] then (s, [])
    else
      var ret := if s.cc == 0 then sent else 0;
      if ret <= 0 then (Append(s, m), [])
      else if ret != |m| then (Append(s, m[ret..]), m[..ret])
      else (s, m)
  }

  lemma AppendOrSendKeepsOrder(s: Ring, m: seq<byte>, sent: int)
    requires Good(s) && sent <= |m| && |m| - (if s.cc == 0 && sent > 0 then sent else 0) <= Space(s)
    ensures var (t, out) := AppendOrSend(s, m, sent);
      Good(t) && out + Contents(t) == Contents(s) + m && |out| == (if s.cc == 0 && sent > 0 then sent else 0)
  {
    if m == [] {
      Nil(Contents(s));
    } else if s.cc == 0 && sent > 0 {
      SentFirst(s, m, sent);
    } else {
      assert AppendOrSend(s, m, sent) == (Append(s, m), []);
      AppendWhole(s, m);
      Nil(Contents(Append(s, m)));
    }
  }

  lemma SentFirst(s: Ring, m: seq<byte>, n: nat)
    requires Good(s) && s.cc == 0 && 0 < n <= |m| && |m| - n <= Space(s)
    ensures Good(AppendOrSend(s, m, n).0) &&
      AppendOrSend(s, m, n).1 + Contents(AppendOrSend(s, m, n).0) == Contents(s) + m
  {
    if n < |m| {
      var t := AppendOrSend(s, m, n);
      assert t == (Append(s, m[n..]), m[..n]);
      AppendWhole(s, m[n..]);
      Rejoin(Contents(s), m, n, Contents(t.0));
    } else {
      Rejoin(Contents(s), m, n, Contents(s));
    }
  }

  lemma Rejoin(c: seq<byte>, m: seq<byte>, n: nat, t: seq<byte>)
    requires c == [] && n <= |m| && t == c + m[n..]
    ensures m[..n] + t == c + m && m[..|m|] == m
  {
  }

  lemma AppendWhole(s: Ring, m: seq<byte>)
    requires Good(s) && |m| <= Space(s)
    ensures Good(Append(s, m)) && Contents(Append(s, m)) == Contents(s) + m
  {
    AppendFits(s, m);
    assert m[..|m|] == m;
  }

  // ---- runs

  datatype Op =
    | Receive(m: seq<byte>, sent: int)
    | Send(n0: nat, n1: nat)
    | Fetch(mss: nat, b0: seq<byte>, b1: seq<byte>)
    | Ack(n: nat)

  predicate Legal(s: Ring, op: Op)
    requires Good(s)
  {
    match op
    case Receive(m, sent) => sent <= |m| && |m| - (if s.cc == 0 && sent > 0 then sent else 0) <= Space(s)
    case Send(n0, n1) => Accepted(WritePlan(s), n0, n1)
    case Fetch(mss, b0, b1) => mss > 0 && Fetched(ReadPlan(s, mss), b0, b1)
    case Ack(n) => true
  }

  /** The ring after op, and the bytes that leave it. */
  function Apply(s: Ring, op: Op): (t: (Ring, seq<byte>))
    requires Good(s) && Legal(s, op)
  {
    match op
    case Receive(m, sent) => AppendOrSend(s, m, sent)
    case Send(n0, n1) => Write(s, n0, n1)
    case Fetch(mss, b0, b1) => (Read(s, mss, b0, b1), [])
    case Ack(n) => (Drop(s, n), Contents(s)[..Min(n, s.cc)])
  }

  function Entering(op: Op): (bs: seq<byte>) {
    match op
    case Receive(m, _) => m
    case Fetch(_, b0, b1) => b0 + b1
    case _ => []
  }

  lemma ApplyIsQueue(s: Ring, op: Op)
    requires Good(s) && Legal(s, op)
    ensures Good(Apply(s, op).0) && Apply(s, op).1 + Contents(Apply(s, op).0) == Contents(s) + Entering(op)
  {
    Nil(Contents(s));
    match op
    case Receive(m, sent) => AppendOrSendKeepsOrder(s, m, sent);
    case Send(n0, n1) => WriteTakes(s, n0, n1);
    case Fetch(mss, b0, b1) =>
      ReadAppends(s, mss, b0, b1);
      Nil(Contents(Read(s, mss, b0, b1)));
    case Ack(n) =>
      DropIsSuffix(s, n);
      Cut(Contents(s), Min(n, s.cc), Contents(s)[..Min(n, s.cc)], Contents(Drop(s, n)));
  }

  /** One legal operation. */
  function Step(s: Ring, op: Op): (t: (Ring, seq<byte>))
    requires Good(s) && Legal(s, op)
    ensures Good(t.0)
  {
    ApplyIsQueue(s, op);
    Apply(s, op)
  }

  /** s goes through ops to t, with the bytes `into` entering and `out` leaving in this order. */
  ghost predicate Runs(s: Ring, ops: seq<Op>, t: Ring, into: seq<byte>, out: seq<byte>)
    requires Good(s)
    decreases |ops|
  {
    if ops == [] then t == s && into == [] && out == []
    else
      && Legal(s, ops[0])
      && Entering(ops[0]) <= into && Step(s, ops[0]).1 <= out
      && Runs(Step(s, ops[0]).0, ops[1..], t, into[|Entering(ops[0])|..], out[|Step(s, ops[0]).1|..])
  }

  /** Over every run the ring is a queue: what was in it and what entered is what left it and what is still in it. */
  lemma {:induction false} RunIsQueue(s: Ring, ops: seq<Op>, t: Ring, into: seq<byte>, out: seq<byte>)
    requires Good(s) && Runs(s, ops, t, into, out)
    ensures Good(t) && out + Contents(t) == Contents(s) + into
    decreases |ops|
  {
    if ops != [] {
      var a, b, s1 := Entering(ops[0]), Step(s, ops[0]).1, Step(s, ops[0]).0;
      ApplyIsQueue(s, ops[0]);
      RunIsQueue(s1, ops[1..], t, into[|a|..], out[|b|..]);
      Chain(Contents(s), a, b, Contents(s1), into, out, Contents(t));
    } else {
      Nil(Contents(s));
    }
  }

  lemma Chain(c: seq<byte>, a: seq<byte>, b: seq<byte>, c1: seq<byte>, into: seq<byte>,
              out: seq<byte>, c2: seq<byte>)
    requires a <= into && b <= out && b + c1 == c + a && out[|b|..] + c2 == c1 + into[|a|..]
    ensures out + c2 == c + into
  {
    Cut(into, |a|, a, into[|a|..]);
    Cut(out, |b|, b, out[|b|..]);
    Assoc(b, out[|b|..], c2);
    Assoc(b, c1, into[|a|..]);
    Assoc(c, a, into[|a|..]);
  }

  // ---- in place

  class Buffer {
    const data: array<byte>
    var rptr: nat
    var wptr: nat
    var cc: nat

    function View(): (s: Ring)
      reads this, data
    {
      Ring(data[..], rptr, wptr, cc)
    }

    /** sbreserve of a fresh buffer. */
    constructor (size: nat)
      requires size > 0
      ensures Good(View()) && Contents(View()) == [] && Space(View()) == size && fresh(data)
    {
      data := new byte[size](_ => 0);
      rptr, wptr, cc := 0, 0, 0;
    }

    method Memcpy(p: nat, bs: seq<byte>)
      requires p + |bs| <= data.Length
      modifies data
      ensures data[..] == Blit(old(data[..]), p, bs)
    {
      var i := 0;
      while i < |bs|
        invariant 0 <= i <= |bs|
        invariant forall k :: 0 <= k < data.Length ==> data[k] == if p <= k < p + i then bs[k - p] else old(data[k])
      {
        data[p + i] := bs[i];
        i := i + 1;
      }
    }

    /** sbdrop. */
    method SbDrop(num: nat)
      requires Good(View())
      modifies this`cc, this`rptr
      ensures View() == Drop(old(View()), num) && Good(View()) &&
        Contents(View()) == old(Contents(View()))[Min(num, old(cc))..]
    {
      DropIsSuffix(View(), num);
      var n := if num > cc then cc else num;
      cc := cc - n;
      rptr := rptr + n;
      if rptr >= data.Length {
        rptr := rptr - data.Length;
      }
    }

    method Advance(n: nat)
      requires wptr < data.Length && n <= data.Length
      modifies this`cc, this`wptr
      ensures cc == old(cc) + n && wptr == Wrap(old(wptr) + n, data.Length)
    {
      cc := cc + n;
      wptr := wptr + n;
      if wptr >= data.Length {
        wptr := wptr - data.Length;
      }
    }

    /** The copying of sbappendsb. */
    method CopyEdges(m: seq<byte>) returns (n: nat)
      requires Good(View())
      modifies data
      ensures var t := Append(old(View()), m);
        data[..] == t.data && t.cc == cc + n && t.w == Wrap(wptr + n, data.Length) && n <= data.Length && t.r == rptr
    {
      if wptr < rptr {
        n := rptr - wptr;
        if n > |m| {
          n := |m|;
        }
        Memcpy(wptr, m[..n]);
      } else {
        n := BothEdges(m);
      }
    }

    /** sbappendsb. */
    method SbAppendSb(m: seq<byte>)
      requires Good(View())
      modifies this`cc, this`wptr, data
      ensures View() == Append(old(View()), m)
    {
      var n := CopyEdges(m);
      Advance(n);
    }

    /** The right edge first, then the left edge. */
    method BothEdges(m: seq<byte>) returns (n: nat)
      requires rptr < data.Length && wptr < data.Length
      modifies data
      ensures var n0 := Min(data.Length - wptr, |m|);
        var nn := Min(rptr, |m| - n0);
        n == n0 + nn && data[..] == Blit(Blit(old(data[..]), wptr, m[..n0]), 0, m[n0..n0 + nn])
    {
      n := data.Length - wptr;
      if n > |m| {
        n := |m|;
      }
      Memcpy(wptr, m[..n]);
      var len := |m| - n;
      if len > 0 {
        var nn := rptr;
        if nn > len {
          nn := len;
        }
        Memcpy(0, m[n..n + nn]);
        n := n + nn;
      } else {
        BlitNone(data[..]);
      }
    }

    /** sbcopy. */
    method SbCopy(off: nat, len: nat) returns (to: Option<seq<byte>>)
      requires Good(View())
      ensures to == Copy(View(), off, len)
      ensures off + len <= cc ==> to == Some(Contents(View())[off..off + len])
    {
      if off + len <= cc {
        CopyIsSlice(View(), off, len);
      }
      var from := rptr + off;
      if from >= data.Length {
        from := from - data.Length;
      }
      if from < wptr {
        var n := if len > cc then cc else len;
        if from + n > data.Length {
          return None;
        }
        to := Some(data[from..from + n]);
      } else {
        var n := data.Length - from;
        if n < 0 {
          return None;
        }
        if n > len {
          n := len;
        }
        if len - n > data.Length {
          return None;
        }
        to := Some(data[from..from + n] + data[..len - n]);
      }
    }

    /** sbappend; `sent` is the answer of send. */
    method SbAppend(m: seq<byte>, sent: int) returns (out: seq<byte>)
      requires Good(View()) && sent <= |m|
      modifies this`cc, this`wptr, data
      ensures (View(), out) == AppendOrSend(old(View()), m, sent)
    {
      if m == [] {
        return [];
      }
      var ret := 0;
      if cc == 0 {
        ret := sent;
      }
      if ret <= 0 {
        SbAppendSb(m);
        out := [];
      } else {
        out := m[..ret];
        if ret != |m| {
          SbAppendSb(m[ret..]);
        } else {
          assert out == m;
        }
      }
    }

    /** The areas of soread. */
    method ReadAreas(mss: nat) returns (n: nat, len0: nat, len1: nat)
      requires Good(View()) && mss > 0
      ensures Plan(n, len0, len1) == ReadPlan(View(), mss)
    {
      var len := data.Length - cc;
      len1 := 0;
      if wptr < rptr {
        len0 := Min(rptr - wptr, len);
        if len0 > mss {
          len0 := len0 - len0 % mss;
        }
        n := 1;
      } else {
        len0 := Min(data.Length - wptr, len);
        len := len - len0;
        if len > 0 {
          len1 := Min(rptr, len);
          var total := len0 + len1;
          if total > mss {
            var lss := total % mss;
            if len1 > lss {
              len1 := len1 - lss;
              n := 2;
            } else {
              lss := lss - len1;
              len0 := len0 - lss;
              len1 := 0;
              n := 1;
            }
          } else {
            n := 2;
          }
        } else {
          if len0 > mss {
            len0 := len0 - len0 % mss;
          }
          n := 1;
        }
      }
    }

    /** soread; b0 and b1 are what the two calls of recv deliver. */
    method SoRead(mss: nat, b0: seq<byte>, b1: seq<byte>) returns (nn: nat)
      requires Good(View()) && mss > 0 && Fetched(ReadPlan(View(), mss), b0, b1)
      modifies this`cc, this`wptr, data
      ensures View() == Read(old(View()), mss, b0, b1) && nn == |b0| + |b1|
    {
      ReadPlanExact(View(), mss);
      if b0 == [] {
        return 0;
      }
      Memcpy(wptr, b0);
      Memcpy(0, b1);
      nn := |b0| + |b1|;
      Advance(nn);
    }

    /** sowrite; n0 and n1 are how much the two calls of send take. */
    method SoWrite(n0: nat, n1: nat) returns (out: seq<byte>)
      requires Good(View()) && Accepted(WritePlan(View()), n0, n1)
      modifies this`cc, this`rptr
      ensures (View(), out) == Write(old(View()), n0, n1)
    {
      WritePlanExact(View());
      if n0 == 0 {
        return [];
      }
      out := data[rptr..rptr + n0] + data[..n1];
      cc := cc - n0 - n1;
      rptr := rptr + n0 + n1;
      if rptr >= data.Length {
        rptr := rptr - data.Length;
      }
    }
  }

  lemma BlitNone(data: seq<byte>)
    ensures Blit(data, 0, []) == data
  {
  }
}
