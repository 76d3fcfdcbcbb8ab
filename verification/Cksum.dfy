/** The Internet checksum: the unrolled, alignment-dependent routine of slirp/cksum.c
    against the end-around-carry definition of sections 1 and 2 of RFC 1071. */
module Cksum {
  import opened Bytes

  // ----- RFC 1071 reference -----

  /** A 16-bit word as a little-endian machine loads it. */
  function Word(lo: byte, hi: byte): u16 { lo as int + 256 * (hi as int) }

  /** Ones'-complement addition of two 16-bit words: the carry is added back in. */
  function OcAdd(a: u16, b: u16): u16 {
    if a + b > 0xFFFF then a + b - 0xFFFF else a + b
  }

  /** The 16-bit words of a byte string in machine (little-endian) order, zero-padded to even length. */
  function LeWords(bs: seq<byte>): seq<u16> {
    if |bs| == 0 then []
    else if |bs| == 1 then [bs[0]]
    else [Word(bs[0], bs[1])] + LeWords(bs[2..])
  }

  /** The ones'-complement sum of a word string. */
  function RfcSum(ws: seq<u16>): u16 {
    if |ws| == 0 then 0 else OcAdd(ws[0], RfcSum(ws[1..]))
  }

  /** The RFC 1071 checksum of a byte string. */
  function RfcCksum(bs: seq<byte>): u16 { 0xFFFF - RfcSum(LeWords(bs)) }

  // ----- Integer form -----

  /** Plain integer sum with weight 1 at even positions and 256 at odd positions. */
  function Weigh(bs: seq<byte>): nat {
    if |bs| == 0 then 0
    else Weigh(bs[..|bs| - 1]) + (if |bs| % 2 == 1 then bs[|bs| - 1] as int else 256 * (bs[|bs| - 1] as int))
  }

  /** The ones'-complement representative of an integer sum: fold carries until 16 bits remain. */
  function Canon(x: nat): u16 { if x <= 0xFFFF then x else Canon(x - 0xFFFF) }

  lemma {:induction false} CanonUnique(x: nat, r: nat, k: nat)
    requires x == r + 0xFFFF * k && 1 <= r <= 0xFFFF
    ensures Canon(x) == r
  {
    if k > 0 {
      CanonUnique(x - 0xFFFF, r, k - 1);
    }
  }

  lemma {:induction false} CanonRep(x: nat) returns (k: nat)
    ensures x == Canon(x) + 0xFFFF * k && (x == 0 <==> Canon(x) == 0)
  {
    if x <= 0xFFFF {
      k := 0;
    } else {
      k := CanonRep(x - 0xFFFF);
      k := k + 1;
    }
  }

  /** Sums that differ by a multiple of 65535 have the same representative, unless just one is 0. */
  lemma CanonCong(x: nat, y: nat, k: int)
    requires x == y + 0xFFFF * k && (x == 0 <==> y == 0)
    ensures Canon(x) == Canon(y)
  {
    if y > 0 {
      var i := CanonRep(x);
      var j := CanonRep(y);
      assert Canon(x) - Canon(y) == 0xFFFF * (k + j - i);
    }
  }

  /** Only the representative of a summand matters. */
  lemma CanonAdd(a: nat, b: nat, c: nat)
    requires Canon(a) == Canon(b)
    ensures Canon(a + c) == Canon(b + c)
  {
    OcAddCanon(a, c);
    OcAddCanon(b, c);
  }

  lemma CanonShift(a: nat, b: nat)
    requires Canon(a) == Canon(b)
    ensures Canon(256 * a) == Canon(256 * b)
  {
    var i := CanonRep(a);
    var j := CanonRep(b);
    CanonCong(256 * a, 256 * b, 256 * (i as int - j as int));
  }

  lemma OcAddCanon(a: nat, b: nat)
    ensures OcAdd(Canon(a), Canon(b)) == Canon(a + b)
  {
    var i := CanonRep(a);
    var j := CanonRep(b);
    var s := OcAdd(Canon(a), Canon(b));
    if a + b > 0 {
      CanonUnique(a + b, s, if Canon(a) + Canon(b) > 0xFFFF then i + j + 1 else i + j);
    }
  }

  lemma {:induction false} WeighCons2(bs: seq<byte>)
    requires |bs| >= 2
    ensures Weigh(bs) == Word(bs[0], bs[1]) + Weigh(bs[2..])
    decreases |bs|
  {
    if |bs| == 2 {
      assert bs[..1][..0] == [];
      assert Weigh(bs[..1]) == bs[0];
    } else {
      var front := bs[..|bs| - 1];
      WeighCons2(front);
      assert front[2..] == bs[2..][..|bs| - 3];
    }
  }

  lemma RfcSumCons(w: u16, ws: seq<u16>)
    ensures RfcSum([w] + ws) == OcAdd(w, RfcSum(ws))
  {
    assert ([w] + ws)[1..] == ws;
  }

  lemma RfcSumStep(w: u16, ws: seq<u16>, x: nat)
    requires RfcSum(ws) == Canon(x)
    ensures RfcSum([w] + ws) == Canon(w + x)
  {
    RfcSumCons(w, ws);
    assert Canon(w) == w;
    OcAddCanon(w, x);
  }

  lemma RfcSumOne(bs: seq<byte>)
    requires |bs| == 1
    ensures RfcSum(LeWords(bs)) == Canon(Weigh(bs))
  {
    assert bs[..0] == [] && Weigh(bs) == bs[0];
    RfcSumCons(bs[0], []);
    assert LeWords(bs) == [bs[0]] + [];
  }

  /** The RFC sum is the representative of the integer sum. */
  lemma {:induction false} RfcSumIsCanon(bs: seq<byte>)
    ensures RfcSum(LeWords(bs)) == Canon(Weigh(bs))
    decreases |bs|
  {
    if |bs| == 1 {
      RfcSumOne(bs);
    } else if |bs| >= 2 {
      var w, rest := Word(bs[0], bs[1]), bs[2..];
      WeighCons2(bs);
      RfcSumIsCanon(rest);
      RfcSumStep(w, LeWords(rest), Weigh(rest));
    }
  }

  lemma {:induction false} WeighBound(bs: seq<byte>)
    ensures Weigh(bs) <= 0xFFFF * (|bs| / 2) + 255 * (|bs| % 2)
  {
    if |bs| > 0 {
      WeighBound(bs[..|bs| - 1]);
    }
  }

  /** Reading one byte later swaps the bytes of every word, which is a shift by 8 modulo 65535. */
  lemma {:induction false} WeighShift(bs: seq<byte>) returns (k: nat)
    requires |bs| >= 1
    ensures bs[0] + 256 * Weigh(bs[1..]) == Weigh(bs) + 0xFFFF * k
    decreases |bs|
  {
    if |bs| == 1 {
      k := 0;
      assert bs[..0] == [] && bs[1..] == [];
    } else {
      var front := bs[..|bs| - 1];
      k := WeighShift(front);
      assert bs[1..][..|bs| - 2] == front[1..];
      if |bs| % 2 == 1 {
        k := k + bs[|bs| - 1];
      }
    }
  }

  // ----- The routine -----

  /** REDUCE: add the two halves of the 32-bit accumulator and fold the carry. */
  function Reduce(sum: int32): (r: u16)
    requires 0 <= sum
    ensures r == Canon(sum)
  {
    var y := sum % 0x1_0000 + sum / 0x1_0000;
    var r := if y > 0xFFFF then y - 0xFFFF else y;
    assert r == Canon(sum) by {
      if sum > 0 {
        CanonUnique(sum, r, sum / 0x1_0000 + (if y > 0xFFFF then 1 else 0));
      }
    }
    r
  }

  lemma WeighStep2(t: seq<byte>, p: nat)
    requires p % 2 == 0 && p + 2 <= |t|
    ensures Weigh(t[..p + 2]) == Weigh(t[..p]) + Word(t[p], t[p + 1])
  {
    assert t[..p + 2][..p + 1] == t[..p + 1];
    assert t[..p + 1][..p] == t[..p];
  }

  lemma AccumulatorFits(t: seq<byte>, p: nat)
    requires p <= |t| <= 0xFFFF && p % 2 == 0
    ensures Weigh(t[..p]) < 0x8000_0000
  {
    WeighBound(t[..p]);
  }

  /** Four unrolled word additions at byte position p of t. */
  method AddWords4(t: seq<byte>, p: nat, sum: int32) returns (r: int32)
    requires p % 2 == 0 && p + 8 <= |t| <= 0xFFFF
    requires sum == Weigh(t[..p])
    ensures r == Weigh(t[..p + 8])
  {
    WeighStep2(t, p); AccumulatorFits(t, p + 2);
    r := sum + Word(t[p], t[p + 1]);
    WeighStep2(t, p + 2); AccumulatorFits(t, p + 4);
    r := r + Word(t[p + 2], t[p + 3]);
    WeighStep2(t, p + 4); AccumulatorFits(t, p + 6);
    r := r + Word(t[p + 4], t[p + 5]);
    WeighStep2(t, p + 6); AccumulatorFits(t, p + 8);
    r := r + Word(t[p + 6], t[p + 7]);
  }

  /** The 32-byte and 8-byte unrolled loops: fewer than 8 bytes are left over. */
  method SumBlocks(t: seq<byte>, len: int) returns (sum: int32, mlen: int, p: nat)
    requires |t| <= 0xFFFF && |t| == if len < 0 then 0 else len
    ensures p % 2 == 0 && p <= |t| && mlen == len - p && mlen < 8
    ensures sum == Weigh(t[..p])
  {
    sum, p, mlen := 0, 0, len - 32;
    assert t[..0] == [];
    while mlen >= 0
      invariant mlen == len - p - 32 && p % 2 == 0 && p <= |t|
      invariant sum == Weigh(t[..p])
    {
      sum := AddWords4(t, p, sum);
      sum := AddWords4(t, p + 8, sum);
      sum := AddWords4(t, p + 16, sum);
      sum := AddWords4(t, p + 24, sum);
      p, mlen := p + 32, mlen - 32;
    }
    mlen := mlen + 32;
    mlen := mlen - 8;
    while mlen >= 0
      invariant mlen == len - p - 8 && p % 2 == 0 && p <= |t|
      invariant sum == Weigh(t[..p])
    {
      sum := AddWords4(t, p, sum);
      p, mlen := p + 8, mlen - 8;
    }
    mlen := mlen + 8;
  }

  /** The word-at-a-time loop after a REDUCE: at most one byte is left over. */
  method SumTail(t: seq<byte>, len: int, start: nat, sum0: int32) returns (sum: int32, mlen: int, p: nat)
    requires start % 2 == 0 && start <= |t| && len < 8
    requires if len < 0 then |t| == start else |t| == start + len
    requires sum0 == Weigh(t[..start])
    ensures p % 2 == 0 && p <= |t| && mlen < 0
    ensures 0 <= sum < 0x10_0000 && Canon(sum) == Canon(Weigh(t[..p]))
    ensures len >= 0 ==> p + mlen + 2 == |t| && mlen >= -2
    ensures len < 0 ==> p == |t| && mlen < -2
  {
    sum, p, mlen := Reduce(sum0), start, len - 2;
    ReduceIdempotent(sum0);
    while mlen >= 0
      invariant mlen == len - 2 - (p - start) && p % 2 == 0 && start <= p <= |t| && (len >= 0 ==> mlen >= -2)
      invariant 0 <= sum <= 0xFFFF + 0xFFFF * (p - start)
      invariant Canon(sum) == Canon(Weigh(t[..p]))
    {
      WeighStep2(t, p);
      CanonAdd(sum, Weigh(t[..p]), Word(t[p], t[p + 1]));
      sum := sum + Word(t[p], t[p + 1]);
      p, mlen := p + 2, mlen - 2;
    }
  }

  lemma ReduceIdempotent(x: nat)
    ensures Canon(Canon(x)) == Canon(x)
  {
  }

  /** The last byte of an odd run weighs 1. */
  lemma {:induction false} LastByte(t: seq<byte>, p: nat)
    requires p % 2 == 0 && p <= |t| <= p + 1
    ensures Weigh(t) == Weigh(t[..p]) + (if p < |t| then t[p] as int else 0)
  {
    if p == |t| { assert t[..p] == t; }
  }

  /** On odd alignment the first byte plus the shifted word sum is the true sum, up to 65535. */
  lemma ShiftedTotal(bs: seq<byte>, p: nat)
    requires |bs| >= 1 && p % 2 == 0 && p <= |bs| - 1 <= p + 1
    ensures var t := bs[1..];
      Canon(256 * Weigh(t[..p]) + (bs[0] as int + 256 * (if p < |t| then t[p] as int else 0))) == Canon(Weigh(bs))
  {
    var t := bs[1..];
    LastByte(t, p);
    var k := WeighShift(bs);
    WeighZero(bs);
    CanonCong(bs[0] + 256 * Weigh(t), Weigh(bs), k);
  }

  lemma {:induction false} WeighZero(bs: seq<byte>)
    requires |bs| >= 1
    ensures Weigh(bs) == 0 <==> bs[0] == 0 && Weigh(bs[1..]) == 0
  {
    if |bs| == 1 {
      assert bs[..0] == [] && bs[1..] == [];
    } else {
      WeighZero(bs[..|bs| - 1]);
      assert bs[..|bs| - 1][1..] == bs[1..][..|bs| - 2];
    }
  }

  /** How many bytes cksum covers: len, cut to the mbuf. */
  function Span(mLen: nat, len: int): nat {
    if len < 0 then 0 else if len < mLen then len else mLen
  }

  /** The byte-swapped ending: shift the sum back and pair the first byte with a trailing one. */
  method FinishSwapped(t: seq<byte>, p: nat, sum0: int32, first: byte) returns (sum: int32)
    requires p % 2 == 0 && p <= |t| <= p + 1
    requires 0 <= sum0 && Canon(sum0) == Canon(Weigh(t[..p]))
    ensures 0 <= sum && Canon(sum) == Canon(Weigh([first] + t))
  {
    ghost var bs := [first] + t;
    assert bs[1..] == t;
    ReduceIdempotent(sum0);
    sum := Reduce(sum0);
    CanonShift(sum, Weigh(t[..p]));
    ShiftedTotal(bs, p);
    CanonAdd(sum * 256, 256 * Weigh(t[..p]), first as int + 256 * (if p < |t| then t[p] as int else 0));
    sum := sum * 256;
    sum := sum + (if p < |t| then Word(first, t[p]) else Word(first, 0));
  }

  /** The ordinary ending: a trailing byte is padded with zero. */
  method FinishAligned(t: seq<byte>, p: nat, sum0: int32) returns (sum: int32)
    requires p % 2 == 0 && p <= |t| <= p + 1
    requires 0 <= sum0 < 0x10_0000 && Canon(sum0) == Canon(Weigh(t[..p]))
    ensures 0 <= sum && Canon(sum) == Canon(Weigh(t))
  {
    LastByte(t, p);
    sum := sum0;
    if p < |t| {
      CanonAdd(sum, Weigh(t[..p]), t[p]);
      sum := sum + Word(t[p], 0);
    }
  }

  /** cksum: `data` are the mbuf's bytes, `odd` the parity of the address of the first one.
      The accumulator is a signed 32-bit int and never overflows. */
  method Cksum(data: seq<byte>, odd: bool, len: int) returns (r: u16)
    requires Span(|data|, len) <= 0xFFFF
    ensures r == RfcCksum(data[..Span(|data|, len)])
  {
    ghost var bs := data[..Span(|data|, len)];
    RfcSumIsCanon(bs);
    var sum: int32 := 0;
    if |data| != 0 {
      var mlen := if len < |data| then len else |data|;
      var byteSwapped := odd && mlen > 0;
      var w: nat := 0;
      if byteSwapped {
        w, mlen := 1, mlen - 1;
      }
      // t is the run of bytes that the word loops walk
      var t := if mlen < 0 then [] else data[w..w + mlen];
      assert bs == if byteSwapped then [data[0]] + t else t;
      var p: nat;
      sum, mlen, p := SumBlocks(t, mlen);
      if mlen == 0 && !byteSwapped {
        assert t[..p] == t;
      } else {
        sum, mlen, p := SumTail(t, mlen, p, sum);
        if byteSwapped {
          sum := FinishSwapped(t, p, sum, data[0]);
        } else {
          sum := FinishAligned(t, p, sum);
        }
      }
    }
    sum := Reduce(sum);
    r := 0xFFFF - sum;
  }

  // ----- Verification of a received header -----

  lemma {:induction false} WeighAppend(a: seq<byte>, b: seq<byte>)
    requires |a| % 2 == 0
    ensures Weigh(a + b) == Weigh(a) + Weigh(b)
  {
    if |b| == 0 {
      assert a + b == a;
    } else {
      WeighAppend(a, b[..|b| - 1]);
      assert (a + b)[..|a + b| - 1] == a + b[..|b| - 1];
    }
  }

  lemma WeighPair(lo: byte, hi: byte)
    ensures Weigh([lo, hi]) == Word(lo, hi)
  {
    assert [lo, hi][..1] == [lo] && [lo][..0] == [];
    assert Weigh([lo]) == lo;
  }

  /** Write a checksum, in machine order, over the two bytes at an even offset. */
  function PutSum(bs: seq<byte>, at: nat, c: u16): seq<byte>
    requires at + 2 <= |bs|
  {
    bs[..at] + [c % 256, c / 256] + bs[at + 2..]
  }

  lemma WeighAround(front: seq<byte>, lo: byte, hi: byte, tail: seq<byte>)
    requires |front| % 2 == 0
    ensures Weigh(front + [lo, hi] + tail) == Weigh(front) + Word(lo, hi) + Weigh(tail)
  {
    WeighAppend(front + [lo, hi], tail);
    WeighAppend(front, [lo, hi]);
    WeighPair(lo, hi);
  }

  lemma WeighPutSum(bs: seq<byte>, at: nat, c: u16)
    requires at % 2 == 0 && at + 2 <= |bs| && bs[at] == 0 && bs[at + 1] == 0
    ensures Weigh(PutSum(bs, at, c)) == Weigh(bs) + c
  {
    assert bs == bs[..at] + [0, 0] + bs[at + 2..];
    WeighAround(bs[..at], 0, 0, bs[at + 2..]);
    WeighAround(bs[..at], c % 256, c / 256, bs[at + 2..]);
  }

  lemma CanonComplement(x: nat)
    ensures Canon(x + (0xFFFF - Canon(x))) == 0xFFFF
  {
    var k := CanonRep(x);
    CanonUnique(x + (0xFFFF - Canon(x)), 0xFFFF, k);
  }

  /** Storing the checksum of a message in its zeroed checksum field makes the message sum to zero. */
  lemma StoredSumVerifies(bs: seq<byte>, at: nat)
    requires at % 2 == 0 && at + 2 <= |bs| && bs[at] == 0 && bs[at + 1] == 0
    ensures RfcCksum(PutSum(bs, at, RfcCksum(bs))) == 0
  {
    var c := RfcCksum(bs);
    RfcSumIsCanon(bs);
    RfcSumIsCanon(PutSum(bs, at, c));
    WeighPutSum(bs, at, c);
    CanonComplement(Weigh(bs));
  }

  // ----- What a sum detects -----

  lemma WeighWord(bs: seq<byte>, at: nat)
    requires at % 2 == 0 && at + 2 <= |bs|
    ensures Weigh(bs) == Weigh(bs[..at]) + Word(bs[at], bs[at + 1]) + Weigh(bs[at + 2..])
  {
    assert bs == bs[..at] + [bs[at], bs[at + 1]] + bs[at + 2..];
    WeighAround(bs[..at], bs[at], bs[at + 1], bs[at + 2..]);
  }

  lemma CanonFull(x: nat)
    ensures Canon(x) == 0xFFFF <==> x > 0 && x % 0xFFFF == 0
  {
    var k := CanonRep(x);
    assert x % 0xFFFF == Canon(x) % 0xFFFF;
  }

  /** A sum whose checksum is 0. */
  predicate Zero(x: nat) { x > 0 && x % 0xFFFF == 0 }

  lemma SumsToZero(bs: seq<byte>)
    ensures RfcCksum(bs) == 0 <==> Zero(Weigh(bs))
  {
    RfcSumIsCanon(bs);
    CanonFull(Weigh(bs));
  }

  lemma PutToZero(bs: seq<byte>, at: nat, c: u16)
    requires at % 2 == 0 && at + 2 <= |bs|
    ensures RfcCksum(PutSum(bs, at, c)) == 0 <==> Zero(Weigh(bs[..at]) + c + Weigh(bs[at + 2..]))
  {
    SumsToZero(PutSum(bs, at, c));
    WeighAround(bs[..at], c % 256, c / 256, bs[at + 2..]);
  }

  lemma WordAtZero(bs: seq<byte>, at: nat)
    requires at % 2 == 0 && at + 2 <= |bs| && RfcCksum(bs) == 0
    ensures Zero(Weigh(bs[..at]) + Word(bs[at], bs[at + 1]) + Weigh(bs[at + 2..]))
  {
    SumsToZero(bs);
    WeighWord(bs, at);
  }

  lemma WordsAlike(a: nat, b: nat, o: u16, c: u16)
    requires a + b > 0 && Zero(a + o + b)
    ensures Zero(a + c + b) <==> c == o || (c == 0 && o == 0xFFFF) || (c == 0xFFFF && o == 0)
  {
  }

  /** A message that sums to zero no longer does so with another word at an even offset, unless the word 0 takes the
      place of 0xFFFF or the other way around. (Of the other bytes, at least one is not zero.) */
  lemma WordDetected(bs: seq<byte>, at: nat, c: u16)
    requires at % 2 == 0 && at + 2 <= |bs| && RfcCksum(bs) == 0
    requires Weigh(bs[..at]) + Weigh(bs[at + 2..]) > 0
    ensures var o := Word(bs[at], bs[at + 1]);
      RfcCksum(PutSum(bs, at, c)) == 0 <==> c == o || (c == 0 && o == 0xFFFF) || (c == 0xFFFF && o == 0)
  {
    WordAtZero(bs, at);
    PutToZero(bs, at, c);
    WordsAlike(Weigh(bs[..at]), Weigh(bs[at + 2..]), Word(bs[at], bs[at + 1]), c);
  }
}
