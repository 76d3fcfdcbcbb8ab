/** common/unicode.c: the table-driven UTF-8 codec (section 2 of RFC 2279). Strings are without their final NUL. */
module Utf8 {
  import opened Bytes

  /** A line of utf8_table in arithmetic form: the first byte is unit * top plus a value below unit, 64^k is p, the mask
      is unit * p - 1 and `least` the smallest value that needs this length. */
  datatype Line = Line(unit: nat, top: nat, p: nat, least: nat)

  const TABLE: seq<Line> := [
    Line(0x80, 0, 1, 0), Line(0x20, 0x6, 0x40, 0x80), Line(0x10, 0xE, 0x1000, 0x800), Line(8, 0x1E, 0x4_0000, 0x1_0000),
    Line(4, 0x3E, 0x100_0000, 0x20_0000), Line(2, 0x7E, 0x4000_0000, 0x400_0000)
  ]

  function Limit(k: nat): (n: nat)
    requires k < 6
  {
    match k
    case 0 => 0x80 case 1 => 0x800 case 2 => 0x1_0000 case 3 => 0x20_0000 case 4 => 0x400_0000 case _ => 0x8000_0000
  }

  function Pow64(k: nat): (p: nat)
    ensures p > 0
  {
    if k == 0 then 1 else 64 * Pow64(k - 1)
  }

  lemma {:induction false} Powers(k: nat)
    requires k < 6
    ensures TABLE[k].p == Pow64(k)
  {
    if k > 0 {
      Powers(k - 1);
    }
  }

  // ---- continuation bytes

  predicate Cont(b: byte) { 0x80 <= b < 0xC0 }

  predicate AllCont(ds: seq<byte>) { forall i :: 0 <= i < |ds| ==> Cont(ds[i]) }

  function Value(ds: seq<byte>): (x: nat)
    requires AllCont(ds)
    decreases |ds|
  {
    if ds == [] then 0 else 64 * Value(ds[..|ds| - 1]) + (ds[|ds| - 1] as int - 0x80)
  }

  function Digits(x: nat, k: nat): (ds: seq<byte>)
    ensures |ds| == k && AllCont(ds)
  {
    if k == 0 then [] else Digits(x / 64, k - 1) + [0x80 + x % 64]
  }

  lemma {:induction false} ValueDigits(x: nat, k: nat)
    requires x < Pow64(k)
    ensures Value(Digits(x, k)) == x
  {
    if k > 0 {
      ValueDigits(x / 64, k - 1);
      assert Digits(x, k)[..k - 1] == Digits(x / 64, k - 1);
    }
  }

  lemma {:induction false} DigitsValue(ds: seq<byte>)
    requires AllCont(ds)
    ensures Value(ds) < Pow64(|ds|) && Digits(Value(ds), |ds|) == ds
    decreases |ds|
  {
    if ds != [] {
      var n := |ds| - 1;
      DigitsValue(ds[..n]);
      assert Value(ds) / 64 == Value(ds[..n]) && Value(ds) % 64 == ds[n] as int - 0x80;
      assert ds == ds[..n] + [ds[n]];
    }
  }

  // ---- the encoding

  /** The table line of a value: the shortest form. */
  function LineOf(x: nat): (k: nat)
    requires x < 0x8000_0000
    ensures k < 6 && TABLE[k].least <= x < Limit(k)
  {
    if x < 0x80 then 0 else if x < 0x800 then 1 else if x < 0x1_0000 then 2
    else if x < 0x20_0000 then 3 else if x < 0x400_0000 then 4 else 5
  }

  lemma LineUnique(x: nat, k: nat)
    requires k < 6 && TABLE[k].least <= x < Limit(k)
    ensures x < 0x8000_0000 && LineOf(x) == k
  {
  }

  function Enc(x: nat): (bs: seq<byte>)
    requires x < 0x8000_0000
    ensures |bs| == LineOf(x) + 1
  {
    var k := LineOf(x);
    First(x, k);
    [TABLE[k].unit * TABLE[k].top + x / TABLE[k].p] + Digits(x % TABLE[k].p, k)
  }

  lemma First(x: nat, k: nat)
    requires k < 6 && x < Limit(k)
    ensures x / TABLE[k].p < TABLE[k].unit && TABLE[k].unit * TABLE[k].top + TABLE[k].unit <= 0x100
  {
  }

  // ---- the decoder

  /** The loop of utf8_mbtowc from table line k on: the length and the value, or None for -1. */
  function DecAt(s: seq<byte>, n: nat, k: nat, l: nat): (r: Option<(nat, nat)>)
    requires 1 <= n <= |s| && k <= 6
    decreases 6 - k
  {
    if k == 6 then None
    else if s[0] as int / TABLE[k].unit == TABLE[k].top then
      var v := l % Limit(k);
      if v < TABLE[k].least then None else Some((k + 1, v))
    else if n <= k + 1 || !Cont(s[k + 1]) then None
    else DecAt(s, n, k + 1, 64 * l + (s[k + 1] as int - 0x80))
  }

  /** utf8_mbtowc, before the value is cut to 16 bits. */
  function Dec(s: seq<byte>, n: nat): (r: Option<(nat, nat)>)
    requires 1 <= n <= |s|
  {
    DecAt(s, n, 0, s[0])
  }

  /** The table line that a first byte selects; 6 for none. */
  function ClassOf(b: byte): (k: nat)
    ensures k <= 6
  {
    if b < 0x80 then 0 else if b < 0xC0 then 6 else if b < 0xE0 then 1 else if b < 0xF0 then 2
    else if b < 0xF8 then 3 else if b < 0xFC then 4 else if b < 0xFE then 5 else 6
  }

  lemma ClassIs(b: byte, k: nat)
    requires k < 6
    ensures b as int / TABLE[k].unit == TABLE[k].top <==> ClassOf(b) == k
  {
  }

  /** The length of the bytes and their value, when they have the form that the first byte announces. */
  function Announced(s: seq<byte>, n: nat): (r: Option<(nat, nat)>)
    requires 1 <= n <= |s|
  {
    var c := ClassOf(s[0]);
    if c == 6 || n < c + 1 || !AllCont(s[1..c + 1]) then None
    else
      var v := (s[0] * Pow64(c) + Value(s[1..c + 1])) % Limit(c);
      if v < TABLE[c].least then None else Some((c + 1, v))
  }

  lemma {:induction false} DecAtIs(s: seq<byte>, n: nat, k: nat, l: nat)
    requires 1 <= n <= |s| && k <= ClassOf(s[0]) && k + 1 <= n && AllCont(s[1..k + 1])
    requires l == s[0] * Pow64(k) + Value(s[1..k + 1])
    ensures DecAt(s, n, k, l) == Announced(s, n)
    decreases 6 - k
  {
    if k == ClassOf(s[0]) {
      AtClass(s, n, k, l);
    } else {
      ClassIs(s[0], k);
      if n > k + 1 && Cont(s[k + 1]) {
        NextDigit(s, k, l);
        DecAtIs(s, n, k + 1, 64 * l + (s[k + 1] as int - 0x80));
      } else {
        StopsShort(s, n, k);
      }
    }
  }

  lemma AtClass(s: seq<byte>, n: nat, k: nat, l: nat)
    requires 1 <= n <= |s| && k == ClassOf(s[0]) && k + 1 <= n && AllCont(s[1..k + 1])
    requires l == s[0] * Pow64(k) + Value(s[1..k + 1])
    ensures DecAt(s, n, k, l) == Announced(s, n)
  {
    if k < 6 {
      ClassIs(s[0], k);
    }
  }

  lemma StopsShort(s: seq<byte>, n: nat, k: nat)
    requires 1 <= n <= |s| && k < ClassOf(s[0]) && (n <= k + 1 || !Cont(s[k + 1]))
    ensures Announced(s, n) == None
  {
    var c := ClassOf(s[0]);
    if c < 6 && n >= c + 1 {
      assert s[1..c + 1][k] == s[k + 1];
    }
  }

  lemma NextDigit(s: seq<byte>, k: nat, l: nat)
    requires k + 1 < |s| && AllCont(s[1..k + 1]) && Cont(s[k + 1]) && l == s[0] * Pow64(k) + Value(s[1..k + 1])
    ensures AllCont(s[1..k + 2]) && 64 * l + (s[k + 1] as int - 0x80) == s[0] * Pow64(k + 1) + Value(s[1..k + 2])
  {
    var ds := s[1..k + 2];
    assert ds == s[1..k + 1] + [s[k + 1]];
    assert ds[..k] == s[1..k + 1];
    Shifted(s[0], Pow64(k), Value(ds[..k]));
  }

  lemma Shifted(b: int, p: int, x: int)
    ensures 64 * (b * p + x) == b * (64 * p) + 64 * x
  {
  }

  /** The mask takes off the bits that announce the length. */
  lemma Masked(b: byte, x: nat)
    requires ClassOf(b) < 6 && x < Pow64(ClassOf(b))
    ensures var c := ClassOf(b);
      var h := b as int - TABLE[c].unit * TABLE[c].top;
      && 0 <= h < TABLE[c].unit && (b * Pow64(c) + x) % Limit(c) == h * TABLE[c].p + x < Limit(c)
      && (h * TABLE[c].p + x) / TABLE[c].p == h && (h * TABLE[c].p + x) % TABLE[c].p == x
  {
    Powers(ClassOf(b));
  }

  /** The decoder accepts exactly the shortest forms, with the length and value of what the encoder would write. */
  lemma AcceptsIff(s: seq<byte>, n: nat, nc: nat, l: nat)
    requires 1 <= n <= |s|
    ensures Dec(s, n) == Some((nc, l)) <==> 1 <= nc <= n && l < 0x8000_0000 && s[..nc] == Enc(l)
  {
    assert s[1..1] == [];
    DecAtIs(s, n, 0, s[0]);
    if Dec(s, n) == Some((nc, l)) {
      AcceptedIsShortest(s, n, nc, l);
    }
    if 1 <= nc <= n && l < 0x8000_0000 && s[..nc] == Enc(l) {
      ShortestIsAccepted(s, n, nc, l);
    }
  }

  lemma AcceptedIsShortest(s: seq<byte>, n: nat, nc: nat, l: nat)
    requires 1 <= n <= |s| && Announced(s, n) == Some((nc, l))
    ensures 1 <= nc <= n && l < 0x8000_0000 && s[..nc] == Enc(l)
  {
    var c := ClassOf(s[0]);
    var ds := s[1..c + 1];
    DigitsValue(ds);
    Masked(s[0], Value(ds));
    LineUnique(l, c);
    EncIs(s, l, c, ds);
  }

  lemma EncIs(s: seq<byte>, l: nat, c: nat, ds: seq<byte>)
    requires l < 0x8000_0000 && c == LineOf(l) && |s| > c && ds == s[1..c + 1]
    requires s[0] as int == TABLE[c].unit * TABLE[c].top + l / TABLE[c].p && ds == Digits(l % TABLE[c].p, c)
    ensures s[..c + 1] == Enc(l)
  {
    assert s[..c + 1] == [s[0]] + ds;
  }

  lemma ShortestIsAccepted(s: seq<byte>, n: nat, nc: nat, l: nat)
    requires 1 <= nc <= n <= |s| && l < 0x8000_0000 && s[..nc] == Enc(l)
    ensures Announced(s, n) == Some((nc, l))
  {
    var k := LineOf(l);
    var p := TABLE[k].p;
    FormParts(s, nc, l, k, p);
    ValueDigits(l % p, k);
    FormValue(s[0], l, k);
    AnnouncedIs(s, n, k, l);
  }

  lemma FormValue(b: byte, l: nat, k: nat)
    requires l < 0x8000_0000 && k == LineOf(l) && b as int == TABLE[k].unit * TABLE[k].top + l / TABLE[k].p
    requires TABLE[k].p == Pow64(k) && ClassOf(b) == k
    ensures (b * Pow64(k) + l % TABLE[k].p) % Limit(k) == l && l >= TABLE[k].least
  {
    Masked(b, l % TABLE[k].p);
    assert l == l / TABLE[k].p * TABLE[k].p + l % TABLE[k].p;
  }

  lemma AnnouncedIs(s: seq<byte>, n: nat, k: nat, l: nat)
    requires 1 <= n <= |s| && k < 6 && ClassOf(s[0]) == k && n >= k + 1 && AllCont(s[1..k + 1])
    requires l == (s[0] * Pow64(k) + Value(s[1..k + 1])) % Limit(k) && l >= TABLE[k].least
    ensures Announced(s, n) == Some((k + 1, l))
  {
  }

  lemma FormParts(s: seq<byte>, nc: nat, l: nat, k: nat, p: nat)
    requires 1 <= nc <= |s| && l < 0x8000_0000 && s[..nc] == Enc(l) && k == LineOf(l) && p == TABLE[k].p
    ensures nc == k + 1 && ClassOf(s[0]) == k && s[0] as int == TABLE[k].unit * TABLE[k].top + l / p
    ensures s[1..k + 1] == Digits(l % p, k) && p == Pow64(k) && l % p < p
  {
    First(l, k);
    Powers(k);
    assert s[0] == Enc(l)[0];
    assert s[1..k + 1] == Enc(l)[1..] == Digits(l % p, k);
    FirstClass(l, k);
  }

  lemma FirstClass(l: nat, k: nat)
    requires l < 0x8000_0000 && k == LineOf(l)
    ensures ClassOf(Enc(l)[0]) == k && Enc(l)[0] as int == TABLE[k].unit * TABLE[k].top + l / TABLE[k].p
  {
    First(l, k);
  }

  // ---- strings

  function EncAll(ws: seq<u16>): (bs: seq<byte>) { if ws == [] then [] else Enc(ws[0]) + EncAll(ws[1..]) }

  const QUESTION: byte := 0x3F

  /** co_utf8_wcstombs with room for that many bytes and the NUL: a character that does
      not fit becomes a question mark. */
  function Mbs(ws: seq<u16>, room: int): (bs: seq<byte>)
    ensures room >= 0 ==> |bs| <= room
  {
    if room <= 0 || ws == [] then []
    else if |Enc(ws[0])| <= room then Enc(ws[0]) + Mbs(ws[1..], room - |Enc(ws[0])|)
    else [QUESTION] + Mbs(ws[1..], room - 1)
  }

  function AtMost(maxlen: int, n: nat): (l: int) { if maxlen < n then maxlen else n }

  /** co_utf8_mbstowcs: maxlen counts characters, and bounds the bytes of a character as well. */
  function Wcs(bs: seq<byte>, maxlen: int): (ws: seq<u16>)
    decreases |bs|, 1
  {
    if maxlen <= 0 || bs == [] then []
    else if bs[0] < 0x80 then [bs[0] as int] + Wcs(bs[1..], maxlen - 1)
    else
      DecFits(bs, AtMost(maxlen, |bs|));
      WcsFrom(bs, maxlen, Dec(bs, AtMost(maxlen, |bs|)))
  }

  /** ... with what was decoded of a character of several bytes. */
  function WcsFrom(bs: seq<byte>, maxlen: int, d: Option<(nat, nat)>): (ws: seq<u16>)
    requires bs != [] && (d.Some? ==> 1 <= d.value.0 <= |bs|)
    decreases |bs|, 0
  {
    match d
    case None => [QUESTION as int] + Wcs(bs[1..], maxlen - 1)
    case Some((nc, l)) => [l % 0x1_0000] + Wcs(bs[nc..], maxlen - 1)
  }

  lemma DecFits(bs: seq<byte>, n: nat)
    requires 1 <= n <= |bs|
    ensures Dec(bs, n).Some? ==> 1 <= Dec(bs, n).value.0 <= n
  {
    if Dec(bs, n).Some? {
      AcceptsIff(bs, n, Dec(bs, n).value.0, Dec(bs, n).value.1);
    }
  }

  /** The encoding is complete exactly when there is room for it. */
  lemma {:induction false} MbsCompleteIff(ws: seq<u16>, room: nat)
    ensures Mbs(ws, room) == EncAll(ws) <==> |EncAll(ws)| <= room
  {
    if |EncAll(ws)| <= room {
      MbsComplete(ws, room);
    }
  }

  lemma {:induction false} MbsComplete(ws: seq<u16>, room: nat)
    requires |EncAll(ws)| <= room
    ensures Mbs(ws, room) == EncAll(ws)
  {
    if ws != [] {
      assert |EncAll(ws)| == |Enc(ws[0])| + |EncAll(ws[1..])|;
      MbsComplete(ws[1..], room - |Enc(ws[0])|);
    }
  }

  lemma DecEnc(w: u16, rest: seq<byte>, n: nat)
    requires |Enc(w)| <= n <= |Enc(w) + rest|
    ensures Dec(Enc(w) + rest, n) == Some((|Enc(w)|, w as int))
  {
    var s := Enc(w) + rest;
    assert s[..|Enc(w)|] == Enc(w);
    AcceptsIff(s, n, |Enc(w)|, w);
  }

  /** At every character the limit, which counts characters, still allows for the bytes of the next one. */
  predicate Enough(ws: seq<u16>, maxlen: int) { forall i :: 0 <= i < |ws| ==> maxlen - i >= |Enc(ws[i])| }

  lemma EnoughNext(ws: seq<u16>, maxlen: int)
    requires ws != []
    ensures Enough(ws, maxlen) <==> maxlen >= |Enc(ws[0])| && Enough(ws[1..], maxlen - 1)
  {
    if maxlen >= |Enc(ws[0])| && Enough(ws[1..], maxlen - 1) {
      forall i | 0 <= i < |ws| ensures maxlen - i >= |Enc(ws[i])| {
        if i > 0 {
          assert ws[i] == ws[1..][i - 1];
        }
      }
    }
    if Enough(ws, maxlen) {
      forall i | 0 <= i < |ws| - 1 ensures maxlen - 1 - i >= |Enc(ws[1..][i])| {
        assert ws[1..][i] == ws[i + 1];
      }
    }
  }

  /** Decoding undoes encoding, for every string of 16-bit units, if and only if the limit is enough. */
  lemma {:induction false} RoundTripIff(ws: seq<u16>, maxlen: int)
    ensures Wcs(EncAll(ws), maxlen) == ws <==> Enough(ws, maxlen)
    decreases |ws|
  {
    if ws != [] {
      EnoughNext(ws, maxlen);
      RoundTripIff(ws[1..], maxlen - 1);
      RoundTripNext(ws, maxlen);
    }
  }

  lemma RoundTripNext(ws: seq<u16>, maxlen: int)
    requires ws != []
    ensures Wcs(EncAll(ws), maxlen) == ws <==> maxlen >= |Enc(ws[0])| && Wcs(EncAll(ws[1..]), maxlen - 1) == ws[1..]
  {
    var w, rest := ws[0], EncAll(ws[1..]);
    if maxlen >= |Enc(w)| {
      WcsFirst(w, rest, maxlen);
      SameTails(w, ws, Wcs(rest, maxlen - 1));
    } else {
      WcsShort(w, rest, maxlen);
    }
  }

  lemma SameTails(w: u16, ws: seq<u16>, t: seq<u16>)
    requires ws != [] && ws[0] == w
    ensures [w] + t == ws <==> t == ws[1..]
  {
    assert ([w] + t)[1..] == t && ws == [w] + ws[1..];
  }

  /** A limit of the length in bytes is always enough. */
  lemma {:induction false} RoundTrip(ws: seq<u16>, maxlen: nat)
    requires maxlen >= |EncAll(ws)|
    ensures Enough(ws, maxlen) && Wcs(EncAll(ws), maxlen) == ws
    decreases |ws|
  {
    if ws != [] {
      RoundTrip(ws[1..], maxlen - 1);
      EnoughNext(ws, maxlen);
    }
    RoundTripIff(ws, maxlen);
  }

  lemma WcsFirst(w: u16, rest: seq<byte>, maxlen: int)
    requires maxlen >= |Enc(w)|
    ensures Wcs(Enc(w) + rest, maxlen) == [w] + Wcs(rest, maxlen - 1)
  {
    if w < 0x80 {
      WcsAscii(w, rest, maxlen);
    } else {
      WcsLead(w);
      DecEnc(w, rest, AtMost(maxlen, |Enc(w) + rest|));
      WcsStep(Enc(w), rest, maxlen, w);
    }
  }

  /** A limit below the bytes of the first character turns it into a question mark, or ends the string. */
  lemma WcsShort(w: u16, rest: seq<byte>, maxlen: int)
    requires maxlen < |Enc(w)|
    ensures Wcs(Enc(w) + rest, maxlen) ==
      [] || (Wcs(Enc(w) + rest, maxlen)[0] == QUESTION as int && w != QUESTION as int)
  {
    if maxlen > 0 {
      if w < 0x80 { EncAscii(w); }
      WcsLead(w);
      DecShort(w, rest, maxlen);
      WcsNone(Enc(w) + rest, maxlen);
    }
  }

  lemma DecShort(w: u16, rest: seq<byte>, n: nat)
    requires 1 <= n < |Enc(w)|
    ensures Dec(Enc(w) + rest, n) == None
  {
    var s := Enc(w) + rest;
    if Dec(s, n).Some? {
      var (nc, l) := Dec(s, n).value;
      AcceptsIff(s, n, nc, l);
      assert s[0] == Enc(w)[0] && s[..nc][0] == s[0];
      FirstClass(w, LineOf(w));
      FirstClass(l, LineOf(l));
    }
  }

  lemma WcsNone(bs: seq<byte>, maxlen: nat)
    requires bs != [] && bs[0] >= 0x80 && 0 < maxlen <= |bs| && Dec(bs, maxlen) == None
    ensures Wcs(bs, maxlen) == [QUESTION as int] + Wcs(bs[1..], maxlen - 1)
  {
    WcsUnfold(bs, maxlen, None);
  }

  lemma EncAscii(w: u16)
    requires w < 0x80
    ensures Enc(w) == [w]
  {
  }

  lemma WcsAscii(w: u16, rest: seq<byte>, maxlen: nat)
    requires w < 0x80 && maxlen > 0
    ensures Wcs(Enc(w) + rest, maxlen) == [w] + Wcs(rest, maxlen - 1)
  {
    EncAscii(w);
    Cut([w], rest);
  }

  lemma Cut(a: seq<byte>, b: seq<byte>)
    requires a != []
    ensures (a + b)[|a|..] == b && (a + b)[0] == a[0]
  {
  }

  lemma WcsLead(w: u16)
    requires w >= 0x80
    ensures Enc(w)[0] >= 0x80
  {
    FirstClass(w, LineOf(w));
  }

  lemma WcsStep(a: seq<byte>, rest: seq<byte>, maxlen: nat, l: u16)
    requires a != [] && a[0] >= 0x80 && |a| <= maxlen
    requires Dec(a + rest, AtMost(maxlen, |a + rest|)) == Some((|a|, l as nat))
    ensures Wcs(a + rest, maxlen) == [l] + Wcs(rest, maxlen - 1)
  {
    Cut(a, rest);
    WcsOne(a + rest, rest, maxlen, |a|, l);
  }

  lemma WcsOne(bs: seq<byte>, rest: seq<byte>, maxlen: nat, nc: nat, l: u16)
    requires bs != [] && bs[0] >= 0x80 && maxlen > 0 && Dec(bs, AtMost(maxlen, |bs|)) == Some((nc, l as nat))
    requires 1 <= nc <= |bs| && bs[nc..] == rest
    ensures Wcs(bs, maxlen) == [l] + Wcs(rest, maxlen - 1)
  {
    WcsUnfold(bs, maxlen, Some((nc, l as nat)));
    WcsFromSome(bs, rest, maxlen, nc, l);
  }

  lemma WcsFromSome(bs: seq<byte>, rest: seq<byte>, maxlen: nat, nc: nat, l: u16)
    requires bs != [] && 1 <= nc <= |bs| && bs[nc..] == rest
    ensures WcsFrom(bs, maxlen, Some((nc, l as nat))) == [l] + Wcs(rest, maxlen - 1)
  {
  }

  lemma WcsUnfold(bs: seq<byte>, maxlen: nat, d: Option<(nat, nat)>)
    requires bs != [] && bs[0] >= 0x80 && maxlen > 0 && d == Dec(bs, AtMost(maxlen, |bs|))
    requires d.Some? ==> 1 <= d.value.0 <= |bs|
    ensures Wcs(bs, maxlen) == WcsFrom(bs, maxlen, d)
  {
  }

  /** From a NUL-free string through the byte buffer, with enough room, and back. */
  lemma ThereAndBack(ws: seq<u16>, room: nat, maxlen: nat)
    requires room >= |EncAll(ws)|
    ensures Wcs(Mbs(ws, room), maxlen) == ws <==> Enough(ws, maxlen)
  {
    MbsComplete(ws, room);
    RoundTripIff(ws, maxlen);
  }

  /** No NUL appears inside an encoded NUL-free string. */
  lemma {:induction false} NoNul(ws: seq<u16>)
    requires 0 !in ws
    ensures 0 !in EncAll(ws)
  {
    if ws != [] {
      NoNul(ws[1..]);
      var w := ws[0];
      First(w, LineOf(w));
      forall i | 0 <= i < |Enc(w)| ensures Enc(w)[i] != 0 {
        if i > 0 {
          assert Enc(w)[i] == Digits(w % TABLE[LineOf(w)].p, LineOf(w))[i - 1];
        }
      }
    }
  }

  // ---- strings that do not fit, and bytes that are no characters

  /** us are the first characters of ws, with a question mark for each that the room left for it does not hold. */
  ghost predicate Fitted(ws: seq<u16>, us: seq<u16>, room: int) {
    |us| <= |ws| && forall i :: 0 <= i < |us| ==>
      us[i] == if |EncAll(us[..i])| + |Enc(ws[i])| <= room then ws[i] else QUESTION as int
  }

  lemma FittedFirst(ws: seq<u16>, us: seq<u16>, room: int, u: u16)
    requires ws != [] && Fitted(ws[1..], us, room - |Enc(u)|)
    requires u == if |Enc(ws[0])| <= room then ws[0] else QUESTION as int
    ensures Fitted(ws, [u] + us, room)
  {
    var vs := [u] + us;
    forall i | 0 <= i < |vs|
      ensures vs[i] == if |EncAll(vs[..i])| + |Enc(ws[i])| <= room then ws[i] else QUESTION as int
    {
      if i > 0 {
        assert vs[..i][1..] == us[..i - 1] && vs[..i][0] == u && ws[i] == ws[1..][i - 1];
        assert |EncAll(vs[..i])| == |Enc(u)| + |EncAll(us[..i - 1])|;
      }
    }
  }

  /** Whatever the room, co_utf8_wcstombs writes the encoding of a string of whole characters: those that fit, and a
      question mark for each that does not; it stops only when the room is used up. */
  lemma {:induction false} MbsFitted(ws: seq<u16>, room: int) returns (us: seq<u16>)
    ensures Fitted(ws, us, room) && Mbs(ws, room) == EncAll(us) && (|us| < |ws| ==> |EncAll(us)| == room || room <= 0)
    decreases |ws|
  {
    us := [];
    if room > 0 && ws != [] {
      var u: u16 := if |Enc(ws[0])| <= room then ws[0] else QUESTION as int;
      us := MbsFitted(ws[1..], room - |Enc(u)|);
      FittedFirst(ws, us, room, u);
      EncNext(u, us);
      MbsNext(ws, room, u);
      us := [u] + us;
    }
  }

  lemma EncNext(u: u16, us: seq<u16>)
    ensures EncAll([u] + us) == Enc(u) + EncAll(us)
  {
    assert ([u] + us)[1..] == us;
  }

  lemma MbsNext(ws: seq<u16>, room: int, u: u16)
    requires room > 0 && ws != [] && u == if |Enc(ws[0])| <= room then ws[0] else QUESTION as int
    ensures |Enc(u)| <= room && Mbs(ws, room) == Enc(u) + Mbs(ws[1..], room - |Enc(u)|)
  {
    assert Enc(QUESTION as int) == [QUESTION];
  }

  /** No character begins the bytes within the limit. */
  ghost predicate Unreadable(bs: seq<byte>, maxlen: int) {
    forall nc: nat, l: nat :: nc <= maxlen && nc <= |bs| && l < 0x8000_0000 ==> bs[..nc] != Enc(l)
  }

  /** co_utf8_mbstowcs reads a character that begins the bytes, cut to 16 bits, and goes on behind it. */
  lemma ReadsCharacter(bs: seq<byte>, maxlen: int, nc: nat, l: nat)
    requires 1 <= nc <= maxlen && nc <= |bs| && l < 0x8000_0000 && bs[..nc] == Enc(l)
    ensures Wcs(bs, maxlen) == [l % 0x1_0000] + Wcs(bs[nc..], maxlen - 1)
  {
    var n := AtMost(maxlen, |bs|);
    AcceptsIff(bs, n, nc, l);
    if bs[0] < 0x80 {
      OneByte(bs, n, nc, l);
    } else {
      LeadRead(bs, maxlen, n, nc, l);
    }
  }

  lemma LeadRead(bs: seq<byte>, maxlen: int, n: nat, nc: nat, l: nat)
    requires maxlen > 0 && bs != [] && n == AtMost(maxlen, |bs|) && bs[0] >= 0x80 && Dec(bs, n) == Some((nc, l))
    requires 1 <= nc <= |bs|
    ensures Wcs(bs, maxlen) == [l % 0x1_0000] + Wcs(bs[nc..], maxlen - 1)
  {
  }

  lemma OneByte(bs: seq<byte>, n: nat, nc: nat, l: nat)
    requires 1 <= n <= |bs| && bs[0] < 0x80 && Dec(bs, n) == Some((nc, l))
    ensures nc == 1 && l == bs[0] as int
  {
  }

  /** A byte with which no character begins becomes a question mark, and reading goes on with the next one. */
  lemma SkipsByte(bs: seq<byte>, maxlen: int)
    requires maxlen > 0 && bs != [] && Unreadable(bs, maxlen)
    ensures Wcs(bs, maxlen) == [QUESTION as int] + Wcs(bs[1..], maxlen - 1)
  {
    var n := AtMost(maxlen, |bs|);
    if Dec(bs, n).Some? {
      DecFits(bs, n);
      AcceptsIff(bs, n, Dec(bs, n).value.0, Dec(bs, n).value.1);
    }
    if bs[0] < 0x80 {
      Ascii(bs);
    }
  }

  lemma Ascii(bs: seq<byte>)
    requires bs != [] && bs[0] < 0x80
    ensures bs[..1] == Enc(bs[0] as int)
  {
  }

  // ---- the loops

  /** utf8_mbtowc: None is -1; the value is stored in 16 bits. */
  method MbToWc(s: seq<byte>, n: nat) returns (r: Option<(nat, u16)>)
    requires 1 <= n <= |s|
    ensures r == Cut16(Dec(s, n))
  {
    var l: nat := s[0];
    var k := 0;
    while k < 6
      invariant 0 <= k <= 6 && Dec(s, n) == DecAt(s, n, k, l)
    {
      var done;
      done, r, l := TryLine(s, n, k, l);
      if done {
        return;
      }
      k := k + 1;
    }
    r := None;
  }

  function Cut16(d: Option<(nat, nat)>): (r: Option<(nat, u16)>) {
    match d case None => None case Some((nc, l)) => Some((nc, l % 0x1_0000))
  }

  /** One round of the loop. */
  method TryLine(s: seq<byte>, n: nat, k: nat, l: nat) returns (done: bool, r: Option<(nat, u16)>, l': nat)
    requires 1 <= n <= |s| && k < 6
    ensures if done then r == Cut16(DecAt(s, n, k, l)) else DecAt(s, n, k, l) == DecAt(s, n, k + 1, l')
  {
    done, r, l' := true, None, l;
    if s[0] as int / TABLE[k].unit == TABLE[k].top {
      l' := l % Limit(k);
      if l' < TABLE[k].least {
        return;
      }
      r := Some((k + 1, l' % 0x1_0000));
      return;
    }
    if n <= k + 1 {
      return;
    }
    if !Cont(s[k + 1]) {
      return;
    }
    done, l' := false, 64 * l + (s[k + 1] as int - 0x80);
  }

  /** The bytes after the first, from the high digits down. */
  lemma DigitStep(l: u16, k: nat, j: nat)
    requires k == LineOf(l) && 1 <= j <= k
    ensures var x := l % TABLE[k].p;
      Digits(x / Pow64(j - 1), k - j + 1) == Digits(x / Pow64(j), k - j) + [0x80 + l / Pow64(j - 1) % 64]
  {
    LineOfWord(l, k);
    SixBits(l);
    DigitLast(l % Pow64(k) / Pow64(j - 1), k - j);
  }

  lemma LineOfWord(l: u16, k: nat)
    requires k == LineOf(l)
    ensures k <= 2 && Pow64(0) == 1 && Pow64(1) == 64 && Pow64(2) == 4096 && TABLE[k].p == Pow64(k)
  {
  }

  lemma DigitLast(x: nat, n: nat)
    ensures Digits(x, n + 1) == Digits(x / 64, n) + [0x80 + x % 64]
  {
  }

  lemma SixBits(l: nat)
    ensures l % 4096 / 64 / 64 == l % 4096 / 4096 && l % 4096 % 64 == l % 64 && l % 4096 / 64 % 64 == l / 64 % 64
  {
    var q, r := l / 4096, l % 4096;
    assert l == 4096 * q + r;
    assert l / 64 == 64 * q + r / 64;
  }

  /** utf8_wctomb: None is -1, when the form does not fit maxlen. */
  method WcToMb(wc: u16, maxlen: nat) returns (r: Option<seq<byte>>)
    ensures r == if |Enc(wc)| <= maxlen then Some(Enc(wc)) else None
  {
    var k := 0;
    while k < 6 && k < maxlen
      invariant 0 <= k <= 6 && k <= maxlen && k <= LineOf(wc)
    {
      if wc < Limit(k) {
        var bs := WriteForm(wc, k);
        return Some(bs);
      }
      k := k + 1;
    }
    r := None;
  }

  method WriteForm(wc: u16, k: nat) returns (bs: seq<byte>)
    requires k == LineOf(wc)
    ensures bs == Enc(wc)
  {
    First(wc, k);
    Powers(k);
    ghost var x := wc as int % TABLE[k].p;
    var head := [TABLE[k].unit * TABLE[k].top + wc as int / TABLE[k].p];
    var tail: seq<byte> := [];
    var c := k;
    assert Digits(x / Pow64(k), 0) == [];
    while c > 0
      invariant 0 <= c <= k && tail == Digits(x / Pow64(c), k - c)
    {
      DigitStep(wc, k, c);
      c := c - 1;
      tail := tail + [0x80 + wc as int / Pow64(c) % 64];
    }
    assert Pow64(0) == 1 && x / 1 == x;
    bs := head + tail;
  }

  /** One round of co_utf8_wcstombs. */
  method NextBytes(ws: seq<u16>, room: nat) returns (step: seq<byte>)
    requires ws != [] && room > 0
    ensures 0 < |step| <= room && Mbs(ws, room) == step + Mbs(ws[1..], room - |step|)
  {
    if ws[0] > 0x7f {
      var r := WcToMb(ws[0], room);
      if r.None? {
        step := [QUESTION];
      } else {
        step := r.value;
      }
    } else {
      FirstClass(ws[0], 0);
      step := [ws[0] as int];
    }
  }

  /** co_utf8_wcstombs. */
  method WcsToMbs(ws: seq<u16>, maxlen: int) returns (bs: seq<byte>, ok: bool)
    ensures bs == Mbs(ws, maxlen - 1) && (ok <==> maxlen >= 1)
  {
    bs := [];
    var room, rest := maxlen - 1, ws;
    while room > 0 && rest != []
      invariant (room >= 0 <==> maxlen >= 1) && Mbs(ws, maxlen - 1) == bs + Mbs(rest, room)
      decreases |rest|
    {
      var step := NextBytes(rest, room);
      Assoc(bs, step, Mbs(rest[1..], room - |step|));
      bs := bs + step;
      room := room - |step|;
      rest := rest[1..];
    }
    assert bs + [] == bs;
    ok := room >= 0;
  }

  /** One round of co_utf8_mbstowcs. */
  method NextWide(bs: seq<byte>, left: nat) returns (w: u16, nc: nat)
    requires bs != [] && left > 0
    ensures 1 <= nc <= |bs| && Wcs(bs, left) == [w] + Wcs(bs[nc..], left - 1)
  {
    if bs[0] >= 0x80 {
      var n := if left < |bs| then left else |bs|;
      var r := MbToWc(bs, n);
      if r.None? {
        w, nc := QUESTION as int, 1;
      } else {
        AcceptsIff(bs, n, Dec(bs, n).value.0, Dec(bs, n).value.1);
        w, nc := r.value.1, r.value.0;
      }
    } else {
      w, nc := bs[0] as int, 1;
    }
  }

  /** co_utf8_mbstowcs. */
  method MbsToWcs(bs: seq<byte>, maxlen: int) returns (ws: seq<u16>)
    ensures ws == Wcs(bs, maxlen)
  {
    ws := [];
    var left, rest := maxlen, bs;
    while left > 0 && rest != []
      invariant Wcs(bs, maxlen) == ws + Wcs(rest, left)
      decreases |rest|
    {
      var w, nc := NextWide(rest, left);
      Assoc(ws, [w], Wcs(rest[nc..], left - 1));
      ws := ws + [w];
      rest := rest[nc..];
      left := left - 1;
    }
    assert ws + [] == ws;
  }

  /** co_utf8_wctowbstrlen predicts the encoded length of the first maxlen characters. */
  method EncodedLength(ws: seq<u16>, maxlen: nat) returns (length: nat)
    ensures length == |EncAll(ws[..if maxlen < |ws| then maxlen else |ws|])|
  {
    length := 0;
    var left, i := maxlen, 0;
    while left > 0 && i < |ws|
      invariant 0 <= i <= |ws| && left == maxlen - i && left >= 0 && length == |EncAll(ws[..i])|
    {
      EncAllSnoc(ws[..i], ws[i]);
      assert ws[..i + 1] == ws[..i] + [ws[i]];
      if ws[i] > 0x7f {
        var r := WcToMb(ws[i], 8);
        if r.None? {
          length := length + 1;
        } else {
          length := length + |r.value|;
        }
      } else {
        length := length + 1;
      }
      i := i + 1;
      left := left - 1;
    }
  }

  lemma {:induction false} EncAllSnoc(ws: seq<u16>, w: u16)
    ensures EncAll(ws + [w]) == EncAll(ws) + Enc(w)
  {
    if ws == [] {
      assert ([] + [w])[1..] == [] && EncAll([]) == [];
      assert Enc(w) + [] == Enc(w) && [] + Enc(w) == Enc(w);
    } else {
      assert (ws + [w])[1..] == ws[1..] + [w];
      EncAllSnoc(ws[1..], w);
      assert Enc(ws[0]) + (EncAll(ws[1..]) + Enc(w)) == Enc(ws[0]) + EncAll(ws[1..]) + Enc(w);
    }
  }
}
