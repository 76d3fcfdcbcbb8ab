/** Machine-level integer ranges, the Option type and the lemmas on sequences that the models share. */
module Bytes {
  type byte = x: int | 0 <= x < 0x100
  type u16 = x: int | 0 <= x < 0x1_0000
  type u32 = x: int | 0 <= x < 0x1_0000_0000
  type int32 = x: int | -0x8000_0000 <= x < 0x8000_0000

  datatype Option<+T> = None | Some(value: T)

  function ToSeq<T>(o: Option<T>): seq<T> { match o case None => [] case Some(x) => [x] }

  lemma Assoc<T>(a: seq<T>, b: seq<T>, c: seq<T>)
    ensures a + b + c == a + (b + c)
  {
  }

  lemma Nil<T>(a: seq<T>)
    ensures a + [] == a && [] + a == a
  {
  }

  /** memcpy of bs to place p of s. */
  function Blit<T>(s: seq<T>, p: nat, bs: seq<T>): (r: seq<T>)
    requires p + |bs| <= |s|
    ensures |r| == |s| && forall i :: 0 <= i < |s| ==> r[i] == if p <= i < p + |bs| then bs[i - p] else s[i]
  {
    s[..p] + bs + s[p + |bs|..]
  }

  // ----- Collecting -----

  /** What f makes of the elements of s, one after another. */
  function Collect<T, U>(f: T -> seq<U>, s: seq<T>): (r: seq<U>) {
    if |s| == 0 then [] else Collect(f, s[..|s| - 1]) + f(s[|s| - 1])
  }

  lemma CollectAppend<T, U>(f: T -> seq<U>, s: seq<T>, x: T)
    ensures Collect(f, s + [x]) == Collect(f, s) + f(x)
  {
    assert (s + [x])[..|s|] == s;
  }

  lemma {:induction false} CollectJoin<T, U>(f: T -> seq<U>, a: seq<T>, b: seq<T>)
    ensures Collect(f, a + b) == Collect(f, a) + Collect(f, b)
    decreases |b|
  {
    if |b| == 0 {
      Nil(a);
      Nil(Collect(f, a));
    } else {
      var init, x := b[..|b| - 1], b[|b| - 1];
      CollectJoin(f, a, init);
      CollectAppend(f, a + init, x);
      assert b == init + [x];
      Assoc(a, init, [x]);
      Assoc(Collect(f, a), Collect(f, init), f(x));
    }
  }

  lemma MultisetGlue<T>(a: seq<T>, x: T, b: seq<T>)
    ensures multiset(a + [x] + b) == multiset(a + b) + multiset{x}
  {
  }

  lemma CollectGlue<T, U>(f: T -> seq<U>, a: seq<T>, x: T, b: seq<T>)
    ensures multiset(Collect(f, a + [x] + b)) == multiset(Collect(f, a + b)) + multiset(f(x))
  {
    CollectAppend(f, a, x);
    CollectJoin(f, a + [x], b);
    CollectJoin(f, a, b);
  }

  lemma CutAt<T>(b: seq<T>, i: nat)
    requires i < |b|
    ensures b == b[..i] + [b[i]] + b[i + 1..] && multiset(b[..i] + b[i + 1..]) == multiset(b) - multiset{b[i]}
  {
    assert b == b[..i] + [b[i]] + b[i + 1..];
    MultisetGlue(b[..i], b[i], b[i + 1..]);
  }

  lemma CutLast<T>(a: seq<T>)
    requires |a| > 0
    ensures a == a[..|a| - 1] + [a[|a| - 1]]
    ensures multiset(a[..|a| - 1]) == multiset(a) - multiset{a[|a| - 1]}
  {
    assert a == a[..|a| - 1] + [a[|a| - 1]];
  }

  /** The last element of a, in a permutation of it. */
  lemma LastIn<T>(a: seq<T>, b: seq<T>) returns (i: nat)
    requires multiset(a) == multiset(b) && |a| > 0
    ensures i < |b| && b[i] == a[|a| - 1]
  {
    assert a[|a| - 1] in multiset(b);
    i :| 0 <= i < |b| && b[i] == a[|a| - 1];
  }

  /** A permutation is collected to a permutation. */
  lemma {:induction false} CollectPermute<T, U>(f: T -> seq<U>, a: seq<T>, b: seq<T>)
    requires multiset(a) == multiset(b)
    ensures multiset(Collect(f, a)) == multiset(Collect(f, b))
    decreases |a|
  {
    assert |a| == |multiset(a)| && |b| == |multiset(b)|;
    if |a| > 0 {
      var i := LastIn(a, b);
      CutLast(a);
      CutAt(b, i);
      CollectPermute(f, a[..|a| - 1], b[..i] + b[i + 1..]);
      CollectAppend(f, a[..|a| - 1], a[|a| - 1]);
      CollectGlue(f, b[..i], a[|a| - 1], b[i + 1..]);
    }
  }

  lemma {:induction false} CollectHas<T, U>(f: T -> seq<U>, s: seq<T>, x: T, y: U)
    requires x in s && y in f(x)
    ensures y in Collect(f, s)
    decreases |s|
  {
    var init, last := s[..|s| - 1], s[|s| - 1];
    assert s == init + [last];
    if x != last { CollectHas(f, init, x, y); }
  }

  /** Collecting twice. */
  lemma {:induction false} CollectTwice<S, T, U>(g: S -> seq<T>, f: T -> seq<U>, h: S -> seq<U>, s: seq<S>)
    requires forall x <- s :: h(x) == Collect(f, g(x))
    ensures Collect(h, s) == Collect(f, Collect(g, s))
  {
    if |s| > 0 {
      var n := |s| - 1;
      CollectTwice(g, f, h, s[..n]);
      CollectJoin(f, Collect(g, s[..n]), g(s[n]));
    }
  }

  lemma {:induction false} CollectEach<T, U>(f: T -> seq<U>, s: seq<T>, r: seq<U>)
    requires |r| == |s| && forall i :: 0 <= i < |s| ==> f(s[i]) == [r[i]]
    ensures Collect(f, s) == r
  {
    if |s| > 0 {
      var n := |s| - 1;
      CollectEach(f, s[..n], r[..n]);
      assert r == r[..n] + [r[n]];
    }
  }

  // ----- No element twice -----

  predicate NoDup<T(==)>(s: seq<T>) { forall i, j :: 0 <= i < j < |s| ==> s[i] != s[j] }

  lemma {:induction false} NoDupCount<T>(s: seq<T>)
    ensures NoDup(s) <==> forall x <- s :: multiset(s)[x] == 1
  {
    if |s| > 0 {
      var t, y := s[..|s| - 1], s[|s| - 1];
      assert s == t + [y];
      NoDupCount(t);
      if NoDup(s) {
        forall x | x in s ensures multiset(s)[x] == 1 { if x != y { assert x in t; } }
      } else if NoDup(t) {
        var i, j :| 0 <= i < j < |s| && s[i] == s[j];
        assert y in t && multiset(s)[y] >= 2;
      } else {
        var x :| x in t && multiset(t)[x] != 1;
        assert multiset(s)[x] >= multiset(t)[x];
      }
    }
  }
}
