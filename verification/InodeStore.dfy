/** kernel/filesystem.c: the inode store of a cofs mount. One set of inodes hangs on three kinds of list:
    the flat list, the hash chains and the child lists of directories. */
module InodeStore {
  import opened Bytes

  type Id = nat   // the address of a co_inode_t

  const HASH_SIZE: nat := 0x1000

  datatype Inode = Inode(number: int, name: string, parent: Option<Id>, kids: seq<Id>)

  /** co_filesystem_t, with the memory of its inodes. */
  datatype Store = Store(nodes: map<Id, Inode>, flat: seq<Id>, hash: seq<seq<Id>>, root: Option<Id>, count: int,
                         next: int)

  // ----- Lists -----

  /** A list without the nodes that have been unlinked from it. */
  function Without(l: seq<Id>, gone: set<Id>): (r: seq<Id>)
    ensures forall x :: x in r <==> x in l && x !in gone
  {
    if |l| == 0 then []
    else (if l[0] in gone then [] else [l[0]]) + Without(l[1..], gone)
  }

  lemma {:induction false} WithoutNoDup(l: seq<Id>, gone: set<Id>)
    requires NoDup(l)
    ensures NoDup(Without(l, gone))
  {
    if |l| > 0 {
      WithoutNoDup(l[1..], gone);
    }
  }

  lemma {:induction false} WithoutTwice(l: seq<Id>, a: set<Id>, b: set<Id>)
    ensures Without(Without(l, a), b) == Without(l, a + b)
  {
    if |l| > 0 {
      WithoutTwice(l[1..], a, b);
      var t := Without(l[1..], a);
      if l[0] !in a { assert ([l[0]] + t)[1..] == t; } else { assert [] + t == t; }
    }
  }

  /** Unlinking nodes that are not on the list changes nothing. */
  lemma {:induction false} WithoutAbsent(l: seq<Id>, a: set<Id>, b: set<Id>)
    requires forall x <- l :: x in a <==> x in b
    ensures Without(l, a) == Without(l, b)
  {
    if |l| > 0 { WithoutAbsent(l[1..], a, b); }
  }

  lemma {:induction false} WithoutNone(l: seq<Id>, a: set<Id>)
    requires forall x <- l :: x !in a
    ensures Without(l, a) == l
  {
    if |l| > 0 { WithoutNone(l[1..], a); }
  }

  // ----- Freeing and deferring -----

  function Bucket(number: int): nat { number % HASH_SIZE }

  /** x is live and its parent pointer does not dangle. */
  predicate Live(s: Store, x: Id) {
    x in s.nodes && (s.nodes[x].parent.Some? ==> s.nodes[x].parent.value in s.nodes)
  }

  /** co_list_del(&x->node): take x off the child list of its parent, if it has one. */
  function Unlink(s: Store, x: Id): map<Id, Inode>
    requires Live(s, x)
  {
    match s.nodes[x].parent
    case None => s.nodes
    case Some(p) => s.nodes[p := s.nodes[p].(kids := Without(s.nodes[p].kids, {x}))]
  }

  /** free_inode: unlink from the flat list, from its hash chain and from its siblings. */
  function FreeInode(s: Store, x: Id): Store
    requires Live(s, x) && |s.hash| == HASH_SIZE
  {
    var b := Bucket(s.nodes[x].number);
    s.(nodes := Unlink(s, x) - {x}, flat := Without(s.flat, {x}), hash := s.hash[b := Without(s.hash[b], {x})],
       count := s.count - 1)
  }

  /** The deep branch of free_inode_children: take a node off its siblings and clear its parent. */
  function Orphan(s: Store, x: Id): Store
    requires Live(s, x)
  {
    var nodes := Unlink(s, x);
    s.(nodes := nodes[x := nodes[x].(parent := None)])
  }

  /** The store s after the inodes in `freed` have been freed and those in `orphans` deferred. */
  function Cut(s: Store, freed: set<Id>, orphans: set<Id>): Store {
    s.(nodes := map x <- s.nodes | x !in freed :: Trimmed(s.nodes[x], x, freed + orphans, orphans),
       flat := Without(s.flat, freed),
       hash := seq(|s.hash|, b requires 0 <= b < |s.hash| => Without(s.hash[b], freed)),
       count := s.count - |freed|)
  }

  /** An inode whose child list has lost the nodes in `gone`. */
  function Trimmed(n: Inode, x: Id, gone: set<Id>, orphans: set<Id>): Inode {
    n.(parent := if x in orphans then None else n.parent, kids := Without(n.kids, gone))
  }

  // ----- The invariant -----

  /** The flat list holds every inode once, and the count is exact. */
  ghost predicate FlatOk(s: Store) {
    NoDup(s.flat) && (forall x :: x in s.flat <==> x in s.nodes) && s.count == |s.nodes|
  }

  /** Every inode is on the hash chain of its number and on no other. */
  ghost predicate HashOk(s: Store) {
    && |s.hash| == HASH_SIZE && (forall b :: 0 <= b < |s.hash| ==> NoDup(s.hash[b]))
    && (forall b, x :: 0 <= b < |s.hash| ==> (x in s.hash[b] <==> x in s.nodes && Bucket(s.nodes[x].number) == b))
  }

  /** Numbers are unique and below the next one to be handed out; the root is number 1. */
  ghost predicate NumbersOk(s: Store) {
    && s.root.Some? && s.root.value in s.nodes && s.nodes[s.root.value].number == 1
    && (forall x <- s.nodes :: 1 <= s.nodes[x].number < s.next)
    && (forall x, y :: x in s.nodes && y in s.nodes && s.nodes[x].number == s.nodes[y].number ==> x == y)
  }

  predicate IsKid(s: Store, c: Id, p: Id) { p in s.nodes && c in s.nodes[p].kids }

  /** Child lists and parent pointers mirror each other, every inode but the root has a parent, and ranks
      fall along every child link. */
  ghost predicate TreeOk(s: Store, rank: map<Id, nat>) {
    && rank.Keys >= s.nodes.Keys
    && (forall p <- s.nodes :: NoDup(s.nodes[p].kids))
    && (forall p, c :: IsKid(s, c, p) ==> c in s.nodes && s.nodes[c].parent == Some(p) && rank[c] < rank[p])
    && (forall c <- s.nodes :: s.nodes[c].parent.Some? ==> IsKid(s, c, s.nodes[c].parent.value))
    && (forall c <- s.nodes :: s.nodes[c].parent.None? <==> s.root == Some(c))
  }

  ghost predicate Inv(s: Store, rank: map<Id, nat>) { FlatOk(s) && HashOk(s) && NumbersOk(s) && TreeOk(s, rank) }

  // ----- Freeing and deferring act on Cut -----

  /** Unlinking x from a trimmed store trims the child lists by x as well. */
  lemma TrimKids(s: Store, rank: map<Id, nat>, freed: set<Id>, orphans: set<Id>, x: Id, y: Id)
    requires TreeOk(s, rank) && x in s.nodes && y in s.nodes && x !in freed && y !in freed &&
      Live(Cut(s, freed, orphans), x)
    ensures Unlink(Cut(s, freed, orphans), x)[y].kids == Without(s.nodes[y].kids, freed + orphans + {x})
  {
    var c := Cut(s, freed, orphans);
    var l := s.nodes[y].kids;
    if x !in orphans && s.nodes[x].parent == Some(y) {
      WithoutTwice(l, freed + orphans, {x});
    } else {
      if x !in orphans { assert !IsKid(s, x, y); }
      WithoutAbsent(l, freed + orphans, freed + orphans + {x});
    }
  }

  /** What unlinking does to every remaining inode of a trimmed store. */
  lemma UnlinkInCut(s: Store, rank: map<Id, nat>, freed: set<Id>, orphans: set<Id>, x: Id)
    requires TreeOk(s, rank) && x in s.nodes && x !in freed && Live(Cut(s, freed, orphans), x)
    ensures Unlink(Cut(s, freed, orphans), x).Keys == s.nodes.Keys - freed
    ensures forall y <- s.nodes :: y !in freed ==>
      Unlink(Cut(s, freed, orphans), x)[y] == Trimmed(s.nodes[y], y, freed + orphans + {x}, orphans)
  {
    forall y | y in s.nodes && y !in freed
      ensures Unlink(Cut(s, freed, orphans), x)[y] == Trimmed(s.nodes[y], y, freed + orphans + {x}, orphans)
    {
      TrimKids(s, rank, freed, orphans, x, y);
    }
  }

  lemma FreeNodes(s: Store, u: map<Id, Inode>, freed: set<Id>, orphans: set<Id>, x: Id)
    requires x in s.nodes && x !in freed && u.Keys == s.nodes.Keys - freed
    requires forall y <- s.nodes :: y !in freed ==> u[y] == Trimmed(s.nodes[y], y, freed + orphans + {x}, orphans)
    ensures u - {x} == Cut(s, freed + {x}, orphans).nodes
    ensures u[x := u[x].(parent := None)] == Cut(s, freed, orphans + {x}).nodes
  {
    assert freed + {x} + orphans == freed + orphans + {x} == freed + (orphans + {x});
    var c, d := u - {x}, Cut(s, freed + {x}, orphans).nodes;
    assert c.Keys == d.Keys;
    forall y | y in d ensures c[y] == d[y] {}
    var e, f := u[x := u[x].(parent := None)], Cut(s, freed, orphans + {x}).nodes;
    assert e.Keys == f.Keys;
    forall y | y in f ensures e[y] == f[y] {}
  }

  lemma FreeHash(s: Store, freed: set<Id>, x: Id)
    requires HashOk(s) && x in s.nodes
    ensures var h, b := Cut(s, freed, {}).hash, Bucket(s.nodes[x].number);
      h[b := Without(h[b], {x})] == Cut(s, freed + {x}, {}).hash
  {
    var k := Bucket(s.nodes[x].number);
    forall b | 0 <= b < HASH_SIZE && b != k ensures Without(s.hash[b], freed) == Without(s.hash[b], freed + {x}) {
      WithoutAbsent(s.hash[b], freed, freed + {x});
    }
    WithoutTwice(s.hash[k], freed, {x});
  }

  lemma FreeInCut(s: Store, rank: map<Id, nat>, freed: set<Id>, orphans: set<Id>, x: Id)
    requires Inv(s, rank) && x in s.nodes && x !in freed && Live(Cut(s, freed, orphans), x)
    ensures FreeInode(Cut(s, freed, orphans), x) == Cut(s, freed + {x}, orphans)
  {
    WithoutTwice(s.flat, freed, {x});
    FreeHash(s, freed, x);
    UnlinkInCut(s, rank, freed, orphans, x);
    FreeNodes(s, Unlink(Cut(s, freed, orphans), x), freed, orphans, x);
    assert Cut(s, freed, orphans).hash == Cut(s, freed, {}).hash &&
      Cut(s, freed + {x}, orphans).hash == Cut(s, freed + {x}, {}).hash;
  }

  lemma OrphanInCut(s: Store, rank: map<Id, nat>, freed: set<Id>, orphans: set<Id>, x: Id)
    requires TreeOk(s, rank) && x in s.nodes && x !in freed && Live(Cut(s, freed, orphans), x)
    ensures Orphan(Cut(s, freed, orphans), x) == Cut(s, freed, orphans + {x})
  {
    UnlinkInCut(s, rank, freed, orphans, x);
    FreeNodes(s, Unlink(Cut(s, freed, orphans), x), freed, orphans, x);
  }

  // ----- Trees of inodes -----

  datatype Tree = Node(id: Id, kids: seq<Tree>)

  function Roots(f: seq<Tree>): seq<Id> {
    if |f| == 0 then [] else [f[0].id] + Roots(f[1..])
  }

  /** All inodes of a forest. */
  function Ids(f: seq<Tree>): set<Id> {
    if |f| == 0 then {} else {f[0].id} + Ids(f[0].kids) + Ids(f[1..])
  }

  /** All inodes of a forest except its roots. */
  function Below(f: seq<Tree>): set<Id> {
    if |f| == 0 then {} else Ids(f[0].kids) + Below(f[1..])
  }

  /** No inode occurs twice. */
  predicate Distinct(f: seq<Tree>)
    decreases f
  {
    |f| == 0 ||
    (&& f[0].id !in Ids(f[0].kids) && {f[0].id} + Ids(f[0].kids) !! Ids(f[1..])
     && Distinct(f[0].kids) && Distinct(f[1..]))
  }

  /** The inodes on the first n levels of a forest. */
  function Top(f: seq<Tree>, n: nat): set<Id> {
    if |f| == 0 || n == 0 then {} else {f[0].id} + Top(f[0].kids, n - 1) + Top(f[1..], n)
  }

  /** The subtrees that hang on level n, pushed one by one in front of `acc`. */
  function Deep(f: seq<Tree>, n: nat, acc: seq<Tree>): seq<Tree>
    decreases f
  {
    if |f| == 0 then acc
    else if n == 0 then Deep(f[1..], n, [f[0]] + acc)
    else Deep(f[1..], n, Deep(f[0].kids, n - 1, acc))
  }

  lemma Cons(t: Tree, f: seq<Tree>)
    ensures Ids([t] + f) == {t.id} + Ids(t.kids) + Ids(f) && Roots([t] + f) == [t.id] + Roots(f)
    ensures Distinct([t] + f) <==>
      t.id !in Ids(t.kids) && {t.id} + Ids(t.kids) !! Ids(f) && Distinct(t.kids) && Distinct(f)
  {
    assert ([t] + f)[1..] == f;
  }

  lemma {:induction false} TopAreIds(f: seq<Tree>, n: nat)
    ensures Top(f, n) <= Ids(f)
    decreases f
  {
    if |f| > 0 && n > 0 {
      TopAreIds(f[0].kids, n - 1);
      TopAreIds(f[1..], n);
    }
  }

  /** The first n levels and what hangs below them make up the whole forest, and nothing is in both. */
  lemma {:induction false} LevelsPartition(f: seq<Tree>, n: nat, acc: seq<Tree>)
    requires Distinct(f) && Distinct(acc) && Ids(f) !! Ids(acc)
    ensures var d := Deep(f, n, acc);
      Distinct(d) && Ids(d) + Top(f, n) == Ids(f) + Ids(acc) && Ids(d) !! Top(f, n) && Ids(acc) <= Ids(d)
    decreases f
  {
    if |f| > 0 {
      var t, rest := f[0], f[1..];
      if n == 0 {
        Cons(t, acc);
        LevelsPartition(rest, n, [t] + acc);
      } else {
        LevelsPartition(t.kids, n - 1, acc);
        LevelsPartition(rest, n, Deep(t.kids, n - 1, acc));
        TopAreIds(rest, n);
        TopAreIds(t.kids, n - 1);
        InParts({t.id}, Ids(t.kids), Ids(rest), Ids(acc), Top(t.kids, n - 1), Top(rest, n),
          Ids(Deep(t.kids, n - 1, acc)),
                Ids(Deep(rest, n, Deep(t.kids, n - 1, acc))));
      }
    }
  }

  /** i is a root with kids ks and siblings rs; tk and tr are the levels taken of each,
      d and e what is then deferred. */
  lemma InParts(i: set<Id>, ks: set<Id>, rs: set<Id>, acc: set<Id>, tk: set<Id>, tr: set<Id>,
                d: set<Id>, e: set<Id>)
    requires i !! ks && i + ks !! rs && i + ks + rs !! acc && tk <= ks && tr <= rs
    requires d + tk == ks + acc && d !! tk && acc <= d
    requires e + tr == rs + d && e !! tr && d <= e
    ensures e + (i + tk + tr) == i + ks + rs + acc && e !! i + tk + tr && acc <= e
  {
  }

  /** The forest is what the child lists of s say. */
  predicate Matches(s: Store, f: seq<Tree>)
    decreases f
  {
    |f| == 0 ||
    (&& f[0].id in s.nodes && s.nodes[f[0].id].kids == Roots(f[0].kids)
     && Matches(s, f[0].kids) && Matches(s, f[1..]))
  }

  lemma {:induction false} DeepMatches(s: Store, f: seq<Tree>, n: nat, acc: seq<Tree>)
    requires Matches(s, f) && Matches(s, acc)
    ensures Matches(s, Deep(f, n, acc))
    decreases f
  {
    if |f| > 0 {
      if n == 0 {
        assert ([f[0]] + acc)[1..] == acc;
        DeepMatches(s, f[1..], n, [f[0]] + acc);
      } else {
        DeepMatches(s, f[0].kids, n - 1, acc);
        DeepMatches(s, f[1..], n, Deep(f[0].kids, n - 1, acc));
      }
    }
  }

  lemma {:induction false} RootsAreIds(f: seq<Tree>)
    ensures |Roots(f)| == |f| && (forall x <- Roots(f) :: x in Ids(f)) && Below(f) <= Ids(f)
  {
    if |f| > 0 { RootsAreIds(f[1..]); }
  }

  lemma {:induction false} RootsUnfold(f: seq<Tree>)
    ensures |Roots(f)| == |f| && (|f| > 0 ==> Roots(f)[0] == f[0].id && Roots(f)[1..] == Roots(f[1..]))
  {
    RootsAreIds(f);
  }

  /** What hangs deep in a forest comes from the forest or was there before. */
  lemma {:induction false} DeepRoots(f: seq<Tree>, n: nat, acc: seq<Tree>)
    ensures forall x <- Roots(Deep(f, n, acc)) :: x in Ids(f) || x in Roots(acc)
    ensures forall x <- Roots(acc) :: x in Roots(Deep(f, n, acc))
    decreases f
  {
    if |f| > 0 {
      if n == 0 {
        Cons(f[0], acc);
        DeepRoots(f[1..], n, [f[0]] + acc);
      } else {
        DeepRoots(f[0].kids, n - 1, acc);
        DeepRoots(f[1..], n, Deep(f[0].kids, n - 1, acc));
      }
    }
  }

  // ----- What makes a forest ready to be freed -----

  /** Nobody has freed the parent of x or will do so while the forest is being freed. */
  predicate ParentStays(s: Store, x: Id, gone: set<Id>) {
    x in s.nodes && (s.nodes[x].parent.Some? ==> s.nodes[x].parent.value !in gone)
  }

  /** The forest is part of s, holds nothing twice and is untouched so far, except that its roots may be orphans. */
  ghost predicate Ready(s: Store, f: seq<Tree>, freed: set<Id>, orphans: set<Id>) {
    && Matches(s, f) && Distinct(f) && Ids(f) !! freed && Below(f) !! orphans
    && (forall x <- Roots(f) :: x in orphans || ParentStays(s, x, freed + Ids(f)))
  }

  /** The child list of the first root is intact. */
  lemma KidsIntact(s: Store, rank: map<Id, nat>, f: seq<Tree>, freed: set<Id>, orphans: set<Id>)
    requires TreeOk(s, rank) && Ready(s, f, freed, orphans) && |f| > 0
    ensures var c, x := Cut(s, freed, orphans), f[0].id; Live(c, x) && c.nodes[x].kids == Roots(f[0].kids)
  {
    var x, k := f[0].id, f[0].kids;
    RootsAreIds(k);
    WithoutNone(Roots(k), freed + orphans);
    assert x in Roots(f);
    if x !in orphans && s.nodes[x].parent.Some? { assert IsKid(s, x, s.nodes[x].parent.value); }
  }

  /** The children of the first root are ready too. */
  lemma ReadyKids(s: Store, rank: map<Id, nat>, f: seq<Tree>, freed: set<Id>, orphans: set<Id>)
    requires TreeOk(s, rank) && Ready(s, f, freed, orphans) && |f| > 0
    ensures Ready(s, f[0].kids, freed, orphans)
  {
    var x, k := f[0].id, f[0].kids;
    RootsAreIds(k);
    forall y | y in Roots(k) ensures ParentStays(s, y, freed + Ids(k)) { assert IsKid(s, y, x); }
  }

  /** Once the first tree has been dealt with, the others are still ready. */
  lemma ReadyRest(s: Store, f: seq<Tree>, freed: set<Id>, orphans: set<Id>, freed': set<Id>,
                  orphans': set<Id>)
    requires Ready(s, f, freed, orphans) && |f| > 0
    requires freed' <= freed + {f[0].id} + Ids(f[0].kids) && orphans <= orphans' <= orphans + {f[0].id} + Ids(f[0].kids)
    ensures Ready(s, f[1..], freed', orphans')
  {
    RootsAreIds(f[1..]);
    forall y | y in Roots(f[1..]) ensures y in orphans' || ParentStays(s, y, freed' + Ids(f[1..])) {
      assert y in Roots(f);
    }
  }

  // ----- The subtree of an inode -----

  /** The trees below the inodes of a list; ranks below n. */
  ghost function Forest(s: Store, rank: map<Id, nat>, l: seq<Id>, n: nat): seq<Tree>
    requires TreeOk(s, rank) && forall x <- l :: x in s.nodes && rank[x] < n
    decreases n, |l|
  {
    if |l| == 0 then []
    else
      var x := l[0];
      assert x in l;
      forall y | y in s.nodes[x].kids ensures y in s.nodes && rank[y] < rank[x] { assert IsKid(s, y, x); }
      [Node(x, Forest(s, rank, s.nodes[x].kids, rank[x]))] + Forest(s, rank, l[1..], n)
  }

  /** x and everything below it. */
  ghost function Sub(s: Store, rank: map<Id, nat>, x: Id): set<Id>
    requires TreeOk(s, rank) && x in s.nodes
  {
    Ids(Forest(s, rank, [x], rank[x] + 1))
  }

  ghost function KidsForest(s: Store, rank: map<Id, nat>, x: Id): seq<Tree>
    requires TreeOk(s, rank) && x in s.nodes
  {
    forall y | y in s.nodes[x].kids ensures y in s.nodes && rank[y] < rank[x] { assert IsKid(s, y, x); }
    Forest(s, rank, s.nodes[x].kids, rank[x])
  }

  lemma SubUnfold(s: Store, rank: map<Id, nat>, x: Id)
    requires TreeOk(s, rank) && x in s.nodes
    ensures Sub(s, rank, x) == {x} + Ids(KidsForest(s, rank, x))
  {
    forall y | y in s.nodes[x].kids ensures y in s.nodes && rank[y] < rank[x] { assert IsKid(s, y, x); }
    var k := KidsForest(s, rank, x);
    assert [x][1..] == [] && [x][0] == x;
    assert Forest(s, rank, [x], rank[x] + 1) == [Node(x, k)] + [];
    Cons(Node(x, k), []);
  }

  lemma {:induction false} ForestMatches(s: Store, rank: map<Id, nat>, l: seq<Id>, n: nat)
    requires TreeOk(s, rank) && forall x <- l :: x in s.nodes && rank[x] < n
    ensures var f := Forest(s, rank, l, n);
      Matches(s, f) && Roots(f) == l && forall y <- Ids(f) :: y in s.nodes && rank[y] < n
    decreases n, |l|
  {
    if |l| > 0 {
      var x := l[0];
      assert x in l;
      forall y | y in s.nodes[x].kids ensures y in s.nodes && rank[y] < rank[x] { assert IsKid(s, y, x); }
      ForestMatches(s, rank, s.nodes[x].kids, rank[x]);
      ForestMatches(s, rank, l[1..], n);
      Cons(Node(x, Forest(s, rank, s.nodes[x].kids, rank[x])), Forest(s, rank, l[1..], n));
    }
  }

  lemma SubRank(s: Store, rank: map<Id, nat>, x: Id)
    requires TreeOk(s, rank) && x in s.nodes
    ensures x in Sub(s, rank, x) && forall y <- Sub(s, rank, x) :: y in s.nodes && rank[y] <= rank[x]
  {
    ForestMatches(s, rank, [x], rank[x] + 1);
    SubUnfold(s, rank, x);
  }

  /** A forest holds exactly the subtrees of its roots. */
  lemma {:induction false} ForestIds(s: Store, rank: map<Id, nat>, l: seq<Id>, n: nat, y: Id)
    requires TreeOk(s, rank) && forall x <- l :: x in s.nodes && rank[x] < n
    ensures y in Ids(Forest(s, rank, l, n)) <==> exists c <- l :: y in Sub(s, rank, c)
    decreases |l|
  {
    if |l| > 0 {
      var x := l[0];
      assert x in l;
      ForestIds(s, rank, l[1..], n, y);
      SubUnfold(s, rank, x);
      Cons(Node(x, KidsForest(s, rank, x)), Forest(s, rank, l[1..], n));
      if c :| c in l && y in Sub(s, rank, c) { assert c == x || c in l[1..]; }
    }
  }

  lemma SubSplit(s: Store, rank: map<Id, nat>, x: Id, y: Id)
    requires TreeOk(s, rank) && x in s.nodes
    ensures forall c <- s.nodes[x].kids :: c in s.nodes && rank[c] < rank[x]
    ensures y in Sub(s, rank, x) <==> y == x || exists c <- s.nodes[x].kids :: y in Sub(s, rank, c)
  {
    forall c | c in s.nodes[x].kids ensures c in s.nodes && rank[c] < rank[x] { assert IsKid(s, c, x); }
    SubUnfold(s, rank, x);
    ForestIds(s, rank, s.nodes[x].kids, rank[x], y);
  }

  /** Every inode of a subtree but its root has its parent in the subtree. */
  lemma {:induction false} SubParent(s: Store, rank: map<Id, nat>, x: Id, y: Id)
    requires TreeOk(s, rank) && x in s.nodes && y in Sub(s, rank, x) && y != x
    ensures y in s.nodes && s.nodes[y].parent.Some? && s.nodes[y].parent.value in Sub(s, rank, x)
    decreases rank[x]
  {
    SubRank(s, rank, x);
    SubSplit(s, rank, x, y);
    var c :| c in s.nodes[x].kids && y in Sub(s, rank, c);
    assert IsKid(s, c, x);
    if y != c {
      SubParent(s, rank, c, y);
      SubSplit(s, rank, x, s.nodes[y].parent.value);
    }
  }

  /** A subtree is closed under child links. */
  lemma {:induction false} SubClosed(s: Store, rank: map<Id, nat>, x: Id, y: Id, k: Id)
    requires TreeOk(s, rank) && x in s.nodes && y in Sub(s, rank, x) && IsKid(s, k, y)
    ensures k in Sub(s, rank, x)
    decreases rank[x]
  {
    SubSplit(s, rank, x, y);
    SubSplit(s, rank, x, k);
    if y == x {
      SubRank(s, rank, k);
    } else {
      var c :| c in s.nodes[x].kids && y in Sub(s, rank, c);
      SubClosed(s, rank, c, y, k);
    }
  }

  /** The subtrees of two children of one inode have nothing in common. */
  lemma {:induction false} SiblingsApart(s: Store, rank: map<Id, nat>, p: Id, a: Id, b: Id, y: Id)
    requires TreeOk(s, rank) && IsKid(s, a, p) && IsKid(s, b, p) && a != b
    requires y in s.nodes && rank[y] <= rank[a] && y in Sub(s, rank, a)
    ensures y !in Sub(s, rank, b)
    decreases rank[a] as int - rank[y] as int
  {
    SubRank(s, rank, a);
    SubRank(s, rank, b);
    if y in Sub(s, rank, b) && y != b { SubParent(s, rank, b, y); }
    if y != a {
      SubParent(s, rank, a, y);
      var q := s.nodes[y].parent.value;
      assert IsKid(s, y, q);
      SiblingsApart(s, rank, p, a, b, q);
    }
  }

  lemma {:induction false} ForestDistinct(s: Store, rank: map<Id, nat>, p: Id, l: seq<Id>, n: nat)
    requires TreeOk(s, rank) && NoDup(l) && forall x <- l :: x in s.nodes && rank[x] < n && IsKid(s, x, p)
    ensures Distinct(Forest(s, rank, l, n))
    decreases n, |l|
  {
    if |l| > 0 {
      var x, rest := l[0], l[1..];
      assert x in l;
      var k, f := KidsForest(s, rank, x), Forest(s, rank, rest, n);
      KidsDistinct(s, rank, x);
      ForestDistinct(s, rank, p, rest, n);
      SubUnfold(s, rank, x);
      forall y | y in {x} + Ids(k) ensures y !in Ids(f) {
        ForestIds(s, rank, rest, n, y);
        SubRank(s, rank, x);
        forall c | c in rest ensures y !in Sub(s, rank, c) { SiblingsApart(s, rank, p, x, c, y); }
      }
      Cons(Node(x, k), f);
    }
  }

  lemma KidsDistinct(s: Store, rank: map<Id, nat>, x: Id)
    requires TreeOk(s, rank) && x in s.nodes
    ensures Distinct(KidsForest(s, rank, x)) && x !in Ids(KidsForest(s, rank, x))
    decreases rank[x], |s.nodes[x].kids| + 1
  {
    forall c | c in s.nodes[x].kids ensures c in s.nodes && rank[c] < rank[x] && IsKid(s, c, x) {
      assert IsKid(s, c, x);
    }
    ForestMatches(s, rank, s.nodes[x].kids, rank[x]);
    ForestDistinct(s, rank, x, s.nodes[x].kids, rank[x]);
  }

  /** The children of x form a forest that is ready to be freed. */
  lemma KidsReady(s: Store, rank: map<Id, nat>, x: Id)
    requires TreeOk(s, rank) && x in s.nodes
    ensures Ready(s, KidsForest(s, rank, x), {}, {}) && Roots(KidsForest(s, rank, x)) == s.nodes[x].kids
  {
    var f := KidsForest(s, rank, x);
    forall c | c in s.nodes[x].kids ensures c in s.nodes && rank[c] < rank[x] { assert IsKid(s, c, x); }
    ForestMatches(s, rank, s.nodes[x].kids, rank[x]);
    KidsDistinct(s, rank, x);
    forall y | y in Roots(f) ensures ParentStays(s, y, {} + Ids(f)) { assert IsKid(s, y, x); }
  }

  lemma {:induction false} BelowNotRoots(f: seq<Tree>)
    requires Distinct(f)
    ensures forall x <- Roots(f) :: x !in Below(f)
    ensures forall x <- Ids(f) :: x in Below(f) || x in Roots(f)
  {
    if |f| > 0 {
      BelowNotRoots(f[1..]);
      RootsAreIds(f[1..]);
      assert Roots(f) == [f[0].id] + Roots(f[1..]);
    }
  }

  /** Deferred subtrees are ready for the next pass. */
  lemma DeepReady(s: Store, f: seq<Tree>, n: nat, freed: set<Id>, orphans: set<Id>)
    requires Matches(s, f) && Distinct(f) && Ids(f) !! freed
    requires var d := Deep(f, n, []); Set(Roots(d)) <= orphans <= freed + Top(f, n) + Set(Roots(d))
    ensures var d := Deep(f, n, []);
      Ready(s, d, freed + Top(f, n), orphans) && Ids(d) + Top(f, n) == Ids(f) && Ids(d) !! Top(f, n)
  {
    var d := Deep(f, n, []);
    LevelsPartition(f, n, []);
    DeepMatches(s, f, n, []);
    BelowNotRoots(d);
    RootsAreIds(d);
    forall x | x in Roots(d) ensures x in orphans { assert x in Set(Roots(d)); }
  }

  function Set(l: seq<Id>): set<Id> { set x <- l }

  // ----- Forgetting keeps the store consistent -----

  lemma NotRootInSub(s: Store, rank: map<Id, nat>, x: Id)
    requires TreeOk(s, rank) && x in s.nodes && s.root.Some? && s.root.value in s.nodes && s.root != Some(x)
    ensures s.root.value !in Sub(s, rank, x)
  {
    if s.root.value in Sub(s, rank, x) { SubParent(s, rank, x, s.root.value); }
  }

  lemma CutFlat(s: Store, gone: set<Id>)
    requires FlatOk(s) && gone <= s.nodes.Keys
    ensures FlatOk(Cut(s, gone, {}))
  {
    WithoutNoDup(s.flat, gone);
    var c := Cut(s, gone, {});
    assert c.nodes.Keys == s.nodes.Keys - gone;
    assert |s.nodes.Keys - gone| == |s.nodes.Keys| - |gone|;
  }

  lemma CutHash(s: Store, gone: set<Id>)
    requires HashOk(s)
    ensures HashOk(Cut(s, gone, {}))
  {
    forall b | 0 <= b < |s.hash| ensures NoDup(Without(s.hash[b], gone)) { WithoutNoDup(s.hash[b], gone); }
  }

  lemma CutTree(s: Store, rank: map<Id, nat>, gone: set<Id>)
    requires TreeOk(s, rank) && (s.root.Some? ==> s.root.value !in gone)
    requires forall p, c :: IsKid(s, c, p) && p in gone ==> c in gone
    ensures TreeOk(Cut(s, gone, {}), rank)
  {
    var t := Cut(s, gone, {});
    assert gone + {} == gone;
    forall p | p in t.nodes ensures NoDup(t.nodes[p].kids) { WithoutNoDup(s.nodes[p].kids, gone); }
    forall p, c | IsKid(t, c, p) ensures c in t.nodes && t.nodes[c].parent == Some(p) && rank[c] < rank[p] {
      assert IsKid(s, c, p);
    }
    forall c | c in t.nodes && t.nodes[c].parent.Some? ensures IsKid(t, c, t.nodes[c].parent.value) {
      assert IsKid(s, c, s.nodes[c].parent.value);
    }
  }

  lemma CutNumbers(s: Store, gone: set<Id>)
    requires NumbersOk(s) && s.root.value !in gone
    ensures NumbersOk(Cut(s, gone, {}))
  {
  }

  /** Forgetting an inode other than the root keeps every list, the count and the tree consistent. */
  lemma ForgetKeepsInv(s: Store, rank: map<Id, nat>, x: Id)
    requires Inv(s, rank) && x in s.nodes && s.root != Some(x)
    ensures Inv(Cut(s, Sub(s, rank, x), {}), rank)
  {
    var gone := Sub(s, rank, x);
    SubRank(s, rank, x);
    NotRootInSub(s, rank, x);
    SubClosedAll(s, rank, x);
    CutFlat(s, gone);
    CutHash(s, gone);
    CutNumbers(s, gone);
    CutTree(s, rank, gone);
  }

  lemma SubClosedAll(s: Store, rank: map<Id, nat>, x: Id)
    requires TreeOk(s, rank) && x in s.nodes
    ensures forall p, c :: IsKid(s, c, p) && p in Sub(s, rank, x) ==> c in Sub(s, rank, x)
  {
    forall p, c | IsKid(s, c, p) && p in Sub(s, rank, x) ensures c in Sub(s, rank, x) { SubClosed(s, rank, x, p, c); }
  }

  /** Exactly the root must not be forgotten: the mount would keep a pointer to a freed inode. */
  lemma ForgetSafeIff(s: Store, rank: map<Id, nat>, x: Id)
    requires Inv(s, rank) && x in s.nodes
    ensures s.root != Some(x) <==> exists r: map<Id, nat> :: Inv(Cut(s, Sub(s, rank, x), {}), r)
  {
    SubRank(s, rank, x);
    if s.root != Some(x) { ForgetKeepsInv(s, rank, x); }
  }

  // ----- The worklist loop -----

  /** Between passes: what is left of the subtree `all` is the deferred forest g, and the rest has been freed. */
  ghost predicate Between(s: Store, all: set<Id>, g: seq<Tree>, freed: set<Id>, orphans: set<Id>, work: seq<Id>) {
    work == Roots(g) && Ready(s, g, freed, orphans) && freed + Ids(g) == all && orphans <= freed + Set(work)
  }

  lemma {:induction false} RootsInTop(f: seq<Tree>, n: nat)
    requires n > 0
    ensures Set(Roots(f)) <= Top(f, n)
  {
    if |f| > 0 {
      RootsInTop(f[1..], n);
      SetCons(f[0].id, Roots(f[1..]));
    }
  }

  /** A pass leaves a smaller forest to the next one. */
  lemma NextPass(s: Store, all: set<Id>, g: seq<Tree>, freed: set<Id>, orphans: set<Id>,
                 work: seq<Id>)
    requires Between(s, all, g, freed, orphans, work)
    ensures var d := Deep(g, 6, []);
      Between(s, all, d, freed + Top(g, 6), orphans + Set(Roots(d)), Roots(d)) && (|g| > 0 ==> Ids(d) < Ids(g))
  {
    var d := Deep(g, 6, []);
    RootsInTop(g, 6);
    DeepReady(s, g, 6, freed, orphans + Set(Roots(d)));
    if |g| > 0 { assert g[0].id in Top(g, 6); }
  }

  /** Nothing in the subtree of x below x is the parent of x, so x can be freed after its children. */
  lemma SelfLive(s: Store, rank: map<Id, nat>, x: Id, freed: set<Id>, orphans: set<Id>)
    requires TreeOk(s, rank) && x in s.nodes && freed <= Ids(KidsForest(s, rank, x))
    ensures x !in freed && Live(Cut(s, freed, orphans), x)
  {
    KidsRank(s, rank, x);
    if s.nodes[x].parent.Some? { assert IsKid(s, x, s.nodes[x].parent.value); }
  }

  lemma KidsRank(s: Store, rank: map<Id, nat>, x: Id)
    requires TreeOk(s, rank) && x in s.nodes
    ensures forall y <- Ids(KidsForest(s, rank, x)) :: y in s.nodes && rank[y] < rank[x]
  {
    forall c | c in s.nodes[x].kids ensures c in s.nodes && rank[c] < rank[x] { assert IsKid(s, c, x); }
    ForestMatches(s, rank, s.nodes[x].kids, rank[x]);
  }

  /** After the first pass x itself can be freed, and then the loop can start. */
  lemma FirstPass(s: Store, rank: map<Id, nat>, x: Id, f: seq<Tree>, freed: set<Id>,
                  orphans: set<Id>, work: seq<Id>)
    requires Inv(s, rank) && x in s.nodes && f == KidsForest(s, rank, x)
    requires freed == {} + Top(f, 6) && work == Roots(Deep(f, 6, [])) && orphans == {} + Set(work)
    ensures x !in freed && Live(Cut(s, freed, orphans), x) &&
      FreeInode(Cut(s, freed, orphans), x) == Cut(s, freed + {x}, orphans)
    ensures Between(s, Sub(s, rank, x), Deep(f, 6, []), freed + {x}, orphans, work)
  {
    assert freed == Top(f, 6) && orphans == Set(work);
    TopAreIds(f, 6);
    SelfLive(s, rank, x, freed, orphans);
    FreeInCut(s, rank, freed, orphans, x);
    KidsReady(s, rank, x);
    KidsDistinct(s, rank, x);
    SubUnfold(s, rank, x);
    StartBetween(s, x, f, orphans);
  }

  lemma StartBetween(s: Store, x: Id, f: seq<Tree>, orphans: set<Id>)
    requires Matches(s, f) && Distinct(f) && x !in Ids(f) && orphans == Set(Roots(Deep(f, 6, [])))
    ensures var d := Deep(f, 6, []); Between(s, {x} + Ids(f), d, Top(f, 6) + {x}, orphans, Roots(d))
  {
    DeepReady(s, f, 6, {x}, orphans);
    assert {x} + Top(f, 6) == Top(f, 6) + {x};
  }

  lemma CutNothing(s: Store)
    ensures Cut(s, {}, {}) == s
  {
    WithoutNone(s.flat, {});
    forall b | 0 <= b < |s.hash| ensures Without(s.hash[b], {}) == s.hash[b] { WithoutNone(s.hash[b], {}); }
    assert Cut(s, {}, {}).hash == s.hash;
    forall x | x in s.nodes ensures Cut(s, {}, {}).nodes[x] == s.nodes[x] { WithoutNone(s.nodes[x].kids, {} + {}); }
    assert Cut(s, {}, {}).nodes == s.nodes;
  }

  /** Orphans that have been freed as well leave no trace. */
  lemma CutForgetsOrphans(s: Store, freed: set<Id>, orphans: set<Id>)
    requires orphans <= freed
    ensures Cut(s, freed, orphans) == Cut(s, freed, {})
  {
    assert freed + orphans == freed == freed + {};
    var c, d := Cut(s, freed, orphans).nodes, Cut(s, freed, {}).nodes;
    forall x | x in d ensures c[x] == d[x] {}
    assert c == d;
  }

  lemma NothingLeft(s: Store, all: set<Id>, g: seq<Tree>, freed: set<Id>, orphans: set<Id>,
                    work: seq<Id>)
    requires Between(s, all, g, freed, orphans, work) && work == []
    ensures Cut(s, freed, orphans) == Cut(s, all, {})
  {
    RootsUnfold(g);
    assert Set(work) == {};
    CutForgetsOrphans(s, freed, orphans);
  }

  /** What is left to do on list g with accumulator a, plus what has been done, is what was to be done on f. */
  ghost predicate Progress(f: seq<Tree>, acc: seq<Tree>, freed: set<Id>, orphans: set<Id>, n: nat, g: seq<Tree>,
                           a: seq<Tree>,
                           freed': set<Id>, orphans': set<Id>, todo: seq<Id>, later: seq<Id>)
  {
    && todo == Roots(g) && later == Roots(a) && orphans' == orphans + Set(later)
    && Deep(g, n, a) == Deep(f, n, acc) && freed' + Top(g, n) == freed + Top(f, n)
  }

  lemma ProgressStep(f: seq<Tree>, acc: seq<Tree>, freed: set<Id>, orphans: set<Id>, n: nat,
                     g: seq<Tree>, a: seq<Tree>,
                     freed': set<Id>, orphans': set<Id>, todo: seq<Id>, later: seq<Id>)
    requires Progress(f, acc, freed, orphans, n, g, a, freed', orphans', todo, later) && |g| > 0 && n > 0
    ensures var k := g[0].kids; var d := Deep(k, n - 1, a);
      Progress(f, acc, freed, orphans, n, g[1..], d, freed' + Top(k, n - 1) + {g[0].id}, orphans' + Set(Roots(d)),
        todo[1..], Roots(d))
  {
    var k, r := Top(g[0].kids, n - 1), Top(g[1..], n);
    assert freed' + k + {g[0].id} + r == freed' + ({g[0].id} + k + r);
    DeepKeeps(g[0].kids, n - 1, a);
    var x, y := Set(Roots(a)), Set(Roots(Deep(g[0].kids, n - 1, a)));
    assert orphans + x + y == orphans + y;
  }

  lemma ProgressDefer(f: seq<Tree>, acc: seq<Tree>, freed: set<Id>, orphans: set<Id>, g: seq<Tree>,
                      a: seq<Tree>,
                      orphans': set<Id>, todo: seq<Id>, later: seq<Id>)
    requires Progress(f, acc, freed, orphans, 0, g, a, freed, orphans', todo, later) && |g| > 0
    ensures Progress(f, acc, freed, orphans, 0, g[1..], [g[0]] + a, freed, orphans' + {g[0].id}, todo[1..],
      [g[0].id] + later)
  {
    RootsUnfold(g);
    Cons(g[0], a);
    SetCons(g[0].id, later);
  }

  lemma SetCons(x: Id, l: seq<Id>)
    ensures Set([x] + l) == {x} + Set(l)
  {
    assert x in [x] + l && forall y <- l :: y in [x] + l;
  }

  lemma {:induction false} DeepKeeps(k: seq<Tree>, n: nat, a: seq<Tree>)
    ensures Set(Roots(a)) <= Set(Roots(Deep(k, n, a)))
  {
    DeepRoots(k, n, a);
  }

  lemma DeepOrphans(k: seq<Tree>, n: nat, a: seq<Tree>, orphans: set<Id>)
    requires Set(Roots(a)) <= orphans
    ensures Set(Roots(Deep(k, n, a))) <= orphans + Ids(k)
  {
    DeepRoots(k, n, a);
    forall y | y in Set(Roots(Deep(k, n, a))) ensures y in orphans + Ids(k) {
      if y in Roots(a) { assert y in Set(Roots(a)); }
    }
  }

  /** After the children of the first root: the root can be freed, and then the other trees are ready. */
  lemma DoneFirst(s: Store, rank: map<Id, nat>, g: seq<Tree>, freed: set<Id>, orphans: set<Id>,
                  top: set<Id>, deep: set<Id>)
    requires TreeOk(s, rank) && Ready(s, g, freed, orphans) && |g| > 0
    requires top <= Ids(g[0].kids) && deep <= orphans + Ids(g[0].kids)
    ensures g[0].id !in freed + top && Live(Cut(s, freed + top, orphans + deep), g[0].id)
    ensures Ready(s, g[1..], freed + top + {g[0].id}, orphans + deep)
  {
    var x := g[0].id;
    ReadyRest(s, g, freed, orphans, freed + top + {x}, orphans + deep);
    assert x in Roots(g);
    RootLive(s, rank, g, freed + top, orphans + deep, freed + Ids(g));
  }

  lemma RootLive(s: Store, rank: map<Id, nat>, g: seq<Tree>, freed: set<Id>, orphans: set<Id>,
                 gone: set<Id>)
    requires TreeOk(s, rank) && |g| > 0 && g[0].id in s.nodes && g[0].id !in freed && freed <= gone
    requires g[0].id in orphans || ParentStays(s, g[0].id, gone)
    ensures Live(Cut(s, freed, orphans), g[0].id)
  {
    var x := g[0].id;
    if x !in orphans && s.nodes[x].parent.Some? { assert IsKid(s, x, s.nodes[x].parent.value); }
  }
}
