/** kernel/filesystem.c: lookup by number, creation and renaming of inodes, and whole runs. */
module InodeOps {
  import opened Bytes
  import opened InodeStore

  // ----- ino_num_to_inode and find_inode -----

  /** First inode on a list with a given number. */
  function FindNumber(s: Store, l: seq<Id>, ino: int): (r: Option<Id>)
    requires forall x <- l :: x in s.nodes
    ensures r.Some? ==> r.value in l && s.nodes[r.value].number == ino
    ensures r.None? ==> forall x <- l :: s.nodes[x].number != ino
  {
    if |l| == 0 then None
    else if s.nodes[l[0]].number == ino then Some(l[0])
    else FindNumber(s, l[1..], ino)
  }

  /** ino_num_to_inode: the root for 1, otherwise a walk along one hash chain. */
  function ByNumber(s: Store, ino: nat): Option<Id>
    requires |s.hash| == HASH_SIZE && forall x <- s.hash[Bucket(ino)] :: x in s.nodes
  {
    if ino == 1 then s.root else FindNumber(s, s.hash[Bucket(ino)], ino)
  }

  /** The hash lookup finds what a scan of the flat list finds. */
  lemma HashAgreesWithScan(s: Store, ino: nat)
    requires FlatOk(s) && HashOk(s) && NumbersOk(s)
    ensures (forall x <- s.hash[Bucket(ino)] :: x in s.nodes) && (forall x <- s.flat :: x in s.nodes)
    ensures ByNumber(s, ino) == FindNumber(s, s.flat, ino)
  {
    var h, f := ByNumber(s, ino), FindNumber(s, s.flat, ino);
    if h.Some? { assert h.value in s.flat; }
    if f.Some? { assert f.value in s.hash[Bucket(s.nodes[f.value].number)]; }
  }

  /** First child with a given name. */
  function FindName(s: Store, l: seq<Id>, name: string): (r: Option<Id>)
    requires forall x <- l :: x in s.nodes
    ensures r.Some? ==> r.value in l && s.nodes[r.value].name == name
  {
    if |l| == 0 then None
    else if s.nodes[l[0]].name == name then Some(l[0])
    else FindName(s, l[1..], name)
  }

  // ----- alloc_inode -----

  /** alloc_inode once the address x has been obtained: number it, and link it at the end of its three lists. */
  function Add(s: Store, x: Id, parent: Option<Id>, name: string): Store
    requires |s.hash| == HASH_SIZE && (parent.Some? ==> parent.value in s.nodes)
  {
    var b := Bucket(s.next);
    var nodes := match parent
      case None => s.nodes
      case Some(p) => s.nodes[p := s.nodes[p].(kids := s.nodes[p].kids + [x])];
    s.(nodes := nodes[x := Inode(s.next, name, parent, [])], flat := s.flat + [x],
       hash := s.hash[b := s.hash[b] + [x]], count := s.count + 1, next := s.next + 1)
  }

  /** Ranks with room for a new leaf. */
  function Lift(rank: map<Id, nat>, x: Id): map<Id, nat> {
    map y <- rank.Keys + {x} :: if y == x then 0 else rank[y] + 1
  }

  lemma NoDupSnoc(l: seq<Id>, x: Id)
    requires NoDup(l) && x !in l
    ensures NoDup(l + [x])
  {
  }

  lemma AddHash(s: Store, x: Id, p: Id, name: string)
    requires HashOk(s) && x !in s.nodes && p in s.nodes
    ensures HashOk(Add(s, x, Some(p), name))
  {
    var t, b := Add(s, x, Some(p), name), Bucket(s.next);
    NoDupSnoc(s.hash[b], x);
    forall c, y | 0 <= c < |t.hash| ensures y in t.hash[c] <==> y in t.nodes && Bucket(t.nodes[y].number) == c {
      if c == b { assert y in t.hash[c] <==> y in s.hash[c] || y == x; } else { assert t.hash[c] == s.hash[c]; }
    }
  }

  lemma AddKids(s: Store, rank: map<Id, nat>, x: Id, p: Id, name: string, y: Id)
    requires TreeOk(s, rank) && x !in s.nodes && p in s.nodes && |s.hash| == HASH_SIZE && y in s.nodes
    ensures var t := Add(s, x, Some(p), name);
      && y in t.nodes && NoDup(t.nodes[y].kids) && t.nodes[y].parent == s.nodes[y].parent
      && (forall c :: IsKid(t, c, y) <==> IsKid(s, c, y) || (c == x && y == p))
  {
    if x in s.nodes[p].kids { assert IsKid(s, x, p); }
    if y == p { NoDupSnoc(s.nodes[p].kids, x); }
  }

  lemma AddTree(s: Store, rank: map<Id, nat>, x: Id, p: Id, name: string)
    requires TreeOk(s, rank) && x !in s.nodes && p in s.nodes && |s.hash| == HASH_SIZE && s.root != Some(x)
    ensures TreeOk(Add(s, x, Some(p), name), Lift(rank, x))
  {
    var t, r := Add(s, x, Some(p), name), Lift(rank, x);
    forall y | y in t.nodes ensures NoDup(t.nodes[y].kids) && (t.nodes[y].parent.None? <==> t.root == Some(y)) {
      if y != x { AddKids(s, rank, x, p, name, y); }
    }
    forall q, c | IsKid(t, c, q) ensures c in t.nodes && t.nodes[c].parent == Some(q) && r[c] < r[q] {
      AddKids(s, rank, x, p, name, q);
      if c != x { AddKids(s, rank, x, p, name, c); }
    }
    forall c | c in t.nodes && t.nodes[c].parent.Some? ensures IsKid(t, c, t.nodes[c].parent.value) {
      if c != x { AddKids(s, rank, x, p, name, c); }
      AddKids(s, rank, x, p, name, t.nodes[c].parent.value);
    }
  }

  lemma AddFlat(s: Store, x: Id, p: Id, name: string)
    requires FlatOk(s) && x !in s.nodes && p in s.nodes && |s.hash| == HASH_SIZE
    ensures FlatOk(Add(s, x, Some(p), name))
  {
    NoDupSnoc(s.flat, x);
    assert Add(s, x, Some(p), name).nodes.Keys == s.nodes.Keys + {x};
  }

  lemma AddNumbers(s: Store, x: Id, p: Id, name: string)
    requires NumbersOk(s) && x !in s.nodes && p in s.nodes && |s.hash| == HASH_SIZE
    ensures NumbersOk(Add(s, x, Some(p), name))
  {
    var t := Add(s, x, Some(p), name);
    forall y | y in t.nodes ensures t.nodes[y].number == if y == x then s.next else s.nodes[y].number {}
  }

  /** A new child keeps everything consistent. */
  lemma AddKeepsInv(s: Store, rank: map<Id, nat>, x: Id, p: Id, name: string)
    requires Inv(s, rank) && x !in s.nodes && p in s.nodes
    ensures Inv(Add(s, x, Some(p), name), Lift(rank, x))
  {
    AddFlat(s, x, p, name);
    AddHash(s, x, p, name);
    AddNumbers(s, x, p, name);
    AddTree(s, rank, x, p, name);
  }

  // ----- inode_rename -----

  /** reparent_inode and the new name: x leaves its parent's list and heads that of q. */
  function Move(s: Store, x: Id, q: Id, name: string): Store
    requires Live(s, x) && q in s.nodes
  {
    var nodes := Unlink(s, x);
    var nodes2 := nodes[q := nodes[q].(kids := [x] + nodes[q].kids)];
    s.(nodes := nodes2[x := nodes2[x].(parent := Some(q), name := name)])
  }

  /** Ranks that lift everything outside a moved subtree above it. */
  ghost function Raise(s: Store, rank: map<Id, nat>, x: Id): map<Id, nat>
    requires TreeOk(s, rank) && x in s.nodes
  {
    map y <- rank.Keys :: if y in Sub(s, rank, x) then rank[y] else rank[y] + rank[x] + 1
  }

  lemma MoveKids(s: Store, rank: map<Id, nat>, x: Id, q: Id, name: string, y: Id)
    requires TreeOk(s, rank) && Live(s, x) && q in s.nodes && y in s.nodes && x != q
    ensures var t := Move(s, x, q, name);
      && y in t.nodes && NoDup(t.nodes[y].kids)
      && (forall c :: IsKid(t, c, y) <==> (IsKid(s, c, y) && c != x) || (c == x && y == q))
      && t.nodes[y].parent == if y == x then Some(q) else s.nodes[y].parent
  {
    var l := s.nodes[y].kids;
    WithoutNoDup(l, {x});
    if s.nodes[x].parent != Some(y) { assert !IsKid(s, x, y); }
  }

  lemma MoveLink(s: Store, rank: map<Id, nat>, x: Id, q: Id, name: string, y: Id, c: Id)
    requires TreeOk(s, rank) && Live(s, x) && q in s.nodes && x != q && q !in Sub(s, rank, x) &&
      IsKid(Move(s, x, q, name), c, y)
    ensures var t, r := Move(s, x, q, name), Raise(s, rank, x);
      c in t.nodes && y in r && c in r && t.nodes[c].parent == Some(y) && r[c] < r[y]
  {
    SubRank(s, rank, x);
    MoveKids(s, rank, x, q, name, y);
    if c != x {
      assert IsKid(s, c, y);
      MoveKids(s, rank, x, q, name, c);
      if y in Sub(s, rank, x) { SubClosed(s, rank, x, y, c); }
      if c in Sub(s, rank, x) { SubParent(s, rank, x, c); }
    }
  }

  lemma MoveTree(s: Store, rank: map<Id, nat>, x: Id, q: Id, name: string)
    requires TreeOk(s, rank) && Live(s, x) && q in s.nodes && q !in Sub(s, rank, x) && s.root != Some(x)
    ensures TreeOk(Move(s, x, q, name), Raise(s, rank, x))
  {
    var t, r := Move(s, x, q, name), Raise(s, rank, x);
    SubRank(s, rank, x);
    forall y, c | IsKid(t, c, y) ensures c in t.nodes && t.nodes[c].parent == Some(y) && r[c] < r[y] {
      MoveLink(s, rank, x, q, name, y, c);
    }
    forall c | c in t.nodes
      ensures NoDup(t.nodes[c].kids) && (t.nodes[c].parent.None? <==> t.root == Some(c))
      ensures t.nodes[c].parent.Some? ==> IsKid(t, c, t.nodes[c].parent.value)
    {
      MoveKids(s, rank, x, q, name, c);
      if t.nodes[c].parent.Some? {
        if c != x { assert IsKid(s, c, s.nodes[c].parent.value); }
        MoveKids(s, rank, x, q, name, t.nodes[c].parent.value);
      }
    }
  }

  /** Moving an inode to a directory outside its own subtree keeps everything consistent. */
  lemma MoveKeepsInv(s: Store, rank: map<Id, nat>, x: Id, q: Id, name: string)
    requires Inv(s, rank) && Live(s, x) && q in s.nodes && q !in Sub(s, rank, x) && s.root != Some(x)
    ensures Inv(Move(s, x, q, name), Raise(s, rank, x))
  {
    MoveTree(s, rank, x, q, name);
    MoveRest(s, x, q, name);
  }

  lemma MoveRest(s: Store, x: Id, q: Id, name: string)
    requires FlatOk(s) && HashOk(s) && NumbersOk(s) && Live(s, x) && q in s.nodes
    ensures var t := Move(s, x, q, name); FlatOk(t) && HashOk(t) && NumbersOk(t)
  {
    MoveNumbers(s, x, q, name);
    SameNumbers(s, Move(s, x, q, name));
  }

  lemma MoveNumbers(s: Store, x: Id, q: Id, name: string)
    requires Live(s, x) && q in s.nodes
    ensures var t := Move(s, x, q, name);
      t.nodes.Keys == s.nodes.Keys && forall y <- s.nodes :: t.nodes[y].number == s.nodes[y].number
  {
  }

  lemma SameNumbers(s: Store, t: Store)
    requires FlatOk(s) && HashOk(s) && NumbersOk(s) && t.nodes.Keys == s.nodes.Keys
    requires t.flat == s.flat && t.hash == s.hash && t.root == s.root && t.count == s.count && t.next == s.next
    requires forall y <- s.nodes :: t.nodes[y].number == s.nodes[y].number
    ensures FlatOk(t) && HashOk(t) && NumbersOk(t)
  {
    assert |t.nodes.Keys| == |s.nodes.Keys|;
  }

  /** Ranks that fall along every child link except the one to x still fall from x to its whole subtree. */
  lemma {:induction false} RanksFallBelow(s: Store, rank: map<Id, nat>, x: Id, r: map<Id, nat>, y: Id)
    requires TreeOk(s, rank) && x in s.nodes && y in s.nodes && y in Sub(s, rank, x) && r.Keys >= s.nodes.Keys &&
      rank[y] <= rank[x]
    requires forall p, c :: IsKid(s, c, p) && c != x && c in r && p in r ==> r[c] < r[p]
    ensures r[y] <= r[x]
    decreases rank[x] as int - rank[y] as int
  {
    if y != x {
      SubParent(s, rank, x, y);
      SubRank(s, rank, x);
      var p := s.nodes[y].parent.value;
      assert IsKid(s, y, p);
      RanksFallBelow(s, rank, x, r, p);
    }
  }

  /** After the move every child link but the one to x is still there. */
  lemma LinksStay(s: Store, rank: map<Id, nat>, x: Id, q: Id, name: string)
    requires TreeOk(s, rank) && Live(s, x) && q in s.nodes && x != q
    ensures var t := Move(s, x, q, name);
      IsKid(t, x, q) && forall p, c :: IsKid(s, c, p) && c != x ==> IsKid(t, c, p)
  {
    var t := Move(s, x, q, name);
    MoveKids(s, rank, x, q, name, q);
    forall p, c | IsKid(s, c, p) && c != x ensures IsKid(t, c, p) { MoveKids(s, rank, x, q, name, p); }
  }

  lemma RanksAfter(s: Store, t: Store, x: Id, q: Id, r: map<Id, nat>)
    requires TreeOk(t, r) && t.nodes.Keys == s.nodes.Keys && IsKid(t, x, q)
    requires forall p, c :: IsKid(s, c, p) && c != x ==> IsKid(t, c, p)
    ensures r.Keys >= s.nodes.Keys && x in r && q in r && r[x] < r[q]
    ensures forall p, c :: IsKid(s, c, p) && c != x && c in r && p in r ==> r[c] < r[p]
  {
  }

  /** The move leaves a consistent store if and only if the target is outside the moved subtree, of which the moved
      inode itself is part. */
  lemma MoveSafeIff(s: Store, rank: map<Id, nat>, x: Id, q: Id, name: string)
    requires Inv(s, rank) && Live(s, x) && q in s.nodes && s.root != Some(x)
    ensures q !in Sub(s, rank, x) <==> exists r: map<Id, nat> :: Inv(Move(s, x, q, name), r)
  {
    SubRank(s, rank, x);
    if q !in Sub(s, rank, x) {
      MoveKeepsInv(s, rank, x, q, name);
    } else if r: map<Id, nat> :| TreeOk(Move(s, x, q, name), r) {
      if x == q {
        assert IsKid(Move(s, x, q, name), x, x);
      } else {
        LinksStay(s, rank, x, q, name);
        MoveNumbers(s, x, q, name);
        RanksAfter(s, Move(s, x, q, name), x, q, r);
        RanksFallBelow(s, rank, x, r, q);
      }
    }
  }

  // ----- Runs -----

  /** Requests of the guest. `x` is the address malloc returns for a new inode; an address in use stands for a
      failed allocation. Requests that the host file system refuses do nothing and are left out. */
  datatype Request =
    | Lookup(dir: nat, name: string, x: Id)               // FUSE_LOOKUP and FUSE_MKNOD
    | Rename(dir: nat, newDir: nat, old_: string, new_: string)
    | Forget(ino: nat)

  /** A fresh mount: the root alone, with number 1. */
  function Mounted(x: Id): Store {
    Add(Store(map[], [], seq(HASH_SIZE, _ => []), None, 0, 1), x, None, "").(root := Some(x))
  }

  lemma MountedInv(x: Id)
    ensures Inv(Mounted(x), map[x := 0])
  {
    var s := Mounted(x);
    forall b, y | 0 <= b < |s.hash| ensures y in s.hash[b] <==> y in s.nodes && Bucket(s.nodes[y].number) == b {}
  }

  lemma Resolve(s: Store, rank: map<Id, nat>, ino: nat)
    requires Inv(s, rank)
    ensures forall x <- s.hash[Bucket(ino)] :: x in s.nodes
    ensures ByNumber(s, ino).Some? ==> ByNumber(s, ino).value in s.nodes
  {
    HashAgreesWithScan(s, ino);
  }

  lemma KidsAreNodes(s: Store, rank: map<Id, nat>, d: Id)
    requires TreeOk(s, rank) && d in s.nodes
    ensures forall x <- s.nodes[d].kids :: Live(s, x) && s.root != Some(x)
  {
    forall x | x in s.nodes[d].kids ensures Live(s, x) && s.root != Some(x) { assert IsKid(s, x, d); }
  }

  /** The store after the entry `name` of directory d has been looked up. */
  ghost function Entered(s: Store, rank: map<Id, nat>, d: Id, name: string, x: Id): Store
    requires Inv(s, rank) && d in s.nodes
  {
    KidsAreNodes(s, rank, d);
    if FindName(s, s.nodes[d].kids, name).Some? || x in s.nodes then s else Add(s, x, Some(d), name)
  }

  /** The store after the entry old_ of directory d has become the entry new_ of directory q. */
  ghost function Renamed(s: Store, rank: map<Id, nat>, d: Id, q: Id, old_: string, new_: string): Store
    requires Inv(s, rank) && d in s.nodes && q in s.nodes
  {
    KidsAreNodes(s, rank, d);
    match FindName(s, s.nodes[d].kids, old_) case None => s case Some(x) => Move(s, x, q, new_)
  }

  // ----- What a rename does to names -----

  /** Everything about y but its children. */
  predicate SameButKids(n: Inode, m: Inode) { n.number == m.number && n.name == m.name && n.parent == m.parent }

  /** The inode moves, with its number and children, to the front of its new directory, under its new name; every other
      inode keeps name, number and parent, and its children without the moved one. */
  lemma MoveEffect(s: Store, rank: map<Id, nat>, x: Id, q: Id, name: string, y: Id)
    requires TreeOk(s, rank) && Live(s, x) && q in s.nodes && x != q && y in s.nodes && s.nodes[x].parent.Some?
    ensures var t := Move(s, x, q, name);
      && t.nodes.Keys == s.nodes.Keys
      && t.nodes[x] == Inode(s.nodes[x].number, name, Some(q), s.nodes[x].kids)
      && (y != x ==> SameButKids(t.nodes[y], s.nodes[y]))
      && (y != x ==> t.nodes[y].kids == (if y == q then [x] else []) + Without(s.nodes[y].kids, {x}))
  {
    UnlinkedAt(s, rank, x, y);
    UnlinkedAt(s, rank, x, x);
    assert IsKid(s, x, s.nodes[x].parent.value) && !IsKid(s, x, x);
    WithoutNone(s.nodes[x].kids, {x});
    Nil(Without(s.nodes[y].kids, {x}));
  }

  lemma UnlinkedAt(s: Store, rank: map<Id, nat>, x: Id, y: Id)
    requires TreeOk(s, rank) && Live(s, x) && y in s.nodes && s.nodes[x].parent.Some?
    ensures Unlink(s, x).Keys == s.nodes.Keys
    ensures Unlink(s, x)[y] == s.nodes[y].(kids := Without(s.nodes[y].kids, {x}))
  {
    assert IsKid(s, x, s.nodes[x].parent.value);
    if y != s.nodes[x].parent.value {
      assert !IsKid(s, x, y);
      WithoutNone(s.nodes[y].kids, {x});
    }
  }

  /** The inode that a name of directory y stands for. */
  function NamedIn(s: Store, y: Id, name: string): (r: Option<Id>)
    requires y in s.nodes && forall c <- s.nodes[y].kids :: c in s.nodes
  {
    FindName(s, s.nodes[y].kids, name)
  }

  /** Taking a child off a list matters to a lookup only under its name. */
  lemma {:induction false} FindWithout(s: Store, t: Store, l: seq<Id>, x: Id, name: string)
    requires (forall c <- l :: c in s.nodes && c in t.nodes && (c != x ==> t.nodes[c].name == s.nodes[c].name))
    requires x in s.nodes && s.nodes[x].name != name
    ensures forall c <- Without(l, {x}) :: c in t.nodes
    ensures FindName(t, Without(l, {x}), name) == FindName(s, l, name)
  {
    if l != [] {
      FindWithout(s, t, l[1..], x, name);
      var w := Without(l[1..], {x});
      if l[0] == x { assert [] + w == w; } else { assert ([l[0]] + w)[1..] == w; }
    }
  }

  /** After a rename the new name in the new directory stands for the inode that the old name stood for; every other
      name in every directory stands for what it stood for, but the old one in the old directory, which stands for the
      next child of that name, if there is one. */
  lemma RenameEffect(s: Store, rank: map<Id, nat>, d: Id, q: Id, old_: string, new_: string, y: Id, name: string)
    requires Inv(s, rank) && d in s.nodes && q in s.nodes && y in s.nodes
    ensures forall z <- s.nodes :: forall c <- s.nodes[z].kids :: c in s.nodes
    ensures var t := Renamed(s, rank, d, q, old_, new_);
      match NamedIn(s, d, old_)
      case None => t == s
      case Some(x) => q != x ==>
        && t.nodes.Keys == s.nodes.Keys && (forall c <- t.nodes[y].kids :: c in t.nodes)
        && t.nodes[x] == Inode(s.nodes[x].number, new_, Some(q), s.nodes[x].kids)
        && (y != x ==> SameButKids(t.nodes[y], s.nodes[y])) && t.next == s.next
        && NamedIn(t, y, name) ==
             if y == q && name == new_ then Some(x)
             else if y == d && name == old_ then FindName(s, Without(s.nodes[y].kids, {x}), name)
             else NamedIn(s, y, name)
  {
    forall z, c | z in s.nodes && c in s.nodes[z].kids ensures c in s.nodes { assert IsKid(s, c, z); }
    KidsAreNodes(s, rank, d);
    if NamedIn(s, d, old_).Some? && NamedIn(s, d, old_).value != q {
      NamesAfter(s, rank, NamedIn(s, d, old_).value, d, q, new_, y, name);
    }
  }

  lemma NamesAfter(s: Store, rank: map<Id, nat>, x: Id, d: Id, q: Id, new_: string, y: Id, name: string)
    requires TreeOk(s, rank) && Live(s, x) && d in s.nodes && q in s.nodes && y in s.nodes
    requires x in s.nodes[d].kids && x != q
    requires forall z <- s.nodes :: forall c <- s.nodes[z].kids :: c in s.nodes
    ensures var t := Move(s, x, q, new_);
      && t.nodes.Keys == s.nodes.Keys && (forall c <- t.nodes[y].kids :: c in t.nodes)
      && t.nodes[x] == Inode(s.nodes[x].number, new_, Some(q), s.nodes[x].kids)
      && (y != x ==> SameButKids(t.nodes[y], s.nodes[y]))
      && NamedIn(t, y, name) ==
           if y == q && name == new_ then Some(x)
           else if y == d && name == s.nodes[x].name then FindName(s, Without(s.nodes[y].kids, {x}), name)
           else NamedIn(s, y, name)
  {
    assert IsKid(s, x, d);
    MoveEffect(s, rank, x, q, new_, y);
    ListAfter(s, rank, x, d, q, new_, y, name);
  }

  lemma ListAfter(s: Store, rank: map<Id, nat>, x: Id, d: Id, q: Id, new_: string, y: Id, name: string)
    requires TreeOk(s, rank) && Live(s, x) && d in s.nodes && q in s.nodes && y in s.nodes && IsKid(s, x, d) && x != q
    requires forall z <- s.nodes :: forall c <- s.nodes[z].kids :: c in s.nodes
    ensures var t, l := Move(s, x, q, new_), Without(s.nodes[y].kids, {x});
      && (forall c <- t.nodes[y].kids :: c in t.nodes)
      && NamedIn(t, y, name) ==
           if y == q && name == new_ then Some(x)
           else if y == d && name == s.nodes[x].name then FindName(s, l, name)
           else NamedIn(s, y, name)
  {
    var t, l := Move(s, x, q, new_), Without(s.nodes[y].kids, {x});
    MoveEffect(s, rank, x, q, new_, y);
    forall c | c in s.nodes ensures c in t.nodes && (c != x ==> t.nodes[c].name == s.nodes[c].name) {
      MoveEffect(s, rank, x, q, new_, c);
    }
    FindSame(s, t, l, name);
    if y != d {
      assert !IsKid(s, x, y);
      WithoutNone(s.nodes[y].kids, {x});
    } else if name != s.nodes[x].name {
      FindWithout(s, t, s.nodes[y].kids, x, name);
    }
    assert ([x] + l)[1..] == l && [] + l == l;
  }

  lemma {:induction false} FindSame(s: Store, t: Store, l: seq<Id>, name: string)
    requires forall c <- l :: c in s.nodes && c in t.nodes && t.nodes[c].name == s.nodes[c].name
    ensures FindName(t, l, name) == FindName(s, l, name)
  {
    if l != [] { FindSame(s, t, l[1..], name); }
  }

  /** A child at the end of a list is found under its name unless another one comes first. */
  lemma {:induction false} FindSnoc(s: Store, t: Store, l: seq<Id>, x: Id, name: string)
    requires forall c <- l :: c in s.nodes && c in t.nodes && t.nodes[c].name == s.nodes[c].name
    requires x in t.nodes
    ensures forall c <- l + [x] :: c in t.nodes
    ensures FindName(t, l + [x], name) ==
      if FindName(s, l, name).Some? then FindName(s, l, name) else if t.nodes[x].name == name then Some(x) else None
  {
    if l == [] {
      assert l + [x] == [x] && [x][1..] == [];
    } else {
      FindSnoc(s, t, l[1..], x, name);
      assert (l + [x])[1..] == l[1..] + [x];
    }
  }

  /** After a lookup that the host has granted the name stands for an inode: the one it stood for, or else a new one
      with the next number, no children, and the directory as its parent. Every other name stands for what it stood
      for. */
  lemma LookupEffect(s: Store, rank: map<Id, nat>, d: Id, name: string, x: Id, y: Id, other: string)
    requires Inv(s, rank) && d in s.nodes && y in s.nodes && x !in s.nodes
    ensures forall z <- s.nodes :: forall c <- s.nodes[z].kids :: c in s.nodes
    ensures var t := Entered(s, rank, d, name, x);
      match NamedIn(s, d, name)
      case Some(_) => t == s
      case None =>
        && t.nodes.Keys == s.nodes.Keys + {x} && (forall c <- t.nodes[y].kids :: c in t.nodes)
        && t.nodes[x] == Inode(s.next, name, Some(d), []) && SameButKids(t.nodes[y], s.nodes[y])
        && t.next == s.next + 1
        && NamedIn(t, y, other) == if y == d && other == name then Some(x) else NamedIn(s, y, other)
  {
    forall z, c | z in s.nodes && c in s.nodes[z].kids ensures c in s.nodes { assert IsKid(s, c, z); }
    KidsAreNodes(s, rank, d);
    if NamedIn(s, d, name).None? {
      var t := Add(s, x, Some(d), name);
      if y == d {
        FindSnoc(s, t, s.nodes[d].kids, x, other);
      } else {
        FindSame(s, t, s.nodes[y].kids, other);
      }
    }
  }

  /** Of the children of what is left only the root of the forgotten subtree goes. */
  lemma LeftKids(s: Store, rank: map<Id, nat>, x: Id, y: Id)
    requires TreeOk(s, rank) && x in s.nodes && y in s.nodes && y !in Sub(s, rank, x)
    ensures var t := Cut(s, Sub(s, rank, x), {});
      && t.nodes.Keys == s.nodes.Keys - Sub(s, rank, x) && y in t.nodes && SameButKids(t.nodes[y], s.nodes[y])
      && t.nodes[y].kids == Without(s.nodes[y].kids, {x}) && forall c <- t.nodes[y].kids :: c in t.nodes
    ensures forall c <- s.nodes - Sub(s, rank, x) :: Cut(s, Sub(s, rank, x), {}).nodes[c].name == s.nodes[c].name
  {
    var l := s.nodes[y].kids;
    SubRank(s, rank, x);
    forall c | c in l ensures c in s.nodes && (c in Sub(s, rank, x) <==> c == x) {
      assert IsKid(s, c, y);
      if c in Sub(s, rank, x) && c != x { SubParent(s, rank, x, c); }
    }
    WithoutAbsent(l, Sub(s, rank, x) + {}, {x});
  }

  /** After an inode with its subtree is forgotten, its name in its directory stands for the next child of that name, if
      there is one; every other name of the directories that are left stands for what it stood for. */
  lemma ForgetEffect(s: Store, rank: map<Id, nat>, x: Id, y: Id, name: string)
    requires Inv(s, rank) && x in s.nodes && s.root != Some(x) && y in s.nodes && y !in Sub(s, rank, x)
    ensures forall z <- s.nodes :: forall c <- s.nodes[z].kids :: c in s.nodes
    ensures var t := Cut(s, Sub(s, rank, x), {});
      && y in t.nodes && SameButKids(t.nodes[y], s.nodes[y]) && (forall c <- t.nodes[y].kids :: c in t.nodes)
      && t.nodes.Keys == s.nodes.Keys - Sub(s, rank, x) && t.next == s.next && t.root == s.root
      && NamedIn(t, y, name) ==
           if s.nodes[x].parent == Some(y) && name == s.nodes[x].name then
             FindName(s, Without(s.nodes[y].kids, {x}), name)
           else NamedIn(s, y, name)
  {
    forall z, c | z in s.nodes && c in s.nodes[z].kids ensures c in s.nodes { assert IsKid(s, c, z); }
    var t, l := Cut(s, Sub(s, rank, x), {}), s.nodes[y].kids;
    LeftKids(s, rank, x, y);
    FindSame(s, t, Without(l, {x}), name);
    if s.nodes[x].parent != Some(y) {
      assert !IsKid(s, x, y);
      WithoutNone(l, {x});
    } else if name != s.nodes[x].name {
      FindWithout(s, s, l, x, name);
    }
  }

  /** One request, on a store with its ranks. A rename into the moved subtree is refused by the host; forgetting
      the root is excluded. */
  ghost function Step(s: Store, rank: map<Id, nat>, e: Request): (r: (Store, map<Id, nat>))
    requires Inv(s, rank)
    ensures Inv(r.0, r.1) && r.0.root == s.root
  {
    match e
    case Lookup(dir, name, x) =>
      Resolve(s, rank, dir);
      (match ByNumber(s, dir)
       case None => (s, rank)
       case Some(d) =>
         var t := Entered(s, rank, d, name, x);
         if t == s then (s, rank) else AddKeepsInv(s, rank, x, d, name); (t, Lift(rank, x)))
    case Rename(dir, newDir, old_, new_) =>
      Resolve(s, rank, dir);
      Resolve(s, rank, newDir);
      var d, q := ByNumber(s, dir), ByNumber(s, newDir);
      if d.None? || q.None? then (s, rank)
      else
        KidsAreNodes(s, rank, d.value);
        (match FindName(s, s.nodes[d.value].kids, old_)
         case None => (s, rank)
         case Some(x) =>
           if q.value in Sub(s, rank, x) then (s, rank)
           else
             MoveKeepsInv(s, rank, x, q.value, new_);
             (Renamed(s, rank, d.value, q.value, old_, new_), Raise(s, rank, x)))
    case Forget(ino) =>
      Resolve(s, rank, ino);
      match ByNumber(s, ino)
      case None => (s, rank)
      case Some(x) =>
        if s.root == Some(x) then (s, rank)
        else ForgetKeepsInv(s, rank, x); (Cut(s, Sub(s, rank, x), {}), rank)
  }

  ghost function Run(root: Id, es: seq<Request>): (r: (Store, map<Id, nat>))
    ensures Inv(r.0, r.1) && r.0.root == Some(root)
  {
    if |es| == 0 then MountedInv(root); (Mounted(root), map[root := 0])
    else
      var t := Run(root, es[..|es| - 1]);
      Step(t.0, t.1, es[|es| - 1])
  }

  lemma {:induction false} FlatCount(l: seq<Id>, keys: set<Id>)
    requires NoDup(l) && forall x :: x in l <==> x in keys
    ensures |l| == |keys|
  {
    if |l| > 0 {
      var t := l[1..];
      forall x ensures x in t <==> x in keys - {l[0]} { if x in t { var i :| 0 < i < |l| && l[i] == x; } }
      FlatCount(t, keys - {l[0]});
    } else {
      assert keys == {};
    }
  }

  lemma {:induction false} BoundRanks(rank: map<Id, nat>, keys: set<Id>) returns (bound: nat)
    requires keys <= rank.Keys
    ensures forall x <- keys :: rank[x] <= bound
  {
    if keys == {} {
      bound := 0;
    } else {
      var k :| k in keys;
      bound := BoundRanks(rank, keys - {k});
      if rank[k] > bound { bound := rank[k]; }
    }
  }

  /** Following parent pointers from any inode ends at the root. */
  lemma {:induction false} HangsBelowRoot(s: Store, rank: map<Id, nat>, x: Id, bound: nat)
    requires TreeOk(s, rank) && s.root.Some? && s.root.value in s.nodes && x in s.nodes && forall y <- s.nodes ::
      rank[y] <= bound
    ensures x in Sub(s, rank, s.root.value)
    decreases bound - rank[x]
  {
    if s.nodes[x].parent.None? {
      SubRank(s, rank, x);
    } else {
      var p := s.nodes[x].parent.value;
      assert IsKid(s, x, p);
      HangsBelowRoot(s, rank, p, bound);
      SubClosed(s, rank, s.root.value, p, x);
    }
  }

  lemma OneTree(s: Store, rank: map<Id, nat>)
    requires TreeOk(s, rank) && s.root.Some? && s.root.value in s.nodes
    ensures Sub(s, rank, s.root.value) == s.nodes.Keys
  {
    var bound := BoundRanks(rank, s.nodes.Keys);
    SubRank(s, rank, s.root.value);
    forall x | x in s.nodes ensures x in Sub(s, rank, s.root.value) { HangsBelowRoot(s, rank, x, bound); }
  }

  /** After any requests: inode numbers are unique, the hash finds what a scan finds, the count is exact, and
      the store is one tree in which every inode hangs below the root. */
  lemma RunConsistent(root: Id, es: seq<Request>, ino: nat)
    ensures var s := Run(root, es).0;
      && s.root == Some(root) && root in s.nodes && s.count == |s.flat|
      && (forall x, y :: x in s.nodes && y in s.nodes && s.nodes[x].number == s.nodes[y].number ==> x == y)
      && |s.hash| == HASH_SIZE && (forall x <- s.hash[Bucket(ino)] :: x in s.nodes) &&
        (forall x <- s.flat :: x in s.nodes)
      && ByNumber(s, ino) == FindNumber(s, s.flat, ino)
      && Sub(s, Run(root, es).1, root) == s.nodes.Keys
  {
    var (s, rank) := Run(root, es);
    HashAgreesWithScan(s, ino);
    FlatCount(s.flat, s.nodes.Keys);
    OneTree(s, rank);
  }
}
