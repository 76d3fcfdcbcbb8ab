/** kernel/filesystem.c: the inode store in place. The ghost parameters carry the snapshot of the store
    against which a method is specified. */
module Cofs {
  import opened Bytes
  import opened InodeStore
  import opened InodeOps

  class Filesystem {
    var nodes: map<Id, Inode>
    var flat: seq<Id>
    var hash: seq<seq<Id>>
    var root: Option<Id>
    var inodesCount: int
    var nextInodeNum: int

    function View(): Store
      reads this
    {
      Store(nodes, flat, hash, root, inodesCount, nextInodeNum)
    }

    /** free_inode. */
    method Free(x: Id)
      requires Live(View(), x) && |hash| == HASH_SIZE
      modifies this
      ensures View() == FreeInode(old(View()), x)
    {
      var n := nodes[x];
      var b := n.number % HASH_SIZE;
      flat := Without(flat, {x});
      hash := hash[b := Without(hash[b], {x})];
      if n.parent.Some? {
        var p := n.parent.value;
        nodes := nodes[p := nodes[p].(kids := Without(nodes[p].kids, {x}))];
      }
      nodes := nodes - {x};
      inodesCount := inodesCount - 1;
    }

    /** co_list_del(&x->node), parent = NULL. */
    method Defer(x: Id)
      requires Live(View(), x)
      modifies this
      ensures View() == Orphan(old(View()), x)
    {
      if nodes[x].parent.Some? {
        var p := nodes[x].parent.value;
        nodes := nodes[p := nodes[p].(kids := Without(nodes[p].kids, {x}))];
      }
      nodes := nodes[x := nodes[x].(parent := None)];
    }

    /** free_inode_children: on levels 0 to 5 free the inodes of the list after their children; on level 6 move
        them to the front of `later` instead. The recursion goes no deeper than level 6. */
    method FreeChildren(list: seq<Id>, level: nat, later: seq<Id>,
                        ghost n: nat, ghost s: Store, ghost rank: map<Id, nat>, ghost f: seq<Tree>,
                        ghost acc: seq<Tree>,
                        ghost freed: set<Id>, ghost orphans: set<Id>)
      returns (later': seq<Id>, ghost freed': set<Id>, ghost orphans': set<Id>)
      requires Inv(s, rank) && View() == Cut(s, freed, orphans) && level <= 6 && n == 6 - level
      requires list == Roots(f) && later == Roots(acc) && Set(later) <= orphans && Ready(s, f, freed, orphans)
      modifies this
      ensures View() == Cut(s, freed', orphans')
      ensures later' == Roots(Deep(f, n, acc)) && freed' == freed + Top(f, n)
      ensures orphans' == orphans + Set(later')
      decreases 6 - level, 2
    {
      if level > 5 {
        later', orphans' := DeferAll(list, later, s, rank, f, acc, freed, orphans);
        freed' := freed;
      } else {
        later', freed', orphans' := FreeAll(list, level, later, n, s, rank, f, acc, freed, orphans);
      }
    }

    /** free_inode_with_children: the two worklists take turns until one pass defers nothing. Every inode of the
        subtree is freed, once, and no other; nothing of the deferring remains. */
    method Forget(x: Id, ghost rank: map<Id, nat>)
      requires Inv(View(), rank) && x in nodes
      modifies this
      ensures View() == Cut(old(View()), Sub(old(View()), rank, x), {})
    {
      ghost var s, all := View(), Sub(View(), rank, x);
      var toDelete;
      ghost var freed, orphans, g;
      toDelete, freed, orphans, g := FirstRound(x, s, rank);
      while |toDelete| > 0
        invariant Between(s, all, g, freed, orphans, toDelete) && View() == Cut(s, freed, orphans)
        decreases Ids(g)
      {
        var toDeleteNext;
        toDeleteNext, freed, orphans, g := Pass(toDelete, s, rank, all, g, freed, orphans);
        if |toDeleteNext| == 0 {
          toDelete := toDeleteNext;
          break;
        }
        toDelete, freed, orphans, g := Pass(toDeleteNext, s, rank, all, g, freed, orphans);
      }
      NothingLeft(s, all, g, freed, orphans, toDelete);
    }

    /** The children, then the inode itself. */
    method FirstRound(x: Id, ghost s: Store, ghost rank: map<Id, nat>)
      returns (work: seq<Id>, ghost freed: set<Id>, ghost orphans: set<Id>, ghost g: seq<Tree>)
      requires Inv(s, rank) && View() == s && x in s.nodes
      modifies this
      ensures Between(s, Sub(s, rank, x), g, freed, orphans, work) && View() == Cut(s, freed, orphans)
    {
      ghost var f := KidsForest(s, rank, x);
      KidsReady(s, rank, x);
      CutNothing(s);
      work, freed, orphans := FreeChildren(nodes[x].kids, 0, [], 6, s, rank, f, [], {}, {});
      FirstPass(s, rank, x, f, freed, orphans, work);
      Free(x);
      freed, g := freed + {x}, Deep(f, 6, []);
    }

    /** One pass over a worklist. */
    method Pass(work: seq<Id>, ghost s: Store, ghost rank: map<Id, nat>, ghost all: set<Id>, ghost g: seq<Tree>,
                ghost freed: set<Id>, ghost orphans: set<Id>)
      returns (work': seq<Id>, ghost freed': set<Id>, ghost orphans': set<Id>, ghost g': seq<Tree>)
      requires Inv(s, rank) && Between(s, all, g, freed, orphans, work) && |work| > 0 &&
        View() == Cut(s, freed, orphans)
      modifies this
      ensures Between(s, all, g', freed', orphans', work') && View() == Cut(s, freed', orphans') && Ids(g') < Ids(g)
    {
      RootsUnfold(g);
      NextPass(s, all, g, freed, orphans, work);
      work', freed', orphans' := FreeChildren(work, 0, [], 6, s, rank, g, [], freed, orphans);
      g' := Deep(g, 6, []);
    }

    /** The loop on level 6. */
    method DeferAll(list: seq<Id>, later: seq<Id>, ghost s: Store, ghost rank: map<Id, nat>,
                    ghost f: seq<Tree>, ghost acc: seq<Tree>, ghost freed: set<Id>, ghost orphans: set<Id>)
      returns (later': seq<Id>, ghost orphans': set<Id>)
      requires Inv(s, rank) && View() == Cut(s, freed, orphans)
      requires list == Roots(f) && later == Roots(acc) && Set(later) <= orphans && Ready(s, f, freed, orphans)
      modifies this
      ensures View() == Cut(s, freed, orphans') && later' == Roots(Deep(f, 0, acc)) && orphans' == orphans + Set(later')
    {
      later', orphans' := later, orphans;
      var todo := list;
      ghost var g, a := f, acc;
      while |todo| > 0
        invariant Ready(s, g, freed, orphans') && View() == Cut(s, freed, orphans')
        invariant Progress(f, acc, freed, orphans, 0, g, a, freed, orphans', todo, later')
        decreases |todo|
      {
        RootsUnfold(g);
        ProgressDefer(f, acc, freed, orphans, g, a, orphans', todo, later');
        later', orphans' := DeferOne(todo[0], later', s, rank, g, a, freed, orphans');
        todo, g, a := todo[1..], g[1..], [g[0]] + a;
      }
      RootsUnfold(g);
    }

    /** The loop on the other levels. */
    method FreeAll(list: seq<Id>, level: nat, later: seq<Id>, ghost n: nat, ghost s: Store, ghost rank: map<Id, nat>,
                   ghost f: seq<Tree>, ghost acc: seq<Tree>, ghost freed: set<Id>, ghost orphans: set<Id>)
      returns (later': seq<Id>, ghost freed': set<Id>, ghost orphans': set<Id>)
      requires Inv(s, rank) && View() == Cut(s, freed, orphans) && level <= 5 && n == 6 - level
      requires list == Roots(f) && later == Roots(acc) && Set(later) <= orphans && Ready(s, f, freed, orphans)
      modifies this
      ensures View() == Cut(s, freed', orphans')
      ensures later' == Roots(Deep(f, n, acc)) && freed' == freed + Top(f, n) && orphans' == orphans + Set(later')
      decreases 6 - level, 1
    {
      later', freed', orphans' := later, freed, orphans;
      var todo := list;
      ghost var g, a := f, acc;
      while |todo| > 0
        invariant Ready(s, g, freed', orphans') && View() == Cut(s, freed', orphans')
        invariant Progress(f, acc, freed, orphans, n, g, a, freed', orphans', todo, later')
        decreases |todo|
      {
        RootsUnfold(g);
        ProgressStep(f, acc, freed, orphans, n, g, a, freed', orphans', todo, later');
        later', freed', orphans' := FreeOne(todo[0], level, later', n, s, rank, g, a, freed', orphans');
        todo, g, a := todo[1..], g[1..], Deep(g[0].kids, n - 1, a);
      }
      RootsUnfold(g);
    }

    /** One inode of the list on level 6. */
    method DeferOne(x: Id, later: seq<Id>, ghost s: Store, ghost rank: map<Id, nat>, ghost g: seq<Tree>,
                    ghost a: seq<Tree>,
                    ghost freed: set<Id>, ghost orphans: set<Id>)
      returns (later': seq<Id>, ghost orphans': set<Id>)
      requires Inv(s, rank) && View() == Cut(s, freed, orphans) && |g| > 0 && x == g[0].id && later == Roots(a)
      requires Ready(s, g, freed, orphans)
      modifies this
      ensures View() == Cut(s, freed, orphans') && later' == [x] + later && orphans' == orphans + {x}
      ensures later' == Roots([g[0]] + a) && Ready(s, g[1..], freed, orphans')
    {
      KidsIntact(s, rank, g, freed, orphans);
      OrphanInCut(s, rank, freed, orphans, x);
      Defer(x);
      Cons(g[0], a);
      ReadyRest(s, g, freed, orphans, freed, orphans + {x});
      later', orphans' := [x] + later, orphans + {x};
    }

    /** One inode of the list on a lower level. */
    method FreeOne(x: Id, level: nat, later: seq<Id>, ghost n: nat,
                   ghost s: Store, ghost rank: map<Id, nat>, ghost g: seq<Tree>, ghost a: seq<Tree>,
                   ghost freed: set<Id>, ghost orphans: set<Id>)
      returns (later': seq<Id>, ghost freed': set<Id>, ghost orphans': set<Id>)
      requires Inv(s, rank) && View() == Cut(s, freed, orphans) && level <= 5 && n == 6 - level && |g| > 0 &&
        x == g[0].id
      requires later == Roots(a) && Set(later) <= orphans && Ready(s, g, freed, orphans)
      modifies this
      ensures View() == Cut(s, freed', orphans') && freed' == freed + Top(g[0].kids, n - 1) + {x}
      ensures later' == Roots(Deep(g[0].kids, n - 1, a)) && orphans' == orphans + Set(later')
      ensures Ready(s, g[1..], freed', orphans')
      decreases 6 - level, 0
    {
      KidsIntact(s, rank, g, freed, orphans);
      ReadyKids(s, rank, g, freed, orphans);
      later', freed', orphans' :=
        FreeChildren(nodes[x].kids, level + 1, later, n - 1, s, rank, g[0].kids, a, freed, orphans);
      TopAreIds(g[0].kids, n - 1);
      DeepOrphans(g[0].kids, n - 1, a, orphans);
      DoneFirst(s, rank, g, freed, orphans, Top(g[0].kids, n - 1), Set(later'));
      FreeInCut(s, rank, freed', orphans', x);
      Free(x);
      freed' := freed' + {x};
    }

    // ----- Lookup, creation, renaming -----

    /** ino_num_to_inode. */
    method NumToInode(ino: nat) returns (r: Option<Id>)
      requires |hash| == HASH_SIZE && forall x <- hash[Bucket(ino)] :: x in nodes
      ensures r == ByNumber(View(), ino)
    {
      if ino == 1 {
        return root;
      }
      var l, i := hash[ino % HASH_SIZE], 0;
      while i < |l|
        invariant i <= |l| && FindNumber(View(), l, ino) == FindNumber(View(), l[i..], ino)
      {
        if nodes[l[i]].number == ino {
          return Some(l[i]);
        }
        i := i + 1;
      }
      r := None;
    }

    /** find_inode. */
    method FindInode(dir: Id, name: string) returns (r: Option<Id>)
      requires dir in nodes && forall x <- nodes[dir].kids :: x in nodes
      ensures r == FindName(View(), nodes[dir].kids, name)
    {
      var l, i := nodes[dir].kids, 0;
      while i < |l|
        invariant i <= |l| && FindName(View(), l, name) == FindName(View(), l[i..], name)
      {
        if nodes[l[i]].name == name {
          return Some(l[i]);
        }
        i := i + 1;
      }
      r := None;
    }

    /** The number-picking loop of alloc_inode: it stops, at the first number from next_inode_num on that no
        inode carries. */
    method PickNumber() returns (number: nat)
      requires HashOk(View()) && 0 <= nextInodeNum &&
        (root.Some? ==> root.value in nodes && nodes[root.value].number == 1)
      modifies this`nextInodeNum
      ensures FirstFree(old(View()), old(nextInodeNum), number) && nextInodeNum == number + 1
    {
      ghost var s := View();
      var hit;
      number, hit := TryNumber(s);
      while hit.Some?
        invariant old(nextInodeNum) <= number && nextInodeNum == number + 1
        invariant View() == s.(next := nextInodeNum) && hit == ByNumber(s, number)
        invariant forall n: nat :: old(nextInodeNum) <= n < number ==> ByNumber(s, n).Some?
        decreases UsedFrom(s, number)
      {
        assert hit.value in UsedFrom(s, number) && hit.value !in UsedFrom(s, number + 1);
        number, hit := TryNumber(s);
      }
    }

    /** One round of the loop. */
    method TryNumber(ghost s: Store) returns (number: nat, hit: Option<Id>)
      requires HashOk(s) && View() == s.(next := nextInodeNum) && 0 <= nextInodeNum
      requires root.Some? ==> root.value in nodes && nodes[root.value].number == 1
      modifies this`nextInodeNum
      ensures number == old(nextInodeNum) && nextInodeNum == number + 1
      ensures (forall x <- s.hash[Bucket(number)] :: x in s.nodes) && hit == ByNumber(s, number)
    {
      number := nextInodeNum;
      nextInodeNum := nextInodeNum + 1;
      SameLookup(s, View(), number);
      hit := NumToInode(number);
    }

    /** alloc_inode below a parent, at a fresh address. */
    method AllocInode(x: Id, parent: Id, name: string, ghost rank: map<Id, nat>)
      requires Inv(View(), rank) && x !in nodes && parent in nodes
      modifies this
      ensures View() == Add(old(View()), x, Some(parent), name)
    {
      ghost var s := View();
      NextIsFree(s, rank);
      var number := PickNumber();
      PickedNext(s, number);
      Link(x, number, parent, name);
    }

    /** The rest of alloc_inode. */
    method Link(x: Id, number: nat, parent: Id, name: string)
      requires parent in nodes && |hash| == HASH_SIZE && number + 1 == nextInodeNum
      modifies this
      ensures View() == Add(old(View()).(next := number), x, Some(parent), name)
    {
      nodes := nodes[parent := nodes[parent].(kids := nodes[parent].kids + [x])];
      nodes := nodes[x := Inode(number, name, Some(parent), [])];
      flat := flat + [x];
      hash := hash[number % HASH_SIZE := hash[number % HASH_SIZE] + [x]];
      inodesCount := inodesCount + 1;
    }

    /** inode_lookup and inode_mknod once the host has said yes: the named child is found, or made. */
    method Lookup(dir: Id, name: string, x: Id, ghost rank: map<Id, nat>) returns (ino: int)
      requires Inv(View(), rank) && dir in nodes && x !in nodes
      modifies this
      ensures View() == Entered(old(View()), rank, dir, name, x)
      ensures exists y <- nodes :: nodes[y].number == ino && nodes[y].name == name && y in nodes[dir].kids
    {
      KidsAreNodes(View(), rank, dir);
      var inode := FindInode(dir, name);
      match inode
      case Some(y) => ino := nodes[y].number;
      case None =>
        AllocInode(x, dir, name, rank);
        ino := nodes[x].number;
        assert x in nodes[dir].kids;
    }

    /** inode_rename once the host has said yes. */
    method Rename(dir: Id, newDir: Id, oldName: string, newName: string, ghost rank: map<Id, nat>)
      requires Inv(View(), rank) && dir in nodes && newDir in nodes
      modifies this
      ensures View() == Renamed(old(View()), rank, dir, newDir, oldName, newName)
    {
      KidsAreNodes(View(), rank, dir);
      var inode := FindInode(dir, oldName);
      if inode.Some? {
        Reparent(inode.value, newDir, newName);
      }
    }

    /** reparent_inode, and the new name. */
    method Reparent(y: Id, newDir: Id, name: string)
      requires Live(View(), y) && newDir in nodes
      modifies this
      ensures View() == Move(old(View()), y, newDir, name)
    {
      if nodes[y].parent.Some? {   // co_list_del(&node->node)
        var p := nodes[y].parent.value;
        nodes := nodes[p := nodes[p].(kids := Without(nodes[p].kids, {y}))];
      }
      nodes := nodes[newDir := nodes[newDir].(kids := [y] + nodes[newDir].kids)];
      nodes := nodes[y := nodes[y].(parent := Some(newDir), name := name)];
    }
  }

  /** The inodes whose number is at least n. */
  ghost function UsedFrom(s: Store, n: int): set<Id> { set x <- s.nodes | s.nodes[x].number >= n }

  lemma {:induction false} SameFind(s: Store, t: Store, l: seq<Id>, ino: int)
    requires s.nodes == t.nodes && forall x <- l :: x in s.nodes
    ensures FindNumber(s, l, ino) == FindNumber(t, l, ino)
  {
    if |l| > 0 { SameFind(s, t, l[1..], ino); }
  }

  /** The next number to be handed out plays no part in lookups. */
  lemma SameLookup(s: Store, t: Store, ino: nat)
    requires HashOk(s) && t == s.(next := t.next)
    ensures HashOk(t) && (forall x <- s.hash[Bucket(ino)] :: x in s.nodes) && ByNumber(s, ino) == ByNumber(t, ino)
  {
    SameFind(s, t, s.hash[Bucket(ino)], ino);
  }

  /** In a consistent store the first number tried is free. */
  lemma NextIsFree(s: Store, rank: map<Id, nat>)
    requires Inv(s, rank)
    ensures s.next >= 0 && (forall x <- s.hash[Bucket(s.next)] :: x in s.nodes) && ByNumber(s, s.next) == None
  {
    HashAgreesWithScan(s, s.next);
  }

  /** n is the first number from `from` on that no inode carries. */
  ghost predicate FirstFree(s: Store, from: int, n: nat) {
    HashOk(s) && from <= n && ByNumber(s, n) == None && forall m: nat :: from <= m < n ==> ByNumber(s, m).Some?
  }

  lemma PickedNext(s: Store, number: nat)
    requires 0 <= s.next && FirstFree(s, s.next, number) && ByNumber(s, s.next) == None
    ensures number == s.next
  {
  }
}
