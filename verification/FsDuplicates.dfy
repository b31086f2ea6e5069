/** What repeated names do.  A second item of the same name in one directory is
    listed nowhere; cleanup gets past its own asserts exactly if there is none. */
module FsDuplicates {
  import opened Options
  import opened Tree
  import opened FsModel

  // ---- Removal on the heap alone ------------------------------------------

  /** A directory is older than what names it. */
  ghost predicate Older(heap: Heap) {
    forall k :: k in heap ==> heap[k].dir < k
  }

  /** What `fsRemoveitem` asserts of the directory of `x`: it is there, it lists
      `x` under both keys, and its indexes are equally large. */
  predicate PassesAsserts(heap: Heap, x: nat)
    requires x in heap
  {
    var d := heap[x].dir;
    && d in heap && heap[d].typ.Directory?
    && |heap[d].byIno| == |heap[d].byName|
    && x in heap[d].byIno && heap[d].byIno[x] == x
    && heap[x].name in heap[d].byName && heap[d].byName[heap[x].name] == x
  }

  /** `fsRemoveitem` with purging.  The outcome is None if one of its asserts
      fires or it follows a descriptor to a freed item. */
  function TryRemove(heap: Heap, x: nat): (o: Option<Heap>)
    requires x in heap && Older(heap)
    ensures o.Some? ==> Older(o.value) && o.value.Keys <= heap.Keys
    decreases x
  {
    var it := heap[x];
    if |it.byIno| != |it.byName| then None
    else if it.byIno != map[] then Some(heap)
    else if x == ROOT_INO then
      if it.typ.Directory? && it.dir == INVALID_INO then Some(heap - {x}) else None
    else if !PassesAsserts(heap, x) then None
    else
      var heap' := Dropped(heap, x);
      if |heap'[it.dir].byIno| != |heap'[it.dir].byName| then None
      else if heap'[it.dir].byIno == map[] then TryRemove(heap', it.dir)
      else Some(heap')
  }

  /** Removing `x` with purging gets past the asserts and leaves `heap'`. */
  ghost predicate Removes(heap: Heap, x: nat, heap': Heap) {
    Older(heap) && x in heap && TryRemove(heap, x) == Some(heap')
  }

  /** The pass of `fsCleanup` over the inodes from `i` on; a descriptor below
      `used` leads to an item, freed or not. */
  function TrySweep(heap: Heap, i: nat, used: nat): (o: Option<Heap>)
    requires Older(heap)
    decreases used - i
  {
    if i >= used then Some(heap)
    else if i !in heap then None
    else
      var o := TryRemove(heap, i);
      if o.None? then None else TrySweep(o.value, i + 1, used)
  }

  lemma IndexedIsOlder(heap: Heap)
    requires Indexed(heap)
    ensures Older(heap)
  {
    forall k | k in heap ensures heap[k].dir < k {
      assert ListedOk(heap, k);
    }
  }

  /** A directory that lists something is refused. */
  lemma TryRemoveBusy(heap: Heap, x: nat)
    requires Indexed(heap) && x in heap && Children(Shape(heap), x) != {}
    ensures Removes(heap, x, heap)
  {
    IndexedIsOlder(heap);
    IndexIsChildren(heap, x);
    assert DirOk(heap, x);
  }

  /** A leaf lists nothing under either key, and its directory lists it. */
  lemma LeafPasses(heap: Heap, x: nat)
    requires Indexed(heap) && x in heap && Children(Shape(heap), x) == {}
    ensures heap[x].byIno == map[] && |heap[x].byName| == 0
    ensures if x == ROOT_INO then heap[x].typ.Directory? && heap[x].dir == INVALID_INO else PassesAsserts(heap, x)
  {
    IndexIsChildren(heap, x);
    assert DirOk(heap, x) && ListedOk(heap, x);
    if x != ROOT_INO {
      assert DirOk(heap, heap[x].dir);
    }
  }

  /** After it is gone its directory is empty exactly if it listed nothing else. */
  lemma DirectoryAfter(heap: Heap, x: nat)
    requires Indexed(heap) && x in heap && Children(Shape(heap), x) == {} && x != ROOT_INO
    ensures var heap', d := Removed(heap, x), heap[x].dir;
            && d in heap' && |heap'[d].byIno| == |heap'[d].byName|
            && (heap'[d].byIno == map[] <==> Children(Shape(heap), d) == {x})
  {
    RemovedThisDir(heap, x);
    LeafPasses(heap, x);
    IndexIsChildren(heap, heap[x].dir);
    EmptiedIff(heap[heap[x].dir], heap[x]);
  }

  /** Removing leaf `x` begins by going to `heap'`, and goes on with the
      directory if that held nothing else. */
  ghost predicate RemovesFirst(heap: Heap, x: nat, heap': Heap)
    requires x in heap
  {
    var d := heap[x].dir;
    if d in heap && Children(Shape(heap), d) == {x}
    then forall h :: Removes(heap', d, h) ==> Removes(heap, x, h)
    else Removes(heap, x, heap')
  }

  lemma TryRemoveLeaf(heap: Heap, x: nat)
    requires Indexed(heap) && x in heap && Children(Shape(heap), x) == {}
    ensures RemovesFirst(heap, x, Removed(heap, x))
  {
    IndexedIsOlder(heap);
    LeafPasses(heap, x);
    if x != ROOT_INO {
      DirectoryAfter(heap, x);
    }
  }

  lemma RemovesEnd(heap: Heap, x: nat, heap': Heap, h: Heap)
    requires x in heap && RemovesFirst(heap, x, heap')
    requires var t := Shape(heap);
             if t[x] in t && Children(t, t[x]) == {x} then Removes(heap', t[x], h) else h == heap'
    ensures Removes(heap, x, h)
  {
  }

  // ---- Heaps with orphans -------------------------------------------------

  /** The two indexes of `d` list the same items, all of which name `d`; other
      items may name it too. */
  ghost predicate LooseDir(heap: Heap, d: nat)
    requires d in heap
  {
    && |heap[d].byIno| == |heap[d].byName| && (heap[d].byIno != map[] ==> heap[d].typ.Directory?)
    && (forall k :: k in heap[d].byIno ==>
          && k in heap && heap[d].byIno[k] == k && heap[k].dir == d
          && heap[k].name in heap[d].byName && heap[d].byName[heap[k].name] == k)
    && (forall n :: n in heap[d].byName ==> heap[d].byName[n] in heap[d].byIno && heap[heap[d].byName[n]].name == n)
  }

  ghost predicate Loose(heap: Heap) {
    && HeapOk(heap) && Older(heap)
    && (ROOT_INO in heap ==> heap[ROOT_INO].dir == INVALID_INO && heap[ROOT_INO].typ.Directory?)
    && forall d {:trigger LooseDir(heap, d)} :: d in heap ==> LooseDir(heap, d)
  }

  /** The directory `k` names lists it. */
  ghost predicate Reachable(heap: Heap, k: nat)
    requires k in heap
  {
    k == ROOT_INO || (heap[k].dir in heap && k in heap[heap[k].dir].byIno)
  }

  ghost predicate NoOrphans(heap: Heap) {
    forall k {:trigger Reachable(heap, k)} :: k in heap ==> Reachable(heap, k)
  }

  lemma ReachablePasses(heap: Heap, x: nat)
    requires Loose(heap) && x in heap && x != ROOT_INO
    ensures PassesAsserts(heap, x) <==> Reachable(heap, x)
  {
    var d := heap[x].dir;
    if d in heap {
      assert LooseDir(heap, d);
    }
  }

  lemma DroppedThisDir(heap: Heap, x: nat)
    requires Loose(heap) && x in heap && x != ROOT_INO && Reachable(heap, x)
    ensures var d := heap[x].dir;
            d in Dropped(heap, x) && LooseDir(Dropped(heap, x), d)
  {
    var d := heap[x].dir;
    assert LooseDir(heap, d);
    MapDropsOne(heap[d].byIno, x);
    MapDropsOne(heap[d].byName, heap[x].name);
  }

  lemma DroppedOtherDir(heap: Heap, x: nat, e: nat)
    requires Loose(heap) && x in heap && x != ROOT_INO && Reachable(heap, x) && e in heap && e != x && e != heap[x].dir
    ensures e in Dropped(heap, x) && LooseDir(Dropped(heap, x), e)
  {
    assert LooseDir(heap, e);
  }

  lemma DroppedLoose(heap: Heap, x: nat)
    requires Loose(heap) && x in heap && x != ROOT_INO && Reachable(heap, x)
    ensures Loose(Dropped(heap, x)) && Dropped(heap, x).Keys == heap.Keys - {x}
  {
    var heap' := Dropped(heap, x);
    forall e {:trigger LooseDir(heap', e)} | e in heap' ensures LooseDir(heap', e) {
      if e == heap[x].dir {
        DroppedThisDir(heap, x);
      } else {
        DroppedOtherDir(heap, x, e);
      }
    }
  }

  /** No removal makes an orphan reachable, and removing an item that lists
      nothing makes no orphan unless there was one. */
  lemma DroppedReachable(heap: Heap, x: nat, k: nat)
    requires Loose(heap) && x in heap && x != ROOT_INO && Reachable(heap, x) && heap[x].byIno == map[]
    requires k in heap && k != x
    ensures k in Dropped(heap, x) && (Reachable(Dropped(heap, x), k) <==> Reachable(heap, k))
  {
  }

  /** What a removal at `x` that gets past the asserts leaves: younger items and
      orphans stay, orphans stay orphans, and a survivor that listed something,
      or is `x` itself, lists something. */
  ghost predicate RemovedAt(heap: Heap, heap': Heap, x: nat) {
    && Loose(heap') && heap'.Keys <= heap.Keys
    && (forall k :: k in heap && k > x ==> k in heap')
    && (forall k {:trigger Reachable(heap, k)} :: k in heap && !Reachable(heap, k) ==>
          k in heap' && !Reachable(heap', k))
    && (forall k :: k in heap' && (k == x || heap[k].byIno != map[]) ==> heap'[k].byIno != map[])
  }

  lemma RootRemoved(heap: Heap)
    requires Loose(heap) && ROOT_INO in heap && heap[ROOT_INO].byIno == map[]
    ensures RemovedAt(heap, heap - {ROOT_INO}, ROOT_INO)
    ensures NoOrphans(heap) ==> NoOrphans(heap - {ROOT_INO})
  {
    var heap' := heap - {ROOT_INO};
    forall e {:trigger LooseDir(heap', e)} | e in heap' ensures LooseDir(heap', e) {
      assert LooseDir(heap, e);
    }
    forall k {:trigger Reachable(heap, k)} {:trigger Reachable(heap', k)} | k in heap'
      ensures Reachable(heap', k) <==> Reachable(heap, k)
    {
    }
  }

  lemma DropAlone(heap: Heap, x: nat)
    requires Loose(heap) && x in heap && x != ROOT_INO && Reachable(heap, x) && heap[x].byIno == map[]
    ensures NoOrphans(heap) ==> NoOrphans(Dropped(heap, x))
    ensures Dropped(heap, x)[heap[x].dir].byIno != map[] ==> RemovedAt(heap, Dropped(heap, x), x)
  {
    var heap' := Dropped(heap, x);
    DroppedLoose(heap, x);
    forall k {:trigger Reachable(heap, k)} {:trigger Reachable(heap', k)} | k in heap'
      ensures Reachable(heap', k) <==> Reachable(heap, k)
    {
      DroppedReachable(heap, x, k);
    }
  }

  lemma DropThenPurge(heap: Heap, x: nat, heap': Heap)
    requires Loose(heap) && x in heap && x != ROOT_INO && Reachable(heap, x) && heap[x].byIno == map[]
    requires RemovedAt(Dropped(heap, x), heap', heap[x].dir)
    ensures RemovedAt(heap, heap', x)
  {
    var mid := Dropped(heap, x);
    DroppedLoose(heap, x);
    forall k {:trigger Reachable(heap, k)} | k in heap && !Reachable(heap, k)
      ensures k in heap' && !Reachable(heap', k)
    {
      DroppedReachable(heap, x, k);
    }
  }

  lemma {:induction false} RemoveKeepsOrphans(heap: Heap, x: nat)
    requires Loose(heap) && x in heap
    ensures var o := TryRemove(heap, x);
            && (o.Some? ==> RemovedAt(heap, o.value, x))
            && (NoOrphans(heap) ==> o.Some? && NoOrphans(o.value))
    decreases x
  {
    assert LooseDir(heap, x);
    if heap[x].byIno != map[] {
    } else if x == ROOT_INO {
      RootRemoved(heap);
    } else {
      ReachablePasses(heap, x);
      if Reachable(heap, x) {
        DroppedLoose(heap, x);
        DropAlone(heap, x);
        var mid, d := Dropped(heap, x), heap[x].dir;
        assert LooseDir(mid, d);
        if mid[d].byIno == map[] {
          RemoveKeepsOrphans(mid, d);
          if TryRemove(mid, d).Some? {
            DropThenPurge(heap, x, TryRemove(mid, d).value);
          }
        }
      }
    }
  }

  /** Before the turn of inode `i`: the later items are there, and every earlier
      one still there lists something. */
  ghost predicate BeforeTurn(heap: Heap, i: nat, used: nat) {
    && Loose(heap) && (forall k :: k in heap ==> k < used)
    && (forall k: nat :: i <= k < used ==> k in heap)
    && (forall k :: k in heap && k < i ==> heap[k].byIno != map[])
  }

  /** If every item lists another, which is younger, there is none. */
  lemma {:induction false} NothingListsForever(heap: Heap, used: nat, k: nat)
    requires BeforeTurn(heap, used, used) && k in heap
    ensures false
    decreases used - k
  {
    assert LooseDir(heap, k);
    var c :| c in heap[k].byIno;
    NothingListsForever(heap, used, c);
  }

  /** The pass gets to its end, with nothing left, exactly if there is no orphan. */
  lemma {:induction false} SweepPassesIff(heap: Heap, i: nat, used: nat)
    requires BeforeTurn(heap, i, used) && i <= used
    ensures TrySweep(heap, i, used) == if NoOrphans(heap) then Some(map[]) else None
    decreases used - i
  {
    if i == used {
      if k :| k in heap {
        NothingListsForever(heap, used, k);
      }
    } else {
      RemoveKeepsOrphans(heap, i);
      var o := TryRemove(heap, i);
      if o.Some? {
        if !NoOrphans(heap) {
          var k {:trigger Reachable(heap, k)} :| k in heap && !Reachable(heap, k);
          assert !Reachable(o.value, k);
        }
        SweepPassesIff(o.value, i + 1, used);
      }
    }
  }

  // ---- Creations ----------------------------------------------------------

  /** Some item of its directory is listed under its name. */
  ghost predicate NameTaken(heap: Heap, k: nat)
    requires k in heap
  {
    k == ROOT_INO || (heap[k].dir in heap && heap[k].name in heap[heap[k].dir].byName)
  }

  ghost predicate NamesTaken(heap: Heap) {
    forall k {:trigger NameTaken(heap, k)} :: k in heap ==> NameTaken(heap, k)
  }

  lemma AddedLooseThis(heap: Heap, x: Item)
    requires Loose(heap) && Addable(heap, x)
    ensures LooseDir(Added(heap, x), x.dir)
  {
    assert LooseDir(heap, x.dir);
    var heap', d := Added(heap, x), x.dir;
    assert x.ino !in heap[d].byIno;
    forall k | k in heap'[d].byIno
      ensures k in heap' && heap'[d].byIno[k] == k && heap'[k].dir == d
      ensures heap'[k].name in heap'[d].byName && heap'[d].byName[heap'[k].name] == k
    {
      assert k != x.ino ==> k in heap[d].byIno;
    }
  }

  lemma AddedLooseOther(heap: Heap, x: Item, d: nat)
    requires Loose(heap) && Addable(heap, x) && d in heap && d != x.dir
    ensures LooseDir(Added(heap, x), d)
  {
    assert LooseDir(heap, d);
    var heap' := Added(heap, x);
    assert heap'[d] == heap[d];
    forall k | k in heap[d].byIno ensures k in heap' && heap'[k].name == heap[k].name && heap'[k].dir == heap[k].dir {
      assert k in heap;
    }
  }

  /** A creation keeps the indexes in step, whatever its name. */
  lemma AddedLoose(heap: Heap, x: Item)
    requires Loose(heap) && NamesTaken(heap) && Addable(heap, x) && x.ino != ROOT_INO
    ensures Loose(Added(heap, x)) && NamesTaken(Added(heap, x))
  {
    var heap' := Added(heap, x);
    assert LooseDir(heap, x.dir);
    forall d {:trigger LooseDir(heap', d)} | d in heap' ensures LooseDir(heap', d) {
      if d == x.dir {
        AddedLooseThis(heap, x);
      } else if d != x.ino {
        AddedLooseOther(heap, x, d);
      }
    }
    forall k {:trigger NameTaken(heap', k)} | k in heap' ensures NameTaken(heap', k) {
      if k != x.ino {
        assert NameTaken(heap, k);
      }
    }
  }

  /** `heap` holds what was requested, its indexes in step. */
  ghost predicate Built(rs: seq<Request>, heap: Heap) {
    AllAnswer(rs, heap) && Loose(heap) && NamesTaken(heap)
  }

  lemma {:induction false} CreatedBuilt(rs: seq<Request>)
    requires Fits(rs)
    ensures Built(rs, Created(rs))
    decreases |rs|
  {
    if rs == [] {
      assert LooseDir(ROOT_ONLY, ROOT_INO) && NameTaken(ROOT_ONLY, ROOT_INO);
    } else {
      var n := |rs| - 1;
      FitsPrefix(rs, n);
      CreatedBuilt(rs[..n]);
      AddedAnswers(rs, Created(rs[..n]));
      AddedLoose(Created(rs[..n]), Made(rs[n], n + 2));
    }
  }

  /** Whatever is listed under a name was requested with it. */
  lemma ListedWasRequested(rs: seq<Request>, heap: Heap, d: nat, name: string) returns (i: nat)
    requires Built(rs, heap) && d in heap && name in heap[d].byName
    ensures i < |rs| && heap[d].byName[name] == i + 2 && rs[i].dir == d && rs[i].name == name
  {
    assert LooseDir(heap, d);
    var k := heap[d].byName[name];
    assert Answers(rs, heap, k);
    i := k - 2;
  }

  /** What the next creation of a sequence finds and leaves. */
  lemma NextCreation(rs: seq<Request>, i: nat)
    requires Fits(rs) && DistinctSiblings(rs) && i < |rs|
    ensures Fits(rs[..i]) && Fits(rs[..i + 1])
    ensures var heap, d := Created(rs[..i]), rs[i].dir;
            && d in heap && heap[d].typ.Directory? && rs[i].name !in heap[d].byName
            && Created(rs[..i + 1]) == Added(heap, Made(rs[i], i + 2))
  {
    FitsPrefix(rs, i);
    FitsPrefix(rs, i + 1);
    assert rs[..i + 1][..i] == rs[..i];
    var heap := Created(rs[..i]);
    AddedAnswers(rs[..i + 1], heap);
    CreatedBuilt(rs[..i]);
    if rs[i].name in heap[rs[i].dir].byName {
      var j := ListedWasRequested(rs[..i], heap, rs[i].dir, rs[i].name);
    }
  }

  /** An item is listed exactly if its name leads to it. */
  lemma ListedIff(heap: Heap, k: nat)
    requires Loose(heap) && k in heap && k != ROOT_INO && NameTaken(heap, k)
    ensures Reachable(heap, k) <==> heap[heap[k].dir].byName[heap[k].name] == k
  {
    assert LooseDir(heap, heap[k].dir);
  }

  lemma ReachableIff(rs: seq<Request>, heap: Heap, j: nat)
    requires Built(rs, heap) && j < |rs|
    ensures var d := rs[j].dir;
            && j + 2 in heap && d in heap && rs[j].name in heap[d].byName
            && (Reachable(heap, j + 2) <==> heap[d].byName[rs[j].name] == j + 2)
  {
    assert Answers(rs, heap, j + 2);
    assert NameTaken(heap, j + 2);
    ListedIff(heap, j + 2);
  }

  /** All items are reachable exactly if no two siblings have the same name. */
  lemma OrphansIff(rs: seq<Request>, heap: Heap)
    requires Built(rs, heap)
    ensures NoOrphans(heap) <==> DistinctSiblings(rs)
  {
    if NoOrphans(heap) {
      forall i, j | 0 <= i < j < |rs| && rs[i].dir == rs[j].dir ensures rs[i].name != rs[j].name {
        ReachableIff(rs, heap, i);
        ReachableIff(rs, heap, j);
        assert Reachable(heap, i + 2) && Reachable(heap, j + 2);
      }
    }
    if DistinctSiblings(rs) {
      forall k {:trigger Reachable(heap, k)} | k in heap ensures Reachable(heap, k) {
        if k != ROOT_INO {
          ReachableIff(rs, heap, k - 2);
          var i := ListedWasRequested(rs, heap, rs[k - 2].dir, rs[k - 2].name);
        }
      }
    }
  }

  lemma SweepOfBuilt(rs: seq<Request>, heap: Heap)
    requires Built(rs, heap)
    ensures Older(heap)
    ensures TrySweep(heap, ROOT_INO, |rs| + 2) == if DistinctSiblings(rs) then Some(map[]) else None
  {
    OrphansIff(rs, heap);
    SweepPassesIff(heap, ROOT_INO, |rs| + 2);
  }

  /** After any creations that fit the table, the pass of `fsCleanup` removes
      everything if no creation repeated the name of a sibling, and otherwise
      trips an assert or a freed item. */
  lemma CleanupPassesIff(rs: seq<Request>)
    requires Fits(rs)
    ensures Older(Created(rs))
    ensures TrySweep(Created(rs), ROOT_INO, |rs| + 2) == if DistinctSiblings(rs) then Some(map[]) else None
  {
    CreatedBuilt(rs);
    SweepOfBuilt(rs, Created(rs));
  }

  /** The smallest failing input: the same name twice in the root. */
  lemma SameNameTwice()
    ensures var rs := [Request(ROOT_INO, "a", Regular), Request(ROOT_INO, "a", Regular)];
            Fits(rs) && Older(Created(rs)) && TrySweep(Created(rs), ROOT_INO, |rs| + 2) == None
  {
    var rs := [Request(ROOT_INO, "a", Regular), Request(ROOT_INO, "a", Regular)];
    assert NamesDirectory(rs, 0) && NamesDirectory(rs, 1);
    assert rs[0].name == rs[1].name;
    CleanupPassesIff(rs);
  }
}
