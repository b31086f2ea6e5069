/** kld's synthetic file system: creation, removal and cleanup. */
module Fs {
  import opened Options
  import opened Tree
  import opened FsModel
  import opened FsDuplicates

  class FileSystem {
    var table: array<InoDesc>
    var freelist: int
    var numfree: int
    var heap: Heap
    ghost var free: seq<nat>

    /** The free list is sound, free and live inodes partition the table but for
        the reserved ones, and both indexes of every directory agree. */
    ghost predicate Consistent(reserved: set<nat>)
      reads this, table
    {
      && FreeList(table[..], freelist, free) && numfree == |free|
      && Partition(table[..], free, heap.Keys, reserved) && Indexed(heap)
    }

    /** How many inodes are not free. */
    ghost function Used(): int
      reads this
    {
      INO_NUM - |free|
    }

    /** As above, with nothing but creations so far. */
    ghost predicate Creating()
      reads this, table
    {
      && FreeList(table[..], freelist, free) && numfree == |free|
      && Ascending(table[..], free, heap.Keys) && Indexed(heap)
    }

    /** `init_inotable`. */
    constructor ()
      ensures table.Length == INO_NUM && fresh(table)
      ensures FreeList(table[..], freelist, free) && numfree == |free| == INO_NUM && heap == map[]
      ensures forall i :: 0 <= i < INO_NUM ==> free[i] == i && table[i].file == NULL
    {
      var t := new InoDesc[INO_NUM];
      for i := 0 to INO_NUM - 1
        invariant forall k :: 0 <= k < i ==> t[k] == InoDesc(NULL, k + 1)
      {
        t[i] := InoDesc(NULL, i + 1);
      }
      t[INO_NUM - 1] := InoDesc(NULL, END);
      table := t;
      freelist, numfree := 0, INO_NUM;
      heap := map[];
      free := seq(INO_NUM, i => i);
      new;
      assert forall i :: 0 <= i < INO_NUM ==> LinkOk(table[..], free, i);
      forall k | 0 <= k < INO_NUM ensures k in free {
        assert free[k] == k;
      }
    }

    /** `inoalloc`, while the table has room. */
    method InoAlloc() returns (ino: nat)
      requires FreeList(table[..], freelist, free) && numfree == |free| && free != []
      requires free[0] < table.Length && table[free[0]].file == NULL
      modifies this`freelist, this`numfree, this`free, table
      ensures old(free[0]) < table.Length
      ensures ino == old(free[0]) && free == old(free[1..]) && ino !in free && numfree == |free|
      ensures table[..] == old(table[..])[ino := old(table[ino]).(next := END)]
      ensures FreeList(table[..], freelist, free)
    {
      FreeListPop(table[..], freelist, free);
      assert freelist != END;
      ino := freelist;
      free := free[1..];
      freelist := table[ino].next;
      table[ino] := table[ino].(next := END);
      numfree := numfree - 1;
      assert numfree >= 0;
      assert table[ino].file == NULL;
    }

    /** `inofree`. */
    method InoFree(ino: nat)
      requires FreeList(table[..], freelist, free) && numfree == |free| && ino < table.Length && ino !in free
      modifies this`freelist, this`numfree, this`free, table
      ensures free == [ino] + old(free) && numfree == |free|
      ensures table[..] == old(table[..])[ino := old(table[ino]).(next := old(freelist))]
      ensures FreeList(table[..], freelist, free)
    {
      assert table[ino].next == END;
      FreeListPush(table[..], freelist, free, ino);
      table[ino] := table[ino].(next := freelist);
      freelist := ino;
      numfree := numfree + 1;
      free := [ino] + free;
    }

    method SetFile(ino: nat, file: Ptr)
      requires ino < table.Length && FreeList(table[..], freelist, free)
      modifies table
      ensures table[..] == old(table[..])[ino := old(table[ino]).(file := file)]
      ensures FreeList(table[..], freelist, free)
    {
      table[ino] := table[ino].(file := file);
      FilesDoNotMatter(old(table[..]), table[..], freelist, free);
    }

    /** The two allocations of `fsCreate`: inode 0 stays reserved, inode 1 is the
        root directory. */
    method CreateRoot()
      requires table.Length == INO_NUM && FreeList(table[..], freelist, free) && numfree == |free| == INO_NUM
      requires heap == map[] && forall i :: 0 <= i < INO_NUM ==> free[i] == i && table[i].file == NULL
      modifies this`freelist, this`numfree, this`free, this`heap, table
      ensures Creating() && Used() == 2
      ensures heap == ROOT_ONLY
    {
      var ino := InoAlloc();
      assert ino == INVALID_INO;
      ino := InoAlloc();
      assert table[ino] == InoDesc(NULL, END);
      heap := map[ino := Item(".", ino, INVALID_INO, Directory, map[], map[])];
      SetFile(ino, ino);
      assert ListedOk(heap, ino) && DirOk(heap, ino);
    }

    /** Allocate an inode and make its descriptor lead to the item about to be
        built, which lives in the block named by that inode. */
    method TakeInode(ghost live: set<nat>) returns (ino: nat)
      requires FreeList(table[..], freelist, free) && numfree == |free| && free != []
      requires Ascending(table[..], free, live)
      modifies this`freelist, this`numfree, this`free, table
      ensures ino == old(free[0]) == old(Used()) && Used() == old(Used()) + 1
      ensures FreeList(table[..], freelist, free) && numfree == |free|
      ensures Ascending(table[..], free, live + {ino})
    {
      AscendingStep(table[..], free, live, END);
      ino := InoAlloc();
      assert table[ino] == InoDesc(NULL, END);
      SetFile(ino, ino);
    }

    /** `fsCreatedir` below a directory, and `fsCreatefile`: they differ in the
        type of the new item.  With a name already taken `dir_add` lists
        nothing, its result is ignored, and the indexes stop agreeing. */
    method Create(dir: nat, name: string, typ: FileType) returns (item: Ptr)
      requires Creating() && free != []
      requires dir in heap && heap[dir].typ.Directory?
      modifies this`freelist, this`numfree, this`free, this`heap, table
      ensures item == old(Used()) && Used() == old(Used()) + 1
      ensures heap == Added(old(heap), Item(name, item, dir, typ, map[], map[]))
      ensures Creating() <==> name !in old(heap[dir].byName)
    {
      ghost var x' := Item(name, free[0], dir, typ, map[], map[]);
      NewItemIff(table[..], free, heap, x');
      assert dir !in free && table[dir].next == END && table[dir].file == dir;
      var parent := table[dir].file;
      var ino := TakeInode(heap.Keys);
      var x := Item(name, ino, dir, typ, map[], map[]);
      assert x == x';
      heap := heap[parent := DirAdd(heap[parent], x)];
      heap := heap[ino := x];
      item := ino;
    }

    /** A sequence of creations, each item in a block of its own. */
    method CreateAll(rs: seq<Request>)
      requires Creating() && heap == ROOT_ONLY && Used() == 2
      requires Fits(rs) && DistinctSiblings(rs)
      modifies this`freelist, this`numfree, this`free, this`heap, table
      ensures Creating() && heap == Created(rs) && Used() == |rs| + 2
    {
      FitsPrefix(rs, 0);
      for i := 0 to |rs|
        invariant Creating() && Used() == i + 2
        invariant Fits(rs[..i]) && heap == Created(rs[..i])
      {
        NextCreation(rs, i);
        var item := Create(rs[i].dir, rs[i].name, rs[i].typ);
      }
      assert rs[..|rs|] == rs;
    }

    /** The part of `fsRemoveitem` that finds the containing directory. */
    method Containing(item: Ptr) returns (containing: Ptr)
      requires Consistent({INVALID_INO}) && item in heap
      ensures containing == (if item == ROOT_INO then NULL else heap[item].dir)
      ensures containing != NULL ==> containing in heap && containing < item && heap[containing].typ.Directory?
      ensures item != ROOT_INO ==> containing != NULL
    {
      var it := heap[item];
      assert ListedOk(heap, item);
      if it.typ.Directory? && it.ino == ROOT_INO {
        assert it.dir == INVALID_INO;
        containing := NULL;
      } else {
        assert it.ino != ROOT_INO && it.dir != INVALID_INO;
        assert it.dir !in free && table[it.dir].next == END && table[it.dir].file != NULL;
        assert heap[table[it.dir].file].typ.Directory?;
        containing := table[it.dir].file;
      }
    }

    /** Delete `item` from the indexes of its directory; tell whether that
        leaves the directory empty. */
    method Unlist(item: Ptr, containing: Ptr) returns (emptied: bool)
      requires Indexed(heap) && item in heap && item != ROOT_INO && containing == heap[item].dir
      modifies this`heap
      ensures containing in old(heap)
      ensures heap == old(heap)[containing := DirDelete(old(heap)[containing], old(heap)[item])]
      ensures emptied <==> Children(Shape(old(heap)), containing) == {item}
    {
      assert ListedOk(heap, item);
      var it := heap[item];
      var dir := heap[containing];
      assert |dir.byIno| == |dir.byName| by { assert DirOk(heap, containing); }
      assert it.ino in dir.byIno && dir.byIno[it.ino] == item;
      assert it.name in dir.byName && dir.byName[it.name] == item;
      IndexIsChildren(heap, containing);
      EmptiedIff(dir, it);
      dir := DirDelete(dir, it);
      assert |dir.byIno| == |dir.byName|;
      emptied := |dir.byIno| == 0;
      heap := heap[containing := dir];
    }

    /** Return the inode of an item to the free list. */
    method FreeInode(ino: nat, ghost live: set<nat>)
      requires FreeList(table[..], freelist, free) && numfree == |free|
      requires Partition(table[..], free, live, {INVALID_INO}) && ino in live
      modifies this`freelist, this`numfree, this`free, table
      ensures FreeList(table[..], freelist, free) && numfree == |free|
      ensures Partition(table[..], free, live - {ino}, {INVALID_INO})
      ensures forall k :: 0 <= k < INO_NUM ==> table[k].file == old(table[k].file)
    {
      PartitionRemove(table[..], free, live, {INVALID_INO}, ino, freelist);
      InoFree(ino);
    }

    /** Unlist `item`, free its inode and its memory. */
    method Detach(item: Ptr, containing: Ptr) returns (emptied: bool)
      requires Consistent({INVALID_INO}) && item in heap && Children(Shape(heap), item) == {}
      requires containing == (if item == ROOT_INO then NULL else heap[item].dir)
      requires item != ROOT_INO ==> containing != NULL
      modifies this`freelist, this`numfree, this`free, this`heap, table
      ensures Consistent({INVALID_INO}) && Shape(heap) == Without(Shape(old(heap)), {item})
      ensures heap == Removed(old(heap), item) && SameItems(old(heap), heap)
      ensures emptied <==> containing != NULL && Children(Shape(old(heap)), containing) == {item}
      ensures forall k :: 0 <= k < INO_NUM ==> table[k].file == old(table[k].file)
    {
      RemovedIndexed(heap, item);
      ghost var live := heap.Keys;
      emptied := false;
      if containing != NULL {
        emptied := Unlist(item, containing);
      }
      FreeInode(item, live);
      heap := heap - {item};
    }

    /** Find the directory, then detach. */
    method RemoveLeaf(item: Ptr) returns (containing: Ptr, emptied: bool)
      requires Consistent({INVALID_INO}) && item in heap && Children(Shape(heap), item) == {}
      modifies this`freelist, this`numfree, this`free, this`heap, table
      ensures Consistent({INVALID_INO}) && Shape(heap) == Without(Shape(old(heap)), {item})
      ensures SameItems(old(heap), heap)
      ensures var t := Shape(old(heap));
              && (containing == NULL ==> t[item] !in t)
              && (containing != NULL ==>
                  containing == t[item] && containing in t && containing < item && containing in heap)
              && (emptied <==> containing != NULL && Children(t, containing) == {item})
      ensures RemovesFirst(old(heap), item, heap)
      ensures forall k :: 0 <= k < INO_NUM ==> table[k].file == old(table[k].file)
    {
      ghost var t := Shape(heap);
      TryRemoveLeaf(heap, item);
      containing := Containing(item);
      assert containing == NULL ==> t[item] == INVALID_INO by { assert ListedOk(heap, item); }
      emptied := Detach(item, containing);
      assert Shape(heap).Keys == heap.Keys;
    }

    /** The check at the head of `fsRemoveitem`. */
    method ListsNothing(item: Ptr) returns (empty: bool)
      requires Indexed(heap) && item in heap
      ensures empty <==> Children(Shape(heap), item) == {}
    {
      IndexIsChildren(heap, item);
      var it := heap[item];
      if it.typ.Directory? {
        assert |it.byIno| == |it.byName| by { assert DirOk(heap, item); }
        empty := |it.byIno| == 0;
      } else {
        OnlyDirectoriesList(heap, item);
        empty := true;
      }
    }

    /** The recursive call: directory `dir` held only `x`, which is gone. */
    method PurgeEmptied(dir: Ptr, ghost t: Tree, ghost x: nat)
      requires Consistent({INVALID_INO}) && Shape(heap) == Without(t, {x})
      requires Rooted(t) && x in t && t[x] == dir && dir in t && Children(t, dir) == {x}
      modifies this`freelist, this`numfree, this`free, this`heap, table
      ensures Consistent({INVALID_INO}) && Shape(heap) == Without(t, Purged(t, x))
      ensures SameItems(old(heap), heap)
      ensures Removes(old(heap), dir, heap)
      ensures forall k :: 0 <= k < INO_NUM ==> table[k].file == old(table[k].file)
      decreases dir, 2
    {
      PurgeGoesOn(t, x);
      assert Shape(heap).Keys == heap.Keys;
      var ok := RemoveItem(dir, true);
    }

    /** The body of `fsRemoveitem` for an item that lists nothing. */
    method RemoveChain(item: Ptr, purge: bool)
      requires Consistent({INVALID_INO}) && item in heap && Children(Shape(heap), item) == {}
      requires Rooted(Shape(heap))
      modifies this`freelist, this`numfree, this`free, this`heap, table
      ensures Consistent({INVALID_INO}) && SameItems(old(heap), heap)
      ensures !purge ==> Shape(heap) == Without(Shape(old(heap)), {item})
      ensures purge ==> Shape(heap) == Without(Shape(old(heap)), Purged(Shape(old(heap)), item))
      ensures purge ==> Removes(old(heap), item, heap)
      ensures forall k :: 0 <= k < INO_NUM ==> table[k].file == old(table[k].file)
      decreases item, 0
    {
      ghost var t := Shape(heap);
      var containing, emptied := RemoveLeaf(item);
      ghost var mid := heap;
      if containing != NULL && emptied && purge {
        PurgeEmptied(containing, t, item);
        SameItemsTwice(old(heap), mid, heap);
        RemovesEnd(old(heap), item, mid, heap);
      } else if purge {
        PurgeStops(t, item);
        RemovesEnd(old(heap), item, mid, heap);
      }
    }

    /** `fsRemoveitem`: refuse a directory that lists something; else remove the
        item and, when purging, the directories this leaves empty. */
    method RemoveItem(item: Ptr, purge: bool) returns (ok: bool)
      requires Consistent({INVALID_INO}) && item in heap
      modifies this`freelist, this`numfree, this`free, this`heap, table
      ensures Consistent({INVALID_INO}) && SameItems(old(heap), heap) && Rooted(Shape(old(heap)))
      ensures ok <==> Children(Shape(old(heap)), item) == {}
      ensures !ok ==> heap == old(heap) && free == old(free) && table[..] == old(table[..])
      ensures ok && !purge ==> Shape(heap) == Without(Shape(old(heap)), {item})
      ensures ok && purge ==> Shape(heap) == Without(Shape(old(heap)), Purged(Shape(old(heap)), item))
      ensures purge ==> Removes(old(heap), item, heap)
      ensures forall k :: 0 <= k < INO_NUM ==> table[k].file == old(table[k].file)
      decreases item, 1
    {
      ShapeRooted(heap);
      ok := ListsNothing(item);
      if ok {
        RemoveChain(item, purge);
      } else {
        TryRemoveBusy(heap, item);
      }
    }

    /** The turn of inode `i` in the pass of `fsCleanup`. */
    method Visit(i: nat, ghost used: int)
      requires Consistent({INVALID_INO}) && Sweep(Shape(heap), i, used) && 0 < i < used && i < INO_NUM
      requires table[i].file == i
      modifies this`freelist, this`numfree, this`free, this`heap, table
      ensures Consistent({INVALID_INO}) && Sweep(Shape(heap), i + 1, used)
      ensures forall k :: 0 <= k < INO_NUM ==> table[k].file == old(table[k].file)
    {
      ghost var t := Shape(heap);
      assert t.Keys == heap.Keys;
      assert i in heap && i !in free && table[i].next == END;
      var ok := RemoveItem(table[i].file, true);
      SweepStep(t, Shape(heap), i, used);
    }

    /** The loop of `fsCleanup`: one pass over the table, from the root up.  A
        directory that still lists something is refused when its turn comes and
        purged later, with the last item it lists. */
    method SweepTable() returns (removed: int)
      requires Creating()
      modifies this`freelist, this`numfree, this`free, this`heap, table
      ensures Consistent({INVALID_INO}) && heap == map[]
      ensures removed == old(Used()) - 1
    {
      ghost var used := Used();
      SweepStart(table[..], free, heap);
      removed := 0;
      for i := 0 to INO_NUM
        invariant Consistent({INVALID_INO}) && Sweep(Shape(heap), i, used)
        invariant forall k :: 0 <= k < INO_NUM ==> table[k].file == (if 0 < k < used then k else NULL)
        invariant removed == (if i == 0 then 0 else if i < used then i - 1 else used - 1)
      {
        if table[i].file != NULL {
          Visit(i, used);
          removed := removed + 1;
        }
      }
      SweptClean(heap, used);
    }

    /** `fsCleanup`: every item goes, nothing is touched after it was freed, and
        all inodes end up free. */
    method Cleanup()
      requires Creating()
      modifies this`freelist, this`numfree, this`free, this`heap, table
      ensures heap == map[] && numfree == INO_NUM && FreeList(table[..], freelist, free) && |free| == INO_NUM
    {
      var inUse := INO_NUM - numfree;
      var removed := SweepTable();
      assert heap.Keys == {};
      InoFree(INVALID_INO);
      removed := removed + 1;
      assert removed == inUse;
      assert numfree == INO_NUM;
    }
  }

  /** A whole life of the file system: any creations that fit, with distinct
      names among siblings, then cleanup. */
  method Session(rs: seq<Request>) returns (fs: FileSystem)
    requires Fits(rs) && DistinctSiblings(rs)
    ensures fs.heap == map[] && fs.numfree == INO_NUM
  {
    fs := new FileSystem();
    fs.CreateRoot();
    fs.CreateAll(rs);
    fs.Cleanup();
  }
}
