/** The data of kld's synthetic file system: the inode table with its intrusive
    free list, the items on the C heap, and directories indexed by inode and by
    name; what each change of them keeps. */
module FsModel {
  import opened Tree

  const INO_NUM := 256
  const INVALID_INO := 0
  const ROOT_INO := 1
  const NULL := 0
  const END := -1           // `next == NULL`

  datatype FileType = Regular | Symlink | Directory

  /** A pointer to an item.  An inode is used for at most one item, so the heap
      block of an item is named by its inode; a block not in the heap is freed. */
  type Ptr = nat

  /** `fs_file_t`, with the two indexes of `fs_dir_t` if it is a directory. */
  datatype Item = Item(name: string, ino: nat, dir: nat, typ: FileType, byIno: map<nat, Ptr>, byName: map<string, Ptr>)

  type Heap = map<Ptr, Item>

  /** `fs_inodesc_t`: the item, and the index of the next free descriptor. */
  datatype InoDesc = InoDesc(file: Ptr, next: int)

  // ---- The free list ------------------------------------------------------

  /** Descriptor `i` of the list links to the next one, or ends the list. */
  ghost predicate LinkOk(table: seq<InoDesc>, free: seq<nat>, i: nat)
    requires i < |free|
  {
    free[i] < |table| && table[free[i]].next == (if i + 1 < |free| then free[i + 1] else END)
  }

  /** The list that the links spell out from `head`, without repetition; the
      descriptors not on it have no link. */
  ghost predicate FreeList(table: seq<InoDesc>, head: int, free: seq<nat>) {
    && head == (if free == [] then END else free[0])
    && (forall i :: 0 <= i < |free| ==> LinkOk(table, free, i))
    && (forall i, j :: 0 <= i < j < |free| ==> free[i] != free[j])
    && (forall k :: 0 <= k < |table| ==> k in free || table[k].next == END)
  }

  /** `inofree` puts a descriptor in front. */
  lemma FreeListPush(table: seq<InoDesc>, head: int, free: seq<nat>, x: nat)
    requires FreeList(table, head, free) && x < |table| && x !in free
    ensures FreeList(table[x := table[x].(next := head)], x, [x] + free)
  {
    var table', free' := table[x := table[x].(next := head)], [x] + free;
    forall i | 0 <= i < |free'| ensures LinkOk(table', free', i) {
      if i > 0 {
        assert LinkOk(table, free, i - 1);
        assert free[i - 1] in free;
      }
    }
    forall k | 0 <= k < |table'| ensures k in free' || table'[k].next == END {
      assert k in free ==> k in free';
      assert x == free'[0];
    }
  }

  /** `inoalloc` takes the descriptor in front. */
  lemma FreeListPop(table: seq<InoDesc>, head: int, free: seq<nat>)
    requires FreeList(table, head, free) && free != []
    ensures free[0] < |table| && free[0] !in free[1..]
    ensures var x := free[0];
            FreeList(table[x := table[x].(next := END)], table[x].next, free[1..])
  {
    var x, free' := free[0], free[1..];
    assert LinkOk(table, free, 0);
    var table' := table[x := table[x].(next := END)];
    forall i | 0 <= i < |free'| ensures LinkOk(table', free', i) {
      assert LinkOk(table, free, i + 1);
    }
    assert free == [x] + free';
  }

  // ---- The indexes --------------------------------------------------------

  ghost predicate HeapOk(heap: Heap) {
    NULL !in heap && forall k :: k in heap ==> k < INO_NUM && heap[k].ino == k
  }

  /** Item `k` is listed, under its own keys, in the directory it names. */
  ghost predicate ListedOk(heap: Heap, k: nat)
    requires k in heap
  {
    if k == ROOT_INO then heap[k].dir == INVALID_INO && heap[k].typ.Directory?
    else
      var d := heap[k].dir;
      && d in heap && d < k && heap[d].typ.Directory?
      && k in heap[d].byIno && heap[d].byIno[k] == k
      && heap[k].name in heap[d].byName && heap[d].byName[heap[k].name] == k
  }

  /** Directory `d` lists only items that name it, under their own keys. */
  ghost predicate DirOk(heap: Heap, d: nat)
    requires d in heap
  {
    && |heap[d].byIno| == |heap[d].byName|
    && (forall k :: k in heap[d].byIno ==> k in heap && heap[d].byIno[k] == k && heap[k].dir == d)
    && (forall n :: n in heap[d].byName ==>
          heap[d].byName[n] in heap && heap[heap[d].byName[n]].name == n && heap[heap[d].byName[n]].dir == d)
  }

  ghost predicate AllListed(heap: Heap) {
    forall k {:trigger ListedOk(heap, k)} :: k in heap ==> ListedOk(heap, k)
  }

  ghost predicate AllDirs(heap: Heap) {
    forall d {:trigger DirOk(heap, d)} :: d in heap ==> DirOk(heap, d)
  }

  ghost predicate Indexed(heap: Heap) {
    HeapOk(heap) && AllListed(heap) && AllDirs(heap)
  }

  ghost function Shape(heap: Heap): Tree {
    map k | k in heap :: heap[k].dir
  }

  lemma ShapeRooted(heap: Heap)
    requires Indexed(heap)
    ensures Rooted(Shape(heap))
  {
    forall k | k in heap ensures Shape(heap)[k] < k {
      assert ListedOk(heap, k);
    }
  }

  /** A directory's index by inode is its set of children, and its index by name
      has as many entries. */
  lemma IndexIsChildren(heap: Heap, d: nat)
    requires Indexed(heap) && d in heap
    ensures heap[d].byIno.Keys == Children(Shape(heap), d)
    ensures |heap[d].byIno| == 0 <==> Children(Shape(heap), d) == {}
  {
    assert DirOk(heap, d);
    forall k | k in Children(Shape(heap), d) ensures k in heap[d].byIno {
      assert ListedOk(heap, k);
    }
  }

  /** Every item reaches the root through its `dir` fields. */
  lemma {:induction false} ReachesRoot(heap: Heap, k: nat)
    requires Indexed(heap) && k in heap
    ensures Rooted(Shape(heap)) && Above(Shape(heap), ROOT_INO, k)
    decreases k
  {
    ShapeRooted(heap);
    assert ListedOk(heap, k);
    if k == ROOT_INO {
    } else {
      ReachesRoot(heap, heap[k].dir);
    }
  }

  // ---- Adding an item -----------------------------------------------------

  /** `dir_add`: both indexes of directory `d`, unless a key is taken. */
  function DirAdd(d: Item, x: Item): Item {
    if x.ino in d.byIno || x.name in d.byName then d
    else d.(byIno := d.byIno[x.ino := x.ino], byName := d.byName[x.name := x.ino])
  }

  /** The heap after `x` is created and listed in its directory. */
  function Added(heap: Heap, x: Item): Heap
    requires x.dir in heap
  {
    heap[x.dir := DirAdd(heap[x.dir], x)][x.ino := x]
  }

  ghost predicate Addable(heap: Heap, x: Item) {
    && x.dir in heap && heap[x.dir].typ.Directory? && x.dir < x.ino < INO_NUM && x.ino !in heap
    && x.byIno == map[] && x.byName == map[]
  }

  /** A directory other than the one `x` was added to. */
  lemma AddedOtherDir(heap: Heap, x: Item, d: nat)
    requires Indexed(heap) && Addable(heap, x) && d in heap && d != x.dir
    ensures DirOk(Added(heap, x), d)
  {
    assert DirOk(heap, d);
  }

  lemma AddedThisDir(heap: Heap, x: Item)
    requires Indexed(heap) && Addable(heap, x) && x.name !in heap[x.dir].byName
    ensures DirOk(Added(heap, x), x.dir)
  {
    assert DirOk(heap, x.dir);
    assert x.ino !in heap[x.dir].byIno;
  }

  lemma AddedDirs(heap: Heap, x: Item)
    requires Indexed(heap) && Addable(heap, x) && x.name !in heap[x.dir].byName
    ensures AllDirs(Added(heap, x))
  {
    var heap' := Added(heap, x);
    forall d {:trigger DirOk(heap', d)} | d in heap' ensures DirOk(heap', d) {
      if d == x.dir {
        AddedThisDir(heap, x);
      } else if d != x.ino {
        AddedOtherDir(heap, x, d);
      }
    }
  }

  lemma AddedListed(heap: Heap, x: Item)
    requires Indexed(heap) && Addable(heap, x) && x.ino != ROOT_INO && x.name !in heap[x.dir].byName
    ensures AllListed(Added(heap, x))
  {
    var heap' := Added(heap, x);
    assert DirOk(heap, x.dir);
    forall k {:trigger ListedOk(heap', k)} | k in heap' ensures ListedOk(heap', k) {
      if k != x.ino {
        assert ListedOk(heap, k);
      }
    }
  }

  /** Creating an item keeps the indexes right exactly when no item of the
      directory has its name already. */
  lemma AddKeepsIndexedIff(heap: Heap, x: Item)
    requires Indexed(heap) && Addable(heap, x) && x.ino != ROOT_INO
    ensures Indexed(Added(heap, x)) <==> x.name !in heap[x.dir].byName
    ensures Shape(Added(heap, x)) == Shape(heap)[x.ino := x.dir]
  {
    if x.name !in heap[x.dir].byName {
      AddedDirs(heap, x);
      AddedListed(heap, x);
    } else {
      assert DirOk(heap, x.dir);
      assert !ListedOk(Added(heap, x), x.ino);
    }
  }

  // ---- Removing an item ---------------------------------------------------

  /** Item `x` taken out of the two indexes of its directory. */
  function DirDelete(d: Item, x: Item): Item {
    d.(byIno := d.byIno - {x.ino}, byName := d.byName - {x.name})
  }

  /** The heap after `x` is unlisted and freed. */
  function Dropped(heap: Heap, x: nat): Heap
    requires x in heap && heap[x].dir in heap
  {
    heap[heap[x].dir := DirDelete(heap[heap[x].dir], heap[x])] - {x}
  }

  /** The same for any leaf, the root included. */
  ghost function Removed(heap: Heap, x: nat): Heap
    requires Indexed(heap) && x in heap
  {
    if x == ROOT_INO then heap - {x}
    else
      assert ListedOk(heap, x);
      Dropped(heap, x)
  }

  lemma MapDropsOne<K, V>(m: map<K, V>, k: K)
    requires k in m
    ensures |m - {k}| == |m| - 1
  {
    assert (m - {k}).Keys == m.Keys - {k};
  }

  /** The directory that listed `x`. */
  lemma RemovedThisDir(heap: Heap, x: nat)
    requires Indexed(heap) && x in heap && x != ROOT_INO
    ensures heap[x].dir in Removed(heap, x) && DirOk(Removed(heap, x), heap[x].dir)
  {
    var d := heap[x].dir;
    assert ListedOk(heap, x) && DirOk(heap, d);
    MapDropsOne(heap[d].byIno, x);
    MapDropsOne(heap[d].byName, heap[x].name);
  }

  /** Any other directory does not mention `x`. */
  lemma RemovedOtherDir(heap: Heap, x: nat, d: nat)
    requires Indexed(heap) && x in heap && d in heap && d != x && d != heap[x].dir
    ensures d in Removed(heap, x) && DirOk(Removed(heap, x), d)
  {
    assert ListedOk(heap, x) && DirOk(heap, d);
  }

  lemma RemovedDir(heap: Heap, x: nat, d: nat)
    requires Indexed(heap) && x in heap && d in heap && d != x
    ensures d in Removed(heap, x) && DirOk(Removed(heap, x), d)
  {
    assert ListedOk(heap, x);
    if d == heap[x].dir {
      RemovedThisDir(heap, x);
    } else {
      RemovedOtherDir(heap, x, d);
    }
  }

  lemma RemovedListed(heap: Heap, x: nat, k: nat)
    requires Indexed(heap) && x in heap && Children(Shape(heap), x) == {}
    requires k in heap && k != x
    ensures k in Removed(heap, x) && ListedOk(Removed(heap, x), k)
  {
    assert ListedOk(heap, x) && ListedOk(heap, k);
    assert k !in Children(Shape(heap), x);
  }

  /** The items of `heap'` are items of `heap`; only indexes may differ. */
  ghost predicate SameItems(heap: Heap, heap': Heap) {
    forall k :: k in heap' ==>
      k in heap && heap'[k] == heap[k].(byIno := heap'[k].byIno, byName := heap'[k].byName)
  }

  lemma SameItemsTwice(a: Heap, b: Heap, c: Heap)
    requires SameItems(a, b) && SameItems(b, c)
    ensures SameItems(a, c)
  {
  }

  lemma RemovedIndexed(heap: Heap, x: nat)
    requires Indexed(heap) && x in heap && Children(Shape(heap), x) == {}
    ensures Indexed(Removed(heap, x))
    ensures SameItems(heap, Removed(heap, x))
    ensures Shape(Removed(heap, x)) == Without(Shape(heap), {x})
    ensures Removed(heap, x).Keys == heap.Keys - {x}
  {
    var heap' := Removed(heap, x);
    assert ListedOk(heap, x);
    forall k {:trigger ListedOk(heap', k)} | k in heap' ensures ListedOk(heap', k) {
      RemovedListed(heap, x, k);
    }
    forall k {:trigger DirOk(heap', k)} | k in heap' ensures DirOk(heap', k) {
      RemovedDir(heap, x, k);
    }
  }

  /** An item that is no directory lists nothing. */
  lemma OnlyDirectoriesList(heap: Heap, x: nat)
    requires Indexed(heap) && x in heap && !heap[x].typ.Directory?
    ensures Children(Shape(heap), x) == {}
  {
    forall k | k in heap ensures heap[k].dir != x {
      assert ListedOk(heap, k);
    }
  }

  /** A finite tree in which every node has a child, larger than itself, is empty. */
  lemma {:induction false} NoEndlessDescent(t: Tree, d: nat)
    requires Rooted(t) && d in t
    requires forall k :: k in t ==> k < INO_NUM && Children(t, k) != {}
    ensures false
    decreases INO_NUM - d
  {
    var c :| c in Children(t, d);
    NoEndlessDescent(t, c);
  }

  /** The free and the live inodes partition the table, but for the inodes
      reserved without an item, and each live inode leads to its item. */
  ghost predicate Partition(table: seq<InoDesc>, free: seq<nat>, live: set<nat>, reserved: set<nat>) {
    && |table| == INO_NUM
    && live !! reserved
    && (forall k :: 0 <= k < INO_NUM ==> (k in free <==> k !in live && k !in reserved))
    && (forall k :: k in live ==> k < INO_NUM && table[k].file == k)
    && |free| + |live| + |reserved| == INO_NUM
  }

  /** The lowest inodes are used, the rest are free in ascending order, and no
      descriptor has a stale item. */
  ghost predicate Ascending(table: seq<InoDesc>, free: seq<nat>, live: set<nat>) {
    && Partition(table, free, live, {INVALID_INO}) && ROOT_INO in live
    && (forall i :: 0 <= i < |free| ==> free[i] == INO_NUM - |free| + i)
    && (forall k :: 0 <= k < INO_NUM && k !in live ==> table[k].file == NULL)
  }

  lemma UsedAreLowest(table: seq<InoDesc>, free: seq<nat>, live: set<nat>, k: nat)
    requires Ascending(table, free, live)
    ensures k in live <==> 0 < k < INO_NUM - |free|
  {
    if INO_NUM - |free| <= k < INO_NUM {
      assert free[k - (INO_NUM - |free|)] == k;
    }
  }

  /** One more creation takes the lowest free inode. */
  lemma AscendingStep(table: seq<InoDesc>, free: seq<nat>, live: set<nat>, next: int)
    requires Ascending(table, free, live) && free != []
    ensures var x := free[0];
            && x == INO_NUM - |free| && x < |table| && x !in live
            && Ascending(table[x := InoDesc(x, next)], free[1..], live + {x})
  {
    var x, free' := free[0], free[1..];
    UsedAreLowest(table, free, live, x);
    assert free == [x] + free';
    assert forall i :: 0 <= i < |free'| ==> free'[i] == free[i + 1];
  }

  lemma PartitionRemove(table: seq<InoDesc>, free: seq<nat>, live: set<nat>, reserved: set<nat>, x: nat, next: int)
    requires Partition(table, free, live, reserved) && x in live
    ensures Partition(table[x := table[x].(next := next)], [x] + free, live - {x}, reserved)
  {
  }

  /** The new item keeps the indexes right exactly when its name is free. */
  lemma NewItemIff(table: seq<InoDesc>, free: seq<nat>, heap: Heap, x: Item)
    requires Indexed(heap) && Ascending(table, free, heap.Keys) && free != [] && x.ino == free[0]
    requires x.dir in heap && heap[x.dir].typ.Directory? && x.byIno == map[] && x.byName == map[]
    ensures Added(heap, x).Keys == heap.Keys + {x.ino}
    ensures Indexed(Added(heap, x)) <==> x.name !in heap[x.dir].byName
  {
    UsedAreLowest(table, free, heap.Keys, x.dir);
    UsedAreLowest(table, free, heap.Keys, x.ino);
    UsedAreLowest(table, free, heap.Keys, ROOT_INO);
    AddKeepsIndexedIff(heap, x);
  }

  // ---- Removing with purge, and sweeping the table ------------------------

  /** When inode `i` has its turn: later items are all there, and every earlier
      one still there is a directory that lists something. */
  ghost predicate Sweep(t: Tree, i: nat, used: int) {
    && (forall k :: k in t ==> k < used)
    && (forall k: nat :: i <= k < used && k != INVALID_INO ==> k in t)
    && (forall d :: d in t && d < i ==> Children(t, d) != {})
  }

  lemma SweepStart(table: seq<InoDesc>, free: seq<nat>, heap: Heap)
    requires Ascending(table, free, heap.Keys)
    ensures Sweep(Shape(heap), 0, INO_NUM - |free|) && 2 <= INO_NUM - |free|
    ensures forall k :: 0 <= k < INO_NUM ==> table[k].file == (if 0 < k < INO_NUM - |free| then k else NULL)
  {
    forall k: nat ensures k in heap <==> 0 < k < INO_NUM - |free| {
      UsedAreLowest(table, free, heap.Keys, k);
    }
    assert Shape(heap).Keys == heap.Keys;
    assert ROOT_INO in heap;
  }

  /** The turn of inode `i` keeps the sweep going. */
  lemma SweepStep(t: Tree, t': Tree, i: nat, used: int)
    requires Rooted(t) && i in t && Sweep(t, i, used)
    requires t' == (if Children(t, i) != {} then t else Without(t, Purged(t, i)))
    ensures Sweep(t', i + 1, used)
  {
    if Children(t, i) == {} {
      forall a | a in Purged(t, i) ensures a <= i {
        PurgedAbove(t, i, a);
      }
      forall d | d in t' && d < i + 1 ensures Children(t', d) != {} {
        assert i in Purged(t, i);
        SurvivorsStayBusy(t, i, d);
      }
    }
  }

  lemma SweptClean(heap: Heap, used: int)
    requires Indexed(heap) && Sweep(Shape(heap), INO_NUM, used)
    ensures heap == map[]
  {
    if k :| k in heap {
      ShapeRooted(heap);
      NoEndlessDescent(Shape(heap), k);
    }
  }

  /** Deleting its only entry, and nothing less, empties an index; both indexes
      lose one entry. */
  lemma EmptiedIff(d: Item, x: Item)
    requires x.ino in d.byIno && x.name in d.byName && |d.byIno| == |d.byName|
    ensures |DirDelete(d, x).byIno| == 0 <==> d.byIno.Keys == {x.ino}
    ensures |DirDelete(d, x).byIno| == |DirDelete(d, x).byName|
  {
    assert DirDelete(d, x).byIno.Keys == d.byIno.Keys - {x.ino};
    MapDropsOne(d.byIno, x.ino);
    MapDropsOne(d.byName, x.name);
  }

  /** Removing an only child, then purging its parent, is purging the child. */
  lemma PurgeGoesOn(t: Tree, x: nat)
    requires Rooted(t) && x in t && t[x] in t && Children(t, t[x]) == {x}
    ensures var t' := Without(t, {x});
            && Rooted(t') && t[x] in t' && Children(t', t[x]) == {}
            && Without(t', Purged(t', t[x])) == Without(t, Purged(t, x))
  {
    PurgedWithout(t, x, t[x]);
    assert Children(Without(t, {x}), t[x]) == Children(t, t[x]) - {x};
  }

  /** The free list depends on the links only. */
  lemma FilesDoNotMatter(t: seq<InoDesc>, t': seq<InoDesc>, head: int, free: seq<nat>)
    requires FreeList(t, head, free) && |t| == |t'| && forall k :: 0 <= k < |t| ==> t'[k].next == t[k].next
    ensures FreeList(t', head, free)
  {
    forall i | 0 <= i < |free| ensures LinkOk(t', free, i) {
      assert LinkOk(t, free, i);
    }
  }

  // ---- Sequences of creations ---------------------------------------------

  /** A request to create an item. */
  datatype Request = Request(dir: nat, name: string, typ: FileType)

  function Made(r: Request, ino: nat): Item {
    Item(r.name, ino, r.dir, r.typ, map[], map[])
  }

  /** Request `i`, which will get inode `i + 2`, names the root or a directory
      requested before. */
  predicate NamesDirectory(rs: seq<Request>, i: nat)
    requires i < |rs|
  {
    rs[i].dir == ROOT_INO || (ROOT_INO < rs[i].dir < i + 2 && rs[rs[i].dir - 2].typ.Directory?)
  }

  /** The requests fit the table and name directories. */
  predicate Fits(rs: seq<Request>) {
    |rs| <= 254 && forall i :: 0 <= i < |rs| ==> NamesDirectory(rs, i)
  }

  predicate DistinctSiblings(rs: seq<Request>) {
    forall i, j :: 0 <= i < j < |rs| && rs[i].dir == rs[j].dir ==> rs[i].name != rs[j].name
  }

  const ROOT_ONLY: Heap := map[ROOT_INO := Item(".", ROOT_INO, INVALID_INO, Directory, map[], map[])]

  lemma FitsPrefix(rs: seq<Request>, i: nat)
    requires Fits(rs) && i <= |rs|
    ensures Fits(rs[..i])
  {
    forall j | 0 <= j < i ensures NamesDirectory(rs[..i], j) {
      assert NamesDirectory(rs, j);
    }
  }

  /** Item `k` is the root or what request `k - 2` asked for. */
  ghost predicate Answers(rs: seq<Request>, heap: Heap, k: nat)
    requires k in heap
  {
    && heap[k].ino == k && heap[k].dir < k
    && if k == ROOT_INO then heap[k].dir == INVALID_INO && heap[k].typ.Directory?
       else
         && 2 <= k < |rs| + 2
         && heap[k].name == rs[k - 2].name && heap[k].dir == rs[k - 2].dir && heap[k].typ == rs[k - 2].typ
  }

  ghost predicate AllAnswer(rs: seq<Request>, heap: Heap) {
    && (forall k :: k in heap <==> ROOT_INO <= k < |rs| + 2)
    && forall k {:trigger Answers(rs, heap, k)} :: k in heap ==> Answers(rs, heap, k)
  }

  lemma AddedAnswers(rs: seq<Request>, heap: Heap)
    requires rs != [] && Fits(rs) && AllAnswer(rs[..|rs| - 1], heap)
    ensures var n := |rs| - 1;
            Addable(heap, Made(rs[n], n + 2)) && AllAnswer(rs, Added(heap, Made(rs[n], n + 2)))
  {
    var n := |rs| - 1;
    assert NamesDirectory(rs, n);
    assert Answers(rs[..n], heap, rs[n].dir);
    var heap' := Added(heap, Made(rs[n], n + 2));
    forall k {:trigger Answers(rs, heap', k)} | k in heap' ensures Answers(rs, heap', k) {
      if k != n + 2 {
        assert Answers(rs[..n], heap, k);
      }
    }
  }

  /** The heap after these creations, repeated names or not. */
  function Created(rs: seq<Request>): (heap: Heap)
    requires Fits(rs)
    ensures AllAnswer(rs, heap)
    decreases |rs|
  {
    if rs == [] then
      assert Answers(rs, ROOT_ONLY, ROOT_INO);
      ROOT_ONLY
    else
      var n := |rs| - 1;
      FitsPrefix(rs, n);
      AddedAnswers(rs, Created(rs[..n]));
      Added(Created(rs[..n]), Made(rs[n], n + 2))
  }
}
