/** The shape of the synthetic file system: each live inode and the inode of the
    directory that lists it.  A directory is older than what it contains, so
    parents have smaller numbers; the root's parent is the invalid inode 0. */
module Tree {

  type Tree = map<nat, nat>

  ghost predicate Rooted(t: Tree) {
    0 !in t && forall k :: k in t ==> t[k] < k
  }

  ghost function Children(t: Tree, d: nat): set<nat> {
    set k | k in t && t[k] == d
  }

  ghost function Without(t: Tree, gone: set<nat>): Tree {
    t - gone
  }

  /** `a` is `k` or one of its ancestors. */
  ghost predicate Above(t: Tree, a: nat, k: nat)
    requires Rooted(t)
    decreases k
  {
    k in t && (k == a || Above(t, a, t[k]))
  }

  /** What removing leaf `x` with purging deletes: `x`, and each directory that
      held nothing but the item deleted just before. */
  ghost function Purged(t: Tree, x: nat): set<nat>
    requires Rooted(t) && x in t
    decreases x
  {
    {x} + if t[x] in t && Children(t, t[x]) == {x} then Purged(t, t[x]) else {}
  }

  lemma PurgeStops(t: Tree, x: nat)
    requires Rooted(t) && x in t && !(t[x] in t && Children(t, t[x]) == {x})
    ensures Purged(t, x) == {x}
  {
  }

  lemma {:induction false} AboveIsSmaller(t: Tree, a: nat, k: nat)
    requires Rooted(t) && Above(t, a, k)
    ensures a <= k && a in t
    decreases k
  {
    if a == k {
    } else {
      AboveIsSmaller(t, a, t[k]);
    }
  }

  lemma {:induction false} AboveTransitive(t: Tree, a: nat, b: nat, k: nat)
    requires Rooted(t) && Above(t, a, b) && Above(t, b, k)
    ensures Above(t, a, k)
    decreases k
  {
    if b == k {
    } else {
      AboveTransitive(t, a, b, t[k]);
    }
  }

  /** Whatever lies strictly under `p` lies under one of its children. */
  lemma {:induction false} UnderSomeChild(t: Tree, p: nat, k: nat) returns (c: nat)
    requires Rooted(t) && Above(t, p, k) && p != k
    ensures c in t && t[c] == p && Above(t, c, k)
    decreases k
  {
    if t[k] == p {
      c := k;
    } else {
      c := UnderSomeChild(t, p, t[k]);
    }
  }

  /** Comparable with `x`: on its path to the root, or under it. */
  ghost predicate OnLine(t: Tree, k: nat, x: nat)
    requires Rooted(t)
  {
    Above(t, k, x) || Above(t, x, k)
  }

  lemma OnLineUp(t: Tree, k: nat, x: nat)
    requires Rooted(t) && x in t && t[x] in t && OnLine(t, k, x)
    ensures OnLine(t, k, t[x])
  {
    if Above(t, x, k) {
      AboveTransitive(t, t[x], x, k);
    }
  }

  lemma OnLineDown(t: Tree, k: nat, x: nat)
    requires Rooted(t) && x in t && t[x] in t && Children(t, t[x]) == {x} && OnLine(t, k, t[x])
    ensures OnLine(t, k, x)
  {
    if !Above(t, k, t[x]) && k != t[x] {
      var c := UnderSomeChild(t, t[x], k);
      assert c in Children(t, t[x]);
    }
  }

  /** Siblings are never on one line. */
  lemma SiblingsApart(t: Tree, c: nat, x: nat)
    requires Rooted(t) && c in t && x in t && t[c] == t[x] && OnLine(t, c, x)
    ensures c == x
  {
    if c != x {
      if Above(t, c, x) {
        AboveIsSmaller(t, c, t[x]);
      } else {
        AboveIsSmaller(t, x, t[c]);
      }
    }
  }

  lemma {:induction false} PurgedAbove(t: Tree, x: nat, a: nat)
    requires Rooted(t) && x in t && a in Purged(t, x)
    ensures a in t && a <= x && Above(t, a, x)
    ensures a != x ==> t[x] in t && Children(t, t[x]) == {x} && a in Purged(t, t[x])
    decreases x
  {
    if a == x {
    } else {
      PurgedAbove(t, t[x], a);
    }
  }

  /** Purging is exact: `a` goes precisely when it lies on the path from `x` to
      the root and everything under `a` lies on one line with `x`. */
  lemma {:induction false} PurgedExactly(t: Tree, x: nat, a: nat)
    requires Rooted(t) && x in t
    ensures a in Purged(t, x) <==> Above(t, a, x) && forall k :: k in t && Above(t, a, k) ==> OnLine(t, k, x)
    decreases x
  {
    if a == x {
    } else if t[x] in t {
      var p := t[x];
      PurgedExactly(t, p, a);
      if a in Purged(t, x) {
        PurgedAbove(t, x, a);
        forall k | k in t && Above(t, a, k) ensures OnLine(t, k, x) {
          OnLineDown(t, k, x);
        }
      }
      if Above(t, a, x) && forall k :: k in t && Above(t, a, k) ==> OnLine(t, k, x) {
        forall k | k in t && Above(t, a, k) ensures OnLine(t, k, p) {
          OnLineUp(t, k, x);
        }
        forall c | c in Children(t, p) ensures c == x {
          SiblingsApart(t, c, x);
        }
        assert Children(t, p) == {x};
      }
    }
  }

  /** Removing `x` first does not change what purging its parent deletes. */
  lemma {:induction false} PurgedWithout(t: Tree, x: nat, y: nat)
    requires Rooted(t) && x in t && y in t && y <= t[x]
    ensures Purged(Without(t, {x}), y) == Purged(t, y)
    decreases y
  {
    var t' := Without(t, {x});
    assert Children(t', t[y]) == Children(t, t[y]);
    if t[y] in t && Children(t, t[y]) == {y} {
      PurgedWithout(t, x, t[y]);
    }
  }

  /** If the only child of a directory is purged, so is the directory. */
  lemma {:induction false} PurgedIsAChain(t: Tree, x: nat, c: nat)
    requires Rooted(t) && x in t && c in Purged(t, x)
    ensures c in t && (t[c] in t && Children(t, t[c]) == {c} ==> t[c] in Purged(t, x))
    decreases x
  {
    if c != x {
      PurgedIsAChain(t, t[x], c);
    } else if t[x] in t {
      assert t[x] in Purged(t, t[x]);
    }
  }

  lemma {:induction false} LineOfAncestors(t: Tree, a: nat, b: nat, x: nat)
    requires Rooted(t) && Above(t, a, x) && Above(t, b, x)
    ensures OnLine(t, a, b)
    decreases x
  {
    if a == x || b == x {
    } else {
      LineOfAncestors(t, a, b, t[x]);
    }
  }

  /** A directory that survives a purge and held something still does. */
  lemma {:induction false} SurvivorsStayBusy(t: Tree, x: nat, d: nat)
    requires Rooted(t) && x in t && d in t && d !in Purged(t, x) && Children(t, d) != {}
    ensures Children(Without(t, Purged(t, x)), d) != {}
  {
    var t' := Without(t, Purged(t, x));
    if exists c :: c in Children(t, d) && c !in Purged(t, x) {
      var c :| c in Children(t, d) && c !in Purged(t, x);
      assert c in Children(t', d);
    } else {
      var c :| c in Children(t, d);
      PurgedIsAChain(t, x, c);
      forall b | b in Children(t, d) ensures b == c {
        PurgedAbove(t, x, b);
        PurgedAbove(t, x, c);
        LineOfAncestors(t, b, c, x);
        SiblingsApart(t, b, c);
      }
      assert false;
    }
  }
}
