/** The category tree `CategoriesViewModel.RebuildTree` builds, at the level of ids: one node
    per distinct id (a later category replacing an earlier one), each linked under the node of
    its `ParentId` when that node exists, and the unlinked ones as roots. Parent links may form
    cycles; the lemmas here show that no node on a cycle hangs below a root. */
module CategoryForest {
  import opened Wrappers
  import opened Int32
  import opened EcwidJson

  /** The dictionary of `RebuildTree`: category by id. */
  type Forest = map<int32, Category>

  /** `dict[c.Id] = new CategoryTreeNode(c)` for each category in turn: the last one wins. */
  function LastById(items: seq<Category>): Forest {
    if items == [] then map[]
    else LastById(items[..|items| - 1])[items[|items| - 1].id := items[|items| - 1]]
  }

  /** No later category has the id of the one at `i`. */
  ghost predicate LastOfId(items: seq<Category>, i: int)
    requires 0 <= i < |items|
  {
    forall j :: i < j < |items| ==> items[j].id != items[i].id
  }

  /** The dictionary holds exactly the ids that occur. */
  lemma {:induction false} LastByIdKeys(items: seq<Category>)
    ensures forall k :: k in LastById(items) <==> exists i :: 0 <= i < |items| && items[i].id == k
  {
    if items != [] {
      var init := items[..|items| - 1];
      LastByIdKeys(init);
      assert forall i :: 0 <= i < |init| ==> init[i] == items[i];
    }
  }

  /** Each id maps to the last category of that id. */
  lemma {:induction false} LastByIdValues(items: seq<Category>)
    ensures forall i :: 0 <= i < |items| && LastOfId(items, i) ==>
      items[i].id in LastById(items) && LastById(items)[items[i].id] == items[i]
  {
    if items != [] {
      var init := items[..|items| - 1];
      LastByIdValues(init);
      forall i | 0 <= i < |items| - 1 && LastOfId(items, i)
        ensures items[i].id in LastById(items) && LastById(items)[items[i].id] == items[i]
      {
        assert init[i] == items[i];
        assert LastOfId(init, i);
      }
    }
  }

  /** Every category sits under its own id. */
  ghost predicate IdKeyed(m: Forest) {
    forall k :: k in m ==> m[k].id == k
  }

  lemma {:induction false} LastByIdKeyed(items: seq<Category>)
    ensures IdKeyed(LastById(items))
  {
    if items != [] {
      LastByIdKeyed(items[..|items| - 1]);
    }
  }

  /** The order in which the dictionary enumerates its entries: ids by first insertion. */
  function KeyOrder(items: seq<Category>): seq<int32> {
    if items == [] then []
    else
      var o := KeyOrder(items[..|items| - 1]);
      if items[|items| - 1].id in o then o else o + [items[|items| - 1].id]
  }

  ghost predicate Distinct(s: seq<int32>) {
    forall i, j :: 0 <= i < j < |s| ==> s[i] != s[j]
  }

  /** `order` lists every id of `m` exactly once. */
  ghost predicate Enumerates(order: seq<int32>, m: Forest) {
    && Distinct(order) && |order| == |m|
    && forall i :: 0 <= i < |order| ==> order[i] in m
  }

  /** So the ids `order` lists are those of `m`. */
  lemma EnumeratesMembers(order: seq<int32>, m: Forest)
    requires Enumerates(order, m)
    ensures forall k :: k in order <==> k in m
  {
    forall k | k in m ensures k in order {
      if k !in order {
        assert |m.Keys - {k}| == |m| - 1;
        DistinctBound(order, m.Keys - {k});
      }
    }
  }

  lemma {:induction false} KeyOrderEnumerates(items: seq<Category>)
    ensures Enumerates(KeyOrder(items), LastById(items))
  {
    if items != [] {
      var init := items[..|items| - 1];
      KeyOrderEnumerates(init);
      EnumeratesMembers(KeyOrder(init), LastById(init));
    }
  }

  // ---------- parents, children and roots ----------

  /** The parent a node is linked under: its `ParentId`, when the dictionary has that id. */
  function ParentOf(m: Forest, k: int32): (r: Option<int32>)
    requires k in m
    ensures r.Some? ==> r.value in m
  {
    if m[k].parentId.Some? && m[k].parentId.value in m then m[k].parentId else None
  }

  /** A root: no `ParentId`, or one the dictionary does not have. */
  predicate IsRoot(m: Forest, k: int32)
    requires k in m
  {
    ParentOf(m, k).None?
  }

  /** `Children` of node `p` once the links are made: the nodes whose parent is `p`, in the
      dictionary's order. */
  function ChildrenIds(m: Forest, order: seq<int32>, p: int32): seq<int32> {
    if order == [] then []
    else
      var c := order[|order| - 1];
      var rest := ChildrenIds(m, order[..|order| - 1], p);
      if c in m && ParentOf(m, c) == Some(p) then rest + [c] else rest
  }

  /** The nodes left without a parent, in the dictionary's order (before the sort by name). */
  function RootIds(m: Forest, order: seq<int32>): seq<int32> {
    if order == [] then []
    else
      var c := order[|order| - 1];
      var rest := RootIds(m, order[..|order| - 1]);
      if c in m && IsRoot(m, c) then rest + [c] else rest
  }

  /** The children of `p` are exactly the listed nodes whose parent is `p`. */
  lemma {:induction false} ChildrenMembers(m: Forest, order: seq<int32>, p: int32)
    ensures forall x :: x in ChildrenIds(m, order, p) <==> x in order && x in m && ParentOf(m, x) == Some(p)
  {
    if order != [] {
      var init := order[..|order| - 1];
      ChildrenMembers(m, init, p);
      assert forall y :: y in order <==> y in init || y == order[|order| - 1];
    }
  }

  /** The roots are exactly the listed nodes without a parent in the dictionary. */
  lemma {:induction false} RootMembers(m: Forest, order: seq<int32>)
    ensures forall x :: x in RootIds(m, order) <==> x in order && x in m && IsRoot(m, x)
  {
    if order != [] {
      var init := order[..|order| - 1];
      RootMembers(m, init);
      assert forall y :: y in order <==> y in init || y == order[|order| - 1];
    }
  }

  lemma {:induction false} ChildrenDistinct(m: Forest, order: seq<int32>, p: int32)
    requires Distinct(order)
    ensures Distinct(ChildrenIds(m, order, p))
  {
    if order != [] {
      var init := order[..|order| - 1];
      ChildrenDistinct(m, init, p);
      ChildrenMembers(m, init, p);
      assert order[|order| - 1] !in init;
    }
  }

  lemma {:induction false} RootsDistinct(m: Forest, order: seq<int32>)
    requires Distinct(order)
    ensures Distinct(RootIds(m, order))
  {
    if order != [] {
      var init := order[..|order| - 1];
      RootsDistinct(m, init);
      RootMembers(m, init);
      assert order[|order| - 1] !in init;
    }
  }

  /** Scanning one more id adds it to the children of its parent. */
  lemma ChildrenStep(m: Forest, keys: seq<int32>, j: nat, p: int32)
    requires j < |keys|
    ensures keys[j] in m && ParentOf(m, keys[j]) == Some(p) ==>
      ChildrenIds(m, keys[..j + 1], p) == ChildrenIds(m, keys[..j], p) + [keys[j]]
    ensures !(keys[j] in m && ParentOf(m, keys[j]) == Some(p)) ==>
      ChildrenIds(m, keys[..j + 1], p) == ChildrenIds(m, keys[..j], p)
  {
    assert keys[..j + 1][..j] == keys[..j];
  }

  /** Every node is a root or a child, never both; it is a child of exactly its parent, and it
      appears at most once in any list. */
  lemma TreeShape(m: Forest, order: seq<int32>, c: int32)
    requires Enumerates(order, m) && c in m
    ensures c in RootIds(m, order) <==> IsRoot(m, c)
    ensures forall p: int32 :: c in ChildrenIds(m, order, p) <==> ParentOf(m, c) == Some(p)
    ensures forall p: int32 :: Distinct(ChildrenIds(m, order, p))
    ensures Distinct(RootIds(m, order))
  {
    EnumeratesMembers(order, m);
    forall p: int32 ensures Distinct(ChildrenIds(m, order, p)) && (c in ChildrenIds(m, order, p) <==> ParentOf(m, c) == Some(p)) {
      ChildrenDistinct(m, order, p);
      ChildrenMembers(m, order, p);
    }
    RootsDistinct(m, order);
    RootMembers(m, order);
  }

  // ---------- walking up the parent links ----------

  /** The node `n` parent links above `k`, if the links go that far. */
  function Up(m: Forest, k: int32, n: nat): (r: Option<int32>)
    requires k in m
    ensures r.Some? ==> r.value in m
    decreases n
  {
    if n == 0 then Some(k)
    else match ParentOf(m, k)
      case None => None
      case Some(p) => Up(m, p, n - 1)
  }

  /** Walking `a + b` links is walking `a`, then `b`. */
  lemma {:induction false} UpCompose(m: Forest, k: int32, a: nat, b: nat)
    requires k in m
    ensures Up(m, k, a + b) == match Up(m, k, a) case None => None case Some(j) => Up(m, j, b)
    decreases a
  {
    if a > 0 {
      match ParentOf(m, k)
      case None =>
      case Some(p) => UpCompose(m, p, a - 1, b);
    }
  }

  /** `k` hangs below `p` (or is `p`). */
  ghost predicate Under(m: Forest, k: int32, p: int32) {
    k in m && exists n: nat :: Up(m, k, n) == Some(p)
  }

  /** `k` hangs below some root: the nodes `ExpandAll` reaches. */
  ghost predicate Rooted(m: Forest, k: int32) {
    exists r :: r in m && IsRoot(m, r) && Under(m, k, r)
  }

  /** `k` lies on a parent-link cycle. */
  ghost predicate OnCycle(m: Forest, k: int32) {
    k in m && exists n: nat :: n >= 1 && Up(m, k, n) == Some(k)
  }

  /** Going round a cycle `q` times comes back to the start. */
  lemma {:induction false} UpPeriodic(m: Forest, k: int32, n: nat, q: nat)
    requires k in m && Up(m, k, n) == Some(k)
    ensures Up(m, k, n * q) == Some(k)
  {
    if q > 0 {
      UpPeriodic(m, k, n, q - 1);
      UpCompose(m, k, n * (q - 1), n);
      assert n * (q - 1) + n == n * q;
    }
  }

  /** A node on a parent-link cycle hangs below no root: its links never run out. */
  lemma CycleNotRooted(m: Forest, k: int32)
    requires OnCycle(m, k)
    ensures !Rooted(m, k)
  {
    var n: nat :| n >= 1 && Up(m, k, n) == Some(k);
    if Rooted(m, k) {
      var r :| r in m && IsRoot(m, r) && Under(m, k, r);
      var d: nat :| Up(m, k, d) == Some(r);
      UpCompose(m, k, d, 1);
      assert Up(m, k, d + 1) == None;
      UpPeriodic(m, k, n, d + 1);
      var far := n * (d + 1);
      assert far >= d + 1 by {
        assert n * (d + 1) == (n - 1) * (d + 1) + (d + 1);
      }
      UpCompose(m, k, d + 1, far - (d + 1));
      assert false;
    }
  }

  /** Whatever is under a node is under its parent. */
  lemma UnderParent(m: Forest, k: int32, c: int32, p: int32)
    requires Under(m, k, c) && c in m && ParentOf(m, c) == Some(p)
    ensures Under(m, k, p)
  {
    var n: nat :| Up(m, k, n) == Some(c);
    UpCompose(m, k, n, 1);
    assert Up(m, k, n + 1) == Some(p);
  }

  /** Whatever is under `p`, other than `p`, is under one of its children. */
  lemma UnderSomeChild(m: Forest, order: seq<int32>, k: int32, p: int32)
    requires Enumerates(order, m) && Under(m, k, p) && k != p
    ensures exists j :: 0 <= j < |ChildrenIds(m, order, p)| && Under(m, k, ChildrenIds(m, order, p)[j])
  {
    var cs := ChildrenIds(m, order, p);
    var n: nat :| Up(m, k, n) == Some(p);
    assert n >= 1;
    UpCompose(m, k, n - 1, 1);
    var c := Up(m, k, n - 1).value;
    assert ParentOf(m, c) == Some(p);
    TreeShape(m, order, c);
    assert c in cs;
    var j :| 0 <= j < |cs| && cs[j] == c;
    assert Up(m, k, n - 1) == Some(cs[j]);
  }

  /** The nodes under `p` are `p` and the nodes under its children. */
  lemma UnderChildren(m: Forest, order: seq<int32>, k: int32, p: int32)
    requires Enumerates(order, m) && k in m && p in m
    ensures Under(m, k, p) <==> k == p || exists j :: 0 <= j < |ChildrenIds(m, order, p)| && Under(m, k, ChildrenIds(m, order, p)[j])
  {
    var cs := ChildrenIds(m, order, p);
    if k == p {
      assert Up(m, k, 0) == Some(p);
    } else if Under(m, k, p) {
      UnderSomeChild(m, order, k, p);
    } else if j :| 0 <= j < |cs| && Under(m, k, cs[j]) {
      assert cs[j] in cs;
      ChildrenMembers(m, order, p);
      UnderParent(m, k, cs[j], p);
    }
  }

  /** The nodes under `p`, `p` included. */
  ghost function Below(m: Forest, p: int32): set<int32> {
    set k | k in m && Under(m, k, p)
  }

  /** The nodes under any of `ids`. */
  ghost function BelowAll(m: Forest, ids: seq<int32>): set<int32> {
    if ids == [] then {} else BelowAll(m, ids[..|ids| - 1]) + Below(m, ids[|ids| - 1])
  }

  lemma {:induction false} BelowAllMembers(m: Forest, ids: seq<int32>, k: int32)
    ensures k in BelowAll(m, ids) <==> exists j :: 0 <= j < |ids| && Under(m, k, ids[j])
  {
    if ids != [] {
      var init := ids[..|ids| - 1];
      BelowAllMembers(m, init, k);
      if j :| 0 <= j < |ids| && Under(m, k, ids[j]) {
        if j < |init| {
          assert init[j] == ids[j];
        }
      }
      if j :| 0 <= j < |init| && Under(m, k, init[j]) {
        assert ids[j] == init[j];
      }
    }
  }

  /** Extending the list by one id adds what is under it. */
  lemma BelowAllStep(m: Forest, ids: seq<int32>, i: nat)
    requires i < |ids|
    ensures BelowAll(m, ids[..i + 1]) == BelowAll(m, ids[..i]) + Below(m, ids[i])
  {
    assert ids[..i + 1][..i] == ids[..i];
  }

  /** The nodes under `p` are `p` and those under its children. */
  lemma BelowSplit(m: Forest, order: seq<int32>, p: int32)
    requires Enumerates(order, m) && p in m
    ensures Below(m, p) == {p} + BelowAll(m, ChildrenIds(m, order, p))
  {
    var cs := ChildrenIds(m, order, p);
    forall k ensures k in Below(m, p) <==> k in {p} + BelowAll(m, cs) {
      BelowAllMembers(m, cs, k);
      if k in m {
        UnderChildren(m, order, k, p);
      } else {
        assert k != p && k !in Below(m, p);
      }
    }
  }

  // ---------- the path `SetExpanded` follows down from a root ----------

  /** A path down the tree: a root, then at each step a child of the previous node. */
  ghost predicate Chain(m: Forest, path: seq<int32>) {
    && |path| >= 1
    && (forall i :: 0 <= i < |path| ==> path[i] in m)
    && IsRoot(m, path[0])
    && forall i :: 1 <= i < |path| ==> ParentOf(m, path[i]) == Some(path[i - 1])
  }

  /** From the `j`-th node of a path, `d` links up lead to the `(j - d)`-th. */
  lemma {:induction false} ChainUp(m: Forest, path: seq<int32>, j: nat, d: nat)
    requires Chain(m, path) && j < |path| && d <= j
    ensures Up(m, path[j], d) == Some(path[j - d])
    decreases d
  {
    if d > 0 {
      assert ParentOf(m, path[j]) == Some(path[j - 1]);
      ChainUp(m, path, j - 1, d - 1);
    }
  }

  /** A path down from a root visits no node twice. */
  lemma ChainDistinct(m: Forest, path: seq<int32>)
    requires Chain(m, path)
    ensures Distinct(path)
  {
    forall i, j | 0 <= i < j < |path| ensures path[i] != path[j] {
      ChainUp(m, path, j, j);
      assert Rooted(m, path[j]);
      if path[i] == path[j] {
        ChainUp(m, path, j, j - i);
        assert OnCycle(m, path[j]);
        CycleNotRooted(m, path[j]);
      }
    }
  }

  /** A sequence of distinct elements of `keys` is no longer than `keys` has elements. */
  lemma {:induction false} DistinctBound(s: seq<int32>, keys: set<int32>)
    requires Distinct(s) && forall i :: 0 <= i < |s| ==> s[i] in keys
    ensures |s| <= |keys|
  {
    if s != [] {
      var init, x := s[..|s| - 1], s[|s| - 1];
      assert forall i :: 0 <= i < |init| ==> init[i] in keys - {x};
      DistinctBound(init, keys - {x});
    }
  }

  /** So a path down from a root is no longer than the number of nodes. */
  lemma ChainBound(m: Forest, path: seq<int32>)
    requires Chain(m, path)
    ensures |path| <= |m|
  {
    ChainDistinct(m, path);
    DistinctBound(path, m.Keys);
  }

  /** Stepping down to a child extends a path. */
  lemma ChildChain(m: Forest, order: seq<int32>, path: seq<int32>, c: int32)
    requires Enumerates(order, m) && Chain(m, path)
    requires c in ChildrenIds(m, order, path[|path| - 1])
    ensures Chain(m, path + [c]) && |path + [c]| <= |m|
  {
    ChildrenMembers(m, order, path[|path| - 1]);
    assert c in m;
    ChainBound(m, path + [c]);
  }
}
