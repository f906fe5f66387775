/** `CategoriesViewModel` and `CategoryTreeNode`: the category tree shown in the categories
    view, rebuilt from the stored or the fetched categories, with expand and collapse over
    every node below the roots, and the full sync that upserts the fetched categories in
    batches of 200. */
module CategoriesTree {
  import opened Wrappers
  import opened Int32
  import opened EcwidJson
  import opened Records
  import opened Upsert
  import opened CatalogStores
  import opened Chunking
  import opened Sorting
  import opened CategoryForest
  import opened CategoryRecords

  /** The properties a node reports through `PropertyChanged`. */
  datatype NodeProperty = IsExpandedProperty | IsSelectedProperty

  /** What a setter reports: the property's name when the value changes, nothing otherwise. */
  function Notification(before: bool, after: bool, p: NodeProperty): (r: seq<NodeProperty>)
    ensures |r| <= 1 && (r == [] <==> before == after) && (r != [] ==> r[0] == p)
  {
    if before != after then [p] else []
  }

  /** Setting a value in two steps, one of which changes nothing, reports as setting it in
      one step. */
  lemma Renotify(s: seq<NodeProperty>, a: bool, b: bool, c: bool, p: NodeProperty)
    requires a == b || b == c
    ensures a == b ==> s + Notification(a, b, p) == s
    ensures s + Notification(a, b, p) + Notification(b, c, p) == s + Notification(a, c, p)
  {
    if a == b {
      assert s + Notification(a, b, p) == s;
    } else {
      assert s + Notification(a, b, p) + Notification(b, c, p) == s + Notification(a, b, p);
    }
  }

  /** `CategoryTreeNode`: the data of one category, its links in the tree and its visual
      state. */
  class CategoryTreeNode {
    const id: int32
    const name: string
    const enabled: bool
    const updated: Option<Instant>
    const productCount: int
    const parentId: Option<int32>
    var parent: CategoryTreeNode?
    var children: seq<CategoryTreeNode>
    var isExpanded: bool
    var isSelected: bool
    /** The `PropertyChanged` events raised so far, in order. */
    var changes: seq<NodeProperty>

    /** The node holds the data of `c`. */
    predicate Shows(c: Category) {
      id == c.id && name == c.name && enabled == c.enabled && updated == c.updated && parentId == c.parentId
    }

    /** `new CategoryTreeNode(c)`: the data of `c` (the product count is not copied), no links,
        collapsed and not selected. */
    constructor(c: Category)
      ensures Shows(c) && productCount == 0
      ensures parent == null && children == [] && !isExpanded && !isSelected && changes == []
    {
      id, name, enabled, updated, productCount, parentId := c.id, c.name, c.enabled, c.updated, 0, c.parentId;
      parent, children := null, [];
      isExpanded, isSelected := false, false;
      changes := [];
    }

    /** The `IsExpanded` setter: reports only a change. */
    method SetIsExpanded(value: bool)
      modifies `isExpanded, `changes
      ensures isExpanded == value
      ensures changes == old(changes) + Notification(old(isExpanded), value, IsExpandedProperty)
    {
      if isExpanded != value {
        isExpanded := value;
        changes := changes + [IsExpandedProperty];
      }
    }

    /** The `IsSelected` setter: reports only a change. */
    method SetIsSelected(value: bool)
      modifies `isSelected, `changes
      ensures isSelected == value
      ensures changes == old(changes) + Notification(old(isSelected), value, IsSelectedProperty)
    {
      if isSelected != value {
        isSelected := value;
        changes := changes + [IsSelectedProperty];
      }
    }
  }

  /** The nodes of `ids`, in order (ids without a node are skipped). */
  function NodesOf(nodes: map<int32, CategoryTreeNode>, ids: seq<int32>): seq<CategoryTreeNode> {
    if ids == [] then []
    else
      var rest := NodesOf(nodes, ids[..|ids| - 1]);
      if ids[|ids| - 1] in nodes then rest + [nodes[ids[|ids| - 1]]] else rest
  }

  lemma NodesOfAppend(nodes: map<int32, CategoryTreeNode>, ids: seq<int32>, x: int32)
    requires x in nodes
    ensures NodesOf(nodes, ids + [x]) == NodesOf(nodes, ids) + [nodes[x]]
  {
    assert (ids + [x])[..|ids|] == ids;
  }

  /** When every id has a node, `NodesOf` maps each id to its node. */
  lemma {:induction false} NodesOfAt(nodes: map<int32, CategoryTreeNode>, ids: seq<int32>)
    requires forall i :: 0 <= i < |ids| ==> ids[i] in nodes
    ensures |NodesOf(nodes, ids)| == |ids| && forall i :: 0 <= i < |ids| ==> NodesOf(nodes, ids)[i] == nodes[ids[i]]
  {
    if ids != [] {
      NodesOfAt(nodes, ids[..|ids| - 1]);
    }
  }

  /** `StringComparer.CurrentCultureIgnoreCase` orders any two names. */
  ghost predicate TotalLe(le: (string, string) -> bool) {
    forall a, b :: le(a, b) || le(b, a)
  }

  /** `OrderBy(n => n.Name, comparer)`: nodes compared by name. */
  function ByName(le: (string, string) -> bool): (CategoryTreeNode, CategoryTreeNode) -> bool {
    (a: CategoryTreeNode, b: CategoryTreeNode) => le(a.name, b.name)
  }

  lemma ByNameTotal(le: (string, string) -> bool, s: seq<CategoryTreeNode>)
    requires TotalLe(le)
    ensures TotalOn(s, ByName(le))
  {
    forall i, j | 0 <= i < |s| && 0 <= j < |s| ensures ByName(le)(s[i], s[j]) || ByName(le)(s[j], s[i]) {
      assert le(s[i].name, s[j].name) || le(s[j].name, s[i].name);
    }
  }

  /** The node linked above node `k`: that of its parent, or none. */
  function ParentNode(m: Forest, nodes: map<int32, CategoryTreeNode>, k: int32): CategoryTreeNode?
    requires k in m && m.Keys == nodes.Keys
  {
    match ParentOf(m, k)
    case None => null
    case Some(p) => nodes[p]
  }

  /** The children links: each node holds the nodes of its child ids, in dictionary order. */
  ghost predicate Linked(m: Forest, order: seq<int32>, nodes: map<int32, CategoryTreeNode>)
    reads nodes.Values`children
  {
    && Enumerates(order, m) && m.Keys == nodes.Keys
    && Kids(nodes) == KidsAt(m, nodes, order)
  }

  /** The parent link each node holds. */
  ghost function Parents(nodes: map<int32, CategoryTreeNode>): map<int32, CategoryTreeNode?>
    reads nodes.Values`parent
  {
    map k | k in nodes :: nodes[k].parent
  }

  lemma ParentsAre(nodes: map<int32, CategoryTreeNode>, ups: map<int32, CategoryTreeNode?>)
    requires nodes.Keys == ups.Keys && forall k :: k in nodes ==> nodes[k].parent == ups[k]
    ensures Parents(nodes) == ups
  {
  }

  /** The children each node holds. */
  ghost function Kids(nodes: map<int32, CategoryTreeNode>): map<int32, seq<CategoryTreeNode>>
    reads nodes.Values`children
  {
    map k | k in nodes :: nodes[k].children
  }

  lemma KidsAre(nodes: map<int32, CategoryTreeNode>, kids: map<int32, seq<CategoryTreeNode>>)
    requires nodes.Keys == kids.Keys && forall k :: k in nodes ==> nodes[k].children == kids[k]
    ensures Kids(nodes) == kids
  {
  }

  /** The `IsExpanded` flag of each node. */
  ghost function Expanded(nodes: map<int32, CategoryTreeNode>): map<int32, bool>
    reads nodes.Values`isExpanded
  {
    map k | k in nodes :: nodes[k].isExpanded
  }

  /** The notifications each node has raised. */
  ghost function Changes(nodes: map<int32, CategoryTreeNode>): map<int32, seq<NodeProperty>>
    reads nodes.Values`changes
  {
    map k | k in nodes :: nodes[k].changes
  }

  lemma ExpandedAre(nodes: map<int32, CategoryTreeNode>, e: map<int32, bool>)
    requires nodes.Keys == e.Keys && forall k :: k in nodes ==> nodes[k].isExpanded == e[k]
    ensures Expanded(nodes) == e
  {
  }

  lemma ChangesAre(nodes: map<int32, CategoryTreeNode>, c: map<int32, seq<NodeProperty>>)
    requires nodes.Keys == c.Keys && forall k :: k in nodes ==> nodes[k].changes == c[k]
    ensures Changes(nodes) == c
  {
  }

  /** The flags `e` with those of `s` set to `v`. */
  function Override(e: map<int32, bool>, s: set<int32>, v: bool): (r: map<int32, bool>)
    ensures r.Keys == e.Keys
  {
    map k | k in e :: if k in s then v else e[k]
  }

  /** The notifications `c` after flags went from `before` to `after`: one `IsExpanded` more
      for each node whose flag changed. */
  function Notified(c: map<int32, seq<NodeProperty>>, before: map<int32, bool>, after: map<int32, bool>): (r: map<int32, seq<NodeProperty>>)
    requires c.Keys <= before.Keys && c.Keys <= after.Keys
    ensures r.Keys == c.Keys
  {
    map k | k in c :: c[k] + Notification(before[k], after[k], IsExpandedProperty)
  }

  /** Setting the flags of `s` to `v`, then those of `t` to `v`, sets those of `s + t`, and
      reports each changed flag once. */
  lemma OverrideTwice(c: map<int32, seq<NodeProperty>>, e: map<int32, bool>, s: set<int32>, t: set<int32>, v: bool)
    requires c.Keys == e.Keys
    ensures Override(Override(e, s, v), t, v) == Override(e, s + t, v)
    ensures Notified(Notified(c, e, Override(e, s, v)), Override(e, s, v), Override(Override(e, s, v), t, v)) ==
      Notified(c, e, Override(e, s + t, v))
  {
    var e1 := Override(e, s, v);
    var e2 := Override(e1, t, v);
    forall k | k in e ensures e2[k] == Override(e, s + t, v)[k] {
    }
    assert e2 == Override(e, s + t, v);
    var n2, n := Notified(Notified(c, e, e1), e1, e2), Notified(c, e, e2);
    forall k | k in c ensures n2[k] == n[k] {
      Renotify(c[k], e[k], e1[k], e2[k], IsExpandedProperty);
    }
    assert n2 == n;
  }

  /** Setting no flag changes nothing and reports nothing. */
  lemma OverrideNone(c: map<int32, seq<NodeProperty>>, e: map<int32, bool>, v: bool)
    requires c.Keys == e.Keys
    ensures Override(e, {}, v) == e && Notified(c, e, e) == c
  {
    forall k | k in c ensures Notified(c, e, e)[k] == c[k] {
      Renotify(c[k], e[k], e[k], e[k], IsExpandedProperty);
    }
  }

  /** Every node is collapsed, not selected, and has reported nothing: fresh from its
      constructor. */
  ghost predicate Pristine(nodes: map<int32, CategoryTreeNode>)
    reads nodes.Values`isExpanded, nodes.Values`isSelected, nodes.Values`changes
  {
    forall k :: k in nodes ==> !nodes[k].isExpanded && !nodes[k].isSelected && nodes[k].changes == []
  }

  /** Whether the nodes are pristine depends on their visual state alone. */
  twostate lemma PristineKept(nodes: map<int32, CategoryTreeNode>)
    requires old(Pristine(nodes))
    requires forall k :: k in nodes ==>
      old(nodes[k].isExpanded) == nodes[k].isExpanded && old(nodes[k].isSelected) == nodes[k].isSelected &&
      old(nodes[k].changes) == nodes[k].changes
    ensures Pristine(nodes)
  {
  }

  /** Each node is filed under its own id. */
  predicate KeyedById(nodes: map<int32, CategoryTreeNode>) {
    forall k :: k in nodes ==> nodes[k].id == k
  }

  /** The roots are nodes of root ids, and every root id's node is among them. */
  ghost predicate RootsOf(m: Forest, nodes: map<int32, CategoryTreeNode>, roots: seq<CategoryTreeNode>) {
    && (forall i :: 0 <= i < |roots| ==> roots[i].id in m && IsRoot(m, roots[i].id) && roots[i].id in nodes && nodes[roots[i].id] == roots[i])
    && (forall r :: r in m && IsRoot(m, r) && r in nodes ==> nodes[r] in roots)
  }

  /** No two of the nodes have the same id. */
  predicate UniqueIds(ns: seq<CategoryTreeNode>) {
    forall a, b :: 0 <= a < b < |ns| ==> ns[a].id != ns[b].id
  }

  /** A node occurs at most once among nodes with distinct ids. */
  lemma {:induction false} UniqueOnce(ns: seq<CategoryTreeNode>, n: CategoryTreeNode)
    requires UniqueIds(ns)
    ensures multiset(ns)[n] <= 1
  {
    if ns != [] {
      var init := ns[..|ns| - 1];
      assert ns == init + [ns[|ns| - 1]];
      UniqueOnce(init, n);
    }
  }

  /** A node found at two positions occurs twice. */
  lemma Twice(ns: seq<CategoryTreeNode>, a: nat, b: nat)
    requires a < b < |ns| && ns[a] == ns[b]
    ensures multiset(ns)[ns[a]] >= 2
  {
    assert ns == ns[..b] + [ns[b]] + ns[b + 1..];
    assert ns[..b][a] == ns[a];
  }

  /** Reordering nodes with distinct ids keeps their ids distinct. */
  lemma UniqueIdsPermuted(xs: seq<CategoryTreeNode>, ys: seq<CategoryTreeNode>)
    requires multiset(xs) == multiset(ys) && UniqueIds(ys)
    ensures UniqueIds(xs)
  {
    forall a, b | 0 <= a < b < |xs| ensures xs[a].id != xs[b].id {
      if xs[a] == xs[b] {
        Twice(xs, a, b);
        UniqueOnce(ys, xs[a]);
      } else if xs[a].id == xs[b].id {
        assert xs[a] in multiset(ys) && xs[b] in multiset(ys);
        var p :| 0 <= p < |ys| && ys[p] == xs[a];
      }
    }
  }

  /** The nodes `RebuildTree` leaves: one per id of `m`, showing its category, and as roots
      each parentless node once, sorted by name. */
  ghost predicate Tree(m: Forest, order: seq<int32>, nodes: map<int32, CategoryTreeNode>, roots: seq<CategoryTreeNode>, le: (string, string) -> bool) {
    && Enumerates(order, m) && m.Keys == nodes.Keys && IdKeyed(m) && TotalLe(le)
    && (forall k :: k in nodes ==> nodes[k].Shows(m[k]))
    && RootsOf(m, nodes, roots) && UniqueIds(roots) && SortedBy(roots, ByName(le))
  }

  /** The links `RebuildTree` leaves: each node linked to the node of its parent and holding
      the nodes of its children in dictionary order. */
  ghost predicate Wired(m: Forest, order: seq<int32>, nodes: map<int32, CategoryTreeNode>)
    reads nodes.Values`parent, nodes.Values`children
  {
    && m.Keys == nodes.Keys
    && Parents(nodes) == ParentLinks(m, nodes)
    && Kids(nodes) == KidsAt(m, nodes, order)
  }

  /** Any reordering of the nodes of exactly the root ids holds the roots. */
  lemma RootsOfIds(m: Forest, nodes: map<int32, CategoryTreeNode>, ids: seq<int32>, roots: seq<CategoryTreeNode>)
    requires m.Keys == nodes.Keys && KeyedById(nodes) && multiset(roots) == multiset(NodesOf(nodes, ids))
    requires forall i :: 0 <= i < |ids| ==> ids[i] in m && IsRoot(m, ids[i])
    requires forall r :: r in m && IsRoot(m, r) ==> r in ids
    ensures RootsOf(m, nodes, roots)
  {
    var rs := NodesOf(nodes, ids);
    NodesOfAt(nodes, ids);
    forall i | 0 <= i < |roots| ensures roots[i].id in m && IsRoot(m, roots[i].id) && roots[i].id in nodes && nodes[roots[i].id] == roots[i] {
      assert roots[i] in multiset(rs);
      var j :| 0 <= j < |rs| && rs[j] == roots[i];
    }
    forall r | r in m && IsRoot(m, r) && r in nodes ensures nodes[r] in roots {
      var j :| 0 <= j < |ids| && ids[j] == r;
      assert rs[j] in multiset(roots);
    }
  }

  /** Nodes that show the categories of an id-keyed forest are filed under their own ids. */
  lemma ShowsKeyed(m: Forest, nodes: map<int32, CategoryTreeNode>)
    requires IdKeyed(m) && m.Keys == nodes.Keys && forall k :: k in nodes ==> nodes[k].Shows(m[k])
    ensures KeyedById(nodes) && forall k :: k in nodes ==> nodes[k].parentId == m[k].parentId
  {
  }

  /** Nodes fresh from their constructor have no links. */
  lemma NoLinks(m: Forest, nodes: map<int32, CategoryTreeNode>)
    requires m.Keys == nodes.Keys
    requires forall k :: k in nodes ==> nodes[k].parent == null && nodes[k].children == []
    ensures Parents(nodes) == ParentsAt(m, nodes, []) && Kids(nodes) == KidsAt(m, nodes, [])
  {
    ParentsAre(nodes, ParentsAt(m, nodes, []));
    KidsAre(nodes, KidsAt(m, nodes, []));
  }

  /** The parent link of every node of a built tree: the node of its parent, if any. */
  ghost function ParentLinks(m: Forest, nodes: map<int32, CategoryTreeNode>): map<int32, CategoryTreeNode?>
    requires m.Keys == nodes.Keys
  {
    map k | k in m :: ParentNode(m, nodes, k)
  }

  /** The parent link every node has once the ids of `prefix` are linked. */
  ghost function ParentsAt(m: Forest, nodes: map<int32, CategoryTreeNode>, prefix: seq<int32>): map<int32, CategoryTreeNode?>
    requires m.Keys == nodes.Keys
  {
    map k | k in m :: if k in prefix then ParentNode(m, nodes, k) else null
  }

  /** Linking one more id sets its parent link and no other. */
  lemma ParentsStep(m: Forest, nodes: map<int32, CategoryTreeNode>, keys: seq<int32>, j: nat)
    requires j < |keys| && keys[j] in m && m.Keys == nodes.Keys
    ensures ParentsAt(m, nodes, keys[..j + 1]) == ParentsAt(m, nodes, keys[..j])[keys[j] := ParentNode(m, nodes, keys[j])]
  {
    assert keys[..j + 1] == keys[..j] + [keys[j]];
  }

  /** Once every id is linked, each node's parent link is that of its parent. */
  lemma ParentsDone(m: Forest, nodes: map<int32, CategoryTreeNode>, order: seq<int32>)
    requires Enumerates(order, m) && m.Keys == nodes.Keys
    ensures ParentsAt(m, nodes, order) == ParentLinks(m, nodes)
  {
    EnumeratesMembers(order, m);
  }

  /** The nodes of a built tree are filed under their own ids. */
  lemma BuiltKeyed(m: Forest, order: seq<int32>, nodes: map<int32, CategoryTreeNode>, roots: seq<CategoryTreeNode>, le: (string, string) -> bool)
    requires Tree(m, order, nodes, roots, le)
    ensures KeyedById(nodes)
  {
    forall k | k in nodes ensures nodes[k].id == k {
      assert nodes[k].Shows(m[k]);
    }
  }

  /** The children every node has once the ids of `prefix` are linked. */
  ghost function KidsAt(m: Forest, nodes: map<int32, CategoryTreeNode>, prefix: seq<int32>): map<int32, seq<CategoryTreeNode>> {
    map k | k in m :: NodesOf(nodes, ChildrenIds(m, prefix, k))
  }

  /** The children `kids` once node `c` is appended to those of its parent, if it has one. */
  ghost function Adopt(kids: map<int32, seq<CategoryTreeNode>>, m: Forest, nodes: map<int32, CategoryTreeNode>, c: int32): map<int32, seq<CategoryTreeNode>>
    requires c in m && c in nodes && m.Keys <= kids.Keys
  {
    match ParentOf(m, c)
    case None => kids
    case Some(p) => kids[p := kids[p] + [nodes[c]]]
  }

  /** Linking one more id appends its node to the children of its parent. */
  lemma KidsStep(m: Forest, nodes: map<int32, CategoryTreeNode>, keys: seq<int32>, j: nat)
    requires j < |keys| && keys[j] in m && m.Keys == nodes.Keys
    ensures KidsAt(m, nodes, keys[..j + 1]) == Adopt(KidsAt(m, nodes, keys[..j]), m, nodes, keys[j])
  {
    var before, after := KidsAt(m, nodes, keys[..j]), KidsAt(m, nodes, keys[..j + 1]);
    var adopted := Adopt(before, m, nodes, keys[j]);
    forall k | k in m ensures after[k] == adopted[k] {
      KidsStepAt(m, nodes, keys, j, k);
    }
  }

  lemma KidsStepAt(m: Forest, nodes: map<int32, CategoryTreeNode>, keys: seq<int32>, j: nat, k: int32)
    requires j < |keys| && keys[j] in m && m.Keys == nodes.Keys
    ensures NodesOf(nodes, ChildrenIds(m, keys[..j + 1], k)) ==
      if ParentOf(m, keys[j]) == Some(k) then NodesOf(nodes, ChildrenIds(m, keys[..j], k)) + [nodes[keys[j]]]
      else NodesOf(nodes, ChildrenIds(m, keys[..j], k))
  {
    ChildrenStep(m, keys, j, k);
    if ParentOf(m, keys[j]) == Some(k) {
      NodesOfAppend(nodes, ChildrenIds(m, keys[..j], k), keys[j]);
    }
  }

  /** The children of a node of a built tree are the nodes of its child ids. */
  lemma ChildNodes(m: Forest, order: seq<int32>, nodes: map<int32, CategoryTreeNode>, p: int32)
    requires m.Keys == nodes.Keys && p in m
    ensures |KidsAt(m, nodes, order)[p]| == |ChildrenIds(m, order, p)|
    ensures forall i :: 0 <= i < |ChildrenIds(m, order, p)| ==>
      ChildrenIds(m, order, p)[i] in nodes && KidsAt(m, nodes, order)[p][i] == nodes[ChildrenIds(m, order, p)[i]]
  {
    var ids := ChildrenIds(m, order, p);
    ChildrenMembers(m, order, p);
    assert forall i :: 0 <= i < |ids| ==> ids[i] in ids;
    NodesOfAt(nodes, ids);
  }

  /** The ids of some nodes. */
  function IdsOf(ns: seq<CategoryTreeNode>): (r: seq<int32>)
    ensures |r| == |ns| && forall i :: 0 <= i < |ns| ==> r[i] == ns[i].id
  {
    if ns == [] then [] else IdsOf(ns[..|ns| - 1]) + [ns[|ns| - 1].id]
  }

  /** The nodes below some root: those `ExpandAll` reaches. */
  ghost function RootedIds(m: Forest): set<int32> {
    set k | k in m && Rooted(m, k)
  }

  /** The nodes reached from the roots are exactly those below a root. */
  lemma RootedBelow(m: Forest, nodes: map<int32, CategoryTreeNode>, roots: seq<CategoryTreeNode>)
    requires RootsOf(m, nodes, roots) && m.Keys == nodes.Keys && KeyedById(nodes)
    ensures BelowAll(m, IdsOf(roots)) == RootedIds(m)
  {
    var ids := IdsOf(roots);
    forall k ensures k in BelowAll(m, ids) <==> k in RootedIds(m) {
      BelowAllMembers(m, ids, k);
      if Rooted(m, k) {
        var r :| r in m && IsRoot(m, r) && Under(m, k, r);
        var j :| 0 <= j < |roots| && roots[j] == nodes[r];
        assert ids[j] == r;
      }
    }
  }

  /** `CategoriesViewModel`: the root nodes of the tree, the loading flag and the category
      table it syncs into. `forest`, `order` and `nodes` record the dictionary of the last
      rebuild. */
  class CategoriesViewModel {
    const store: CategoryStore
    /** `StringComparer.CurrentCultureIgnoreCase`, as an order on names. */
    const nameLe: (string, string) -> bool
    var roots: seq<CategoryTreeNode>
    var isLoading: bool
    /** The batches handed to `UpsertBatchAsync`, in order. */
    var upserts: seq<seq<CategoryRecord>>
    ghost var forest: Forest
    ghost var order: seq<int32>
    ghost var nodes: map<int32, CategoryTreeNode>

    ghost predicate Valid()
      reads `roots, `forest, `order, `nodes, store, nodes.Values`parent, nodes.Values`children
    {
      store.Valid() && Built()
    }

    /** The roots and the dictionary are those of a rebuild. */
    ghost predicate Built()
      reads `roots, `forest, `order, `nodes, nodes.Values`parent, nodes.Values`children
    {
      Tree(forest, order, nodes, roots, nameLe) && Wired(forest, order, nodes)
    }

    constructor(store: CategoryStore, nameLe: (string, string) -> bool)
      requires store.Valid() && TotalLe(nameLe)
      ensures Valid()
      ensures this.store == store && this.nameLe == nameLe
      ensures roots == [] && !isLoading && upserts == [] && forest == map[]
    {
      this.store := store;
      this.nameLe := nameLe;
      roots := [];
      isLoading := false;
      upserts := [];
      forest := map[];
      order := [];
      nodes := map[];
    }

    // ---------- RebuildTree ----------

    /** `RebuildTree(items)`: one fresh node per id (the last category of that id), linked
        under the node of its parent when there is one; the others become the roots, by name. */
    method RebuildTree(items: seq<Category>)
      requires TotalLe(nameLe)
      modifies `roots, `forest, `order, `nodes
      ensures Built()
      ensures forall k :: k in nodes ==> fresh(nodes[k])
      ensures Pristine(nodes)
      ensures forest == LastById(items)
    {
      ghost var m;
      var dict, keys, rs;
      m, dict, keys, rs := BuildTree(items, nameLe);
      label built:
      roots, forest, order, nodes := rs, m, keys, dict;
      assert roots == rs && forest == m && order == keys && nodes == dict;
      NodesKept@built((m, keys, dict));
    }

    /** The links and the visual state of nodes nothing wrote to are as they were. */
    static twostate lemma NodesKept(built: (Forest, seq<int32>, map<int32, CategoryTreeNode>))
      requires old(Wired(built.0, built.1, built.2)) && old(Pristine(built.2)) && unchanged(built.2.Values)
      ensures Wired(built.0, built.1, built.2) && Pristine(built.2)
    {
    }

    /** The three loops of `RebuildTree`, on fresh nodes. */
    static method BuildTree(items: seq<Category>, le: (string, string) -> bool)
      returns (ghost m: Forest, dict: map<int32, CategoryTreeNode>, keys: seq<int32>, rs: seq<CategoryTreeNode>)
      requires TotalLe(le)
      ensures Tree(m, keys, dict, rs, le) && Wired(m, keys, dict)
      ensures m == LastById(items)
      ensures forall k :: k in dict ==> fresh(dict[k])
      ensures Pristine(dict)
    {
      m, dict, keys := CreateForest(items);
      LinkTree(m, dict, keys);
      rs := RootNodes(m, dict, keys, le);
    }

    /** The first loop of `RebuildTree`, its nodes read as a forest: one unlinked, pristine
        node per id, showing the last category with that id, the ids in order of first
        occurrence. */
    static method CreateForest(items: seq<Category>)
      returns (ghost m: Forest, dict: map<int32, CategoryTreeNode>, keys: seq<int32>)
      ensures m == LastById(items) && Enumerates(keys, m) && IdKeyed(m) && dict.Keys == m.Keys
      ensures forall k :: k in dict ==> fresh(dict[k]) && dict[k].Shows(m[k])
      ensures forall k :: k in dict ==> dict[k].parent == null && dict[k].children == []
      ensures Pristine(dict)
    {
      dict, keys := CreateNodes(items);
      m := LastById(items);
      KeyOrderEnumerates(items);
      LastByIdKeyed(items);
    }

    /** The second loop of `RebuildTree`, on nodes fresh from their constructor. */
    static method LinkTree(ghost m: Forest, dict: map<int32, CategoryTreeNode>, keys: seq<int32>)
      requires Enumerates(keys, m) && IdKeyed(m) && dict.Keys == m.Keys
      requires forall k :: k in dict ==> dict[k].Shows(m[k]) && dict[k].parent == null && dict[k].children == []
      requires Pristine(dict)
      modifies dict.Values`parent, dict.Values`children
      ensures Wired(m, keys, dict) && Pristine(dict) && KeyedById(dict)
    {
      ShowsKeyed(m, dict);
      NoLinks(m, dict);
      label created:
      LinkNodes(m, dict, keys);
      PristineKept@created(dict);
    }

    /** The first loop of `RebuildTree`: `dict[c.Id] = new CategoryTreeNode(c)`; `keys` is the
        dictionary's enumeration order. */
    static method CreateNodes(items: seq<Category>) returns (dict: map<int32, CategoryTreeNode>, keys: seq<int32>)
      ensures dict.Keys == LastById(items).Keys && keys == KeyOrder(items)
      ensures forall k :: k in dict ==> fresh(dict[k]) && dict[k].Shows(LastById(items)[k])
      ensures forall k :: k in dict ==> dict[k].parent == null && dict[k].children == []
      ensures Pristine(dict)
    {
      dict, keys := map[], [];
      var i := 0;
      while i < |items|
        invariant 0 <= i <= |items|
        invariant dict.Keys == LastById(items[..i]).Keys && keys == KeyOrder(items[..i])
        invariant forall k :: k in dict ==> fresh(dict[k]) && dict[k].Shows(LastById(items[..i])[k])
        invariant forall k :: k in dict ==> dict[k].parent == null && dict[k].children == []
        invariant forall k :: k in dict ==> !dict[k].isExpanded && !dict[k].isSelected && dict[k].changes == []
      {
        var c := items[i];
        assert items[..i + 1][..i] == items[..i] && items[..i + 1][i] == c;
        KeyOrderEnumerates(items[..i]);
        EnumeratesMembers(keys, LastById(items[..i]));
        if c.id !in dict {
          keys := keys + [c.id];
        }
        var n := new CategoryTreeNode(c);
        dict := dict[c.id := n];
        i := i + 1;
      }
      assert items[..i] == items;
    }

    /** The second loop of `RebuildTree`: each node, in dictionary order, is linked under the
        node of its `ParentId` when the dictionary has one. */
    static method LinkNodes(ghost m: Forest, dict: map<int32, CategoryTreeNode>, keys: seq<int32>)
      requires Enumerates(keys, m) && dict.Keys == m.Keys && KeyedById(dict)
      requires forall k :: k in dict ==> dict[k].parentId == m[k].parentId
      requires Parents(dict) == ParentsAt(m, dict, []) && Kids(dict) == KidsAt(m, dict, [])
      modifies dict.Values`parent, dict.Values`children
      ensures Parents(dict) == ParentLinks(m, dict)
      ensures Kids(dict) == KidsAt(m, dict, keys)
    {
      var j := 0;
      while j < |keys|
        invariant 0 <= j <= |keys|
        invariant Parents(dict) == ParentsAt(m, dict, keys[..j]) && Kids(dict) == KidsAt(m, dict, keys[..j])
      {
        assert keys[j] !in keys[..j] && keys[j] in m;
        assert dict[keys[j]].parent == Parents(dict)[keys[j]] == ParentsAt(m, dict, keys[..j])[keys[j]] == null;
        LinkOne(m, dict, keys, j);
        ParentsStep(m, dict, keys, j);
        KidsStep(m, dict, keys, j);
        j := j + 1;
      }
      assert keys[..j] == keys;
      ParentsDone(m, dict, keys);
    }

    /** One pass of the second loop: node `keys[j]`, not linked yet, is linked under the node
        of its `ParentId` when the dictionary has one, and appended to that node's children. */
    static method LinkOne(ghost m: Forest, dict: map<int32, CategoryTreeNode>, keys: seq<int32>, j: nat)
      requires dict.Keys == m.Keys && j < |keys| && keys[j] in m && KeyedById(dict)
      requires dict[keys[j]].parentId == m[keys[j]].parentId && dict[keys[j]].parent == null
      modifies dict.Values`parent, dict.Values`children
      ensures Parents(dict) == old(Parents(dict))[keys[j] := ParentNode(m, dict, keys[j])]
      ensures Kids(dict) == Adopt(old(Kids(dict)), m, dict, keys[j])
    {
      var n := dict[keys[j]];
      assert forall k :: k in dict && k != keys[j] ==> dict[k] != n;
      if n.parentId.Some? && n.parentId.value in dict {
        var parent := dict[n.parentId.value];
        assert ParentOf(m, keys[j]) == n.parentId;
        assert forall k :: k in dict && k != n.parentId.value ==> dict[k] != parent;
        n.parent := parent;
        parent.children := parent.children + [n];
      } else {
        assert ParentOf(m, keys[j]).None?;
      }
    }

    /** The third loop of `RebuildTree`: the nodes left without a parent, ordered by name. */
    static method RootNodes(ghost m: Forest, dict: map<int32, CategoryTreeNode>, keys: seq<int32>, le: (string, string) -> bool)
      returns (rs: seq<CategoryTreeNode>)
      requires Enumerates(keys, m) && dict.Keys == m.Keys && KeyedById(dict) && TotalLe(le)
      requires Parents(dict) == ParentLinks(m, dict)
      ensures RootsOf(m, dict, rs) && UniqueIds(rs) && SortedBy(rs, ByName(le))
    {
      var unlinked := Unlinked(m, dict, keys);
      rs := SortBy(unlinked, ByName(le));
      ghost var ids := RootIds(m, keys);
      RootMembers(m, keys);
      EnumeratesMembers(keys, m);
      RootsDistinct(m, keys);
      assert forall i :: 0 <= i < |ids| ==> ids[i] in ids;
      NodesOfAt(dict, ids);
      ByNameTotal(le, unlinked);
      SortBySorts(unlinked, ByName(le));
      RootsOfIds(m, dict, ids, rs);
      UniqueIdsPermuted(rs, unlinked);
    }

    /** The third loop of `RebuildTree` before the sort: the nodes left without a parent. */
    static method Unlinked(ghost m: Forest, dict: map<int32, CategoryTreeNode>, keys: seq<int32>) returns (rs: seq<CategoryTreeNode>)
      requires Enumerates(keys, m) && dict.Keys == m.Keys
      requires Parents(dict) == ParentLinks(m, dict)
      ensures rs == NodesOf(dict, RootIds(m, keys))
    {
      rs := [];
      var j := 0;
      while j < |keys|
        invariant 0 <= j <= |keys|
        invariant rs == NodesOf(dict, RootIds(m, keys[..j]))
      {
        assert keys[..j + 1][..j] == keys[..j] && keys[j] in m;
        assert dict[keys[j]].parent == Parents(dict)[keys[j]] == ParentNode(m, dict, keys[j]);
        if dict[keys[j]].parent == null {
          rs := rs + [dict[keys[j]]];
        }
        j := j + 1;
      }
      assert keys[..j] == keys;
    }

    // ---------- LoadLocalAsync ----------

    /** `LoadLocalAsync`: rebuild the tree from the stored categories, read by ascending id
        (`StoredForest` says what that dictionary holds). A call while loading changes
        nothing. The load runs to its end at once here, so `IsLoading`, raised for its
        duration, is only read as the guard. */
    method LoadLocal()
      requires Valid()
      modifies this
      ensures Valid() && upserts == old(upserts) && isLoading == old(isLoading)
      ensures old(isLoading) ==> roots == old(roots) && forest == old(forest) && order == old(order) && nodes == old(nodes)
      ensures !old(isLoading) ==> forest == LastById(CategoriesOf(InIdOrder(store.table)))
      ensures !old(isLoading) ==> Pristine(nodes) && forall k :: k in nodes ==> fresh(nodes[k])
    {
      if isLoading {
        return;
      }
      var recs := store.GetAll();
      var items := ReadCategories(recs);
      RebuildTree(items);
    }

    /** The loop of `LoadLocalAsync`: one `Category` per stored record, in the store's order. */
    static method ReadCategories(recs: seq<CategoryRecord>) returns (items: seq<Category>)
      ensures items == CategoriesOf(recs)
    {
      items := [];
      var i := 0;
      while i < |recs|
        invariant 0 <= i <= |recs| && items == CategoriesOf(recs[..i])
      {
        assert recs[..i + 1][..i] == recs[..i];
        items := items + [CategoryOfRecord(recs[i])];
        i := i + 1;
      }
      assert recs[..i] == recs;
    }

    // ---------- LoadAllAsync ----------

    /** `_store.UpsertBatchAsync(batch)`. */
    method UpsertBatch(batch: seq<CategoryRecord>)
      requires store.Valid()
      modifies `upserts, store
      ensures store.Valid()
      ensures store.table == UpsertAll(old(store.table), batch, CategoryId, CategoryRaw)
      ensures upserts == old(upserts) + [batch]
    {
      store.UpsertBatch(batch);
      upserts := upserts + [batch];
    }

    /** Adding one record to the open batch, and upserting the batch once it holds 200. The
        batches upserted so far are those of `done` (whole batches of 200) after `saved0`, onto
        the table `table0`. */
    method Accept(rec: CategoryRecord, ghost saved0: seq<seq<CategoryRecord>>, ghost table0: map<int, CategoryRecord>,
                  ghost done: seq<CategoryRecord>, batch: seq<CategoryRecord>)
      returns (ghost done': seq<CategoryRecord>, batch': seq<CategoryRecord>)
      requires store.Valid()
      requires |done| % BATCH_SIZE == 0 && |batch| < BATCH_SIZE
      requires upserts == saved0 + Chunks(done, BATCH_SIZE)
      requires store.table == UpsertAll(table0, done, CategoryId, CategoryRaw)
      modifies `upserts, store
      ensures store.Valid()
      ensures |done'| % BATCH_SIZE == 0 && |batch'| < BATCH_SIZE && done' + batch' == done + (batch + [rec])
      ensures upserts == saved0 + Chunks(done', BATCH_SIZE)
      ensures store.table == UpsertAll(table0, done', CategoryId, CategoryRaw)
    {
      batch' := batch + [rec];
      done' := done;
      if |batch'| >= BATCH_SIZE {
        FlushStep([], saved0, done, batch');
        UpsertAllAppend(table0, done, batch', CategoryId, CategoryRaw);
        UpsertBatch(batch');
        done' := done + batch';
        batch' := [];
      }
    }

    /** The flush after the loop: upsert the open batch when it is not empty. */
    method FlushRest(ghost saved0: seq<seq<CategoryRecord>>, ghost table0: map<int, CategoryRecord>,
                     ghost done: seq<CategoryRecord>, batch: seq<CategoryRecord>)
      requires store.Valid()
      requires |done| % BATCH_SIZE == 0 && |batch| < BATCH_SIZE
      requires upserts == saved0 + Chunks(done, BATCH_SIZE)
      requires store.table == UpsertAll(table0, done, CategoryId, CategoryRaw)
      modifies `upserts, store
      ensures store.Valid()
      ensures upserts == saved0 + Chunks(done + batch, BATCH_SIZE)
      ensures store.table == UpsertAll(table0, done + batch, CategoryId, CategoryRaw)
    {
      if |batch| > 0 {
        FlushStep([], saved0, done, batch);
        UpsertAllAppend(table0, done, batch, CategoryId, CategoryRaw);
        UpsertBatch(batch);
      } else {
        assert done + batch == done;
      }
    }

    /** The state after the first `k` passes of the `await foreach` loop: the categories of the
        first `k` pairs listed, and their records upserted in whole batches or held in the open
        batch. */
    ghost predicate SyncedTo(fetch: seq<(Category, string)>, now: Instant, k: nat, list: seq<Category>,
                             saved0: seq<seq<CategoryRecord>>, table0: map<int, CategoryRecord>,
                             done: seq<CategoryRecord>, batch: seq<CategoryRecord>)
      reads this, store
    {
      k <= |fetch| && store.Valid() && list == Fetched(fetch)[..k]
      && |done| % BATCH_SIZE == 0 && |batch| < BATCH_SIZE
      && done + batch == FetchedRecords(fetch, now)[..k]
      && upserts == saved0 + Chunks(done, BATCH_SIZE)
      && store.table == UpsertAll(table0, done, CategoryId, CategoryRaw)
    }

    /** The `await foreach` loop of `LoadAllAsync`: list each fetched category, count it, and
        upsert every full batch of 200 records. */
    method SyncLoop(fetch: seq<(Category, string)>, now: Instant)
      returns (fetched: nat, list: seq<Category>, ghost done: seq<CategoryRecord>, batch: seq<CategoryRecord>)
      requires store.Valid()
      modifies `upserts, store
      ensures fetched == |fetch|
      ensures SyncedTo(fetch, now, fetched, list, old(upserts), old(store.table), done, batch)
    {
      ghost var saved0, table0 := upserts, store.table;
      list, done, batch := [], [], [];
      fetched := 0;
      assert Fetched(fetch)[..0] == [];
      while fetched < |fetch|
        invariant fetched <= |fetch|
        invariant SyncedTo(fetch, now, fetched, list, saved0, table0, done, batch)
      {
        list, done, batch := SyncOne(fetch, now, fetched, list, saved0, table0, done, batch);
        fetched := fetched + 1;
      }
    }

    /** One pass of the `await foreach` loop: the `k`-th fetched category listed and its record
        added to the open batch. */
    method SyncOne(fetch: seq<(Category, string)>, now: Instant, k: nat, list: seq<Category>,
                   ghost saved0: seq<seq<CategoryRecord>>, ghost table0: map<int, CategoryRecord>,
                   ghost done: seq<CategoryRecord>, batch: seq<CategoryRecord>)
      returns (list': seq<Category>, ghost done': seq<CategoryRecord>, batch': seq<CategoryRecord>)
      requires k < |fetch| && SyncedTo(fetch, now, k, list, saved0, table0, done, batch)
      modifies `upserts, store
      ensures SyncedTo(fetch, now, k + 1, list', saved0, table0, done', batch')
    {
      var (c, raw) := fetch[k];
      list' := list + [c];
      assert Fetched(fetch)[..k + 1] == Fetched(fetch)[..k] + [c];
      Extend(FetchedRecords(fetch, now), k, done, batch);
      done', batch' := Accept(RecordOfCategory(c, raw, now), saved0, table0, done, batch);
    }

    /** After the last pass every fetched category is listed and every record is either
        upserted or in the open batch. */
    lemma SyncEnd(fetch: seq<(Category, string)>, now: Instant, list: seq<Category>,
                  saved0: seq<seq<CategoryRecord>>, table0: map<int, CategoryRecord>,
                  done: seq<CategoryRecord>, batch: seq<CategoryRecord>)
      requires SyncedTo(fetch, now, |fetch|, list, saved0, table0, done, batch)
      ensures store.Valid() && list == Fetched(fetch)
      ensures |done| % BATCH_SIZE == 0 && |batch| < BATCH_SIZE && done + batch == FetchedRecords(fetch, now)
      ensures upserts == saved0 + Chunks(done, BATCH_SIZE)
      ensures store.table == UpsertAll(table0, done, CategoryId, CategoryRaw)
    {
      assert Fetched(fetch)[..|fetch|] == Fetched(fetch) && FetchedRecords(fetch, now)[..|fetch|] == FetchedRecords(fetch, now);
    }

    /** `LoadAllAsync`: list and upsert every fetched category in batches of 200, then flush
        the remainder and rebuild the tree from the list. `failed` says that the fetch raised
        after yielding `fetch`: the error is reported, the remainder is not flushed and the tree
        is left as it was. A call while loading changes nothing; `IsLoading` is only read, as
        for `LoadLocal`. */
    method LoadAll(fetch: seq<(Category, string)>, failed: bool, now: Instant) returns (fetched: nat)
      requires Valid()
      modifies this, store
      ensures Valid()
      ensures isLoading == old(isLoading)
      ensures old(isLoading) ==> fetched == 0 && upserts == old(upserts) && store.table == old(store.table)
      ensures old(isLoading) || failed ==> roots == old(roots) && forest == old(forest) && order == old(order) && nodes == old(nodes)
      ensures !old(isLoading) ==> fetched == |fetch|
      ensures !old(isLoading) ==> upserts == old(upserts) + Chunks(Committed(FetchedRecords(fetch, now), failed), BATCH_SIZE)
      ensures !old(isLoading) ==> store.table == UpsertAll(old(store.table), Committed(FetchedRecords(fetch, now), failed), CategoryId, CategoryRaw)
      ensures !old(isLoading) && !failed ==> forest == LastById(Fetched(fetch))
      ensures !old(isLoading) && !failed ==> Pristine(nodes) && forall k :: k in nodes ==> fresh(nodes[k])
    {
      if isLoading {
        return 0;
      }
      var list, batch;
      ghost var done;
      label start:
      fetched, list, done, batch := SyncLoop(fetch, now);
      BuiltKept@start();
      Settle(fetch, failed, now, list, old(upserts), old(store.table), done, batch);
    }

    /** Whether the tree is built depends on the tree and its nodes' links alone. */
    twostate lemma BuiltKept()
      requires old(Built())
      requires unchanged(`roots, `forest, `order, `nodes) && unchanged(old(nodes).Values)
      ensures Built()
    {
    }

    /** What follows the loop of `LoadAllAsync`: when the fetch raised, the open batch is
        dropped and the error reported; otherwise the open batch is flushed and the tree
        rebuilt from the fetched categories. */
    method Settle(fetch: seq<(Category, string)>, failed: bool, now: Instant, list: seq<Category>,
                  ghost saved0: seq<seq<CategoryRecord>>, ghost table0: map<int, CategoryRecord>,
                  ghost done: seq<CategoryRecord>, batch: seq<CategoryRecord>)
      requires SyncedTo(fetch, now, |fetch|, list, saved0, table0, done, batch) && Built()
      modifies `upserts, store, `roots, `forest, `order, `nodes
      ensures store.Valid() && Built()
      ensures upserts == saved0 + Chunks(Committed(FetchedRecords(fetch, now), failed), BATCH_SIZE)
      ensures store.table == UpsertAll(table0, Committed(FetchedRecords(fetch, now), failed), CategoryId, CategoryRaw)
      ensures failed ==> roots == old(roots) && forest == old(forest) && order == old(order) && nodes == old(nodes)
      ensures !failed ==> forest == LastById(Fetched(fetch))
      ensures !failed ==> Pristine(nodes) && forall k :: k in nodes ==> fresh(nodes[k])
    {
      SyncEnd(fetch, now, list, saved0, table0, done, batch);
      if failed {
        CommittedOnRaise(done, batch);
      } else {
        Complete(fetch, now, list, saved0, table0, done, batch);
      }
    }

    /** The fetch ran to its end: the open batch is flushed and the tree rebuilt from the
        fetched categories. */
    method Complete(fetch: seq<(Category, string)>, now: Instant, list: seq<Category>,
                    ghost saved0: seq<seq<CategoryRecord>>, ghost table0: map<int, CategoryRecord>,
                    ghost done: seq<CategoryRecord>, batch: seq<CategoryRecord>)
      requires store.Valid() && TotalLe(nameLe) && list == Fetched(fetch)
      requires |done| % BATCH_SIZE == 0 && |batch| < BATCH_SIZE && done + batch == FetchedRecords(fetch, now)
      requires upserts == saved0 + Chunks(done, BATCH_SIZE)
      requires store.table == UpsertAll(table0, done, CategoryId, CategoryRaw)
      modifies `upserts, store, `roots, `forest, `order, `nodes
      ensures store.Valid() && Built() && forest == LastById(Fetched(fetch))
      ensures Pristine(nodes) && forall k :: k in nodes ==> fresh(nodes[k])
      ensures upserts == saved0 + Chunks(FetchedRecords(fetch, now), BATCH_SIZE)
      ensures store.table == UpsertAll(table0, FetchedRecords(fetch, now), CategoryId, CategoryRaw)
    {
      FlushRest(saved0, table0, done, batch);
      RebuildTree(list);
    }

    // ---------- SetExpanded, ExpandAll, CollapseAll ----------

    /** `SetExpanded(n, value)`: `n` and every node under it take `value`, each reporting the
        change if there is one. `m`, `order` and `nodes` are the dictionary of the last rebuild,
        and `path` the way down from a root to `n`, which bounds the recursion. */
    static method SetExpanded(n: CategoryTreeNode, value: bool, ghost m: Forest, ghost order: seq<int32>,
                              ghost nodes: map<int32, CategoryTreeNode>, ghost path: seq<int32>)
      requires Linked(m, order, nodes) && KeyedById(nodes)
      requires Chain(m, path) && n == nodes[path[|path| - 1]]
      modifies nodes.Values`isExpanded, nodes.Values`changes
      ensures Expanded(nodes) == Override(old(Expanded(nodes)), Below(m, path[|path| - 1]), value)
      ensures Changes(nodes) == Notified(old(Changes(nodes)), old(Expanded(nodes)), Expanded(nodes))
      ensures Kids(nodes) == old(Kids(nodes))
      decreases |m| - |path|, 3
    {
      ghost var p := path[|path| - 1];
      ghost var e0, c0 := Expanded(nodes), Changes(nodes);
      ChainBound(m, path);
      BelowSplit(m, order, p);
      ExpandNode(n, value, nodes, p);
      ExpandChildren(n, value, m, order, nodes, path);
      OverrideTwice(c0, e0, {p}, BelowAll(m, ChildrenIds(m, order, p)), value);
    }

    /** The first step of `SetExpanded`: `n.IsExpanded = value`, with `n` the node of `p`. */
    static method ExpandNode(n: CategoryTreeNode, value: bool, ghost nodes: map<int32, CategoryTreeNode>, ghost p: int32)
      requires KeyedById(nodes) && p in nodes && n == nodes[p]
      modifies n`isExpanded, n`changes
      ensures Expanded(nodes) == Override(old(Expanded(nodes)), {p}, value)
      ensures Changes(nodes) == Notified(old(Changes(nodes)), old(Expanded(nodes)), Expanded(nodes))
      ensures Kids(nodes) == old(Kids(nodes))
    {
      ghost var e0, c0, k0 := Expanded(nodes), Changes(nodes), Kids(nodes);
      n.SetIsExpanded(value);
      ghost var e1 := Override(e0, {p}, value);
      forall k | k in nodes
        ensures nodes[k].isExpanded == e1[k] && nodes[k].changes == Notified(c0, e0, e1)[k]
        ensures nodes[k].children == k0[k]
      {
        if k != p {
          assert nodes[k].id != n.id;
          Renotify(old(nodes[k].changes), old(nodes[k].isExpanded), old(nodes[k].isExpanded), old(nodes[k].isExpanded), IsExpandedProperty);
        }
      }
      ExpandedAre(nodes, e1);
      ChangesAre(nodes, Notified(c0, e0, e1));
      KidsAre(nodes, k0);
    }

    /** The loop of `SetExpanded`: `SetExpanded(child, value)` for each child of `n`, so that
        every node under a child of `n` takes `value`. */
    static method ExpandChildren(n: CategoryTreeNode, value: bool, ghost m: Forest, ghost order: seq<int32>,
                                 ghost nodes: map<int32, CategoryTreeNode>, ghost path: seq<int32>)
      requires Linked(m, order, nodes) && KeyedById(nodes)
      requires Chain(m, path) && n == nodes[path[|path| - 1]] && |path| <= |m|
      modifies nodes.Values`isExpanded, nodes.Values`changes
      ensures Expanded(nodes) == Override(old(Expanded(nodes)), BelowAll(m, ChildrenIds(m, order, path[|path| - 1])), value)
      ensures Changes(nodes) == Notified(old(Changes(nodes)), old(Expanded(nodes)), Expanded(nodes))
      ensures Kids(nodes) == old(Kids(nodes))
      decreases |m| - |path|, 2
    {
      ghost var p := path[|path| - 1];
      ChildNodes(m, order, nodes, p);
      assert n.children == Kids(nodes)[p];
      ExpandEach(n.children, value, m, order, nodes, path, ChildrenIds(m, order, p));
    }

    /** The loop of `SetExpanded` over `children`, the nodes of the ids `cs`. */
    static method ExpandEach(children: seq<CategoryTreeNode>, value: bool, ghost m: Forest, ghost order: seq<int32>,
                             ghost nodes: map<int32, CategoryTreeNode>, ghost path: seq<int32>, ghost cs: seq<int32>)
      requires Linked(m, order, nodes) && KeyedById(nodes)
      requires Chain(m, path) && |path| <= |m| && cs == ChildrenIds(m, order, path[|path| - 1])
      requires |children| == |cs| && forall j :: 0 <= j < |cs| ==> cs[j] in nodes && children[j] == nodes[cs[j]]
      modifies nodes.Values`isExpanded, nodes.Values`changes
      ensures Expanded(nodes) == Override(old(Expanded(nodes)), BelowAll(m, cs), value)
      ensures Changes(nodes) == Notified(old(Changes(nodes)), old(Expanded(nodes)), Expanded(nodes))
      ensures Kids(nodes) == old(Kids(nodes))
      decreases |m| - |path|, 1
    {
      ghost var e0, c0 := Expanded(nodes), Changes(nodes);
      OverrideNone(c0, e0, value);
      var i := 0;
      while i < |children|
        invariant 0 <= i <= |children|
        invariant Expanded(nodes) == Override(e0, BelowAll(m, cs[..i]), value)
        invariant Changes(nodes) == Notified(c0, e0, Expanded(nodes))
        invariant Kids(nodes) == old(Kids(nodes))
      {
        ExpandChild(children[i], value, m, order, nodes, path, cs, i, e0, c0);
        i := i + 1;
      }
      assert cs[..i] == cs;
    }

    /** One pass of the loop of `SetExpanded`: `SetExpanded(child, value)` for the `i`-th child
        `child` of the node at the end of `path`. */
    static method ExpandChild(child: CategoryTreeNode, value: bool, ghost m: Forest, ghost order: seq<int32>,
                              ghost nodes: map<int32, CategoryTreeNode>, ghost path: seq<int32>, ghost cs: seq<int32>, ghost i: nat,
                              ghost e0: map<int32, bool>, ghost c0: map<int32, seq<NodeProperty>>)
      requires Linked(m, order, nodes) && KeyedById(nodes)
      requires Chain(m, path) && |path| <= |m| && cs == ChildrenIds(m, order, path[|path| - 1])
      requires i < |cs| && c0.Keys == e0.Keys && cs[i] in nodes && child == nodes[cs[i]]
      requires Expanded(nodes) == Override(e0, BelowAll(m, cs[..i]), value)
      requires Changes(nodes) == Notified(c0, e0, Expanded(nodes))
      modifies nodes.Values`isExpanded, nodes.Values`changes
      ensures Expanded(nodes) == Override(e0, BelowAll(m, cs[..i + 1]), value)
      ensures Changes(nodes) == Notified(c0, e0, Expanded(nodes))
      ensures Kids(nodes) == old(Kids(nodes))
      decreases |m| - |path|, 0
    {
      assert cs[i] in cs;
      ChildChain(m, order, path, cs[i]);
      SetExpanded(child, value, m, order, nodes, path + [cs[i]]);
      OverrideTwice(c0, e0, BelowAll(m, cs[..i]), Below(m, cs[i]), value);
      BelowAllStep(m, cs, i);
    }

    /** The loop `ExpandAll` and `CollapseAll` share: `SetExpanded` from every root. The nodes
        reached are exactly those below a root; a node on a parent-link cycle keeps its state. */
    static method SetExpandedFromRoots(roots: seq<CategoryTreeNode>, value: bool, ghost m: Forest, ghost order: seq<int32>,
                                       ghost nodes: map<int32, CategoryTreeNode>)
      requires Linked(m, order, nodes) && KeyedById(nodes) && RootsOf(m, nodes, roots)
      modifies nodes.Values`isExpanded, nodes.Values`changes
      ensures Expanded(nodes) == Override(old(Expanded(nodes)), RootedIds(m), value)
      ensures Changes(nodes) == Notified(old(Changes(nodes)), old(Expanded(nodes)), Expanded(nodes))
      ensures Kids(nodes) == old(Kids(nodes))
    {
      ghost var ids := IdsOf(roots);
      ghost var e0, c0 := Expanded(nodes), Changes(nodes);
      OverrideNone(c0, e0, value);
      var i := 0;
      while i < |roots|
        invariant 0 <= i <= |roots|
        invariant Expanded(nodes) == Override(e0, BelowAll(m, ids[..i]), value)
        invariant Changes(nodes) == Notified(c0, e0, Expanded(nodes))
        invariant Kids(nodes) == old(Kids(nodes))
      {
        ExpandRoot(roots[i], value, m, order, nodes, ids, i, e0, c0);
        i := i + 1;
      }
      assert ids[..i] == ids;
      RootedBelow(m, nodes, roots);
    }

    /** One pass of the loop of `ExpandAll` and `CollapseAll`: `SetExpanded(root, value)` for
        the `i`-th root, whose id is `ids[i]`. */
    static method ExpandRoot(root: CategoryTreeNode, value: bool, ghost m: Forest, ghost order: seq<int32>,
                             ghost nodes: map<int32, CategoryTreeNode>, ghost ids: seq<int32>, ghost i: nat,
                             ghost e0: map<int32, bool>, ghost c0: map<int32, seq<NodeProperty>>)
      requires Linked(m, order, nodes) && KeyedById(nodes)
      requires i < |ids| && ids[i] in m && IsRoot(m, ids[i]) && root == nodes[ids[i]] && c0.Keys == e0.Keys
      requires Expanded(nodes) == Override(e0, BelowAll(m, ids[..i]), value)
      requires Changes(nodes) == Notified(c0, e0, Expanded(nodes))
      modifies nodes.Values`isExpanded, nodes.Values`changes
      ensures Expanded(nodes) == Override(e0, BelowAll(m, ids[..i + 1]), value)
      ensures Changes(nodes) == Notified(c0, e0, Expanded(nodes))
      ensures Kids(nodes) == old(Kids(nodes))
    {
      SetExpanded(root, value, m, order, nodes, [ids[i]]);
      OverrideTwice(c0, e0, BelowAll(m, ids[..i]), Below(m, ids[i]), value);
      BelowAllStep(m, ids, i);
    }

    /** `ExpandAll`: every node below a root is expanded. */
    method ExpandAll()
      requires Tree(forest, order, nodes, roots, nameLe) && Wired(forest, order, nodes)
      modifies nodes.Values`isExpanded, nodes.Values`changes
      ensures Expanded(nodes) == Override(old(Expanded(nodes)), RootedIds(forest), true)
      ensures Changes(nodes) == Notified(old(Changes(nodes)), old(Expanded(nodes)), Expanded(nodes))
    {
      BuiltKeyed(forest, order, nodes, roots, nameLe);
      SetExpandedFromRoots(roots, true, forest, order, nodes);
    }

    /** `CollapseAll`: every node below a root is collapsed. */
    method CollapseAll()
      requires Tree(forest, order, nodes, roots, nameLe) && Wired(forest, order, nodes)
      modifies nodes.Values`isExpanded, nodes.Values`changes
      ensures Expanded(nodes) == Override(old(Expanded(nodes)), RootedIds(forest), false)
      ensures Changes(nodes) == Notified(old(Changes(nodes)), old(Expanded(nodes)), Expanded(nodes))
    {
      BuiltKeyed(forest, order, nodes, roots, nameLe);
      SetExpandedFromRoots(roots, false, forest, order, nodes);
    }
  }
}
