/** `ProductsViewModel`: the product grid (`Items` with the `_indexById` map from product id to
    row), its search filter, the load from the local table and the full sync from Ecwid that
    upserts the fetched products in batches of 200. */
module ProductsGrid {
  import opened Wrappers
  import opened Text
  import opened Int32
  import opened EcwidJson
  import opened Records
  import opened EcwidPaging
  import opened Upsert
  import opened CatalogStores
  import opened Chunking

  // ---------- the search filter ----------

  /** The culture-dependent operations `FilterProduct` calls: `Contains` under
      `CurrentCultureIgnoreCase`, and `long.TryParse`. */
  datatype FilterOps = FilterOps(containsIgnoreCase: (string, string) -> bool, parseLong: string -> Option<int64>)

  /** The name, or a non-empty SKU, contains the query. */
  predicate TextMatch(ops: FilterOps, p: Product, q: string) {
    ops.containsIgnoreCase(p.name, q) || (p.sku.Some? && p.sku.value != [] && ops.containsIgnoreCase(p.sku.value, q))
  }

  /** `FilterProduct` with the current search text; `obj` is `None` for anything that is not a
      `Product`. */
  function FilterProduct(ops: FilterOps, search: Option<string>, obj: Option<Product>): (r: bool)
    ensures obj.None? ==> !r
    ensures obj.Some? && IsNullOrWhiteSpace(search) ==> r
  {
    if obj.None? then false
    else if IsNullOrWhiteSpace(search) then true
    else
      var p, q := obj.value, Trim(search.value);
      if ops.containsIgnoreCase(p.name, q) then true
      else if p.sku.Some? && p.sku.value != [] && ops.containsIgnoreCase(p.sku.value, q) then true
      else match ops.parseLong(q)
        case Some(id) => p.id == id
        case None => false
  }

  /** A product passes a non-blank search exactly when its name or SKU contains the trimmed
      query, or the query reads as its id; a text match wins whatever the id. */
  lemma FilterLaws(ops: FilterOps, search: Option<string>, p: Product)
    requires !IsNullOrWhiteSpace(search)
    ensures var q := Trim(search.value);
      FilterProduct(ops, search, Some(p)) <==> TextMatch(ops, p, q) || ops.parseLong(q) == Some(p.id)
  {
  }

  // ---------- the grid ----------

  /** The grid rows and the id-to-row map. */
  datatype Grid = Grid(items: seq<Product>, index: map<int64, int>)

  const EmptyGrid: Grid := Grid([], map[])

  /** Every indexed id points at a row showing that id. */
  ghost predicate Indexed(g: Grid) {
    forall id :: id in g.index ==> 0 <= g.index[id] < |g.items| && g.items[g.index[id]].id == id
  }

  /** Besides, every row is the one its id points at: the ids of the rows are distinct. */
  ghost predicate Consistent(g: Grid) {
    Indexed(g) && forall i :: 0 <= i < |g.items| ==> g.items[i].id in g.index && g.index[g.items[i].id] == i
  }

  /** `UpsertInGrid`: an indexed id has its row replaced, a new id gets a new last row. */
  function UpsertRow(g: Grid, p: Product): (h: Grid)
    requires Indexed(g)
    ensures Indexed(h)
  {
    if p.id in g.index then Grid(g.items[g.index[p.id] := p], g.index)
    else Grid(g.items + [p], g.index[p.id := |g.items|])
  }

  /** After `UpsertInGrid`, `p`'s id points at a row showing `p`: the same row and row count
      when the id was indexed, a new last row otherwise. Every other id keeps its row and what
      that row shows. */
  lemma UpsertRowLaws(g: Grid, p: Product)
    requires Indexed(g)
    ensures var h := UpsertRow(g, p);
      && p.id in h.index && h.items[h.index[p.id]] == p
      && h.index.Keys == g.index.Keys + {p.id}
      && (p.id in g.index ==> |h.items| == |g.items| && h.index[p.id] == g.index[p.id])
      && (p.id !in g.index ==> |h.items| == |g.items| + 1 && h.index[p.id] == |g.items|)
      && (forall k :: k in g.index && k != p.id ==> h.index[k] == g.index[k] && h.items[h.index[k]] == g.items[g.index[k]])
      && (forall i :: 0 <= i < |g.items| && i != h.index[p.id] ==> h.items[i] == g.items[i])
  {
  }

  /** Upserting keeps the rows and the map in one-to-one correspondence. */
  lemma UpsertRowConsistent(g: Grid, p: Product)
    requires Consistent(g)
    ensures Consistent(UpsertRow(g, p))
  {
    var h := UpsertRow(g, p);
    UpsertRowLaws(g, p);
    forall i | 0 <= i < |h.items| ensures h.items[i].id in h.index && h.index[h.items[i].id] == i {
      if i != h.index[p.id] {
        assert h.items[i] == g.items[i];
        assert g.items[i].id != p.id;
      }
    }
  }

  /** The ids of a sequence of products. */
  function Ids(ps: seq<Product>): set<int64> {
    if ps == [] then {} else Ids(ps[..|ps| - 1]) + {ps[|ps| - 1].id}
  }

  /** `Ids` holds exactly the ids that occur. */
  lemma {:induction false} IdsMembers(ps: seq<Product>)
    ensures forall i :: 0 <= i < |ps| ==> ps[i].id in Ids(ps)
    ensures forall id :: id in Ids(ps) ==> exists i :: 0 <= i < |ps| && ps[i].id == id
  {
    if ps != [] {
      var init := ps[..|ps| - 1];
      IdsMembers(init);
      assert forall i :: 0 <= i < |init| ==> init[i] == ps[i];
    }
  }

  /** The grid a sync builds from an empty grid, one `UpsertInGrid` per fetched product. */
  function Fill(ps: seq<Product>): (g: Grid)
    ensures Indexed(g)
  {
    if ps == [] then EmptyGrid else UpsertRow(Fill(ps[..|ps| - 1]), ps[|ps| - 1])
  }

  /** A sync's grid has one row per fetched id and the map is one-to-one with the rows. */
  lemma {:induction false} FillConsistent(ps: seq<Product>)
    ensures Consistent(Fill(ps))
    ensures Fill(ps).index.Keys == Ids(ps)
  {
    if ps != [] {
      FillConsistent(ps[..|ps| - 1]);
      UpsertRowConsistent(Fill(ps[..|ps| - 1]), ps[|ps| - 1]);
      UpsertRowLaws(Fill(ps[..|ps| - 1]), ps[|ps| - 1]);
    }
  }

  /** The product at position `i` is the last one fetched with its id. */
  ghost predicate LastWithId(ps: seq<Product>, i: int)
    requires 0 <= i < |ps|
  {
    forall j :: i < j < |ps| ==> ps[j].id != ps[i].id
  }

  /** After a sync the grid shows, for each fetched id, the last product fetched with it. */
  lemma {:induction false} FillShowsLatest(ps: seq<Product>)
    ensures forall i :: 0 <= i < |ps| && LastWithId(ps, i) ==>
      ps[i].id in Fill(ps).index && Fill(ps).items[Fill(ps).index[ps[i].id]] == ps[i]
  {
    if ps != [] {
      var init, p := ps[..|ps| - 1], ps[|ps| - 1];
      var g := Fill(init);
      FillShowsLatest(init);
      UpsertRowLaws(g, p);
      forall i | 0 <= i < |ps| - 1 && LastWithId(ps, i)
        ensures ps[i].id in Fill(ps).index && Fill(ps).items[Fill(ps).index[ps[i].id]] == ps[i]
      {
        assert init[i] == ps[i];
        assert LastWithId(init, i);
      }
    }
  }

  /** Every row of a sync's grid is a fetched product. */
  lemma {:induction false} FillRowsFetched(ps: seq<Product>)
    ensures forall i :: 0 <= i < |Fill(ps).items| ==> Fill(ps).items[i] in ps
  {
    if ps != [] {
      var init, p := ps[..|ps| - 1], ps[|ps| - 1];
      FillRowsFetched(init);
      UpsertRowLaws(Fill(init), p);
      forall i | 0 <= i < |Fill(ps).items| ensures Fill(ps).items[i] in ps {
        if i != Fill(ps).index[p.id] {
          assert Fill(ps).items[i] in init;
        }
      }
    }
  }

  /** The grid `LoadAllAsync` builds as written: `UpsertInGrid` and then `Items.Add` of the same
      product, so each product is appended once more. */
  function FillAsWritten(ps: seq<Product>): (g: Grid)
    ensures Indexed(g)
  {
    if ps == [] then EmptyGrid
    else
      var h := UpsertRow(FillAsWritten(ps[..|ps| - 1]), ps[|ps| - 1]);
      Grid(h.items + [ps[|ps| - 1]], h.index)
  }

  /** As written, the grid indexes the same ids but holds one extra row per fetched product. */
  lemma {:induction false} AsWrittenRowCount(ps: seq<Product>)
    ensures FillAsWritten(ps).index.Keys == Fill(ps).index.Keys
    ensures |FillAsWritten(ps).items| == |ps| + |Fill(ps).items|
  {
    if ps != [] {
      var init, p := ps[..|ps| - 1], ps[|ps| - 1];
      AsWrittenRowCount(init);
      UpsertRowLaws(FillAsWritten(init), p);
      UpsertRowLaws(Fill(init), p);
    }
  }

  /** A sync fetching a single product shows it on two rows, and the second row's id points
      back at the first. */
  lemma AsWrittenShowsTwice(p: Product)
    ensures FillAsWritten([p]).items == [p, p]
    ensures Fill([p]).items == [p]
    ensures !Consistent(FillAsWritten([p]))
    ensures KeepSeen(FillAsWritten([p]).items, Ids([p])) == [p, p]
  {
    assert [p][..0] == [];
    assert FillAsWritten([]) == EmptyGrid && Fill([]) == EmptyGrid;
    assert UpsertRow(EmptyGrid, p) == Grid([p], map[p.id := 0]);
    assert FillAsWritten([p]) == Grid([p, p], map[p.id := 0]);
    assert Fill([p]) == Grid([p], map[p.id := 0]);
    assert FillAsWritten([p]).index[FillAsWritten([p]).items[1].id] == 0;
    IdsMembers([p]);
    assert p.id in Ids([p]);
    var seen := Ids([p]);
    assert [p, p][1..] == [p] && [p][1..] == [];
    assert KeepSeen([p], seen) == [p] + KeepSeen([], seen) == [p];
    assert KeepSeen([p, p], seen) == [p] + KeepSeen([p], seen);
  }

  // ---------- products and their records ----------

  /** The `Product` `LoadLocalAsync` builds from a stored record. */
  function ProductOf(rec: ProductRecord): Product {
    Product(rec.id, rec.sku, rec.name, rec.price, rec.quantity, rec.enabled, rec.updated)
  }

  /** The `ProductRecord` `LoadAllAsync` builds from a fetched product and its raw JSON;
      `SyncedAt` keeps its initializer, the current time. */
  function RecordOf(p: Product, raw: string, now: Instant): (rec: ProductRecord)
    ensures rec.id == p.id && rec.rawJson == raw && rec.syncedAt == now
  {
    ProductRecord(p.id, p.sku, p.name, p.price, p.quantity, p.enabled, p.updated, raw, now)
  }

  /** The record a sync builds reads back as the same product (before any column limit of the
      database applies). */
  lemma RecordRoundTrip(p: Product, raw: string, now: Instant)
    ensures ProductOf(RecordOf(p, raw, now)) == p
  {
  }

  function Firsts(fetch: seq<(Product, string)>): (ps: seq<Product>)
    ensures |ps| == |fetch| && forall i :: 0 <= i < |fetch| ==> ps[i] == fetch[i].0
  {
    if fetch == [] then [] else Firsts(fetch[..|fetch| - 1]) + [fetch[|fetch| - 1].0]
  }

  /** The records a sync hands to the store, in fetch order. */
  function RecordsOf(fetch: seq<(Product, string)>, now: Instant): (rs: seq<ProductRecord>)
    ensures |rs| == |fetch| && forall i :: 0 <= i < |fetch| ==> rs[i] == RecordOf(fetch[i].0, fetch[i].1, now)
  {
    if fetch == [] then []
    else RecordsOf(fetch[..|fetch| - 1], now) + [RecordOf(fetch[|fetch| - 1].0, fetch[|fetch| - 1].1, now)]
  }

  /** The grid `LoadLocalAsync` builds from the stored records: each record mapped to the next
      row, its id mapped to that row. */
  function Listed(rs: seq<ProductRecord>): Grid {
    if rs == [] then EmptyGrid
    else
      var g := Listed(rs[..|rs| - 1]);
      Grid(g.items + [ProductOf(rs[|rs| - 1])], g.index[rs[|rs| - 1].id := |g.items|])
  }

  /** Records with strictly ascending ids. */
  ghost predicate Ascending(rs: seq<ProductRecord>) {
    forall i, j :: 0 <= i < j < |rs| ==> rs[i].id < rs[j].id
  }

  /** Records read in strictly ascending id order are listed in that order, each id mapped to
      its record's position, and only their ids are mapped. */
  lemma {:induction false} ListedRows(rs: seq<ProductRecord>)
    requires Ascending(rs)
    ensures |Listed(rs).items| == |rs|
    ensures forall i :: 0 <= i < |rs| ==>
      Listed(rs).items[i] == ProductOf(rs[i]) && rs[i].id in Listed(rs).index && Listed(rs).index[rs[i].id] == i
    ensures forall id :: id in Listed(rs).index ==> 0 <= Listed(rs).index[id] < |rs| && rs[Listed(rs).index[id]].id == id
  {
    if rs != [] {
      var init, r := rs[..|rs| - 1], rs[|rs| - 1];
      assert forall i :: 0 <= i < |init| ==> init[i] == rs[i];
      ListedRows(init);
      var g, h := Listed(init), Listed(rs);
      assert h.items == g.items + [ProductOf(r)] && h.index == g.index[r.id := |init|];
      forall i | 0 <= i < |rs|
        ensures h.items[i] == ProductOf(rs[i]) && rs[i].id in h.index && h.index[rs[i].id] == i
      {
        if i < |init| {
          assert rs[i].id < r.id;
        }
      }
    }
  }

  /** Such a listing is consistent: one row per record and the map one-to-one with the rows. */
  lemma ListedConsistent(rs: seq<ProductRecord>)
    requires Ascending(rs)
    ensures Consistent(Listed(rs)) && |Listed(rs).items| == |rs|
  {
    ListedRows(rs);
  }

  /** The listing of a keyed table read in id order is indexed. */
  lemma StoredListingIndexed(t: map<int, ProductRecord>)
    requires Keyed(t, ProductId)
    ensures Indexed(Listed(InIdOrder(t)))
  {
    InIdOrderLaws(t, ProductId);
    ListedConsistent(InIdOrder(t));
  }

  // ---------- the post-sync sweep ----------

  /** The rows whose id was seen, in order. */
  function KeepSeen(items: seq<Product>, seen: set<int64>): seq<Product> {
    if items == [] then []
    else if items[0].id in seen then [items[0]] + KeepSeen(items[1..], seen)
    else KeepSeen(items[1..], seen)
  }

  /** The sweep keeps rows of the original only, all of them of seen ids. */
  lemma {:induction false} KeepSeenRows(items: seq<Product>, seen: set<int64>)
    ensures |KeepSeen(items, seen)| <= |items|
    ensures forall i :: 0 <= i < |KeepSeen(items, seen)| ==> KeepSeen(items, seen)[i] in items && KeepSeen(items, seen)[i].id in seen
  {
    if items != [] {
      KeepSeenRows(items[1..], seen);
      var rest := KeepSeen(items[1..], seen);
      assert forall i :: 0 <= i < |rest| ==> rest[i] in items;
    }
  }

  /** When every id was seen the sweep keeps every row. */
  lemma {:induction false} KeepSeenAll(items: seq<Product>, seen: set<int64>)
    requires forall i :: 0 <= i < |items| ==> items[i].id in seen
    ensures KeepSeen(items, seen) == items
  {
    if items != [] {
      assert forall i :: 0 <= i < |items[1..]| ==> items[1..][i] == items[i + 1];
      KeepSeenAll(items[1..], seen);
      assert [items[0]] + items[1..] == items;
    }
  }

  /** Every row of a sync's grid has a fetched id, so the sweep that follows it removes nothing. */
  lemma SweepAfterSyncKeepsAll(ps: seq<Product>)
    ensures KeepSeen(Fill(ps).items, Ids(ps)) == Fill(ps).items
  {
    FillRowsFetched(ps);
    IdsMembers(ps);
    forall i | 0 <= i < |Fill(ps).items| ensures Fill(ps).items[i].id in Ids(ps) {
      var j :| 0 <= j < |ps| && ps[j] == Fill(ps).items[i];
    }
    KeepSeenAll(Fill(ps).items, Ids(ps));
  }

  // ---------- the view model ----------

  /** `ProductsViewModel`: the grid, the loading flag and the product table it syncs into. */
  class ProductsViewModel {
    const store: ProductStore
    var items: seq<Product>
    var indexById: map<int64, int>
    var isLoading: bool
    /** The batches handed to `UpsertBatchAsync`, in order. */
    var upserts: seq<seq<ProductRecord>>

    ghost predicate Valid()
      reads this, store
    {
      store.Valid() && Indexed(Grid(items, indexById))
    }

    constructor(store: ProductStore)
      requires store.Valid()
      ensures Valid()
      ensures this.store == store && items == [] && indexById == map[] && !isLoading && upserts == []
    {
      this.store := store;
      items := [];
      indexById := map[];
      isLoading := false;
      upserts := [];
    }

    /** `UpsertInGrid`. */
    method UpsertInGrid(p: Product)
      requires Indexed(Grid(items, indexById))
      modifies this
      ensures Grid(items, indexById) == UpsertRow(old(Grid(items, indexById)), p)
      ensures isLoading == old(isLoading) && upserts == old(upserts)
    {
      if p.id in indexById {
        var idx := indexById[p.id];
        items := items[idx := p];
      } else {
        indexById := indexById[p.id := |items|];
        items := items + [p];
      }
    }

    /** `_store.UpsertBatchAsync(batch)`. */
    method UpsertBatch(batch: seq<ProductRecord>)
      requires store.Valid()
      modifies this, store
      ensures store.Valid()
      ensures store.table == UpsertAll(old(store.table), batch, ProductId, ProductRaw)
      ensures upserts == old(upserts) + [batch]
      ensures items == old(items) && indexById == old(indexById) && isLoading == old(isLoading)
    {
      store.UpsertBatch(batch);
      upserts := upserts + [batch];
    }

    /** The sweep after a sync: from the last row down, remove each row whose id was not seen.
        The id map is left as it is. */
    method Sweep(seen: set<int64>)
      modifies this
      ensures items == KeepSeen(old(items), seen)
      ensures indexById == old(indexById) && isLoading == old(isLoading) && upserts == old(upserts)
    {
      var i := |items|;
      while i > 0
        invariant 0 <= i <= |old(items)|
        invariant items == old(items)[..i] + KeepSeen(old(items)[i..], seen)
        invariant indexById == old(indexById) && isLoading == old(isLoading) && upserts == old(upserts)
      {
        i := i - 1;
        ghost var o := old(items);
        ghost var rest := KeepSeen(o[i + 1..], seen);
        assert o[..i + 1] == o[..i] + [o[i]];
        assert items == o[..i] + [o[i]] + rest;
        assert o[i..][0] == o[i] && o[i..][1..] == o[i + 1..];
        if items[i].id !in seen {
          assert items[..i] == o[..i] && items[i + 1..] == rest;
          items := items[..i] + items[i + 1..];
        }
      }
    }

    /** `LoadLocalAsync`: refill the grid from the stored products, in the store's order. */
    method LoadLocal()
      requires Valid()
      modifies this
      ensures Valid()
      ensures old(isLoading) ==> isLoading && items == old(items) && indexById == old(indexById)
      ensures !old(isLoading) ==> !isLoading && Grid(items, indexById) == Listed(InIdOrder(store.table))
      ensures upserts == old(upserts)
    {
      if isLoading {
        return;
      }
      isLoading := true;
      items := [];
      indexById := map[];
      var recs := ReadStore();
      ListRecords(recs);
      StoredListingIndexed(store.table);
      isLoading := false;
    }

    /** `_store.GetAllAsync()`, enumerated: the stored products by ascending id. */
    method ReadStore() returns (recs: seq<ProductRecord>)
      requires store.Valid()
      ensures recs == InIdOrder(store.table)
    {
      recs := store.GetAll();
    }

    /** The loop of `LoadLocalAsync`: one new row per stored record, its id mapped to that row. */
    method ListRecords(recs: seq<ProductRecord>)
      requires items == [] && indexById == map[]
      modifies this
      ensures Grid(items, indexById) == Listed(recs)
      ensures isLoading == old(isLoading) && upserts == old(upserts)
    {
      var i := 0;
      while i < |recs|
        invariant 0 <= i <= |recs|
        invariant Grid(items, indexById) == Listed(recs[..i])
        invariant isLoading == old(isLoading) && upserts == old(upserts)
      {
        var p := ProductOf(recs[i]);
        indexById := indexById[recs[i].id := |items|];
        items := items + [p];
        assert recs[..i + 1][..i] == recs[..i];
        i := i + 1;
      }
      assert recs[..i] == recs;
    }

    /** Adding one record to the open batch, and upserting the batch once it holds 200. The
        batches upserted so far are those of `done` (whole batches of 200) after `saved0`, onto
        the table `table0`. */
    method Accept(rec: ProductRecord, ghost saved0: seq<seq<ProductRecord>>, ghost table0: map<int, ProductRecord>,
                  ghost done: seq<ProductRecord>, batch: seq<ProductRecord>)
      returns (ghost done': seq<ProductRecord>, batch': seq<ProductRecord>)
      requires store.Valid()
      requires |done| % BATCH_SIZE == 0 && |batch| < BATCH_SIZE
      requires upserts == saved0 + Chunks(done, BATCH_SIZE)
      requires store.table == UpsertAll(table0, done, ProductId, ProductRaw)
      modifies this, store
      ensures store.Valid()
      ensures |done'| % BATCH_SIZE == 0 && |batch'| < BATCH_SIZE && done' + batch' == done + (batch + [rec])
      ensures upserts == saved0 + Chunks(done', BATCH_SIZE)
      ensures store.table == UpsertAll(table0, done', ProductId, ProductRaw)
      ensures items == old(items) && indexById == old(indexById) && isLoading == old(isLoading)
    {
      batch' := batch + [rec];
      done' := done;
      if |batch'| >= BATCH_SIZE {
        FlushStep([], saved0, done, batch');
        UpsertAllAppend(table0, done, batch', ProductId, ProductRaw);
        UpsertBatch(batch');
        done' := done + batch';
        batch' := [];
      }
    }

    /** The flush after the loop: upsert the open batch when it is not empty. */
    method FlushRest(ghost saved0: seq<seq<ProductRecord>>, ghost table0: map<int, ProductRecord>,
                     ghost done: seq<ProductRecord>, batch: seq<ProductRecord>)
      requires store.Valid()
      requires |done| % BATCH_SIZE == 0 && |batch| < BATCH_SIZE
      requires upserts == saved0 + Chunks(done, BATCH_SIZE)
      requires store.table == UpsertAll(table0, done, ProductId, ProductRaw)
      modifies this, store
      ensures store.Valid()
      ensures upserts == saved0 + Chunks(done + batch, BATCH_SIZE)
      ensures store.table == UpsertAll(table0, done + batch, ProductId, ProductRaw)
      ensures items == old(items) && indexById == old(indexById) && isLoading == old(isLoading)
    {
      if |batch| > 0 {
        FlushStep([], saved0, done, batch);
        UpsertAllAppend(table0, done, batch, ProductId, ProductRaw);
        UpsertBatch(batch);
      } else {
        assert done + batch == done;
      }
    }

    /** One product of the sync shown in the grid and its id remembered. */
    method Show(ghost ps: seq<Product>, k: nat, p: Product, seen: set<int64>) returns (seen': set<int64>)
      requires k < |ps| && ps[k] == p
      requires Grid(items, indexById) == Fill(ps[..k]) && seen == Ids(ps[..k])
      modifies this
      ensures Grid(items, indexById) == Fill(ps[..k + 1]) && seen' == Ids(ps[..k + 1])
      ensures isLoading == old(isLoading) && upserts == old(upserts)
    {
      assert ps[..k + 1][..k] == ps[..k];
      UpsertInGrid(p);
      seen' := seen + {p.id};
    }

    /** The `await foreach` loop of `LoadAllAsync`: show each fetched product, remember its id,
        and upsert every full batch of 200 records. */
    method SyncLoop(fetch: seq<(Product, string)>, now: Instant)
      returns (fetched: nat, seen: set<int64>, ghost done: seq<ProductRecord>, batch: seq<ProductRecord>)
      requires store.Valid() && items == [] && indexById == map[]
      modifies this, store
      ensures isLoading == old(isLoading) && fetched == |fetch|
      ensures SyncedTo(fetch, now, fetched, seen, old(upserts), old(store.table), done, batch)
    {
      ghost var saved0, table0 := upserts, store.table;
      done := [];
      batch := [];
      seen := {};
      fetched := 0;
      SyncStart(fetch, now);
      while fetched < |fetch|
        invariant fetched <= |fetch| && isLoading == old(isLoading)
        invariant SyncedTo(fetch, now, fetched, seen, saved0, table0, done, batch)
      {
        seen, done, batch := SyncOne(fetch, now, fetched, seen, saved0, table0, done, batch);
        fetched := fetched + 1;
      }
    }

    /** Before the first pass nothing is shown, batched or upserted. */
    lemma SyncStart(fetch: seq<(Product, string)>, now: Instant)
      requires store.Valid() && items == [] && indexById == map[]
      ensures SyncedTo(fetch, now, 0, {}, upserts, store.table, [], [])
    {
      assert Firsts(fetch)[..0] == [];
    }

    /** After the last pass every fetched product is shown and every record is either
        upserted or in the open batch. */
    lemma SyncEnd(fetch: seq<(Product, string)>, now: Instant, seen: set<int64>,
                  saved0: seq<seq<ProductRecord>>, table0: map<int, ProductRecord>,
                  done: seq<ProductRecord>, batch: seq<ProductRecord>)
      requires SyncedTo(fetch, now, |fetch|, seen, saved0, table0, done, batch)
      ensures store.Valid() && seen == Ids(Firsts(fetch)) && Grid(items, indexById) == Fill(Firsts(fetch))
      ensures |done| % BATCH_SIZE == 0 && |batch| < BATCH_SIZE && done + batch == RecordsOf(fetch, now)
      ensures upserts == saved0 + Chunks(done, BATCH_SIZE)
      ensures store.table == UpsertAll(table0, done, ProductId, ProductRaw)
    {
      assert Firsts(fetch)[..|fetch|] == Firsts(fetch) && RecordsOf(fetch, now)[..|fetch|] == RecordsOf(fetch, now);
    }

    /** The state after the first `k` passes of the `await foreach` loop. */
    ghost predicate SyncedTo(fetch: seq<(Product, string)>, now: Instant, k: nat, seen: set<int64>,
                             saved0: seq<seq<ProductRecord>>, table0: map<int, ProductRecord>,
                             done: seq<ProductRecord>, batch: seq<ProductRecord>)
      reads this, store
    {
      k <= |fetch| && store.Valid()
      && Grid(items, indexById) == Fill(Firsts(fetch)[..k]) && seen == Ids(Firsts(fetch)[..k])
      && |done| % BATCH_SIZE == 0 && |batch| < BATCH_SIZE
      && done + batch == RecordsOf(fetch, now)[..k]
      && upserts == saved0 + Chunks(done, BATCH_SIZE)
      && store.table == UpsertAll(table0, done, ProductId, ProductRaw)
    }

    /** One pass of the `await foreach` loop: the `k`-th fetched product shown and its record
        added to the open batch. */
    method SyncOne(fetch: seq<(Product, string)>, now: Instant, k: nat, seen: set<int64>,
                   ghost saved0: seq<seq<ProductRecord>>, ghost table0: map<int, ProductRecord>,
                   ghost done: seq<ProductRecord>, batch: seq<ProductRecord>)
      returns (seen': set<int64>, ghost done': seq<ProductRecord>, batch': seq<ProductRecord>)
      requires k < |fetch| && SyncedTo(fetch, now, k, seen, saved0, table0, done, batch)
      modifies this, store
      ensures isLoading == old(isLoading)
      ensures SyncedTo(fetch, now, k + 1, seen', saved0, table0, done', batch')
    {
      var (p, raw) := fetch[k];
      seen' := Show(Firsts(fetch), k, p, seen);
      Extend(RecordsOf(fetch, now), k, done, batch);
      done', batch' := Accept(RecordOf(p, raw, now), saved0, table0, done, batch);
    }

    /** `LoadAllAsync` with the double `Items.Add` removed: clear the grid, sync every fetched
        product into it and into the table, then flush the remainder and sweep. `failed` says
        that the fetch raised after yielding `fetch`; the error is reported and the remainder
        is not flushed. */
    method LoadAll(fetch: seq<(Product, string)>, failed: bool, now: Instant) returns (fetched: nat)
      requires Valid()
      modifies this, store
      ensures Valid()
      ensures old(isLoading) ==> isLoading && fetched == 0 && items == old(items) && indexById == old(indexById)
      ensures old(isLoading) ==> upserts == old(upserts) && store.table == old(store.table)
      ensures !old(isLoading) ==> !isLoading && fetched == |fetch|
      ensures !old(isLoading) ==> Grid(items, indexById) == Fill(Firsts(fetch))
      ensures !old(isLoading) ==> upserts == old(upserts) + Chunks(Committed(RecordsOf(fetch, now), failed), BATCH_SIZE)
      ensures !old(isLoading) ==> store.table == UpsertAll(old(store.table), Committed(RecordsOf(fetch, now), failed), ProductId, ProductRaw)
    {
      if isLoading {
        return 0;
      }
      isLoading := true;
      items := [];
      indexById := map[];
      var seen, batch;
      ghost var done;
      fetched, seen, done, batch := SyncLoop(fetch, now);
      Settle(fetch, failed, now, seen, old(upserts), old(store.table), done, batch);
      isLoading := false;
    }

    /** What follows the loop of `LoadAllAsync`: when the fetch raised, the open batch is
        dropped and the error reported; otherwise the open batch is flushed and the rows whose
        ids were not fetched are swept. */
    method Settle(fetch: seq<(Product, string)>, failed: bool, now: Instant, seen: set<int64>,
                  ghost saved0: seq<seq<ProductRecord>>, ghost table0: map<int, ProductRecord>,
                  ghost done: seq<ProductRecord>, batch: seq<ProductRecord>)
      requires SyncedTo(fetch, now, |fetch|, seen, saved0, table0, done, batch)
      modifies this, store
      ensures store.Valid() && isLoading == old(isLoading)
      ensures Grid(items, indexById) == Fill(Firsts(fetch))
      ensures upserts == saved0 + Chunks(Committed(RecordsOf(fetch, now), failed), BATCH_SIZE)
      ensures store.table == UpsertAll(table0, Committed(RecordsOf(fetch, now), failed), ProductId, ProductRaw)
    {
      if failed {
        Abandon(fetch, now, seen, saved0, table0, done, batch);
      } else {
        Complete(fetch, now, seen, saved0, table0, done, batch);
      }
    }

    /** The fetch raised: the whole batches stay upserted and the open batch is dropped. */
    lemma Abandon(fetch: seq<(Product, string)>, now: Instant, seen: set<int64>,
                  saved0: seq<seq<ProductRecord>>, table0: map<int, ProductRecord>,
                  done: seq<ProductRecord>, batch: seq<ProductRecord>)
      requires SyncedTo(fetch, now, |fetch|, seen, saved0, table0, done, batch)
      ensures store.Valid() && Grid(items, indexById) == Fill(Firsts(fetch))
      ensures upserts == saved0 + Chunks(Committed(RecordsOf(fetch, now), true), BATCH_SIZE)
      ensures store.table == UpsertAll(table0, Committed(RecordsOf(fetch, now), true), ProductId, ProductRaw)
    {
      SyncEnd(fetch, now, seen, saved0, table0, done, batch);
      CommittedOnRaise(done, batch);
    }

    /** The fetch ran to its end: the open batch is flushed and the rows whose ids were not
        fetched are swept. */
    method Complete(fetch: seq<(Product, string)>, now: Instant, seen: set<int64>,
                    ghost saved0: seq<seq<ProductRecord>>, ghost table0: map<int, ProductRecord>,
                    ghost done: seq<ProductRecord>, batch: seq<ProductRecord>)
      requires SyncedTo(fetch, now, |fetch|, seen, saved0, table0, done, batch)
      modifies this, store
      ensures store.Valid() && isLoading == old(isLoading)
      ensures Grid(items, indexById) == Fill(Firsts(fetch))
      ensures upserts == saved0 + Chunks(Committed(RecordsOf(fetch, now), false), BATCH_SIZE)
      ensures store.table == UpsertAll(table0, Committed(RecordsOf(fetch, now), false), ProductId, ProductRaw)
    {
      SyncEnd(fetch, now, seen, saved0, table0, done, batch);
      FlushRest(saved0, table0, done, batch);
      SweepAfterSyncKeepsAll(Firsts(fetch));
      Sweep(seen);
    }
  }
}
