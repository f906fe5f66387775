/** The product and category tables: batches are upserted in place and read back in
    ascending id order. */
module CatalogStores {
  import opened Wrappers
  import opened Int32
  import opened Records
  import opened Upsert
  import Sorting

  function ProductId(r: ProductRecord): int { r.id }
  function ProductRaw(r: ProductRecord): string { r.rawJson }
  function CategoryId(r: CategoryRecord): int { r.id }
  function CategoryRaw(r: CategoryRecord): string { r.rawJson }

  /** The stored rows of the ids `ks`, in the order of `ks`. */
  function RowsOf<R>(t: map<int, R>, ks: seq<int>): (rs: seq<R>)
    requires forall i :: 0 <= i < |ks| ==> ks[i] in t
    ensures |rs| == |ks|
    ensures forall i :: 0 <= i < |ks| ==> rs[i] == t[ks[i]]
  {
    if ks == [] then [] else [t[ks[0]]] + RowsOf(t, ks[1..])
  }

  /** `OrderBy(r => r.Id)` over the whole table. */
  function InIdOrder<R>(t: map<int, R>): seq<R> {
    RowsOf(t, Sorting.Ascending(t.Keys))
  }

  /** Reading a keyed table in id order yields every stored row once, by strictly ascending id. */
  lemma InIdOrderLaws<R>(t: map<int, R>, id: R -> int)
    requires Keyed(t, id)
    ensures var rs := InIdOrder(t);
      && |rs| == |t|
      && (forall i, j :: 0 <= i < j < |rs| ==> id(rs[i]) < id(rs[j]))
      && (forall i :: 0 <= i < |rs| ==> id(rs[i]) in t && t[id(rs[i])] == rs[i])
      && (forall k :: k in t ==> t[k] in rs)
  {
    var ks := Sorting.Ascending(t.Keys);
    var rs := RowsOf(t, ks);
    assert |rs| == |t| by {
      assert |ks| == |t.Keys|;
    }
    forall i | 0 <= i < |rs| ensures id(rs[i]) == ks[i] && t[ks[i]] == rs[i] {
      assert ks[i] in t;
    }
    forall i, j | 0 <= i < j < |rs| ensures id(rs[i]) < id(rs[j]) {
      assert ks[i] < ks[j];
    }
    forall k | k in t ensures t[k] in rs {
      var i :| 0 <= i < |ks| && ks[i] == k;
      assert rs[i] == t[k];
    }
  }

  /** `FirstOrDefault(r => r.Id == k)`. */
  function FirstWithId<R>(rs: seq<R>, id: R -> int, k: int): (r: Option<R>)
    ensures r.Some? ==> r.value in rs && id(r.value) == k
    ensures r.None? ==> forall i :: 0 <= i < |rs| ==> id(rs[i]) != k
  {
    if rs == [] then None
    else if id(rs[0]) == k then Some(rs[0])
    else FirstWithId(rs[1..], id, k)
  }

  /** `EfProductStore`: the `Products` table keyed by product id. */
  class ProductStore {
    var table: map<int, ProductRecord>

    ghost predicate Valid()
      reads this
    {
      Keyed(table, ProductId)
    }

    constructor(rows: map<int, ProductRecord>)
      requires Keyed(rows, ProductId)
      ensures Valid() && table == rows
    {
      table := rows;
    }

    /** `UpsertBatchAsync`. */
    method UpsertBatch(batch: seq<ProductRecord>)
      requires Valid()
      modifies this
      ensures Valid()
      ensures table == UpsertAll(old(table), batch, ProductId, ProductRaw)
    {
      var i := 0;
      while i < |batch|
        invariant 0 <= i <= |batch|
        invariant table == UpsertAll(old(table), batch[..i], ProductId, ProductRaw)
      {
        var rec := batch[i];
        if rec.id !in table {
          table := table[rec.id := rec];
        } else if table[rec.id].rawJson != rec.rawJson {
          table := table[rec.id := rec];
        }
        assert batch[..i + 1][..i] == batch[..i];
        i := i + 1;
      }
      assert batch[..|batch|] == batch;
      UpsertAllKeyed(old(table), batch, ProductId, ProductRaw);
    }

    /** `GetAllAsync`: every stored product, by ascending id. */
    function GetAll(): (rs: seq<ProductRecord>)
      requires Valid()
      reads this
      ensures |rs| == |table|
      ensures forall i, j :: 0 <= i < j < |rs| ==> rs[i].id < rs[j].id
      ensures forall i :: 0 <= i < |rs| ==> rs[i].id in table && table[rs[i].id] == rs[i]
      ensures forall k :: k in table ==> table[k] in rs
    {
      InIdOrderLaws(table, ProductId);
      InIdOrder(table)
    }

    /** `GetByIdAsync`: the product with that id, `None` for a missing one. */
    function GetById(id: int64): (r: Option<ProductRecord>)
      requires Valid()
      reads this
      ensures r == Get(table, id)
    {
      FirstWithId(GetAll(), ProductId, id)
    }
  }

  /** `EfCategoryStore`: the `Categories` table keyed by category id. */
  class CategoryStore {
    var table: map<int, CategoryRecord>

    ghost predicate Valid()
      reads this
    {
      Keyed(table, CategoryId)
    }

    constructor(rows: map<int, CategoryRecord>)
      requires Keyed(rows, CategoryId)
      ensures Valid() && table == rows
    {
      table := rows;
    }

    /** `UpsertBatchAsync`. */
    method UpsertBatch(batch: seq<CategoryRecord>)
      requires Valid()
      modifies this
      ensures Valid()
      ensures table == UpsertAll(old(table), batch, CategoryId, CategoryRaw)
    {
      var i := 0;
      while i < |batch|
        invariant 0 <= i <= |batch|
        invariant table == UpsertAll(old(table), batch[..i], CategoryId, CategoryRaw)
      {
        var rec := batch[i];
        if rec.id !in table {
          table := table[rec.id := rec];
        } else if table[rec.id].rawJson != rec.rawJson {
          table := table[rec.id := rec];
        }
        assert batch[..i + 1][..i] == batch[..i];
        i := i + 1;
      }
      assert batch[..|batch|] == batch;
      UpsertAllKeyed(old(table), batch, CategoryId, CategoryRaw);
    }

    /** `GetAllAsync`: every stored category, by ascending id. */
    function GetAll(): (rs: seq<CategoryRecord>)
      requires Valid()
      reads this
      ensures |rs| == |table|
      ensures forall i, j :: 0 <= i < j < |rs| ==> rs[i].id < rs[j].id
      ensures forall i :: 0 <= i < |rs| ==> rs[i].id in table && table[rs[i].id] == rs[i]
      ensures forall k :: k in table ==> table[k] in rs
    {
      InIdOrderLaws(table, CategoryId);
      InIdOrder(table)
    }
  }
}
