/** The categories of the category view and the records of the category table: the mapping
    each way between them that the local load and the full sync use. */
module CategoryRecords {
  import opened Wrappers
  import opened Int32
  import opened EcwidJson
  import opened Records
  import opened Upsert
  import opened CatalogStores
  import opened CategoryForest

  /** The `Category` `LoadLocalAsync` builds from a stored record: the ids narrowed with
      `unchecked((int)...)`. */
  function CategoryOfRecord(rec: CategoryRecord): Category {
    Category(Narrow(rec.id), if rec.parentId.Some? then Some(Narrow(rec.parentId.value)) else None,
             rec.name, rec.enabled, rec.updated)
  }

  /** The `CategoryRecord` `LoadAllAsync` builds from a fetched category and its raw JSON: the
      ids widened to `long`; `SyncedAt` keeps its initializer, the current time. */
  function RecordOfCategory(c: Category, raw: string, now: Instant): (rec: CategoryRecord)
    ensures rec.id == c.id && rec.rawJson == raw && rec.syncedAt == now
  {
    CategoryRecord(c.id, c.name, if c.parentId.Some? then Some(c.parentId.value as int64) else None,
                   c.enabled, c.updated, raw, now)
  }

  /** A category stored by a sync reads back as the same category. */
  lemma CategoryRoundTrip(c: Category, raw: string, now: Instant)
    ensures CategoryOfRecord(RecordOfCategory(c, raw, now)) == c
  {
    NarrowFits(c.id);
    if c.parentId.Some? {
      NarrowFits(c.parentId.value);
    }
  }

  /** The categories of the fetched pairs, in fetch order. */
  function Fetched(fetch: seq<(Category, string)>): (cs: seq<Category>)
    ensures |cs| == |fetch| && forall i :: 0 <= i < |fetch| ==> cs[i] == fetch[i].0
  {
    if fetch == [] then [] else Fetched(fetch[..|fetch| - 1]) + [fetch[|fetch| - 1].0]
  }

  /** The records a sync hands to the store, in fetch order. */
  function FetchedRecords(fetch: seq<(Category, string)>, now: Instant): (rs: seq<CategoryRecord>)
    ensures |rs| == |fetch| && forall i :: 0 <= i < |fetch| ==> rs[i] == RecordOfCategory(fetch[i].0, fetch[i].1, now)
  {
    if fetch == [] then []
    else FetchedRecords(fetch[..|fetch| - 1], now) + [RecordOfCategory(fetch[|fetch| - 1].0, fetch[|fetch| - 1].1, now)]
  }

  /** The categories `LoadLocalAsync` reads from the stored records, in their order. */
  function CategoriesOf(recs: seq<CategoryRecord>): (cs: seq<Category>)
    ensures |cs| == |recs| && forall i :: 0 <= i < |recs| ==> cs[i] == CategoryOfRecord(recs[i])
  {
    if recs == [] then [] else CategoriesOf(recs[..|recs| - 1]) + [CategoryOfRecord(recs[|recs| - 1])]
  }

  /** Records with distinct ids that fit in 32 bits keep their ids when read as categories, so
      no later category replaces an earlier one. */
  lemma DistinctStoredIds(rs: seq<CategoryRecord>)
    requires forall i :: 0 <= i < |rs| ==> FitsInt32(rs[i].id)
    requires forall i, j :: 0 <= i < j < |rs| ==> rs[i].id < rs[j].id
    ensures forall i :: 0 <= i < |rs| ==> CategoriesOf(rs)[i].id == rs[i].id && LastOfId(CategoriesOf(rs), i)
  {
    var cs := CategoriesOf(rs);
    forall i | 0 <= i < |rs| ensures cs[i].id == rs[i].id {
      NarrowFits(rs[i].id);
    }
  }

  /** The dictionary of categories read from rows that keep their ids holds exactly the ids of
      the table the rows enumerate. */
  lemma RowForestKeys(rs: seq<CategoryRecord>, t: map<int, CategoryRecord>)
    requires forall i :: 0 <= i < |rs| ==> CategoriesOf(rs)[i].id == rs[i].id && rs[i].id in t
    requires forall k :: k in t ==> t[k] in rs && t[k].id == k
    ensures forall k: int32 :: k in LastById(CategoriesOf(rs)) <==> k in t
  {
    LastByIdKeys(CategoriesOf(rs));
  }

  /** ... and each id holds the category of its row. */
  lemma RowForestValues(rs: seq<CategoryRecord>, t: map<int, CategoryRecord>)
    requires forall i :: 0 <= i < |rs| ==> CategoriesOf(rs)[i].id == rs[i].id && LastOfId(CategoriesOf(rs), i)
    requires forall k :: k in t ==> t[k] in rs && t[k].id == k
    ensures forall k: int32 :: k in t ==> k in LastById(CategoriesOf(rs)) && LastById(CategoriesOf(rs))[k] == CategoryOfRecord(t[k])
  {
    LastByIdValues(CategoriesOf(rs));
  }

  /** Read back in ascending id order, a category table whose ids all fit in 32 bits gives one
      dictionary entry per stored row, holding the category of that row. */
  lemma StoredForest(t: map<int, CategoryRecord>)
    requires Keyed(t, CategoryId) && forall k :: k in t ==> FitsInt32(k)
    ensures var m := LastById(CategoriesOf(InIdOrder(t)));
      && (forall k: int32 :: k in m <==> k in t)
      && (forall k: int32 :: k in m ==> m[k] == CategoryOfRecord(t[k]))
  {
    var rs := InIdOrder(t);
    StoredRows(t);
    RowForestKeys(rs, t);
    RowForestValues(rs, t);
  }

  /** The rows of a table whose ids fit in 32 bits, read in id order, keep their ids as
      categories, each the last of its id, and enumerate the table. */
  lemma StoredRows(t: map<int, CategoryRecord>)
    requires Keyed(t, CategoryId) && forall k :: k in t ==> FitsInt32(k)
    ensures var rs := InIdOrder(t);
      && (forall i :: 0 <= i < |rs| ==> CategoriesOf(rs)[i].id == rs[i].id && LastOfId(CategoriesOf(rs), i) && rs[i].id in t)
      && (forall k :: k in t ==> t[k] in rs && t[k].id == k)
  {
    InIdOrderLaws(t, CategoryId);
    DistinctStoredIds(InIdOrder(t));
  }
}
