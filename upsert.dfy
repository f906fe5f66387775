/** The change-aware upsert shared by the product and category stores: every row of a batch,
    in order, is inserted when its id is absent, skipped when the stored row carries the same
    raw JSON text (ordinal comparison), and otherwise replaces the stored row as a whole. */
module Upsert {
  import opened Wrappers

  /** The stored row for `k`, `None` when there is none. */
  function Get<R>(t: map<int, R>, k: int): Option<R> {
    if k in t then Some(t[k]) else None
  }

  /** Two tables holding the same row for every id are the same table. */
  lemma SameRowsSameTable<R>(t: map<int, R>, u: map<int, R>)
    requires forall k :: Get(t, k) == Get(u, k)
    ensures t == u
  {
    assert t.Keys == u.Keys by {
      forall k ensures k in t <==> k in u {
        assert Get(t, k) == Get(u, k);
      }
    }
    forall k | k in t ensures t[k] == u[k] {
      assert Get(t, k) == Get(u, k);
    }
  }

  /** Every row is stored under its own id. */
  ghost predicate Keyed<R>(t: map<int, R>, id: R -> int) {
    forall k :: k in t ==> id(t[k]) == k
  }

  /** One row of a batch applied to the table. */
  function UpsertOne<R>(t: map<int, R>, rec: R, id: R -> int, raw: R -> string): map<int, R> {
    var k := id(rec);
    if k !in t then t[k := rec]
    else if raw(t[k]) == raw(rec) then t
    else t[k := rec]
  }

  /** A whole batch applied in order. */
  function UpsertAll<R>(t: map<int, R>, batch: seq<R>, id: R -> int, raw: R -> string): map<int, R>
  {
    if batch == [] then t
    else UpsertOne(UpsertAll(t, batch[..|batch| - 1], id, raw), batch[|batch| - 1], id, raw)
  }

  /** Two batches applied one after the other act as their concatenation. */
  lemma {:induction false} UpsertAllAppend<R>(t: map<int, R>, a: seq<R>, b: seq<R>, id: R -> int, raw: R -> string)
    ensures UpsertAll(UpsertAll(t, a, id, raw), b, id, raw) == UpsertAll(t, a + b, id, raw)
  {
    if b == [] {
      assert a + b == a;
    } else {
      var ab := a + b;
      assert ab[..|ab| - 1] == a + b[..|b| - 1];
      assert ab[|ab| - 1] == b[|b| - 1];
      UpsertAllAppend(t, a, b[..|b| - 1], id, raw);
    }
  }

  // ---------- one id at a time ----------

  /** The rows of a batch carrying id `k`, in batch order. */
  function RowsFor<R>(batch: seq<R>, id: R -> int, k: int): (rs: seq<R>)
    ensures forall i :: 0 <= i < |rs| ==> rs[i] in batch && id(rs[i]) == k
    ensures forall i :: 0 <= i < |batch| && id(batch[i]) == k ==> batch[i] in rs
  {
    if batch == [] then []
    else
      var r := batch[|batch| - 1];
      var rs := RowsFor(batch[..|batch| - 1], id, k);
      assert batch == batch[..|batch| - 1] + [r];
      if id(r) == k then rs + [r] else rs
  }

  /** What one id's stored row becomes when that id's rows arrive one after another. */
  function Settle<R>(stored: Option<R>, rs: seq<R>, raw: R -> string): Option<R> {
    if rs == [] then stored
    else
      var before := Settle(stored, rs[..|rs| - 1], raw);
      var r := rs[|rs| - 1];
      if before.Some? && raw(before.value) == raw(r) then before else Some(r)
  }

  /** The batch acts on each id independently: the row for `k` afterwards depends only on the
      stored row for `k` and the batch rows carrying `k`. */
  lemma {:induction false} UpsertAllAt<R>(t: map<int, R>, batch: seq<R>, id: R -> int, raw: R -> string, k: int)
    ensures Get(UpsertAll(t, batch, id, raw), k) == Settle(Get(t, k), RowsFor(batch, id, k), raw)
  {
    if batch != [] {
      var init := batch[..|batch| - 1];
      var r := batch[|batch| - 1];
      UpsertAllAt(t, init, id, raw, k);
      var rs := RowsFor(init, id, k);
      if id(r) == k {
        assert (rs + [r])[..|rs|] == rs;
      }
    }
  }

  /** Once a row has arrived for an id, the stored row carries the raw text of the last one. */
  lemma {:induction false} SettleRaw<R>(stored: Option<R>, rs: seq<R>, raw: R -> string)
    requires rs != []
    ensures Settle(stored, rs, raw).Some?
    ensures raw(Settle(stored, rs, raw).value) == raw(rs[|rs| - 1])
  {
  }

  /** Applying the same rows for an id twice leaves that id as once. */
  lemma {:induction false} SettleIdempotent<R>(stored: Option<R>, rs: seq<R>, raw: R -> string)
    ensures Settle(Settle(stored, rs, raw), rs, raw) == Settle(stored, rs, raw)
    decreases |rs|
  {
    if rs != [] {
      var ps, r := rs[..|rs| - 1], rs[|rs| - 1];
      var once := Settle(stored, rs, raw);
      if ps == [] {
        assert Settle(once, rs, raw) == once;
      } else {
        var p := ps[|ps| - 1];
        SettleRaw(stored, ps, raw);
        SettleRaw(once, ps, raw);
        if raw(p) != raw(r) {
          assert once == Some(r);
          assert Settle(once, rs, raw) == Some(r);
        } else {
          assert once == Settle(stored, ps, raw);
          assert Settle(once, rs, raw) == Settle(once, ps, raw);
          SettleIdempotent(stored, ps, raw);
        }
      }
    }
  }

  // ---------- what a batch does to the table ----------

  /** Upserting the same batch a second time leaves the table as after the first. */
  lemma UpsertAllIdempotent<R>(t: map<int, R>, batch: seq<R>, id: R -> int, raw: R -> string)
    ensures UpsertAll(UpsertAll(t, batch, id, raw), batch, id, raw) == UpsertAll(t, batch, id, raw)
  {
    var once := UpsertAll(t, batch, id, raw);
    forall k ensures Get(UpsertAll(once, batch, id, raw), k) == Get(once, k) {
      UpsertAllAt(once, batch, id, raw, k);
      UpsertAllAt(t, batch, id, raw, k);
      SettleIdempotent(Get(t, k), RowsFor(batch, id, k), raw);
    }
    SameRowsSameTable(UpsertAll(once, batch, id, raw), once);
  }

  /** No row is ever removed, the ids of the batch are all present afterwards, and the row of
      an id the batch does not carry is untouched. */
  lemma UpsertAllFrame<R>(t: map<int, R>, batch: seq<R>, id: R -> int, raw: R -> string)
    ensures UpsertAll(t, batch, id, raw).Keys == t.Keys + set r | r in batch :: id(r)
    ensures forall k :: (forall r :: r in batch ==> id(r) != k) ==>
      Get(UpsertAll(t, batch, id, raw), k) == Get(t, k)
  {
    var after := UpsertAll(t, batch, id, raw);
    forall k ensures k in after <==> k in t || exists r :: r in batch && id(r) == k {
      UpsertAllAt(t, batch, id, raw, k);
      var rs := RowsFor(batch, id, k);
      if rs != [] {
        SettleRaw(Get(t, k), rs, raw);
        assert rs[|rs| - 1] in rs;
      }
    }
    forall k | forall r :: r in batch ==> id(r) != k
      ensures Get(after, k) == Get(t, k)
    {
      UpsertAllAt(t, batch, id, raw, k);
      var rs := RowsFor(batch, id, k);
      if rs != [] {
        assert false;
      }
    }
  }

  /** For an id that occurs once in the batch: an absent id gets the incoming row as given, a
      stored row with the same raw text stays exactly as it was, and a stored row with another
      raw text is replaced by the incoming row. */
  lemma UpsertAllSingleRow<R>(t: map<int, R>, batch: seq<R>, id: R -> int, raw: R -> string, rec: R)
    requires RowsFor(batch, id, id(rec)) == [rec]
    ensures var k := id(rec);
      && (k !in t ==> Get(UpsertAll(t, batch, id, raw), k) == Some(rec))
      && (k in t && raw(t[k]) == raw(rec) ==> Get(UpsertAll(t, batch, id, raw), k) == Some(t[k]))
      && (k in t && raw(t[k]) != raw(rec) ==> Get(UpsertAll(t, batch, id, raw), k) == Some(rec))
  {
    UpsertAllAt(t, batch, id, raw, id(rec));
    assert [rec][..0] == [];
  }

  /** Rows stay stored under their own ids. */
  lemma {:induction false} UpsertAllKeyed<R>(t: map<int, R>, batch: seq<R>, id: R -> int, raw: R -> string)
    requires Keyed(t, id)
    ensures Keyed(UpsertAll(t, batch, id, raw), id)
  {
    if batch != [] {
      UpsertAllKeyed(t, batch[..|batch| - 1], id, raw);
    }
  }
}
