/** `SupplierImportService.ImportFileAsync`: choose the importer for a supplier kind, make sure
    the supplier exists, store the uploaded file (refusing a duplicate), then stamp the records
    the importer reads and append them to the `SupplierRecords` table in batches of 200. */
module SupplierImport {
  import opened Wrappers
  import opened Text
  import opened Records
  import opened EcwidJson
  import opened ParseUtil
  import opened Importers
  import opened SupplierStore
  import opened Chunking
  import opened Hex

  /** `SupplierKind`: the two suppliers with an importer, and any other enum member by name. */
  datatype SupplierKind = Also | Eet | Other(name: string)

  /** The importer implementations that can be registered. */
  datatype Importer = AlsoTxt | EetCsv

  /** `ISupplierImporter.Kind`. */
  function KindOf(i: Importer): SupplierKind {
    match i
    case AlsoTxt => Also
    case EetCsv => Eet
  }

  /** `_importers.FirstOrDefault(i => i.Kind == kind)`. */
  function FindImporter(importers: seq<Importer>, kind: SupplierKind): (r: Option<Importer>)
    ensures r.None? <==> forall i :: 0 <= i < |importers| ==> KindOf(importers[i]) != kind
    ensures r.Some? ==> r.value in importers && KindOf(r.value) == kind
  {
    if importers == [] then None
    else if KindOf(importers[0]) == kind then Some(importers[0])
    else
      var r := FindImporter(importers[1..], kind);
      assert forall i :: 0 < i < |importers| ==> importers[i] == importers[1..][i - 1];
      r
  }

  /** `kind.ToString()`. */
  function KindName(kind: SupplierKind): string {
    match kind
    case Also => "Also"
    case Eet => "Eet"
    case Other(n) => n
  }

  /** `GetSupplierInfo`: the supplier code and name under which a kind's files are filed. */
  function GetSupplierInfo(kind: SupplierKind): (string, string) {
    match kind
    case Also => ("ALSO", "ALSO")
    case Eet => ("EET", "EET Europarts")
    case Other(n) => (UpperAscii(KindName(kind)), KindName(kind))
  }

  /** Upper-casing keeps white space and non-white-space apart. */
  lemma UpperAsciiBlank(s: string)
    ensures Blank(UpperAscii(s)) <==> Blank(s)
  {
    if !Blank(s) {
      var i :| 0 <= i < |s| && !IsWhiteSpace(s[i]);
      assert !IsWhiteSpace(UpperAscii(s)[i]);
    }
  }

  /** The built-in kinds get distinct, trimmed, non-blank codes; any other kind gets its
      upper-cased name as code, which is blank only when the name is. */
  lemma SupplierInfoCodes(kind: SupplierKind)
    ensures var (code, name) := GetSupplierInfo(kind);
      && (Blank(code) <==> kind.Other? && Blank(kind.name))
      && (kind.Other? ==> code == UpperAscii(name) && name == kind.name)
      && (!kind.Other? ==> Unpadded(code) && code != GetSupplierInfo(if kind.Also? then Eet else Also).0)
  {
    if kind.Other? {
      UpperAsciiBlank(kind.name);
    } else {
      assert !IsWhiteSpace(GetSupplierInfo(kind).0[0]);
    }
  }

  /** For a built-in kind `EnsureSupplierAsync` always succeeds: its code is neither blank
      nor padded, so it can never clash with a stored trimmed code. */
  lemma KnownKindEnsured(d: Directory, kind: SupplierKind, now: Instant)
    requires DirectoryValid(d)
    requires !kind.Other?
    ensures var (code, name) := GetSupplierInfo(kind);
      Ensure(d, Some(code), Some(name), now).0.Ok?
  {
    var (code, name) := GetSupplierInfo(kind);
    SupplierInfoCodes(kind);
    TrimUnpadded(code);
  }

  /** What a registered importer reads from the lines of a file. */
  function Run(imp: Importer, p: NumberParsers, lines: seq<Line>): Outcome {
    match imp
    case AlsoTxt => Outcome(AlsoLines(p, Live(lines)), false)
    case EetCsv => EetRead(p, lines)
  }

  /** Cancellation had been requested when the reader stopped, so the token the final flush
      passes to `SaveChangesAsync` is cancelled. */
  predicate CancelSeen(lines: seq<Line>): (b: bool)
    ensures b <==> exists i :: 0 <= i < |lines| && lines[i].cancelled
  {
    |Live(lines)| < |lines|
  }

  /** Lines 80-84: the remainder of `n` records is flushed, and a flush under a cancelled
      token throws `OperationCanceledException`. Only a non-empty remainder is flushed. */
  predicate FlushRaises(n: nat, cancelled: bool) {
    cancelled && n % BATCH_SIZE != 0
  }

  /** The loop body's stamping: the supplier id, and `ImportedAt` when it is still default. */
  function Stamp(r: SupplierRecord, supplierId: int, now: Instant): SupplierRecord {
    r.(supplierId := supplierId, importedAt := if r.importedAt == DEFAULT_INSTANT then now else r.importedAt)
  }

  function StampAll(rs: seq<SupplierRecord>, supplierId: int, now: Instant): (out: seq<SupplierRecord>)
    ensures |out| == |rs| && forall i :: 0 <= i < |rs| ==> out[i] == Stamp(rs[i], supplierId, now)
  {
    if rs == [] then [] else StampAll(rs[..|rs| - 1], supplierId, now) + [Stamp(rs[|rs| - 1], supplierId, now)]
  }

  datatype ImportError =
    | NoImporter              // InvalidOperationException: no importer registered for the kind
    | StoreFailed(e: StoreError)
    | Cancelled               // the importer raised OperationCanceledException

  /** The state `ImportFileAsync` works on: the supplier directory, the stored files, the
      `SupplierRecords` table and the batches saved to it, in order. */
  datatype Tables = Tables(directory: Directory, fileTable: FileTable, records: seq<SupplierRecord>, commits: seq<seq<SupplierRecord>>)

  /** `ImportFileAsync` on the tables `t`: the result (the number of records imported) and
      the new tables. The id `SaveFileAsync` returns is not used, so no record refers to the
      stored file. */
  function Import(t: Tables, importers: seq<Importer>, sha256: seq<byte> -> Digest, p: NumberParsers, kind: SupplierKind,
                  fileName: string, content: seq<byte>, lines: seq<Line>, now: Instant): (Result<int, ImportError>, Tables)
  {
    match FindImporter(importers, kind)
    case None => (Err(NoImporter), t)
    case Some(imp) =>
      var (code, name) := GetSupplierInfo(kind);
      var (e, d) := Ensure(t.directory, Some(code), Some(name), now);
      if e.Err? then (Err(StoreFailed(e.error)), t.(directory := d))
      else
        var (s, ft) := Save(t.fileTable, d.suppliers, sha256, e.value, fileName, None, Some(content), now);
        if s.Err? then (Err(StoreFailed(s.error)), t.(directory := d, fileTable := ft))
        else Append(t, d, ft, imp, p, lines, e.value, now)
  }

  /** The reading loop of `ImportFileAsync` once the supplier `supplierId` and the file are
      stored: stamp each record read, save in batches of 200, then flush the remainder. */
  function Append(t: Tables, d: Directory, ft: FileTable, imp: Importer, p: NumberParsers, lines: seq<Line>,
                  supplierId: int, now: Instant): (Result<int, ImportError>, Tables)
  {
    var o := Run(imp, p, lines);
    var cancelled := CancelSeen(lines);
    var c := Committed(StampAll(o.records, supplierId, now), cancelled);
    (if o.raised || FlushRaises(|o.records|, cancelled) then Err(Cancelled) else Ok(|o.records|),
     Tables(d, ft, t.records + c, t.commits + Chunks(c, BATCH_SIZE)))
  }

  /** With no importer for the kind nothing is touched. */
  lemma ImportWithoutImporter(t: Tables, importers: seq<Importer>, sha256: seq<byte> -> Digest, p: NumberParsers,
                              kind: SupplierKind, fileName: string, content: seq<byte>, lines: seq<Line>, now: Instant)
    requires forall i :: 0 <= i < |importers| ==> KindOf(importers[i]) != kind
    ensures Import(t, importers, sha256, p, kind, fileName, content, lines, now) == (Err(NoImporter), t)
  {
  }

  /** A file already stored for the supplier is refused before any record is read, so no
      record is written. */
  lemma ImportDuplicateFile(t: Tables, importers: seq<Importer>, sha256: seq<byte> -> Digest, p: NumberParsers,
                            kind: SupplierKind, fileName: string, content: seq<byte>, lines: seq<Line>, now: Instant)
    requires DirectoryValid(t.directory)
    requires FindImporter(importers, kind).Some?
    requires var (code, name) := GetSupplierInfo(kind);
      var e := Ensure(t.directory, Some(code), Some(name), now).0;
      e.Ok? && HasDigest(t.fileTable.files, e.value, DigestText(sha256(content)))
    ensures var (r, t') := Import(t, importers, sha256, p, kind, fileName, content, lines, now);
      r == Err(StoreFailed(DuplicateFile)) && t'.fileTable == t.fileTable && t'.records == t.records && t'.commits == t.commits
  {
    var (code, name) := GetSupplierInfo(kind);
    EnsureLaws(t.directory, Some(code), Some(name), now);
  }

  /** `rows'` and `saved'` extend `rows` and `saved` by batches of exactly 200 items and a
      last one of 1 to 200, which together are exactly the new rows. */
  ghost predicate AppendedInBatches<T>(rows: seq<T>, saved: seq<seq<T>>, rows': seq<T>, saved': seq<seq<T>>) {
    var n, m := |rows|, |saved|;
    && n <= |rows'| && rows'[..n] == rows
    && m <= |saved'| && saved'[..m] == saved
    && Flatten(saved'[m..]) == rows'[n..]
    && (forall i :: m <= i < |saved'| - 1 ==> |saved'[i]| == BATCH_SIZE)
    && (forall i :: m <= i < |saved'| ==> 1 <= |saved'[i]| <= BATCH_SIZE)
  }

  lemma AppendedNothing<T>(rows: seq<T>, saved: seq<seq<T>>)
    ensures AppendedInBatches(rows, saved, rows, saved)
  {
    assert saved[|saved|..] == [];
    assert rows[|rows|..] == [];
  }

  lemma AppendedChunks<T>(rows: seq<T>, saved: seq<seq<T>>, c: seq<T>)
    ensures AppendedInBatches(rows, saved, rows + c, saved + Chunks(c, BATCH_SIZE))
  {
    var cs := Chunks(c, BATCH_SIZE);
    var rows', saved' := rows + c, saved + cs;
    var n, m := |rows|, |saved|;
    ChunksPartition(c, BATCH_SIZE);
    assert saved'[m..] == cs && saved'[..m] == saved;
    assert rows'[n..] == c && rows'[..n] == rows;
    forall i | m <= i < |saved'| ensures 1 <= |saved'[i]| <= BATCH_SIZE {
      assert saved'[i] == cs[i - m];
      ChunkSizes(c, BATCH_SIZE, i - m);
    }
  }

  /** Records are only ever appended, in batches of exactly 200 and a last one of 1 to 200,
      which together are exactly the new rows. */
  lemma ImportAppends(t: Tables, importers: seq<Importer>, sha256: seq<byte> -> Digest, p: NumberParsers,
                      kind: SupplierKind, fileName: string, content: seq<byte>, lines: seq<Line>, now: Instant)
    ensures var t' := Import(t, importers, sha256, p, kind, fileName, content, lines, now).1;
      AppendedInBatches(t.records, t.commits, t'.records, t'.commits)
  {
    var t' := Import(t, importers, sha256, p, kind, fileName, content, lines, now).1;
    var found := FindImporter(importers, kind);
    if found.None? {
      AppendedNothing(t.records, t.commits);
      return;
    }
    var (code, name) := GetSupplierInfo(kind);
    var (e, d) := Ensure(t.directory, Some(code), Some(name), now);
    if e.Err? {
      AppendedNothing(t.records, t.commits);
      return;
    }
    var (sv, ft) := Save(t.fileTable, d.suppliers, sha256, e.value, fileName, None, Some(content), now);
    if sv.Err? {
      AppendedNothing(t.records, t.commits);
      return;
    }
    var o := Run(found.value, p, lines);
    var c := Committed(StampAll(o.records, e.value, now), CancelSeen(lines));
    assert t'.records == t.records + c && t'.commits == t.commits + Chunks(c, BATCH_SIZE);
    AppendedChunks(t.records, t.commits, c);
  }

  /** Every chunk holds between 1 and `n` items. */
  lemma {:induction false} ChunkSizes<T>(s: seq<T>, n: nat, i: nat)
    requires n > 0 && i < |Chunks(s, n)|
    ensures 1 <= |Chunks(s, n)[i]| <= n
    decreases |s|
  {
    if |s| > n && i > 0 {
      ChunkSizes(s[n..], n, i - 1);
    }
  }

  /** The count `Import` reports against the records it committed, on the stored path. */
  lemma OutcomeCount(n: nat, raised: bool, cancelled: bool, eet: bool, r: Result<int, ImportError>, added: int)
    requires raised <==> eet && cancelled
    requires r == if raised || FlushRaises(n, cancelled) then Err(Cancelled) else Ok(n)
    requires added == if cancelled then n - n % BATCH_SIZE else n
    ensures r.Ok? ==> r.value == added == n
    ensures r == Err(Cancelled) ==> cancelled && added % BATCH_SIZE == 0 && 0 <= n - added < BATCH_SIZE
    ensures r == Err(Cancelled) <==> cancelled && (eet || n % BATCH_SIZE != 0)
  {
  }

  /** The count returned is the number of records the importer produced, all of which were
      added. Once cancellation has been requested only whole batches of 200 stay in the table,
      fewer than 200 short of what was read, and the import fails with `Cancelled` exactly
      when the EET reader raised or a remainder was left for the final flush to save. */
  lemma ImportCount(t: Tables, importers: seq<Importer>, sha256: seq<byte> -> Digest, p: NumberParsers,
                    kind: SupplierKind, fileName: string, content: seq<byte>, lines: seq<Line>, now: Instant)
    ensures var (r, t') := Import(t, importers, sha256, p, kind, fileName, content, lines, now);
      && (r.Ok? ==>
            && r.value == |t'.records| - |t.records|
            && r.value == |Run(FindImporter(importers, kind).value, p, lines).records|)
      && (r == Err(Cancelled) ==>
            && CancelSeen(lines)
            && (|t'.records| - |t.records|) % BATCH_SIZE == 0
            && 0 <= |Run(FindImporter(importers, kind).value, p, lines).records| - (|t'.records| - |t.records|) < BATCH_SIZE)
      && (r.Ok? || r == Err(Cancelled) ==>
            (r == Err(Cancelled) <==>
               CancelSeen(lines) && (FindImporter(importers, kind).value == EetCsv
                                     || |Run(FindImporter(importers, kind).value, p, lines).records| % BATCH_SIZE != 0)))
  {
    var found := FindImporter(importers, kind);
    if found.Some? {
      var (code, name) := GetSupplierInfo(kind);
      var (e, d) := Ensure(t.directory, Some(code), Some(name), now);
      if e.Ok? {
        var (sv, ft) := Save(t.fileTable, d.suppliers, sha256, e.value, fileName, None, Some(content), now);
        if sv.Ok? {
          assert Import(t, importers, sha256, p, kind, fileName, content, lines, now)
              == Append(t, d, ft, found.value, p, lines, e.value, now);
          AppendCount(t, d, ft, found.value, p, lines, e.value, now);
        }
      }
    }
  }

  /** `ImportCount` on the stored path. */
  lemma AppendCount(t: Tables, d: Directory, ft: FileTable, imp: Importer, p: NumberParsers, lines: seq<Line>,
                    supplierId: int, now: Instant)
    ensures var (r, t') := Append(t, d, ft, imp, p, lines, supplierId, now);
      && (r.Ok? ==> r.value == |t'.records| - |t.records| == |Run(imp, p, lines).records|)
      && (r == Err(Cancelled) ==>
            && CancelSeen(lines)
            && (|t'.records| - |t.records|) % BATCH_SIZE == 0
            && 0 <= |Run(imp, p, lines).records| - (|t'.records| - |t.records|) < BATCH_SIZE)
      && (r.Ok? || r == Err(Cancelled) ==>
            (r == Err(Cancelled) <==> CancelSeen(lines) && (imp == EetCsv || |Run(imp, p, lines).records| % BATCH_SIZE != 0)))
  {
    var (r, t') := Append(t, d, ft, imp, p, lines, supplierId, now);
    var o := Run(imp, p, lines);
    var cancelled := CancelSeen(lines);
    var rs := StampAll(o.records, supplierId, now);
    var c := Committed(rs, cancelled);
    if imp == EetCsv {
      assert o == EetRead(p, lines);
      assert o.raised == (|Live(lines)| < |lines|) == cancelled;
    } else {
      assert !o.raised;
    }
    var n := |o.records|;
    CommittedLength(rs, cancelled);
    assert |t'.records| - |t.records| == |c| == if cancelled then n - n % BATCH_SIZE else n;
    OutcomeCount(n, o.raised, cancelled, imp == EetCsv, r, |c|);
  }

  /** Once the supplier and the file are stored, an ALSO read that stops quietly on
      cancellation with a part batch left over fails with `Cancelled` when the final flush
      throws: only the full batches are saved. */
  lemma AlsoCancelledRemainderLost(t: Tables, importers: seq<Importer>, sha256: seq<byte> -> Digest, p: NumberParsers,
                                   fileName: string, content: seq<byte>, lines: seq<Line>, now: Instant)
    requires FindImporter(importers, Also) == Some(AlsoTxt)
    requires var r := Import(t, importers, sha256, p, Also, fileName, content, lines, now).0;
      !(r.Err? && r.error.StoreFailed?)
    requires CancelSeen(lines) && |AlsoLines(p, Live(lines))| % BATCH_SIZE != 0
    ensures var (r, t') := Import(t, importers, sha256, p, Also, fileName, content, lines, now);
      && r == Err(Cancelled)
      && |t'.records| - |t.records| == |AlsoLines(p, Live(lines))| - |AlsoLines(p, Live(lines))| % BATCH_SIZE
  {
    var (r, t') := Import(t, importers, sha256, p, Also, fileName, content, lines, now);
    var n := |AlsoLines(p, Live(lines))|;
    assert Run(AlsoTxt, p, lines).records == AlsoLines(p, Live(lines));
    assert r.Ok? || r == Err(Cancelled);
    ImportCount(t, importers, sha256, p, Also, fileName, content, lines, now);
    assert r == Err(Cancelled);
    var added := |t'.records| - |t.records|;
    assert added % BATCH_SIZE == 0 && 0 <= n - added < BATCH_SIZE;
    DropRemainder(n, added);
  }

  lemma DropRemainder(n: int, k: int)
    requires k % BATCH_SIZE == 0 && 0 <= n - k < BATCH_SIZE
    ensures k == n - n % BATCH_SIZE
  {
  }

  /** Every added record carries the ensured supplier's id and the import time (importers
      leave `ImportedAt` at its default) and no file id. */
  lemma ImportStamps(t: Tables, importers: seq<Importer>, sha256: seq<byte> -> Digest, p: NumberParsers,
                     kind: SupplierKind, fileName: string, content: seq<byte>, lines: seq<Line>, now: Instant)
    ensures var (r, t') := Import(t, importers, sha256, p, kind, fileName, content, lines, now);
      var (code, name) := GetSupplierInfo(kind);
      var e := Ensure(t.directory, Some(code), Some(name), now).0;
      |t'.records| > |t.records| ==>
        && e.Ok?
        && forall i :: |t.records| <= i < |t'.records| ==>
             t'.records[i].supplierId == e.value && t'.records[i].importedAt == now
             && t'.records[i].supplierFileRecordId.None?
  {
    var (r, t') := Import(t, importers, sha256, p, kind, fileName, content, lines, now);
    if |t'.records| > |t.records| {
      var imp := FindImporter(importers, kind).value;
      var (code, name) := GetSupplierInfo(kind);
      var e := Ensure(t.directory, Some(code), Some(name), now).0;
      var o := Run(imp, p, lines);
      ReadersYieldFresh(imp, p, lines);
      var rs := StampAll(o.records, e.value, now);
      var c := Committed(rs, CancelSeen(lines));
      forall i | |t.records| <= i < |t'.records|
        ensures t'.records[i].supplierId == e.value && t'.records[i].importedAt == now
        ensures t'.records[i].supplierFileRecordId.None?
      {
        var k := i - |t.records|;
        assert t'.records[i] == c[k] == rs[k];
      }
    }
  }

  /** The importers yield records with no supplier, no file and a default `ImportedAt`. */
  lemma ReadersYieldFresh(imp: Importer, p: NumberParsers, lines: seq<Line>)
    ensures forall i :: 0 <= i < |Run(imp, p, lines).records| ==>
      var r := Run(imp, p, lines).records[i];
      r.importedAt == DEFAULT_INSTANT && r.supplierFileRecordId.None?
  {
    match imp
    case AlsoTxt =>
      var ls := Live(lines);
      AlsoLinesFrom(p, ls);
    case EetCsv =>
      EetScanFresh(p, Live(lines));
  }

  lemma {:induction false} EetScanFresh(p: NumberParsers, ls: seq<Line>)
    ensures forall i :: 0 <= i < |EetScan(p, ls).records| ==>
      EetScan(p, ls).records[i].importedAt == DEFAULT_INSTANT && EetScan(p, ls).records[i].supplierFileRecordId.None?
  {
    if ls != [] {
      EetScanFresh(p, ls[..|ls| - 1]);
    }
  }

  /** `SupplierImportService`: the registered importers, the supplier store and the
      `SupplierRecords` table of the database context. */
  class ImportService {
    const importers: seq<Importer>
    const store: Store
    /** The culture-specific number parsers the importers call. */
    const parsers: NumberParsers
    var records: seq<SupplierRecord>
    /** The batches passed to `AddRange` and saved, in order. */
    var commits: seq<seq<SupplierRecord>>

    ghost predicate Valid()
      reads this, store
    {
      store.Valid()
    }

    constructor(importers: seq<Importer>, store: Store, parsers: NumberParsers, records: seq<SupplierRecord>)
      requires store.Valid()
      ensures Valid()
      ensures this.importers == importers && this.store == store && this.parsers == parsers
      ensures this.records == records && commits == []
    {
      this.importers := importers;
      this.store := store;
      this.parsers := parsers;
      this.records := records;
      commits := [];
    }

    /** `_db.SupplierRecords.AddRange(batch)` and `SaveChangesAsync`. */
    method Commit(batch: seq<SupplierRecord>)
      modifies this
      ensures records == old(records) + batch && commits == old(commits) + [batch]
    {
      records := records + batch;
      commits := commits + [batch];
    }

    /** The `await foreach` loop of `ImportFileAsync` and the final flush: stamp each record
        and save every full batch of 200. The remainder is saved when no cancellation was
        requested; otherwise it is lost, either because the EET reader's exception skips the
        flush or because the flush after the ALSO reader's quiet stop throws. */
    method AddInBatches(rs: seq<SupplierRecord>, supplierId: int, now: Instant, cancelled: bool)
      returns (total: int, flushRaised: bool)
      modifies this
      ensures total == |rs|
      ensures flushRaised <==> FlushRaises(|rs|, cancelled)
      ensures records == old(records) + Committed(StampAll(rs, supplierId, now), cancelled)
      ensures commits == old(commits) + Chunks(Committed(StampAll(rs, supplierId, now), cancelled), BATCH_SIZE)
    {
      ghost var stamped := StampAll(rs, supplierId, now);
      ghost var done: seq<SupplierRecord> := [];
      total := 0;
      var batch: seq<SupplierRecord> := [];
      while total < |rs|
        invariant 0 <= total <= |rs|
        invariant |done| % BATCH_SIZE == 0 && |batch| < BATCH_SIZE
        invariant done + batch == stamped[..total]
        invariant records == old(records) + done
        invariant commits == old(commits) + Chunks(done, BATCH_SIZE)
      {
        var rec := rs[total];
        rec := rec.(supplierId := supplierId);
        if rec.importedAt == DEFAULT_INSTANT {
          rec := rec.(importedAt := now);
        }
        assert rec == stamped[total];
        Extend(stamped, total, done, batch);
        batch := batch + [rec];
        total := total + 1;
        if |batch| >= BATCH_SIZE {
          FlushStep(old(records), old(commits), done, batch);
          Commit(batch);
          done := done + batch;
          batch := [];
        }
      }
      assert stamped[..total] == stamped;
      RemainderIsMod(|done|, |batch|);
      flushRaised := false;
      if cancelled {
        assert Committed(stamped, cancelled) == done;
        flushRaised := |batch| > 0;
        return;
      }
      if |batch| > 0 {
        FlushStep(old(records), old(commits), done, batch);
        Commit(batch);
      }
    }

    /** `ImportFileAsync`, with the file's bytes and its decoded lines. */
    method ImportFile(kind: SupplierKind, fileName: string, content: seq<byte>, lines: seq<Line>, now: Instant)
      returns (r: Result<int, ImportError>)
      requires Valid()
      modifies this, store
      ensures Valid()
      ensures (r, Tables(store.directory, store.fileTable, records, commits))
        == Import(Tables(old(store.directory), old(store.fileTable), old(records), old(commits)),
                  importers, store.sha256, parsers, kind, fileName, content, lines, now)
    {
      var importer := FindImporter(importers, kind);
      if importer.None? {
        return Err(NoImporter);
      }
      var (code, name) := GetSupplierInfo(kind);
      var e := store.EnsureSupplier(Some(code), Some(name), now);
      if e.Err? {
        return Err(StoreFailed(e.error));
      }
      var supplierId := e.value;
      var s := store.SaveFile(supplierId, fileName, None, Some(content), now);
      if s.Err? {
        return Err(StoreFailed(s.error));
      }
      var o: Outcome;
      if importer.value == AlsoTxt {
        var rs := ReadAlso(parsers, lines);
        o := Outcome(rs, false);
      } else {
        o := ReadEet(parsers, lines);
      }
      var total, flushRaised := AddInBatches(o.records, supplierId, now, CancelSeen(lines));
      if o.raised || flushRaised {
        return Err(Cancelled);
      }
      return Ok(total);
    }
  }
}
