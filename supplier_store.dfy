/** `EfSupplierStore`: the supplier directory, whose codes are unique, and the uploaded files,
    unique per supplier and SHA-256 digest. */
module SupplierStore {
  import opened Wrappers
  import opened Text
  import opened Records
  import opened Hex
  import opened EcwidJson
  import Sorting

  /** The exceptions the store raises; the last three come from the database's constraints. */
  datatype StoreError =
    | CodeRequired          // ArgumentException: null or blank code
    | SupplierIdOutOfRange  // ArgumentOutOfRangeException: supplierId <= 0
    | ContentMissing        // ArgumentNullException: null stream
    | DuplicateFile         // InvalidOperationException: same digest already stored for this supplier
    | DuplicateCode         // the unique index on Code rejects a new supplier
    | UnknownSupplier       // the foreign key rejects a file of a supplier that does not exist

  /** A SHA-256 digest (FIPS 180-4): 32 bytes. */
  type Digest = d: seq<byte> | |d| == 32 witness seq(32, i => 0)

  // ---------- the supplier directory ----------

  /** The `Suppliers` table and its next identity value. */
  datatype Directory = Directory(suppliers: seq<Supplier>, nextId: int)

  /** Position of the first supplier whose code is ordinally `code`. */
  function FindCode(ss: seq<Supplier>, code: string): (r: Option<nat>)
    ensures r.Some? ==> r.value < |ss| && ss[r.value].code == code
    ensures r.None? ==> forall i :: 0 <= i < |ss| ==> ss[i].code != code
  {
    if ss == [] then None
    else if ss[0].code == code then Some(0)
    else match FindCode(ss[1..], code)
      case None => None
      case Some(i) => Some(i + 1)
  }

  /** Some supplier has this id. */
  predicate HasSupplier(ss: seq<Supplier>, id: int) {
    exists i :: 0 <= i < |ss| && ss[i].id == id
  }

  /** Ids are positive, below the next identity value and distinct; codes are trimmed and
      unique (the unique index on `Code`). */
  ghost predicate DirectoryValid(d: Directory) {
    && d.nextId > 0
    && (forall i :: 0 <= i < |d.suppliers| ==>
          0 < d.suppliers[i].id < d.nextId && Unpadded(d.suppliers[i].code))
    && (forall i, j :: 0 <= i < j < |d.suppliers| ==>
          d.suppliers[i].code != d.suppliers[j].code && d.suppliers[i].id != d.suppliers[j].id)
  }

  /** `name?.Trim() ?? ""`. */
  function TrimmedName(name: Option<string>): string {
    if name.None? then "" else Trim(name.value)
  }

  /** `EnsureSupplierAsync`: the supplier id for `code`, creating the supplier when no code
      is ordinally equal to the UNTRIMMED code, and storing the trimmed code and name. */
  function Ensure(d: Directory, code: Option<string>, name: Option<string>, now: Instant): (Result<int, StoreError>, Directory) {
    if IsNullOrWhiteSpace(code) then (Err(CodeRequired), d)
    else match FindCode(d.suppliers, code.value)
      case None =>
        var c := Trim(code.value);
        if FindCode(d.suppliers, c).Some? then (Err(DuplicateCode), d)
        else (Ok(d.nextId), Directory(d.suppliers + [Supplier(d.nextId, c, TrimmedName(name), now)], d.nextId + 1))
      case Some(i) =>
        var s := d.suppliers[i];
        if s.name == TrimmedName(name) then (Ok(s.id), d)
        else (Ok(s.id), d.(suppliers := d.suppliers[i := s.(name := TrimmedName(name))]))
  }

  /** A new supplier is appended with the next id, the trimmed code and the trimmed name. */
  lemma EnsureInserts(d: Directory, code: Option<string>, name: Option<string>, now: Instant)
    requires DirectoryValid(d)
    requires !IsNullOrWhiteSpace(code) && FindCode(d.suppliers, code.value).None?
    requires FindCode(d.suppliers, Trim(code.value)).None?
    ensures var (r, d') := Ensure(d, code, name, now);
      && r == Ok(d.nextId) && DirectoryValid(d')
      && d'.suppliers == d.suppliers + [Supplier(d.nextId, Trim(code.value), TrimmedName(name), now)]
  {
    TrimUnpadded(code.value);
  }

  /** Suppliers keep their ids and codes when the directory grows by appending. */
  lemma AppendKeeps(ss: seq<Supplier>, s: Supplier)
    ensures forall i :: 0 <= i < |ss| ==> (ss + [s])[i].id == ss[i].id && (ss + [s])[i].code == ss[i].code
  {
  }

  /** Suppliers keep their ids and codes when one is renamed. */
  lemma RenameKeeps(ss: seq<Supplier>, k: nat, name: string)
    requires k < |ss|
    ensures forall i :: 0 <= i < |ss| ==>
      ss[k := ss[k].(name := name)][i].id == ss[i].id && ss[k := ss[k].(name := name)][i].code == ss[i].code
  {
  }

  /** A found supplier keeps its id and code and takes the trimmed name. */
  lemma EnsureRenames(d: Directory, code: Option<string>, name: Option<string>, now: Instant, i: nat)
    requires DirectoryValid(d)
    requires !IsNullOrWhiteSpace(code) && FindCode(d.suppliers, code.value) == Some(i)
    ensures var (r, d') := Ensure(d, code, name, now);
      && r == Ok(d.suppliers[i].id) && DirectoryValid(d')
      && d'.suppliers == d.suppliers[i := d.suppliers[i].(name := TrimmedName(name))]
  {
  }

  /** What `Ensure` promises: a blank code is refused; any error leaves the directory as it
      was; on success the returned id names a supplier whose code is the trimmed code and which
      now carries the trimmed name; existing suppliers keep their ids and codes, at most one
      supplier is added and the directory stays valid. */
  lemma EnsureLaws(d: Directory, code: Option<string>, name: Option<string>, now: Instant)
    requires DirectoryValid(d)
    ensures var (r, d') := Ensure(d, code, name, now);
      && DirectoryValid(d')
      && (r == Err(CodeRequired) <==> IsNullOrWhiteSpace(code))
      && (r.Err? ==> d' == d)
      && (r.Ok? ==> exists i :: 0 <= i < |d'.suppliers| && d'.suppliers[i].id == r.value
                      && d'.suppliers[i].code == Trim(code.value) && d'.suppliers[i].name == TrimmedName(name))
      && |d.suppliers| <= |d'.suppliers| <= |d.suppliers| + 1
      && (forall i :: 0 <= i < |d.suppliers| ==>
            d'.suppliers[i].id == d.suppliers[i].id && d'.suppliers[i].code == d.suppliers[i].code)
  {
    var (r, d') := Ensure(d, code, name, now);
    if !IsNullOrWhiteSpace(code) {
      var found := FindCode(d.suppliers, code.value);
      if found.None? {
        var c := Trim(code.value);
        if FindCode(d.suppliers, c).None? {
          var s := Supplier(d.nextId, c, TrimmedName(name), now);
          EnsureInserts(d, code, name, now);
          AppendKeeps(d.suppliers, s);
          assert d'.suppliers[|d.suppliers|] == s;
        }
      } else {
        var i := found.value;
        EnsureRenames(d, code, name, now, i);
        RenameKeeps(d.suppliers, i, TrimmedName(name));
        TrimUnpadded(code.value);
        assert d'.suppliers[i].code == code.value;
      }
    }
  }

  /** For a code without surrounding white space, ensuring the same supplier twice returns the
      same id and leaves the directory as the first call left it. */
  lemma EnsureTwice(d: Directory, code: Option<string>, name: Option<string>, now: Instant, later: Instant)
    requires DirectoryValid(d)
    requires code.Some? && Unpadded(code.value)
    requires Ensure(d, code, name, now).0.Ok?
    ensures var (r, d') := Ensure(d, code, name, now);
      Ensure(d', code, name, later) == (r, d')
  {
    var (r, d') := Ensure(d, code, name, now);
    TrimUnpadded(code.value);
    var found := FindCode(d.suppliers, code.value);
    var k: nat;
    if found.None? {
      EnsureInserts(d, code, name, now);
      k := |d.suppliers|;
    } else {
      k := found.value;
      EnsureRenames(d, code, name, now, k);
    }
    FindUnique(d'.suppliers, code.value, k);
    EnsureRenames(d', code, name, later, k);
    RenameSame(d'.suppliers, k, TrimmedName(name));
  }

  /** With unique codes, the supplier carrying a code is the one found for it. */
  lemma FindUnique(ss: seq<Supplier>, code: string, k: nat)
    requires forall i, j :: 0 <= i < j < |ss| ==> ss[i].code != ss[j].code
    requires k < |ss| && ss[k].code == code
    ensures FindCode(ss, code) == Some(k)
  {
  }

  /** Renaming a supplier to the name it has changes nothing. */
  lemma RenameSame(ss: seq<Supplier>, k: nat, name: string)
    requires k < |ss| && ss[k].name == name
    ensures ss[k := ss[k].(name := name)] == ss
  {
  }

  /** The lookup uses the untrimmed code but the insert stores the trimmed one, so ensuring a
      code with surrounding white space a second time hits the unique index instead of finding
      the supplier the first call created. */
  lemma EnsureUntrimmedTwice(d: Directory, code: Option<string>, name: Option<string>, now: Instant, later: Instant)
    requires DirectoryValid(d)
    requires code.Some? && !Unpadded(code.value)
    requires Ensure(d, code, name, now).0.Ok?
    ensures var (_, d') := Ensure(d, code, name, now);
      Ensure(d', code, name, later) == (Err(DuplicateCode), d')
  {
    var (r, d') := Ensure(d, code, name, now);
    EnsureLaws(d, code, name, now);
    var i :| 0 <= i < |d'.suppliers| && d'.suppliers[i].id == r.value && d'.suppliers[i].code == Trim(code.value);
    assert FindCode(d'.suppliers, Trim(code.value)) != None;
    assert FindCode(d'.suppliers, code.value).None? by {
      forall k | 0 <= k < |d'.suppliers| ensures d'.suppliers[k].code != code.value {
        assert Unpadded(d'.suppliers[k].code);
      }
    }
  }

  // ---------- uploaded files ----------

  /** The `SupplierFiles` table and its next identity value. */
  datatype FileTable = FileTable(files: seq<SupplierFileRecord>, nextId: int)

  /** A file with this supplier and digest text is stored. */
  predicate HasDigest(fs: seq<SupplierFileRecord>, supplierId: int, sha: string) {
    exists i :: 0 <= i < |fs| && fs[i].supplierId == supplierId && fs[i].sha256 == sha
  }

  /** Ids are positive, below the next identity value and distinct; each file belongs to a
      stored supplier, records its own size and lower-case digest text; `(SupplierId, Sha256)`
      is unique (the unique index on the pair). */
  ghost predicate FilesValid(t: FileTable, ss: seq<Supplier>, sha256: seq<byte> -> Digest) {
    && t.nextId > 0
    && (forall i :: 0 <= i < |t.files| ==>
          && 0 < t.files[i].id < t.nextId
          && HasSupplier(ss, t.files[i].supplierId)
          && t.files[i].size == |t.files[i].content|
          && t.files[i].sha256 == DigestText(sha256(t.files[i].content)))
    && (forall i, j :: 0 <= i < j < |t.files| ==>
          t.files[i].id != t.files[j].id
          && (t.files[i].supplierId != t.files[j].supplierId || t.files[i].sha256 != t.files[j].sha256))
  }

  /** `SaveFileAsync`: checks the arguments, refuses a digest already stored for this supplier,
      and stores the file with its size and lower-case hexadecimal SHA-256 text. */
  function Save(t: FileTable, ss: seq<Supplier>, sha256: seq<byte> -> Digest, supplierId: int, fileName: string,
                contentType: Option<string>, content: Option<seq<byte>>, now: Instant): (Result<int, StoreError>, FileTable)
  {
    if supplierId <= 0 then (Err(SupplierIdOutOfRange), t)
    else if content.None? then (Err(ContentMissing), t)
    else
      var bytes := content.value;
      var sha := DigestText(sha256(bytes));
      if HasDigest(t.files, supplierId, sha) then (Err(DuplicateFile), t)
      else if !HasSupplier(ss, supplierId) then (Err(UnknownSupplier), t)
      else
        var rec := SupplierFileRecord(t.nextId, supplierId, fileName, contentType, |bytes|, sha, bytes, now);
        (Ok(t.nextId), FileTable(t.files + [rec], t.nextId + 1))
  }

  /** What `Save` promises: argument errors first; an error leaves the files as they were; a
      duplicate is refused exactly when this supplier already has a file with this content's
      digest; a stored file is appended with every field recorded, its digest text 64 lower-case
      hexadecimal characters; the table stays valid. */
  lemma SaveLaws(t: FileTable, ss: seq<Supplier>, sha256: seq<byte> -> Digest, supplierId: int, fileName: string,
                 contentType: Option<string>, content: Option<seq<byte>>, now: Instant)
    requires FilesValid(t, ss, sha256)
    ensures var (r, t') := Save(t, ss, sha256, supplierId, fileName, contentType, content, now);
      && FilesValid(t', ss, sha256)
      && (r.Err? ==> t' == t)
      && (supplierId <= 0 ==> r == Err(SupplierIdOutOfRange))
      && (supplierId > 0 && content.None? ==> r == Err(ContentMissing))
      && (supplierId > 0 && content.Some? ==>
            (r == Err(DuplicateFile) <==> HasDigest(t.files, supplierId, DigestText(sha256(content.value)))))
      && (r.Ok? ==>
            && t'.files[..|t.files|] == t.files
            && |t'.files| == |t.files| + 1
            && var f := t'.files[|t.files|];
            && f.id == r.value && f.supplierId == supplierId && f.fileName == fileName
            && f.contentType == contentType && f.content == content.value && f.size == |content.value|
            && f.sha256 == DigestText(sha256(content.value)) && |f.sha256| == 64 && IsLowerHexText(f.sha256)
            && f.uploadedAt == now)
  {
    var (r, t') := Save(t, ss, sha256, supplierId, fileName, contentType, content, now);
    if r.Ok? {
      DigestTextShape(sha256(content.value));
      var n := |t.files|;
      forall i, j | 0 <= i < j < |t'.files|
        ensures t'.files[i].id != t'.files[j].id
        ensures t'.files[i].supplierId != t'.files[j].supplierId || t'.files[i].sha256 != t'.files[j].sha256
      {
        if j == n {
          assert t'.files[i] == t.files[i];
        }
      }
    }
  }

  /** The same content for the same supplier is refused the second time; the first file stays
      the only one. */
  lemma SaveTwiceRefused(t: FileTable, ss: seq<Supplier>, sha256: seq<byte> -> Digest, supplierId: int, fileName: string,
                         contentType: Option<string>, content: Option<seq<byte>>, now: Instant,
                         fileName2: string, contentType2: Option<string>, later: Instant)
    requires FilesValid(t, ss, sha256)
    requires Save(t, ss, sha256, supplierId, fileName, contentType, content, now).0.Ok?
    ensures var t' := Save(t, ss, sha256, supplierId, fileName, contentType, content, now).1;
      Save(t', ss, sha256, supplierId, fileName2, contentType2, content, later) == (Err(DuplicateFile), t')
  {
    var t' := Save(t, ss, sha256, supplierId, fileName, contentType, content, now).1;
    assert t'.files[|t.files|].supplierId == supplierId;
  }

  /** The digest check is per supplier: content already stored for another supplier does not
      stop a stored supplier from saving it. */
  lemma SaveSameContentOtherSupplier(t: FileTable, ss: seq<Supplier>, sha256: seq<byte> -> Digest, a: int, b: int,
                                     fileName: string, content: seq<byte>, now: Instant, later: Instant)
    requires FilesValid(t, ss, sha256)
    requires a != b && b > 0 && HasSupplier(ss, b)
    requires !HasDigest(t.files, b, DigestText(sha256(content)))
    requires Save(t, ss, sha256, a, fileName, None, Some(content), now).0.Ok?
    ensures var t' := Save(t, ss, sha256, a, fileName, None, Some(content), now).1;
      Save(t', ss, sha256, b, fileName, None, Some(content), later).0.Ok?
  {
    var t' := Save(t, ss, sha256, a, fileName, None, Some(content), now).1;
    var sha := DigestText(sha256(content));
    forall i | 0 <= i < |t'.files| ensures !(t'.files[i].supplierId == b && t'.files[i].sha256 == sha) {
      if i < |t.files| {
        assert t'.files[i] == t.files[i];
      }
    }
  }

  // ---------- ordered reads ----------

  /** The files of one supplier, in table order. */
  function FilesOf(fs: seq<SupplierFileRecord>, supplierId: int): (r: seq<SupplierFileRecord>)
    ensures forall f :: f in r <==> f in fs && f.supplierId == supplierId
  {
    if fs == [] then []
    else (if fs[0].supplierId == supplierId then [fs[0]] else []) + FilesOf(fs[1..], supplierId)
  }

  /** Newer upload first. */
  function NewerFirst(a: SupplierFileRecord, b: SupplierFileRecord): bool {
    a.uploadedAt.ticks >= b.uploadedAt.ticks
  }

  /** `GetFilesAsync`: the supplier's files, newest upload first. */
  function GetFiles(t: FileTable, supplierId: int): (r: seq<SupplierFileRecord>)
    ensures multiset(r) == multiset(FilesOf(t.files, supplierId))
    ensures forall f :: f in r <==> f in t.files && f.supplierId == supplierId
    ensures forall i :: 0 < i < |r| ==> r[i - 1].uploadedAt.ticks >= r[i].uploadedAt.ticks
  {
    var own := FilesOf(t.files, supplierId);
    var r := Sorting.SortBy(own, NewerFirst);
    Sorting.SortBySorts(own, NewerFirst);
    assert forall f :: f in r <==> f in own by {
      forall f ensures f in r <==> f in own {
        assert f in r <==> f in multiset(r);
        assert f in own <==> f in multiset(own);
      }
    }
    r
  }

  /** `GetSuppliersAsync`: every supplier, ordered by name under the database's collation
      `nameLe`, a total order on names. */
  function GetSuppliers(d: Directory, nameLe: (string, string) -> bool): (r: seq<Supplier>)
    requires forall a, b :: nameLe(a, b) || nameLe(b, a)
    ensures multiset(r) == multiset(d.suppliers)
    ensures forall i :: 0 < i < |r| ==> nameLe(r[i - 1].name, r[i].name)
  {
    var le := (x: Supplier, y: Supplier) => nameLe(x.name, y.name);
    assert Sorting.TotalOn(d.suppliers, le) by {
      forall i, j | 0 <= i < |d.suppliers| && 0 <= j < |d.suppliers|
        ensures le(d.suppliers[i], d.suppliers[j]) || le(d.suppliers[j], d.suppliers[i])
      {
        assert nameLe(d.suppliers[i].name, d.suppliers[j].name) || nameLe(d.suppliers[j].name, d.suppliers[i].name);
      }
    }
    Sorting.SortBySorts(d.suppliers, le);
    Sorting.SortBy(d.suppliers, le)
  }

  // ---------- the store ----------

  class Store {
    var directory: Directory
    var fileTable: FileTable
    /** `SHA256.HashData`, a foreign call. */
    const sha256: seq<byte> -> Digest

    ghost predicate Valid()
      reads this
    {
      DirectoryValid(directory) && FilesValid(fileTable, directory.suppliers, sha256)
    }

    constructor(sha256: seq<byte> -> Digest)
      ensures Valid()
      ensures directory == Directory([], 1) && fileTable == FileTable([], 1) && this.sha256 == sha256
    {
      directory := Directory([], 1);
      fileTable := FileTable([], 1);
      this.sha256 := sha256;
    }

    /** `EnsureSupplierAsync`. */
    method EnsureSupplier(code: Option<string>, name: Option<string>, now: Instant) returns (r: Result<int, StoreError>)
      requires Valid()
      modifies this
      ensures Valid()
      ensures (r, directory) == Ensure(old(directory), code, name, now)
      ensures fileTable == old(fileTable)
    {
      EnsureLaws(directory, code, name, now);
      if IsNullOrWhiteSpace(code) {
        return Err(CodeRequired);
      }
      var found := FindCode(directory.suppliers, code.value);
      if found.None? {
        var c := Trim(code.value);
        if FindCode(directory.suppliers, c).Some? {
          return Err(DuplicateCode);
        }
        var s := Supplier(directory.nextId, c, TrimmedName(name), now);
        r := Ok(directory.nextId);
        directory := Directory(directory.suppliers + [s], directory.nextId + 1);
      } else {
        var i := found.value;
        var s := directory.suppliers[i];
        var newName := TrimmedName(name);
        if s.name != newName {
          directory := directory.(suppliers := directory.suppliers[i := s.(name := newName)]);
        }
        r := Ok(s.id);
      }
      SuppliersKept(old(directory), directory, fileTable, sha256);
    }

    /** `SaveFileAsync`. */
    method SaveFile(supplierId: int, fileName: string, contentType: Option<string>, content: Option<seq<byte>>, now: Instant)
      returns (r: Result<int, StoreError>)
      requires Valid()
      modifies this
      ensures Valid()
      ensures (r, fileTable) == Save(old(fileTable), directory.suppliers, sha256, supplierId, fileName, contentType, content, now)
      ensures directory == old(directory)
    {
      SaveLaws(fileTable, directory.suppliers, sha256, supplierId, fileName, contentType, content, now);
      if supplierId <= 0 {
        return Err(SupplierIdOutOfRange);
      }
      if content.None? {
        return Err(ContentMissing);
      }
      var bytes := content.value;
      var sha := DigestText(sha256(bytes));
      if HasDigest(fileTable.files, supplierId, sha) {
        return Err(DuplicateFile);
      }
      if !HasSupplier(directory.suppliers, supplierId) {
        return Err(UnknownSupplier);
      }
      var rec := SupplierFileRecord(fileTable.nextId, supplierId, fileName, contentType, |bytes|, sha, bytes, now);
      r := Ok(fileTable.nextId);
      fileTable := FileTable(fileTable.files + [rec], fileTable.nextId + 1);
    }
  }

  /** Files keep pointing at stored suppliers when the directory only renames or adds. */
  lemma SuppliersKept(d: Directory, d': Directory, t: FileTable, sha256: seq<byte> -> Digest)
    requires FilesValid(t, d.suppliers, sha256)
    requires |d.suppliers| <= |d'.suppliers|
    requires forall i :: 0 <= i < |d.suppliers| ==> d'.suppliers[i].id == d.suppliers[i].id
    ensures FilesValid(t, d'.suppliers, sha256)
  {
    forall i | 0 <= i < |t.files| ensures HasSupplier(d'.suppliers, t.files[i].supplierId) {
      var k :| 0 <= k < |d.suppliers| && d.suppliers[k].id == t.files[i].supplierId;
      assert d'.suppliers[k].id == t.files[i].supplierId;
    }
  }
}
