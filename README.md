# EcwidSync core, modelled in Dafny

EcwidSync is a Windows desktop tool that mirrors an Ecwid online store into a local database
and imports supplier price lists. This project models its core and proves properties of that
model:

- **Ecwid client.** `EcwidClient` reads products and categories from the Ecwid REST API page
  by page. It authenticates with a bearer header and falls back, once and for good, to a
  `token` query parameter when the server answers 401 or 403.
  - `EcwidPaging` holds the pure parts: `BuildUrl`, the exchange of `GetWithAuthRetryAsync`,
    one page of each loop, and the loops themselves as functions of the server's answers.
  - `EcwidJson` maps a category element field by field, including the unchecked narrowing of
    64-bit ids.
  - `EcwidClient` is the client as an object. Its mutable `useQueryAuth` flag and its methods
    talk to a `Server` object that logs every request. Each method is proved equal to the
    functions above.
  - `EcwidPagingLaws` proves what every run obeys.
- **Product and category tables.** `EfProductStore` and `EfCategoryStore` apply a batch row by
  row. A new id is inserted, and a stored row is replaced only when its raw JSON differs
  ordinally. Tables read back by ascending id.
  - `Upsert` defines this once for both tables and proves it idempotent and frame-preserving.
  - `CatalogStores` holds the two store classes.
- **Supplier store.** `EfSupplierStore` keeps suppliers with unique codes and uploaded files.
  A file is unique per supplier by its lower-case hexadecimal SHA-256 text.
  - `SupplierStore` models `EnsureSupplierAsync` and `SaveFileAsync` as functions with a
    `Store` class over them.
  - `Hex` proves the digest text is 64 lower-case hexadecimal characters and reads back to the
    digest.
- **Supplier import.** `SupplierImportService.ImportFileAsync` does the following, in order:
  1. picks the importer for a supplier kind;
  2. ensures the supplier;
  3. saves the file, refusing a duplicate;
  4. adds the importer's records in batches of 200.

  This is `SupplierImport`, built on the two line readers in `Importers`:
  - the ALSO reader: tab-separated, fixed columns;
  - the EET reader: `;`-separated, optional header line.
- **Parsing helpers.** `ParseUtil` (lenient number parsing, `Clean`) and `SimpleCsv`
  (a quote-aware split).
- **View models.**
  - `ProductsGrid` covers the `ProductsViewModel` grid and its id-to-row index, the search
    filter, loading from the local table, and the sync that upserts in batches of 200.
  - `CategoryForest` and `CategoriesTree` cover the `CategoriesViewModel` category tree and its
    `CategoryTreeNode` objects: tree building, expand and collapse, loading and sync.
    `CategoryRecords` maps categories to table rows and back.
  - `SupplierDrop` is the drop target of the suppliers view, which picks the importer from the
    file's extension or name.

The shared modules are:

- `Text`: white space, `Trim`, `Contains`, `Split` and `Join`, ASCII case mapping;
- `Int32`: 32- and 64-bit integers and unchecked narrowing;
- `Chunking`: the discipline of flushing every 200 rows and then a final non-empty remainder;
- `Sorting`: `OrderBy` as a stable insertion sort, and the ascending keys of a table;
- `Records` and `Wrappers`: the data types.

Code that changes state in place is modelled as classes with `modifies` clauses, proved against
the functions that specify them. This covers the client's mode flag, the stores, the import
service's batches, the product grid, the tree nodes and their links. The loops are loops with
invariants: the paging loops, the splitter, the readers, the batching loops, the three loops of
`RebuildTree`, and `SetExpanded`.

Library code the model does not open becomes a function-typed parameter:

- JSON deserialisation;
- date parsing;
- culture-specific number parsing;
- culture-aware comparisons;
- SHA-256.

The HTTP server is a finite sequence of answers, consumed one per GET. A request that finds no
answer left is a transport failure.

Behaviours of the code a reader might not expect:

- **Bearer header after the fallback.** After the fallback the client still sends the bearer
  header: the code sets `DefaultRequestHeaders.Authorization` in the constructor
  (src/EcwidSync.Infrastructure/EcwidClient.cs:40-41) and never clears it. Every later request therefore carries both the header and `?token=`.
  `EcwidClient.Client`'s server log records the header on every request.
- **Token sent twice.** In query mode the paging URL is built with `BuildUrl` and passed to
  `GetWithAuthRetryAsync`, which applies `BuildUrl` again (lines 46, 111, 153 and 231). The
  request therefore carries `?token=` twice. `EcwidPagingLaws.QueryModeSendsTokenTwice` states
  this.
- **Padded supplier codes.** `EnsureSupplierAsync` looks a supplier up by the untrimmed code but
  stores the trimmed one (src/EcwidSync.Persistence/EfSupplierStore.cs:18-21). Code lookups here
  compare ordinally. Under that comparison a padded code misses its own supplier the second time
  and hits the unique index on `Code`. `SupplierStore.EnsureUntrimmedTwice` states this. The
  application runs on SQL Server (src/EcwidSync.Shell/App.xaml.cs:72), whose default collation
  ignores trailing spaces and case. There, only a code with leading white space misses. The import service only passes unpadded
  codes for the two built-in kinds (`SupplierImport.KnownKindEnsured`).

## Model

| member | source | states |
|---|---|---|
| EcwidPaging.BuildUrl | src/EcwidSync.Infrastructure/EcwidClient.cs:217-226 | In bearer mode the path comes back unchanged. In query mode it is the path followed by `&token=<token>` when it already has a `?`, else by `?token=<token>`. |
| EcwidPagingLaws.BuildUrlCarriesToken | src/EcwidSync.Infrastructure/EcwidClient.cs:217-226 | Any URL built in query mode ends with the `token=<token>` parameter. |
| EcwidPaging.AuthGetLaws | src/EcwidSync.Infrastructure/EcwidClient.cs:228-241 | The mode becomes query iff it was query or the first answer is 401/403. A bearer denial costs exactly one retry, with the token in the URL; any other status is returned unretried. Query mode sends exactly one request. Each request consumes one answer, and a transport failure is the request that found none. |
| EcwidPagingLaws.QueryModeSendsTokenTwice | src/EcwidSync.Infrastructure/EcwidClient.cs:46-48 | In query mode the URL actually sent is the page path with the token parameter appended twice. |
| EcwidPaging.ProductOfDto | src/EcwidSync.Infrastructure/EcwidClient.cs:57-66 | Every field of the product is the DTO's. An absent date gives no `Updated`. |
| EcwidPaging.ProductsOf | src/EcwidSync.Infrastructure/EcwidClient.cs:57-66 | One product per DTO, in order, each mapped by `ProductOfDto`. |
| EcwidPaging.ReadProductsPage | src/EcwidSync.Infrastructure/EcwidClient.cs:49-68 | The page is a transport error iff no answer came. A status error carries the answer's status and body, and only for a non-success status. |
| EcwidPaging.ProductsStep | src/EcwidSync.Infrastructure/EcwidClient.cs:76-86 | One page of `GetAllProductsAsync` goes on only after an answer. It reports a transport failure iff there was no answer, and a status error only with that non-success answer's status and body. |
| EcwidPaging.ProductsTurn | src/EcwidSync.Infrastructure/EcwidClient.cs:76-86 | A turn that lets the loop go on has consumed at least one answer, so the loop terminates. |
| EcwidPaging.MapElements | src/EcwidSync.Infrastructure/EcwidClient.cs:122-138 | Without a failure every element is yielded. A failure stops the page at the first element not yielded, and that element is the one that failed. |
| EcwidPaging.MapElementsInOrder | src/EcwidSync.Infrastructure/EcwidClient.cs:122-138 | The elements are mapped in order: each one yielded is the mapping of the element at its position. |
| EcwidPaging.RawStep | src/EcwidSync.Infrastructure/EcwidClient.cs:112-143 | One page of a raw loop has the same reporting law as `ProductsStep`. Its paging rules are stated on `EcwidPagingLaws.RawStepOfPage`. |
| EcwidPaging.RawTurn | src/EcwidSync.Infrastructure/EcwidClient.cs:111-143 | A turn that lets a raw loop go on has consumed at least one answer. |
| EcwidPagingLaws.RawLoopLaws | src/EcwidSync.Infrastructure/EcwidClient.cs:106-145 | Every raw run reads a prefix of the answers, one per request (a last request may find none). It never leaves query mode, and leaves bearer mode exactly when a 401/403 was read. Every URL sent in query mode carries the token: all of them when the run starts in query mode, and otherwise each one sent after a 401/403 answer. A status error carries the last answer read, which was not a success. |
| EcwidPagingLaws.ProductsLoopLaws | src/EcwidSync.Infrastructure/EcwidClient.cs:71-88 | Every `GetAllProductsAsync` run obeys the same laws, including the token law for runs that start in bearer mode. |
| EcwidPagingLaws.RawStepOfPage | src/EcwidSync.Infrastructure/EcwidClient.cs:116-143 | On a successful page the elements are mapped in order. A failing element stops the run with the elements before it and its fault. Otherwise the run stops with the page's elements when `items` is missing or empty, when `count` (the array length when missing) is 0, or when the offset advanced by `count` reaches a positive `total` (0 when missing). In every other case it continues from that offset. |
| EcwidPagingLaws.RawLoopContinues | src/EcwidSync.Infrastructure/EcwidClient.cs:142-143 | A page that does not end the run contributes its mapped elements, followed by the rest of the run from the advanced offset. |
| EcwidPagingLaws.RawLoopStops | src/EcwidSync.Infrastructure/EcwidClient.cs:143 | A page that ends the run, with all its elements mapped, is the whole run. It ends without error and leaves the later answers unread. |
| EcwidPagingLaws.RawLoopFault | src/EcwidSync.Infrastructure/EcwidClient.cs:122-138 | A page with an element that fails to map ends the run with the elements before it and that element's fault. |
| EcwidPagingLaws.RawLoopPages | src/EcwidSync.Infrastructure/EcwidClient.cs:106-145 | Take pages whose elements all map and of which only the last ends the run. In either mode, the run yields the concatenation of every page's mapped elements and stops without error right after the last page, leaving every later answer unread. |
| EcwidPagingLaws.RawLoopSteps | src/EcwidSync.Infrastructure/EcwidClient.cs:106-145 | When each answer steps as its page says (continue from the next offset, or stop after the last page), the run yields the batches of all steps joined in order, with no error, and reads exactly one answer per page. |
| EcwidPagingLaws.RawLoopReachesTotal | src/EcwidSync.Infrastructure/EcwidClient.cs:140-143 | Take full pages that each report their length as `count` and the same positive `total`. The run stops exactly when the offset reaches `total`, yields `total - offset` elements and reads every page. |
| EcwidPagingLaws.ProductsLoopShortLastPage | src/EcwidSync.Infrastructure/EcwidClient.cs:82-86 | With no positive `total`, full pages followed by one short page are all read. The run yields every item of every page in order and reads exactly that many answers. |
| EcwidPagingLaws.ProductsLoopReachesTotal | src/EcwidSync.Infrastructure/EcwidClient.cs:82-86 | When full pages report a positive `total` that the offset reaches, the run stops exactly at that page, having yielded every item in order. |
| EcwidPagingLaws.ProductsLoopContinues | src/EcwidSync.Infrastructure/EcwidClient.cs:76-86 | A successful page that does not end the loop yields its items first. The loop then continues from the offset advanced by the number of items, wrapped to 32 bits. |
| EcwidPagingLaws.ProductsLoopStops | src/EcwidSync.Infrastructure/EcwidClient.cs:85-86 | A non-empty successful page that meets the stop rule is the last one read. |
| EcwidPagingLaws.ProductsStepStops | src/EcwidSync.Infrastructure/EcwidClient.cs:85-86 | The step on such a page stops without error, yielding that page's products. |
| EcwidPagingLaws.ProductsStepContinues | src/EcwidSync.Infrastructure/EcwidClient.cs:79-82 | Otherwise the step yields the page's products and moves to the advanced offset. |
| EcwidPagingLaws.TwoPageCategoryRun | src/EcwidSync.Infrastructure/EcwidClient.cs:147-213 | Two one-item pages reporting `total` 2, read with page size 1, yield categories 1 and 2 with their raw texts. They take two requests and end without error. |
| EcwidPagingLaws.LastCategoryPage | src/EcwidSync.Infrastructure/EcwidClient.cs:207-211 | From offset 1, a page whose count brings the offset to `total` ends the run. |
| EcwidPagingLaws.OneCategoryStep | src/EcwidSync.Infrastructure/EcwidClient.cs:165-211 | A page holding one category element (`count` 1, `total` 2) at offset id - 1 yields that category, with defaults for its missing fields, paired with its own raw text. It moves on to offset id while id < 2 and stops without error once the offset reaches `total`. |
| EcwidJson.GetInt32 | src/EcwidSync.Infrastructure/EcwidClient.cs:207-208 | `GetInt32` succeeds iff the element is an integer that fits in 32 bits, and then returns it. |
| EcwidJson.MapCategory | src/EcwidSync.Infrastructure/EcwidClient.cs:168-202 | A non-object element throws. `enabled` is true iff the property is JSON `true`. `updated` is read only from a non-blank string: the local-time parse when it succeeds, else the offset-time parse converted to UTC. |
| EcwidJson.Int32Or64Truncates | src/EcwidSync.Infrastructure/EcwidClient.cs:170-177 | Only numbers are accepted. An integer that fits in 32 bits is kept, and one that fits in 64 bits is narrowed to its low 32 bits. A fractional number, or an integer beyond 64 bits, gives no value. |
| EcwidJson.MapCategoryFields | src/EcwidSync.Infrastructure/EcwidClient.cs:168-181 | The mapping fails iff the element is not an object, `id` is present but not a number, `parentId` is present but neither null nor a number, or `name` is present but neither a string nor null. Otherwise `id` is the narrowed number (0 when absent), and `parentId` is absent iff the property is missing, null, fractional or beyond 64 bits (else it is the low 32 bits). `name` is the string, or "". |
| EcwidClient.Server.Get | src/EcwidSync.Infrastructure/EcwidClient.cs:233 | A GET logs the request with its header and consumes the next answer. With no answer left it fails and consumes nothing. |
| EcwidClient.Client.constructor | src/EcwidSync.Infrastructure/EcwidClient.cs:34-42 | The client starts in bearer mode. The authorization header is set iff the token is not blank. |
| EcwidClient.Client.GetWithAuthRetry | src/EcwidSync.Infrastructure/EcwidClient.cs:228-241 | The answer, the requests logged and the answers consumed are those of `AuthGet`. `useQueryAuth` becomes true iff it was true or the first answer was 401/403. |
| EcwidClient.Client.GetProducts | src/EcwidSync.Infrastructure/EcwidClient.cs:44-69 | The typed page and the new mode are those of `EcwidPaging.GetProducts`. Every request is logged with the constructor's header. |
| EcwidClient.Client.NextProductsPage | src/EcwidSync.Infrastructure/EcwidClient.cs:76-86 | One pass of the `while (true)` loop does what `ProductsTurn` specifies. |
| EcwidClient.Client.GetAllProducts | src/EcwidSync.Infrastructure/EcwidClient.cs:71-88 | The products yielded, the error, the final mode and the server's log are those of `ProductsLoop` from offset 0. |
| EcwidClient.Client.MapPage | src/EcwidSync.Infrastructure/EcwidClient.cs:122-138 | The loop over a page's elements computes `MapElements`. |
| EcwidClient.Client.ReadRawPage | src/EcwidSync.Infrastructure/EcwidClient.cs:113-143 | The statements of one loop turn compute `RawStep`. On a page that is: the elements mapped in order up to the first failure, and a stop on an empty page, on a zero `count` or at `total`, else the advanced offset (`RawStepOfPage`). |
| EcwidClient.Client.NextRawPage | src/EcwidSync.Infrastructure/EcwidClient.cs:111-143 | One pass of a raw loop does what `RawTurn` specifies. |
| EcwidClient.Client.GetAllRaw | src/EcwidSync.Infrastructure/EcwidClient.cs:106-145 | The pairs yielded, the error, the final mode and the log are those of `RawLoop` from offset 0. So the run obeys `RawLoopLaws`, yields every page's mapped elements in order and stops at the first page that is empty or meets the stop rule (`RawLoopPages`, `RawLoopReachesTotal`, `RawLoopFault`). |
| EcwidClient.Client.GetAllProductsWithRaw | src/EcwidSync.Infrastructure/EcwidClient.cs:106-145 | It is `RawLoop` over "products", each product paired with its element's own raw text. The paging laws above hold for it. |
| EcwidClient.Client.GetAllCategoriesWithRaw | src/EcwidSync.Infrastructure/EcwidClient.cs:147-213 | It is `RawLoop` over "categories", each category paired with its element's own raw text. The paging laws above hold for it (`TwoPageCategoryRun` is a worked case). |
| Upsert.UpsertAllSingleRow | src/EcwidSync.Persistence/EfProductStore.cs:14-23 | For an id that occurs once in the batch, an absent id gets the row as given. A stored row with ordinally equal raw JSON stays exactly as it was. A stored row with different raw JSON is replaced by the incoming row. |
| Upsert.UpsertAllFrame | src/EcwidSync.Persistence/EfProductStore.cs:10-28 | Afterwards the ids are the old ids plus the batch's, so nothing is removed. An id not in the batch keeps its row. |
| Upsert.UpsertAllIdempotent | src/EcwidSync.Persistence/EfProductStore.cs:14-23 | Upserting the same batch a second time leaves the table as after the first. |
| Upsert.UpsertAllAppend | src/EcwidSync.Persistence/EfProductStore.cs:12-25 | Two batches applied one after the other act as their concatenation. |
| Upsert.UpsertAllAt | src/EcwidSync.Persistence/EfCategoryStore.cs:12-19 | The row of an id afterwards depends only on its stored row and that id's rows in the batch, in order. |
| Upsert.SettleRaw | src/EcwidSync.Persistence/EfCategoryStore.cs:14-18 | Once a row has arrived for an id, the stored row carries the raw JSON of the last one. |
| Upsert.SettleIdempotent | src/EcwidSync.Persistence/EfCategoryStore.cs:14-18 | Applying an id's rows a second time changes nothing. |
| Upsert.UpsertAllKeyed | src/EcwidSync.Persistence/EfCategoryStore.cs:10-22 | Every row stays stored under its own id. |
| Upsert.RowsFor | src/EcwidSync.Persistence/EfCategoryStore.cs:12-14 | The batch rows carrying an id are exactly those of the batch with that id. |
| Upsert.SameRowsSameTable | src/EcwidSync.Persistence/EfProductStore.cs:30-32 | Two tables that answer every id alike are the same table. |
| CatalogStores.ProductStore.UpsertBatch | src/EcwidSync.Persistence/EfProductStore.cs:10-28 | The loop over the batch leaves the table `UpsertAll` specifies, and the table stays keyed by id. |
| CatalogStores.ProductStore.GetAll | src/EcwidSync.Persistence/EfProductStore.cs:30 | Every stored product appears once, by strictly ascending id. |
| CatalogStores.ProductStore.GetById | src/EcwidSync.Persistence/EfProductStore.cs:32 | It returns the stored product with that id, or nothing for a missing id. |
| CatalogStores.CategoryStore.UpsertBatch | src/EcwidSync.Persistence/EfCategoryStore.cs:10-22 | Same as for products, on the category table. |
| CatalogStores.CategoryStore.GetAll | src/EcwidSync.Persistence/EfCategoryStore.cs:24-25 | Every stored category appears once, by strictly ascending id. |
| CatalogStores.InIdOrderLaws | src/EcwidSync.Persistence/EfProductStore.cs:30 | Reading a keyed table in id order yields every row once, by strictly ascending id. |
| CatalogStores.FirstWithId | src/EcwidSync.Persistence/EfProductStore.cs:32 | `FirstOrDefault` finds a row with that id, or none when no row has it. |
| CatalogStores.RowsOf | src/EcwidSync.Persistence/EfProductStore.cs:30 | The rows of the listed ids, in the listed order. |
| SupplierStore.EnsureLaws | src/EcwidSync.Persistence/EfSupplierStore.cs:13-35 | The code is refused with the argument error iff it is null or blank, and any error leaves the directory as it was. On success the returned id names a supplier with the trimmed code and the trimmed name (null → ""). Existing suppliers keep their ids and codes, at most one is added, and codes stay unique. |
| SupplierStore.EnsureInserts | src/EcwidSync.Persistence/EfSupplierStore.cs:18-24 | With no supplier of that code, a new supplier is appended with the next id, the trimmed code and the trimmed name, and its id is returned. |
| SupplierStore.EnsureRenames | src/EcwidSync.Persistence/EfSupplierStore.cs:27-34 | A found supplier keeps its id and code and ends with the trimmed name. Nothing else changes. |
| SupplierStore.EnsureTwice | src/EcwidSync.Persistence/EfSupplierStore.cs:13-35 | For an unpadded code, ensuring twice returns the same id and leaves the directory as after the first call. |
| SupplierStore.EnsureUntrimmedTwice | src/EcwidSync.Persistence/EfSupplierStore.cs:18-21 | Under ordinal comparison, a padded code's second call fails on the unique code index and changes nothing. |
| SupplierStore.FindCode | src/EcwidSync.Persistence/EfSupplierStore.cs:18 | The lookup finds a supplier whose code is ordinally the given one, or none when no supplier has it. The comparison is ordinal, not the database's collation. |
| SupplierStore.FindUnique | src/EcwidSync.Persistence/AppDbContext.cs:50 | With unique codes, the supplier carrying a code is the one found. |
| SupplierStore.RenameSame | src/EcwidSync.Persistence/EfSupplierStore.cs:28 | Setting the name a supplier already has changes nothing. |
| SupplierStore.SaveLaws | src/EcwidSync.Persistence/EfSupplierStore.cs:37-75 | A non-positive supplier id, then a missing content, is refused, and any error leaves the files as they were. A duplicate is refused iff this supplier already has a file with this content's digest. A stored file is appended with the supplier, name, content type, bytes, size = byte count, and a digest text of 64 lower-case hexadecimal characters. The table stays valid: ids distinct, (supplier, digest) unique. |
| SupplierStore.SaveTwiceRefused | src/EcwidSync.Persistence/EfSupplierStore.cs:56-60 | Saving the same content for the same supplier twice is refused the second time, and the table keeps the first file only. |
| SupplierStore.SaveSameContentOtherSupplier | src/EcwidSync.Persistence/EfSupplierStore.cs:56-60 | Content stored for one supplier does not count as a duplicate for another. |
| SupplierStore.GetFiles | src/EcwidSync.Persistence/EfSupplierStore.cs:88-98 | Exactly the supplier's files are returned, as a permutation of them, newest upload first. |
| SupplierStore.FilesOf | src/EcwidSync.Persistence/EfSupplierStore.cs:93 | The files kept are exactly those of the supplier. |
| SupplierStore.GetSuppliers | src/EcwidSync.Persistence/EfSupplierStore.cs:77-86 | Every supplier is returned once (a permutation), ordered by name under a total collation. |
| SupplierStore.Store.EnsureSupplier | src/EcwidSync.Persistence/EfSupplierStore.cs:13-35 | The result and the new directory are `Ensure`'s. The files are unchanged and the store stays valid. |
| SupplierStore.Store.SaveFile | src/EcwidSync.Persistence/EfSupplierStore.cs:37-75 | The result and the new file table are `Save`'s. The directory is unchanged and the store stays valid. |
| SupplierStore.SuppliersKept | src/EcwidSync.Persistence/AppDbContext.cs:88-93 | Files keep pointing at existing suppliers when the directory only renames or adds. |
| Hex.DigestTextShape | src/EcwidSync.Persistence/EfSupplierStore.cs:54 | The digest text has two lower-case hexadecimal characters per byte, so 64 for SHA-256. |
| Hex.UnhexDigestText | src/EcwidSync.Persistence/EfSupplierStore.cs:54 | Reading the digest text back gives the digest. |
| Hex.DigestTextInjective | src/EcwidSync.Persistence/EfSupplierStore.cs:54-57 | Different digests have different texts, so the duplicate check compares digests. |
| Hex.DigestTextLower | src/EcwidSync.Persistence/EfSupplierStore.cs:54 | Lower-casing `ToHexString`'s upper-case text is writing lower-case digits. |
| Hex.Base16At | src/EcwidSync.Persistence/EfSupplierStore.cs:54 | Byte j is written at positions 2j and 2j+1, high nibble first. |
| Hex.DigitTables | src/EcwidSync.Persistence/EfSupplierStore.cs:54 | Each upper-case digit lower-cases to the lower-case digit of the same value. |
| SupplierImport.FindImporter | src/EcwidSync.Modules.Suppliers/Services/SupplierImportService.cs:38 | It finds a registered importer of the kind, or nothing iff none has the kind. |
| SupplierImport.SupplierInfoCodes | src/EcwidSync.Modules.Suppliers/Services/SupplierImportService.cs:89-95 | ALSO and EET get distinct, unpadded, non-blank codes. Any other kind gets its upper-cased name as code and its name as name; the code is blank only when the name is. |
| SupplierImport.KnownKindEnsured | src/EcwidSync.Modules.Suppliers/Services/SupplierImportService.cs:42-43 | For ALSO and EET, ensuring the supplier always succeeds. |
| SupplierImport.ImportWithoutImporter | src/EcwidSync.Modules.Suppliers/Services/SupplierImportService.cs:38-39 | With no importer for the kind, the import fails before touching suppliers, files or records. |
| SupplierImport.ImportDuplicateFile | src/EcwidSync.Modules.Suppliers/Services/SupplierImportService.cs:50-63 | When the ensured supplier already has a file with this content's digest, the import fails with the duplicate-file error. Files, records and commits are unchanged. |
| SupplierImport.ImportAppends | src/EcwidSync.Modules.Suppliers/Services/SupplierImportService.cs:72-84 | Records are only appended, whether the import succeeds, is cancelled or fails. They are committed in order, in batches of exactly 200 and a last one of 1 to 200, which together are exactly the new records. |
| SupplierImport.ImportCount | src/EcwidSync.Modules.Suppliers/Services/SupplierImportService.cs:60-86 | The count returned equals the number of records the importer produced, which equals the number added. Once cancellation has been requested, only whole batches of 200 stay, fewer than 200 short of what was read. The import then fails with `Cancelled` exactly when the EET reader raised or a remainder was left for the flush at line 83, whose `SaveChangesAsync(ct)` throws. |
| SupplierImport.AlsoCancelledRemainderLost | src/EcwidSync.Modules.Suppliers/Services/SupplierImportService.cs:80-84 | An ALSO read stops quietly on cancellation (src/EcwidSync.Modules.Suppliers/Importers/AlsoTxtImporter.cs:33). If it leaves a part batch, the import fails with `Cancelled` and only the full batches of the records read are saved. |
| SupplierImport.CancelSeen | src/EcwidSync.Modules.Suppliers/Importers/AlsoTxtImporter.cs:33 | The token is cancelled when the reader stops iff some line was read with cancellation requested. |
| SupplierImport.ImportStamps | src/EcwidSync.Modules.Suppliers/Services/SupplierImportService.cs:65-67 | Every added record carries the ensured supplier's id and the import time, and no file id. |
| SupplierImport.ReadersYieldFresh | src/EcwidSync.Modules.Suppliers/Importers/AlsoTxtImporter.cs:54-62 | The readers yield records with no supplier, no file and a default `ImportedAt`. |
| SupplierImport.StampAll | src/EcwidSync.Modules.Suppliers/Services/SupplierImportService.cs:65-67 | One stamped record per record read, in order. |
| SupplierImport.ImportService.AddInBatches | src/EcwidSync.Modules.Suppliers/Services/SupplierImportService.cs:60-84 | The loop and the final flush return the number of records read. They append the stamped records, one commit per chunk of 200. All records are appended when no cancellation was requested; otherwise only the whole batches are. The flush raises exactly when cancellation was requested and a remainder is left. |
| SupplierImport.ImportService.Commit | src/EcwidSync.Modules.Suppliers/Services/SupplierImportService.cs:74-75 | `AddRange` plus `SaveChangesAsync` appends the batch to the records and logs it as one commit. |
| SupplierImport.ImportService.ImportFile | src/EcwidSync.Modules.Suppliers/Services/SupplierImportService.cs:35-87 | The result and every table afterwards are those of `Import`. So `ImportCount`, `ImportAppends`, `ImportStamps` and `AlsoCancelledRemainderLost` hold for it, including the cancelled flush. |
| Importers.AlsoLine | src/EcwidSync.Modules.Suppliers/Importers/AlsoTxtImporter.cs:34-62 | A kept line gives a record whose `Raw` is the whole line, with a trimmed SKU and a name, price and stock always present. |
| Importers.AlsoLineKept | src/EcwidSync.Modules.Suppliers/Importers/AlsoTxtImporter.cs:34-39 | A line gives a record iff it is not blank and has at least ten tab-separated columns. There is no SKU check. |
| Importers.AlsoLinesFrom | src/EcwidSync.Modules.Suppliers/Importers/AlsoTxtImporter.cs:31-63 | Every record comes from one line of the file. |
| Importers.AlsoLinesAppend | src/EcwidSync.Modules.Suppliers/Importers/AlsoTxtImporter.cs:31-63 | The records of two stretches of lines are those of each, in order. |
| Importers.ReadAlso | src/EcwidSync.Modules.Suppliers/Importers/AlsoTxtImporter.cs:17-64 | The reader yields the records of the lines before cancellation is seen, in order, and ends quietly. |
| Importers.Live | src/EcwidSync.Modules.Suppliers/Importers/AlsoTxtImporter.cs:33 | The lines handled are the longest prefix with no cancellation. |
| Importers.TryDec | src/EcwidSync.Modules.Suppliers/Importers/EetCsvImporter.cs:68-73 | A missing column gives no price. |
| Importers.TryIntColumn | src/EcwidSync.Modules.Suppliers/Importers/EetCsvImporter.cs:75-79 | A missing column gives no stock. |
| Importers.EetLine | src/EcwidSync.Modules.Suppliers/Importers/EetCsvImporter.cs:46-64 | A kept line gives a record whose `Raw` is the line, with a trimmed non-blank SKU. The name is absent iff the line has no `;`. |
| Importers.EetLineKept | src/EcwidSync.Modules.Suppliers/Importers/EetCsvImporter.cs:49-55 | A data line gives a record iff its first `;` column is not blank. |
| Importers.TrimBlank | src/EcwidSync.Modules.Suppliers/Importers/EetCsvImporter.cs:49-55 | Trimming keeps a blank text blank and a non-blank one non-blank. |
| Importers.EetRead | src/EcwidSync.Modules.Suppliers/Importers/EetCsvImporter.cs:26-30 | The reader raises iff some line was read with cancellation requested. |
| Importers.ReadEet | src/EcwidSync.Modules.Suppliers/Importers/EetCsvImporter.cs:19-66 | The loop with its `headerSkipped` flag computes `EetRead`. |
| Importers.EetHeaderRule | src/EcwidSync.Modules.Suppliers/Importers/EetCsvImporter.cs:31-44 | Blank lines are skipped and are not header candidates. Only the first non-blank line can be a header, and it is dropped iff it mentions SKU, UPC or Description ignoring case. Every later non-blank line is read as data. |
| Importers.EetScanAfterHeader | src/EcwidSync.Modules.Suppliers/Importers/EetCsvImporter.cs:35-64 | Once the header is decided, each further line adds what `EetLine` gives. |
| Importers.EetScanBlanks | src/EcwidSync.Modules.Suppliers/Importers/EetCsvImporter.cs:31-32 | Blank lines leave the reader where it started. |
| ParseUtil.TryDecimalFallback | src/EcwidSync.Modules.Suppliers/Parsing/ParseUtil.cs:10-20 | Blank input gives nothing. Otherwise the result is the first success of pt-PT, invariant, and invariant after `,`→`.`, each on the text trimmed of white space and then of `"` and `'`. |
| ParseUtil.TryIntFallback | src/EcwidSync.Modules.Suppliers/Parsing/ParseUtil.cs:22-29 | Blank input gives nothing. Otherwise the result is the first success of pt-PT and invariant, on the same cleaned text. |
| ParseUtil.FirstSome | src/EcwidSync.Modules.Suppliers/Parsing/ParseUtil.cs:15-19 | A fallback chain returns the first attempt that succeeds, and nothing iff none does. |
| ParseUtil.UnquoteEnds | src/EcwidSync.Modules.Suppliers/Parsing/ParseUtil.cs:13 | The text handed to the parsers is the trimmed text with only its leading and trailing quote characters removed. No quote is left at either end, but white space inside the quotes stays. |
| ParseUtil.QuotedSpaceKept | src/EcwidSync.Modules.Suppliers/Parsing/ParseUtil.cs:13 | A quoted value with a space inside the quotes, `" 1"`, reaches the parsers as ` 1`: the space is kept. |
| ParseUtil.Clean | src/EcwidSync.Modules.Suppliers/Parsing/ParseUtil.cs:31 | The result is null iff the input is blank. Otherwise it is non-empty, non-blank and unpadded. |
| ParseUtil.CleanIdempotent | src/EcwidSync.Modules.Suppliers/Parsing/ParseUtil.cs:31 | Cleaning twice is cleaning once. |
| SimpleCsv.Split | src/EcwidSync.Modules.Suppliers/Parsing/SimpleCsv.cs:6-20 | The character loop returns `Fields`: at least one field, and joining the fields with the separator gives back the line. |
| SimpleCsv.FieldsJoin | src/EcwidSync.Modules.Suppliers/Parsing/SimpleCsv.cs:12-18 | Joining the fields with the separator reproduces the line exactly, quotes kept. |
| SimpleCsv.FieldCount | src/EcwidSync.Modules.Suppliers/Parsing/SimpleCsv.cs:12-18 | There is one field more than there are separators preceded by an even number of `"`. |
| SimpleCsv.ScanCounts | src/EcwidSync.Modules.Suppliers/Parsing/SimpleCsv.cs:14-15 | The splitter is inside quotes iff it has read an odd number of `"`. It has closed one field per unquoted separator. |
| SimpleCsv.UnquotedIsPlainSplit | src/EcwidSync.Modules.Suppliers/Parsing/SimpleCsv.cs:15 | A line without `"` splits exactly like `string.Split(sep)`. |
| SimpleCsv.FieldsSepsQuoted | src/EcwidSync.Modules.Suppliers/Parsing/SimpleCsv.cs:14-16 | Any separator inside a field follows an odd number of `"` within that field. |
| ProductsGrid.FilterProduct | src/EcwidSync.Modules.Products/ViewModels/ProductsViewModel.cs:51-64 | Anything but a product is rejected. With a blank search every product passes. |
| ProductsGrid.FilterLaws | src/EcwidSync.Modules.Products/ViewModels/ProductsViewModel.cs:56-63 | With a non-blank search, a product passes iff its name, or its non-empty SKU, contains the trimmed query ignoring case, or the query reads as its id. |
| ProductsGrid.UpsertRow | src/EcwidSync.Modules.Products/ViewModels/ProductsViewModel.cs:198-210 | Upserting a row keeps every indexed id pointing at a row that shows that id. |
| ProductsGrid.UpsertRowLaws | src/EcwidSync.Modules.Products/ViewModels/ProductsViewModel.cs:198-210 | An indexed id has its row replaced in place, with the same count and index. A new id gets a new last row at the old count. Every other id keeps its row and what it shows. |
| ProductsGrid.UpsertRowConsistent | src/EcwidSync.Modules.Products/ViewModels/ProductsViewModel.cs:198-210 | Upserting keeps the rows and the index one-to-one. |
| ProductsGrid.Fill | src/EcwidSync.Modules.Products/ViewModels/ProductsViewModel.cs:152-154 | The grid a sync builds with one `UpsertInGrid` per product is indexed. |
| ProductsGrid.FillConsistent | src/EcwidSync.Modules.Products/ViewModels/ProductsViewModel.cs:152-154 | That grid has one row per fetched id, and the index is one-to-one with the rows. |
| ProductsGrid.FillShowsLatest | src/EcwidSync.Modules.Products/ViewModels/ProductsViewModel.cs:152-154 | For each fetched id, the grid shows the last product fetched with it. |
| ProductsGrid.FillRowsFetched | src/EcwidSync.Modules.Products/ViewModels/ProductsViewModel.cs:152-154 | Every row is a fetched product. |
| ProductsGrid.IdsMembers | src/EcwidSync.Modules.Products/ViewModels/ProductsViewModel.cs:155 | `seen` holds exactly the fetched ids. |
| ProductsGrid.FillAsWritten | src/EcwidSync.Modules.Products/ViewModels/ProductsViewModel.cs:154-156 | The grid built as written (`UpsertInGrid` then `Items.Add`) still keeps every index entry pointing at a row of its id. |
| ProductsGrid.AsWrittenRowCount | src/EcwidSync.Modules.Products/ViewModels/ProductsViewModel.cs:154-156 | As written, the grid indexes the same ids but holds one extra row per fetched product. |
| ProductsGrid.AsWrittenShowsTwice | src/EcwidSync.Modules.Products/ViewModels/ProductsViewModel.cs:154-156 | A sync fetching one product shows it on two rows, so the grid is not consistent, and the sweep at lines 183-185 keeps both rows. |
| ProductsGrid.RecordOf | src/EcwidSync.Modules.Products/ViewModels/ProductsViewModel.cs:158-168 | The record carries the product's id, the raw JSON and the sync time. |
| ProductsGrid.RecordRoundTrip | src/EcwidSync.Modules.Products/ViewModels/ProductsViewModel.cs:108-117 | The record a sync builds reads back as the same product: the product-to-record mapping and the record-to-product mapping are inverse on every field. The column limits of the database are not part of this ("## Left out"). |
| ProductsGrid.RecordsOf | src/EcwidSync.Modules.Products/ViewModels/ProductsViewModel.cs:152-168 | One record per fetched pair, in fetch order. |
| ProductsGrid.Firsts | src/EcwidSync.Modules.Products/ViewModels/ProductsViewModel.cs:152 | The products of the fetched pairs, in order. |
| ProductsGrid.ListedRows | src/EcwidSync.Modules.Products/ViewModels/ProductsViewModel.cs:106-120 | Records read by ascending id are listed in that order, each id mapped to its position. |
| ProductsGrid.ListedConsistent | src/EcwidSync.Modules.Products/ViewModels/ProductsViewModel.cs:106-120 | That listing has one row per record and is one-to-one. |
| ProductsGrid.StoredListingIndexed | src/EcwidSync.Modules.Products/ViewModels/ProductsViewModel.cs:106-120 | The listing of a keyed table read in id order is indexed. |
| ProductsGrid.KeepSeenRows | src/EcwidSync.Modules.Products/ViewModels/ProductsViewModel.cs:183-185 | The sweep keeps only rows of the grid whose id was seen. |
| ProductsGrid.KeepSeenAll | src/EcwidSync.Modules.Products/ViewModels/ProductsViewModel.cs:183-185 | When every id was seen, the sweep keeps every row. |
| ProductsGrid.SweepAfterSyncKeepsAll | src/EcwidSync.Modules.Products/ViewModels/ProductsViewModel.cs:183-185 | After a sync every row has a fetched id, so the sweep removes nothing. |
| ProductsGrid.ProductsViewModel.constructor | src/EcwidSync.Modules.Products/ViewModels/ProductsViewModel.cs:35-42 | The grid starts empty and not loading, with no batch upserted. |
| ProductsGrid.ProductsViewModel.UpsertInGrid | src/EcwidSync.Modules.Products/ViewModels/ProductsViewModel.cs:198-210 | The grid and index become `UpsertRow` of the old ones. Nothing else changes. |
| ProductsGrid.ProductsViewModel.UpsertBatch | src/EcwidSync.Modules.Products/ViewModels/ProductsViewModel.cs:173 | The store's table becomes `UpsertAll` of the batch, and the batch is logged. The grid is unchanged. |
| ProductsGrid.ProductsViewModel.Sweep | src/EcwidSync.Modules.Products/ViewModels/ProductsViewModel.cs:183-185 | The backward removal loop leaves exactly the rows whose id was seen, in order. |
| ProductsGrid.ProductsViewModel.LoadLocal | src/EcwidSync.Modules.Products/ViewModels/ProductsViewModel.cs:95-132 | While loading, nothing changes. Otherwise the grid lists the stored products by ascending id, each id mapped to its row, and loading ends. |
| ProductsGrid.ProductsViewModel.ReadStore | src/EcwidSync.Modules.Products/ViewModels/ProductsViewModel.cs:106 | Enumerating the store gives its products by ascending id. |
| ProductsGrid.ProductsViewModel.ListRecords | src/EcwidSync.Modules.Products/ViewModels/ProductsViewModel.cs:106-120 | The loop lists one row per record, each id mapped to the row it was added at. |
| ProductsGrid.ProductsViewModel.Accept | src/EcwidSync.Modules.Products/ViewModels/ProductsViewModel.cs:158-175 | One record joins the open batch, and a batch of 200 is upserted and cleared. The store always holds the upsert of the whole batches. |
| ProductsGrid.ProductsViewModel.FlushRest | src/EcwidSync.Modules.Products/ViewModels/ProductsViewModel.cs:178-179 | A non-empty remainder is upserted as one last batch. |
| ProductsGrid.ProductsViewModel.Show | src/EcwidSync.Modules.Products/ViewModels/ProductsViewModel.cs:154-155 | Corrected form of the "## Findings" row, with only `UpsertInGrid`: one more product is shown and its id remembered. |
| ProductsGrid.ProductsViewModel.SyncLoop | src/EcwidSync.Modules.Products/ViewModels/ProductsViewModel.cs:152-176 | The corrected sync of the "## Findings" row, one row per fetched id. After the loop every fetched product is counted and shown, and the store holds the upsert of the whole batches of 200. |
| ProductsGrid.ProductsViewModel.SyncOne | src/EcwidSync.Modules.Products/ViewModels/ProductsViewModel.cs:152-176 | One pass of the loop keeps the loop's invariant. |
| ProductsGrid.ProductsViewModel.SyncStart | src/EcwidSync.Modules.Products/ViewModels/ProductsViewModel.cs:142-147 | Before the first pass nothing is shown, batched or upserted. |
| ProductsGrid.ProductsViewModel.SyncEnd | src/EcwidSync.Modules.Products/ViewModels/ProductsViewModel.cs:176-178 | Corrected sync of the "## Findings" row. After the last pass the grid is the sync's grid. The records are whole batches plus an open batch under 200, together exactly the fetched records. |
| ProductsGrid.ProductsViewModel.LoadAll | src/EcwidSync.Modules.Products/ViewModels/ProductsViewModel.cs:136-196 | The corrected sync of the "## Findings" row; as written every new id is shown twice (`AsWrittenShowsTwice`). While loading, nothing changes. Otherwise every fetched product is counted and the grid shows each fetched id once, with its latest product. Every fetched record is upserted exactly once, in batches of 200 and a final non-empty remainder. After a failed fetch only the whole batches are upserted. |
| ProductsGrid.ProductsViewModel.Settle | src/EcwidSync.Modules.Products/ViewModels/ProductsViewModel.cs:176-191 | After the loop, a raise drops the open batch and success flushes it; the store and log are as committed. |
| ProductsGrid.ProductsViewModel.Abandon | src/EcwidSync.Modules.Products/ViewModels/ProductsViewModel.cs:188-191 | A raise keeps the whole batches upserted and drops the open batch. |
| ProductsGrid.ProductsViewModel.Complete | src/EcwidSync.Modules.Products/ViewModels/ProductsViewModel.cs:178-186 | In the corrected sync of the "## Findings" row, the remainder is flushed and the sweep keeps every row. |
| CategoryRecords.RecordOfCategory | src/EcwidSync.Modules.Categories/ViewModels/CategoriesViewModel.cs:74-84 | The record carries the category's id, the raw JSON and the sync time. |
| CategoryRecords.CategoryRoundTrip | src/EcwidSync.Modules.Categories/ViewModels/CategoriesViewModel.cs:37-44 | A category stored by a sync reads back as the same category: widening then narrowing the ids is the identity. |
| CategoryRecords.Fetched | src/EcwidSync.Modules.Categories/ViewModels/CategoriesViewModel.cs:72 | The categories of the fetched pairs, in order. |
| CategoryRecords.FetchedRecords | src/EcwidSync.Modules.Categories/ViewModels/CategoriesViewModel.cs:74-84 | One record per fetched pair, in order. |
| CategoryRecords.CategoriesOf | src/EcwidSync.Modules.Categories/ViewModels/CategoriesViewModel.cs:35-45 | One category per stored record, in order, with the ids narrowed. |
| CategoryRecords.DistinctStoredIds | src/EcwidSync.Modules.Categories/ViewModels/CategoriesViewModel.cs:39 | Ascending ids that fit in 32 bits survive the narrowing, and each is the last of its id. |
| CategoryRecords.RowForestKeys | src/EcwidSync.Modules.Categories/ViewModels/CategoriesViewModel.cs:118-119 | The tree built from such rows has exactly the table's ids. |
| CategoryRecords.RowForestValues | src/EcwidSync.Modules.Categories/ViewModels/CategoriesViewModel.cs:118-119 | Each id holds the category of its row. |
| CategoryRecords.StoredForest | src/EcwidSync.Modules.Categories/ViewModels/CategoriesViewModel.cs:34-46 | Loading a table whose ids fit in 32 bits gives one node per stored id, showing that row's category. |
| CategoryRecords.StoredRows | src/EcwidSync.Modules.Categories/ViewModels/CategoriesViewModel.cs:35-45 | Such rows, read in id order, keep their ids as categories. |
| CategoryForest.LastByIdKeys | src/EcwidSync.Modules.Categories/ViewModels/CategoriesViewModel.cs:118-119 | The dictionary holds exactly the ids that occur: one node per distinct id. |
| CategoryForest.LastByIdValues | src/EcwidSync.Modules.Categories/ViewModels/CategoriesViewModel.cs:119 | Each id holds the last category with that id. |
| CategoryForest.LastByIdKeyed | src/EcwidSync.Modules.Categories/ViewModels/CategoriesViewModel.cs:119 | Every category sits under its own id. |
| CategoryForest.KeyOrderEnumerates | src/EcwidSync.Modules.Categories/ViewModels/CategoriesViewModel.cs:121 | The dictionary's order lists every id exactly once. |
| CategoryForest.EnumeratesMembers | src/EcwidSync.Modules.Categories/ViewModels/CategoriesViewModel.cs:121 | The ids listed are those of the dictionary. |
| CategoryForest.ParentOf | src/EcwidSync.Modules.Categories/ViewModels/CategoriesViewModel.cs:123 | A node's parent, when it has one, is in the dictionary. |
| CategoryForest.ChildrenMembers | src/EcwidSync.Modules.Categories/ViewModels/CategoriesViewModel.cs:121-128 | The children of p are exactly the nodes whose `ParentId` is p, when p exists. |
| CategoryForest.RootMembers | src/EcwidSync.Modules.Categories/ViewModels/CategoriesViewModel.cs:130 | The roots are exactly the nodes with no `ParentId` or an unmatched one. |
| CategoryForest.ChildrenDistinct | src/EcwidSync.Modules.Categories/ViewModels/CategoriesViewModel.cs:126 | No node is a child twice. |
| CategoryForest.RootsDistinct | src/EcwidSync.Modules.Categories/ViewModels/CategoriesViewModel.cs:130 | No node is a root twice. |
| CategoryForest.ChildrenStep | src/EcwidSync.Modules.Categories/ViewModels/CategoriesViewModel.cs:123-126 | Linking one more node adds it to its parent's children only. |
| CategoryForest.TreeShape | src/EcwidSync.Modules.Categories/ViewModels/CategoriesViewModel.cs:121-130 | Every node is a root or in exactly one node's `Children`, that of its parent, and never both. |
| CategoryForest.CycleNotRooted | src/EcwidSync.Modules.Categories/ViewModels/CategoriesViewModel.cs:107-113 | A node on a `ParentId` cycle hangs below no root, so expanding from the roots never reaches it. |
| CategoryForest.UnderParent | src/EcwidSync.Modules.Categories/ViewModels/CategoriesViewModel.cs:113 | Whatever is below a node is below its parent. |
| CategoryForest.UnderSomeChild | src/EcwidSync.Modules.Categories/ViewModels/CategoriesViewModel.cs:113 | Whatever is strictly below p is below one of p's children. |
| CategoryForest.UnderChildren | src/EcwidSync.Modules.Categories/ViewModels/CategoriesViewModel.cs:110-114 | The nodes below p are p itself and the nodes below its children. |
| CategoryForest.BelowSplit | src/EcwidSync.Modules.Categories/ViewModels/CategoriesViewModel.cs:110-114 | As sets: Below(p) = {p} ∪ the nodes below the children. |
| CategoryForest.ChainDistinct | src/EcwidSync.Modules.Categories/ViewModels/CategoriesViewModel.cs:113 | A path down from a root visits no node twice. |
| CategoryForest.ChainBound | src/EcwidSync.Modules.Categories/ViewModels/CategoriesViewModel.cs:113 | Such a path is no longer than the number of nodes, which bounds the recursion. |
| CategoryForest.ChildChain | src/EcwidSync.Modules.Categories/ViewModels/CategoriesViewModel.cs:113 | Stepping to a child extends a path down from a root. |
| CategoriesTree.Notification | src/EcwidSync.Modules.Categories/ViewModels/CategoryTreeNode.cs:26 | A setter reports the property iff the value changes, and at most once. |
| CategoriesTree.Renotify | src/EcwidSync.Modules.Categories/ViewModels/CategoryTreeNode.cs:26 | Setting a value in two steps, one of which changes nothing, reports as setting it in one. |
| CategoriesTree.CategoryTreeNode.constructor | src/EcwidSync.Modules.Categories/ViewModels/CategoryTreeNode.cs:37-44 | The node copies the category's id, name, enabled flag, date and `ParentId`. It starts with no parent, no children, collapsed, unselected, with nothing reported. |
| CategoriesTree.CategoryTreeNode.SetIsExpanded | src/EcwidSync.Modules.Categories/ViewModels/CategoryTreeNode.cs:23-27 | The flag takes the value, and `IsExpanded` is reported only when it changed. |
| CategoriesTree.CategoryTreeNode.SetIsSelected | src/EcwidSync.Modules.Categories/ViewModels/CategoryTreeNode.cs:29-34 | Same for `IsSelected`. |
| CategoriesTree.ByNameTotal | src/EcwidSync.Modules.Categories/ViewModels/CategoriesViewModel.cs:131 | A total name order orders any nodes by name. |
| CategoriesTree.Override | src/EcwidSync.Modules.Categories/ViewModels/CategoriesViewModel.cs:110-114 | Overriding flags keeps the same nodes. |
| CategoriesTree.Notified | src/EcwidSync.Modules.Categories/ViewModels/CategoriesViewModel.cs:112 | Reporting keeps the same nodes. |
| CategoriesTree.OverrideTwice | src/EcwidSync.Modules.Categories/ViewModels/CategoriesViewModel.cs:113 | Setting s and then t to v sets s ∪ t, and reports once per changed node. |
| CategoriesTree.OverrideNone | src/EcwidSync.Modules.Categories/ViewModels/CategoriesViewModel.cs:113 | Setting no flag changes and reports nothing. |
| CategoriesTree.RootsOfIds | src/EcwidSync.Modules.Categories/ViewModels/CategoriesViewModel.cs:130-132 | Any reordering of the nodes of exactly the root ids holds the roots. |
| CategoriesTree.UniqueIdsPermuted | src/EcwidSync.Modules.Categories/ViewModels/CategoriesViewModel.cs:131 | Sorting nodes with distinct ids keeps them distinct. |
| CategoriesTree.ParentsDone | src/EcwidSync.Modules.Categories/ViewModels/CategoriesViewModel.cs:121-128 | Once every id is linked, each node's parent link is the node of its parent. |
| CategoriesTree.ChildNodes | src/EcwidSync.Modules.Categories/ViewModels/CategoriesViewModel.cs:126 | A node's children are the nodes of its child ids, in dictionary order. |
| CategoriesTree.BuiltKeyed | src/EcwidSync.Modules.Categories/ViewModels/CategoriesViewModel.cs:119 | The nodes of a built tree are filed under their own ids. |
| CategoriesTree.RootedBelow | src/EcwidSync.Modules.Categories/ViewModels/CategoriesViewModel.cs:107-108 | The nodes reached from the roots are exactly those below some root. |
| CategoriesTree.CategoriesViewModel.constructor | src/EcwidSync.Modules.Categories/ViewModels/CategoriesViewModel.cs:16-25 | No roots, not loading, nothing upserted. |
| CategoriesTree.CategoriesViewModel.RebuildTree | src/EcwidSync.Modules.Categories/ViewModels/CategoriesViewModel.cs:116-136 | There is one fresh node per distinct id, showing the last category of that id. Each node is linked to the node of its parent and holds its children in dictionary order. The roots are each parentless node once, sorted by name. Every node is collapsed and unselected. |
| CategoriesTree.CategoriesViewModel.BuildTree | src/EcwidSync.Modules.Categories/ViewModels/CategoriesViewModel.cs:118-132 | The three loops leave exactly that tree, on fresh nodes. |
| CategoriesTree.CategoriesViewModel.CreateForest | src/EcwidSync.Modules.Categories/ViewModels/CategoriesViewModel.cs:118-119 | The first loop read as a forest gives one unlinked, pristine node per id, in the dictionary's order. |
| CategoriesTree.CategoriesViewModel.CreateNodes | src/EcwidSync.Modules.Categories/ViewModels/CategoriesViewModel.cs:118-119 | `dict[c.Id] = new CategoryTreeNode(c)`: the keys are the distinct ids, in first-insertion order, each with a fresh node of its last category. |
| CategoriesTree.CategoriesViewModel.LinkTree | src/EcwidSync.Modules.Categories/ViewModels/CategoriesViewModel.cs:121-128 | The second loop wires every node, leaving the visual state untouched. |
| CategoriesTree.CategoriesViewModel.LinkNodes | src/EcwidSync.Modules.Categories/ViewModels/CategoriesViewModel.cs:121-128 | Every node gets its parent link, and every parent its children in dictionary order. |
| CategoriesTree.CategoriesViewModel.LinkOne | src/EcwidSync.Modules.Categories/ViewModels/CategoriesViewModel.cs:123-127 | One node is linked under its parent's node, when that exists, and appended to its children; no other link changes. |
| CategoriesTree.CategoriesViewModel.RootNodes | src/EcwidSync.Modules.Categories/ViewModels/CategoriesViewModel.cs:130-132 | The roots are the parentless nodes, each once, sorted by name. |
| CategoriesTree.CategoriesViewModel.Unlinked | src/EcwidSync.Modules.Categories/ViewModels/CategoriesViewModel.cs:130 | `Where(n => n.Parent is null)` keeps the nodes of the root ids, in dictionary order. |
| CategoriesTree.CategoriesViewModel.LoadLocal | src/EcwidSync.Modules.Categories/ViewModels/CategoriesViewModel.cs:28-54 | While loading, nothing changes. Otherwise the tree is rebuilt from the stored categories, read by ascending id with the ids narrowed to 32 bits. |
| CategoriesTree.CategoriesViewModel.ReadCategories | src/EcwidSync.Modules.Categories/ViewModels/CategoriesViewModel.cs:35-45 | The loop gives one category per stored record, in order, by unchecked narrowing. |
| CategoriesTree.CategoriesViewModel.UpsertBatch | src/EcwidSync.Modules.Categories/ViewModels/CategoriesViewModel.cs:89 | The store's table becomes `UpsertAll` of the batch, and the batch is logged. |
| CategoriesTree.CategoriesViewModel.Accept | src/EcwidSync.Modules.Categories/ViewModels/CategoriesViewModel.cs:74-91 | One record joins the open batch, and a batch of 200 is upserted and cleared. |
| CategoriesTree.CategoriesViewModel.FlushRest | src/EcwidSync.Modules.Categories/ViewModels/CategoriesViewModel.cs:94-95 | A non-empty remainder is upserted as one last batch. |
| CategoriesTree.CategoriesViewModel.SyncLoop | src/EcwidSync.Modules.Categories/ViewModels/CategoriesViewModel.cs:70-92 | After the loop every fetched category is listed and counted, and the whole batches are upserted. |
| CategoriesTree.CategoriesViewModel.SyncOne | src/EcwidSync.Modules.Categories/ViewModels/CategoriesViewModel.cs:70-92 | One pass keeps the loop's invariant. |
| CategoriesTree.CategoriesViewModel.SyncEnd | src/EcwidSync.Modules.Categories/ViewModels/CategoriesViewModel.cs:92-94 | After the last pass the list is the fetched categories. The records are whole batches plus an open batch under 200, together exactly the fetched records. |
| CategoriesTree.CategoriesViewModel.LoadAll | src/EcwidSync.Modules.Categories/ViewModels/CategoriesViewModel.cs:57-105 | While loading, nothing changes. Otherwise every fetched category is counted and upserted exactly once, in batches of 200 and a final non-empty remainder. The tree is rebuilt from all fetched categories. A failed fetch commits only whole batches and keeps the old tree. |
| CategoriesTree.CategoriesViewModel.BuiltKept | src/EcwidSync.Modules.Categories/ViewModels/CategoriesViewModel.cs:94-97 | Upserting does not disturb a built tree. |
| CategoriesTree.CategoriesViewModel.Settle | src/EcwidSync.Modules.Categories/ViewModels/CategoriesViewModel.cs:94-103 | A raise keeps the whole batches and the old tree. Success flushes and rebuilds. |
| CategoriesTree.CategoriesViewModel.Complete | src/EcwidSync.Modules.Categories/ViewModels/CategoriesViewModel.cs:94-97 | The remainder is flushed, every fetched record is upserted, and the tree is rebuilt from the fetched categories. |
| CategoriesTree.CategoriesViewModel.SetExpanded | src/EcwidSync.Modules.Categories/ViewModels/CategoriesViewModel.cs:110-114 | The node and every node below it take the value, each reporting iff it changed. No other node and no link changes. |
| CategoriesTree.CategoriesViewModel.ExpandNode | src/EcwidSync.Modules.Categories/ViewModels/CategoriesViewModel.cs:112 | `n.IsExpanded = value` sets that one flag. |
| CategoriesTree.CategoriesViewModel.ExpandChildren | src/EcwidSync.Modules.Categories/ViewModels/CategoriesViewModel.cs:113 | The loop sets the nodes below the children. |
| CategoriesTree.CategoriesViewModel.ExpandEach | src/EcwidSync.Modules.Categories/ViewModels/CategoriesViewModel.cs:113 | The loop over the children sets the nodes below all of them. |
| CategoriesTree.CategoriesViewModel.ExpandChild | src/EcwidSync.Modules.Categories/ViewModels/CategoriesViewModel.cs:113 | One pass adds the nodes below one more child. |
| CategoriesTree.CategoriesViewModel.SetExpandedFromRoots | src/EcwidSync.Modules.Categories/ViewModels/CategoriesViewModel.cs:107-108 | `SetExpanded` from every root sets exactly the nodes below some root. |
| CategoriesTree.CategoriesViewModel.ExpandRoot | src/EcwidSync.Modules.Categories/ViewModels/CategoriesViewModel.cs:107 | One root adds the nodes below it. |
| CategoriesTree.CategoriesViewModel.ExpandAll | src/EcwidSync.Modules.Categories/ViewModels/CategoriesViewModel.cs:107 | Every node below a root is expanded, each reporting iff it changed. Nodes on a parent cycle are untouched. |
| CategoriesTree.CategoriesViewModel.CollapseAll | src/EcwidSync.Modules.Categories/ViewModels/CategoriesViewModel.cs:108 | Every node below a root is collapsed, likewise. |
| SupplierDrop.FileName | src/EcwidSync.Modules.Suppliers/Views/SuppliersView.xaml.cs:36 | `Path.GetFileName` is the suffix after the last directory separator, and contains none. |
| SupplierDrop.LastDot | src/EcwidSync.Modules.Suppliers/Views/SuppliersView.xaml.cs:37 | It finds the last `.` not followed by a separator, or none iff there is no such `.`. |
| SupplierDrop.Extension | src/EcwidSync.Modules.Suppliers/Views/SuppliersView.xaml.cs:37 | `Path.GetExtension` is empty or a suffix of at least two characters starting with `.`. |
| SupplierDrop.ExtensionOf | src/EcwidSync.Modules.Suppliers/Views/SuppliersView.xaml.cs:37 | The extension of stem + ext is ext. |
| SupplierDrop.FileNameOf | src/EcwidSync.Modules.Suppliers/Views/SuppliersView.xaml.cs:36 | The file name of dir + name is name. |
| SupplierDrop.DetectKindOf | src/EcwidSync.Modules.Suppliers/Views/SuppliersView.xaml.cs:36-51 | For a file stem + ext in any directory, `.csv` (any case) is EET and `.txt` is ALSO, decided before the name: a `.txt` named after EET goes to ALSO. Otherwise a lower-cased name with "also" is ALSO, checked before "eet". |
| SupplierDrop.OnDrop | src/EcwidSync.Modules.Suppliers/Views/SuppliersView.xaml.cs:26-62 | An import starts iff there is file-drop data with a first path that is not blank, exists and has a detected kind. It then imports that path with that kind. |
| Text.Contains | src/EcwidSync.Modules.Suppliers/Views/SuppliersView.xaml.cs:49-50 | `Contains` is true iff the text occurs at some position. |
| Text.TrimUnpadded | src/EcwidSync.Persistence/EfSupplierStore.cs:21 | `Trim()` leaves no white space at either end and leaves an unpadded string unchanged. |
| Text.TrimByIdempotent | src/EcwidSync.Modules.Suppliers/Parsing/ParseUtil.cs:13 | Trimming twice is trimming once. |
| Text.JoinSplitOn | src/EcwidSync.Modules.Suppliers/Importers/AlsoTxtImporter.cs:37 | Joining a split gives back the line. |
| Text.SplitOnPieces | src/EcwidSync.Modules.Suppliers/Importers/AlsoTxtImporter.cs:37-39 | No piece contains the separator, and there is one piece more than separators. |
| Text.SplitOnJoin | src/EcwidSync.Modules.Suppliers/Importers/EetCsvImporter.cs:46 | Splitting a join of separator-free pieces gives back the pieces. |
| Text.SplitOnSnoc | src/EcwidSync.Modules.Suppliers/Importers/EetCsvImporter.cs:46 | A separator and a separator-free piece add that piece. |
| Text.SplitOnNoSep | src/EcwidSync.Modules.Suppliers/Importers/EetCsvImporter.cs:46 | A text without the separator is one piece. |
| Text.UpperAscii | src/EcwidSync.Modules.Suppliers/Services/SupplierImportService.cs:94 | The result is the input with each character upper-cased, length kept. |
| Text.LowerAscii | src/EcwidSync.Modules.Suppliers/Views/SuppliersView.xaml.cs:48 | The result is the input with each character lower-cased, length kept. |
| Text.ReplaceChar | src/EcwidSync.Modules.Suppliers/Importers/EetCsvImporter.cs:71 | Every occurrence of a is replaced by b, and nothing else changes. |
| Text.LeadingCount | src/EcwidSync.Modules.Suppliers/Parsing/ParseUtil.cs:13 | It counts the longest prefix of characters to trim. |
| Text.TrailingCount | src/EcwidSync.Modules.Suppliers/Parsing/ParseUtil.cs:13 | It counts the longest suffix of characters to trim. |
| Sorting.SortBySorts | src/EcwidSync.Modules.Categories/ViewModels/CategoriesViewModel.cs:130-132 | Under a total order, `OrderBy` returns a permutation sorted by that order. |
| Sorting.InsertSorted | src/EcwidSync.Modules.Categories/ViewModels/CategoriesViewModel.cs:131 | Inserting into a sorted sequence adds the element and keeps it sorted. |
| Sorting.Ascending | src/EcwidSync.Persistence/EfProductStore.cs:30 | The ids of a table, each once, strictly ascending. |
| Sorting.MinOf | src/EcwidSync.Persistence/EfProductStore.cs:30 | The least id of a non-empty table. |
| Int32.Narrow | src/EcwidSync.Modules.Categories/ViewModels/CategoriesViewModel.cs:39-41 | `unchecked((int)x)` is the 32-bit value congruent to x modulo 2^32. |
| Int32.NarrowFits | src/EcwidSync.Modules.Categories/ViewModels/CategoriesViewModel.cs:39-41 | A value that fits is unchanged, so widening and then narrowing is the identity. |
| Int32.NarrowLow32 | src/EcwidSync.Infrastructure/EcwidClient.cs:171 | Narrowing depends only on the low 32 bits. |
| Chunking.ChunksPartition | src/EcwidSync.Modules.Suppliers/Services/SupplierImportService.cs:72-84 | The batches concatenate back to the stream. All but the last hold exactly 200, the last holds 1 to 200, and there is none iff the stream is empty. |
| Chunking.ChunksTotal | src/EcwidSync.Modules.Suppliers/Services/SupplierImportService.cs:69-84 | The batches hold as many items as the stream. |
| Chunking.ChunksAppend | src/EcwidSync.Modules.Products/ViewModels/ProductsViewModel.cs:171-179 | After whole batches, the rest is chunked on its own. |
| Chunking.ChunkStep | src/EcwidSync.Modules.Products/ViewModels/ProductsViewModel.cs:171-175 | Flushing 1 to 200 items after whole batches adds exactly one batch. |
| Chunking.Committed | src/EcwidSync.Modules.Suppliers/Services/SupplierImportService.cs:63-84 | Everything is saved when the stream ends normally. After a raise only the whole batches are saved, a prefix fewer than 200 short. |
| Chunking.CommittedOnRaise | src/EcwidSync.Modules.Categories/ViewModels/CategoriesViewModel.cs:87-103 | A raise after whole batches and an open batch commits exactly the whole batches. |
| Chunking.FlushStep | src/EcwidSync.Modules.Categories/ViewModels/CategoriesViewModel.cs:87-95 | Flushing a batch keeps the log in step with the chunking of everything flushed. |

## Left out

- HTTP transport is reduced to one answer consumed per GET: `HttpClient`, `BaseAddress` (src/EcwidSync.Infrastructure/EcwidClient.cs:39), response disposal, and the exception message text. A non-success page is the error `HttpStatus(code, body)`.
- `GetProfileNameAsync` is not modelled: it is a single profile read whose JSON navigation belongs to the library.
- JSON parsing and deserialisation are parameters (`Codecs`). `ReadFromJsonAsync`, `JsonDocument.Parse` and `JsonSerializer.Deserialize` are library code. A malformed document is a `JsonError`, and the model does not say which texts are malformed.
- `DateTime.TryParse` and `DateTimeOffset.TryParse` are uninterpreted parameters. The `DateTimeKind` conversions in the category view model (src/EcwidSync.Modules.Categories/ViewModels/CategoriesViewModel.cs:43, 80-82) are taken as the identity on instants, which `CategoryRecords.CategoryRoundTrip` relies on.
- Culture-specific number parsing (pt-PT, invariant, current culture, `NumberStyles.Any`) consists of uninterpreted partial functions. `decimal` is `real`, with no 28-digit precision or rounding.
- Culture-aware comparisons are parameters:
  - the ignore-case `Contains` of the product filter;
  - the name order of the category roots (`StringComparer.CurrentCultureIgnoreCase`);
  - the database collation behind `OrderBy(x => x.Name)`.

  `OrdinalIgnoreCase` and `ToLowerInvariant`/`ToUpperInvariant` fold ASCII letters only.
- SHA-256 is a parameter returning 32 bytes. Its lower-case hexadecimal text is modelled.
- Stream handling is out of scope: `StreamReader` decoding (Latin-1, BOM detection), line splitting, `File.OpenRead`, `File.Exists` (a parameter of `SupplierDrop.OnDrop`), and `MemoryStream` copying. The import starts from the file's bytes and its decoded lines.
- Cancellation tokens and async enumeration are modelled sequentially. Cancellation is one flag per line read, seen where the importers check it. Once the reader has seen it, the import's `SaveChangesAsync(ct)` for the remainder throws (`SupplierImport.Import`). The application's own callers pass `CancellationToken.None` (src/EcwidSync.Modules.Suppliers/ViewModels/SuppliersViewModel.cs:262, src/EcwidSync.Modules.Suppliers/Views/SuppliersView.xaml.cs:61).
- `SupplierImport.ImportService.ImportFile`: a cancellation requested before the first line is read is not modelled; it would make `EnsureSupplierAsync` or `SaveFileAsync` throw (SupplierImportService.cs:43-55). Neither is one requested after the last line check, which would make the last flush throw. The whole-batch saves at line 75 are taken to run under the token state of the last line check.
- The paging loops and the syncs' store calls take no cancellation. Both syncs pass `CancellationToken.None` to the client and to the product and category stores (src/EcwidSync.Modules.Products/ViewModels/ProductsViewModel.cs:152-179, src/EcwidSync.Modules.Categories/ViewModels/CategoriesViewModel.cs:70-95). The client forwards its token only to `HttpClient` and to reading the body.
- `SupplierImport.ImportService.ImportFile`, `CatalogStores.ProductStore.UpsertBatch`, `CatalogStores.CategoryStore.UpsertBatch` and `ProductsGrid.RecordRoundTrip` do not model the column facets of the database (src/EcwidSync.Persistence/AppDbContext.cs):
  - `Sku` is `nvarchar(128)` (lines 25 and 62);
  - a product `Name` is `nvarchar(1024)` (line 26) and a category `Name` is `nvarchar(512)` (line 38);
  - a supplier `Code` is `nvarchar(64)` and its `Name` is `nvarchar(256)` (lines 49 and 52);
  - `FileName` is `nvarchar(256)` and `ContentType` is `nvarchar(128)` (lines 82-83);
  - a product `Price` is `decimal(18,2)` (line 27).

  On SQL Server a value too long for its column makes `SaveChangesAsync` throw. For an over-long SKU in an import, the whole batches before it stay committed and the import fails, where the model returns `Ok` with every record added. In a sync, an over-long product SKU or name, or category name, makes that batch's upsert throw, which the model does not foresee. A price with more than two decimals is stored rounded to two, so a product read back from the store can differ from the one synced in `Price`.
- `SupplierStore.FindCode`: compares codes ordinally. The database's collation is not modelled, and SQL Server's default collation makes `=` ignore case and trailing spaces.
- `SupplierStore.EnsureUntrimmedTwice`: holds under ordinal comparison only. Under SQL Server's default collation a code padded only at the end finds its supplier, so the second call fails only for a code with leading white space.
- `ProductsGrid.ProductsViewModel.LoadAll`, `ProductsGrid.ProductsViewModel.Show`, `ProductsGrid.ProductsViewModel.SyncLoop`, `ProductsGrid.ProductsViewModel.SyncEnd` and `ProductsGrid.ProductsViewModel.Complete` model the corrected sync of the "## Findings" row. The double `Items.Add` as written is modelled only by `ProductsGrid.AsWrittenShowsTwice`.
- EF Core mechanics are out of scope: transactions, change tracking, and whether `FindAsync` sees rows added earlier in the same batch (the model lets it, as the change tracker does). Identity values are unbounded integers. The unique indexes and foreign keys of `AppDbContext` are kept only as invariants (`DirectoryValid`, `FilesValid`) and as the errors `DuplicateCode` and `UnknownSupplier`.
- Notifications (`_notify`), `ProductsView.Refresh`, `Selected`, `SelectedRawJson`, `LoadDetailsAsync`, `MapDetailsFromJson` and `HtmlToPlain` are user-interface code.
- `CategoryTreeNode.ProductCount` is never copied by the constructor and is kept at 0.
- `ProductsGrid.ProductsViewModel.LoadLocal`: store read failures (the `catch` at src/EcwidSync.Modules.Products/ViewModels/ProductsViewModel.cs:124-127) are not modelled; the store read always succeeds.
- `CategoriesTree.CategoriesViewModel.LoadLocal`: store read failures are not modelled, and the narrowed ids are only shown to rebuild the stored tree when they fit in 32 bits (`CategoryRecords.StoredForest`).
- `CategoriesTree.CategoriesViewModel.LoadAll`: the `IsLoading` flag is read as the re-entry guard. It is raised and cleared within the call, so the model leaves it unchanged across the call.
- `ProductsGrid.ProductsViewModel.LoadAll`: same for `IsLoading`. A fetch failure is a flag: the products before it are fetched, and the open batch is dropped.
- `CategoriesTree.CategoriesViewModel.RebuildTree` does not restate the order of each node's `Children`. That is stated on `LinkNodes` and `ChildNodes`: dictionary order, which the model takes to be first-insertion order as .NET's `Dictionary` enumerates without removals. The order among roots whose names compare equal is not stated (`OrderBy` is stable).
- `SupplierStore.GetFiles` and `SupplierStore.GetSuppliers`: the order among equal upload times or equal names is not stated.
- `SuppliersViewModel`, `DbInit`, the dashboard, the converters, module registration, `ProductsService` and `CategoriesService` (one-line delegations to the client) are not part of this model.

## Findings

| source | as written | input that shows it | evidently intended | confidence | as-written member | corrected member |
|---|---|---|---|---|---|---|
| src/EcwidSync.Modules.Products/ViewModels/ProductsViewModel.cs:154-156 | Each fetched product is passed to `UpsertInGrid(p)`, which already adds a new id's row, and is then added again with `Items.Add(p)`. | A sync fetching a single product p into an empty grid: the grid shows [p, p], the index maps p's id to row 0 only, and the sweep at lines 183-185 keeps both rows. | One row per fetched id showing its latest product, with the index one-to-one with the rows (only `UpsertInGrid`). | not executed | ProductsGrid.AsWrittenShowsTwice | ProductsGrid.FillShowsLatest |
