/** The persisted rows: products and categories mirrored from Ecwid, suppliers, the files
    uploaded for them and the lines imported from those files. */
module Records {
  import opened Wrappers
  import opened Int32
  import opened EcwidJson

  /** An unsigned 8-bit value, one byte of an uploaded file or a digest. */
  type byte = x: int | 0 <= x < 256

  /** `ProductRecord`: the typed columns plus the whole JSON text the API sent. */
  datatype ProductRecord = ProductRecord(
    id: int64,
    sku: Option<string>,
    name: string,
    price: Option<real>,
    quantity: Option<int32>,
    enabled: bool,
    updated: Option<Instant>,
    rawJson: string,
    syncedAt: Instant)

  /** `CategoryRecord`. */
  datatype CategoryRecord = CategoryRecord(
    id: int64,
    name: string,
    parentId: Option<int64>,
    enabled: bool,
    updated: Option<Instant>,
    rawJson: string,
    syncedAt: Instant)

  /** `Supplier`; its `Code` is unique among suppliers. Identity values are unbounded here. */
  datatype Supplier = Supplier(id: int, code: string, name: string, createdAt: Instant)

  /** `SupplierFileRecord`: one uploaded file; `(SupplierId, Sha256)` is unique among files. */
  datatype SupplierFileRecord = SupplierFileRecord(
    id: int,
    supplierId: int,
    fileName: string,
    contentType: Option<string>,
    size: int,
    sha256: string,
    content: seq<byte>,
    uploadedAt: Instant)

  /** `SupplierRecord`: one imported line of a supplier's price list. */
  datatype SupplierRecord = SupplierRecord(
    id: int,
    supplierId: int,
    supplierFileRecordId: Option<int>,
    sku: string,
    name: Option<string>,
    price: Option<real>,
    stock: Option<int32>,
    importedAt: Instant,
    raw: string)

  /** `default(DateTimeOffset)`. */
  const DEFAULT_INSTANT: Instant := Instant(0)
}
