/** The medicines catalog: read-only product records keyed by serial number. */
module Catalog {
  import opened Wrappers

  /** One medicine. `name` and `genericName` may be NULL in the table;
      `price` is the unit transfer price in whole paise. The descriptive
      columns (composition, uses, storage, pack size) are carried by no
      operation of the model and are left out. */
  datatype Product = Product(srNumber: int, name: Option<string>, genericName: Option<string>, price: int)

  /** The catalog as the server sees it: serial number to record. */
  type Medicines = map<int, Product>

  /** Every record sits under its own serial number. */
  predicate WellKeyed(m: Medicines) {
    forall k :: k in m ==> m[k].srNumber == k
  }
}
