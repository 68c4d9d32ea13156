/**
 * The books table as the provider sees it through SQLiteDatabase: rows keyed
 * by their AUTOINCREMENT _id, ContentValues as a per-column presence/null/value
 * record, and the selection that picks the rows an update or delete touches.
 */
module BookTable {
  import opened Wrappers

  /**
   * One stored row (without its _id). product_name, price and quantity are
   * NOT NULL columns, so they are plain values; the two supplier columns
   * are nullable.
   */
  datatype Book = Book(
    productName: string,
    price: real,
    quantity: int,
    supplierName: Option<string>,
    supplierPhoneNumber: Option<string>)

  /** One ContentValues entry: the key is missing, present with null, or present with a value. */
  datatype Field<T> = Absent | Null | Value(value: T)

  /** A ContentValues over the five writable columns of the books table. */
  datatype Values = Values(
    productName: Field<string>,
    price: Field<real>,
    quantity: Field<int>,
    supplierName: Field<string>,
    supplierPhoneNumber: Field<string>)

  function Present<T>(f: Field<T>): nat { if f.Absent? then 0 else 1 }

  /** ContentValues.size(): the number of keys present. */
  function Size(v: Values): (n: nat)
    ensures n == 0 <==> v == NoValues
    ensures n <= 5
  {
    Present(v.productName) + Present(v.price) + Present(v.quantity)
      + Present(v.supplierName) + Present(v.supplierPhoneNumber)
  }

  /** An empty ContentValues. */
  const NoValues: Values := Values(Absent, Absent, Absent, Absent, Absent)

  /** The shape the provider's validation guarantees of every stored row. */
  predicate WellFormed(b: Book) {
    b.productName != "" && b.price >= 0.0 && b.quantity >= 0
  }

  /** What a NOT NULL column can be set to: its key absent or present with a value. */
  predicate NotNullField<T>(f: Field<T>) { !f.Null? }

  /** The three NOT NULL columns are not being set to null. */
  predicate RespectsNotNull(v: Values) {
    NotNullField(v.productName) && NotNullField(v.price) && NotNullField(v.quantity)
  }

  /** The value a nullable column takes when it is written from a ContentValues entry. */
  function NullableColumn(f: Field<string>, current: Option<string>): Option<string> {
    match f
    case Absent => current
    case Null => None
    case Value(s) => Some(s)
  }

  function Column<T>(f: Field<T>, current: T): T
    requires NotNullField(f)
  {
    if f.Value? then f.value else current
  }

  /**
   * SQL UPDATE of one row: every column whose key is present takes the new
   * value (null for a present-with-null nullable column); every absent
   * column keeps its value.
   */
  function ApplyValues(b: Book, v: Values): (r: Book)
    requires RespectsNotNull(v)
    ensures v.productName.Absent? ==> r.productName == b.productName
    ensures v.price.Absent? ==> r.price == b.price
    ensures v.quantity.Absent? ==> r.quantity == b.quantity
    ensures v.supplierName.Absent? ==> r.supplierName == b.supplierName
    ensures v.supplierPhoneNumber.Absent? ==> r.supplierPhoneNumber == b.supplierPhoneNumber
    ensures v.productName.Value? ==> r.productName == v.productName.value
    ensures v.price.Value? ==> r.price == v.price.value
    ensures v.quantity.Value? ==> r.quantity == v.quantity.value
    ensures v.supplierName.Value? ==> r.supplierName == Some(v.supplierName.value)
    ensures v.supplierName.Null? ==> r.supplierName == None
    ensures v.supplierPhoneNumber.Value? ==> r.supplierPhoneNumber == Some(v.supplierPhoneNumber.value)
    ensures v.supplierPhoneNumber.Null? ==> r.supplierPhoneNumber == None
  {
    Book(
      Column(v.productName, b.productName),
      Column(v.price, b.price),
      Column(v.quantity, b.quantity),
      NullableColumn(v.supplierName, b.supplierName),
      NullableColumn(v.supplierPhoneNumber, b.supplierPhoneNumber))
  }

  /** SQL INSERT: the row built from a ContentValues whose NOT NULL columns are all given. */
  function RowFromValues(v: Values): (b: Book)
    requires v.productName.Value? && v.price.Value? && v.quantity.Value?
    ensures b == ApplyValues(b, v)
    ensures b.supplierName == (if v.supplierName.Value? then Some(v.supplierName.value) else None)
    ensures b.supplierPhoneNumber == (if v.supplierPhoneNumber.Value? then Some(v.supplierPhoneNumber.value) else None)
  {
    Book(
      v.productName.value,
      v.price.value,
      v.quantity.value,
      NullableColumn(v.supplierName, None),
      NullableColumn(v.supplierPhoneNumber, None))
  }

  /**
   * The WHERE clause of a query, update or delete: none (every row), the
   * "_id=?" clause the provider substitutes for an item URI, or an
   * arbitrary caller-supplied condition on a row.
   */
  datatype Selection = AllRows | IdEquals(id: nat) | Where(holds: (nat, Book) -> bool)

  predicate Selects(sel: Selection, id: nat, b: Book) {
    match sel
    case AllRows => true
    case IdEquals(k) => id == k
    case Where(holds) => holds(id, b)
  }

  /** The ids of the rows a selection picks. */
  function Selected(rows: map<nat, Book>, sel: Selection): (ids: set<nat>)
    ensures ids <= rows.Keys
    ensures forall id :: id in ids <==> id in rows && Selects(sel, id, rows[id])
  {
    set id | id in rows && Selects(sel, id, rows[id])
  }

  /** The rows a query returns. */
  function Restrict(rows: map<nat, Book>, ids: set<nat>): (r: map<nat, Book>)
    ensures r.Keys == rows.Keys * ids
    ensures forall id :: id in r ==> r[id] == rows[id]
  {
    map id | id in rows && id in ids :: rows[id]
  }

  /** SQL UPDATE: the selected rows take the values, all other rows are left as they were. */
  function UpdateRows(rows: map<nat, Book>, ids: set<nat>, v: Values): (r: map<nat, Book>)
    requires RespectsNotNull(v)
    ensures r.Keys == rows.Keys
    ensures forall id :: id in r && id in ids ==> r[id] == ApplyValues(rows[id], v)
    ensures forall id :: id in r && id !in ids ==> r[id] == rows[id]
  {
    map id | id in rows :: if id in ids then ApplyValues(rows[id], v) else rows[id]
  }

  /** SQL DELETE: the selected rows disappear, all other rows are left as they were. */
  function DeleteRows(rows: map<nat, Book>, ids: set<nat>): (r: map<nat, Book>)
    requires ids <= rows.Keys
    ensures r.Keys == rows.Keys - ids
    ensures forall id :: id in r ==> r[id] == rows[id]
    ensures |r| == |rows| - |ids|
  {
    var r := map id | id in rows && id !in ids :: rows[id];
    assert r.Keys + ids == rows.Keys;
    assert |r.Keys + ids| == |r.Keys| + |ids|;
    r
  }

  /** Writing a ContentValues with no keys leaves a row as it was. */
  lemma NoValuesLeaveRow(b: Book)
    ensures ApplyValues(b, NoValues) == b
  {
  }

  /** Overwriting only the quantity changes only the quantity. */
  lemma QuantityOnlyUpdate(b: Book, q: int)
    ensures ApplyValues(b, NoValues.(quantity := Value(q))) == b.(quantity := q)
  {
  }
}
