/**
 * BookDbHelper: the books table's schema (the CREATE TABLE statement of
 * onCreate), the database version and the empty upgrade step.
 */
module BookDbHelper {
  import opened Wrappers
  import opened BookContract
  import opened BookTable

  const DatabaseName: string := "books.db"

  /** The schema version; onUpgrade has nothing to migrate at version 1. */
  const DatabaseVersion: int := 1

  datatype SqlType = Integer | Text | Real

  datatype ColumnDef = ColumnDef(
    name: string,
    sqlType: SqlType,
    primaryKey: bool,
    autoIncrement: bool,
    notNull: bool)

  datatype TableSchema = TableSchema(name: string, columns: seq<ColumnDef>)

  /** The books table as onCreate declares it. */
  const BooksSchema: TableSchema := TableSchema(TableName, [
    ColumnDef(ColumnId, Integer, true, true, false),
    ColumnDef(ColumnProductName, Text, false, false, true),
    ColumnDef(ColumnPrice, Real, false, false, true),
    ColumnDef(ColumnQuantity, Integer, false, false, true),
    ColumnDef(ColumnSupplierName, Text, false, false, false),
    ColumnDef(ColumnSupplierPhoneNumber, Text, false, false, false)
  ])

  function TypeName(t: SqlType): string {
    match t
    case Integer => "INTEGER"
    case Text => "TEXT"
    case Real => "REAL"
  }

  /** One column definition as SQL text, as it appears in a CREATE TABLE statement. */
  function ColumnSql(c: ColumnDef): string {
    c.name + " " + TypeName(c.sqlType)
      + (if c.primaryKey then " PRIMARY KEY" else "")
      + (if c.autoIncrement then " AUTOINCREMENT" else "")
      + (if c.notNull then " NOT NULL" else "")
  }

  /** Each column definition renders as the fragment onCreate concatenates for it. */
  lemma ColumnTexts()
    ensures ColumnSql(BooksSchema.columns[0]) == ColumnId + " INTEGER PRIMARY KEY AUTOINCREMENT"
    ensures ColumnSql(BooksSchema.columns[1]) == ColumnProductName + " TEXT NOT NULL"
    ensures ColumnSql(BooksSchema.columns[2]) == ColumnPrice + " REAL NOT NULL"
    ensures ColumnSql(BooksSchema.columns[3]) == ColumnQuantity + " INTEGER NOT NULL"
    ensures ColumnSql(BooksSchema.columns[4]) == ColumnSupplierName + " TEXT"
    ensures ColumnSql(BooksSchema.columns[5]) == ColumnSupplierPhoneNumber + " TEXT"
  {
    var cs := BooksSchema.columns;
    KeyColumnText(cs[0]);
    RequiredColumnText(cs[1]);
    RequiredColumnText(cs[2]);
    RequiredColumnText(cs[3]);
    NullableColumnText(cs[4]);
    NullableColumnText(cs[5]);
  }

  lemma KeyColumnText(c: ColumnDef)
    requires c.sqlType == Integer && c.primaryKey && c.autoIncrement && !c.notNull
    ensures ColumnSql(c) == c.name + " INTEGER PRIMARY KEY AUTOINCREMENT"
  {
  }

  lemma RequiredColumnText(c: ColumnDef)
    requires !c.primaryKey && !c.autoIncrement && c.notNull
    ensures ColumnSql(c) == c.name + " " + TypeName(c.sqlType) + " NOT NULL"
    ensures c.sqlType == Text ==> ColumnSql(c) == c.name + " TEXT NOT NULL"
    ensures c.sqlType == Real ==> ColumnSql(c) == c.name + " REAL NOT NULL"
    ensures c.sqlType == Integer ==> ColumnSql(c) == c.name + " INTEGER NOT NULL"
  {
  }

  lemma NullableColumnText(c: ColumnDef)
    requires !c.primaryKey && !c.autoIncrement && !c.notNull
    ensures c.sqlType == Text ==> ColumnSql(c) == c.name + " TEXT"
  {
  }

  /** The table has exactly the contract's six columns, in the contract's order. */
  lemma SchemaColumnsAreContractColumns()
    ensures BooksSchema.name == TableName
    ensures |BooksSchema.columns| == |Columns|
    ensures forall k :: 0 <= k < |Columns| ==> BooksSchema.columns[k].name == Columns[k]
  {
  }

  /** _id is the one key column and the one AUTOINCREMENT column; NOT NULL holds exactly for name, price and quantity. */
  lemma SchemaConstraints()
    ensures forall k :: 0 <= k < |BooksSchema.columns| ==>
      (BooksSchema.columns[k].primaryKey <==> BooksSchema.columns[k].name == ColumnId) &&
      (BooksSchema.columns[k].autoIncrement <==> BooksSchema.columns[k].name == ColumnId)
    ensures forall k :: 0 <= k < |BooksSchema.columns| ==>
      (BooksSchema.columns[k].notNull <==>
        BooksSchema.columns[k].name in {ColumnProductName, ColumnPrice, ColumnQuantity})
  {
    ColumnNamesDistinct();
  }

  /** A cell of a stored row. */
  datatype SqlValue = SqlNull | SqlInteger(i: int) | SqlReal(r: real) | SqlText(s: string)

  function TextCell(s: Option<string>): SqlValue {
    match s
    case Some(t) => SqlText(t)
    case None => SqlNull
  }

  /** A stored book as the row of cells the table holds, in schema column order. */
  function Cells(id: nat, b: Book): seq<SqlValue> {
    [SqlInteger(id), SqlText(b.productName), SqlReal(b.price), SqlInteger(b.quantity),
     TextCell(b.supplierName), TextCell(b.supplierPhoneNumber)]
  }

  predicate HasType(v: SqlValue, t: SqlType) {
    match v
    case SqlNull => true
    case SqlInteger(_) => t == Integer
    case SqlReal(_) => t == Real
    case SqlText(_) => t == Text
  }

  /**
   * Every Book fits the schema: one cell per column, of the column's type,
   * and no NULL in a NOT NULL column.
   */
  lemma BooksFitSchema(id: nat, b: Book)
    ensures |Cells(id, b)| == |BooksSchema.columns|
    ensures forall k :: 0 <= k < |BooksSchema.columns| ==> HasType(Cells(id, b)[k], BooksSchema.columns[k].sqlType)
    ensures forall k :: 0 <= k < |BooksSchema.columns| && BooksSchema.columns[k].notNull ==> Cells(id, b)[k] != SqlNull
  {
  }

  /** The two supplier columns are nullable: a book without supplier data fits the schema with NULL there. */
  lemma SupplierColumnsNullable(id: nat, name: string, price: real, quantity: int)
    ensures var cells := Cells(id, Book(name, price, quantity, None, None));
      cells[4] == SqlNull && cells[5] == SqlNull &&
      !BooksSchema.columns[4].notNull && !BooksSchema.columns[5].notNull
  {
  }

  /** What onCreate leaves behind: an empty books table whose AUTOINCREMENT counter starts at 1. */
  datatype Database = Database(name: string, version: int, rows: map<nat, Book>, nextId: nat)

  function OnCreate(): (db: Database)
    ensures db.name == DatabaseName && db.version == DatabaseVersion
    ensures db.rows == map[] && db.nextId == 1
  {
    Database(DatabaseName, DatabaseVersion, map[], 1)
  }

  /** onUpgrade is empty: whatever the versions, the data is left exactly as it was. */
  function OnUpgrade(db: Database, oldVersion: int, newVersion: int): (r: Database)
    ensures r.name == db.name && r.version == db.version && r.rows == db.rows && r.nextId == db.nextId
  {
    db
  }
}
