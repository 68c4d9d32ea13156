/**
 * MainActivity: the list screen. It holds the cursor the loader last
 * delivered and acts on the Store through the Sale button, the
 * "Insert dummy data" menu item and the "Delete all entries" menu item.
 */
module MainActivity {
  import opened Wrappers
  import opened BookContract
  import opened BookTable
  import opened BookProvider

  /** One row of the list's cursor: the _id column and the book's columns. */
  datatype CursorRow = CursorRow(id: nat, book: Book)

  /** Every row the cursor shows is the table's current row under that id. */
  predicate ShowsCurrentRows(cursor: seq<CursorRow>, rows: map<nat, Book>) {
    forall k :: 0 <= k < |cursor| ==> cursor[k].id in rows && rows[cursor[k].id] == cursor[k].book
  }

  // ------------------------------------------------------------------ sale

  /** A nullable column read from the cursor and put back into a ContentValues. */
  function CopyColumn(s: Option<string>): (f: Field<string>)
    ensures f != Absent
    ensures s.None? <==> f == Null
    ensures s.Some? ==> f == Value(s.value)
  {
    match s
    case Some(x) => Value(x)
    case None => Null
  }

  /** The values the Sale button sends for a row: every column as read, with one less in stock. */
  function SaleValues(b: Book): (v: Values)
    ensures Size(v) == 5
  {
    Values(Value(b.productName), Value(b.price), Value(b.quantity - 1),
      CopyColumn(b.supplierName), CopyColumn(b.supplierPhoneNumber))
  }

  /**
   * Writing a row's sale values back onto that same row changes its
   * quantity and nothing else; for a stocked well-formed row the values
   * pass the provider's checks.
   */
  lemma SaleValuesChangeOnlyQuantity(b: Book)
    ensures RespectsNotNull(SaleValues(b))
    ensures ApplyValues(b, SaleValues(b)) == b.(quantity := b.quantity - 1)
    ensures WellFormed(b) && b.quantity > 0 ==> ValidateUpdate(SaleValues(b)) == None
  {
    var r := ApplyValues(b, SaleValues(b));
    assert r.supplierName == b.supplierName;
    assert r.supplierPhoneNumber == b.supplierPhoneNumber;
  }

  /** What the Sale button does before it calls the provider. */
  datatype Sale =
    | NoRow                                // the cursor has no row at that position
    | SoldOut                              // quantity 0: the minimum message, no update
    | Send(target: Uri, values: Values)    // update target with values and no selection

  /**
   * decrement as written: the target is CONTENT_URI/(position + 1), built
   * from the list position, while the values come from the cursor row at
   * that position.
   */
  function SalePlan(cursor: seq<CursorRow>, position: int): (s: Sale)
    ensures s.Send? ==> 0 <= position < |cursor| && s.target == ItemUri(position + 1)
  {
    if 0 <= position < |cursor| then
      var b := cursor[position].book;
      if b.quantity == 0 then SoldOut else Send(ItemUri(position + 1), SaleValues(b))
    else NoRow
  }

  /** The intended decrement: the target is the item URI of the row's own _id. */
  function CorrectedSalePlan(cursor: seq<CursorRow>, position: int): (s: Sale)
    ensures s.Send? ==> 0 <= position < |cursor| && s.target == ItemUri(cursor[position].id)
  {
    if 0 <= position < |cursor| then
      var b := cursor[position].book;
      if b.quantity == 0 then SoldOut else Send(ItemUri(cursor[position].id), SaleValues(b))
    else NoRow
  }

  /**
   * Both plans issue no update at quantity 0 and otherwise send the row's
   * quantity minus one, which is never negative for a row that was.
   */
  lemma SaleNeverSendsNegative(cursor: seq<CursorRow>, position: int)
    requires 0 <= position < |cursor| && cursor[position].book.quantity >= 0
    ensures cursor[position].book.quantity == 0 <==> SalePlan(cursor, position) == SoldOut
    ensures cursor[position].book.quantity == 0 <==> CorrectedSalePlan(cursor, position) == SoldOut
    ensures SalePlan(cursor, position).Send? ==>
      SalePlan(cursor, position).values.quantity == Value(cursor[position].book.quantity - 1)
      && cursor[position].book.quantity - 1 >= 0
  {
  }

  /** When the cursor lists ids 1, 2, 3, ... in order, the code as written targets the right row. */
  lemma SalePlansAgreeOnDenseIds(cursor: seq<CursorRow>, position: int)
    requires forall k :: 0 <= k < |cursor| ==> cursor[k].id == k + 1
    ensures SalePlan(cursor, position) == CorrectedSalePlan(cursor, position)
  {
  }

  /**
   * As written, after book 1 has been deleted: the list shows books 2 and 3,
   * and selling the second one (position 1) rewrites book 2 with book 3's
   * data and one less in stock, while book 3 keeps its quantity.
   */
  lemma SaleOverwritesAnotherBook()
    ensures var first := Book("A", 1.0, 1, None, None);
      var second := Book("B", 2.0, 5, None, None);
      var t := Table(map[2 := first, 3 := second], 4);
      var cursor := [CursorRow(2, first), CursorRow(3, second)];
      && TableValid(t)
      && ShowsCurrentRows(cursor, t.rows)
      && SalePlan(cursor, 1).Send?
      && var o := UpdateOp(t, SalePlan(cursor, 1).target, SalePlan(cursor, 1).values, AllRows);
        o.result == Ok(1) && o.table.rows[2] == second.(quantity := 4) && o.table.rows[3] == second
  {
    var first := Book("A", 1.0, 1, None, None);
    var second := Book("B", 2.0, 5, None, None);
    var t := Table(map[2 := first, 3 := second], 4);
    var cursor := [CursorRow(2, first), CursorRow(3, second)];
    var v := SaleValues(second);
    SaleValuesChangeOnlyQuantity(second);
    UpdateItem(t, 2, v, AllRows);
    assert ApplyValues(first, v) == second.(quantity := 4);
  }

  /**
   * The corrected Sale on a cursor showing current rows updates exactly the
   * row it shows: one row, its quantity one less, everything else as it
   * was, and that item's URI notified.
   */
  lemma CorrectedSaleSellsShownBook(t: Table, cursor: seq<CursorRow>, position: int)
    requires TableValid(t) && ShowsCurrentRows(cursor, t.rows)
    requires 0 <= position < |cursor| && cursor[position].book.quantity > 0
    ensures var id := cursor[position].id;
      var s := CorrectedSalePlan(cursor, position);
      s.Send? && UpdateOp(t, s.target, s.values, AllRows) ==
        Outcome(t.(rows := t.rows[id := t.rows[id].(quantity := t.rows[id].quantity - 1)]), Ok(1), [ItemUri(id)])
  {
    var id := cursor[position].id;
    var b := t.rows[id];
    SaleValuesChangeOnlyQuantity(b);
    UpdateItem(t, id, SaleValues(b), AllRows);
  }

  // -------------------------------------------------------------- seeding

  /** The four dummy books of insertData, column by column. */
  const SeedNames: seq<string> := ["Close to Home", "Small Change", "Gone With The Wind", "Where Rainbow Ends"]
  const SeedPrices: seq<real> := [14.5, 7.99, 5.99, 10.5]
  const SeedQuantities: seq<int> := [4, 15, 7, 21]
  const SeedSuppliers: seq<string> := ["BookExpres", "UNISA", "Red Pepper", "Bookshelf"]
  const SeedPhones: seq<string> := ["+407854561230", "+31654123456", "+40784222159", "+39765489124"]

  /** The values of the i-th dummy book. */
  function SeedValues(i: nat): (v: Values)
    requires i < |SeedNames|
    ensures Size(v) == 5
  {
    Values(Value(SeedNames[i]), Value(SeedPrices[i]), Value(SeedQuantities[i]),
      Value(SeedSuppliers[i]), Value(SeedPhones[i]))
  }

  /** Every dummy book passes the provider's insert checks. */
  lemma SeedValuesValid()
    ensures |SeedNames| == 4
    ensures forall i :: 0 <= i < |SeedNames| ==> ValidateInsert(SeedValues(i)) == None
  {
    forall i | 0 <= i < |SeedNames| ensures ValidateInsert(SeedValues(i)) == None {
      assert SeedNames[i] != "" && SeedPrices[i] >= 0.0 && SeedQuantities[i] >= 0;
    }
  }

  /** The number of inserts that reached the table (the store did not fail). */
  function Stored(fails: seq<bool>): (n: nat)
    ensures n <= |fails|
  {
    if fails == [] then 0 else Stored(fails[..|fails| - 1]) + if fails[|fails| - 1] then 0 else 1
  }

  /** The stored rows are exactly the inserts whose store did not fail. */
  lemma {:induction false} StoredCountsSuccesses(fails: seq<bool>)
    ensures Stored(fails) == multiset(fails)[false]
    decreases |fails|
  {
    if fails != [] {
      var prefix := fails[..|fails| - 1];
      StoredCountsSuccesses(prefix);
      assert fails == prefix + [fails[|fails| - 1]];
    }
  }

  /**
   * The table and the notifications after the first |fails| iterations of
   * insertData, fails[i] saying whether the store failed on the i-th insert.
   */
  function Seeded(t: Table, fails: seq<bool>): (r: (Table, seq<Uri>))
    requires |fails| <= |SeedNames|
    ensures r.0.nextId >= t.nextId
    decreases |fails|
  {
    if fails == [] then (t, [])
    else
      var before := Seeded(t, fails[..|fails| - 1]);
      var o := InsertOp(before.0, ContentUri, SeedValues(|fails| - 1), fails[|fails| - 1]);
      (o.table, before.1 + o.notified)
  }

  /** Seeding one more book extends the prefix by that book's insert. */
  lemma SeededPrefix(t: Table, fails: seq<bool>, i: nat)
    requires i < |fails| <= |SeedNames|
    ensures var before := Seeded(t, fails[..i]);
      var o := InsertOp(before.0, ContentUri, SeedValues(i), fails[i]);
      Seeded(t, fails[..i + 1]).0 == o.table && Seeded(t, fails[..i + 1]).1 == before.1 + o.notified
  {
    assert fails[..i + 1][..i] == fails[..i];
  }

  /** One seeding insert: it adds a fresh row and one notification exactly when the store did not fail. */
  lemma SeedStep(t: Table, i: nat, fails: bool)
    requires TableValid(t) && i < |SeedNames|
    ensures var o := InsertOp(t, ContentUri, SeedValues(i), fails);
      && TableValid(o.table)
      && t.rows.Keys <= o.table.rows.Keys
      && (forall id :: id in t.rows ==> o.table.rows[id] == t.rows[id])
      && |o.table.rows| == |t.rows| + (if fails then 0 else 1)
      && o.notified == if fails then [] else [ContentUri]
  {
    SeedValuesValid();
    MatchContentUris(0);
    if !fails {
      InsertThenQuery(t, SeedValues(i), AllRows);
    }
  }

  /** Seeding keeps the existing rows, adds one row per insert the store accepted, and keeps the invariant. */
  lemma {:induction false} SeedingKeepsRows(t: Table, fails: seq<bool>)
    requires TableValid(t) && |fails| <= |SeedNames|
    ensures var t' := Seeded(t, fails).0;
      && TableValid(t')
      && t.rows.Keys <= t'.rows.Keys
      && (forall id :: id in t.rows ==> t'.rows[id] == t.rows[id])
      && |t'.rows| == |t.rows| + Stored(fails)
    decreases |fails|
  {
    if fails != [] {
      var prefix := fails[..|fails| - 1];
      SeedingKeepsRows(t, prefix);
      var before := Seeded(t, prefix);
      assert Stored(fails) == Stored(prefix) + if fails[|fails| - 1] then 0 else 1;
      SeedStep(before.0, |fails| - 1, fails[|fails| - 1]);
    }
  }

  /** Seeding notifies CONTENT_URI once per insert the store accepted, and nothing else. */
  lemma {:induction false} SeedingNotifiesStoredRows(t: Table, fails: seq<bool>)
    requires TableValid(t) && |fails| <= |SeedNames|
    ensures var notes := Seeded(t, fails).1;
      && |notes| == Stored(fails)
      && (forall k :: 0 <= k < |notes| ==> notes[k] == ContentUri)
    decreases |fails|
  {
    if fails != [] {
      var prefix := fails[..|fails| - 1];
      SeedingNotifiesStoredRows(t, prefix);
      SeedingKeepsRows(t, prefix);
      var before := Seeded(t, prefix);
      var o := InsertOp(before.0, ContentUri, SeedValues(|fails| - 1), fails[|fails| - 1]);
      assert Seeded(t, fails).1 == before.1 + o.notified;
      assert Stored(fails) == Stored(prefix) + if fails[|fails| - 1] then 0 else 1;
      SeedStep(before.0, |fails| - 1, fails[|fails| - 1]);
      var notes := before.1 + o.notified;
      forall k | 0 <= k < |notes| ensures notes[k] == ContentUri {
        if k >= |before.1| {
          assert notes[k] == o.notified[k - |before.1|];
        }
      }
    }
  }

  /**
   * Seeding keeps the existing rows, adds one row per insert the store
   * accepted, notifies CONTENT_URI once for each, and keeps the table
   * invariant.
   */
  lemma SeedingAddsStoredRows(t: Table, fails: seq<bool>)
    requires TableValid(t) && |fails| <= |SeedNames|
    ensures var (t', notes) := Seeded(t, fails);
      && TableValid(t')
      && t.rows.Keys <= t'.rows.Keys
      && (forall id :: id in t.rows ==> t'.rows[id] == t.rows[id])
      && |t'.rows| == |t.rows| + Stored(fails)
      && |notes| == Stored(fails)
      && (forall k :: 0 <= k < |notes| ==> notes[k] == ContentUri)
  {
    SeedingKeepsRows(t, fails);
    SeedingNotifiesStoredRows(t, fails);
  }

  /** With no store failure, insertData adds exactly four rows and four notifications. */
  lemma SeedingAddsFour(t: Table)
    requires TableValid(t)
    ensures |Seeded(t, [false, false, false, false]).0.rows| == |t.rows| + 4
    ensures |Seeded(t, [false, false, false, false]).1| == 4
  {
    var fails := [false, false, false, false];
    assert [false][..0] == [];
    assert Stored([false]) == 1;
    assert [false, false][..1] == [false];
    assert Stored([false, false]) == 2;
    assert [false, false, false][..2] == [false, false];
    assert Stored([false, false, false]) == 3;
    assert fails[..3] == [false, false, false];
    assert Stored(fails) == 4;
    SeedingAddsStoredRows(t, fails);
  }

  // ------------------------------------------------------------ the screen

  class ListScreen {
    const store: Store
    /** mCursor: the rows the loader last delivered, in list order. */
    var cursor: seq<CursorRow>

    constructor (store: Store)
      ensures this.store == store && cursor == []
    {
      this.store := store;
      cursor := [];
    }

    /** onLoadFinished: swap the new cursor in. */
    method OnLoadFinished(rows: seq<CursorRow>)
      modifies this
      ensures cursor == rows
    {
      cursor := rows;
    }

    /** Perform a planned sale: at most one update, with no selection. */
    method PerformSale(s: Sale) returns (r: Option<Result<nat>>)
      requires store.Valid()
      modifies store
      ensures store.Valid()
      ensures s.Send? ==>
        var o := UpdateOp(old(store.State()), s.target, s.values, AllRows);
        r == Some(o.result) && store.State() == o.table && store.notified == old(store.notified) + o.notified
      ensures !s.Send? ==> r == None && store.State() == old(store.State()) && store.notified == old(store.notified)
    {
      if s.Send? {
        var rowsUpdated := store.Update(s.target, s.values, AllRows);
        r := Some(rowsUpdated);
      } else {
        r := None;
      }
    }

    /** decrement, as written: the row at the position is read, CONTENT_URI/(position + 1) is updated. */
    method Decrement(position: int) returns (r: Option<Result<nat>>)
      requires store.Valid()
      modifies store
      ensures store.Valid()
      ensures var s := SalePlan(cursor, position);
        if s.Send? then
          var o := UpdateOp(old(store.State()), s.target, s.values, AllRows);
          r == Some(o.result) && store.State() == o.table && store.notified == old(store.notified) + o.notified
        else
          r == None && store.State() == old(store.State()) && store.notified == old(store.notified)
    {
      r := PerformSale(SalePlan(cursor, position));
    }

    /** decrement with the target taken from the row's _id. */
    method DecrementCorrected(position: int) returns (r: Option<Result<nat>>)
      requires store.Valid()
      modifies store
      ensures store.Valid()
      ensures var s := CorrectedSalePlan(cursor, position);
        if s.Send? then
          var o := UpdateOp(old(store.State()), s.target, s.values, AllRows);
          r == Some(o.result) && store.State() == o.table && store.notified == old(store.notified) + o.notified
        else
          r == None && store.State() == old(store.State()) && store.notified == old(store.notified)
    {
      r := PerformSale(CorrectedSalePlan(cursor, position));
    }

    /** insertData: one insert into CONTENT_URI per dummy book, results ignored. */
    method InsertData(fails: seq<bool>)
      requires store.Valid() && |fails| == |SeedNames|
      modifies store
      ensures store.Valid()
      ensures store.State() == Seeded(old(store.State()), fails).0
      ensures store.notified == old(store.notified) + Seeded(old(store.State()), fails).1
    {
      ghost var t0 := store.State();
      ghost var n0 := store.notified;
      ghost var sd: (Table, seq<Uri>) := (t0, []);
      for i := 0 to |SeedNames|
        invariant sd == Seeded(t0, fails[..i])
        invariant store.Valid() && store.State() == sd.0
        invariant store.notified == n0 + sd.1
      {
        SeededPrefix(t0, fails, i);
        var _ := store.Insert(ContentUri, SeedValues(i), fails[i]);
        ghost var o := InsertOp(sd.0, ContentUri, SeedValues(i), fails[i]);
        sd := (o.table, sd.1 + o.notified);
      }
      assert fails[..|SeedNames|] == fails;
    }

    /** "Delete all entries": delete on CONTENT_URI with no selection. */
    method DeleteAllEntries() returns (r: Result<nat>)
      requires store.Valid()
      modifies store
      ensures store.Valid()
      ensures store.State() == old(store.State()).(rows := map[])
      ensures r == Ok(|old(store.State()).rows|)
      ensures store.notified == old(store.notified) + if r.value != 0 then [ContentUri] else []
    {
      DeleteAllRows(store.State());
      r := store.Delete(ContentUri, AllRows);
    }
  }
}
