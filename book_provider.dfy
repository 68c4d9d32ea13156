/**
 * BookProvider: URI routing, input validation and the insert, query,
 * update and delete operations over the books table, with the change
 * notifications they emit.
 *
 * Each operation is first given as a function from the table to an
 * Outcome (new table, result or exception, URIs notified); the Store class
 * below performs the same steps in place and is proved to agree with it.
 */
module BookProvider {
  import opened Wrappers
  import opened Strings
  import opened BookContract
  import opened BookTable
  import BookDbHelper

  // ---------------------------------------------------------------- routing

  /** The UriMatcher codes: BOOKS, BOOK_ID (with the id parsed from the URI) and NO_MATCH. */
  datatype UriMatch = Books | BookId(id: nat) | NoMatch

  /**
   * UriMatcher with the patterns "<authority>/books" and "<authority>/books/#":
   * the authority and the path segments decide, the scheme is not looked at,
   * and "#" is one segment of decimal digits.
   */
  function Match(uri: Uri): (m: UriMatch)
    ensures uri.authority != ContentAuthority ==> m == NoMatch
    ensures m == Books <==> uri.authority == ContentAuthority && uri.path == [PathBooks]
    ensures m.BookId? <==>
      (uri.authority == ContentAuthority && |uri.path| == 2 && uri.path[0] == PathBooks
        && uri.path[1] != "" && IsDigits(uri.path[1]))
  {
    if uri.authority != ContentAuthority then NoMatch
    else if uri.path == [PathBooks] then Books
    else if |uri.path| == 2 && uri.path[0] == PathBooks && uri.path[1] != "" && IsDigits(uri.path[1]) then
      BookId(ParseDecimal(uri.path[1]))
    else NoMatch
  }

  /** CONTENT_URI routes to BOOKS and CONTENT_URI/<id> routes to BOOK_ID with that same id. */
  lemma MatchContentUris(id: nat)
    ensures Match(ContentUri) == Books
    ensures Match(ItemUri(id)) == BookId(id)
  {
  }

  /** The matcher looks only at authority and path. */
  lemma MatchIgnoresScheme(uri: Uri, scheme: string)
    ensures Match(uri.(scheme := scheme)) == Match(uri)
  {
  }

  /** A URI routes to BOOKS exactly when it is CONTENT_URI up to its scheme. */
  lemma MatchBooksExactly(uri: Uri)
    ensures Match(uri) == Books <==> uri.(scheme := ContentScheme) == ContentUri
  {
  }

  // ----------------------------------------------------------------- errors

  /** What the message of each thrown exception reports. */
  datatype Reason =
    | UnknownQueryUri          // "Cannot query unknown URI"
    | UnknownTypeUri           // "Unknown URI ... with match"
    | InsertionNotSupported
    | UpdateNotSupported
    | DeletionNotSupported
    | RequiresName             // "Book requires a name."
    | RequiresValidPrice       // "Book requires valid a price."
    | RequiresValidQuantity    // "Book requires a valid quantity."

  /** The two exception classes the provider throws. */
  datatype Failure = IllegalArgument(reason: Reason) | IllegalState(reason: Reason)

  /** A returned value or a thrown exception. */
  datatype Result<T> = Ok(value: T) | Err(failure: Failure)

  // --------------------------------------------------------------- getType

  function GetType(uri: Uri): (r: Result<string>)
    ensures r.Ok? <==> Match(uri) != NoMatch
    ensures r.Err? ==> r.failure == IllegalState(UnknownTypeUri)
  {
    match Match(uri)
    case Books => Ok(ContentListType)
    case BookId(_) => Ok(ContentItemType)
    case NoMatch => Err(IllegalState(UnknownTypeUri))
  }

  /** The collection URI reports the list type and an item URI the item type. */
  lemma GetTypeOfContentUris(id: nat)
    ensures GetType(ContentUri) == Ok(ContentListType)
    ensures GetType(ItemUri(id)) == Ok(ContentItemType)
  {
    MatchContentUris(id);
  }

  // ------------------------------------------------------------ validation

  predicate ValidName(f: Field<string>) { f.Value? && f.value != "" }
  predicate ValidPrice(f: Field<real>) { f.Value? && f.value >= 0.0 }
  predicate ValidQuantity(f: Field<int>) { f.Value? && f.value >= 0 }

  /**
   * insertBook's checks, in its order: a name that is present, not null and
   * not empty; then a price present, not null and not negative; then a
   * quantity likewise. The supplier columns are not checked.
   */
  function ValidateInsert(v: Values): (r: Option<Reason>)
    ensures r == None <==> ValidName(v.productName) && ValidPrice(v.price) && ValidQuantity(v.quantity)
    ensures r == None ==> WellFormed(RowFromValues(v))
    ensures r.Some? ==> r.value in {RequiresName, RequiresValidPrice, RequiresValidQuantity}
  {
    if !ValidName(v.productName) then Some(RequiresName)
    else if !ValidPrice(v.price) then Some(RequiresValidPrice)
    else if !ValidQuantity(v.quantity) then Some(RequiresValidQuantity)
    else None
  }

  /**
   * updateBook's checks: the same three rules, each applied only when its
   * key is present in the values.
   */
  function ValidateUpdate(v: Values): (r: Option<Reason>)
    ensures r == None <==>
      && (v.productName.Absent? || ValidName(v.productName))
      && (v.price.Absent? || ValidPrice(v.price))
      && (v.quantity.Absent? || ValidQuantity(v.quantity))
    ensures r == None ==> RespectsNotNull(v)
    ensures r == None ==> forall b :: WellFormed(b) ==> WellFormed(ApplyValues(b, v))
    ensures r.Some? ==> r.value in {RequiresName, RequiresValidPrice, RequiresValidQuantity}
  {
    if !v.productName.Absent? && !ValidName(v.productName) then Some(RequiresName)
    else if !v.price.Absent? && !ValidPrice(v.price) then Some(RequiresValidPrice)
    else if !v.quantity.Absent? && !ValidQuantity(v.quantity) then Some(RequiresValidQuantity)
    else None
  }

  /** The insert checks reject in order: name first, then price, then quantity. */
  lemma InsertCheckOrder(v: Values)
    ensures !ValidName(v.productName) ==> ValidateInsert(v) == Some(RequiresName)
    ensures ValidName(v.productName) && !ValidPrice(v.price) ==> ValidateInsert(v) == Some(RequiresValidPrice)
    ensures ValidName(v.productName) && ValidPrice(v.price) && !ValidQuantity(v.quantity) ==>
      ValidateInsert(v) == Some(RequiresValidQuantity)
  {
  }

  /** Price 0 and quantity 0 are accepted, and whatever the supplier fields hold does not matter. */
  lemma InsertAcceptsZeroAndAnySupplier(name: string, supplier: Field<string>, phone: Field<string>)
    requires name != ""
    ensures ValidateInsert(Values(Value(name), Value(0.0), Value(0), supplier, phone)) == None
  {
  }

  /** Values that pass the insert checks pass the update checks too. */
  lemma InsertChecksImplyUpdateChecks(v: Values)
    requires ValidateInsert(v) == None
    ensures ValidateUpdate(v) == None
  {
  }

  /**
   * An absent key is never checked: the empty value set passes, dropping a
   * key from values that pass keeps them passing, and values holding only a
   * quantity are judged on that quantity alone.
   */
  lemma UpdateChecksOnlyPresentKeys(v: Values)
    ensures ValidateUpdate(NoValues) == None
    ensures ValidateUpdate(v) == None ==>
      && ValidateUpdate(v.(productName := Absent)) == None
      && ValidateUpdate(v.(price := Absent)) == None
      && ValidateUpdate(v.(quantity := Absent)) == None
    ensures ValidateUpdate(v.(productName := Absent, price := Absent)) == None
      <==> v.quantity.Absent? || ValidQuantity(v.quantity)
  {
  }

  // ------------------------------------------------- the table and outcomes

  /** The books table: its rows and its AUTOINCREMENT counter (the next id to hand out). */
  datatype Table = Table(rows: map<nat, Book>, nextId: nat)

  /**
   * The table invariant: ids are positive and below the counter (so the
   * counter is above every id ever handed out), and every row has a
   * non-empty name, a non-negative price and a non-negative quantity.
   */
  predicate TableValid(t: Table) {
    t.nextId >= 1 && forall id :: id in t.rows ==> 1 <= id < t.nextId && WellFormed(t.rows[id])
  }

  /** The table after an operation, what the operation returned or threw, and the URIs it notified. */
  datatype Outcome<T> = Outcome(table: Table, result: Result<T>, notified: seq<Uri>)

  /** The rows an item URI addresses replace the caller's selection with "_id=<id>". */
  function EffectiveSelection(m: UriMatch, selection: Selection): (s: Selection)
    ensures m.BookId? ==> s == IdEquals(m.id)
    ensures !m.BookId? ==> s == selection
  {
    match m
    case BookId(id) => IdEquals(id)
    case _ => selection
  }

  /** An item URI selects its own row if it exists and nothing otherwise, whatever the caller's selection. */
  lemma ItemSelection(rows: map<nat, Book>, id: nat, selection: Selection)
    ensures Selected(rows, EffectiveSelection(BookId(id), selection)) == if id in rows then {id} else {}
  {
  }

  // ---------------------------------------------------------------- insert

  /** insertBook: validate, then insert the row under the next id, notify and return the item URI. */
  function InsertBookOp(t: Table, uri: Uri, v: Values, storageFails: bool): (o: Outcome<Option<Uri>>)
    ensures o.result.Ok? && o.result.value.Some? <==> ValidateInsert(v) == None && !storageFails
    ensures !(o.result.Ok? && o.result.value.Some?) ==> o.table == t && o.notified == []
    ensures TableValid(t) ==> TableValid(o.table)
  {
    match ValidateInsert(v)
    case Some(reason) => Outcome(t, Err(IllegalArgument(reason)), [])
    case None =>
      if storageFails then Outcome(t, Ok(None), [])
      else
        Outcome(
          Table(t.rows[t.nextId := RowFromValues(v)], t.nextId + 1),
          Ok(Some(WithAppendedId(uri, t.nextId))),
          [uri])
  }

  /** insert: only the collection URI is accepted. */
  function InsertOp(t: Table, uri: Uri, v: Values, storageFails: bool): (o: Outcome<Option<Uri>>)
    ensures !(o.result.Ok? && o.result.value.Some?) ==> o.table == t && o.notified == []
    ensures TableValid(t) ==> TableValid(o.table)
    ensures o.table.nextId >= t.nextId
  {
    match Match(uri)
    case Books => InsertBookOp(t, uri, v, storageFails)
    case _ => Outcome(t, Err(IllegalArgument(InsertionNotSupported)), [])
  }

  /** Insert on an item URI throws and changes nothing. */
  lemma InsertRejectsItemUri(t: Table, id: nat, v: Values, storageFails: bool)
    ensures InsertOp(t, ItemUri(id), v, storageFails) == Outcome(t, Err(IllegalArgument(InsertionNotSupported)), [])
  {
    MatchContentUris(id);
  }

  /** Values failing a check make insert throw that check's exception before the table is touched. */
  lemma InsertRejectsInvalid(t: Table, v: Values, storageFails: bool)
    requires ValidateInsert(v).Some?
    ensures InsertOp(t, ContentUri, v, storageFails) == Outcome(t, Err(IllegalArgument(ValidateInsert(v).value)), [])
  {
    MatchContentUris(0);
  }

  /** A store failure (id -1) makes insert return null: no row, no notification, no exception. */
  lemma InsertStorageFailure(t: Table, v: Values)
    requires ValidateInsert(v) == None
    ensures InsertOp(t, ContentUri, v, true) == Outcome(t, Ok(None), [])
  {
    MatchContentUris(0);
  }

  /**
   * A valid insert on the collection URI adds exactly one row, under an id
   * that no row had, notifies CONTENT_URI and returns CONTENT_URI/<id>; a
   * query on that URI then returns exactly the inserted values.
   */
  lemma InsertThenQuery(t: Table, v: Values, selection: Selection)
    requires TableValid(t) && ValidateInsert(v) == None
    ensures var o := InsertOp(t, ContentUri, v, false);
      var id := t.nextId;
      && id !in t.rows
      && (forall k :: k in t.rows ==> k < id)
      && o.result == Ok(Some(ItemUri(id)))
      && o.table.rows == t.rows[id := RowFromValues(v)]
      && |o.table.rows| == |t.rows| + 1
      && o.notified == [ContentUri]
      && QueryOp(o.table, ItemUri(id), selection) == Ok(map[id := RowFromValues(v)])
  {
    var id := t.nextId;
    MatchContentUris(id);
    var o := InsertOp(t, ContentUri, v, false);
    assert id !in t.rows;
    assert o.table.rows == t.rows[id := RowFromValues(v)];
    assert |o.table.rows| == |t.rows| + 1;
    ItemSelection(o.table.rows, id, selection);
    var found := Restrict(o.table.rows, {id});
    assert found.Keys == {id};
    assert found == map[id := RowFromValues(v)];
  }

  /** The row a valid insert stores holds the given name, price and quantity. */
  lemma InsertedRowHoldsValues(v: Values)
    requires ValidateInsert(v) == None
    ensures RowFromValues(v).productName == v.productName.value
    ensures RowFromValues(v).price == v.price.value
    ensures RowFromValues(v).quantity == v.quantity.value
  {
  }

  // ---------------------------------------------------------------- update

  /** updateBook: validate the present keys, skip an empty value set, else update the selected rows. */
  function UpdateBookOp(t: Table, uri: Uri, v: Values, selection: Selection): (o: Outcome<nat>)
    ensures o.table.nextId == t.nextId && o.table.rows.Keys == t.rows.Keys
    ensures o.result.Err? ==> o.table == t && o.notified == []
    ensures o.result.Ok? ==> o.notified == if o.result.value != 0 then [uri] else []
    ensures TableValid(t) ==> TableValid(o.table)
  {
    match ValidateUpdate(v)
    case Some(reason) => Outcome(t, Err(IllegalArgument(reason)), [])
    case None =>
      if Size(v) == 0 then Outcome(t, Ok(0), [])
      else
        var ids := Selected(t.rows, selection);
        Outcome(
          t.(rows := UpdateRows(t.rows, ids, v)),
          Ok(|ids|),
          if |ids| != 0 then [uri] else [])
  }

  /** update: the collection URI passes the caller's selection, an item URI its own "_id=<id>". */
  function UpdateOp(t: Table, uri: Uri, v: Values, selection: Selection): (o: Outcome<nat>)
    ensures o.table.nextId == t.nextId && o.table.rows.Keys == t.rows.Keys
    ensures o.result.Err? ==> o.table == t && o.notified == []
    ensures o.result.Ok? ==> o.notified == if o.result.value != 0 then [uri] else []
    ensures TableValid(t) ==> TableValid(o.table)
  {
    match Match(uri)
    case NoMatch => Outcome(t, Err(IllegalArgument(UpdateNotSupported)), [])
    case m => UpdateBookOp(t, uri, v, EffectiveSelection(m, selection))
  }

  /**
   * Update through the collection URI: the count is the number of selected
   * rows, those rows take the present values and keep their absent columns,
   * every other row is unchanged.
   */
  lemma UpdateCollection(t: Table, v: Values, selection: Selection)
    requires ValidateUpdate(v) == None && Size(v) != 0
    ensures var o := UpdateOp(t, ContentUri, v, selection);
      var ids := Selected(t.rows, selection);
      && o.result == Ok(|ids|)
      && o.table.rows == UpdateRows(t.rows, ids, v)
      && o.notified == (if |ids| != 0 then [ContentUri] else [])
  {
    MatchContentUris(0);
  }

  /** Update through an item URI touches only that row, whatever selection the caller passed. */
  lemma UpdateItem(t: Table, id: nat, v: Values, selection: Selection)
    requires ValidateUpdate(v) == None && Size(v) != 0
    ensures var o := UpdateOp(t, ItemUri(id), v, selection);
      if id in t.rows then
        o.result == Ok(1) && o.table.rows == t.rows[id := ApplyValues(t.rows[id], v)] && o.notified == [ItemUri(id)]
      else
        o.result == Ok(0) && o.table == t && o.notified == []
  {
    MatchContentUris(id);
    ItemSelection(t.rows, id, selection);
    var o := UpdateOp(t, ItemUri(id), v, selection);
    if id in t.rows {
      assert o.table.rows == t.rows[id := ApplyValues(t.rows[id], v)];
    } else {
      assert o.table.rows == t.rows;
    }
  }

  /** Updating an item with only a quantity changes only that row's quantity. */
  lemma UpdateQuantityOnly(t: Table, id: nat, q: int, selection: Selection)
    requires id in t.rows && q >= 0
    ensures var o := UpdateOp(t, ItemUri(id), NoValues.(quantity := Value(q)), selection);
      o.result == Ok(1) && o.table.rows == t.rows[id := t.rows[id].(quantity := q)]
  {
    UpdateItem(t, id, NoValues.(quantity := Value(q)), selection);
  }

  /** An empty value set returns 0 with no table change and no notification. */
  lemma UpdateWithNoValues(t: Table, uri: Uri, selection: Selection)
    requires Match(uri) != NoMatch
    ensures UpdateOp(t, uri, NoValues, selection) == Outcome(t, Ok(0), [])
  {
  }

  /** A present key that fails its check makes update throw before the table is touched. */
  lemma UpdateRejectsInvalid(t: Table, uri: Uri, v: Values, selection: Selection)
    requires Match(uri) != NoMatch && ValidateUpdate(v).Some?
    ensures UpdateOp(t, uri, v, selection) == Outcome(t, Err(IllegalArgument(ValidateUpdate(v).value)), [])
  {
  }

  // ---------------------------------------------------------------- delete

  /** The SQL DELETE and the notification: remove the selected rows, notify if there were any. */
  function DeleteSelectedOp(t: Table, uri: Uri, selection: Selection): (o: Outcome<nat>)
    ensures o.table.nextId == t.nextId
    ensures forall id :: id in o.table.rows <==> id in t.rows && !Selects(selection, id, t.rows[id])
    ensures forall id :: id in o.table.rows ==> o.table.rows[id] == t.rows[id]
    ensures o.result.Ok? && |o.table.rows| == |t.rows| - o.result.value
    ensures o.notified == if o.result.value != 0 then [uri] else []
    ensures TableValid(t) ==> TableValid(o.table)
  {
    var ids := Selected(t.rows, selection);
    Outcome(t.(rows := DeleteRows(t.rows, ids)), Ok(|ids|), if |ids| != 0 then [uri] else [])
  }

  /** delete: the collection URI passes the caller's selection, an item URI its own "_id=<id>". */
  function DeleteOp(t: Table, uri: Uri, selection: Selection): (o: Outcome<nat>)
    ensures o.table.nextId == t.nextId && o.table.rows.Keys <= t.rows.Keys
    ensures forall id :: id in o.table.rows ==> o.table.rows[id] == t.rows[id]
    ensures o.result.Err? ==> o.table == t && o.notified == []
    ensures o.result.Ok? ==> |o.table.rows| == |t.rows| - o.result.value
    ensures o.result.Ok? ==> o.notified == if o.result.value != 0 then [uri] else []
    ensures TableValid(t) ==> TableValid(o.table)
    ensures o.result.Ok? <==> Match(uri) != NoMatch
    ensures o.result.Err? ==> o.result.failure == IllegalArgument(DeletionNotSupported)
    ensures Match(uri) == Books ==>
      forall id :: id in t.rows ==> (id in o.table.rows <==> !Selects(selection, id, t.rows[id]))
    ensures Match(uri).BookId? ==> o.table.rows.Keys == t.rows.Keys - {Match(uri).id}
  {
    match Match(uri)
    case NoMatch => Outcome(t, Err(IllegalArgument(DeletionNotSupported)), [])
    case m => DeleteSelectedOp(t, uri, EffectiveSelection(m, selection))
  }

  /**
   * Delete through the collection URI: the count is the number of selected
   * rows, exactly those rows go, and CONTENT_URI is notified if any did.
   */
  lemma DeleteCollection(t: Table, selection: Selection)
    ensures var o := DeleteOp(t, ContentUri, selection);
      var ids := Selected(t.rows, selection);
      && o.result == Ok(|ids|)
      && o.table == t.(rows := DeleteRows(t.rows, ids))
      && o.notified == (if |ids| != 0 then [ContentUri] else [])
  {
    MatchContentUris(0);
  }

  /**
   * Deleting an existing item removes exactly that row, returns 1 and
   * notifies its URI; a query on it then finds nothing. A missing item
   * returns 0 and notifies nothing.
   */
  lemma DeleteItem(t: Table, id: nat, selection: Selection, querySelection: Selection)
    ensures var o := DeleteOp(t, ItemUri(id), selection);
      if id in t.rows then
        && o.result == Ok(1)
        && o.table.rows == t.rows - {id}
        && o.notified == [ItemUri(id)]
        && QueryOp(o.table, ItemUri(id), querySelection) == Ok(map[])
      else
        o.result == Ok(0) && o.table == t && o.notified == []
  {
    MatchContentUris(id);
    ItemSelection(t.rows, id, selection);
    var o := DeleteOp(t, ItemUri(id), selection);
    ItemSelection(o.table.rows, id, querySelection);
    if id !in t.rows {
      assert o.table.rows == t.rows;
    }
  }

  /** Deleting on the collection URI with no selection empties the table and returns its size. */
  lemma DeleteAllRows(t: Table)
    ensures DeleteOp(t, ContentUri, AllRows) ==
      Outcome(t.(rows := map[]), Ok(|t.rows|), if |t.rows| != 0 then [ContentUri] else [])
  {
    MatchContentUris(0);
    assert Selected(t.rows, AllRows) == t.rows.Keys;
  }

  // ----------------------------------------------------------------- query

  /** query: the selected rows (projection and sort order are not modelled). */
  function QueryOp(t: Table, uri: Uri, selection: Selection): (r: Result<map<nat, Book>>)
    ensures r.Ok? <==> Match(uri) != NoMatch
    ensures r.Err? ==> r.failure == IllegalArgument(UnknownQueryUri)
    ensures r.Ok? ==> forall id :: id in r.value ==> id in t.rows && r.value[id] == t.rows[id]
    ensures Match(uri) == Books ==>
      forall id :: id in r.value <==> id in t.rows && Selects(selection, id, t.rows[id])
    ensures Match(uri).BookId? ==>
      r.value.Keys == if Match(uri).id in t.rows then {Match(uri).id} else {}
  {
    match Match(uri)
    case NoMatch => Err(IllegalArgument(UnknownQueryUri))
    case m => Ok(Restrict(t.rows, Selected(t.rows, EffectiveSelection(m, selection))))
  }

  /** A URI that matches neither pattern makes every operation throw and change nothing. */
  lemma UnknownUriRejected(t: Table, uri: Uri, v: Values, selection: Selection, storageFails: bool)
    requires Match(uri) == NoMatch
    ensures QueryOp(t, uri, selection) == Err(IllegalArgument(UnknownQueryUri))
    ensures GetType(uri) == Err(IllegalState(UnknownTypeUri))
    ensures InsertOp(t, uri, v, storageFails) == Outcome(t, Err(IllegalArgument(InsertionNotSupported)), [])
    ensures UpdateOp(t, uri, v, selection) == Outcome(t, Err(IllegalArgument(UpdateNotSupported)), [])
    ensures DeleteOp(t, uri, selection) == Outcome(t, Err(IllegalArgument(DeletionNotSupported)), [])
  {
  }

  // ------------------------------------------------ sequences of operations

  /** One call into the provider that can change the table. */
  datatype Call =
    | InsertCall(uri: Uri, values: Values, storageFails: bool)
    | UpdateCall(uri: Uri, values: Values, selection: Selection)
    | DeleteCall(uri: Uri, selection: Selection)

  function Apply(t: Table, c: Call): Table {
    match c
    case InsertCall(uri, v, f) => InsertOp(t, uri, v, f).table
    case UpdateCall(uri, v, s) => UpdateOp(t, uri, v, s).table
    case DeleteCall(uri, s) => DeleteOp(t, uri, s).table
  }

  /** The table after a sequence of calls. */
  function Run(t: Table, calls: seq<Call>): Table
    decreases |calls|
  {
    if calls == [] then t else Run(Apply(t, calls[0]), calls[1..])
  }

  /** Every sequence of calls keeps the table invariant and never lowers the AUTOINCREMENT counter. */
  lemma {:induction false} RunPreservesInvariant(t: Table, calls: seq<Call>)
    requires TableValid(t)
    ensures TableValid(Run(t, calls)) && Run(t, calls).nextId >= t.nextId
    decreases |calls|
  {
    if calls != [] {
      RunPreservesInvariant(Apply(t, calls[0]), calls[1..]);
    }
  }

  /**
   * An id that has been handed out and is no longer in the table never
   * comes back, whatever calls follow: AUTOINCREMENT never reuses ids.
   */
  lemma {:induction false} RemovedIdStaysRemoved(t: Table, calls: seq<Call>, id: nat)
    requires id < t.nextId && id !in t.rows
    ensures id < Run(t, calls).nextId && id !in Run(t, calls).rows
    decreases |calls|
  {
    if calls != [] {
      var t' := Apply(t, calls[0]);
      assert id < t'.nextId && id !in t'.rows by {
        match calls[0]
        case InsertCall(uri, v, f) =>
        case UpdateCall(uri, v, s) =>
        case DeleteCall(uri, s) =>
      }
      RemovedIdStaysRemoved(t', calls[1..], id);
    }
  }

  /** A deleted book's id is never reused by any later sequence of calls. */
  lemma DeletedIdNeverReused(t: Table, id: nat, calls: seq<Call>)
    requires TableValid(t) && id in t.rows
    ensures id !in Run(DeleteOp(t, ItemUri(id), AllRows).table, calls).rows
  {
    DeleteItem(t, id, AllRows, AllRows);
    RemovedIdStaysRemoved(DeleteOp(t, ItemUri(id), AllRows).table, calls, id);
  }

  // ------------------------------------------------------------ the store

  /**
   * The provider over its database: the rows and the AUTOINCREMENT counter
   * change in place, and every notifyChange is recorded in order.
   */
  class Store {
    var rows: map<nat, Book>
    var nextId: nat
    ghost var notified: seq<Uri>

    function State(): Table
      reads this
    {
      Table(rows, nextId)
    }

    ghost predicate Valid()
      reads this
    {
      TableValid(State())
    }

    /** onCreate: the provider opens the database the helper has just created, with no rows and ids from 1. */
    constructor ()
      ensures Valid() && notified == []
      ensures State() == Table(BookDbHelper.OnCreate().rows, BookDbHelper.OnCreate().nextId)
    {
      rows := map[];
      nextId := 1;
      notified := [];
    }

    method Query(uri: Uri, selection: Selection) returns (r: Result<map<nat, Book>>)
      ensures r == QueryOp(State(), uri, selection)
    {
      var m := Match(uri);
      match m {
        case Books =>
          r := Ok(Restrict(rows, Selected(rows, selection)));
        case BookId(id) =>
          r := Ok(Restrict(rows, Selected(rows, IdEquals(id))));
        case NoMatch =>
          r := Err(IllegalArgument(UnknownQueryUri));
      }
    }

    method Insert(uri: Uri, values: Values, storageFails: bool) returns (r: Result<Option<Uri>>)
      requires Valid()
      modifies this
      ensures Valid()
      ensures var o := InsertOp(old(State()), uri, values, storageFails);
        State() == o.table && r == o.result && notified == old(notified) + o.notified
    {
      var m := Match(uri);
      match m {
        case Books =>
          r := InsertBook(uri, values, storageFails);
        case _ =>
          r := Err(IllegalArgument(InsertionNotSupported));
      }
    }

    method InsertBook(uri: Uri, values: Values, storageFails: bool) returns (r: Result<Option<Uri>>)
      requires Valid()
      modifies this
      ensures Valid()
      ensures var o := InsertBookOp(old(State()), uri, values, storageFails);
        State() == o.table && r == o.result && notified == old(notified) + o.notified
    {
      if !ValidName(values.productName) {
        return Err(IllegalArgument(RequiresName));
      }
      if !ValidPrice(values.price) {
        return Err(IllegalArgument(RequiresValidPrice));
      }
      if !ValidQuantity(values.quantity) {
        return Err(IllegalArgument(RequiresValidQuantity));
      }
      if storageFails {
        return Ok(None);
      }
      var id := nextId;
      rows := rows[id := RowFromValues(values)];
      nextId := nextId + 1;
      notified := notified + [uri];
      r := Ok(Some(WithAppendedId(uri, id)));
    }

    method Update(uri: Uri, values: Values, selection: Selection) returns (r: Result<nat>)
      requires Valid()
      modifies this
      ensures Valid()
      ensures var o := UpdateOp(old(State()), uri, values, selection);
        State() == o.table && r == o.result && notified == old(notified) + o.notified
    {
      var m := Match(uri);
      match m {
        case Books =>
          r := UpdateBook(uri, values, selection);
        case BookId(id) =>
          r := UpdateBook(uri, values, IdEquals(id));
        case NoMatch =>
          r := Err(IllegalArgument(UpdateNotSupported));
      }
    }

    method UpdateBook(uri: Uri, values: Values, selection: Selection) returns (r: Result<nat>)
      requires Valid()
      modifies this
      ensures Valid()
      ensures var o := UpdateBookOp(old(State()), uri, values, selection);
        State() == o.table && r == o.result && notified == old(notified) + o.notified
    {
      if !values.productName.Absent? && !ValidName(values.productName) {
        return Err(IllegalArgument(RequiresName));
      }
      if !values.price.Absent? && !ValidPrice(values.price) {
        return Err(IllegalArgument(RequiresValidPrice));
      }
      if !values.quantity.Absent? && !ValidQuantity(values.quantity) {
        return Err(IllegalArgument(RequiresValidQuantity));
      }
      assert ValidateUpdate(values) == None;
      if Size(values) == 0 {
        return Ok(0);
      }
      var ids := Selected(rows, selection);
      rows := UpdateRows(rows, ids, values);
      var rowsUpdated := |ids|;
      if rowsUpdated != 0 {
        notified := notified + [uri];
      }
      r := Ok(rowsUpdated);
    }

    method Delete(uri: Uri, selection: Selection) returns (r: Result<nat>)
      requires Valid()
      modifies this
      ensures Valid()
      ensures var o := DeleteOp(old(State()), uri, selection);
        State() == o.table && r == o.result && notified == old(notified) + o.notified
    {
      var m := Match(uri);
      match m {
        case Books =>
          r := DeleteSelected(uri, selection);
        case BookId(id) =>
          r := DeleteSelected(uri, IdEquals(id));
        case NoMatch =>
          r := Err(IllegalArgument(DeletionNotSupported));
      }
    }

    /** SQLiteDatabase.delete with the selection, then notifyChange on the URI if any row went. */
    method DeleteSelected(uri: Uri, selection: Selection) returns (r: Result<nat>)
      requires Valid()
      modifies this
      ensures Valid()
      ensures var o := DeleteSelectedOp(old(State()), uri, selection);
        State() == o.table && r == o.result && notified == old(notified) + o.notified
    {
      var ids := Selected(rows, selection);
      rows := DeleteRows(rows, ids);
      var rowsDeleted := |ids|;
      if rowsDeleted != 0 {
        notified := notified + [uri];
      }
      r := Ok(rowsDeleted);
    }
  }
}
