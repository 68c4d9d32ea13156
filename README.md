# Bookstore inventory: a Dafny model

This project models the core of a small Android bookstore-inventory app.

- **The content provider.** It answers `content://com.example.android.books/books` (the collection) and `.../books/<id>` (one book). It validates what it is asked to store and reads and changes the `books` table. After every change it notifies the URI it was called with.
- **The table schema.**
- **The editor screen.** It adds a new book or edits an existing one.
- **The list screen.** It has a Sale button on every row and two menu actions: insert dummy data and delete all entries.

The modules follow the app's source files:

| module | file | what it holds |
|---|---|---|
| `Wrappers` | `wrappers.dfy` | `Option` |
| `Strings` | `strings.dfy` | Decimal spelling of ids and its parse-back, `String.trim()`, 32-bit `int` arithmetic, `String.valueOf(int)` / `Integer.valueOf` |
| `BookContract` | `book_contract.dfy` | The authority, URIs, MIME types, table and column names (`BookContract.java`) |
| `BookTable` | `book_table.dfy` | The table as the provider uses it: rows keyed by `_id`, `ContentValues` as a per-column absent/null/value record, selections, SQL `INSERT`/`UPDATE`/`DELETE` on rows |
| `BookDbHelper` | `book_db_helper.dfy` | The schema of `onCreate`, the version and the empty `onUpgrade` (`BookDbHelper.java`) |
| `BookProvider` | `book_provider.dfy` | URI matching, validation, and each operation twice: as a function from a `Table` to an `Outcome`, and as a method of the `Store` class, which changes its rows, its `AUTOINCREMENT` counter and its notification log in place and is proved to agree with the function (`BookProvider.java`) |
| `EditorActivity` | `editor_activity.dfy` | The `Editor` class: the five text fields, `wasSaved`, `mBookHasChanged` and whether the screen has closed. Its methods are the quantity stepper, Save, Delete, Back and Up (`EditorActivity.java`) |
| `MainActivity` | `main_activity.dfy` | The `ListScreen` class: the loaded cursor, Sale, the seeding loop, delete-all (`MainActivity.java`) |

The main proved facts:

- A deleted id never comes back, whatever sequence of inserts, updates and deletes follows.
- A valid insert returns `CONTENT_URI/<id>` for a fresh id, and a query on that URI gives back exactly the inserted row.
- An update or delete through an item URI touches only that row.
- An insert notifies exactly when it stored a row. An update or delete notifies exactly when its returned count is non-zero, which counts the rows selected, whether or not their values changed.
- The editor's "-" button never takes the quantity below 0. The "+" button wraps from the largest `int` to the smallest, so a quantity stays between 0 and the start plus the number of taps only while that sum cannot pass the largest `int`.
- What Save sends is the trimmed text, and the editor's flags are never reset.
- The Sale button as written can change the wrong book (see Findings).

All source paths below are relative to the repository root.

## Model

| member | source | states |
|---|---|---|
| `Strings.ParseDecimalOfDecimal` | app/src/main/java/com/example/android/bookstore/data/BookProvider.java:181 | The decimal spelling of an id, appended to a URI, parses back to the same id |
| `Strings.DecimalInjective` | app/src/main/java/com/example/android/bookstore/data/BookProvider.java:181 | Different ids are spelled differently |
| `Strings.Decimal` | app/src/main/java/com/example/android/bookstore/MainActivity.java:72 | The spelling of an id is a non-empty run of decimal digits with no leading zero |
| `Strings.ParseDecimal` | app/src/main/java/com/example/android/bookstore/data/BookProvider.java:85 | A digit string denotes 0 exactly when every digit is `0` |
| `Strings.TrimStart` | app/src/main/java/com/example/android/bookstore/EditorActivity.java:250-252 | The result is a suffix of the input; everything removed is a character up to space; the result does not start with one |
| `Strings.TrimEnd` | app/src/main/java/com/example/android/bookstore/EditorActivity.java:250-252 | The result is a prefix of the input; everything removed is a character up to space; the result does not end with one |
| `Strings.Trim` | app/src/main/java/com/example/android/bookstore/EditorActivity.java:250-252 | A non-empty trimmed string starts and ends with a character above space |
| `Strings.TrimEmptyIff` | app/src/main/java/com/example/android/bookstore/EditorActivity.java:250-258 | `trim()` gives "" exactly when every character is at most space, so a blank name counts as empty |
| `Strings.TrimKeepsTrimmed` | app/src/main/java/com/example/android/bookstore/EditorActivity.java:250-252 | A string with no blank at either end is left alone |
| `Strings.TrimIdempotent` | app/src/main/java/com/example/android/bookstore/EditorActivity.java:250-252 | Trimming twice equals trimming once |
| `Strings.Wrap32` | app/src/main/java/com/example/android/bookstore/EditorActivity.java:165-174 | Java `int` arithmetic: the result is a 32-bit int, and an in-range value is unchanged |
| `Strings.ParseInt32` | app/src/main/java/com/example/android/bookstore/EditorActivity.java:157 | `Integer.valueOf` yields only 32-bit values; anything else is the NumberFormatException |
| `Strings.ParseIntOfIntText` | app/src/main/java/com/example/android/bookstore/EditorActivity.java:165-175 | The text `String.valueOf(int)` writes into the quantity field reads back as the same int |
| `Strings.IntText` | app/src/main/java/com/example/android/bookstore/EditorActivity.java:166 | `String.valueOf(int)` writes a minus sign exactly for a negative number, followed by decimal digits |
| `Strings.ParseInt` | app/src/main/java/com/example/android/bookstore/EditorActivity.java:273 | The empty text and a lone sign do not parse; a digit string parses to its value; a negative result needs a leading minus |
| `Strings.ParseIntRejectsNonDigit` | app/src/main/java/com/example/android/bookstore/EditorActivity.java:273 | A character other than a digit, or a sign anywhere but in front, makes the parse fail |
| `BookContract.WithAppendedPath` | app/src/main/java/com/example/android/bookstore/data/BookContract.java:36 | Appending a segment keeps scheme, authority and path and adds "/segment" to the URI's text |
| `BookContract.WithAppendedId` | app/src/main/java/com/example/android/bookstore/data/BookProvider.java:181 | The appended segment is non-empty decimal digits that parse back to the id |
| `BookContract.ItemUri` | app/src/main/java/com/example/android/bookstore/MainActivity.java:72 | An item URI has the provider's authority, path `books/<digits>`, and its digits give back the id |
| `BookContract.ContentUriText` | app/src/main/java/com/example/android/bookstore/data/BookContract.java:17-36 | `CONTENT_URI` is `content://com.example.android.books/books` |
| `BookContract.ContentUriSpelling` | app/src/main/java/com/example/android/bookstore/data/BookContract.java:17-36 | The scheme, authority and path of `CONTENT_URI` joined give the literal `content://com.example.android.books/books` |
| `BookContract.ItemUriText` | app/src/main/java/com/example/android/bookstore/data/BookProvider.java:181 | An item URI is `CONTENT_URI` followed by "/" and the id's decimal digits |
| `BookContract.ItemUriInjective` | app/src/main/java/com/example/android/bookstore/data/BookProvider.java:181 | Distinct ids give distinct item URIs |
| `BookContract.MimeTypesShareSuffix` | app/src/main/java/com/example/android/bookstore/data/BookContract.java:41-48 | Both MIME types end in `/com.example.android.books/books` after the dir and item base types, and they differ |
| `BookContract.TableNameIsPath` | app/src/main/java/com/example/android/bookstore/data/BookContract.java:51 | The table name equals the URI path `books` |
| `BookContract.ColumnNamesDistinct` | app/src/main/java/com/example/android/bookstore/data/BookContract.java:53-63 | The six column names are pairwise distinct |
| `BookTable.Size` | app/src/main/java/com/example/android/bookstore/data/BookProvider.java:275 | `size()` is 0 exactly for the empty value set and at most 5 |
| `BookTable.ApplyValues` | app/src/main/java/com/example/android/bookstore/data/BookProvider.java:281 | An SQL update of a row: present keys take their value (or NULL), absent keys keep the old column |
| `BookTable.RowFromValues` | app/src/main/java/com/example/android/bookstore/data/BookProvider.java:168 | The inserted row holds the given columns; a missing or null supplier column is stored as NULL |
| `BookTable.Selected` | app/src/main/java/com/example/android/bookstore/data/BookProvider.java:199 | The ids a selection picks are exactly the existing rows it holds for |
| `BookTable.Restrict` | app/src/main/java/com/example/android/bookstore/data/BookProvider.java:79-88 | A query returns exactly the selected existing rows, unchanged |
| `BookTable.UpdateRows` | app/src/main/java/com/example/android/bookstore/data/BookProvider.java:281 | Same ids; selected rows take the values, all others are untouched |
| `BookTable.DeleteRows` | app/src/main/java/com/example/android/bookstore/data/BookProvider.java:199-205 | Exactly the selected ids disappear, the rest are untouched, and the size drops by their number |
| `BookTable.NoValuesLeaveRow` | app/src/main/java/com/example/android/bookstore/data/BookProvider.java:275-277 | An empty value set leaves a row as it was |
| `BookTable.QuantityOnlyUpdate` | app/src/main/java/com/example/android/bookstore/data/BookProvider.java:281 | Values holding only a quantity change only the quantity |
| `BookDbHelper.ColumnTexts` | app/src/main/java/com/example/android/bookstore/data/BookDbHelper.java:37-43 | Each column definition renders as the fragment `onCreate` writes for it |
| `BookDbHelper.KeyColumnText` | app/src/main/java/com/example/android/bookstore/data/BookDbHelper.java:38 | The key column renders as `INTEGER PRIMARY KEY AUTOINCREMENT` |
| `BookDbHelper.RequiredColumnText` | app/src/main/java/com/example/android/bookstore/data/BookDbHelper.java:39-41 | A required column renders as its type followed by `NOT NULL` |
| `BookDbHelper.NullableColumnText` | app/src/main/java/com/example/android/bookstore/data/BookDbHelper.java:42-43 | A nullable text column renders as plain `TEXT` |
| `BookDbHelper.SchemaColumnsAreContractColumns` | app/src/main/java/com/example/android/bookstore/data/BookDbHelper.java:37-43 | The table is `books` with the contract's six columns in order |
| `BookDbHelper.SchemaConstraints` | app/src/main/java/com/example/android/bookstore/data/BookDbHelper.java:38-43 | `_id` is the only key and the only AUTOINCREMENT column; NOT NULL holds exactly for name, price and quantity |
| `BookDbHelper.BooksFitSchema` | app/src/main/java/com/example/android/bookstore/data/BookDbHelper.java:37-43 | A stored book has one cell per column, of the column's type, and no NULL in a NOT NULL column |
| `BookDbHelper.SupplierColumnsNullable` | app/src/main/java/com/example/android/bookstore/data/BookDbHelper.java:42-43 | A book without supplier data is stored with NULL in the two nullable columns |
| `BookDbHelper.OnCreate` | app/src/main/java/com/example/android/bookstore/data/BookDbHelper.java:24-49 | A new database is named `books.db`, is at version 1, and has an empty table whose counter starts at 1 |
| `BookDbHelper.OnUpgrade` | app/src/main/java/com/example/android/bookstore/data/BookDbHelper.java:55-57 | Upgrading leaves the name, the version, the rows and the counter as they were |
| `BookProvider.Match` | app/src/main/java/com/example/android/bookstore/data/BookProvider.java:36-42 | A foreign authority never matches; BOOKS exactly for the path `books`; BOOK_ID exactly for `books` followed by one non-empty segment of digits |
| `BookProvider.MatchContentUris` | app/src/main/java/com/example/android/bookstore/data/BookProvider.java:36-42 | `CONTENT_URI` matches BOOKS; `CONTENT_URI/<id>` matches BOOK_ID with the same id |
| `BookProvider.MatchIgnoresScheme` | app/src/main/java/com/example/android/bookstore/data/BookProvider.java:36-42 | Matching depends only on authority and path |
| `BookProvider.MatchBooksExactly` | app/src/main/java/com/example/android/bookstore/data/BookProvider.java:40 | BOOKS matches exactly the URIs equal to `CONTENT_URI` up to scheme |
| `BookProvider.GetType` | app/src/main/java/com/example/android/bookstore/data/BookProvider.java:108-118 | A type is returned exactly for matching URIs; otherwise IllegalStateException |
| `BookProvider.GetTypeOfContentUris` | app/src/main/java/com/example/android/bookstore/data/BookProvider.java:110-114 | The collection URI has the list type and an item URI the item type |
| `BookProvider.ValidateInsert` | app/src/main/java/com/example/android/bookstore/data/BookProvider.java:144-165 | Accepted exactly when name, price and quantity are present, not null, the name non-empty and the numbers not negative; accepted values build a well-formed row |
| `BookProvider.ValidateUpdate` | app/src/main/java/com/example/android/bookstore/data/BookProvider.java:251-272 | Accepts exactly when each present key passes its check: a non-null name, a non-negative price, a non-negative quantity. Accepted values never null a required column and keep every well-formed row well-formed |
| `BookProvider.InsertCheckOrder` | app/src/main/java/com/example/android/bookstore/data/BookProvider.java:144-165 | Insert rejects the name first, then the price, then the quantity |
| `BookProvider.InsertAcceptsZeroAndAnySupplier` | app/src/main/java/com/example/android/bookstore/data/BookProvider.java:152-165 | Price 0 and quantity 0 pass; supplier columns are not checked |
| `BookProvider.InsertChecksImplyUpdateChecks` | app/src/main/java/com/example/android/bookstore/data/BookProvider.java:251-272 | Values that pass insert also pass update |
| `BookProvider.UpdateChecksOnlyPresentKeys` | app/src/main/java/com/example/android/bookstore/data/BookProvider.java:251-272 | An absent key is never checked: the empty value set passes, values that pass still pass with any key dropped, and values holding only a quantity are judged on that quantity alone |
| `BookProvider.EffectiveSelection` | app/src/main/java/com/example/android/bookstore/data/BookProvider.java:231-235 | The selection an operation applies: for an item URI, `_id=<id>` in place of the caller's; any other match keeps the caller's selection; what that selects is `BookProvider.ItemSelection` |
| `BookProvider.ItemSelection` | app/src/main/java/com/example/android/bookstore/data/BookProvider.java:201-205 | An item URI selects its row if it exists and nothing otherwise, whatever selection the caller passed |
| `BookProvider.InsertBookOp` | app/src/main/java/com/example/android/bookstore/data/BookProvider.java:141-182 | A URI is returned exactly when validation passes and the store succeeds; otherwise nothing changes and nothing is notified; the table invariant is kept |
| `BookProvider.InsertOp` | app/src/main/java/com/example/android/bookstore/data/BookProvider.java:125-133 | Any failed insert changes nothing; the invariant is kept; the counter never decreases |
| `BookProvider.InsertRejectsItemUri` | app/src/main/java/com/example/android/bookstore/data/BookProvider.java:126-131 | Insert on an item URI throws "Insertion is not supported" and changes nothing |
| `BookProvider.InsertRejectsInvalid` | app/src/main/java/com/example/android/bookstore/data/BookProvider.java:144-165 | Invalid values throw that check's exception and leave the table alone |
| `BookProvider.InsertStorageFailure` | app/src/main/java/com/example/android/bookstore/data/BookProvider.java:167-173 | A failed store returns null with no change and no notification |
| `BookProvider.InsertThenQuery` | app/src/main/java/com/example/android/bookstore/data/BookProvider.java:167-181 | A valid insert adds one row under a never-used id, notifies `CONTENT_URI`, returns that item's URI, and a query on it returns exactly the inserted row |
| `BookProvider.InsertedRowHoldsValues` | app/src/main/java/com/example/android/bookstore/data/BookProvider.java:168 | The stored row holds the given name, price and quantity |
| `BookProvider.UpdateBookOp` | app/src/main/java/com/example/android/bookstore/data/BookProvider.java:247-291 | Ids and counter are unchanged; a failure changes nothing; a notification is sent exactly when the count is non-zero; the invariant is kept |
| `BookProvider.UpdateOp` | app/src/main/java/com/example/android/bookstore/data/BookProvider.java:225-240 | The same guarantees through the URI dispatch |
| `BookProvider.UpdateCollection` | app/src/main/java/com/example/android/bookstore/data/BookProvider.java:229-230 | Updating the collection updates exactly the selected rows and returns their number |
| `BookProvider.UpdateItem` | app/src/main/java/com/example/android/bookstore/data/BookProvider.java:231-236 | Updating an item changes only that row and returns 1 (or 0 with no change if the row does not exist) |
| `BookProvider.UpdateQuantityOnly` | app/src/main/java/com/example/android/bookstore/data/BookProvider.java:231-236 | A quantity-only update of an item changes only its quantity |
| `BookProvider.UpdateWithNoValues` | app/src/main/java/com/example/android/bookstore/data/BookProvider.java:275-277 | Empty values return 0 with no change and no notification |
| `BookProvider.UpdateRejectsInvalid` | app/src/main/java/com/example/android/bookstore/data/BookProvider.java:251-272 | A present key failing its check throws before the table is touched |
| `BookProvider.DeleteOp` | app/src/main/java/com/example/android/bookstore/data/BookProvider.java:188-218 | A result exactly for matching URIs (otherwise IllegalArgumentException, table unchanged). On the collection URI it removes exactly the rows the selection selects; on an item URI it removes exactly that id. Survivors are unchanged, the count is how many rows went, it notifies exactly when the count is non-zero, and it keeps the invariant |
| `BookProvider.DeleteCollection` | app/src/main/java/com/example/android/bookstore/data/BookProvider.java:196-217 | Delete on `CONTENT_URI` returns the number of selected rows, removes exactly those, and notifies `CONTENT_URI` exactly when that number is non-zero |
| `BookProvider.DeleteItem` | app/src/main/java/com/example/android/bookstore/data/BookProvider.java:201-206 | Deleting an existing item removes just it, returns 1, and a later query finds nothing; a missing item returns 0 and changes nothing |
| `BookProvider.DeleteSelectedOp` | app/src/main/java/com/example/android/bookstore/data/BookProvider.java:196-217 | The SQL `DELETE` removes exactly the rows the selection selects and leaves the others unchanged. The count is how many went, and a notification is sent exactly when it is non-zero. The counter and the invariant are kept |
| `BookProvider.DeleteAllRows` | app/src/main/java/com/example/android/bookstore/data/BookProvider.java:197-199 | Deleting the collection with no selection empties the table and returns its former size |
| `BookProvider.QueryOp` | app/src/main/java/com/example/android/bookstore/data/BookProvider.java:64-101 | A result exactly for matching URIs (otherwise IllegalArgumentException). On the collection URI it returns exactly the rows the selection selects; on an item URI it returns that one row if it exists and nothing otherwise. Rows come back unchanged |
| `BookProvider.UnknownUriRejected` | app/src/main/java/com/example/android/bookstore/data/BookProvider.java:207-208 | A non-matching URI makes query, getType, insert, update and delete throw, each with its own exception, and changes nothing |
| `BookProvider.RunPreservesInvariant` | app/src/main/java/com/example/android/bookstore/data/BookProvider.java:141-182 | Any sequence of calls keeps the table invariant and never lowers the counter |
| `BookProvider.RemovedIdStaysRemoved` | app/src/main/java/com/example/android/bookstore/data/BookDbHelper.java:38 | An id below the counter that is not in the table never reappears |
| `BookProvider.DeletedIdNeverReused` | app/src/main/java/com/example/android/bookstore/data/BookDbHelper.java:38 | A deleted book's id is never reused by any later calls |
| `BookProvider.Store.constructor` | app/src/main/java/com/example/android/bookstore/data/BookProvider.java:53-56 | A new store holds the table the database helper's `onCreate` creates (no rows, counter 1), and nothing has been notified |
| `BookProvider.Store.Query` | app/src/main/java/com/example/android/bookstore/data/BookProvider.java:64-101 | Returns what `QueryOp` specifies for the current table |
| `BookProvider.Store.Insert` | app/src/main/java/com/example/android/bookstore/data/BookProvider.java:125-133 | The new table, result and notifications are those of `InsertOp`; the invariant is kept |
| `BookProvider.Store.InsertBook` | app/src/main/java/com/example/android/bookstore/data/BookProvider.java:141-182 | The new table, result and notifications are those of `InsertBookOp` |
| `BookProvider.Store.Update` | app/src/main/java/com/example/android/bookstore/data/BookProvider.java:225-240 | The new table, result and notifications are those of `UpdateOp` |
| `BookProvider.Store.UpdateBook` | app/src/main/java/com/example/android/bookstore/data/BookProvider.java:247-291 | The new table, result and notifications are those of `UpdateBookOp` |
| `BookProvider.Store.Delete` | app/src/main/java/com/example/android/bookstore/data/BookProvider.java:188-218 | Routes as `DeleteOp` does (the caller's selection, `_id=<id>`, or IllegalArgumentException), and the new table, result and notifications are those of `DeleteOp` |
| `BookProvider.Store.DeleteSelected` | app/src/main/java/com/example/android/bookstore/data/BookProvider.java:196-217 | The new table, result and notifications are those of `DeleteSelectedOp` |
| `EditorActivity.StepDown` | app/src/main/java/com/example/android/bookstore/EditorActivity.java:159-165 | No step exactly at 0. Otherwise the result is one less, wrapping from the smallest `int` to the largest |
| `EditorActivity.StepUp` | app/src/main/java/com/example/android/bookstore/EditorActivity.java:173-174 | Exactly one more, wrapping from the largest int to the smallest |
| `EditorActivity.StepDownStaysNonNegative` | app/src/main/java/com/example/android/bookstore/EditorActivity.java:156-167 | "-" never takes a non-negative quantity below 0 |
| `EditorActivity.TapsStayInRange` | app/src/main/java/com/example/android/bookstore/EditorActivity.java:156-176 | Any tap sequence from a quantity of at least 0 stays between 0 and the start plus the number of taps, provided that sum does not pass the largest `int` |
| `EditorActivity.MissingFieldsExactly` | app/src/main/java/com/example/android/bookstore/EditorActivity.java:258-266 | Save stops exactly when the trimmed name, price text, supplier text or phone text is empty; values are sent exactly when those are present and the numbers parse |
| `EditorActivity.NothingEnteredUnreachable` | app/src/main/java/com/example/android/bookstore/EditorActivity.java:276-283 | The "all fields empty" return never fires |
| `EditorActivity.PlanSave` | app/src/main/java/com/example/android/bookstore/EditorActivity.java:249-290 | saveBook's decision never ends at the "all fields empty" return; when it sends values they hold all five keys, a non-empty name and a supplier name and phone number |
| `EditorActivity.SentValues` | app/src/main/java/com/example/android/bookstore/EditorActivity.java:285-290 | All five keys are sent: trimmed name, supplier and phone, parsed price, and parsed quantity or 0 for empty text |
| `EditorActivity.BlankSupplierSentEmpty` | app/src/main/java/com/example/android/bookstore/EditorActivity.java:251-260 | A blank supplier passes the check and is stored as "" |
| `EditorActivity.SentValuesPassInsertIff` | app/src/main/java/com/example/android/bookstore/EditorActivity.java:267-290 | What Save sends passes insert validation exactly when price and quantity are not negative |
| `EditorActivity.SaveEditUpdatesOneRow` | app/src/main/java/com/example/android/bookstore/EditorActivity.java:306-319 | Saving an edit through its item URI changes only that book and reports one row exactly when the book still exists |
| `EditorActivity.Editor.constructor` | app/src/main/java/com/example/android/bookstore/EditorActivity.java:126-134 | A new book shows quantity "0"; both flags start false |
| `EditorActivity.Editor.Touch` | app/src/main/java/com/example/android/bookstore/EditorActivity.java:91-98 | A touch sets `mBookHasChanged` and changes nothing else |
| `EditorActivity.Editor.EnterText` | app/src/main/java/com/example/android/bookstore/EditorActivity.java:112-116 | Typing changes one field's text and no flag |
| `EditorActivity.Editor.DecreaseQuantity` | app/src/main/java/com/example/android/bookstore/EditorActivity.java:156-167 | An unparsable text or 0 leaves the text; otherwise the text becomes `String.valueOf` of the stepped-down value (`IntText`), which reads back as that value, q-1 >= 0 for q > 0 |
| `EditorActivity.Editor.IncreaseQuantity` | app/src/main/java/com/example/android/bookstore/EditorActivity.java:172-176 | An unparsable text is left; otherwise the text becomes `String.valueOf` of q+1 wrapping at the int limit (`IntText`), which reads back as that value |
| `EditorActivity.Editor.SaveBook` | app/src/main/java/com/example/android/bookstore/EditorActivity.java:249-320 | No call unless values are sent; new book: the store changes as `InsertOp` on `CONTENT_URI` and `wasSaved` becomes true exactly if a URI came back; edit: as `UpdateOp` on the book URI with no selection, and `wasSaved` becomes true exactly if `update` reports a non-zero count, which counts the rows matched whether or not their values changed; never reset |
| `EditorActivity.Editor.OnSaveSelected` | app/src/main/java/com/example/android/bookstore/EditorActivity.java:392-399 | Save then close: the store, the result and `wasSaved` are exactly as for `saveBook` (insert or update per the save plan, or no call). The screen closes exactly when `wasSaved` is true. The text fields and `mBookHasChanged` are left as they were |
| `EditorActivity.Editor.DeleteBook` | app/src/main/java/com/example/android/bookstore/EditorActivity.java:351-366 | Delete is called only with a book URI, as `DeleteOp` with no selection; the screen then closes unless the provider threw |
| `EditorActivity.Editor.OnBackPressed` | app/src/main/java/com/example/android/bookstore/EditorActivity.java:223-244 | Leaves at once exactly when nothing was touched; otherwise asks and stays. The text fields and both flags are left as they were |
| `EditorActivity.Editor.OnUpSelected` | app/src/main/java/com/example/android/bookstore/EditorActivity.java:406-428 | Navigates up at once exactly when nothing was touched; otherwise asks and stays. The text fields and both flags are left as they were |
| `EditorActivity.Editor.ConfirmDiscard` | app/src/main/java/com/example/android/bookstore/EditorActivity.java:233-241 | "Discard" closes the screen without saving, leaving the text fields and both flags as they were |
| `MainActivity.CopyColumn` | app/src/main/java/com/example/android/bookstore/MainActivity.java:131-132 | A column read from the cursor is always put back: as null exactly when it was NULL, otherwise as the value read |
| `MainActivity.SaleValues` | app/src/main/java/com/example/android/bookstore/MainActivity.java:127-132 | Sale sends all five columns |
| `MainActivity.SaleValuesChangeOnlyQuantity` | app/src/main/java/com/example/android/bookstore/MainActivity.java:108-134 | Writing a row's sale values onto that row lowers its quantity by one and changes nothing else; they pass update validation for a stocked row |
| `MainActivity.SalePlan` | app/src/main/java/com/example/android/bookstore/MainActivity.java:95 | As written: the update targets `CONTENT_URI/(position+1)` |
| `MainActivity.CorrectedSalePlan` | app/src/main/java/com/example/android/bookstore/MainActivity.java:95 | Corrected: the update targets the row's own `_id` |
| `MainActivity.SaleNeverSendsNegative` | app/src/main/java/com/example/android/bookstore/MainActivity.java:119-130 | No update exactly at quantity 0; otherwise quantity-1, never negative |
| `MainActivity.SalePlansAgreeOnDenseIds` | app/src/main/java/com/example/android/bookstore/MainActivity.java:95 | When the list shows ids 1, 2, 3, ... in order, both targets agree |
| `MainActivity.SaleOverwritesAnotherBook` | app/src/main/java/com/example/android/bookstore/MainActivity.java:95 | Counterexample: with ids 2 and 3 listed, selling position 1 overwrites book 2 with book 3's data |
| `MainActivity.CorrectedSaleSellsShownBook` | app/src/main/java/com/example/android/bookstore/MainActivity.java:95-134 | The corrected Sale lowers exactly the shown book's quantity by one, returns 1 and notifies that item |
| `MainActivity.SeedValues` | app/src/main/java/com/example/android/bookstore/MainActivity.java:169-176 | Each dummy book sends all five columns |
| `MainActivity.SeedValuesValid` | app/src/main/java/com/example/android/bookstore/MainActivity.java:161-165 | There are four dummy books and each passes insert validation |
| `MainActivity.Stored` | app/src/main/java/com/example/android/bookstore/MainActivity.java:178 | A count of the inserts the store accepted, at most one per insert; that it is exactly the number of non-failing inserts is `MainActivity.StoredCountsSuccesses` |
| `MainActivity.StoredCountsSuccesses` | app/src/main/java/com/example/android/bookstore/MainActivity.java:168-179 | The stored rows are exactly the inserts whose store did not fail |
| `MainActivity.SeedStep` | app/src/main/java/com/example/android/bookstore/MainActivity.java:169-178 | One dummy-book insert adds a fresh row and one `CONTENT_URI` notification exactly when the store did not fail, keeps every existing row, and keeps the invariant |
| `MainActivity.Seeded` | app/src/main/java/com/example/android/bookstore/MainActivity.java:168-179 | The table after the first inserts of insertData: the next id never goes back; what it holds is stated by the seeding lemmas below |
| `MainActivity.SeededPrefix` | app/src/main/java/com/example/android/bookstore/MainActivity.java:168-179 | Seeding one more book extends the previous table and notifications by exactly that book's insert |
| `MainActivity.SeedingKeepsRows` | app/src/main/java/com/example/android/bookstore/MainActivity.java:168-179 | Seeding keeps existing rows unchanged, adds one row per accepted insert, and keeps the invariant |
| `MainActivity.SeedingNotifiesStoredRows` | app/src/main/java/com/example/android/bookstore/MainActivity.java:168-179 | Seeding notifies `CONTENT_URI` once per accepted insert and nothing else |
| `MainActivity.SeedingAddsStoredRows` | app/src/main/java/com/example/android/bookstore/MainActivity.java:168-179 | Seeding keeps existing rows, adds one row and one `CONTENT_URI` notification per accepted insert, and keeps the invariant |
| `MainActivity.SeedingAddsFour` | app/src/main/java/com/example/android/bookstore/MainActivity.java:168-179 | With no store failure, exactly four rows and four notifications are added |
| `MainActivity.ListScreen.constructor` | app/src/main/java/com/example/android/bookstore/MainActivity.java:64 | The list starts with no cursor rows |
| `MainActivity.ListScreen.OnLoadFinished` | app/src/main/java/com/example/android/bookstore/MainActivity.java:226-231 | The new cursor is swapped in |
| `MainActivity.ListScreen.PerformSale` | app/src/main/java/com/example/android/bookstore/MainActivity.java:134 | At most one update, as `UpdateOp` with no selection |
| `MainActivity.ListScreen.Decrement` | app/src/main/java/com/example/android/bookstore/MainActivity.java:88-145 | The store changes exactly as `UpdateOp` on the as-written target, or not at all |
| `MainActivity.ListScreen.DecrementCorrected` | app/src/main/java/com/example/android/bookstore/MainActivity.java:95-134 | The store changes exactly as `UpdateOp` on the row's own item URI, or not at all |
| `MainActivity.ListScreen.InsertData` | app/src/main/java/com/example/android/bookstore/MainActivity.java:158-180 | Four inserts to `CONTENT_URI` in order: the store ends as `Seeded` says |
| `MainActivity.ListScreen.DeleteAllEntries` | app/src/main/java/com/example/android/bookstore/MainActivity.java:191-194 | Every row is removed, the count is the old size, and `CONTENT_URI` is notified if it was non-zero |

## Left out

- The SQLite engine is replaced by a map from `_id` to row plus the `AUTOINCREMENT` counter. `getReadableDatabase`, `getWritableDatabase` and `execSQL` are not modelled. A store failure (`insert` returning -1) is a boolean parameter.
- SQL selection strings and their arguments are an abstract predicate on rows (`Selection.Where`).
- Projection and sort order of queries are not modelled. A query returns a map, so row order is not captured.
- `Cursor.setNotificationUri` and the delivery of notifications are not modelled. The store keeps the list of notified URIs, in order.
- Floating point: prices are exact reals. `float` rounding, NaN, the `(float)` cast in the seeding loop and `Float.parseFloat` are not modelled. The editor receives the parse as a function parameter, with None standing for a NumberFormatException.
- `ContentValues` coercion (`getAsString`, `getAsFloat`, `getAsInteger` on values of another type) is not modelled. Each column is absent, null or a value of its own type. An explicit `_id` in the values is not modelled.
- `Uri` parsing and encoding (queries, fragments, percent-escapes) are not modelled. A URI is scheme, authority and decoded path segments. Ids are unbounded; the 64-bit `long` limit is not modelled.
- `Integer.valueOf` accepts only ASCII digits here; Java also takes other Unicode digits.
- `cursor.getInt`'s 32-bit truncation of the stored quantity is not modelled.
- The Android UI is not modelled: toasts, dialogs, menus, titles, intents, `contactSupplier`, `onCreateOptionsMenu`, `onPrepareOptionsMenu`, `NavUtils`.
- Dialogs: showing a dialog is the `AskToDiscard` result. The "Discard" choice is `Editor.ConfirmDiscard`, and the delete confirmation is the call of `Editor.DeleteBook`.
- The editor's and the list's loaders (`onCreateLoader`, `onLoadFinished` filling the editor's fields, `onLoaderReset`) are not modelled. The list's cursor is set by `ListScreen.OnLoadFinished` with the rows given, and the editor's texts by `Editor.EnterText`.
- A null `mCursor` before the first load is not modelled; the list starts with an empty cursor.
- BookCursorAdapter and logging are not modelled.
- An exception thrown out of an Activity (an app crash) is a returned `Err` or `Unparsable`/`NotANumber` outcome that leaves state unchanged from the point of the throw.

## Findings

| source | as written | input that shows it | evidently intended | confidence | as-written member | corrected member |
|---|---|---|---|---|---|---|
| app/src/main/java/com/example/android/bookstore/MainActivity.java:95 | Sale updates `CONTENT_URI/(position+1)`, with the values read from the cursor row at `position` | Books with `_id` 2 and 3 (book 1 deleted) listed in that order; Sale on position 1 updates book 2 with book 3's name, price, supplier and quantity-1, and book 3 keeps its stock | Update the item URI of the row's own `_id`, as the list's item click does at line 72 | high; proved, not executed | `MainActivity.SaleOverwritesAnotherBook` | `MainActivity.CorrectedSaleSellsShownBook` |
