/**
 * BookContract: the authority, paths, URIs, MIME types, table name and
 * column names shared by the provider, the database helper and the screens.
 */
module BookContract {
  import opened Strings

  /**
   * An android.net.Uri reduced to what the bookstore uses: scheme,
   * authority and decoded path segments.
   */
  datatype Uri = Uri(scheme: string, authority: string, path: seq<string>)

  /** The text form of a hierarchical URI: scheme://authority/segment/segment. */
  function UriString(u: Uri): string {
    u.scheme + "://" + u.authority + PathString(u.path)
  }

  function PathString(path: seq<string>): string {
    if path == [] then "" else PathString(path[..|path| - 1]) + "/" + path[|path| - 1]
  }

  /** Uri.withAppendedPath: one more path segment. */
  function WithAppendedPath(u: Uri, segment: string): (r: Uri)
    ensures r.scheme == u.scheme && r.authority == u.authority
    ensures |r.path| == |u.path| + 1 && r.path[..|u.path|] == u.path && r.path[|u.path|] == segment
    ensures UriString(r) == UriString(u) + "/" + segment
  {
    var r := u.(path := u.path + [segment]);
    assert r.path[..|r.path| - 1] == u.path;
    assert PathString(r.path) == PathString(u.path) + "/" + segment;
    r
  }

  /** ContentUris.withAppendedId: append the id's decimal spelling; ContentUris.parseId reads it back. */
  function WithAppendedId(u: Uri, id: nat): (r: Uri)
    ensures r.scheme == u.scheme && r.authority == u.authority
    ensures |r.path| == |u.path| + 1 && r.path[..|u.path|] == u.path
    ensures r.path[|u.path|] != "" && IsDigits(r.path[|u.path|]) && ParseDecimal(r.path[|u.path|]) == id
  {
    ParseDecimalOfDecimal(id);
    WithAppendedPath(u, Decimal(id))
  }

  /** The scheme prefix Uri.parse splits off. */
  const ContentScheme: string := "content"

  /** The content authority that identifies the provider. */
  const ContentAuthority: string := "com.example.android.books"

  /** Uri.parse("content://" + CONTENT_AUTHORITY). */
  const BaseContentUri: Uri := Uri(ContentScheme, ContentAuthority, [])

  /** The path of the books table, appended to the base URI. */
  const PathBooks: string := "books"

  /** BookEntry.CONTENT_URI: the collection of all books. */
  const ContentUri: Uri := WithAppendedPath(BaseContentUri, PathBooks)

  /** The item URI of the book with the given id. */
  function ItemUri(id: nat): (r: Uri)
    ensures r.authority == ContentAuthority && |r.path| == 2 && r.path[0] == PathBooks
    ensures IsDigits(r.path[1]) && r.path[1] != "" && ParseDecimal(r.path[1]) == id
  {
    WithAppendedId(ContentUri, id)
  }

  /** ContentResolver.CURSOR_DIR_BASE_TYPE and CURSOR_ITEM_BASE_TYPE (framework constants). */
  const CursorDirBaseType: string := "vnd.android.cursor.dir"
  const CursorItemBaseType: string := "vnd.android.cursor.item"

  /** The MIME type of the collection URI. */
  const ContentListType: string := CursorDirBaseType + "/" + ContentAuthority + "/" + PathBooks

  /** The MIME type of an item URI. */
  const ContentItemType: string := CursorItemBaseType + "/" + ContentAuthority + "/" + PathBooks

  /** Table and column names. */
  const TableName: string := "books"
  const ColumnId: string := "_id"
  const ColumnProductName: string := "product_name"
  const ColumnPrice: string := "price"
  const ColumnQuantity: string := "quantity"
  const ColumnSupplierName: string := "supplier_name"
  const ColumnSupplierPhoneNumber: string := "supplier_phone_number"

  /** The six columns of BookEntry, in declaration order. */
  const Columns: seq<string> :=
    [ColumnId, ColumnProductName, ColumnPrice, ColumnQuantity, ColumnSupplierName, ColumnSupplierPhoneNumber]

  /** CONTENT_URI spelled out is content://com.example.android.books/books. */
  lemma ContentUriText()
    ensures UriString(ContentUri) == "content://" + ContentAuthority + "/" + PathBooks
    ensures UriString(ContentUri) == "content://com.example.android.books/books"
  {
    assert ContentUri.path == [PathBooks];
    assert PathString([PathBooks]) == "/" + PathBooks by {
      assert [PathBooks][..0] == [];
    }
    ContentUriSpelling();
  }

  /** The pieces of CONTENT_URI joined into one literal. */
  lemma ContentUriSpelling()
    ensures ContentScheme + "://" + ContentAuthority + "/" + PathBooks == "content://com.example.android.books/books"
  {
    assert ContentScheme + "://" == "content://";
    assert "content://" + ContentAuthority == "content://com.example.android.books";
    assert "content://com.example.android.books" + "/" == "content://com.example.android.books/";
    assert "content://com.example.android.books/" + PathBooks == "content://com.example.android.books/books";
  }

  /** An item URI is the collection URI with "/<id>" appended. */
  lemma ItemUriText(id: nat)
    ensures UriString(ItemUri(id)) == "content://com.example.android.books/books/" + Decimal(id)
  {
    ContentUriText();
  }

  /** Distinct ids give distinct item URIs. */
  lemma ItemUriInjective(m: nat, n: nat)
    requires ItemUri(m) == ItemUri(n)
    ensures m == n
  {
    assert ItemUri(m).path[1] == ItemUri(n).path[1];
  }

  /** The two MIME types share the suffix /<authority>/books and differ only in their base type. */
  lemma MimeTypesShareSuffix()
    ensures var suffix := "/com.example.android.books/books";
      ContentListType == "vnd.android.cursor.dir" + suffix && ContentItemType == "vnd.android.cursor.item" + suffix
    ensures ContentListType != ContentItemType
  {
    var suffix := "/com.example.android.books/books";
    assert "/" + ContentAuthority + "/" + PathBooks == suffix;
    assert ContentListType == CursorDirBaseType + ("/" + ContentAuthority + "/" + PathBooks);
    assert ContentItemType == CursorItemBaseType + ("/" + ContentAuthority + "/" + PathBooks);
    assert ContentListType[20] != ContentItemType[20];
  }

  /** The table is named like the URI path. */
  lemma TableNameIsPath()
    ensures TableName == PathBooks
  {
  }

  /** The six column names are pairwise distinct. */
  lemma ColumnNamesDistinct()
    ensures |Columns| == 6
    ensures forall i, j :: 0 <= i < j < |Columns| ==> Columns[i] != Columns[j]
  {
    // The six names already differ in length.
    forall i, j | 0 <= i < j < |Columns| ensures Columns[i] != Columns[j] {
      assert |Columns[i]| != |Columns[j]|;
    }
  }
}
