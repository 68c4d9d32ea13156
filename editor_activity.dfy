/**
 * EditorActivity: the add/edit screen. Its text fields, the wasSaved and
 * mBookHasChanged flags and whether the screen has closed are the state of
 * an Editor; the quantity stepper, Save, Delete, Back and Up act on that
 * state, and every provider call goes through the Store.
 */
module EditorActivity {
  import opened Wrappers
  import opened Strings
  import opened BookContract
  import opened BookTable
  import opened BookProvider

  // ------------------------------------------------------- quantity stepper

  /**
   * The "-" button on an int: at 0 nothing happens, otherwise Java's
   * quantity--, which wraps from the smallest int to the largest.
   */
  function StepDown(q: int): (r: Option<int>)
    ensures q == 0 <==> r == None
    ensures r.Some? ==> IsInt32(r.value)
    ensures Int32Min < q <= Int32Max && q != 0 ==> r == Some(q - 1)
    ensures q == Int32Min ==> r == Some(Int32Max)
  {
    if q == 0 then None else Some(Wrap32(q - 1))
  }

  /** The "+" button on an int: Java's quantity++, which wraps from the largest int to the smallest. */
  function StepUp(q: int): (r: int)
    ensures IsInt32(r)
    ensures Int32Min <= q < Int32Max ==> r == q + 1
    ensures q == Int32Max ==> r == Int32Min
  {
    Wrap32(q + 1)
  }

  /** "-" never takes a non-negative quantity below 0. */
  lemma StepDownStaysNonNegative(q: int)
    requires 0 <= q <= Int32Max
    ensures StepDown(q).Some? ==> StepDown(q).value >= 0
    ensures StepDown(q) == None ==> q == 0
  {
  }

  datatype Tap = Minus | Plus

  /** The quantity after the user presses the buttons in the given order. */
  function AfterTaps(q: int, taps: seq<Tap>): int
    decreases |taps|
  {
    if taps == [] then q
    else
      var next := match taps[0]
        case Minus => StepDown(q).GetOr(q)
        case Plus => StepUp(q);
      AfterTaps(next, taps[1..])
  }

  /**
   * Starting from a quantity of at least 0, any sequence of taps that cannot
   * reach the int limit keeps the quantity between 0 and the start plus the
   * number of taps.
   */
  lemma {:induction false} TapsStayInRange(q: int, taps: seq<Tap>)
    requires 0 <= q && q + |taps| <= Int32Max
    ensures 0 <= AfterTaps(q, taps) <= q + |taps|
    decreases |taps|
  {
    if taps != [] {
      var next := match taps[0]
        case Minus => StepDown(q).GetOr(q)
        case Plus => StepUp(q);
      assert 0 <= next <= q + 1;
      TapsStayInRange(next, taps[1..]);
    }
  }

  // ------------------------------------------------------------ saveBook

  /** What saveBook decides before it calls the provider. */
  datatype SavePlan =
    | MissingFields        // a required field is empty: toast and return
    | NotANumber           // Float.parseFloat or Integer.parseInt threw
    | NothingEntered       // the "all fields empty" early return
    | Send(values: Values) // the values passed to insert or update

  /** parseFloat is Float.parseFloat: its result, or None for a NumberFormatException. */
  function PlanSave(
    isNew: bool, nameText: string, priceText: string, quantityText: string,
    supplierText: string, phoneText: string, parseFloat: string -> Option<real>): (r: SavePlan)
    ensures r != NothingEntered
    ensures r.Send? ==> Size(r.values) == 5 && r.values.productName != Value("")
    ensures r.Send? ==> r.values.supplierName.Value? && r.values.supplierPhoneNumber.Value?
  {
    var name := Trim(nameText);
    var supplier := Trim(supplierText);
    var phone := Trim(phoneText);
    if name == "" || priceText == "" || supplierText == "" || phoneText == "" then MissingFields
    else
      var price := if priceText != "" then parseFloat(Trim(priceText)) else Some(0.0);
      var quantity := if quantityText != "" then ParseInt32(Trim(quantityText)) else Some(0);
      if price.None? || quantity.None? then NotANumber
      else if isNew && name == "" && priceText == "" && quantityText == "" && supplierText == "" && phoneText == "" then
        NothingEntered
      else
        Send(Values(Value(name), Value(price.value), Value(quantity.value), Value(supplier), Value(phone)))
  }

  /**
   * No provider call is planned exactly when the trimmed name, the price
   * text, the supplier text or the phone text is empty (the last three
   * untrimmed), or a number does not parse.
   */
  lemma MissingFieldsExactly(isNew: bool, nameText: string, priceText: string, quantityText: string,
    supplierText: string, phoneText: string, parseFloat: string -> Option<real>)
    ensures PlanSave(isNew, nameText, priceText, quantityText, supplierText, phoneText, parseFloat) == MissingFields
      <==> Trim(nameText) == "" || priceText == "" || supplierText == "" || phoneText == ""
    ensures PlanSave(isNew, nameText, priceText, quantityText, supplierText, phoneText, parseFloat).Send?
      <==> (Trim(nameText) != "" && priceText != "" && supplierText != "" && phoneText != ""
        && parseFloat(Trim(priceText)).Some?
        && (quantityText == "" || ParseInt32(Trim(quantityText)).Some?))
  {
  }

  /** The "all fields empty" return cannot happen: an empty name was already turned away. */
  lemma NothingEnteredUnreachable(isNew: bool, nameText: string, priceText: string, quantityText: string,
    supplierText: string, phoneText: string, parseFloat: string -> Option<real>)
    ensures PlanSave(isNew, nameText, priceText, quantityText, supplierText, phoneText, parseFloat) != NothingEntered
  {
  }

  /**
   * The values sent: all five keys, the trimmed name, supplier and phone,
   * the parsed trimmed price, and the parsed trimmed quantity or 0 when the
   * quantity text is empty.
   */
  lemma SentValues(isNew: bool, nameText: string, priceText: string, quantityText: string,
    supplierText: string, phoneText: string, parseFloat: string -> Option<real>)
    requires PlanSave(isNew, nameText, priceText, quantityText, supplierText, phoneText, parseFloat).Send?
    ensures var v := PlanSave(isNew, nameText, priceText, quantityText, supplierText, phoneText, parseFloat).values;
      && Size(v) == 5
      && v.productName == Value(Trim(nameText)) && Trim(nameText) != ""
      && v.price == Value(parseFloat(Trim(priceText)).value)
      && v.quantity == Value(if quantityText == "" then 0 else ParseInt32(Trim(quantityText)).value)
      && v.supplierName == Value(Trim(supplierText))
      && v.supplierPhoneNumber == Value(Trim(phoneText))
  {
  }

  /** A supplier name of only spaces passes the empty check but is sent as "". */
  lemma BlankSupplierSentEmpty(nameText: string, priceText: string, quantityText: string,
    supplierText: string, phoneText: string, parseFloat: string -> Option<real>)
    requires supplierText != "" && AllTrimmable(supplierText)
    requires PlanSave(true, nameText, priceText, quantityText, supplierText, phoneText, parseFloat).Send?
    ensures PlanSave(true, nameText, priceText, quantityText, supplierText, phoneText, parseFloat).values.supplierName
      == Value("")
  {
    TrimEmptyIff(supplierText);
  }

  /** What saveBook sends passes the provider's insert checks exactly when price and quantity are not negative. */
  lemma SentValuesPassInsertIff(isNew: bool, nameText: string, priceText: string, quantityText: string,
    supplierText: string, phoneText: string, parseFloat: string -> Option<real>)
    requires PlanSave(isNew, nameText, priceText, quantityText, supplierText, phoneText, parseFloat).Send?
    ensures var v := PlanSave(isNew, nameText, priceText, quantityText, supplierText, phoneText, parseFloat).values;
      ValidateInsert(v) == None <==> v.price.value >= 0.0 && v.quantity.value >= 0
  {
  }

  /**
   * Saving an edited book through its item URI: the update touches only
   * that book, and the save counts as done (one row updated) exactly when
   * the book is still in the table.
   */
  lemma SaveEditUpdatesOneRow(t: Table, id: nat, v: Values)
    requires Size(v) == 5 && ValidateInsert(v) == None
    ensures var o := UpdateOp(t, ItemUri(id), v, AllRows);
      && (o.result == Ok(1) <==> id in t.rows)
      && (o.result.Ok? && o.result.value != 0 <==> id in t.rows)
      && (id in t.rows ==> o.table.rows == t.rows[id := ApplyValues(t.rows[id], v)])
  {
    InsertChecksImplyUpdateChecks(v);
    UpdateItem(t, id, v, AllRows);
  }

  // ------------------------------------------------------------ the screen

  /** The five text fields of the form. */
  datatype TextField = ProductName | Price | Quantity | SupplierName | SupplierPhoneNumber

  /** What a press of "-" or "+" did. */
  datatype StepOutcome =
    | Stepped       // the quantity text now shows the new value
    | AtMinimum     // quantity was 0: the minimum message, no change
    | Unparsable    // Integer.valueOf threw on the quantity text

  /** What a save did after its plan: nothing, or the provider call and its answer. */
  datatype SaveOutcome =
    | NotSent(plan: SavePlan)
    | Inserted(insertResult: Result<Option<Uri>>)
    | Updated(updateResult: Result<nat>)

  /** Back or Up: leave at once, or ask whether to discard the changes. */
  datatype Navigation = Leave | AskToDiscard

  class Editor {
    const store: Store
    /** mBookUri: None for "Add a Book", the book's URI for "Edit Book". */
    const bookUri: Option<Uri>
    var productNameText: string
    var priceText: string
    var quantityText: string
    var supplierNameText: string
    var supplierPhoneNumberText: string
    var wasSaved: bool
    var bookHasChanged: bool
    /** finish() or navigate-up has been called. */
    var finished: bool

    ghost predicate Valid()
      reads this, store
    {
      store.Valid()
    }

    /** onCreate: a new book shows a quantity of "0"; an edited one waits for its loader. */
    constructor (store: Store, bookUri: Option<Uri>)
      ensures this.store == store && this.bookUri == bookUri
      ensures quantityText == if bookUri.None? then IntText(0) else ""
      ensures productNameText == "" && priceText == "" && supplierNameText == "" && supplierPhoneNumberText == ""
      ensures !wasSaved && !bookHasChanged && !finished
    {
      this.store := store;
      this.bookUri := bookUri;
      productNameText := "";
      priceText := "";
      quantityText := if bookUri.None? then IntText(0) else "";
      supplierNameText := "";
      supplierPhoneNumberText := "";
      wasSaved := false;
      bookHasChanged := false;
      finished := false;
    }

    /** The touch listener on every field and button. */
    method Touch()
      modifies this
      ensures bookHasChanged
      ensures wasSaved == old(wasSaved) && finished == old(finished)
      ensures productNameText == old(productNameText) && priceText == old(priceText)
      ensures quantityText == old(quantityText)
      ensures supplierNameText == old(supplierNameText) && supplierPhoneNumberText == old(supplierPhoneNumberText)
    {
      bookHasChanged := true;
    }

    /** The user types into a field (the flag follows touches, not edits). */
    method EnterText(field: TextField, text: string)
      modifies this
      ensures wasSaved == old(wasSaved) && bookHasChanged == old(bookHasChanged) && finished == old(finished)
      ensures productNameText == if field == ProductName then text else old(productNameText)
      ensures priceText == if field == Price then text else old(priceText)
      ensures quantityText == if field == Quantity then text else old(quantityText)
      ensures supplierNameText == if field == SupplierName then text else old(supplierNameText)
      ensures supplierPhoneNumberText == if field == SupplierPhoneNumber then text else old(supplierPhoneNumberText)
    {
      match field {
        case ProductName => productNameText := text;
        case Price => priceText := text;
        case Quantity => quantityText := text;
        case SupplierName => supplierNameText := text;
        case SupplierPhoneNumber => supplierPhoneNumberText := text;
      }
    }

    /** decreaseQuantity: read the quantity text, stop at 0, otherwise show one less. */
    method DecreaseQuantity() returns (r: StepOutcome)
      modifies this
      ensures wasSaved == old(wasSaved) && bookHasChanged == old(bookHasChanged) && finished == old(finished)
      ensures productNameText == old(productNameText) && priceText == old(priceText)
      ensures supplierNameText == old(supplierNameText) && supplierPhoneNumberText == old(supplierPhoneNumberText)
      ensures ParseInt32(old(quantityText)).None? ==> r == Unparsable && quantityText == old(quantityText)
      ensures ParseInt32(old(quantityText)) == Some(0) ==> r == AtMinimum && quantityText == old(quantityText)
      ensures match ParseInt32(old(quantityText))
        case Some(q) => q != 0 ==>
          (r == Stepped && quantityText == IntText(StepDown(q).value) && ParseInt32(quantityText) == StepDown(q))
        case None => true
      ensures match ParseInt32(old(quantityText))
        case Some(q) => q > 0 ==> ParseInt32(quantityText) == Some(q - 1) && q - 1 >= 0
        case None => true
    {
      var parsed := ParseInt32(quantityText);
      if parsed.None? {
        return Unparsable;
      }
      var quantity := parsed.value;
      if quantity == 0 {
        return AtMinimum;
      }
      quantity := Wrap32(quantity - 1);
      quantityText := IntText(quantity);
      ParseIntOfIntText(quantity);
      r := Stepped;
    }

    /** increaseQuantity: read the quantity text and show one more (with int wrap-around). */
    method IncreaseQuantity() returns (r: StepOutcome)
      modifies this
      ensures wasSaved == old(wasSaved) && bookHasChanged == old(bookHasChanged) && finished == old(finished)
      ensures productNameText == old(productNameText) && priceText == old(priceText)
      ensures supplierNameText == old(supplierNameText) && supplierPhoneNumberText == old(supplierPhoneNumberText)
      ensures ParseInt32(old(quantityText)).None? ==> r == Unparsable && quantityText == old(quantityText)
      ensures match ParseInt32(old(quantityText))
        case Some(q) => r == Stepped && quantityText == IntText(StepUp(q))
          && ParseInt32(quantityText) == Some(StepUp(q))
        case None => true
      ensures match ParseInt32(old(quantityText))
        case Some(q) => q < Int32Max ==> ParseInt32(quantityText) == Some(q + 1)
        case None => true
    {
      var parsed := ParseInt32(quantityText);
      if parsed.None? {
        return Unparsable;
      }
      var quantity := Wrap32(parsed.value + 1);
      quantityText := IntText(quantity);
      ParseIntOfIntText(quantity);
      r := Stepped;
    }

    /**
     * saveBook: plan from the field texts; then insert into CONTENT_URI for a
     * new book or update mBookUri with no selection for an edited one.
     * wasSaved becomes true exactly when the insert returned a URI or the
     * update reported a non-zero count (the rows matched, whether or not
     * their values changed); it is never reset.
     */
    method SaveBook(parseFloat: string -> Option<real>, storageFails: bool) returns (r: SaveOutcome)
      requires Valid()
      modifies this, store
      ensures Valid()
      ensures bookHasChanged == old(bookHasChanged) && finished == old(finished)
      ensures productNameText == old(productNameText) && priceText == old(priceText) && quantityText == old(quantityText)
      ensures supplierNameText == old(supplierNameText) && supplierPhoneNumberText == old(supplierPhoneNumberText)
      ensures var plan := PlanSave(bookUri.None?, old(productNameText), old(priceText), old(quantityText),
          old(supplierNameText), old(supplierPhoneNumberText), parseFloat);
        match plan
        case Send(v) =>
          if bookUri.None? then
            var o := InsertOp(old(store.State()), ContentUri, v, storageFails);
            && r == Inserted(o.result)
            && store.State() == o.table && store.notified == old(store.notified) + o.notified
            && wasSaved == (old(wasSaved) || (o.result.Ok? && o.result.value.Some?))
          else
            var o := UpdateOp(old(store.State()), bookUri.value, v, AllRows);
            && r == Updated(o.result)
            && store.State() == o.table && store.notified == old(store.notified) + o.notified
            && wasSaved == (old(wasSaved) || (o.result.Ok? && o.result.value != 0))
        case _ =>
          && r == NotSent(plan)
          && store.State() == old(store.State()) && store.notified == old(store.notified)
          && wasSaved == old(wasSaved)
    {
      var plan := PlanSave(bookUri.None?, productNameText, priceText, quantityText,
        supplierNameText, supplierPhoneNumberText, parseFloat);
      if !plan.Send? {
        return NotSent(plan);
      }
      var values := plan.values;
      if bookUri.None? {
        var uri := store.Insert(ContentUri, values, storageFails);
        if uri.Ok? && uri.value.Some? {
          wasSaved := true;
        }
        r := Inserted(uri);
      } else {
        var rowsUpdated := store.Update(bookUri.value, values, AllRows);
        if rowsUpdated.Ok? && rowsUpdated.value != 0 {
          wasSaved := true;
        }
        r := Updated(rowsUpdated);
      }
    }

    /** The Save menu item: save, then close the screen if the book was saved. */
    method OnSaveSelected(parseFloat: string -> Option<real>, storageFails: bool) returns (r: SaveOutcome)
      requires Valid()
      modifies this, store
      ensures Valid()
      ensures finished == (old(finished) || wasSaved)
      ensures bookHasChanged == old(bookHasChanged)
      ensures productNameText == old(productNameText) && priceText == old(priceText) && quantityText == old(quantityText)
      ensures supplierNameText == old(supplierNameText) && supplierPhoneNumberText == old(supplierPhoneNumberText)
      ensures var plan := PlanSave(bookUri.None?, old(productNameText), old(priceText), old(quantityText),
          old(supplierNameText), old(supplierPhoneNumberText), parseFloat);
        match plan
        case Send(v) =>
          if bookUri.None? then
            var o := InsertOp(old(store.State()), ContentUri, v, storageFails);
            && r == Inserted(o.result)
            && store.State() == o.table && store.notified == old(store.notified) + o.notified
            && wasSaved == (old(wasSaved) || (o.result.Ok? && o.result.value.Some?))
          else
            var o := UpdateOp(old(store.State()), bookUri.value, v, AllRows);
            && r == Updated(o.result)
            && store.State() == o.table && store.notified == old(store.notified) + o.notified
            && wasSaved == (old(wasSaved) || (o.result.Ok? && o.result.value != 0))
        case _ =>
          && r == NotSent(plan)
          && store.State() == old(store.State()) && store.notified == old(store.notified)
          && wasSaved == old(wasSaved)
    {
      r := SaveBook(parseFloat, storageFails);
      if wasSaved {
        finished := true;
      }
    }

    /**
     * deleteBook: delete through mBookUri (no selection) when there is one,
     * then close the screen; an exception from the provider leaves it open.
     */
    method DeleteBook() returns (r: Option<Result<nat>>)
      requires Valid()
      modifies this, store
      ensures Valid()
      ensures wasSaved == old(wasSaved) && bookHasChanged == old(bookHasChanged)
      ensures bookUri.None? ==>
        r == None && finished && store.State() == old(store.State()) && store.notified == old(store.notified)
      ensures bookUri.Some? ==>
        var o := DeleteOp(old(store.State()), bookUri.value, AllRows);
        && r == Some(o.result)
        && store.State() == o.table && store.notified == old(store.notified) + o.notified
        && finished == (old(finished) || o.result.Ok?)
      ensures productNameText == old(productNameText) && priceText == old(priceText) && quantityText == old(quantityText)
      ensures supplierNameText == old(supplierNameText) && supplierPhoneNumberText == old(supplierPhoneNumberText)
    {
      r := None;
      if bookUri.Some? {
        var rowsAffected := store.Delete(bookUri.value, AllRows);
        r := Some(rowsAffected);
        if rowsAffected.Err? {
          return;
        }
      }
      finished := true;
    }

    /** onBackPressed: without a touch, leave; otherwise show the discard dialog. */
    method OnBackPressed() returns (r: Navigation)
      modifies this
      ensures r == Leave <==> !old(bookHasChanged)
      ensures finished == (old(finished) || r == Leave)
      ensures wasSaved == old(wasSaved) && bookHasChanged == old(bookHasChanged)
      ensures productNameText == old(productNameText) && priceText == old(priceText) && quantityText == old(quantityText)
      ensures supplierNameText == old(supplierNameText) && supplierPhoneNumberText == old(supplierPhoneNumberText)
    {
      if !bookHasChanged {
        finished := true;
        return Leave;
      }
      r := AskToDiscard;
    }

    /** The Up arrow: the same decision as Back, navigating up to the list. */
    method OnUpSelected() returns (r: Navigation)
      modifies this
      ensures r == Leave <==> !old(bookHasChanged)
      ensures finished == (old(finished) || r == Leave)
      ensures wasSaved == old(wasSaved) && bookHasChanged == old(bookHasChanged)
      ensures productNameText == old(productNameText) && priceText == old(priceText) && quantityText == old(quantityText)
      ensures supplierNameText == old(supplierNameText) && supplierPhoneNumberText == old(supplierPhoneNumberText)
    {
      if !bookHasChanged {
        finished := true;
        return Leave;
      }
      r := AskToDiscard;
    }

    /** "Discard" in the unsaved-changes dialog: leave without saving. */
    method ConfirmDiscard()
      modifies this
      ensures finished
      ensures wasSaved == old(wasSaved) && bookHasChanged == old(bookHasChanged)
      ensures productNameText == old(productNameText) && priceText == old(priceText) && quantityText == old(quantityText)
      ensures supplierNameText == old(supplierNameText) && supplierPhoneNumberText == old(supplierPhoneNumberText)
    {
      finished := true;
    }
  }
}
