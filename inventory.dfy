/**
 * The catalog editor (the inventory page): the form validator, the input guards, and what
 * add, update, delete and "add coffee type" write to the store.
 */
module InventoryEditor {
  import opened Wrappers
  import opened Seqs
  import opened DotNetText
  import opened Database

  /**
   * The editor's form: the Id, CoffeeName, Amount, PricePerKg and Description text boxes, and
   * the CoffeeTypeID of the type picked in the CoffeeType combo box (None when nothing is picked).
   */
  datatype Form = Form(
    idText: string, name: string, selectedType: Option<int>,
    amount: string, price: string, description: string)

  /** `ClearForm`: every text box empty and no type picked. */
  const EmptyForm: Form := Form("", "", None, "", "", "")

  /** The outcome of `ValidateForm`: success, or the first check that failed. */
  datatype FormCheck = FormOk | NoName | NoType | BadQuantity | BadPrice

  /** The outcome of the FindById guard and lookup. */
  datatype Lookup = EmptyQuery | NotNumeric | NoSuchCoffee(id: int) | Found(item: CoffeeItem)

  /** What an editor button reports. */
  datatype EditOutcome =
    | Saved(id: int)
    | NameMissing
    | Rejected(check: FormCheck)
    | NoSelection
    | Cancelled
    | BadId
    | NotFound(id: int)

  /** The Amount box holds an `int` and it is positive. */
  predicate QuantityOk(text: string)
  {
    ParseInt32(text).Some? && ParseInt32(text).value > 0
  }

  /** The PricePerKg box holds a `decimal` and it is positive. */
  predicate PriceOk(text: string)
  {
    ParseDecimal(text).Some? && ParseDecimal(text).value > 0.0
  }

  /** `ValidateForm`: the four checks in order; the first one that fails decides the result. */
  function ValidateForm(f: Form): (r: FormCheck)
    ensures r == FormOk <==>
              !IsNullOrEmpty(f.name) && f.selectedType.Some? && QuantityOk(f.amount) && PriceOk(f.price)
    ensures r == NoName <==> IsNullOrEmpty(f.name)
    ensures r == NoType <==> !IsNullOrEmpty(f.name) && f.selectedType.None?
    ensures r == BadQuantity <==>
              !IsNullOrEmpty(f.name) && f.selectedType.Some? && !QuantityOk(f.amount)
    ensures r == BadPrice <==>
              !IsNullOrEmpty(f.name) && f.selectedType.Some? && QuantityOk(f.amount) && !PriceOk(f.price)
  {
    if IsNullOrEmpty(f.name) then NoName
    else if f.selectedType.None? then NoType
    else if !QuantityOk(f.amount) then BadQuantity
    else if !PriceOk(f.price) then BadPrice
    else FormOk
  }

  /**
   * The row `add` and `update` write from a form: the name, the picked type, `int.Parse` of the
   * amount, `decimal.Parse` of the price, and the description. The key is left 0 for the caller.
   */
  function FormItem(f: Form): (r: Option<CoffeeItem>)
    ensures r.Some? <==> ValidateForm(f) == FormOk
    ensures r.Some? ==>
              && r.value.name == f.name && !IsNullOrEmpty(r.value.name)
              && r.value.typeId == f.selectedType.value
              && r.value.stock.Some? && 0 < r.value.stock.value <= MaxInt32
              && r.value.price.Some? && r.value.price.value > 0.0
              && r.value.description == f.description
  {
    if ValidateForm(f) != FormOk then None
    else
      Some(CoffeeItem(0, f.name, f.selectedType.value, Some(ParseInt32(f.amount).value),
                      Some(ParseDecimal(f.price).value), f.description))
  }

  /** FindById: the two input guards, then the first row with that key. */
  function FindById(items: seq<CoffeeItem>, text: string): (r: Lookup)
    ensures r == EmptyQuery <==> IsNullOrEmpty(text)
    ensures r == NotNumeric <==> !IsNullOrEmpty(text) && ParseInt32(text).None?
    ensures r.NoSuchCoffee? ==>
              ParseInt32(text) == Some(r.id) && forall j :: 0 <= j < |items| ==> items[j].id != r.id
    ensures r.Found? ==>
              && ParseInt32(text).Some? && r.item.id == ParseInt32(text).value
              && exists j :: 0 <= j < |items| && items[j] == r.item
    ensures !IsNullOrEmpty(text) && ParseInt32(text).Some? ==> r.NoSuchCoffee? || r.Found?
  {
    if IsNullOrEmpty(text) then EmptyQuery
    else match ParseInt32(text)
      case None => NotNumeric
      case Some(id) =>
        match FindItem(items, id)
        case None => NoSuchCoffee(id)
        case Some(k) => Found(items[k])
  }

  /** The value the identity column is reseeded to after a delete: the largest key left, or 0. */
  function ReseedValue(items: seq<CoffeeItem>): (r: int)
    ensures forall i :: 0 <= i < |items| ==> items[i].id <= r
    ensures items == [] ==> r == 0
    ensures items != [] ==> exists i :: 0 <= i < |items| && items[i].id == r
  {
    if items == [] then 0
    else if |items| == 1 then items[0].id
    else
      var m := ReseedValue(items[1..]);
      if items[0].id >= m then items[0].id else m
  }

  /** The details that survive deleting coffee `id`. */
  function DetailsWithout(details: seq<OrderDetail>, id: int): (r: seq<OrderDetail>)
  {
    Filter(details, (d: OrderDetail) => d.coffeeId != id)
  }

  /** The item table after removing the row at position `k`. */
  function RemoveAt(items: seq<CoffeeItem>, k: nat): (r: seq<CoffeeItem>)
    requires k < |items|
  {
    items[..k] + items[k + 1..]
  }

  /** The store-level effect of the inventory page's buttons. */
  class InventoryPage {
    /** The page's entity context. */
    const db: Store
    var form: Form
    /** The NewCoffeeTypeName text box. */
    var newTypeName: string

    ghost predicate Valid()
      reads this, db
    {
      db.Valid()
    }

    constructor (store: Store)
      requires store.Valid()
      ensures Valid() && db == store
      ensures form == EmptyForm && newTypeName == ""
    {
      db := store;
      form := EmptyForm;
      newTypeName := "";
    }

    /** `ClearForm`. */
    method ClearForm()
      modifies this`form
      ensures form == EmptyForm
    {
      form := EmptyForm;
    }

    /** `AddNewCoffeeType`: an empty name is refused; otherwise exactly one type row is appended. */
    method AddNewCoffeeType() returns (r: EditOutcome)
      requires Valid()
      modifies this`newTypeName, db
      ensures Valid()
      ensures IsNullOrEmpty(old(newTypeName)) <==> r == NameMissing
      ensures r == NameMissing ==> unchanged(this) && unchanged(db)
      ensures r.Saved? ==>
                && r.id == old(db.typeIdentity) + 1 && db.typeIdentity == r.id
                && db.types == old(db.types) + [CoffeeType(r.id, old(newTypeName))]
                && db.items == old(db.items) && db.orders == old(db.orders) && db.details == old(db.details)
                && db.coffeeIdentity == old(db.coffeeIdentity) && db.orderIdentity == old(db.orderIdentity)
                && newTypeName == ""
      ensures r == NameMissing || r.Saved?
    {
      if IsNullOrEmpty(newTypeName) {
        return NameMissing;
      }
      var id := db.InsertType(newTypeName);
      newTypeName := "";
      r := Saved(id);
    }

    /** `add`: a valid form becomes one new row with the next key; the form is then cleared. */
    method Add() returns (r: EditOutcome)
      requires Valid()
      modifies this`form, db
      ensures Valid()
      ensures r.Rejected? <==> ValidateForm(old(form)) != FormOk
      ensures r.Rejected? ==> r.check == ValidateForm(old(form))
      ensures r.Rejected? ==> unchanged(this) && unchanged(db)
      ensures r.Saved? ==>
                && r.id == old(db.coffeeIdentity) + 1 && db.coffeeIdentity == r.id
                && FindItem(old(db.items), r.id).None?
                && db.items == old(db.items) + [FormItem(old(form)).value.(id := r.id)]
                && db.types == old(db.types) && db.orders == old(db.orders) && db.details == old(db.details)
                && db.typeIdentity == old(db.typeIdentity) && db.orderIdentity == old(db.orderIdentity)
                && form == EmptyForm
      ensures r.Rejected? || r.Saved?
    {
      var check := ValidateForm(form);
      if check != FormOk {
        return Rejected(check);
      }
      var id := db.InsertItem(FormItem(form).value);
      ClearForm();
      r := Saved(id);
    }

    /**
     * `update`: needs a selected Id and a valid form; an Id that is not an `int` or names no row
     * changes nothing; otherwise the five editable columns of that one row are overwritten.
     */
    method Update() returns (r: EditOutcome)
      requires Valid()
      modifies this`form, db`items
      ensures Valid()
      ensures r == NoSelection <==> IsNullOrEmpty(old(form).idText)
      ensures r.Rejected? <==> !IsNullOrEmpty(old(form).idText) && ValidateForm(old(form)) != FormOk
      ensures r == BadId <==>
                && !IsNullOrEmpty(old(form).idText) && ValidateForm(old(form)) == FormOk
                && ParseInt32(old(form).idText).None?
      ensures r.Rejected? ==> r.check == ValidateForm(old(form))
      ensures r.Saved? <==>
                && !IsNullOrEmpty(old(form).idText) && ValidateForm(old(form)) == FormOk
                && ParseInt32(old(form).idText).Some?
                && FindItem(old(db.items), ParseInt32(old(form).idText).value).Some?
      ensures !r.Saved? ==> unchanged(this) && unchanged(db)
      ensures r.NotFound? ==> ParseInt32(old(form).idText) == Some(r.id) && FindItem(old(db.items), r.id).None?
      ensures r.Saved? ==>
                && ParseInt32(old(form).idText) == Some(r.id)
                && FindItem(old(db.items), r.id).Some?
                && db.items == old(db.items)[FindItem(old(db.items), r.id).value := FormItem(old(form)).value.(id := r.id)]
                && form == EmptyForm
      ensures r in {NoSelection, BadId} || r.Rejected? || r.NotFound? || r.Saved?
    {
      if IsNullOrEmpty(form.idText) {
        return NoSelection;
      }
      var check := ValidateForm(form);
      if check != FormOk {
        return Rejected(check);
      }
      var parsed := ParseInt32(form.idText);
      if parsed.None? {
        return BadId;
      }
      var id := parsed.value;
      var found := FindItem(db.items, id);
      if found.None? {
        return NotFound(id);
      }
      OverwriteRow(db, found.value, FormItem(form).value);
      ClearForm();
      r := Saved(id);
    }

    /**
     * `delete`, with `confirmed` the answer to the confirmation prompt: the order details that
     * reference the coffee and then its row are removed, and the identity counter is reseeded
     * to the largest key left (0 for an empty table).
     */
    method Delete(confirmed: bool) returns (r: EditOutcome)
      requires Valid()
      modifies this`form, db`items, db`details, db`coffeeIdentity
      ensures Valid()
      ensures r == NoSelection <==> IsNullOrEmpty(old(form).idText)
      ensures r == Cancelled <==> !IsNullOrEmpty(old(form).idText) && !confirmed
      ensures r == BadId <==>
                !IsNullOrEmpty(old(form).idText) && confirmed && ParseInt32(old(form).idText).None?
      ensures r.Saved? <==>
                && !IsNullOrEmpty(old(form).idText) && confirmed
                && ParseInt32(old(form).idText).Some?
                && FindItem(old(db.items), ParseInt32(old(form).idText).value).Some?
      ensures !r.Saved? ==> unchanged(this) && unchanged(db)
      ensures r.NotFound? ==> ParseInt32(old(form).idText) == Some(r.id) && FindItem(old(db.items), r.id).None?
      ensures r.Saved? ==>
                && ParseInt32(old(form).idText) == Some(r.id)
                && FindItem(old(db.items), r.id).Some?
                && db.items == RemoveAt(old(db.items), FindItem(old(db.items), r.id).value)
                && db.details == DetailsWithout(old(db.details), r.id)
                && db.coffeeIdentity == ReseedValue(db.items)
                && form == EmptyForm
      ensures r in {NoSelection, Cancelled, BadId} || r.NotFound? || r.Saved?
    {
      if IsNullOrEmpty(form.idText) {
        return NoSelection;
      }
      if !confirmed {
        return Cancelled;
      }
      var parsed := ParseInt32(form.idText);
      if parsed.None? {
        return BadId;
      }
      var id := parsed.value;
      var found := FindItem(db.items, id);
      if found.None? {
        return NotFound(id);
      }
      RemoveCoffee(db, found.value);
      ClearForm();
      r := Saved(id);
    }
  }

  /** The write of `update`: the row at `k` takes the form's values and keeps its key. */
  method OverwriteRow(store: Store, k: nat, row: CoffeeItem)
    requires store.Valid() && k < |store.items|
    modifies store`items
    ensures store.Valid()
    ensures store.items == old(store.items)[k := row.(id := old(store.items)[k].id)]
  {
    var before := store.items;
    store.items := store.items[k := row.(id := store.items[k].id)];
    SameKeysStayValid(before, store.items, store.coffeeIdentity);
  }

  /**
   * The writes of a confirmed delete of the row at `k`: its order details, then the row, then
   * the identity reseed (`DBCC CHECKIDENT ... RESEED`) to the largest key left.
   */
  method RemoveCoffee(store: Store, k: nat)
    requires store.Valid() && k < |store.items|
    modifies store`items, store`details, store`coffeeIdentity
    ensures store.Valid()
    ensures store.details == DetailsWithout(old(store.details), old(store.items)[k].id)
    ensures store.items == RemoveAt(old(store.items), k)
    ensures store.coffeeIdentity == ReseedValue(store.items)
  {
    var id := store.items[k].id;
    RemoveAtKeys(store.items, k);
    store.details := DetailsWithout(store.details, id);
    store.items := RemoveAt(store.items, k);
    store.coffeeIdentity := ReseedValue(store.items);
  }

  /**
   * Removing the row at `k` drops exactly that key: the rest keep their order and keys, and the
   * reseeded counter still covers every key left.
   */
  lemma RemoveAtKeys(items: seq<CoffeeItem>, k: nat)
    requires k < |items| && UniqueItemIds(items) && forall i :: 0 <= i < |items| ==> items[i].id >= 1
    ensures var r := RemoveAt(items, k);
      && |r| == |items| - 1
      && (forall j :: 0 <= j < |r| ==> r[j] == items[if j < k then j else j + 1])
      && (forall j :: 0 <= j < |r| ==> r[j].id != items[k].id)
      && UniqueItemIds(r) && ItemIdsIssued(r, ReseedValue(r)) && ReseedValue(r) >= 0
  {
    var r := RemoveAt(items, k);
    assert forall j :: 0 <= j < |r| ==> r[j] == items[if j < k then j else j + 1];
  }

  /**
   * Deleting coffee `id` keeps exactly the details that reference another coffee, in their
   * original order, and leaves none that reference `id`.
   */
  lemma DeleteDropsExactlyReferences(details: seq<OrderDetail>, id: int)
    ensures var r, ix := DetailsWithout(details, id), Positions(details, (d: OrderDetail) => d.coffeeId != id);
      && |r| == |ix| && StrictlyIncreasing(ix)
      && (forall k :: 0 <= k < |r| ==> 0 <= ix[k] < |details| && r[k] == details[ix[k]] && r[k].coffeeId != id)
      && (forall i :: 0 <= i < |details| && details[i].coffeeId != id ==> i in ix)
  {
    var p := (d: OrderDetail) => d.coffeeId != id;
    FilterAtPositions(details, p);
    forall i | 0 <= i < |details| && details[i].coffeeId != id
      ensures i in Positions(details, p)
    {
      PositionsComplete(details, p, i);
    }
  }

  /** The reseed value is the least counter that covers every key left in the table. */
  lemma {:induction false} ReseedIsLeastCover(items: seq<CoffeeItem>, c: int)
    requires items != [] && forall i :: 0 <= i < |items| ==> items[i].id <= c
    ensures ReseedValue(items) <= c
  {
    var i :| 0 <= i < |items| && items[i].id == ReseedValue(items);
  }

  /** After a reseed the next key the identity column issues is not held by any row. */
  lemma ReseedNextKeyFresh(items: seq<CoffeeItem>)
    ensures FindItem(items, ReseedValue(items) + 1).None?
  {
  }

  /**
   * The Id box is filled with the selected row's `CoffeeID.ToString()`; reading that text back
   * through FindById finds that same row again.
   */
  lemma SelectedIdFindsRow(items: seq<CoffeeItem>, j: nat)
    requires UniqueItemIds(items) && j < |items| && MinInt32 <= items[j].id <= MaxInt32
    ensures FindById(items, FormatInt(items[j].id)) == Found(items[j])
  {
    var text := FormatInt(items[j].id);
    FormatIntRoundTrip(items[j].id);
    FindUniqueItem(items, j);
    assert !IsNullOrEmpty(text);
  }

  /**
   * A form whose Amount and PricePerKg boxes hold what `ToString` prints for a quantity and a
   * non-negative price passes exactly when a name and a type are given and both values are
   * positive, and then yields a row with those very values.
   */
  lemma PrintedFormValidates(f: Form, q: int, units: nat, scale: nat)
    requires MinInt32 <= q <= MaxInt32
    requires f.amount == FormatInt(q) && f.price == FormatFixed(units, scale)
    ensures ValidateForm(f) == FormOk <==>
              !IsNullOrEmpty(f.name) && f.selectedType.Some? && q > 0 && units > 0
    ensures !IsNullOrEmpty(f.name) && f.selectedType.Some? && q <= 0 ==> ValidateForm(f) == BadQuantity
    ensures !IsNullOrEmpty(f.name) && f.selectedType.Some? && q > 0 && units == 0 ==> ValidateForm(f) == BadPrice
    ensures ValidateForm(f) == FormOk ==>
              FormItem(f) == Some(CoffeeItem(0, f.name, f.selectedType.value, Some(q),
                                             Some(units as real / Pow10(scale) as real), f.description))
  {
    FormatIntRoundTrip(q);
    assert QuantityOk(f.amount) <==> q > 0;
    FormatFixedRoundTrip(units, scale);
    PositiveQuotient(units, Pow10(scale));
    assert PriceOk(f.price) <==> units > 0;
  }

  lemma PositiveQuotient(a: nat, b: nat)
    requires b >= 1
    ensures a as real / b as real > 0.0 <==> a > 0
  {
  }
}
