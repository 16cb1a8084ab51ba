/**
 * The order-composition page (CreateOrderPage): the rows loaded from the inventory, the
 * quantity buttons, the derived selection and total, and the submit that writes the order.
 */
module OrderComposer {
  import opened Wrappers
  import opened DotNetText
  import opened Database
  import opened OrderLines
  import opened OrderCommit
  import opened SessionCoherence

  /** What the + button reports: a step taken, the stock-limit warning, or no such row. */
  datatype IncreaseOutcome = Added | StockLimit(maxQuantity: int) | NoSuchCoffee

  /** What submit reports: one of the two warnings, or the placed order's id and total. */
  datatype SubmitOutcome = NameRequired | EmptyOrder | Placed(orderId: int, total: real)

  class Composer {
    /** availableCoffees: one row per coffee in stock at load time. */
    var available: seq<Line>
    /** selectedItems, re-derived from `available` after every change. */
    var selected: seq<Line>
    /** The value shown in OrderTotal. */
    var total: real
    /** The CustomerName, CustomerPhone and OrderNotes text boxes. */
    var customerName: string
    var phone: string
    var notes: string

    /**
     * Every quantity lies within [0, ceiling], the rows have distinct coffee ids, and the
     * selection and total are exactly those derived from the rows.
     */
    ghost predicate Valid()
      reads this`available, this`selected, this`total
    {
      && WithinCeilings(available) && UniqueLineIds(available)
      && selected == Selection(available) && total == Total(selected)
    }

    /** Opening the page: `LoadAvailableCoffees` over the store's inventory. */
    constructor (store: Store)
      requires store.Valid()
      ensures Valid()
      ensures available == LoadLines(store.items) && selected == [] && total == 0.0
      ensures customerName == "" && phone == "" && notes == ""
    {
      var rows := LoadLines(store.items);
      NothingSelectedAtZero(rows);
      LoadKeepsInStockRows(store.items);
      available := rows;
      selected := [];
      total := 0.0;
      customerName, phone, notes := "", "", "";
    }

    /** `UpdateOrderItems` followed by `CalculateTotal`. */
    method UpdateOrderItems()
      requires WithinCeilings(available) && UniqueLineIds(available)
      modifies this`selected, this`total
      ensures Valid()
    {
      selected := Selection(available);
      total := Total(selected);
    }

    /** `IncreaseQuantity_Click`. */
    method Increase(id: int) returns (r: IncreaseOutcome)
      requires Valid()
      modifies this`available, this`selected, this`total
      ensures Valid()
      ensures available == Increased(old(available), id)
      ensures FindLine(old(available), id).None? ==> r == NoSuchCoffee
      ensures FindLine(old(available), id).Some? ==>
                var line := old(available)[FindLine(old(available), id).value];
                r == if line.quantity < line.maxQuantity then Added else StockLimit(line.maxQuantity)
    {
      var found := FindLine(available, id);
      if found.None? {
        r := NoSuchCoffee;
      } else if available[found.value].quantity < available[found.value].maxQuantity {
        var k := found.value;
        available := available[k := available[k].(quantity := available[k].quantity + 1)];
        UpdateOrderItems();
        r := Added;
      } else {
        r := StockLimit(available[found.value].maxQuantity);
      }
    }

    /** `DecreaseQuantity_Click`. */
    method Decrease(id: int)
      requires Valid()
      modifies this`available, this`selected, this`total
      ensures Valid()
      ensures available == Decreased(old(available), id)
    {
      var found := FindLine(available, id);
      if found.Some? && available[found.value].quantity > 0 {
        var k := found.value;
        available := available[k := available[k].(quantity := available[k].quantity - 1)];
        UpdateOrderItems();
      }
    }

    /** `RemoveItem_Click`. */
    method Remove(id: int)
      requires Valid()
      modifies this`available, this`selected, this`total
      ensures Valid()
      ensures available == Removed(old(available), id)
    {
      var found := FindLine(available, id);
      if found.Some? {
        var k := found.value;
        available := available[k := available[k].(quantity := 0)];
        UpdateOrderItems();
      }
    }

    /** `ClearOrder_Click`, after the user answered the confirmation with `confirmed`. */
    method ClearOrder(confirmed: bool)
      requires Valid()
      modifies this
      ensures Valid()
      ensures !confirmed ==> unchanged(this)
      ensures confirmed ==> available == Cleared(old(available)) && selected == [] && total == 0.0
      ensures confirmed ==> customerName == "" && phone == "" && notes == ""
    {
      if confirmed {
        var i := 0;
        while i < |available|
          invariant 0 <= i <= |available| == |old(available)|
          invariant forall k :: 0 <= k < i ==> available[k] == old(available)[k].(quantity := 0)
          invariant forall k :: i <= k < |available| ==> available[k] == old(available)[k]
          modifies this`available
        {
          available := available[i := available[i].(quantity := 0)];
          i := i + 1;
        }
        assert available == Cleared(old(available));
        ClearedSelectsNothing(old(available));
        UpdateOrderItems();
        customerName, phone, notes := "", "", "";
      }
    }

    /**
     * `SubmitOrder_Click`, with `confirmClear` the user's answer to the clear prompt that
     * follows a successful order. Identity assignment of the new OrderID is the store's.
     */
    method Submit(store: Store, confirmClear: bool) returns (r: SubmitOutcome)
      requires Valid() && store.Valid()
      modifies this, store
      ensures Valid() && store.Valid()
      ensures r == NameRequired <==> IsNullOrWhiteSpace(old(customerName))
      ensures r == EmptyOrder <==> !IsNullOrWhiteSpace(old(customerName)) && old(selected) == []
      ensures !r.Placed? ==> unchanged(this) && unchanged(store)
      ensures r.Placed? ==>
                && r.orderId == old(store.orderIdentity) + 1 && r.total == Total(old(selected))
                && store.Snapshot() == old(store.Snapshot()).(
                     orders := old(store.orders)
                       + [Order(r.orderId, PendingStatus, old(customerName), old(phone), old(notes), r.total)],
                     details := old(store.details) + DetailsFor(r.orderId, old(selected)),
                     items := Decremented(old(store.items), old(selected)),
                     orderIdentity := r.orderId)
      ensures r.Placed? && confirmClear ==>
                && available == Cleared(old(available)) && selected == [] && total == 0.0
                && customerName == "" && phone == "" && notes == ""
      ensures r.Placed? && !confirmClear ==> unchanged(this)
    {
      if IsNullOrWhiteSpace(customerName) {
        return NameRequired;
      }
      if |selected| == 0 {
        return EmptyOrder;
      }
      var sum := Total(selected);
      var orderId := PlaceOrder(store, Order(0, PendingStatus, customerName, phone, notes, sum), selected);
      r := Placed(orderId, sum);
      ClearOrder(confirmClear);
    }

    /**
     * Submit as it should behave: the same checks and writes, after which the rows are reloaded
     * from the store, so the ceilings again match the stock that is left. Reloading also resets
     * every quantity, which is what the clear step of `Submit` does to the rows.
     */
    method SubmitAndReload(store: Store, confirmClear: bool) returns (r: SubmitOutcome)
      requires Valid() && store.Valid()
      modifies this, store
      ensures Valid() && store.Valid()
      ensures r == NameRequired <==> IsNullOrWhiteSpace(old(customerName))
      ensures r == EmptyOrder <==> !IsNullOrWhiteSpace(old(customerName)) && old(selected) == []
      ensures !r.Placed? ==> unchanged(this) && unchanged(store)
      ensures r.Placed? ==>
                && r.orderId == old(store.orderIdentity) + 1 && r.total == Total(old(selected))
                && store.Snapshot() == old(store.Snapshot()).(
                     orders := old(store.orders)
                       + [Order(r.orderId, PendingStatus, old(customerName), old(phone), old(notes), r.total)],
                     details := old(store.details) + DetailsFor(r.orderId, old(selected)),
                     items := Decremented(old(store.items), old(selected)),
                     orderIdentity := r.orderId)
                && available == LoadLines(store.items) && selected == [] && total == 0.0
                && Coherent(available, store.items)
      ensures r.Placed? ==>
                (customerName, phone, notes)
                == if confirmClear then ("", "", "") else old((customerName, phone, notes))
      ensures Coherent(old(available), old(store.items)) && StockNonnegative(old(store.items)) ==>
                StockNonnegative(store.items)
    {
      if IsNullOrWhiteSpace(customerName) {
        return NameRequired;
      }
      if |selected| == 0 {
        return EmptyOrder;
      }
      var header := Order(0, PendingStatus, customerName, phone, notes, Total(selected));
      if confirmClear {
        customerName, phone, notes := "", "", "";
      }
      var orderId := PlaceAndReload(store, header);
      r := Placed(orderId, header.total);
    }

    /** The success path of `SubmitAndReload`: the order is written, then the rows are reloaded. */
    method PlaceAndReload(store: Store, header: Order) returns (orderId: int)
      requires Valid() && store.Valid()
      modifies this`available, this`selected, this`total, store
      ensures Valid() && store.Valid()
      ensures orderId == old(store.orderIdentity) + 1
      ensures store.Snapshot() == old(store.Snapshot()).(
                orders := old(store.orders) + [header.(id := orderId)],
                details := old(store.details) + DetailsFor(orderId, old(selected)),
                items := Decremented(old(store.items), old(selected)),
                orderIdentity := orderId)
      ensures available == LoadLines(store.items) && selected == [] && total == 0.0
      ensures Coherent(available, store.items)
      ensures Coherent(old(available), old(store.items)) && StockNonnegative(old(store.items)) ==>
                StockNonnegative(store.items)
    {
      ghost var before, stock := available, store.items;
      orderId := PlaceOrder(store, header, selected);
      Reload(store);
      CommitFromCoherentRows(stock, before);
    }

    /** `LoadAvailableCoffees` run again on an open page: the rows are rebuilt from the store. */
    method Reload(store: Store)
      requires store.Valid()
      modifies this`available, this`selected, this`total
      ensures Valid()
      ensures available == LoadLines(store.items) && selected == [] && total == 0.0
      ensures Coherent(available, store.items)
    {
      var rows := LoadLines(store.items);
      LoadKeepsInStockRows(store.items);
      LoadIsCoherent(store.items);
      NothingSelectedAtZero(rows);
      available := rows;
      UpdateOrderItems();
    }
  }

  /** `CoherentCommitKeepsStock` for rows that may or may not be coherent with the store. */
  lemma CommitFromCoherentRows(items: seq<CoffeeItem>, lines: seq<Line>)
    requires UniqueItemIds(items) && UniqueLineIds(lines) && WithinCeilings(lines)
    ensures Coherent(lines, items) && StockNonnegative(items) ==>
              StockNonnegative(Decremented(items, Selection(lines)))
  {
    if Coherent(lines, items) && StockNonnegative(items) {
      CoherentCommitKeepsStock(items, lines);
    }
  }

  /** Lines that all have quantity 0 select nothing. */
  lemma {:induction false} NothingSelectedAtZero(lines: seq<Line>)
    requires forall k :: 0 <= k < |lines| ==> lines[k].quantity == 0
    ensures Selection(lines) == [] && Total(Selection(lines)) == 0.0
  {
    if lines != [] {
      NothingSelectedAtZero(lines[1..]);
    }
  }

  /**
   * The two saves of `SubmitOrder_Click`: the header gets the next OrderID, then one detail per
   * line is written and each line's quantity is taken off its coffee's stock.
   */
  method PlaceOrder(store: Store, header: Order, lines: seq<Line>) returns (orderId: int)
    requires store.Valid()
    modifies store
    ensures store.Valid()
    ensures orderId == old(store.orderIdentity) + 1
    ensures store.Snapshot() == old(store.Snapshot()).(
              orders := old(store.orders) + [header.(id := orderId)],
              details := old(store.details) + DetailsFor(orderId, lines),
              items := Decremented(old(store.items), lines),
              orderIdentity := orderId)
  {
    orderId := store.InsertOrder(header);
    WriteLines(store, orderId, lines);
  }

  /**
   * The loop of `SubmitOrder_Click` over the selection: one OrderDetails row per line, and the
   * line's quantity taken off the matching coffee's stock (a NULL stock stays NULL).
   */
  method WriteLines(store: Store, orderId: int, lines: seq<Line>)
    requires store.Valid() && 1 <= orderId <= store.orderIdentity
    modifies store
    ensures store.Valid()
    ensures store.details == old(store.details) + DetailsFor(orderId, lines)
    ensures store.items == Decremented(old(store.items), lines)
    ensures store.orders == old(store.orders) && store.types == old(store.types)
    ensures store.typeIdentity == old(store.typeIdentity)
    ensures store.coffeeIdentity == old(store.coffeeIdentity)
    ensures store.orderIdentity == old(store.orderIdentity)
  {
    var i := 0;
    while i < |lines|
      invariant 0 <= i <= |lines|
      invariant store.orders == old(store.orders) && store.types == old(store.types)
      invariant store.typeIdentity == old(store.typeIdentity)
      invariant store.coffeeIdentity == old(store.coffeeIdentity)
      invariant store.orderIdentity == old(store.orderIdentity)
      invariant store.details == old(store.details) + DetailsFor(orderId, lines[..i])
      invariant store.items == Decremented(old(store.items), lines[..i])
      invariant store.Valid()
    {
      var line := lines[i];
      CommitStep(old(store.items), orderId, lines, i);
      store.details := store.details + [DetailOf(orderId, line)];
      TakeStock(store, line);
      i := i + 1;
    }
    assert lines[..|lines|] == lines;
  }

  /** One more line committed: one more detail, one more decrement. */
  lemma CommitStep(items: seq<CoffeeItem>, orderId: int, lines: seq<Line>, i: nat)
    requires i < |lines|
    ensures DetailsFor(orderId, lines[..i + 1]) == DetailsFor(orderId, lines[..i]) + [DetailOf(orderId, lines[i])]
    ensures Decremented(items, lines[..i + 1]) == DecrementOne(Decremented(items, lines[..i]), lines[i])
  {
    assert lines[..i + 1] == lines[..i] + [lines[i]];
    assert lines[..i + 1][..i] == lines[..i];
  }

  /** One line's stock update inside the commit loop. */
  method TakeStock(store: Store, line: Line)
    requires store.Valid()
    modifies store`items
    ensures store.Valid()
    ensures store.items == DecrementOne(old(store.items), line)
  {
    var found := FindItem(store.items, line.coffeeId);
    if found.Some? {
      var k := found.value;
      store.items := store.items[k := store.items[k].(stock := Minus(store.items[k].stock, line.quantity))];
    }
    SameKeysStayValid(old(store.items), store.items, store.coffeeIdentity);
  }
}
