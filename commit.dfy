/**
 * What a successful submit writes: one OrderDetail per selected line and a stock decrement
 * per line against the CoffeeInventory row with that id, applied in selection order.
 */
module OrderCommit {
  import opened Wrappers
  import opened Database
  import opened OrderLines

  function DetailOf(orderId: int, line: Line): (r: OrderDetail)
  {
    OrderDetail(orderId, line.coffeeId, line.quantity, line.unitPrice)
  }

  /** The detail rows of an order, one per selected line, in selection order. */
  function DetailsFor(orderId: int, lines: seq<Line>): (r: seq<OrderDetail>)
  {
    seq(|lines|, k requires 0 <= k < |lines| => DetailOf(orderId, lines[k]))
  }

  /** Σ Quantity × UnitPrice over detail rows. */
  function DetailsTotal(details: seq<OrderDetail>): (r: real)
  {
    if details == [] then 0.0
    else details[0].quantity as real * details[0].unitPrice + DetailsTotal(details[1..])
  }

  /** The order header's TotalPrice equals the sum over the detail rows written with it. */
  lemma {:induction false} OrderTotalMatchesDetails(orderId: int, lines: seq<Line>)
    ensures DetailsTotal(DetailsFor(orderId, lines)) == Total(lines)
  {
    if lines != [] {
      OrderTotalMatchesDetails(orderId, lines[1..]);
      assert DetailsFor(orderId, lines)[1..] == DetailsFor(orderId, lines[1..]);
    }
  }

  /** C#'s lifted `-=` on an `int?` column: a null stock stays null, and there is no floor. */
  function Minus(stock: Option<int>, q: int): (r: Option<int>)
  {
    match stock
    case None => None
    case Some(s) => Some(s - q)
  }

  /** `Find(line.CoffeeID)` and, when the row exists, `QuantityInStock -= line.Quantity`. */
  function DecrementOne(items: seq<CoffeeItem>, line: Line): (r: seq<CoffeeItem>)
    ensures |r| == |items|
    ensures forall k :: 0 <= k < |r| ==> r[k] == items[k].(stock := r[k].stock)
  {
    match FindItem(items, line.coffeeId)
    case None => items
    case Some(k) => items[k := items[k].(stock := Minus(items[k].stock, line.quantity))]
  }

  /** The inventory after the decrements for `lines`, applied first to last. */
  function Decremented(items: seq<CoffeeItem>, lines: seq<Line>): (r: seq<CoffeeItem>)
    ensures |r| == |items|
    ensures forall k :: 0 <= k < |r| ==> r[k] == items[k].(stock := r[k].stock)
  {
    if lines == [] then items
    else DecrementOne(Decremented(items, lines[..|lines| - 1]), lines[|lines| - 1])
  }

  /** The total quantity `lines` order of coffee `id`. */
  function QtyOf(lines: seq<Line>, id: int): (r: int)
  {
    if lines == [] then 0
    else
      var last := lines[|lines| - 1];
      QtyOf(lines[..|lines| - 1], id) + (if last.coffeeId == id then last.quantity else 0)
  }

  /** Each row's stock ends up lowered by the total quantity ordered of it; nothing else changes. */
  lemma {:induction false} DecrementedStock(items: seq<CoffeeItem>, lines: seq<Line>)
    requires UniqueItemIds(items)
    ensures forall j :: 0 <= j < |items| ==>
              Decremented(items, lines)[j] == items[j].(stock := Minus(items[j].stock, QtyOf(lines, items[j].id)))
  {
    if lines == [] {
      forall j | 0 <= j < |items|
        ensures items[j] == items[j].(stock := Minus(items[j].stock, 0))
      {
        match items[j].stock
        case None =>
        case Some(s) =>
      }
    } else {
      var init, last := lines[..|lines| - 1], lines[|lines| - 1];
      DecrementedStock(items, init);
      var mid := Decremented(items, init);
      assert UniqueItemIds(mid) by {
        assert forall k :: 0 <= k < |mid| ==> mid[k].id == items[k].id;
      }
      forall j | 0 <= j < |items|
        ensures DecrementOne(mid, last)[j] == items[j].(stock := Minus(items[j].stock, QtyOf(lines, items[j].id)))
      {
        var q := QtyOf(init, items[j].id);
        assert mid[j] == items[j].(stock := Minus(items[j].stock, q));
        if last.coffeeId == items[j].id {
          FindUniqueItem(mid, j);
          match items[j].stock
          case None =>
          case Some(s) =>
        } else {
          assert FindItem(mid, last.coffeeId) != Some(j);
        }
      }
    }
  }

  /** With unique line ids, the quantity ordered of `id` is that of its line, or 0 without one. */
  lemma {:induction false} QtyOfUnique(lines: seq<Line>, id: int)
    requires UniqueLineIds(lines)
    ensures forall k :: 0 <= k < |lines| && lines[k].coffeeId == id ==> QtyOf(lines, id) == lines[k].quantity
    ensures (forall k :: 0 <= k < |lines| ==> lines[k].coffeeId != id) ==> QtyOf(lines, id) == 0
  {
    if lines != [] {
      var init, last := lines[..|lines| - 1], lines[|lines| - 1];
      QtyOfUnique(init, id);
      if last.coffeeId == id {
        assert forall k :: 0 <= k < |init| ==> init[k].coffeeId != id;
      }
    }
  }

  /**
   * The stock effect of a commit: a row with a selected line loses exactly that line's quantity
   * (a null stock stays null, and nothing stops it going below zero); every other row is unchanged.
   */
  lemma CommitStockEffect(items: seq<CoffeeItem>, sel: seq<Line>)
    requires UniqueItemIds(items) && UniqueLineIds(sel)
    ensures |Decremented(items, sel)| == |items|
    ensures forall j :: 0 <= j < |items| ==>
              var r := Decremented(items, sel)[j];
              match FindLine(sel, items[j].id)
              case None => r == items[j]
              case Some(k) => r == items[j].(stock := Minus(items[j].stock, sel[k].quantity))
  {
    DecrementedStock(items, sel);
    forall j | 0 <= j < |items|
      ensures var r := Decremented(items, sel)[j];
              match FindLine(sel, items[j].id)
              case None => r == items[j]
              case Some(k) => r == items[j].(stock := Minus(items[j].stock, sel[k].quantity))
    {
      QtyOfUnique(sel, items[j].id);
      if FindLine(sel, items[j].id).None? {
        match items[j].stock
        case None =>
        case Some(s) =>
      }
    }
  }
}
