/**
 * The order composer's rows (OrderItemViewModel) and the pure computations over them:
 * loading the in-stock rows, the quantity steps of the +, - and remove buttons,
 * the derived selection (`UpdateOrderItems`) and the order total (`CalculateTotal`).
 */
module OrderLines {
  import opened Wrappers
  import opened Seqs
  import opened Database

  /** One row of the composer's grid; the unit price is a snapshot taken at load time. */
  datatype Line = Line(
    coffeeId: int, name: string, typeId: int, unitPrice: real, maxQuantity: int, quantity: int)
  {
    /** Quantity × UnitPrice. */
    function Subtotal(): (r: real)
    {
      quantity as real * unitPrice
    }
  }

  /** `QuantityInStock > 0`; a null stock is not greater than zero. */
  predicate InStock(item: CoffeeItem)
  {
    item.stock.Some? && item.stock.value > 0
  }

  /** The view model built for one loaded row: quantity 0, ceiling = stock, missing price = 0. */
  function LineOf(item: CoffeeItem): (r: Line)
  {
    Line(item.id, item.name, item.typeId, item.price.GetOr(0.0), item.stock.GetOr(0), 0)
  }

  /** `LoadAvailableCoffees`: one line per in-stock row, in store order. */
  function LoadLines(items: seq<CoffeeItem>): (r: seq<Line>)
    ensures WithinCeilings(r)
    ensures forall k :: 0 <= k < |r| ==> r[k].quantity == 0 && r[k].maxQuantity >= 1
  {
    var f := Filter(items, InStock);
    seq(|f|, k requires 0 <= k < |f| => LineOf(f[k]))
  }

  /** Every quantity lies between 0 and its ceiling. */
  predicate WithinCeilings(lines: seq<Line>)
  {
    forall k :: 0 <= k < |lines| ==> 0 <= lines[k].quantity <= lines[k].maxQuantity
  }

  predicate UniqueLineIds(lines: seq<Line>)
  {
    forall i, j :: 0 <= i < j < |lines| ==> lines[i].coffeeId != lines[j].coffeeId
  }

  predicate IsSelected(line: Line)
  {
    line.quantity > 0
  }

  /** `UpdateOrderItems`: the lines with a positive quantity, in list order. */
  function Selection(lines: seq<Line>): (r: seq<Line>)
  {
    Filter(lines, IsSelected)
  }

  /** `CalculateTotal`: the sum of the subtotals. */
  function Total(lines: seq<Line>): (r: real)
  {
    if lines == [] then 0.0 else lines[0].Subtotal() + Total(lines[1..])
  }

  /** Load keeps exactly the in-stock rows, in store order, each as a fresh line. */
  lemma LoadKeepsInStockRows(items: seq<CoffeeItem>)
    ensures var r, ix := LoadLines(items), Positions(items, InStock);
      && |r| == |ix| && StrictlyIncreasing(ix)
      && (forall k :: 0 <= k < |r| ==>
            && 0 <= ix[k] < |items| && InStock(items[ix[k]])
            && r[k].coffeeId == items[ix[k]].id && r[k].name == items[ix[k]].name
            && r[k].typeId == items[ix[k]].typeId
            && r[k].quantity == 0 && r[k].maxQuantity == items[ix[k]].stock.value
            && r[k].unitPrice == items[ix[k]].price.GetOr(0.0))
      && (forall i :: 0 <= i < |items| && InStock(items[i]) ==> i in ix)
      && (UniqueItemIds(items) ==> UniqueLineIds(r))
  {
    FilterAtPositions(items, InStock);
    forall i | 0 <= i < |items| && InStock(items[i])
      ensures i in Positions(items, InStock)
    {
      PositionsComplete(items, InStock, i);
    }
  }

  /** The selection is exactly the lines with a positive quantity, in their original order. */
  lemma SelectionKeepsPositiveLines(lines: seq<Line>)
    ensures var s, ix := Selection(lines), Positions(lines, IsSelected);
      && |s| == |ix| && StrictlyIncreasing(ix)
      && (forall k :: 0 <= k < |s| ==> 0 <= ix[k] < |lines| && s[k] == lines[ix[k]] && s[k].quantity > 0)
      && (forall i :: 0 <= i < |lines| && lines[i].quantity > 0 ==> i in ix)
      && (UniqueLineIds(lines) ==> UniqueLineIds(s))
      && (WithinCeilings(lines) ==> WithinCeilings(s))
  {
    FilterAtPositions(lines, IsSelected);
    forall i | 0 <= i < |lines| && IsSelected(lines[i])
      ensures i in Positions(lines, IsSelected)
    {
      PositionsComplete(lines, IsSelected, i);
    }
  }

  /** Lines with quantity 0 add nothing, so the total over the selection is the total over all lines. */
  lemma {:induction false} TotalOfSelection(lines: seq<Line>)
    requires WithinCeilings(lines)
    ensures Total(Selection(lines)) == Total(lines)
  {
    if lines != [] {
      TotalOfSelection(lines[1..]);
      if !IsSelected(lines[0]) {
        assert lines[0].quantity == 0;
        assert lines[0].Subtotal() == 0.0;
      } else {
        assert Selection(lines) == [lines[0]] + Selection(lines[1..]);
        assert ([lines[0]] + Selection(lines[1..]))[1..] == Selection(lines[1..]);
      }
    }
  }

  /** With non-negative quantities and prices the total is never negative. */
  lemma {:induction false} TotalNonnegative(lines: seq<Line>)
    requires WithinCeilings(lines)
    requires forall k :: 0 <= k < |lines| ==> lines[k].unitPrice >= 0.0
    ensures Total(lines) >= 0.0
  {
    if lines != [] {
      TotalNonnegative(lines[1..]);
    }
  }

  /** `availableCoffees.FirstOrDefault(c => c.CoffeeID == id)`, as a position. */
  function FindLine(lines: seq<Line>, id: int): (r: Option<nat>)
    ensures r.Some? ==> r.value < |lines| && lines[r.value].coffeeId == id
    ensures r.Some? ==> forall j :: 0 <= j < r.value ==> lines[j].coffeeId != id
    ensures r.None? <==> forall j :: 0 <= j < |lines| ==> lines[j].coffeeId != id
  {
    if lines == [] then None
    else if lines[0].coffeeId == id then Some(0)
    else match FindLine(lines[1..], id)
      case None => None
      case Some(k) => Some(k + 1)
  }

  /** Two line lists that agree on ids find the same position for every id. */
  lemma {:induction false} FindLineSameIds(a: seq<Line>, b: seq<Line>, id: int)
    requires |a| == |b| && forall k :: 0 <= k < |a| ==> a[k].coffeeId == b[k].coffeeId
    ensures FindLine(a, id) == FindLine(b, id)
  {
    if a != [] && a[0].coffeeId != id {
      FindLineSameIds(a[1..], b[1..], id);
    }
  }

  /** The + button: one more of that coffee, unless it is already at its ceiling. */
  function Increased(lines: seq<Line>, id: int): (r: seq<Line>)
    ensures |r| == |lines|
    ensures forall k :: 0 <= k < |r| ==>
              || r[k] == lines[k]
              || (&& lines[k].coffeeId == id && lines[k].quantity < lines[k].maxQuantity
                  && r[k] == lines[k].(quantity := lines[k].quantity + 1))
    ensures WithinCeilings(lines) ==> WithinCeilings(r)
    ensures FindLine(lines, id).None? ==> r == lines
    ensures FindLine(lines, id).Some? ==>
              var k := FindLine(lines, id).value;
              r[k].quantity == if lines[k].quantity < lines[k].maxQuantity then lines[k].quantity + 1 else lines[k].quantity
  {
    match FindLine(lines, id)
    case None => lines
    case Some(k) =>
      if lines[k].quantity < lines[k].maxQuantity
      then lines[k := lines[k].(quantity := lines[k].quantity + 1)]
      else lines
  }

  /** The - button: one fewer of that coffee, unless it is already at zero. */
  function Decreased(lines: seq<Line>, id: int): (r: seq<Line>)
    ensures |r| == |lines|
    ensures forall k :: 0 <= k < |r| ==>
              || r[k] == lines[k]
              || (&& lines[k].coffeeId == id && lines[k].quantity > 0
                  && r[k] == lines[k].(quantity := lines[k].quantity - 1))
    ensures WithinCeilings(lines) ==> WithinCeilings(r)
    ensures FindLine(lines, id).None? ==> r == lines
    ensures FindLine(lines, id).Some? ==>
              var k := FindLine(lines, id).value;
              r[k].quantity == if lines[k].quantity > 0 then lines[k].quantity - 1 else lines[k].quantity
  {
    match FindLine(lines, id)
    case None => lines
    case Some(k) =>
      if lines[k].quantity > 0
      then lines[k := lines[k].(quantity := lines[k].quantity - 1)]
      else lines
  }

  /** The remove button: that coffee's quantity becomes 0. */
  function Removed(lines: seq<Line>, id: int): (r: seq<Line>)
    ensures |r| == |lines|
    ensures forall k :: 0 <= k < |r| ==>
              r[k] == lines[k] || (lines[k].coffeeId == id && r[k] == lines[k].(quantity := 0))
    ensures WithinCeilings(lines) ==> WithinCeilings(r)
    ensures FindLine(lines, id).None? ==> r == lines
    ensures FindLine(lines, id).Some? ==> r[FindLine(lines, id).value].quantity == 0
  {
    match FindLine(lines, id)
    case None => lines
    case Some(k) => lines[k := lines[k].(quantity := 0)]
  }

  /** Every quantity back to 0. */
  function Cleared(lines: seq<Line>): (r: seq<Line>)
  {
    seq(|lines|, k requires 0 <= k < |lines| => lines[k].(quantity := 0))
  }

  /** A step up followed by a step down restores the lines, whenever the step up was taken. */
  lemma DecreaseUndoesIncrease(lines: seq<Line>, id: int)
    requires WithinCeilings(lines) && FindLine(lines, id).Some?
    requires lines[FindLine(lines, id).value].quantity < lines[FindLine(lines, id).value].maxQuantity
    ensures Decreased(Increased(lines, id), id) == lines
  {
    var k := FindLine(lines, id).value;
    var line := lines[k];
    var up := lines[k := line.(quantity := line.quantity + 1)];
    IncreasedAt(lines, id, k);
    FindLineIsFirst(up, id, k);
    DecreasedAt(up, id, k);
    assert up[k].(quantity := up[k].quantity - 1) == line;
    RestoreAt(lines, k, line.(quantity := line.quantity + 1));
    calc {
      Decreased(Increased(lines, id), id);
      Decreased(up, id);
      up[k := line];
      lines;
    }
  }

  lemma IncreasedAt(lines: seq<Line>, id: int, k: nat)
    requires FindLine(lines, id) == Some(k) && lines[k].quantity < lines[k].maxQuantity
    ensures Increased(lines, id) == lines[k := lines[k].(quantity := lines[k].quantity + 1)]
  {
  }

  lemma DecreasedAt(lines: seq<Line>, id: int, k: nat)
    requires FindLine(lines, id) == Some(k) && lines[k].quantity > 0
    ensures Decreased(lines, id) == lines[k := lines[k].(quantity := lines[k].quantity - 1)]
  {
  }

  /** Writing an element and then writing the old one back restores the sequence. */
  lemma RestoreAt(lines: seq<Line>, k: nat, x: Line)
    requires k < |lines|
    ensures lines[k := x][k := lines[k]] == lines
  {
  }

  /** The first line carrying `id` is the one FindLine returns. */
  lemma FindLineIsFirst(lines: seq<Line>, id: int, k: nat)
    requires k < |lines| && lines[k].coffeeId == id
    requires forall j :: 0 <= j < k ==> lines[j].coffeeId != id
    ensures FindLine(lines, id) == Some(k)
  {
  }

  /** Removing twice is removing once. */
  lemma RemoveIdempotent(lines: seq<Line>, id: int)
    ensures Removed(Removed(lines, id), id) == Removed(lines, id)
  {
    FindLineSameIds(Removed(lines, id), lines, id);
  }

  /** After clearing, the selection is empty and the total is zero; the ceilings are untouched. */
  lemma {:induction false} ClearedSelectsNothing(lines: seq<Line>)
    ensures |Cleared(lines)| == |lines|
    ensures forall k :: 0 <= k < |lines| ==>
              Cleared(lines)[k].quantity == 0 && Cleared(lines)[k].maxQuantity == lines[k].maxQuantity
    ensures WithinCeilings(lines) ==> WithinCeilings(Cleared(lines))
    ensures Selection(Cleared(lines)) == [] && Total(Selection(Cleared(lines))) == 0.0
  {
    if lines != [] {
      ClearedSelectsNothing(lines[1..]);
      assert Cleared(lines)[1..] == Cleared(lines[1..]);
    }
  }
}
