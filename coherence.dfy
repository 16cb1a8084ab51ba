/**
 * Whether the composer's stock ceilings still describe the store. The page fixes each
 * line's ceiling (MaxQuantity) from the stock at load time and never lowers it after an
 * order is committed, so within one page session a second order can overdraw the stock.
 */
module SessionCoherence {
  import opened Wrappers
  import opened Seqs
  import opened Database
  import opened OrderLines
  import opened OrderCommit

  /** The line's coffee is in the store with a known stock of at least the line's ceiling. */
  predicate CeilingBacked(line: Line, items: seq<CoffeeItem>)
  {
    match FindItem(items, line.coffeeId)
    case None => false
    case Some(j) => items[j].stock.Some? && line.maxQuantity <= items[j].stock.value
  }

  /** Every ceiling the composer enforces is backed by the store's current stock. */
  predicate Coherent(lines: seq<Line>, items: seq<CoffeeItem>)
  {
    forall k :: 0 <= k < |lines| ==> CeilingBacked(lines[k], items)
  }

  predicate StockNonnegative(items: seq<CoffeeItem>)
  {
    forall j :: 0 <= j < |items| ==> items[j].stock.Some? ==> items[j].stock.value >= 0
  }

  /** Freshly loaded lines are coherent with the store they were loaded from. */
  lemma LoadIsCoherent(items: seq<CoffeeItem>)
    requires UniqueItemIds(items)
    ensures Coherent(LoadLines(items), items)
  {
    LoadKeepsInStockRows(items);
    var r, ix := LoadLines(items), Positions(items, InStock);
    forall k | 0 <= k < |r|
      ensures CeilingBacked(r[k], items)
    {
      FindUniqueItem(items, ix[k]);
    }
  }

  /** Quantity changes leave the ceilings, and so coherence, alone. */
  lemma SameCeilingsStayCoherent(a: seq<Line>, b: seq<Line>, items: seq<CoffeeItem>)
    requires |a| == |b|
    requires forall k :: 0 <= k < |a| ==> a[k].coffeeId == b[k].coffeeId && a[k].maxQuantity == b[k].maxQuantity
    requires Coherent(a, items)
    ensures Coherent(b, items)
  {
    forall k | 0 <= k < |b|
      ensures CeilingBacked(b[k], items)
    {
      assert CeilingBacked(a[k], items);
    }
  }

  /** While the ceilings are coherent, committing the selection never drives a stock below zero. */
  lemma CoherentCommitKeepsStock(items: seq<CoffeeItem>, lines: seq<Line>)
    requires UniqueItemIds(items) && UniqueLineIds(lines) && WithinCeilings(lines)
    requires Coherent(lines, items) && StockNonnegative(items)
    ensures StockNonnegative(Decremented(items, Selection(lines)))
  {
    var sel := Selection(lines);
    SelectionKeepsPositiveLines(lines);
    CommitStockEffect(items, sel);
    var ix := Positions(lines, IsSelected);
    forall j | 0 <= j < |items| && Decremented(items, sel)[j].stock.Some?
      ensures Decremented(items, sel)[j].stock.value >= 0
    {
      match FindLine(sel, items[j].id)
      case None =>
      case Some(k) =>
        var line := lines[ix[k]];
        assert line == sel[k];
        assert CeilingBacked(line, items);
        FindUniqueItem(items, j);
    }
  }

  /** The example coffee: five kilos of Arabica in stock at 10.00 a kilo. */
  const Arabica := CoffeeItem(1, "Arabica", 1, Some(5), Some(10.0), "")

  /** The same coffee once its stock has been ordered away. */
  const Drained := Arabica.(stock := Some(0))

  /** The example coffee's line as loaded: quantity 0 under a ceiling of five. */
  const ArabicaLine := Line(1, "Arabica", 1, 10.0, 5, 0)

  /** The same line with all five selected. */
  const ArabicaFull := ArabicaLine.(quantity := 5)

  /**
   * As written: five kilos of a coffee with five in stock are ordered, the page clears the
   * quantities but keeps the ceiling at five, five more can be selected, and the second commit
   * leaves the stock at -5.
   */
  lemma ResubmitOverdrawsStock()
    ensures var items0 := [Arabica];
      var lines0 := Increased(Increased(Increased(Increased(Increased(LoadLines(items0), 1), 1), 1), 1), 1);
      var items1 := Decremented(items0, Selection(lines0));
      var lines1 := Cleared(lines0);
      var lines2 := Increased(Increased(Increased(Increased(Increased(lines1, 1), 1), 1), 1), 1);
      && Coherent(lines0, items0) && WithinCeilings(lines0)
      && items1[0].stock == Some(0)
      && !Coherent(lines1, items1)
      && WithinCeilings(lines2) && lines2[0].quantity == 5
      && Decremented(items1, Selection(lines2))[0].stock == Some(-5)
  {
    FirstOrderDrainsStock();
    SecondOrderOverdraws();
  }

  /** The first order of the example: five selected, all five taken from stock. */
  lemma FirstOrderDrainsStock()
    ensures var lines0 := Increased(Increased(Increased(Increased(Increased(LoadLines([Arabica]), 1), 1), 1), 1), 1);
      && lines0 == [Line(1, "Arabica", 1, 10.0, 5, 5)]
      && Coherent(lines0, [Arabica]) && WithinCeilings(lines0)
      && Decremented([Arabica], Selection(lines0)) == [Arabica.(stock := Some(0))]
  {
    var full := [Line(1, "Arabica", 1, 10.0, 5, 5)];
    LoadOneRow(Arabica);
    assert LoadLines([Arabica]) == [ArabicaLine];
    FiveIncreases();
    assert Selection(full) == full;
    assert FindItem([Arabica], 1) == Some(0);
    assert CeilingBacked(full[0], [Arabica]);
    CommitOneLine(Arabica, full[0]);
  }

  /**
   * The second order of the example: the cleared lines keep the ceiling of five against an
   * empty stock, five are selected again, and the commit takes the stock to -5.
   */
  lemma SecondOrderOverdraws()
    ensures var lines1 := Cleared([ArabicaFull]);
      var lines2 := Increased(Increased(Increased(Increased(Increased(lines1, 1), 1), 1), 1), 1);
      && !Coherent(lines1, [Drained])
      && WithinCeilings(lines2) && lines2[0].quantity == 5
      && Decremented([Drained], Selection(lines2))[0].stock == Some(-5)
  {
    assert Cleared([ArabicaFull]) == [ArabicaLine];
    ClearedCeilingUnbacked();
    FiveIncreases();
    SelectAllAndCommit();
  }

  lemma ClearedCeilingUnbacked()
    ensures !Coherent([ArabicaLine], [Drained])
  {
    assert FindItem([Drained], 1) == Some(0);
    var lines1 := [ArabicaLine];
    assert !CeilingBacked(lines1[0], [Drained]);
  }

  lemma SelectAllAndCommit()
    ensures Decremented([Drained], Selection([ArabicaFull]))[0].stock == Some(-5)
  {
    assert Selection([ArabicaFull]) == [ArabicaFull];
    CommitOneLine(Drained, ArabicaFull);
  }

  /** A row with stock loads as one line at quantity 0 with the stock as its ceiling. */
  lemma LoadOneRow(item: CoffeeItem)
    requires item.stock.Some? && item.stock.value > 0
    ensures LoadLines([item]) == [LineOf(item)]
  {
    assert Filter([item], InStock) == [item];
  }

  /** Committing one line against the one row it names takes its quantity off that row. */
  lemma CommitOneLine(item: CoffeeItem, line: Line)
    requires line.coffeeId == item.id
    ensures Decremented([item], [line]) == [item.(stock := Minus(item.stock, line.quantity))]
  {
    assert [line][..0] == [];
    assert FindItem([item], item.id) == Some(0);
  }

  /** Five presses of + on the one-line list of the example fill it to its ceiling of five. */
  lemma FiveIncreases()
    ensures Increased(Increased(Increased(Increased(Increased([ArabicaLine], 1), 1), 1), 1), 1)
            == [ArabicaFull]
  {
    var l := [ArabicaLine];
    assert FindLine(l, 1) == Some(0);
    l := Increased(l, 1);
    assert l == [Line(1, "Arabica", 1, 10.0, 5, 1)];
    l := Increased(l, 1);
    assert l == [Line(1, "Arabica", 1, 10.0, 5, 2)];
    l := Increased(l, 1);
    assert l == [Line(1, "Arabica", 1, 10.0, 5, 3)];
    l := Increased(l, 1);
    assert l == [Line(1, "Arabica", 1, 10.0, 5, 4)];
    l := Increased(l, 1);
    assert l == [Line(1, "Arabica", 1, 10.0, 5, 5)];
  }
}
