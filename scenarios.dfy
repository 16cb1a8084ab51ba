/**
 * Whole-session properties of the order page and worked examples: any run of button presses
 * keeps the quantities within their ceilings, and the one-coffee scenarios of the page.
 */
module OrderSessions {
  import opened Wrappers
  import opened Database
  import opened OrderLines
  import opened OrderCommit
  import opened SessionCoherence

  /** A click on one of the row buttons of the order page. */
  datatype Press = Plus(id: int) | MinusOne(id: int) | Drop(id: int)

  function Apply(lines: seq<Line>, p: Press): (r: seq<Line>)
  {
    match p
    case Plus(id) => Increased(lines, id)
    case MinusOne(id) => Decreased(lines, id)
    case Drop(id) => Removed(lines, id)
  }

  /** The rows after a run of presses, first press first. */
  function Run(lines: seq<Line>, presses: seq<Press>): (r: seq<Line>)
    decreases presses
  {
    if presses == [] then lines else Run(Apply(lines, presses[0]), presses[1..])
  }

  /**
   * However the buttons are pressed, every quantity stays within [0, ceiling], and the rows,
   * their coffees, prices and ceilings stay as loaded: only quantities move.
   */
  lemma {:induction false} RunKeepsCeilings(lines: seq<Line>, presses: seq<Press>)
    requires WithinCeilings(lines)
    decreases presses
    ensures WithinCeilings(Run(lines, presses))
    ensures |Run(lines, presses)| == |lines|
    ensures forall k :: 0 <= k < |lines| ==>
              Run(lines, presses)[k] == lines[k].(quantity := Run(lines, presses)[k].quantity)
  {
    if presses != [] {
      var next := Apply(lines, presses[0]);
      assert |next| == |lines|;
      assert forall k :: 0 <= k < |lines| ==> next[k] == lines[k].(quantity := next[k].quantity);
      RunKeepsCeilings(next, presses[1..]);
    }
  }

  /** Ceilings that matched the stock still match it after any run of presses. */
  lemma RunKeepsCoherence(lines: seq<Line>, items: seq<CoffeeItem>, presses: seq<Press>)
    requires WithinCeilings(lines) && Coherent(lines, items)
    ensures Coherent(Run(lines, presses), items)
  {
    RunKeepsCeilings(lines, presses);
    SameCeilingsStayCoherent(lines, Run(lines, presses), items);
  }

  /**
   * One coffee with stock 5 at 10.00: three presses of + give quantity 3 and total 30.00; three
   * more stop at the ceiling of 5 (the last one finds the row full) with total 50.00.
   */
  lemma IncreaseScenario()
    ensures var three := Increased(Increased(Increased(LoadLines([Arabica]), 1), 1), 1);
      var five := Increased(Increased(three, 1), 1);
      && three == [Line(1, "Arabica", 1, 10.0, 5, 3)] && Total(Selection(three)) == 30.0
      && five == [Line(1, "Arabica", 1, 10.0, 5, 5)]
      && five[0].quantity == five[0].maxQuantity && Increased(five, 1) == five
      && Total(Selection(five)) == 50.0
  {
    UpToThree();
    ClampAtFive();
  }

  lemma UpToThree()
    ensures var three := Increased(Increased(Increased(LoadLines([Arabica]), 1), 1), 1);
      three == [Line(1, "Arabica", 1, 10.0, 5, 3)] && Total(Selection(three)) == 30.0
  {
    LoadOneRow(Arabica);
    var l := LoadLines([Arabica]);
    assert l == [Line(1, "Arabica", 1, 10.0, 5, 0)];
    PlusOnOneLine(l[0]);
    l := Increased(l, 1);
    PlusOnOneLine(l[0]);
    l := Increased(l, 1);
    PlusOnOneLine(l[0]);
    l := Increased(l, 1);
    assert l == [Line(1, "Arabica", 1, 10.0, 5, 3)];
    SelectedTotal(l);
  }

  lemma ClampAtFive()
    ensures var five := Increased(Increased([ArabicaLine.(quantity := 3)], 1), 1);
      && five == [Line(1, "Arabica", 1, 10.0, 5, 5)]
      && five[0].quantity == five[0].maxQuantity && Increased(five, 1) == five
      && Total(Selection(five)) == 50.0
  {
    var l := [ArabicaLine.(quantity := 3)];
    PlusOnOneLine(l[0]);
    l := Increased(l, 1);
    PlusOnOneLine(l[0]);
    l := Increased(l, 1);
    assert l == [Line(1, "Arabica", 1, 10.0, 5, 5)];
    PlusOnOneLine(l[0]);
    SelectedTotal(l);
  }

  /** + on a one-line list: one more, unless at the ceiling. */
  lemma PlusOnOneLine(line: Line)
    ensures Increased([line], line.coffeeId)
            == [if line.quantity < line.maxQuantity then line.(quantity := line.quantity + 1) else line]
  {
    assert FindLine([line], line.coffeeId) == Some(0);
  }

  /** One selected line: the selection is that line and the total is its subtotal. */
  lemma SelectedTotal(l: seq<Line>)
    requires |l| == 1 && l[0].quantity > 0
    ensures Selection(l) == l && Total(Selection(l)) == l[0].quantity as real * l[0].unitPrice
  {
    assert l[1..] == [];
  }

  /**
   * Submitting a selection of three of that coffee writes one detail (3 at 10.00), an order
   * total of 30.00, and takes the stock from 5 to 2.
   */
  lemma SubmitScenario(orderId: int)
    ensures var items := [CoffeeItem(1, "Arabica", 1, Some(5), Some(10.0), "")];
      var sel := [Line(1, "Arabica", 1, 10.0, 5, 3)];
      && DetailsFor(orderId, sel) == [OrderDetail(orderId, 1, 3, 10.0)]
      && Total(sel) == 30.0
      && Decremented(items, sel) == [CoffeeItem(1, "Arabica", 1, Some(2), Some(10.0), "")]
  {
    var sel := [Line(1, "Arabica", 1, 10.0, 5, 3)];
    assert sel[..0] == [];
  }
}
