/**
 * The relational store both pages write through the entity context: the CoffeeTypes,
 * CoffeeInventory, Orders and OrderDetails tables, each kept in insertion (primary-key) order,
 * and the SQL identity counters that hand out new primary keys.
 */
module Database {
  import opened Wrappers

  datatype CoffeeType = CoffeeType(id: int, name: string)

  /** A CoffeeInventory row. QuantityInStock (`int?`) and PricePerKg (`decimal?`) are nullable columns. */
  datatype CoffeeItem = CoffeeItem(
    id: int, name: string, typeId: int, stock: Option<int>, price: Option<real>, description: string)

  /** An Orders row; the order date is not modelled. */
  datatype Order = Order(
    id: int, status: int, customer: string, phone: string, notes: string, total: real)

  datatype OrderDetail = OrderDetail(orderId: int, coffeeId: int, quantity: int, unitPrice: real)

  /** Status id of a freshly placed order ("Pending"). */
  const PendingStatus: int := 1

  predicate UniqueItemIds(items: seq<CoffeeItem>)
  {
    forall i, j :: 0 <= i < j < |items| ==> items[i].id != items[j].id
  }

  /** Every key was issued by an identity counter whose last value is `last`. */
  predicate ItemIdsIssued(items: seq<CoffeeItem>, last: int)
  {
    forall i :: 0 <= i < |items| ==> 1 <= items[i].id <= last
  }

  predicate TypeIdsIssued(types: seq<CoffeeType>, last: int)
  {
    && (forall i :: 0 <= i < |types| ==> 1 <= types[i].id <= last)
    && (forall i, j :: 0 <= i < j < |types| ==> types[i].id != types[j].id)
  }

  predicate OrderIdsIssued(orders: seq<Order>, last: int)
  {
    && (forall i :: 0 <= i < |orders| ==> 1 <= orders[i].id <= last)
    && (forall i, j :: 0 <= i < j < |orders| ==> orders[i].id != orders[j].id)
  }

  /** `CoffeeInventories.Find(id)`: the position of the row with primary key `id`, if any. */
  function FindItem(items: seq<CoffeeItem>, id: int): (r: Option<nat>)
    ensures r.Some? ==> r.value < |items| && items[r.value].id == id
    ensures r.Some? ==> forall j :: 0 <= j < r.value ==> items[j].id != id
    ensures r.None? <==> forall j :: 0 <= j < |items| ==> items[j].id != id
  {
    if items == [] then None
    else if items[0].id == id then Some(0)
    else match FindItem(items[1..], id)
      case None => None
      case Some(k) => Some(k + 1)
  }

  /** With unique keys, the row found is the only one carrying that key. */
  lemma FindUniqueItem(items: seq<CoffeeItem>, j: nat)
    requires UniqueItemIds(items) && j < |items|
    ensures FindItem(items, items[j].id) == Some(j)
  {
  }

  /** Rewriting rows without touching their keys keeps the key constraints of the item table. */
  lemma SameKeysStayValid(a: seq<CoffeeItem>, b: seq<CoffeeItem>, last: int)
    requires |a| == |b| && forall k :: 0 <= k < |a| ==> b[k].id == a[k].id
    requires UniqueItemIds(a) && ItemIdsIssued(a, last)
    ensures UniqueItemIds(b) && ItemIdsIssued(b, last)
  {
  }

  /** The contents of the database at one moment: the four tables and their identity counters. */
  datatype Tables = Tables(
    types: seq<CoffeeType>, items: seq<CoffeeItem>, orders: seq<Order>, details: seq<OrderDetail>,
    typeIdentity: int, coffeeIdentity: int, orderIdentity: int)

  class Store {
    var types: seq<CoffeeType>
    var items: seq<CoffeeItem>
    var orders: seq<Order>
    var details: seq<OrderDetail>
    /** Last value issued by each table's identity column. */
    var typeIdentity: int
    var coffeeIdentity: int
    var orderIdentity: int

    /** Primary keys are unique and were all issued by the table's identity counter. */
    ghost predicate Valid()
      reads this
    {
      && typeIdentity >= 0 && coffeeIdentity >= 0 && orderIdentity >= 0
      && TypeIdsIssued(types, typeIdentity)
      && UniqueItemIds(items) && ItemIdsIssued(items, coffeeIdentity)
      && OrderIdsIssued(orders, orderIdentity)
    }

    /** The store's current contents as one value. */
    function Snapshot(): Tables
      reads this
    {
      Tables(types, items, orders, details, typeIdentity, coffeeIdentity, orderIdentity)
    }

    constructor ()
      ensures Valid()
      ensures types == [] && items == [] && orders == [] && details == []
      ensures typeIdentity == 0 && coffeeIdentity == 0 && orderIdentity == 0
    {
      types, items, orders, details := [], [], [], [];
      typeIdentity, coffeeIdentity, orderIdentity := 0, 0, 0;
    }

    /** `CoffeeTypes.Add` + `SaveChanges`: the new row gets the next identity value. */
    method InsertType(name: string) returns (id: int)
      requires Valid()
      modifies this
      ensures Valid()
      ensures id == old(typeIdentity) + 1 && typeIdentity == id
      ensures forall i :: 0 <= i < |old(types)| ==> old(types)[i].id != id
      ensures types == old(types) + [CoffeeType(id, name)]
      ensures items == old(items) && orders == old(orders) && details == old(details)
      ensures coffeeIdentity == old(coffeeIdentity) && orderIdentity == old(orderIdentity)
    {
      id := typeIdentity + 1;
      typeIdentity := id;
      types := types + [CoffeeType(id, name)];
    }

    /** `CoffeeInventories.Add` + `SaveChanges`: the new row gets the next identity value. */
    method InsertItem(item: CoffeeItem) returns (id: int)
      requires Valid()
      modifies this
      ensures Valid()
      ensures id == old(coffeeIdentity) + 1 && coffeeIdentity == id
      ensures FindItem(old(items), id).None?
      ensures items == old(items) + [item.(id := id)]
      ensures types == old(types) && orders == old(orders) && details == old(details)
      ensures typeIdentity == old(typeIdentity) && orderIdentity == old(orderIdentity)
    {
      id := coffeeIdentity + 1;
      coffeeIdentity := id;
      items := items + [item.(id := id)];
    }

    /** `Orders.Add` + `SaveChanges`: the header gets the next identity value as its OrderID. */
    method InsertOrder(order: Order) returns (id: int)
      requires Valid()
      modifies this
      ensures Valid()
      ensures id == old(orderIdentity) + 1 && orderIdentity == id
      ensures forall i :: 0 <= i < |old(orders)| ==> old(orders)[i].id != id
      ensures orders == old(orders) + [order.(id := id)]
      ensures types == old(types) && items == old(items) && details == old(details)
      ensures typeIdentity == old(typeIdentity) && coffeeIdentity == old(coffeeIdentity)
    {
      id := orderIdentity + 1;
      orderIdentity := id;
      orders := orders + [order.(id := id)];
    }
  }
}
