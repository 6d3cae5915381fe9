/**
 The demo shop's stock, inventory log and customer totals (scripts/seed.js). Amounts are whole cents.
 `updateOne` changes the first document that matches; an order for an unknown product or customer
 changes nothing there, but is logged.
 */
module Ledger {

  datatype Product = Product(sku: string, stock: int)

  datatype LogRow = LogRow(sku: string, change: int)

  datatype Item = Item(sku: string, qty: int)

  datatype Order = Order(customer: string, cancelled: bool, total: int, items: seq<Item>)

  datatype Restock = Restock(sku: string, qty: int)

  datatype Customer = Customer(id: string, totalOrders: int, totalSpent: int)

  predicate DistinctSkus(ps: seq<Product>) {
    forall i, j :: 0 <= i < j < |ps| ==> ps[i].sku != ps[j].sku
  }

  predicate DistinctIds(cs: seq<Customer>) {
    forall i, j :: 0 <= i < j < |cs| ==> cs[i].id != cs[j].id
  }

  // ----- What the books should say -----

  /** The sum of the logged changes of a product. */
  function Logged(log: seq<LogRow>, sku: string): int {
    if log == [] then 0
    else Logged(log[..|log| - 1], sku) + if log[|log| - 1].sku == sku then log[|log| - 1].change else 0
  }

  /** The orders of a customer that count, in number and in amount. */
  function Orders(orders: seq<Order>, customer: string): int {
    if orders == [] then 0
    else Orders(orders[..|orders| - 1], customer) + if Counts(orders[|orders| - 1], customer) then 1 else 0
  }

  function Spent(orders: seq<Order>, customer: string): int {
    if orders == [] then 0
    else
      Spent(orders[..|orders| - 1], customer)
      + if Counts(orders[|orders| - 1], customer) then orders[|orders| - 1].total else 0
  }

  predicate Counts(o: Order, customer: string) {
    o.customer == customer && !o.cancelled
  }

  /** What an order or a restock ships, by product. */
  function Shipped(items: seq<Item>, sku: string): int {
    if items == [] then 0
    else Shipped(items[..|items| - 1], sku) + if items[|items| - 1].sku == sku then items[|items| - 1].qty else 0
  }

  function ShippedAll(orders: seq<Order>, sku: string): int {
    if orders == [] then 0 else ShippedAll(orders[..|orders| - 1], sku) + Shipped(orders[|orders| - 1].items, sku)
  }

  function Restocked(restocks: seq<Restock>, sku: string): int {
    if restocks == [] then 0
    else
      Restocked(restocks[..|restocks| - 1], sku)
      + if restocks[|restocks| - 1].sku == sku then restocks[|restocks| - 1].qty else 0
  }

  /** Each sum grows by what one more row, order, item or restock adds; it starts at 0. */
  lemma BooksMean(log: seq<LogRow>, r: LogRow, orders: seq<Order>, o: Order, items: seq<Item>, x: Item,
                  restocks: seq<Restock>, y: Restock, sku: string, customer: string)
    ensures Logged([], sku) == Orders([], customer) == Spent([], customer) == 0
    ensures Shipped([], sku) == ShippedAll([], sku) == Restocked([], sku) == 0
    ensures Logged(log + [r], sku) == Logged(log, sku) + if r.sku == sku then r.change else 0
    ensures var counted := o.customer == customer && !o.cancelled;
      && Orders(orders + [o], customer) == Orders(orders, customer) + (if counted then 1 else 0)
      && Spent(orders + [o], customer) == Spent(orders, customer) + (if counted then o.total else 0)
    ensures Shipped(items + [x], sku) == Shipped(items, sku) + if x.sku == sku then x.qty else 0
    ensures ShippedAll(orders + [o], sku) == ShippedAll(orders, sku) + Shipped(o.items, sku)
    ensures Restocked(restocks + [y], sku) == Restocked(restocks, sku) + if y.sku == sku then y.qty else 0
  {
    assert (log + [r])[..|log|] == log && (orders + [o])[..|orders|] == orders;
    assert (items + [x])[..|items|] == items && (restocks + [y])[..|restocks|] == restocks;
  }

  // ----- The database -----

  class Shop {
    var products: seq<Product>
    var customers: seq<Customer>
    var inventoryLog: seq<LogRow>

    constructor (products: seq<Product>, customers: seq<Customer>)
      ensures this.products == products && this.customers == customers && inventoryLog == []
    {
      this.products, this.customers, inventoryLog := products, customers, [];
    }

    /** Stocks are the given initial stocks plus what the log says; skus never change. */
    ghost predicate StockAgrees(initial: seq<Product>)
      reads this
    {
      && |products| == |initial|
      && forall i :: 0 <= i < |products| ==>
           products[i] == Product(initial[i].sku, initial[i].stock + Logged(inventoryLog, initial[i].sku))
    }

    /** Customer totals are the given initial totals plus the orders that count. */
    ghost predicate TotalsAgree(initial: seq<Customer>, orders: seq<Order>)
      reads this
    {
      && |customers| == |initial|
      && forall i :: 0 <= i < |customers| ==> var c := initial[i];
           customers[i] == Customer(c.id, c.totalOrders + Orders(orders, c.id), c.totalSpent + Spent(orders, c.id))
    }

    /** Logs a change and applies it to the first product with the sku. */
    method LogAndUpdate(sku: string, change: int, ghost initial: seq<Product>)
      requires DistinctSkus(initial) && StockAgrees(initial)
      modifies this`products, this`inventoryLog
      ensures StockAgrees(initial) && inventoryLog == old(inventoryLog) + [LogRow(sku, change)]
    {
      inventoryLog := inventoryLog + [LogRow(sku, change)];
      assert inventoryLog[..|inventoryLog| - 1] == old(inventoryLog);
      var i := 0;
      while i < |products| && products[i].sku != sku
        invariant 0 <= i <= |products| && forall j :: 0 <= j < i ==> products[j].sku != sku
      {
        i := i + 1;
      }
      if i < |products| {
        products := products[i := products[i].(stock := products[i].stock + change)];
      }
    }

    /** Adds one order to the first customer with the id. */
    method AddToTotals(o: Order, ghost initial: seq<Customer>, ghost before: seq<Order>)
      requires DistinctIds(initial) && TotalsAgree(initial, before) && !o.cancelled
      modifies this`customers
      ensures TotalsAgree(initial, before + [o])
    {
      assert (before + [o])[..|before|] == before;
      var i := 0;
      while i < |customers| && customers[i].id != o.customer
        invariant 0 <= i <= |customers| && forall j :: 0 <= j < i ==> customers[j].id != o.customer
      {
        i := i + 1;
      }
      if i < |customers| {
        var c := customers[i];
        customers := customers[i := Customer(c.id, c.totalOrders + 1, c.totalSpent + o.total)];
      }
    }

    method LogItems(items: seq<Item>, ghost initial: seq<Product>)
      requires DistinctSkus(initial) && StockAgrees(initial)
      modifies this`products, this`inventoryLog
      ensures StockAgrees(initial)
      ensures forall sku :: Logged(inventoryLog, sku) == Logged(old(inventoryLog), sku) - Shipped(items, sku)
    {
      for k := 0 to |items|
        invariant StockAgrees(initial)
        invariant forall sku :: Logged(inventoryLog, sku) == Logged(old(inventoryLog), sku) - Shipped(items[..k], sku)
      {
        ghost var log := inventoryLog;
        LogAndUpdate(items[k].sku, -items[k].qty, initial);
        assert inventoryLog[..|inventoryLog| - 1] == log;
        assert items[..k + 1][..k] == items[..k];
      }
      assert items[..|items|] == items;
    }

    /**
     After all orders and restocks every product's stock is its initial stock plus the sum of its logged
     changes, which is what was restocked minus what was ordered, and every customer's totals are the
     number and the amount of the orders that were not cancelled.
     */
    method Seed(orders: seq<Order>, restocks: seq<Restock>)
      requires DistinctSkus(products) && DistinctIds(customers) && inventoryLog == []
      modifies this
      ensures StockAgrees(old(products)) && TotalsAgree(old(customers), orders)
      ensures forall sku :: Logged(inventoryLog, sku) == Restocked(restocks, sku) - ShippedAll(orders, sku)
    {
      ghost var p0, c0 := products, customers;
      for k := 0 to |orders|
        invariant StockAgrees(p0) && TotalsAgree(c0, orders[..k])
        invariant forall sku :: Logged(inventoryLog, sku) == -ShippedAll(orders[..k], sku)
      {
        var o := orders[k];
        assert orders[..k + 1] == orders[..k] + [o] && orders[..k + 1][..k] == orders[..k];
        if !o.cancelled {
          AddToTotals(o, c0, orders[..k]);
        }
        LogItems(o.items, p0);
      }
      assert orders[..|orders|] == orders;
      for k := 0 to |restocks|
        invariant StockAgrees(p0) && TotalsAgree(c0, orders)
        invariant forall sku :: Logged(inventoryLog, sku) == Restocked(restocks[..k], sku) - ShippedAll(orders, sku)
      {
        ghost var log := inventoryLog;
        LogAndUpdate(restocks[k].sku, restocks[k].qty, p0);
        assert inventoryLog[..|inventoryLog| - 1] == log;
        assert restocks[..k + 1][..k] == restocks[..k];
      }
      assert restocks[..|restocks|] == restocks;
    }
  }
}
