/** The in-memory order store: one table of orders, changed in place by the
    create, update and delete handlers and read by the list and get handlers.
    Each method is proved to do what the matching function of module Orders says. */
module OrderStore {
  import opened Orders

  class Store {
    /** The stored orders, by id. */
    var orders: Table
    /** Every id handed out so far, including those of orders deleted since.
        Stands for the uniqueness of the generated ids. */
    ghost var issued: set<string>

    ghost predicate Valid()
      reads this
    {
      KeyedById(orders) && orders.Keys <= issued
    }

    /** The store starts out empty. */
    constructor ()
      ensures Valid()
      ensures orders == map[] && issued == {}
    {
      orders := map[];
      issued := {};
    }

    /** create_order. `id` stands for the generated identifier and must never have
        been handed out before; `createdAt` stands for the current time. */
    method CreateOrder(id: string, customerName: string, orderItems: seq<string>,
                       totalAmount: real, createdAt: int) returns (order: Order)
      requires Valid()
      requires id !in issued
      modifies this
      ensures Valid()
      ensures issued == old(issued) + {id}
      ensures var s := Create(old(orders), id, customerName, orderItems, totalAmount, createdAt);
        orders == s.table && order == s.response
    {
      order := Order(id, customerName, orderItems, totalAmount, PendingStatus, createdAt);
      orders := orders[order.id := order];
      issued := issued + {id};
    }

    /** get_orders: every stored order exactly once, in an unspecified order. */
    method GetOrders() returns (all: seq<Order>)
      requires Valid()
      ensures IsListing(orders, all)
    {
      all := [];
      var rest := orders.Keys;
      while rest != {}
        invariant rest <= orders.Keys
        invariant forall i :: 0 <= i < |all| ==>
          all[i].id in orders && all[i].id !in rest && orders[all[i].id] == all[i]
        invariant forall i, j :: 0 <= i < j < |all| ==> all[i].id != all[j].id
        invariant forall k :: k in orders && k !in rest ==>
          exists i :: 0 <= i < |all| && all[i].id == k
        decreases rest
      {
        var k :| k in rest;
        ghost var before := all;
        all := all + [orders[k]];
        forall k' | k' in orders && k' !in rest - {k}
          ensures exists i :: 0 <= i < |all| && all[i].id == k'
        {
          if k' == k {
            assert all[|before|].id == k;
          } else {
            var i :| 0 <= i < |before| && before[i].id == k';
            assert all[i] == before[i];
          }
        }
        rest := rest - {k};
      }
    }

    /** get_order: the order under `id`, or NotFound; an id never handed out is
        never found. */
    method GetOrder(id: string) returns (r: Result<Order>)
      requires Valid()
      ensures r == Lookup(orders, id)
      ensures id !in issued ==> r == Err(NotFound)
    {
      if id !in orders {
        return Err(NotFound);
      }
      r := Ok(orders[id]);
    }

    /** update_order: set the status of the order under `id`. */
    method UpdateOrder(id: string, status: string) returns (r: Result<Order>)
      requires Valid()
      modifies this
      ensures Valid()
      ensures issued == old(issued)
      ensures var s := UpdateStatus(old(orders), id, status);
        orders == s.table && r == s.response
      ensures id !in old(issued) ==> r == Err(NotFound)
    {
      if id !in orders {
        return Err(NotFound);
      }
      var order := orders[id].(status := status);
      orders := orders[id := order];
      r := Ok(order);
    }

    /** delete_order: remove the order under `id`. */
    method DeleteOrder(id: string) returns (r: Result<string>)
      requires Valid()
      modifies this
      ensures Valid()
      ensures issued == old(issued)
      ensures var s := Delete(old(orders), id);
        orders == s.table && r == s.response
      ensures id !in old(issued) ==> r == Err(NotFound)
    {
      if id !in orders {
        return Err(NotFound);
      }
      orders := orders - {id};
      r := Ok(DeletedMessage);
    }
  }

  /** One order's life in a new store: create it, list the store, mark it
      shipped, read it back, delete it, and read it again. */
  method OrderLifecycle(id: string, createdAt: int)
    returns (created: Order, listed: seq<Order>, shipped: Result<Order>,
             fetched: Result<Order>, deleted: Result<string>, afterDelete: Result<Order>)
    ensures created.status == PendingStatus && created.customerName == "Alice"
    ensures created.orderItems == ["widget", "gadget"] && created.totalAmount == 19.99
    ensures listed == [created]
    ensures shipped == Ok(created.(status := "shipped"))
    ensures fetched == shipped
    ensures deleted == Ok(DeletedMessage)
    ensures afterDelete == Err(NotFound)
  {
    var store := new Store();
    created := store.CreateOrder(id, "Alice", ["widget", "gadget"], 19.99, createdAt);
    listed := store.GetOrders();
    ListingOfOne(id, created, listed);
    shipped := store.UpdateOrder(id, "shipped");
    fetched := store.GetOrder(id);
    deleted := store.DeleteOrder(id);
    afterDelete := store.GetOrder(id);
  }
}
