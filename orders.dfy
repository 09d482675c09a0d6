/** The order records of the order-management API and the effect of each of its
    five handlers on the table of orders, stated on values.

    The table is a map from an order id to the order stored under it. Each handler
    is a function from the table before the call to a `Step`: the table after the
    call and the handler's response. The class in module OrderStore is proved to
    behave as these functions say; the lemmas below say what they mean. */
module Orders {

  /** The only failure the store reports: no order has the requested id. */
  datatype Error = NotFound

  datatype Result<T> = Ok(value: T) | Err(error: Error)

  /** An order record. `totalAmount` is carried as opaque data: nothing computes
      with it. `createdAt` is the creation time, supplied by the caller. */
  datatype Order = Order(
    id: string,
    customerName: string,
    orderItems: seq<string>,
    totalAmount: real,
    status: string,
    createdAt: int)

  /** The status every new order starts with. */
  const PendingStatus: string := "pending"

  /** The confirmation a successful delete returns. */
  const DeletedMessage: string := "Order deleted successfully"

  type Table = map<string, Order>

  /** The table after a handler ran, and what the handler returned. */
  datatype Step<T> = Step(table: Table, response: T)

  /** The table invariant: every order is stored under its own id. */
  ghost predicate KeyedById(t: Table)
  {
    forall k :: k in t ==> t[k].id == k
  }

  // ---------------------------------------------------------------------------
  // The handlers, as transitions on the table
  // ---------------------------------------------------------------------------

  /** create_order: build a pending order with the given id and fields and store
      it under its id. */
  function Create(t: Table, id: string, customerName: string, orderItems: seq<string>,
                  totalAmount: real, createdAt: int): Step<Order>
  {
    var order := Order(id, customerName, orderItems, totalAmount, PendingStatus, createdAt);
    Step(t[order.id := order], order)
  }

  /** get_order: the order stored under `id`, or NotFound. */
  function Lookup(t: Table, id: string): (r: Result<Order>)
    ensures r.Ok? <==> id in t
    ensures r.Ok? ==> r.value == t[id]
    ensures r.Err? ==> r.error == NotFound
  {
    if id !in t then Err(NotFound) else Ok(t[id])
  }

  /** update_order: overwrite the status of the order stored under `id`. */
  function UpdateStatus(t: Table, id: string, status: string): Step<Result<Order>>
  {
    if id !in t then Step(t, Err(NotFound))
    else
      var order := t[id].(status := status);
      Step(t[id := order], Ok(order))
  }

  /** delete_order: remove the order stored under `id`. */
  function Delete(t: Table, id: string): Step<Result<string>>
  {
    if id !in t then Step(t, Err(NotFound))
    else Step(t - {id}, Ok(DeletedMessage))
  }

  /** get_orders: `s` lists the stored orders, each exactly once, in some order. */
  ghost predicate IsListing(t: Table, s: seq<Order>)
  {
    && (forall i :: 0 <= i < |s| ==> s[i].id in t && t[s[i].id] == s[i])
    && (forall i, j :: 0 <= i < j < |s| ==> s[i].id != s[j].id)
    && (forall k :: k in t ==> exists i :: 0 <= i < |s| && s[i].id == k)
  }

  // ---------------------------------------------------------------------------
  // What each handler does
  // ---------------------------------------------------------------------------

  /** Create with a fresh id adds exactly one entry, under that id; it holds the
      returned order, which is pending and carries the caller's fields; every
      other entry is as it was. */
  lemma CreateInserts(t: Table, id: string, customerName: string, orderItems: seq<string>,
                      totalAmount: real, createdAt: int)
    requires id !in t
    ensures var s := Create(t, id, customerName, orderItems, totalAmount, createdAt);
      && s.table.Keys == t.Keys + {id}
      && |s.table| == |t| + 1
      && s.table[id] == s.response
      && s.response.id == id
      && s.response.customerName == customerName
      && s.response.orderItems == orderItems
      && s.response.totalAmount == totalAmount
      && s.response.status == PendingStatus
      && s.response.createdAt == createdAt
      && (forall k :: k in t ==> s.table[k] == t[k])
  {
  }

  /** An update of an absent id fails with NotFound and changes nothing; of a
      present id it changes that order's status and nothing else, and returns the
      order as now stored. */
  lemma UpdateStatusChangesOnlyStatus(t: Table, id: string, status: string)
    ensures var s := UpdateStatus(t, id, status);
      && (id !in t ==> s.response == Err(NotFound) && s.table == t)
      && (id in t ==>
            && s.response.Ok?
            && s.table.Keys == t.Keys
            && s.table[id] == s.response.value
            && s.response.value.status == status
            && s.response.value.id == t[id].id
            && s.response.value.customerName == t[id].customerName
            && s.response.value.orderItems == t[id].orderItems
            && s.response.value.totalAmount == t[id].totalAmount
            && s.response.value.createdAt == t[id].createdAt
            && (forall k :: k in t && k != id ==> s.table[k] == t[k]))
  {
  }

  /** A delete of an absent id fails with NotFound and changes nothing; of a
      present id it removes exactly that key and confirms. */
  lemma DeleteRemovesOne(t: Table, id: string)
    ensures var s := Delete(t, id);
      && (id !in t ==> s.response == Err(NotFound) && s.table == t)
      && (id in t ==>
            && s.response == Ok(DeletedMessage)
            && s.table.Keys == t.Keys - {id}
            && |s.table| == |t| - 1
            && (forall k :: k in s.table ==> s.table[k] == t[k]))
  {
  }

  // ---------------------------------------------------------------------------
  // The table invariant is kept by every handler that changes the table
  // ---------------------------------------------------------------------------

  lemma CreateKeepsKeyed(t: Table, id: string, customerName: string, orderItems: seq<string>,
                         totalAmount: real, createdAt: int)
    requires KeyedById(t)
    ensures KeyedById(Create(t, id, customerName, orderItems, totalAmount, createdAt).table)
  {
  }

  lemma UpdateStatusKeepsKeyed(t: Table, id: string, status: string)
    requires KeyedById(t)
    ensures KeyedById(UpdateStatus(t, id, status).table)
  {
  }

  lemma DeleteKeepsKeyed(t: Table, id: string)
    requires KeyedById(t)
    ensures KeyedById(Delete(t, id).table)
  {
  }

  // ---------------------------------------------------------------------------
  // A get after another handler
  // ---------------------------------------------------------------------------

  /** A get of the id just created returns the order create returned. */
  lemma GetAfterCreate(t: Table, id: string, customerName: string, orderItems: seq<string>,
                       totalAmount: real, createdAt: int)
    ensures var s := Create(t, id, customerName, orderItems, totalAmount, createdAt);
      Lookup(s.table, id) == Ok(s.response)
  {
  }

  /** A get after a successful update sees the new status and the old other fields. */
  lemma GetAfterUpdateStatus(t: Table, id: string, status: string)
    requires id in t
    ensures Lookup(UpdateStatus(t, id, status).table, id) == Ok(t[id].(status := status))
  {
  }

  /** A get after a delete of the same id fails with NotFound, whether or not the
      delete itself found the id. */
  lemma GetAfterDelete(t: Table, id: string)
    ensures Lookup(Delete(t, id).table, id) == Err(NotFound)
  {
  }

  // ---------------------------------------------------------------------------
  // Listing
  // ---------------------------------------------------------------------------

  /** The ids of the orders in `s`. */
  function Ids(s: seq<Order>): set<string>
  {
    if s == [] then {} else {s[0].id} + Ids(s[1..])
  }

  ghost predicate DistinctIds(s: seq<Order>)
  {
    forall i, j :: 0 <= i < j < |s| ==> s[i].id != s[j].id
  }

  lemma {:induction false} IdsMembers(s: seq<Order>)
    ensures forall k :: k in Ids(s) <==> exists i :: 0 <= i < |s| && s[i].id == k
  {
    if s != [] {
      IdsMembers(s[1..]);
      forall k | k in Ids(s) ensures exists i :: 0 <= i < |s| && s[i].id == k {
        if k != s[0].id {
          assert k in Ids(s[1..]);
          var i :| 0 <= i < |s[1..]| && s[1..][i].id == k;
          assert s[i + 1].id == k;
        }
      }
      forall k | exists i :: 0 <= i < |s| && s[i].id == k ensures k in Ids(s) {
        var i :| 0 <= i < |s| && s[i].id == k;
        if i > 0 {
          assert s[1..][i - 1].id == k;
        }
      }
    }
  }

  lemma {:induction false} DistinctIdsCardinality(s: seq<Order>)
    requires DistinctIds(s)
    ensures |Ids(s)| == |s|
  {
    if s != [] {
      DistinctIdsCardinality(s[1..]);
      IdsMembers(s[1..]);
      assert s[0].id !in Ids(s[1..]);
    }
  }

  /** With distinct ids, an order occurs at most once, and exactly once when some
      element has its id and equals it. */
  lemma {:induction false} DistinctIdsOccurrences(s: seq<Order>, o: Order)
    requires DistinctIds(s)
    ensures multiset(s)[o] <= 1
    ensures (exists i :: 0 <= i < |s| && s[i] == o) ==> multiset(s)[o] == 1
  {
    if s != [] {
      assert s == [s[0]] + s[1..];
      DistinctIdsOccurrences(s[1..], o);
      if s[0] == o {
        IdsMembers(s[1..]);
        assert o.id !in Ids(s[1..]);
      } else if exists i :: 0 <= i < |s| && s[i] == o {
        var i :| 0 <= i < |s| && s[i] == o;
        assert s[1..][i - 1] == o;
      }
    }
  }

  /** A listing holds as many orders as the table has entries. */
  lemma ListingSize(t: Table, s: seq<Order>)
    requires IsListing(t, s)
    ensures |s| == |t|
  {
    IdsMembers(s);
    assert Ids(s) == t.Keys;
    DistinctIdsCardinality(s);
  }

  /** A listing holds every stored order exactly once, and nothing else. */
  lemma ListingHoldsEachOnce(t: Table, s: seq<Order>)
    requires IsListing(t, s)
    ensures forall k :: k in t ==> multiset(s)[t[k]] == 1
    ensures forall o :: o in multiset(s) ==> o in t.Values
  {
    forall k | k in t ensures multiset(s)[t[k]] == 1 {
      var i :| 0 <= i < |s| && s[i].id == k;
      DistinctIdsOccurrences(s, t[k]);
    }
  }

  /** The order of a listing is unspecified, but its contents are not: any two
      listings of one table are permutations of each other. */
  lemma ListingsArePermutations(t: Table, s1: seq<Order>, s2: seq<Order>)
    requires IsListing(t, s1) && IsListing(t, s2)
    ensures multiset(s1) == multiset(s2)
  {
    forall o ensures multiset(s1)[o] == multiset(s2)[o] {
      DistinctIdsOccurrences(s1, o);
      DistinctIdsOccurrences(s2, o);
      if o in s1 {
        var i :| 0 <= i < |s1| && s1[i] == o;
        var j :| 0 <= j < |s2| && s2[j].id == o.id;
      }
    }
  }

  /** The only listing of a table with one entry is that entry. */
  lemma ListingOfOne(id: string, o: Order, s: seq<Order>)
    requires IsListing(map[id := o], s)
    ensures s == [o]
  {
    ListingSize(map[id := o], s);
  }
}
