/**
 * The `orders` state of the dashboard (src/App.jsx) and the four ways it is
 * replaced: the initial load, a pushed order, and the two status handlers,
 * which commit only after the server has confirmed the change.
 */
module OrderBoard {
  import opened Wrappers
  import opened Pedidos
  import opened OrderView

  /** One element of `prev.map(...)` in `handleMarkAsRead`. */
  function ReadIfMatching(o: Order, id: int): (r: Order)
    ensures r.(isNew := o.isNew) == o
    ensures o.id == id ==> r.isNew == Some(false) && !Unread(r)
    ensures o.id != id ==> r == o
  {
    if o.id == id then o.(isNew := Some(false)) else o
  }

  /** One element of `prev.map(...)` in `handleMarkAsDone`. */
  function DoneIfMatching(o: Order, id: int): (r: Order)
    ensures r.(isDone := o.isDone) == o
    ensures o.id == id ==> r.isDone && Visible(r, "", DoneOrders) && !Unread(r)
    ensures o.id != id ==> r == o
  {
    if o.id == id then o.(isDone := true) else o
  }

  /**
   * The list after `handleMarkAsRead(id)` succeeds: every order with that id
   * is no longer new; every other order and every other field stays.
   */
  function MarkRead(orders: seq<Order>, id: int): (r: seq<Order>)
    ensures |r| == |orders|
    ensures forall i :: 0 <= i < |orders| && orders[i].id == id ==>
      r[i].isNew == Some(false) && r[i].(isNew := orders[i].isNew) == orders[i]
    ensures forall i :: 0 <= i < |orders| && orders[i].id != id ==> r[i] == orders[i]
  {
    if orders == [] then [] else [ReadIfMatching(orders[0], id)] + MarkRead(orders[1..], id)
  }

  /**
   * The list after `handleMarkAsDone(id)` succeeds: every order with that id
   * is done; every other order and every other field stays.
   */
  function MarkDone(orders: seq<Order>, id: int): (r: seq<Order>)
    ensures |r| == |orders|
    ensures forall i :: 0 <= i < |orders| && orders[i].id == id ==>
      r[i].isDone && r[i].(isDone := orders[i].isDone) == orders[i]
    ensures forall i :: 0 <= i < |orders| && orders[i].id != id ==> r[i] == orders[i]
  {
    if orders == [] then [] else [DoneIfMatching(orders[0], id)] + MarkDone(orders[1..], id)
  }

  /** Marking read twice is marking read once. */
  lemma MarkReadIdempotent(orders: seq<Order>, id: int)
    ensures MarkRead(MarkRead(orders, id), id) == MarkRead(orders, id)
  {
  }

  /** Marking done twice is marking done once. */
  lemma MarkDoneIdempotent(orders: seq<Order>, id: int)
    ensures MarkDone(MarkDone(orders, id), id) == MarkDone(orders, id)
  {
  }

  /** Marking one id read and another (or the same) id done gives the same list in either order. */
  lemma MarkReadThenDoneCommute(orders: seq<Order>, readId: int, doneId: int)
    ensures MarkDone(MarkRead(orders, readId), doneId) == MarkRead(MarkDone(orders, doneId), readId)
  {
    var a, b := MarkDone(MarkRead(orders, readId), doneId), MarkRead(MarkDone(orders, doneId), readId);
    assert |a| == |b|;
    forall i | 0 <= i < |a| ensures a[i] == b[i] {
    }
  }

  /**
   * Marking an id read drops from the badge exactly the unread orders with
   * that id: the count does not grow, and stays the same exactly when no
   * unread order has that id.
   */
  lemma {:induction false} MarkReadBadge(orders: seq<Order>, id: int)
    ensures NewOrdersCount(MarkRead(orders, id)) <= NewOrdersCount(orders)
    ensures NewOrdersCount(MarkRead(orders, id)) == NewOrdersCount(orders)
        <==> forall o :: o in orders && o.id == id ==> !Unread(o)
    decreases |orders|
  {
    if orders != [] {
      MarkReadBadge(orders[1..], id);
      assert MarkRead(orders, id)[1..] == MarkRead(orders[1..], id);
      assert forall o :: o in orders <==> o == orders[0] || o in orders[1..];
    }
  }

  /** The same for marking done. */
  lemma {:induction false} MarkDoneBadge(orders: seq<Order>, id: int)
    ensures NewOrdersCount(MarkDone(orders, id)) <= NewOrdersCount(orders)
    ensures NewOrdersCount(MarkDone(orders, id)) == NewOrdersCount(orders)
        <==> forall o :: o in orders && o.id == id ==> !Unread(o)
    decreases |orders|
  {
    if orders != [] {
      MarkDoneBadge(orders[1..], id);
      assert MarkDone(orders, id)[1..] == MarkDone(orders[1..], id);
      assert forall o :: o in orders <==> o == orders[0] || o in orders[1..];
    }
  }

  /** After marking an id done, its orders show on the "Done" tab and on no other tab. */
  lemma MarkDoneMovesToDoneTab(orders: seq<Order>, id: int, tab: Tab)
    ensures forall o :: o in MarkDone(orders, id) && o.id == id ==>
      o in Filtered(MarkDone(orders, id), "", DoneOrders)
    ensures tab != DoneOrders ==> forall o :: o in Filtered(MarkDone(orders, id), "", tab) ==> o.id != id
  {
  }

  /** A pushed order adds one to the badge exactly when it is unread. */
  lemma PushBadge(o: Order, orders: seq<Order>)
    ensures NewOrdersCount([o] + orders) == NewOrdersCount(orders) + (if Unread(o) then 1 else 0)
  {
    assert ([o] + orders)[1..] == orders;
  }

  /** The number of entries with a given id. */
  function Occurrences(orders: seq<Order>, id: int): (n: nat)
    ensures n <= |orders|
  {
    if orders == [] then 0 else (if orders[0].id == id then 1 else 0) + Occurrences(orders[1..], id)
  }

  /** The status handlers keep the entries of every id. */
  lemma {:induction false} MarkKeepsOccurrences(orders: seq<Order>, id: int, other: int)
    ensures Occurrences(MarkRead(orders, id), other) == Occurrences(orders, other)
    ensures Occurrences(MarkDone(orders, id), other) == Occurrences(orders, other)
    decreases |orders|
  {
    if orders != [] {
      MarkKeepsOccurrences(orders[1..], id, other);
      assert MarkRead(orders, id)[1..] == MarkRead(orders[1..], id);
      assert MarkDone(orders, id)[1..] == MarkDone(orders[1..], id);
    }
  }

  /** The `orders` state of the dashboard. */
  class Dashboard {
    var orders: seq<Order>

    /**
     * Every item of every order the dashboard holds has a non-zero quantity,
     * as `formatPedido` guarantees. A documented invariant only: every method
     * keeps it, and no other contract depends on it.
     */
    ghost predicate Valid()
      reads this
    {
      forall o :: o in orders ==> Canonical(o)
    }

    /** `useState([])`. */
    constructor ()
      ensures Valid() && orders == []
    {
      orders := [];
    }

    /**
     * `fetchAndSet`: `fetched` is the outcome of `getPedidos` (None when it
     * throws). A failed fetch or a record that `formatPedido` cannot handle
     * leaves the list as it was; otherwise the whole list is replaced by the
     * normalised records, newest first.
     */
    method LoadSnapshot(fetched: Option<seq<RawPedido>>) returns (ok: bool)
      requires Valid()
      modifies this
      ensures Valid()
      ensures ok <==> fetched.Some? && FormatAll(fetched.value).Some?
      ensures ok ==> orders == SortBy(FormatAll(fetched.value).value, NewestFirst)
      ensures ok ==> SortedBy(orders, NewestFirst) && StablePermutation(orders, FormatAll(fetched.value).value, NewestFirst)
      ensures !ok ==> orders == old(orders)
    {
      ok := false;
      if fetched.Some? {
        var formatted := FormatAll(fetched.value);
        if formatted.Some? {
          SortByCorrect(formatted.value, NewestFirst);
          var sorted := SortBy(formatted.value, NewestFirst);
          assert forall o :: o in sorted ==> o in multiset(formatted.value);
          orders := sorted;
          ok := true;
        }
      }
    }

    /**
     * The `nuevoPedido` handler: the normalised order goes in front of the
     * whole previous list, with no check for an id already present. A payload
     * `formatPedido` cannot handle changes nothing.
     */
    method ReceivePush(raw: RawPedido) returns (ok: bool)
      requires Valid()
      modifies this
      ensures Valid()
      ensures ok <==> FormatPedido(raw).Some?
      ensures ok ==> orders == [FormatPedido(raw).value] + old(orders)
      ensures ok ==> |orders| == |old(orders)| + 1 && Occurrences(orders, raw.id) == Occurrences(old(orders), raw.id) + 1
      ensures !ok ==> orders == old(orders)
    {
      var formatted := FormatPedido(raw);
      ok := formatted.Some?;
      if ok {
        orders := [formatted.value] + orders;
        assert orders[1..] == old(orders);
      }
    }

    /** `handleMarkAsRead(id)`: `remoteOk` says whether `markPedidoAsRead` resolved. */
    method MarkAsRead(id: int, remoteOk: bool)
      requires Valid()
      modifies this
      ensures Valid()
      ensures orders == if remoteOk then MarkRead(old(orders), id) else old(orders)
    {
      if remoteOk {
        ghost var before := orders;
        orders := MarkRead(orders, id);
        forall o | o in orders ensures Canonical(o) {
          var i :| 0 <= i < |orders| && orders[i] == o;
          assert before[i] in before;
        }
      }
    }

    /** `handleMarkAsDone(id)`: `remoteOk` says whether `markPedidoAsDone` resolved. */
    method MarkAsDone(id: int, remoteOk: bool)
      requires Valid()
      modifies this
      ensures Valid()
      ensures orders == if remoteOk then MarkDone(old(orders), id) else old(orders)
    {
      if remoteOk {
        ghost var before := orders;
        orders := MarkDone(orders, id);
        forall o | o in orders ensures Canonical(o) {
          var i :| 0 <= i < |orders| && orders[i] == o;
          assert before[i] in before;
        }
      }
    }
  }
}
