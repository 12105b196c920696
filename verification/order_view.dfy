/**
 * What the dashboard derives from its `orders` list on every render
 * (src/App.jsx): the filtered list (`filteredOrders`), the sorted list
 * (`sortedOrders`) and the unread badge (`newOrdersCount`).
 */
module OrderView {
  import opened Wrappers
  import opened JsText
  import opened Pedidos

  /** The tab buttons: "All Orders", "New", "Delivery", "Pickup", "Done". */
  datatype Tab = AllOrders | NewOrders | DeliveryOrders | PickupOrders | DoneOrders

  /** The sort dropdown, plus any other value, for which the comparator answers 0. */
  datatype SortOrder = NewestFirst | OldestFirst | HighestTotal | LowestTotal | Unrecognised

  /** A search query matches on the lower-cased customer name, or on the id as typed. */
  predicate MatchesSearch(o: Order, query: string): (r: bool)
    ensures r <==> ((exists i :: OccursAt(ToLower(o.customer), ToLower(query), i))
                 || (exists i :: OccursAt(IdString(o.id), query, i)))
  {
    SearchIncludesIff(o, query);
    Includes(ToLower(o.customer), ToLower(query)) || Includes(IdString(o.id), query)
  }

  lemma SearchIncludesIff(o: Order, query: string)
    ensures (Includes(ToLower(o.customer), ToLower(query)) || Includes(IdString(o.id), query))
        <==> ((exists i :: OccursAt(ToLower(o.customer), ToLower(query), i))
           || (exists i :: OccursAt(IdString(o.id), query, i)))
  {
    IncludesIff(ToLower(o.customer), ToLower(query));
    IncludesIff(IdString(o.id), query);
  }

  /** The predicate of `orders.filter(...)`: a non-empty query overrides the tab. */
  predicate Visible(o: Order, query: string, tab: Tab): (r: bool)
    ensures query != "" ==> (r <==> MatchesSearch(o, query))
    ensures query == "" && tab == DoneOrders ==> (r <==> o.isDone)
    ensures query == "" && tab != DoneOrders && r ==> !o.isDone
    ensures query == "" && tab == NewOrders && r ==> IsTrue(o.isNew)
    ensures query == "" && tab == DeliveryOrders && r ==> o.kind == Delivery
    ensures query == "" && tab == PickupOrders && r ==> o.kind == Pickup
    ensures query == "" && tab == AllOrders ==> (r <==> !o.isDone)
  {
    if query != "" then MatchesSearch(o, query)
    else if tab == DoneOrders then o.isDone
    else if o.isDone then false
    else if tab == NewOrders && !IsTrue(o.isNew) then false
    else if tab == DeliveryOrders && o.kind != Delivery then false
    else if tab == PickupOrders && o.kind != Pickup then false
    else true
  }

  /** `a` is `b` with some elements left out, the rest in order. */
  ghost predicate IsSubsequence<T>(a: seq<T>, b: seq<T>)
    decreases |b|
  {
    if b == [] then a == []
    else (a != [] && a[0] == b[0] && IsSubsequence(a[1..], b[1..])) || IsSubsequence(a, b[1..])
  }

  /** `filteredOrders`. */
  function Filtered(orders: seq<Order>, query: string, tab: Tab): (r: seq<Order>)
    ensures |r| <= |orders|
    ensures forall o :: o in r <==> o in orders && Visible(o, query, tab)
  {
    if orders == [] then []
    else if Visible(orders[0], query, tab) then [orders[0]] + Filtered(orders[1..], query, tab)
    else Filtered(orders[1..], query, tab)
  }

  /** The filter keeps every passing entry as often as it occurs in the list, and no other entry. */
  lemma {:induction false} FilteredKeepsMultiplicity(orders: seq<Order>, query: string, tab: Tab)
    ensures forall o :: multiset(Filtered(orders, query, tab))[o]
                     == if Visible(o, query, tab) then multiset(orders)[o] else 0
    decreases |orders|
  {
    if orders != [] {
      FilteredKeepsMultiplicity(orders[1..], query, tab);
      assert orders == [orders[0]] + orders[1..];
    }
  }

  /** The filter keeps the list order: its result is a subsequence of the list. */
  lemma {:induction false} FilteredIsSubsequence(orders: seq<Order>, query: string, tab: Tab)
    ensures IsSubsequence(Filtered(orders, query, tab), orders)
    decreases |orders|
  {
    if orders != [] {
      FilteredIsSubsequence(orders[1..], query, tab);
      var r := Filtered(orders, query, tab);
      if Visible(orders[0], query, tab) {
        assert r[1..] == Filtered(orders[1..], query, tab);
      }
    }
  }

  /** With a non-empty query the tab makes no difference. */
  lemma {:induction false} SearchOverridesTab(orders: seq<Order>, query: string, tab1: Tab, tab2: Tab)
    requires query != ""
    ensures Filtered(orders, query, tab1) == Filtered(orders, query, tab2)
    decreases |orders|
  {
    if orders != [] {
      SearchOverridesTab(orders[1..], query, tab1, tab2);
    }
  }

  /** With a non-empty query the result is exactly the orders the query matches, done or not. */
  lemma SearchResult(orders: seq<Order>, query: string, tab: Tab)
    requires query != ""
    ensures forall o :: o in Filtered(orders, query, tab) <==> o in orders && MatchesSearch(o, query)
  {
  }

  /**
   * With an empty query: "Done" shows exactly the done orders, every other tab
   * only orders not done; "New" also needs `isNew`, "Delivery" and "Pickup"
   * the matching kind, and "All Orders" shows every order not done.
   */
  lemma EmptyQueryTabs(orders: seq<Order>, o: Order)
    ensures o in Filtered(orders, "", DoneOrders) <==> o in orders && o.isDone
    ensures o in Filtered(orders, "", AllOrders) <==> o in orders && !o.isDone
    ensures o in Filtered(orders, "", NewOrders) <==> o in orders && !o.isDone && IsTrue(o.isNew)
    ensures o in Filtered(orders, "", DeliveryOrders) <==> o in orders && !o.isDone && o.kind == Delivery
    ensures o in Filtered(orders, "", PickupOrders) <==> o in orders && !o.isDone && o.kind == Pickup
  {
  }

  /** Searching for an order's own id finds it, whatever the tab and whether or not it is done. */
  lemma SearchByIdFindsOrder(orders: seq<Order>, o: Order, tab: Tab)
    requires o in orders
    ensures o in Filtered(orders, IdString(o.id), tab)
  {
    IncludesEmptyAndSelf(IdString(o.id));
  }

  /** Searching for part of a customer's name, in its own case, finds the order. */
  lemma SearchByNameFindsOrder(orders: seq<Order>, o: Order, query: string, tab: Tab)
    requires o in orders && query != "" && Includes(o.customer, query)
    ensures o in Filtered(orders, query, tab)
  {
    LowerKeepsInclusion(o.customer, query);
  }

  /** Number of orders in the list that are done. */
  function DoneCount(orders: seq<Order>): (n: nat)
    ensures n <= |orders|
  {
    if orders == [] then 0 else (if orders[0].isDone then 1 else 0) + DoneCount(orders[1..])
  }

  /**
   * Without a query the "Done" tab and "All Orders" split the list: every
   * order shows on exactly one of them.
   */
  lemma {:induction false} DoneAndAllPartition(orders: seq<Order>)
    ensures |Filtered(orders, "", DoneOrders)| == DoneCount(orders)
    ensures |Filtered(orders, "", AllOrders)| == |orders| - DoneCount(orders)
    decreases |orders|
  {
    if orders != [] {
      DoneAndAllPartition(orders[1..]);
    }
  }

  /** Without a query "Delivery" and "Pickup" split the not-done orders of "All Orders". */
  lemma {:induction false} DeliveryAndPickupPartition(orders: seq<Order>)
    ensures |Filtered(orders, "", DeliveryOrders)| + |Filtered(orders, "", PickupOrders)|
         == |Filtered(orders, "", AllOrders)|
    decreases |orders|
  {
    if orders != [] {
      DeliveryAndPickupPartition(orders[1..]);
      FilteredLengthStep(orders, "", DeliveryOrders);
      FilteredLengthStep(orders, "", PickupOrders);
      FilteredLengthStep(orders, "", AllOrders);
    }
  }

  /** One step of the filter: the first order adds one exactly when it is visible. */
  lemma FilteredLengthStep(orders: seq<Order>, query: string, tab: Tab)
    requires orders != []
    ensures |Filtered(orders, query, tab)|
         == (if Visible(orders[0], query, tab) then 1 else 0) + |Filtered(orders[1..], query, tab)|
  {
  }

  /** Without a query "New" shows a subsequence of "All Orders". */
  lemma {:induction false} NewWithinAll(orders: seq<Order>)
    ensures IsSubsequence(Filtered(orders, "", NewOrders), Filtered(orders, "", AllOrders))
    decreases |orders|
  {
    if orders != [] {
      NewWithinAll(orders[1..]);
      var n, a := Filtered(orders, "", NewOrders), Filtered(orders, "", AllOrders);
      if Visible(orders[0], "", NewOrders) {
        assert n[1..] == Filtered(orders[1..], "", NewOrders);
        assert a[1..] == Filtered(orders[1..], "", AllOrders);
      } else if Visible(orders[0], "", AllOrders) {
        assert a[1..] == Filtered(orders[1..], "", AllOrders);
      }
    }
  }

  /** An order the badge counts: truthy `isNew` and not done. */
  predicate Unread(o: Order): (r: bool)
    ensures r <==> Visible(o, "", NewOrders)
  {
    IsTrue(o.isNew) && !o.isDone
  }

  /** `newOrdersCount`, counted over the whole list. */
  function NewOrdersCount(orders: seq<Order>): (n: nat)
    ensures n <= |orders|
    ensures n == 0 <==> forall o :: o in orders ==> !Unread(o)
  {
    if orders == [] then 0 else (if Unread(orders[0]) then 1 else 0) + NewOrdersCount(orders[1..])
  }

  /**
   * The badge equals the number of cards the "New" tab shows with an empty
   * query; it does not depend on the query, the tab or the sort order.
   */
  lemma {:induction false} BadgeCountsNewTab(orders: seq<Order>)
    ensures NewOrdersCount(orders) == |Filtered(orders, "", NewOrders)|
    decreases |orders|
  {
    if orders != [] {
      BadgeCountsNewTab(orders[1..]);
    }
  }

  /**
   * The sort key: the comparator `(a, b) => ...` of `sortedOrders` returns
   * `Rank(a) - Rank(b)`, so sorting by it is sorting by ascending rank.
   */
  function Rank(o: Order, order: SortOrder): int {
    match order
    case NewestFirst => -o.createdAt
    case OldestFirst => o.createdAt
    case HighestTotal => -o.total
    case LowestTotal => o.total
    case Unrecognised => 0
  }

  /** The comparator of `sortedOrders`, branch by branch. */
  function Compare(a: Order, b: Order, order: SortOrder): (r: int)
    ensures r == Rank(a, order) - Rank(b, order)
    ensures order == NewestFirst && r < 0 ==> a.createdAt > b.createdAt
    ensures order == HighestTotal && r < 0 ==> a.total > b.total
  {
    match order
    case NewestFirst => b.createdAt - a.createdAt
    case OldestFirst => a.createdAt - b.createdAt
    case HighestTotal => b.total - a.total
    case LowestTotal => a.total - b.total
    case Unrecognised => 0
  }

  /** No two elements are out of order for the comparator. */
  ghost predicate SortedBy(s: seq<Order>, order: SortOrder) {
    forall i, j :: 0 <= i < j < |s| ==> Compare(s[i], s[j], order) <= 0
  }

  /** The elements of `s` with rank `k`, in their order in `s`. */
  function WithRank(s: seq<Order>, order: SortOrder, k: int): seq<Order> {
    if s == [] then []
    else if Rank(s[0], order) == k then [s[0]] + WithRank(s[1..], order, k)
    else WithRank(s[1..], order, k)
  }

  /**
   * A stable reordering of `s`: every group of equal rank keeps its order.
   * (Same per-rank groups also makes `r` a permutation of `s`.)
   */
  ghost predicate StablePermutation(r: seq<Order>, s: seq<Order>, order: SortOrder) {
    multiset(r) == multiset(s) && forall k :: WithRank(r, order, k) == WithRank(s, order, k)
  }

  /** Places `x` before the first element whose rank is not smaller. */
  function Insert(x: Order, s: seq<Order>, order: SortOrder): (r: seq<Order>)
    ensures |r| == |s| + 1
    ensures multiset(r) == multiset(s) + multiset{x}
  {
    if s == [] || Rank(x, order) <= Rank(s[0], order) then [x] + s
    else assert s == [s[0]] + s[1..]; [s[0]] + Insert(x, s[1..], order)
  }

  /**
   * `[...filtered].sort(comparator)`: `Array.prototype.sort` is stable, so
   * the result is the stable sort by rank, written here as insertion sort.
   */
  function SortBy(s: seq<Order>, order: SortOrder): (r: seq<Order>)
    ensures |r| == |s|
    ensures multiset(r) == multiset(s)
  {
    if s == [] then [] else assert s == [s[0]] + s[1..]; Insert(s[0], SortBy(s[1..], order), order)
  }

  /** In a sorted list no element ranks below the first. */
  lemma SortedHeadIsLeast(s: seq<Order>, order: SortOrder)
    requires s != [] && SortedBy(s, order)
    ensures forall y :: y in s ==> Rank(s[0], order) <= Rank(y, order)
  {
    forall y | y in s ensures Rank(s[0], order) <= Rank(y, order) {
      var j :| 0 <= j < |s| && s[j] == y;
      if j > 0 {
        assert Compare(s[0], s[j], order) <= 0;
      }
    }
  }

  /** A sorted list with a head ranking no higher than any of its elements is still sorted. */
  lemma ConsSorted(h: Order, t: seq<Order>, order: SortOrder)
    requires SortedBy(t, order)
    requires forall y :: y in t ==> Rank(h, order) <= Rank(y, order)
    ensures SortedBy([h] + t, order)
  {
    var full := [h] + t;
    forall i, j | 0 <= i < j < |full| ensures Compare(full[i], full[j], order) <= 0 {
      if i == 0 {
        assert full[j] == t[j - 1];
      } else {
        assert full[i] == t[i - 1] && full[j] == t[j - 1];
      }
    }
  }

  lemma {:induction false} InsertSorted(x: Order, s: seq<Order>, order: SortOrder)
    requires SortedBy(s, order)
    ensures SortedBy(Insert(x, s, order), order)
    decreases |s|
  {
    if s == [] || Rank(x, order) <= Rank(s[0], order) {
      if s != [] {
        SortedHeadIsLeast(s, order);
      }
      ConsSorted(x, s, order);
    } else {
      assert SortedBy(s[1..], order) by {
        forall i, j | 0 <= i < j < |s[1..]| ensures Compare(s[1..][i], s[1..][j], order) <= 0 {
          assert s[1..][i] == s[i + 1] && s[1..][j] == s[j + 1];
        }
      }
      InsertSorted(x, s[1..], order);
      SortedHeadIsLeast(s, order);
      var r := Insert(x, s[1..], order);
      forall y | y in r ensures Rank(s[0], order) <= Rank(y, order) {
        assert y in multiset(r);
        assert y == x || y in multiset(s[1..]);
      }
      ConsSorted(s[0], r, order);
    }
  }

  lemma {:induction false} InsertByRank(x: Order, s: seq<Order>, order: SortOrder, k: int)
    ensures WithRank(Insert(x, s, order), order, k)
         == if Rank(x, order) == k then [x] + WithRank(s, order, k) else WithRank(s, order, k)
    decreases |s|
  {
    if s != [] && Rank(x, order) > Rank(s[0], order) {
      InsertByRank(x, s[1..], order, k);
    }
  }

  lemma {:induction false} SortByRank(s: seq<Order>, order: SortOrder, k: int)
    ensures WithRank(SortBy(s, order), order, k) == WithRank(s, order, k)
    decreases |s|
  {
    if s != [] {
      SortByRank(s[1..], order, k);
      InsertByRank(s[0], SortBy(s[1..], order), order, k);
    }
  }

  /** The sorted list is ordered by the comparator and is a stable permutation of its input. */
  lemma {:induction false} SortByCorrect(s: seq<Order>, order: SortOrder)
    ensures SortedBy(SortBy(s, order), order)
    ensures StablePermutation(SortBy(s, order), s, order)
    decreases |s|
  {
    if s != [] {
      SortByCorrect(s[1..], order);
      InsertSorted(s[0], SortBy(s[1..], order), order);
    }
    forall k ensures WithRank(SortBy(s, order), order, k) == WithRank(s, order, k) {
      SortByRank(s, order, k);
    }
  }

  lemma WithRankHead(s: seq<Order>, order: SortOrder)
    requires s != []
    ensures WithRank(s, order, Rank(s[0], order)) != []
    ensures WithRank(s, order, Rank(s[0], order))[0] == s[0]
  {
  }

  lemma {:induction false} WithRankMembers(s: seq<Order>, order: SortOrder, k: int)
    ensures forall y :: y in WithRank(s, order, k) ==> y in s && Rank(y, order) == k
    decreases |s|
  {
    if s != [] {
      WithRankMembers(s[1..], order, k);
    }
  }

  /**
   * The stable sort is unique: two lists sorted by the comparator with the
   * same per-rank groups are equal. So any stable sort gives `SortBy`.
   */
  lemma {:induction false} StableSortIsUnique(a: seq<Order>, b: seq<Order>, order: SortOrder)
    requires SortedBy(a, order) && SortedBy(b, order)
    requires forall k :: WithRank(a, order, k) == WithRank(b, order, k)
    ensures a == b
    decreases |a| + |b|
  {
    if a == [] && b != [] {
      WithRankHead(b, order);
    } else if a != [] && b == [] {
      WithRankHead(a, order);
    } else if a != [] {
      var ka, kb := Rank(a[0], order), Rank(b[0], order);
      WithRankHead(a, order);
      WithRankHead(b, order);
      WithRankMembers(b, order, ka);
      WithRankMembers(a, order, kb);
      assert WithRank(b, order, ka)[0] in b;
      assert WithRank(a, order, kb)[0] in a;
      assert ka == kb;
      assert a[0] == b[0];
      forall k ensures WithRank(a[1..], order, k) == WithRank(b[1..], order, k) {
        var wa, wb := WithRank(a, order, k), WithRank(b, order, k);
        assert wa == wb;
        if ka == k {
          assert wa[1..] == WithRank(a[1..], order, k);
          assert wb[1..] == WithRank(b[1..], order, k);
        }
      }
      StableSortIsUnique(a[1..], b[1..], order);
      assert a == [a[0]] + a[1..] && b == [b[0]] + b[1..];
    }
  }

  /** With an unrecognised sort order the comparator always answers 0 and the list stays as it is. */
  lemma {:induction false} UnrecognisedKeepsOrder(s: seq<Order>)
    ensures SortBy(s, Unrecognised) == s
    decreases |s|
  {
    if s != [] {
      UnrecognisedKeepsOrder(s[1..]);
    }
  }

  /** `sortedOrders`: the filtered list, sorted by the selected order. */
  function SortedOrders(orders: seq<Order>, query: string, tab: Tab, order: SortOrder): (r: seq<Order>)
    ensures |r| == |Filtered(orders, query, tab)|
    ensures forall o :: o in r <==> o in orders && Visible(o, query, tab)
  {
    var f := Filtered(orders, query, tab);
    var r := SortBy(f, order);
    assert forall o :: o in r <==> o in f by {
      assert forall o :: o in r <==> o in multiset(r);
    }
    r
  }
}
