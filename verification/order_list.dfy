/**
 * The order list of src/pages/Index.tsx: the search filter, the selection
 * of orders to print, and the labels printed for the selected orders.
 */
module OrderList {
  import opened Text
  import opened Seqs
  import opened Rental

  /** The lower-cased query occurs in one of the four searched fields,
      lower-cased. */
  predicate MatchesSearch(o: RentalOrder, search: string)
  {
    var q := Lower(search);
    || Contains(Lower(o.jobName), q)
    || Contains(Lower(o.customerName), q)
    || Contains(Lower(o.caseAssetCode), q)
    || Contains(Lower(o.orderRef), q)
  }

  /** The search box's test as a predicate on orders. */
  function Matches(search: string): RentalOrder -> bool
  {
    (o: RentalOrder) => MatchesSearch(o, search)
  }

  /** `filteredOrders`: the orders matching the search box, in list order,
      each as often as it occurs in the list. */
  function FilteredOrders(orders: seq<RentalOrder>, search: string): (r: seq<RentalOrder>)
    ensures forall i :: 0 <= i < |r| ==> r[i] in orders && MatchesSearch(r[i], search)
    ensures forall i :: 0 <= i < |orders| && MatchesSearch(orders[i], search) ==> orders[i] in r
    ensures forall o :: multiset(r)[o] == if MatchesSearch(o, search) then multiset(orders)[o] else 0
    ensures |r| == Count(orders, Matches(search))
    ensures IsSubsequence(r, orders)
  {
    FilterMultiset(orders, Matches(search));
    FilterLength(orders, Matches(search));
    Filter(orders, Matches(search))
  }

  /** An empty search box shows every order. */
  lemma EmptySearchKeepsAll(orders: seq<RentalOrder>)
    ensures FilteredOrders(orders, "") == orders
  {
    forall i | 0 <= i < |orders|
      ensures MatchesSearch(orders[i], "")
    {
      assert OccursAt(Lower(orders[i].jobName), Lower(""), 0);
    }
    FilterKeepsAll(orders, Matches(""));
  }

  /** The search ignores the letter case of the query. */
  lemma SearchIgnoresQueryCase(orders: seq<RentalOrder>, search: string)
    ensures FilteredOrders(orders, Lower(search)) == FilteredOrders(orders, search)
  {
    LowerIdempotent(search);
    FilterCongruent(orders, Matches(Lower(search)), Matches(search));
  }

  /** A longer query shows no order that a shorter query it contains hides. */
  lemma NarrowerSearchShowsFewer(o: RentalOrder, search: string, longer: string)
    requires Contains(Lower(longer), Lower(search))
    requires MatchesSearch(o, longer)
    ensures MatchesSearch(o, search)
  {
    var q, q' := Lower(search), Lower(longer);
    if Contains(Lower(o.jobName), q') {
      ContainsTransitive(Lower(o.jobName), q', q);
    } else if Contains(Lower(o.customerName), q') {
      ContainsTransitive(Lower(o.customerName), q', q);
    } else if Contains(Lower(o.caseAssetCode), q') {
      ContainsTransitive(Lower(o.caseAssetCode), q', q);
    } else {
      ContainsTransitive(Lower(o.orderRef), q', q);
    }
  }

  /** `toggleSelect(id)`: removes the id if selected, else appends it. */
  function ToggleSelect(selected: seq<string>, id: string): (r: seq<string>)
    ensures id in r <==> id !in selected
    ensures forall x :: x != id ==> (x in r <==> x in selected)
    ensures NoDuplicates(selected) ==> NoDuplicates(r)
  {
    if id in selected then
      var r := Filter(selected, x => x != id);
      assert NoDuplicates(selected) ==> NoDuplicates(r) by {
        if NoDuplicates(selected) {
          FilterKeepsDistinct(selected, x => x != id);
        }
      }
      r
    else selected + [id]
  }

  /** A filter of a duplicate-free sequence is duplicate-free. */
  lemma {:induction false} FilterKeepsDistinct<T>(s: seq<T>, p: T -> bool)
    requires NoDuplicates(s)
    ensures NoDuplicates(Filter(s, p))
    decreases |s|
  {
    if |s| > 0 {
      FilterKeepsDistinct(s[1..], p);
      assert s[0] !in s[1..];
    }
  }

  /** Toggling an unselected id twice gives back the same selection. */
  lemma ToggleSelectTwice(selected: seq<string>, id: string)
    requires id !in selected
    ensures ToggleSelect(ToggleSelect(selected, id), id) == selected
  {
    var p := (x: string) => x != id;
    FilterAppend(selected, [id], p);
    FilterKeepsAll(selected, p);
  }

  /** The ids of a list of orders, in order. */
  function Ids(orders: seq<RentalOrder>): (r: seq<string>)
    ensures |r| == |orders|
    ensures forall i :: 0 <= i < |orders| ==> r[i] == orders[i].id
  {
    seq(|orders|, i requires 0 <= i < |orders| => orders[i].id)
  }

  /** `selectAll`: clears the selection when it is as long as the filtered
      list (whatever it holds), otherwise selects the filtered orders. */
  function SelectAll(selected: seq<string>, filtered: seq<RentalOrder>): (r: seq<string>)
    ensures r == [] || r == Ids(filtered)
    ensures |selected| == |filtered| ==> r == []
    ensures |selected| != |filtered| ==> r == Ids(filtered)
  {
    if |selected| == |filtered| then [] else Ids(filtered)
  }

  /** Pressing "select all" twice from a partial selection clears it. */
  lemma SelectAllTwiceClears(selected: seq<string>, filtered: seq<RentalOrder>)
    requires |selected| != |filtered|
    ensures SelectAll(SelectAll(selected, filtered), filtered) == []
  {
  }

  /** The order's id is selected. */
  function IsSelected(selected: seq<string>): RentalOrder -> bool
  {
    (o: RentalOrder) => o.id in selected
  }

  /** The case belongs to order `id`. */
  function HasOrderId(id: string): ResolvedCase -> bool
  {
    (c: ResolvedCase) => c.orderId == id
  }

  /** The case carries the id of a selected order of the list. */
  predicate FromSelectedOrder(orders: seq<RentalOrder>, selected: seq<string>, c: ResolvedCase)
  {
    exists j | 0 <= j < |orders| :: orders[j].id in selected && c.orderId == orders[j].id
  }

  /** `resolvedCases`: the cases of every selected order, orders taken in
      list order (not in the order they were selected). */
  function ResolvedCases(orders: seq<RentalOrder>, selected: seq<string>): (r: seq<ResolvedCase>)
    ensures forall i :: 0 <= i < |r| ==> FromSelectedOrder(orders, selected, r[i])
    ensures |r| >= Count(orders, IsSelected(selected))
    decreases |orders|
  {
    if |orders| == 0 then []
    else
      var head := if orders[0].id in selected then ResolveOrderCases(orders[0]) else [];
      var rest := ResolvedCases(orders[1..], selected);
      var r := head + rest;
      assert forall i :: 0 <= i < |head| ==> head[i].orderId == orders[0].id;
      CasesFromSelected(orders, selected, head, rest);
      r
  }

  /** Cases of the first order, when selected, followed by cases of selected
      later orders all come from selected orders. */
  lemma CasesFromSelected(orders: seq<RentalOrder>, selected: seq<string>, head: seq<ResolvedCase>, rest: seq<ResolvedCase>)
    requires |orders| > 0
    requires head != [] ==> orders[0].id in selected
    requires forall i :: 0 <= i < |head| ==> head[i].orderId == orders[0].id
    requires forall i :: 0 <= i < |rest| ==> FromSelectedOrder(orders[1..], selected, rest[i])
    ensures forall i :: 0 <= i < |head + rest| ==> FromSelectedOrder(orders, selected, (head + rest)[i])
  {
    var r := head + rest;
    forall i | 0 <= i < |r|
      ensures FromSelectedOrder(orders, selected, r[i])
    {
      if i < |head| {
        assert r[i].orderId == orders[0].id;
      } else {
        assert r[i] == rest[i - |head|];
        assert FromSelectedOrder(orders[1..], selected, rest[i - |head|]);
        var j :| 0 <= j < |orders[1..]| && orders[1..][j].id in selected && rest[i - |head|].orderId == orders[1..][j].id;
        assert orders[j + 1] == orders[1..][j];
      }
    }
  }

  /** The selection's order and repetitions do not matter, only which ids
      it holds. */
  lemma {:induction false} ResolvedCasesIgnoresSelectionOrder(orders: seq<RentalOrder>, s1: seq<string>, s2: seq<string>)
    requires forall x :: x in s1 <==> x in s2
    ensures ResolvedCases(orders, s1) == ResolvedCases(orders, s2)
    decreases |orders|
  {
    if |orders| > 0 {
      ResolvedCasesIgnoresSelectionOrder(orders[1..], s1, s2);
    }
  }

  /** Nothing selected, no labels. */
  lemma NothingSelectedNoLabels(orders: seq<RentalOrder>)
    ensures ResolvedCases(orders, []) == []
  {
    if |orders| > 0 {
      NothingSelectedNoLabels(orders[1..]);
    }
  }

  /** The `totalCases` shown on a label: how many of the printed cases
      belong to the label's order. */
  function TotalCases(cases: seq<ResolvedCase>, orderId: string): (r: nat)
    ensures r <= |cases|
  {
    |Filter(cases, HasOrderId(orderId))|
  }

  /** Order ids are unique in the list. */
  predicate UniqueIds(orders: seq<RentalOrder>)
  {
    forall i, j :: 0 <= i < j < |orders| ==> orders[i].id != orders[j].id
  }

  /** With unique order ids, a selected order's labels say it has as many
      cases as the resolver made for it. */
  lemma {:induction false} TotalCasesIsResolvedCount(orders: seq<RentalOrder>, selected: seq<string>, k: nat)
    requires UniqueIds(orders)
    requires k < |orders| && orders[k].id in selected
    ensures TotalCases(ResolvedCases(orders, selected), orders[k].id) == |ResolveOrderCases(orders[k])|
    decreases |orders|
  {
    var id := orders[k].id;
    var p := HasOrderId(id);
    var head := if orders[0].id in selected then ResolveOrderCases(orders[0]) else [];
    var rest := ResolvedCases(orders[1..], selected);
    assert ResolvedCases(orders, selected) == head + rest;
    FilterLength(head + rest, p);
    CountAppend(head, rest, p);
    FilterLength(rest, p);
    if k == 0 {
      CountAll(head, p);
      LaterOrdersOmitFirst(orders, selected);
      CountNone(rest, p);
    } else {
      FirstOrderOmitsLater(orders, k);
      CountNone(head, p);
      UniqueIdsTail(orders);
      assert orders[1..][k - 1] == orders[k];
      TotalCasesIsResolvedCount(orders[1..], selected, k - 1);
    }
  }

  /** With unique ids, no case resolved from the later orders carries the
      first order's id. */
  lemma LaterOrdersOmitFirst(orders: seq<RentalOrder>, selected: seq<string>)
    requires UniqueIds(orders) && |orders| > 0
    ensures forall i :: 0 <= i < |ResolvedCases(orders[1..], selected)| ==>
              !HasOrderId(orders[0].id)(ResolvedCases(orders[1..], selected)[i])
  {
    var rest := ResolvedCases(orders[1..], selected);
    forall i | 0 <= i < |rest|
      ensures rest[i].orderId != orders[0].id
    {
      assert FromSelectedOrder(orders[1..], selected, rest[i]);
      var j :| 0 <= j < |orders[1..]| && orders[1..][j].id in selected && rest[i].orderId == orders[1..][j].id;
      assert orders[1..][j] == orders[j + 1];
    }
  }

  /** With unique ids, no case of the first order carries a later order's id. */
  lemma FirstOrderOmitsLater(orders: seq<RentalOrder>, k: nat)
    requires UniqueIds(orders) && 0 < k < |orders|
    ensures forall i :: 0 <= i < |ResolveOrderCases(orders[0])| ==>
              !HasOrderId(orders[k].id)(ResolveOrderCases(orders[0])[i])
  {
  }

  lemma UniqueIdsTail(orders: seq<RentalOrder>)
    requires UniqueIds(orders) && |orders| > 0
    ensures UniqueIds(orders[1..])
  {
    forall i, j | 0 <= i < j < |orders[1..]|
      ensures orders[1..][i].id != orders[1..][j].id
    {
      assert orders[1..][i] == orders[i + 1] && orders[1..][j] == orders[j + 1];
    }
  }
}
