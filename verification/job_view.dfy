/**
 * The case-assignment editor of src/pages/JobView.tsx: which items of an
 * order are cases (detected, or elected by the user), which items the user
 * has put into which case, and the rows written out when the assignments
 * are saved. Each event handler is one state-to-state function.
 */
module JobView {
  import opened Wrappers
  import opened Rental
  import opened JsCollections

  /** The editor's state: the elected item indices (a `Set`), the case
      index to assigned item indices table (a `Map` of `Set`s), and the case
      currently being filled. */
  datatype EditorState = EditorState(
    electedCases: seq<int>,
    assignments: seq<Entry<seq<int>>>,
    activeCaseIdx: Option<int>)

  /** The collections are well formed. */
  predicate Valid(st: EditorState)
  {
    && Distinct(st.electedCases)
    && ValidMap(st.assignments)
    && forall i :: 0 <= i < |st.assignments| ==> Distinct(st.assignments[i].value)
  }

  /** The state the editor opens with. */
  const Initial: EditorState := EditorState([], [], None)

  /** The items assigned to case `c` (`assignments.get(c) || []`). */
  function Members(m: seq<Entry<seq<int>>>, c: int): seq<int>
  {
    Get(m, c).GetOr([])
  }

  // ── Case and content indices ───────────────────────────────────────

  predicate Increasing(s: seq<int>)
  {
    forall i, j :: 0 <= i < j < |s| ==> s[i] < s[j]
  }

  /** The indices below `n` that satisfy `p`, ascending. */
  function IndicesWhere(n: nat, p: int -> bool): (r: seq<int>)
    ensures forall i :: i in r <==> 0 <= i < n && p(i)
    ensures Increasing(r)
    decreases n
  {
    if n == 0 then []
    else
      var r := IndicesWhere(n - 1, p);
      forall k | 0 <= k < |r|
        ensures r[k] < n - 1
      {
        assert r[k] in r;
      }
      r + (if p(n - 1) then [n - 1] else [])
  }

  /** The items whose category marks them as cases, in item order. */
  function AutoCaseIndices(items: seq<CaseItem>): (r: seq<int>)
    ensures forall i :: i in r <==> 0 <= i < |items| && IsCaseItem(items[i])
    ensures Increasing(r)
  {
    IndicesWhere(|items|, i => 0 <= i < |items| && IsCaseItem(items[i]))
  }

  /** Adds each of `xs` to the set `s`, in order. */
  function AddAll(s: seq<int>, xs: seq<int>): (r: seq<int>)
    ensures forall y :: y in r <==> y in s || y in xs
    ensures Distinct(s) ==> Distinct(r)
    ensures |s| <= |r| && r[..|s|] == s
    decreases |xs|
  {
    if |xs| == 0 then s
    else
      var r := AddAll(SetAdd(s, xs[0]), xs[1..]);
      assert forall y :: y in xs <==> y == xs[0] || y in xs[1..];
      r
  }

  /** `caseIndices`: the detected cases in item order, then the elected ones
      in the order they were elected, each once. */
  function CaseIndices(items: seq<CaseItem>, st: EditorState): (r: seq<int>)
    ensures forall i :: i in r <==> (0 <= i < |items| && IsCaseItem(items[i])) || i in st.electedCases
    ensures Distinct(st.electedCases) ==> Distinct(r)
    ensures |AutoCaseIndices(items)| <= |r| && r[..|AutoCaseIndices(items)|] == AutoCaseIndices(items)
  {
    AddAll(AutoCaseIndices(items), st.electedCases)
  }

  /** `contentIndices`: the item indices that are not cases, ascending. */
  function ContentIndices(items: seq<CaseItem>, st: EditorState): (r: seq<int>)
    ensures forall i :: i in r <==> 0 <= i < |items| && i !in CaseIndices(items, st)
    ensures Increasing(r)
  {
    var cases := CaseIndices(items, st);
    IndicesWhere(|items|, i => i !in cases)
  }

  /** Every item index is a case index or a content index, never both. */
  lemma IndicesPartition(items: seq<CaseItem>, st: EditorState, i: int)
    requires 0 <= i < |items|
    ensures i in CaseIndices(items, st) <==> i !in ContentIndices(items, st)
    ensures i in ContentIndices(items, st) <==> !IsCaseItem(items[i]) && i !in st.electedCases
  {
  }

  // ── Event handlers ─────────────────────────────────────────────────

  /** `toggleElectCase(idx)`: un-elects an elected item, dropping its
      assignments, or elects an item that was not. */
  function ToggleElectCase(st: EditorState, idx: int): (r: EditorState)
    requires Valid(st)
    ensures Valid(r)
    ensures idx in r.electedCases <==> idx !in st.electedCases
    ensures forall j :: j != idx ==> (j in r.electedCases <==> j in st.electedCases)
    ensures forall j :: j != idx ==> Get(r.assignments, j) == Get(st.assignments, j)
    ensures idx in st.electedCases ==> Get(r.assignments, idx) == None
    ensures idx !in st.electedCases ==> r.assignments == st.assignments
    ensures idx !in st.electedCases ==> r.electedCases == st.electedCases + [idx]
    ensures idx in st.electedCases ==>
              exists i | 0 <= i < |st.electedCases| && st.electedCases[i] == idx ::
                r.electedCases == st.electedCases[..i] + st.electedCases[i + 1..]
    ensures r.activeCaseIdx == st.activeCaseIdx
  {
    if idx in st.electedCases then
      var m := Remove(st.assignments, idx);
      assert forall i :: 0 <= i < |m| ==> Distinct(m[i].value);
      st.(electedCases := SetDelete(st.electedCases, idx), assignments := m)
    else
      st.(electedCases := SetAdd(st.electedCases, idx))
  }

  /** Electing an item and un-electing it again gives back the elected
      set, in its order, but drops whatever was assigned to that item. */
  lemma ElectThenUnelect(st: EditorState, idx: int)
    requires Valid(st) && idx !in st.electedCases
    ensures ToggleElectCase(ToggleElectCase(st, idx), idx).electedCases == st.electedCases
    ensures ToggleElectCase(ToggleElectCase(st, idx), idx).assignments == Remove(st.assignments, idx)
  {
    SetAddThenDelete(st.electedCases, idx);
  }

  /** Clicking a case's tab makes it the active case. */
  function SelectCase(st: EditorState, c: int): (r: EditorState)
    ensures r.activeCaseIdx == Some(c)
    ensures r.electedCases == st.electedCases && r.assignments == st.assignments
  {
    st.(activeCaseIdx := Some(c))
  }

  /** `toggleAssignment(item)`: without an active case nothing happens;
      otherwise the item is removed from or added to the active case's
      set, which is created when missing. */
  function ToggleAssignment(st: EditorState, item: int): (r: EditorState)
    requires Valid(st)
    ensures Valid(r)
    ensures st.activeCaseIdx.None? ==> r == st
    ensures r.electedCases == st.electedCases && r.activeCaseIdx == st.activeCaseIdx
    ensures st.activeCaseIdx.Some? ==>
              var c := st.activeCaseIdx.value;
              && Get(r.assignments, c).Some?
              && (item in Members(r.assignments, c) <==> item !in Members(st.assignments, c))
              && (forall x :: x != item ==> (x in Members(r.assignments, c) <==> x in Members(st.assignments, c)))
              && (forall d :: d != c ==> Get(r.assignments, d) == Get(st.assignments, d))
  {
    match st.activeCaseIdx
    case None => st
    case Some(c) =>
      var current := Members(st.assignments, c);
      assert Distinct(current);
      var next := if item in current then SetDelete(current, item) else SetAdd(current, item);
      var m := Put(st.assignments, c, next);
      assert forall i :: 0 <= i < |m| ==> Distinct(m[i].value) by {
        forall i | 0 <= i < |m|
          ensures Distinct(m[i].value)
        {
          var k := m[i].key;
          assert Get(m, k) == Some(m[i].value);
          if k != c {
            var j :| 0 <= j < |st.assignments| && st.assignments[j] == Entry(k, m[i].value);
          }
        }
      }
      st.(assignments := m)
  }

  /** Toggling the same item twice restores which items the active case
      holds; when the item was not in it, the list comes back unchanged. */
  lemma ToggleAssignmentTwice(st: EditorState, item: int)
    requires Valid(st) && st.activeCaseIdx.Some?
    ensures var c := st.activeCaseIdx.value;
            var twice := ToggleAssignment(ToggleAssignment(st, item), item);
            && (forall x :: x in Members(twice.assignments, c) <==> x in Members(st.assignments, c))
            && (item !in Members(st.assignments, c) ==> Members(twice.assignments, c) == Members(st.assignments, c))
  {
    var c := st.activeCaseIdx.value;
    var current := Members(st.assignments, c);
    if item !in current {
      SetAddThenDelete(current, item);
    }
  }

  /** `getAssignedCaseForItem`: the first case, in the table's order,
      whose set holds the item. */
  function GetAssignedCaseForItem(m: seq<Entry<seq<int>>>, item: int): (r: Option<int>)
    ensures r.None? <==> forall i :: 0 <= i < |m| ==> item !in m[i].value
    ensures r.Some? ==> exists i | 0 <= i < |m| :: m[i].key == r.value && item in m[i].value &&
                          forall j :: 0 <= j < i ==> item !in m[j].value
    decreases |m|
  {
    if |m| == 0 then None
    else if item in m[0].value then Some(m[0].key)
    else
      var r := GetAssignedCaseForItem(m[1..], item);
      assert forall i :: 1 <= i < |m| ==> m[i] == m[1..][i - 1];
      r
  }

  /** In a well-formed table, the case found holds the item, and no case is
      found only when no case holds it. */
  lemma AssignedCaseHoldsItem(m: seq<Entry<seq<int>>>, item: int)
    requires ValidMap(m)
    ensures GetAssignedCaseForItem(m, item).Some? ==>
              item in Members(m, GetAssignedCaseForItem(m, item).value)
    ensures GetAssignedCaseForItem(m, item).None? <==> forall c :: item !in Members(m, c)
  {
    var r := GetAssignedCaseForItem(m, item);
    if r.Some? {
      var i :| 0 <= i < |m| && m[i].key == r.value && item in m[i].value &&
               forall j :: 0 <= j < i ==> item !in m[j].value;
      assert Get(m, r.value) == Some(m[i].value);
      assert item in Members(m, r.value);
    } else {
      forall c
        ensures item !in Members(m, c)
      {
        if Get(m, c).Some? {
          var i :| 0 <= i < |m| && m[i] == Entry(c, Get(m, c).value);
        }
      }
    }
  }

  // ── Invariants ─────────────────────────────────────────────────────

  /** Each item is assigned to at most one case. */
  ghost predicate Exclusive(m: seq<Entry<seq<int>>>)
  {
    forall c, d, x :: c != d && x in Members(m, c) ==> x !in Members(m, d)
  }

  /** With exclusive assignments, the case found for an item is the one
      case that holds it. */
  lemma ExclusiveAssignedCase(m: seq<Entry<seq<int>>>, item: int, c: int)
    requires ValidMap(m) && Exclusive(m)
    ensures GetAssignedCaseForItem(m, item) == Some(c) <==> item in Members(m, c)
  {
    AssignedCaseHoldsItem(m, item);
  }

  /** The checkbox of an item assigned to another case is disabled, so the
      editor only toggles an item that is free or already in the active
      case; such a toggle keeps the assignments exclusive. */
  lemma ToggleAssignmentKeepsExclusive(st: EditorState, item: int)
    requires Valid(st) && Exclusive(st.assignments)
    requires GetAssignedCaseForItem(st.assignments, item).None? ||
             GetAssignedCaseForItem(st.assignments, item) == st.activeCaseIdx
    ensures Exclusive(ToggleAssignment(st, item).assignments)
  {
    var r := ToggleAssignment(st, item);
    if st.activeCaseIdx.Some? {
      var c := st.activeCaseIdx.value;
      AssignedCaseHoldsItem(st.assignments, item);
      forall d | d != c
        ensures item !in Members(st.assignments, d)
      {
        if item in Members(st.assignments, d) {
          ExclusiveAssignedCase(st.assignments, item, d);
        }
      }
      forall a, b, x | a != b && x in Members(r.assignments, a)
        ensures x !in Members(r.assignments, b)
      {
        if a == c {
          assert Members(r.assignments, b) == Members(st.assignments, b);
        } else if b == c {
          assert Members(r.assignments, a) == Members(st.assignments, a);
        } else {
          assert Members(r.assignments, a) == Members(st.assignments, a);
          assert Members(r.assignments, b) == Members(st.assignments, b);
        }
      }
    }
  }

  /** No case index sits inside an assignment set. */
  ghost predicate NoContainerInside(items: seq<CaseItem>, st: EditorState)
  {
    forall c, x :: x in Members(st.assignments, c) ==> x !in CaseIndices(items, st)
  }

  /** Only content items are listed for assignment; toggling one keeps
      cases out of the sets. */
  lemma ToggleAssignmentKeepsNoContainerInside(items: seq<CaseItem>, st: EditorState, item: int)
    requires Valid(st) && NoContainerInside(items, st)
    requires item in ContentIndices(items, st)
    ensures NoContainerInside(items, ToggleAssignment(st, item))
  {
    var r := ToggleAssignment(st, item);
    assert CaseIndices(items, r) == CaseIndices(items, st);
    if st.activeCaseIdx.Some? {
      var c := st.activeCaseIdx.value;
      forall d, x | x in Members(r.assignments, d)
        ensures x !in CaseIndices(items, r)
      {
        if d != c {
          assert Members(r.assignments, d) == Members(st.assignments, d);
        }
      }
    }
  }

  /** Un-electing a case keeps cases out of the sets. */
  lemma UnelectKeepsNoContainerInside(items: seq<CaseItem>, st: EditorState, idx: int)
    requires Valid(st) && NoContainerInside(items, st)
    requires idx in st.electedCases
    ensures NoContainerInside(items, ToggleElectCase(st, idx))
  {
    var r := ToggleElectCase(st, idx);
    forall c, x | x in Members(r.assignments, c)
      ensures x !in CaseIndices(items, r)
    {
      assert c != idx;
      assert Members(r.assignments, c) == Members(st.assignments, c);
      assert x !in CaseIndices(items, st);
    }
  }

  /** Electing an item that no case holds keeps cases out of the sets. */
  lemma ElectFreeItemKeepsNoContainerInside(items: seq<CaseItem>, st: EditorState, idx: int)
    requires Valid(st) && NoContainerInside(items, st)
    requires idx !in st.electedCases && GetAssignedCaseForItem(st.assignments, idx).None?
    ensures NoContainerInside(items, ToggleElectCase(st, idx))
  {
    var r := ToggleElectCase(st, idx);
    AssignedCaseHoldsItem(st.assignments, idx);
    assert r.assignments == st.assignments;
    forall c, x | x in Members(r.assignments, c)
      ensures x !in CaseIndices(items, r)
    {
      assert x != idx;
      assert x !in CaseIndices(items, st);
    }
  }

  /** The editor itself does not keep cases out of the sets: electing an
      item that is already assigned to a case leaves it there, so a case
      ends up inside another case. */
  lemma ElectingAssignedItemNestsCase(items: seq<CaseItem>, st: EditorState, idx: int, c: int)
    requires Valid(st) && idx !in st.electedCases
    requires idx in Members(st.assignments, c)
    ensures idx in CaseIndices(items, ToggleElectCase(st, idx))
    ensures idx in Members(ToggleElectCase(st, idx).assignments, c)
    ensures !NoContainerInside(items, ToggleElectCase(st, idx))
  {
  }

  /** Un-electing the active case does not clear the active case: the
      next assignment toggle creates a set for an item that is no longer a
      case. */
  lemma UnelectingActiveCaseKeepsIt(items: seq<CaseItem>, st: EditorState, idx: int, item: int)
    requires Valid(st) && idx in st.electedCases && st.activeCaseIdx == Some(idx)
    requires !(0 <= idx < |items| && IsCaseItem(items[idx]))
    ensures ToggleElectCase(st, idx).activeCaseIdx == Some(idx)
    ensures idx !in CaseIndices(items, ToggleElectCase(st, idx))
    ensures Get(ToggleAssignment(ToggleElectCase(st, idx), item).assignments, idx).Some?
  {
  }

  // ── Saving ─────────────────────────────────────────────────────────

  /** One `{name, quantity, index}` of a saved case's item list. */
  datatype AssignedItemRow = AssignedItemRow(name: string, quantity: int, index: int)

  /** One `case_assignments` row. */
  datatype CaseAssignmentRow = CaseAssignmentRow(
    userId: string,
    orderId: string,
    caseItemName: string,
    assignedItems: seq<AssignedItemRow>)

  /** The item rows for the indices `idxs`; reading an index that is not an
      item fails (`items[i].name` of `undefined` throws). */
  function ItemRows(items: seq<CaseItem>, idxs: seq<int>): (r: Option<seq<AssignedItemRow>>)
    ensures r.Some? <==> forall k :: 0 <= k < |idxs| ==> 0 <= idxs[k] < |items|
    ensures r.Some? ==>
              && |r.value| == |idxs|
              && forall k :: 0 <= k < |idxs| ==>
                r.value[k] == AssignedItemRow(items[idxs[k]].name, items[idxs[k]].quantity, idxs[k])
    decreases |idxs|
  {
    if |idxs| == 0 then Some([])
    else if !(0 <= idxs[0] < |items|) then None
    else
      match ItemRows(items, idxs[1..])
      case None => None
      case Some(rest) =>
        Some([AssignedItemRow(items[idxs[0]].name, items[idxs[0]].quantity, idxs[0])] + rest)
  }

  /** A saved case row for each of `cases`, in order. */
  function CaseRows(userId: string, order: RentalOrder, m: seq<Entry<seq<int>>>, cases: seq<int>)
    : (r: Option<seq<CaseAssignmentRow>>)
    ensures r.Some? <==> forall k :: 0 <= k < |cases| ==>
              0 <= cases[k] < |order.items| && ItemRows(order.items, Members(m, cases[k])).Some?
    ensures r.Some? ==>
              && |r.value| == |cases|
              && forall k :: 0 <= k < |cases| ==>
                && r.value[k].userId == userId && r.value[k].orderId == order.id
                && r.value[k].caseItemName == order.items[cases[k]].name
                && Some(r.value[k].assignedItems) == ItemRows(order.items, Members(m, cases[k]))
    decreases |cases|
  {
    if |cases| == 0 then Some([])
    else if !(0 <= cases[0] < |order.items|) then None
    else
      match ItemRows(order.items, Members(m, cases[0]))
      case None => None
      case Some(listed) =>
        match CaseRows(userId, order, m, cases[1..])
        case None => None
        case Some(rest) =>
          Some([CaseAssignmentRow(userId, order.id, order.items[cases[0]].name, listed)] + rest)
  }

  /** The `inserts` of `saveAssignments`: one row per case index in
      `caseIndices` order, or a failure when a case or an assigned item is
      not an item of the order. */
  function SavePayload(userId: string, order: RentalOrder, st: EditorState): (r: Option<seq<CaseAssignmentRow>>)
    ensures r.Some? ==> |r.value| == |CaseIndices(order.items, st)|
    ensures r.Some? ==> forall k :: 0 <= k < |r.value| ==>
              && r.value[k].userId == userId && r.value[k].orderId == order.id
              && 0 <= CaseIndices(order.items, st)[k] < |order.items|
              && r.value[k].caseItemName == order.items[CaseIndices(order.items, st)[k]].name
              && Some(r.value[k].assignedItems) == ItemRows(order.items, Members(st.assignments, CaseIndices(order.items, st)[k]))
  {
    CaseRows(userId, order, st.assignments, CaseIndices(order.items, st))
  }

  /** The editor only elects and assigns item indices. */
  ghost predicate InRange(items: seq<CaseItem>, st: EditorState)
  {
    && (forall k :: 0 <= k < |st.electedCases| ==> 0 <= st.electedCases[k] < |items|)
    && (forall c, x :: x in Members(st.assignments, c) ==> 0 <= x < |items|)
  }

  /** In range, every case index is an item whose assigned items are items. */
  lemma CasesInRange(items: seq<CaseItem>, st: EditorState)
    requires InRange(items, st)
    ensures forall k :: 0 <= k < |CaseIndices(items, st)| ==>
              && 0 <= CaseIndices(items, st)[k] < |items|
              && ItemRows(items, Members(st.assignments, CaseIndices(items, st)[k])).Some?
  {
    var cases := CaseIndices(items, st);
    forall k | 0 <= k < |cases|
      ensures 0 <= cases[k] < |items|
      ensures ItemRows(items, Members(st.assignments, cases[k])).Some?
    {
      if cases[k] !in AutoCaseIndices(items) {
        var j :| 0 <= j < |st.electedCases| && st.electedCases[j] == cases[k];
      }
      var ms := Members(st.assignments, cases[k]);
      forall j | 0 <= j < |ms|
        ensures 0 <= ms[j] < |items|
      {
        assert ms[j] in Members(st.assignments, cases[k]);
      }
    }
  }

  /** There is no case index exactly when nothing is detected or elected. */
  lemma NoCasesIffNothingElected(items: seq<CaseItem>, st: EditorState)
    ensures |CaseIndices(items, st)| == 0 <==> AutoCaseIndices(items) == [] && st.electedCases == []
  {
  }

  /** When every elected and assigned index is an item, saving builds
      exactly one row per case, named after that case's item and listing
      its assigned items in set order; an order with no case gives no
      rows, so nothing is inserted. */
  lemma SavePayloadRows(userId: string, order: RentalOrder, st: EditorState)
    requires InRange(order.items, st)
    ensures SavePayload(userId, order, st).Some?
    ensures var rows := SavePayload(userId, order, st).value;
            var cases := CaseIndices(order.items, st);
            && |rows| == |cases|
            && (|rows| == 0 <==> AutoCaseIndices(order.items) == [] && st.electedCases == [])
            && forall k :: 0 <= k < |rows| ==>
                 && rows[k].caseItemName == order.items[cases[k]].name
                 && |rows[k].assignedItems| == |Members(st.assignments, cases[k])|
  {
    var cases := CaseIndices(order.items, st);
    CasesInRange(order.items, st);
    NoCasesIffNothingElected(order.items, st);
    var rows := CaseRows(userId, order, st.assignments, cases);
    assert rows.Some?;
    forall k | 0 <= k < |rows.value|
      ensures |rows.value[k].assignedItems| == |Members(st.assignments, cases[k])|
    {
      assert Some(rows.value[k].assignedItems) == ItemRows(order.items, Members(st.assignments, cases[k]));
    }
  }
}
