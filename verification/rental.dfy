/**
 * The order and case shapes of src/types/rental.ts, the label-size helper
 * and the case resolver, which turns an order's flat item list into the
 * list of physical cases printed as labels.
 */
module Rental {
  import opened Wrappers
  import opened Text
  import opened Seqs
  import RoundRobin

  /** One line of an order. The weight is in kilograms per unit. */
  datatype CaseItem = CaseItem(
    name: string,
    quantity: int,
    serialNumber: Option<string>,
    weight: Option<real>,
    productCategory: Option<string>)

  datatype OrderStatus = Confirmed | InProgress | Returned

  datatype RentalOrder = RentalOrder(
    id: string,
    orderRef: string,
    customerName: string,
    jobName: string,
    jobDate: string,
    returnDate: string,
    venue: string,
    caseAssetCode: string,
    status: OrderStatus,
    items: seq<CaseItem>,
    notes: Option<string>)

  /** A container together with the contents it carries. */
  datatype ResolvedCase = ResolvedCase(
    orderId: string,
    orderRef: string,
    customerName: string,
    jobName: string,
    jobDate: string,
    returnDate: string,
    venue: string,
    status: OrderStatus,
    caseItem: CaseItem,
    caseAssetCode: string,
    contents: seq<CaseItem>,
    totalWeight: real,
    notes: Option<string>)

  // ── Label sizing ────────────────────────────────────────────────────

  datatype LabelPreset = FlightcaseSmall | FlightcaseLarge | Thermal4x6 | ThermalReceipt | Custom

  datatype LabelOrientation = Portrait | Landscape

  /** Sizes are in millimetres; a height of 0 means "as long as needed". */
  datatype LabelPresetDef = LabelPresetDef(name: string, width: int, height: int, thermal: bool)

  /** The label settings that decide the label's size. */
  datatype LabelSettings = LabelSettings(
    labelWidth: Option<int>,
    labelHeight: Option<int>,
    labelPreset: Option<LabelPreset>,
    orientation: LabelOrientation)

  datatype Dimensions = Dimensions(width: int, height: int)

  /** The fixed table of named label sizes. */
  function PresetDef(p: LabelPreset): LabelPresetDef
    requires p != Custom
  {
    match p
    case FlightcaseSmall => LabelPresetDef("Flightcase 127×178mm", 127, 178, false)
    case FlightcaseLarge => LabelPresetDef("Flightcase 150×210mm", 150, 210, false)
    case Thermal4x6 => LabelPresetDef("Thermal 4″×6″", 102, 152, true)
    case ThermalReceipt => LabelPresetDef("Thermal Receipt", 80, 0, true)
  }

  const DefaultLabelWidth: int := 127
  const DefaultLabelHeight: int := 178

  /** A preset other than `Custom` fixes the size; otherwise the settings'
      own width and height are used, 127 × 178 when unset. */
  function BaseDimensions(s: LabelSettings): (r: Dimensions)
    ensures s.labelPreset.Some? && s.labelPreset.value != Custom ==>
              r.width == PresetDef(s.labelPreset.value).width &&
              r.height == PresetDef(s.labelPreset.value).height
    ensures s.labelPreset.None? || s.labelPreset.value == Custom ==>
              r.width == s.labelWidth.GetOr(DefaultLabelWidth) &&
              r.height == s.labelHeight.GetOr(DefaultLabelHeight)
  {
    var p := s.labelPreset.GetOr(Custom);
    if p != Custom then Dimensions(PresetDef(p).width, PresetDef(p).height)
    else Dimensions(s.labelWidth.GetOr(DefaultLabelWidth), s.labelHeight.GetOr(DefaultLabelHeight))
  }

  function Transpose(d: Dimensions): Dimensions
  {
    Dimensions(d.height, d.width)
  }

  /** The printed label's size: the base size, turned on its side for a
      landscape label unless its height is automatic. */
  function GetEffectiveDimensions(s: LabelSettings): (r: Dimensions)
    ensures s.orientation == Portrait ==> r == BaseDimensions(s)
    ensures BaseDimensions(s).height <= 0 ==> r == BaseDimensions(s)
    ensures s.orientation == Landscape && BaseDimensions(s).height > 0 ==>
              r == Transpose(BaseDimensions(s))
  {
    var d := BaseDimensions(s);
    if s.orientation == Landscape && d.height > 0 then Dimensions(d.height, d.width) else d
  }

  /** Switching a label from portrait to landscape swaps its two sides
      whenever its height is fixed. */
  lemma LandscapeTransposesPortrait(s: LabelSettings)
    requires BaseDimensions(s).height > 0
    ensures GetEffectiveDimensions(s.(orientation := Landscape)) ==
            Transpose(GetEffectiveDimensions(s.(orientation := Portrait)))
  {
  }

  /** A thermal receipt is 80 mm wide and as long as needed, whatever the
      orientation and the custom size fields say. */
  lemma ThermalReceiptNeverRotated(s: LabelSettings)
    requires s.labelPreset == Some(ThermalReceipt)
    ensures GetEffectiveDimensions(s) == Dimensions(80, 0)
  {
  }

  /** A named preset makes the custom width and height irrelevant. */
  lemma PresetIgnoresCustomSize(s: LabelSettings, w: Option<int>, h: Option<int>)
    requires s.labelPreset.Some? && s.labelPreset.value != Custom
    ensures GetEffectiveDimensions(s.(labelWidth := w, labelHeight := h)) == GetEffectiveDimensions(s)
  {
  }

  // ── Case resolution ────────────────────────────────────────────────

  /** An item is a container when its category, lower-cased, is "case";
      an item without a category is not. */
  predicate IsCaseItem(item: CaseItem)
  {
    item.productCategory.Some? && Lower(item.productCategory.value) == "case"
  }

  /** The containers of an item list, in order. */
  function CaseItems(items: seq<CaseItem>): seq<CaseItem>
  {
    Filter(items, IsCaseItem)
  }

  /** Everything that is not a container, in order. */
  function ContentItems(items: seq<CaseItem>): seq<CaseItem>
  {
    Filter(items, Not(IsCaseItem))
  }

  /** The items split into containers and contents: each list keeps the
      original order, holds only its own kind, and together they hold every
      item exactly once. */
  lemma ItemsPartition(items: seq<CaseItem>)
    ensures forall i :: 0 <= i < |CaseItems(items)| ==> IsCaseItem(CaseItems(items)[i])
    ensures forall i :: 0 <= i < |ContentItems(items)| ==> !IsCaseItem(ContentItems(items)[i])
    ensures forall i :: 0 <= i < |items| && IsCaseItem(items[i]) ==> items[i] in CaseItems(items)
    ensures forall i :: 0 <= i < |items| && !IsCaseItem(items[i]) ==> items[i] in ContentItems(items)
    ensures IsSubsequence(CaseItems(items), items) && IsSubsequence(ContentItems(items), items)
    ensures multiset(CaseItems(items)) + multiset(ContentItems(items)) == multiset(items)
  {
    FilterSplits(items, IsCaseItem);
    forall i | 0 <= i < |items| && !IsCaseItem(items[i])
      ensures items[i] in ContentItems(items)
    {
      assert Not(IsCaseItem)(items[i]);
    }
    forall i | 0 <= i < |ContentItems(items)|
      ensures !IsCaseItem(ContentItems(items)[i])
    {
      assert Not(IsCaseItem)(ContentItems(items)[i]);
    }
  }

  /** The stand-in container used when an order has no container at all. */
  const UnassignedCaseItem: CaseItem := CaseItem("Unassigned", 1, None, None, Some("case"))

  /** An item's line weight: unit weight (0 when unknown) times quantity. */
  function ItemWeight(item: CaseItem): real
  {
    item.weight.GetOr(0.0) * item.quantity as real
  }

  /** The summed line weights of a list of items. */
  function ContentsWeight(items: seq<CaseItem>): real
  {
    RoundRobin.Sum(items, ItemWeight)
  }

  /** `Math.round(x * 100) / 100` on exact reals: the nearest multiple of
      0.01, halves rounded up. */
  function RoundToHundredths(x: real): (r: real)
    ensures x - 0.005 < r <= x + 0.005
    ensures (r * 100.0).Floor as real == r * 100.0
  {
    ((x * 100.0 + 0.5).Floor as real) / 100.0
  }

  /** The case record for one container: order fields copied, asset code,
      contents and weight as given. */
  function MakeCase(order: RentalOrder, caseItem: CaseItem, assetCode: string,
                    contents: seq<CaseItem>, totalWeight: real): ResolvedCase
  {
    ResolvedCase(order.id, order.orderRef, order.customerName, order.jobName,
                 order.jobDate, order.returnDate, order.venue, order.status,
                 caseItem, assetCode, contents, totalWeight, order.notes)
  }

  /** `c` carries the order's own fields unchanged. */
  predicate CopiesOrderFields(c: ResolvedCase, order: RentalOrder)
  {
    && c.orderId == order.id
    && c.orderRef == order.orderRef
    && c.customerName == order.customerName
    && c.jobName == order.jobName
    && c.jobDate == order.jobDate
    && c.returnDate == order.returnDate
    && c.venue == order.venue
    && c.status == order.status
    && c.notes == order.notes
  }

  /** The contents container `index` of `n` receives: everything when there
      is one container, otherwise every `n`-th content item from `index`. */
  function AssignedContents(contents: seq<CaseItem>, n: nat, index: nat): seq<CaseItem>
    requires n > 0
  {
    if n == 1 then contents else RoundRobin.AtPositions(contents, n, index)
  }

  /** The case record of container `index`: its contents are exactly the
      content items at positions `index, index + n, ...` (all of them when
      `n` is 1), and its weight is theirs plus the container's own weight,
      counted once, to the nearest hundredth. */
  function ResolveContainer(order: RentalOrder, cases: seq<CaseItem>, contents: seq<CaseItem>,
                            index: nat): (r: ResolvedCase)
    requires index < |cases|
    ensures CopiesOrderFields(r, order)
    ensures r.caseItem == cases[index]
    ensures r.caseAssetCode == cases[index].serialNumber.GetOr(order.caseAssetCode)
    ensures r.contents == RoundRobin.AtPositions(contents, |cases|, index)
    ensures r.totalWeight == RoundToHundredths(cases[index].weight.GetOr(0.0) + ContentsWeight(r.contents))
    ensures cases[index].weight.GetOr(0.0) + ContentsWeight(r.contents) - 0.005 < r.totalWeight
    ensures r.totalWeight <= cases[index].weight.GetOr(0.0) + ContentsWeight(r.contents) + 0.005
  {
    var caseItem := cases[index];
    var share := AssignedContents(contents, |cases|, index);
    var caseWeight := caseItem.weight.GetOr(0.0) * 1.0;
    RoundRobin.SinglePositionKeepsAll(contents);
    MakeCase(order, caseItem, caseItem.serialNumber.GetOr(order.caseAssetCode), share,
             RoundToHundredths(ContentsWeight(share) + caseWeight))
  }

  /** `resolveOrderCases`: one case per container, in item order, or a
      single "Unassigned" case holding everything when there is none. */
  function ResolveOrderCases(order: RentalOrder): (r: seq<ResolvedCase>)
    ensures |CaseItems(order.items)| == 0 ==> |r| == 1
    ensures |CaseItems(order.items)| > 0 ==> |r| == |CaseItems(order.items)|
    ensures forall i :: 0 <= i < |r| ==> CopiesOrderFields(r[i], order)
    ensures |CaseItems(order.items)| == 0 ==>
              && r[0].caseItem == UnassignedCaseItem
              && r[0].caseAssetCode == order.caseAssetCode
              && r[0].contents == ContentItems(order.items)
              && r[0].totalWeight == ContentsWeight(ContentItems(order.items))
    ensures |CaseItems(order.items)| > 0 ==>
              forall i :: 0 <= i < |r| ==> r[i] == ResolveContainer(order, CaseItems(order.items), ContentItems(order.items), i)
  {
    var cases := CaseItems(order.items);
    var contents := ContentItems(order.items);
    if |cases| == 0 then
      [MakeCase(order, UnassignedCaseItem, order.caseAssetCode, contents, ContentsWeight(contents))]
    else
      seq(|cases|, i requires 0 <= i < |cases| => ResolveContainer(order, cases, contents, i))
  }

  /** With exactly one container, it receives every content item, in order. */
  lemma SingleContainerGetsAll(order: RentalOrder)
    requires |CaseItems(order.items)| == 1
    ensures |ResolveOrderCases(order)| == 1
    ensures ResolveOrderCases(order)[0].contents == ContentItems(order.items)
  {
    RoundRobin.SinglePositionKeepsAll(ContentItems(order.items));
  }

  /** Container `i` of `N` receives `|contents| / N` items, one more when `i`
      is below the remainder, and its `k`-th item is content item
      `i + k * N`. */
  lemma ContentsRoundRobin(order: RentalOrder, i: nat)
    requires 0 < |CaseItems(order.items)|
    requires i < |CaseItems(order.items)|
    ensures i < |ResolveOrderCases(order)|
    ensures RoundRobin.IsRoundRobinShare(ResolveOrderCases(order)[i].contents, ContentItems(order.items),
                                         |CaseItems(order.items)|, i)
  {
    var cases, contents := CaseItems(order.items), ContentItems(order.items);
    assert ResolveOrderCases(order)[i] == ResolveContainer(order, cases, contents, i);
    RoundRobin.AtPositionsShape(contents, |cases|, i);
  }

  /** Content counts of any two cases differ by at most one, earlier cases
      holding the larger share. */
  lemma ContentCountsBalanced(order: RentalOrder, i: nat, j: nat)
    requires i < j < |ResolveOrderCases(order)|
    ensures |ResolveOrderCases(order)[j].contents| <= |ResolveOrderCases(order)[i].contents|
    ensures |ResolveOrderCases(order)[i].contents| <= |ResolveOrderCases(order)[j].contents| + 1
  {
    RoundRobin.SharesBalanced(ContentItems(order.items), |CaseItems(order.items)|, i, j);
  }

  /** The worked example: containers A and B with contents c1 .. c5 give
      A the contents c1, c3, c5 and B the contents c2, c4. */
  lemma TwoContainersExample(order: RentalOrder, a: CaseItem, b: CaseItem,
                             c1: CaseItem, c2: CaseItem, c3: CaseItem, c4: CaseItem, c5: CaseItem)
    requires CaseItems(order.items) == [a, b]
    requires ContentItems(order.items) == [c1, c2, c3, c4, c5]
    ensures |ResolveOrderCases(order)| == 2
    ensures ResolveOrderCases(order)[0].caseItem == a && ResolveOrderCases(order)[0].contents == [c1, c3, c5]
    ensures ResolveOrderCases(order)[1].caseItem == b && ResolveOrderCases(order)[1].contents == [c2, c4]
  {
    var r := ResolveOrderCases(order);
    assert r[0] == ResolveContainer(order, [a, b], [c1, c2, c3, c4, c5], 0);
    assert r[1] == ResolveContainer(order, [a, b], [c1, c2, c3, c4, c5], 1);
    RoundRobin.FiveOverTwo(c1, c2, c3, c4, c5);
  }

  /** All the contents of a list of cases, as a multiset. */
  function AllContents(r: seq<ResolvedCase>): multiset<CaseItem>
    decreases |r|
  {
    if |r| == 0 then multiset{} else AllContents(r[..|r| - 1]) + multiset(r[|r| - 1].contents)
  }

  /** The summed content weights of a list of cases, before rounding. */
  function AllContentsWeight(r: seq<ResolvedCase>): real
    decreases |r|
  {
    if |r| == 0 then 0.0 else AllContentsWeight(r[..|r| - 1]) + ContentsWeight(r[|r| - 1].contents)
  }

  /** Cases whose contents are the first `k` round-robin shares. */
  predicate HoldsShares(r: seq<ResolvedCase>, contents: seq<CaseItem>, n: nat)
    requires n > 0
  {
    forall i :: 0 <= i < |r| ==> r[i].contents == RoundRobin.AtPositions(contents, n, i)
  }

  lemma {:induction false} AllContentsIsShareUnion(r: seq<ResolvedCase>, contents: seq<CaseItem>, n: nat)
    requires n > 0 && HoldsShares(r, contents, n)
    ensures AllContents(r) == RoundRobin.ShareUnion(contents, RoundRobin.Modulo(n), |r|)
    decreases |r|
  {
    if |r| > 0 {
      AllContentsIsShareUnion(r[..|r| - 1], contents, n);
    }
  }

  lemma {:induction false} AllContentsWeightIsShareSum(r: seq<ResolvedCase>, contents: seq<CaseItem>, n: nat)
    requires n > 0 && HoldsShares(r, contents, n)
    ensures AllContentsWeight(r) == RoundRobin.ShareSum(contents, RoundRobin.Modulo(n), |r|, ItemWeight)
    decreases |r|
  {
    if |r| > 0 {
      AllContentsWeightIsShareSum(r[..|r| - 1], contents, n);
    }
  }

  lemma ResolvedHoldsShares(order: RentalOrder)
    requires |CaseItems(order.items)| > 0
    ensures HoldsShares(ResolveOrderCases(order), ContentItems(order.items), |CaseItems(order.items)|)
  {
  }

  /** Every content item lands in exactly one case: the cases' contents
      together are the content list, as a multiset, whatever the number of
      containers. */
  lemma ContentsPartitioned(order: RentalOrder)
    ensures AllContents(ResolveOrderCases(order)) == multiset(ContentItems(order.items))
  {
    var r := ResolveOrderCases(order);
    var n := |CaseItems(order.items)|;
    if n == 0 {
      assert r[..0] == [];
    } else {
      ResolvedHoldsShares(order);
      AllContentsIsShareUnion(r, ContentItems(order.items), n);
      RoundRobin.SharesPartition(ContentItems(order.items), n);
    }
  }

  /** With at least one container, the containers and the cases' contents
      together are exactly the order's items. */
  lemma ItemsAccountedFor(order: RentalOrder)
    requires |CaseItems(order.items)| > 0
    ensures multiset(CaseItems(order.items)) + AllContents(ResolveOrderCases(order)) == multiset(order.items)
  {
    ContentsPartitioned(order);
    ItemsPartition(order.items);
  }

  /** Before rounding, the cases' content weights add up to the weight of all
      the order's contents: splitting loses and duplicates nothing. */
  lemma ContentWeightsAddUp(order: RentalOrder)
    ensures AllContentsWeight(ResolveOrderCases(order)) == ContentsWeight(ContentItems(order.items))
  {
    var r := ResolveOrderCases(order);
    var n := |CaseItems(order.items)|;
    if n == 0 {
      assert r[..0] == [];
    } else {
      ResolvedHoldsShares(order);
      AllContentsWeightIsShareSum(r, ContentItems(order.items), n);
      RoundRobin.SharesAddUp(ContentItems(order.items), n, ItemWeight);
    }
  }
}
