/**
 * The pure helpers of the order feed (supabase/functions/fetch-orders):
 * the product classifier, the cleaning of Odoo line names, the two status
 * tables, and the defaulting of item, note and order fields from the raw
 * Odoo and currentRMS records.
 */
module FetchOrders {
  import opened Wrappers
  import opened Text
  import opened Rental
  import opened OdooNames

  // ── Product classification ─────────────────────────────────────────

  datatype Category = CaseCategory | Cable | Audio | Lighting | Video | Rigging | General

  /** The category as it is stored on an item. */
  function CategoryName(c: Category): string
  {
    match c
    case CaseCategory => "case"
    case Cable => "cable"
    case Audio => "audio"
    case Lighting => "lighting"
    case Video => "video"
    case Rigging => "rigging"
    case General => "general"
  }

  /** Substrings that make a product a container. */
  const CaseKeywords: seq<string> := [
    "case", "flight case", "road case", "rack case", "peli", "pelican",
    "skb", "gator", "transport case", "trunk", "flightcase", "hard case",
    "rolling case", "utility case", "equipment case"]

  /** The five keywords every other case keyword contains. */
  const CaseStems: seq<string> := ["case", "peli", "skb", "gator", "trunk"]

  /** The whole-word alternatives of the five later tests, in the order they
      are tried (`cat[56]` written out as its two words). */
  const CableWords: seq<string> := ["cable", "xlr", "dmx", "sdi", "hdmi", "powercon", "cat5", "cat6"]
  const AudioWords: seq<string> := ["speaker", "sub", "amp", "mixer", "mic", "monitor", "iem", "earphone", "headphone", "di box"]
  const LightingWords: seq<string> := ["light", "wash", "spot", "beam", "par", "strobe", "hazer", "haze", "fog", "dmx"]
  const VideoWords: seq<string> := ["projector", "screen", "camera", "lens", "tripod", "switcher", "recorder"]
  const RiggingWords: seq<string> := ["clamp", "coupler", "truss", "stand", "rigging", "safety", "sling"]

  /** Some keyword of `keywords` is a substring of `t`. */
  predicate ContainsAny(t: string, keywords: seq<string>)
  {
    exists j | 0 <= j < |keywords| :: Contains(t, keywords[j])
  }

  /** A word character of a regular expression without the `u` flag. */
  predicate IsWordChar(c: char)
  {
    ('a' <= c <= 'z') || ('A' <= c <= 'Z') || ('0' <= c <= '9') || c == '_'
  }

  /** `\b` at position `i`: exactly one of the characters either side of
      `i` is a word character; outside the string counts as a non-word. */
  predicate Boundary(t: string, i: int)
  {
    var before := 0 < i <= |t| && IsWordChar(t[i - 1]);
    var after := 0 <= i < |t| && IsWordChar(t[i]);
    before != after
  }

  /** The lower-case keyword `k` occurs in `name` at `i`, ignoring letter
      case, with a word boundary on both sides. */
  predicate WholeWordAt(name: string, k: string, i: int)
  {
    0 <= i && i + |k| <= |name| && Lower(name)[i..i + |k|] == k && Boundary(name, i) && Boundary(name, i + |k|)
  }

  /** `/\b(w1|w2|...)\b/i.test(name)`: some alternative occurs somewhere as a
      whole word. */
  predicate MatchesWord(name: string, words: seq<string>)
  {
    exists j, i | 0 <= j < |words| && 0 <= i <= |name| :: WholeWordAt(name, words[j], i)
  }

  /** `detectProductCategory`. */
  function DetectProductCategory(name: string): (c: Category)
    ensures c == CaseCategory <==> ContainsAny(Lower(name), CaseStems)
    ensures c == Cable <==> !ContainsAny(Lower(name), CaseStems) && MatchesWord(name, CableWords)
    ensures c == Audio <==>
              !ContainsAny(Lower(name), CaseStems) && !MatchesWord(name, CableWords) && MatchesWord(name, AudioWords)
    ensures c == Lighting <==>
              !ContainsAny(Lower(name), CaseStems) && !MatchesWord(name, CableWords) &&
              !MatchesWord(name, AudioWords) && MatchesWord(name, LightingWords)
    ensures c == Video <==>
              !ContainsAny(Lower(name), CaseStems) && !MatchesWord(name, CableWords) &&
              !MatchesWord(name, AudioWords) && !MatchesWord(name, LightingWords) && MatchesWord(name, VideoWords)
    ensures c == Rigging <==>
              !ContainsAny(Lower(name), CaseStems) && !MatchesWord(name, CableWords) &&
              !MatchesWord(name, AudioWords) && !MatchesWord(name, LightingWords) &&
              !MatchesWord(name, VideoWords) && MatchesWord(name, RiggingWords)
    ensures c == General <==>
              !ContainsAny(Lower(name), CaseStems) && !MatchesWord(name, CableWords) &&
              !MatchesWord(name, AudioWords) && !MatchesWord(name, LightingWords) &&
              !MatchesWord(name, VideoWords) && !MatchesWord(name, RiggingWords)
  {
    CaseKeywordIffStem(Lower(name));
    var lower := Lower(name);
    if ContainsAny(lower, CaseKeywords) then CaseCategory
    else if MatchesWord(name, CableWords) then Cable
    else if MatchesWord(name, AudioWords) then Audio
    else if MatchesWord(name, LightingWords) then Lighting
    else if MatchesWord(name, VideoWords) then Video
    else if MatchesWord(name, RiggingWords) then Rigging
    else General
  }

  /** Every case keyword contains one of the five stems. */
  lemma KeywordHasStem(j: nat)
    requires j < |CaseKeywords|
    ensures exists m | 0 <= m < |CaseStems| :: Contains(CaseKeywords[j], CaseStems[m])
  {
    var k := CaseKeywords[j];
    if j == 0 {
      assert OccursAt(k, CaseStems[0], 0);
    } else if j == 1 {
      assert OccursAt(k, CaseStems[0], 7);
    } else if j == 2 {
      assert OccursAt(k, CaseStems[0], 5);
    } else if j == 3 {
      assert OccursAt(k, CaseStems[0], 5);
    } else if j == 4 {
      assert OccursAt(k, CaseStems[1], 0);
    } else if j == 5 {
      assert OccursAt(k, CaseStems[1], 0);
    } else if j == 6 {
      assert OccursAt(k, CaseStems[2], 0);
    } else if j == 7 {
      assert OccursAt(k, CaseStems[3], 0);
    } else if j == 8 {
      assert OccursAt(k, CaseStems[0], 10);
    } else if j == 9 {
      assert OccursAt(k, CaseStems[4], 0);
    } else if j == 10 {
      assert OccursAt(k, CaseStems[0], 6);
    } else if j == 11 {
      assert OccursAt(k, CaseStems[0], 5);
    } else if j == 12 {
      assert OccursAt(k, CaseStems[0], 8);
    } else if j == 13 {
      assert OccursAt(k, CaseStems[0], 8);
    } else {
      assert OccursAt(k, CaseStems[0], 10);
    }
  }

  /** Containing one of the fifteen case keywords is the same as containing
      one of the five stems: the longer keywords add nothing. */
  lemma CaseKeywordIffStem(t: string)
    ensures ContainsAny(t, CaseKeywords) <==> ContainsAny(t, CaseStems)
  {
    if ContainsAny(t, CaseKeywords) {
      var j :| 0 <= j < |CaseKeywords| && Contains(t, CaseKeywords[j]);
      KeywordHasStem(j);
      var m :| 0 <= m < |CaseStems| && Contains(CaseKeywords[j], CaseStems[m]);
      ContainsTransitive(t, CaseKeywords[j], CaseStems[m]);
    }
    if ContainsAny(t, CaseStems) {
      var m :| 0 <= m < |CaseStems| && Contains(t, CaseStems[m]);
      var j := if m == 0 then 0 else if m == 1 then 4 else if m == 2 then 6 else if m == 3 then 7 else 9;
      assert CaseKeywords[j] == CaseStems[m];
    }
  }

  /** "dmx" is both a cable and a lighting word; the cable test runs first,
      so a non-container named with the word "dmx" is always a cable. */
  lemma DmxIsCable(name: string, i: nat)
    requires WholeWordAt(name, "dmx", i)
    requires !ContainsAny(Lower(name), CaseStems)
    ensures DetectProductCategory(name) == Cable
  {
    CaseKeywordIffStem(Lower(name));
    assert CableWords[2] == "dmx";
  }

  /** Classification ignores letter case: lower-casing a name first does
      not change its category. */
  lemma ClassificationIgnoresCase(name: string)
    ensures DetectProductCategory(Lower(name)) == DetectProductCategory(name)
  {
    LowerIdempotent(name);
    MatchesWordIgnoresCase(name, CableWords);
    MatchesWordIgnoresCase(name, AudioWords);
    MatchesWordIgnoresCase(name, LightingWords);
    MatchesWordIgnoresCase(name, VideoWords);
    MatchesWordIgnoresCase(name, RiggingWords);
  }

  /** Whole-word matching ignores the letter case of the name. */
  lemma MatchesWordIgnoresCase(name: string, words: seq<string>)
    ensures MatchesWord(Lower(name), words) <==> MatchesWord(name, words)
  {
    LowerIdempotent(name);
    forall j, i | 0 <= j < |words| && 0 <= i <= |name|
      ensures WholeWordAt(Lower(name), words[j], i) <==> WholeWordAt(name, words[j], i)
    {
      LowerKeepsBoundary(name, i);
      LowerKeepsBoundary(name, i + |words[j]|);
    }
  }

  lemma LowerKeepsBoundary(name: string, i: int)
    ensures Boundary(Lower(name), i) == Boundary(name, i)
  {
  }

  /** An item whose category comes from the classifier is a container for
      the case resolver exactly when the classifier said "case". */
  lemma ClassifiedContainer(item: CaseItem, c: Category)
    requires item.productCategory == Some(CategoryName(c))
    ensures IsCaseItem(item) <==> c == CaseCategory
  {
    var n := CategoryName(c);
    if c == CaseCategory {
      assert Lower(n)[0] == 'c' && Lower(n)[1] == 'a' && Lower(n)[2] == 's' && Lower(n)[3] == 'e';
    } else {
      assert |Lower(n)| != 4;
    }
  }

  // ── Status tables ──────────────────────────────────────────────────

  /** Odoo's `rental_status` through its table; anything else, or no
      status, is "confirmed". */
  function OdooStatus(s: Option<string>): (r: OrderStatus)
    ensures r == Returned <==> s == Some("returned")
    ensures r == InProgress <==> s == Some("return")
    ensures r == Confirmed <==> s != Some("returned") && s != Some("return")
  {
    match s
    case Some("confirmed") => Confirmed
    case Some("pickup") => Confirmed
    case Some("return") => InProgress
    case Some("returned") => Returned
    case _ => Confirmed
  }

  /** currentRMS's numeric opportunity status through its table; anything
      else, or no status, is "confirmed". */
  function RmsStatus(s: Option<int>): (r: OrderStatus)
    ensures r == Returned <==> s == Some(4)
    ensures r == InProgress <==> s == Some(3)
    ensures r == Confirmed <==> s != Some(3) && s != Some(4)
  {
    match s
    case Some(1) => Confirmed
    case Some(2) => Confirmed
    case Some(3) => InProgress
    case Some(4) => Returned
    case _ => Confirmed
  }

  // ── Field defaulting ───────────────────────────────────────────────

  /** `a || b` for an optional string: a missing or empty `a` gives `b`. */
  function OrElse(a: Option<string>, b: string): (r: string)
    ensures a.Some? && a.value != "" ==> r == a.value
    ensures a.None? || a.value == "" ==> r == b
  {
    if a.Some? && a.value != "" then a.value else b
  }

  /** `quantity || 1`: a missing or zero quantity becomes 1. */
  function QuantityOrOne(q: Option<int>): (r: int)
    ensures r != 0
    ensures q.Some? && q.value != 0 ==> r == q.value
    ensures q.None? || q.value == 0 ==> r == 1
  {
    if q.Some? && q.value != 0 then q.value else 1
  }

  /** `x || undefined` for an optional string. */
  function NonEmpty(a: Option<string>): (r: Option<string>)
    ensures r.Some? <==> a.Some? && a.value != ""
    ensures r.Some? ==> r == a
  {
    if a.Some? && a.value != "" then a else None
  }

  /** One Odoo `sale.order.line`: the product's display name
      (`product_id[1]`), the line's own name and its quantity. */
  datatype OdooLine = OdooLine(productName: Option<string>, lineName: Option<string>, quantity: Option<int>)

  /** An Odoo line as an item. The displayed name prefers the product name
      and is cleaned; the category is computed from the raw line name,
      preferring the line's own name. */
  function OdooItem(line: OdooLine): (r: CaseItem)
    ensures r.name == CleanOdooItemName(OrElse(line.productName, OrElse(line.lineName, "Product")))
    ensures r.quantity == QuantityOrOne(line.quantity)
    ensures r.serialNumber.None? && r.weight.None?
    ensures r.productCategory == Some(CategoryName(DetectProductCategory(OrElse(line.lineName, OrElse(line.productName, "")))))
    ensures IsCaseItem(r) <==> ContainsAny(Lower(OrElse(line.lineName, OrElse(line.productName, ""))), CaseStems)
  {
    var category := DetectProductCategory(OrElse(line.lineName, OrElse(line.productName, "")));
    ClassifiedContainer(CaseItem("", 1, None, None, Some(CategoryName(category))), category);
    CaseItem(
      CleanOdooItemName(OrElse(line.productName, OrElse(line.lineName, "Product"))),
      QuantityOrOne(line.quantity),
      None,
      None,
      Some(CategoryName(category)))
  }

  /** An Odoo line with its own name is classified from that name alone: the
      product name only changes the displayed name. */
  lemma OdooCategoryIgnoresProductName(line: OdooLine, p: Option<string>)
    requires line.lineName.Some? && line.lineName.value != ""
    ensures OdooItem(line.(productName := p)).productCategory == OdooItem(line).productCategory
    ensures OdooItem(line.(productName := p)).quantity == OdooItem(line).quantity
  {
  }

  /** One currentRMS opportunity item. A weight of 0 is read as no weight. */
  datatype RmsItem = RmsItem(
    name: Option<string>,
    productName: Option<string>,
    quantity: Option<int>,
    serialNumber: Option<string>,
    weight: Option<real>,
    productGroupName: Option<string>)

  /** A currentRMS item as an item. Its category is its product group,
      lower-cased ("general" when missing); the keyword classifier is not
      used. */
  function RmsItemToCaseItem(item: RmsItem): (r: CaseItem)
    ensures r.name == OrElse(item.name, OrElse(item.productName, "Item")) && r.name != ""
    ensures r.quantity == QuantityOrOne(item.quantity)
    ensures r.serialNumber == NonEmpty(item.serialNumber)
    ensures r.weight.Some? <==> item.weight.Some? && item.weight.value != 0.0
    ensures r.weight.Some? ==> r.weight == item.weight
    ensures r.productCategory == Some(Lower(OrElse(item.productGroupName, "general")))
    ensures ItemWeight(r) == item.weight.GetOr(0.0) * r.quantity as real
    ensures IsCaseItem(r) <==> Lower(OrElse(item.productGroupName, "general")) == "case"
  {
    CaseItem(
      OrElse(item.name, OrElse(item.productName, "Item")),
      QuantityOrOne(item.quantity),
      NonEmpty(item.serialNumber),
      if item.weight.Some? && item.weight.value != 0.0 then item.weight else None,
      Some(Lower(OrElse(item.productGroupName, "general"))))
  }

  /** A currentRMS item named like a flight case but grouped elsewhere is
      not a container: its name plays no part in its category. */
  lemma RmsNameIgnored(item: RmsItem, g: string)
    requires item.productGroupName == Some(g)
    requires Lower(g) != "case"
    ensures !IsCaseItem(RmsItemToCaseItem(item))
  {
    LowerIdempotent(OrElse(item.productGroupName, "general"));
  }

  // ── Notes ──────────────────────────────────────────────────────────

  /** `s.replace(/<[^>]*>/g, "")`: every `<` that a later `>` closes is
      removed together with everything up to the first such `>`; a `<`
      that nothing closes stays. */
  function StripTags(s: string): (r: string)
    ensures |r| <= |s|
    ensures forall k :: 0 <= k < |r| ==> r[k] in s
    decreases |s|
  {
    if |s| == 0 then ""
    else
      match FirstIndexOf(s, '>', 1, |s|)
      case Some(g) =>
        if s[0] == '<' then
          var rest := StripTags(s[g + 1..]);
          assert forall k :: 0 <= k < |rest| ==> rest[k] in s by {
            forall k | 0 <= k < |rest| ensures rest[k] in s {
              var x :| 0 <= x < |s[g + 1..]| && s[g + 1..][x] == rest[k];
            }
          }
          rest
        else KeepFirst(s)
      case None => KeepFirst(s)
  }

  function KeepFirst(s: string): (r: string)
    requires |s| > 0
    ensures |r| <= |s|
    ensures forall k :: 0 <= k < |r| ==> r[k] in s
    decreases |s|, 0
  {
    var rest := StripTags(s[1..]);
    assert forall k :: 0 <= k < |rest| ==> rest[k] in s by {
      forall k | 0 <= k < |rest| ensures rest[k] in s {
        var x :| 0 <= x < |s[1..]| && s[1..][x] == rest[k];
      }
    }
    [s[0]] + rest
  }

  /** No `<` in `s` is followed, anywhere later, by a `>`. */
  predicate NoTag(s: string)
  {
    forall i, j :: 0 <= i < j < |s| && s[i] == '<' ==> s[j] != '>'
  }

  /** Stripping leaves no tag behind. */
  lemma {:induction false} StripTagsLeavesNoTag(s: string)
    ensures NoTag(StripTags(s))
    decreases |s|
  {
    if |s| > 0 {
      var r := StripTags(s);
      match FirstIndexOf(s, '>', 1, |s|)
      case Some(g) =>
        if s[0] == '<' {
          StripTagsLeavesNoTag(s[g + 1..]);
        } else {
          StripTagsLeavesNoTag(s[1..]);
          assert r == [s[0]] + StripTags(s[1..]);
        }
      case None =>
        var rest := StripTags(s[1..]);
        StripTagsLeavesNoTag(s[1..]);
        assert r == KeepFirst(s) == [s[0]] + rest;
        forall j | 0 < j < |r|
          ensures r[j] != '>'
        {
          assert r[j] == rest[j - 1];
          var x :| 0 <= x < |s[1..]| && s[1..][x] == rest[j - 1];
          assert s[x + 1] != '>';
        }
    }
  }

  /** A text without tags is left as it is. */
  lemma {:induction false} StripTagsKeepsUntagged(s: string)
    requires NoTag(s)
    ensures StripTags(s) == s
    decreases |s|
  {
    if |s| > 0 {
      assert NoTag(s[1..]) by {
        forall i, j | 0 <= i < j < |s[1..]| && s[1..][i] == '<'
          ensures s[1..][j] != '>'
        {
          assert s[i + 1] == '<';
        }
      }
      StripTagsKeepsUntagged(s[1..]);
      if s[0] == '<' {
        assert forall k :: 1 <= k < |s| ==> s[k] != '>';
      }
      assert s == [s[0]] + s[1..];
    }
  }

  /** In particular a note without any `<` is unchanged. */
  lemma NoAngleUnchanged(s: string)
    requires forall i :: 0 <= i < |s| ==> s[i] != '<'
    ensures StripTags(s) == s
  {
    StripTagsKeepsUntagged(s);
  }

  /** Stripping twice is stripping once. */
  lemma StripTagsIdempotent(s: string)
    ensures StripTags(StripTags(s)) == StripTags(s)
  {
    StripTagsLeavesNoTag(s);
    StripTagsKeepsUntagged(StripTags(s));
  }

  /** Odoo's `note`: a missing or empty note is no note; any other note is
      kept with its tags stripped. */
  function OdooNotes(note: Option<string>): (r: Option<string>)
    ensures r.None? <==> note.None? || note.value == ""
    ensures r.Some? ==> r.value == StripTags(note.value)
    ensures r.Some? ==> NoTag(r.value) && |r.value| <= |note.value|
    ensures r.Some? && NoTag(note.value) ==> r == note
  {
    if note.Some? && note.value != "" then
      StripTagsLeavesNoTag(note.value);
      assert NoTag(note.value) ==> StripTags(note.value) == note.value by {
        if NoTag(note.value) {
          StripTagsKeepsUntagged(note.value);
        }
      }
      Some(StripTags(note.value))
    else None
  }

  // ── Orders ─────────────────────────────────────────────────────────

  /** `s.split(c)[0]`: the text before the first `c`, or all of `s`. */
  function PrefixBefore(s: string, c: char): (r: string)
    ensures |r| <= |s| && r == s[..|r|]
    ensures forall k :: 0 <= k < |r| ==> r[k] != c
    ensures |r| < |s| ==> s[|r|] == c
    decreases |s|
  {
    if |s| == 0 || s[0] == c then "" else [s[0]] + PrefixBefore(s[1..], c)
  }

  /** `x?.split(c)[0]` for an optional `x`. */
  function DatePart(x: Option<string>, c: char): (r: Option<string>)
    ensures r.Some? <==> x.Some?
    ensures r.Some? ==> r.value == PrefixBefore(x.value, c)
  {
    match x
    case None => None
    case Some(v) => Some(PrefixBefore(v, c))
  }

  /** An Odoo date field as `search_read` returns it: not sent at all,
      Odoo's `false` for an empty field, or the timestamp text. */
  datatype OdooDate = Unset | OdooFalse | Stamp(text: string)

  /** The text of a date that is not `false`, as an optional string. */
  function StampText(d: OdooDate): (r: Option<string>)
    ensures r.Some? <==> d.Stamp?
    ensures d.Stamp? ==> r.value == d.text
  {
    if d.Stamp? then Some(d.text) else None
  }

  /** The fields of an Odoo rental order that the feed reads; `id` is the
      decimal text of the record's numeric id. */
  datatype OdooRentalOrder = OdooRentalOrder(
    id: string,
    name: Option<string>,
    partnerName: Option<string>,
    dateOrder: OdooDate,
    rentalReturnDate: OdooDate,
    rentalStatus: Option<string>,
    lines: seq<OdooLine>,
    note: Option<string>)

  /** An Odoo rental order as an order. `today` is the `YYYY-MM-DD` date
      used when the order has no date. `d?.split(" ")` throws a TypeError
      when `d` is `false`, since `?.` passes over only null and undefined:
      such an order has no result. */
  function OdooOrder(ro: OdooRentalOrder, today: string): (r: Option<RentalOrder>)
    ensures r.None? <==> ro.dateOrder.OdooFalse? || ro.rentalReturnDate.OdooFalse?
    ensures r.Some? ==> r.value.id == "odoo-" + ro.id && r.value.caseAssetCode == "ODO-" + ro.id
    ensures r.Some? ==> r.value.orderRef == OrElse(ro.name, "ODO-" + ro.id) && r.value.orderRef != ""
    ensures r.Some? ==> r.value.customerName == OrElse(ro.partnerName, "Unknown Customer") && r.value.customerName != ""
    ensures r.Some? ==> r.value.jobName == OrElse(ro.name, "Rental Order") && r.value.jobName != ""
    ensures r.Some? ==> r.value.venue == ""
    ensures r.Some? ==> r.value.jobDate == OrElse(DatePart(StampText(ro.dateOrder), ' '), today)
    ensures r.Some? && r.value.jobDate != today ==>
              forall k :: 0 <= k < |r.value.jobDate| ==> r.value.jobDate[k] != ' '
    ensures r.Some? && ro.dateOrder.Unset? ==> r.value.jobDate == today
    ensures r.Some? ==> r.value.returnDate == OrElse(DatePart(StampText(ro.rentalReturnDate), ' '), "")
    ensures r.Some? ==> forall k :: 0 <= k < |r.value.returnDate| ==> r.value.returnDate[k] != ' '
    ensures r.Some? ==> r.value.status == OdooStatus(ro.rentalStatus)
    ensures r.Some? ==> |r.value.items| == |ro.lines|
    ensures r.Some? ==> forall i :: 0 <= i < |r.value.items| ==> r.value.items[i] == OdooItem(ro.lines[i])
    ensures r.Some? ==> r.value.notes == OdooNotes(ro.note)
  {
    if ro.dateOrder.OdooFalse? || ro.rentalReturnDate.OdooFalse? then None
    else
      Some(RentalOrder(
        "odoo-" + ro.id,
        OrElse(ro.name, "ODO-" + ro.id),
        OrElse(ro.partnerName, "Unknown Customer"),
        OrElse(ro.name, "Rental Order"),
        OrElse(DatePart(StampText(ro.dateOrder), ' '), today),
        OrElse(DatePart(StampText(ro.rentalReturnDate), ' '), ""),
        "",
        "ODO-" + ro.id,
        OdooStatus(ro.rentalStatus),
        seq(|ro.lines|, i requires 0 <= i < |ro.lines| => OdooItem(ro.lines[i])),
        OdooNotes(ro.note)))
  }

  /** The clock is read only for the job date, and only when the order
      has no usable date of its own; whether the order throws does not
      depend on it. */
  lemma OdooOrderUsesTodayOnlyAsFallback(ro: OdooRentalOrder, t1: string, t2: string)
    ensures OdooOrder(ro, t1).None? <==> OdooOrder(ro, t2).None?
    ensures OdooOrder(ro, t1).Some? ==>
              OdooOrder(ro, t1).value.(jobDate := "") == OdooOrder(ro, t2).value.(jobDate := "")
    ensures OrElse(DatePart(StampText(ro.dateOrder), ' '), "") != "" ==> OdooOrder(ro, t1) == OdooOrder(ro, t2)
  {
  }

  /** The loop over the rental orders `search_read` returned: one order
      each, in the same order. A single order that throws ends the loop,
      and the caller then records an error for the platform instead of
      any of its orders. */
  function OdooOrders(ros: seq<OdooRentalOrder>, today: string): (r: Option<seq<RentalOrder>>)
    ensures r.None? <==> exists i | 0 <= i < |ros| :: OdooOrder(ros[i], today).None?
    ensures r.Some? ==> |r.value| == |ros|
    ensures r.Some? ==> forall i :: 0 <= i < |ros| ==> OdooOrder(ros[i], today) == Some(r.value[i])
  {
    var converted := seq(|ros|, i requires 0 <= i < |ros| => OdooOrder(ros[i], today));
    assert forall i :: 0 <= i < |ros| ==> converted[i] == OdooOrder(ros[i], today);
    AllSome(converted)
  }

  /** Every value present, in order, or `None` when one is missing: a
      conversion loop whose first failure abandons the whole batch. */
  function AllSome<T>(xs: seq<Option<T>>): (r: Option<seq<T>>)
    ensures r.None? <==> exists i | 0 <= i < |xs| :: xs[i].None?
    ensures r.Some? ==> |r.value| == |xs|
    ensures r.Some? ==> forall i :: 0 <= i < |xs| ==> xs[i] == Some(r.value[i])
    decreases |xs|
  {
    if |xs| == 0 then Some([])
    else
      var rest := AllSome(xs[1..]);
      assert forall i :: 1 <= i < |xs| ==> xs[1..][i - 1] == xs[i];
      match xs[0]
      case None => None
      case Some(o) =>
        if rest.None? then None else Some([o] + rest.value)
  }

  /** The fields of a currentRMS opportunity that the feed reads; `id` is
      the decimal text of its numeric id. */
  datatype Opportunity = Opportunity(
    id: string,
    number: Option<string>,
    memberName: Option<string>,
    organisationName: Option<string>,
    subject: Option<string>,
    startsAt: Option<string>,
    endsAt: Option<string>,
    venue: Option<string>,
    destination: Option<string>,
    status: Option<int>,
    items: Option<seq<RmsItem>>,
    description: Option<string>)

  /** A currentRMS opportunity as an order. */
  function RmsOrder(opp: Opportunity): (r: RentalOrder)
    ensures r.id == "crms-" + opp.id && r.caseAssetCode == "CRMS-" + opp.id
    ensures r.orderRef == OrElse(opp.number, "CRMS-" + opp.id) && r.orderRef != ""
    ensures r.customerName == OrElse(opp.memberName, OrElse(opp.organisationName, "Unknown")) && r.customerName != ""
    ensures r.jobName == OrElse(opp.subject, "Opportunity") && r.jobName != ""
    ensures r.jobDate == OrElse(DatePart(opp.startsAt, 'T'), "")
    ensures r.returnDate == OrElse(DatePart(opp.endsAt, 'T'), "")
    ensures r.venue == OrElse(opp.venue, OrElse(opp.destination, ""))
    ensures forall k :: 0 <= k < |r.jobDate| ==> r.jobDate[k] != 'T'
    ensures forall k :: 0 <= k < |r.returnDate| ==> r.returnDate[k] != 'T'
    ensures r.status == RmsStatus(opp.status)
    ensures opp.items.None? ==> r.items == []
    ensures opp.items.Some? ==>
              && |r.items| == |opp.items.value|
              && forall i :: 0 <= i < |r.items| ==> r.items[i] == RmsItemToCaseItem(opp.items.value[i])
    ensures r.notes == NonEmpty(opp.description)
  {
    var items := opp.items.GetOr([]);
    RentalOrder(
      "crms-" + opp.id,
      OrElse(opp.number, "CRMS-" + opp.id),
      OrElse(opp.memberName, OrElse(opp.organisationName, "Unknown")),
      OrElse(opp.subject, "Opportunity"),
      OrElse(DatePart(opp.startsAt, 'T'), ""),
      OrElse(DatePart(opp.endsAt, 'T'), ""),
      OrElse(opp.venue, OrElse(opp.destination, "")),
      "CRMS-" + opp.id,
      RmsStatus(opp.status),
      seq(|items|, i requires 0 <= i < |items| => RmsItemToCaseItem(items[i])),
      NonEmpty(opp.description))
  }
}
