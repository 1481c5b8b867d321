/**
 * The non-I/O part of `extract_bill_data`: the loop over the OCR text of each
 * page, which skips the pages that are not bills, parses and tags the items of
 * the others and keeps a record per page; the de-duplication of the collected
 * items by name key and amount; and the count and total of what is kept.
 */
module Extract {
  import opened Wrappers
  import opened Text
  import opened Names
  import opened Classify
  import opened Parser
  import opened Collections

  const BillDetail: string := "Bill Detail"

  /** One entry of `pagewise_line_items`. */
  datatype Page = Page(pageNo: string, pageType: string, billItems: seq<LineItem>)

  /** The `data` part of the response. */
  datatype Extraction = Extraction(
    pagewise: seq<Page>,
    unique: seq<LineItem>,
    totalCount: nat,
    sumTotal: real)

  /** The items with `_page_no` set to `no`. */
  function Tag(items: seq<LineItem>, no: string): seq<LineItem>
  {
    seq(|items|, k requires 0 <= k < |items| => items[k].(pageNo := Some(no)))
  }

  /** The record of the page numbered `i` (from 1) whose text is `t`. */
  function PageOf(i: nat, t: string): Page
  {
    var no := NatToString(i);
    Page(no, BillDetail, Tag(Parse(PageLines(t)), no))
  }

  /** `pagewise` once the pages `texts` have been read. */
  function Pagewise(texts: seq<string>): seq<Page>
  {
    KeptBy(texts, IsJunkPage, PageOf)
  }

  /** The numbers (from 1) of the pages that are not junk, in order. */
  function KeptNumbers(texts: seq<string>): seq<nat>
  {
    KeptPositions(texts, IsJunkPage)
  }

  /** The items of the page records, page after page. */
  function PageItems(ps: seq<Page>): seq<LineItem>
  {
    if ps == [] then [] else PageItems(ps[..|ps| - 1]) + ps[|ps| - 1].billItems
  }

  // ---------------------------------------------------------------------
  // De-duplication and the total.

  type Key = (string, Option<real>)

  /** `(normalize_name(it["item_name"]), it.get("item_amount"))`. */
  function KeyOf(it: LineItem): Key
  {
    (NormalizeName(it.name), it.amount)
  }

  function KeysOf(items: seq<LineItem>): set<Key>
  {
    KeysBy(items, KeyOf)
  }

  /** `final_items`. */
  function Dedup(items: seq<LineItem>): seq<LineItem>
  {
    DedupBy(items, KeyOf)
  }

  /** `it["item_amount"] or 0`. */
  function AmountOrZero(it: LineItem): real
  {
    match it.amount
    case Some(a) => a
    case None => 0.0
  }

  /** The sum of the amounts, a missing amount counting as zero. */
  function SumAmounts(items: seq<LineItem>): real
  {
    if items == [] then 0.0 else SumAmounts(items[..|items| - 1]) + AmountOrZero(items[|items| - 1])
  }

  // ---------------------------------------------------------------------
  // The loops.

  /** The loop over the pages: `pagewise`, and `collected`, which holds the
      same tagged items. */
  method CollectPages(texts: seq<string>) returns (pagewise: seq<Page>, collected: seq<LineItem>)
    ensures pagewise == Pagewise(texts)
    ensures collected == PageItems(pagewise)
  {
    pagewise, collected := [], [];
    for i := 0 to |texts|
      invariant pagewise == Pagewise(texts[..i])
      invariant collected == PageItems(pagewise)
    {
      var txt := texts[i];
      PagewiseStep(texts, i);
      if IsJunkPage(txt) {
        continue;
      }
      var items := ParsePageText(txt);
      var no := NatToString(i + 1);
      var tagged;
      tagged, collected := TagPage(items, no, collected);
      var page := Page(no, BillDetail, tagged);
      PageOfItems(i + 1, txt, items);
      PageItemsSnoc(pagewise, page);
      pagewise := pagewise + [page];
    }
    assert texts[..|texts|] == texts;
  }

  /** The inner loop: each item of the page gets its `_page_no` and is
      appended to `all_items` as well as to the page's own list. */
  method TagPage(items: seq<LineItem>, no: string, all: seq<LineItem>) returns (tagged: seq<LineItem>, all': seq<LineItem>)
    ensures tagged == Tag(items, no)
    ensures all' == all + tagged
  {
    tagged, all' := [], all;
    for k := 0 to |items|
      invariant tagged == Tag(items[..k], no)
      invariant all' == all + tagged
    {
      TagSnoc(items, k, no);
      var it := items[k].(pageNo := Some(no));
      tagged := tagged + [it];
      all' := all' + [it];
    }
    assert items[..|items|] == items;
  }

  /** The de-duplication loop with its `seen` set. */
  method Deduplicate(collected: seq<LineItem>) returns (finalItems: seq<LineItem>)
    ensures finalItems == Dedup(collected)
  {
    var seen: set<Key> := {};
    finalItems := [];
    for i := 0 to |collected|
      invariant finalItems == Dedup(collected[..i])
      invariant seen == KeysOf(finalItems)
    {
      var it := collected[i];
      var key := KeyOf(it);
      DedupStep(collected, i);
      if key !in seen {
        KeysOfSnoc(finalItems, it);
        seen := seen + {key};
        finalItems := finalItems + [it];
      }
    }
    assert collected[..|collected|] == collected;
  }

  /** `extract_bill_data` from the OCR text of each page on. */
  method ExtractBillData(texts: seq<string>) returns (res: Extraction)
    ensures res.pagewise == Pagewise(texts)
    ensures res.unique == Dedup(PageItems(Pagewise(texts)))
    ensures res.totalCount == |res.unique|
    ensures res.sumTotal == SumAmounts(res.unique)
  {
    var pagewise, collected := CollectPages(texts);
    var finalItems := Deduplicate(collected);
    res := Extraction(pagewise, finalItems, |finalItems|, SumAmounts(finalItems));
  }

  // ---------------------------------------------------------------------
  // Steps of the loops.

  lemma TagSnoc(items: seq<LineItem>, k: nat, no: string)
    requires k < |items|
    ensures Tag(items[..k + 1], no) == Tag(items[..k], no) + [items[k].(pageNo := Some(no))]
  {
  }

  lemma PageOfItems(i: nat, t: string, items: seq<LineItem>)
    requires items == Parse(PageLines(t))
    ensures PageOf(i, t) == Page(NatToString(i), BillDetail, Tag(items, NatToString(i)))
  {
  }

  lemma PageItemsSnoc(ps: seq<Page>, p: Page)
    ensures PageItems(ps + [p]) == PageItems(ps) + p.billItems
  {
    assert (ps + [p])[..|ps|] == ps;
  }

  /** Reading page `i + 1` adds nothing when it is junk and its record otherwise. */
  lemma PagewiseStep(texts: seq<string>, i: nat)
    requires i < |texts|
    ensures Pagewise(texts[..i + 1]) ==
            if IsJunkPage(texts[i]) then Pagewise(texts[..i]) else Pagewise(texts[..i]) + [PageOf(i + 1, texts[i])]
  {
    assert texts[..i + 1] == texts[..i] + [texts[i]];
    KeptBySnoc(texts[..i], texts[i], IsJunkPage, PageOf);
  }

  lemma KeysOfSnoc(items: seq<LineItem>, it: LineItem)
    ensures KeysOf(items + [it]) == KeysOf(items) + {KeyOf(it)}
  {
    KeysBySnoc(items, it, KeyOf);
  }

  lemma DedupStep(items: seq<LineItem>, i: nat)
    requires i < |items|
    ensures Dedup(items[..i + 1]) ==
            if KeyOf(items[i]) in KeysOf(Dedup(items[..i])) then Dedup(items[..i]) else Dedup(items[..i]) + [items[i]]
  {
    assert items[..i + 1] == items[..i] + [items[i]];
    DedupBySnoc(items[..i], items[i], KeyOf);
  }

  // ---------------------------------------------------------------------
  // Pages.

  /** There is a record for each page that is not junk. */
  lemma PagewiseLength(texts: seq<string>)
    ensures |Pagewise(texts)| == |KeptNumbers(texts)|
  {
    KeptByLength(texts, IsJunkPage, PageOf);
  }

  /** Record `j` is the record of the `j`-th page that is not junk. */
  lemma PagewiseEntry(texts: seq<string>, j: nat)
    requires j < |KeptNumbers(texts)|
    ensures j < |Pagewise(texts)| && 1 <= KeptNumbers(texts)[j] <= |texts|
    ensures Pagewise(texts)[j] == PageOf(KeptNumbers(texts)[j], texts[KeptNumbers(texts)[j] - 1])
  {
    KeptByEntry(texts, IsJunkPage, PageOf, Pagewise(texts), KeptNumbers(texts), j);
  }

  /** The numbers of the kept pages increase, and a page is among them
      exactly when it is not junk. */
  lemma KeptNumbersExact(texts: seq<string>)
    ensures forall j, j' :: 0 <= j < j' < |KeptNumbers(texts)| ==> KeptNumbers(texts)[j] < KeptNumbers(texts)[j']
    ensures forall i :: 0 <= i < |texts| ==> (i + 1 in KeptNumbers(texts) <==> !IsJunkPage(texts[i]))
  {
    KeptPositionsIncrease(texts, IsJunkPage);
    KeptPositionsExact(texts, IsJunkPage);
  }

  /** Every record is a "Bill Detail" page whose items all carry its number
      and a name. */
  lemma PageOfTagged(i: nat, t: string)
    ensures PageOf(i, t).pageNo == NatToString(i) && PageOf(i, t).pageType == BillDetail
    ensures |PageOf(i, t).billItems| == |Parse(PageLines(t))|
    ensures forall k :: 0 <= k < |PageOf(i, t).billItems| ==>
              PageOf(i, t).billItems[k] == Parse(PageLines(t))[k].(pageNo := Some(NatToString(i))) &&
              PageOf(i, t).billItems[k].name != []
  {
    ParseNames(PageLines(t));
  }

  /** Every item of every record carries that record's page number. */
  lemma ItemsCarryPageNumbers(texts: seq<string>)
    ensures forall j, k :: 0 <= j < |Pagewise(texts)| && 0 <= k < |Pagewise(texts)[j].billItems| ==>
              Pagewise(texts)[j].billItems[k].pageNo == Some(Pagewise(texts)[j].pageNo)
  {
    var ps, ks := Pagewise(texts), KeptNumbers(texts);
    PagewiseLength(texts);
    forall j, k | 0 <= j < |ps| && 0 <= k < |ps[j].billItems|
      ensures ps[j].billItems[k].pageNo == Some(ps[j].pageNo)
    {
      PagewiseEntry(texts, j);
      PageOfTagged(ks[j], texts[ks[j] - 1]);
    }
  }

  /** The records carry distinct page numbers. */
  lemma PagewiseDistinctNumbers(texts: seq<string>)
    ensures forall j, j' :: 0 <= j < j' < |Pagewise(texts)| ==> Pagewise(texts)[j].pageNo != Pagewise(texts)[j'].pageNo
  {
    var ps, ks := Pagewise(texts), KeptNumbers(texts);
    PagewiseLength(texts);
    KeptNumbersExact(texts);
    forall j, j' | 0 <= j < j' < |ps|
      ensures ps[j].pageNo != ps[j'].pageNo
    {
      PagewiseEntry(texts, j);
      PagewiseEntry(texts, j');
      PageOfTagged(ks[j], texts[ks[j] - 1]);
      PageOfTagged(ks[j'], texts[ks[j'] - 1]);
      NatToStringInjective(ks[j], ks[j']);
    }
  }

  /** A junk page adds nothing, whatever comes before; a page that is not junk
      adds its record, and its items tagged with its number, at the end. */
  lemma NextPage(texts: seq<string>, t: string)
    ensures IsJunkPage(t) ==> Pagewise(texts + [t]) == Pagewise(texts)
    ensures !IsJunkPage(t) ==>
              Pagewise(texts + [t]) == Pagewise(texts) + [PageOf(|texts| + 1, t)] &&
              PageItems(Pagewise(texts + [t])) ==
                PageItems(Pagewise(texts)) + Tag(Parse(PageLines(t)), NatToString(|texts| + 1))
  {
    KeptBySnoc(texts, t, IsJunkPage, PageOf);
    if !IsJunkPage(t) {
      PageItemsSnoc(Pagewise(texts), PageOf(|texts| + 1, t));
    }
  }

  /** Pages made up only of junk produce no record. */
  lemma AllJunk(texts: seq<string>)
    requires forall i :: 0 <= i < |texts| ==> IsJunkPage(texts[i])
    ensures Pagewise(texts) == []
  {
    KeptByNone(texts, IsJunkPage, PageOf);
  }

  // ---------------------------------------------------------------------
  // De-duplication.

  /** Every key of the collected items is the key of a kept item, and conversely. */
  lemma DedupKeys(items: seq<LineItem>)
    ensures KeysOf(Dedup(items)) == KeysOf(items)
  {
    DedupByKeys(items, KeyOf);
  }

  /** No two kept items share a key. */
  lemma DedupDistinct(items: seq<LineItem>)
    ensures forall i, j :: 0 <= i < j < |Dedup(items)| ==> KeyOf(Dedup(items)[i]) != KeyOf(Dedup(items)[j])
  {
    DedupByDistinct(items, KeyOf);
  }

  /** The kept items are the subsequence of the collected ones made of the
      first item of each key. */
  lemma DedupPicksFirsts(items: seq<LineItem>) returns (idx: seq<nat>)
    ensures PicksFirsts(items, Dedup(items), idx, KeyOf)
  {
    idx := DedupByPicksFirsts(items, KeyOf);
  }

  /** `total_item_count` is the number of distinct keys among the collected
      items. */
  lemma UniqueCount(items: seq<LineItem>)
    ensures |Dedup(items)| == |KeysOf(items)|
  {
    DedupByDistinct(items, KeyOf);
    DistinctKeysCount(Dedup(items), KeyOf);
    DedupByKeys(items, KeyOf);
  }

  /** De-duplicating again changes nothing. */
  lemma DedupIdempotent(items: seq<LineItem>)
    ensures Dedup(Dedup(items)) == Dedup(items)
  {
    DedupByDistinct(items, KeyOf);
    DedupByOfDistinct(Dedup(items), KeyOf);
  }

  /** Tagging an item with its page number leaves its key alone, so the same
      item read on two pages is kept once, with the first page's tag. */
  lemma RepeatedItemKeptOnce(it: LineItem, first: string, second: string)
    ensures Dedup([it.(pageNo := Some(first)), it.(pageNo := Some(second))]) == [it.(pageNo := Some(first))]
  {
    SameKeyTwice(it.(pageNo := Some(first)), it.(pageNo := Some(second)), KeyOf);
  }

  /** The total of two runs of items is the sum of their totals. */
  lemma {:induction false} SumAppend(a: seq<LineItem>, b: seq<LineItem>)
    ensures SumAmounts(a + b) == SumAmounts(a) + SumAmounts(b)
  {
    if b != [] {
      var b' := b[..|b| - 1];
      assert (a + b)[..|a + b| - 1] == a + b';
      SumAppend(a, b');
    } else {
      assert a + b == a;
    }
  }
  /** The items that have an amount, in order. */
  function WithAmounts(items: seq<LineItem>): (r: seq<LineItem>)
    ensures forall k :: 0 <= k < |r| ==> r[k].amount.Some?
  {
    if items == [] then []
    else
      var last := items[|items| - 1];
      WithAmounts(items[..|items| - 1]) + (if last.amount.Some? then [last] else [])
  }

  /** A missing amount counts as zero: the total is that of the items that
      have an amount. */
  lemma {:induction false} SumSkipsMissing(items: seq<LineItem>)
    ensures SumAmounts(items) == SumAmounts(WithAmounts(items))
  {
    if items != [] {
      var pre := items[..|items| - 1];
      var last := items[|items| - 1];
      SumSkipsMissing(pre);
      SumAppend(WithAmounts(pre), if last.amount.Some? then [last] else []);
      assert [last][..0] == [];
    }
  }

  lemma SumExample()
    ensures SumAmounts([LineItem("Paracetamol 500mg", Some(10.0), Some(2.5), Some(25.0), None),
                        LineItem("Registration", None, None, None, None),
                        LineItem("Ambulance Fee", Some(1.0), None, Some(500.0), None)]) == 525.0
  {
    var a := LineItem("Paracetamol 500mg", Some(10.0), Some(2.5), Some(25.0), None);
    var b := LineItem("Registration", None, None, None, None);
    var c := LineItem("Ambulance Fee", Some(1.0), None, Some(500.0), None);
    assert [a, b, c][..2] == [a, b] && [a, b][..1] == [a] && [a][..0] == [];
    assert SumAmounts([a]) == 25.0;
    assert SumAmounts([a, b]) == 25.0;
  }


  // ---------------------------------------------------------------------
  // A document.

  /** A sample-format page before a bill page: only the bill page counts, and
      it keeps its own number "2". */
  lemma JunkThenBill(junk: string, bill: string)
    requires IsJunkPage(junk) && !IsJunkPage(bill)
    ensures Pagewise([junk, bill]) == [PageOf(2, bill)]
    ensures PageOf(2, bill).pageNo == "2"
  {
    NextPage([], junk);
    assert [] + [junk] == [junk];
    NextPage([junk], bill);
    assert [junk] + [bill] == [junk, bill];
    assert NatToString(2) == "2";
  }
}
