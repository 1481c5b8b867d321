/**
 * The two substring tests of the extractor: a table-header line inside a
 * page, and a page that is not a bill at all.
 */
module Classify {
  import opened Text

  /** The words whose presence marks a line of a page as a table header. */
  const HeaderWords: seq<string> := ["description", "qty", "rate", "discount", "net amt", "total"]

  /** A line is a header when its lowercase form contains one of `HeaderWords`. */
  predicate IsHeaderLine(ln: string)
  {
    AnyContains(HeaderWords, Lower(ln))
  }

  /** A line is a header exactly when one of the header words occurs at some
      position of its lowercase form. */
  lemma HeaderLineExactly(ln: string)
    ensures IsHeaderLine(ln) <==>
            exists k, i :: 0 <= k < |HeaderWords| && OccursAt(Lower(ln), HeaderWords[k], i)
  {
    forall k | 0 <= k < |HeaderWords| {
      ContainsSpec(Lower(ln), HeaderWords[k]);
    }
  }

  /** A line holding one of the header words, in any ASCII case, is a header. */
  lemma HeaderWordMakesHeader(ln: string, k: nat)
    requires k < |HeaderWords| && Contains(ln, HeaderWords[k])
    ensures IsHeaderLine(ln)
  {
    ContainsLower(ln, HeaderWords[k]);
    assert Lower(HeaderWords[k]) == HeaderWords[k];
  }

  /** Where `needle` occurs, each of its characters occurs. */
  lemma ContainsChar(hay: string, needle: string, k: nat)
    requires k < |needle|
    ensures Contains(hay, needle) ==> needle[k] in hay
  {
    ContainsSpec(hay, needle);
    if Contains(hay, needle) {
      var i :| OccursAt(hay, needle, i);
      assert hay[i + k] == needle[k];
    }
  }

  /** Every header word holds a 'q', an 'r' or a 't': a line without any of
      them, in either case, is not a header. */
  lemma NotHeaderLine(ln: string)
    requires 'q' !in Lower(ln) && 'r' !in Lower(ln) && 't' !in Lower(ln)
    ensures !IsHeaderLine(ln)
  {
    var low := Lower(ln);
    ContainsChar(low, HeaderWords[0], 4);
    ContainsChar(low, HeaderWords[1], 0);
    ContainsChar(low, HeaderWords[2], 0);
    ContainsChar(low, HeaderWords[3], 7);
    ContainsChar(low, HeaderWords[4], 2);
    ContainsChar(low, HeaderWords[5], 0);
  }

  /** The phrases that mark a page as something other than a bill: a sample of
      the response format, for instance. */
  const JunkPatterns: seq<string> :=
    ["pagewise line items", "response format", "item name", "tem_amount", "tem quantity"]

  /** `is_junk_page(txt)`: the lowercased page text contains one of the phrases. */
  predicate IsJunkPage(txt: string)
  {
    AnyContains(JunkPatterns, Lower(txt))
  }

  /** A page is junk exactly when one of the phrases occurs at some position
      of its lowercase text. */
  lemma JunkPageExactly(txt: string)
    ensures IsJunkPage(txt) <==>
            exists k, i :: 0 <= k < |JunkPatterns| && OccursAt(Lower(txt), JunkPatterns[k], i)
  {
    forall k | 0 <= k < |JunkPatterns| {
      ContainsSpec(Lower(txt), JunkPatterns[k]);
    }
  }

  /** The phrases in any ASCII case mark a page as junk. */
  lemma JunkPhraseMakesJunk(txt: string, k: nat)
    requires k < |JunkPatterns| && Contains(txt, JunkPatterns[k])
    ensures IsJunkPage(txt)
  {
    ContainsLower(txt, JunkPatterns[k]);
    assert Lower(JunkPatterns[k]) == JunkPatterns[k];
  }

  /** A name such as "Corporate Ward" is taken for a header: it contains "rate". */
  lemma CorporateIsHeader()
    ensures IsHeaderLine("Corporate Ward")
  {
    assert OccursAt("Corporate Ward", "rate", 5);
    ContainsSpec("Corporate Ward", "rate");
    HeaderWordMakesHeader("Corporate Ward", 2);
  }

  lemma LowerGrandTotal()
    ensures Lower("Grand Total 525.00") == "grand total 525.00"
  {
  }

  /** A total line is a header too. */
  lemma GrandTotalIsHeader()
    ensures IsHeaderLine("Grand Total 525.00")
  {
    LowerGrandTotal();
    assert OccursAt("grand total 525.00", "total", 6);
    ContainsSpec("grand total 525.00", "total");
    assert HeaderWords[5] == "total";
  }
}
