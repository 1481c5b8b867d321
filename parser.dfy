/**
 * `parse_page_text`: the line items of one page's text. The lines are read in
 * order with one slot of state, the last line that looked like the start of an
 * item name. Each line is, in this order of priority:
 *   a header line, which clears the slot;
 *   a full item line (name, quantity, rate, discount, net), which gives an item;
 *   an amount line following a buffered name, which completes that name;
 *   anything else, which becomes the new buffered name.
 */
module Parser {
  import opened Wrappers
  import opened Text
  import opened Numbers
  import opened Classify
  import opened Shapes
  import opened Collections

  /** One extracted line item. `pageNo` is the `_page_no` that page assembly
      adds; the parser leaves it unset. */
  datatype LineItem = LineItem(
    name: string,
    quantity: Option<real>,
    rate: Option<real>,
    amount: Option<real>,
    pageNo: Option<string>)

  /** `[ln.strip() for ln in text.splitlines() if ln.strip()]` over some pieces. */
  function StrippedLines(pieces: seq<string>): (lines: seq<string>)
    requires forall k :: 0 <= k < |pieces| ==> NoBreak(pieces[k])
    ensures |lines| <= |pieces|
    ensures forall k :: 0 <= k < |lines| ==> lines[k] != [] && IsStripped(lines[k]) && NoBreak(lines[k])
  {
    if pieces == [] then []
    else
      var n := |pieces|;
      var s := Strip(pieces[n - 1]);
      StripNoBreak(pieces[n - 1]);
      var pre := StrippedLines(pieces[..n - 1]);
      if s != [] then LinesSnoc(pre, s); pre + [s] else pre
  }

  lemma LinesSnoc(pre: seq<string>, s: string)
    requires s != [] && IsStripped(s) && NoBreak(s)
    requires forall k :: 0 <= k < |pre| ==> pre[k] != [] && IsStripped(pre[k]) && NoBreak(pre[k])
    ensures forall k :: 0 <= k < |pre| + 1 ==>
              (pre + [s])[k] != [] && IsStripped((pre + [s])[k]) && NoBreak((pre + [s])[k])
  {
    forall k | 0 <= k < |pre| + 1
      ensures (pre + [s])[k] != [] && IsStripped((pre + [s])[k]) && NoBreak((pre + [s])[k])
    {
      if k < |pre| {
        assert (pre + [s])[k] == pre[k];
      }
    }
  }

  /** The stripped, non-empty lines of a page's text. */
  function PageLines(text: string): (lines: seq<string>)
    ensures forall k :: 0 <= k < |lines| ==> lines[k] != [] && IsStripped(lines[k]) && NoBreak(lines[k])
  {
    StrippedLines(SplitAtBreaks(text))
  }

  /** A piece that strips to nothing gives no line. */
  predicate IsBlank(piece: string)
  {
    Strip(piece) == []
  }

  /** The line a piece gives, as a record for `KeptBy`. */
  function StripAt(i: nat, piece: string): string
  {
    Strip(piece)
  }

  /** The lines are the strips of the pieces that are not blank, in order. */
  lemma {:induction false} StrippedLinesKept(pieces: seq<string>)
    requires forall k :: 0 <= k < |pieces| ==> NoBreak(pieces[k])
    ensures StrippedLines(pieces) == KeptBy(pieces, IsBlank, StripAt)
  {
    if pieces != [] {
      StrippedLinesKept(pieces[..|pieces| - 1]);
    }
  }

  /** Line `j` is the strip of the `j`-th piece that is not blank, and every
      piece that is not blank gives a line. */
  lemma StrippedLinesSpec(pieces: seq<string>)
    requires forall k :: 0 <= k < |pieces| ==> NoBreak(pieces[k])
    ensures |StrippedLines(pieces)| == |KeptPositions(pieces, IsBlank)|
    ensures forall j :: 0 <= j < |KeptPositions(pieces, IsBlank)| ==>
              1 <= KeptPositions(pieces, IsBlank)[j] <= |pieces| &&
              StrippedLines(pieces)[j] == Strip(pieces[KeptPositions(pieces, IsBlank)[j] - 1])
    ensures forall j, j' :: 0 <= j < j' < |KeptPositions(pieces, IsBlank)| ==>
              KeptPositions(pieces, IsBlank)[j] < KeptPositions(pieces, IsBlank)[j']
    ensures forall i :: 0 <= i < |pieces| ==>
              (i + 1 in KeptPositions(pieces, IsBlank) <==> Strip(pieces[i]) != [])
  {
    StrippedLinesKept(pieces);
    KeptBySpec(pieces, IsBlank, StripAt);
  }

  /** The lines of a page are the strips of its pieces that are not blank, in
      order; `StrippedLinesSpec` spells this out entry by entry. */
  lemma PageLinesKept(text: string)
    ensures PageLines(text) == KeptBy(SplitAtBreaks(text), IsBlank, StripAt)
  {
    StrippedLinesKept(SplitAtBreaks(text));
  }

  /** A text with no line break gives its own strip, unless that is empty. */
  lemma PageLinesOne(text: string)
    requires NoBreak(text)
    ensures PageLines(text) == if Strip(text) == [] then [] else [Strip(text)]
  {
    SplitAtBreaksNoBreak(text);
    assert [text][1..] == [];
  }

  // ---------------------------------------------------------------------
  // The state machine.

  /** Which of the four rules a line falls under, in the order they are tried. */
  datatype LineKind = Header | FullLine(m: FullMatch) | AmountLine(m2: AmountMatch) | Other

  function KindOf(ln: string): LineKind
  {
    if IsHeaderLine(ln) then Header
    else match FullItem(ln)
      case Some(m) => FullLine(m)
      case None =>
        match AmountOnly(ln)
        case Some(m2) => AmountLine(m2)
        case None => Other
  }

  /** A line together with the rule it falls under. */
  datatype Line = Line(kind: LineKind, text: string)

  /** What gave an item: a full item line, or a buffered name and the amount
      line that completed it. */
  datatype Found = FullFound(m: FullMatch) | JoinedFound(name: string, m2: AmountMatch)

  /** The parser's state: the buffered name and what gave the items so far. */
  datatype Scan = Scan(buf: Option<string>, found: seq<Found>)

  const Start: Scan := Scan(None, [])

  /** Python's truth value of the buffer: set and not empty. */
  predicate IsSet(buf: Option<string>)
  {
    buf.Some? && buf.value != []
  }

  /** What one line does to the state. An amount line with no buffered name
      is buffered like any other line. */
  function Advance(st: Scan, l: Line): Scan
  {
    match l.kind
    case Header => Scan(None, st.found)
    case FullLine(m) => Scan(None, st.found + [FullFound(m)])
    case AmountLine(m2) =>
      if IsSet(st.buf) then Scan(None, st.found + [JoinedFound(st.buf.value, m2)]) else Scan(Some(l.text), st.found)
    case Other => Scan(Some(l.text), st.found)
  }

  /** The state after the lines, in order, from `st`. */
  function Run(st: Scan, ls: seq<Line>): Scan
    decreases |ls|
  {
    if ls == [] then st else Advance(Run(st, ls[..|ls| - 1]), ls[|ls| - 1])
  }

  /** Each line with the kind `kind` gives it. */
  function WithKinds(kind: string -> LineKind, lines: seq<string>): (ls: seq<Line>)
    ensures |ls| == |lines|
    decreases |lines|
  {
    if lines == [] then []
    else WithKinds(kind, lines[..|lines| - 1]) + [Line(kind(lines[|lines| - 1]), lines[|lines| - 1])]
  }

  /** Each line with its kind. */
  function Classified(lines: seq<string>): (ls: seq<Line>)
    ensures |ls| == |lines|
  {
    WithKinds(KindOf, lines)
  }

  /** What gave the items of a page whose lines are `lines`. */
  function Finds(lines: seq<string>): seq<Found>
  {
    Run(Start, Classified(lines)).found
  }

  // ---------------------------------------------------------------------
  // The items.

  /** The item of a full item line; the discount is not kept. */
  function FullLineItem(m: FullMatch): LineItem
  {
    LineItem(Strip(m.prefix), CleanNum(m.qty), CleanNum(m.rate), CleanNum(m.net), None)
  }

  /** The item of a buffered name completed by an amount line. */
  function JoinedItem(buf: string, m: AmountMatch): LineItem
  {
    LineItem(Strip(buf + " " + m.prefix), Some(1.0), None, CleanNum(m.net), None)
  }

  function ItemOf(f: Found): LineItem
  {
    match f
    case FullFound(m) => FullLineItem(m)
    case JoinedFound(name, m2) => JoinedItem(name, m2)
  }

  /** `f` applied to each of `fs`, in order. */
  function MapFound(f: Found -> LineItem, fs: seq<Found>): (items: seq<LineItem>)
    ensures |items| == |fs|
    decreases |fs|
  {
    if fs == [] then [] else MapFound(f, fs[..|fs| - 1]) + [f(fs[|fs| - 1])]
  }

  function ItemsOf(fs: seq<Found>): (items: seq<LineItem>)
    ensures |items| == |fs|
  {
    MapFound(ItemOf, fs)
  }

  /** The items of a page whose lines are `lines`. */
  function Parse(lines: seq<string>): seq<LineItem>
  {
    ItemsOf(Finds(lines))
  }

  lemma MapFoundSnoc(f: Found -> LineItem, fs: seq<Found>, x: Found)
    ensures MapFound(f, fs + [x]) == MapFound(f, fs) + [f(x)]
  {
    assert (fs + [x])[..|fs|] == fs;
  }

  lemma {:induction false} MapFoundAppend(f: Found -> LineItem, a: seq<Found>, b: seq<Found>)
    ensures MapFound(f, a + b) == MapFound(f, a) + MapFound(f, b)
    decreases |b|
  {
    if b == [] {
      assert a + b == a;
    } else {
      var b' := b[..|b| - 1];
      var x := b[|b| - 1];
      MapFoundAppend(f, a, b');
      assert a + b == (a + b') + [x];
      assert b' + [x] == b;
      MapFoundSnoc(f, a + b', x);
      MapFoundSnoc(f, b', x);
    }
  }

  lemma {:induction false} MapFoundAt(f: Found -> LineItem, fs: seq<Found>, j: nat)
    requires j < |fs|
    ensures MapFound(f, fs)[j] == f(fs[j])
    decreases |fs|
  {
    if j < |fs| - 1 {
      MapFoundAt(f, fs[..|fs| - 1], j);
    }
  }

  lemma ItemsOfSnoc(fs: seq<Found>, x: Found)
    ensures ItemsOf(fs + [x]) == ItemsOf(fs) + [ItemOf(x)]
  {
    MapFoundSnoc(ItemOf, fs, x);
  }

  lemma ItemsOfAppend(a: seq<Found>, b: seq<Found>)
    ensures ItemsOf(a + b) == ItemsOf(a) + ItemsOf(b)
  {
    MapFoundAppend(ItemOf, a, b);
  }

  lemma ItemsOfAt(fs: seq<Found>, j: nat)
    requires j < |fs|
    ensures ItemsOf(fs)[j] == ItemOf(fs[j])
  {
    MapFoundAt(ItemOf, fs, j);
  }

  /** `parse_page_text(text)`. */
  method ParsePageText(text: string) returns (items: seq<LineItem>)
    ensures items == Parse(PageLines(text))
  {
    var lines := PageLines(text);
    items := [];
    var buf: Option<string> := None;
    ghost var found: seq<Found> := [];
    ghost var ls := Classified(lines);
    for i := 0 to |lines|
      invariant Scan(buf, found) == Run(Start, ls[..i])
      invariant items == ItemsOf(found)
    {
      ClassifiedStep(lines, i);
      buf, items, found := ParseLine(lines[i], buf, items, found);
    }
    assert ls[..|ls|] == ls;
  }

  /** One pass of the loop body of `parse_page_text`: the state after line `ln`
      is one `Advance`, and the items are those of what was found. */
  method ParseLine(ln: string, buf: Option<string>, items: seq<LineItem>, ghost found: seq<Found>)
    returns (buf': Option<string>, items': seq<LineItem>, ghost found': seq<Found>)
    requires items == ItemsOf(found)
    ensures Scan(buf', found') == Advance(Scan(buf, found), Line(KindOf(ln), ln))
    ensures items' == ItemsOf(found')
  {
    var low := Lower(ln);
    if AnyContains(HeaderWords, low) {
      return None, items, found;
    }
    var m := FullItem(ln);
    if m.Some? {
      ItemsOfSnoc(found, FullFound(m.value));
      return None, items + [FullLineItem(m.value)], found + [FullFound(m.value)];
    }
    var m2 := AmountOnly(ln);
    if IsSet(buf) && m2.Some? {
      ItemsOfSnoc(found, JoinedFound(buf.value, m2.value));
      return None, items + [JoinedItem(buf.value, m2.value)], found + [JoinedFound(buf.value, m2.value)];
    }
    return Some(ln), items, found;
  }

  /** The state before and after line `i` of the page. */
  function Before(lines: seq<string>, i: nat): Scan
    requires i < |lines|
  {
    Run(Start, Classified(lines)[..i])
  }

  function After(lines: seq<string>, i: nat): Scan
    requires i < |lines|
  {
    Run(Start, Classified(lines)[..i + 1])
  }

  lemma StepHeader(lines: seq<string>, i: nat)
    requires i < |lines| && IsHeaderLine(lines[i])
    ensures After(lines, i) == Scan(None, Before(lines, i).found)
  {
    ClassifiedStep(lines, i);
  }

  lemma StepFull(lines: seq<string>, i: nat, m: FullMatch)
    requires i < |lines| && !IsHeaderLine(lines[i]) && FullItem(lines[i]) == Some(m)
    ensures After(lines, i) == Scan(None, Before(lines, i).found + [FullFound(m)])
  {
    ClassifiedStep(lines, i);
  }

  lemma StepJoined(lines: seq<string>, i: nat, m2: AmountMatch)
    requires i < |lines| && !IsHeaderLine(lines[i]) && FullItem(lines[i]) == None
    requires AmountOnly(lines[i]) == Some(m2) && IsSet(Before(lines, i).buf)
    ensures After(lines, i) == Scan(None, Before(lines, i).found + [JoinedFound(Before(lines, i).buf.value, m2)])
  {
    ClassifiedStep(lines, i);
  }

  lemma StepBuffered(lines: seq<string>, i: nat)
    requires i < |lines| && !IsHeaderLine(lines[i]) && FullItem(lines[i]) == None
    requires !(IsSet(Before(lines, i).buf) && AmountOnly(lines[i]).Some?)
    ensures After(lines, i) == Scan(Some(lines[i]), Before(lines, i).found)
  {
    ClassifiedStep(lines, i);
  }

  // ---------------------------------------------------------------------
  // Running over concatenated lines.

  lemma WithKindsSnoc(kind: string -> LineKind, lines: seq<string>, ln: string)
    ensures WithKinds(kind, lines + [ln]) == WithKinds(kind, lines) + [Line(kind(ln), ln)]
  {
    assert (lines + [ln])[..|lines|] == lines;
  }

  lemma {:induction false} WithKindsAppend(kind: string -> LineKind, x: seq<string>, y: seq<string>)
    ensures WithKinds(kind, x + y) == WithKinds(kind, x) + WithKinds(kind, y)
    decreases |y|
  {
    if y == [] {
      assert x + y == x;
    } else {
      var y' := y[..|y| - 1];
      var ln := y[|y| - 1];
      WithKindsAppend(kind, x, y');
      assert x + y == (x + y') + [ln];
      WithKindsSnoc(kind, x + y', ln);
      WithKindsSnoc(kind, y', ln);
      assert y' + [ln] == y;
    }
  }

  lemma {:induction false} WithKindsAt(kind: string -> LineKind, lines: seq<string>, k: nat)
    requires k < |lines|
    ensures WithKinds(kind, lines)[k] == Line(kind(lines[k]), lines[k])
    decreases |lines|
  {
    if k < |lines| - 1 {
      WithKindsAt(kind, lines[..|lines| - 1], k);
    }
  }

  lemma ClassifiedSnoc(lines: seq<string>, ln: string)
    ensures Classified(lines + [ln]) == Classified(lines) + [Line(KindOf(ln), ln)]
  {
    WithKindsSnoc(KindOf, lines, ln);
  }

  lemma ClassifiedAppend(x: seq<string>, y: seq<string>)
    ensures Classified(x + y) == Classified(x) + Classified(y)
  {
    WithKindsAppend(KindOf, x, y);
  }

  /** The classified lines are the lines, each with its own kind. */
  lemma ClassifiedAt(lines: seq<string>, k: nat)
    requires k < |lines|
    ensures Classified(lines)[k] == Line(KindOf(lines[k]), lines[k])
  {
    WithKindsAt(KindOf, lines, k);
  }

  /** Reading line `i` of the page is one more step. */
  lemma ClassifiedStep(lines: seq<string>, i: nat)
    requires i < |lines|
    ensures Run(Start, Classified(lines)[..i + 1])
         == Advance(Run(Start, Classified(lines)[..i]), Line(KindOf(lines[i]), lines[i]))
  {
    var ls := Classified(lines);
    ClassifiedAt(lines, i);
    assert ls[..i + 1] == ls[..i] + [ls[i]];
    RunSnoc(Start, ls[..i], ls[i]);
  }

  lemma RunSnoc(st: Scan, ls: seq<Line>, l: Line)
    ensures Run(st, ls + [l]) == Advance(Run(st, ls), l)
  {
    assert (ls + [l])[..|ls|] == ls;
  }

  lemma {:induction false} RunAppend(st: Scan, a: seq<Line>, b: seq<Line>)
    ensures Run(st, a + b) == Run(Run(st, a), b)
    decreases |b|
  {
    if b == [] {
      assert a + b == a;
    } else {
      var b' := b[..|b| - 1];
      var l := b[|b| - 1];
      RunAppend(st, a, b');
      assert a + b == (a + b') + [l];
      assert b' + [l] == b;
      RunSnoc(st, a + b', l);
      RunSnoc(Run(st, a), b', l);
    }
  }

  /** The items already emitted play no part in what follows: the lines only
      append to them. */
  lemma {:induction false} RunShift(buf: Option<string>, done: seq<Found>, ls: seq<Line>)
    ensures Run(Scan(buf, done), ls) ==
            Scan(Run(Scan(buf, []), ls).buf, done + Run(Scan(buf, []), ls).found)
    decreases |ls|
  {
    if ls == [] {
      assert done + [] == done;
    } else {
      RunShift(buf, done, ls[..|ls| - 1]);
    }
  }

  lemma ClassifiedSplit(pre: seq<string>, ln: string, post: seq<string>)
    ensures Classified(pre + [ln] + post) == Classified(pre) + [Line(KindOf(ln), ln)] + Classified(post)
  {
    ClassifiedAppend(pre + [ln], post);
    ClassifiedSnoc(pre, ln);
  }

  lemma ClassifiedPair(pre: seq<string>, a: string, b: string, post: seq<string>)
    ensures Classified(pre + [a, b] + post) ==
            Classified(pre) + [Line(KindOf(a), a)] + [Line(KindOf(b), b)] + Classified(post)
  {
    assert pre + [a, b] + post == ((pre + [a]) + [b]) + post;
    ClassifiedAppend((pre + [a]) + [b], post);
    ClassifiedSnoc(pre + [a], b);
    ClassifiedSnoc(pre, a);
  }

  /** After a line that leaves the slot empty, the rest is read as a page of
      its own. */
  lemma RunCleared(cp: seq<Line>, l: Line, cq: seq<Line>, add: seq<Found>)
    requires Advance(Run(Start, cp), l) == Scan(None, Run(Start, cp).found + add)
    ensures Run(Start, cp + [l] + cq).found == Run(Start, cp).found + add + Run(Start, cq).found
  {
    RunAppend(Start, cp + [l], cq);
    RunSnoc(Start, cp, l);
    RunShift(None, Run(Start, cp).found + add, cq);
  }

  /** The lines after a header are parsed as a page of their own. */
  lemma HeaderFinds(pre: seq<string>, h: string, post: seq<string>)
    requires KindOf(h) == Header
    ensures Finds(pre + [h] + post) == Finds(pre) + Finds(post)
  {
    ClassifiedSplit(pre, h, post);
    assert Finds(pre) + [] == Finds(pre);
    RunCleared(Classified(pre), Line(Header, h), Classified(post), []);
  }

  lemma FullLineFinds(pre: seq<string>, ln: string, post: seq<string>, m: FullMatch)
    requires KindOf(ln) == FullLine(m)
    ensures Finds(pre + [ln] + post) == Finds(pre) + [FullFound(m)] + Finds(post)
  {
    ClassifiedSplit(pre, ln, post);
    RunCleared(Classified(pre), Line(FullLine(m), ln), Classified(post), [FullFound(m)]);
  }

  lemma WrappedFinds(pre: seq<string>, a: string, b: string, post: seq<string>, m: AmountMatch)
    requires a != [] && KindOf(a) == Other && KindOf(b) == AmountLine(m)
    ensures Finds(pre + [a, b] + post) == Finds(pre) + [JoinedFound(a, m)] + Finds(post)
  {
    var la, lb := Line(Other, a), Line(AmountLine(m), b);
    var cp := Classified(pre);
    ClassifiedPair(pre, a, b, post);
    RunSnoc(Start, cp, la);
    RunCleared(cp + [la], lb, Classified(post), [JoinedFound(a, m)]);
  }

  /** A plain line is overwritten by the plain line after it. */
  lemma RunOverwrite(cp: seq<Line>, la: Line, lb: Line, cq: seq<Line>)
    requires la.kind == Other && lb.kind == Other
    ensures Run(Start, cp + [la] + [lb] + cq) == Run(Start, cp + [lb] + cq)
  {
    RunAppend(Start, cp + [la] + [lb], cq);
    RunAppend(Start, cp + [lb], cq);
    RunSnoc(Start, cp + [la], lb);
    RunSnoc(Start, cp, la);
    RunSnoc(Start, cp, lb);
  }

  lemma OverwriteFinds(pre: seq<string>, a: string, b: string, post: seq<string>)
    requires KindOf(a) == Other && KindOf(b) == Other
    ensures Finds(pre + [a, b] + post) == Finds(pre + [b] + post)
  {
    ClassifiedPair(pre, a, b, post);
    ClassifiedSplit(pre, b, post);
    RunOverwrite(Classified(pre), Line(Other, a), Line(Other, b), Classified(post));
  }

  /** The lines after a header are parsed as a page of their own. */
  lemma HeaderSplit(pre: seq<string>, h: string, post: seq<string>)
    requires IsHeaderLine(h)
    ensures Parse(pre + [h] + post) == Parse(pre) + Parse(post)
  {
    HeaderFinds(pre, h, post);
    ItemsOfAppend(Finds(pre), Finds(post));
  }

  /** A full item line gives exactly its own item, and the lines after it are
      parsed as a page of their own. */
  lemma FullLineSplit(pre: seq<string>, ln: string, post: seq<string>, m: FullMatch)
    requires KindOf(ln) == FullLine(m)
    ensures Parse(pre + [ln] + post) == Parse(pre) + [FullLineItem(m)] + Parse(post)
  {
    FullLineFinds(pre, ln, post, m);
    ItemsOfAppend(Finds(pre) + [FullFound(m)], Finds(post));
    ItemsOfSnoc(Finds(pre), FullFound(m));
  }

  /** A name line followed by an amount line gives one item joining the two. */
  lemma WrappedPair(pre: seq<string>, a: string, b: string, post: seq<string>, m: AmountMatch)
    requires a != [] && KindOf(a) == Other && KindOf(b) == AmountLine(m)
    ensures Parse(pre + [a, b] + post) == Parse(pre) + [JoinedItem(a, m)] + Parse(post)
  {
    WrappedFinds(pre, a, b, post, m);
    ItemsOfAppend(Finds(pre) + [JoinedFound(a, m)], Finds(post));
    ItemsOfSnoc(Finds(pre), JoinedFound(a, m));
  }

  /** A buffered name followed by another line that is neither a header, an item
      nor an amount line is lost: the page parses as if it were absent. */
  lemma OverwriteLoss(pre: seq<string>, a: string, b: string, post: seq<string>)
    requires KindOf(a) == Other && KindOf(b) == Other
    ensures Parse(pre + [a, b] + post) == Parse(pre + [b] + post)
  {
    OverwriteFinds(pre, a, b, post);
  }

  // ---------------------------------------------------------------------
  // What every parse promises.

  /** The buffer, when set, is the text of the line just read. */
  lemma RunBuffer(ls: seq<Line>)
    ensures Run(Start, ls).buf == None || (ls != [] && Run(Start, ls).buf == Some(ls[|ls| - 1].text))
  {
  }

  /** Where `f` can come from: line `k` as a full item line, or line `k` as an
      amount line completing the text of line `k - 1`. */
  predicate LineGives(ls: seq<Line>, k: nat, f: Found)
    requires k < |ls|
  {
    match ls[k].kind
    case FullLine(m) => f == FullFound(m)
    case AmountLine(m2) => 0 < k && f == JoinedFound(ls[k - 1].text, m2)
    case _ => false
  }

  /** Some line of `ls` gives `f`. */
  ghost predicate Traced(ls: seq<Line>, f: Found)
  {
    exists k :: 0 <= k < |ls| && LineGives(ls, k, f)
  }

  /** What one step may add, given the buffer it starts from. */
  predicate StepGives(buf: Option<string>, l: Line, f: Found)
  {
    match l.kind
    case FullLine(m) => f == FullFound(m)
    case AmountLine(m2) => IsSet(buf) && f == JoinedFound(buf.value, m2)
    case _ => false
  }

  /** One step keeps what was found so far and adds at most one more. */
  lemma AdvanceGrows(st: Scan, l: Line)
    ensures Advance(st, l).found == st.found
         || (|Advance(st, l).found| == |st.found| + 1
             && Advance(st, l).found[..|st.found|] == st.found
             && StepGives(st.buf, l, Advance(st, l).found[|st.found|]))
  {
  }

  lemma {:induction false} RunOrigin(ls: seq<Line>)
    ensures |Run(Start, ls).found| <= |ls|
    ensures forall j :: 0 <= j < |Run(Start, ls).found| ==> Traced(ls, Run(Start, ls).found[j])
    decreases |ls|
  {
    if ls != [] {
      var init := ls[..|ls| - 1];
      var l := ls[|ls| - 1];
      RunOrigin(init);
      RunBuffer(init);
      var st := Run(Start, init);
      assert Run(Start, ls) == Advance(st, l);
      AdvanceGrows(st, l);
      var after := Advance(st, l).found;
      forall j | 0 <= j < |after|
        ensures Traced(ls, after[j])
      {
        if j < |st.found| {
          assert after[j] == st.found[j];
          assert Traced(init, st.found[j]);
          var k :| 0 <= k < |init| && LineGives(init, k, st.found[j]);
          assert ls[k] == init[k];
          assert 0 < k ==> ls[k - 1] == init[k - 1];
          assert LineGives(ls, k, after[j]);
        } else {
          assert StepGives(st.buf, l, after[j]);
          assert IsSet(st.buf) ==> 1 < |ls| && st.buf.value == ls[|ls| - 2].text;
          assert LineGives(ls, |ls| - 1, after[j]);
        }
      }
      assert after == Run(Start, ls).found;
    } else {
      assert Run(Start, ls) == Start;
    }
  }

  /** Where item `it` can come from: line `k` as a full item line, or line `k`
      as an amount line completing line `k - 1`. */
  predicate FromLine(lines: seq<string>, k: nat, it: LineItem)
    requires k < |lines|
  {
    match KindOf(lines[k])
    case FullLine(m) => it == FullLineItem(m)
    case AmountLine(m2) => 0 < k && it == JoinedItem(lines[k - 1], m2)
    case _ => false
  }

  /** Some line of the page gives `it`. */
  ghost predicate FromPage(lines: seq<string>, it: LineItem)
  {
    exists k :: 0 <= k < |lines| && FromLine(lines, k, it)
  }

  /** The item of what line `k` gave is one that line `k` gives. */
  lemma GivesItem(lines: seq<string>, k: nat, f: Found)
    requires k < |lines| && LineGives(Classified(lines), k, f)
    ensures FromLine(lines, k, ItemOf(f))
  {
    ClassifiedAt(lines, k);
    if 0 < k {
      ClassifiedAt(lines, k - 1);
    }
  }

  /** Every line adds at most one item, and each item comes from the line that
      added it; so there are never more items than lines. */
  lemma ParseOrigin(lines: seq<string>)
    ensures |Parse(lines)| <= |lines|
    ensures forall j :: 0 <= j < |Parse(lines)| ==> FromPage(lines, Parse(lines)[j])
  {
    var ls := Classified(lines);
    var fs := Finds(lines);
    RunOrigin(ls);
    forall j | 0 <= j < |Parse(lines)|
      ensures FromPage(lines, Parse(lines)[j])
    {
      assert Traced(ls, fs[j]);
      var k :| 0 <= k < |ls| && LineGives(ls, k, fs[j]);
      GivesItem(lines, k, fs[j]);
      ItemsOfAt(fs, j);
    }
  }

  /** The item of a full item line has a name and no page number. */
  lemma FullLineName(ln: string, m: FullMatch)
    requires FullItem(ln) == Some(m)
    ensures FullLineItem(m).name != [] && FullLineItem(m).pageNo == None
  {
    FullItemSound(ln, m);
    StripNonEmpty(m.prefix);
  }

  /** So has the item of a name completed by an amount line. */
  lemma JoinedName(a: string, ln: string, m2: AmountMatch)
    requires AmountOnly(ln) == Some(m2)
    ensures JoinedItem(a, m2).name != [] && JoinedItem(a, m2).pageNo == None
  {
    AmountOnlySpec(ln, m2);
    var s := a + " " + m2.prefix;
    assert s[|s| - 1] == m2.prefix[|m2.prefix| - 1];
    StripNonEmpty(s);
  }

  /** What line `k` gives has a name and no page number. */
  lemma FromLineName(lines: seq<string>, k: nat, it: LineItem)
    requires k < |lines| && FromLine(lines, k, it)
    ensures it.name != [] && it.pageNo == None
  {
    match KindOf(lines[k])
    case FullLine(m) =>
      FullLineName(lines[k], m);
    case AmountLine(m2) =>
      JoinedName(lines[k - 1], lines[k], m2);
  }

  /** Every emitted name is non-empty, and no item carries a page number yet. */
  lemma ParseNames(lines: seq<string>)
    ensures forall j :: 0 <= j < |Parse(lines)| ==>
              Parse(lines)[j].name != [] && Parse(lines)[j].pageNo == None
  {
    ParseOrigin(lines);
    forall j | 0 <= j < |Parse(lines)|
      ensures Parse(lines)[j].name != [] && Parse(lines)[j].pageNo == None
    {
      assert FromPage(lines, Parse(lines)[j]);
      var k :| 0 <= k < |lines| && FromLine(lines, k, Parse(lines)[j]);
      FromLineName(lines, k, Parse(lines)[j]);
    }
  }

  /** The quantity of a full item line is the value of its quantity token,
      which never needs cleaning. */
  lemma FullLineQuantity(ln: string, m: FullMatch)
    requires FullItem(ln) == Some(m)
    ensures IsNumeral(m.qty) && FullLineItem(m).quantity == Some(NumeralValue(m.qty))
  {
    FullItemSound(ln, m);
    QuantityTokenIsNumeral(m.qty);
    CleanNumWhole(m.qty);
  }

  // ---------------------------------------------------------------------
  // Pages of a printed bill.

  /** A line that is not a header and matches neither pattern is buffered. */
  lemma OtherKind(ln: string)
    requires !IsHeaderLine(ln) && FullItem(ln) == None && AmountOnly(ln) == None
    ensures KindOf(ln) == Other
  {
  }

  lemma AmbulanceNotHeader()
    ensures !IsHeaderLine("Ambulance")
  {
    assert Lower("Ambulance") == "ambulance";
    NotHeaderLine("Ambulance");
  }

  lemma AmbulanceKind()
    ensures KindOf("Ambulance") == Other
  {
    AmbulanceNotHeader();
    NoAmountAtEnd("Ambulance");
    OtherKind("Ambulance");
  }

  lemma AmbulanceFeeNotHeader()
    ensures !IsHeaderLine("Ambulance Fee")
  {
    assert Lower("Ambulance Fee") == "ambulance fee";
    NotHeaderLine("Ambulance Fee");
  }

  lemma AmbulanceFeeKind()
    ensures KindOf("Ambulance Fee") == Other
  {
    AmbulanceFeeNotHeader();
    NoAmountAtEnd("Ambulance Fee");
    OtherKind("Ambulance Fee");
  }

  lemma BareAmountNotHeader()
    ensures !IsHeaderLine("500.00")
  {
    assert Lower("500.00") == "500.00";
    NotHeaderLine("500.00");
  }

  /** A bare amount matches neither pattern: the amount pattern wants a name
      in front of it. */
  lemma BareAmountKind()
    ensures KindOf("500.00") == Other
  {
    BareAmountNotHeader();
    BareAmountMatchesNothing();
    OtherKind("500.00");
  }

  lemma BareAmountMatchesNothing()
    ensures FullItem("500.00") == None && AmountOnly("500.00") == None
  {
    BareAmountNoSpace();
    OneTokenNoFullItem("500.00");
    BareAmountNoMatch("500.00");
  }

  lemma BareAmountNoSpace()
    ensures NoSpace("500.00")
  {
  }

  lemma FeeAmountMatch()
    ensures AmountOnly("Fee 500.00") == Some(AmountMatch("Fee", "500.00"))
  {
    assert "Fee 500.00" == "Fee" + " " + "500.00";
    assert AmountOnlyMatches("Fee 500.00", AmountMatch("Fee", "500.00"));
    AmountOnlySpec("Fee 500.00", AmountMatch("Fee", "500.00"));
  }

  lemma FeeAmountSplit()
    ensures SplitLast("Fee 500.00") == Some(Tail("Fee", "500.00"))
  {
    assert "Fee 500.00" == "Fee" + " " + "500.00";
    SplitLastComplete("Fee 500.00", "Fee", "500.00", " ");
  }

  lemma FeeAmountNoFullItem()
    ensures FullItem("Fee 500.00") == None
  {
    FeeAmountSplit();
    TwoTokensNoFullItem("Fee 500.00", "Fee", "500.00");
  }

  lemma FeeAmountNotHeader()
    ensures !IsHeaderLine("Fee 500.00")
  {
    assert Lower("Fee 500.00") == "fee 500.00";
    NotHeaderLine("Fee 500.00");
  }

  /** A line that is not a header, not a full item line, but ends in an amount
      after a name, is an amount line. */
  lemma AmountKind(ln: string, m: AmountMatch)
    requires !IsHeaderLine(ln) && FullItem(ln) == None && AmountOnly(ln) == Some(m)
    ensures KindOf(ln) == AmountLine(m)
  {
  }

  lemma FeeAmountKind()
    ensures KindOf("Fee 500.00") == AmountLine(AmountMatch("Fee", "500.00"))
  {
    FeeAmountNotHeader();
    FeeAmountNoFullItem();
    FeeAmountMatch();
    AmountKind("Fee 500.00", AmountMatch("Fee", "500.00"));
  }

  /** A page of one buffered line gives nothing. */
  lemma OtherAlone(ln: string)
    requires KindOf(ln) == Other
    ensures Parse([ln]) == []
  {
    ClassifiedSnoc([], ln);
    assert [] + [ln] == [ln];
    var l := Line(Other, ln);
    assert Classified([ln]) == [l];
    assert [l][..0] == [];
    assert Run(Start, [l]) == Advance(Start, l);
    assert Finds([ln]) == [];
  }

  /** A page of two buffered lines gives nothing. */
  lemma OtherPair(a: string, b: string)
    requires KindOf(a) == Other && KindOf(b) == Other
    ensures Parse([a, b]) == []
  {
    OverwriteLoss([], a, b, []);
    assert [] + [a, b] + [] == [a, b];
    assert [] + [b] + [] == [b];
    OtherAlone(b);
  }

  /** A page of a name and an amount line gives the one joined item. */
  lemma WrappedAlone(a: string, b: string, m: AmountMatch)
    requires a != [] && KindOf(a) == Other && KindOf(b) == AmountLine(m)
    ensures Parse([a, b]) == [JoinedItem(a, m)]
  {
    WrappedFinds([], a, b, [], m);
    assert [] + [a, b] + [] == [a, b];
    NoLinesNoFinds();
    ItemsOfSnoc([], JoinedFound(a, m));
  }

  lemma NoLinesNoFinds()
    ensures Finds([]) == [] && ItemsOf([]) == []
  {
  }

  /** A page of one full item line gives its item. */
  lemma FullAlone(ln: string, m: FullMatch)
    requires KindOf(ln) == FullLine(m)
    ensures Parse([ln]) == [FullLineItem(m)]
  {
    FullLineFinds([], ln, [], m);
    assert [] + [ln] + [] == [ln];
    NoLinesNoFinds();
    ItemsOfSnoc([], FullFound(m));
  }

  /** A name and its amount on the next line, with nothing in front of the
      amount, give no item: the name is overwritten by the bare amount. */
  lemma WrappedBareAmountIsLost()
    ensures Parse(["Ambulance Fee", "500.00"]) == []
  {
    AmbulanceFeeKind();
    BareAmountKind();
    OtherPair("Ambulance Fee", "500.00");
  }

  lemma JoinedAmbulanceFee()
    ensures JoinedItem("Ambulance", AmountMatch("Fee", "500.00"))
         == LineItem("Ambulance Fee", Some(1.0), None, Some(500.0), None)
  {
    assert "Ambulance" + " " + "Fee" == "Ambulance Fee";
    StripStripped("Ambulance Fee");
    CleanNumFiveHundred();
  }

  /** A name wrapped onto the line of its amount is joined with a space, and the
      item gets a quantity of one and no rate. */
  lemma WrappedNameExample()
    ensures Parse(["Ambulance", "Fee 500.00"])
         == [LineItem("Ambulance Fee", Some(1.0), None, Some(500.0), None)]
  {
    AmbulanceKind();
    FeeAmountKind();
    WrappedAlone("Ambulance", "Fee 500.00", AmountMatch("Fee", "500.00"));
    JoinedAmbulanceFee();
  }

  lemma ECGMatch()
    ensures FullItem("ECG 1 300.00 0 300.00") == Some(FullMatch("ECG", "1", "300.00", "0", "300.00"))
  {
    var m := FullMatch("ECG", "1", "300.00", "0", "300.00");
    assert "ECG 1 300.00 0 300.00" == m.prefix + " " + m.qty + " " + m.rate + " " + m.discount + " " + m.net;
    assert LeadDigits("1") == 1;
    FullItemComplete("ECG 1 300.00 0 300.00", m, " ", " ", " ", " ");
  }

  lemma ECGLower()
    ensures Lower("ECG 1 300.00 0 300.00") == "ecg 1 300.00 0 300.00"
  {
  }

  lemma ECGNotHeader()
    ensures !IsHeaderLine("ECG 1 300.00 0 300.00")
  {
    ECGLower();
    NotHeaderLine("ECG 1 300.00 0 300.00");
  }

  lemma FullKind(ln: string, m: FullMatch)
    requires !IsHeaderLine(ln) && FullItem(ln) == Some(m)
    ensures KindOf(ln) == FullLine(m)
  {
  }

  lemma ECGItem()
    ensures FullLineItem(FullMatch("ECG", "1", "300.00", "0", "300.00"))
         == LineItem("ECG", Some(1.0), Some(300.0), Some(300.0), None)
  {
    StripStripped("ECG");
    CleanNumOne();
    CleanNumThreeHundred();
  }

  /** A line ending in a quantity, a rate, a discount and a net amount is an
      item on its own. */
  lemma FullLineExample()
    ensures Parse(["ECG 1 300.00 0 300.00"])
         == [LineItem("ECG", Some(1.0), Some(300.0), Some(300.0), None)]
  {
    var m := FullMatch("ECG", "1", "300.00", "0", "300.00");
    ECGNotHeader();
    ECGMatch();
    FullKind("ECG 1 300.00 0 300.00", m);
    FullAlone("ECG 1 300.00 0 300.00", m);
    ECGItem();
  }

  lemma ParacetamolTokens()
    ensures IsPrefix("Paracetamol 500mg") && IsQuantityToken("10")
    ensures IsAmountToken("2.50") && IsAmountToken("0") && IsAmountToken("25.00")
  {
    assert LeadDigits("10") == 2;
  }

  lemma ParacetamolPieces()
    ensures "Paracetamol 500mg 10 2.50 0 25.00"
         == "Paracetamol 500mg" + " " + "10" + " " + "2.50" + " " + "0" + " " + "25.00"
  {
  }

  lemma ParacetamolMatch()
    ensures FullItem("Paracetamol 500mg 10 2.50 0 25.00")
         == Some(FullMatch("Paracetamol 500mg", "10", "2.50", "0", "25.00"))
  {
    var m := FullMatch("Paracetamol 500mg", "10", "2.50", "0", "25.00");
    ParacetamolTokens();
    ParacetamolPieces();
    assert IsGap(" ");
    FullItemComplete("Paracetamol 500mg 10 2.50 0 25.00", m, " ", " ", " ", " ");
  }

  lemma ParacetamolFields()
    ensures FullLineItem(FullMatch("Paracetamol 500mg", "10", "2.50", "0", "25.00"))
         == LineItem("Paracetamol 500mg", Some(10.0), Some(2.5), Some(25.0), None)
  {
    StripStripped("Paracetamol 500mg");
    CleanNumTen();
    CleanNumTwoFifty();
    CleanNumTwentyFive();
  }

  /** The greedy prefix keeps the strength "500mg" in the name: only the last
      four tokens are quantity, rate, discount and amount. */
  lemma ParacetamolItem()
    ensures FullItem("Paracetamol 500mg 10 2.50 0 25.00")
         == Some(FullMatch("Paracetamol 500mg", "10", "2.50", "0", "25.00"))
    ensures FullLineItem(FullMatch("Paracetamol 500mg", "10", "2.50", "0", "25.00"))
         == LineItem("Paracetamol 500mg", Some(10.0), Some(2.5), Some(25.0), None)
  {
    ParacetamolMatch();
    ParacetamolFields();
  }
}
