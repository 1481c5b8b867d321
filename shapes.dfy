/**
 * The two line patterns of the parser, `numeric_suffix_re` and
 * `amount_only_re`, as conditions on the whitespace-separated tokens at the end
 * of a line, and the proof that those conditions are what the patterns accept.
 *
 * Both patterns are applied with `re.match` (anchored at the start) to a line
 * without trailing whitespace. Each begins with a greedy `.*\S` prefix, then
 * alternates `\s+` with groups that hold no whitespace, and ends with `\s*$`.
 * A group that follows whitespace and is followed by whitespace or the end is a
 * whole token, so the groups are the last tokens of the line, the gaps are the
 * whole whitespace runs in front of them, and the prefix is everything before.
 */
module Shapes {
  import opened Wrappers
  import opened Text
  import opened Numbers

  /** The characters of `[-\d,\.]`. */
  predicate IsAmountChar(c: char)
  {
    c == '-' || IsDigit(c) || c == ',' || c == '.'
  }

  /** A whole match of `[-\d,\.]+`. */
  predicate IsAmountToken(w: string)
  {
    w != [] && forall i :: 0 <= i < |w| ==> IsAmountChar(w[i])
  }

  /** A whole match of `\d+(?:\.\d+)?`. */
  predicate IsQuantityToken(w: string)
  {
    var n := LeadDigits(w);
    0 < n && (n == |w| || (n + 1 < |w| && w[n] == '.' && AllDigits(w[n + 1..])))
  }

  /** A match of `\s+`. */
  predicate IsGap(g: string)
  {
    g != [] && AllSpace(g)
  }

  /** A match of `.*\S`: no newline (which `.` excludes) and a non-space last character. */
  predicate IsPrefix(p: string)
  {
    p != [] && !IsSpace(p[|p| - 1]) && '\n' !in p
  }

  /** A non-empty run of non-space characters. */
  predicate IsToken(w: string)
  {
    w != [] && NoSpace(w)
  }

  lemma AmountTokenIsToken(w: string)
    requires IsAmountToken(w)
    ensures IsToken(w)
  {
  }

  lemma QuantityTokenIsToken(w: string)
    requires IsQuantityToken(w)
    ensures IsToken(w)
  {
    var n := LeadDigits(w);
    assert forall i :: 0 <= i < n ==> w[i] == w[..n][i];
    if n < |w| {
      assert forall i :: n + 1 <= i < |w| ==> w[i] == w[n + 1..][i - n - 1];
    }
  }

  /** A quantity token is a numeral of its own and needs no cleaning. */
  lemma QuantityTokenIsNumeral(w: string)
    requires IsQuantityToken(w)
    ensures IsNumeral(w) && Clean(w) == w
  {
    var n := LeadDigits(w);
    assert forall i :: 0 <= i < n ==> w[i] == w[..n][i];
    if n < |w| {
      assert forall i :: n + 1 <= i < |w| ==> w[i] == w[n + 1..][i - n - 1];
      assert IsUnsignedDecimal(w);
    } else {
      assert w[..n] == w;
    }
    assert forall i :: 0 <= i < |w| ==> IsDigit(w[i]) || w[i] == '.';
    CleanPlain(w);
  }

  // ---------------------------------------------------------------------
  // The last token of a line and the whitespace in front of it.

  /** Where the trailing run of non-space characters of `s` starts. */
  function TokenStart(s: string): (k: nat)
    ensures k <= |s|
  {
    if s == [] || IsSpace(s[|s| - 1]) then |s| else TokenStart(s[..|s| - 1])
  }

  /** Where the run of whitespace that ends at `k` starts. */
  function GapStart(s: string, k: nat): (g: nat)
    requires k <= |s|
    ensures g <= k
    decreases k
  {
    if k == 0 || !IsSpace(s[k - 1]) then k else GapStart(s, k - 1)
  }

  /** `s[TokenStart(s)..]` is the longest suffix of `s` without whitespace. */
  lemma {:induction false} TokenStartSpec(s: string)
    ensures forall i :: TokenStart(s) <= i < |s| ==> !IsSpace(s[i])
    ensures TokenStart(s) == 0 || IsSpace(s[TokenStart(s) - 1])
  {
    if s != [] && !IsSpace(s[|s| - 1]) {
      var t := s[..|s| - 1];
      TokenStartSpec(t);
      assert forall i :: 0 <= i < |t| ==> t[i] == s[i];
    }
  }

  /** `s[GapStart(s, k)..k]` is the longest run of whitespace that ends at `k`. */
  lemma {:induction false} GapStartSpec(s: string, k: nat)
    requires k <= |s|
    ensures forall i :: GapStart(s, k) <= i < k ==> IsSpace(s[i])
    ensures GapStart(s, k) == 0 || !IsSpace(s[GapStart(s, k) - 1])
    decreases k
  {
    if k > 0 && IsSpace(s[k - 1]) {
      GapStartSpec(s, k - 1);
    }
  }

  lemma TokenStartUnique(s: string, k: nat)
    requires k <= |s| && (forall i :: k <= i < |s| ==> !IsSpace(s[i]))
    requires k == 0 || IsSpace(s[k - 1])
    ensures TokenStart(s) == k
  {
    TokenStartSpec(s);
  }

  lemma GapStartUnique(s: string, k: nat, g: nat)
    requires g <= k <= |s| && (forall i :: g <= i < k ==> IsSpace(s[i]))
    requires g == 0 || !IsSpace(s[g - 1])
    ensures GapStart(s, k) == g
  {
    GapStartSpec(s, k);
  }

  /** A line cut before its last token. */
  datatype Tail = Tail(prefix: string, token: string)

  /** The last token of `s`, with everything before the whitespace in front of it;
      `None` when that whitespace or what precedes it is missing. */
  function SplitLast(s: string): Option<Tail>
  {
    var k := TokenStart(s);
    var g := GapStart(s, k);
    if 0 < g < k < |s| then Some(Tail(s[..g], s[k..])) else None
  }

  /** `s` is `p`, a non-empty run of whitespace, and the token `w`. */
  ghost predicate SplitsAs(s: string, p: string, w: string)
  {
    p != [] && !IsSpace(p[|p| - 1]) && IsToken(w) &&
    exists g :: IsGap(g) && s == p + g + w
  }

  lemma SplitLastSound(s: string, p: string, w: string)
    requires SplitLast(s) == Some(Tail(p, w))
    ensures SplitsAs(s, p, w)
  {
    var k := TokenStart(s);
    var gs := GapStart(s, k);
    assert 0 < gs < k < |s| && p == s[..gs] && w == s[k..];
    TokenStartSpec(s);
    GapStartSpec(s, k);
    var g := s[gs..k];
    SpaceSlice(s, gs, k);
    NoSpaceSlice(s, k);
    assert p[|p| - 1] == s[gs - 1];
    assert s == p + g + w;
  }

  lemma SpaceSlice(s: string, a: nat, b: nat)
    requires a < b <= |s| && forall i :: a <= i < b ==> IsSpace(s[i])
    ensures IsGap(s[a..b])
  {
    assert forall i :: 0 <= i < b - a ==> s[a..b][i] == s[a + i];
  }

  lemma NoSpaceSlice(s: string, a: nat)
    requires a < |s| && forall i :: a <= i < |s| ==> !IsSpace(s[i])
    ensures IsToken(s[a..])
  {
    assert forall i :: 0 <= i < |s| - a ==> s[a..][i] == s[a + i];
  }

  lemma SplitLastComplete(s: string, p: string, w: string, g: string)
    requires p != [] && !IsSpace(p[|p| - 1]) && IsToken(w) && IsGap(g) && s == p + g + w
    ensures SplitLast(s) == Some(Tail(p, w))
  {
    var m := |p| + |g|;
    assert forall i :: m <= i < |s| ==> s[i] == w[i - m];
    assert s[m - 1] == g[|g| - 1];
    TokenStartUnique(s, m);
    assert forall i :: |p| <= i < m ==> s[i] == g[i - |p|];
    assert s[|p| - 1] == p[|p| - 1];
    GapStartUnique(s, m, |p|);
    assert s[..|p|] == p && s[m..] == w;
  }

  /** `SplitLast` finds exactly the one way of cutting `s` into a prefix ending
      in a non-space, a gap and a final token. */
  lemma SplitLastSpec(s: string, p: string, w: string)
    ensures SplitLast(s) == Some(Tail(p, w)) <==> SplitsAs(s, p, w)
  {
    if SplitLast(s) == Some(Tail(p, w)) {
      SplitLastSound(s, p, w);
    }
    if SplitsAs(s, p, w) {
      var g :| IsGap(g) && s == p + g + w;
      SplitLastComplete(s, p, w, g);
    }
  }

  /** A one-token line has no gap to split at. */
  lemma OneTokenNoSplit(s: string)
    requires NoSpace(s)
    ensures SplitLast(s) == None
  {
    TokenStartUnique(s, 0);
  }

  // ---------------------------------------------------------------------
  // amount_only_re: a prefix, whitespace, and one amount token at the end.

  datatype AmountMatch = AmountMatch(prefix: string, net: string)

  /** `amount_only_re.match(ln)` on a line without trailing whitespace. */
  function AmountOnly(ln: string): Option<AmountMatch>
  {
    match SplitLast(ln)
    case None => None
    case Some(t) =>
      if IsAmountToken(t.token) && '\n' !in t.prefix then Some(AmountMatch(t.prefix, t.token)) else None
  }

  /** The groups of a match of `amount_only_re` on all of `ln`. */
  ghost predicate AmountOnlyMatches(ln: string, m: AmountMatch)
  {
    IsPrefix(m.prefix) && IsAmountToken(m.net) &&
    exists g :: IsGap(g) && ln == m.prefix + g + m.net
  }

  /** `AmountOnly` returns exactly the groups of the one match of the pattern. */
  lemma AmountOnlySpec(ln: string, m: AmountMatch)
    ensures AmountOnly(ln) == Some(m) <==> AmountOnlyMatches(ln, m)
  {
    SplitLastSpec(ln, m.prefix, m.net);
    if AmountOnlyMatches(ln, m) {
      AmountTokenIsToken(m.net);
    }
  }

  /** A line that is a single token, such as a bare amount, does not match. */
  lemma BareAmountNoMatch(ln: string)
    requires NoSpace(ln)
    ensures AmountOnly(ln) == None
  {
    OneTokenNoSplit(ln);
  }

  lemma BareAmountExample()
    ensures AmountOnly("500.00") == None
  {
    BareAmountNoMatch("500.00");
  }

  // ---------------------------------------------------------------------
  // numeric_suffix_re: a prefix, then a quantity token and three amount tokens
  // (rate, discount, net), each after its own run of whitespace.

  datatype FullMatch = FullMatch(prefix: string, qty: string, rate: string, discount: string, net: string)

  /** `numeric_suffix_re.match(ln)` on a line without trailing whitespace: the
      last four tokens, peeled off from the right. */
  function FullItem(ln: string): Option<FullMatch>
  {
    match SplitLast(ln)
    case None => None
    case Some(t4) =>
      match SplitLast(t4.prefix)
      case None => None
      case Some(t3) =>
        match SplitLast(t3.prefix)
        case None => None
        case Some(t2) =>
          match SplitLast(t2.prefix)
          case None => None
          case Some(t1) =>
            if IsQuantityToken(t1.token) && IsAmountToken(t2.token) && IsAmountToken(t3.token) &&
               IsAmountToken(t4.token) && '\n' !in t1.prefix
            then Some(FullMatch(t1.prefix, t1.token, t2.token, t3.token, t4.token))
            else None
  }

  /** The groups of a match of `numeric_suffix_re` on all of `ln`. */
  ghost predicate FullItemMatches(ln: string, m: FullMatch)
  {
    IsPrefix(m.prefix) && IsQuantityToken(m.qty) &&
    IsAmountToken(m.rate) && IsAmountToken(m.discount) && IsAmountToken(m.net) &&
    exists g1, g2, g3, g4 :: IsGap(g1) && IsGap(g2) && IsGap(g3) && IsGap(g4) &&
      ln == m.prefix + g1 + m.qty + g2 + m.rate + g3 + m.discount + g4 + m.net
  }

  lemma LastOfAppend(a: string, w: string)
    requires w != []
    ensures (a + w)[|a + w| - 1] == w[|w| - 1]
  {
  }

  lemma FullItemSound(ln: string, m: FullMatch)
    requires FullItem(ln) == Some(m)
    ensures FullItemMatches(ln, m)
  {
    var t4 := SplitLast(ln).value;
    var t3 := SplitLast(t4.prefix).value;
    var t2 := SplitLast(t3.prefix).value;
    var t1 := SplitLast(t2.prefix).value;
    SplitLastSound(ln, t4.prefix, t4.token);
    SplitLastSound(t4.prefix, t3.prefix, t3.token);
    SplitLastSound(t3.prefix, t2.prefix, t2.token);
    SplitLastSound(t2.prefix, t1.prefix, t1.token);
    var g4 :| IsGap(g4) && ln == t4.prefix + g4 + t4.token;
    var g3 :| IsGap(g3) && t4.prefix == t3.prefix + g3 + t3.token;
    var g2 :| IsGap(g2) && t3.prefix == t2.prefix + g2 + t2.token;
    var g1 :| IsGap(g1) && t2.prefix == t1.prefix + g1 + t1.token;
    assert ln == m.prefix + g1 + m.qty + g2 + m.rate + g3 + m.discount + g4 + m.net;
  }

  lemma FullItemComplete(ln: string, m: FullMatch, g1: string, g2: string, g3: string, g4: string)
    requires IsPrefix(m.prefix) && IsQuantityToken(m.qty)
    requires IsAmountToken(m.rate) && IsAmountToken(m.discount) && IsAmountToken(m.net)
    requires IsGap(g1) && IsGap(g2) && IsGap(g3) && IsGap(g4)
    requires ln == m.prefix + g1 + m.qty + g2 + m.rate + g3 + m.discount + g4 + m.net
    ensures FullItem(ln) == Some(m)
  {
    var p1 := m.prefix + g1 + m.qty;
    var p2 := p1 + g2 + m.rate;
    var p3 := p2 + g3 + m.discount;
    QuantityTokenIsToken(m.qty);
    AmountTokenIsToken(m.rate);
    AmountTokenIsToken(m.discount);
    AmountTokenIsToken(m.net);
    Peel(m.prefix, g1, m.qty);
    Peel(p1, g2, m.rate);
    Peel(p2, g3, m.discount);
    Peel(p3, g4, m.net);
    FullItemOfSplits(ln, m, p1, p2, p3);
  }

  /** A token after a gap is cut off again, and what is left ends in a non-space. */
  lemma Peel(p: string, g: string, w: string)
    requires p != [] && !IsSpace(p[|p| - 1]) && IsGap(g) && IsToken(w)
    ensures SplitLast(p + g + w) == Some(Tail(p, w))
    ensures !IsSpace((p + g + w)[|p + g + w| - 1])
  {
    LastOfAppend(p + g, w);
    SplitLastComplete(p + g + w, p, w, g);
  }

  /** The four cuts, each in front of the right token, make the match. */
  lemma FullItemOfSplits(ln: string, m: FullMatch, p1: string, p2: string, p3: string)
    requires SplitLast(ln) == Some(Tail(p3, m.net)) && SplitLast(p3) == Some(Tail(p2, m.discount))
    requires SplitLast(p2) == Some(Tail(p1, m.rate)) && SplitLast(p1) == Some(Tail(m.prefix, m.qty))
    requires IsPrefix(m.prefix) && IsQuantityToken(m.qty)
    requires IsAmountToken(m.rate) && IsAmountToken(m.discount) && IsAmountToken(m.net)
    ensures FullItem(ln) == Some(m)
  {
  }

  /** `FullItem` returns exactly the groups of the one match of the pattern. */
  lemma FullItemSpec(ln: string, m: FullMatch)
    ensures FullItem(ln) == Some(m) <==> FullItemMatches(ln, m)
  {
    if FullItem(ln) == Some(m) {
      FullItemSound(ln, m);
    }
    if FullItemMatches(ln, m) {
      var g1, g2, g3, g4 :| IsGap(g1) && IsGap(g2) && IsGap(g3) && IsGap(g4) &&
        ln == m.prefix + g1 + m.qty + g2 + m.rate + g3 + m.discount + g4 + m.net;
      FullItemComplete(ln, m, g1, g2, g3, g4);
    }
  }

  /** Fewer than five tokens never make a full item line: in particular a line
      with no whitespace does not match. */
  lemma OneTokenNoFullItem(ln: string)
    requires NoSpace(ln)
    ensures FullItem(ln) == None
  {
    OneTokenNoSplit(ln);
  }

  /** The last token ends where the string does. */
  lemma SplitLastEnds(s: string)
    ensures SplitLast(s).Some? ==>
              (SplitLast(s).value.token != [] &&
               s[|s| - 1] == SplitLast(s).value.token[|SplitLast(s).value.token| - 1])
  {
  }

  /** A match of either pattern ends in an amount character. */
  lemma AmountOnlyEnds(ln: string)
    ensures AmountOnly(ln).Some? ==> ln != [] && IsAmountChar(ln[|ln| - 1])
  {
    SplitLastEnds(ln);
  }

  lemma FullItemEnds(ln: string)
    ensures FullItem(ln).Some? ==> ln != [] && IsAmountChar(ln[|ln| - 1])
  {
    SplitLastEnds(ln);
  }

  /** A line ending in a letter matches neither pattern. */
  lemma NoAmountAtEnd(ln: string)
    requires ln != [] && !IsAmountChar(ln[|ln| - 1])
    ensures AmountOnly(ln) == None && FullItem(ln) == None
  {
    AmountOnlyEnds(ln);
    FullItemEnds(ln);
  }

  /** Two tokens are too few for a full item line. */
  lemma TwoTokensNoFullItem(ln: string, p: string, w: string)
    requires SplitLast(ln) == Some(Tail(p, w)) && NoSpace(p)
    ensures FullItem(ln) == None
  {
    OneTokenNoSplit(p);
  }
}
