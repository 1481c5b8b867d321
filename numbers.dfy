/**
 * `clean_num`: a raw token to a number or `None`. Numbers are exact reals
 * (the value of the decimal literal Python would hand to `float`).
 */
module Numbers {
  import opened Wrappers
  import opened Text

  /** The three characters that a UTF-8 rupee sign becomes when read as
      Windows-1252; `clean_num` removes this string, not the sign itself. */
  const Mojibake: string := "\U{E2}\U{201A}\U{B9}"

  /** The digits of `s`, in order. */
  function Digits(s: string): string
  {
    if s == [] then [] else (if IsDigit(s[0]) then [s[0]] else []) + Digits(s[1..])
  }

  lemma {:induction false} DigitsEmpty(s: string)
    ensures Digits(s) == [] <==> !HasDigit(s)
  {
    if s != [] {
      DigitsEmpty(s[1..]);
      if HasDigit(s[1..]) {
        var i :| 0 <= i < |s[1..]| && IsDigit(s[1..][i]);
        assert IsDigit(s[i + 1]);
      }
      if HasDigit(s) && !IsDigit(s[0]) {
        var i :| 0 <= i < |s| && IsDigit(s[i]);
        assert IsDigit(s[1..][i - 1]);
      }
    }
  }

  /** `s.replace(c, "")` for one character. */
  function RemoveChar(s: string, c: char): string
  {
    if s == [] then []
    else (if s[0] == c then [] else [s[0]]) + RemoveChar(s[1..], c)
  }

  /** Removing `c` leaves no `c`, invents no character and keeps every digit
      when `c` is not one. */
  lemma {:induction false} RemoveCharSpec(s: string, c: char)
    ensures c !in RemoveChar(s, c)
    ensures forall x :: x in RemoveChar(s, c) ==> x in s
    ensures !IsDigit(c) ==> Digits(RemoveChar(s, c)) == Digits(s)
  {
    if s != [] {
      RemoveCharSpec(s[1..], c);
      DigitsAppend(if s[0] == c then [] else [s[0]], RemoveChar(s[1..], c));
    }
  }

  /** One character is dropped when it is `c` and kept otherwise; with
      `RemoveCharAppend` this fixes `RemoveChar` on every string: each other
      character stays, in its order. */
  lemma RemoveCharOne(x: char, c: char)
    ensures RemoveChar([x], c) == if x == c then [] else [x]
  {
    assert [x][1..] == [];
  }

  /** Removing a character from the two halves of a string one at a time. */
  lemma {:induction false} RemoveCharAppend(a: string, b: string, c: char)
    ensures RemoveChar(a + b, c) == RemoveChar(a, c) + RemoveChar(b, c)
  {
    if a == [] {
      assert a + b == b;
    } else {
      assert (a + b)[0] == a[0];
      assert (a + b)[1..] == a[1..] + b;
      RemoveCharAppend(a[1..], b, c);
    }
  }

  lemma {:induction false} DigitsAppend(a: string, b: string)
    ensures Digits(a + b) == Digits(a) + Digits(b)
  {
    if a == [] {
      assert a + b == b;
    } else {
      var h := if IsDigit(a[0]) then [a[0]] else [];
      assert (a + b)[0] == a[0];
      assert (a + b)[1..] == a[1..] + b;
      DigitsAppend(a[1..], b);
      assert Digits(a + b) == h + Digits(a[1..] + b);
      assert Digits(a) == h + Digits(a[1..]);
      assert h + (Digits(a[1..]) + Digits(b)) == (h + Digits(a[1..])) + Digits(b);
    }
  }

  /** `s.replace(sub, "")`: occurrences are removed left to right, and the
      text after a removed occurrence is searched afresh. */
  function RemoveAll(s: string, sub: string): string
    requires sub != []
    decreases |s|
  {
    if s == [] then []
    else if |sub| <= |s| && s[..|sub|] == sub then RemoveAll(s[|sub|..], sub)
    else [s[0]] + RemoveAll(s[1..], sub)
  }

  /** Removing `sub` invents no character and keeps every digit when `sub`
      holds none. */
  lemma {:induction false} RemoveAllSpec(s: string, sub: string)
    requires sub != []
    ensures forall x :: x in RemoveAll(s, sub) ==> x in s
    ensures !HasDigit(sub) ==> Digits(RemoveAll(s, sub)) == Digits(s)
    decreases |s|
  {
    if s == [] {
    } else if |sub| <= |s| && s[..|sub|] == sub {
      RemoveAllSpec(s[|sub|..], sub);
      assert s == sub + s[|sub|..];
      DigitsAppend(sub, s[|sub|..]);
      DigitsEmpty(sub);
    } else {
      var rest := RemoveAll(s[1..], sub);
      RemoveAllSpec(s[1..], sub);
      assert s == [s[0]] + s[1..];
      DigitsAppend([s[0]], s[1..]);
      DigitsAppend([s[0]], rest);
    }
  }

  /** With no occurrence of `sub`, nothing is removed. */
  lemma {:induction false} RemoveAllNone(s: string, sub: string)
    requires sub != []
    requires forall i :: !OccursAt(s, sub, i)
    ensures RemoveAll(s, sub) == s
    decreases |s|
  {
    if s != [] {
      assert !OccursAt(s, sub, 0);
      assert !(|sub| <= |s| && s[..|sub|] == sub) by {
        if |sub| <= |s| {
          assert s[..|sub|] == s[0..0 + |sub|];
        }
      }
      forall i
        ensures !OccursAt(s[1..], sub, i)
      {
        if 0 <= i <= |s| - 1 - |sub| {
          assert s[1..][i..i + |sub|] == s[i + 1..i + 1 + |sub|];
          assert !OccursAt(s, sub, i + 1);
        }
      }
      RemoveAllNone(s[1..], sub);
      assert s == [s[0]] + s[1..];
    }
  }

  /** With no occurrence at the start, the first character stays. */
  lemma RemoveAllSkip(s: string, sub: string)
    requires sub != [] && s != [] && !OccursAt(s, sub, 0)
    ensures RemoveAll(s, sub) == [s[0]] + RemoveAll(s[1..], sub)
  {
    if |sub| <= |s| {
      assert s[..|sub|] == s[0..0 + |sub|];
    }
  }

  /** An occurrence at the start is removed, and the search resumes after it. */
  lemma RemoveAllHere(s: string, sub: string)
    requires sub != [] && OccursAt(s, sub, 0)
    ensures RemoveAll(s, sub) == RemoveAll(s[|sub|..], sub)
  {
    assert s[..|sub|] == s[0..0 + |sub|];
  }

  lemma OccursShift(s: string, sub: string, i: nat)
    requires 0 < i && OccursAt(s, sub, i)
    ensures OccursAt(s[1..], sub, i - 1) && s[1..][i - 1 + |sub|..] == s[i + |sub|..]
  {
    assert s[1..][i - 1..i - 1 + |sub|] == s[i..i + |sub|];
  }

  lemma NoneBeforeShift(s: string, sub: string, i: nat)
    requires s != [] && 0 < i && forall k :: 0 <= k < i ==> !OccursAt(s, sub, k)
    ensures forall k :: 0 <= k < i - 1 ==> !OccursAt(s[1..], sub, k)
  {
    forall k | 0 <= k < i - 1
      ensures !OccursAt(s[1..], sub, k)
    {
      if k <= |s| - 1 - |sub| {
        assert s[1..][k..k + |sub|] == s[k + 1..k + 1 + |sub|];
      }
      assert !OccursAt(s, sub, k + 1);
    }
  }

  /** The leftmost occurrence of `sub` goes, the text before it stays, and the
      search starts afresh after it. */
  lemma {:induction false} RemoveAllFirst(s: string, sub: string, i: nat)
    requires sub != []
    requires OccursAt(s, sub, i)
    requires forall k :: 0 <= k < i ==> !OccursAt(s, sub, k)
    ensures RemoveAll(s, sub) == s[..i] + RemoveAll(s[i + |sub|..], sub)
    decreases i
  {
    if i == 0 {
      RemoveAllHere(s, sub);
      assert s[..0] + RemoveAll(s[|sub|..], sub) == RemoveAll(s[|sub|..], sub);
    } else {
      RemoveAllSkip(s, sub);
      OccursShift(s, sub, i);
      NoneBeforeShift(s, sub, i);
      RemoveAllFirst(s[1..], sub, i - 1);
      var rest := RemoveAll(s[i + |sub|..], sub);
      assert s[..i] == [s[0]] + s[1..][..i - 1];
      assert [s[0]] + (s[1..][..i - 1] + rest) == ([s[0]] + s[1..][..i - 1]) + rest;
    }
  }

  /** The three removals `clean_num` makes, in its order: commas, then the
      mojibake rupee, then dollar signs. */
  function Clean(s: string): (t: string)
    ensures t == RemoveChar(RemoveAll(RemoveChar(s, ','), Mojibake), '$')
    ensures ',' !in t && '$' !in t
    ensures Digits(t) == Digits(s)
  {
    assert !HasDigit(Mojibake) by {
      assert forall i :: 0 <= i < |Mojibake| ==> !IsDigit(Mojibake[i]);
    }
    var a := RemoveChar(s, ',');
    var b := RemoveAll(a, Mojibake);
    RemoveCharSpec(s, ',');
    RemoveAllSpec(a, Mojibake);
    RemoveCharSpec(b, '$');
    RemoveChar(b, '$')
  }

  // ---------------------------------------------------------------------
  // What the pattern [-+]?\d*\.\d+|\d+ accepts, and the value of a match.

  predicate IsSign(c: char) { c == '-' || c == '+' }

  /** The number of leading digits of `w`. */
  function LeadDigits(w: string): (n: nat)
    ensures n <= |w| && AllDigits(w[..n]) && (n == |w| || !IsDigit(w[n]))
  {
    if w == [] || !IsDigit(w[0]) then 0
    else
      var n := 1 + LeadDigits(w[1..]);
      assert w[..n] == [w[0]] + w[1..][..n - 1];
      n
  }

  lemma LeadDigitsUnique(w: string, k: nat)
    requires k <= |w| && AllDigits(w[..k]) && (k == |w| || !IsDigit(w[k]))
    ensures LeadDigits(w) == k
  {
    var n := LeadDigits(w);
    assert forall j :: 0 <= j < k ==> w[..k][j] == w[j];
    assert forall j :: 0 <= j < n ==> w[..n][j] == w[j];
  }

  /** `\d*\.\d+`. */
  predicate IsUnsignedDecimal(w: string)
  {
    var i := LeadDigits(w);
    i + 1 < |w| && w[i] == '.' && AllDigits(w[i + 1..])
  }

  /** A whole match of `[-+]?\d*\.\d+|\d+`. */
  predicate IsNumeral(w: string)
  {
    (w != [] && AllDigits(w)) || IsUnsignedDecimal(w) ||
    (w != [] && IsSign(w[0]) && IsUnsignedDecimal(w[1..]))
  }

  function Pow10(n: nat): (p: nat)
    ensures p > 0
  {
    if n == 0 then 1 else 10 * Pow10(n - 1)
  }

  /** `float(u)` for `u` matching `\d*\.\d+` or `\d+`. */
  function UnsignedValue(u: string): real
    requires (u != [] && AllDigits(u)) || IsUnsignedDecimal(u)
  {
    var i := LeadDigits(u);
    var whole := DigitsValue(u[..i]) as real;
    if i == |u| then whole
    else whole + DigitsValue(u[i + 1..]) as real / Pow10(|u| - i - 1) as real
  }

  /** `float(w)` for a match `w` of the pattern. */
  function NumeralValue(w: string): real
    requires IsNumeral(w)
  {
    if w != [] && IsSign(w[0]) then
      (if w[0] == '-' then -1.0 else 1.0) * UnsignedValue(w[1..])
    else UnsignedValue(w)
  }

  // ---------------------------------------------------------------------
  // The search `re.findall(...)[0]` performs: at each position, in order,
  // the signed decimal, the unsigned decimal, then the integer alternative.

  /** End of the run of digits that starts at `i` (that is what a greedy `\d*` takes). */
  function DigitEnd(t: string, i: nat): (e: nat)
    requires i <= |t|
    ensures i <= e <= |t| && AllDigits(t[i..e]) && (e == |t| || !IsDigit(t[e]))
    decreases |t| - i
  {
    if i < |t| && IsDigit(t[i]) then
      var e := DigitEnd(t, i + 1);
      assert t[i..e] == [t[i]] + t[i + 1..e];
      e
    else i
  }

  /** End of the match of `\d*\.\d+` at `q`, if any. */
  function DecimalEnd(t: string, q: nat): Option<nat>
    requires q <= |t|
  {
    var e := DigitEnd(t, q);
    if e + 1 < |t| && t[e] == '.' && IsDigit(t[e + 1]) then Some(DigitEnd(t, e + 1)) else None
  }

  /** End of the match of the whole pattern at `p`, if any. */
  function MatchEnd(t: string, p: nat): Option<nat>
    requires p < |t|
  {
    if IsSign(t[p]) && DecimalEnd(t, p + 1).Some? then DecimalEnd(t, p + 1)
    else if DecimalEnd(t, p).Some? then DecimalEnd(t, p)
    else if IsDigit(t[p]) then Some(DigitEnd(t, p))
    else None
  }

  /** The first match at or after position `p`, as start and end. */
  function FirstMatch(t: string, p: nat): Option<(nat, nat)>
    requires p <= |t|
    decreases |t| - p
  {
    if p == |t| then None
    else match MatchEnd(t, p)
      case Some(e) => Some((p, e))
      case None => FirstMatch(t, p + 1)
  }

  /** `clean_num(s)`. */
  function CleanNum(s: string): Option<real>
  {
    if s == [] then None
    else
      var t := Clean(s);
      match FirstMatch(t, 0)
      case None => None
      case Some(m) => FirstMatchSpec(t, 0); Some(NumeralValue(t[m.0..m.1]))
  }

  /** No number comes out exactly when the token is empty or has no digit
      (none of the removed characters is a digit). */
  lemma CleanNumNone(s: string)
    ensures CleanNum(s) == None <==> s == [] || !HasDigit(s)
  {
    if s != [] {
      var t := Clean(s);
      DigitsEmpty(s);
      DigitsEmpty(t);
      FirstMatchSpec(t, 0);
    }
  }

  /** `t[p..e]` is the match `re.findall` reports first: a numeral, no numeral
      starts further left, and no longer numeral starts at `p`. */
  ghost predicate IsFirstNumeral(t: string, p: nat, e: nat)
  {
    p <= e <= |t| && IsNumeral(t[p..e]) &&
    (forall p', e' :: 0 <= p' < p && p' <= e' <= |t| ==> !IsNumeral(t[p'..e'])) &&
    (forall e' :: e < e' <= |t| ==> !IsNumeral(t[p..e']))
  }

  /** With the digits removed by nothing, the number found is the value of the
      leftmost-longest numeral of the cleaned token. */
  lemma CleanNumFirstNumeral(s: string)
    requires s != [] && HasDigit(s)
    ensures exists p: nat, e: nat :: IsFirstNumeral(Clean(s), p, e) &&
                           CleanNum(s) == Some(NumeralValue(Clean(s)[p..e]))
  {
    var t := Clean(s);
    DigitsEmpty(s);
    DigitsEmpty(t);
    FirstMatchSpec(t, 0);
    var m := FirstMatch(t, 0).value;
    assert IsFirstNumeral(t, m.0, m.1);
  }

  // ---------------------------------------------------------------------
  // Proof that the search finds the leftmost-longest numeral.

  lemma DigitEndExact(t: string, q: nat, e': nat)
    requires q <= e' <= |t|
    ensures AllDigits(t[q..e']) <==> e' <= DigitEnd(t, q)
  {
    var e := DigitEnd(t, q);
    if e' <= e {
      assert forall k :: 0 <= k < e' - q ==> t[q..e'][k] == t[q..e][k];
    } else {
      assert t[q..e'][e - q] == t[e];
    }
  }

  lemma LeadDigitsOfSlice(t: string, q: nat, e': nat)
    requires q <= e' <= |t|
    ensures LeadDigits(t[q..e']) == (if DigitEnd(t, q) < e' then DigitEnd(t, q) else e') - q
  {
    var e := DigitEnd(t, q);
    var w := t[q..e'];
    var k := (if e < e' then e else e') - q;
    DigitEndExact(t, q, k + q);
    assert w[..k] == t[q..k + q];
    LeadDigitsUnique(w, k);
  }

  lemma DecimalExact(t: string, q: nat, e': nat)
    requires q <= e' <= |t|
    ensures IsUnsignedDecimal(t[q..e']) <==>
            DecimalEnd(t, q).Some? && DigitEnd(t, q) + 2 <= e' <= DecimalEnd(t, q).value
  {
    var e := DigitEnd(t, q);
    var w := t[q..e'];
    LeadDigitsOfSlice(t, q, e');
    if e < e' {
      assert w[e - q] == t[e];
      assert w[e - q + 1..] == t[e + 1..e'];
      DigitEndExact(t, e + 1, e');
      if e + 1 < e' {
        assert t[e + 1..e'][0] == t[e + 1];
      }
    }
  }

  lemma MatchEndExact(t: string, p: nat, e': nat)
    requires p < |t| && p <= e' <= |t|
    ensures MatchEnd(t, p).Some? ==> p < MatchEnd(t, p).value <= |t|
    ensures MatchEnd(t, p).Some? && e' == MatchEnd(t, p).value ==> IsNumeral(t[p..e'])
    ensures IsNumeral(t[p..e']) ==> MatchEnd(t, p).Some? && e' <= MatchEnd(t, p).value
  {
    var w := t[p..e'];
    DecimalExact(t, p, e');
    DigitEndExact(t, p, e');
    if e' > p {
      assert w[0] == t[p];
      assert w[1..] == t[p + 1..e'];
      DecimalExact(t, p + 1, e');
    }
    if DecimalEnd(t, p).Some? {
      DecimalExact(t, p, DecimalEnd(t, p).value);
    }
    if p + 1 <= |t| && DecimalEnd(t, p + 1).Some? {
      DecimalExact(t, p + 1, DecimalEnd(t, p + 1).value);
    }
  }

  lemma {:induction false} FirstMatchSpec(t: string, p: nat)
    requires p <= |t|
    ensures FirstMatch(t, p) == None <==> forall i :: p <= i < |t| ==> !IsDigit(t[i])
    ensures FirstMatch(t, p).Some? ==>
              var m := FirstMatch(t, p).value;
              p <= m.0 < m.1 <= |t| && IsNumeral(t[m.0..m.1]) &&
              (forall p', e' :: p <= p' < m.0 && p' <= e' <= |t| ==> !IsNumeral(t[p'..e'])) &&
              (forall e' :: m.1 < e' <= |t| ==> !IsNumeral(t[m.0..e']))
    decreases |t| - p
  {
    if p < |t| {
      if MatchEnd(t, p).Some? {
        MatchAt(t, p);
      } else {
        NoMatchAt(t, p);
        FirstMatchSpec(t, p + 1);
      }
    }
  }

  /** A match at `p` is the longest numeral there, and holds a digit. */
  lemma MatchAt(t: string, p: nat)
    requires p < |t| && MatchEnd(t, p).Some?
    ensures var e := MatchEnd(t, p).value;
            p < e <= |t| && IsNumeral(t[p..e]) &&
            (forall e' :: e < e' <= |t| ==> !IsNumeral(t[p..e'])) &&
            exists i :: p <= i < |t| && IsDigit(t[i])
  {
    var e := MatchEnd(t, p).value;
    MatchEndExact(t, p, e);
    forall e' | e < e' <= |t| {
      MatchEndExact(t, p, e');
    }
    NumeralHasDigit(t[p..e]);
    var k :| 0 <= k < e - p && IsDigit(t[p..e][k]);
    assert IsDigit(t[p + k]);
  }

  /** No match at `p`: no numeral starts there, and `t[p]` is no digit. */
  lemma NoMatchAt(t: string, p: nat)
    requires p < |t| && MatchEnd(t, p).None?
    ensures !IsDigit(t[p])
    ensures forall e' :: p <= e' <= |t| ==> !IsNumeral(t[p..e'])
  {
    forall e' | p <= e' <= |t| {
      MatchEndExact(t, p, e');
    }
  }

  lemma NumeralHasDigit(w: string)
    requires IsNumeral(w)
    ensures exists k :: 0 <= k < |w| && IsDigit(w[k])
  {
    if w != [] && AllDigits(w) {
      assert IsDigit(w[0]);
    } else if IsUnsignedDecimal(w) {
      var i := LeadDigits(w);
      assert w[i + 1..][0] == w[i + 1];
    } else {
      var u := w[1..];
      var i := LeadDigits(u);
      assert u[i + 1..][0] == w[i + 2];
    }
  }

  /** A token that needs no cleaning and is a numeral as a whole gives its own value. */
  lemma CleanNumWhole(w: string)
    requires IsNumeral(w) && Clean(w) == w
    ensures CleanNum(w) == Some(NumeralValue(w))
  {
    NumeralHasDigit(w);
    CleanNumFirstNumeral(w);
    var p: nat, e: nat :| IsFirstNumeral(w, p, e) && CleanNum(w) == Some(NumeralValue(w[p..e]));
    assert w[0..|w|] == w;
    assert p == 0;
    assert e == |w|;
  }

  // ---------------------------------------------------------------------
  // Worked cases.

  lemma {:induction false} RemoveCharAbsent(s: string, c: char)
    requires c !in s
    ensures RemoveChar(s, c) == s
  {
    if s != [] {
      RemoveCharAbsent(s[1..], c);
    }
  }

  lemma {:induction false} RemoveAllAbsent(s: string, sub: string)
    requires sub != [] && sub[0] !in s
    ensures RemoveAll(s, sub) == s
    decreases |s|
  {
    if s != [] {
      if |sub| <= |s| {
        assert s[..|sub|][0] == s[0];
      }
      RemoveAllAbsent(s[1..], sub);
    }
  }

  /** A token without commas, dollar signs or mojibake is searched as it is. */
  lemma CleanPlain(s: string)
    requires ',' !in s && '$' !in s && Mojibake[0] !in s
    ensures Clean(s) == s
  {
    RemoveCharAbsent(s, ',');
    RemoveAllAbsent(s, Mojibake);
    RemoveCharAbsent(s, '$');
  }

  /** What `clean_num` returns, given where the search stops. */
  lemma CleanNumFound(s: string, t: string, p: nat, e: nat)
    requires s != [] && Clean(s) == t && FirstMatch(t, 0) == Some((p, e))
    ensures p < e <= |t| && IsNumeral(t[p..e])
    ensures CleanNum(s) == Some(NumeralValue(t[p..e]))
  {
    FirstMatchSpec(t, 0);
  }

  lemma CleanNumNotFound(s: string, t: string)
    requires s != [] && Clean(s) == t && FirstMatch(t, 0) == None
    ensures CleanNum(s) == None
  {
  }

  /** A token whose only special characters are commas loses just those. */
  lemma CleanCommasOnly(s: string)
    requires '$' !in s && Mojibake[0] !in s
    ensures Clean(s) == RemoveChar(s, ',')
  {
    var t := RemoveChar(s, ',');
    RemoveCharSpec(s, ',');
    RemoveAllAbsent(t, Mojibake);
    RemoveCharAbsent(t, '$');
  }

  lemma CleanNumEmpty()
    ensures CleanNum("") == None
    ensures CleanNum("N/A") == None
  {
    CleanPlain("N/A");
    NoMatchInNA();
    CleanNumNotFound("N/A", "N/A");
  }

  lemma NoMatchInNA()
    ensures FirstMatch("N/A", 0) == None
  {
  }

  lemma Value1234()
    ensures NumeralValue("1234") == 1234.0
  {
    assert LeadDigits("1234") == 4;
    assert "1234"[..4] == "1234";
    assert "1234"[..3] == "123" && "123"[..2] == "12" && "12"[..1] == "1" && "1"[..0] == "";
  }

  lemma Match1234()
    ensures FirstMatch("1234", 0) == Some((0, 4))
    ensures "1234"[0..4] == "1234"
  {
  }

  lemma CommaOutOfThousands()
    ensures RemoveChar("1,234", ',') == "1234"
  {
  }

  lemma CleanThousands()
    ensures Clean("1,234") == "1234"
  {
    CommaOutOfThousands();
    CleanCommasOnly("1,234");
  }

  /** The thousands separator is removed before the search. */
  lemma CleanNumThousands()
    ensures CleanNum("1,234") == Some(1234.0)
  {
    CleanThousands();
    Match1234();
    CleanNumFound("1,234", "1234", 0, 4);
    Value1234();
  }

  lemma CommaOutOfRupee()
    ensures RemoveChar("\U{20B9}1,234", ',') == "\U{20B9}1234"
  {
    CommaOutOfThousands();
    assert "\U{20B9}1,234"[1..] == "1,234";
  }

  lemma RupeeIsPlain()
    ensures '$' !in "\U{20B9}1,234" && Mojibake[0] !in "\U{20B9}1,234"
  {
  }

  lemma CleanRupee()
    ensures Clean("\U{20B9}1,234") == "\U{20B9}1234"
  {
    RupeeIsPlain();
    CleanCommasOnly("\U{20B9}1,234");
    CommaOutOfRupee();
  }

  lemma MatchRupee()
    ensures FirstMatch("\U{20B9}1234", 0) == Some((1, 5))
    ensures "\U{20B9}1234"[1..5] == "1234"
  {
  }

  /** A real rupee sign is not removed, but it is not part of the numeral either. */
  lemma CleanNumRupeeSign()
    ensures CleanNum("\U{20B9}1,234") == Some(1234.0)
  {
    CleanRupee();
    MatchRupee();
    CleanNumFound("\U{20B9}1,234", "\U{20B9}1234", 1, 5);
    Value1234();
  }

  lemma MatchLeadingDot()
    ensures FirstMatch(".5", 0) == Some((0, 2))
    ensures ".5"[0..2] == ".5"
    ensures NumeralValue(".5") == 0.5
  {
    assert LeadDigits(".5") == 0;
    assert ".5"[..0] == "" && ".5"[1..] == "5" && "5"[..0] == "";
  }

  lemma CleanNumLeadingDot()
    ensures CleanNum(".5") == Some(0.5)
  {
    CleanPlain(".5");
    MatchLeadingDot();
    CleanNumFound(".5", ".5", 0, 2);
  }

  lemma MatchMinusFive()
    ensures FirstMatch("-5", 0) == Some((1, 2))
    ensures "-5"[1..2] == "5"
    ensures NumeralValue("5") == 5.0
  {
    assert "5"[..1] == "5" && "5"[..0] == "";
  }

  lemma MatchMinusFivePointFive()
    ensures FirstMatch("-5.5", 0) == Some((0, 4))
    ensures "-5.5"[0..4] == "-5.5"
    ensures NumeralValue("-5.5") == -5.5
  {
    assert "-5.5"[1..] == "5.5";
    assert LeadDigits("5.5") == 1;
    assert "5.5"[..1] == "5" && "5.5"[2..] == "5" && "5"[..0] == "";
  }

  /** The sign belongs to the decimal alternative only: "-5" reads as 5. */
  lemma CleanNumSignOnlyOnDecimals()
    ensures CleanNum("-5") == Some(5.0)
    ensures CleanNum("-5.5") == Some(-5.5)
  {
    CleanPlain("-5");
    MatchMinusFive();
    CleanNumFound("-5", "-5", 1, 2);
    CleanPlain("-5.5");
    MatchMinusFivePointFive();
    CleanNumFound("-5.5", "-5.5", 0, 4);
  }

  lemma ValueThreeHundred()
    ensures NumeralValue("300.00") == 300.0
  {
    assert LeadDigits("300.00") == 3;
    assert "300.00"[..3] == "300" && "300.00"[4..] == "00";
    assert "300"[..2] == "30" && "30"[..1] == "3" && "3"[..0] == "";
    assert "00"[..1] == "0" && "0"[..0] == "";
  }

  lemma ValueFiveHundred()
    ensures NumeralValue("500.00") == 500.0
  {
    assert LeadDigits("500.00") == 3;
    assert "500.00"[..3] == "500" && "500.00"[4..] == "00";
    assert "500"[..2] == "50" && "50"[..1] == "5" && "5"[..0] == "";
    assert "00"[..1] == "0" && "0"[..0] == "";
  }

  /** The tokens of a printed bill line need no cleaning. */
  lemma CleanNumOne()
    ensures CleanNum("1") == Some(1.0)
  {
    assert "1"[..1] == "1" && "1"[..0] == "";
    CleanPlain("1");
    CleanNumWhole("1");
  }

  lemma PlainThreeHundred()
    ensures Clean("300.00") == "300.00"
  {
    CleanPlain("300.00");
  }

  lemma MatchThreeHundred()
    ensures FirstMatch("300.00", 0) == Some((0, 6))
    ensures "300.00"[0..6] == "300.00"
  {
  }

  lemma CleanNumThreeHundred()
    ensures CleanNum("300.00") == Some(300.0)
  {
    PlainThreeHundred();
    MatchThreeHundred();
    CleanNumFound("300.00", "300.00", 0, 6);
    ValueThreeHundred();
  }

  lemma PlainFiveHundred()
    ensures Clean("500.00") == "500.00"
  {
    CleanPlain("500.00");
  }

  lemma MatchFiveHundred()
    ensures FirstMatch("500.00", 0) == Some((0, 6))
    ensures "500.00"[0..6] == "500.00"
  {
  }

  lemma CleanNumFiveHundred()
    ensures CleanNum("500.00") == Some(500.0)
  {
    PlainFiveHundred();
    MatchFiveHundred();
    CleanNumFound("500.00", "500.00", 0, 6);
    ValueFiveHundred();
  }

  // ---------------------------------------------------------------------
  // A thousands separator together with decimals, with and without the
  // mojibake of a rupee sign in front.

  lemma ValueDecimal1234()
    ensures NumeralValue("1234.56") == 1234.56
  {
    assert LeadDigits("1234.56") == 4;
    assert "1234.56"[..4] == "1234" && "1234.56"[5..] == "56";
    assert "1234"[..3] == "123" && "123"[..2] == "12" && "12"[..1] == "1" && "1"[..0] == "";
    assert "56"[..1] == "5" && "5"[..0] == "";
  }

  lemma MatchDecimal1234()
    ensures FirstMatch("1234.56", 0) == Some((0, 7))
    ensures "1234.56"[0..7] == "1234.56"
  {
  }

  /** A single comma between two comma-free parts is dropped. */
  lemma DropOneComma(a: string, b: string)
    requires ',' !in a && ',' !in b
    ensures RemoveChar(a + "," + b, ',') == a + b
  {
    assert RemoveChar(",", ',') == [] by {
      assert ","[1..] == [];
    }
    RemoveCharAppend(a, ",", ',');
    RemoveCharAbsent(a, ',');
    assert RemoveChar(a + ",", ',') == a;
    RemoveCharAppend(a + ",", b, ',');
    RemoveCharAbsent(b, ',');
  }

  lemma CommaOutOfDecimal()
    ensures RemoveChar("1,234.56", ',') == "1234.56"
  {
    DropOneComma("1", "234.56");
    assert "1" + "," + "234.56" == "1,234.56";
    assert "1" + "234.56" == "1234.56";
  }

  lemma CleanNumDecimalThousands()
    ensures CleanNum("1,234.56") == Some(1234.56)
  {
    CommaOutOfDecimal();
    CleanCommasOnly("1,234.56");
    MatchDecimal1234();
    CleanNumFound("1,234.56", "1234.56", 0, 7);
    ValueDecimal1234();
  }

  /** Removing a character that a prefix lacks leaves the prefix in place. */
  lemma {:induction false} RemoveCharKeepsPrefix(a: string, b: string, c: char)
    requires c !in a
    ensures RemoveChar(a + b, c) == a + RemoveChar(b, c)
  {
    if a != [] {
      assert a[0] in a;
      assert (a + b)[0] == a[0];
      assert (a + b)[1..] == a[1..] + b;
      RemoveCharKeepsPrefix(a[1..], b, c);
      assert a == [a[0]] + a[1..];
    } else {
      assert a + b == b;
    }
  }

  lemma CommaOutOfMojibake()
    ensures RemoveChar(Mojibake + "1,234.56", ',') == Mojibake + "1234.56"
  {
    assert ',' !in Mojibake;
    RemoveCharKeepsPrefix(Mojibake, "1,234.56", ',');
    CommaOutOfDecimal();
  }

  lemma MojibakeOut()
    ensures RemoveAll(Mojibake + "1234.56", Mojibake) == "1234.56"
  {
    var a := Mojibake + "1234.56";
    assert a[..|Mojibake|] == Mojibake && a[|Mojibake|..] == "1234.56";
    assert Mojibake[0] !in "1234.56";
    RemoveAllAbsent("1234.56", Mojibake);
  }

  lemma CleanMojibakeRupee()
    ensures Clean(Mojibake + "1,234.56") == "1234.56"
  {
    CommaOutOfMojibake();
    MojibakeOut();
    assert '$' !in "1234.56";
    RemoveCharAbsent("1234.56", '$');
  }

  /** The mojibake of a rupee sign is removed along with the separator. */
  lemma CleanNumMojibakeRupee()
    ensures CleanNum(Mojibake + "1,234.56") == Some(1234.56)
  {
    CleanMojibakeRupee();
    MatchDecimal1234();
    CleanNumFound(Mojibake + "1,234.56", "1234.56", 0, 7);
    ValueDecimal1234();
  }

  // ---------------------------------------------------------------------
  // The tokens of the line "Paracetamol 500mg 10 2.50 0 25.00".

  lemma ValueTen()
    ensures NumeralValue("10") == 10.0
  {
    assert "10"[..2] == "10" && "10"[..1] == "1" && "1"[..0] == "";
  }

  lemma MatchTen()
    ensures FirstMatch("10", 0) == Some((0, 2))
    ensures "10"[0..2] == "10"
  {
  }

  lemma CleanNumTen()
    ensures CleanNum("10") == Some(10.0)
  {
    CleanPlain("10");
    MatchTen();
    CleanNumFound("10", "10", 0, 2);
    ValueTen();
  }

  lemma ValueTwoFifty()
    ensures NumeralValue("2.50") == 2.5
  {
    assert LeadDigits("2.50") == 1;
    assert "2.50"[..1] == "2" && "2.50"[2..] == "50" && "2"[..0] == "";
    assert "50"[..1] == "5" && "5"[..0] == "";
  }

  lemma MatchTwoFifty()
    ensures FirstMatch("2.50", 0) == Some((0, 4))
    ensures "2.50"[0..4] == "2.50"
  {
  }

  lemma CleanNumTwoFifty()
    ensures CleanNum("2.50") == Some(2.5)
  {
    CleanPlain("2.50");
    MatchTwoFifty();
    CleanNumFound("2.50", "2.50", 0, 4);
    ValueTwoFifty();
  }

  lemma ValueTwentyFive()
    ensures NumeralValue("25.00") == 25.0
  {
    assert LeadDigits("25.00") == 2;
    assert "25.00"[..2] == "25" && "25.00"[3..] == "00";
    assert "25"[..1] == "2" && "2"[..0] == "";
    assert "00"[..1] == "0" && "0"[..0] == "";
  }

  lemma MatchTwentyFive()
    ensures FirstMatch("25.00", 0) == Some((0, 5))
    ensures "25.00"[0..5] == "25.00"
  {
  }

  lemma CleanNumTwentyFive()
    ensures CleanNum("25.00") == Some(25.0)
  {
    CleanPlain("25.00");
    MatchTwentyFive();
    CleanNumFound("25.00", "25.00", 0, 5);
    ValueTwentyFive();
  }
  /** `replace` removes the occurrences in the text as it stands: the parts
      left on either side of a removed mojibake rupee can join into a new one,
      which stays in the cleaned text. */
  lemma MojibakeMayRemain()
    ensures Clean(Mojibake[..1] + Mojibake + Mojibake[1..]) == Mojibake
  {
    var s := Mojibake[..1] + Mojibake + Mojibake[1..];
    assert s == "\U{E2}\U{E2}\U{201A}\U{B9}\U{201A}\U{B9}";
    RemoveCharAbsent(s, ',');
    assert !OccursAt(s, Mojibake, 0) by {
      assert s[0..3][1] != Mojibake[1];
    }
    assert OccursAt(s, Mojibake, 1) by {
      assert s[1..4] == Mojibake;
    }
    RemoveAllFirst(s, Mojibake, 1);
    assert s[4..] == Mojibake[1..];
    RemoveAllAbsent(Mojibake[1..], Mojibake);
    assert s[..1] + Mojibake[1..] == Mojibake;
    RemoveCharAbsent(Mojibake, '$');
  }
}
