/**
 * `normalize_name`: the matching key of an item name. Every step keeps the
 * string ASCII, so the model's `lower` and whitespace are exact here.
 */
module Names {
  import opened Text

  /** The characters `[a-zA-Z0-9 ]` keeps. */
  predicate IsKept(c: char)
  {
    ('a' <= c <= 'z') || ('A' <= c <= 'Z') || ('0' <= c <= '9') || c == ' '
  }

  /** The characters a normalized name is made of. */
  predicate IsKeyChar(c: char)
  {
    ('a' <= c <= 'z') || ('0' <= c <= '9') || c == ' '
  }

  /** What `normalize_name` promises: lowercase letters, digits and single
      spaces, with no space at either end. */
  predicate IsNameKey(k: string)
  {
    (forall i :: 0 <= i < |k| ==> IsKeyChar(k[i])) &&
    (forall i :: 0 <= i < |k| - 1 ==> !(k[i] == ' ' && k[i + 1] == ' ')) &&
    (k == [] || (k[0] != ' ' && k[|k| - 1] != ' '))
  }

  /** `s` with its leading characters outside `IsKept` dropped. */
  function DropUnkept(s: string): (r: string)
    ensures |r| <= |s| && r == s[|s| - |r|..]
    ensures r == [] || IsKept(r[0])
  {
    if s == [] || IsKept(s[0]) then s else DropUnkept(s[1..])
  }

  /** `re.sub(r"[^a-zA-Z0-9 ]+", " ", s)`: each run of other characters becomes one space. */
  function ReplaceUnkept(s: string): string
  {
    if s == [] then []
    else if IsKept(s[0]) then [s[0]] + ReplaceUnkept(s[1..])
    else [' '] + ReplaceUnkept(DropUnkept(s[1..]))
  }

  lemma {:induction false} ReplaceUnkeptKeeps(s: string)
    ensures forall i :: 0 <= i < |ReplaceUnkept(s)| ==> IsKept(ReplaceUnkept(s)[i])
    decreases |s|
  {
    if s != [] {
      if IsKept(s[0]) {
        ReplaceUnkeptKeeps(s[1..]);
      } else {
        ReplaceUnkeptKeeps(DropUnkept(s[1..]));
      }
    }
  }

  lemma {:induction false} ReplaceUnkeptFixes(s: string)
    requires forall i :: 0 <= i < |s| ==> IsKept(s[i])
    ensures ReplaceUnkept(s) == s
  {
    if s != [] {
      assert IsKept(s[0]);
      ReplaceUnkeptFixes(s[1..]);
    }
  }

  /** `s` with its leading whitespace dropped. */
  function DropSpaces(s: string): (r: string)
    ensures |r| <= |s| && r == s[|s| - |r|..]
    ensures r == [] || !IsSpace(r[0])
  {
    if s == [] || !IsSpace(s[0]) then s else DropSpaces(s[1..])
  }

  /** `re.sub(r"\s+", " ", s)`: each run of whitespace becomes one space. */
  function CollapseSpaces(s: string): string
  {
    if s == [] then []
    else if IsSpace(s[0]) then [' '] + CollapseSpaces(DropSpaces(s[1..]))
    else [s[0]] + CollapseSpaces(s[1..])
  }

  /** `normalize_name(s)`. */
  function NormalizeName(s: string): string
  {
    Strip(CollapseSpaces(Lower(ReplaceUnkept(s))))
  }

  // ---------------------------------------------------------------------
  // Each step keeps the characters a key is made of; collapsing removes
  // double spaces; stripping removes the end spaces.

  predicate AllKeyChars(s: string)
  {
    forall i :: 0 <= i < |s| ==> IsKeyChar(s[i])
  }

  predicate NoDoubleSpace(s: string)
  {
    forall i :: 0 <= i < |s| - 1 ==> !(s[i] == ' ' && s[i + 1] == ' ')
  }

  lemma LowerKept(s: string)
    requires forall i :: 0 <= i < |s| ==> IsKept(s[i])
    ensures AllKeyChars(Lower(s))
  {
  }

  lemma {:induction false} CollapseKeeps(s: string)
    requires AllKeyChars(s)
    ensures AllKeyChars(CollapseSpaces(s)) && NoDoubleSpace(CollapseSpaces(s))
    decreases |s|
  {
    if s != [] {
      if IsSpace(s[0]) {
        var d := DropSpaces(s[1..]);
        DropSpacesKeeps(s[1..]);
        CollapseKeeps(d);
        CollapseHead(d);
        ConsKeeps(' ', CollapseSpaces(d));
      } else {
        CollapseKeeps(s[1..]);
        ConsKeeps(s[0], CollapseSpaces(s[1..]));
      }
    }
  }

  /** What is left after the leading whitespace is still made of key characters. */
  lemma DropSpacesKeeps(s: string)
    requires AllKeyChars(s)
    ensures AllKeyChars(DropSpaces(s))
  {
    var d := DropSpaces(s);
    assert forall i :: 0 <= i < |d| ==> d[i] == s[|s| - |d| + i];
  }

  /** Collapsing keeps a first character that is not whitespace. */
  lemma CollapseHead(d: string)
    requires d == [] || !IsSpace(d[0])
    ensures d != [] ==> CollapseSpaces(d) != [] && CollapseSpaces(d)[0] == d[0]
  {
  }

  lemma ConsKeeps(c: char, r: string)
    requires IsKeyChar(c) && AllKeyChars(r) && NoDoubleSpace(r)
    requires c == ' ' ==> r == [] || r[0] != ' '
    ensures AllKeyChars([c] + r) && NoDoubleSpace([c] + r)
  {
    var w := [c] + r;
    assert forall i :: 1 <= i < |w| ==> w[i] == r[i - 1];
  }

  lemma KeySpace(c: char)
    requires IsKeyChar(c)
    ensures IsSpace(c) <==> c == ' '
  {
  }

  lemma SliceKeeps(s: string, a: nat, b: nat)
    requires a <= b <= |s| && AllKeyChars(s) && NoDoubleSpace(s)
    ensures AllKeyChars(s[a..b]) && NoDoubleSpace(s[a..b])
  {
    var w := s[a..b];
    assert forall i :: 0 <= i < |w| ==> w[i] == s[a + i];
  }

  lemma StripKeeps(s: string)
    requires AllKeyChars(s) && NoDoubleSpace(s)
    ensures IsNameKey(Strip(s))
  {
    var r := Strip(s);
    var o := StripOffset(s);
    SliceKeeps(s, o, o + |r|);
    if r != [] {
      KeySpace(r[0]);
      KeySpace(r[|r| - 1]);
    }
  }

  /** The output of `normalize_name` is always a key. */
  lemma NormalizeNameIsKey(s: string)
    ensures IsNameKey(NormalizeName(s))
  {
    var a := ReplaceUnkept(s);
    ReplaceUnkeptKeeps(s);
    LowerKept(a);
    CollapseKeeps(Lower(a));
    StripKeeps(CollapseSpaces(Lower(a)));
  }

  /** Lowercasing leaves key characters alone. */
  lemma LowerKey(k: string)
    requires AllKeyChars(k)
    ensures Lower(k) == k
  {
    assert forall i :: 0 <= i < |k| ==> Lower(k)[i] == k[i];
  }

  lemma {:induction false} CollapseFixes(s: string)
    requires AllKeyChars(s) && NoDoubleSpace(s)
    ensures CollapseSpaces(s) == s
    decreases |s|
  {
    if s != [] {
      SliceKeeps(s, 1, |s|);
      KeySpace(s[0]);
      if IsSpace(s[0]) && |s| > 1 {
        KeySpace(s[1]);
        assert DropSpaces(s[1..]) == s[1..];
      }
      CollapseFixes(s[1..]);
    }
  }

  /** A key is its own normal form. */
  lemma NormalizeKey(k: string)
    requires IsNameKey(k)
    ensures NormalizeName(k) == k
  {
    ReplaceUnkeptFixes(k);
    LowerKey(k);
    CollapseFixes(k);
    StripStripped(k);
  }

  /** Normalizing twice is normalizing once. */
  lemma NormalizeNameIdempotent(s: string)
    ensures NormalizeName(NormalizeName(s)) == NormalizeName(s)
  {
    NormalizeNameIsKey(s);
    NormalizeKey(NormalizeName(s));
  }

  lemma {:induction false} ReplaceKeptPrefix(a: string, b: string)
    requires forall i :: 0 <= i < |a| ==> IsKept(a[i])
    ensures ReplaceUnkept(a + b) == a + ReplaceUnkept(b)
  {
    if a != [] {
      assert (a + b)[1..] == a[1..] + b;
      ReplaceKeptPrefix(a[1..], b);
    } else {
      assert a + b == b;
    }
  }

  lemma {:induction false} DropUnkeptPrefix(u: string, v: string)
    requires forall i :: 0 <= i < |u| ==> !IsKept(u[i])
    requires v == [] || IsKept(v[0])
    ensures DropUnkept(u + v) == v
  {
    if u != [] {
      assert (u + v)[1..] == u[1..] + v;
      DropUnkeptPrefix(u[1..], v);
    } else {
      assert u + v == v;
    }
  }

  /** A run of other characters, whatever its length, becomes one space. */
  lemma ReplaceUnkeptRun(u: string, v: string)
    requires u != [] && forall i :: 0 <= i < |u| ==> !IsKept(u[i])
    requires v == [] || IsKept(v[0])
    ensures ReplaceUnkept(u + v) == " " + ReplaceUnkept(v)
  {
    assert (u + v)[0] == u[0];
    assert (u + v)[1..] == u[1..] + v;
    DropUnkeptPrefix(u[1..], v);
  }

  lemma {:induction false} CollapsePlainPrefix(a: string, b: string)
    requires NoSpace(a)
    ensures CollapseSpaces(a + b) == a + CollapseSpaces(b)
  {
    if a != [] {
      assert (a + b)[1..] == a[1..] + b;
      CollapsePlainPrefix(a[1..], b);
    } else {
      assert a + b == b;
    }
  }

  lemma {:induction false} TrimEndSpaces(x: string, t: string)
    requires x != [] && !IsSpace(x[|x| - 1]) && AllSpace(t)
    ensures TrimEnd(x + t) == x
  {
    if t != [] {
      assert (x + t)[..|x + t| - 1] == x + t[..|t| - 1];
      TrimEndSpaces(x, t[..|t| - 1]);
    } else {
      assert x + t == x;
    }
  }

  predicate IsWord(w: string)
  {
    w != [] && forall i :: 0 <= i < |w| ==> IsKept(w[i]) && w[i] != ' '
  }

  predicate IsNoise(w: string)
  {
    forall i :: 0 <= i < |w| ==> !IsKept(w[i])
  }

  /** A trailing run of other characters becomes one space; none stays none. */
  lemma ReplaceNoise(tail: string)
    requires IsNoise(tail)
    ensures ReplaceUnkept(tail) == if tail == [] then [] else " "
  {
    if tail != [] {
      ReplaceUnkeptRun(tail, []);
      assert tail + [] == tail;
    }
  }

  lemma ReplaceTwoWords(a: string, sep: string, b: string, tail: string)
    requires IsWord(a) && IsWord(b) && sep != [] && IsNoise(sep) && IsNoise(tail)
    ensures ReplaceUnkept(a + sep + b + tail) == a + " " + b + (if tail == [] then [] else " ")
  {
    var t: string := if tail == [] then [] else " ";
    ReplaceNoise(tail);
    ReplaceKeptPrefix(b, tail);
    assert ReplaceUnkept(b + tail) == b + t;
    ReplaceUnkeptRun(sep, b + tail);
    assert ReplaceUnkept(sep + (b + tail)) == " " + (b + t);
    ReplaceKeptPrefix(a, sep + (b + tail));
    Concat4(a, sep, b, tail);
    Concat4(a, " ", b, t);
  }

  lemma Concat4(w: string, x: string, y: string, z: string)
    ensures w + x + y + z == w + (x + (y + z))
  {
  }

  predicate IsKeyWord(w: string)
  {
    w != [] && forall i :: 0 <= i < |w| ==> IsKeyChar(w[i]) && w[i] != ' '
  }

  lemma LowerWord(w: string)
    requires IsWord(w)
    ensures IsKeyWord(Lower(w))
  {
  }

  /** Two key words joined by one space, with perhaps one space after, are
      already collapsed. */
  lemma TwoKeyWords(la: string, lb: string, t: string)
    requires IsKeyWord(la) && IsKeyWord(lb) && (t == [] || t == " ")
    ensures AllKeyChars(la + " " + lb + t) && NoDoubleSpace(la + " " + lb + t)
  {
    var r := la + " " + lb + t;
    assert forall i :: 0 <= i < |la| ==> r[i] == la[i];
    assert r[|la|] == ' ';
    assert forall i :: |la| < i <= |la| + |lb| ==> r[i] == lb[i - |la| - 1];
    assert forall i :: |la| + |lb| < i < |r| ==> r[i] == ' ';
  }

  /** Two words with any non-empty run of other characters between them, and
      any run of them after, normalize to the lowercased words joined by one space. */
  lemma NormalizeTwoWords(a: string, sep: string, b: string, tail: string)
    requires IsWord(a) && IsWord(b) && sep != [] && IsNoise(sep) && IsNoise(tail)
    ensures NormalizeName(a + sep + b + tail) == Lower(a) + " " + Lower(b)
  {
    var t: string := if tail == [] then [] else " ";
    ReplaceTwoWords(a, sep, b, tail);
    var la, lb := Lower(a), Lower(b);
    LowerWord(a);
    LowerWord(b);
    LowerTwoWords(a, b, t);
    TwoKeyWords(la, lb, t);
    CollapseFixes(la + " " + lb + t);
    StripTwoWords(la, lb, t);
  }

  lemma LowerTwoWords(a: string, b: string, t: string)
    requires t == [] || t == " "
    ensures Lower(a + " " + b + t) == Lower(a) + " " + Lower(b) + t
  {
    Concat4(a, " ", b, t);
    LowerAppend(a, " " + (b + t));
    LowerAppend(" ", b + t);
    LowerAppend(b, t);
    assert Lower(" ") == " ";
    assert Lower(t) == t;
    Concat4(Lower(a), " ", Lower(b), t);
  }

  lemma StripTwoWords(la: string, lb: string, t: string)
    requires IsKeyWord(la) && IsKeyWord(lb) && (t == [] || t == " ")
    ensures Strip(la + " " + lb + t) == la + " " + lb
  {
    var c := la + " " + lb;
    assert c[0] == la[0];
    assert c[|c| - 1] == lb[|lb| - 1];
    assert c + t == la + " " + lb + t;
    assert TrimStart(c + t) == c + t;
    TrimEndSpaces(c, t);
  }

  lemma ExampleWords()
    ensures IsWord("Paracetamol") && IsWord("500MG") && IsNoise("-") && IsNoise("!!")
    ensures Lower("Paracetamol") == "paracetamol" && Lower("500MG") == "500mg"
    ensures "Paracetamol" + "-" + "500MG" + "!!" == "Paracetamol-500MG!!"
    ensures "paracetamol" + " " + "500mg" == "paracetamol 500mg"
  {
  }

  lemma NormalizeNameExample()
    ensures NormalizeName("Paracetamol-500MG!!") == "paracetamol 500mg"
  {
    ExampleWords();
    NormalizeTwoWords("Paracetamol", "-", "500MG", "!!");
  }
}
