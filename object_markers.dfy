/**
 * The Korean object-marker check of the grammar test: 을 after a syllable
 * with a final consonant (batchim), 를 otherwise.
 *
 * JavaScript strings are sequences of UTF-16 code units, so a word here is
 * a `seq<CodeUnit>`. The final consonant is read off the code point with
 * the arithmetic of Hangul syllable composition (section 3.12, "Conjoining
 * Jamo Behavior", of the Unicode Standard): a precomposed syllable is
 * SBase + (L * VCount + V) * TCount + T, and T = 0 means no final consonant.
 */
module ObjectMarkers {
  import opened Wrappers

  type CodeUnit = x: int | 0 <= x < 0x1_0000

  const SBase: int := 0xAC00
  const LCount: int := 19
  const VCount: int := 21
  const TCount: int := 28

  /** 을 (U+C744), the marker after a final consonant. */
  const Eul: seq<CodeUnit> := [0xC744]
  /** 를 (U+B97C), the marker after a vowel. */
  const Reul: seq<CodeUnit> := [0xB97C]

  /** The code units `String.prototype.trim` removes: WhiteSpace and LineTerminator. */
  const Whitespace: set<int> :=
    {0x09, 0x0A, 0x0B, 0x0C, 0x0D, 0x20, 0xA0, 0x1680,
     0x2000, 0x2001, 0x2002, 0x2003, 0x2004, 0x2005, 0x2006, 0x2007, 0x2008, 0x2009, 0x200A,
     0x2028, 0x2029, 0x202F, 0x205F, 0x3000, 0xFEFF}

  predicate IsWhitespace(c: CodeUnit) {
    c in Whitespace
  }

  predicate AllWhitespace(s: seq<CodeUnit>) {
    forall i :: 0 <= i < |s| ==> IsWhitespace(s[i])
  }

  /** `s` without its leading whitespace: a suffix that is empty or starts with content. */
  function TrimStart(s: seq<CodeUnit>): (r: seq<CodeUnit>)
    ensures |r| <= |s| && r == s[|s| - |r|..]
    ensures r == [] || !IsWhitespace(r[0])
  {
    if s == [] || !IsWhitespace(s[0]) then s
    else TrimStart(s[1..])
  }

  /** What the leading trim removes is whitespace. */
  lemma {:induction false} TrimStartDropsWhitespace(s: seq<CodeUnit>)
    ensures forall i :: 0 <= i < |s| - |TrimStart(s)| ==> IsWhitespace(s[i])
  {
    if s != [] && IsWhitespace(s[0]) {
      TrimStartDropsWhitespace(s[1..]);
      forall i | 0 < i < |s| - |TrimStart(s)| ensures IsWhitespace(s[i]) {
        assert s[i] == s[1..][i - 1];
      }
    }
  }

  /** `s` without its trailing whitespace: a prefix that is empty or ends with content. */
  function TrimEnd(s: seq<CodeUnit>): (r: seq<CodeUnit>)
    ensures |r| <= |s| && r == s[..|r|]
    ensures r == [] || !IsWhitespace(r[|r| - 1])
  {
    if s == [] || !IsWhitespace(s[|s| - 1]) then s
    else TrimEnd(s[..|s| - 1])
  }

  /** What the trailing trim removes is whitespace. */
  lemma {:induction false} TrimEndDropsWhitespace(s: seq<CodeUnit>)
    ensures forall i :: |TrimEnd(s)| <= i < |s| ==> IsWhitespace(s[i])
  {
    if s != [] && IsWhitespace(s[|s| - 1]) {
      var p := s[..|s| - 1];
      TrimEndDropsWhitespace(p);
      forall i | |TrimEnd(s)| <= i < |s| - 1 ensures IsWhitespace(s[i]) {
        assert s[i] == p[i];
      }
    }
  }

  /** `String.prototype.trim`. */
  function Trim(s: seq<CodeUnit>): (r: seq<CodeUnit>)
    ensures r == [] || (!IsWhitespace(r[0]) && !IsWhitespace(r[|r| - 1]))
  {
    TrimEnd(TrimStart(s))
  }

  /** Only a blank word trims to nothing. */
  lemma TrimBlank(s: seq<CodeUnit>)
    ensures Trim(s) == [] <==> AllWhitespace(s)
  {
    if AllWhitespace(s) {
      BlankTrimStart(s);
    } else {
      ContentSurvivesTrim(s);
    }
  }

  /** A blank word loses everything to the leading trim. */
  lemma {:induction false} BlankTrimStart(s: seq<CodeUnit>)
    requires AllWhitespace(s)
    ensures TrimStart(s) == []
  {
    if s != [] {
      assert IsWhitespace(s[0]);
      forall i | 0 <= i < |s| - 1 ensures IsWhitespace(s[1..][i]) {
        assert s[1..][i] == s[i + 1];
      }
      BlankTrimStart(s[1..]);
    }
  }

  /** A unit that is not whitespace survives both trims. */
  lemma ContentSurvivesTrim(s: seq<CodeUnit>)
    requires !AllWhitespace(s)
    ensures Trim(s) != []
  {
    var t := TrimStart(s);
    var r := TrimEnd(t);
    var n := |s| - |t|;
    TrimStartDropsWhitespace(s);
    TrimEndDropsWhitespace(t);
    var i :| 0 <= i < |s| && !IsWhitespace(s[i]);
    assert t == s[n..];
    assert r == t[..|r|];
    assert n <= i;
    assert t[i - n] == s[i];
    assert !IsWhitespace(t[i - n]);
    assert i - n < |r|;
  }

  /** Trimming cuts whitespace, and only whitespace, off both ends. */
  lemma TrimIsSlice(s: seq<CodeUnit>)
    ensures exists i, j ::
      0 <= i <= j <= |s| && Trim(s) == s[i..j] && AllWhitespace(s[..i]) && AllWhitespace(s[j..])
  {
    var t := TrimStart(s);
    var r := TrimEnd(t);
    var i := |s| - |t|;
    var j := i + |r|;
    TrimStartDropsWhitespace(s);
    TrimEndDropsWhitespace(t);
    assert r == s[i..j];
    assert AllWhitespace(s[..i]);
    forall k | j <= k < |s| ensures IsWhitespace(s[k]) {
      assert s[k] == t[k - i];
    }
    assert AllWhitespace(s[j..]);
    assert 0 <= i <= j <= |s| && Trim(s) == s[i..j];
  }

  /** JavaScript's `a % 28`, whose remainder takes the sign of the dividend. */
  function JsRem28(a: int): (r: int)
    ensures -28 < r < 28
    ensures a >= 0 ==> r == a % 28
    ensures a < 0 ==> r == -((-a) % 28)
  {
    if a >= 0 then a % 28 else -((-a) % 28)
  }

  /** The zero test of the two remainders by 28 agrees, whatever the sign of the dividend. */
  lemma JsRemZero(a: int)
    ensures JsRem28(a) == 0 <==> a % 28 == 0
  {
    if a < 0 {
      var q, r := (-a) / 28, (-a) % 28;
      assert -a == 28 * q + r;
      if r == 0 {
        assert a == 28 * (-q);
      } else {
        assert a == 28 * (-q - 1) + (28 - r);
      }
    }
  }

  /**
   * Whether the code unit, read as a Hangul syllable, has a final consonant:
   * its offset from SBase is not a multiple of TCount. There is no check
   * that it is a Hangul syllable at all.
   */
  predicate UnitHasFinal(c: CodeUnit) {
    JsRem28(c - SBase) != 0
  }

  /**
   * Whether the trimmed word ends with a final consonant. An empty trimmed
   * word counts as having one: `charCodeAt` then gives NaN, and
   * `NaN % 28 !== 0` holds.
   */
  function HasFinalConsonant(word: seq<CodeUnit>): (b: bool) {
    var w := Trim(word);
    w == [] || UnitHasFinal(w[|w| - 1])
  }

  /**
   * `hasFinalConsonant`, read off the word itself: a blank word counts as
   * having a final consonant; otherwise its last non-whitespace unit
   * decides, by its offset from SBase modulo 28.
   */
  lemma HasFinalByLastContent(word: seq<CodeUnit>)
    ensures AllWhitespace(word) ==> HasFinalConsonant(word)
    ensures !AllWhitespace(word) ==> exists k ::
      && 0 <= k < |word| && !IsWhitespace(word[k]) && AllWhitespace(word[k + 1..])
      && (HasFinalConsonant(word) <==> (word[k] - SBase) % 28 != 0)
  {
    TrimBlank(word);
    if !AllWhitespace(word) {
      var k := LastContent(word);
      UnitHasFinalIff(word[k]);
      assert HasFinalConsonant(word) == UnitHasFinal(word[k]);
    }
  }

  /** The last non-whitespace unit of a word that is not blank ends its trimmed form. */
  lemma LastContent(word: seq<CodeUnit>) returns (k: int)
    requires Trim(word) != []
    ensures 0 <= k < |word| && !IsWhitespace(word[k]) && AllWhitespace(word[k + 1..])
    ensures Trim(word)[|Trim(word)| - 1] == word[k]
  {
    var t := TrimStart(word);
    var r := TrimEnd(t);
    var n := |word| - |t|;
    k := n + |r| - 1;
    TrimEndDropsWhitespace(t);
    assert word[k] == t[|r| - 1] == r[|r| - 1];
    forall j | k + 1 <= j < |word| ensures IsWhitespace(word[j]) {
      assert word[j] == t[j - n];
    }
    assert AllWhitespace(word[k + 1..]);
  }

  /**
   * `checkObjectMarker`: a blank word accepts 을 and nothing else; any
   * other word accepts 을 when the offset of its last non-whitespace unit
   * from SBase is not a multiple of 28, and 를 when it is.
   */
  function CheckObjectMarker(word: seq<CodeUnit>, marker: seq<CodeUnit>): (r: bool)
    ensures AllWhitespace(word) ==> (r <==> marker == Eul)
    ensures !AllWhitespace(word) ==> exists k ::
      && 0 <= k < |word| && !IsWhitespace(word[k]) && AllWhitespace(word[k + 1..])
      && (r <==> marker == (if (word[k] - SBase) % 28 != 0 then Eul else Reul))
    ensures marker != Eul && marker != Reul ==> !r
  {
    HasFinalByLastContent(word);
    marker == (if HasFinalConsonant(word) then Eul else Reul)
  }

  /** The precomposed syllable of leading consonant `l`, vowel `v` and final `t`. */
  function Compose(l: int, v: int, t: int): (s: int)
    requires 0 <= l < LCount && 0 <= v < VCount && 0 <= t < TCount
    ensures SBase <= s < SBase + LCount * VCount * TCount
  {
    SBase + (l * VCount + v) * TCount + t
  }

  /** A syllable's final index is what the source's remainder recovers. */
  lemma ComposeFinal(l: int, v: int, t: int)
    requires 0 <= l < LCount && 0 <= v < VCount && 0 <= t < TCount
    ensures (Compose(l, v, t) - SBase) % TCount == t
  {
    var n := l * VCount + v;
    assert Compose(l, v, t) - SBase == n * TCount + t;
  }

  /** Every precomposed syllable decomposes, so the remainder is its final index. */
  lemma DecomposeSyllable(s: int)
    requires SBase <= s < SBase + LCount * VCount * TCount
    ensures var i := s - SBase;
      && 0 <= i / (VCount * TCount) < LCount
      && s == Compose(i / (VCount * TCount), (i % (VCount * TCount)) / TCount, i % TCount)
  {
    var i := s - SBase;
    var n := VCount * TCount;
    var l, m := i / n, i % n;
    assert i == l * n + m;
    var v, t := m / TCount, m % TCount;
    assert m == v * TCount + t;
    assert i % TCount == t by {
      assert i == (l * VCount + v) * TCount + t;
    }
  }

  lemma TrimStartOfNonWhitespaceEnd(s: seq<CodeUnit>)
    requires s != [] && !IsWhitespace(s[|s| - 1])
    ensures TrimStart(s) != [] && TrimStart(s)[|TrimStart(s)| - 1] == s[|s| - 1]
  {
    var t := TrimStart(s);
    TrimStartDropsWhitespace(s);
    assert |s| - |t| <= |s| - 1;
    assert t[|t| - 1] == s[|s| - 1];
  }

  /** A word that ends in a non-whitespace unit keeps it as the last unit of its trimmed form. */
  lemma TrimKeepsLast(s: seq<CodeUnit>)
    requires s != [] && !IsWhitespace(s[|s| - 1])
    ensures Trim(s) != [] && Trim(s)[|Trim(s)| - 1] == s[|s| - 1]
  {
    TrimStartOfNonWhitespaceEnd(s);
    var t := TrimStart(s);
    assert TrimEnd(t) == t;
  }

  /**
   * For a word ending in the syllable (l, v, t), the check accepts 을
   * exactly when t is not 0 and 를 exactly when t is 0.
   */
  lemma SyllableMarker(prefix: seq<CodeUnit>, l: int, v: int, t: int, marker: seq<CodeUnit>)
    requires 0 <= l < LCount && 0 <= v < VCount && 0 <= t < TCount
    ensures CheckObjectMarker(prefix + [Compose(l, v, t)], marker) <==> marker == (if t != 0 then Eul else Reul)
  {
    TrimKeepsLast(prefix + [Compose(l, v, t)]);
    ComposeHasFinal(l, v, t);
  }

  /** The source's test on a composed syllable is the Unicode final index test. */
  lemma ComposeHasFinal(l: int, v: int, t: int)
    requires 0 <= l < LCount && 0 <= v < VCount && 0 <= t < TCount
    ensures UnitHasFinal(Compose(l, v, t)) <==> t != 0
  {
    ComposeFinal(l, v, t);
    JsRemZero(Compose(l, v, t) - SBase);
  }

  /** A word that is empty or only whitespace takes 을. */
  lemma BlankWordTakesEul(word: seq<CodeUnit>, marker: seq<CodeUnit>)
    requires AllWhitespace(word)
    ensures CheckObjectMarker(word, marker) <==> marker == Eul
  {
    TrimBlank(word);
  }

  lemma {:induction false} TrimStartPadding(ws: seq<CodeUnit>, s: seq<CodeUnit>)
    requires AllWhitespace(ws)
    ensures TrimStart(ws + s) == TrimStart(s)
  {
    if ws != [] {
      assert (ws + s)[0] == ws[0] && IsWhitespace(ws[0]);
      assert (ws + s)[1..] == ws[1..] + s;
      assert AllWhitespace(ws[1..]) by {
        forall i | 0 <= i < |ws| - 1 ensures IsWhitespace(ws[1..][i]) {
          assert ws[1..][i] == ws[i + 1];
        }
      }
      TrimStartPadding(ws[1..], s);
    } else {
      assert ws + s == s;
    }
  }

  lemma {:induction false} TrimEndPadding(s: seq<CodeUnit>, ws: seq<CodeUnit>)
    requires AllWhitespace(ws)
    ensures TrimEnd(s + ws) == TrimEnd(s)
  {
    if ws != [] {
      var n := |ws| - 1;
      assert (s + ws)[|s + ws| - 1] == ws[n] && IsWhitespace(ws[n]);
      assert (s + ws)[..|s + ws| - 1] == s + ws[..n];
      assert AllWhitespace(ws[..n]) by {
        forall i | 0 <= i < n ensures IsWhitespace(ws[..n][i]) {
          assert ws[..n][i] == ws[i];
        }
      }
      TrimEndPadding(s, ws[..n]);
    } else {
      assert s + ws == s;
    }
  }

  /** Trailing whitespace passes through the leading trim of a word that has content. */
  lemma {:induction false} TrimStartAppend(s: seq<CodeUnit>, ws: seq<CodeUnit>)
    requires AllWhitespace(ws)
    ensures TrimStart(s) != [] ==> TrimStart(s + ws) == TrimStart(s) + ws
    ensures TrimStart(s) == [] ==> TrimStart(s + ws) == []
  {
    if s == [] {
      assert s + ws == ws;
      TrimStartPadding(ws, []);
      assert ws + [] == ws;
    } else if IsWhitespace(s[0]) {
      assert (s + ws)[0] == s[0];
      assert (s + ws)[1..] == s[1..] + ws;
      TrimStartAppend(s[1..], ws);
    } else {
      assert (s + ws)[0] == s[0];
      assert TrimStart(s) == s;
    }
  }

  /** Surrounding whitespace does not change the trimmed word. */
  lemma TrimPadding(lead: seq<CodeUnit>, word: seq<CodeUnit>, trail: seq<CodeUnit>)
    requires AllWhitespace(lead) && AllWhitespace(trail)
    ensures Trim(lead + word + trail) == Trim(word)
  {
    var t := TrimStart(word);
    var w := word + trail;
    assert lead + word + trail == lead + w;
    TrimStartPadding(lead, w);
    assert Trim(lead + word + trail) == TrimEnd(TrimStart(w));
    TrimStartAppend(word, trail);
    if t != [] {
      assert TrimStart(w) == t + trail;
      TrimEndPadding(t, trail);
    } else {
      assert TrimStart(w) == [];
    }
  }

  /** Surrounding whitespace does not change the verdict. */
  lemma CheckIgnoresPadding(lead: seq<CodeUnit>, word: seq<CodeUnit>, trail: seq<CodeUnit>, marker: seq<CodeUnit>)
    requires AllWhitespace(lead) && AllWhitespace(trail)
    ensures CheckObjectMarker(lead + word + trail, marker) == CheckObjectMarker(word, marker)
  {
    TrimPadding(lead, word, trail);
  }

  /** Only the last unit of the trimmed word matters, whatever it is. */
  lemma LastUnitDecides(w1: seq<CodeUnit>, w2: seq<CodeUnit>, marker: seq<CodeUnit>)
    requires Trim(w1) != [] && Trim(w2) != []
    requires Trim(w1)[|Trim(w1)| - 1] == Trim(w2)[|Trim(w2)| - 1]
    ensures CheckObjectMarker(w1, marker) == CheckObjectMarker(w2, marker)
  {
  }

  /**
   * With no range check, any last unit, Hangul or not, is judged by whether
   * its offset from SBase is a multiple of 28, with Euclidean remainder.
   */
  lemma AnyUnitByRemainder(prefix: seq<CodeUnit>, c: CodeUnit, marker: seq<CodeUnit>)
    requires !IsWhitespace(c)
    ensures CheckObjectMarker(prefix + [c], marker) <==>
      marker == (if (c - SBase) % 28 != 0 then Eul else Reul)
  {
    TrimKeepsLast(prefix + [c]);
    UnitHasFinalIff(c);
  }

  /** The source's test, stated with Euclidean remainder. */
  lemma UnitHasFinalIff(c: CodeUnit)
    ensures UnitHasFinal(c) <==> (c - SBase) % 28 != 0
  {
    JsRemZero(c - SBase);
  }
}
