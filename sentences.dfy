/** `split_sentences` (app.py:19-24): collapse whitespace, strip, split after
    a sentence marker that is followed by whitespace, strip every part and
    keep the parts of at least three characters. */
module Sentences {
  import opened Lexicon

  /** No whitespace at either end, as `str.strip()` leaves a string. */
  predicate Trimmed(s: string)
  {
    s == [] || (!IsSpace(s[0]) && !IsSpace(s[|s| - 1]))
  }

  /** The only whitespace is single spaces. */
  predicate SingleSpaced(s: string)
  {
    && (forall j :: 0 <= j < |s| && IsSpace(s[j]) ==> s[j] == ' ')
    && (forall j :: 0 <= j < |s| - 1 && s[j] == ' ' ==> s[j + 1] != ' ')
  }

  /** The characters of `s` that are not whitespace. */
  function Visible(s: string): string
  {
    if s == [] then [] else (if IsSpace(s[0]) then [] else [s[0]]) + Visible(s[1..])
  }

  /** `re.sub(r'\s+', ' ', s)`: every maximal whitespace run becomes one space.
      `inRun` says that the character before `s` was whitespace. */
  function CollapseFrom(s: string, inRun: bool): (r: string)
    ensures SingleSpaced(r)
    ensures inRun && r != [] ==> r[0] != ' '
    ensures |r| <= |s|
  {
    if s == [] then []
    else CollapseHead(s[0], inRun) + CollapseFrom(s[1..], IsSpace(s[0]))
  }

  function Collapse(s: string): (r: string)
  {
    CollapseFrom(s, false)
  }

  /** Collapsing touches whitespace only: the other characters survive, in order. */
  lemma {:induction false} CollapseKeepsVisible(s: string, inRun: bool)
    ensures Visible(CollapseFrom(s, inRun)) == Visible(s)
  {
    if s != [] {
      CollapseKeepsVisible(s[1..], IsSpace(s[0]));
      var r := CollapseFrom(s, inRun);
      var head := if IsSpace(s[0]) then (if inRun then [] else [' ']) else [s[0]];
      var tail := CollapseFrom(s[1..], IsSpace(s[0]));
      assert r == head + tail;
      VisibleAppend(head, tail);
    }
  }

  lemma {:induction false} VisibleAppend(a: string, b: string)
    ensures Visible(a + b) == Visible(a) + Visible(b)
  {
    if a != [] {
      assert (a + b)[0] == a[0] && (a + b)[1..] == a[1..] + b;
      VisibleAppend(a[1..], b);
    } else {
      assert a + b == b;
    }
  }

  /** Collapsing works piece by piece: the second piece starts in a run
      exactly when the first ends in whitespace. */
  lemma {:induction false} CollapseAppend(a: string, b: string, inRun: bool)
    ensures CollapseFrom(a + b, inRun)
      == CollapseFrom(a, inRun) + CollapseFrom(b, if a == [] then inRun else IsSpace(a[|a| - 1]))
  {
    if a == [] {
      assert a + b == b;
    } else {
      var h, sp := CollapseHead(a[0], inRun), IsSpace(a[0]);
      var x, y := CollapseFrom(a[1..], sp), CollapseFrom(b, IsSpace(a[|a| - 1]));
      CollapseUnfold(a, b, inRun);
      CollapseAppend(a[1..], b, sp);
      Associative(h, x, y);
    }
  }

  /** Concatenation is associative (kept apart so that the step is proved
      in a small context). */
  lemma Associative<T>(h: seq<T>, x: seq<T>, y: seq<T>)
    ensures h + (x + y) == (h + x) + y
  {
  }

  /** One step of CollapseFrom on `a` and on `a + b`. */
  lemma CollapseUnfold(a: string, b: string, inRun: bool)
    requires a != []
    ensures CollapseFrom(a + b, inRun) == CollapseHead(a[0], inRun) + CollapseFrom(a[1..] + b, IsSpace(a[0]))
    ensures CollapseFrom(a, inRun) == CollapseHead(a[0], inRun) + CollapseFrom(a[1..], IsSpace(a[0]))
    ensures (if a[1..] == [] then IsSpace(a[0]) else IsSpace(a[1..][|a| - 2])) == IsSpace(a[|a| - 1])
  {
    assert (a + b)[0] == a[0] && (a + b)[1..] == a[1..] + b;
  }

  /** What the first character of a string becomes. */
  function CollapseHead(c: char, inRun: bool): (h: string)
    ensures |h| <= 1
  {
    if !IsSpace(c) then [c] else if inRun then [] else [' ']
  }

  /** A whitespace run collapses to one space, or to nothing when it
      continues a run. */
  lemma {:induction false} CollapseSpaces(w: string, inRun: bool)
    requires forall j :: 0 <= j < |w| ==> IsSpace(w[j])
    ensures CollapseFrom(w, inRun) == if inRun || w == [] then [] else " "
  {
    if w != [] {
      CollapseSpaces(w[1..], true);
    }
  }

  /** A run that ends before a character other than whitespace has no
      effect on what follows. */
  lemma CollapseAfterRun(y: string)
    requires y == [] || !IsSpace(y[0])
    ensures CollapseFrom(y, true) == CollapseFrom(y, false)
  {
  }

  /** `re.sub(r'\s+', ' ', x + w + y)` for a whitespace run `w` between
      two characters that are not whitespace: the run becomes one space and
      the two sides collapse independently. */
  lemma CollapseRun(x: string, w: string, y: string)
    requires x == [] || !IsSpace(x[|x| - 1])
    requires w != [] && forall j :: 0 <= j < |w| ==> IsSpace(w[j])
    requires y == [] || !IsSpace(y[0])
    ensures Collapse(x + w + y) == Collapse(x) + " " + Collapse(y)
  {
    Associative(x, w, y);
    CollapseAppend(x, w + y, false);
    CollapseAppend(w, y, false);
    assert IsSpace(w[|w| - 1]);
    CollapseSpaces(w, false);
    CollapseAfterRun(y);
    Associative(Collapse(x), " ", Collapse(y));
  }

  function LeadingSpaces(s: string): (n: nat)
    ensures n <= |s|
    ensures forall j :: 0 <= j < n ==> IsSpace(s[j])
    ensures n < |s| ==> !IsSpace(s[n])
  {
    if s != [] && IsSpace(s[0]) then 1 + LeadingSpaces(s[1..]) else 0
  }

  function TrailingSpaces(s: string): (n: nat)
    ensures n <= |s|
    ensures forall j :: |s| - n <= j < |s| ==> IsSpace(s[j])
    ensures n < |s| ==> !IsSpace(s[|s| - 1 - n])
  {
    if s != [] && IsSpace(s[|s| - 1]) then 1 + TrailingSpaces(s[..|s| - 1]) else 0
  }

  /** Cutting the leading and then the trailing whitespace leaves no
      whitespace at either end. */
  lemma StripEnds(s: string, a: nat, t: string)
    requires a == LeadingSpaces(s) && t == s[a..]
    ensures Trimmed(t[..|t| - TrailingSpaces(t)])
  {
    var n := |t| - TrailingSpaces(t);
    var r := t[..n];
    if r != [] {
      assert r[0] == s[a];
      assert r[n - 1] == t[|t| - 1 - TrailingSpaces(t)];
    }
  }

  /** What the trailing cut leaves is a slice of `s`, with only whitespace
      after it. */
  lemma StripTail(s: string, a: nat, t: string)
    requires a <= |s| && t == s[a..]
    ensures var n := |t| - TrailingSpaces(t);
      && t[..n] == s[a..a + n]
      && forall j :: a + n <= j < |s| ==> IsSpace(s[j])
  {
    var n := |t| - TrailingSpaces(t);
    forall j | a + n <= j < |s| ensures IsSpace(s[j]) {
      assert s[j] == t[j - a];
    }
  }

  /** `str.strip()`: `s` without its leading and trailing whitespace. The
      result is the slice s[a..a+|r|] and only whitespace lies outside it. */
  function Strip(s: string): (r: string)
    ensures Trimmed(r)
    ensures LeadingSpaces(s) + |r| <= |s| && r == s[LeadingSpaces(s)..LeadingSpaces(s) + |r|]
    ensures forall j :: 0 <= j < LeadingSpaces(s) ==> IsSpace(s[j])
    ensures forall j :: LeadingSpaces(s) + |r| <= j < |s| ==> IsSpace(s[j])
  {
    var t := s[LeadingSpaces(s)..];
    StripEnds(s, LeadingSpaces(s), t);
    StripTail(s, LeadingSpaces(s), t);
    t[..|t| - TrailingSpaces(t)]
  }

  /** `re.sub(r'\s+', ' ', text).strip()` (app.py:22). */
  function Normalize(text: string): (r: string)
    ensures Trimmed(r) && SingleSpaced(r)
  {
    var c := Collapse(text);
    var r := Strip(c);
    assert forall j :: 0 <= j < |r| ==> r[j] == c[LeadingSpaces(c) + j];
    r
  }

  /** Normalising touches whitespace only: the other characters survive,
      in order. */
  lemma NormalizeKeepsVisible(text: string)
    ensures Visible(Normalize(text)) == Visible(text)
  {
    var c := Collapse(text);
    var r := Normalize(text);
    var a := LeadingSpaces(c);
    assert c == c[..a] + r + c[a + |r|..];
    AllSpaceVisible(c[..a]);
    AllSpaceVisible(c[a + |r|..]);
    VisibleAppend(c[..a], r);
    VisibleAppend(c[..a] + r, c[a + |r|..]);
    CollapseKeepsVisible(text, false);
  }

  /** The regex `(?<=[\.\!\?\。\?!]|다)\s+` of app.py:23 matches at `j`. On
      normalised text every whitespace run is one space, so the match is the
      single space at `j`, with a marker just before it. */
  predicate IsCut(t: string, j: int)
  {
    0 < j < |t| && t[j] == ' ' && IsMarker(t[j - 1])
  }

  /** The first cut at or after `from`, or |t| when there is none. */
  function NextCut(t: string, from: nat): (c: nat)
    requires from <= |t|
    ensures from <= c <= |t|
    ensures c < |t| ==> IsCut(t, c)
    ensures forall j :: from <= j < c ==> !IsCut(t, j)
    decreases |t| - from
  {
    if from == |t| || IsCut(t, from) then from else NextCut(t, from + 1)
  }

  /** `re.split` at every cut: the pieces between the cuts, in order. */
  function Split(t: string): (parts: seq<string>)
    ensures |parts| >= 1
    decreases |t|
  {
    var c := NextCut(t, 0);
    if c == |t| then [t] else [t[..c]] + Split(t[c + 1..])
  }

  /** The pieces glued back together with one space each. */
  function JoinWithSpaces(parts: seq<string>): string
  {
    if parts == [] then [] else if |parts| == 1 then parts[0] else parts[0] + " " + JoinWithSpaces(parts[1..])
  }

  lemma {:induction false} CutsOfSuffix(t: string, c: nat, j: int)
    requires c < |t| && t[c] == ' '
    requires IsCut(t[c + 1..], j)
    ensures IsCut(t, c + 1 + j)
  {
  }

  /** The pieces give back the text: joining them with the removed spaces
      reproduces it. */
  lemma {:induction false} SplitJoins(t: string)
    ensures JoinWithSpaces(Split(t)) == t
    decreases |t|
  {
    var c := NextCut(t, 0);
    if c < |t| {
      var rest := t[c + 1..];
      SplitJoins(rest);
      assert Split(t) == [t[..c]] + Split(rest);
      assert t == t[..c] + " " + rest;
    }
  }

  /** Every piece but the last is non-empty and ends with a marker, and no
      piece contains a cut: together with SplitJoins this pins the pieces down. */
  lemma SplitPieces(t: string)
    ensures forall k :: 0 <= k < |Split(t)| - 1 ==> |Split(t)[k]| > 0 && IsMarker(Split(t)[k][|Split(t)[k]| - 1])
    ensures forall k, j :: 0 <= k < |Split(t)| ==> !IsCut(Split(t)[k], j)
  {
    PiecesEndWithMarker(t);
    PiecesHaveNoCut(t);
  }

  lemma {:induction false} PiecesEndWithMarker(t: string)
    ensures forall k :: 0 <= k < |Split(t)| - 1 ==> |Split(t)[k]| > 0 && IsMarker(Split(t)[k][|Split(t)[k]| - 1])
    decreases |t|
  {
    var c := NextCut(t, 0);
    if c < |t| {
      var rest := t[c + 1..];
      PiecesEndWithMarker(rest);
      var parts := Split(t);
      assert parts == [t[..c]] + Split(rest);
      forall k | 1 <= k < |parts| ensures parts[k] == Split(rest)[k - 1] {}
    }
  }

  lemma {:induction false} PiecesHaveNoCut(t: string)
    ensures forall k, j :: 0 <= k < |Split(t)| ==> !IsCut(Split(t)[k], j)
    decreases |t|
  {
    var parts := Split(t);
    var c := NextCut(t, 0);
    if c == |t| {
      assert parts == [t];
    } else {
      var rest := t[c + 1..];
      PiecesHaveNoCut(rest);
      assert parts == [t[..c]] + Split(rest);
      forall j ensures !IsCut(t[..c], j) {
        if IsCut(t[..c], j) { assert IsCut(t, j); }
      }
      forall k | 1 <= k < |parts| ensures parts[k] == Split(rest)[k - 1] {}
    }
  }

  /** `[p.strip() for p in parts if len(p.strip()) >= 3]` (app.py:24). */
  function KeepSentences(parts: seq<string>): (r: seq<string>)
    ensures |r| <= |parts|
    ensures forall k :: 0 <= k < |r| ==> |r[k]| >= 3 && Trimmed(r[k])
  {
    if parts == [] then []
    else
      var p := Strip(parts[0]);
      (if |p| >= 3 then [p] else []) + KeepSentences(parts[1..])
  }

  /** Keeping works part by part, so the kept sentences are in the order of
      their parts. */
  lemma {:induction false} KeepSentencesAppend(a: seq<string>, b: seq<string>)
    ensures KeepSentences(a + b) == KeepSentences(a) + KeepSentences(b)
  {
    if a == [] {
      assert a + b == b;
    } else {
      assert (a + b)[0] == a[0] && (a + b)[1..] == a[1..] + b;
      KeepSentencesAppend(a[1..], b);
      var p := Strip(a[0]);
      Associative(if |p| >= 3 then [p] else [], KeepSentences(a[1..]), KeepSentences(b));
    }
  }

  /** A sentence is kept exactly when it is the stripped form, of at least
      three characters, of one of the parts. */
  lemma {:induction false} KeepSentencesMembers(parts: seq<string>)
    ensures forall k :: 0 <= k < |parts| && |Strip(parts[k])| >= 3 ==> Strip(parts[k]) in KeepSentences(parts)
    ensures forall x :: x in KeepSentences(parts) ==>
      exists k :: 0 <= k < |parts| && |Strip(parts[k])| >= 3 && x == Strip(parts[k])
  {
    if parts != [] {
      KeepSentencesMembers(parts[1..]);
      var r := KeepSentences(parts);
      var rest := KeepSentences(parts[1..]);
      assert r == (if |Strip(parts[0])| >= 3 then [Strip(parts[0])] else []) + rest;
      forall k | 1 <= k < |parts| && |Strip(parts[k])| >= 3 ensures Strip(parts[k]) in r {
        assert parts[k] == parts[1..][k - 1];
      }
      forall x | x in r
        ensures exists k :: 0 <= k < |parts| && |Strip(parts[k])| >= 3 && x == Strip(parts[k])
      {
        if x in rest {
          var k :| 0 <= k < |parts[1..]| && |Strip(parts[1..][k])| >= 3 && x == Strip(parts[1..][k]);
          assert parts[k + 1] == parts[1..][k];
        } else {
          assert |Strip(parts[0])| >= 3 && x == Strip(parts[0]);
        }
      }
    }
  }

  /** `split_sentences(text)`: every sentence has at least three characters
      and no whitespace at either end; the empty text has none. */
  function SplitSentences(text: string): (r: seq<string>)
    ensures forall k :: 0 <= k < |r| ==> |r[k]| >= 3 && Trimmed(r[k])
    ensures text == [] ==> r == []
  {
    if text == [] then [] else KeepSentences(Split(Normalize(text)))
  }

  /** The sentences of a text are exactly the stripped pieces of at least
      three characters of its normalised form, split at the sentence marks. */
  lemma SplitSentencesMembers(text: string)
    ensures var parts := Split(Normalize(text));
      forall x :: x in SplitSentences(text) <==>
        exists k :: 0 <= k < |parts| && |Strip(parts[k])| >= 3 && x == Strip(parts[k])
  {
    SentencesAreKept(text);
    KeepSentencesMembers(Split(Normalize(text)));
  }

  /** Also the empty text gives what its pieces give. */
  lemma SentencesAreKept(text: string)
    ensures SplitSentences(text) == KeepSentences(Split(Normalize(text)))
  {
    if text == [] {
      assert Normalize(text) == [];
      NoSentencesInEmpty();
    }
  }

  lemma {:induction false} VisibleEmpty(s: string)
    requires Visible(s) == []
    ensures forall j :: 0 <= j < |s| ==> IsSpace(s[j])
  {
    if s != [] {
      VisibleEmpty(s[1..]);
      assert forall j :: 1 <= j < |s| ==> s[j] == s[1..][j - 1];
    }
  }

  lemma {:induction false} AllSpaceVisible(s: string)
    requires forall j :: 0 <= j < |s| ==> IsSpace(s[j])
    ensures Visible(s) == []
  {
    if s != [] { AllSpaceVisible(s[1..]); }
  }

  /** A text of whitespace only has no sentences. */
  lemma BlankTextHasNoSentences(text: string)
    requires forall j :: 0 <= j < |text| ==> IsSpace(text[j])
    ensures SplitSentences(text) == []
  {
    if text != [] {
      BlankNormalizesEmpty(text);
      NoSentencesInEmpty();
    }
  }

  lemma BlankNormalizesEmpty(text: string)
    requires forall j :: 0 <= j < |text| ==> IsSpace(text[j])
    ensures Normalize(text) == []
  {
    var c := Collapse(text);
    AllSpaceVisible(text);
    CollapseKeepsVisible(text, false);
    VisibleEmpty(c);
    assert LeadingSpaces(c) == |c|;
  }

  lemma NoSentencesInEmpty()
    ensures KeepSentences(Split([])) == []
  {
    assert NextCut([], 0) == 0;
    assert Split([]) == [[]];
    assert KeepSentences([[]]) == [] + KeepSentences([]);
  }
}
