/** `tokenize` (app.py:26-27) with WORD_PATTERN (app.py:16), written as a
    hand scanner. The pattern has three alternatives, which start with
    disjoint characters, so at each position at most one can match:
      - Word:   `[A-Za-z]+(?:'[A-Za-z]+)?`
      - Number: `[0-9]+(?:\.[0-9]+)?`
      - Hangul: `[가-힣]+`
    Each is a maximal run of its class, optionally (Word, Number) followed
    by a joiner (`'` or `.`) and a second maximal run. `finditer` skips a
    character at which no alternative matches. */
module Tokenizer {
  import opened Strings
  import opened Lexicon

  datatype Class = Word | Number | Hangul

  predicate InClass(c: char, k: Class)
  {
    match k
    case Word => IsLatin(c)
    case Number => IsDigit(c)
    case Hangul => IsHangul(c)
  }

  /** The character that may join two runs inside one token of class `k`. */
  predicate IsJoiner(c: char, k: Class)
  {
    (k == Word && c == '\'') || (k == Number && c == '.')
  }

  /** Some alternative of the pattern can start at `c`. */
  predicate IsTokenStart(c: char)
  {
    IsLatin(c) || IsDigit(c) || IsHangul(c)
  }

  function ClassOf(c: char): (k: Class)
    requires IsTokenStart(c)
    ensures InClass(c, k)
    ensures forall k' :: InClass(c, k') ==> k' == k
  {
    if IsLatin(c) then Word else if IsDigit(c) then Number else Hangul
  }

  /** End of the maximal run of class-`k` characters that starts at `i`. */
  function RunEnd(s: string, k: Class, i: nat): (e: nat)
    requires i <= |s|
    ensures i <= e <= |s|
    ensures forall j :: i <= j < e ==> InClass(s[j], k)
    ensures e < |s| ==> !InClass(s[e], k)
    decreases |s| - i
  {
    if i < |s| && InClass(s[i], k) then RunEnd(s, k, i + 1) else i
  }

  /** End of the token of class `k` that starts at `i`: the greedy match of
      that alternative. */
  function TokenEnd(s: string, k: Class, i: nat): (e: nat)
    requires i < |s| && InClass(s[i], k)
    ensures i < e <= |s|
  {
    var e1 := RunEnd(s, k, i);
    if e1 + 1 < |s| && IsJoiner(s[e1], k) && InClass(s[e1 + 1], k) then RunEnd(s, k, e1 + 1) else e1
  }

  /** A token of class `cls` occupies s[start..end]. */
  datatype Span = Span(start: nat, end: nat, cls: Class)

  /** The matches `finditer` reports from position `i` on. */
  function SpansFrom(s: string, i: nat): (r: seq<Span>)
    requires i <= |s|
    ensures forall k :: 0 <= k < |r| ==> i <= r[k].start < r[k].end <= |s|
    ensures forall k :: 0 <= k < |r| - 1 ==> r[k].end <= r[k + 1].start
    decreases |s| - i
  {
    if i == |s| then []
    else if !IsTokenStart(s[i]) then SpansFrom(s, i + 1)
    else
      var k := ClassOf(s[i]);
      [Span(i, TokenEnd(s, k, i), k)] + SpansFrom(s, TokenEnd(s, k, i))
  }

  function Spans(s: string): (r: seq<Span>)
    ensures forall k :: 0 <= k < |r| ==> r[k].start < r[k].end <= |s|
  {
    SpansFrom(s, 0)
  }

  /** `tokenize(text)`: the matched substrings, left to right. */
  function Tokenize(s: string): (toks: seq<string>)
    ensures |toks| == |Spans(s)|
    ensures forall k :: 0 <= k < |toks| ==> toks[k] == s[Spans(s)[k].start..Spans(s)[k].end]
  {
    var sp := Spans(s);
    seq(|sp|, k requires 0 <= k < |sp| => s[sp[k].start..sp[k].end])
  }

  /** `t` is a whole match of the alternative for class `k`: non-empty,
      it starts and ends with a class character, every other character is
      of the class or the joiner, and there is at most one joiner. */
  predicate Shape(t: string, k: Class)
  {
    && |t| > 0
    && InClass(t[0], k)
    && InClass(t[|t| - 1], k)
    && (forall j :: 0 <= j < |t| ==> InClass(t[j], k) || IsJoiner(t[j], k))
    && (forall j, m :: 0 <= j < m < |t| && IsJoiner(t[j], k) ==> !IsJoiner(t[m], k))
  }

  predicate HasJoiner(t: string, k: Class)
  {
    exists j :: 0 <= j < |t| && IsJoiner(t[j], k)
  }

  /** Position `j` of `s` continues a run: s[j-1] and s[j] are of one class. */
  predicate Continues(s: string, j: int)
  {
    0 < j < |s| && exists k :: InClass(s[j - 1], k) && InClass(s[j], k)
  }

  /** The span could be made longer by the character after it: one of its
      class, or (when it has no joiner yet) a joiner followed by one of its
      class. */
  predicate Extendable(s: string, sp: Span)
    requires sp.start <= sp.end <= |s|
  {
    var k := sp.cls;
    sp.end < |s| &&
    (InClass(s[sp.end], k) ||
     (!HasJoiner(s[sp.start..sp.end], k) && sp.end + 1 < |s| && IsJoiner(s[sp.end], k) && InClass(s[sp.end + 1], k)))
  }

  /** Position `j` lies inside one of the spans. */
  predicate Covered(r: seq<Span>, j: int)
  {
    exists k :: 0 <= k < |r| && r[k].start <= j < r[k].end
  }

  predicate InBounds(s: string, r: seq<Span>)
  {
    forall k :: 0 <= k < |r| ==> r[k].start < r[k].end <= |s|
  }

  /** Each span holds a string of the shape of its class. */
  predicate AllShaped(s: string, r: seq<Span>)
    requires InBounds(s, r)
  {
    forall k :: 0 <= k < |r| ==> Shape(s[r[k].start..r[k].end], r[k].cls)
  }

  /** No span starts in the middle of a run of its class. */
  predicate NoneContinued(s: string, r: seq<Span>)
  {
    forall k :: 0 <= k < |r| ==> !Continues(s, r[k].start)
  }

  /** No span could be extended to the right. */
  predicate NoneExtendable(s: string, r: seq<Span>)
    requires InBounds(s, r)
  {
    forall k :: 0 <= k < |r| ==> !Extendable(s, r[k])
  }

  /** Every character from `i` on that could start a token lies in a span. */
  predicate CoversFrom(s: string, i: nat, r: seq<Span>)
  {
    forall j :: i <= j < |s| && IsTokenStart(s[j]) ==> Covered(r, j)
  }

  lemma ClassesDisjoint(c: char, k: Class, k': Class)
    requires InClass(c, k) && InClass(c, k')
    ensures k == k'
  {
  }

  lemma JoinerNotInClass(c: char, k: Class, k': Class)
    requires IsJoiner(c, k)
    ensures !InClass(c, k') && !IsTokenStart(c)
  {
  }

  /** The token found at `i` has the shape of its class and cannot be extended. */
  lemma TokenEndFacts(s: string, k: Class, i: nat)
    requires i < |s| && InClass(s[i], k)
    ensures Shape(s[i..TokenEnd(s, k, i)], k)
    ensures !Extendable(s, Span(i, TokenEnd(s, k, i), k))
    ensures InClass(s[TokenEnd(s, k, i) - 1], k)
  {
    var e1 := RunEnd(s, k, i);
    var e := TokenEnd(s, k, i);
    var t := s[i..e];
    if e1 + 1 < |s| && IsJoiner(s[e1], k) && InClass(s[e1 + 1], k) {
      assert e == RunEnd(s, k, e1 + 1);
      forall j | 0 <= j < |t| ensures InClass(t[j], k) || IsJoiner(t[j], k) {
        assert t[j] == s[i + j];
      }
      forall j, m | 0 <= j < m < |t| && IsJoiner(t[j], k) ensures !IsJoiner(t[m], k) {
        assert t[j] == s[i + j] && t[m] == s[i + m];
        if i + j != e1 { JoinerNotInClass(s[i + j], k, k); }
        if i + m != e1 { assert InClass(s[i + m], k); JoinerNotInClass(s[e1], k, k); }
      }
      assert t[e1 - i] == s[e1];
      assert HasJoiner(t, k);
      assert t[|t| - 1] == s[e - 1];
    } else {
      assert e == e1;
      forall j | 0 <= j < |t| ensures InClass(t[j], k) {
        assert t[j] == s[i + j];
      }
      forall j | 0 <= j < |t| ensures !IsJoiner(t[j], k) {
        assert InClass(t[j], k);
        if IsJoiner(t[j], k) { JoinerNotInClass(t[j], k, k); }
      }
      assert !HasJoiner(t, k);
      assert t[|t| - 1] == s[e - 1];
    }
  }

  /** The span at `i` followed by the spans of the rest keeps the three
      per-span facts. */
  lemma ConsSpanFacts(s: string, sp: Span, rest: seq<Span>)
    requires sp.start < sp.end <= |s| && InBounds(s, rest)
    requires Shape(s[sp.start..sp.end], sp.cls) && !Continues(s, sp.start) && !Extendable(s, sp)
    requires AllShaped(s, rest) && NoneContinued(s, rest) && NoneExtendable(s, rest)
    ensures InBounds(s, [sp] + rest)
    ensures AllShaped(s, [sp] + rest) && NoneContinued(s, [sp] + rest) && NoneExtendable(s, [sp] + rest)
  {
    var r := [sp] + rest;
    forall q | 0 <= q < |r| ensures r[q] == if q == 0 then sp else rest[q - 1] {}
  }

  lemma ConsCovers(s: string, i: nat, sp: Span, rest: seq<Span>)
    requires sp.start == i < sp.end <= |s|
    requires CoversFrom(s, sp.end, rest)
    ensures CoversFrom(s, i, [sp] + rest)
  {
    var r := [sp] + rest;
    forall j | i <= j < |s| && IsTokenStart(s[j]) ensures Covered(r, j) {
      if j < sp.end {
        assert r[0].start <= j < r[0].end;
      } else {
        assert Covered(rest, j);
        var q :| 0 <= q < |rest| && rest[q].start <= j < rest[q].end;
        assert r[q + 1] == rest[q];
      }
    }
  }

  /** The scan from `i` meets all four facts, provided it does not start in
      the middle of a run. */
  lemma {:induction false} SpansFromFacts(s: string, i: nat)
    requires i <= |s|
    requires !Continues(s, i)
    ensures InBounds(s, SpansFrom(s, i))
    ensures AllShaped(s, SpansFrom(s, i)) && NoneContinued(s, SpansFrom(s, i))
    ensures NoneExtendable(s, SpansFrom(s, i)) && CoversFrom(s, i, SpansFrom(s, i))
    decreases |s| - i
  {
    if i == |s| {
    } else if !IsTokenStart(s[i]) {
      assert !Continues(s, i + 1);
      SpansFromFacts(s, i + 1);
    } else {
      var k := ClassOf(s[i]);
      var e := TokenEnd(s, k, i);
      TokenEndFacts(s, k, i);
      SpansFromFacts(s, e);
      assert SpansFrom(s, i) == [Span(i, e, k)] + SpansFrom(s, e);
      ConsSpanFacts(s, Span(i, e, k), SpansFrom(s, e));
      ConsCovers(s, i, Span(i, e, k), SpansFrom(s, e));
    }
  }

  /** The tokenizer's promise: its matches are non-empty, ordered and
      non-overlapping substrings of `s`; each has the shape of one lexical
      class; none starts inside or can be extended by a run of its own
      class; and every character that could start a token lies inside one. */
  lemma TokenizeCharacterization(s: string)
    ensures InBounds(s, Spans(s))
    ensures forall k :: 0 <= k < |Spans(s)| - 1 ==> Spans(s)[k].end <= Spans(s)[k + 1].start
    ensures AllShaped(s, Spans(s)) && NoneContinued(s, Spans(s))
    ensures NoneExtendable(s, Spans(s)) && CoversFrom(s, 0, Spans(s))
  {
    SpansFromFacts(s, 0);
  }

  /** Every token is a non-empty substring of the text it came from. */
  lemma TokensOccur(s: string, t: string)
    requires t in Tokenize(s)
    ensures |t| > 0 && Contains(s, t)
  {
    var toks := Tokenize(s);
    var k :| 0 <= k < |toks| && toks[k] == t;
    var sp := Spans(s)[k];
    assert OccursAt(s, t, sp.start);
  }

  /** The tokens are exactly strings of the lexical classes. */
  lemma TokensHaveShape(s: string, t: string)
    requires t in Tokenize(s)
    ensures exists k :: Shape(t, k)
  {
    TokenizeCharacterization(s);
    var toks := Tokenize(s);
    var q :| 0 <= q < |toks| && toks[q] == t;
    assert Shape(t, Spans(s)[q].cls);
  }

  lemma {:induction false} RunEndReaches(s: string, k: Class, i: nat, m: nat)
    requires i <= m <= |s|
    requires forall j :: i <= j < m ==> InClass(s[j], k)
    requires m == |s| || !InClass(s[m], k)
    ensures RunEnd(s, k, i) == m
    decreases m - i
  {
    if i < m { RunEndReaches(s, k, i + 1, m); }
  }

  /** Tokenizing a single token gives back that token: tokenization is
      idempotent on its own output. */
  lemma TokenRescans(t: string, k: Class)
    requires Shape(t, k)
    ensures Tokenize(t) == [t]
  {
    assert ClassOf(t[0]) == k;
    var e := TokenEnd(t, k, 0);
    if HasJoiner(t, k) {
      var p :| 0 <= p < |t| && IsJoiner(t[p], k);
      JoinerNotInClass(t[p], k, k);
      forall j | 0 <= j < p ensures InClass(t[j], k) {
      }
      RunEndReaches(t, k, 0, p);
      forall j | p + 1 <= j < |t| ensures InClass(t[j], k) {
      }
      RunEndReaches(t, k, p + 1, |t|);
      assert e == |t|;
    } else {
      forall j | 0 <= j < |t| ensures InClass(t[j], k) {
      }
      RunEndReaches(t, k, 0, |t|);
      assert e == |t|;
    }
    assert SpansFrom(t, |t|) == [];
    assert Spans(t) == [Span(0, |t|, k)];
    assert t[0..|t|] == t;
  }

  lemma TokenizeIdempotent(s: string, t: string)
    requires t in Tokenize(s)
    ensures Tokenize(t) == [t]
  {
    TokensHaveShape(s, t);
    var k :| Shape(t, k);
    TokenRescans(t, k);
  }
}
