/** `score_tokens` (app.py:29-38): count the non-stop-word tokens of all
    sentences and rank the distinct terms by `freq + len/4`, highest first.
    The score is kept as the integer `4 * freq + len`, four times the
    source's float, which orders terms the same way. */
module Scoring {
  import opened Lexicon
  import opened Tokenizer

  datatype ScoredTerm = ScoredTerm(term: string, score: int)

  /** The tokens of all sentences, in order (the `tokens.extend` loop). */
  function AllTokens(sents: seq<string>): seq<string>
  {
    if sents == [] then [] else AllTokens(sents[..|sents| - 1]) + Tokenize(sents[|sents| - 1])
  }

  /** `t.lower() not in STOPWORDS`: stop words are matched case-insensitively. */
  predicate IsContent(t: string)
  {
    Lower(t) !in StopWords
  }

  /** `[t for t in tokens if t.lower() not in STOPWORDS]` */
  function ContentTokens(tokens: seq<string>): (r: seq<string>)
    ensures forall t :: multiset(r)[t] == if IsContent(t) then multiset(tokens)[t] else 0
  {
    if tokens == [] then []
    else
      var last := tokens[|tokens| - 1];
      assert tokens == tokens[..|tokens| - 1] + [last];
      ContentTokens(tokens[..|tokens| - 1]) + (if IsContent(last) then [last] else [])
  }

  /** `f + len(t)/4`, scaled by four. */
  function Score(freq: nat, t: string): int
  {
    4 * freq + |t|
  }

  predicate SortedDesc(r: seq<ScoredTerm>)
  {
    forall a, b :: 0 <= a < b < |r| ==> r[a].score >= r[b].score
  }

  predicate DistinctTerms(r: seq<ScoredTerm>)
  {
    forall a, b :: 0 <= a < b < |r| ==> r[a].term != r[b].term
  }

  /** The ranked terms, without their scores. */
  function Terms(r: seq<ScoredTerm>): (ts: seq<string>)
    ensures |ts| == |r| && forall k :: 0 <= k < |r| ==> ts[k] == r[k].term
  {
    seq(|r|, k requires 0 <= k < |r| => r[k].term)
  }

  predicate Distinct(s: seq<string>)
  {
    forall a, b :: 0 <= a < b < |s| ==> s[a] != s[b]
  }

  /** Insert `x` before the first element whose score does not exceed its
      own, so that among equal scores the earlier input stays first. */
  function InsertByScore(x: ScoredTerm, ys: seq<ScoredTerm>): (r: seq<ScoredTerm>)
    requires SortedDesc(ys)
    ensures |r| == |ys| + 1
    ensures r[0] == x || (ys != [] && r[0] == ys[0])
    ensures SortedDesc(r)
  {
    if ys == [] || x.score >= ys[0].score then [x] + ys
    else
      var rest := InsertByScore(x, ys[1..]);
      assert forall b :: 0 <= b < |rest| ==> ys[0].score >= rest[b].score by {
        forall b | 0 <= b < |rest| ensures ys[0].score >= rest[b].score {
          if b > 0 { assert rest[0].score >= rest[b].score; }
        }
      }
      [ys[0]] + rest
  }

  /** `sorted(..., key=score, reverse=True)`: a stable sort, highest score first. */
  function SortByScore(xs: seq<ScoredTerm>): (r: seq<ScoredTerm>)
    ensures |r| == |xs|
    ensures SortedDesc(r)
  {
    if xs == [] then [] else InsertByScore(xs[0], SortByScore(xs[1..]))
  }

  lemma {:induction false} InsertPermutes(x: ScoredTerm, ys: seq<ScoredTerm>)
    requires SortedDesc(ys)
    ensures multiset(InsertByScore(x, ys)) == multiset{x} + multiset(ys)
  {
    if !(ys == [] || x.score >= ys[0].score) {
      InsertPermutes(x, ys[1..]);
      assert ys == [ys[0]] + ys[1..];
    }
  }

  /** Sorting only reorders: the ranking is a permutation of its input. */
  lemma {:induction false} SortPermutes(xs: seq<ScoredTerm>)
    ensures multiset(SortByScore(xs)) == multiset(xs)
  {
    if xs != [] {
      SortPermutes(xs[1..]);
      InsertPermutes(xs[0], SortByScore(xs[1..]));
      MultisetOfCons(xs);
    }
  }

  lemma MultisetOfCons<T>(xs: seq<T>)
    requires xs != []
    ensures multiset(xs) == multiset{xs[0]} + multiset(xs[1..])
  {
    assert xs == [xs[0]] + xs[1..];
  }

  lemma InsertMembers(x: ScoredTerm, ys: seq<ScoredTerm>)
    requires SortedDesc(ys)
    ensures forall e :: e in InsertByScore(x, ys) <==> e == x || e in ys
  {
    InsertPermutes(x, ys);
    var r := InsertByScore(x, ys);
    forall e ensures e in r <==> e == x || e in ys {
      assert e in r <==> e in multiset(r);
      assert e in ys <==> e in multiset(ys);
    }
  }

  lemma ConsKeepsDistinct(y: ScoredTerm, rest: seq<ScoredTerm>)
    requires DistinctTerms(rest)
    requires forall k :: 0 <= k < |rest| ==> rest[k].term != y.term
    ensures DistinctTerms([y] + rest)
  {
    var r := [y] + rest;
    forall a, b | 0 <= a < b < |r| ensures r[a].term != r[b].term {
      assert r[b] == rest[b - 1];
      if a > 0 { assert r[a] == rest[a - 1]; }
    }
  }

  lemma {:induction false} InsertKeepsDistinct(x: ScoredTerm, ys: seq<ScoredTerm>)
    requires SortedDesc(ys) && DistinctTerms(ys)
    requires forall k :: 0 <= k < |ys| ==> ys[k].term != x.term
    ensures DistinctTerms(InsertByScore(x, ys))
  {
    if ys == [] || x.score >= ys[0].score {
      ConsKeepsDistinct(x, ys);
    } else {
      var tail := ys[1..];
      var rest := InsertByScore(x, tail);
      InsertKeepsDistinct(x, tail);
      InsertMembers(x, tail);
      forall k | 0 <= k < |rest| ensures rest[k].term != ys[0].term {
        assert rest[k] in rest;
        if rest[k] != x {
          var j :| 0 <= j < |tail| && tail[j] == rest[k];
          assert ys[j + 1] == tail[j];
        }
      }
      ConsKeepsDistinct(ys[0], rest);
    }
  }

  /** Sorting keeps every term once. */
  lemma {:induction false} SortKeepsDistinct(xs: seq<ScoredTerm>)
    requires DistinctTerms(xs)
    ensures DistinctTerms(SortByScore(xs))
  {
    if xs != [] {
      var tail := xs[1..];
      SortKeepsDistinct(tail);
      SortPermutes(tail);
      var st := SortByScore(tail);
      forall k | 0 <= k < |st| ensures st[k].term != xs[0].term {
        assert st[k] in multiset(st);
        var j :| 0 <= j < |tail| && tail[j] == st[k];
        assert xs[j + 1] == tail[j];
      }
      InsertKeepsDistinct(xs[0], st);
    }
  }

  /** `Counter(xs)`: every distinct element of `xs` with its number of
      occurrences; `keys` lists them once each. */
  method Count(xs: seq<string>) returns (freq: map<string, nat>, keys: seq<string>)
    ensures Distinct(keys)
    ensures forall t :: t in keys <==> t in xs
    ensures forall t :: t in freq <==> t in xs
    ensures forall t :: t in freq ==> freq[t] == multiset(xs)[t]
  {
    freq, keys := map[], [];
    for j := 0 to |xs|
      invariant forall t :: t in freq <==> t in xs[..j]
      invariant forall t :: t in freq ==> freq[t] == multiset(xs[..j])[t]
      invariant forall t :: t in keys <==> t in freq
      invariant Distinct(keys)
    {
      var t := xs[j];
      assert xs[..j + 1] == xs[..j] + [t];
      if t in freq {
        freq := freq[t := freq[t] + 1];
      } else {
        freq := freq[t := 1];
        keys := keys + [t];
      }
    }
    assert xs[..|xs|] == xs;
  }

  /** What the ranking promises about the tokens it was built from. */
  ghost predicate RanksContentTerms(tokens: seq<string>, r: seq<ScoredTerm>)
  {
    && DistinctTerms(r)
    && (forall k :: 0 <= k < |r| ==> IsContent(r[k].term))
    && (forall k :: 0 <= k < |r| ==> r[k].score == Score(multiset(tokens)[r[k].term], r[k].term))
    && (forall t :: t in Terms(r) <==> t in tokens && IsContent(t))
  }

  /** The items of the `scores` dictionary rank the content terms. */
  lemma ItemsAreRanking(tokens: seq<string>, counted: seq<string>, freq: map<string, nat>, keys: seq<string>,
                        items: seq<ScoredTerm>)
    requires counted == ContentTokens(tokens)
    requires Distinct(keys)
    requires forall t :: t in keys <==> t in counted
    requires forall t :: t in freq <==> t in counted
    requires forall t :: t in freq ==> freq[t] == multiset(counted)[t]
    requires |items| == |keys|
    requires forall q :: 0 <= q < |keys| ==> items[q] == ScoredTerm(keys[q], Score(freq[keys[q]], keys[q]))
    ensures RanksContentTerms(tokens, items)
  {
    forall a, b | 0 <= a < b < |items| ensures items[a].term != items[b].term {
      assert items[a].term == keys[a] && items[b].term == keys[b];
    }
    ItemsScored(tokens, counted, freq, keys, items);
    ItemsCoverContent(tokens, counted, keys, items);
  }

  /** Every item is a content term scored by its number of occurrences. */
  lemma ItemsScored(tokens: seq<string>, counted: seq<string>, freq: map<string, nat>, keys: seq<string>,
                    items: seq<ScoredTerm>)
    requires counted == ContentTokens(tokens)
    requires forall t :: t in keys <==> t in counted
    requires forall t :: t in freq ==> freq[t] == multiset(counted)[t]
    requires forall t :: t in freq <==> t in counted
    requires |items| == |keys|
    requires forall q :: 0 <= q < |keys| ==> items[q] == ScoredTerm(keys[q], Score(freq[keys[q]], keys[q]))
    ensures forall q :: 0 <= q < |items| ==> IsContent(items[q].term)
    ensures forall q :: 0 <= q < |items| ==> items[q].score == Score(multiset(tokens)[items[q].term], items[q].term)
  {
    forall q | 0 <= q < |items|
      ensures IsContent(items[q].term)
      ensures items[q].score == Score(multiset(tokens)[items[q].term], items[q].term)
    {
      var t := keys[q];
      assert t in counted;
      assert multiset(counted)[t] > 0;
      assert freq[t] == multiset(tokens)[t];
    }
  }

  /** The item terms are exactly the content tokens. */
  lemma ItemsCoverContent(tokens: seq<string>, counted: seq<string>, keys: seq<string>, items: seq<ScoredTerm>)
    requires counted == ContentTokens(tokens)
    requires forall t :: t in keys <==> t in counted
    requires |items| == |keys|
    requires forall q :: 0 <= q < |keys| ==> items[q].term == keys[q]
    ensures forall t :: t in Terms(items) <==> t in tokens && IsContent(t)
  {
    forall t ensures t in Terms(items) <==> t in tokens && IsContent(t) {
      if t in Terms(items) {
        var q :| 0 <= q < |items| && items[q].term == t;
        assert t == keys[q] && t in counted;
        assert multiset(counted)[t] > 0;
      }
      if t in tokens && IsContent(t) {
        assert multiset(tokens)[t] > 0;
        assert multiset(counted)[t] > 0;
        assert t in counted;
        var q :| 0 <= q < |keys| && keys[q] == t;
        assert Terms(items)[q] == t;
      }
    }
  }

  /** Sorting keeps a ranking of the content terms one. */
  lemma SortKeepsRanking(tokens: seq<string>, items: seq<ScoredTerm>)
    requires RanksContentTerms(tokens, items)
    ensures RanksContentTerms(tokens, SortByScore(items))
  {
    var ranked := SortByScore(items);
    SortKeepsDistinct(items);
    SortPermutes(items);
    forall e ensures e in ranked <==> e in items {
      assert e in ranked <==> e in multiset(ranked);
      assert e in items <==> e in multiset(items);
    }
    SameMembersKeepRanking(tokens, items, ranked);
  }

  /** A ranking stays one under any reordering that keeps its members. */
  lemma SameMembersKeepRanking(tokens: seq<string>, items: seq<ScoredTerm>, ranked: seq<ScoredTerm>)
    requires RanksContentTerms(tokens, items)
    requires DistinctTerms(ranked)
    requires forall e :: e in ranked <==> e in items
    ensures RanksContentTerms(tokens, ranked)
  {
    forall k | 0 <= k < |ranked|
      ensures IsContent(ranked[k].term)
      ensures ranked[k].score == Score(multiset(tokens)[ranked[k].term], ranked[k].term)
    {
      assert ranked[k] in items;
    }
    forall t ensures t in Terms(ranked) <==> t in Terms(items) {
      if t in Terms(ranked) {
        var k :| 0 <= k < |ranked| && ranked[k].term == t;
        assert ranked[k] in items;
        var q :| 0 <= q < |items| && items[q] == ranked[k];
        assert Terms(items)[q] == t;
      }
      if t in Terms(items) {
        var q :| 0 <= q < |items| && items[q].term == t;
        assert items[q] in ranked;
        var k :| 0 <= k < |ranked| && ranked[k] == items[q];
        assert Terms(ranked)[k] == t;
      }
    }
  }

  /** The loop of app.py:30-32: the tokens of every sentence, in order. */
  method CollectTokens(sents: seq<string>) returns (tokens: seq<string>)
    ensures tokens == AllTokens(sents)
  {
    tokens := [];
    for i := 0 to |sents|
      invariant tokens == AllTokens(sents[..i])
    {
      assert sents[..i + 1][..i] == sents[..i];
      tokens := tokens + Tokenize(sents[i]);
    }
    assert sents[..|sents|] == sents;
  }

  /** The loop of app.py:35-37: each counted term with its score, in the
      order of the counter's keys. */
  method ScoreItems(freq: map<string, nat>, keys: seq<string>) returns (items: seq<ScoredTerm>)
    requires forall t :: t in keys ==> t in freq
    ensures |items| == |keys|
    ensures forall q :: 0 <= q < |keys| ==> items[q] == ScoredTerm(keys[q], Score(freq[keys[q]], keys[q]))
  {
    items := [];
    for m := 0 to |keys|
      invariant |items| == m
      invariant forall q :: 0 <= q < m ==> items[q] == ScoredTerm(keys[q], Score(freq[keys[q]], keys[q]))
    {
      items := items + [ScoredTerm(keys[m], Score(freq[keys[m]], keys[m]))];
    }
  }

  /** `score_tokens(text, sents)`. The ranking is sorted by score, highest
      first; it holds every distinct token of the sentences whose lower-case
      form is not a stop word, exactly once, and nothing else; and each score
      is four times its term's number of occurrences plus its length. `text`
      is unused, as in the source. */
  method ScoreTokens(text: string, sents: seq<string>) returns (ranked: seq<ScoredTerm>)
    ensures SortedDesc(ranked)
    ensures RanksContentTerms(AllTokens(sents), ranked)
  {
    var tokens := CollectTokens(sents);
    var counted := ContentTokens(tokens);
    var freq, keys := Count(counted);
    var items := ScoreItems(freq, keys);
    ItemsAreRanking(tokens, counted, freq, keys, items);
    ranked := SortByScore(items);
    SortKeepsRanking(tokens, items);
  }
}
