/** `generate_quiz` (app.py:70-84): walk the sentences in order, taking a
    true/false item from each until `num_tf` are made and a cloze question
    from each that has one until `num_blank` are made, and stop once both
    lists are full. */
module Quiz {
  import opened Strings
  import opened Sentences
  import opened Scoring
  import opened FillBlank
  import opened TrueFalse

  /** The dictionary `{"tf": ..., "blank": ...}` of app.py:84. */
  datatype QuizResult = QuizResult(tf: seq<TrueFalseItem>, blank: seq<Cloze>)

  /** How many of `avail` items a list gets that only grows while its length
      is below `limit`: `limit` when that is reachable, all of them otherwise,
      none for a limit of zero or less. */
  function Capped(avail: nat, limit: int): (n: nat)
    ensures n <= avail
    ensures 0 < limit && n < avail ==> n == limit
    ensures limit <= 0 ==> n == 0
    ensures n <= limit || limit <= 0
  {
    if limit <= 0 then 0 else if limit < avail then limit else avail
  }

  /** The first `Capped(|xs|, limit)` elements of `xs`. */
  function Take<T>(xs: seq<T>, limit: int): seq<T>
  {
    xs[..Capped(|xs|, limit)]
  }

  /** The present values of `xs`, in order. */
  function Somes<T>(xs: seq<Option<T>>): (r: seq<T>)
    ensures |r| <= |xs|
  {
    if xs == [] then []
    else Somes(xs[..|xs| - 1]) + (if xs[|xs| - 1].Some? then [xs[|xs| - 1].value] else [])
  }

  /** Exactly the present values make it into `Somes(xs)`. */
  lemma {:induction false} SomesMembers<T>(xs: seq<Option<T>>)
    ensures forall v :: v in Somes(xs) <==> Some(v) in xs
  {
    if xs != [] {
      var init := xs[..|xs| - 1];
      SomesMembers(init);
      assert xs == init + [xs[|xs| - 1]];
    }
  }

  lemma {:induction false} SomesAppend<T>(a: seq<Option<T>>, b: seq<Option<T>>)
    ensures Somes(a + b) == Somes(a) + Somes(b)
    decreases |b|
  {
    if b == [] {
      assert a + b == a;
    } else {
      var b' := b[..|b| - 1];
      SomesAppend(a, b');
      assert (a + b)[..|a + b| - 1] == a + b';
    }
  }

  /** A capped prefix is no longer than its list or its limit. */
  lemma TakeBounds<T>(xs: seq<T>, limit: int)
    ensures |Take(xs, limit)| <= |xs|
    ensures limit <= 0 ==> Take(xs, limit) == []
    ensures limit > 0 ==> |Take(xs, limit)| <= limit
  {
  }

  lemma TakeOfLonger<T>(xs: seq<T>, ys: seq<T>, limit: int)
    requires limit <= |xs|
    ensures Take(xs + ys, limit) == Take(xs, limit)
  {
    assert (xs + ys)[..Capped(|xs|, limit)] == xs[..Capped(|xs|, limit)];
  }

  /** One more element of `xs` extends the capped list of present values
      only while it is below its limit. */
  lemma TakeSomesStep<T>(xs: seq<Option<T>>, i: nat, limit: int)
    requires i < |xs|
    ensures var prev := Take(Somes(xs[..i]), limit);
      Take(Somes(xs[..i + 1]), limit) == if |prev| < limit && xs[i].Some? then prev + [xs[i].value] else prev
  {
    var prev := Somes(xs[..i]);
    assert xs[..i + 1][..i] == xs[..i];
    var next := Somes(xs[..i + 1]);
    assert next == prev + (if xs[i].Some? then [xs[i].value] else []);
    if |Take(prev, limit)| >= limit {
      TakeOfLonger(prev, next[|prev|..], limit);
      assert prev + next[|prev|..] == next;
    }
  }

  /** Once the capped list is full, the rest of `xs` adds nothing. */
  lemma TakeSomesFull<T>(xs: seq<Option<T>>, i: nat, limit: int)
    requires i <= |xs|
    requires |Take(Somes(xs[..i]), limit)| >= limit
    ensures Take(Somes(xs), limit) == Take(Somes(xs[..i]), limit)
  {
    SomesAppend(xs[..i], xs[i..]);
    assert xs[..i] + xs[i..] == xs;
    TakeOfLonger(Somes(xs[..i]), Somes(xs[i..]), limit);
  }

  lemma PrefixStep<T>(xs: seq<T>, prefix: seq<T>, i: nat)
    requires i < |xs| && prefix == xs[..i]
    ensures prefix + [xs[i]] == xs[..i + 1]
  {
  }

  /** What `make_fill_in_blank` gives for each sentence. */
  function ClozesOf(sents: seq<string>): (r: seq<Option<Cloze>>)
    ensures |r| == |sents|
    ensures forall k :: 0 <= k < |sents| ==> r[k] == FillBlankOf(sents[k])
  {
    seq(|sents|, k requires 0 <= k < |sents| => FillBlankOf(sents[k]))
  }

  /** What `make_true_false` gives for each sentence, sentence j drawing `rng(j)`. */
  function TrueFalseItems(sents: seq<string>, rng: nat -> Draw): (r: seq<TrueFalseItem>)
    ensures |r| == |sents|
    ensures forall k :: 0 <= k < |sents| ==> r[k] == TrueFalseOf(sents[k], rng(k))
  {
    seq(|sents|, k requires 0 <= k < |sents| => TrueFalseOf(sents[k], rng(k)))
  }

  /** The cloze questions of the sentences that have one, in sentence order. */
  function UsableClozes(sents: seq<string>): (r: seq<Cloze>)
    ensures |r| <= |sents|
  {
    Somes(ClozesOf(sents))
  }

  /** The present values of `xs` are those at some index of `xs`. */
  lemma SomesIndexed<T>(xs: seq<Option<T>>)
    ensures forall v :: v in Somes(xs) <==> exists k :: 0 <= k < |xs| && xs[k] == Some(v)
  {
    SomesMembers(xs);
  }

  /** A cloze is usable exactly when it is the question of one of the sentences. */
  lemma UsableClozesFrom(sents: seq<string>)
    ensures forall c :: c in UsableClozes(sents) <==> exists k :: 0 <= k < |sents| && FillBlankOf(sents[k]) == Some(c)
  {
    var opts := ClozesOf(sents);
    SomesIndexed(opts);
    forall c ensures (exists k :: 0 <= k < |opts| && opts[k] == Some(c))
                     <==> exists k :: 0 <= k < |sents| && FillBlankOf(sents[k]) == Some(c) {
      if exists k :: 0 <= k < |sents| && FillBlankOf(sents[k]) == Some(c) {
        var k :| 0 <= k < |sents| && FillBlankOf(sents[k]) == Some(c);
        assert opts[k] == Some(c);
      }
    }
  }

  /** The call `make_true_false(s, scored, rnd)` of app.py:77-78 for the
      sentence `s == sents[i]`; `items` names the item of every sentence. */
  method TrueFalseAt(sents: seq<string>, i: nat, scored: seq<ScoredTerm>, rng: nat -> Draw,
                     ghost items: seq<TrueFalseItem>)
    returns (item: TrueFalseItem)
    requires i < |sents| && |items| == |sents|
    requires forall k {:trigger TrueFalseOf(sents[k], rng(k))} :: 0 <= k < |sents| ==> items[k] == TrueFalseOf(sents[k], rng(k))
    ensures item == items[i]
  {
    var q, truth, expl := MakeTrueFalse(sents[i], scored, rng(i));
    item := TrueFalseItem(q, truth, expl);
  }

  /** The call `make_fill_in_blank(s, scored)` of app.py:80 for the sentence
      `s == sents[i]`; `opts` names the question of every sentence. A
      question, when there is one, is never empty. */
  method ClozeAt(sents: seq<string>, i: nat, scored: seq<ScoredTerm>, ghost opts: seq<Option<Cloze>>)
    returns (c: Option<Cloze>)
    requires i < |sents| && |opts| == |sents|
    requires forall k {:trigger FillBlankOf(sents[k])} :: 0 <= k < |sents| ==> opts[k] == FillBlankOf(sents[k])
    ensures c == opts[i]
    ensures c.Some? ==> c.value.question != []
  {
    c := MakeFillInBlank(sents[i], scored);
    if c.Some? {
      ClozeQuestionNonEmpty(sents[i]);
    }
  }

  /** The true/false half of one round of the loop (app.py:76-78): while
      fewer than `numTf` items are made, sentence i adds its item. */
  method TrueFalseStep(sents: seq<string>, i: nat, scored: seq<ScoredTerm>, numTf: int, rng: nat -> Draw,
                       ghost items: seq<TrueFalseItem>, tf: seq<TrueFalseItem>)
    returns (tf': seq<TrueFalseItem>)
    requires i < |sents| && |items| == |sents|
    requires forall k {:trigger TrueFalseOf(sents[k], rng(k))} :: 0 <= k < |sents| ==> items[k] == TrueFalseOf(sents[k], rng(k))
    requires |tf| == Capped(i, numTf) && tf == items[..|tf|]
    ensures |tf'| == Capped(i + 1, numTf) && tf' == items[..|tf'|]
  {
    tf' := tf;
    if |tf| < numTf {
      var item := TrueFalseAt(sents, i, scored, rng, items);
      PrefixStep(items, tf, i);
      tf' := tf + [item];
    }
  }

  /** The cloze half of one round of the loop (app.py:79-81): while fewer
      than `numBlank` questions are made, sentence i adds its question if
      it has one. */
  method ClozeStep(sents: seq<string>, i: nat, scored: seq<ScoredTerm>, numBlank: int,
                   ghost opts: seq<Option<Cloze>>, blank: seq<Cloze>)
    returns (blank': seq<Cloze>)
    requires i < |sents| && |opts| == |sents|
    requires forall k {:trigger FillBlankOf(sents[k])} :: 0 <= k < |sents| ==> opts[k] == FillBlankOf(sents[k])
    requires blank == Take(Somes(opts[..i]), numBlank)
    ensures blank' == Take(Somes(opts[..i + 1]), numBlank)
  {
    TakeSomesStep(opts, i, numBlank);
    blank' := blank;
    if |blank| < numBlank {
      var c := ClozeAt(sents, i, scored, opts);
      if c.Some? && c.value.question != [] {
        blank' := blank + [c.value];
      }
    }
  }

  /** The loop of `generate_quiz` over the sentences `sents` (app.py:75-83);
      `items` and `opts` name the true/false item and the cloze question of
      every sentence. */
  method Assemble(sents: seq<string>, scored: seq<ScoredTerm>, numTf: int, numBlank: int, rng: nat -> Draw,
                  ghost items: seq<TrueFalseItem>, ghost opts: seq<Option<Cloze>>)
    returns (quiz: QuizResult)
    requires |items| == |sents| && |opts| == |sents|
    requires forall k {:trigger TrueFalseOf(sents[k], rng(k))} :: 0 <= k < |sents| ==> items[k] == TrueFalseOf(sents[k], rng(k))
    requires forall k {:trigger FillBlankOf(sents[k])} :: 0 <= k < |sents| ==> opts[k] == FillBlankOf(sents[k])
    ensures quiz.tf == items[..Capped(|sents|, numTf)]
    ensures quiz.blank == Take(Somes(opts), numBlank)
  {
    var tf: seq<TrueFalseItem> := [];
    var blank: seq<Cloze> := [];
    var i := 0;
    assert opts[..0] == [];
    while i < |sents|
      invariant 0 <= i <= |sents|
      invariant |tf| == Capped(i, numTf)
      invariant tf == items[..|tf|]
      invariant blank == Take(Somes(opts[..i]), numBlank)
    {
      tf := TrueFalseStep(sents, i, scored, numTf, rng, items, tf);
      blank := ClozeStep(sents, i, scored, numBlank, opts, blank);
      if |tf| >= numTf && |blank| >= numBlank {
        TakeSomesFull(opts, i + 1, numBlank);
        break;
      }
      i := i + 1;
    }
    assert opts[..|sents|] == opts;
    quiz := QuizResult(tf, blank);
  }

  /** The quiz `generate_quiz(text, num_tf, num_blank)` builds, as a value:
      the true/false items of the first sentences, up to the quota, and the
      first usable cloze questions, up to theirs. */
  function QuizOf(text: string, numTf: int, numBlank: int, rng: nat -> Draw): QuizResult
  {
    var sents := SplitSentences(text);
    QuizResult(TrueFalseItems(sents, rng)[..Capped(|sents|, numTf)], Take(UsableClozes(sents), numBlank))
  }

  /** `generate_quiz(text, num_tf, num_blank)`. The random source hands
      `rng(j)` to the true/false item of sentence j. The result holds the
      true/false items of the first `num_tf` sentences (all of them when
      there are fewer) and the first `num_blank` usable cloze questions. */
  method GenerateQuiz(text: string, numTf: int, numBlank: int, rng: nat -> Draw) returns (quiz: QuizResult)
    ensures var sents := SplitSentences(text);
      && |quiz.tf| == Capped(|sents|, numTf)
      && (forall j :: 0 <= j < |quiz.tf| ==> quiz.tf[j] == TrueFalseOf(sents[j], rng(j)))
      && quiz.blank == Take(UsableClozes(sents), numBlank)
    ensures var sents := SplitSentences(text);
      && |quiz.blank| <= |sents|
      && (numBlank <= 0 ==> quiz.blank == [])
      && (numBlank > 0 ==> |quiz.blank| <= numBlank)
    ensures quiz == QuizOf(text, numTf, numBlank, rng)
  {
    var sents := SplitSentences(text);
    var scored := ScoreTokens(text, sents);
    quiz := Assemble(sents, scored, numTf, numBlank, rng, TrueFalseItems(sents, rng), ClozesOf(sents));
    assert quiz.blank == Take(UsableClozes(sents), numBlank);
    assert quiz == QuizOf(text, numTf, numBlank, rng);
    QuizOfShape(text, numTf, numBlank, rng);
  }

  /** The quiz holds `min(num_tf, len(sents))` true/false items (none for a
      quota of zero or less), item j being the rule item of sentence j, and
      the first `num_blank` usable questions, in order, no more than there
      are sentences or the quota allows. */
  lemma QuizOfShape(text: string, numTf: int, numBlank: int, rng: nat -> Draw)
    ensures var sents, quiz := SplitSentences(text), QuizOf(text, numTf, numBlank, rng);
      && |quiz.tf| == Capped(|sents|, numTf)
      && (forall j :: 0 <= j < |quiz.tf| ==> quiz.tf[j] == TrueFalseOf(sents[j], rng(j)))
      && quiz.blank == Take(UsableClozes(sents), numBlank)
      && |quiz.blank| <= |sents|
      && (numBlank <= 0 ==> quiz.blank == [])
      && (numBlank > 0 ==> |quiz.blank| <= numBlank)
  {
    TakeBounds(UsableClozes(SplitSentences(text)), numBlank);
  }
}
