/** `make_fill_in_blank` (app.py:41-51): pick a content word of the sentence
    and replace its first occurrence with a blank. */
module FillBlank {
  import opened Strings
  import opened Lexicon
  import opened Tokenizer
  import opened Scoring

  /** The blank marker written into the question. */
  const Blank: string := "____"

  /** A cloze question and the word that fills its blank. */
  datatype Cloze = Cloze(question: string, answer: string)

  /** `len(t) >= 2 and t not in STOPWORDS`. Unlike scoring, this stop-word
      test is case-sensitive. */
  predicate IsCandidate(t: string)
  {
    |t| >= 2 && t !in StopWords
  }

  /** Index of the first candidate token, or |toks| when there is none. */
  function FirstCandidate(toks: seq<string>): (k: nat)
    ensures k <= |toks|
    ensures k < |toks| ==> IsCandidate(toks[k])
    ensures forall j :: 0 <= j < k ==> !IsCandidate(toks[j])
  {
    if toks == [] || IsCandidate(toks[0]) then 0 else 1 + FirstCandidate(toks[1..])
  }

  /** `[t for t in toks if len(t) >= 2 and t not in STOPWORDS]` */
  function Candidates(toks: seq<string>): (r: seq<string>)
    ensures forall t :: t in r ==> t in toks && IsCandidate(t)
    ensures r == [] <==> FirstCandidate(toks) == |toks|
    ensures r != [] ==> r[0] == toks[FirstCandidate(toks)]
  {
    if toks == [] then []
    else (if IsCandidate(toks[0]) then [toks[0]] else []) + Candidates(toks[1..])
  }

  /** `max(toks, key=len)`: the first of the longest tokens. */
  function LongestIndex(toks: seq<string>): (k: nat)
    requires toks != []
    ensures k < |toks|
    ensures forall j :: 0 <= j < |toks| ==> |toks[j]| <= |toks[k]|
    ensures forall j :: 0 <= j < k ==> |toks[j]| < |toks[k]|
  {
    if |toks| == 1 then 0
    else
      var k := LongestIndex(toks[1..]);
      if |toks[0]| >= |toks[k + 1]| then 0 else k + 1
  }

  /** The candidate list after the fallback of app.py:44-45. */
  function Pool(toks: seq<string>): (r: seq<string>)
    ensures forall t :: t in r ==> t in toks
    ensures r == [] <==> toks == []
  {
    if Candidates(toks) == [] && toks != [] then [toks[LongestIndex(toks)]] else Candidates(toks)
  }

  /** The question `make_fill_in_blank(sent, _)` produces, if any: the first
      word of the pool with its first occurrence blanked out. There is one
      exactly when the sentence has a token; the answer is the first token
      of at least two characters that is not a stop word (case-sensitively)
      and, when there is none, the first of the longest tokens. */
  function FillBlankOf(sent: string): (r: Option<Cloze>)
    ensures r.None? <==> Tokenize(sent) == []
    ensures var toks := Tokenize(sent);
      r.Some? && FirstCandidate(toks) < |toks| ==> r.value.answer == toks[FirstCandidate(toks)]
    ensures var toks := Tokenize(sent);
      r.Some? && FirstCandidate(toks) == |toks| ==> r.value.answer == toks[LongestIndex(toks)]
  {
    var pool := Pool(Tokenize(sent));
    if pool == [] then None else Some(Cloze(ReplaceFirst(sent, pool[0], Blank), pool[0]))
  }

  /** `make_fill_in_blank(sent, scored_tokens)`, with `None` for the pair
      `(None, None)`. It tries the candidates in order and blanks the first
      one that the sentence contains; since every candidate is a token of
      the sentence, that is always the first. It gives no question exactly
      when the sentence has no token. `ranked` is unused, as in the source. */
  method MakeFillInBlank(sent: string, ranked: seq<ScoredTerm>) returns (res: Option<Cloze>)
    ensures res == FillBlankOf(sent)
    ensures res.None? <==> Tokenize(sent) == []
  {
    var toks := Tokenize(sent);
    var candidates := Candidates(toks);
    if candidates == [] && toks != [] {
      candidates := [toks[LongestIndex(toks)]];
    }
    assert candidates == Pool(toks);
    forall t | t in candidates ensures Contains(sent, t) {
      TokensOccur(sent, t);
    }
    for i := 0 to |candidates|
      invariant forall j :: 0 <= j < i ==> !Contains(sent, candidates[j])
    {
      var target := candidates[i];
      if Find(sent, target).Some? {
        var question := ReplaceFirst(sent, target, Blank);
        return Some(Cloze(question, target));
      }
    }
    return None;
  }

  /** The cloze round trip: the sentence is `pre + answer + post`, the
      question is `pre + "____" + post`, and the answer does not occur any
      earlier in the sentence. */
  lemma ClozeReplacesFirstOccurrence(sent: string)
    requires FillBlankOf(sent).Some?
    ensures var c := FillBlankOf(sent).value;
      exists i :: FirstOccurrence(sent, c.answer, i)
                  && sent == sent[..i] + c.answer + sent[i + |c.answer|..]
                  && c.question == sent[..i] + Blank + sent[i + |c.answer|..]
  {
    var c := FillBlankOf(sent).value;
    TokensOccur(sent, c.answer);
  }

  /** The question always holds the blank, so it is never empty (app.py:81
      tests it for truth). */
  lemma ClozeQuestionNonEmpty(sent: string)
    requires FillBlankOf(sent).Some?
    ensures |FillBlankOf(sent).value.question| >= |Blank|
  {
    ClozeReplacesFirstOccurrence(sent);
  }

  /** Writing the answer back into the first blank of the question gives the
      sentence again, when the sentence has no underscore. */
  lemma ClozeRefills(sent: string)
    requires FillBlankOf(sent).Some?
    requires '_' !in sent
    ensures var c := FillBlankOf(sent).value;
      ReplaceFirst(c.question, Blank, c.answer) == sent
  {
    ClozeReplacesFirstOccurrence(sent);
    var c := FillBlankOf(sent).value;
    var i :| FirstOccurrence(sent, c.answer, i) && sent == sent[..i] + c.answer + sent[i + |c.answer|..]
             && c.question == sent[..i] + Blank + sent[i + |c.answer|..];
    RefillAt(sent[..i], c.answer, sent[i + |c.answer|..]);
  }

  /** The first blank of `pre + "____" + post` is the one after `pre` when
      `pre` has no underscore. */
  lemma RefillAt(pre: string, a: string, post: string)
    requires '_' !in pre
    ensures ReplaceFirst(pre + Blank + post, Blank, a) == pre + a + post
  {
    var q := pre + Blank + post;
    var i := |pre|;
    assert q[i..i + |Blank|] == Blank;
    forall j | 0 <= j < i ensures !OccursAt(q, Blank, j) {
      assert q[j] == pre[j] && pre[j] in pre;
      if j + |Blank| <= |q| { assert q[j..j + |Blank|][0] == q[j]; }
    }
    assert FirstOccurrence(q, Blank, i);
    FirstOccurrenceUnique(q, Blank, i, Find(q, Blank).value);
    assert q[..i] == pre && q[i + |Blank|..] == post;
  }

  /** With an underscore in front of the answer the round trip fails:
      "_x" gives the answer "x" (its only token, taken as the longest since
      it is too short to be a candidate) and the question "_____", whose
      first blank is at index 0, so writing "x" back yields "x_". */
  lemma ClozeRefillCounterexample()
    ensures FillBlankOf("_x") == Some(Cloze("_____", "x"))
    ensures ReplaceFirst("_____", Blank, "x") == "x_"
  {
    ClozeOfUnderscoreX();
    RefillFiveUnderscores();
  }

  lemma ClozeOfUnderscoreX()
    ensures FillBlankOf("_x") == Some(Cloze("_____", "x"))
  {
    TokenizeUnderscoreX();
    assert Candidates(["x"]) == [];
    assert Pool(["x"]) == ["x"];
    FindUnderscoreX();
  }

  lemma RefillFiveUnderscores()
    ensures ReplaceFirst("_____", Blank, "x") == "x_"
  {
    assert FindFrom("_____", Blank, 0) == Some(0);
    assert "x" + "_____"[4..] == "x_";
  }

  lemma FindUnderscoreX()
    ensures ReplaceFirst("_x", "x", Blank) == "_____"
  {
    assert "_x"[0..1] == "_" && "_"[0] != "x"[0];
    assert FindFrom("_x", "x", 1) == Some(1);
    assert FindFrom("_x", "x", 0) == Some(1);
  }

  lemma TokenizeUnderscoreX()
    ensures Tokenize("_x") == ["x"]
  {
    var s := "_x";
    assert RunEnd(s, Word, 2) == 2;
    assert RunEnd(s, Word, 1) == 2;
    assert TokenEnd(s, Word, 1) == 2;
    assert SpansFrom(s, 2) == [];
    assert SpansFrom(s, 1) == [Span(1, 2, Word)];
    assert Spans(s) == [Span(1, 2, Word)];
    assert s[1..2] == "x";
  }
}
