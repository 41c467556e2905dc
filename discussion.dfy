/** `generate_discussion_topics` (app.py:87-92): one discussion prompt for
    each of the first `num` sentences. */
module Discussion {
  import opened Sentences

  /** The prompt of app.py:91 for the sentence `s`. */
  function Topic(s: string): string
  {
    "'" + s + "'의 핵심 의미와 사회적/역사적 영향을 토론하시오."
  }

  /** The length of the Python slice `xs[:num]` for a list of `n` elements: a
      negative `num` counts from the end. */
  function SliceEnd(n: nat, num: int): (e: nat)
    ensures e <= n
    ensures 0 <= num <= n ==> e == num
    ensures num < 0 && -num <= n ==> e == n + num
    ensures num >= n ==> e == n
    ensures num + n <= 0 ==> e == 0
  {
    if num >= 0 then (if num < n then num else n)
    else if n + num > 0 then n + num else 0
  }

  /** Each prompt quotes its sentence and nothing else varies. */
  lemma TopicQuotes(s: string)
    ensures var t := Topic(s);
      |t| > |s| + 1 && t[0] == '\'' && t[1..|s| + 1] == s && t[|s| + 1] == '\''
  {
    var t := Topic(s);
    assert t == ("'" + s) + "'의 핵심 의미와 사회적/역사적 영향을 토론하시오.";
    assert t[1..|s| + 1] == ("'" + s)[1..];
  }

  /** A prompt determines its sentence. */
  lemma TopicInjective(s: string, s': string)
    requires Topic(s) == Topic(s')
    ensures s == s'
  {
    var suffix := "'의 핵심 의미와 사회적/역사적 영향을 토론하시오.";
    assert |s| == |s'| by {
      assert |Topic(s)| == |s| + 1 + |suffix|;
      assert |Topic(s')| == |s'| + 1 + |suffix|;
    }
    TopicQuotes(s);
    TopicQuotes(s');
  }

  /** The prompts `generate_discussion_topics(text, num)` returns, as a value. */
  function TopicsOf(text: string, num: int): seq<string>
  {
    var sents := SplitSentences(text);
    seq(SliceEnd(|sents|, num), j requires 0 <= j < SliceEnd(|sents|, num) => Topic(sents[j]))
  }

  /** `generate_discussion_topics(text, num)`: the prompts of the sentences
      in `sents[:num]`, in order. */
  method GenerateDiscussionTopics(text: string, num: int) returns (topics: seq<string>)
    ensures var sents := SplitSentences(text);
      && |topics| == SliceEnd(|sents|, num)
      && forall j :: 0 <= j < |topics| ==> topics[j] == Topic(sents[j])
    ensures topics == TopicsOf(text, num)
  {
    var sents := SplitSentences(text);
    var chosen := sents[..SliceEnd(|sents|, num)];
    topics := [];
    for i := 0 to |chosen|
      invariant |topics| == i
      invariant forall j :: 0 <= j < i ==> topics[j] == Topic(sents[j])
    {
      topics := topics + [Topic(chosen[i])];
    }
  }
}
