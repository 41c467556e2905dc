/** `format_output` (app.py:95-115) and the flag mapping of `generate_all`
    (app.py:118-124): a Markdown text with up to three sections, each a
    header, numbered entries and a blank line. */
module Output {
  import opened Strings
  import opened Sentences
  import opened FillBlank
  import opened TrueFalse
  import opened Quiz
  import opened Discussion

  const DiscussionHeader: string := "### 토론 주제\n"
  const TrueFalseHeader: string := "### OX 문제\n"
  const BlankHeader: string := "### 빈칸 채우기\n"

  /** The labels of the checkbox group that switch the sections on (app.py:119-121). */
  const DiscussionLabel: string := "토론 주제"
  const TrueFalseLabel: string := "OX 문제"
  const BlankLabel: string := "빈칸 문제"

  predicate StartsWith(s: string, prefix: string)
  {
    |prefix| <= |s| && s[..|prefix|] == prefix
  }

  /** The entry line `f"{i}) {text}\n"`. */
  function Entry(i: nat, text: string): string
  {
    NatToString(i) + ") " + text + "\n"
  }

  function Verdict(answer: bool): string
  {
    if answer then "O(참)" else "X(거짓)"
  }

  /** The three lines of true/false item number `i` (app.py:105-107). */
  function TrueFalseEntry(i: nat, q: TrueFalseItem): string
  {
    Entry(i, q.statement) + "   정답: " + Verdict(q.answer) + "\n" + "   해설: " + q.explanation + "\n"
  }

  /** The two lines of cloze question number `i` (app.py:112-113). */
  function BlankEntry(i: nat, c: Cloze): string
  {
    Entry(i, c.question) + "   정답: " + c.answer + "\n"
  }

  /** The entries of a section, numbered from 1. */
  function DiscussionLines(ds: seq<string>): string
  {
    if ds == [] then "" else DiscussionLines(ds[..|ds| - 1]) + Entry(|ds|, ds[|ds| - 1])
  }

  function TrueFalseLines(qs: seq<TrueFalseItem>): string
  {
    if qs == [] then "" else TrueFalseLines(qs[..|qs| - 1]) + TrueFalseEntry(|qs|, qs[|qs| - 1])
  }

  function BlankLines(cs: seq<Cloze>): string
  {
    if cs == [] then "" else BlankLines(cs[..|cs| - 1]) + BlankEntry(|cs|, cs[|cs| - 1])
  }

  /** A section that is shown: its header, its entries and a blank line. */
  function Section(shown: bool, header: string, lines: string): (r: string)
    ensures !shown ==> r == ""
    ensures shown ==> StartsWith(r, header)
  {
    if shown then header + lines + "\n" else ""
  }

  /** The text `format_output` builds: the discussion, true/false and cloze
      sections in this order, each only when switched on and non-empty. */
  function Render(ds: seq<string>, quiz: QuizResult, showDiscussion: bool, showTf: bool, showBlank: bool): string
  {
    Section(showDiscussion && ds != [], DiscussionHeader, DiscussionLines(ds))
    + Section(showTf && quiz.tf != [], TrueFalseHeader, TrueFalseLines(quiz.tf))
    + Section(showBlank && quiz.blank != [], BlankHeader, BlankLines(quiz.blank))
  }

  lemma AppendSection(before: string, header: string, lines: string)
    ensures before + header + lines + "\n" == before + Section(true, header, lines)
  {
    assert before + header + lines + "\n" == before + (header + lines + "\n");
  }

  lemma TrueFalseEntryParts(before: string, i: nat, q: TrueFalseItem)
    ensures before + Entry(i, q.statement) + "   정답: " + Verdict(q.answer) + "\n" + "   해설: " + q.explanation + "\n"
            == before + TrueFalseEntry(i, q)
  {
    var e := Entry(i, q.statement);
    var a := "   정답: " + Verdict(q.answer) + "\n";
    var x := "   해설: " + q.explanation + "\n";
    assert before + e + "   정답: " + Verdict(q.answer) + "\n" + "   해설: " + q.explanation + "\n" == before + (e + a + x);
  }

  lemma BlankEntryParts(before: string, i: nat, c: Cloze)
    ensures before + Entry(i, c.question) + "   정답: " + c.answer + "\n" == before + BlankEntry(i, c)
  {
    var e := Entry(i, c.question);
    assert before + e + "   정답: " + c.answer + "\n" == before + (e + "   정답: " + c.answer + "\n");
  }

  /** No other header begins with the discussion header. */
  lemma HeadersDiffer()
    ensures |DiscussionHeader| <= |TrueFalseHeader| && !StartsWith(TrueFalseHeader, DiscussionHeader)
    ensures |DiscussionHeader| <= |BlankHeader| && !StartsWith(BlankHeader, DiscussionHeader)
  {
    assert TrueFalseHeader[4] != DiscussionHeader[4];
    assert BlankHeader[4] != DiscussionHeader[4];
  }

  lemma StartsWithConcat(a: string, b: string, prefix: string)
    requires StartsWith(a, prefix)
    ensures StartsWith(a + b, prefix)
  {
    assert (a + b)[..|prefix|] == a[..|prefix|];
  }

  /** A text that begins with `q` begins with no `p` that is not a prefix of `q`. */
  lemma OtherPrefix(s: string, p: string, q: string)
    requires StartsWith(s, q) && |p| <= |q| && !StartsWith(q, p)
    ensures !StartsWith(s, p)
  {
    assert s[..|p|] == q[..|p|];
  }

  /** Three sections glued together, each empty or opening with its header. */
  lemma {:induction false} SectionsShape(sd: string, st: string, sb: string, d: bool, t: bool, b: bool)
    requires d ==> StartsWith(sd, DiscussionHeader)
    requires t ==> StartsWith(st, TrueFalseHeader)
    requires b ==> StartsWith(sb, BlankHeader)
    requires !d ==> sd == ""
    requires !t ==> st == ""
    requires !b ==> sb == ""
    ensures var out := sd + st + sb;
      && (out == "" <==> !d && !t && !b)
      && (StartsWith(out, DiscussionHeader) <==> d)
      && (!d && t ==> StartsWith(out, TrueFalseHeader))
      && (!d && !t && b ==> StartsWith(out, BlankHeader))
  {
    var out := sd + st + sb;
    HeadersDiffer();
    if d {
      StartsWithConcat(sd, st + sb, DiscussionHeader);
      assert out == sd + (st + sb);
    } else if t {
      assert out == st + sb;
      StartsWithConcat(st, sb, TrueFalseHeader);
      OtherPrefix(out, DiscussionHeader, TrueFalseHeader);
    } else if b {
      assert out == sb;
      OtherPrefix(out, DiscussionHeader, BlankHeader);
    } else {
      assert out == "";
    }
  }

  /** The output is empty exactly when no section is both switched on and
      non-empty, it opens with the discussion header exactly when that
      section is shown, and otherwise with the header of the first section
      shown. */
  lemma RenderShape(ds: seq<string>, quiz: QuizResult, showDiscussion: bool, showTf: bool, showBlank: bool)
    ensures var out := Render(ds, quiz, showDiscussion, showTf, showBlank);
      var d, t, b := showDiscussion && ds != [], showTf && quiz.tf != [], showBlank && quiz.blank != [];
      && (out == "" <==> !d && !t && !b)
      && (StartsWith(out, DiscussionHeader) <==> d)
      && (!d && t ==> StartsWith(out, TrueFalseHeader))
      && (!d && !t && b ==> StartsWith(out, BlankHeader))
  {
    var d, t, b := showDiscussion && ds != [], showTf && quiz.tf != [], showBlank && quiz.blank != [];
    SectionsShape(Section(d, DiscussionHeader, DiscussionLines(ds)),
                  Section(t, TrueFalseHeader, TrueFalseLines(quiz.tf)),
                  Section(b, BlankHeader, BlankLines(quiz.blank)), d, t, b);
  }

  /** The loop of app.py:99-100: the numbered discussion prompts. */
  method WriteDiscussionLines(ds: seq<string>) returns (lines: string)
    ensures lines == DiscussionLines(ds)
  {
    lines := "";
    for i := 0 to |ds|
      invariant lines == DiscussionLines(ds[..i])
    {
      assert ds[..i + 1][..i] == ds[..i] && ds[..i + 1][i] == ds[i];
      lines := lines + Entry(i + 1, ds[i]);
    }
    assert ds[..|ds|] == ds;
  }

  /** The loop of app.py:104-107: statement, answer and explanation of each
      true/false item. */
  method WriteTrueFalseLines(qs: seq<TrueFalseItem>) returns (lines: string)
    ensures lines == TrueFalseLines(qs)
  {
    lines := "";
    for i := 0 to |qs|
      invariant lines == TrueFalseLines(qs[..i])
    {
      var q := qs[i];
      assert qs[..i + 1][..i] == qs[..i] && qs[..i + 1][i] == q;
      ghost var before := lines;
      lines := lines + Entry(i + 1, q.statement);
      lines := lines + "   정답: " + Verdict(q.answer) + "\n";
      lines := lines + "   해설: " + q.explanation + "\n";
      TrueFalseEntryParts(before, i + 1, q);
    }
    assert qs[..|qs|] == qs;
  }

  /** The loop of app.py:111-113: question and answer of each cloze item. */
  method WriteBlankLines(cs: seq<Cloze>) returns (lines: string)
    ensures lines == BlankLines(cs)
  {
    lines := "";
    for i := 0 to |cs|
      invariant lines == BlankLines(cs[..i])
    {
      var c := cs[i];
      assert cs[..i + 1][..i] == cs[..i] && cs[..i + 1][i] == c;
      ghost var before := lines;
      lines := lines + Entry(i + 1, c.question);
      lines := lines + "   정답: " + c.answer + "\n";
      BlankEntryParts(before, i + 1, c);
    }
    assert cs[..|cs|] == cs;
  }

  /** `format_output(discussions, quiz, show_discussion, show_tf, show_blank)`.
      Each section's entries are written by the loop above and appended to
      `out` with the header before and the blank line after. */
  method FormatOutput(discussions: seq<string>, quiz: QuizResult, showDiscussion: bool, showTf: bool, showBlank: bool)
    returns (out: string)
    ensures out == Render(discussions, quiz, showDiscussion, showTf, showBlank)
  {
    out := "";
    if showDiscussion && |discussions| > 0 {
      var lines := WriteDiscussionLines(discussions);
      out := out + DiscussionHeader + lines + "\n";
    }
    ghost var afterDiscussion := out;
    assert afterDiscussion == Section(showDiscussion && discussions != [], DiscussionHeader, DiscussionLines(discussions));
    if showTf && |quiz.tf| > 0 {
      var lines := WriteTrueFalseLines(quiz.tf);
      out := out + TrueFalseHeader + lines + "\n";
      AppendSection(afterDiscussion, TrueFalseHeader, lines);
    }
    ghost var afterTf := out;
    assert afterTf == afterDiscussion + Section(showTf && quiz.tf != [], TrueFalseHeader, TrueFalseLines(quiz.tf));
    if showBlank && |quiz.blank| > 0 {
      var lines := WriteBlankLines(quiz.blank);
      out := out + BlankHeader + lines + "\n";
      AppendSection(afterTf, BlankHeader, lines);
    }
    assert out == afterTf + Section(showBlank && quiz.blank != [], BlankHeader, BlankLines(quiz.blank));
  }

  /** `generate_all(text, types, num_discussion, num_tf, num_blank)`: the
      sections named in `types`, the quiz drawing from `rng`. The output is
      empty exactly when no chosen section has an entry, and so always for
      the empty text; it opens with the discussion header exactly when that
      section is chosen and has a prompt. */
  method GenerateAll(text: string, types: seq<string>, numDiscussion: int, numTf: int, numBlank: int, rng: nat -> Draw)
    returns (out: string)
    ensures var sents := SplitSentences(text);
      var d := DiscussionLabel in types && SliceEnd(|sents|, numDiscussion) > 0;
      var t := TrueFalseLabel in types && Capped(|sents|, numTf) > 0;
      var b := BlankLabel in types && Capped(|UsableClozes(sents)|, numBlank) > 0;
      && (out == "" <==> !d && !t && !b)
      && (StartsWith(out, DiscussionHeader) <==> d)
    ensures text == [] ==> out == ""
    ensures out == Render(if DiscussionLabel in types then TopicsOf(text, numDiscussion) else [],
      QuizOf(text, numTf, numBlank, rng), DiscussionLabel in types, TrueFalseLabel in types, BlankLabel in types)
  {
    var showDiscussion := DiscussionLabel in types;
    var showTf := TrueFalseLabel in types;
    var showBlank := BlankLabel in types;
    var discussions: seq<string> := [];
    if showDiscussion {
      discussions := GenerateDiscussionTopics(text, numDiscussion);
    }
    var quiz := GenerateQuiz(text, numTf, numBlank, rng);
    out := FormatOutput(discussions, quiz, showDiscussion, showTf, showBlank);
    RenderShape(discussions, quiz, showDiscussion, showTf, showBlank);
  }
}
