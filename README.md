# Study-friend quiz generator, modelled in Dafny

The program takes a study text and turns it into three kinds of exercises:

- discussion prompts, one per leading sentence;
- true/false statements, each either the sentence itself or the sentence with one of its numbers raised;
- cloze questions, each blanking out a content word of a sentence.

It renders them as a Markdown text with up to three sections. This project models that pipeline stage by stage:

- **sentence splitting:** collapse whitespace, split after a sentence marker (`.`, `!`, `?`, `。` or the syllable `다`) followed by a space, and keep pieces of at least three characters;
- **the tokenizer:** Latin words with an optional apostrophe tail, numbers with an optional decimal tail, and runs of Hangul syllables;
- **term scoring and the descending ranking;**
- **the cloze and true/false builders;**
- **the quiz loop with its two quotas and early exit;**
- **the discussion prompts;**
- **the Markdown renderer;**
- **the mapping from the chosen section labels to the sections shown.**

Modules, one per stage. Each later module imports the ones it builds on:

- `Strings`: `Option`, substring search, first-occurrence replacement and decimal numerals.
- `Lexicon`: character classes, ASCII lower-casing and the stop-word set.
- `Tokenizer`, `Sentences` and `Scoring`.
- `FillBlank`, `TrueFalse`, `Quiz`, `Discussion` and `Output`.

The pure stages are functions with lemmas: tokenizing, splitting, the candidate choice and the true/false rule.

The stages that build their result step by step are methods with loops:

- the token and count loops of `score_tokens`;
- the candidate loop with early return of `make_fill_in_blank`;
- the reassignments of `make_true_false`;
- the quota loop with `break` of `generate_quiz`;
- the prompt loop;
- the section loops of `format_output`.

Most methods are proved equal to a specification function, whose properties are proved as lemmas:

- `MakeFillInBlank` equals `FillBlankOf`, `MakeTrueFalse` equals `TrueFalseOf`;
- `GenerateQuiz` equals `QuizOf`, `GenerateDiscussionTopics` equals `TopicsOf`;
- `FormatOutput` and `GenerateAll` equal `Render`.

Two are proved against the properties the source promises instead: `Count` against the multiset of its input, and `ScoreTokens` against a descending ranking of the content terms.

Randomness is a parameter. One true/false item takes a `Draw`:

- `coin` stands for `rnd.random() < 0.6`;
- `pick` chooses among the numbers, taken modulo their count;
- `offset` is the `randint(1, 10)` raise, typed `1..10`.

The quiz takes `rng: nat -> Draw` and gives `rng(j)` to sentence `j`.

Two behaviours of the code that a reader might not expect, both followed by the model:

- The split class `[\.\!\?\。\?!]` (app.py:23) contains only ASCII `.`, `!` and `?` and the ideographic full stop. The second `\?` and `!` are ASCII duplicates, so a full-width question mark does not end a sentence.
- Writing a cloze answer back into the first `____` of its question can fail to restore a sentence that contains an underscore. `FillBlank.ClozeRefills` proves the round trip for every sentence without an underscore. That condition is sufficient, but it is not claimed to be necessary: the model does not say which sentences with an underscore refill correctly. `FillBlank.ClozeRefillCounterexample` shows the sentence `_x`, for which the round trip fails.

## Model

| member | source | states |
|---|---|---|
| Strings.Find | app.py:47-48 | the search finds something exactly when the pattern occurs, and then at its leftmost occurrence |
| Strings.ReplaceFirst | app.py:63 | without an occurrence the string is unchanged; otherwise the string is `pre + pat + post` around the leftmost occurrence and the result is `pre + rep + post` |
| Strings.NatToString | app.py:62 | `str(n)` is a non-empty digit string without a leading zero |
| Strings.ParseNatToString | app.py:62 | `int(str(n)) == n` |
| Lexicon.LowerChar | app.py:33 | a capital letter becomes the letter at the same place in `a`-`z`; any other character is unchanged; the result is never a capital |
| Lexicon.LowerIdempotent | app.py:33 | lower-casing twice is lower-casing once |
| Lexicon.LowerOfLowercase | app.py:33 | a string without capital letters is its own lower case |
| Tokenizer.RunEnd | app.py:16 | a run of one class ends at the first character outside the class |
| Tokenizer.TokenizeCharacterization | app.py:16 | the matches are in-bounds, ordered and non-overlapping; each has the shape of one lexical class; none can be extended by its own class; every character that can start a token lies inside a match |
| Tokenizer.TokensOccur | app.py:26-27 | every token is non-empty and occurs in the text |
| Tokenizer.TokensHaveShape | app.py:16 | every token is a string of one lexical class |
| Tokenizer.TokenRescans | app.py:16 | a string of one lexical class tokenizes to itself alone |
| Tokenizer.TokenizeIdempotent | app.py:26-27 | tokenizing a token gives back exactly that token |
| Sentences.Strip | app.py:24 | the result has no whitespace at either end, is a slice of the input, and only whitespace lies outside it |
| Sentences.Normalize | app.py:22 | the normalised text is stripped and its only whitespace is single spaces |
| Sentences.CollapseFrom | app.py:22 | the collapsed text is single-spaced and no longer than the input |
| Sentences.CollapseKeepsVisible | app.py:22 | collapsing whitespace keeps every non-whitespace character, in order |
| Sentences.CollapseAppend | app.py:22 | collapsing a concatenation collapses the two parts, the second one starting inside a run exactly when the first ends in whitespace |
| Sentences.CollapseSpaces | app.py:22 | a non-empty whitespace run becomes one space, or nothing when it continues a run |
| Sentences.CollapseRun | app.py:22 | a whitespace run between two other characters becomes exactly one space, and the text on either side collapses on its own |
| Sentences.NormalizeKeepsVisible | app.py:22 | normalising keeps every non-whitespace character of the text, in order, and adds none |
| Sentences.NextCut | app.py:23 | the first place at or after `from` where the split regex matches |
| Sentences.SplitJoins | app.py:23 | joining the pieces with single spaces gives back the normalised text |
| Sentences.SplitPieces | app.py:23 | every piece but the last ends with a sentence marker, and no piece contains a split point |
| Sentences.PiecesEndWithMarker | app.py:23 | every piece but the last is non-empty and ends with a sentence marker |
| Sentences.PiecesHaveNoCut | app.py:23 | no piece contains a split point |
| Sentences.KeepSentences | app.py:24 | the kept parts are stripped, have at least three characters and are no more than the pieces |
| Sentences.KeepSentencesAppend | app.py:24 | keeping works piece by piece: the kept sentences of two lists of pieces, one after the other, are the kept sentences of their concatenation, so the sentences keep the order of their pieces |
| Sentences.KeepSentencesMembers | app.py:24 | a string is kept exactly when it is the stripped form, of at least three characters, of one of the pieces |
| Sentences.SplitSentences | app.py:19-24 | every sentence has at least three characters and no whitespace at either end; the empty text has none |
| Sentences.SplitSentencesMembers | app.py:19-24 | the sentences are exactly the stripped pieces, of at least three characters, of the normalised text split after its sentence markers |
| Sentences.BlankTextHasNoSentences | app.py:20-24 | a text of whitespace only has no sentences |
| Scoring.ContentTokens | app.py:33 | a term occurs in the filtered list as often as in the tokens when its lower-case form is not a stop word, and never otherwise |
| Scoring.Count | app.py:33 | the counter holds exactly the distinct elements, each with its number of occurrences, and its keys are listed once each |
| Scoring.CollectTokens | app.py:30-32 | the `extend` loop gives the tokens of every sentence, in order |
| Scoring.ScoreItems | app.py:34-37 | the `scores` loop pairs each counted term with `4 * count + length`, in the order of the counter |
| Scoring.InsertByScore | app.py:38 | inserting into a descending list keeps it descending and adds one element |
| Scoring.SortByScore | app.py:38 | the sorted list is descending by score and as long as the input |
| Scoring.SortPermutes | app.py:38 | sorting is a permutation |
| Scoring.SortKeepsDistinct | app.py:38 | sorting keeps the terms distinct |
| Scoring.ItemsAreRanking | app.py:34-37 | the dictionary items hold every content term once, scored `4 * count + length` |
| Scoring.SortKeepsRanking | app.py:38 | sorting keeps that ranking property |
| Scoring.SameMembersKeepRanking | app.py:38 | any reordering with the same members keeps the ranking property |
| Scoring.ScoreTokens | app.py:29-38 | the result is sorted by score, highest first; it holds each distinct token whose lower-case form is not a stop word exactly once and nothing else; each score is four times the term's count plus its length |
| FillBlank.FirstCandidate | app.py:43 | the index of the first token of two or more characters that is not a stop word (case-sensitively), or the length when there is none |
| FillBlank.Candidates | app.py:43 | the candidates are candidate tokens; there are none exactly when no token qualifies; the first is the first qualifying token |
| FillBlank.LongestIndex | app.py:45 | `max(toks, key=len)` is a longest token, and no earlier token is as long |
| FillBlank.Pool | app.py:44-45 | the pool draws from the tokens and is empty exactly when there are no tokens |
| FillBlank.FillBlankOf | app.py:41-51 | there is a question exactly when the sentence has a token; the answer is the first candidate token, or else the first longest token |
| FillBlank.MakeFillInBlank | app.py:41-51 | the candidate loop with early return gives exactly that question, and none exactly when the sentence has no token |
| FillBlank.ClozeReplacesFirstOccurrence | app.py:46-50 | the sentence is `pre + answer + post` with no earlier occurrence of the answer, and the question is `pre + "____" + post` |
| FillBlank.ClozeQuestionNonEmpty | app.py:49 | a question is never shorter than the blank, so the test `if q` of app.py:81 always passes |
| FillBlank.ClozeRefills | app.py:49 | for a sentence without underscores, replacing the first blank of the question with the answer gives back the sentence |
| FillBlank.RefillAt | app.py:49 | the first blank of `pre + "____" + post` is the one after `pre` when `pre` has no underscore |
| FillBlank.ClozeRefillCounterexample | app.py:49 | for `_x` the question is `_____` with answer `x`, and refilling gives `x_`, not the sentence |
| TrueFalse.DigitRunsFrom | app.py:59 | every run found from position `i` on is a non-empty span of digits inside the sentence |
| TrueFalse.DigitRunsStartClean | app.py:59 | no run is preceded by a digit at or after `i` |
| TrueFalse.DigitRunsEndClean | app.py:59 | no run is followed by a digit |
| TrueFalse.DigitRunsOrdered | app.py:59 | each run ends strictly before the next one starts |
| TrueFalse.DigitRunsCover | app.py:59 | every digit at or after `i` lies in a run |
| TrueFalse.DigitRunsExist | app.py:59 | there is a run exactly when the sentence has a digit |
| TrueFalse.DigitRuns | app.py:59 | `re.findall(r'\d+')` gives the text of each maximal run, in order: non-empty digit strings occurring in the sentence, none exactly when it has no digit |
| TrueFalse.DigitRunsOfExample | app.py:59 | `12 2` gives the runs `12` and `2` |
| TrueFalse.TrueFalseRules | app.py:56-67 | the statement is false exactly when the sentence has a number and the coin came up; a true statement is the sentence with the plain explanation; a false one differs from the sentence by the first occurrence of one of its numbers replaced by that number raised by the offset, with the change reported |
| TrueFalse.ReplaceChanges | app.py:63 | replacing an occurring pattern by a different string changes the string |
| TrueFalse.ReplaceHitsEarlierNumber | app.py:61-63 | in `12 2`, raising the drawn run `2` by one changes the `2` inside `12`, giving `13 2` |
| TrueFalse.MakeTrueFalse | app.py:54-67 | the step-by-step reassignments give exactly the rule's item, false exactly when there is a number and the coin came up |
| Quiz.Capped | app.py:76 | a list that only grows while shorter than the limit ends at the limit when enough items come, with all of them otherwise, and empty for a limit of zero or less |
| Quiz.SomesMembers | app.py:81 | exactly the present questions are kept |
| Quiz.SomesAppend | app.py:81 | keeping the present questions distributes over concatenation |
| Quiz.TakeSomesStep | app.py:79-81 | one more sentence adds its question only while the list is below its quota |
| Quiz.TakeSomesFull | app.py:82-83 | once the quota is met the remaining sentences add nothing, which justifies the `break` |
| Quiz.TakeBounds | app.py:79 | a capped list is no longer than its source or its limit, and empty for a limit of zero or less |
| Quiz.UsableClozesFrom | app.py:79-81 | a question is usable exactly when some sentence gives it |
| Quiz.TrueFalseAt | app.py:77-78 | the item built for sentence i is that sentence's rule item |
| Quiz.ClozeAt | app.py:80-81 | the question built for sentence i is that sentence's question, never empty |
| Quiz.TrueFalseStep | app.py:76-78 | one round adds the sentence's item exactly while fewer than `num_tf` are made, keeping the items those of the first sentences |
| Quiz.ClozeStep | app.py:79-81 | one round adds the sentence's question, if it has one, exactly while fewer than `num_blank` are made |
| Quiz.Assemble | app.py:75-83 | the loop collects the true/false items of the first `num_tf` sentences and the first `num_blank` usable questions, in sentence order |
| Quiz.QuizOfShape | app.py:70-84 | the quiz value has `min(num_tf, len(sents))` true/false items (none for a quota of zero or less), item j being the rule item of sentence j, and the first `num_blank` usable questions in order, no more than sentences or the quota |
| Quiz.GenerateQuiz | app.py:70-84 | `len(tf) == min(num_tf, len(sents))` (none for a quota of zero or less), item j is the rule item of sentence j, the questions are the first `num_blank` usable ones in order, and there are no more than sentences or the quota; the result is `QuizOf` of the same arguments |
| Discussion.SliceEnd | app.py:90 | the length of the slice `sents[:num]`: `num` when it is in range; all of them when `num` is at least the length; `n + num` for a negative `num` counting from the end; none when `-num` is at least the length |
| Discussion.TopicQuotes | app.py:91 | a prompt quotes its sentence at its start |
| Discussion.TopicInjective | app.py:91 | different sentences give different prompts |
| Discussion.GenerateDiscussionTopics | app.py:87-92 | one prompt per sentence of `sents[:num]`, in order; the result is `TopicsOf` of the same arguments |
| Output.Section | app.py:97-101 | a section not shown is empty; a shown one opens with its header |
| Output.StartsWithConcat | app.py:96-115 | appending to a text keeps its prefix |
| Output.SectionsShape | app.py:95-115 | three glued sections are empty exactly when none is shown and open with the header of the first one shown |
| Output.RenderShape | app.py:95-115 | the output is empty exactly when no section is both on and non-empty; it opens with the discussion header exactly when that section is shown, and otherwise with the header of the first section shown |
| Output.WriteDiscussionLines | app.py:99-100 | the loop writes entry `i) prompt` for each prompt, numbered from 1 |
| Output.WriteTrueFalseLines | app.py:104-107 | the loop writes statement, verdict and explanation lines for each item, numbered from 1 |
| Output.WriteBlankLines | app.py:111-113 | the loop writes question and answer lines for each question, numbered from 1 |
| Output.FormatOutput | app.py:95-115 | the accumulated text is the three sections, in order, each only when on and non-empty |
| Output.GenerateAll | app.py:118-124 | the output is `Render` of the prompts (when the discussion section is chosen, none otherwise), the quiz `QuizOf` and the three flags read from `types`; it is empty exactly when no chosen section has an entry, for the empty text in particular, and opens with the discussion header exactly when that section is chosen and has a prompt |

## Left out

- The Gradio interface and its launch (app.py:126-141): they are user interface and hosting.
- The ambient `random.Random()` (app.py:55, 74): randomness is a parameter. `rng` hands draw j to sentence j, whereas the source draws from one generator. It draws only for the sentences that make a true/false item, and draws `choice` and `randint` only when the coin comes up.
- `rnd.random() < 0.6` (app.py:60) is a boolean coin: its probability is not modelled.
- `rnd.choice(nums)` is `nums[pick % len(nums)]`: the distribution is not modelled.
- The float score `f + len(t)/4` (app.py:36) is the integer `4 * f + len(t)`: it is four times the float, so the order is the same.
- Scoring.ScoreTokens: the order among equal scores is left unspecified. In the source it is the insertion order of `Counter`, kept by the stable sort. The model's sort is stable too, but no contract states it.
- Python's `\s`, `\d` and `str.lower()` act on all of Unicode. The model restricts them:
  - whitespace to the ASCII characters that `str.isspace` accepts;
  - digits to `0`-`9`;
  - lower-casing to `A`-`Z`.
- The default arguments (`num_tf=3`, `num=3`, the `show_*` defaults, `rnd=None`): every argument is passed explicitly.
- The unused parameters (`text` of `score_tokens`, `scored_tokens` of both builders) are kept and are never read.
- The first-match loop of `make_fill_in_blank` compiles `re.escape(target)`. It is modelled as plain substring search, which is what an escaped pattern matches.
- The Korean template and header strings are copied as constants. Only their structure is proved: one quoted sentence per prompt, and the header at the start of each section.
- Output.FormatOutput: each section's lines are built by their own loop and then appended to `out`, rather than appended to `out` line by line. This gives the same text.
- Quiz.Assemble: each round of `generate_quiz`'s loop is split into two helper methods, one for the true/false half and one for the cloze half.
- TrueFalse.TrueFalseOf: CPython's `int()` (app.py:62) refuses a digit run of more than 4300 digits by default (`sys.int_max_str_digits`), raising `ValueError`. The model parses runs of any length.
- Scoring.ScoreTokens: its two loops are separate methods, `CollectTokens` and `ScoreItems`.
