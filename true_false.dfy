/** `make_true_false` (app.py:54-67): keep the sentence as a true statement,
    or, when it has a number and the coin says so, raise one of its numbers
    by 1 to 10 and mark the statement false. */
module TrueFalse {
  import opened Strings
  import opened Tokenizer
  import opened Scoring

  /** `rnd.randint(1, 10)`: both ends included. */
  type Offset = k: int | 1 <= k <= 10 witness 1

  /** The three draws `make_true_false` may take from its random source:
      `coin` is `rnd.random() < 0.6`, `pick` chooses among the numbers
      (`rnd.choice`, taken modulo their count) and `offset` is the raise. */
  datatype Draw = Draw(coin: bool, pick: nat, offset: Offset)

  /** The dictionary `{"statement", "answer", "explanation"}` of app.py:78. */
  datatype TrueFalseItem = TrueFalseItem(statement: string, answer: bool, explanation: string)

  predicate HasDigit(s: string)
  {
    exists j :: 0 <= j < |s| && IsDigit(s[j])
  }

  /** The positions `[start, end)` of a digit run. */
  datatype Run = Run(start: nat, end: nat)

  /** Where `re.findall(r'\d+', s)` matches from `i` on: the digit runs,
      left to right (the lemmas below show they are the maximal ones). */
  function DigitRunsFrom(s: string, i: nat): (r: seq<Run>)
    requires i <= |s|
    ensures forall k :: 0 <= k < |r| ==> i <= r[k].start < r[k].end <= |s|
    ensures forall k, j :: 0 <= k < |r| && r[k].start <= j < r[k].end ==> IsDigit(s[j])
    decreases |s| - i
  {
    if i == |s| then []
    else if IsDigit(s[i]) then
      var e := RunEnd(s, Number, i);
      [Run(i, e)] + DigitRunsFrom(s, e)
    else DigitRunsFrom(s, i + 1)
  }

  /** No run is preceded by a digit after `i`. */
  lemma {:induction false} DigitRunsStartClean(s: string, i: nat)
    requires i <= |s|
    ensures forall k :: 0 <= k < |DigitRunsFrom(s, i)| ==>
      DigitRunsFrom(s, i)[k].start == i || !IsDigit(s[DigitRunsFrom(s, i)[k].start - 1])
    decreases |s| - i
  {
    if i < |s| {
      if IsDigit(s[i]) {
        var e := RunEnd(s, Number, i);
        var rest := DigitRunsFrom(s, e);
        DigitRunsStartClean(s, e);
        assert DigitRunsFrom(s, i) == [Run(i, e)] + rest;
        assert forall k :: 0 <= k < |rest| ==> IsDigit(s[rest[k].start]);
      } else {
        assert DigitRunsFrom(s, i) == DigitRunsFrom(s, i + 1);
        DigitRunsStartClean(s, i + 1);
      }
    }
  }

  /** No run is followed by a digit. */
  lemma {:induction false} DigitRunsEndClean(s: string, i: nat)
    requires i <= |s|
    ensures forall k :: 0 <= k < |DigitRunsFrom(s, i)| ==>
      DigitRunsFrom(s, i)[k].end == |s| || !IsDigit(s[DigitRunsFrom(s, i)[k].end])
    decreases |s| - i
  {
    if i < |s| {
      if IsDigit(s[i]) {
        var e := RunEnd(s, Number, i);
        DigitRunsEndClean(s, e);
        assert DigitRunsFrom(s, i) == [Run(i, e)] + DigitRunsFrom(s, e);
      } else {
        assert DigitRunsFrom(s, i) == DigitRunsFrom(s, i + 1);
        DigitRunsEndClean(s, i + 1);
      }
    }
  }

  /** Each run lies strictly before the next. */
  lemma {:induction false} DigitRunsOrdered(s: string, i: nat)
    requires i <= |s|
    ensures forall k :: 0 <= k < |DigitRunsFrom(s, i)| - 1 ==>
      DigitRunsFrom(s, i)[k].end < DigitRunsFrom(s, i)[k + 1].start
    decreases |s| - i
  {
    if i < |s| {
      if IsDigit(s[i]) {
        var e := RunEnd(s, Number, i);
        var rest := DigitRunsFrom(s, e);
        DigitRunsOrdered(s, e);
        assert DigitRunsFrom(s, i) == [Run(i, e)] + rest;
        if rest != [] {
          assert IsDigit(s[rest[0].start]);
        }
      } else {
        assert DigitRunsFrom(s, i) == DigitRunsFrom(s, i + 1);
        DigitRunsOrdered(s, i + 1);
      }
    }
  }

  /** Every digit from `i` on lies in one of the runs. */
  lemma {:induction false} DigitRunsCover(s: string, i: nat, j: nat)
    requires i <= j < |s| && IsDigit(s[j])
    ensures exists k :: (0 <= k < |DigitRunsFrom(s, i)| &&
      DigitRunsFrom(s, i)[k].start <= j < DigitRunsFrom(s, i)[k].end)
    decreases |s| - i
  {
    var r := DigitRunsFrom(s, i);
    if IsDigit(s[i]) {
      var e := RunEnd(s, Number, i);
      assert r == [Run(i, e)] + DigitRunsFrom(s, e);
      if j < e {
        assert r[0].start <= j < r[0].end;
      } else {
        DigitRunsCover(s, e, j);
        var k :| 0 <= k < |DigitRunsFrom(s, e)| && DigitRunsFrom(s, e)[k].start <= j < DigitRunsFrom(s, e)[k].end;
        assert r[k + 1] == DigitRunsFrom(s, e)[k];
      }
    } else {
      assert r == DigitRunsFrom(s, i + 1);
      DigitRunsCover(s, i + 1, j);
    }
  }

  /** `re.findall(r'\d+', s)`: the text of each maximal digit run, in
      order. There is a run exactly when `s` has a digit. */
  function DigitRuns(s: string): (r: seq<string>)
    ensures var runs := DigitRunsFrom(s, 0);
      |r| == |runs| && forall k :: 0 <= k < |r| ==> r[k] == s[runs[k].start..runs[k].end]
    ensures forall k :: 0 <= k < |r| ==> |r[k]| > 0 && AllDigits(r[k]) && Contains(s, r[k])
    ensures r == [] <==> !HasDigit(s)
  {
    var runs := DigitRunsFrom(s, 0);
    DigitRunsExist(s);
    var r := RunTexts(s, runs);
    assert forall k :: 0 <= k < |r| ==> OccursAt(s, r[k], runs[k].start);
    r
  }

  /** The text of each run, in order. */
  function RunTexts(s: string, runs: seq<Run>): (r: seq<string>)
    requires forall k :: 0 <= k < |runs| ==> runs[k].start <= runs[k].end <= |s|
    ensures |r| == |runs| && forall k :: 0 <= k < |r| ==> r[k] == s[runs[k].start..runs[k].end]
  {
    if runs == [] then [] else [s[runs[0].start..runs[0].end]] + RunTexts(s, runs[1..])
  }

  /** There is a run exactly when `s` has a digit. */
  lemma DigitRunsExist(s: string)
    ensures DigitRunsFrom(s, 0) == [] <==> !HasDigit(s)
  {
    var runs := DigitRunsFrom(s, 0);
    if runs != [] {
      assert IsDigit(s[runs[0].start]);
    }
    if HasDigit(s) {
      var j :| 0 <= j < |s| && IsDigit(s[j]);
      DigitRunsCover(s, 0, j);
    }
  }

  /** The explanation every statement starts with. */
  function Original(sent: string): string
  {
    "원문: '" + sent + "'"
  }

  /** What is appended to the explanation when `n` became `m`. */
  function Changed(n: string, m: string): string
  {
    " -> 숫자 변경 " + n + "→" + m
  }

  /** The item `make_true_false(sent, _, rnd)` returns when `rnd` yields `draw`. */
  function TrueFalseOf(sent: string, draw: Draw): TrueFalseItem
  {
    var nums := DigitRuns(sent);
    if nums != [] && draw.coin then Raise(sent, nums[draw.pick % |nums|], draw.offset)
    else TrueFalseItem(sent, true, Original(sent))
  }

  /** The false statement: the first occurrence of the digit run `n` raised
      by `offset`, and the explanation saying so. */
  function Raise(sent: string, n: string, offset: Offset): TrueFalseItem
    requires AllDigits(n)
  {
    var m := NatToString(ParseNat(n) + offset);
    TrueFalseItem(ReplaceFirst(sent, n, m), false, Original(sent) + Changed(n, m))
  }

  /** `item` is `sent` with the first occurrence of the digit run `n`
      replaced by the decimal numeral of `int(n) + offset`, and says so. */
  predicate Altered(sent: string, n: string, offset: Offset, item: TrueFalseItem)
  {
    && AllDigits(n)
    && var m := NatToString(ParseNat(n) + offset);
       && ParseNat(m) == ParseNat(n) + offset
       && item.statement == ReplaceFirst(sent, n, m)
       && item.explanation == Original(sent) + Changed(n, m)
  }

  /** The rules of `make_true_false`: the statement is false exactly when the
      sentence has a number and the coin came up; a true statement is the
      sentence itself; a false one differs from the sentence, by one of its
      numbers raised by the drawn offset. */
  lemma TrueFalseRules(sent: string, draw: Draw)
    ensures var item := TrueFalseOf(sent, draw);
      && (item.answer <==> !(HasDigit(sent) && draw.coin))
      && (item.answer ==> item.statement == sent && item.explanation == Original(sent))
      && (!item.answer ==> item.statement != sent)
      && (!item.answer ==> exists n :: n in DigitRuns(sent) && Altered(sent, n, draw.offset, item))
  {
    var item := TrueFalseOf(sent, draw);
    var nums := DigitRuns(sent);
    if nums != [] && draw.coin {
      var n := nums[draw.pick % |nums|];
      var m := NatToString(ParseNat(n) + draw.offset);
      ParseNatToString(ParseNat(n) + draw.offset);
      assert m != n;
      ReplaceChanges(sent, n, m);
      assert Altered(sent, n, draw.offset, item);
    }
  }

  /** Replacing an occurring pattern by a different string changes the string. */
  lemma ReplaceChanges(s: string, n: string, m: string)
    requires Contains(s, n)
    requires n != m
    ensures ReplaceFirst(s, n, m) != s
  {
    var r := ReplaceFirst(s, n, m);
    var i :| FirstOccurrence(s, n, i) && s == s[..i] + n + s[i + |n|..]
             && r == s[..i] + m + s[i + |n|..];
    if |m| == |n| {
      assert r[i..i + |m|] == m;
      assert s[i..i + |n|] == n;
    } else {
      assert |r| != |s|;
    }
  }

  /** The replacement is by text, not by position: a chosen run that also
      occurs inside an earlier, longer number is changed there. In "12 2"
      the draw of the run "2" raised by 1 yields "13 2", while the
      explanation reports the change 2→3. */
  lemma ReplaceHitsEarlierNumber()
    ensures TrueFalseOf("12 2", Draw(true, 1, 1))
            == TrueFalseItem("13 2", false, Original("12 2") + Changed("2", "3"))
  {
    DigitRunsOfExample();
    assert ParseNat("2") == 2;
    assert NatToString(3) == "3";
    ReplaceOfExample();
  }

  lemma DigitRunsOfExample()
    ensures DigitRuns("12 2") == ["12", "2"]
  {
    var s := "12 2";
    assert RunEnd(s, Number, 4) == 4;
    assert RunEnd(s, Number, 3) == 4;
    assert DigitRunsFrom(s, 4) == [];
    assert DigitRunsFrom(s, 3) == [Run(3, 4)];
    assert DigitRunsFrom(s, 2) == [Run(3, 4)];
    assert RunEnd(s, Number, 2) == 2;
    assert RunEnd(s, Number, 1) == 2;
    assert RunEnd(s, Number, 0) == 2;
    assert DigitRunsFrom(s, 0) == [Run(0, 2), Run(3, 4)];
    assert s[0..2] == "12" && s[3..4] == "2";
  }

  lemma ReplaceOfExample()
    ensures ReplaceFirst("12 2", "2", "3") == "13 2"
  {
    var s := "12 2";
    assert s[0..1] == "1" && "1"[0] != "2"[0];
    assert FindFrom(s, "2", 1) == Some(1);
    assert Find(s, "2") == Some(1);
    assert s[..1] + "3" + s[2..] == "13 2";
  }

  /** `make_true_false(sent, scored_tokens, rnd)` with the draws of `rnd`
      given as `draw`. `ranked` is unused, as in the source. */
  method MakeTrueFalse(sent: string, ranked: seq<ScoredTerm>, draw: Draw)
    returns (statement: string, truth: bool, explanation: string)
    ensures TrueFalseItem(statement, truth, explanation) == TrueFalseOf(sent, draw)
    ensures truth <==> !(HasDigit(sent) && draw.coin)
  {
    statement := sent;
    truth := true;
    explanation := Original(sent);
    var nums := DigitRuns(statement);
    if nums != [] && draw.coin {
      var n := nums[draw.pick % |nums|];
      RaisedItem(sent, draw, n);
      var m := NatToString(ParseNat(n) + draw.offset);
      RaiseFields(sent, n, draw.offset, m);
      statement := ReplaceFirst(statement, n, m);
      truth := false;
      explanation := explanation + Changed(n, m);
      return;
    }
    KeptItem(sent, draw);
  }

  /** The item when a number is raised, one step of TrueFalseOf. */
  lemma RaisedItem(sent: string, draw: Draw, n: string)
    requires DigitRuns(sent) != [] && draw.coin
    requires n == DigitRuns(sent)[draw.pick % |DigitRuns(sent)|]
    ensures AllDigits(n) && TrueFalseOf(sent, draw) == Raise(sent, n, draw.offset)
    ensures HasDigit(sent)
  {
  }

  /** The fields of the false statement. */
  lemma RaiseFields(sent: string, n: string, offset: Offset, m: string)
    requires AllDigits(n) && m == NatToString(ParseNat(n) + offset)
    ensures Raise(sent, n, offset) == TrueFalseItem(ReplaceFirst(sent, n, m), false, Original(sent) + Changed(n, m))
  {
  }

  /** The item when the sentence is kept, the other step of TrueFalseOf. */
  lemma KeptItem(sent: string, draw: Draw)
    requires !(DigitRuns(sent) != [] && draw.coin)
    ensures TrueFalseOf(sent, draw) == TrueFalseItem(sent, true, Original(sent))
    ensures !(HasDigit(sent) && draw.coin)
  {
  }
}
