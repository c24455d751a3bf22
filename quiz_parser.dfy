/**
 * `parseQAFormat` (apps/backend/src/services/hf.ts, inside `generateQuiz`):
 * reads multiple-choice questions written as
 *
 *     Q: question
 *     A) choice ... D) choice
 *     Answer: letter
 *
 * from the text a model produced. Every line is classified once by the
 * regular expressions the source tests it with (`Classify`); a line matches
 * at most one of them. The loop of the source is the method
 * `ParseQAFormat`; `Scan` is the same reading as a function, and
 * `PerQuestion` states the result independently of the loop: one item for
 * every question line whose block is complete.
 */
module QuizParser {
  import opened Text
  import opened Outcome
  import opened LineSplit

  datatype QuizItem = QuizItem(question: string, choices: seq<string>, answerIndex: int)

  /** `/^Q:/i`. */
  predicate IsQuestionLine(l: string) {
    StartsWithCI(l, "Q:")
  }

  /** `line.replace(/^Q:\s*\/i, '').trim()`. */
  function QuestionText(l: string): string
    requires IsQuestionLine(l)
  {
    Trim(TrimStart(l[2..]))
  }

  /** `.` in a regular expression matches every character of `s`. */
  predicate SingleLine(s: string) {
    forall k :: 0 <= k < |s| ==> !IsLineTerminator(s[k])
  }

  /**
   * `/^([A-D])\)\s*(.*)$/i`: a letter A to D, a parenthesis, and a rest that
   * holds no line terminator once its leading whitespace is skipped.
   */
  predicate IsChoiceLine(l: string) {
    |l| >= 2 && 'a' <= Lower(l[0]) <= 'd' && l[1] == ')' && SingleLine(TrimStart(l[2..]))
  }

  /** `m[2].trim()`. */
  function ChoiceText(l: string): string
    requires IsChoiceLine(l)
  {
    Trim(TrimStart(l[2..]))
  }

  /** `/^Answer:/i`. */
  predicate IsAnswerLine(l: string) {
    StartsWithCI(l, "Answer:")
  }

  /** `['A','B','C','D'].indexOf(a.toUpperCase())`. */
  function LetterIndex(a: string): (r: int)
    ensures -1 <= r < 4
    ensures r >= 0 ==> |a| == 1 && Lower(a[0]) == "abcd"[r]
    ensures |a| == 1 && Lower(a[0]) in "abcd" ==> r >= 0
  {
    if |a| == 1 && 'a' <= Lower(a[0]) <= 'd' then Lower(a[0]) as int - 'a' as int else -1
  }

  /** The answer index an `Answer:` line gives, -1 when it names no letter A to D. */
  function AnswerIndex(l: string): (r: int)
    requires IsAnswerLine(l)
    ensures -1 <= r < 4
  {
    LetterIndex(Trim(TrimStart(l[7..])))
  }

  /** No choice line and no answer line is a question line, and no choice line is an answer line. */
  lemma LineKindsDisjoint(l: string)
    ensures IsChoiceLine(l) ==> !IsQuestionLine(l) && !IsAnswerLine(l)
    ensures IsAnswerLine(l) ==> !IsQuestionLine(l)
  {
    if IsQuestionLine(l) {
      assert Lower(l[1]) == ':';
    }
    if IsAnswerLine(l) {
      assert Lower(l[1]) == 'n';
    }
  }

  /** What the regular expressions of the parser see in a line. */
  datatype Tag = QuestionTag(question: string) | ChoiceTag(choice: string) | AnswerTag(index: AnswerSlot) | OtherTag

  /** An answer index, -1 standing for no letter A to D. */
  type AnswerSlot = x: int | -1 <= x < 4

  function Classify(l: string): Tag {
    if IsQuestionLine(l) then QuestionTag(QuestionText(l))
    else if IsChoiceLine(l) then ChoiceTag(ChoiceText(l))
    else if IsAnswerLine(l) then AnswerTag(AnswerIndex(l))
    else OtherTag
  }

  /** Each test of the source agrees with the classification, because the kinds are disjoint. */
  lemma ClassifyAgrees(l: string)
    ensures Classify(l).QuestionTag? <==> IsQuestionLine(l)
    ensures Classify(l).ChoiceTag? <==> IsChoiceLine(l)
    ensures Classify(l).AnswerTag? <==> IsAnswerLine(l)
  {
    LineKindsDisjoint(l);
  }

  /** The classification of every line. */
  function Tags(lines: seq<string>): seq<Tag> {
    ClassifyLines(lines, Classify)
  }

  /** The texts of the choice lines starting at `i`, at most `k` of them. */
  function Choices(tags: seq<Tag>, i: nat, k: nat): (r: seq<string>)
    requires i <= |tags|
    ensures |r| <= k && i + |r| <= |tags|
    decreases k
  {
    if k == 0 || i == |tags| || !tags[i].ChoiceTag? then []
    else [tags[i].choice] + Choices(tags, i + 1, k - 1)
  }

  /**
   * The choices are the texts of the choice lines right after `i`, and the
   * run stops at `k` lines, at the end, or at a line that is not a choice.
   */
  lemma {:induction false} ChoicesRun(tags: seq<Tag>, i: nat, k: nat)
    requires i <= |tags|
    ensures var r := Choices(tags, i, k);
      (forall j :: i <= j < i + |r| ==> tags[j].ChoiceTag? && r[j - i] == tags[j].choice) &&
      (|r| < k && i + |r| < |tags| ==> !tags[i + |r|].ChoiceTag?)
    decreases k
  {
    if k > 0 && i < |tags| && tags[i].ChoiceTag? {
      ChoicesRun(tags, i + 1, k - 1);
    }
  }

  /** One question block and the position where reading resumes after it. */
  datatype Block = Block(item: QuizItem, next: nat)

  /**
   * The block of the question line at `i`: the question, up to four choice
   * lines right after it, and the answer line right after those if there is
   * one.
   */
  function BlockAt(tags: seq<Tag>, i: nat): (b: Block)
    requires i < |tags| && tags[i].QuestionTag?
    ensures i < b.next <= |tags|
  {
    var cs := Choices(tags, i + 1, 4);
    var j := i + 1 + |cs|;
    if j < |tags| && tags[j].AnswerTag? then Block(QuizItem(tags[i].question, cs, tags[j].index), j + 1)
    else Block(QuizItem(tags[i].question, cs, -1), j)
  }

  /** `question && choices.length === 4 && answerIndex >= 0`. */
  predicate Accepted(item: QuizItem) {
    item.question != [] && |item.choices| == 4 && item.answerIndex >= 0
  }

  /** What the reading loop collects from position `i` on. */
  function Scan(tags: seq<Tag>, i: nat): seq<QuizItem>
    requires i <= |tags|
    decreases |tags| - i
  {
    if i == |tags| then []
    else if !tags[i].QuestionTag? then Scan(tags, i + 1)
    else
      var b := BlockAt(tags, i);
      (if Accepted(b.item) then [b.item] else []) + Scan(tags, b.next)
  }

  /** The item a question line contributes to the reference reading. */
  function ItemAt(tags: seq<Tag>, i: nat): seq<QuizItem>
    requires i < |tags|
  {
    if tags[i].QuestionTag? && Accepted(BlockAt(tags, i).item) then [BlockAt(tags, i).item] else []
  }

  /** The reference reading: one item for every question line whose block is accepted. */
  function PerQuestion(tags: seq<Tag>, i: nat): seq<QuizItem>
    requires i <= |tags|
    decreases |tags| - i
  {
    if i == |tags| then [] else ItemAt(tags, i) + PerQuestion(tags, i + 1)
  }

  /** The number of question lines from `i` on. */
  function QuestionLines(tags: seq<Tag>, i: nat): nat
    requires i <= |tags|
    decreases |tags| - i
  {
    if i == |tags| then 0 else (if tags[i].QuestionTag? then 1 else 0) + QuestionLines(tags, i + 1)
  }

  /** `parseQAFormat(rawText)`: null for an empty text or when no item is accepted. */
  function ParseQA(rawText: string): (r: Option<seq<QuizItem>>)
    ensures rawText == [] ==> r == None
    ensures r.Some? ==>
      var items := r.value;
      items != [] && |items| <= QuestionLines(Tags(Lines(rawText)), 0) &&
      forall k :: 0 <= k < |items| ==>
        items[k].question != [] && |items[k].choices| == 4 && 0 <= items[k].answerIndex < 4
  {
    if rawText == [] then None
    else
      var tags := Tags(Lines(rawText));
      ScanIsPerQuestion(tags, 0);
      PerQuestionShape(tags, 0);
      var items := Scan(tags, 0);
      if items != [] then Some(items) else None
  }

  method ParseQAFormat(rawText: string) returns (r: Option<seq<QuizItem>>)
    ensures r == ParseQA(rawText)
  {
    if rawText == [] {
      return None;
    }
    var items := ReadItems(Tags(Lines(rawText)));
    r := if items != [] then Some(items) else None;
  }

  /** The outer reading loop over the classified lines. */
  method ReadItems(tags: seq<Tag>) returns (items: seq<QuizItem>)
    ensures items == Scan(tags, 0)
  {
    items := [];
    var i := 0;
    while i < |tags|
      invariant i <= |tags|
      invariant items + Scan(tags, i) == Scan(tags, 0)
      decreases |tags| - i
    {
      if !tags[i].QuestionTag? {
        i := i + 1;
        continue;
      }
      var item, next := ReadBlock(tags, i);
      if Accepted(item) {
        items := items + [item];
      }
      i := next;
    }
  }

  /** The body of the reading loop for the question line at `start`. */
  method ReadBlock(tags: seq<Tag>, start: nat) returns (item: QuizItem, next: nat)
    requires start < |tags| && tags[start].QuestionTag?
    ensures Block(item, next) == BlockAt(tags, start)
  {
    var question := tags[start].question;
    var choices, i := ReadChoices(tags, start + 1);
    var answerIndex := -1;
    if i < |tags| && tags[i].AnswerTag? {
      answerIndex := tags[i].index;
      i := i + 1;
    }
    item, next := QuizItem(question, choices, answerIndex), i;
  }

  /** The inner loop of `parseQAFormat`: up to four choice lines from `start`. */
  method ReadChoices(tags: seq<Tag>, start: nat) returns (choices: seq<string>, i: nat)
    requires start <= |tags|
    ensures choices == Choices(tags, start, 4) && i == start + |choices|
  {
    i := start;
    choices := [];
    while i < |tags| && |choices| < 4
      invariant i == start + |choices| <= |tags| && |choices| <= 4
      invariant Choices(tags, start, 4) == choices + Choices(tags, i, 4 - |choices|)
      decreases 4 - |choices|
    {
      if tags[i].ChoiceTag? {
        ChoicesExtend(tags, start, i, choices);
        choices := choices + [tags[i].choice];
        i := i + 1;
        continue;
      }
      break;
    }
    ChoicesStep(tags, i, 4 - |choices|);
    assert Choices(tags, i, 4 - |choices|) == [];
  }

  /** Taking one more choice line keeps the loop's invariant. */
  lemma ChoicesExtend(tags: seq<Tag>, start: nat, i: nat, choices: seq<string>)
    requires start <= i < |tags| && |choices| < 4 && tags[i].ChoiceTag?
    requires Choices(tags, start, 4) == choices + Choices(tags, i, 4 - |choices|)
    ensures Choices(tags, start, 4) == (choices + [tags[i].choice]) + Choices(tags, i + 1, 3 - |choices|)
  {
    ChoicesStep(tags, i, 4 - |choices|);
    SeqAssoc(choices, [tags[i].choice], Choices(tags, i + 1, 3 - |choices|));
  }

  lemma SeqAssoc(a: seq<string>, b: seq<string>, c: seq<string>)
    ensures a + (b + c) == (a + b) + c
  {
  }

  /** One step of `Choices`. */
  lemma ChoicesStep(tags: seq<Tag>, i: nat, k: nat)
    requires i <= |tags|
    ensures k == 0 || i == |tags| || !tags[i].ChoiceTag? ==> Choices(tags, i, k) == []
    ensures k > 0 && i < |tags| && tags[i].ChoiceTag? ==>
      Choices(tags, i, k) == [tags[i].choice] + Choices(tags, i + 1, k - 1)
  {
  }

  /**
   * A block holds the question of its line, the choices after it and the
   * index of the answer line that ends it, if any; none of its other lines
   * is a question line.
   */
  lemma BlockSpan(tags: seq<Tag>, i: nat)
    requires i < |tags| && tags[i].QuestionTag?
    ensures var b := BlockAt(tags, i);
      (forall j :: i < j < b.next ==> !tags[j].QuestionTag?) &&
      b.item.question == tags[i].question &&
      b.item.choices == Choices(tags, i + 1, 4) &&
      (b.item.answerIndex == -1 || (tags[b.next - 1].AnswerTag? && b.item.answerIndex == tags[b.next - 1].index))
  {
    ChoicesRun(tags, i + 1, 4);
  }

  lemma {:induction false} SkipNonQuestions(tags: seq<Tag>, i: nat, j: nat)
    requires i <= j <= |tags|
    requires forall k :: i <= k < j ==> !tags[k].QuestionTag?
    ensures PerQuestion(tags, i) == PerQuestion(tags, j)
    decreases j - i
  {
    if i < j {
      PerQuestionSkip(tags, i);
      SkipNonQuestions(tags, i + 1, j);
    }
  }

  /** A line that is not a question line contributes no item. */
  lemma PerQuestionSkip(tags: seq<Tag>, i: nat)
    requires i < |tags| && !tags[i].QuestionTag?
    ensures PerQuestion(tags, i) == PerQuestion(tags, i + 1)
  {
    assert ItemAt(tags, i) == [];
    assert [] + PerQuestion(tags, i + 1) == PerQuestion(tags, i + 1);
  }

  /**
   * The loop neither skips nor repeats a question: lines it consumes as
   * choices or answers are never question lines.
   */
  lemma {:induction false} ScanIsPerQuestion(tags: seq<Tag>, i: nat)
    requires i <= |tags|
    ensures Scan(tags, i) == PerQuestion(tags, i)
    decreases |tags| - i
  {
    if i < |tags| {
      if !tags[i].QuestionTag? {
        ScanIsPerQuestion(tags, i + 1);
      } else {
        var b := BlockAt(tags, i);
        BlockSpan(tags, i);
        ScanIsPerQuestion(tags, b.next);
        SkipNonQuestions(tags, i + 1, b.next);
      }
    }
  }

  /** Every item of the reference reading is accepted, and there is at most one per question line. */
  lemma {:induction false} PerQuestionShape(tags: seq<Tag>, i: nat)
    requires i <= |tags|
    ensures forall k :: 0 <= k < |PerQuestion(tags, i)| ==>
      Accepted(PerQuestion(tags, i)[k]) && PerQuestion(tags, i)[k].answerIndex < 4
    ensures |PerQuestion(tags, i)| <= QuestionLines(tags, i)
    decreases |tags| - i
  {
    if i < |tags| {
      PerQuestionShape(tags, i + 1);
      if tags[i].QuestionTag? {
        BlockSpan(tags, i);
      }
      assert PerQuestion(tags, i) == ItemAt(tags, i) + PerQuestion(tags, i + 1);
    }
  }

  /**
   * The parser returns the reference reading of the text's lines when it is
   * not empty, and null otherwise.
   */
  lemma ParseQAIsPerQuestion(rawText: string)
    ensures rawText == [] ==> ParseQA(rawText) == None
    ensures rawText != [] ==>
      var items := PerQuestion(Tags(Lines(rawText)), 0);
      ParseQA(rawText) == if items == [] then None else Some(items)
  {
    if rawText != [] {
      ScanIsPerQuestion(Tags(Lines(rawText)), 0);
    }
  }

}
