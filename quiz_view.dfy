/**
 * The state of the quiz component in apps/frontend/src/components/QuizView.tsx:
 * one selected choice per question (−1 for none), whether the results are
 * shown, and the score. Rendering is left out; the handlers are methods.
 */
module QuizView {
  import opened Text
  import QuizParser

  /** `{ question, choices, answerIndex }`, the record the quiz generator returns. */
  type Question = QuizParser.QuizItem

  /** Whether answer `i` is the correct one of question `i`. */
  predicate Hit(answers: seq<int>, quiz: seq<Question>, i: int)
    requires 0 <= i < |answers| <= |quiz|
  {
    answers[i] == quiz[i].answerIndex
  }

  /** `answers.reduce((s, a, i) => s + (a === quiz[i].answerIndex ? 1 : 0), 0)` over the first `n` answers. */
  function Score(answers: seq<int>, quiz: seq<Question>, n: nat): (r: nat)
    requires n <= |answers| <= |quiz|
    ensures r <= n
  {
    if n == 0 then 0 else Score(answers, quiz, n - 1) + (if Hit(answers, quiz, n - 1) then 1 else 0)
  }

  /** The indices of correctly answered questions among the first `n`. */
  function Correct(answers: seq<int>, quiz: seq<Question>, n: nat): set<int>
    requires n <= |answers| <= |quiz|
  {
    set i | 0 <= i < n && Hit(answers, quiz, i)
  }

  /** The score counts exactly the correctly answered questions. */
  lemma {:induction false} ScoreCountsCorrect(answers: seq<int>, quiz: seq<Question>, n: nat)
    requires n <= |answers| <= |quiz|
    ensures Score(answers, quiz, n) == |Correct(answers, quiz, n)|
  {
    if n > 0 {
      ScoreCountsCorrect(answers, quiz, n - 1);
      var before := Correct(answers, quiz, n - 1);
      if Hit(answers, quiz, n - 1) {
        assert Correct(answers, quiz, n) == before + {n - 1};
      } else {
        assert Correct(answers, quiz, n) == before;
      }
    }
  }

  /** `String.fromCharCode(65 + index)`. */
  function ChoiceLabel(index: int): (c: char)
    requires 0 <= 65 + index < 0xD800
  {
    (65 + index) as char
  }

  /**
   * The four labels are A to D, and each reads back as its own index in an
   * `Answer:` line; the answer index −1 of a question whose answer line was
   * not understood is shown as '@'.
   */
  lemma LabelsMatchAnswers(k: int)
    requires -1 <= k < 4
    ensures 0 <= k ==> ChoiceLabel(k) == "ABCD"[k]
    ensures 0 <= k ==> QuizParser.LetterIndex([ChoiceLabel(k)]) == k
    ensures k == -1 ==> ChoiceLabel(k) == '@'
  {
    if 0 <= k {
      assert Lower(ChoiceLabel(k)) == "abcd"[k];
    }
  }

  /** What the score line shows: the score out of the number of questions once results are shown, a placeholder before. */
  function ScoreText(score: nat, total: nat, showResults: bool): string {
    if showResults then IntToString(score) + " / " + IntToString(total) else "\U{E2}\U{20AC}\U{201D}"
  }

  class View {
    const quiz: seq<Question>
    var answers: seq<int>
    var showResults: bool

    predicate Valid()
      reads this
    {
      |answers| == |quiz|
    }

    /** `useState(Array(quiz.length).fill(-1))` and `useState(false)`. */
    constructor (quiz: seq<Question>)
      ensures this.quiz == quiz
      ensures answers == seq(|quiz|, _ => -1)
      ensures !showResults
      ensures Valid()
    {
      this.quiz := quiz;
      answers := seq(|quiz|, _ => -1);
      showResults := false;
    }

    /** The current score. */
    function CurrentScore(): (r: nat)
      reads this
      requires Valid()
      ensures r == |Correct(answers, quiz, |answers|)|
      ensures r <= |quiz|
    {
      ScoreCountsCorrect(answers, quiz, |answers|);
      Score(answers, quiz, |answers|)
    }

    /**
     * A click on choice `c` of question `q`: `select(q, c)` stores `c` for
     * that question and keeps every other answer, unless the results are
     * shown, when the button is disabled.
     */
    method Click(q: nat, c: int)
      requires Valid() && q < |quiz|
      modifies this
      ensures Valid()
      ensures old(showResults) ==> answers == old(answers)
      ensures !old(showResults) ==> answers == old(answers)[q := c]
      ensures showResults == old(showResults)
    {
      if !showResults {
        var next := answers;
        next := next[q := c];
        answers := next;
      }
    }

    /** "Show Results": once true, it stays true. */
    method ShowResults()
      requires Valid()
      modifies this
      ensures Valid()
      ensures showResults && answers == old(answers)
    {
      showResults := true;
    }

    /** The score line: the number of correct answers out of the number of questions, or the placeholder. */
    function ScoreLine(): (r: string)
      reads this
      requires Valid()
      ensures showResults ==> r == IntToString(|Correct(answers, quiz, |quiz|)|) + " / " + IntToString(|quiz|)
      ensures !showResults ==> r == "\U{E2}\U{20AC}\U{201D}"
    {
      ScoreText(CurrentScore(), |quiz|, showResults)
    }
  }

  /** Selecting changes only the chosen question's answer. */
  lemma SelectTouchesOne(answers: seq<int>, q: nat, c: int)
    requires q < |answers|
    ensures |answers[q := c]| == |answers| && answers[q := c][q] == c
    ensures forall i :: 0 <= i < |answers| && i != q ==> answers[q := c][i] == answers[i]
  {
  }

  /** Before any selection the score is 0 whenever every answer index is a real choice. */
  lemma {:induction false} InitialScoreZero(quiz: seq<Question>)
    requires forall i :: 0 <= i < |quiz| ==> quiz[i].answerIndex >= 0
    ensures Score(seq(|quiz|, _ => -1), quiz, |quiz|) == 0
  {
    var none := seq(|quiz|, _ => -1);
    ScoreCountsCorrect(none, quiz, |quiz|);
    assert Correct(none, quiz, |quiz|) == {} by {
      forall i | 0 <= i < |quiz| ensures !Hit(none, quiz, i) {
        assert none[i] == -1;
      }
    }
  }
}
