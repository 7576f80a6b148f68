/**
 * The quiz session kept between reruns of the page: the questions of the
 * round, the index of the question on screen, the score, the answered
 * questions, and the answer given to the current question before the
 * player moves on.
 */
module GameState {
  import opened Wrappers
  import QuestionBank

  /** `QuestionResult`: a question and, once answered, the chosen index and whether it was right. */
  datatype QuestionResult = QuestionResult(question: QuestionBank.Question, selectedIndex: Option<int>, correct: Option<bool>)

  class Session {
    var questionSet: seq<QuestionBank.Question>
    var currentIndex: int
    var score: int
    var history: seq<QuestionResult>
    var pendingResult: Option<QuestionResult>

    /** Never more answered questions than questions passed, and never a negative score. */
    predicate Valid()
      reads this
    {
      0 <= |history| <= currentIndex && 0 <= score
    }

    /** The dataclass defaults: no questions, index and score 0, nothing answered. */
    constructor ()
      ensures questionSet == [] && currentIndex == 0 && score == 0
      ensures history == [] && pendingResult == None
      ensures Valid()
    {
      questionSet := [];
      currentIndex := 0;
      score := 0;
      history := [];
      pendingResult := None;
    }

    /** `reset`: back to the defaults. */
    method Reset()
      modifies this
      ensures questionSet == [] && currentIndex == 0 && score == 0
      ensures history == [] && pendingResult == None
      ensures Valid()
    {
      questionSet := [];
      currentIndex := 0;
      score := 0;
      history := [];
      pendingResult := None;
    }

    /** The page's `state.question_set.extend(questions)` when a round starts. */
    method ExtendQuestions(questions: seq<QuestionBank.Question>)
      modifies this
      requires Valid()
      ensures questionSet == old(questionSet) + questions
      ensures currentIndex == old(currentIndex) && score == old(score)
      ensures history == old(history) && pendingResult == old(pendingResult)
      ensures Valid()
    {
      questionSet := questionSet + questions;
    }

    /** `current_question`: the question at the current index, when the index is inside the list. */
    function CurrentQuestion(): (q: Option<QuestionBank.Question>)
      reads this
      ensures q.Some? <==> 0 <= currentIndex < |questionSet|
      ensures q.Some? ==> q.value == questionSet[currentIndex]
    {
      if 0 <= currentIndex < |questionSet| then Some(questionSet[currentIndex]) else None
    }

    /**
     * `record_answer`: without a current question nothing changes; otherwise
     * the answer becomes the pending result and a right answer adds one
     * point. Answering again before moving on replaces the pending result
     * and can add another point.
     */
    method RecordAnswer(selectedIndex: int, correct: bool)
      modifies this
      requires Valid()
      ensures questionSet == old(questionSet) && currentIndex == old(currentIndex) && history == old(history)
      ensures old(CurrentQuestion()).None? ==> score == old(score) && pendingResult == old(pendingResult)
      ensures old(CurrentQuestion()).Some? ==>
        && pendingResult == Some(QuestionResult(old(CurrentQuestion()).value, Some(selectedIndex), Some(correct)))
        && score == old(score) + (if correct then 1 else 0)
      ensures Valid()
    {
      var question := CurrentQuestion();
      if question.None? {
        return;
      }
      var result := QuestionResult(question.value, Some(selectedIndex), Some(correct));
      if correct {
        score := score + 1;
      }
      pendingResult := Some(result);
    }

    /** `advance`: the pending result, if any, moves into the history, and the index always moves on by one. */
    method Advance()
      modifies this
      requires Valid()
      ensures questionSet == old(questionSet) && score == old(score)
      ensures currentIndex == old(currentIndex) + 1
      ensures pendingResult == None
      ensures old(pendingResult).None? ==> history == old(history)
      ensures old(pendingResult).Some? ==> history == old(history) + [old(pendingResult).value]
      ensures Valid()
    {
      if pendingResult.Some? {
        history := history + [pendingResult.value];
        pendingResult := None;
      }
      currentIndex := currentIndex + 1;
    }
  }
}
