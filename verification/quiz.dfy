/** The quiz mini-game's answer store (`startQuiz` and `handleQuizAnswer` in
    src/modules/telegram/telegram.service.ts): the index of the correct answer
    of the question last shown to each sender, consumed by the first answer. */
module Quiz {

  /** An answer position: A, B, C or D. */
  type AnswerIndex = i: nat | i < 4

  /** The correct answer of each of the three built-in questions. */
  const CorrectAnswers: seq<AnswerIndex> := [1, 0, 2]

  /** The callback data of the four answer buttons. */
  const Callbacks: seq<string> := ["quiz_answer_a", "quiz_answer_b", "quiz_answer_c", "quiz_answer_d"]

  const Letters: seq<char> := ['A', 'B', 'C', 'D']

  /** `quizAnswers`: sender's Telegram id to the correct answer of their open question. */
  type Store = map<int, AnswerIndex>

  datatype Outcome = Expired | Correct | Wrong(correctLetter: char)

  /** Showing question `pick` (the random draw is a parameter) to `sender`
      remembers its correct answer, replacing any open one. */
  function StartQuiz(store: Store, sender: int, pick: nat): (r: Store)
    requires pick < |CorrectAnswers|
    ensures sender in r && r[sender] == CorrectAnswers[pick]
    ensures r - {sender} == store - {sender}
  {
    store[sender := CorrectAnswers[pick]]
  }

  /** Button data to answer position: a, b, c map to 0, 1, 2 and anything else
      to 3. */
  function AnswerIndexOf(data: string): (i: AnswerIndex)
    ensures forall k :: 0 <= k < |Callbacks| ==> (Callbacks[k] == data ==> i == k)
    // Data that is none of the first three buttons falls back to position 3.
    ensures data != Callbacks[0] && data != Callbacks[1] && data != Callbacks[2] ==> i == 3
  {
    if data == "quiz_answer_a" then 0
    else if data == "quiz_answer_b" then 1
    else if data == "quiz_answer_c" then 2
    else 3
  }

  /** Answering: with nothing stored the quiz has expired and nothing changes;
      otherwise the answer is judged against the stored one and the stored
      answer is deleted. */
  function HandleQuizAnswer(store: Store, sender: int, data: string): (r: (Store, Outcome))
    ensures sender !in store ==> r.1 == Expired
    ensures sender in store ==>
      (r.1 == Correct <==> AnswerIndexOf(data) == store[sender])
    ensures sender in store && r.1 != Correct ==> r.1 == Wrong(Letters[store[sender]])
    ensures sender !in r.0
    ensures r.0 - {sender} == store - {sender}
  {
    if sender !in store then (store, Expired)
    else
      var correct := store[sender];
      var outcome := if AnswerIndexOf(data) == correct then Correct else Wrong(Letters[correct]);
      (store - {sender}, outcome)
  }

  /** The stored answer is consumed on first use: a second answer to the same
      question reports expiry. */
  lemma AnsweredOnce(store: Store, sender: int, first: string, second: string)
    ensures HandleQuizAnswer(HandleQuizAnswer(store, sender, first).0, sender, second).1 == Expired
  {
  }

  /** Pressing the button of the correct answer of the question shown wins. */
  lemma CorrectButtonWins(store: Store, sender: int, pick: nat)
    requires pick < |CorrectAnswers|
    ensures HandleQuizAnswer(StartQuiz(store, sender, pick), sender,
                             Callbacks[CorrectAnswers[pick]]).1 == Correct
  {
  }
}
