/** `submitChallengeAction`: judging one answer, numbering the attempt,
    appending it to the attempt log, and deriving the hint and downgrade
    signals from the earlier attempts. The database reads are list inputs:
    the stored cards and the attempt log. */
module Judge {
  import opened Wrappers
  import opened Config
  import opened Schema
  import opened Seqs

  /** The judged answer: whether it passed and its score (0–100 for
      sensible inputs). */
  datatype Verdict = Verdict(passed: bool, score: int)

  /** `Math.round(matchPercentage * 100)` with `matchPercentage` in
      ten-thousandths: the nearest whole percent, halves rounded up. */
  function RoundPercent(mp: int): (r: int)
    ensures 100 * r - 50 <= mp < 100 * r + 50
  {
    (mp + 50) / 100
  }

  /** A reading answer passes when its match reaches the threshold; an
      absent (or zero) match counts as 0. */
  function JudgeReading(matchPercentage: Option<int>): (v: Verdict)
    ensures v.passed <==> matchPercentage.GetOr(0) >= PassThreshold
    ensures 100 * v.score - 50 <= matchPercentage.GetOr(0) < 100 * v.score + 50
    ensures 0 <= matchPercentage.GetOr(0) <= MatchScale ==> 0 <= v.score <= 100
  {
    var mp := matchPercentage.GetOr(0);
    Verdict(mp >= PassThreshold, RoundPercent(mp))
  }

  /** A choice answer passes when the selected index is the stored correct
      index, compared as optional values: both absent counts as equal. */
  function JudgeChoice(selected: Option<int>, correct: Option<int>): (v: Verdict)
    ensures v.passed <==> selected == correct
    ensures v.passed ==> v.score == 100
    ensures !v.passed ==> v.score == 0
  {
    var passed := selected == correct;
    Verdict(passed, if passed then 100 else 0)
  }

  /** Judges a response against the card it answers. */
  function JudgeResponse(response: ChallengeResponse, content: CardContent): (v: Verdict)
    ensures response.kind == ReadingAnswer ==> v == JudgeReading(response.matchPercentage)
    ensures response.kind == ChoiceAnswer ==> v == JudgeChoice(response.selectedOptionIndex, content.correctOptionIndex)
  {
    match response.kind
    case ReadingAnswer => JudgeReading(response.matchPercentage)
    case ChoiceAnswer => JudgeChoice(response.selectedOptionIndex, content.correctOptionIndex)
  }

  /** A 69.5 % match displays a score of 70 yet fails: the pass test uses
      the unrounded value. */
  lemma RoundedSeventyCanFail()
    ensures JudgeReading(Some(6950)) == Verdict(false, 70)
  {
  }

  /** The pass mark is monotone: a better match never turns a pass into a
      failure, and never lowers the score. */
  lemma ReadingMonotone(a: int, b: int)
    requires a <= b
    ensures JudgeReading(Some(a)).passed ==> JudgeReading(Some(b)).passed
    ensures JudgeReading(Some(a)).score <= JudgeReading(Some(b)).score
  {
  }

  /** A card whose options have no correct one stores -1, and no in-range
      selection can pass it. */
  lemma NoCorrectOptionNeverPassed(content: CardContent, i: nat)
    requires content.correctOptionIndex == Some(-1)
    ensures !JudgeChoice(Some(i), content.correctOptionIndex).passed
  {
  }

  /** A choice answer with no selection passes a card without
      `correctOptionIndex`, such as a reading card. */
  lemma MissingIndexesMatch(content: CardContent)
    requires content.correctOptionIndex.None?
    ensures JudgeResponse(ChallengeResponse(ChoiceAnswer, None, None, None, None), content).passed
  {
  }

  /** The card with the given id, as the `limit(1)` lookup finds it. */
  function FindCard(cards: seq<CardRow>, cardId: Id): (r: Option<CardRow>)
    ensures r.None? <==> forall k :: 0 <= k < |cards| ==> cards[k].id != cardId
    ensures r.Some? ==> r.value in cards && r.value.id == cardId
  {
    if |cards| == 0 then None
    else if cards[0].id == cardId then Some(cards[0])
    else
      var r := FindCard(cards[1..], cardId);
      assert forall k :: 1 <= k < |cards| ==> cards[k] == cards[1..][k - 1];
      r
  }

  /** The attempts of one user on one card, in log order. */
  function AttemptsOn(log: seq<AttemptRow>, cardId: Id, userId: Id): (r: seq<AttemptRow>)
    ensures |r| <= |log|
    ensures forall k :: 0 <= k < |r| ==> r[k].cardId == cardId && r[k].userId == userId && r[k] in log
    ensures forall k :: 0 <= k < |log| && log[k].cardId == cardId && log[k].userId == userId ==> log[k] in r
  {
    Filter(log, OnCard(cardId, userId))
  }

  /** Whether an attempt is by this user on this card. */
  function OnCard(cardId: Id, userId: Id): AttemptRow -> bool {
    (a: AttemptRow) => a.cardId == cardId && a.userId == userId
  }

  /** The number of failed attempts in a list. */
  function Fails(attempts: seq<AttemptRow>): (n: nat)
    ensures n <= |attempts|
  {
    if |attempts| == 0 then 0
    else (if attempts[0].passed then 0 else 1) + Fails(attempts[1..])
  }

  lemma {:induction false} FailsAppend(a: seq<AttemptRow>, b: seq<AttemptRow>)
    ensures Fails(a + b) == Fails(a) + Fails(b)
    decreases |a|
  {
    if |a| == 0 {
      assert a + b == b;
    } else {
      assert (a + b)[1..] == a[1..] + b;
      FailsAppend(a[1..], b);
    }
  }

  /** `readingHint || instructionZh`. */
  function HintOf(content: CardContent): (r: Option<string>)
    ensures content.readingHint.Some? && content.readingHint.value != "" ==> r == content.readingHint
    ensures !(content.readingHint.Some? && content.readingHint.value != "") ==> r == content.instructionZh
  {
    match content.readingHint
    case Some(h) => if h != "" then Some(h) else content.instructionZh
    case None => content.instructionZh
  }

  /** What a successful submission answers. */
  datatype Outcome = Outcome(passed: bool, score: int, attemptNumber: nat, hint: Option<string>, shouldDowngrade: bool)

  /** The result of a submission: the answer and the attempt log after it. */
  datatype Submitted = Submitted(outcome: Outcome, log: seq<AttemptRow>)

  datatype SubmitError = CardNotFound | InsertFailed

  /** `submitChallengeAction` for `userId` answering card `cardId` of task
      `taskId`, with `newId` the identifier of the new attempt row and
      `insertOk` whether its insert succeeds. A missing card is an error,
      and so is a failed insert, which throws out of the action with no
      attempt stored; on either error the log stays as it was. Otherwise the
      answer is judged against the found card's content, and the
      attempt is appended, numbered one past the user's earlier attempts
      on the card; a hint is given only for a failure after at least 3
      earlier failures, and a downgrade only for a failure after at least
      5. */
  function Submit(cards: seq<CardRow>, log: seq<AttemptRow>, userId: Id, cardId: Id, taskId: Id,
                  response: ChallengeResponse, newId: Id, insertOk: bool): (r: Result<Submitted, SubmitError>)
    ensures FindCard(cards, cardId).None? ==> r == Failure(CardNotFound)
    ensures FindCard(cards, cardId).Some? && !insertOk ==> r == Failure(InsertFailed)
    ensures r.Success? <==> FindCard(cards, cardId).Some? && insertOk
    ensures r.Success? ==>
      var prior := AttemptsOn(log, cardId, userId);
      var o := r.value.outcome;
      var verdict := JudgeResponse(response, FindCard(cards, cardId).value.content);
      && o.passed == verdict.passed && o.score == verdict.score
      && o.attemptNumber == |prior| + 1
      && r.value.log == log + [AttemptRow(newId, cardId, taskId, userId, o.passed, o.score, Some(response), o.attemptNumber)]
      && (o.hint.Some? ==> !o.passed && Fails(prior) >= HintAfterFails)
      && (!o.passed && Fails(prior) >= HintAfterFails ==> o.hint == HintOf(FindCard(cards, cardId).value.content))
      && (o.shouldDowngrade <==> !o.passed && Fails(prior) >= DowngradeAfterFails)
  {
    match FindCard(cards, cardId)
    case None => Failure(CardNotFound)
    case Some(card) =>
      var v := JudgeResponse(response, card.content);
      var prior := AttemptsOn(log, cardId, userId);
      var attemptNumber := |prior| + 1;
      var row := AttemptRow(newId, cardId, taskId, userId, v.passed, v.score, Some(response), attemptNumber);
      var fails := Fails(prior);
      var hint := if fails >= HintAfterFails && !v.passed then HintOf(card.content) else None;
      var downgrade := fails >= DowngradeAfterFails && !v.passed;
      if !insertOk then Failure(InsertFailed) else
      Success(Submitted(Outcome(v.passed, v.score, attemptNumber, hint, downgrade), log + [row]))
  }

  /** A passing submission carries neither a hint nor a downgrade. */
  lemma PassGetsNoSignals(cards: seq<CardRow>, log: seq<AttemptRow>, userId: Id, cardId: Id, taskId: Id,
                          response: ChallengeResponse, newId: Id, insertOk: bool)
    requires Submit(cards, log, userId, cardId, taskId, response, newId, insertOk).Success?
    requires Submit(cards, log, userId, cardId, taskId, response, newId, insertOk).value.outcome.passed
    ensures Submit(cards, log, userId, cardId, taskId, response, newId, insertOk).value.outcome.hint.None?
    ensures !Submit(cards, log, userId, cardId, taskId, response, newId, insertOk).value.outcome.shouldDowngrade
  {
  }

  /** Two submissions in a row by the same user on the same card are
      numbered consecutively; attempts on other cards or by other users do
      not count. The second succeeds exactly when its insert does. */
  lemma ConsecutiveNumbers(cards: seq<CardRow>, log: seq<AttemptRow>, userId: Id, cardId: Id, taskId: Id,
                           first: ChallengeResponse, second: ChallengeResponse, id1: Id, id2: Id, ok2: bool)
    requires Submit(cards, log, userId, cardId, taskId, first, id1, true).Success?
    ensures var s1 := Submit(cards, log, userId, cardId, taskId, first, id1, true).value;
      var s2 := Submit(cards, s1.log, userId, cardId, taskId, second, id2, ok2);
      (s2.Success? <==> ok2) && (ok2 ==> s2.value.outcome.attemptNumber == s1.outcome.attemptNumber + 1)
  {
    var s1 := Submit(cards, log, userId, cardId, taskId, first, id1, true).value;
    var a := s1.log[|log|];
    FilterAppend(log, [a], OnCard(cardId, userId));
    assert s1.log == log + [a];
    assert Filter([a], OnCard(cardId, userId)) == [a];
  }

  /** Appending any attempt by another user or on another card leaves the
      next attempt number of this user on this card unchanged. */
  lemma OtherAttemptsIgnored(log: seq<AttemptRow>, a: AttemptRow, cardId: Id, userId: Id)
    requires a.cardId != cardId || a.userId != userId
    ensures AttemptsOn(log + [a], cardId, userId) == AttemptsOn(log, cardId, userId)
  {
    FilterAppend(log, [a], OnCard(cardId, userId));
    assert Filter([a], OnCard(cardId, userId)) == [];
  }

  /** The failure count is a total, not a streak: a pass in between does
      not reset it, so a failure after three failures and a pass still
      earns the hint. */
  lemma PassDoesNotResetFails(prior: seq<AttemptRow>, pass: AttemptRow)
    requires pass.passed
    ensures Fails(prior + [pass]) == Fails(prior)
  {
    FailsAppend(prior, [pass]);
    assert [pass][1..] == [];
  }

  /** A failed insert numbers nothing: the next submission gets the same
      attempt number as the failed one would have had. */
  lemma FailedInsertKeepsNumber(cards: seq<CardRow>, log: seq<AttemptRow>, userId: Id, cardId: Id, taskId: Id,
                                first: ChallengeResponse, second: ChallengeResponse, id1: Id, id2: Id)
    requires FindCard(cards, cardId).Some?
    ensures Submit(cards, log, userId, cardId, taskId, first, id1, false) == Failure(InsertFailed)
    ensures Submit(cards, log, userId, cardId, taskId, second, id2, true).value.outcome.attemptNumber
         == |AttemptsOn(log, cardId, userId)| + 1
  {
  }

  /** A downgrade always comes with the hint condition met. */
  lemma DowngradeImpliesHintDue(cards: seq<CardRow>, log: seq<AttemptRow>, userId: Id, cardId: Id, taskId: Id,
                                response: ChallengeResponse, newId: Id, insertOk: bool)
    requires Submit(cards, log, userId, cardId, taskId, response, newId, insertOk).Success?
    requires Submit(cards, log, userId, cardId, taskId, response, newId, insertOk).value.outcome.shouldDowngrade
    ensures Fails(AttemptsOn(log, cardId, userId)) >= HintAfterFails
    ensures Submit(cards, log, userId, cardId, taskId, response, newId, insertOk).value.outcome.hint
         == HintOf(FindCard(cards, cardId).value.content)
  {
  }
}
