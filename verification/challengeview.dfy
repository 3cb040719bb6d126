/** The challenge page of one group: the cards it shows, the current card
    index, the set of card ids known to be passed, the last judged result
    and whether the reward screen is due. Server replies enter as
    parameters; the one-second delay before the reward screen is collapsed
    into the step that schedules it. */
module ChallengeView {
  import opened Wrappers
  import opened Schema
  import opened CardOrder
  import opened Judge

  /** The cards of the route's group among the task's cards, by index. */
  function Displayed(taskCards: seq<CardRow>, groupIndex: int): seq<CardRow> {
    SortByIndex(GroupCards(taskCards, groupIndex))
  }

  /** The feedback of the last judged answer. */
  datatype LastResult = LastResult(passed: bool, score: int, hint: Option<string>)

  datatype ViewState = ViewState(index: int, passed: set<Id>, rewardDue: bool, lastResult: Option<LastResult>)

  const Initial := ViewState(0, {}, false, None)

  /** The index points at a card, or is 0 when there are none. */
  predicate IndexOk(s: ViewState, n: nat) {
    0 <= s.index && (s.index < n || s.index == 0)
  }

  /** The ids of the cards with a passing attempt among `attempts`. */
  function PassedIds(attempts: seq<AttemptRow>): (ids: set<Id>)
    ensures forall k :: 0 <= k < |attempts| && attempts[k].passed ==> attempts[k].cardId in ids
    ensures forall id :: id in ids ==> exists k :: 0 <= k < |attempts| && attempts[k].passed && attempts[k].cardId == id
    decreases |attempts|
  {
    if |attempts| == 0 then {}
    else
      var rest := PassedIds(attempts[1..]);
      assert forall k :: 1 <= k < |attempts| ==> attempts[k] == attempts[1..][k - 1];
      (if attempts[0].passed then {attempts[0].cardId} else {}) + rest
  }

  /** The ids of the given cards. */
  function CardIds(cards: seq<CardRow>): (ids: set<Id>)
    ensures forall k :: 0 <= k < |cards| ==> cards[k].id in ids
    ensures forall id :: id in ids ==> exists k :: 0 <= k < |cards| && cards[k].id == id
    decreases |cards|
  {
    if |cards| == 0 then {}
    else
      var rest := CardIds(cards[1..]);
      assert forall k :: 1 <= k < |cards| ==> cards[k] == cards[1..][k - 1];
      {cards[0].id} + rest
  }

  /** The render-time seeding as written: while the set is empty and the
      user has attempts on the task, it becomes the ids of every passed
      attempt of the task, if there is any. */
  function Seed(s: ViewState, attempts: seq<AttemptRow>): (r: ViewState)
    ensures s.passed != {} || |attempts| == 0 || PassedIds(attempts) == {} ==> r == s
    ensures s.passed == {} && |attempts| > 0 ==> r.passed == PassedIds(attempts)
    ensures r.index == s.index && r.rewardDue == s.rewardDue && r.lastResult == s.lastResult
  {
    if |s.passed| == 0 && |attempts| > 0 then
      var ids := PassedIds(attempts);
      if |ids| > 0 then s.(passed := ids) else s
    else s
  }

  /** The render-time seeding as intended: only passes of the displayed
      cards are taken. */
  function SeedGroup(s: ViewState, cards: seq<CardRow>, attempts: seq<AttemptRow>): (r: ViewState)
    ensures r.passed <= s.passed + CardIds(cards)
    ensures s.passed == {} && |attempts| > 0 ==>
      forall k :: 0 <= k < |cards| ==> (cards[k].id in r.passed <==> cards[k].id in PassedIds(attempts))
    ensures s.passed != {} ==> r == s
    ensures r.index == s.index && r.rewardDue == s.rewardDue && r.lastResult == s.lastResult
  {
    if |s.passed| == 0 && |attempts| > 0 then
      var ids := PassedIds(attempts) * CardIds(cards);
      if |ids| > 0 then s.(passed := ids) else s
    else s
  }

  /** The progress bar, in percent of the displayed cards. */
  function ProgressPercent(s: ViewState, cards: seq<CardRow>): (p: real)
    ensures |cards| == 0 ==> p == 0.0
    ensures |cards| > 0 ==> p * |cards| as real == 100.0 * |s.passed| as real
  {
    if |cards| > 0 then |s.passed| as real / |cards| as real * 100.0 else 0.0
  }

  /** `allPassed` as written: the set has as many ids as there are cards. */
  predicate AllPassedBySize(s: ViewState, cards: seq<CardRow>) {
    |s.passed| == |cards| && |cards| > 0
  }

  /** What `allPassed` is meant to say: every displayed card is passed. */
  predicate EveryCardPassed(s: ViewState, cards: seq<CardRow>) {
    |cards| > 0 && forall k :: 0 <= k < |cards| ==> cards[k].id in s.passed
  }

  /** Answering the current card. Without a current card, or without a
      successful reply, nothing changes. Otherwise the result is shown; a
      pass adds the card's id, and the reward becomes due when the set then
      has as many ids as there are cards. */
  function Submit(s: ViewState, cards: seq<CardRow>, reply: Option<Outcome>): (r: ViewState)
    ensures !(0 <= s.index < |cards|) || reply.None? ==> r == s
    ensures 0 <= s.index < |cards| && reply.Some? ==>
      && r.index == s.index
      && r.lastResult == Some(LastResult(reply.value.passed, reply.value.score, reply.value.hint))
      && (reply.value.passed ==> r.passed == s.passed + {cards[s.index].id})
      && (!reply.value.passed ==> r.passed == s.passed)
      && (r.rewardDue <==> s.rewardDue || (reply.value.passed && |r.passed| == |cards|))
  {
    if !(0 <= s.index < |cards|) then s
    else match reply
      case None => s
      case Some(o) =>
        var shown := s.(lastResult := Some(LastResult(o.passed, o.score, o.hint)));
        if o.passed then
          var newPassed := s.passed + {cards[s.index].id};
          shown.(passed := newPassed, rewardDue := s.rewardDue || |newPassed| == |cards|)
        else shown
  }

  /** The "next" button: clears the result and moves forward unless on the
      last card. */
  function Next(s: ViewState, cards: seq<CardRow>): (r: ViewState)
    ensures r.lastResult.None? && r.passed == s.passed && r.rewardDue == s.rewardDue
    ensures s.index < |cards| - 1 ==> r.index == s.index + 1
    ensures s.index >= |cards| - 1 ==> r.index == s.index
  {
    var cleared := s.(lastResult := None);
    if s.index < |cards| - 1 then cleared.(index := s.index + 1) else cleared
  }

  /** The "back" button: moves back and clears the result, except on the
      first card. */
  function Back(s: ViewState): (r: ViewState)
    ensures s.index > 0 ==> r == s.(index := s.index - 1, lastResult := None)
    ensures s.index <= 0 ==> r == s
  {
    if s.index > 0 then s.(index := s.index - 1, lastResult := None) else s
  }

  /** The "retry" button: clears the result only. */
  function Retry(s: ViewState): (r: ViewState)
    ensures r == s.(lastResult := None)
  {
    s.(lastResult := None)
  }

  /** The "view reward" button, shown while `allPassed` holds. */
  function ViewReward(s: ViewState, cards: seq<CardRow>): (r: ViewState)
    ensures r.rewardDue <==> s.rewardDue || AllPassedBySize(s, cards)
    ensures r.index == s.index && r.passed == s.passed && r.lastResult == s.lastResult
  {
    if AllPassedBySize(s, cards) then s.(rewardDue := true) else s
  }

  /** The "next" button is shown on a passed card that is not the last. */
  predicate ShowsNext(s: ViewState, cards: seq<CardRow>) {
    && 0 <= s.index < |cards|
    && ((s.lastResult.Some? && s.lastResult.value.passed) || cards[s.index].id in s.passed)
    && s.index < |cards| - 1
  }

  /** Every step keeps the index on a card (or at 0 with no cards). */
  lemma StepsKeepIndex(s: ViewState, cards: seq<CardRow>, attempts: seq<AttemptRow>, reply: Option<Outcome>)
    requires IndexOk(s, |cards|)
    ensures IndexOk(Seed(s, attempts), |cards|)
    ensures IndexOk(SeedGroup(s, cards, attempts), |cards|)
    ensures IndexOk(Submit(s, cards, reply), |cards|)
    ensures IndexOk(Next(s, cards), |cards|)
    ensures IndexOk(Back(s), |cards|)
    ensures IndexOk(Retry(s), |cards|)
    ensures IndexOk(ViewReward(s, cards), |cards|)
  {
  }

  /** A shown "next" button always moves to the following card. */
  lemma NextButtonAdvances(s: ViewState, cards: seq<CardRow>)
    requires ShowsNext(s, cards)
    ensures Next(s, cards).index == s.index + 1 < |cards|
  {
  }

  /** The passed set only grows, and only by the current card's id after a
      passing reply. */
  lemma PassedOnlyGrows(s: ViewState, cards: seq<CardRow>, attempts: seq<AttemptRow>, reply: Option<Outcome>)
    ensures s.passed <= Seed(s, attempts).passed
    ensures s.passed <= SeedGroup(s, cards, attempts).passed
    ensures var r := Submit(s, cards, reply);
      && s.passed <= r.passed
      && (r.passed != s.passed ==> reply.Some? && reply.value.passed && r.passed - s.passed == {cards[s.index].id})
    ensures Next(s, cards).passed == s.passed && Back(s).passed == s.passed && Retry(s).passed == s.passed
  {
  }

  /** All ids of the set belong to displayed cards. */
  predicate WithinGroup(s: ViewState, cards: seq<CardRow>) {
    s.passed <= CardIds(cards)
  }

  /** Card ids are primary keys: no two cards share one. */
  predicate DistinctIds(cards: seq<CardRow>) {
    forall i, j :: 0 <= i < j < |cards| ==> cards[i].id != cards[j].id
  }

  lemma {:induction false} CardIdsCount(cards: seq<CardRow>)
    requires DistinctIds(cards)
    ensures |CardIds(cards)| == |cards|
    decreases |cards|
  {
    if |cards| > 0 {
      var rest := cards[1..];
      CardIdsCount(rest);
    }
  }

  /** A subset as large as its superset is the whole superset. */
  lemma SubsetSameSize<T>(a: set<T>, b: set<T>)
    requires a <= b && |a| == |b|
    ensures a == b
  {
    assert b == a + (b - a);
  }

  /** While the set holds only displayed ids, the size test of `allPassed`
      means exactly that every displayed card is passed. */
  lemma SizeTestSound(s: ViewState, cards: seq<CardRow>)
    requires DistinctIds(cards) && WithinGroup(s, cards)
    ensures AllPassedBySize(s, cards) <==> EveryCardPassed(s, cards)
  {
    CardIdsCount(cards);
    if AllPassedBySize(s, cards) {
      SubsetSameSize(s.passed, CardIds(cards));
    }
    if EveryCardPassed(s, cards) {
      assert CardIds(cards) <= s.passed;
      assert s.passed == CardIds(cards);
    }
  }

  /** The intended seeding and every step keep the set within the group. */
  lemma StepsKeepWithinGroup(s: ViewState, cards: seq<CardRow>, attempts: seq<AttemptRow>, reply: Option<Outcome>)
    requires WithinGroup(s, cards)
    ensures WithinGroup(SeedGroup(s, cards, attempts), cards)
    ensures WithinGroup(Submit(s, cards, reply), cards)
    ensures WithinGroup(Next(s, cards), cards) && WithinGroup(Back(s), cards)
    ensures WithinGroup(Retry(s), cards) && WithinGroup(ViewReward(s, cards), cards)
  {
    if 0 <= s.index < |cards| {
      assert cards[s.index].id in CardIds(cards);
    }
  }

  /** With the intended seeding, a passing answer makes the reward due
      exactly when every displayed card is then passed. */
  lemma RewardDueIffAllPassed(s: ViewState, cards: seq<CardRow>, o: Outcome)
    requires DistinctIds(cards) && WithinGroup(s, cards) && !s.rewardDue
    requires 0 <= s.index < |cards| && o.passed
    ensures var r := Submit(s, cards, Some(o));
      r.rewardDue <==> EveryCardPassed(r, cards)
  {
    var r := Submit(s, cards, Some(o));
    StepsKeepWithinGroup(s, cards, [], Some(o));
    SizeTestSound(r, cards);
  }

  /** As written, a pass on another group's card marks this group as all
      passed, the bar shows 100 %, and the reward can be opened, although
      this group's only card was never passed. */
  lemma OtherGroupPassLeaks(a: CardRow, b: CardRow, attempt: AttemptRow)
    requires a.id == 1 && a.groupIndex == 0 && b.id == 2 && b.groupIndex == 1
    requires attempt.cardId == 2 && attempt.passed
    ensures var cards := Displayed([a, b], 0);
      var s := Seed(Initial, [attempt]);
      && cards == [a]
      && AllPassedBySize(s, cards)
      && !EveryCardPassed(s, cards)
      && ProgressPercent(s, cards) == 100.0
      && ViewReward(s, cards).rewardDue
  {
    var cards := Displayed([a, b], 0);
    assert [a, b][1..] == [b];
    assert GroupCards([a, b], 0) == [a];
    assert [a][1..] == [];
    assert cards == [a];
    assert PassedIds([attempt]) == {2};
    var s := Seed(Initial, [attempt]);
    assert s.passed == {2} && |s.passed| == 1;
    assert 2 !in CardIds(cards);
  }

  /** As written, a pass on another group's card also hides the automatic
      reward: after this group's only card is passed the set holds two ids
      against one card. */
  lemma OtherGroupPassBlocksReward(a: CardRow, attempt: AttemptRow, o: Outcome)
    requires a.id == 1 && attempt.cardId == 2 && attempt.passed && o.passed
    ensures var s := Seed(Initial, [attempt]);
      var r := Submit(s, [a], Some(o));
      r.passed == {1, 2} && !r.rewardDue
  {
    assert PassedIds([attempt]) == {2};
  }

  /** With the intended seeding the same history gives nothing for this
      group, and passing its card makes the reward due. */
  lemma GroupSeedFixesBoth(a: CardRow, attempt: AttemptRow, o: Outcome)
    requires a.id == 1 && attempt.cardId == 2 && attempt.passed && o.passed
    ensures var s := SeedGroup(Initial, [a], [attempt]);
      && !AllPassedBySize(s, [a])
      && Submit(s, [a], Some(o)).rewardDue
  {
    assert PassedIds([attempt]) == {2};
    assert CardIds([a]) == {1};
    assert PassedIds([attempt]) * CardIds([a]) == {};
    assert SeedGroup(Initial, [a], [attempt]) == Initial;
    assert |Initial.passed + {[a][0].id}| == 1;
  }
}
