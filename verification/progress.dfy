/** `getGroupProgressAction`: per-card and per-group progress of one user
    on one group of a task, derived from the stored cards and the attempt
    log. */
module Progress {
  import opened Wrappers
  import opened Schema
  import opened CardOrder
  import opened Seqs

  function Max(a: int, b: int): int { if a >= b then a else b }

  /** The attempts one user made on one task, in log order. */
  function AttemptsOf(log: seq<AttemptRow>, taskId: Id, userId: Id): (r: seq<AttemptRow>)
    ensures |r| <= |log|
    ensures forall k :: 0 <= k < |r| ==> r[k].taskId == taskId && r[k].userId == userId && r[k] in log
    ensures forall k :: 0 <= k < |log| && log[k].taskId == taskId && log[k].userId == userId ==> log[k] in r
  {
    Filter(log, (a: AttemptRow) => a.taskId == taskId && a.userId == userId)
  }

  /** The attempts on one card, in order. */
  function AttemptsFor(attempts: seq<AttemptRow>, cardId: Id): (r: seq<AttemptRow>)
    ensures |r| <= |attempts|
    ensures forall k :: 0 <= k < |r| ==> r[k].cardId == cardId && r[k] in attempts
    ensures forall k :: 0 <= k < |attempts| && attempts[k].cardId == cardId ==> attempts[k] in r
  {
    Filter(attempts, (a: AttemptRow) => a.cardId == cardId)
  }

  /** Some attempt in the list passed. */
  predicate AnyPassed(attempts: seq<AttemptRow>) {
    exists k :: 0 <= k < |attempts| && attempts[k].passed
  }

  /** Some attempt in the list passed the given card. */
  predicate HasPass(attempts: seq<AttemptRow>, cardId: Id) {
    exists k :: 0 <= k < |attempts| && attempts[k].cardId == cardId && attempts[k].passed
  }

  lemma AnyPassedIff(attempts: seq<AttemptRow>, cardId: Id)
    ensures AnyPassed(AttemptsFor(attempts, cardId)) <==> HasPass(attempts, cardId)
  {
    var r := AttemptsFor(attempts, cardId);
    if HasPass(attempts, cardId) {
      var k :| 0 <= k < |attempts| && attempts[k].cardId == cardId && attempts[k].passed;
      var j :| 0 <= j < |r| && r[j] == attempts[k];
    }
    if AnyPassed(r) {
      var j :| 0 <= j < |r| && r[j].passed;
      var k :| 0 <= k < |attempts| && attempts[k] == r[j];
    }
  }

  /** `best?.score || 0`. */
  function ScoreOr0(best: Option<AttemptRow>): int {
    if best.Some? then best.value.score else 0
  }

  /** The `reduce` that keeps the attempt with the highest score seen so
      far, replacing it only on a strictly higher score. */
  function BestFrom(best: Option<AttemptRow>, rest: seq<AttemptRow>): Option<AttemptRow>
    decreases |rest|
  {
    if |rest| == 0 then best
    else BestFrom(if rest[0].score > ScoreOr0(best) then Some(rest[0]) else best, rest[1..])
  }

  /** The highest score in a list, or 0 when no score is higher. */
  function MaxScore(attempts: seq<AttemptRow>): (m: int)
    ensures m >= 0
    ensures forall k :: 0 <= k < |attempts| ==> attempts[k].score <= m
    ensures m == 0 || exists k :: 0 <= k < |attempts| && attempts[k].score == m
  {
    if |attempts| == 0 then 0
    else
      var rest := MaxScore(attempts[1..]);
      assert forall k :: 1 <= k < |attempts| ==> attempts[k] == attempts[1..][k - 1];
      Max(attempts[0].score, rest)
  }

  lemma {:induction false} BestFromIsMax(best: Option<AttemptRow>, rest: seq<AttemptRow>)
    requires ScoreOr0(best) >= 0
    ensures ScoreOr0(BestFrom(best, rest)) == Max(ScoreOr0(best), MaxScore(rest))
    decreases |rest|
  {
    if |rest| > 0 {
      var next := if rest[0].score > ScoreOr0(best) then Some(rest[0]) else best;
      BestFromIsMax(next, rest[1..]);
    }
  }

  /** `bestAttempt?.score || 0`: the highest score, never below 0. */
  function BestScore(attempts: seq<AttemptRow>): (r: int)
    ensures r == MaxScore(attempts)
  {
    BestFromIsMax(None, attempts);
    ScoreOr0(BestFrom(None, attempts))
  }

  /** The number of cards in the list that some attempt passed. */
  function PassedCount(cards: seq<CardRow>, attempts: seq<AttemptRow>): (n: nat)
    ensures n <= |cards|
  {
    if |cards| == 0 then 0
    else (if HasPass(attempts, cards[0].id) then 1 else 0) + PassedCount(cards[1..], attempts)
  }

  lemma {:induction false} PassedCountAppend(a: seq<CardRow>, b: seq<CardRow>, attempts: seq<AttemptRow>)
    ensures PassedCount(a + b, attempts) == PassedCount(a, attempts) + PassedCount(b, attempts)
    decreases |a|
  {
    if |a| == 0 {
      assert a + b == b;
    } else {
      assert (a + b)[1..] == a[1..] + b;
      PassedCountAppend(a[1..], b, attempts);
    }
  }

  /** 1 when some attempt passed the card, else 0. */
  function PassBit(card: CardRow, attempts: seq<AttemptRow>): nat {
    if HasPass(attempts, card.id) then 1 else 0
  }

  /** Taking one card out of a list lowers the count by that card's bit. */
  lemma PassedCountRemove(b: seq<CardRow>, j: nat, attempts: seq<AttemptRow>)
    requires j < |b|
    ensures PassedCount(b, attempts) == PassedCount(b[..j] + b[j + 1..], attempts) + PassBit(b[j], attempts)
  {
    assert b == b[..j] + [b[j]] + b[j + 1..];
    PassedCountAppend(b[..j] + [b[j]], b[j + 1..], attempts);
    PassedCountAppend(b[..j], [b[j]], attempts);
    PassedCountAppend(b[..j], b[j + 1..], attempts);
    assert [b[j]][1..] == [];
  }

  lemma MultisetRemove<T>(a: seq<T>, b: seq<T>, j: nat)
    requires |a| > 0 && j < |b| && b[j] == a[0] && multiset(a) == multiset(b)
    ensures multiset(a[1..]) == multiset(b[..j] + b[j + 1..])
  {
    assert a == [a[0]] + a[1..];
    assert multiset(a) == multiset{a[0]} + multiset(a[1..]);
    assert b == b[..j] + [b[j]] + b[j + 1..];
    assert multiset(b) == multiset(b[..j]) + multiset{b[j]} + multiset(b[j + 1..]);
    assert multiset(b[..j] + b[j + 1..]) == multiset(b[..j]) + multiset(b[j + 1..]);
    forall e ensures multiset(a[1..])[e] == multiset(b[..j] + b[j + 1..])[e] {
      assert multiset(a)[e] == multiset(b)[e];
    }
  }

  /** The passed count does not depend on the order of the cards. */
  lemma {:induction false} PassedCountPermutation(a: seq<CardRow>, b: seq<CardRow>, attempts: seq<AttemptRow>)
    requires multiset(a) == multiset(b)
    ensures PassedCount(a, attempts) == PassedCount(b, attempts)
    decreases |a|
  {
    if |a| == 0 {
      assert |b| == |multiset(b)| == 0;
    } else {
      assert a[0] in multiset(b);
      var j :| 0 <= j < |b| && b[j] == a[0];
      MultisetRemove(a, b, j);
      PassedCountPermutation(a[1..], b[..j] + b[j + 1..], attempts);
      PassedCountRemove(b, j, attempts);
    }
  }

  /** One entry of `cardProgress`. */
  datatype CardProgress = CardProgress(card: CardRow, totalAttempts: nat, passed: bool, bestScore: int)

  /** A card's progress: its attempt count, whether some attempt passed,
      and its best score. */
  function CardProgressOf(card: CardRow, attempts: seq<AttemptRow>): (p: CardProgress)
    ensures p.card == card
    ensures p.totalAttempts == |AttemptsFor(attempts, card.id)|
    ensures p.passed <==> HasPass(attempts, card.id)
    ensures p.bestScore >= 0
    ensures forall k :: 0 <= k < |attempts| && attempts[k].cardId == card.id ==> attempts[k].score <= p.bestScore
    ensures p.bestScore == MaxScore(AttemptsFor(attempts, card.id))
  {
    var mine := AttemptsFor(attempts, card.id);
    AnyPassedIff(attempts, card.id);
    CardProgress(card, |mine|, AnyPassed(mine), BestScore(mine))
  }

  /** One progress entry per card, in the cards' order. */
  function ProgressEntries(cards: seq<CardRow>, attempts: seq<AttemptRow>): (ps: seq<CardProgress>)
    ensures |ps| == |cards|
    ensures forall k :: 0 <= k < |ps| ==> ps[k].card == cards[k]
    ensures forall k :: 0 <= k < |ps| ==> ps[k] == CardProgressOf(ps[k].card, attempts)
    ensures CountPassedEntries(ps) == PassedCount(cards, attempts)
  {
    var ps := seq(|cards|, k requires 0 <= k < |cards| => CardProgressOf(cards[k], attempts));
    CountEntriesIsPassedCount(cards, attempts, ps);
    ps
  }

  /** Every card of the sorted group is a stored card of that task and group. */
  lemma DisplayedMember(cards: seq<CardRow>, taskId: Id, groupIndex: int, k: nat)
    requires k < |SortByIndex(GroupCards(TaskCards(cards, taskId), groupIndex))|
    ensures var c := SortByIndex(GroupCards(TaskCards(cards, taskId), groupIndex))[k];
      c in cards && c.taskId == taskId && c.groupIndex == groupIndex
  {
    var t := TaskCards(cards, taskId);
    var group := GroupCards(t, groupIndex);
    var sorted := SortByIndex(group);
    assert sorted[k] in multiset(sorted);
    assert sorted[k] in multiset(group);
    var i :| 0 <= i < |group| && group[i] == sorted[k];
    assert group[i] in t;
  }

  /** The cards the entries are about, in entry order. */
  function EntryCards(ps: seq<CardProgress>): (cs: seq<CardRow>)
    ensures |cs| == |ps| && forall k :: 0 <= k < |ps| ==> cs[k] == ps[k].card
  {
    seq(|ps|, k requires 0 <= k < |ps| => ps[k].card)
  }

  /** The answer of `getGroupProgressAction`. */
  datatype GroupProgress = GroupProgress(cardProgress: seq<CardProgress>, totalCards: nat, passedCards: nat, allPassed: bool)

  function CountPassedEntries(ps: seq<CardProgress>): (n: nat)
    ensures n <= |ps|
  {
    if |ps| == 0 then 0
    else (if ps[0].passed then 1 else 0) + CountPassedEntries(ps[1..])
  }

  lemma {:induction false} CountEntriesIsPassedCount(cards: seq<CardRow>, attempts: seq<AttemptRow>, ps: seq<CardProgress>)
    requires |ps| == |cards|
    requires forall k :: 0 <= k < |ps| ==> (ps[k].passed <==> HasPass(attempts, cards[k].id))
    ensures CountPassedEntries(ps) == PassedCount(cards, attempts)
    decreases |cards|
  {
    if |cards| > 0 {
      CountEntriesIsPassedCount(cards[1..], attempts, ps[1..]);
    }
  }

  /** The cards of the group in `cardIndex` order, each with its progress
      from the user's attempts on the task; the group is complete when
      every card is passed, which holds vacuously for a group without
      cards. */
  function GroupProgressOf(cards: seq<CardRow>, log: seq<AttemptRow>, taskId: Id, groupIndex: int, userId: Id): (g: GroupProgress)
    ensures g.totalCards == |g.cardProgress| == |GroupCards(TaskCards(cards, taskId), groupIndex)|
    ensures forall i, j :: 0 <= i < j < |g.cardProgress| ==> g.cardProgress[i].card.cardIndex <= g.cardProgress[j].card.cardIndex
    ensures g.passedCards == PassedCount(GroupCards(TaskCards(cards, taskId), groupIndex), AttemptsOf(log, taskId, userId))
    ensures g.passedCards <= g.totalCards
    ensures g.allPassed <==> g.passedCards == g.totalCards
    ensures multiset(EntryCards(g.cardProgress)) == multiset(GroupCards(TaskCards(cards, taskId), groupIndex))
    ensures forall k :: 0 <= k < |g.cardProgress| ==>
      g.cardProgress[k] == CardProgressOf(g.cardProgress[k].card, AttemptsOf(log, taskId, userId))
  {
    var group := GroupCards(TaskCards(cards, taskId), groupIndex);
    var sorted := SortByIndex(group);
    var attempts := AttemptsOf(log, taskId, userId);
    var ps := ProgressEntries(sorted, attempts);
    assert EntryCards(ps) == sorted;
    var passed := CountPassedEntries(ps);
    PassedCountPermutation(sorted, group, attempts);
    GroupProgress(ps, |sorted|, passed, passed == |sorted|)
  }

  /** Every card in the progress answer is a stored card of that task and group. */
  lemma ProgressCardsBelong(cards: seq<CardRow>, log: seq<AttemptRow>, taskId: Id, groupIndex: int, userId: Id)
    ensures var g := GroupProgressOf(cards, log, taskId, groupIndex, userId);
      forall k :: 0 <= k < |g.cardProgress| ==>
        && g.cardProgress[k].card in cards
        && g.cardProgress[k].card.taskId == taskId
        && g.cardProgress[k].card.groupIndex == groupIndex
  {
    var sorted := SortByIndex(GroupCards(TaskCards(cards, taskId), groupIndex));
    var ps := ProgressEntries(sorted, AttemptsOf(log, taskId, userId));
    assert GroupProgressOf(cards, log, taskId, groupIndex, userId).cardProgress == ps;
    forall k | 0 <= k < |ps|
      ensures ps[k].card in cards && ps[k].card.taskId == taskId && ps[k].card.groupIndex == groupIndex
    {
      DisplayedMember(cards, taskId, groupIndex, k);
    }
  }

  /** A group without cards counts as all passed. */
  lemma EmptyGroupAllPassed(cards: seq<CardRow>, log: seq<AttemptRow>, taskId: Id, groupIndex: int, userId: Id)
    requires forall k :: 0 <= k < |cards| ==> cards[k].taskId != taskId || cards[k].groupIndex != groupIndex
    ensures GroupProgressOf(cards, log, taskId, groupIndex, userId).totalCards == 0
    ensures GroupProgressOf(cards, log, taskId, groupIndex, userId).allPassed
  {
  }
}
