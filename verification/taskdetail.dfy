/** The task page's own completion summary: one entry per story, built on
    the client from the task's cards and the user's attempts on the task,
    and the "all groups completed" banner derived from those entries. */
module TaskDetail {
  import opened Schema
  import opened CardOrder
  import opened Progress

  /** One story's entry on the task page. */
  datatype GroupSummary = GroupSummary(story: StoryRow, totalCards: nat, passedCards: nat, allPassed: bool)

  /** Every card of the list has a passing attempt. */
  predicate AllCardsPassed(cards: seq<CardRow>, attempts: seq<AttemptRow>) {
    forall k :: 0 <= k < |cards| ==> HasPass(attempts, cards[k].id)
  }

  /** The passed count reaches the length exactly when every card passed. */
  lemma {:induction false} PassedCountFull(cards: seq<CardRow>, attempts: seq<AttemptRow>)
    ensures PassedCount(cards, attempts) == |cards| <==> AllCardsPassed(cards, attempts)
    decreases |cards|
  {
    if |cards| > 0 {
      PassedCountFull(cards[1..], attempts);
      assert forall k :: 1 <= k < |cards| ==> cards[k] == cards[1..][k - 1];
      assert AllCardsPassed(cards, attempts) <==> HasPass(attempts, cards[0].id) && AllCardsPassed(cards[1..], attempts);
    }
  }

  /** The entry of one story: the cards with the story's group index, how
      many of them have a passing attempt, and whether the group is done,
      which needs at least one card. */
  function SummaryOf(story: StoryRow, cards: seq<CardRow>, attempts: seq<AttemptRow>): (g: GroupSummary)
    ensures g.story == story
    ensures g.totalCards == |GroupCards(cards, story.groupIndex)|
    ensures g.passedCards == PassedCount(GroupCards(cards, story.groupIndex), attempts)
    ensures g.passedCards <= g.totalCards
    ensures g.allPassed <==> g.totalCards > 0 && AllCardsPassed(GroupCards(cards, story.groupIndex), attempts)
  {
    var group := GroupCards(cards, story.groupIndex);
    var passed := PassedCount(group, attempts);
    PassedCountFull(group, attempts);
    GroupSummary(story, |group|, passed, passed == |group| && |group| > 0)
  }

  /** A group is done exactly when some card carries its index and every
      card carrying its index has a passing attempt. */
  lemma GroupDoneIff(story: StoryRow, cards: seq<CardRow>, attempts: seq<AttemptRow>)
    ensures SummaryOf(story, cards, attempts).allPassed <==>
      && (exists k :: 0 <= k < |cards| && cards[k].groupIndex == story.groupIndex)
      && (forall k :: 0 <= k < |cards| && cards[k].groupIndex == story.groupIndex ==> HasPass(attempts, cards[k].id))
  {
    var group := GroupCards(cards, story.groupIndex);
    if exists k :: 0 <= k < |cards| && cards[k].groupIndex == story.groupIndex {
      var k :| 0 <= k < |cards| && cards[k].groupIndex == story.groupIndex;
      assert cards[k] in group;
    }
    if AllCardsPassed(group, attempts) {
      forall k | 0 <= k < |cards| && cards[k].groupIndex == story.groupIndex
        ensures HasPass(attempts, cards[k].id)
      {
        assert cards[k] in group;
        var j :| 0 <= j < |group| && group[j] == cards[k];
      }
    }
    if forall k :: 0 <= k < |cards| && cards[k].groupIndex == story.groupIndex ==> HasPass(attempts, cards[k].id) {
      forall j | 0 <= j < |group| ensures HasPass(attempts, group[j].id) {
        var k :| 0 <= k < |cards| && cards[k] == group[j];
      }
    }
  }

  /** The page's entries: one per story, in story order. */
  function Summaries(stories: seq<StoryRow>, cards: seq<CardRow>, attempts: seq<AttemptRow>): (gs: seq<GroupSummary>)
    ensures |gs| == |stories|
    ensures forall k :: 0 <= k < |gs| ==> gs[k].story == stories[k] && gs[k] == SummaryOf(stories[k], cards, attempts)
  {
    seq(|stories|, k requires 0 <= k < |stories| => SummaryOf(stories[k], cards, attempts))
  }

  /** The number of finished groups. */
  function DoneCount(gs: seq<GroupSummary>): (n: nat)
    ensures n <= |gs|
  {
    if |gs| == 0 then 0
    else (if gs[0].allPassed then 1 else 0) + DoneCount(gs[1..])
  }

  lemma {:induction false} DoneCountFull(gs: seq<GroupSummary>)
    ensures DoneCount(gs) == |gs| <==> forall k :: 0 <= k < |gs| ==> gs[k].allPassed
    decreases |gs|
  {
    if |gs| > 0 {
      DoneCountFull(gs[1..]);
      assert forall k :: 1 <= k < |gs| ==> gs[k] == gs[1..][k - 1];
    }
  }

  /** The banner: every group finished, counted, and at least one group. */
  function AllGroupsPassed(gs: seq<GroupSummary>): (b: bool)
    ensures b <==> |gs| > 0 && forall k :: 0 <= k < |gs| ==> gs[k].allPassed
  {
    DoneCountFull(gs);
    DoneCount(gs) == |gs| && |gs| > 0
  }

  /** The width of a group's progress bar, in percent. */
  function ProgressWidth(totalCards: nat, passedCards: nat): (w: real)
    ensures totalCards == 0 ==> w == 0.0
    ensures totalCards > 0 ==> w * totalCards as real == 100.0 * passedCards as real
    ensures passedCards <= totalCards ==> 0.0 <= w <= 100.0
  {
    if totalCards > 0 then passedCards as real / totalCards as real * 100.0 else 0.0
  }

  /** A bar is full exactly when there are cards and all are passed. */
  lemma FullBarIff(totalCards: nat, passedCards: nat)
    requires passedCards <= totalCards
    ensures ProgressWidth(totalCards, passedCards) == 100.0 <==> totalCards > 0 && passedCards == totalCards
  {
    var w := ProgressWidth(totalCards, passedCards);
    if totalCards > 0 && w == 100.0 {
      assert 100.0 * totalCards as real == 100.0 * passedCards as real;
    }
  }

  /** A group's bar is full exactly when the group is done. */
  lemma FullBarIffDone(story: StoryRow, cards: seq<CardRow>, attempts: seq<AttemptRow>)
    ensures var g := SummaryOf(story, cards, attempts);
      ProgressWidth(g.totalCards, g.passedCards) == 100.0 <==> g.allPassed
  {
    var g := SummaryOf(story, cards, attempts);
    FullBarIff(g.totalCards, g.passedCards);
    PassedCountFull(GroupCards(cards, story.groupIndex), attempts);
  }

  /** The task page and the progress query agree on a group's counts, but
      the page calls a group done only when it has cards, while the query
      calls a group without cards done. The page receives the task's cards
      and the user's attempts on the task. */
  lemma PageAndQueryDifferOnlyOnEmpty(story: StoryRow, cards: seq<CardRow>, log: seq<AttemptRow>, taskId: Id, userId: Id)
    ensures var page := SummaryOf(story, TaskCards(cards, taskId), AttemptsOf(log, taskId, userId));
      var query := GroupProgressOf(cards, log, taskId, story.groupIndex, userId);
      && page.totalCards == query.totalCards
      && page.passedCards == query.passedCards
      && (page.allPassed <==> query.allPassed && query.totalCards > 0)
  {
  }

  /** A story whose group has no cards: the page shows it unfinished, the
      progress query reports it finished. */
  lemma EmptyGroupDisagreement(story: StoryRow, log: seq<AttemptRow>, taskId: Id, userId: Id)
    ensures !SummaryOf(story, [], AttemptsOf(log, taskId, userId)).allPassed
    ensures GroupProgressOf([], log, taskId, story.groupIndex, userId).allPassed
  {
  }
}
