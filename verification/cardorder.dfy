/** Selecting a group's cards and putting them in `cardIndex` order, as
    both the progress query and the challenge page do. */
module CardOrder {
  import opened Schema
  import opened Seqs

  /** The cards of one task, in their original order. */
  function TaskCards(cards: seq<CardRow>, taskId: Id): (r: seq<CardRow>)
    ensures |r| <= |cards|
    ensures forall k :: 0 <= k < |r| ==> r[k].taskId == taskId && r[k] in cards
    ensures forall k :: 0 <= k < |cards| && cards[k].taskId == taskId ==> cards[k] in r
  {
    Filter(cards, (c: CardRow) => c.taskId == taskId)
  }

  /** The cards of one group, in their original order. */
  function GroupCards(cards: seq<CardRow>, groupIndex: int): (r: seq<CardRow>)
    ensures |r| <= |cards|
    ensures forall k :: 0 <= k < |r| ==> r[k].groupIndex == groupIndex && r[k] in cards
    ensures forall k :: 0 <= k < |cards| && cards[k].groupIndex == groupIndex ==> cards[k] in r
  {
    Filter(cards, (c: CardRow) => c.groupIndex == groupIndex)
  }

  predicate SortedByIndex(cards: seq<CardRow>) {
    forall i, j :: 0 <= i < j < |cards| ==> cards[i].cardIndex <= cards[j].cardIndex
  }

  /** Inserts `c` before the first card with a larger-or-equal index. */
  function Insert(c: CardRow, sorted: seq<CardRow>): (r: seq<CardRow>)
    requires SortedByIndex(sorted)
    ensures SortedByIndex(r)
    ensures |r| == |sorted| + 1
    ensures r[0] == c || (|sorted| > 0 && r[0] == sorted[0])
    ensures forall k :: 0 <= k < |r| ==>
      r[k].cardIndex >= c.cardIndex || (|sorted| > 0 && r[k].cardIndex >= sorted[0].cardIndex)
  {
    if |sorted| == 0 then [c]
    else if c.cardIndex <= sorted[0].cardIndex then [c] + sorted
    else
      var rest := Insert(c, sorted[1..]);
      assert sorted == [sorted[0]] + sorted[1..];
      assert forall k :: 0 <= k < |rest| ==> sorted[0].cardIndex <= rest[k].cardIndex;
      var r := [sorted[0]] + rest;
      assert forall k :: 1 <= k < |r| ==> r[k] == rest[k - 1];
      r
  }

  /** `.sort((a, b) => a.cardIndex - b.cardIndex)`: the same cards in
      non-decreasing `cardIndex` order (cards with equal indices keep
      their relative order). */
  function SortByIndex(cards: seq<CardRow>): (r: seq<CardRow>)
    ensures SortedByIndex(r)
    ensures multiset(r) == multiset(cards)
    ensures |r| == |cards|
  {
    if |cards| == 0 then []
    else
      assert cards == [cards[0]] + cards[1..];
      InsertPermutes(cards[0], SortByIndex(cards[1..]));
      Insert(cards[0], SortByIndex(cards[1..]))
  }

  /** Insertion adds exactly the one card. */
  lemma {:induction false} InsertPermutes(c: CardRow, sorted: seq<CardRow>)
    requires SortedByIndex(sorted)
    ensures multiset(Insert(c, sorted)) == multiset(sorted) + multiset{c}
    decreases |sorted|
  {
    if |sorted| > 0 && c.cardIndex > sorted[0].cardIndex {
      InsertPermutes(c, sorted[1..]);
      assert sorted == [sorted[0]] + sorted[1..];
    }
  }

  /** The cards a group shows, in order: exactly the group's cards, each as
      often as stored, sorted by index. */
  lemma DisplayedCardsAreTheGroup(cards: seq<CardRow>, groupIndex: int)
    ensures var r := SortByIndex(GroupCards(cards, groupIndex));
      && SortedByIndex(r)
      && (forall c :: c in r <==> c in cards && c.groupIndex == groupIndex)
  {
    var g := GroupCards(cards, groupIndex);
    var r := SortByIndex(g);
    forall c ensures c in r <==> c in cards && c.groupIndex == groupIndex {
      assert c in r <==> c in multiset(r);
      assert c in g <==> c in multiset(g);
      if c in cards && c.groupIndex == groupIndex {
        var k :| 0 <= k < |cards| && cards[k] == c;
      }
      if c in g {
        var k :| 0 <= k < |g| && g[k] == c;
      }
    }
  }

  /** Sorting an already sorted list changes nothing. */
  lemma {:induction false} SortIdempotentOnSorted(cards: seq<CardRow>)
    requires SortedByIndex(cards)
    ensures SortByIndex(cards) == cards
    decreases |cards|
  {
    if |cards| > 0 {
      SortIdempotentOnSorted(cards[1..]);
      if |cards| > 1 {
        assert cards[0].cardIndex <= cards[1..][0].cardIndex;
      }
      assert cards == [cards[0]] + cards[1..];
    }
  }
}
