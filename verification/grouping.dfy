/** `groupWords`: the order-preserving partition of the confirmed words
    into the groups that each get one story and one card set. */
module Grouping {
  import opened Schema

  function Min(a: int, b: int): int { if a <= b then a else b }
  function Max(a: int, b: int): int { if a >= b then a else b }

  /** `Math.ceil(a / b)` for a positive divisor, counted by steps of `b`
      towards the interval `(-b, 0]`, where the rounded-up quotient is 0. */
  function CeilDiv(a: int, b: int): (q: int)
    requires b > 0
    ensures a >= 0 ==> q >= 0
    decreases if a > 0 then a + b else -a
  {
    if a > 0 then 1 + CeilDiv(a - b, b)
    else if a > -b then 0
    else CeilDiv(a + b, b) - 1
  }

  /** The rounded-up quotient is the least `q` with `a <= b * q`. */
  lemma {:induction false} CeilDivBounds(a: int, b: int)
    requires b > 0
    ensures b * (CeilDiv(a, b) - 1) < a <= b * CeilDiv(a, b)
    decreases if a > 0 then a + b else -a
  {
    if a > 0 {
      CeilDivBounds(a - b, b);
    } else if a <= -b {
      CeilDivBounds(a + b, b);
    }
  }

  /** `Array.prototype.slice(from, to)` for non-negative bounds. */
  function Slice<T>(s: seq<T>, from: nat, to: nat): (r: seq<T>)
    ensures from <= to <= |s| ==> r == s[from..to]
    ensures from <= |s| <= to ==> r == s[from..]
  {
    var hi := Min(to, |s|);
    var lo := Min(from, hi);
    s[lo..hi]
  }

  /** The size the loop picks for the next group:
      `min(6, max(5, ceil(remaining / remainingGroups)))`. */
  function GroupSize(remaining: int, remainingGroups: int): int
    requires remainingGroups > 0
  {
    Min(6, Max(5, CeilDiv(remaining, remainingGroups)))
  }

  /** The `for` loop of the source from iteration `i` on, with `wordIndex`
      words already consumed. */
  function GroupLoop(words: seq<ConfirmedWord>, numGroups: nat, i: nat, wordIndex: nat): seq<WordGroup>
    requires i <= numGroups
    decreases numGroups - i
  {
    if i == numGroups then []
    else
      var size := GroupSize(|words| - wordIndex, numGroups - i);
      [WordGroup(i, Slice(words, wordIndex, wordIndex + size))]
        + GroupLoop(words, numGroups, i + 1, wordIndex + size)
  }

  /** The number of groups for `n` words. */
  function GroupCount(n: nat): nat {
    if n <= 6 then 1 else CeilDiv(n, 5)
  }

  /** `groupWords`. The result covers the input exactly, in order, and the
      group indices run 0, 1, …, one group per index. */
  function GroupWords(words: seq<ConfirmedWord>): (r: seq<WordGroup>)
    ensures |r| == GroupCount(|words|)
    ensures Flatten(r) == words
    ensures forall j :: 0 <= j < |r| ==> r[j].groupIndex == j
  {
    if |words| <= 6 then
      assert Flatten([WordGroup(0, words)]) == words + Flatten([]);
      [WordGroup(0, words)]
    else
      var k := CeilDiv(|words|, 5);
      LoopShape(words, k, 0);
      LoopCovers(words, k, 0);
      assert words[Min(0, |words|)..] == words;
      GroupLoop(words, k, 0, 0)
  }

  /** When every earlier group took 5 words, the next one takes 5 too: the
      clamp can only raise a share to 5, never to 6, because `n` words
      never exceed 5 per group. */
  lemma SizeIsFive(n: nat, k: nat, i: nat)
    requires k == CeilDiv(n, 5) && i < k
    ensures GroupSize(n - 5 * i, k - i) == 5
  {
    var b := k - i;
    var q := CeilDiv(n - 5 * i, b);
    CeilDivBounds(n, 5);
    CeilDivBounds(n - 5 * i, b);
    assert b * (q - 1) < 5 * b;
    ShareAtMostFive(b, q);
  }

  lemma ShareAtMostFive(b: int, q: int)
    requires b > 0 && b * (q - 1) < 5 * b
    ensures q <= 5
  {
  }

  /** Reference shape of the loop's output from iteration `i` on: group
      `m` takes the five words from `5 m`, cut short by the end of the list. */
  function Chunks(words: seq<ConfirmedWord>, k: nat, i: nat): seq<WordGroup>
    requires i <= k
    decreases k - i
  {
    if i == k then []
    else [WordGroup(i, words[Min(5 * i, |words|)..Min(5 * i + 5, |words|)])] + Chunks(words, k, i + 1)
  }

  /** After `5 * i` words, the loop builds exactly the reference chunks:
      every iteration it runs takes five words. */
  lemma {:induction false} LoopIsChunks(words: seq<ConfirmedWord>, k: nat, i: nat)
    requires k == CeilDiv(|words|, 5) && i <= k
    ensures GroupLoop(words, k, i, 5 * i) == Chunks(words, k, i)
    decreases k - i
  {
    if i < k {
      SizeIsFive(|words|, k, i);
      LoopIsChunks(words, k, i + 1);
    }
  }

  /** The chunks from `i` are `k - i` groups. */
  lemma {:induction false} ChunksLength(words: seq<ConfirmedWord>, k: nat, i: nat)
    requires i <= k
    ensures |Chunks(words, k, i)| == k - i
    decreases k - i
  {
    if i < k {
      ChunksLength(words, k, i + 1);
    }
  }

  /** Chunk `m` sits at position `m - i` of the chunks from `i`. */
  lemma {:induction false} ChunksAt(words: seq<ConfirmedWord>, k: nat, i: nat, m: nat)
    requires i <= m < k
    ensures m - i < |Chunks(words, k, i)|
      && Chunks(words, k, i)[m - i] == WordGroup(m, words[Min(5 * m, |words|)..Min(5 * m + 5, |words|)])
    decreases m - i
  {
    var rest := Chunks(words, k, i + 1);
    assert Chunks(words, k, i) == [WordGroup(i, words[Min(5 * i, |words|)..Min(5 * i + 5, |words|)])] + rest;
    if i < m {
      ChunksAt(words, k, i + 1, m);
      assert Chunks(words, k, i)[m - i] == rest[m - (i + 1)];
    }
  }

  /** The chunks from `i`: group `i + j` holds the (up to) five words from
      `5 (i + j)`, which is inside the list. */
  lemma ChunksShape(words: seq<ConfirmedWord>, k: nat, i: nat)
    requires 5 * (k - 1) < |words| <= 5 * k && i <= k
    ensures var r := Chunks(words, k, i);
      && |r| == k - i
      && (forall j :: 0 <= j < |r| ==> r[j].groupIndex == i + j)
      && (forall j :: 0 <= j < |r| ==>
            (5 * (i + j) < |words| && r[j].words == words[5 * (i + j)..Min(5 * (i + j) + 5, |words|)]))
  {
    ChunksLength(words, k, i);
    var r := Chunks(words, k, i);
    forall j | 0 <= j < |r|
      ensures r[j].groupIndex == i + j
      ensures 5 * (i + j) < |words| && r[j].words == words[5 * (i + j)..Min(5 * (i + j) + 5, |words|)]
    {
      ChunksAt(words, k, i, i + j);
    }
  }

  /** The groups the loop builds from iteration `i` when `5 * i` words
      have been consumed: consecutive slices of 5 words, the last one cut
      short by the end of the list. */
  lemma LoopShape(words: seq<ConfirmedWord>, k: nat, i: nat)
    requires |words| > 0 && k == CeilDiv(|words|, 5) && i <= k
    ensures var r := GroupLoop(words, k, i, 5 * i);
      && |r| == k - i
      && (forall j :: 0 <= j < |r| ==> r[j].groupIndex == i + j)
      && (forall j :: 0 <= j < |r| ==>
            (5 * (i + j) < |words| && r[j].words == words[5 * (i + j)..Min(5 * (i + j) + 5, |words|)]))
  {
    LoopIsChunks(words, k, i);
    CeilDivBounds(|words|, 5);
    ChunksShape(words, k, i);
  }

  /** The chunks from `i` on concatenate to the words from `5 i` on. */
  lemma {:induction false} ChunksCover(words: seq<ConfirmedWord>, k: nat, i: nat)
    requires 5 * (k - 1) < |words| <= 5 * k && i <= k
    ensures Flatten(Chunks(words, k, i)) == words[Min(5 * i, |words|)..]
    decreases k - i
  {
    var n := |words|;
    if i < k {
      ChunksCover(words, k, i + 1);
      var r := Chunks(words, k, i);
      assert r[1..] == Chunks(words, k, i + 1);
      assert words[5 * i..] == words[5 * i..Min(5 * i + 5, n)] + words[Min(5 * (i + 1), n)..];
    }
  }

  /** The loop's groups concatenate to the words not yet consumed. */
  lemma LoopCovers(words: seq<ConfirmedWord>, k: nat, i: nat)
    requires |words| > 0 && k == CeilDiv(|words|, 5) && i <= k
    ensures Flatten(GroupLoop(words, k, i, 5 * i)) == words[Min(5 * i, |words|)..]
  {
    LoopIsChunks(words, k, i);
    CeilDivBounds(|words|, 5);
    ChunksCover(words, k, i);
  }

  /** With at most 6 words there is one group, index 0, holding every word in order. */
  lemma SmallInputOneGroup(words: seq<ConfirmedWord>)
    requires |words| <= 6
    ensures GroupWords(words) == [WordGroup(0, words)]
  {
  }

  /** With more than 6 words there are `ceil(n / 5)` groups, none empty;
      every group but the last has exactly 5 words and the last has the
      remaining `n - 5 (k - 1)`, which is between 1 and 5. No group ever
      has 6 words. */
  lemma LargeInputGroupSizes(words: seq<ConfirmedWord>)
    requires |words| > 6
    ensures var r := GroupWords(words);
      var k := CeilDiv(|words|, 5);
      && |r| == k
      && (forall j :: 0 <= j < k - 1 ==> |r[j].words| == 5)
      && |r[k - 1].words| == |words| - 5 * (k - 1)
      && 1 <= |r[k - 1].words| <= 5
  {
    var k := CeilDiv(|words|, 5);
    CeilDivBounds(|words|, 5);
    LoopShape(words, k, 0);
    var r := GroupLoop(words, k, 0, 0);
    forall j | 0 <= j < k - 1 ensures |r[j].words| == 5 {
      assert 5 * j + 5 <= 5 * (k - 1) < |words|;
    }
  }

  /** Seven words are split 5 + 2: the trailing group falls below the
      five-to-six words per group the function's comment announces. */
  lemma SevenWordsSplitFiveTwo(words: seq<ConfirmedWord>)
    requires |words| == 7
    ensures |GroupWords(words)| == 2
    ensures |GroupWords(words)[0].words| == 5 && |GroupWords(words)[1].words| == 2
  {
    LargeInputGroupSizes(words);
  }
}
