/** The deterministic first stage of `generateChallengeCards`: each word's
    part of speech picks a (type, sub-type) pair from the table, then the
    mix is repaired towards at least 2 reading cards and 1 choice card. */
module CardPlanning {
  import opened Wrappers
  import opened Types
  import opened Schema

  /** `POS_TO_CARD_TYPE[pos] || POS_TO_CARD_TYPE.abstract`. */
  function PlanFor(pos: string): (c: CardPlan)
    ensures ParsePos(pos).Some? ==> c == PosToCard(ParsePos(pos).value)
    ensures ParsePos(pos).None? ==> c == CardPlan(Reading, FollowReading)
  {
    match ParsePos(pos)
    case Some(p) => PosToCard(p)
    case None => PosToCard(Abstract)
  }

  function InitialPlans(words: seq<ConfirmedWord>): (r: seq<CardPlan>)
    ensures |r| == |words|
    ensures forall i :: 0 <= i < |words| ==> r[i] == PlanFor(words[i].partOfSpeech)
  {
    seq(|words|, i requires 0 <= i < |words| => PlanFor(words[i].partOfSpeech))
  }

  /** The number of plans of the given type. */
  function Count(plans: seq<CardPlan>, t: CardType): (n: nat)
    ensures n <= |plans|
  {
    if |plans| == 0 then 0
    else (if plans[0].cardType == t then 1 else 0) + Count(plans[1..], t)
  }

  lemma {:induction false} CountAppend(a: seq<CardPlan>, b: seq<CardPlan>, t: CardType)
    ensures Count(a + b, t) == Count(a, t) + Count(b, t)
    decreases |a|
  {
    if |a| == 0 {
      assert a + b == b;
    } else {
      assert (a + b)[1..] == a[1..] + b;
      CountAppend(a[1..], b, t);
    }
  }

  /** Every plan is either a reading or a choice plan. */
  lemma {:induction false} CountSplit(plans: seq<CardPlan>)
    ensures Count(plans, Reading) + Count(plans, Choice) == |plans|
    decreases |plans|
  {
    if |plans| > 0 {
      CountSplit(plans[1..]);
    }
  }

  const FollowReadingPlan := CardPlan(Reading, FollowReading)
  const ImageChoicePlan := CardPlan(Choice, ImageChoice)

  /** Repair step 1: the first `budget` choice plans, in word order, become
      follow-reading plans; the others are kept. */
  function ConvertFirstChoices(plans: seq<CardPlan>, budget: nat): (r: seq<CardPlan>)
    ensures |r| == |plans|
    ensures forall i :: 0 <= i < |plans| ==>
      r[i] == plans[i] || (plans[i].cardType == Choice && r[i] == FollowReadingPlan)
  {
    if |plans| == 0 then []
    else
      var rest := if budget > 0 && plans[0].cardType == Choice
                  then ConvertFirstChoices(plans[1..], budget - 1)
                  else ConvertFirstChoices(plans[1..], budget);
      var head := if budget > 0 && plans[0].cardType == Choice then FollowReadingPlan else plans[0];
      [head] + rest
  }

  /** Step 1 moves `min(budget, choices)` plans from choice to reading. */
  lemma {:induction false} ConvertFirstChoicesCounts(plans: seq<CardPlan>, budget: nat)
    ensures var r := ConvertFirstChoices(plans, budget);
      && Count(r, Choice) == Count(plans, Choice) - Min(budget, Count(plans, Choice))
      && Count(r, Reading) == Count(plans, Reading) + Min(budget, Count(plans, Choice))
    decreases |plans|
  {
    if |plans| > 0 {
      var b := if budget > 0 && plans[0].cardType == Choice then budget - 1 else budget;
      var head := if budget > 0 && plans[0].cardType == Choice then FollowReadingPlan else plans[0];
      var rest := ConvertFirstChoices(plans[1..], b);
      ConvertFirstChoicesCounts(plans[1..], b);
      assert ConvertFirstChoices(plans, budget) == [head] + rest;
      assert ([head] + rest)[1..] == rest;
    }
  }

  function Min(a: nat, b: nat): nat { if a <= b then a else b }

  /** Step 1 rewrites exactly the choice plans that have fewer than
      `budget` choice plans before them, that is the first `budget` ones. */
  lemma {:induction false} FirstChoicesAt(plans: seq<CardPlan>, budget: nat, i: nat)
    requires i < |plans|
    ensures ConvertFirstChoices(plans, budget)[i]
         == if plans[i].cardType == Choice && Count(plans[..i], Choice) < budget
            then FollowReadingPlan else plans[i]
    decreases i
  {
    if i > 0 {
      var b := if budget > 0 && plans[0].cardType == Choice then budget - 1 else budget;
      var head := if budget > 0 && plans[0].cardType == Choice then FollowReadingPlan else plans[0];
      FirstChoicesAt(plans[1..], b, i - 1);
      assert ConvertFirstChoices(plans, budget) == [head] + ConvertFirstChoices(plans[1..], b);
      assert plans[1..][..i - 1] == plans[..i][1..];
      assert plans[1..][i - 1] == plans[i];
      assert Count(plans[..i], Choice) == (if plans[0].cardType == Choice then 1 else 0) + Count(plans[1..][..i - 1], Choice);
    }
  }

  /** Repair step 2: the last reading plan becomes an image-choice plan;
      with no reading plan nothing changes. */
  function ConvertLastReading(plans: seq<CardPlan>): (r: seq<CardPlan>)
    ensures |r| == |plans|
    ensures forall i :: 0 <= i < |plans| ==> r[i] == plans[i] || r[i] == ImageChoicePlan
  {
    if |plans| == 0 then []
    else
      var init := plans[..|plans| - 1];
      var last := plans[|plans| - 1];
      if last.cardType == Reading then init + [ImageChoicePlan]
      else ConvertLastReading(init) + [last]
  }

  /** Step 2 rewrites exactly the last reading plan, and nothing when
      there is none. */
  lemma {:induction false} ConvertLastReadingSpec(plans: seq<CardPlan>)
    ensures Count(plans, Reading) == 0 ==> ConvertLastReading(plans) == plans
    ensures Count(plans, Reading) > 0 ==>
      exists j :: 0 <= j < |plans| && plans[j].cardType == Reading
        && (forall m :: j < m < |plans| ==> plans[m].cardType != Reading)
        && ConvertLastReading(plans) == plans[j := ImageChoicePlan]
    decreases |plans|
  {
    if |plans| > 0 {
      var init := plans[..|plans| - 1];
      var last := plans[|plans| - 1];
      assert plans == init + [last];
      CountAppend(init, [last], Reading);
      if last.cardType == Reading {
        assert ConvertLastReading(plans) == plans[|plans| - 1 := ImageChoicePlan];
      } else {
        ConvertLastReadingSpec(init);
        if Count(plans, Reading) > 0 {
          var j :| 0 <= j < |init| && init[j].cardType == Reading
            && (forall m :: j < m < |init| ==> init[m].cardType != Reading)
            && ConvertLastReading(init) == init[j := ImageChoicePlan];
          assert ConvertLastReading(plans) == plans[j := ImageChoicePlan];
        } else {
          assert ConvertLastReading(plans) == init + [last];
        }
      }
    }
  }

  /** Step 2 moves one plan from reading to choice when there is a
      reading plan. */
  lemma ConvertLastReadingCounts(plans: seq<CardPlan>)
    requires Count(plans, Reading) > 0
    ensures var r := ConvertLastReading(plans);
      Count(r, Reading) == Count(plans, Reading) - 1 && Count(r, Choice) == Count(plans, Choice) + 1
  {
    ConvertLastReadingSpec(plans);
    var j :| 0 <= j < |plans| && plans[j].cardType == Reading
      && (forall m :: j < m < |plans| ==> plans[m].cardType != Reading)
      && ConvertLastReading(plans) == plans[j := ImageChoicePlan];
    var r := ConvertLastReading(plans);
    assert plans == plans[..j] + [plans[j]] + plans[j + 1..];
    assert r == plans[..j] + [ImageChoicePlan] + plans[j + 1..];
    CountAppend(plans[..j] + [plans[j]], plans[j + 1..], Reading);
    CountAppend(plans[..j] + [plans[j]], plans[j + 1..], Choice);
    CountAppend(plans[..j], [plans[j]], Reading);
    CountAppend(plans[..j], [plans[j]], Choice);
    CountAppend(plans[..j] + [ImageChoicePlan], plans[j + 1..], Reading);
    CountAppend(plans[..j] + [ImageChoicePlan], plans[j + 1..], Choice);
    CountAppend(plans[..j], [ImageChoicePlan], Reading);
    CountAppend(plans[..j], [ImageChoicePlan], Choice);
  }

  /** The card plans of a group, in word order: the table lookup, then
      step 1 when there are fewer than 2 reading plans, then step 2 when
      the choice count taken BEFORE step 1 was 0. */
  function PlanCards(words: seq<ConfirmedWord>): (r: seq<CardPlan>)
    ensures |r| == |words|
    ensures forall i :: 0 <= i < |r| ==> AllowedPlan(r[i])
  {
    var initial := InitialPlans(words);
    var readingCount := Count(initial, Reading);
    var choiceCount := Count(initial, Choice);
    var step1 := if readingCount < 2 then ConvertFirstChoices(initial, 2 - readingCount) else initial;
    var r := if choiceCount < 1 then ConvertLastReading(step1) else step1;
    AllPlansAllowed(words, r);
    r
  }

  /** Every plan the stage can produce is one of the four table pairs. */
  lemma AllPlansAllowed(words: seq<ConfirmedWord>, r: seq<CardPlan>)
    requires forall i :: 0 <= i < |r| ==>
      r[i] in {FollowReadingPlan, ImageChoicePlan} || exists j :: 0 <= j < |words| && r[i] == PlanFor(words[j].partOfSpeech)
    ensures forall i :: 0 <= i < |r| ==> AllowedPlan(r[i])
  {
    forall i | 0 <= i < |r| ensures AllowedPlan(r[i]) {
      if r[i] == FollowReadingPlan {
        assert PosToCard(Abstract) == r[i];
      } else if r[i] == ImageChoicePlan {
        assert PosToCard(Noun) == r[i];
      } else {
        var j :| 0 <= j < |words| && r[i] == PlanFor(words[j].partOfSpeech);
        var pos := words[j].partOfSpeech;
        if ParsePos(pos).Some? {
          assert PosToCard(ParsePos(pos).value) == r[i];
        }
      }
    }
  }

  /** A group of 3 or more words always ends with at least 2 reading plans
      and at least 1 choice plan, whatever the parts of speech. */
  lemma MinimumMix(words: seq<ConfirmedWord>)
    requires |words| >= 3
    ensures Count(PlanCards(words), Reading) >= 2
    ensures Count(PlanCards(words), Choice) >= 1
  {
    var initial := InitialPlans(words);
    var readingCount := Count(initial, Reading);
    var step1 := if readingCount < 2 then ConvertFirstChoices(initial, 2 - readingCount) else initial;
    CountSplit(initial);
    if readingCount < 2 {
      ConvertFirstChoicesCounts(initial, 2 - readingCount);
    }
    if Count(initial, Choice) < 1 {
      ConvertLastReadingCounts(step1);
    }
  }

  /** When the table already yields the minimum mix, repair changes nothing. */
  lemma RepairIdleOnGoodMix(words: seq<ConfirmedWord>)
    requires Count(InitialPlans(words), Reading) >= 2 && Count(InitialPlans(words), Choice) >= 1
    ensures PlanCards(words) == InitialPlans(words)
  {
  }

  /** Every plan keeps its table entry unless the repair rewrote it to one
      of the two repair pairs. */
  lemma PlansFollowTable(words: seq<ConfirmedWord>, i: nat)
    requires i < |words|
    ensures PlanCards(words)[i] == PlanFor(words[i].partOfSpeech)
         || PlanCards(words)[i] in {FollowReadingPlan, ImageChoicePlan}
  {
  }

  /** Two nouns are planned as two follow-reading cards and no choice card:
      the choice count is taken before step 1 turns both nouns into
      reading cards, so step 2 does not run. */
  lemma TwoNounsHaveNoChoice(a: ConfirmedWord, b: ConfirmedWord)
    requires a.partOfSpeech == "noun" && b.partOfSpeech == "noun"
    ensures PlanCards([a, b]) == [FollowReadingPlan, FollowReadingPlan]
    ensures Count(PlanCards([a, b]), Choice) == 0
  {
    var initial := InitialPlans([a, b]);
    assert initial == [ImageChoicePlan, ImageChoicePlan];
    assert Count(initial, Reading) == 0 by {
      assert initial[1..] == [ImageChoicePlan];
    }
    assert Count(initial, Choice) == 2 by {
      assert initial[1..] == [ImageChoicePlan];
    }
    var r := ConvertFirstChoices(initial, 2);
    FirstChoicesAt(initial, 2, 0);
    FirstChoicesAt(initial, 2, 1);
    assert initial[..1] == [ImageChoicePlan];
    assert r[0] == FollowReadingPlan && r[1] == FollowReadingPlan;
    assert r == [FollowReadingPlan, FollowReadingPlan];
    assert r[1..] == [FollowReadingPlan];
  }

  /** Two verbs end with a single reading card: step 2 converts one of the
      two reading cards the group started with. */
  lemma TwoVerbsHaveOneReading(a: ConfirmedWord, b: ConfirmedWord)
    requires a.partOfSpeech == "verb" && b.partOfSpeech == "verb"
    ensures PlanCards([a, b]) == [CardPlan(Reading, ActionReading), ImageChoicePlan]
    ensures Count(PlanCards([a, b]), Reading) == 1
  {
    var initial := InitialPlans([a, b]);
    assert initial == [CardPlan(Reading, ActionReading), CardPlan(Reading, ActionReading)];
    assert initial[1..] == [CardPlan(Reading, ActionReading)];
    assert initial[..1] == [CardPlan(Reading, ActionReading)];
    assert Count(initial, Choice) == 0;
    assert Count(initial, Reading) == 2;
    assert ConvertLastReading(initial) == initial[..1] + [ImageChoicePlan];
    var r := PlanCards([a, b]);
    assert r == [CardPlan(Reading, ActionReading), ImageChoicePlan];
    assert r[1..] == [ImageChoicePlan];
  }
}
