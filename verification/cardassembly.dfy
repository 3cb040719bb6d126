/** The post-generation stage of `generateChallengeCards`: each card plan
    is paired by position with the entry the model returned at the same
    index, falling back to a stub instruction, and `correctOptionIndex` is
    recomputed from the options. */
module CardAssembly {
  import opened Wrappers
  import opened Types
  import opened Schema
  import opened Replies
  import opened CardPlanning

  /** One generated card before it is stored: its plan, its word and its content. */
  datatype CardDraft = CardDraft(plan: CardPlan, targetWord: string, content: CardContent)

  /** `generatedCards[index]`, `undefined` past the end. */
  function EntryAt(entries: seq<Json>, i: nat): (e: Json)
    ensures i < |entries| ==> e == entries[i]
    ensures i >= |entries| ==> e == JNull
  {
    if i < |entries| then entries[i] else JNull
  }

  /** A string-valued property of an entry. */
  function StrField(e: Json, key: string): (r: Option<string>)
    ensures r.Some? <==> Field(e, key).Some? && Field(e, key).value.JStr?
    ensures r.Some? ==> Field(e, key).value == JStr(r.value)
  {
    match Field(e, key)
    case Some(JStr(s)) => Some(s)
    case _ => None
  }

  /** The strings of a JSON array, when every item is a string. */
  function Strings(items: seq<Json>): (r: Option<seq<string>>)
    ensures r.Some? <==> forall k :: 0 <= k < |items| ==> items[k].JStr?
    ensures r.Some? ==> |r.value| == |items| && forall k :: 0 <= k < |items| ==> items[k] == JStr(r.value[k])
  {
    if forall k :: 0 <= k < |items| ==> items[k].JStr?
    then Some(seq(|items|, k requires 0 <= k < |items| => items[k].s))
    else None
  }

  /** `keywords`: taken when it is an array of strings. */
  function KeywordsOf(e: Json): Option<seq<string>> {
    match Field(e, "keywords")
    case Some(JArr(xs)) => Strings(xs)
    case _ => None
  }

  /** One option as stored: its text (empty when missing), its Chinese
      text, and whether its `isCorrect` flag is truthy. */
  function DecodeOption(o: Json): (c: ChallengeOption)
    ensures c.isCorrect <==> Field(o, "isCorrect").Some? && Truthy(Field(o, "isCorrect").value)
  {
    ChallengeOption(StrField(o, "text").GetOr(""), StrField(o, "textZh"),
                    Field(o, "isCorrect").Some? && Truthy(Field(o, "isCorrect").value))
  }

  /** The options of an entry, when `options` is an array. */
  function OptionsOf(e: Json): (r: Option<seq<ChallengeOption>>)
    ensures r.Some? <==> Field(e, "options").Some? && Field(e, "options").value.JArr?
    ensures r.Some? ==> |r.value| == |Field(e, "options").value.items|
    ensures r.Some? ==> forall k :: 0 <= k < |r.value| ==> r.value[k] == DecodeOption(Field(e, "options").value.items[k])
  {
    match Field(e, "options")
    case Some(JArr(xs)) => Some(seq(|xs|, k requires 0 <= k < |xs| => DecodeOption(xs[k])))
    case _ => None
  }

  /** `k` is what `findIndex(o => o.isCorrect)` answers: the first correct
      option, or -1 when none is correct. */
  predicate IsFirstCorrect(opts: seq<ChallengeOption>, k: int) {
    && -1 <= k < |opts|
    && (k >= 0 ==> opts[k].isCorrect)
    && (forall j :: 0 <= j < |opts| && (k == -1 || j < k) ==> !opts[j].isCorrect)
  }

  /** The index of the first correct option, -1 when there is none. */
  function FirstCorrect(opts: seq<ChallengeOption>): (k: int)
    ensures IsFirstCorrect(opts, k)
  {
    if |opts| == 0 then -1
    else if opts[0].isCorrect then 0
    else
      var k := FirstCorrect(opts[1..]);
      assert forall j :: 1 <= j < |opts| ==> opts[j] == opts[1..][j - 1];
      if k == -1 then -1 else k + 1
  }

  /** The first-correct index is unique, so any two computations of it agree. */
  lemma FirstCorrectUnique(opts: seq<ChallengeOption>, k: int, m: int)
    requires IsFirstCorrect(opts, k) && IsFirstCorrect(opts, m)
    ensures k == m
  {
  }

  /** The instruction: the entry's non-empty instruction, else `Learn: <word>`. */
  function InstructionFor(e: Json, word: string): (r: string)
    ensures r != ""
    ensures StrField(e, "instruction").Some? && StrField(e, "instruction").value != "" ==> r == StrField(e, "instruction").value
    ensures !(StrField(e, "instruction").Some? && StrField(e, "instruction").value != "") ==> r == "Learn: " + word
  {
    match StrField(e, "instruction")
    case Some(s) => if s != "" then s else "Learn: " + word
    case None => "Learn: " + word
  }

  /** The stored content of the card for `word` built from entry `e`. */
  function ContentFor(e: Json, word: string): (c: CardContent)
    ensures c.instruction == InstructionFor(e, word)
    ensures c.options == OptionsOf(e)
    ensures c.correctOptionIndex.Some? <==> c.options.Some?
    ensures c.options.Some? ==> IsFirstCorrect(c.options.value, c.correctOptionIndex.value)
    ensures c.instructionZh == StrField(e, "instructionZh") && c.readingHint == StrField(e, "readingHint")
    ensures c.imageUrl.None?
  {
    var opts := OptionsOf(e);
    CardContent(
      InstructionFor(e, word),
      StrField(e, "instructionZh"),
      StrField(e, "readingText"),
      StrField(e, "readingHint"),
      KeywordsOf(e),
      StrField(e, "question"),
      StrField(e, "questionZh"),
      opts,
      if opts.Some? then Some(FirstCorrect(opts.value)) else None,
      None,
      StrField(e, "storyContext"))
  }

  /** Pairs plan `i` and word `i` with entry `i`. */
  function AssembleCards(words: seq<ConfirmedWord>, plans: seq<CardPlan>, entries: seq<Json>): (r: seq<CardDraft>)
    requires |plans| == |words|
    ensures |r| == |words|
    ensures forall i :: 0 <= i < |r| ==> r[i].plan == plans[i] && r[i].targetWord == words[i].word
    ensures forall i :: 0 <= i < |r| ==> r[i].content == ContentFor(EntryAt(entries, i), words[i].word)
  {
    seq(|words|, i requires 0 <= i < |words| => CardDraft(plans[i], words[i].word, ContentFor(EntryAt(entries, i), words[i].word)))
  }

  /** `generateChallengeCards` after the model replied with `raw`: one card
      per word, in word order, whose type is the repaired plan. */
  function GenerateCards(words: seq<ConfirmedWord>, raw: Json, parse: string -> Option<Json>): (r: seq<CardDraft>)
    ensures |r| == |words|
    ensures forall i :: 0 <= i < |r| ==>
      && r[i].targetWord == words[i].word
      && r[i].plan == PlanCards(words)[i]
      && AllowedPlan(r[i].plan)
      && r[i].content.instruction != ""
  {
    AssembleCards(words, PlanCards(words), CardEntries(raw, parse))
  }

  /** A card with no entry at its position gets the stub content. */
  lemma MissingEntryGivesStub(words: seq<ConfirmedWord>, raw: Json, parse: string -> Option<Json>, i: nat)
    requires i < |words| && i >= |CardEntries(raw, parse)|
    ensures GenerateCards(words, raw, parse)[i].content == InstructionOnly("Learn: " + words[i].word)
  {
  }

  /** A reply the parser rejects, or one that is null or a primitive,
      still yields every card, each with stub content. */
  lemma UnusableReplyGivesStubs(words: seq<ConfirmedWord>, raw: Json, parse: string -> Option<Json>)
    requires ExtractList(raw, parse, "cards").None? || !(raw.JStr? || ObjectLike(raw))
    ensures var r := GenerateCards(words, raw, parse);
      |r| == |words| && forall i :: 0 <= i < |r| ==> r[i].content == InstructionOnly("Learn: " + words[i].word)
  {
  }

  /** Each card depends only on the entry at its own index: entries past
      the last word are ignored. */
  lemma ExtraEntriesIgnored(words: seq<ConfirmedWord>, plans: seq<CardPlan>, entries: seq<Json>, extra: seq<Json>)
    requires |plans| == |words| && |entries| >= |words|
    ensures AssembleCards(words, plans, entries + extra) == AssembleCards(words, plans, entries)
  {
    var a := AssembleCards(words, plans, entries + extra);
    var b := AssembleCards(words, plans, entries);
    forall i | 0 <= i < |words| ensures a[i] == b[i] {
      assert EntryAt(entries + extra, i) == EntryAt(entries, i);
    }
  }

  /** When the entry at a card's index has options, its stored
      `correctOptionIndex` points at a correct option or is -1 when none is
      correct; with no options it is absent. */
  lemma CorrectIndexMeaning(words: seq<ConfirmedWord>, raw: Json, parse: string -> Option<Json>, i: nat)
    requires i < |words|
    ensures var c := GenerateCards(words, raw, parse)[i].content;
      && (c.options.None? ==> c.correctOptionIndex.None?)
      && (c.options.Some? && c.correctOptionIndex.value >= 0 ==> c.options.value[c.correctOptionIndex.value].isCorrect)
      && (c.options.Some? && c.correctOptionIndex.value == -1 ==>
            forall j :: 0 <= j < |c.options.value| ==> !c.options.value[j].isCorrect)
  {
  }

  // ---------------------------------------------------------------------
  // `correctOptionIndex` as the source evaluates it.

  /** `items.findIndex(o => o.isCorrect)` on the raw array: the first item
      whose `isCorrect` is truthy, -1 when none is; `None` when a null item
      is reached first, because reading `isCorrect` of null throws. */
  function FindIndexAsWritten(items: seq<Json>): (r: Option<int>)
    ensures r.Some? ==> -1 <= r.value < |items|
  {
    if |items| == 0 then Some(-1)
    else if items[0] == JNull then None
    else if Field(items[0], "isCorrect").Some? && Truthy(Field(items[0], "isCorrect").value) then Some(0)
    else
      match FindIndexAsWritten(items[1..])
      case None => None
      case Some(k) => if k == -1 then Some(-1) else Some(k + 1)
  }

  /** `generatedCards[index]?.options?.findIndex(o => o.isCorrect)`: absent
      for a missing or null `options`; any other non-array value has no
      `findIndex` method, so the call throws a TypeError (`Failure`). */
  function CorrectIndexAsWritten(e: Json): (r: Result<Option<int>, string>)
    ensures Field(e, "options").None? || Field(e, "options").value == JNull ==> r == Success(None)
    ensures Field(e, "options").Some? && !Field(e, "options").value.JArr? && Field(e, "options").value != JNull
            ==> r.Failure?
  {
    match Field(e, "options")
    case None => Success(None)
    case Some(JNull) => Success(None)
    case Some(JArr(xs)) =>
      (match FindIndexAsWritten(xs)
       case None => Failure("TypeError")
       case Some(k) => Success(Some(k)))
    case Some(_) => Failure("TypeError")
  }

  /** The content the source builds for a card, or the TypeError thrown
      while building it. */
  function ContentAsWritten(e: Json, word: string): (r: Result<CardContent, string>)
    ensures r.Success? <==> CorrectIndexAsWritten(e).Success?
  {
    match CorrectIndexAsWritten(e)
    case Failure(err) => Failure(err)
    case Success(idx) =>
      Success(CardContent(
        InstructionFor(e, word),
        StrField(e, "instructionZh"),
        StrField(e, "readingText"),
        StrField(e, "readingHint"),
        KeywordsOf(e),
        StrField(e, "question"),
        StrField(e, "questionZh"),
        OptionsOf(e),
        idx,
        None,
        StrField(e, "storyContext")))
  }

  /** The `cardAssignments.map(...)` of the source from position `i` on:
      the first card whose content throws makes the whole call throw. */
  function AssembleAsWritten(words: seq<ConfirmedWord>, plans: seq<CardPlan>, entries: seq<Json>, i: nat): (r: Result<seq<CardDraft>, string>)
    requires |plans| == |words| && i <= |words|
    ensures r.Success? ==> |r.value| == |words| - i
    decreases |words| - i
  {
    if i == |words| then Success([])
    else
      match ContentAsWritten(EntryAt(entries, i), words[i].word)
      case Failure(err) => Failure(err)
      case Success(c) =>
        (match AssembleAsWritten(words, plans, entries, i + 1)
         case Failure(err) => Failure(err)
         case Success(rest) => Success([CardDraft(plans[i], words[i].word, c)] + rest))
  }

  /** `generateChallengeCards` as written, once the model replied with `raw`. */
  function GenerateCardsAsWritten(words: seq<ConfirmedWord>, raw: Json, parse: string -> Option<Json>): (r: Result<seq<CardDraft>, string>)
    ensures r.Success? ==> |r.value| == |words|
  {
    AssembleAsWritten(words, PlanCards(words), CardEntries(raw, parse), 0)
  }

  /** The options of an entry are well formed when they are absent, null,
      or an array without null items. */
  predicate WellFormedOptions(e: Json) {
    match Field(e, "options")
    case None => true
    case Some(JNull) => true
    case Some(JArr(xs)) => forall k :: 0 <= k < |xs| ==> xs[k] != JNull
    case Some(_) => false
  }

  /** On an array without null items the source's `findIndex` computes the
      first-correct index of the decoded options. */
  lemma {:induction false} FindIndexAgrees(items: seq<Json>)
    requires forall k :: 0 <= k < |items| ==> items[k] != JNull
    ensures FindIndexAsWritten(items).Some?
    ensures IsFirstCorrect(seq(|items|, k requires 0 <= k < |items| => DecodeOption(items[k])),
                           FindIndexAsWritten(items).value)
    decreases |items|
  {
    var opts := seq(|items|, k requires 0 <= k < |items| => DecodeOption(items[k]));
    if |items| > 0 && !opts[0].isCorrect {
      FindIndexAgrees(items[1..]);
      var tail := seq(|items[1..]|, k requires 0 <= k < |items[1..]| => DecodeOption(items[1..][k]));
      assert tail == opts[1..];
    }
  }

  /** On well-formed options the source's content agrees with `ContentFor`. */
  lemma ContentAgrees(e: Json, word: string)
    requires WellFormedOptions(e)
    ensures ContentAsWritten(e, word) == Success(ContentFor(e, word))
  {
    match Field(e, "options")
    case None =>
    case Some(JNull) =>
    case Some(JArr(xs)) =>
      FindIndexAgrees(xs);
      var opts := OptionsOf(e).value;
      assert opts == seq(|xs|, k requires 0 <= k < |xs| => DecodeOption(xs[k]));
      FirstCorrectUnique(opts, FindIndexAsWritten(xs).value, FirstCorrect(opts));
  }

  lemma {:induction false} AssembleAgrees(words: seq<ConfirmedWord>, plans: seq<CardPlan>, entries: seq<Json>, i: nat)
    requires |plans| == |words| && i <= |words|
    requires forall j :: i <= j < |words| ==> WellFormedOptions(EntryAt(entries, j))
    ensures AssembleAsWritten(words, plans, entries, i) == Success(AssembleCards(words, plans, entries)[i..])
    decreases |words| - i
  {
    if i < |words| {
      ContentAgrees(EntryAt(entries, i), words[i].word);
      AssembleAgrees(words, plans, entries, i + 1);
      var all := AssembleCards(words, plans, entries);
      assert all[i] == CardDraft(plans[i], words[i].word, ContentFor(EntryAt(entries, i), words[i].word));
      assert all[i..] == [all[i]] + all[i + 1..];
      assert AssembleAsWritten(words, plans, entries, i) == Success([all[i]] + all[i + 1..]);
    } else {
      assert AssembleCards(words, plans, entries)[i..] == [];
    }
  }

  /** Whenever every entry the cards use has well-formed options, the
      source's stage and `GenerateCards` produce the same cards. */
  lemma AsWrittenAgreesOnWellFormed(words: seq<ConfirmedWord>, raw: Json, parse: string -> Option<Json>)
    requires forall j :: 0 <= j < |words| ==> WellFormedOptions(EntryAt(CardEntries(raw, parse), j))
    ensures GenerateCardsAsWritten(words, raw, parse) == Success(GenerateCards(words, raw, parse))
  {
    var entries := CardEntries(raw, parse);
    AssembleAgrees(words, PlanCards(words), entries, 0);
    assert AssembleCards(words, PlanCards(words), entries)[0..] == AssembleCards(words, PlanCards(words), entries);
  }

  /** One word whose entry has a string for `options`: the source throws
      a TypeError out of the stage although its fallback is meant to keep
      the batch going, while `GenerateCards` yields the card with no
      options and no correct index. */
  lemma StringOptionsThrow(w: ConfirmedWord, parse: string -> Option<Json>)
    ensures var raw := JObj(map["cards" := JArr([JObj(map["options" := JStr("A")])])]);
      && GenerateCardsAsWritten([w], raw, parse).Failure?
      && |GenerateCards([w], raw, parse)| == 1
      && GenerateCards([w], raw, parse)[0].content.options.None?
      && GenerateCards([w], raw, parse)[0].content.correctOptionIndex.None?
  {
    var entry := JObj(map["options" := JStr("A")]);
    var raw := JObj(map["cards" := JArr([entry])]);
    assert CardEntries(raw, parse) == [entry];
    assert CorrectIndexAsWritten(entry).Failure?;
  }

  /** A null option ahead of the correct one also throws in the source. */
  lemma NullOptionThrows(w: ConfirmedWord, parse: string -> Option<Json>)
    ensures var entry := JObj(map["options" := JArr([JNull, JObj(map["isCorrect" := JBool(true)])])]);
      var raw := JObj(map["cards" := JArr([entry])]);
      && GenerateCardsAsWritten([w], raw, parse).Failure?
      && GenerateCards([w], raw, parse)[0].content.correctOptionIndex == Some(1)
  {
    var second := JObj(map["isCorrect" := JBool(true)]);
    var entry := JObj(map["options" := JArr([JNull, second])]);
    var raw := JObj(map["cards" := JArr([entry])]);
    assert CardEntries(raw, parse) == [entry];
    assert FindIndexAsWritten([JNull, second]).None?;
    var opts := OptionsOf(entry).value;
    assert !opts[0].isCorrect && opts[1].isCorrect;
    FirstCorrectUnique(opts, 1, FirstCorrect(opts));
  }
}
