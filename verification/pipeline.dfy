/** The server actions that move a word task through its life: creation,
    recognition, confirmation, regrouping and content generation. The
    database is a `Store` value. The chat model, the credit ledger and the
    database writes that may fail enter as parameters that say how each
    call turns out. */
module Pipeline {
  import opened Wrappers
  import opened Text
  import opened Types
  import opened Schema
  import opened Replies
  import opened CardAssembly
  import Grouping
  import WordInput
  import Wizard

  /** The caller: a signed-in user, or a guest who is never charged. */
  datatype Actor = Actor(userId: Id, isGuest: bool)

  /** One entry of the credit ledger. */
  datatype Debit = Debit(userId: Id, amount: nat)

  /** The tables the actions touch, and the next fresh row id. */
  datatype Store = Store(
    tasks: map<Id, TaskRow>,
    stories: seq<StoryRow>,
    cards: seq<CardRow>,
    debits: seq<Debit>,
    nextId: Id)

  /** Every task is stored under its own id, and every id handed out so far
      is below `nextId`. */
  predicate Valid(st: Store) {
    forall id :: id in st.tasks ==> id < st.nextId && st.tasks[id].id == id
  }

  datatype Error =
    | InvalidInput        // rejected by the action's input schema
    | NoTask              // missing, or owned by someone else
    | NoTaskOrGroups      // as `NoTask`, or the task has no groups yet
    | NotEnoughCredits
    | RecognitionFailed
    | GenerationFailed
    | SaveFailed

  /** The store after an action and what the action returned. */
  datatype Reply<T> = Reply(store: Store, result: Result<T, Error>)

  /** The ownership test every task action starts with. */
  predicate Owns(st: Store, actor: Actor, taskId: Id) {
    taskId in st.tasks && st.tasks[taskId].userId == actor.userId
  }

  /** The credits a ledger records. */
  function Charged(ds: seq<Debit>): nat {
    if |ds| == 0 then 0 else Charged(ds[..|ds| - 1]) + ds[|ds| - 1].amount
  }

  /** Only the one task's row may differ; the other tables and the other
      tasks are as they were. */
  predicate OnlyTaskChanged(st: Store, st': Store, taskId: Id) {
    && taskId in st.tasks && taskId in st'.tasks
    && st'.tasks.Keys == st.tasks.Keys
    && (forall id :: id in st.tasks && id != taskId ==> st'.tasks[id] == st.tasks[id])
    && st'.stories == st.stories && st'.cards == st.cards
    && st'.debits == st.debits && st'.nextId == st.nextId
  }

  // ---------------------------------------------------------------------
  // createTaskAction

  /** `createTaskAction`: the title must hold 1 to 100 characters; the new
      task is stored under the caller as uploaded, with nothing recognised
      and no credits used, under an id no task had. `insertOk` is whether
      the insert succeeds. */
  function CreateTask(st: Store, actor: Actor, title: string, grade: string, insertOk: bool): (r: Reply<Id>)
    ensures !(1 <= |title| <= 100) ==> r == Reply(st, Failure(InvalidInput))
    ensures 1 <= |title| <= 100 && !insertOk ==> r == Reply(st, Failure(SaveFailed))
    ensures r.result.Success? <==> 1 <= |title| <= 100 && insertOk
    ensures r.result.Success? ==>
      var id := r.result.value;
      && r.store.tasks == st.tasks[id := NewTask(id, actor.userId, title, grade)]
      && r.store.tasks[id].status == Uploaded && r.store.tasks[id].creditsUsed == 0
      && r.store.stories == st.stories && r.store.cards == st.cards && r.store.debits == st.debits
      && (Valid(st) ==> id !in st.tasks && Valid(r.store))
  {
    if !(1 <= |title| <= 100) then Reply(st, Failure(InvalidInput))
    else if !insertOk then Reply(st, Failure(SaveFailed))
    else
      var id := st.nextId;
      Reply(st.(tasks := st.tasks[id := NewTask(id, actor.userId, title, grade)], nextId := id + 1), Success(id))
  }

  // ---------------------------------------------------------------------
  // recognizeWordsAction

  /** What the recogniser is asked to read. */
  datatype Source = FromImage(url: string) | FromText(text: string)

  /** The input schema's refinement: some text or an image URL that is not
      blank. */
  predicate HasInput(wordText: Option<string>, imageUrl: Option<string>) {
    Trim(wordText.GetOr("")) != "" || Trim(imageUrl.GetOr("")) != ""
  }

  /** A non-blank image URL wins and is passed as given; otherwise the
      trimmed text is read. */
  function SourceOf(wordText: Option<string>, imageUrl: Option<string>): Source {
    if Trim(imageUrl.GetOr("")) != "" then FromImage(imageUrl.value)
    else FromText(Trim(wordText.GetOr("")))
  }

  /** What a recogniser hands back. The text recogniser always gives a
      list (its `Array.isArray` guard turns anything else into `[]`); the
      image recogniser returns the reply's `words` member unchecked, so
      that member may be missing. */
  datatype Recognized = WordList(words: seq<RecognizedWord>) | NoWordsMember

  /** `recognizeWordsAction`. `recognize` gives the recogniser's answer for
      a source (`None` when it throws), `hasEnough(n)` the ledger's answer to
      the precheck for 2 credits and `debitOk` whether the debit succeeds.
      A guest is neither checked nor charged. When a list comes back, it is
      stored on the task and a signed-in caller is charged 2 credits. When
      the `words` member is missing, a signed-in caller fails on the debit
      description's `recognizedWords.length` before any debit, while a
      guest is answered with success and no words, and the update, which
      skips the undefined column, stores nothing. Every failure leaves the
      store as it was. */
  function RecognizeWords(st: Store, actor: Actor, taskId: Id, wordText: Option<string>, imageUrl: Option<string>,
                          hasEnough: nat -> bool, recognize: Source -> Option<Recognized>, debitOk: bool): (r: Reply<Option<seq<RecognizedWord>>>)
    ensures !HasInput(wordText, imageUrl) ==> r == Reply(st, Failure(InvalidInput))
    ensures HasInput(wordText, imageUrl) && !Owns(st, actor, taskId) ==> r == Reply(st, Failure(NoTask))
    ensures HasInput(wordText, imageUrl) && Owns(st, actor, taskId) && !actor.isGuest && !hasEnough(RecognitionCost) ==>
      r == Reply(st, Failure(NotEnoughCredits))
    ensures r.result.Failure? ==> r.store == st
    ensures r.result.Success? <==>
      && HasInput(wordText, imageUrl) && Owns(st, actor, taskId)
      && recognize(SourceOf(wordText, imageUrl)).Some?
      && (actor.isGuest || (hasEnough(RecognitionCost) && debitOk && recognize(SourceOf(wordText, imageUrl)).value.WordList?))
    ensures r.result.Success? && recognize(SourceOf(wordText, imageUrl)).value.WordList? ==>
      var words := recognize(SourceOf(wordText, imageUrl)).value.words;
      && r.result.value == Some(words)
      && r.store.tasks == st.tasks[taskId := st.tasks[taskId].(recognizedWords := Some(words))]
      && r.store.stories == st.stories && r.store.cards == st.cards
      && r.store.debits == st.debits + (if actor.isGuest then [] else [Debit(actor.userId, RecognitionCost)])
    ensures r.result.Success? && recognize(SourceOf(wordText, imageUrl)).value.NoWordsMember? ==>
      r.result.value.None? && r.store == st
  {
    if !HasInput(wordText, imageUrl) then Reply(st, Failure(InvalidInput))
    else if !Owns(st, actor, taskId) then Reply(st, Failure(NoTask))
    else if !actor.isGuest && !hasEnough(RecognitionCost) then Reply(st, Failure(NotEnoughCredits))
    else
      match recognize(SourceOf(wordText, imageUrl))
      case None => Reply(st, Failure(RecognitionFailed))
      case Some(NoWordsMember) =>
        if actor.isGuest then Reply(st, Success(None)) else Reply(st, Failure(RecognitionFailed))
      case Some(WordList(words)) =>
        if !actor.isGuest && !debitOk then Reply(st, Failure(RecognitionFailed))
        else
          var debits := if actor.isGuest then st.debits else st.debits + [Debit(actor.userId, RecognitionCost)];
          var task := st.tasks[taskId].(recognizedWords := Some(words));
          Reply(st.(tasks := st.tasks[taskId := task], debits := debits), Success(Some(words)))
  }

  /** A signed-in caller holding `c` credits gets past the recognition
      precheck exactly when `c` covers its 2 credits. */
  lemma RecognitionNeedsTwo(st: Store, actor: Actor, taskId: Id, wordText: Option<string>, imageUrl: Option<string>,
                            c: nat, recognize: Source -> Option<Recognized>, debitOk: bool)
    requires HasInput(wordText, imageUrl) && Owns(st, actor, taskId) && !actor.isGuest
    ensures var r := RecognizeWords(st, actor, taskId, wordText, imageUrl, (n: nat) => n <= c, recognize, debitOk);
      r.result != Failure(NotEnoughCredits) <==> c >= 2
  {
  }

  /** What the word box sends is always accepted by the input schema when
      the image URL, if sent, is not blank, and the recogniser then reads
      exactly what the box chose: the trimmed text when there is any,
      otherwise the image. */
  lemma ClientChoiceIsServerChoice(text: string, imageUrl: string)
    requires WordInput.SubmitPayload(text, imageUrl).Some?
    requires !AllSpace(imageUrl) || imageUrl == ""
    ensures var p := WordInput.SubmitPayload(text, imageUrl).value;
      && HasInput(p.text, p.imageUrl)
      && SourceOf(p.text, p.imageUrl) == (if !AllSpace(text) then FromText(Trim(text)) else FromImage(imageUrl))
  {
    var p := WordInput.SubmitPayload(text, imageUrl).value;
    assert Trim("") == "";
    if !AllSpace(text) {
      assert p == WordInput.Payload(Some(Trim(text)), None);
      TrimIdempotent(text);
      assert Trim(p.text.value) == Trim(text) != "";
    } else {
      assert p == WordInput.Payload(None, Some(imageUrl));
      assert Trim(imageUrl) != "";
    }
  }

  // ---------------------------------------------------------------------
  // confirmWordsAction and updateGroupsAction

  /** The input schema's part-of-speech enum. */
  predicate KnownPos(words: seq<ConfirmedWord>) {
    forall k :: 0 <= k < |words| ==> ParsePos(words[k].partOfSpeech).Some?
  }

  /** `confirmWordsAction`: every part of speech must be one of the four
      names. The owner's task then stores the words and their grouping,
      and becomes confirmed whatever its status was; nothing else changes.
      The groups returned cover the words exactly, in order. */
  function ConfirmWords(st: Store, actor: Actor, taskId: Id, words: seq<ConfirmedWord>): (r: Reply<seq<WordGroup>>)
    ensures !KnownPos(words) ==> r == Reply(st, Failure(InvalidInput))
    ensures KnownPos(words) && !Owns(st, actor, taskId) ==> r == Reply(st, Failure(NoTask))
    ensures r.result.Success? <==> KnownPos(words) && Owns(st, actor, taskId)
    ensures r.result.Success? ==> OnlyTaskChanged(st, r.store, taskId) && Flatten(r.result.value) == words
    ensures r.result.Success? ==>
      var t, t' := st.tasks[taskId], r.store.tasks[taskId];
      && t'.status == Confirmed
      && t'.confirmedWords == Some(words) && t'.wordGroups == Some(r.result.value)
      && t' == t.(status := t'.status, confirmedWords := t'.confirmedWords, wordGroups := t'.wordGroups)
  {
    if !KnownPos(words) then Reply(st, Failure(InvalidInput))
    else if !Owns(st, actor, taskId) then Reply(st, Failure(NoTask))
    else
      var groups := Grouping.GroupWords(words);
      var task := st.tasks[taskId].(confirmedWords := Some(words), wordGroups := Some(groups), status := Confirmed);
      Reply(st.(tasks := st.tasks[taskId := task]), Success(groups))
  }

  /** `updateGroupsAction`: the groups replace the owner's stored groups;
      a task that is missing or not owned is left alone, and the action
      reports success either way once the input is well formed. */
  function UpdateGroups(st: Store, actor: Actor, taskId: Id, groups: seq<WordGroup>): (r: Reply<()>)
    ensures !KnownPos(Flatten(groups)) ==> r == Reply(st, Failure(InvalidInput))
    ensures KnownPos(Flatten(groups)) ==> r.result == Success(())
    ensures !Owns(st, actor, taskId) ==> r.store == st
    ensures KnownPos(Flatten(groups)) && Owns(st, actor, taskId) ==> OnlyTaskChanged(st, r.store, taskId)
    ensures KnownPos(Flatten(groups)) && Owns(st, actor, taskId) ==>
      var t, t' := st.tasks[taskId], r.store.tasks[taskId];
      && t'.wordGroups == Some(groups)
      && t' == t.(wordGroups := t'.wordGroups)
  {
    if !KnownPos(Flatten(groups)) then Reply(st, Failure(InvalidInput))
    else if !Owns(st, actor, taskId) then Reply(st, Success(()))
    else Reply(st.(tasks := st.tasks[taskId := st.tasks[taskId].(wordGroups := Some(groups))]), Success(()))
  }

  /** Regrouping keeps the status and the confirmed words, so nothing ties
      the stored groups to the confirmed words any more: after a
      confirmation, groups of other words are accepted as they are. */
  lemma RegroupingIsUnchecked(st: Store, actor: Actor, taskId: Id, words: seq<ConfirmedWord>, groups: seq<WordGroup>)
    requires KnownPos(words) && KnownPos(Flatten(groups)) && Owns(st, actor, taskId)
    ensures var s1 := ConfirmWords(st, actor, taskId, words).store;
      var t := UpdateGroups(s1, actor, taskId, groups).store.tasks[taskId];
      && t.status == Confirmed && t.confirmedWords == Some(words) && t.wordGroups == Some(groups)
  {
  }

  /** The words the wizard confirms always pass the input schema. */
  lemma WizardWordsAccepted(recognized: seq<RecognizedWord>)
    ensures KnownPos(Wizard.Clean(recognized))
  {
    var c := Wizard.Clean(recognized);
    forall k | 0 <= k < |c| ensures ParsePos(c[k].partOfSpeech).Some? {
      Wizard.ConfirmedWordShape(recognized, k);
    }
  }

  // ---------------------------------------------------------------------
  // generateContentAction

  /** How the calls made for one group turn out. `storyReply` and
      `cardReply` are the chat model's message contents (`None` when the
      call itself fails); `cardRowsOk` is how many card inserts succeed
      before one fails. */
  datatype GroupEnv = GroupEnv(
    storyReply: Option<Json>,
    storyRowOk: bool,
    storyDebitOk: bool,
    cardReply: Option<Json>,
    cardRowsOk: nat,
    cardDebitOk: bool)

  /** The rows and debits a run of the generation loop writes, in order. */
  datatype Writes = Writes(stories: seq<StoryRow>, cards: seq<CardRow>, debits: seq<Debit>)

  /** What a part of the loop wrote, the next fresh id after it, and
      whether it got through. */
  datatype Run = Run(writes: Writes, nextId: Id, ok: bool)

  /** Everything written belongs to the task and the caller, and a guest is
      never charged. */
  predicate WrittenFor(w: Writes, actor: Actor, taskId: Id) {
    && (forall k :: 0 <= k < |w.stories| ==> w.stories[k].taskId == taskId)
    && (forall k :: 0 <= k < |w.cards| ==> w.cards[k].taskId == taskId)
    && (forall k :: 0 <= k < |w.debits| ==> w.debits[k].userId == actor.userId)
    && (actor.isGuest ==> w.debits == [])
  }

  function Concat(a: Writes, b: Writes): Writes {
    Writes(a.stories + b.stories, a.cards + b.cards, a.debits + b.debits)
  }

  lemma {:induction false} ChargedAppend(a: seq<Debit>, b: seq<Debit>)
    ensures Charged(a + b) == Charged(a) + Charged(b)
    decreases |b|
  {
    if |b| == 0 {
      assert a + b == a;
    } else {
      var b' := b[..|b| - 1];
      assert (a + b)[..|a + b| - 1] == a + b';
      assert b[..|b| - 1] == b';
      ChargedAppend(a, b');
    }
  }

  lemma ConcatWrittenFor(a: Writes, b: Writes, actor: Actor, taskId: Id)
    requires WrittenFor(a, actor, taskId) && WrittenFor(b, actor, taskId)
    ensures WrittenFor(Concat(a, b), actor, taskId)
    ensures Charged(Concat(a, b).debits) == Charged(a.debits) + Charged(b.debits)
  {
    ChargedAppend(a.debits, b.debits);
  }

  /** `generateStory`'s result: `None` when it throws, which it does for a
      grade without a difficulty profile, a failed call, or a reply that
      does not normalise. */
  function StoryOf(grade: string, reply: Option<Json>, parse: string -> Option<Json>): (r: Option<Json>)
    ensures ParseGrade(grade).None? || reply.None? ==> r.None?
    ensures ParseGrade(grade).Some? && reply.Some? ==> r == NormaliseStory(reply.value, parse)
  {
    if ParseGrade(grade).None? || reply.None? then None else NormaliseStory(reply.value, parse)
  }

  /** A string property of the story object, if it is one. The `story`
      text must be one: anything else fails the non-null text column. */
  function TextField(story: Json, key: string): (r: Option<string>)
    ensures r.Some? <==> Field(story, key).Some? && Field(story, key).value.JStr?
    ensures r.Some? ==> Field(story, key) == Some(JStr(r.value))
  {
    match Field(story, key)
    case Some(JStr(s)) => Some(s)
    case _ => None
  }

  function WordsOf(words: seq<ConfirmedWord>): (r: seq<string>)
    ensures |r| == |words| && forall k :: 0 <= k < |words| ==> r[k] == words[k].word
  {
    seq(|words|, k requires 0 <= k < |words| => words[k].word)
  }

  /** The rows inserted for a group's card drafts: fresh ids from
      `firstId`, the story's id, and `cardIndex` equal to the position. */
  function CardRows(drafts: seq<CardDraft>, firstId: Id, storyId: Id, taskId: Id, groupIndex: int): (r: seq<CardRow>)
    ensures |r| == |drafts|
    ensures forall k :: 0 <= k < |r| ==>
      && r[k].id == firstId + k && r[k].storyId == storyId && r[k].taskId == taskId
      && r[k].groupIndex == groupIndex && r[k].cardIndex == k
      && r[k].cardType == drafts[k].plan.cardType && r[k].subType == drafts[k].plan.subType
      && r[k].targetWord == drafts[k].targetWord && r[k].content == drafts[k].content
  {
    seq(|drafts|, k requires 0 <= k < |drafts| =>
      CardRow(firstId + k, storyId, taskId, groupIndex, k, drafts[k].plan.cardType, drafts[k].plan.subType,
              drafts[k].targetWord, drafts[k].content))
  }

  /** A debit of `amount` for a signed-in caller; none for a guest. */
  function ChargeFor(actor: Actor, amount: nat): (ds: seq<Debit>)
    ensures actor.isGuest ==> ds == []
    ensures !actor.isGuest ==> ds == [Debit(actor.userId, amount)] && Charged(ds) == amount
  {
    assert Charged([Debit(actor.userId, amount)]) == Charged([]) + amount;
    if actor.isGuest then [] else [Debit(actor.userId, amount)]
  }

  /** The card half of one group: the card set is generated from the
      reply, its rows are inserted in order until one fails, then the
      card debit follows. */
  function CardStep(nextId: Id, actor: Actor, taskId: Id, storyId: Id, group: WordGroup, e: GroupEnv,
                    parse: string -> Option<Json>): (r: Run)
    ensures WrittenFor(r.writes, actor, taskId) && r.writes.stories == [] && r.nextId >= nextId
    ensures Charged(r.writes.debits) <= CardCost
    ensures r.ok && !actor.isGuest ==> Charged(r.writes.debits) == CardCost
    ensures r.ok ==> |r.writes.cards| == |group.words|
    ensures forall k :: 0 <= k < |r.writes.cards| ==>
      && r.writes.cards[k].cardIndex == k && r.writes.cards[k].groupIndex == group.groupIndex
      && r.writes.cards[k].storyId == storyId
  {
    if e.cardReply.None? then Run(Writes([], [], []), nextId, false)
    else
      var drafts := GenerateCards(group.words, e.cardReply.value, parse);
      var m := if e.cardRowsOk < |drafts| then e.cardRowsOk else |drafts|;
      var rows := CardRows(drafts[..m], nextId, storyId, taskId, group.groupIndex);
      if m < |drafts| || (!actor.isGuest && !e.cardDebitOk) then Run(Writes([], rows, []), nextId + m, false)
      else Run(Writes([], rows, ChargeFor(actor, CardCost)), nextId + m, true)
  }

  /** The story half of one group: the story, its row and the story debit.
      The story row takes the fresh id `nextId`. */
  function StoryStep(nextId: Id, actor: Actor, taskId: Id, grade: string, group: WordGroup, e: GroupEnv,
                     parse: string -> Option<Json>): (r: Run)
    ensures WrittenFor(r.writes, actor, taskId) && r.writes.cards == []
    ensures Charged(r.writes.debits) <= StoryCost
    ensures r.ok && !actor.isGuest ==> Charged(r.writes.debits) == StoryCost
    ensures r.ok ==> |r.writes.stories| == 1 && r.writes.stories[0].id == nextId && r.nextId == nextId + 1
    ensures !r.ok ==> r.nextId >= nextId
    ensures |r.writes.stories| <= 1
    ensures |r.writes.stories| == 0 ==> r.writes.debits == []
    ensures forall k :: 0 <= k < |r.writes.stories| ==> r.writes.stories[k].groupIndex == group.groupIndex
  {
    var story := StoryOf(grade, e.storyReply, parse);
    if story.None? || TextField(story.value, "story").None? || !e.storyRowOk then Run(Writes([], [], []), nextId, false)
    else
      var row := StoryRow(nextId, taskId, group.groupIndex, WordsOf(group.words), TextField(story.value, "story").value,
                          TextField(story.value, "storyZh"), None);
      if !actor.isGuest && !e.storyDebitOk then Run(Writes([row], [], []), nextId + 1, false)
      else Run(Writes([row], [], ChargeFor(actor, StoryCost)), nextId + 1, true)
  }

  /** One pass of the generation loop. A failing step ends the group with
      what was written so far. */
  function RunGroup(nextId: Id, actor: Actor, taskId: Id, grade: string, group: WordGroup, e: GroupEnv,
                    parse: string -> Option<Json>): (r: Run)
    ensures WrittenFor(r.writes, actor, taskId) && r.nextId >= nextId
    ensures Charged(r.writes.debits) <= GroupCost
    ensures r.ok && !actor.isGuest ==> Charged(r.writes.debits) == GroupCost
    ensures r.ok ==> |r.writes.stories| == 1 && |r.writes.cards| == |group.words|
    ensures |r.writes.stories| <= 1
    ensures |r.writes.stories| == 0 ==> r.writes.cards == [] && r.writes.debits == []
    ensures forall k :: 0 <= k < |r.writes.stories| ==> r.writes.stories[k].groupIndex == group.groupIndex
    ensures forall k :: 0 <= k < |r.writes.cards| ==>
      r.writes.cards[k].cardIndex == k && r.writes.cards[k].groupIndex == group.groupIndex
  {
    var s := StoryStep(nextId, actor, taskId, grade, group, e, parse);
    if !s.ok then s
    else
      var c := CardStep(s.nextId, actor, taskId, nextId, group, e, parse);
      ConcatWrittenFor(s.writes, c.writes, actor, taskId);
      Run(Concat(s.writes, c.writes), c.nextId, c.ok)
  }

  /** The generation loop over `groups[i..]`, in list order, stopping at
      the first group that fails. Each group costs `GroupCost`, 8 credits. */
  function RunGroups(nextId: Id, actor: Actor, taskId: Id, grade: string, groups: seq<WordGroup>, i: nat,
                     env: nat -> GroupEnv, parse: string -> Option<Json>): (r: Run)
    requires i <= |groups|
    ensures WrittenFor(r.writes, actor, taskId) && r.nextId >= nextId
    ensures Charged(r.writes.debits) <= (|groups| - i) * 8
    ensures r.ok && !actor.isGuest ==> Charged(r.writes.debits) == (|groups| - i) * 8
    ensures r.ok ==> |r.writes.stories| == |groups| - i && |r.writes.cards| == |Flatten(groups[i..])|
    decreases |groups| - i
  {
    if i == |groups| then Run(Writes([], [], []), nextId, true)
    else
      var g := RunGroup(nextId, actor, taskId, grade, groups[i], env(i), parse);
      assert (|groups| - i) * 8 == 8 + (|groups| - (i + 1)) * 8;
      if !g.ok then g
      else
        var rest := RunGroups(g.nextId, actor, taskId, grade, groups, i + 1, env, parse);
        assert groups[i..][1..] == groups[i + 1..];
        assert Flatten(groups[i..]) == groups[i].words + Flatten(groups[i + 1..]);
        ConcatWrittenFor(g.writes, rest.writes, actor, taskId);
        Run(Concat(g.writes, rest.writes), rest.nextId, rest.ok)
  }

  /** `groups.length * (5 + 3)`. */
  function TotalCost(groups: seq<WordGroup>): nat {
    |groups| * GroupCost
  }

  lemma TotalCostIsEight(groups: seq<WordGroup>)
    ensures TotalCost(groups) == |groups| * 8
  {
    CostsPositive();
  }

  /** The guard `generateContentAction` starts with. */
  predicate Generatable(st: Store, actor: Actor, taskId: Id) {
    Owns(st, actor, taskId) && st.tasks[taskId].wordGroups.Some?
  }

  /** Whether generation starts: the guard holds and a signed-in caller
      passed the credit precheck, which asks for the full cost of all
      groups. */
  predicate Starts(st: Store, actor: Actor, taskId: Id, hasEnough: nat -> bool) {
    Generatable(st, actor, taskId) && (actor.isGuest || hasEnough(TotalCost(st.tasks[taskId].wordGroups.value)))
  }

  /** The store after a run: the task row replaced, the run's rows and
      debits appended after the existing ones, and the id counter moved on. */
  function Commit(st: Store, taskId: Id, t: TaskRow, w: Writes, actor: Actor, nextId: Id): (s: Store)
    requires WrittenFor(w, actor, taskId)
    ensures s.tasks == st.tasks[taskId := t] && s.nextId == nextId
    ensures |s.stories| == |st.stories| + |w.stories| && s.stories[..|st.stories|] == st.stories
    ensures |s.cards| == |st.cards| + |w.cards| && s.cards[..|st.cards|] == st.cards
    ensures |s.debits| == |st.debits| + |w.debits| && s.debits[..|st.debits|] == st.debits
    ensures forall k :: |st.stories| <= k < |s.stories| ==> s.stories[k].taskId == taskId
    ensures forall k :: |st.cards| <= k < |s.cards| ==> s.cards[k].taskId == taskId
    ensures forall k :: |st.debits| <= k < |s.debits| ==> s.debits[k].userId == actor.userId
    ensures Charged(s.debits) == Charged(st.debits) + Charged(w.debits)
    ensures actor.isGuest ==> s.debits == st.debits
  {
    var s := Store(st.tasks[taskId := t], st.stories + w.stories, st.cards + w.cards, st.debits + w.debits, nextId);
    assert s.stories[..|st.stories|] == st.stories;
    assert s.cards[..|st.cards|] == st.cards;
    assert s.debits[..|st.debits|] == st.debits;
    assert forall k :: |st.stories| <= k < |s.stories| ==> s.stories[k] == w.stories[k - |st.stories|];
    assert forall k :: |st.cards| <= k < |s.cards| ==> s.cards[k] == w.cards[k - |st.cards|];
    assert forall k :: |st.debits| <= k < |s.debits| ==> s.debits[k] == w.debits[k - |st.debits|];
    ChargedAppend(st.debits, w.debits);
    assert actor.isGuest ==> st.debits + w.debits == st.debits;
    s
  }

  /** `generateContentAction`. A task that is missing, not owned or not
      grouped is an error with no change (an empty list of groups passes);
      so is a signed-in caller for whom the ledger's `hasEnough` answers
      no to the full cost of all groups, 8 credits per group. Otherwise the task is marked generating and the groups run in
      order. On success the task is ready and `creditsUsed` is set to the
      full cost, for guests too; on failure it is confirmed again and
      `creditsUsed` is kept, while the rows and debits written so far
      remain. Signed-in callers are charged at most the full cost, and
      exactly it on success; guests are never charged. */
  function GenerateContent(st: Store, actor: Actor, taskId: Id, hasEnough: nat -> bool,
                           env: nat -> GroupEnv, parse: string -> Option<Json>): (r: Reply<()>)
    ensures !Generatable(st, actor, taskId) ==> r == Reply(st, Failure(NoTaskOrGroups))
    ensures Generatable(st, actor, taskId) && !actor.isGuest && !hasEnough(TotalCost(st.tasks[taskId].wordGroups.value)) ==>
      r == Reply(st, Failure(NotEnoughCredits))
    ensures r.result.Failure? ==> r.result.error in {NoTaskOrGroups, NotEnoughCredits, GenerationFailed}
  {
    if !Generatable(st, actor, taskId) then Reply(st, Failure(NoTaskOrGroups))
    else if !actor.isGuest && !hasEnough(TotalCost(st.tasks[taskId].wordGroups.value)) then Reply(st, Failure(NotEnoughCredits))
    else
      var t := st.tasks[taskId];
      var groups := t.wordGroups.value;
      var run := RunGroups(st.nextId, actor, taskId, t.grade, groups, 0, env, parse);
      assert groups[0..] == groups;
      TotalCostIsEight(groups);
      var t' := if run.ok then t.(status := Ready, creditsUsed := TotalCost(groups)) else t.(status := Confirmed);
      Reply(Commit(st, taskId, t', run.writes, actor, run.nextId), if run.ok then Success(()) else Failure(GenerationFailed))
  }

  /** A started run keeps the task set and the other tasks, and only
      appends rows and debits: every earlier one stays in place. */
  lemma GenerateContentFrame(st: Store, actor: Actor, taskId: Id, hasEnough: nat -> bool,
                                 env: nat -> GroupEnv, parse: string -> Option<Json>)
    requires Starts(st, actor, taskId, hasEnough)
    ensures var r := GenerateContent(st, actor, taskId, hasEnough, env, parse);
      && r.store.tasks.Keys == st.tasks.Keys && r.store.nextId >= st.nextId
      && (forall id :: id in st.tasks && id != taskId ==> r.store.tasks[id] == st.tasks[id])
      && |st.stories| <= |r.store.stories| && r.store.stories[..|st.stories|] == st.stories
      && |st.cards| <= |r.store.cards| && r.store.cards[..|st.cards|] == st.cards
      && |st.debits| <= |r.store.debits| && r.store.debits[..|st.debits|] == st.debits
  {
  }

  /** A started run ends the task ready on success, with `creditsUsed`
      set to the full cost, or confirmed on failure with `creditsUsed`
      kept; no other field of the row changes. */
  lemma GenerateContentTaskRow(st: Store, actor: Actor, taskId: Id, hasEnough: nat -> bool,
                                 env: nat -> GroupEnv, parse: string -> Option<Json>)
    requires Starts(st, actor, taskId, hasEnough)
    ensures var r := GenerateContent(st, actor, taskId, hasEnough, env, parse);
      var t, t' := st.tasks[taskId], r.store.tasks[taskId];
      && t'.status == (if r.result.Success? then Ready else Confirmed)
      && t'.creditsUsed == (if r.result.Success? then TotalCost(t.wordGroups.value) else t.creditsUsed)
      && t' == t.(status := t'.status, creditsUsed := t'.creditsUsed)
  {
  }

  /** A started run writes only rows of this task and debits of this
      caller, none for a guest; a signed-in caller is charged at most the
      full cost, and exactly it on success. */
  lemma GenerateContentCharges(st: Store, actor: Actor, taskId: Id, hasEnough: nat -> bool,
                                 env: nat -> GroupEnv, parse: string -> Option<Json>)
    requires Starts(st, actor, taskId, hasEnough)
    ensures var r := GenerateContent(st, actor, taskId, hasEnough, env, parse);
      var total := TotalCost(st.tasks[taskId].wordGroups.value);
      && (forall k :: |st.stories| <= k < |r.store.stories| ==> r.store.stories[k].taskId == taskId)
      && (forall k :: |st.cards| <= k < |r.store.cards| ==> r.store.cards[k].taskId == taskId)
      && (forall k :: |st.debits| <= k < |r.store.debits| ==> r.store.debits[k].userId == actor.userId)
      && (actor.isGuest ==> r.store.debits == st.debits)
      && Charged(r.store.debits) <= Charged(st.debits) + total
      && (r.result.Success? && !actor.isGuest ==> Charged(r.store.debits) == Charged(st.debits) + total)
  {
    var groups := st.tasks[taskId].wordGroups.value;
    assert groups[0..] == groups;
    TotalCostIsEight(groups);
  }

  /** A successful run writes one story per group and one card per word. */
  lemma GenerateContentCounts(st: Store, actor: Actor, taskId: Id, hasEnough: nat -> bool,
                                 env: nat -> GroupEnv, parse: string -> Option<Json>)
    requires Starts(st, actor, taskId, hasEnough)
    ensures var r := GenerateContent(st, actor, taskId, hasEnough, env, parse);
      r.result.Success? ==>
      var groups := st.tasks[taskId].wordGroups.value;
      && |r.store.stories| == |st.stories| + |groups|
      && |r.store.cards| == |st.cards| + |Flatten(groups)|
  {
    var groups := st.tasks[taskId].wordGroups.value;
    assert groups[0..] == groups;
  }

  /** The story reply and the two ways a group can go in the scenario
      below: everything succeeds, or the story call fails. */
  const StoryReply := JObj(map["story" := JStr("s")])
  const OkEnv := GroupEnv(Some(StoryReply), true, true, Some(JNull), 0, true)
  const FailingEnv := GroupEnv(None, true, true, None, 0, true)
  const Payer := Actor(7, false)

  /** An empty group with a good story reply writes its story and is
      charged a story and a card set. */
  lemma OkGroupCharged(parse: string -> Option<Json>)
    ensures var g := RunGroup(1, Payer, 0, "1", WordGroup(0, []), OkEnv, parse);
      g.ok && g.writes.debits == [Debit(7, StoryCost), Debit(7, CardCost)] && |g.writes.stories| == 1 && g.nextId == 2
  {
    assert ParseGrade("1").Some?;
    assert TextField(StoryReply, "story") == Some("s");
    var first := StoryStep(1, Payer, 0, "1", WordGroup(0, []), OkEnv, parse);
    assert first.ok && first.writes.debits == [Debit(7, StoryCost)] && first.nextId == 2;
    assert |GenerateCards([], JNull, parse)| == 0;
    var cards := CardStep(2, Payer, 0, 1, WordGroup(0, []), OkEnv, parse);
    assert cards == Run(Writes([], [], [Debit(7, CardCost)]), 2, true);
  }

  /** The run over the two groups stops in the second with the first
      group's writes. */
  lemma TwoGroupRun(env: nat -> GroupEnv, parse: string -> Option<Json>)
    requires env(0) == OkEnv && env(1) == FailingEnv
    ensures var run := RunGroups(1, Payer, 0, "1", [WordGroup(0, []), WordGroup(1, [])], 0, env, parse);
      !run.ok && run.writes.debits == [Debit(7, StoryCost), Debit(7, CardCost)] && |run.writes.stories| == 1
  {
    var groups := [WordGroup(0, []), WordGroup(1, [])];
    OkGroupCharged(parse);
    var second := RunGroup(2, Payer, 0, "1", groups[1], FailingEnv, parse);
    assert second == Run(Writes([], [], []), 2, false);
    var run := RunGroups(1, Payer, 0, "1", groups, 0, env, parse);
    assert run.writes.debits == [Debit(7, StoryCost), Debit(7, CardCost)] + [];
  }

  /** A signed-in caller holding `c` credits gets past the precheck
      exactly when `c` covers 8 credits for every group. */
  lemma GenerationNeedsEightPerGroup(st: Store, actor: Actor, taskId: Id, c: nat,
                                     env: nat -> GroupEnv, parse: string -> Option<Json>)
    requires Generatable(st, actor, taskId) && !actor.isGuest
    ensures var r := GenerateContent(st, actor, taskId, (n: nat) => n <= c, env, parse);
      r.result != Failure(NotEnoughCredits) <==> c >= 8 * |st.tasks[taskId].wordGroups.value|
  {
    TotalCostIsEight(st.tasks[taskId].wordGroups.value);
  }

  /** A failure after the first group leaves the ledger charged for the
      groups that got through, while `creditsUsed` stays as it was: two
      groups whose second story call fails cost a signed-in caller who
      holds exactly the 16 credits the precheck asks for 8 credits, and
      record none. */
  lemma FailedRunKeepsCharges()
    ensures var task := TaskRow(0, 7, "t", "1", Confirmed, None, None, Some([WordGroup(0, []), WordGroup(1, [])]), 0);
      var st := Store(map[0 := task], [], [], [], 1);
      var r := GenerateContent(st, Payer, 0, (n: nat) => n <= 16, (i: nat) => if i == 0 then OkEnv else FailingEnv, (s: string) => None);
      && r.result == Failure(GenerationFailed)
      && r.store.tasks[0].status == Confirmed && r.store.tasks[0].creditsUsed == 0
      && r.store.debits == [Debit(7, StoryCost), Debit(7, CardCost)]
      && |r.store.stories| == 1
  {
    var groups := [WordGroup(0, []), WordGroup(1, [])];
    var task := TaskRow(0, 7, "t", "1", Confirmed, None, None, Some(groups), 0);
    var st := Store(map[0 := task], [], [], [], 1);
    var env := (i: nat) => if i == 0 then OkEnv else FailingEnv;
    var parse := (s: string) => None;
    TwoGroupRun(env, parse);
    var run := RunGroups(1, Payer, 0, "1", groups, 0, env, parse);
    var r := GenerateContent(st, Payer, 0, (n: nat) => n <= 16, env, parse);
    TotalCostIsEight(groups);
    assert Starts(st, Payer, 0, (n: nat) => n <= 16);
    assert r.store == Commit(st, 0, task.(status := Confirmed), run.writes, Payer, run.nextId);
    assert r.store.debits == [] + run.writes.debits;
  }

  // ---------------------------------------------------------------------
  // The actions together

  /** One server action with the way its collaborators turn out. */
  datatype Action =
    | CreateTaskCall(actor: Actor, title: string, grade: string, insertOk: bool)
    | RecognizeCall(actor: Actor, taskId: Id, wordText: Option<string>, imageUrl: Option<string>,
                    hasEnough: nat -> bool, recognize: Source -> Option<Recognized>, debitOk: bool)
    | ConfirmCall(actor: Actor, taskId: Id, words: seq<ConfirmedWord>)
    | UpdateGroupsCall(actor: Actor, taskId: Id, groups: seq<WordGroup>)
    | GenerateCall(actor: Actor, taskId: Id, hasEnough: nat -> bool, env: nat -> GroupEnv, parse: string -> Option<Json>)

  function Apply(st: Store, a: Action): Store {
    match a
    case CreateTaskCall(actor, title, grade, ok) => CreateTask(st, actor, title, grade, ok).store
    case RecognizeCall(actor, id, text, url, enough, recognize, ok) =>
      RecognizeWords(st, actor, id, text, url, enough, recognize, ok).store
    case ConfirmCall(actor, id, words) => ConfirmWords(st, actor, id, words).store
    case UpdateGroupsCall(actor, id, groups) => UpdateGroups(st, actor, id, groups).store
    case GenerateCall(actor, id, enough, env, parse) => GenerateContent(st, actor, id, enough, env, parse).store
  }

  function ApplyAll(st: Store, actions: seq<Action>): Store
    decreases |actions|
  {
    if |actions| == 0 then st else ApplyAll(Apply(st, actions[0]), actions[1..])
  }

  /** No task is left generating. */
  predicate NoneGenerating(st: Store) {
    forall id :: id in st.tasks ==> st.tasks[id].status != Generating
  }

  predicate AllGuests(actions: seq<Action>) {
    forall k :: 0 <= k < |actions| ==> actions[k].actor.isGuest
  }

  /** Generation keeps the store valid, leaves no task generating when
      none was, and charges nothing when the caller is a guest. */
  lemma GenerateKeeps(st: Store, actor: Actor, taskId: Id, hasEnough: nat -> bool,
                      env: nat -> GroupEnv, parse: string -> Option<Json>)
    ensures var st' := GenerateContent(st, actor, taskId, hasEnough, env, parse).store;
      && (Valid(st) ==> Valid(st'))
      && (NoneGenerating(st) ==> NoneGenerating(st'))
      && (actor.isGuest ==> st'.debits == st.debits)
  {
    var st' := GenerateContent(st, actor, taskId, hasEnough, env, parse).store;
    if Starts(st, actor, taskId, hasEnough) {
      GenerateContentFrame(st, actor, taskId, hasEnough, env, parse);
      GenerateContentTaskRow(st, actor, taskId, hasEnough, env, parse);
      GenerateContentCharges(st, actor, taskId, hasEnough, env, parse);
      if Valid(st) {
        forall x | x in st'.tasks ensures x < st'.nextId && st'.tasks[x].id == x {
          assert x in st.tasks;
          assert st'.tasks[x].id == st.tasks[x].id;
        }
      }
      if NoneGenerating(st) {
        forall x | x in st'.tasks ensures st'.tasks[x].status != Generating {
          assert x in st.tasks;
        }
      }
    }
  }

  /** A store whose task table keeps its keys and ids, whose `nextId` did
      not shrink and whose every task either kept its status or is not
      generating, stays valid and keeps no task generating. */
  lemma TasksKeep(st: Store, st': Store)
    requires st'.tasks.Keys == st.tasks.Keys && st'.nextId >= st.nextId
    requires forall x :: x in st.tasks ==> st'.tasks[x].id == st.tasks[x].id
    requires forall x :: x in st.tasks ==> st'.tasks[x].status == st.tasks[x].status || st'.tasks[x].status != Generating
    ensures Valid(st) ==> Valid(st')
    ensures NoneGenerating(st) ==> NoneGenerating(st')
  {
  }

  lemma ConfirmKeeps(st: Store, actor: Actor, taskId: Id, words: seq<ConfirmedWord>)
    ensures var st' := ConfirmWords(st, actor, taskId, words).store;
      && (Valid(st) ==> Valid(st')) && (NoneGenerating(st) ==> NoneGenerating(st')) && st'.debits == st.debits
  {
    var r := ConfirmWords(st, actor, taskId, words);
    if r.result.Success? {
      TasksKeep(st, r.store);
    }
  }

  lemma UpdateGroupsKeeps(st: Store, actor: Actor, taskId: Id, groups: seq<WordGroup>)
    ensures var st' := UpdateGroups(st, actor, taskId, groups).store;
      && (Valid(st) ==> Valid(st')) && (NoneGenerating(st) ==> NoneGenerating(st')) && st'.debits == st.debits
  {
    var r := UpdateGroups(st, actor, taskId, groups);
    if KnownPos(Flatten(groups)) && Owns(st, actor, taskId) {
      TasksKeep(st, r.store);
    }
  }

  lemma RecognizeKeeps(st: Store, actor: Actor, taskId: Id, wordText: Option<string>, imageUrl: Option<string>,
                       hasEnough: nat -> bool, recognize: Source -> Option<Recognized>, debitOk: bool)
    ensures var st' := RecognizeWords(st, actor, taskId, wordText, imageUrl, hasEnough, recognize, debitOk).store;
      && (Valid(st) ==> Valid(st')) && (NoneGenerating(st) ==> NoneGenerating(st'))
      && (actor.isGuest ==> st'.debits == st.debits)
  {
    var r := RecognizeWords(st, actor, taskId, wordText, imageUrl, hasEnough, recognize, debitOk);
    if r.result.Success? {
      TasksKeep(st, r.store);
    }
  }

  lemma CreateKeeps(st: Store, actor: Actor, title: string, grade: string, insertOk: bool)
    ensures var st' := CreateTask(st, actor, title, grade, insertOk).store;
      && (Valid(st) ==> Valid(st')) && (NoneGenerating(st) ==> NoneGenerating(st')) && st'.debits == st.debits
  {
  }

  /** Each action keeps the store valid, leaves no task generating when
      none was, and charges nothing when the caller is a guest. */
  lemma ApplyKeeps(st: Store, a: Action)
    ensures Valid(st) ==> Valid(Apply(st, a))
    ensures NoneGenerating(st) ==> NoneGenerating(Apply(st, a))
    ensures a.actor.isGuest ==> Apply(st, a).debits == st.debits
  {
    match a
    case CreateTaskCall(actor, title, grade, ok) =>
      CreateKeeps(st, actor, title, grade, ok);
    case RecognizeCall(actor, id, text, url, enough, recognize, ok) =>
      RecognizeKeeps(st, actor, id, text, url, enough, recognize, ok);
    case ConfirmCall(actor, id, words) =>
      ConfirmKeeps(st, actor, id, words);
    case UpdateGroupsCall(actor, id, groups) =>
      UpdateGroupsKeeps(st, actor, id, groups);
    case GenerateCall(actor, id, enough, env, parse) =>
      GenerateKeeps(st, actor, id, enough, env, parse);
  }

  /** Over any sequence of actions: the store stays valid, "generating" is
      never a status a task is left in, and guests alone never add to the
      ledger. The middle statement rests on the model's assumption that
      task-row updates succeed: the source sets "generating" before the
      loop and always follows it with a "ready" or "confirmed" update, so
      an action's end state never shows it. A failing final update, which
      would leave the task generating, is not modelled. */
  lemma {:induction false} StatusNeverStaysGenerating(st: Store, actions: seq<Action>)
    ensures Valid(st) ==> Valid(ApplyAll(st, actions))
    ensures NoneGenerating(st) ==> NoneGenerating(ApplyAll(st, actions))
    ensures AllGuests(actions) ==> ApplyAll(st, actions).debits == st.debits
    decreases |actions|
  {
    if |actions| > 0 {
      ApplyKeeps(st, actions[0]);
      StatusNeverStaysGenerating(Apply(st, actions[0]), actions[1..]);
    }
  }
}
