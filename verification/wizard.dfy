/** The new-task wizard: normalising the recogniser's part-of-speech
    labels, cleaning the recognised words into confirmed words, and the
    order of server calls one word submission makes. The four server
    actions enter as their outcomes. */
module Wizard {
  import opened Wrappers
  import opened Text
  import opened Types
  import opened Config
  import opened Schema

  /** The four stored part-of-speech names. */
  predicate IsPosName(s: string) {
    s in {"noun", "verb", "adjective", "abstract"}
  }

  /** `normalizePartOfSpeech`: trimmed and lower-cased, one of the four
      names is kept; anything else, or a missing label, becomes "noun". */
  function NormalizePos(pos: Option<string>): (r: string)
    ensures IsPosName(r)
    ensures pos.Some? && IsPosName(ToLower(Trim(pos.value))) ==> r == ToLower(Trim(pos.value))
    ensures pos.None? || !IsPosName(ToLower(Trim(pos.value))) ==> r == "noun"
  {
    match pos
    case None => "noun"
    case Some(p) =>
      (match ParsePos(ToLower(Trim(p)))
       case Some(v) => PosName(v)
       case None => "noun")
  }

  /** A stored name is already trimmed and lower case. */
  lemma PosNameIsNormal(s: string)
    requires IsPosName(s)
    ensures ToLower(Trim(s)) == s
  {
    assert forall i :: 0 <= i < |s| ==> 'a' <= s[i] <= 'z';
    TrimOfTrimmed(s);
    ToLowerOfLower(s);
  }

  /** Normalising twice is normalising once. */
  lemma NormalizePosIdempotent(pos: Option<string>)
    ensures NormalizePos(Some(NormalizePos(pos))) == NormalizePos(pos)
  {
    PosNameIsNormal(NormalizePos(pos));
  }

  /** A recognised word as the wizard confirms it: word and meaning
      trimmed (missing becomes ""), part of speech normalised. */
  function CleanWord(w: RecognizedWord): (c: ConfirmedWord)
    ensures c.word == Trim(w.word.GetOr("")) && c.meaning == Trim(w.meaning.GetOr(""))
    ensures c.partOfSpeech == NormalizePos(w.partOfSpeech)
  {
    ConfirmedWord(Trim(w.word.GetOr("")), Trim(w.meaning.GetOr("")), NormalizePos(w.partOfSpeech))
  }

  /** A recognised word is kept when its trimmed word is not empty. */
  predicate Kept(w: RecognizedWord) {
    Trim(w.word.GetOr("")) != ""
  }

  /** `xs.map(f).filter(...)` in the shape the wizard uses: the images
      under `f` of the elements that `keep` accepts, in order. */
  function KeepMap<A, B>(xs: seq<A>, keep: A -> bool, f: A -> B): (r: seq<B>)
    ensures |r| <= |xs|
    decreases |xs|
  {
    if |xs| == 0 then []
    else (if keep(xs[0]) then [f(xs[0])] else []) + KeepMap(xs[1..], keep, f)
  }

  lemma {:induction false} KeepMapAppend<A, B>(a: seq<A>, b: seq<A>, keep: A -> bool, f: A -> B)
    ensures KeepMap(a + b, keep, f) == KeepMap(a, keep, f) + KeepMap(b, keep, f)
    decreases |a|
  {
    if |a| == 0 {
      assert a + b == b;
    } else {
      var h := if keep(a[0]) then [f(a[0])] else [];
      assert (a + b)[0] == a[0];
      assert (a + b)[1..] == a[1..] + b;
      assert KeepMap(a + b, keep, f) == h + KeepMap(a[1..] + b, keep, f);
      KeepMapAppend(a[1..], b, keep, f);
      assert KeepMap(a, keep, f) == h + KeepMap(a[1..], keep, f);
      assert h + (KeepMap(a[1..], keep, f) + KeepMap(b, keep, f))
          == (h + KeepMap(a[1..], keep, f)) + KeepMap(b, keep, f);
    }
  }

  lemma {:induction false} KeptIsMapped<A, B>(xs: seq<A>, keep: A -> bool, f: A -> B, k: nat)
    requires k < |xs| && keep(xs[k])
    ensures f(xs[k]) in KeepMap(xs, keep, f)
    decreases |xs|
  {
    if k > 0 {
      assert xs[k] == xs[1..][k - 1];
      KeptIsMapped(xs[1..], keep, f, k - 1);
    }
  }

  lemma {:induction false} MappedFromKept<A, B>(xs: seq<A>, keep: A -> bool, f: A -> B, k: nat)
    requires k < |KeepMap(xs, keep, f)|
    ensures exists j :: 0 <= j < |xs| && keep(xs[j]) && KeepMap(xs, keep, f)[k] == f(xs[j])
    decreases |xs|
  {
    var first := if keep(xs[0]) then [f(xs[0])] else [];
    assert KeepMap(xs, keep, f) == first + KeepMap(xs[1..], keep, f);
    if k < |first| {
      assert KeepMap(xs, keep, f)[k] == f(xs[0]);
    } else {
      MappedFromKept(xs[1..], keep, f, k - |first|);
      var j :| 0 <= j < |xs[1..]| && keep(xs[1..][j]) && KeepMap(xs[1..], keep, f)[k - |first|] == f(xs[1..][j]);
      assert xs[j + 1] == xs[1..][j];
    }
  }

  lemma {:induction false} KeepMapEmptyIff<A, B>(xs: seq<A>, keep: A -> bool, f: A -> B)
    ensures KeepMap(xs, keep, f) == [] <==> forall k :: 0 <= k < |xs| ==> !keep(xs[k])
    decreases |xs|
  {
    if |xs| > 0 {
      KeepMapEmptyIff(xs[1..], keep, f);
      assert forall k :: 1 <= k < |xs| ==> xs[k] == xs[1..][k - 1];
    }
  }

  /** The confirmed words: the kept words, cleaned, in order. */
  function Clean(words: seq<RecognizedWord>): (r: seq<ConfirmedWord>)
    ensures |r| <= |words|
  {
    KeepMap(words, Kept, CleanWord)
  }

  /** Every kept recognised word is confirmed, in its cleaned form. */
  lemma KeptIsConfirmed(words: seq<RecognizedWord>, k: nat)
    requires k < |words| && Kept(words[k])
    ensures CleanWord(words[k]) in Clean(words)
  {
    KeptIsMapped(words, Kept, CleanWord, k);
  }

  /** Cleaning works word by word, so it keeps the order: cleaning a
      concatenation concatenates the cleaned parts. */
  lemma CleanAppend(a: seq<RecognizedWord>, b: seq<RecognizedWord>)
    ensures Clean(a + b) == Clean(a) + Clean(b)
  {
    KeepMapAppend(a, b, Kept, CleanWord);
  }

  /** Every confirmed word is the cleaned form of a kept recognised word,
      so it has a non-blank trimmed word, a trimmed meaning and one of the
      four part-of-speech names. */
  lemma ConfirmedWordShape(words: seq<RecognizedWord>, k: nat)
    requires k < |Clean(words)|
    ensures exists j :: 0 <= j < |words| && Kept(words[j]) && Clean(words)[k] == CleanWord(words[j])
    ensures var c := Clean(words)[k];
      c.word != "" && Trimmed(c.word) && Trimmed(c.meaning) && IsPosName(c.partOfSpeech)
  {
    MappedFromKept(words, Kept, CleanWord, k);
  }

  /** Cleaning is empty exactly when no recognised word has a non-blank
      word. */
  lemma CleanEmptyIff(words: seq<RecognizedWord>)
    ensures Clean(words) == [] <==> forall k :: 0 <= k < |words| ==> !Kept(words[k])
  {
    KeepMapEmptyIff(words, Kept, CleanWord);
  }

  /** A server call the wizard makes, in order. */
  datatype Call =
    | CreateTask(title: string, grade: string)
    | Recognize(taskId: Id, text: Option<string>, imageUrl: Option<string>)
    | Confirm(taskId: Id, words: seq<ConfirmedWord>)
    | SetGenerating(on: bool)
    | Generate(taskId: Id)

  datatype Step = InputStep | GeneratingStep

  datatype WizardState = WizardState(step: Step, taskId: Option<Id>)

  const Start := WizardState(InputStep, None)

  /** The outcomes of the server actions for one submission: the new task
      id (`None` for a failure), the recognised words (`None` for a
      failure), and whether confirmation and generation succeeded. */
  datatype Outcomes = Outcomes(created: Option<Id>, recognized: Option<seq<RecognizedWord>>, confirmed: bool, generated: bool)

  /** The wizard after a submission, the calls made, and whether it left
      for the home page. */
  datatype Finish = Finish(state: WizardState, calls: seq<Call>, leaves: bool)

  /** The title of an automatically created task. */
  function AutoTitle(grade: string): string {
    GradeLabelZh(grade) + "单词闯关"
  }

  /** The task a submission works on: the wizard's own, else the one
      just created. */
  function TaskFor(w: WizardState, out: Outcomes): (id: Option<Id>)
    ensures w.taskId.Some? ==> id == w.taskId
    ensures w.taskId.None? ==> id == out.created
  {
    if w.taskId.Some? then w.taskId else out.created
  }

  /** The first `n` of the calls that follow task creation: recognition,
      confirmation of the cleaned words, then generation between setting
      and clearing the generating flag. */
  function AfterCreate(id: Id, text: Option<string>, imageUrl: Option<string>, cleaned: seq<ConfirmedWord>, n: nat): seq<Call> {
    if n == 0 then []
    else if n == 1 then [Recognize(id, text, imageUrl)]
    else if n == 2 then [Recognize(id, text, imageUrl), Confirm(id, cleaned)]
    else [Recognize(id, text, imageUrl), Confirm(id, cleaned), SetGenerating(true), Generate(id), SetGenerating(false)]
  }

  /** How many of those calls a submission makes: none without a task,
      only recognition when it fails or leaves no word after cleaning,
      up to confirmation when that fails, else all five. */
  function Reached(w: WizardState, out: Outcomes): (n: nat)
    ensures n == 0 || n == 1 || n == 2 || n == 5
    ensures n == 0 <==> TaskFor(w, out).None?
    ensures n == 5 <==> TaskFor(w, out).Some? && out.recognized.Some? && Clean(out.recognized.value) != [] && out.confirmed
  {
    if TaskFor(w, out).None? then 0
    else if out.recognized.None? || Clean(out.recognized.value) == [] then 1
    else if !out.confirmed then 2
    else 5
  }

  /** `handleWordSubmit` from the task it continues (if any), the selected
      grade and the submitted input: a task is created when there is
      none, then the calls run in order up to the first failure; the step
      moves to generating for the generate call and back to input when it
      fails, and a successful generation leaves the wizard. */
  function HandleWordSubmit(w: WizardState, grade: string, text: Option<string>, imageUrl: Option<string>,
                            out: Outcomes): (f: Finish)
  {
    var create := if w.taskId.None? then [CreateTask(AutoTitle(grade), grade)] else [];
    var id := TaskFor(w, out);
    var reached := Reached(w, out);
    var rest := if id.Some? then AfterCreate(id.value, text, imageUrl, Clean(out.recognized.GetOr([])), reached) else [];
    var step := if reached == 5 then (if out.generated then GeneratingStep else InputStep) else w.step;
    Finish(WizardState(step, id), create + rest, reached == 5 && out.generated)
  }

  /** A task is created only when the wizard has none, and a created task
      is kept for later submissions; an existing task is reused. */
  lemma CreatesOnlyWithoutTask(w: WizardState, grade: string, text: Option<string>, imageUrl: Option<string>, out: Outcomes)
    ensures var f := HandleWordSubmit(w, grade, text, imageUrl, out);
      && (w.taskId.None? <==> |f.calls| > 0 && f.calls[0] == CreateTask(AutoTitle(grade), grade))
      && (forall k :: 1 <= k < |f.calls| ==> !f.calls[k].CreateTask?)
      && (w.taskId.Some? ==> f.state.taskId == w.taskId)
      && (w.taskId.None? && out.created.Some? ==> f.state.taskId == out.created)
  {
  }

  /** A failed creation stops the submission after the create call. */
  lemma FailedCreateStops(w: WizardState, grade: string, text: Option<string>, imageUrl: Option<string>, out: Outcomes)
    requires w.taskId.None? && out.created.None?
    ensures HandleWordSubmit(w, grade, text, imageUrl, out) == Finish(w, [CreateTask(AutoTitle(grade), grade)], false)
  {
  }

  /** Recognised words of which none survives cleaning stop the flow
      before confirmation. */
  lemma BlankWordsNeverConfirmed(w: WizardState, grade: string, text: Option<string>, imageUrl: Option<string>, out: Outcomes)
    requires out.recognized.Some?
    requires forall k :: 0 <= k < |out.recognized.value| ==> !Kept(out.recognized.value[k])
    ensures var f := HandleWordSubmit(w, grade, text, imageUrl, out);
      && (forall k :: 0 <= k < |f.calls| ==> !f.calls[k].Confirm? && !f.calls[k].Generate?)
      && f.state.step == w.step && !f.leaves
  {
    CleanEmptyIff(out.recognized.value);
  }

  /** Every generate call sits between the flag being set just before it
      and cleared just after it, and the flag is set or cleared only next
      to a generate call. */
  predicate Bracketed(calls: seq<Call>) {
    && (forall k :: 0 <= k < |calls| && calls[k].Generate? ==>
          0 < k < |calls| - 1 && calls[k - 1] == SetGenerating(true) && calls[k + 1] == SetGenerating(false))
    && (forall k :: 0 <= k < |calls| && calls[k].SetGenerating? ==>
          (calls[k].on && k + 1 < |calls| && calls[k + 1].Generate?)
          || (!calls[k].on && 0 < k && calls[k - 1].Generate?))
  }

  /** Generation appears at most once in `calls`. */
  predicate GenerateAtMostOnce(calls: seq<Call>) {
    forall k, l :: 0 <= k < l < |calls| && calls[k].Generate? ==> !calls[l].Generate?
  }

  /** The shape of create calls followed by the first `n` calls after
      creation: bracketed generation, called only when all five are made,
      and confirmation only of the cleaned words for task `t`. */
  lemma AfterCreateShape(head: seq<Call>, t: Id, text: Option<string>, imageUrl: Option<string>,
                         cleaned: seq<ConfirmedWord>, n: nat)
    requires forall k :: 0 <= k < |head| ==> head[k].CreateTask?
    ensures var calls := head + AfterCreate(t, text, imageUrl, cleaned, n);
      && Bracketed(calls)
      && GenerateAtMostOnce(calls)
      && ((exists k :: 0 <= k < |calls| && calls[k].Generate?) <==> n > 2)
      && (forall k :: 0 <= k < |calls| && calls[k].Confirm? ==> calls[k] == Confirm(t, cleaned) && n >= 2)
  {
    var tail := AfterCreate(t, text, imageUrl, cleaned, n);
    var calls := head + tail;
    var h := |head|;
    assert forall k :: 0 <= k < h ==> calls[k] == head[k];
    assert forall k :: h <= k < |calls| ==> calls[k] == tail[k - h];
    if n > 2 {
      assert |calls| == h + 5;
      assert forall k :: 0 <= k < |calls| && calls[k].Generate? ==> k == h + 3;
      assert forall k :: 0 <= k < |calls| && calls[k].SetGenerating? ==> k == h + 2 || k == h + 4;
      assert calls[h + 3].Generate?;
    } else {
      assert forall k :: 0 <= k < |calls| ==> !calls[k].Generate? && !calls[k].SetGenerating?;
    }
  }

  /** The calls of a submission are its create calls followed by the
      calls after creation that it reaches. */
  lemma SubmitShape(w: WizardState, grade: string, text: Option<string>, imageUrl: Option<string>, out: Outcomes)
    ensures var f := HandleWordSubmit(w, grade, text, imageUrl, out);
      var calls := (if w.taskId.None? then [CreateTask(AutoTitle(grade), grade)] else [])
        + AfterCreate(TaskFor(w, out).GetOr(0), text, imageUrl, Clean(out.recognized.GetOr([])), Reached(w, out));
      && f.calls == calls
      && Bracketed(calls)
      && GenerateAtMostOnce(calls)
      && ((exists k :: 0 <= k < |calls| && calls[k].Generate?) <==> Reached(w, out) == 5)
      && (forall k :: 0 <= k < |calls| && calls[k].Confirm? ==>
            calls[k] == Confirm(TaskFor(w, out).GetOr(0), Clean(out.recognized.GetOr([]))) && Reached(w, out) >= 2)
  {
    var create := if w.taskId.None? then [CreateTask(AutoTitle(grade), grade)] else [];
    var id := TaskFor(w, out).GetOr(0);
    var cleaned := Clean(out.recognized.GetOr([]));
    var m := Reached(w, out);
    AfterCreateShape(create, id, text, imageUrl, cleaned, m);
  }

  /** The generating flag brackets the generate call, and generation is
      called at most once. */
  lemma GeneratingBracketsGenerate(w: WizardState, grade: string, text: Option<string>, imageUrl: Option<string>, out: Outcomes)
    ensures var f := HandleWordSubmit(w, grade, text, imageUrl, out);
      && Bracketed(f.calls)
      && GenerateAtMostOnce(f.calls)
  {
    SubmitShape(w, grade, text, imageUrl, out);
  }

  /** Generation is reached exactly when confirmation succeeded with at
      least one cleaned word; a failed generation returns to the input
      step, a successful one leaves the wizard. */
  lemma GenerationOutcome(w: WizardState, grade: string, text: Option<string>, imageUrl: Option<string>, out: Outcomes)
    ensures var f := HandleWordSubmit(w, grade, text, imageUrl, out);
      var reached := (w.taskId.Some? || out.created.Some?) && out.recognized.Some?
                     && Clean(out.recognized.value) != [] && out.confirmed;
      && ((exists k :: 0 <= k < |f.calls| && f.calls[k].Generate?) <==> reached)
      && (reached && !out.generated ==> f.state.step == InputStep && !f.leaves)
      && (f.leaves <==> reached && out.generated)
  {
    SubmitShape(w, grade, text, imageUrl, out);
  }

  /** Confirmation receives exactly the cleaned words, for the task the
      submission works on. */
  lemma ConfirmsCleanedWords(w: WizardState, grade: string, text: Option<string>, imageUrl: Option<string>, out: Outcomes)
    ensures var f := HandleWordSubmit(w, grade, text, imageUrl, out);
      forall k :: 0 <= k < |f.calls| && f.calls[k].Confirm? ==>
        && out.recognized.Some?
        && f.calls[k].words == Clean(out.recognized.value)
        && f.calls[k].words != []
        && Some(f.calls[k].taskId) == f.state.taskId
  {
    SubmitShape(w, grade, text, imageUrl, out);
  }
}
