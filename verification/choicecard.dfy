/** A choice card: picking an option, submitting it once, and the marks the
    options carry afterwards. `disabled` is true while an earlier answer is
    being judged. */
module ChoiceCard {
  import opened Wrappers
  import opened Schema

  datatype ChoiceState = ChoiceState(selected: Option<int>, submitted: bool)

  const Fresh := ChoiceState(None, false)

  /** Picking option `index`: ignored once submitted or while disabled. */
  function Select(s: ChoiceState, index: int, disabled: bool): (r: ChoiceState)
    ensures s.submitted || disabled ==> r == s
    ensures !s.submitted && !disabled ==> r == ChoiceState(Some(index), false)
  {
    if s.submitted || disabled then s else s.(selected := Some(index))
  }

  /** The state after a submit click and the index reported to the page. */
  datatype SubmitStep = SubmitStep(state: ChoiceState, reported: Option<int>)

  /** The submit handler: ignored without a selection or while disabled;
      otherwise the card becomes submitted and reports the selection. */
  function Submit(s: ChoiceState, disabled: bool): (r: SubmitStep)
    ensures s.selected.None? || disabled ==> r == SubmitStep(s, None)
    ensures s.selected.Some? && !disabled ==> r.state == ChoiceState(s.selected, true) && r.reported == s.selected
  {
    if s.selected.None? || disabled then SubmitStep(s, None)
    else SubmitStep(s.(submitted := true), s.selected)
  }

  /** `content.options || []`. */
  function OptionsOf(content: CardContent): (options: seq<ChallengeOption>)
    ensures content.options.Some? ==> options == content.options.value
    ensures content.options.None? ==> options == []
  {
    content.options.GetOr([])
  }

  /** How one option is drawn. */
  datatype Mark = Unmarked | MarkedCorrect | MarkedWrong

  /** The marks of all options: after submission a correct option is marked
      correct, and the selected option is marked wrong when it is not. */
  function Marks(s: ChoiceState, options: seq<ChallengeOption>): (ms: seq<Mark>)
    ensures |ms| == |options|
    ensures !s.submitted ==> forall i :: 0 <= i < |ms| ==> ms[i] == Unmarked
  {
    seq(|options|, i requires 0 <= i < |options| =>
      if s.submitted && options[i].isCorrect then MarkedCorrect
      else if s.submitted && s.selected == Some(i) && !options[i].isCorrect then MarkedWrong
      else Unmarked)
  }

  /** After submission: an option is marked correct exactly when it is
      flagged correct, marked wrong exactly when it is the selected option
      and not correct, and at most one option is marked wrong. */
  lemma MarksAfterSubmit(s: ChoiceState, options: seq<ChallengeOption>)
    requires s.submitted
    ensures var ms := Marks(s, options);
      && (forall i :: 0 <= i < |ms| ==> (ms[i] == MarkedCorrect <==> options[i].isCorrect))
      && (forall i :: 0 <= i < |ms| ==> (ms[i] == MarkedWrong <==> s.selected == Some(i) && !options[i].isCorrect))
      && (forall i, j :: 0 <= i < |ms| && 0 <= j < |ms| && ms[i] == MarkedWrong && ms[j] == MarkedWrong ==> i == j)
  {
  }

  /** A click on the card: an option, or the submit button. */
  datatype Click = PickOption(index: int, disabled: bool) | PressSubmit(disabled: bool)

  /** The submit button is drawn only before submission. */
  predicate ShowsSubmit(s: ChoiceState) {
    !s.submitted
  }

  /** A sequence of clicks; a submit click reaches the handler only while
      the button is drawn. Returns the final state and the reported
      indices in order. */
  function Run(s: ChoiceState, clicks: seq<Click>): (r: (ChoiceState, seq<int>))
    decreases |clicks|
  {
    if |clicks| == 0 then (s, [])
    else
      match clicks[0]
      case PickOption(index, disabled) => Run(Select(s, index, disabled), clicks[1..])
      case PressSubmit(disabled) =>
        if ShowsSubmit(s) then
          var step := Submit(s, disabled);
          var rest := Run(step.state, clicks[1..]);
          (rest.0, (if step.reported.Some? then [step.reported.value] else []) + rest.1)
        else Run(s, clicks[1..])
  }

  /** Once submitted, no click changes the card or reports again. */
  lemma {:induction false} SubmittedIsFrozen(s: ChoiceState, clicks: seq<Click>)
    requires s.submitted
    ensures Run(s, clicks) == (s, [])
    decreases |clicks|
  {
    if |clicks| > 0 {
      SubmittedIsFrozen(s, clicks[1..]);
    }
  }

  /** From any unsubmitted state, a card reports at most once, and a
      report is the selection the card keeps showing afterwards. */
  lemma {:induction false} ReportsAtMostOnce(s: ChoiceState, clicks: seq<Click>)
    requires !s.submitted
    ensures var (final, reports) := Run(s, clicks);
      && |reports| <= 1
      && (|reports| == 1 ==> final.submitted && final.selected == Some(reports[0]))
      && (!final.submitted ==> reports == [])
    decreases |clicks|
  {
    if |clicks| > 0 {
      match clicks[0]
      case PickOption(index, disabled) =>
        ReportsAtMostOnce(Select(s, index, disabled), clicks[1..]);
      case PressSubmit(disabled) =>
        var step := Submit(s, disabled);
        if step.state.submitted {
          SubmittedIsFrozen(step.state, clicks[1..]);
        } else {
          ReportsAtMostOnce(step.state, clicks[1..]);
        }
    }
  }
}
