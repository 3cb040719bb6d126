/** The stored record shapes of the picture-book tables and their JSON
    columns, with the column defaults. Row identifiers, which the source
    draws from `randomUUID`, are natural numbers here. */
module Schema {
  import opened Wrappers
  import opened Types

  type Id = nat

  /** A word as the recogniser reports it; every field may be missing. */
  datatype RecognizedWord = RecognizedWord(
    word: Option<string>,
    meaning: Option<string>,
    partOfSpeech: Option<string>,
    confidence: Option<int>)

  /** A learner-confirmed word. The part of speech is stored as a string. */
  datatype ConfirmedWord = ConfirmedWord(word: string, meaning: string, partOfSpeech: string)

  datatype WordGroup = WordGroup(groupIndex: int, words: seq<ConfirmedWord>)

  datatype ChallengeOption = ChallengeOption(text: string, textZh: Option<string>, isCorrect: bool)

  /** `ChallengeCardContent`: only the instruction is required. */
  datatype CardContent = CardContent(
    instruction: string,
    instructionZh: Option<string>,
    readingText: Option<string>,
    readingHint: Option<string>,
    keywords: Option<seq<string>>,
    question: Option<string>,
    questionZh: Option<string>,
    options: Option<seq<ChallengeOption>>,
    correctOptionIndex: Option<int>,
    imageUrl: Option<string>,
    storyContext: Option<string>)

  /** Content that carries an instruction and nothing else. */
  function InstructionOnly(instruction: string): (c: CardContent)
    ensures c.instruction == instruction
    ensures c.options.None? && c.correctOptionIndex.None? && c.readingHint.None? && c.instructionZh.None?
  {
    CardContent(instruction, None, None, None, None, None, None, None, None, None, None)
  }

  datatype ResponseKind = ReadingAnswer | ChoiceAnswer

  /** `ChallengeResponse`: a tag and optional payload fields;
      `matchPercentage` is in ten-thousandths. */
  datatype ChallengeResponse = ChallengeResponse(
    kind: ResponseKind,
    spokenText: Option<string>,
    matchedKeywords: Option<seq<string>>,
    matchPercentage: Option<int>,
    selectedOptionIndex: Option<int>)

  /** A `word_task` row. */
  datatype TaskRow = TaskRow(
    id: Id,
    userId: Id,
    title: string,
    grade: string,
    status: TaskStatus,
    recognizedWords: Option<seq<RecognizedWord>>,
    confirmedWords: Option<seq<ConfirmedWord>>,
    wordGroups: Option<seq<WordGroup>>,
    creditsUsed: int)

  /** A `word_story` row. */
  datatype StoryRow = StoryRow(
    id: Id,
    taskId: Id,
    groupIndex: int,
    words: seq<string>,
    storyContent: string,
    storyContentZh: Option<string>,
    highlightedWords: Option<map<string, seq<int>>>)

  /** A `challenge_card` row. */
  datatype CardRow = CardRow(
    id: Id,
    storyId: Id,
    taskId: Id,
    groupIndex: int,
    cardIndex: int,
    cardType: CardType,
    subType: CardSubType,
    targetWord: string,
    content: CardContent)

  /** A `challenge_attempt` row; `score` is documented as 0–100. */
  datatype AttemptRow = AttemptRow(
    id: Id,
    cardId: Id,
    taskId: Id,
    userId: Id,
    passed: bool,
    score: int,
    response: Option<ChallengeResponse>,
    attemptNumber: int)

  /** A task row as inserted with only the required columns: the column
      defaults give status `uploaded`, no words or groups yet, and no
      credits used. */
  function NewTask(id: Id, userId: Id, title: string, grade: string): (t: TaskRow)
    ensures t.status == Uploaded && t.creditsUsed == 0
    ensures t.recognizedWords.None? && t.confirmedWords.None? && t.wordGroups.None?
    ensures t.id == id && t.userId == userId && t.title == title && t.grade == grade
  {
    TaskRow(id, userId, title, grade, Uploaded, None, None, None, 0)
  }

  /** An attempt row as inserted with only the required columns: not
      passed, score 0, first attempt. */
  function NewAttempt(id: Id, cardId: Id, taskId: Id, userId: Id): (a: AttemptRow)
    ensures !a.passed && a.score == 0 && a.attemptNumber == 1 && a.response.None?
    ensures a.cardId == cardId && a.taskId == taskId && a.userId == userId
  {
    AttemptRow(id, cardId, taskId, userId, false, 0, None, 1)
  }

  /** The concatenation of the groups' word lists, in group order. */
  function Flatten(groups: seq<WordGroup>): seq<ConfirmedWord> {
    if |groups| == 0 then [] else groups[0].words + Flatten(groups[1..])
  }

  lemma {:induction false} FlattenAppend(a: seq<WordGroup>, b: seq<WordGroup>)
    ensures Flatten(a + b) == Flatten(a) + Flatten(b)
    decreases |a|
  {
    if |a| == 0 {
      assert a + b == b;
    } else {
      assert (a + b)[1..] == a[1..] + b;
      FlattenAppend(a[1..], b);
    }
  }
}
