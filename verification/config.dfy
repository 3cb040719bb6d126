/** The per-grade difficulty table, the grouping and card-mix bounds, the
    reading-judgment thresholds and the grade labels. Ratios are held in
    hundredths and the pass threshold in ten-thousandths, so that every
    comparison is exact. */
module Config {
  import opened Types

  /** The granularity a reading card targets. */
  datatype ReadingTarget = Word | Phrase | Sentence

  /** word < phrase < sentence */
  function TargetRank(t: ReadingTarget): nat {
    match t
    case Word => 0
    case Phrase => 1
    case Sentence => 2
  }

  /** One row of `DIFFICULTY_MAP`; the three ratios are in hundredths. */
  datatype Difficulty = Difficulty(
    storyMin: nat, storyMax: nat,
    sentenceMin: nat, sentenceMax: nat,
    readingTarget: ReadingTarget,
    chineseHintRatio: nat,
    readingCardRatio: nat,
    choiceCardRatio: nat)

  /** `DIFFICULTY_MAP`. */
  function DifficultyOf(g: Grade): Difficulty {
    match g
    case G1 => Difficulty(60, 100, 3, 6, Word, 80, 60, 40)
    case G2 => Difficulty(80, 120, 4, 7, Word, 70, 50, 50)
    case G3 => Difficulty(100, 150, 5, 8, Phrase, 60, 50, 50)
    case G4 => Difficulty(120, 180, 6, 10, Phrase, 50, 40, 60)
    case G5 => Difficulty(150, 220, 7, 12, Sentence, 30, 40, 60)
    case G6 => Difficulty(180, 260, 8, 14, Sentence, 20, 40, 60)
    case KET => Difficulty(200, 300, 8, 15, Sentence, 15, 30, 70)
    case PET => Difficulty(250, 350, 10, 18, Sentence, 10, 30, 70)
  }

  /** Each range is well formed, and the two card ratios make up the whole. */
  predicate WellFormed(d: Difficulty) {
    && d.storyMin <= d.storyMax
    && d.sentenceMin <= d.sentenceMax
    && d.readingCardRatio + d.choiceCardRatio == 100
    && d.chineseHintRatio <= 100
  }

  /** `d` is a strictly harder profile than `e`: longer stories at both
      ends, fewer Chinese hints, sentences and reading targets no shorter. */
  predicate Harder(d: Difficulty, e: Difficulty) {
    && e.storyMin < d.storyMin
    && e.storyMax < d.storyMax
    && d.chineseHintRatio < e.chineseHintRatio
    && e.sentenceMin <= d.sentenceMin
    && TargetRank(e.readingTarget) <= TargetRank(d.readingTarget)
  }

  lemma AllWellFormed(g: Grade)
    ensures WellFormed(DifficultyOf(g))
  {
  }

  lemma AdjacentHarder(i: nat)
    requires i + 1 < |Grades|
    ensures Harder(DifficultyOf(Grades[i + 1]), DifficultyOf(Grades[i]))
  {
  }

  /** Difficulty grows strictly along 1, 2, …, 6, KET, PET. */
  lemma {:induction false} DifficultyMonotone(i: nat, j: nat)
    requires i < j < |Grades|
    ensures Harder(DifficultyOf(Grades[j]), DifficultyOf(Grades[i]))
    decreases j - i
  {
    AdjacentHarder(j - 1);
    if i < j - 1 {
      DifficultyMonotone(i, j - 1);
    }
  }

  /** The same, stated over grades by their rank. */
  lemma GradeOrderMonotone(g: Grade, h: Grade)
    requires GradeRank(g) < GradeRank(h)
    ensures Harder(DifficultyOf(h), DifficultyOf(g))
  {
    DifficultyMonotone(GradeRank(g), GradeRank(h));
  }

  /** `GROUP_CONFIG`. */
  const MinWordsPerGroup: nat := 5
  const MaxWordsPerGroup: nat := 6
  const MinReadingCards: nat := 2
  const MinChoiceCards: nat := 1

  /** The scale `matchPercentage` is measured in: 10000 stands for 1.0. */
  const MatchScale: nat := 10000

  /** `READING_JUDGMENT`: pass at 0.7, hint after 3 failures, downgrade after 5. */
  const PassThreshold: nat := 7000
  const HintAfterFails: nat := 3
  const DowngradeAfterFails: nat := 5

  /** The thresholds are ordered: the hint comes before the downgrade,
      and the pass mark lies strictly inside the scale. */
  lemma ThresholdsOrdered()
    ensures 0 < HintAfterFails < DowngradeAfterFails
    ensures 0 < PassThreshold < MatchScale
    ensures MinWordsPerGroup < MaxWordsPerGroup
    ensures MinReadingCards + MinChoiceCards == 3
  {
  }

  datatype GradeLabel = GradeLabel(en: string, zh: string)

  /** `GRADE_LABELS`, keyed by the grade literal. */
  const GradeLabels: map<string, GradeLabel> := map[
    "1" := GradeLabel("Grade 1", "一年级"),
    "2" := GradeLabel("Grade 2", "二年级"),
    "3" := GradeLabel("Grade 3", "三年级"),
    "4" := GradeLabel("Grade 4", "四年级"),
    "5" := GradeLabel("Grade 5", "五年级"),
    "6" := GradeLabel("Grade 6", "六年级"),
    "KET" := GradeLabel("KET", "KET"),
    "PET" := GradeLabel("PET", "PET")]

  /** The Chinese label shown for a grade literal, falling back to the
      literal itself (`GRADE_LABELS[g]?.zh || g`). */
  function GradeLabelZh(grade: string): (r: string)
    ensures grade in GradeLabels && GradeLabels[grade].zh != "" ==> r == GradeLabels[grade].zh
    ensures grade !in GradeLabels ==> r == grade
  {
    if grade in GradeLabels && GradeLabels[grade].zh != "" then GradeLabels[grade].zh else grade
  }

  /** Every grade has a label, and the labels have exactly the grade literals as keys. */
  lemma LabelsCoverGrades()
    ensures forall g: Grade :: GradeName(g) in GradeLabels
    ensures forall k :: k in GradeLabels ==> ParseGrade(k).Some?
  {
  }
}
