/** The picture-book enumerations: grades, task statuses, card types and
    sub-types, parts of speech, the part-of-speech to card table and the
    credit costs. */
module Types {
  import opened Wrappers

  /** The eight difficulty levels, easiest first. */
  datatype Grade = G1 | G2 | G3 | G4 | G5 | G6 | KET | PET

  /** The grade literals as stored in a task row. */
  function GradeName(g: Grade): string {
    match g
    case G1 => "1"
    case G2 => "2"
    case G3 => "3"
    case G4 => "4"
    case G5 => "5"
    case G6 => "6"
    case KET => "KET"
    case PET => "PET"
  }

  /** `GRADES`, in the source's order. */
  const Grades: seq<Grade> := [G1, G2, G3, G4, G5, G6, KET, PET]

  /** The position of a grade in `Grades`; larger means harder. */
  function GradeRank(g: Grade): (r: nat)
    ensures r < |Grades| && Grades[r] == g
  {
    match g
    case G1 => 0
    case G2 => 1
    case G3 => 2
    case G4 => 3
    case G5 => 4
    case G6 => 5
    case KET => 6
    case PET => 7
  }

  /** Reads a stored grade literal; anything else is not a grade. */
  function ParseGrade(s: string): (r: Option<Grade>)
    ensures r.Some? ==> GradeName(r.value) == s
  {
    if s == "1" then Some(G1)
    else if s == "2" then Some(G2)
    else if s == "3" then Some(G3)
    else if s == "4" then Some(G4)
    else if s == "5" then Some(G5)
    else if s == "6" then Some(G6)
    else if s == "KET" then Some(KET)
    else if s == "PET" then Some(PET)
    else None
  }

  /** `GRADES` lists eight distinct grades, every grade once, and the
      literal of each grade reads back as that grade. */
  lemma GradesDistinctAndComplete()
    ensures |Grades| == 8
    ensures forall i, j :: 0 <= i < j < |Grades| ==> Grades[i] != Grades[j]
    ensures forall g: Grade :: g in Grades
    ensures forall g: Grade :: ParseGrade(GradeName(g)) == Some(g)
    ensures forall i, j :: 0 <= i < j < |Grades| ==> GradeName(Grades[i]) != GradeName(Grades[j])
  {
    forall g: Grade ensures g in Grades {
      assert Grades[GradeRank(g)] == g;
    }
  }

  /** The task lifecycle states. */
  datatype TaskStatus = Uploaded | Confirmed | Generating | Ready | Completed

  function StatusName(s: TaskStatus): string {
    match s
    case Uploaded => "uploaded"
    case Confirmed => "confirmed"
    case Generating => "generating"
    case Ready => "ready"
    case Completed => "completed"
  }

  /** The five status literals are distinct, so a stored status names one state. */
  lemma StatusNamesDistinct(a: TaskStatus, b: TaskStatus)
    ensures StatusName(a) == StatusName(b) <==> a == b
  {
  }

  datatype CardType = Reading | Choice

  datatype CardSubType = ImageChoice | ActionReading | ExpressionReplace | FollowReading

  function SubTypeName(t: CardSubType): string {
    match t
    case ImageChoice => "image_choice"
    case ActionReading => "action_reading"
    case ExpressionReplace => "expression_replace"
    case FollowReading => "follow_reading"
  }

  datatype PartOfSpeech = Noun | Verb | Adjective | Abstract

  function PosName(p: PartOfSpeech): string {
    match p
    case Noun => "noun"
    case Verb => "verb"
    case Adjective => "adjective"
    case Abstract => "abstract"
  }

  /** Looks a part-of-speech literal up the way the card table is indexed;
      only the four literals are keys. */
  function ParsePos(s: string): (r: Option<PartOfSpeech>)
    ensures r.Some? <==> s in {"noun", "verb", "adjective", "abstract"}
    ensures r.Some? ==> PosName(r.value) == s
  {
    if s == "noun" then Some(Noun)
    else if s == "verb" then Some(Verb)
    else if s == "adjective" then Some(Adjective)
    else if s == "abstract" then Some(Abstract)
    else None
  }

  /** A card's (type, sub-type) pair. */
  datatype CardPlan = CardPlan(cardType: CardType, subType: CardSubType)

  /** `POS_TO_CARD_TYPE`. */
  function PosToCard(p: PartOfSpeech): CardPlan {
    match p
    case Noun => CardPlan(Choice, ImageChoice)
    case Verb => CardPlan(Reading, ActionReading)
    case Adjective => CardPlan(Choice, ExpressionReplace)
    case Abstract => CardPlan(Reading, FollowReading)
  }

  /** The card type each sub-type belongs to. */
  function SubTypeKind(t: CardSubType): CardType {
    match t
    case ImageChoice => Choice
    case ActionReading => Reading
    case ExpressionReplace => Choice
    case FollowReading => Reading
  }

  /** A pair is allowed when it is one of the four table entries. */
  predicate AllowedPlan(c: CardPlan) {
    exists p: PartOfSpeech :: PosToCard(p) == c
  }

  /** The table is total and injective, nouns and adjectives give choice
      cards, verbs and abstract words give reading cards, and in every
      entry the sub-type determines the type. */
  lemma PosTableShape()
    ensures forall p, q: PartOfSpeech :: PosToCard(p) == PosToCard(q) ==> p == q
    ensures forall p, q: PartOfSpeech :: PosToCard(p).subType == PosToCard(q).subType ==> p == q
    ensures forall p: PartOfSpeech :: PosToCard(p).cardType == SubTypeKind(PosToCard(p).subType)
    ensures forall p: PartOfSpeech :: PosToCard(p).cardType == Choice <==> p in {Noun, Adjective}
  {
  }

  /** A pair is allowed exactly when its type is the one its sub-type
      belongs to: there are exactly four allowed pairs. */
  lemma AllowedPlanIff(c: CardPlan)
    ensures AllowedPlan(c) <==> c.cardType == SubTypeKind(c.subType)
  {
    if c.cardType == SubTypeKind(c.subType) {
      match c.subType
      case ImageChoice => assert PosToCard(Noun) == c;
      case ActionReading => assert PosToCard(Verb) == c;
      case ExpressionReplace => assert PosToCard(Adjective) == c;
      case FollowReading => assert PosToCard(Abstract) == c;
    }
  }

  /** `CREDITS_COST`. */
  const RecognitionCost: nat := 2
  const StoryCost: nat := 5
  const CardCost: nat := 3

  /** What generating one group costs: a story and its card set. */
  const GroupCost: nat := StoryCost + CardCost

  /** Every chargeable step costs something, and a group costs 8. */
  lemma CostsPositive()
    ensures RecognitionCost > 0 && StoryCost > 0 && CardCost > 0
    ensures GroupCost == 8
  {
  }
}
