# StoryQuest picture-book core in Dafny

This project models the core of StoryQuest's picture-book feature. A
learner submits English words, as text or as a photo. The server
recognises the words, and the learner's list is confirmed and split into
groups of about five. For each group a chat model writes a short story and
a set of challenge cards: reading cards and multiple-choice cards. The
learner answers the cards. Each answer is judged, numbered and logged, and
the client pages show progress bars, a "view reward" button and a star
rating.

The model is organised as one module per concern:

- `Types`, `Config` and `Schema` hold the enumerations, the per-grade
  difficulty table, the thresholds, the credit costs and the stored row
  shapes.
- `Seqs` holds `Filter`, the row selection that every `where` clause and
  `.filter` of the source performs.
- `Grouping` is `groupWords`.
- `CardPlanning` and `CardAssembly` form `generateChallengeCards`: the
  table lookup and the repair of the reading/choice mix, then the pairing
  of each card with the model's entry at its index.
- `Replies` reads the chat model's `content` in its several shapes (a
  string, an array of fragments, an object).
- `Judge` is `submitChallengeAction`.
- `CardOrder` and `Progress` are `getGroupProgressAction`.
- `Pipeline` holds the task actions: create, recognise, confirm, regroup
  and generate. The database is a `Store` value, and any sequence of
  actions can be replayed over it.
- `TaskDetail`, `Reward`, `ChallengeView`, `ChoiceCard`, `Wizard`,
  `WordInput` and `WordEditor` hold the client logic of the task page, the
  reward screen, the challenge page, a choice card, the new-task wizard,
  the word box and the word editor.

The chat model, the image recogniser, the credit ledger's answers and
database writes that may fail are parameters. Each says how the call turns
out, so every contract holds for every way the collaborators behave.

Where the code and its documentation disagree, the model follows the code:

- A guest's task gets `creditsUsed = groups × 8`, although a guest is
  never charged.
- `creditsUsed` is overwritten on each generation, not accumulated.
- The generation guard rejects only a missing group list. An empty list
  `[]` passes, and the task becomes ready with nothing generated.
- `groupWords` is documented as making groups of 5–6 words. The code makes
  groups of exactly 5 plus a trailing shorter group (7 words give 5 + 2)
  and never makes a group of 6.
- Confirmation is accepted from any status, and generation does not check
  the current status.
- `updateGroupsAction` answers success even when the caller does not own
  the task. In that case nothing is written.
- The word box can send an image alone, but its submit button is enabled
  only with non-blank text. The image-only request is therefore never made
  from that button.

## Model

| member | source | states |
|---|---|---|
| Text.Trim | src/components/picturebook/word-input.tsx:36 | the result has no white space at either end, is no longer than the input, and is empty exactly when the input is all white space |
| Text.TrimStartSpec | src/components/picturebook/word-input.tsx:36 | trimming the start drops only white space, keeps a suffix, and leaves no white space in front |
| Text.TrimEndSpec | src/components/picturebook/word-input.tsx:36 | trimming the end drops only white space, keeps a prefix, and leaves no white space behind |
| Text.TrimIdempotent | src/actions/picturebook.ts:237 | the server trimming text the client already trimmed changes nothing |
| Text.ToLower | src/components/picturebook/new-task-wizard.tsx:30 | lower-casing keeps the length and maps each character on its own |
| Types.GradeRank | src/lib/picturebook/types.ts:6 | every grade has a position in `GRADES`, and the entry at that position is the grade |
| Types.ParseGrade | src/lib/picturebook/types.ts:6-7 | a literal accepted as a grade is exactly that grade's stored literal |
| Types.GradesDistinctAndComplete | src/lib/picturebook/types.ts:6 | `GRADES` lists eight distinct grades, each grade once; the literals are distinct, and each reads back as its grade |
| Types.StatusNamesDistinct | src/lib/picturebook/types.ts:10-16 | two statuses have the same stored literal if and only if they are the same status |
| Types.ParsePos | src/lib/picturebook/types.ts:36-41 | a part-of-speech literal is known if and only if it is one of the four, and a known literal reads back as itself |
| Types.PosTableShape | src/lib/picturebook/types.ts:45-53 | `POS_TO_CARD_TYPE` is injective on pairs and on sub-types, each entry's type is its sub-type's type, and choice cards come from exactly nouns and adjectives |
| Types.AllowedPlanIff | src/lib/picturebook/types.ts:45-53 | a (type, sub-type) pair is in the table if and only if the type is the one the sub-type belongs to |
| Types.CostsPositive | src/lib/picturebook/types.ts:75-79 | every chargeable step costs something, and a story plus its cards cost 8 |
| Config.AllWellFormed | src/lib/picturebook/config.ts:12-77 | for every grade, each length range is ordered and the reading and choice ratios add up to the whole |
| Config.AdjacentHarder | src/lib/picturebook/config.ts:12-77 | each grade in `GRADES` has a strictly harder profile than the one before it |
| Config.DifficultyMonotone | src/lib/picturebook/config.ts:12-77 | difficulty grows strictly along the whole grade order, not just between neighbours |
| Config.GradeOrderMonotone | src/lib/picturebook/config.ts:12-77 | a grade of higher rank always has the harder profile |
| Config.ThresholdsOrdered | src/lib/picturebook/config.ts:82-97 | the hint comes before the downgrade, the pass mark lies strictly inside the match scale, the group bounds are ordered, and the card minimums make 3 |
| Config.GradeLabelZh | src/components/picturebook/new-task-wizard.tsx:59 | a known grade with a Chinese label shows that label, and an unknown literal shows itself |
| Config.LabelsCoverGrades | src/lib/picturebook/config.ts:118-127 | every grade has a label, and every label key is a grade literal |
| Schema.InstructionOnly | src/db/schema.ts:258-277 | the stub card content carries the instruction and leaves every optional field absent |
| Schema.NewTask | src/db/schema.ts:164-180 | a freshly inserted task is uploaded, has used no credits and holds no words or groups, under the given id, owner, title and grade |
| Schema.NewAttempt | src/db/schema.ts:220-234 | a freshly inserted attempt defaults to not passed, score 0, attempt 1 and no response |
| Grouping.CeilDivBounds | src/lib/picturebook/ai.ts:513 | the rounded-up quotient is the least `q` with `a <= b·q`: `b·(q-1) < a <= b·q` |
| Grouping.Slice | src/lib/picturebook/ai.ts:522 | `slice` is the subsequence between the bounds, clamped at the end of the list |
| Grouping.GroupWords | src/lib/picturebook/ai.ts:501-529 | the groups, concatenated, are exactly the input in order; group `j` carries index `j`; their number is 1 for up to 6 words, else `ceil(n/5)` |
| Grouping.SizeIsFive | src/lib/picturebook/ai.ts:516-521 | while every earlier group took 5 words, the loop's `min(6, max(5, ceil(remaining/groups left)))` is 5 |
| Grouping.LoopIsChunks | src/lib/picturebook/ai.ts:516-526 | the loop, started at iteration `i` with `5i` words consumed, builds the same groups as cutting the rest into consecutive chunks of five |
| Grouping.ChunksLength | src/lib/picturebook/ai.ts:516-526 | iterations `i` to `k` build exactly `k - i` groups |
| Grouping.ChunksAt | src/lib/picturebook/ai.ts:516-526 | the group built in iteration `m` carries index `m` and words `5m` up to `5m + 5`, clamped at the end |
| Grouping.ChunksShape | src/lib/picturebook/ai.ts:516-526 | with `ceil(n/5)` iterations, every chunk is non-empty and starts inside the list |
| Grouping.ChunksCover | src/lib/picturebook/ai.ts:516-526 | the chunks from iteration `i` on concatenate to the words from `5i` on |
| Grouping.LoopShape | src/lib/picturebook/ai.ts:516-526 | from iteration `i` on, group `i + j` holds words `5(i+j)` up to five further, never empty |
| Grouping.LoopCovers | src/lib/picturebook/ai.ts:516-526 | the groups built from iteration `i` on concatenate to exactly the words not yet consumed |
| Grouping.SmallInputOneGroup | src/lib/picturebook/ai.ts:507-510 | at most 6 words make a single group 0 holding all of them |
| Grouping.LargeInputGroupSizes | src/lib/picturebook/ai.ts:513-526 | above 6 words, every group but the last has exactly 5 words and the last has the remaining 1 to 5; no group has 6 |
| Grouping.SevenWordsSplitFiveTwo | src/lib/picturebook/ai.ts:499-529 | 7 words are split 5 + 2, below the documented 5–6 per group |
| CardPlanning.PlanFor | src/lib/picturebook/ai.ts:317-319 | a known part of speech gets its table pair; anything else gets the abstract entry, follow-reading |
| CardPlanning.InitialPlans | src/lib/picturebook/ai.ts:316-324 | one table pair per word, in word order |
| CardPlanning.CountSplit | src/lib/picturebook/ai.ts:327-332 | the reading count and the choice count add up to the number of plans |
| CardPlanning.ConvertFirstChoices | src/lib/picturebook/ai.ts:334-346 | repair step 1 keeps the length and only turns choice plans into follow-reading plans |
| CardPlanning.ConvertFirstChoicesCounts | src/lib/picturebook/ai.ts:334-346 | repair step 1 moves `min(budget, choices)` plans from choice to reading |
| CardPlanning.FirstChoicesAt | src/lib/picturebook/ai.ts:334-346 | step 1 rewrites a plan exactly when it is a choice plan preceded by fewer than `budget` choice plans, and it becomes follow-reading |
| CardPlanning.ConvertLastReading | src/lib/picturebook/ai.ts:348-357 | repair step 2 keeps the length and only ever turns a plan into image-choice |
| CardPlanning.ConvertLastReadingSpec | src/lib/picturebook/ai.ts:348-357 | repair step 2 rewrites exactly the last reading plan, to image-choice, and does nothing when there is none |
| CardPlanning.ConvertLastReadingCounts | src/lib/picturebook/ai.ts:348-357 | with a reading plan present, step 2 moves one plan from reading to choice |
| CardPlanning.PlanCards | src/lib/picturebook/ai.ts:316-357 | the final plans have one entry per word, and each is one of the four allowed pairs |
| CardPlanning.AllPlansAllowed | src/lib/picturebook/ai.ts:316-357 | table pairs and the two repair pairs are all allowed pairs |
| CardPlanning.MinimumMix | src/lib/picturebook/ai.ts:326-357 | a group of 3 or more words ends with at least 2 reading plans and at least 1 choice plan |
| CardPlanning.RepairIdleOnGoodMix | src/lib/picturebook/ai.ts:334-357 | when the table already gives the minimum mix, the repair changes nothing |
| CardPlanning.PlansFollowTable | src/lib/picturebook/ai.ts:316-357 | every final plan is its word's table entry or one of the two repair pairs |
| CardPlanning.TwoNounsHaveNoChoice | src/lib/picturebook/ai.ts:326-357 | two nouns end as two follow-reading cards, so the minimum of one choice card is not met |
| CardPlanning.TwoVerbsHaveOneReading | src/lib/picturebook/ai.ts:326-357 | two verbs end with a single reading card, so the minimum of two reading cards is not met |
| Replies.Field | src/lib/picturebook/ai.ts:165 | a property exists exactly on objects that carry the key |
| Replies.ArrayField | src/lib/picturebook/ai.ts:193 | the property's array when it is one, else the empty list |
| Replies.FragmentTexts | src/lib/picturebook/ai.ts:172-179 | the kept fragment texts are never empty and never more than the fragments |
| Replies.JoinEmptyIff | src/lib/picturebook/ai.ts:179-182 | joining non-empty texts is empty if and only if there are none |
| Replies.TextPartsEmptyIff | src/lib/picturebook/ai.ts:172-182 | `textParts` is empty if and only if no fragment carries text |
| Replies.FirstObjectLike | src/lib/picturebook/ai.ts:190-192 | the first array or object among the fragments, absent only when there is none |
| Replies.ListOf | src/lib/picturebook/ai.ts:165-169 | the array under the key, else the value itself when it is an array, else the empty list |
| Replies.ParseList | src/lib/picturebook/ai.ts:163-169 | fails exactly when the parser throws; otherwise the list of the parsed value |
| Replies.ExtractList | src/lib/picturebook/ai.ts:162-202 | only a string or a text-bearing fragment array can fail, and null or primitive content gives the empty list |
| Replies.CardEntries | src/lib/picturebook/ai.ts:435-474 | a parse failure of the card reply is caught and leaves no entries; otherwise the extracted list |
| Replies.WordEntries | src/lib/picturebook/ai.ts:160-206 | a recognition reply fails exactly when extraction fails, which needs a string or an array |
| Replies.NormaliseStory | src/lib/picturebook/ai.ts:258-295 | a string is parsed, an object is taken as is, and null or a primitive is an error |
| Replies.CardsTolerateWhatStoriesReject | src/lib/picturebook/ai.ts:291-294 | an unparsable or null reply gives no card entries, yet makes story generation fail |
| Replies.SingleFragmentIsString | src/lib/picturebook/ai.ts:172-186 | one non-empty string fragment is read exactly like the string itself |
| Replies.TextObjectIsString | src/lib/picturebook/ai.ts:174-176 | a `{text}` fragment is read exactly like the bare string |
| Replies.TextlessArrayUsesFirstObject | src/lib/picturebook/ai.ts:455-461 | fragments without any text fall back to the first array or object, for cards and for stories alike |
| CardAssembly.EntryAt | src/lib/picturebook/ai.ts:480 | the entry at a card's index, absent past the end of the list |
| CardAssembly.StrField | src/lib/picturebook/ai.ts:481-493 | a string property is taken exactly when the entry has the key with a string value |
| CardAssembly.Strings | src/lib/picturebook/ai.ts:486 | an array is read as strings exactly when every item is a string, item for item |
| CardAssembly.DecodeOption | src/db/schema.ts:279-283 | an option is correct exactly when its `isCorrect` is present and truthy |
| CardAssembly.OptionsOf | src/lib/picturebook/ai.ts:489 | options exist exactly when the entry's `options` is an array, one decoded option per item |
| CardAssembly.FirstCorrect | src/lib/picturebook/ai.ts:490-492 | the index of the first correct option, or -1 when no option is correct |
| CardAssembly.FirstCorrectUnique | src/lib/picturebook/ai.ts:490-492 | the first-correct index is unique, so any two computations of it agree |
| CardAssembly.InstructionFor | src/lib/picturebook/ai.ts:481-482 | the instruction is never empty: the entry's non-empty instruction, else `Learn: <word>` |
| CardAssembly.ContentFor | src/lib/picturebook/ai.ts:480-494 | the stored content has the instruction above and the entry's options, with a correct index present exactly when options are, pointing at the first correct one |
| CardAssembly.AssembleCards | src/lib/picturebook/ai.ts:476-495 | one card per word, in order, carrying plan `i`, word `i` and content built from entry `i` |
| CardAssembly.GenerateCards | src/lib/picturebook/ai.ts:301-495 | one card per word, in word order, with the repaired plan, an allowed pair and a non-empty instruction |
| CardAssembly.MissingEntryGivesStub | src/lib/picturebook/ai.ts:481-482 | a card with no entry at its index gets the stub content `Learn: <word>` |
| CardAssembly.UnusableReplyGivesStubs | src/lib/picturebook/ai.ts:471-474 | an unparsable, null or primitive reply still yields every card, each with stub content |
| CardAssembly.ExtraEntriesIgnored | src/lib/picturebook/ai.ts:476-495 | entries past the last card change nothing |
| CardAssembly.CorrectIndexMeaning | src/lib/picturebook/ai.ts:490-492 | a stored correct index points at a correct option, -1 means no option is correct, and without options it is absent |
| CardAssembly.FindIndexAsWritten | src/lib/picturebook/ai.ts:490-492 | `findIndex` on the raw items either gives an index in range or -1, or throws on a null item it reaches |
| CardAssembly.CorrectIndexAsWritten | src/lib/picturebook/ai.ts:490-492 | absent or null options give no index; present options that are not an array throw |
| CardAssembly.ContentAsWritten | src/lib/picturebook/ai.ts:480-494 | the source's content for one card exists exactly when its `findIndex` does not throw |
| CardAssembly.AssembleAsWritten | src/lib/picturebook/ai.ts:476-495 | when no card throws, one card per remaining word |
| CardAssembly.GenerateCardsAsWritten | src/lib/picturebook/ai.ts:301-495 | when the source's mapping does not throw, it gives one card per word |
| CardAssembly.FindIndexAgrees | src/lib/picturebook/ai.ts:490-492 | on an array without null items, the source's `findIndex` never throws and gives the first correct index |
| CardAssembly.ContentAgrees | src/lib/picturebook/ai.ts:480-494 | on well-formed options, the source's content equals the model's |
| CardAssembly.AssembleAgrees | src/lib/picturebook/ai.ts:476-495 | when every remaining entry has well-formed options, the source's mapping equals the model's |
| CardAssembly.AsWrittenAgreesOnWellFormed | src/lib/picturebook/ai.ts:301-495 | when every entry the cards use has well-formed options, the code as written and the corrected model give the same cards |
| CardAssembly.StringOptionsThrow | src/lib/picturebook/ai.ts:490-492 | an entry whose `options` is the string "A" makes the source throw, where the corrected model gives a card with no options |
| CardAssembly.NullOptionThrows | src/lib/picturebook/ai.ts:490-492 | a null option ahead of the correct one makes the source throw |
| Judge.RoundPercent | src/actions/picturebook.ts:597 | `Math.round(mp × 100)` is the whole percent nearest to the match, halves rounded up |
| Judge.JudgeReading | src/actions/picturebook.ts:594-598 | a reading answer passes if and only if its match (0 when missing) reaches 0.7; its score is the rounded percent, within 0–100 for a match in range |
| Judge.JudgeChoice | src/actions/picturebook.ts:599-605 | a choice answer passes if and only if the selected index equals the stored correct index, scoring 100 or 0 |
| Judge.JudgeResponse | src/actions/picturebook.ts:594-605 | reading answers use the reading rule and choice answers the choice rule, against the card's stored index |
| Judge.RoundedSeventyCanFail | src/actions/picturebook.ts:596-597 | a 69.5 % match shows a score of 70 and still fails |
| Judge.ReadingMonotone | src/actions/picturebook.ts:594-598 | a better match never loses a pass or lowers the score |
| Judge.NoCorrectOptionNeverPassed | src/actions/picturebook.ts:599-605 | a card stored with index -1 fails every in-range selection |
| Judge.MissingIndexesMatch | src/actions/picturebook.ts:599-605 | a choice answer without a selection passes a card without a stored index |
| Judge.FindCard | src/actions/picturebook.ts:580-588 | the lookup finds a card with that id exactly when one is stored |
| Seqs.Filter | src/actions/picturebook.ts:539-542 | a query returns only rows that meet its condition, all taken from the table, and every row that meets it |
| Seqs.FilterAppend | src/actions/picturebook.ts:608-616 | a query reads rows one by one, so the rows selected from a longer log are the earlier selection followed by the selection from the new rows |
| Judge.AttemptsOn | src/actions/picturebook.ts:608-616 | the earlier attempts are exactly the log entries of this user on this card: every returned row is one, and every one is returned |
| Judge.Fails | src/actions/picturebook.ts:634 | the count of failed attempts never exceeds the number of attempts |
| Judge.HintOf | src/actions/picturebook.ts:637 | the reading hint when it is non-empty, else the Chinese instruction |
| Judge.Submit | src/actions/picturebook.ts:561-653 | a missing card is an error, and so is a failed attempt insert, both with no attempt stored; otherwise `passed` and `score` are the judgement of the answer against the found card's content, the attempt is appended with number one past the user's earlier attempts on the card, a hint comes only with a failure after 3 or more failures, and a downgrade exactly with a failure after 5 or more |
| Judge.PassGetsNoSignals | src/actions/picturebook.ts:634-643 | a passing answer carries neither a hint nor a downgrade |
| Judge.ConsecutiveNumbers | src/actions/picturebook.ts:608-631 | two submissions in a row by the same user on the same card are numbered `n` and `n + 1`, the second succeeding exactly when its insert does |
| Judge.FailedInsertKeepsNumber | src/actions/picturebook.ts:608-629 | a submission whose insert fails is an error, and the next one gets the number the failed one would have had |
| Judge.OtherAttemptsIgnored | src/actions/picturebook.ts:608-616 | attempts by another user or on another card do not change the numbering |
| Judge.PassDoesNotResetFails | src/actions/picturebook.ts:634 | the "consecutive" failure count is a total: a pass in between does not reset it |
| Judge.DowngradeImpliesHintDue | src/actions/picturebook.ts:634-643 | a downgrade always comes with the hint threshold met and the hint given |
| CardOrder.TaskCards | src/actions/picturebook.ts:539-542 | exactly the stored cards of the task, as a selection that keeps the stored order |
| CardOrder.GroupCards | src/components/picturebook/challenge-view.tsx:78-79 | exactly the cards carrying the group index, in order |
| CardOrder.Insert | src/components/picturebook/challenge-view.tsx:80 | inserting into a sorted list keeps it sorted, one longer, and never puts anything before both the new card and the old head |
| CardOrder.InsertPermutes | src/components/picturebook/challenge-view.tsx:80 | insertion adds exactly the one card: the result holds the old cards plus the new one, each as often as before |
| CardOrder.SortByIndex | src/components/picturebook/challenge-view.tsx:80 | the sorted list is a permutation of the input, ordered by `cardIndex` |
| CardOrder.DisplayedCardsAreTheGroup | src/components/picturebook/challenge-view.tsx:78-80 | the page shows exactly the group's cards, each as often as stored, in `cardIndex` order |
| CardOrder.SortIdempotentOnSorted | src/actions/picturebook.ts:678 | sorting cards the query already ordered changes nothing |
| Progress.AttemptsOf | src/actions/picturebook.ts:680-688 | exactly the log entries of this user on this task |
| Progress.AttemptsFor | src/actions/picturebook.ts:691 | exactly the attempts on this card |
| Progress.AnyPassedIff | src/actions/picturebook.ts:699 | some attempt on the card passed if and only if some attempt in the list passed that card |
| Progress.MaxScore | src/actions/picturebook.ts:692-695 | the highest score of the list, or 0, bounding every score |
| Progress.BestFromIsMax | src/actions/picturebook.ts:692-695 | the `reduce` that keeps the higher-scoring attempt ends on the maximum score |
| Progress.BestScore | src/actions/picturebook.ts:700 | `bestAttempt?.score \|\| 0` is the highest score, never below 0 |
| Progress.PassedCount | src/actions/picturebook.ts:706 | the passed count never exceeds the number of cards |
| Progress.PassedCountPermutation | src/actions/picturebook.ts:678 | the passed count does not depend on the order of the cards |
| Progress.CardProgressOf | src/actions/picturebook.ts:690-703 | a card's entry counts its attempts, is passed if and only if some attempt passed it, and has as best score the largest score among its attempts, or 0 without attempts |
| Progress.ProgressEntries | src/actions/picturebook.ts:690-703 | one entry per card, in order, whose passed entries number the passed count |
| Progress.DisplayedMember | src/actions/picturebook.ts:669-678 | each card of the ordered group is a stored card of that task and group |
| Progress.CountEntriesIsPassedCount | src/actions/picturebook.ts:706 | counting passed entries gives the number of passed cards |
| Progress.GroupProgressOf | src/actions/picturebook.ts:658-716 | the entries are the group's cards, each exactly once (as a multiset), in `cardIndex` order, each carrying that card's own progress; the answer counts the cards this user passed on this task, and `allPassed` holds exactly when all of them passed |
| Progress.ProgressCardsBelong | src/actions/picturebook.ts:669-678 | every card in the answer belongs to the task and the group |
| Progress.EmptyGroupAllPassed | src/actions/picturebook.ts:705-707 | a group with no cards is reported as all passed |
| TaskDetail.PassedCountFull | src/components/picturebook/task-detail.tsx:64-66 | the passed count reaches the length if and only if every card passed |
| TaskDetail.SummaryOf | src/components/picturebook/task-detail.tsx:62-74 | a story's entry counts its group's cards and passes, and is done exactly when the group has cards and all passed |
| TaskDetail.GroupDoneIff | src/components/picturebook/task-detail.tsx:62-74 | a group is done if and only if some card carries its index and every such card has a passing attempt |
| TaskDetail.Summaries | src/components/picturebook/task-detail.tsx:62 | one entry per story, in story order |
| TaskDetail.DoneCount | src/components/picturebook/task-detail.tsx:76 | the number of finished groups never exceeds the number of groups |
| TaskDetail.DoneCountFull | src/components/picturebook/task-detail.tsx:76-78 | every group is counted as finished if and only if every group is done |
| TaskDetail.AllGroupsPassed | src/components/picturebook/task-detail.tsx:76-78 | the banner shows if and only if there is at least one group and every group is done |
| TaskDetail.ProgressWidth | src/components/picturebook/task-detail.tsx:147 | the bar's width is the passed share in percent, 0 without cards, and within 0–100 |
| TaskDetail.FullBarIff | src/components/picturebook/task-detail.tsx:147 | a bar is full if and only if there are cards and all are passed |
| TaskDetail.FullBarIffDone | src/components/picturebook/task-detail.tsx:62-74 | a group's bar is full if and only if the group is done |
| TaskDetail.PageAndQueryDifferOnlyOnEmpty | src/components/picturebook/task-detail.tsx:62-74 | the task page and the progress query agree on a group's counts, and on "done" except for a group without cards |
| TaskDetail.EmptyGroupDisagreement | src/components/picturebook/task-detail.tsx:71-72 | a group without cards is unfinished on the task page but all passed in the progress query |
| Reward.Percentage | src/components/picturebook/reward-feedback.tsx:23 | the passed share of the cards, 0 without cards |
| Reward.Stars | src/components/picturebook/reward-feedback.tsx:24 | the rating is one to three stars |
| Reward.ThreeStarsIff | src/components/picturebook/reward-feedback.tsx:24 | three stars if and only if there are cards and all of them passed |
| Reward.TwoStarsIff | src/components/picturebook/reward-feedback.tsx:24 | two stars if and only if at least 70 % but not all cards passed |
| Reward.NoCardsOneStar | src/components/picturebook/reward-feedback.tsx:23-24 | without cards the share is 0 and the rating one star |
| Reward.StarsMonotone | src/components/picturebook/reward-feedback.tsx:24 | passing more cards never costs a star |
| Reward.ScorePercent | src/components/picturebook/reward-feedback.tsx:82 | the shown percent is the whole percent nearest to the share, in 0–100 |
| ChallengeView.PassedIds | src/components/picturebook/challenge-view.tsx:87-92 | exactly the ids of cards with a passing attempt in the list |
| ChallengeView.CardIds | src/components/picturebook/challenge-view.tsx:78-80 | exactly the ids of the shown cards |
| ChallengeView.Seed | src/components/picturebook/challenge-view.tsx:86-96 | as written: an empty set with attempts becomes the ids of every passed attempt of the task, otherwise nothing changes |
| ChallengeView.SeedGroup | src/components/picturebook/challenge-view.tsx:86-96 | corrected: the seed takes only passed ids of the shown cards |
| ChallengeView.ProgressPercent | src/components/picturebook/challenge-view.tsx:99-100 | the bar is the set's size as a percent of the shown cards, 0 without cards |
| ChallengeView.Submit | src/components/picturebook/challenge-view.tsx:104-137 | without a current card or a reply nothing changes; otherwise the result is shown, a pass adds the card's id, and the reward is due when the set's size reaches the card count |
| ChallengeView.Next | src/components/picturebook/challenge-view.tsx:140-145 | clears the result and moves on, except on the last card |
| ChallengeView.Back | src/components/picturebook/challenge-view.tsx:279-285 | moves back and clears the result, except on the first card |
| ChallengeView.Retry | src/components/picturebook/challenge-view.tsx:148-150 | clears the result only |
| ChallengeView.ViewReward | src/components/picturebook/challenge-view.tsx:307-311 | the reward becomes due when `allPassed` holds, and nothing else changes |
| ChallengeView.StepsKeepIndex | src/components/picturebook/challenge-view.tsx:97-150 | every step keeps the current index on a card, or at 0 without cards |
| ChallengeView.NextButtonAdvances | src/components/picturebook/challenge-view.tsx:299-305 | a shown "next" button always moves to the following card |
| ChallengeView.PassedOnlyGrows | src/components/picturebook/challenge-view.tsx:104-150 | the passed set only grows, and a step grows it only by the current card's id |
| ChallengeView.CardIdsCount | src/components/picturebook/challenge-view.tsx:78-80 | with distinct ids there are as many ids as cards |
| ChallengeView.SizeTestSound | src/components/picturebook/challenge-view.tsx:101 | while the set holds only shown ids, the size test holds if and only if every shown card passed |
| ChallengeView.StepsKeepWithinGroup | src/components/picturebook/challenge-view.tsx:86-150 | the corrected seed and every step keep the set within the shown cards |
| ChallengeView.RewardDueIffAllPassed | src/components/picturebook/challenge-view.tsx:124-132 | with the corrected seed, a passing answer makes the reward due if and only if every shown card has passed |
| ChallengeView.OtherGroupPassLeaks | src/components/picturebook/challenge-view.tsx:86-101 | as written, a pass on another group's card makes a group with no passed card show all passed at 100 % |
| ChallengeView.OtherGroupPassBlocksReward | src/components/picturebook/challenge-view.tsx:124-132 | as written, that foreign pass also stops the automatic reward after this group's only card passes |
| ChallengeView.GroupSeedFixesBoth | src/components/picturebook/challenge-view.tsx:86-132 | with the corrected seed the same history shows nothing passed, and the group's own pass makes the reward due |
| ChoiceCard.Select | src/components/picturebook/choice-card.tsx:21-24 | a pick is ignored once submitted or while disabled, and otherwise becomes the selection |
| ChoiceCard.Submit | src/components/picturebook/choice-card.tsx:26-30 | without a selection or while disabled nothing happens; otherwise the card is submitted and reports its selection |
| ChoiceCard.OptionsOf | src/components/picturebook/choice-card.tsx:32 | the stored options, or none |
| ChoiceCard.Marks | src/components/picturebook/choice-card.tsx:51-53 | one mark per option, and none before submission |
| ChoiceCard.MarksAfterSubmit | src/components/picturebook/choice-card.tsx:51-53 | after submission an option is marked correct if and only if it is correct, and marked wrong if and only if it is the selected wrong one, so at most one is marked wrong |
| ChoiceCard.SubmittedIsFrozen | src/components/picturebook/choice-card.tsx:102-113 | once submitted, no click changes the card or reports again |
| ChoiceCard.ReportsAtMostOnce | src/components/picturebook/choice-card.tsx:21-30 | any click sequence reports at most once, and a report is the selection the card keeps showing |
| Wizard.NormalizePos | src/components/picturebook/new-task-wizard.tsx:28-36 | always one of the four names; the trimmed lower-cased input when it is one, else "noun" |
| Wizard.PosNameIsNormal | src/components/picturebook/new-task-wizard.tsx:28-36 | a stored name is already trimmed and lower case |
| Wizard.NormalizePosIdempotent | src/components/picturebook/new-task-wizard.tsx:28-36 | normalising a normalised name changes nothing |
| Wizard.CleanWord | src/components/picturebook/new-task-wizard.tsx:81-85 | a confirmed word has the trimmed word and meaning (empty when missing) and the normalised part of speech |
| Wizard.KeptIsConfirmed | src/components/picturebook/new-task-wizard.tsx:80-87 | every recognised word with a non-blank word is confirmed, cleaned |
| Wizard.Clean | src/components/picturebook/new-task-wizard.tsx:80-87 | never more confirmed words than recognised ones |
| Wizard.CleanAppend | src/components/picturebook/new-task-wizard.tsx:80-87 | cleaning works word by word, so it keeps the order |
| Wizard.ConfirmedWordShape | src/components/picturebook/new-task-wizard.tsx:80-87 | every confirmed word is the cleaned form of a kept recognised word, with a non-empty trimmed word and a known part of speech |
| Wizard.CleanEmptyIff | src/components/picturebook/new-task-wizard.tsx:89-92 | nothing is confirmed if and only if no recognised word has a non-blank word |
| Wizard.TaskFor | src/components/picturebook/new-task-wizard.tsx:56-72 | the wizard's own task, else the one just created |
| Wizard.Reached | src/components/picturebook/new-task-wizard.tsx:52-126 | a submission makes no call after creation without a task, and all five exactly when recognition found words that survive cleaning and confirmation succeeded |
| Wizard.CreatesOnlyWithoutTask | src/components/picturebook/new-task-wizard.tsx:58-72 | a create call is made if and only if the wizard has no task, and only as the first call; an existing task is reused and a created one is kept |
| Wizard.FailedCreateStops | src/components/picturebook/new-task-wizard.tsx:66-69 | a failed creation stops the submission after the create call |
| Wizard.BlankWordsNeverConfirmed | src/components/picturebook/new-task-wizard.tsx:89-92 | recognised words that all clean to blank stop the flow before confirmation |
| Wizard.GeneratingBracketsGenerate | src/components/picturebook/new-task-wizard.tsx:108-113 | generation is called at most once, right after the generating flag is set and right before it is cleared, and the flag is touched nowhere else |
| Wizard.AfterCreateShape | src/components/picturebook/new-task-wizard.tsx:74-122 | after the create calls, however far the flow gets, generation is bracketed by the flag and made at most once, only when all five calls are made, and confirmation is only ever of the cleaned words for the task |
| Wizard.SubmitShape | src/components/picturebook/new-task-wizard.tsx:52-126 | a submission's calls are its create call (only without a task) followed by the steps it reaches; generation is made exactly when all are reached, bracketed and at most once |
| Wizard.GenerationOutcome | src/components/picturebook/new-task-wizard.tsx:108-122 | generation is called if and only if there is a task, recognition gave words that survive cleaning, and confirmation succeeded; the wizard leaves if and only if generation then succeeds, and otherwise returns to the input step |
| Wizard.ConfirmsCleanedWords | src/components/picturebook/new-task-wizard.tsx:94-97 | confirmation receives exactly the cleaned words, for the task the submission works on |
| WordInput.FormatLines | src/components/picturebook/word-input.tsx:18-24 | one line per word, in order |
| WordInput.ParseFormatLine | src/components/picturebook/word-input.tsx:18-24 | a written line reads back as its word, with the meaning kept exactly when it is non-empty |
| WordInput.FormatRoundTrip | src/components/picturebook/word-input.tsx:18-24 | the text written from a preview splits into one line per word, each reading back as that word |
| WordInput.SubmitPayload | src/components/picturebook/word-input.tsx:35-44 | nothing is sent without text or image; non-blank text is sent trimmed and then never with the image; otherwise the image alone |
| WordInput.EnabledSubmitSendsText | src/components/picturebook/word-input.tsx:132 | whenever the button is enabled, the request carries the trimmed text and no image |
| WordInput.Edit | src/components/picturebook/word-input.tsx:91-96 | typing replaces the text and clears the preview count |
| WordInput.Upload | src/components/picturebook/word-input.tsx:56-59 | a chosen image is kept and its preview starts |
| WordInput.PreviewDone | src/components/picturebook/word-input.tsx:60-75 | found words replace the text and set the count; a failure or no words clears the count and keeps the text |
| WordInput.FormattedStartsWithWord | src/components/picturebook/word-input.tsx:18-24 | the written text starts with the first word's first letter |
| WordInput.PreviewThenSubmitSendsText | src/components/picturebook/word-input.tsx:35-75 | after a preview that found words, submitting sends the written text and not the image again |
| WordEditor.SetField | src/components/picturebook/word-editor.tsx:37 | the named field takes the value and the other fields stay |
| WordEditor.UpdateWord | src/components/picturebook/word-editor.tsx:31-39 | the entry's named field takes the value; the length, its other fields and every other entry stay |
| WordEditor.UpdateWithSameValue | src/components/picturebook/word-editor.tsx:31-39 | writing back a field's own value changes nothing |
| WordEditor.RemoveWord | src/components/picturebook/word-editor.tsx:41-43 | the entry at an index in range is cut out; any other index changes nothing |
| WordEditor.AddWord | src/components/picturebook/word-editor.tsx:45-47 | the old entries followed by one blank noun |
| WordEditor.RemoveUndoesAdd | src/components/picturebook/word-editor.tsx:41-47 | removing the entry just added restores the list |
| WordEditor.RemoveLength | src/components/picturebook/word-editor.tsx:41-43 | removal shortens the list by one exactly for an index in range |
| Pipeline.CreateTask | src/actions/picturebook.ts:111-166 | a title outside 1–100 characters or a failed insert is an error that changes nothing; otherwise a new uploaded task with no credits used is stored under an id no task had, keeping the store valid |
| Pipeline.RecognizeWords | src/actions/picturebook.ts:186-262 | each error case has its own answer and changes nothing; the credit precheck asks the ledger for 2 credits; a returned list is stored and charges a signed-in caller 2 credits; a reply without a `words` member makes a signed-in caller fail uncharged and gives a guest success with no words and no change |
| Pipeline.ClientChoiceIsServerChoice | src/actions/picturebook.ts:194-237 | what the word box sends passes the server's input check, and the server reads the same source the box chose |
| Pipeline.ConfirmWords | src/actions/picturebook.ts:267-313 | an unknown part of speech or a foreign task is an error; otherwise only that task changes, becoming confirmed with the words and groups that concatenate back to the words |
| Pipeline.UpdateGroups | src/actions/picturebook.ts:318-354 | valid groups are always answered with success, but stored only on the caller's own task, where only the groups change |
| Pipeline.RegroupingIsUnchecked | src/actions/picturebook.ts:318-354 | after regrouping, the status and confirmed words stay while the groups may hold other words |
| Pipeline.WizardWordsAccepted | src/actions/picturebook.ts:270-278 | the words the wizard confirms always pass the server's part-of-speech check |
| Pipeline.ChargedAppend | src/actions/picturebook.ts:428-466 | the credits of two ledgers add up |
| Pipeline.ConcatWrittenFor | src/actions/picturebook.ts:407-467 | writes of consecutive loop parts still belong to the task and the caller, and their charges add up |
| Pipeline.StoryOf | src/lib/picturebook/ai.ts:212-296 | story generation fails for an unknown grade or a failed call, and otherwise gives the normalised reply |
| Pipeline.TextField | src/actions/picturebook.ts:416-425 | a story field is taken exactly when it is a string |
| Pipeline.WordsOf | src/actions/picturebook.ts:416-425 | the story row lists the group's words, in order |
| Pipeline.CardRows | src/actions/picturebook.ts:443-457 | one row per draft, with fresh consecutive ids, the story, task and group, and `cardIndex` equal to its position |
| Pipeline.ChargeFor | src/actions/picturebook.ts:428-434 | a signed-in caller is debited the amount and a guest nothing |
| Pipeline.StoryStep | src/actions/picturebook.ts:409-434 | a successful story step writes one row for the group under the next id and charges a signed-in caller 5; it never charges more, and nothing at all when it writes no story row |
| Pipeline.CardStep | src/actions/picturebook.ts:437-466 | a successful card step writes one card per word of the group and charges a signed-in caller 3; it never charges more |
| Pipeline.RunGroup | src/actions/picturebook.ts:407-467 | one group writes at most its story, its cards and 8 credits of debits, all of them when it succeeds, and neither cards nor debits without a story row |
| Pipeline.RunGroups | src/actions/picturebook.ts:407-467 | the loop charges at most 8 per group, exactly that on success for a signed-in caller, and on success writes one story per group and one card per word |
| Pipeline.GenerateContent | src/actions/picturebook.ts:359-400 | a missing or foreign task, or one without groups, is an error that changes nothing; so is a signed-in caller for whom the ledger answers no to the full cost of all groups; any failure is one of those two or a generation failure |
| Pipeline.Commit | src/actions/picturebook.ts:407-488 | the run's outcome replaces the task row and appends rows of this task and debits of this caller after the existing ones, whose charges add up; a guest adds no debit |
| Pipeline.GenerateContentFrame | src/actions/picturebook.ts:401-488 | a started run keeps the task keys and every other task, and only appends stories, cards and debits |
| Pipeline.GenerateContentTaskRow | src/actions/picturebook.ts:468-488 | a started run leaves the task ready with `creditsUsed` the full cost on success, confirmed with `creditsUsed` kept on failure, and nothing else of the row changed |
| Pipeline.GenerateContentCharges | src/actions/picturebook.ts:384-466 | a started run writes only this task's rows and this caller's debits, none for a guest, and charges at most the full cost, exactly it on success |
| Pipeline.GenerateContentCounts | src/actions/picturebook.ts:407-467 | a successful run writes one story per group and one card per word |
| Pipeline.TotalCostIsEight | src/actions/picturebook.ts:384-386 | the full cost, which the precheck asks for and a successful run records as `creditsUsed`, is 8 credits per group |
| Pipeline.GenerationNeedsEightPerGroup | src/actions/picturebook.ts:384-398 | a signed-in caller holding `c` credits passes the generation precheck if and only if `c` is at least 8 times the number of groups |
| Pipeline.RecognitionNeedsTwo | src/actions/picturebook.ts:221-230 | a signed-in caller holding `c` credits passes the recognition precheck if and only if `c` is at least 2 |
| Pipeline.FailedRunKeepsCharges | src/actions/picturebook.ts:480-488 | a run that fails in the second group rolls the task back to confirmed with no credits recorded, yet keeps the first group's story and its 8 credits of debits |
| Pipeline.TasksKeep | src/actions/picturebook.ts:401-404 | a change that keeps task keys and ids and sets no new "generating" status keeps the store valid and free of generating tasks |
| Pipeline.CreateKeeps | src/actions/picturebook.ts:111-166 | task creation keeps the store valid, leaves no task generating and does not charge |
| Pipeline.RecognizeKeeps | src/actions/picturebook.ts:186-262 | recognition keeps the store valid, leaves no task generating and does not charge a guest |
| Pipeline.ConfirmKeeps | src/actions/picturebook.ts:267-313 | confirmation keeps the store valid, leaves no task generating and charges nothing |
| Pipeline.UpdateGroupsKeeps | src/actions/picturebook.ts:318-354 | regrouping keeps the store valid, leaves no task generating and charges nothing |
| Pipeline.GenerateKeeps | src/actions/picturebook.ts:359-489 | generation keeps the store valid, never leaves a task generating and does not charge a guest |
| Pipeline.ApplyKeeps | src/actions/picturebook.ts:111-489 | every action keeps the store valid, leaves no task generating and does not charge a guest |
| Pipeline.StatusNeverStaysGenerating | src/actions/picturebook.ts:401-488 | over any sequence of actions the store stays valid, no task is left generating, and guests alone never add a debit |

## Left out

- Network calls are parameters: the chat model's replies, the image
  recogniser (`recognize`) and the image preview.
- `JSON.parse` together with the removal of code fences is the `parse`
  parameter: `None` stands for a thrown parse error.
- `getActor`, `getDb` and the guest-user bootstrap are left out. The
  caller is an `Actor` value.
- Ids are a counter (`nextId`) instead of random UUIDs. Timestamps are not
  modelled.
- `hasEnoughCredits` and `consumeCredits` are parameters: `hasEnough`
  and `debitOk` for recognition and generation's precheck, and the
  `storyDebitOk` and `cardDebitOk` fields of each group's `GroupEnv`
  inside the generation loop. The credit ledger is a list of debits and
  is treated as atomic.
- Updates of a task row are assumed to succeed. A failing update after a
  debit has been taken is not modelled.
- Concurrency between requests is not modelled: actions apply one at a
  time.
- Floating point is not modelled. `matchPercentage` is an integer in
  units of 1/10000, and `Math.round` rounds halves upward on it. The
  client percentages (reward share, progress bars) are exact rationals, so
  IEEE rounding at the 70 % boundary is not modelled.
- Title length is counted in characters, not in UTF-16 code units.
- Non-string JSON values in string fields are dropped rather than stored
  verbatim. A story text must be a JSON string, and `highlightedWords` is
  stored as absent.
- The difficulty table's lengths and ratios only shape the prompts. The
  prompts and their wording are left out.
- `ALLOW_MINOR_ERRORS` is read nowhere in the core and is left out.
- `getTasksAction` and `getTaskDetailAction` are modelled only as the
  selections their pages use (`CardOrder.TaskCards`, `Progress.AttemptsOf`).
  Their `ORDER BY` clauses are left out: `desc(createdAt)` because
  timestamps are not modelled, and `groupIndex, cardIndex` on the task's
  cards because every consumer either counts per group (the task page) or
  selects one group and sorts it by `cardIndex` again (the challenge
  page), and the cards of one group carry distinct `cardIndex` values
  (`Pipeline.CardRows`).
- Pipeline.RecognizeWords: a `words` member that is present but not an
  array (a string, a number, `null`) is not modelled. The source stores
  such a value as the task's recognised words, charging a signed-in
  caller unless `.length` throws on `null`; the model's task row holds
  only a list.
- These are left out: image generation and editing, voice evaluation,
  the credit-distribution script, the reading card's audio capture, story
  highlighting, rendering, and the API-key pages.
- The reward screen's one-second delay and React state reuse across
  renders are left out. A render is one call of the step functions.
- `ChallengeView.Submit` treats the action's reply as given (`None` for a
  failed call). Its transport is not modelled.
- WordEditor.UpdateWord: requires an index inside the list, because the
  editor calls it only for a displayed row. An out-of-range assignment,
  which leaves holes in a JavaScript array, is not modelled.
- Wizard.Clean: recognised items are assumed to be objects whose `word`,
  `meaning` and `partOfSpeech` are strings or absent. A `null` item, a
  non-string field or a `words` value that is not an array makes the
  `.map` or a `.trim()` in `handleWordSubmit` throw. The handler has no
  `try`, so the submission stops before any confirmation. The wizard's
  properties hold only for well-shaped items.
- Wizard.CleanWord: the same shape is assumed for a single item; the
  source throws on any other.
- The intermediate `generating` status written at the start of a run is
  not observable in the model. Each action is one atomic step, and its
  end state is ready or confirmed. So `StatusNeverStaysGenerating` holds
  by construction, given that task-row updates succeed.
- Pipeline.GenerateContent: the card-generation call inside the loop uses
  the corrected card assembly (`CardAssembly.GenerateCards`). The source's
  throw on malformed options is modelled separately (Findings) and is not
  threaded into the loop.

## Findings

| source | as written | input that shows it | evidently intended | confidence | as-written member | corrected member |
|---|---|---|---|---|---|---|
| src/lib/picturebook/ai.ts:490-492 | `options?.findIndex(o => o.isCorrect)` runs outside the try block. It throws a TypeError when `options` is present but not an array, or when a null option comes before the first correct one. The whole generation then rolls back, although the comment at line 472 promises that a malformed reply still yields default cards. | a cards reply `{"cards":[{"options":"A"}]}` for one word | a malformed entry gives a card with no options (or a stub), and generation goes on | high (not executed) | CardAssembly.GenerateCardsAsWritten, CardAssembly.StringOptionsThrow | CardAssembly.GenerateCards, CardAssembly.AsWrittenAgreesOnWellFormed |
| src/components/picturebook/challenge-view.tsx:86-101 | the passed set is seeded with every passed attempt of the whole task, and `allPassed` compares only its size with this group's card count | group 0 shows card 1 with no pass; a passed attempt exists on card 2 of group 1 | only passes of the shown cards count, so the page shows 0 % and no reward until card 1 passes | high (not executed) | ChallengeView.Seed, ChallengeView.OtherGroupPassLeaks | ChallengeView.SeedGroup, ChallengeView.RewardDueIffAllPassed |
