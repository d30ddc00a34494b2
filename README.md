# Microlearning self-test scoring, modelled in Dafny

The backend stores topics. A topic is an ordered list of steps: theory, case study, quiz
or self-test. Quiz steps embed multiple-choice questions. A learner submits a list of
option indices for a topic. The self-test handler then does four things:

- it collects the topic's quiz questions in order;
- it pairs answer `i` with question `i`, and a missing answer stays absent instead of
  becoming option 0;
- it marks each question correct or not, counts the correct ones and rounds the
  percentage to two decimals;
- it stores one attempt record with a per-question report.

The list view projects each stored topic onto its summary fields. It can filter by tag.

Modules:

- `Schemas` (`schemas.dfy`): the records of `schemas.py` as datatypes. It also holds the
  validation and defaults of the schema classes, and the topic document as the store returns it.
- `QuizExtraction` (`extraction.dfy`): `Extract`, the flattening as a function, and
  `CollectQuestions`, the handler's nested loop, proved equal to it.
- `SelftestScoring` (`scoring.dfy`): positional pairing (`Details`), counting
  (`CountCorrect`, with the independent `MatchCount`), and the scoring loop
  (`ScoreAnswers`). It also holds the score in hundredths (`ScoreHundredths`), the outcome
  of a whole submission (`Grade`), and `TopicStore`, a class whose `SubmitSelftest`
  appends to the attempt collection.
- `TopicListing` (`listing.dfy`): the summary projection, the tag filter and the listing
  loop (`ListTopics`), proved equal to a filter-then-project definition.
- `SeedScenarios` (`scenarios.dfy`): the demo topic's two questions (correct options 1 and
  2) scored for full, wrong, short and missing-quiz submissions.

The score is an integer number of hundredths of a percent. The model rounds
`10000 * correct / total` to the nearest integer, and an exact tie goes to the even
neighbour. The Python code applies `round(x, 2)` to a float. It rounds ties to even when
the float lands exactly on the tie: 1 of 32 gives 3.12, which the model reproduces as 312.
Elsewhere the float's representation error may round the other way.

A score of 100% means every question is correct only when there are fewer than 20000
questions, and the same bound applies to 0% and none correct. At 20001 questions one
wrong answer still rounds to 100.00 and one right answer to 0.00
(`ScoreExtremesFailForLargeTotals`).

## Model

| member | source | states |
|---|---|---|
| `Schemas.NewQuizQuestion` | schemas.py:12-18 | a question is accepted iff its correct index is at least 0; an index beyond the options is accepted; a missing level becomes `understand`; the other fields are kept |
| `Schemas.NewStep` | schemas.py:20-25 | a step keeps its type, title and any supplied content, prompt and question list; an optional field left out is absent, and a question list left out is absent, not empty |
| `Schemas.NewTopic` | schemas.py:27-32 | a topic defaults to no tags, 10 minutes and no steps; given values are kept |
| `Schemas.NewSelftestAttempt` | schemas.py:34-39 | an attempt defaults to an empty report and no user id |
| `Schemas.StoredTopic` | main.py:75-77 | a topic written through the schema is stored with every top-level field present |
| `QuizExtraction.Extract` | main.py:122-127 | the number of extracted questions is the sum, over quiz steps, of their list lengths, an absent list counting 0 |
| `QuizExtraction.ExtractAppend` | main.py:124-127 | extraction of a concatenation of step lists is the concatenation of the extractions, so step order is question order |
| `QuizExtraction.QuestionlessStepIgnored` | main.py:124-127 | a non-quiz step, or a quiz step with an absent or empty list, can be inserted anywhere without changing the extraction |
| `QuizExtraction.ExtractMembership` | main.py:124-127 | a question is extracted iff some step contributes it |
| `QuizExtraction.ExtractEmptyIff` | main.py:129-130 | nothing is extracted iff every quiz step's list is absent or empty |
| `QuizExtraction.CollectQuestions` | main.py:123-127 | the nested collecting loop returns exactly `Extract` of the steps |
| `SelftestScoring.CountCorrect` | main.py:133-139 | the number of correct entries never exceeds the number of entries |
| `SelftestScoring.CountCorrectExtremes` | main.py:133-139 | the count equals the number of entries iff every entry is correct, and is 0 iff none is |
| `SelftestScoring.Details` | main.py:136-147 | the report has one entry per question; entry `i` carries question `i`'s text and correct index, has no chosen answer iff `i` is past the submitted answers, and is correct iff answer `i` exists and equals the correct index |
| `SelftestScoring.PositionalPairing` | main.py:136-147 | entry `i` carries question `i`'s text, correct index, level and explanation; its chosen value is answer `i` if it exists and absent otherwise; it is correct iff answer `i` exists and equals the correct index |
| `SelftestScoring.ExtraAnswersIgnored` | main.py:136-137 | answers past the last question do not change the report |
| `SelftestScoring.OutOfRangeIndexUnreachable` | schemas.py:15-16 | a correct index past the options is matched by no option, only by that exact integer |
| `SelftestScoring.CorrectCountIsMatchCount` | main.py:136-139 | the number of correct entries equals the number of positions where a submitted answer equals the correct index |
| `SelftestScoring.ScoreAnswers` | main.py:132-147 | the scoring loop returns the positional report and the count of positions answered correctly |
| `SelftestScoring.ScoreHundredths` | main.py:149 | the score is within 0..10000 hundredths, within half a hundredth of `100 * correct / total` percent, and even on an exact tie |
| `SelftestScoring.ScoreExtremes` | main.py:149 | all correct gives 100% and none correct 0%; the converses hold below 20000 questions |
| `SelftestScoring.ScoreExtremesFailForLargeTotals` | main.py:149 | with 20001 questions, 1 correct rounds to 0% and 20000 correct round to 100% |
| `SelftestScoring.ScoreMonotone` | main.py:149 | more correct answers never give a lower score |
| `SelftestScoring.Grade` | main.py:116-157 | a missing topic is refused as not found, and a topic with no extracted question as a client error; a found topic with at least one extracted question is always accepted, and then the attempt keeps the topic id, no user id, total = number of extracted questions > 0, the positional report, and the rounded score of the match count |
| `SelftestScoring.FindById` | main.py:118-120 | lookup yields a stored document with the requested id, or none when no document has it |
| `SelftestScoring.TopicStore.SubmitSelftest` | main.py:116-159 | a refused submission stores nothing; an accepted one appends exactly the graded attempt and returns its id, score, count, total and report |
| `TopicListing.Summarize` | main.py:88-96 | a summary keeps the document's id, title and description, shows its tags or `[]`, its minutes or 10, and its number of steps or 0 |
| `TopicListing.MissingFieldsSummary` | main.py:94-96 | a document without tags, minutes and steps is summarised as `[]`, 10 and 0 steps |
| `TopicListing.Summaries` | main.py:83-97 | the list is never longer than the stored documents |
| `TopicListing.SummariesAppend` | main.py:87-97 | listing a concatenation of documents is the concatenation of the listings, so output follows store order |
| `TopicListing.SummariesMembership` | main.py:83-97 | a summary is listed iff some document passing the filter projects onto it |
| `TopicListing.UnfilteredListsAll` | main.py:83-97 | without a tag, or with the empty tag, every document is listed, in order |
| `TopicListing.FilteredIsSubsequence` | main.py:83-97 | the list for a tag is the unfiltered list with the summaries not carrying the tag removed |
| `TopicListing.StoredTopicSummary` | main.py:90-97 | a schema-written topic's summary shows its tags, minutes and `steps_count = len(steps)` |
| `TopicListing.ListTopics` | main.py:81-98 | the listing loop returns exactly the filter-then-project list |
| `SeedScenarios.SeedExtraction` | main.py:170-199 | the demo topic extracts exactly its two quiz questions, in order |
| `SeedScenarios.ScenarioAllCorrect` | main.py:176-195 | answers [1, 2] give 2 of 2 correct and 100% |
| `SeedScenarios.ScenarioOneWrong` | main.py:176-195 | answers [0, 2] give 1 correct and 50%; entry 0 records chosen 0, correct index 1, not correct |
| `SeedScenarios.ScenarioShortAnswers` | main.py:176-195 | answers [1] give 50%; entry 1 records no answer and is not correct |
| `SeedScenarios.ScenarioNoQuiz` | main.py:129-130 | a topic whose only step is theory is refused with the no-questions error |

## Left out

- Identifier parsing (`to_obj_id`, main.py:30-34) and its "invalid id" error: validity is decided by the bson library, which is not part of this model. Lookup takes the identifier string as given.
- The document store (`db`, `create_document`, `get_documents`) is not part of this model. `TopicStore` stands in for it: a sequence of topic documents, and an attempt collection that is only appended to. An attempt's identifier is its position there, not a store-generated string.
- The tag query `{"tags": {"$in": [tag]}}` runs inside the store. `ListTopics` applies the same membership test inline: a document without tags never matches. Removing `_id` from each fetched document is not modelled.
- Sub-documents are taken as schema-valid: every step has a type, and every question has a non-negative correct index and a level. Two defaults in the handler therefore never apply in the model. One is the `understand` fallback in main.py:145, which the schema already applies at construction. The other is a question stored without a correct index, where an absent answer would compare equal to the missing index.
- `SelftestScoring.ScoreHundredths`: floating point is not modelled. Python's float division and `round(x, 2)` are replaced by exact rounding of the rational to hundredths with ties to even, so results can differ where the float's representation error crosses a rounding boundary.
- `SelftestScoring.ScoreExtremes`: "100% iff all correct" and "0% iff none correct" are proved only for fewer than 20000 questions, because they are false above that.
- `Schemas.NewTopic`: minutes are an unbounded integer, as the schema declares them; nothing requires them to be positive.
- Null top-level fields are not modelled. `None` in a topic document means a missing field. A field that is present but null behaves differently in the handlers: `it.get("tags", [])` returns null, and `len` or iteration over null steps fails. Only documents not written through the schema can hold such a field.
- HTTP routing, CORS, the `root` and `test_database` endpoints, `get_topic`, `create_topic` beyond the stored shape, the server bootstrap, and `seed_sample` except as scenario data: framework plumbing and diagnostics with no decision logic.
- Concurrency between submissions: each call runs alone against the store's current state.
