# PropelMe contact prioritisation, modelled in Dafny

PropelMe's `ContactPrioritization` engine decides whom a user should reach out to next:

- **Priority score.** Each contact gets a score out of 100, the sum of four parts:
  - recency of the last interaction, up to 40;
  - relationship strength, up to 25;
  - how rarely the user and the contact interacted in the last year, up to 20;
  - warmth, up to 15.
- **Ranking.** Contacts are ranked by that score: stable and highest first, optionally cut to a limit.
- **Outreach schedule.** The ranking is split into weekly groups of `contacts_per_week`.
- **Warmth.** A separate warmth score rates the last 180 days of interactions, at most ten of them, by sentiment and channel, clamped to 0–100. With no interactions at all it is not clamped: it is the contact's own stored warmth, or 50 when that is zero (always 50 in the older copy), so a stored 150 or -5 comes back as it is.

The repository holds two copies of the engine. Each is a shell script that writes a Python module:

- `App/Services/prioritization.py` (**`Current`**) writes `app/services/prioritization.py`;
- `App/Services/Prioritization.py` (**`Legacy`**) writes `App/services/prioritization.py`.

They differ in three places, and `Prioritization.Variant` selects between them:

- how an interaction is matched to a contact without an id;
- how a zero warmth is read;
- what the warmth score of an empty interaction list is.

`App/Routers/Contacts.py` imports `..services.prioritization` from `App/Routers`, that is `App/services/prioritization.py`. Which text that module holds depends on which script wrote it last and on whether the file system tells `app` from `App`. So every `/contacts` endpoint of the model takes the variant as a parameter.

The project also models:

- the `/contacts` endpoints (`App/Routers/Contacts.py`), which wrap the engine into response bodies and turn exceptions into HTTP 500;
- `GET /events/recommendations` (`App/Routers/Events.py`) from the search results on: it merges them, drops repeated ids, sorts by start time and keeps twenty. The sort is modelled twice: as written, where an event without a start time makes the request fail with HTTP 500 whenever at least two unique events remain to be compared (a single event is never compared), and as intended, where such an event sorts first;
- the request and record types of `App/Schemas.py`, with their defaults.

Modules:

- `Wrappers`: `Option` and `Result`.
- `PyOps`: the Python built-ins the core relies on: floor division, slicing with negative stops, `str.split`, `str.strip`, and string `<`.
- `StableSort`: a stable sort by key. It stands for `sorted(...)` and `list.sort(...)`, with proofs that it sorts, permutes and is stable.
- `Schemas`: the schema types.
  - `Contact` is a class, because the engine writes its `priority_score` in place.
- `Prioritization`: both engine variants.
  - Scores are specification functions.
  - `calculate_priority_score`, `calculate_warmth_score` and `prioritize_contacts` are methods proved against them.
- `OutreachSchedule`: `generate_outreach_schedule`.
  - The week dictionary is an insertion-ordered sequence of `WeekGroup`s.
  - The strftime week label is a parameter `weekKey` from week number to key.
- `ContactsRouter` and `EventsRouter`: the endpoints.

Modelling conventions:

- **Time.** Every `datetime.now()` of one call is a single parameter `now`. Timestamps are naive datetimes, as integer microseconds, and `.days` is floor division by a day.
- **Numbers.** Python floats are modelled as exact reals.
- **Eventbrite.** The search service is a function parameter from a keyword and a location to the list of events of its reply.

Three behaviours of the code that its comments do not state; the model follows the code:

- The docstring of `calculate_priority_score` (App/Services/prioritization.py:25) says the score is in 0-100, but only the upper end is clamped (line 47). A warmth below -600 gives a negative score.
- The comment "Default for unknown relationship" (line 36) describes the branch for a missing relationship. `RelationshipType` has seven members, each with a weight, so the `.get(..., 10)` fallback of line 34 is never used.
- A negative `limit` slices like Python: `sorted_contacts[:limit]` drops the last `-limit` contacts.

## Model

| member | source | states |
|---|---|---|
| Schemas.ParseRelationshipValue | App/Schemas.py:12-19 | each of the seven relationship values validates back to its own member, so the values are distinct |
| Schemas.ParseRelationship | App/Schemas.py:12-19 | request validation of a relationship string: a parsed member has exactly that value, and a string that is no member's value is rejected |
| Schemas.Contact.constructor | App/Schemas.py:42-58 | a contact starts with no id, no relationship, no last interaction date and both scores at 0.0 |
| Schemas.Records | App/Schemas.py:42-58 | serialising a list of contacts keeps its length and serialises each contact in place |
| Schemas.Record | App/Schemas.py:42-58 | the modelled part of `c.dict()`: the name, id, warmth, relationship, last interaction date and priority score the contact holds at the time (Records applies it to each contact in place); the other fields the dict echoes are listed under "Left out" |
| Prioritization.RelationshipTerm | App/Services/prioritization.py:33-36 | a missing relationship scores 10; a given one scores its table weight; the term lies in [2,25] |
| Prioritization.DaysSince | App/Services/prioritization.py:55 | `.days` of the difference: the largest whole number of days not exceeding it, negative for a date in the future |
| Prioritization.RecencyStep | App/Services/prioritization.py:57-66 | the step for a known last interaction date lies in [5,40] |
| Prioritization.RelationshipWeight | App/Services/prioritization.py:10-18 | every relationship weight lies between 2 and 25 |
| Prioritization.RecencyTerm | App/Services/prioritization.py:49-66 | never contacted scores 40; every recency term lies in [5,40] |
| Prioritization.RecencyStepMonotone | App/Services/prioritization.py:57-66 | more days since the last interaction never lowers the recency term |
| Prioritization.RecencyOlderIsMoreUrgent | App/Services/prioritization.py:49-66 | an older last interaction scores at least as high as a newer one |
| Prioritization.RecencyFutureDate | App/Services/prioritization.py:55-58 | a last interaction date in the future counts as recent and scores 5 |
| Prioritization.Window | App/Services/prioritization.py:75-79 | the list comprehension never yields more interactions than it is given |
| Prioritization.Matches | App/Services/prioritization.py:78 | an interaction belongs to a contact with an id exactly when `contact_id` equals it; to a contact without an id exactly when `contact_id` is 0 (never, in the older copy, App/Services/Prioritization.py:77) |
| Prioritization.WindowMembers | App/Services/prioritization.py:75-79 | an interaction is in the filtered list exactly when it is in the input, belongs to the contact and is dated after the cut-off; the list is empty exactly when no such interaction exists |
| Prioritization.WindowCounts | App/Services/prioritization.py:75-79 | each kept interaction occurs as often as in the input, each other one not at all |
| Prioritization.WindowAppend | App/Services/prioritization.py:75-79 | filtering a concatenation is concatenating the filtered parts, so the filter keeps input order |
| Prioritization.FrequencyStep | App/Services/prioritization.py:81-92 | the frequency step lies in [2,20] and is 20 exactly when the count is zero |
| Prioritization.FrequencyStepAntitone | App/Services/prioritization.py:83-92 | more interactions in the year never raise the frequency term |
| Prioritization.FrequencyTerm | App/Services/prioritization.py:68-92 | the frequency term lies in [2,20] and is 20 exactly when no matching interaction falls within the last 365 days (the older copy, App/Services/Prioritization.py:77, compares `contact_id` with the id as is) |
| Prioritization.FrequencyContribution | App/Services/prioritization.py:38-40 | no interactions, or an empty list, add nothing; otherwise the frequency term adds between 2 and 20 |
| Prioritization.WarmthTerm | App/Services/prioritization.py:44-45 | a zero warmth counts as 50 and gives 7.5 (0 in the older copy, App/Services/Prioritization.py:43); a warmth in [0,100] gives a term in [0,15] |
| Prioritization.PriorityScore | App/Services/prioritization.py:20-47 | the score never exceeds 100, is at least 7 for a non-negative warmth, and equals the uncapped sum whenever the warmth is in [0,100] |
| Prioritization.CalculatePriorityScore | App/Services/prioritization.py:20-47 | the step-by-step accumulation returns exactly the priority score |
| Prioritization.NoLowerClamp | App/Services/prioritization.py:47 | only the upper bound is clamped: a warmth below -600 yields a negative priority score |
| Prioritization.FrequencyAddsTwentyWithoutRecentHistory | App/Services/prioritization.py:38-40 | with a non-empty list holding no matching interaction in the last year, the score is 20 above the score without interactions; an empty list adds nothing |
| Prioritization.MissingIdScoresAsZero | App/Services/prioritization.py:78 | a contact without an id is scored exactly as if its id were 0 |
| Prioritization.WindowSameMatches | App/Services/prioritization.py:76-79 | two contacts matching the same interactions get the same filtered list |
| Prioritization.LegacyMissingIdHasNoHistory | App/Services/Prioritization.py:75-78 | in the older copy a contact without an id matches no interaction, so it always receives the full 20 frequency points |
| Prioritization.SentimentWeight | App/Services/prioritization.py:165-169 | a sentiment adds between -5 and 10, and 0 when it is not one of the three known ones |
| Prioritization.ChannelWeight | App/Services/prioritization.py:171-177 | a channel adds between 5 and 15, and 5 exactly when it is neither coffee, phone call, event nor LinkedIn message |
| Prioritization.InteractionWeight | App/Services/prioritization.py:165-183 | one interaction adds between 0 and 25 (sentiment -5..10 plus channel 5..15, unknown values 0 and 5) |
| Prioritization.SumWeights | App/Services/prioritization.py:181-183 | the added total over a list lies between 0 and 25 per interaction |
| Prioritization.FirstCounted | App/Services/prioritization.py:181 | `recent[:10]` is a prefix of exactly min(10, n) interactions, all of them when there are ten or fewer |
| Prioritization.Clamp | App/Services/prioritization.py:185 | the result lies in [0,100] and leaves a value already in range unchanged |
| Prioritization.WarmthScore | App/Services/prioritization.py:146-185 | no interactions give the contact's own warmth, 50 when it is zero (always 50 in the older copy, App/Services/Prioritization.py:154-155); none recent gives 40; otherwise the score lies in [50,100] |
| Prioritization.WarmthDefault | App/Services/prioritization.py:153-154 | the score for an empty interaction list; the two copies differ here (App/Services/Prioritization.py:154-155), as WarmthDefaultVariants states |
| Prioritization.WarmthDefaultVariants | App/Services/Prioritization.py:154-155 | the older copy always returns 50 for an empty list, and the two copies agree exactly when the contact's own warmth is 0 or 50 |
| Prioritization.CalculateWarmthScore | App/Services/prioritization.py:179-185 | the loop over the first ten recent interactions returns exactly the warmth score |
| Prioritization.OnePositiveCoffee | App/Services/prioritization.py:165-185 | one recent positive coffee gives a warmth of 75 |
| Prioritization.AllStaleIsFortyExactly | App/Services/prioritization.py:162-163 | a non-empty list with nothing in the last 180 days gives exactly 40 |
| Prioritization.LegacyMissingIdScoresForty | App/Services/Prioritization.py:158-165 | in the older copy a contact without an id and a non-empty list always gets 40, the no-recent-interaction score |
| Prioritization.HigherFirstIsStrictTotalOrder | App/Services/prioritization.py:110-114 | "higher score first" is a strict total order on scores |
| Prioritization.Ranking | App/Services/prioritization.py:110-114 | the ranking is a permutation of the contacts |
| Prioritization.RankingIsDescending | App/Services/prioritization.py:110-114 | the ranking lists priority scores in non-increasing order |
| Prioritization.RankingIsStable | App/Services/prioritization.py:110-114 | contacts with equal scores keep their input order |
| Prioritization.ApplyLimit | App/Services/prioritization.py:116-119 | the result is a prefix: all of it for no limit or 0, `limit` items for a positive limit, all but the last `-limit` for a negative one |
| Prioritization.LimitKeepsTopScores | App/Services/prioritization.py:116-117 | a positive limit keeps min(limit, n) contacts, and none of those dropped outranks one kept |
| Prioritization.PrioritizeContacts | App/Services/prioritization.py:94-119 | every contact's `priority_score` is written with its score, and the result is the limited stable ranking, for either copy |
| OutreachSchedule.KeyIndex | App/Services/prioritization.py:139 | the lookup finds a group with the key, or reports none exactly when no group has it |
| OutreachSchedule.AddToWeek | App/Services/prioritization.py:139-142 | adds the contact under its week key, opening the week at the end when the key is new (its properties are stated by AddToWeekKeepsDict and FlattenAppend) |
| OutreachSchedule.Schedule | App/Services/prioritization.py:134-142 | the dict the loop builds, contact by contact in rank order (its properties are stated by ScheduleIsPartition, ScheduleChunks and ScheduleStep) |
| OutreachSchedule.ScheduleIsPartition | App/Services/prioritization.py:134-144 | the week groups have distinct keys and no empty group, and together hold exactly the ranked contacts |
| OutreachSchedule.AddToWeekKeepsDict | App/Services/prioritization.py:139-142 | adding a contact to its week keeps the keys distinct and the groups non-empty, and adds exactly that contact |
| OutreachSchedule.FlattenAppend | App/Services/prioritization.py:139-140 | a new week group appends its contacts at the end of the schedule's contents |
| OutreachSchedule.ScheduleChunks | App/Services/prioritization.py:134-142 | for a positive per-week count and distinct week labels, the schedule lists the ranking in order, in consecutive weeks of exactly k contacts, with only the last week shorter |
| OutreachSchedule.ChunkedStep | App/Services/prioritization.py:135-142 | placing the next contact keeps the week-by-week chunking |
| OutreachSchedule.ChunkedWeekCount | App/Services/prioritization.py:135 | n contacts at k per week fill ceil(n/k) weeks |
| OutreachSchedule.TwelveAtFiveAWeek | App/Services/prioritization.py:121-144 | twelve contacts at the default five a week make weeks of 5, 5 and 2 |
| OutreachSchedule.NegativePerWeekGoesBackInTime | App/Services/prioritization.py:134-137 | for every non-empty ranking and every negative per-week count, the first week is this week's key holding only the top contact, and every other week carries the key of a negative week number, so it lies in the past |
| OutreachSchedule.NegativeTwoPerWeekExample | App/Services/prioritization.py:134-137 | an instance: three contacts at -2 a week give this week for the first and last week for the other two |
| OutreachSchedule.WeekNumber | App/Services/prioritization.py:135 | `i // contacts_per_week`, Python floor division (its properties are stated by NegativeWeekNumbers and the Chunked lemmas) |
| OutreachSchedule.NegativeWeekNumbers | App/Services/prioritization.py:135 | with a negative per-week count, rank 0 is in week 0 and every later rank in a negative week |
| OutreachSchedule.AddToWeekKeys | App/Services/prioritization.py:139-142 | proof helper: adding a contact keeps every existing key in place, opens at most one week at the end, and leaves the other weeks unchanged |
| OutreachSchedule.ScheduleStep | App/Services/prioritization.py:134-142 | one more contact extends the schedule by adding it to week `i // k` |
| OutreachSchedule.GroupByWeek | App/Services/prioritization.py:131-144 | a zero per-week count raises ZeroDivisionError exactly when there is a contact; otherwise the loop builds the schedule |
| OutreachSchedule.GenerateOutreachSchedule | App/Services/prioritization.py:121-144 | scores are written, the ranking is unlimited, and the result is its week grouping or the division error, for either copy |
| ContactsRouter.Bucket | App/Routers/Contacts.py:61-66 | hot exactly from 70, warm exactly in [40,70), cold exactly below 40 |
| ContactsRouter.ColdOnlyFromOwnWarmth | App/Routers/Contacts.py:58-66 | with the `Current` engine, a contact is cold exactly when no interactions are given and its own non-zero warmth is below 40 |
| ContactsRouter.LegacyIsNeverCold | App/Services/Prioritization.py:154-189 | the older engine's warmth never falls in the cold bucket |
| ContactsRouter.Prioritize | App/Routers/Contacts.py:11-27 | for the chosen engine copy, every contact is scored in place, and the reply is a success whose total counts the request's contacts and whose list is the serialised limited ranking |
| ContactsRouter.ScheduleDict | App/Routers/Contacts.py:40-43 | the serialised schedule has the same weeks in the same order, each with its contacts serialised |
| ContactsRouter.Schedule | App/Routers/Contacts.py:29-52 | for the chosen engine copy, a zero per-week count with contacts gives HTTP 500 with the division error text; otherwise the reply counts weeks and contacts and carries the schedule |
| ContactsRouter.CalculateWarmth | App/Routers/Contacts.py:54-75 | for the chosen engine copy, the reply carries the contact's name, the warmth score and its bucket |
| ContactsRouter.ExceptionText | App/Routers/Contacts.py:51-52 | `str(e)` of the one exception the schedule path raises, the integer division by a zero per-week count, used as the 500 detail |
| EventsRouter.StripAll | App/Routers/Events.py:85-87 | one keyword per comma-separated part |
| EventsRouter.Keywords | App/Routers/Events.py:85-87 | there is one keyword per comma-separated part, so always at least one |
| EventsRouter.StripAllElements | App/Routers/Events.py:85-87 | the i-th keyword is the i-th comma-separated part, stripped |
| EventsRouter.Merged | App/Routers/Events.py:84-90 | the results of each keyword's search, concatenated in keyword order (its properties are stated by MergedFromSearches and MergedStep) |
| EventsRouter.MergedFromSearches | App/Routers/Events.py:84-90 | every merged event comes from the search of some keyword |
| EventsRouter.MergedStep | App/Routers/Events.py:90 | proof helper: one more keyword appends its results after the ones collected so far |
| EventsRouter.Dedup | App/Routers/Events.py:93-98 | deduplication never lengthens the list |
| EventsRouter.DedupKeepsFirstOfEachId | App/Routers/Events.py:93-98 | after deduplication ids are pairwise distinct, every input id is still present, and each kept event is the first input event with its id |
| EventsRouter.DedupPositions | App/Routers/Events.py:93-98 | the deduplicated list is the input at strictly increasing positions, each the first position of its id |
| EventsRouter.DedupKeepsInputOrder | App/Routers/Events.py:93-98 | any two kept events appear in the order of their first occurrences in the merged results |
| EventsRouter.StartKey | App/Routers/Events.py:101 | the intended sort key: a missing or null start reads as `""`, so events without a start time come first |
| EventsRouter.StartKeyAsWritten | App/Routers/Events.py:101 | the key as written: `e.get("start", "")` returns the stored `None` for a null start, which cannot be compared with a string (KeyLessAsWritten states the comparison) |
| EventsRouter.DedupStep | App/Routers/Events.py:95-98 | proof helper: one more event is kept exactly when its id has not been seen |
| EventsRouter.IdsAppend | App/Routers/Events.py:97 | proof helper: keeping an event adds its id to the seen ids |
| EventsRouter.SortByStart | App/Routers/Events.py:101 | the intended sort permutes the events |
| EventsRouter.SortByStartIsOrderedAndStable | App/Routers/Events.py:101 | events come out in ascending start order, and events with equal starts keep their order |
| EventsRouter.KeyLessAsWritten | App/Routers/Events.py:101 | comparing two keys as written raises TypeError exactly when either start is null, naming the two operand types; otherwise it is the intended comparison |
| EventsRouter.InsertAsWritten | App/Routers/Events.py:101 | one insertion step of the sort with the keys as written: the first comparison that raises ends it (stated by InsertAsWrittenStarted) |
| EventsRouter.SortAsWritten | App/Routers/Events.py:101 | `unique_events.sort(key=...)` as written: the stable sort or the TypeError it raises (stated by SortAsWrittenFails and SortAsWrittenAgrees) |
| EventsRouter.InsertAsWrittenStarted | App/Routers/Events.py:101 | when every start is present, inserting with the keys as written succeeds with the intended insertion |
| EventsRouter.SortAsWrittenStarted | App/Routers/Events.py:101 | when every start is present, the sort as written succeeds with the intended order |
| EventsRouter.SortAsWrittenFails | App/Routers/Events.py:101 | the sort as written raises exactly when there are at least two events and one has no start time |
| EventsRouter.SortAsWrittenAgrees | App/Routers/Events.py:101 | whenever the sort as written succeeds, it gives the intended order |
| EventsRouter.NullStartBreaksSort | App/Services/eventbrite.py:108-113 | a parsed event with a null start makes both comparisons with a dated event raise TypeError and the sort of the two fail; read as `""` it sorts first |
| EventsRouter.Recommend | App/Routers/Events.py:92-107 | the intended reply is a success with at most twenty events, never more than its total |
| EventsRouter.RecommendAsWritten | App/Routers/Events.py:92-109 | the endpoint's reply as written: the TypeError of the sort becomes HTTP 500 with its message (stated by NullStartFailsTheRequest) |
| EventsRouter.NullStartFailsTheRequest | App/Routers/Events.py:92-109 | as written the endpoint answers HTTP 500 exactly when at least two unique events remain and one has no start time, and otherwise the intended reply |
| EventsRouter.RecommendationsAreTheEarliestUnique | App/Routers/Events.py:93-107 | `total` counts the unique events, at most twenty are returned, they are the earliest-starting unique events with distinct ids, all from the searches |
| EventsRouter.DistinctIdsCountOnce | App/Routers/Events.py:93-98 | proof helper: in a list with distinct ids every event occurs at most once |
| EventsRouter.RepeatCountsTwice | App/Routers/Events.py:101 | proof helper: an event at two positions occurs at least twice |
| EventsRouter.DistinctIdsSurvivePermutation | App/Routers/Events.py:101 | any permutation of a list with distinct ids still has distinct ids |
| EventsRouter.SearchEach | App/Routers/Events.py:84-90 | the loop searches the stripped keywords in order and concatenates their results |
| EventsRouter.DropRepeatedIds | App/Routers/Events.py:93-98 | the `seen_ids` loop returns exactly the deduplicated list |
| EventsRouter.GetEventRecommendations | App/Routers/Events.py:67-109 | without a configured service the reply is the info notice and nothing is searched; otherwise the stripped keywords are searched in order and the reply is the endpoint as written: HTTP 500 when the sort raises, the recommendation otherwise |
| StableSort.SortByIsSorted | App/Services/prioritization.py:110-114 | sorting by a key under a strict total order yields a sorted list |
| StableSort.SortByIsStable | App/Services/prioritization.py:110-114 | sorting keeps the input order of the items with any one key |
| StableSort.SortBy | App/Services/prioritization.py:110-114 | the sort returns a permutation of its input (with SortByIsSorted and SortByIsStable, a stable sort) |
| PyOps.FloorDiv | App/Services/prioritization.py:135 | `//` rounds toward negative infinity for either sign of divisor |
| PyOps.SliceTo | App/Services/prioritization.py:117 | `s[:stop]` is a prefix: `stop` items for a non-negative stop, all but the last `-stop` for a negative one |
| PyOps.Strip | App/Routers/Events.py:87 | `strip()` keeps at most the text after the leading whitespace |
| PyOps.StripRemovesOnlySpace | App/Routers/Events.py:87 | the text is its leading whitespace, then the stripped text, then trailing whitespace |
| PyOps.StripEnds | App/Routers/Events.py:87 | the stripped text neither starts nor ends with whitespace, and is empty exactly when the text is all whitespace |
| PyOps.StripIdempotent | App/Routers/Events.py:87 | stripping twice is stripping once |
| PyOps.Split | App/Routers/Events.py:85 | `split(",")` yields at least one part, none containing the separator, and joining them back gives the input |
| PyOps.LexLess | App/Routers/Events.py:101 | string `<` compares code points from the left, and a proper prefix comes first |
| PyOps.LexLessIsStrictTotalOrder | App/Routers/Events.py:101 | string `<` is a strict total order |

## Left out

- The FastAPI plumbing: routing, pydantic validation and JSON encoding. Request validation is reflected only in the types, for example the relationship enum.
- `datetime.now()` is read several times in one call; the model uses a single `now` for all of them.
- `strftime("%Y-W%W")` is modelled as the parameter `weekKey`, from week number to label. The partition lemmas hold for any labelling. The chunk lemmas assume distinct week numbers get distinct labels, which `%Y-W%W` gives: the dates of two week numbers are a multiple of seven days apart, so they fall in different Monday-based weeks. What a label means in the calendar is not modelled: near New Year one Monday-to-Sunday week can carry a `W52` or `W53` label on its December days and a `W00` label on its January days.
- OutreachSchedule.GenerateOutreachSchedule: `now + timedelta(weeks=n)` raises OverflowError once the date leaves the years 1 to 9999, which takes more than a hundred thousand contacts. The model labels every week number and never raises it.
- Floating point is modelled as exact reals. Rounding of the score sums is not modelled.
- The `/events/recommendations` endpoint:
  - The Eventbrite HTTP call, its timeouts and its failures are not modelled. The search is a total function parameter, so an exception raised inside the search, which would become an HTTP 500 at lines 108-109, is not modelled either.
  - `settings.has_eventbrite()` is the parameter `configured`.
  - The `location` and `interests` defaults are left to the caller.
- Only `id`, `name`, `url`, `start` and `end` of a parsed event are modelled. The other fields are carried through unchanged and play no part.
- Contact fields the engine never reads are not modelled: the `ContactBase` fields `email`, `linkedin_url`, `company`, `title` and `location` (App/Schemas.py:31-37), and `warmth_bucket`, `relevance_*`, `interaction_count`, `source`, `tags`, `notes` and the audit dates. `c.dict()` echoes all of them unchanged in the `/prioritize` and `/schedule` replies (App/Routers/Contacts.py:24, :41); `ContactRecord` carries only the modelled fields. Interaction fields the engine never reads are not modelled either: `follow_up_*`.
- `Interaction.date` defaults to the clock, so it is always given.
- Prioritization.CalculateWarmthScore: when `interactions` is `None` the endpoint cannot call it, since the router requires a list. The model takes a list, and `None` behaves like `[]`.
- ContactsRouter.Prioritize: timestamps are naive datetimes only. With an offset-aware `last_interaction_date` the subtraction at App/Services/prioritization.py:55 raises TypeError ("can't subtract offset-naive and offset-aware datetimes"). With an offset-aware `Interaction.date` on an interaction of the contact, the comparison at line 78 raises TypeError ("can't compare offset-naive and offset-aware datetimes"). The router answers HTTP 500 with that text, and the scores already written stay written. The model always answers success.
- ContactsRouter.Schedule: the same TypeError on offset-aware dates, and the OverflowError above, become HTTP 500 with their text. The model answers 500 only for the division by zero.
- ContactsRouter.CalculateWarmth: an offset-aware `Interaction.date` on an interaction of the contact makes the comparison at App/Services/prioritization.py:159 raise TypeError, which the router answers with HTTP 500. The model always answers success.
- EventsRouter.RecommendAsWritten: the 500 detail names the two operand types in the order in which the modelled insertion sort compares them. CPython's sort may compare the same pair the other way round, so the two names can come out swapped. Which pair fails first is not modelled either.
- Other routers and services are not part of this model: AI, Jobs, Planner, the database, the configuration and the frontend.

## Findings

| source | as written | input that shows it | evidently intended | confidence | as-written member | corrected member |
|---|---|---|---|---|---|---|
| App/Routers/Events.py:101 | the sort key `e.get("start", "")` falls back to `""` only for a missing key, but `_parse_event` (App/Services/eventbrite.py:113) always sets `"start"`, to `None` when Eventbrite gives no local start | two search results, one with `"start": None` and one with `"start": "2025-01-01T10:00:00"`: comparing their keys raises `TypeError`, and the endpoint answers HTTP 500 | events without a start sort as `""`, that is first, and the request succeeds | not executed | EventsRouter.NullStartFailsTheRequest | EventsRouter.Recommend |
