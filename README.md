# CRISP Career Navigator: request layer, kids' quiz and career planner in Dafny

This project models the logic of three parts of the CRISP Career Navigator web app:

- **The content request layer** (`services/gemini.ts`). It has five generators: a kids' activity, a quiz quest, pathway advice, career guidance and mentor profiles.
  - Each generator asks a generative model for JSON that follows a declared response schema.
  - A reply with no text is refused.
  - The reply is trimmed, and an optional ```` ```json ```` or ```` ``` ```` code fence is removed.
  - The rest goes to the JSON parser. Every parser failure becomes the single error "Failed to parse AI response. Please try again.".
- **The kids' explorer** (`components/KidsExplorer.tsx`):
  - An activity generator.
  - A quiz. A correct answer adds the quest's points, and counts towards Math, Science or English mastery when the quest's subject names one of them. It can also unlock badges: Brainiac at 200 points, and a subject badge at the third correct answer in that subject.
  - A mock leaderboard that ranks the player among three fixed classmates.
- **The career planner** (`components/CareerPlanner.tsx`):
  - Career suggestions and a mentor search. Each has its own loading status.
  - A list of mentors the student has asked to connect with.
  - The colour scheme of a career card, chosen from keywords in its free-text category.

The files:

- `types.dfy`: the records of `types.ts`, plus `Option`, `Result` and `NoDuplicates`.
- `text.dfy`: the JavaScript string operations the code relies on.
  - `trim` and the regular-expression class `\s` both use the ECMAScript white space and line terminator set.
  - `toLowerCase`, `startsWith`, `endsWith` and `includes`.
- `gemini.dfy`: the request layer.
  - The model call is a function parameter `ai` from request to response. A response is a failed call, or a reply whose text may be missing.
  - `JSON.parse` together with its cast is a function parameter `parse` that yields a value or fails.
  - The five generators (`GenerateKidActivity`, `GenerateQuest`, `GeneratePathwayAdvice`, `GenerateCareerGuidance`, `FindMentors`) are instances of `Generate`. Each one's contract names the request it sends and states the outcome with the predicate `Answers`.
  - `!response.text` is the predicate `NoText`: the text is missing or empty.
  - The message each error carries is `Message`. A failed call keeps its own reason, and the two errors the layer raises itself carry "No response from AI" and "Failed to parse AI response. Please try again.".
- `kids_explorer.dfy`: the component state is the class `Session`.
  - A correct answer is the pure function `Scored` on `Progress` (points, mastery, badges).
  - The leaderboard is a stable sort, highest points first.
- `career_planner.dfy`: the component state is the class `Planner`. The request list and the category style are pure functions.

## Model

| member | source | states |
|---|---|---|
| Text.Trim | services/gemini.ts:17 | The trimmed text is a slice of the input with only white space on either side, and has no white space at its ends. Text already like that is returned unchanged. |
| Text.LowerContains | components/KidsExplorer.tsx:73-75 | Searching the lower-cased text for a lower-case keyword finds it exactly when the keyword occurs somewhere in the text, ignoring letter case. |
| Text.ContainsIsOccurrence | components/KidsExplorer.tsx:73 | `includes` succeeds exactly when the keyword occurs at some position. |
| Text.OccursWithinIgnoringCase | components/CareerPlanner.tsx:52-55 | A piece of a case-insensitive occurrence is itself an occurrence of the matching piece of the keyword. |
| Gemini.ActivitySchema | services/gemini.ts:40-53 | The activity schema's required list names exactly its four declared properties. |
| Gemini.QuestSchema | services/gemini.ts:85-96 | The quest schema's required list names exactly its six declared properties. |
| Gemini.PathwaySchema | services/gemini.ts:144-156 | The pathway item schema's required list names exactly its four declared properties. |
| Gemini.CareerSchema | services/gemini.ts:201-216 | The career item schema's required list names exactly its seven declared properties. |
| Gemini.MentorSchema | services/gemini.ts:247-262 | The mentor item schema's required list names exactly its seven declared properties. |
| Gemini.SchemaFor | services/gemini.ts:40-262 | The activity and quest generators declare a single object, and exactly the other three (pathways, careers, mentors) declare an array of objects. |
| Gemini.StripOpening | services/gemini.ts:19 | The opening marker and the longest white space run after it are removed and the rest is kept: the result is a suffix of the text, only white space lies between the marker and it, and it does not start with white space. |
| Gemini.StripClosing | services/gemini.ts:19 | Text not ending with a fence is kept. Otherwise the fence and the longest white space run before it are removed: the result is a prefix, only white space lies between it and the fence, and it does not end with white space. |
| Gemini.StripFences | services/gemini.ts:17-22 | Text that starts with "```json" loses that marker and a final fence; other text that starts with "```" loses that marker and a final fence; other text is kept. The result is never longer, and trimmed text stays trimmed. |
| Gemini.Unwrap | services/gemini.ts:17-22 | The text handed to the parser never starts or ends with white space and is no longer than the reply. Text whose trimmed form does not start with a fence arrives exactly as trimmed. |
| Gemini.UnwrapIsTrimmedSlice | services/gemini.ts:17-22 | Unwrapping only removes characters: the text handed to the parser is a slice of the raw reply. |
| Gemini.CleanAndParse | services/gemini.ts:14-28 | Parsing succeeds exactly when the parser accepts the unwrapped text, and then yields its value. Every failure is the one parse-failure error, whose message is "Failed to parse AI response. Please try again.". |
| Gemini.Generate | services/gemini.ts:55-72 | The result is `Answers` for the reply to the request: a failed model call, and only that, is rethrown with its own message. A reply with missing or empty text, and only that, fails with "No response from AI". Any other reply succeeds exactly when the parser accepts its unwrapped text, with the parsed value, and otherwise fails with the parse-failure message. |
| Gemini.GenerateKidActivity | services/gemini.ts:33-73 | One activity request built from the interest is sent, and the result is `Answers` for its reply. |
| Gemini.GenerateQuest | services/gemini.ts:78-116 | One quiz request built from the subject is sent, and the result is `Answers` for its reply. |
| Gemini.GeneratePathwayAdvice | services/gemini.ts:121-176 | One pathway request built from the interests and the strengths, in that order, is sent, and the result is `Answers` for its reply. |
| Gemini.GenerateCareerGuidance | services/gemini.ts:181-236 | One career request built from the subjects and the hobbies, in that order, is sent, and the result is `Answers` for its reply. |
| Gemini.FindMentors | services/gemini.ts:241-282 | One mentor request built from the career interest is sent, and the result is `Answers` for its reply. |
| Gemini.EmptyReplyNeverParsed | services/gemini.ts:66-68 | For a reply without text, the result is "No response from AI" whichever parser is supplied, so the parser is never consulted. |
| Gemini.TrimAround | services/gemini.ts:17 | Trimming white space around a trimmed core yields exactly the core. |
| Gemini.StripOpeningFenced | services/gemini.ts:19 | Removing the opening marker and the white space after it leaves the payload, the white space after it and the closing fence (for an empty payload, only the fence). |
| Gemini.StripClosingFenced | services/gemini.ts:19 | A closing fence at the very end is removed together with all the white space before it. |
| Gemini.StripBothFences | services/gemini.ts:19-21 | Removing both fences from marker, white space, payload, white space and fence leaves exactly the payload. |
| Gemini.FencedIsTrimmed | services/gemini.ts:17-18 | A fenced text starts and ends with a backtick, so trimming does not change it. |
| Gemini.StripFencesJson | services/gemini.ts:18-19 | A text starting with a ```` ```json ```` fence is reduced to exactly its payload. |
| Gemini.BareFenceIsNotJson | services/gemini.ts:18-20 | A bare fence followed by white space, or by a payload that does not start with "json", takes the bare-fence branch. |
| Gemini.StripFencesBare | services/gemini.ts:20-21 | A text starting with a bare ```` ``` ```` fence is reduced to exactly its payload. |
| Gemini.UnwrapJsonFenced | services/gemini.ts:17-19 | A ```` ```json ```` fenced reply with any white space around it and around the payload unwraps to exactly the payload. |
| Gemini.UnwrapBareFenced | services/gemini.ts:17-21 | The same holds for a bare fence, unless the payload itself starts with "json" right after the fence. |
| Gemini.StripOpeningUnclosed | services/gemini.ts:19-21 | Removing the opening marker and the white space after it leaves a payload that starts with no white space, whatever follows. |
| Gemini.UnwrapJsonUnclosed | services/gemini.ts:17-22 | A reply that opens with "```json" but does not end with a fence (truncated, or with prose after the fence) reaches the parser as everything after the marker and the white space that follows it. |
| Gemini.UnwrapBareUnclosed | services/gemini.ts:17-22 | The same for a reply that opens with a bare "```" and does not end with a fence, unless the payload starts with "json" right after the fence. |
| Gemini.FencedRoundTrip | services/gemini.ts:17-22 | For any trimmed payload, the payload on its own line between a ```` ```json ```` or ```` ``` ```` fence and a closing fence unwraps to exactly the payload. |
| Gemini.UnwrapPayload | services/gemini.ts:17-23 | A trimmed, unfenced payload reaches the parser unchanged. |
| Gemini.FencedParsesAsBare | services/gemini.ts:14-23 | A trimmed, unfenced payload parses the same, with the same value or the same error, whether it is sent bare, ```` ```json ````-fenced or ```` ``` ````-fenced. |
| KidsExplorer.Bump | components/KidsExplorer.tsx:78-79 | The answered subject's count goes up by one and the other counts are kept. |
| KidsExplorer.BadgeIdsIdentify | components/KidsExplorer.tsx:84-96 | Two badges have the same id exactly when they are the same badge. |
| KidsExplorer.Badges | components/KidsExplorer.tsx:81-99 | The record list shown holds, position by position, the record of each badge held. |
| KidsExplorer.FindById | components/KidsExplorer.tsx:84-95 | Looking a badge up by its id among the held records finds it exactly when that badge is held. |
| KidsExplorer.DistinctAwardsDistinctIds | components/KidsExplorer.tsx:81-99 | Holding no badge twice means no badge id appears twice among the records. |
| KidsExplorer.Awarded | components/KidsExplorer.tsx:81-99 | Badges are only appended. Brainiac is held afterwards exactly when it was held before or the new points reach 200. The subject's badge is held afterwards exactly when it was held before or the new count is exactly 3. No other badge appears. A newly earned Brainiac comes right after the earlier badges, so it precedes a subject badge earned in the same answer. Having no duplicates is preserved. |
| KidsExplorer.Scored | components/KidsExplorer.tsx:66-100 | A correct answer adds exactly the quest's points. Exactly the matched subject's count goes up by one, and none does when no subject matches. Earlier badges are kept in order. When no subject matches, the badges stay exactly as they were. When one matches, a badge is held afterwards exactly when it was held before, or it is Brainiac and the points are now 200 or more, or it is that subject's badge and its count is now exactly 3. When both badges are earned by one answer, Brainiac comes first. |
| KidsExplorer.InitialProgressValid | components/KidsExplorer.tsx:13-26 | The start (120 points, all counts 0, only Explorer) satisfies the badge invariant. |
| KidsExplorer.ValidProgressDistinctIds | components/KidsExplorer.tsx:81-99 | In every reachable progress the badge records carry distinct ids, and Explorer (id "1") stays first. |
| KidsExplorer.ScoredKeepsValid | components/KidsExplorer.tsx:62-105 | A correct answer preserves the invariant: Explorer first, no badge twice, and each subject badge held exactly when that subject has 3 or more correct answers. |
| KidsExplorer.UnmatchedSubjectOnlyAddsPoints | components/KidsExplorer.tsx:72-77 | When the subject names no bucket, a correct answer changes only the points. Brainiac is not awarded even when the total reaches 200. |
| KidsExplorer.MatchedSubjectEarnsBrainiac | components/KidsExplorer.tsx:84-86 | A correct answer in a matched subject that brings the total to 200 or more leaves Brainiac held. |
| KidsExplorer.ThirdAnswerUnlocksMasteryBadge | components/KidsExplorer.tsx:78-97 | The third correct answer in a subject brings its count to 3 and unlocks its badge. |
| KidsExplorer.SubjectKey | components/KidsExplorer.tsx:72-75 | The mastery bucket, stated as case-insensitive keyword occurrences: Math if "math" occurs; else Science if "science" occurs; else English if "english" occurs; else none. |
| KidsExplorer.InsertDesc | components/KidsExplorer.tsx:34 | Inserting adds exactly one entry. |
| KidsExplorer.InsertDescPermutes | components/KidsExplorer.tsx:34 | Inserting an entry adds exactly that entry to the multiset of entries. |
| KidsExplorer.InsertDescSorted | components/KidsExplorer.tsx:34 | Inserting into a list sorted highest-first keeps it sorted and introduces no other entry. |
| KidsExplorer.SortDesc | components/KidsExplorer.tsx:34 | The sort yields a permutation of its input, ordered by points, highest first. |
| KidsExplorer.Leaderboard | components/KidsExplorer.tsx:29-34 | The leaderboard is a permutation of Simba, the player, Amani and Kofi, ordered highest first. |
| KidsExplorer.LeaderboardPlacement | components/KidsExplorer.tsx:29-34 | The player's exact position for every points value. Ties keep list order: the player ranks after Simba at 450, before Amani at 380 and before Kofi at 320. |
| KidsExplorer.Session.constructor | components/KidsExplorer.tsx:8-26 | The initial state: 120 points, zero mastery, only the Explorer badge, no quest, answer or activity, and idle status. |
| KidsExplorer.Session.HandleAnswer | components/KidsExplorer.tsx:62-105 | The answer is ignored once a result is recorded or when no quest is loaded. A correct answer records "correct" and scores. Any other index, including one outside the options, records "incorrect" and changes nothing else. The invariant is kept. |
| KidsExplorer.Session.HandleStartQuest | components/KidsExplorer.tsx:48-60 | The quest, result and selection are cleared. The quest generator is a parameter. The new quest is shown only on success, and failure sets the error status. Points, mastery, badges and the activity are untouched. |
| KidsExplorer.Session.HandleExplore | components/KidsExplorer.tsx:36-46 | An interest that is empty or only white space does nothing. Otherwise the activity generator, a parameter, is called once. Its success replaces the activity, and failure keeps the old activity and sets the error status. |
| CareerPlanner.AddRequest | components/CareerPlanner.tsx:45-48 | After the request the list holds exactly the old ids plus `id`. Old ids keep their order, a new id goes last, and the list grows by at most one. An id already asked for leaves the list unchanged. Having no duplicates is preserved. |
| CareerPlanner.AddRequestIdempotent | components/CareerPlanner.tsx:45-48 | Asking twice for the same mentor is the same as asking once. |
| CareerPlanner.ContainsAnyIgnoringCase | components/CareerPlanner.tsx:51-60 | Searching the lower-cased category for lower-case keywords finds one exactly when the category mentions one, ignoring case. |
| CareerPlanner.KeywordsAreLowerCase | components/CareerPlanner.tsx:52-58 | Every keyword is already lower case. |
| CareerPlanner.CategoryOf | components/CareerPlanner.tsx:50-62 | The style, stated as case-insensitive keyword mentions: green keywords beat tech, tech beats health, and anything else gets the default style. |
| CareerPlanner.SustainContainsAi | components/CareerPlanner.tsx:52-55 | Every category that mentions "sustain" also mentions the tech keyword "ai". |
| CareerPlanner.SustainIsGreenNotTech | components/CareerPlanner.tsx:52-55 | A category that mentions "sustain" is styled green even though it also matches the tech keyword "ai". |
| CareerPlanner.Planner.constructor | components/CareerPlanner.tsx:12-19 | No careers, mentors or requests yet, and both statuses idle. |
| CareerPlanner.Planner.HandlePlan | components/CareerPlanner.tsx:21-31 | Nothing happens unless both inputs are non-empty (white space counts as input). Otherwise the career generator, a parameter, is called once with both. Success replaces the careers. Failure keeps them and sets the error status. The mentor side is untouched. |
| CareerPlanner.Planner.HandleFindMentors | components/CareerPlanner.tsx:33-43 | Nothing happens for an empty interest. Success replaces the mentors. Failure keeps them and sets the error status. Requests and careers are untouched. |
| CareerPlanner.Planner.ToggleRequest | components/CareerPlanner.tsx:45-48 | The request list becomes `AddRequest` of the old list, with no duplicates kept, and nothing else changes. |

Two details of the unwrapping that the model keeps as the code has them:

- Only ```` ```json ```` and ```` ``` ```` are recognised as opening markers, together with the white space after them. With another tag, such as ```` ```js ````, the tag stays in the text handed to the parser.
- A closing fence is removed only when it ends the trimmed text.

## Left out

- Rendering, styling, icons, tab and mode switches, and the input fields. The inputs are parameters of the handlers.
- The slice(0, 3) display truncations and the progress-bar percentages.
- The prompts, the model name, the system instructions and the client set-up of the generative model. The model call is the parameter `ai`. The schema sent with a request is `Gemini.SchemaFor` of its kind, not a field of the request.
- `JSON.parse` and the unchecked cast to the record type. Both are the parameter `parse`, so nothing is proved about what a given text parses to.
- `console.error` logging.
- The handlers receive the generator they call as a parameter. The component calls `Gemini.GenerateQuest`, `Gemini.GenerateKidActivity`, `Gemini.GenerateCareerGuidance` or `Gemini.FindMentors` with the application's model call. The handler contracts hold for any generator, so they also hold for those.
- Asynchrony. Each handler runs to completion in one step, so the intermediate LOADING status is set but never observed, and interleavings of two pending requests are not modelled.
- Letter case: `toLowerCase` is modelled on ASCII letters only. Unicode case mapping, which changes some non-ASCII letters and can change the length, is not modelled.
- Quest values are not checked. `correctIndex` and `points` are whatever the model returned, so points can go down when a quest carries negative points. No claim is made that points never decrease.
- KidsExplorer.Session.badges: the model keeps which catalogue badges are held, and `Badges` gives their records. The source keeps the records themselves. This is the same list, because every record it ever adds comes from the five-badge catalogue.
- KidsExplorer.InsertDesc: its own contract states only the length. That the insertion adds exactly one entry and keeps a sorted list sorted is stated by the lemmas `InsertDescPermutes` and `InsertDescSorted`. As `ensures` of the function, the multiset facts would be carried into every leaderboard proof and make them far more expensive.
- Strings: JavaScript strings are sequences of UTF-16 code units, while `string` here is a sequence of Unicode scalar values, so unpaired surrogates cannot be represented. No modelled operation depends on this, because the white space set and every keyword lie outside the surrogate range.
- The number type: JavaScript numbers are doubles, and points are modelled as unbounded integers. Rounding above 2^53 is not modelled.
- App.tsx and components/PathwaysGuide.tsx are not part of this model. `GeneratePathwayAdvice` is modelled only as a request layer generator.
