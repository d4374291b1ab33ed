# Quiz game core, modelled in Dafny

This project models the core of a Spanish-language quiz web application. A single player
picks a tier ("fácil", "medio", "difícil"), answers its five multiple-choice questions against
a clock, sees a results screen, and may appear on a leaderboard. In multiplayer rooms, players
join a room by a six-character code, and each correct answer earns points that fall linearly
with the time taken.

The modules follow the application's files:

| module | file | form |
|---|---|---|
| `QuizData` | `lib/quiz-data.ts` | the question bank as a constant, with the tier facts proved |
| `Scoring` | `lib/utils/scoring.ts` | `calculatePoints` as a function, with lemmas |
| `Game` | `app/game/page.tsx` | class `GameSession` over an answer array |
| `Results` | `app/results/page.tsx` | the counting loop as a method, plus pure percentage, colour and time text |
| `Rooms` | `lib/supabase/rooms.ts` | class `Database` holding the `game_rooms`, `room_participants` and `participant_answers` tables |
| `Queries` | `lib/supabase/queries.ts` | class `ResultsTable` and the pure leaderboard queries |

Four support modules are shared:

- `Wrappers` holds `Option` and `Result`.
- `Seqs` holds the table operations (WHERE, LIMIT, `.single()`, `.map`).
- `Text` holds the JavaScript string built-ins the code relies on.
- `JsMath` holds `Math.round` of a quotient.

Each database table is a sequence of rows. The store hands out row ids from a counter (`nextId`). A store clock (`clock`) supplies the `created_at` and `joined_at` defaults. The client's own clock (`new Date()`) is a parameter (`now`).

The class invariant `TablesConsistent` says:

- room ids and room codes are unique, and every code is six characters from `A-Z0-9`;
- every participant belongs to an existing room;
- join times increase along the table;
- names are unique within a room;
- no room holds more players than `max_players`.

Every state-changing operation is proved to keep this invariant.

Where the written code behaves in a way its comments do not suggest, the model follows the code:

- `updateRoomStatus` has no transition guard.
- `started_at` is stamped again on every `in_progress` update, because `updateData` never holds a `started_at` when it is tested.
- Nothing rejects a second answer to the same question, so crediting twice credits twice.
- The score update reads the score and then writes it back.
- The results colour uses the unrounded percentage. The shown percentage is rounded.
- Enter on the last question hands over the answers without writing the current slot.

## Model

| member | source | states |
|---|---|---|
| QuizData.Key | lib/quiz-data.ts:1 | the stored key of a tier is one of the three tier names |
| QuizData.KeyInjective | lib/quiz-data.ts:1 | different tiers have different keys |
| QuizData.Tier | lib/quiz-data.ts:14-186 | every tier holds exactly five questions, each with four options, a correct index in 0..3 and id i+1 at position i |
| QuizData.BankCoversEveryDifficulty | lib/quiz-data.ts:14-186 | the bank has an entry for each of the three tiers and for no other key |
| QuizData.TierIdsDistinct | lib/quiz-data.ts:14-186 | within a tier no two questions share an id |
| QuizData.TierIds | lib/quiz-data.ts:14-186 | the ids of every tier, in order, are 1, 2, 3, 4, 5 |
| QuizData.CorrectOptionExists | lib/quiz-data.ts:3-8 | every correct index names one of the question's four options |
| QuizData.Ids | lib/supabase/rooms.ts:66 | the question order has one id per question, position by position |
| Scoring.CalculatePoints | lib/utils/scoring.ts:7-20 | points lie in 0..1000, and are 0 once the answer time reaches the limit |
| Scoring.InstantAnswerEarnsAll | lib/utils/scoring.ts:13-16 | an answer at time 0 earns 1000 for any positive limit |
| Scoring.NegativeTimeClamped | lib/utils/scoring.ts:18-19 | a negative answer time is clamped to 1000 |
| Scoring.PointsAreRoundedLinear | lib/utils/scoring.ts:16 | below the limit, points are 1000·(1 − t/max) rounded half up |
| Scoring.PointsNonIncreasing | lib/utils/scoring.ts:7-20 | a slower answer never earns more points, for every limit |
| Scoring.DefaultLimitSamples | lib/utils/scoring.ts:13-16 | with the default limit of 30: 0 s → 1000, 5 s → 833, 15 s → 500, 30 s → 0 |
| JsMath.RoundDiv | lib/utils/scoring.ts:16 | `Math.round(num/den)` is the integer r with (2r−1)·den ≤ 2·num < (2r+1)·den |
| JsMath.RoundDivMonotone | app/results/page.tsx:85 | rounding a larger quotient never gives a smaller integer |
| JsMath.RoundDivExact | app/results/page.tsx:85 | an exact quotient rounds to itself |
| Text.ToUpper | lib/supabase/rooms.ts:96 | upper-casing keeps the length and maps each ASCII lower-case letter to its capital |
| Text.ToUpperIdempotent | lib/supabase/rooms.ts:96 | upper-casing twice is upper-casing once |
| Text.PadStart | app/results/page.tsx:51 | the padded text ends with the original and is padded with the fill character up to the width |
| Text.ParseInt | app/game/page.tsx:75 | for text without leading whitespace, sign or `0x` prefix, as the key names are: a number exactly when the text starts with a digit |
| Text.LeadingNonZeroValue | app/game/page.tsx:75 | digits not starting with 0 have a positive value, at least 10 when there are two or more |
| Text.DigitsValueOfNatToString | app/results/page.tsx:51 | reading back the decimal text of a number gives the number |
| Game.KeyOption | app/game/page.tsx:74-76 | a key selects an option index in 0..3 or nothing, and Enter selects nothing |
| Game.DigitKeysSelect | app/game/page.tsx:74-83 | the keys "1" to "4" select options 0 to 3 |
| Game.MultiDigitKeysSelectNothing | app/game/page.tsx:74-76 | any key name with two leading digits, such as "12", selects nothing: it may pass the string comparison, but parses to 10 or more |
| Game.GameSession.constructor | app/game/page.tsx:44-46 | the session starts on question 0 with no selection and one empty slot per question of the tier |
| Game.GameSession.ReloadSelection | app/game/page.tsx:62-66 | reloading puts the current slot into the selection, which the invariant shows it already held |
| Game.GameSession.Select | app/game/page.tsx:132-138 | choosing an option selects it and stores it in the current slot, with every other slot unchanged |
| Game.GameSession.Next | app/game/page.tsx:140-163 | without a selection nothing changes; otherwise the selection is stored, and the session advances with the selection cleared or, on the last question, finishes with all answers and the elapsed time |
| Game.GameSession.KeyPress | app/game/page.tsx:72-105 | a digit key selects as the radio buttons do; Enter advances like next, but on the last question it hands over the answers with the selection while the slots stay unwritten |
| Game.Start | app/game/page.tsx:27-47 | no session starts without a non-empty stored name and a difficulty; otherwise a fresh session on the stored tier |
| Results.CorrectUpTo | app/results/page.tsx:38-44 | the count over k questions is at most k |
| Results.CountCorrect | app/results/page.tsx:38-45 | the loop over the questions returns the number of answers equal to their question's correct index |
| Results.CorrectUpToIsSetSize | app/results/page.tsx:38-44 | the count is the size of the set of positions answered correctly |
| Results.HitSetStep | app/results/page.tsx:40-44 | one more question adds one to the set of correct positions exactly when it was answered correctly |
| Results.AllCorrectIff | app/results/page.tsx:38-44 | the count equals the number of questions iff every question was answered correctly |
| Results.TrailingAnswersIgnored | app/results/page.tsx:40-44 | answers beyond the last question do not change the count |
| Results.UnansweredCountsNothing | app/results/page.tsx:40-44 | with every answer missing the count is 0 |
| Results.Percentage | app/results/page.tsx:85 | 0 without questions; otherwise in 0..100, and 100 when all are correct |
| Results.RoundedShareBounds | app/results/page.tsx:85 | the rounded share of correct answers lies in 0..100 and is 100 for all correct |
| Results.PercentageBelowFullWhenAnyWrong | app/results/page.tsx:85 | with fewer than 200 questions, one wrong answer keeps the percentage below 100 |
| Results.PercentageRoundsUpToFull | app/results/page.tsx:85 | 199 correct of 200 is shown as 100 |
| Results.ColorOf | app/results/page.tsx:65-70 | green iff the share is at least 80 %, red iff it is below 60 % |
| Results.ColorMonotone | app/results/page.tsx:65-70 | more correct answers out of the same total never give a worse colour |
| Results.ColorMatchesShownPercentage | app/results/page.tsx:65-70 | for a five-question tier the colour agrees with the rounded percentage shown |
| Results.JsRem | app/results/page.tsx:50 | JavaScript `%` by 60 agrees with the mathematical remainder on non-negative times and stays strictly between −60 and 60 |
| Results.TwoDigits | app/results/page.tsx:51 | each field of the time text has at least two characters |
| Results.FormatTime | app/results/page.tsx:48-52 | the time text has at least five characters |
| Results.TwoDigitsValue | app/results/page.tsx:51 | a padded field is all digits and reads back as its number |
| Results.ParseTimeOfFields | app/results/page.tsx:48-52 | two non-empty digit fields joined by a colon read back as minutes·60 + seconds |
| Results.TimeText | app/results/page.tsx:51 | the template literal `mm:ss` has at least five characters |
| Results.TimeTextReadBack | app/results/page.tsx:48-52 | the padded fields q and r joined by a colon read back as q·60 + r |
| Results.FormatTimeRoundTrip | app/results/page.tsx:48-52 | for a non-negative time, reading the `mm:ss` text back gives the same number of seconds |
| Results.FormatTimeLength | app/results/page.tsx:48-52 | under 100 minutes the text is exactly five characters |
| Results.LoadResults | app/results/page.tsx:19-46 | nothing is computed when a stored value is missing; otherwise the summary holds the stored name, tier and time, the tier size, and the correct count |
| Rooms.AlphabetLayout | lib/supabase/rooms.ts:290 | the code alphabet is the 26 capitals followed by the 10 digits |
| Rooms.CodeOfRoundTrip | lib/supabase/rooms.ts:289-296 | every draw spells a well-formed room code, and the draw can be read back from it |
| Rooms.DrawOfRoundTrip | lib/supabase/rooms.ts:289-296 | every six-character `A-Z0-9` code can be drawn |
| Rooms.GenerateRoomCode | lib/supabase/rooms.ts:289-296 | the loop appends one alphabet character per draw, giving the code the draw spells |
| Rooms.FirstUnusedCode | lib/supabase/rooms.ts:45-61 | the first of the ten drawn codes no room holds; none only when all ten are in use |
| Rooms.Database.FindUnusedCode | lib/supabase/rooms.ts:41-57 | the attempt loop returns exactly that first unused code, or none |
| Rooms.Database.CreateGameRoom | lib/supabase/rooms.ts:34-85 | with no unused code the store is unchanged and the error is returned; otherwise one waiting room is appended with the next id, the first unused code, the question order and the language (Spanish unless given), and the invariant holds |
| Rooms.NewRoom | lib/supabase/rooms.ts:68-82 | the inserted room is waiting at question 0, unstarted, with the given settings and the ids of the shuffle as its order |
| Rooms.InsertRoomKeepsConsistency | lib/supabase/rooms.ts:68-82 | inserting a room with a fresh id and an unused code keeps the tables consistent, and the new room has no participants |
| Rooms.InsertRoomKeepsRooms | lib/supabase/rooms.ts:45-82 | room ids and codes stay unique after the insert |
| Rooms.QuestionOrderIsPermutation | lib/supabase/rooms.ts:63-66 | when the shuffle permutes the tier, the question order holds each of the ids 1..5 exactly once |
| Rooms.IdsOfPermutation | lib/supabase/rooms.ts:63-66 | permuting questions permutes their ids |
| Rooms.Database.RoomByCode | lib/supabase/rooms.ts:90-100 | finds a stored room whose code equals the upper-cased input, and none iff no room has that code |
| Rooms.CodeCaseInsensitive | lib/supabase/rooms.ts:96 | a code typed in lower case finds the same room |
| Rooms.Database.RoomById | lib/supabase/rooms.ts:105-115 | finds the stored room with that id, and none iff there is none |
| Rooms.WithStatus | lib/supabase/rooms.ts:120-133 | the status is set; the index is set only for `in_progress` with an index given; the start time is set on every `in_progress` update; nothing else in the row changes |
| Rooms.Database.UpdateRoomStatus | lib/supabase/rooms.ts:120-143 | a missing room gives an error and no change; otherwise only that room is rewritten, by `WithStatus`, and the invariant holds |
| Rooms.StatusUpdateKeepsConsistency | lib/supabase/rooms.ts:120-143 | a status update keeps the tables consistent |
| Rooms.SameRoomKeysKeepConsistency | lib/supabase/rooms.ts:120-143 | rewriting rooms without touching id, code or capacity keeps the tables consistent |
| Rooms.StatusMayGoBack | lib/supabase/rooms.ts:120-133 | with no transition guard, a finished room can be put back in progress at question 0 |
| Rooms.JoinCheck | lib/supabase/rooms.ts:153-184 | the join is refused as "room not found" exactly when no room has that id |
| Rooms.JoinCheckOrder | lib/supabase/rooms.ts:153-184 | the checks come in order: already started, then full (count ≥ max), then name taken |
| Rooms.Database.AddParticipant | lib/supabase/rooms.ts:148-201 | a refused join returns the first failing check and changes nothing; otherwise one participant with score 0, the next id and the store time is appended, and the invariant holds |
| Rooms.JoinKeepsConsistency | lib/supabase/rooms.ts:148-201 | a join that passes every check keeps the tables consistent |
| Rooms.JoinKeepsCapacity | lib/supabase/rooms.ts:164-172 | the capacity check keeps every room within `max_players` |
| Rooms.JoinKeepsNamesUnique | lib/supabase/rooms.ts:174-184 | the name check keeps names unique within a room |
| Rooms.JoinKeepsOrder | lib/supabase/rooms.ts:186-198 | the new row gets a fresh id and the latest join time |
| Rooms.MembersAppend | lib/supabase/rooms.ts:206-213 | a new row joins its room's list at the end and leaves other rooms' lists alone |
| Rooms.MembersInJoinOrder | lib/supabase/rooms.ts:206-216 | the rows of one room, taken in table order, have increasing join times |
| Rooms.Database.RoomParticipants | lib/supabase/rooms.ts:206-216 | the result holds exactly the participants of that room, in order of joining |
| Rooms.PendingAnswerEffect | lib/supabase/rooms.ts:221-237 | setting an answer changes only that participant's answer and answer time |
| Rooms.Database.UpdateParticipantAnswer | lib/supabase/rooms.ts:221-237 | the participant gets the answer and time; a missing participant gives an error; the invariant holds |
| Rooms.SameRosterKeepsConsistency | lib/supabase/rooms.ts:221-281 | updating answers and scores, with id, room, name and join time untouched, keeps the tables consistent |
| Rooms.CreditScoreEffect | lib/supabase/rooms.ts:266-281 | the credit raises that participant's score by exactly the points and changes no one else |
| Rooms.CreditTwice | lib/supabase/rooms.ts:266-281 | with no duplicate check, crediting the same answer twice adds the points twice |
| Rooms.Database.CreditParticipant | lib/supabase/rooms.ts:266-281 | the score is read and written back raised by the points; a missing participant changes nothing |
| Rooms.Database.SaveParticipantAnswer | lib/supabase/rooms.ts:242-284 | the answer row is always appended; the score is credited only for a correct answer |
| Queries.Insert | lib/supabase/queries.ts:27-28 | inserting into a list in leaderboard order keeps it in that order and adds exactly the one row |
| Queries.HeadRanksBeforeInserted | lib/supabase/queries.ts:27-28 | a head that the new row does not beat ranks before every row of the tail with the new row inserted |
| Queries.SortByRank | lib/supabase/queries.ts:27-28 | the rows come out in leaderboard order (percentage descending, then time ascending) and are a permutation of the input |
| Queries.TopRows | lib/supabase/queries.ts:27-29 | the first n sorted rows are rows of the input, in order, min(n, size) of them |
| Queries.TierRows | lib/supabase/queries.ts:31-33 | exactly the rows of the requested tier, and every row when no tier is given |
| Queries.PlayerRows | lib/supabase/queries.ts:55 | exactly the rows with the player's name |
| Queries.LeaderboardRows | lib/supabase/queries.ts:20-44 | min(limit, size of tier) rows, all of the tier, in leaderboard order |
| Queries.GetLeaderboard | lib/supabase/queries.ts:20-44 | min(limit, size of tier) rows of the requested tier, best first, ranked 1, 2, 3, …: exactly the leaderboard rows, in order |
| Queries.PlayerBestRows | lib/supabase/queries.ts:49-61 | min(10, number of the player's rows) of the player's own rows, in leaderboard order |
| Queries.GetPlayerBestScores | lib/supabase/queries.ts:49-61 | at most ten of the player's own rows, best first, unranked: exactly the player's best rows, in order |
| Queries.PlayerBestIsTop | lib/supabase/queries.ts:49-61 | a row of the player's left off ranks no better than any row shown; with ten rows or fewer, none is left off |
| Queries.PlayerBestIsSubMultiset | lib/supabase/queries.ts:49-61 | the best scores show no row more often than the table holds it |
| Queries.TakeRanksBeforeRest | lib/supabase/queries.ts:27-29 | every row kept by the limit ranks before every row cut by it |
| Queries.TopRowsAreBest | lib/supabase/queries.ts:27-29 | a row left off by the limit ranks no better than any row kept; with no more rows than the limit, none is left off |
| Queries.TopRowsSubMultiset | lib/supabase/queries.ts:27-29 | the rows kept by the limit are a sub-multiset of the input |
| Queries.LeaderboardIsTop | lib/supabase/queries.ts:20-44 | a row of the tier left off the board ranks no better than any row shown; with no more rows than the limit, none is left off |
| Queries.LeaderboardIsSubMultiset | lib/supabase/queries.ts:20-44 | the board shows no row more often than the table holds it |
| Queries.AllTiersLeaderboard | lib/supabase/queries.ts:31-33 | with no tier given, the board draws on every row |
| Queries.ResultsTable.SaveQuizResult | lib/supabase/queries.ts:7-15 | the result is appended to the table and returned as stored |
| Queries.ResultsTable.Leaderboard | lib/supabase/queries.ts:20-29 | the board over the saved results has at most `limit` rows and no more than were saved |
| Queries.BestSavedResultLeads | lib/supabase/queries.ts:7-44 | a newly saved result that beats every other result of its tier is first on that tier's board |

## Left out

- Network and database I/O are not modelled. That covers the Supabase client, its error objects, and concurrency between clients. As a result, the read-then-write of the score is modelled as one atomic step, so lost updates between two clients are not captured.
- Each error reply is modelled as a `RoomError` value; the Spanish error messages are left out.
- `.single()` is modelled as "the first matching row". With two or more matching rows the real call returns no data. The invariant shows that codes, ids and names within a room are never duplicated, so that case does not arise here.
- Rows that tie on both sort keys are ordered stably in the model. The database may order them either way. The properties proved about the leaderboard (ordered, drawn from the tier, top rows, limited) hold for either order.
- The builder calls `.limit` before `.eq` in `getLeaderboard`. The database applies the filter before the limit whatever the call order, and the model does the same.
- `Math.random` is not modelled. Each code takes six indices into the alphabet as input, and `createGameRoom` takes ten such draws.
- `shuffleQuestions` is not part of this model. `createGameRoom` takes the shuffled questions as input, and `QuestionOrderIsPermutation` assumes they are a permutation of the tier.
- The row ids, and the `created_at` timestamp of `quiz_results`, are generated by the database. The model leaves them out of `QuizResult`.
- The store's own clock ticks once per insert. Real timestamps are not modelled.
- `calculatePointsExponential` is not modelled; no core caller uses it.
- Scoring.CalculatePoints: takes whole seconds (`int`) rather than JavaScript floating-point numbers. The only caller passes `Math.floor`-ed seconds. A limit of 0 or below follows JavaScript's division by zero and negative quotients.
- Scoring.PointsAreRoundedLinear: rounds the exact rational value of 1000·(1 − t/max). The source rounds the double it computes, which lies just below a half for some limits other than 30, e.g. `calculatePoints(49, 80)` gives 387 where the model gives 388. At the limit of 30 that every caller passes, the two agree on whole seconds.
- Results.Percentage: models `Math.round` of the exact rational quotient. The floating-point rounding of `correct / total * 100` before `Math.round` is not modelled.
- Results.ColorOf: the `NaN`/`Infinity` outcome for zero questions is stated as a case. Floating-point comparison is not modelled.
- Results.LoadResults: takes the stored values already parsed. The `JSON.parse` of the answers and the `parseInt` of the time are not modelled, so an empty or non-numeric stored time is not distinguished from a number.
- Game.Start and Results.LoadResults take the stored difficulty as a `Difficulty`. A stored string that is not one of the three keys, which makes the page fail on `quizData[...]`, is not modelled.
- The timer is not modelled. `setInterval`, `Date.now()` and the elapsed-seconds count are left out, and the elapsed time is an input to `Next` and `KeyPress`.
- Rendering, toasts, routing and the `localStorage` writes are not modelled. `Finished` carries what is written.
- React's asynchronous state batching is not modelled. Each handler is modelled as applying its updates at once, to the state of the render it closes over.
- Text.ToUpper: upper-cases ASCII letters only. JavaScript's `toUpperCase` also maps some other characters into `A-Z` (`ı` to `I`, `ſ` to `S`, `ß` to `SS`, `ﬁ` to `FI`), so a typed code such as `ıABCDE` finds room `IABCDE` in the application but no room in the model.
- Text.ParseInt: models `parseInt` only for the key names it is applied to. JavaScript's `parseInt` also skips leading whitespace, accepts a sign, and reads a `0x` prefix as hexadecimal (`parseInt(" 5")` is 5, `parseInt("-5")` is −5, `parseInt("0x1A")` is 26), where the model gives no number, no number and 0.
- The avatar URL is stored as given; how avatars are chosen is not modelled.
- `getLeaderboard`'s `limit` is a natural number; negative limits are not modelled.
