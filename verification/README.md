# Capitals and flags quiz — a Dafny model of its game logic

The quiz loads the country records of a public REST API. It keeps the
countries of three American subregions (Northern America, Central America
and South America) and of Northern Europe that have a usable name, flag
and capital, and builds a pool from them. Records of any other subregion,
the Caribbean included, are dropped. It then asks random questions: either
"what is the capital of X?" or "which country has this flag?". Each
question has four distinct options and one of them is right. Clicks are
scored into a set of correctly answered and a set of wrongly answered
questions. The game ends when the two sets together hold ten answers, or
when 512 questions have been shown.

This project models that logic (`logica.js`) as pure Dafny functions over
immutable values:

- `Catalog` (catalog.dfy): the two record filters, their concatenation,
  and the projection to `{name, flag, capital}`.
- `Questions` (questions.dfy): `getRandomQuestion`,
  `generateCapitalQuestion` / `generateFlagQuestion`, the option-collecting
  loop of `getRandomOptions`, and `getRandomOption`.
- `Shuffling` (shuffling.dfy): `shuffleArray`, the Fisher–Yates shuffle.
  It is given twice, as a recursive function and as the in-place array
  loop of the source, and the two are proved equal.
- `Session` (session.dfy): the global state (`countries`,
  `currentQuestionNumber`, `currentQuestionData`, the two answer sets,
  `gameEnded`) and the transitions `startNewGame`, `nextQuestion`,
  `checkAnswer` and `endGame`.
- Helpers: `Outcomes` (result and option types), `Randomness` (the random
  stream), `Text` (`includes`, ASCII lower-casing) and `Sequences`
  (distinctness, swapping, cardinality facts).

Randomness is an input. A `Stream` is the finite sequence of values that
successive `Math.random()` calls return, each in `[0, 1)`.
`Math.floor(x * n)` is `Randomness.ScaledIndex`. Every operation that
draws returns the unused rest of the stream. If the stream runs out, the
result is `Err(RandomnessExhausted)`. For the unbounded option loop, this
stands for "has not finished yet", so every property of a completed run is
a partial-correctness property.

When the pool is empty, the source indexes `countries[0]` of an empty
array and reads a field of `undefined`. The resulting `TypeError` lands in
the `.catch` of `startNewGame`. The model returns `Err(EmptyPool)` instead.

Some behaviours of the code differ from what a player might expect. The model follows the code in each case:

- `startNewGame` resets only the question counter and the current
  question. The answer sets and the end flag are not cleared.
- `nextQuestion` has no end-of-game check. The call that `checkAnswer`
  schedules runs even after the click that ended the game, and it still
  shows and counts a new question (`Session.EndingClickStillAdvances`).
- The sets store the correct answer, not the clicked text. The same answer
  can therefore sit in both sets (`Session.AnswerInBothSets`). A repeated
  question adds nothing to the tally only when it lands in the same set as
  before. Answered right once and wrong once, it counts twice.
- Capital questions also carry the country's flag.

## Model

| member | source | states |
|---|---|---|
| Catalog.Select | logica.js:12-26 | One group's filter keeps exactly the records that have a name, a vector flag, a first capital, a raster flag URL that contains the fixed flag host path anywhere, and a subregion of that group; it never keeps more than it is given |
| Catalog.SelectAppend | logica.js:12-26 | Filtering distributes over concatenation, so it keeps the records in their source order |
| Catalog.SelectionsFit | logica.js:12-26 | The two filters together keep no more records than the input holds (no record passes both) |
| Catalog.BuildPool | logica.js:12-32 | The pool is the projected Americas records followed by the projected Northern Europe records, and every entry has a non-empty name, flag and capital |
| Catalog.PoolMembership | logica.js:12-32 | A country is in the pool iff some record that passes one of the filters projects to it |
| Catalog.PoolFitsData | logica.js:12-32 | The pool is never longer than the fetched data |
| Catalog.EmptyPoolIff | logica.js:12-32 | The pool is empty exactly when no record passes either filter |
| Catalog.AmericasEntry | logica.js:28-32 | The k-th record the Americas filter keeps is the pool's k-th entry |
| Catalog.EuropeEntry | logica.js:28-32 | The k-th record the Northern Europe filter keeps sits right after all Americas entries, at their count plus k |
| Catalog.SelectKeepsOrder | logica.js:12-26 | Of two qualifying records, the earlier in the data is earlier in the filter's result |
| Catalog.AmericasBeforeEurope | logica.js:28 | Every Americas entry precedes every Northern Europe entry in the pool |
| Catalog.SourceOrderWithinGroup | logica.js:12-32 | Within one group the pool keeps the order of the fetched data |
| Text.IncludesIff | logica.js:16 | `includes` holds exactly when the pattern occurs at some position of the string |
| Randomness.ScaledIndex | logica.js:44 | `Math.floor(Math.random() * n)` is a valid index whenever n > 0, and 0 for an empty collection |
| Questions.RandomOption | logica.js:79-82 | With a random value available, a non-empty pool always yields an option, an empty pool is an error; the option is the asked-for field of some pool entry and one random value is consumed |
| Questions.CollectOptions | logica.js:69-75 | The loop keeps the options distinct, starting with the correct answer and at most four long; on exit there are exactly four, the list extends the one it started from, and every option is the correct answer or a pool value |
| Questions.RandomOptions | logica.js:68-77 | The returned options are four distinct values that include the correct answer, and each comes from the pool or is the correct answer |
| Questions.GenerateQuestion | logica.js:50-66 | A question's correct answer is the country's capital or name according to its kind, its prompt names the country only for capital questions, and it carries the country's flag for both kinds |
| Questions.RandomQuestion | logica.js:43-48 | The question is about the pool entry that `Math.floor` of the first random value times the pool size picks, is a capital question exactly when the second random value is below one half, has well-formed options drawn from the pool, and fails on an empty pool |
| Questions.TooFewValuesNeverComplete | logica.js:69-75 | With fewer than four distinct reachable values the option loop never completes, whatever random values it is given |
| Questions.OptionsExhaustFourValues | logica.js:68-77 | With exactly four distinct values available, a completed question offers all four |
| Questions.CanadaCapitalExample | logica.js:50-57 | On a four-country pool, a capital question about Canada has "Ottawa" as its answer and offers exactly the four capitals |
| Questions.CanadaQuestionGenerated | logica.js:50-90 | A question is actually produced: on the example pool, given values for three new capitals and three swaps, `generateCapitalQuestion` returns the Canada question with options Lima, Stockholm, Brasilia, Ottawa |
| Questions.CanadaQuestionDrawn | logica.js:43-48 | `getRandomQuestion` on the example pool picks Canada and a capital question from the first two values and returns that question, using every value |
| Sequences.SwapPermutes | logica.js:87 | The destructuring swap exchanges the two positions, leaves the others alone, and keeps the multiset and distinctness |
| Shuffling.SwapPartner | logica.js:86 | The swap partner j lies in [0, i] |
| Shuffling.ShuffleDownPermutes | logica.js:85-88 | The loop from i down to 1 finishes exactly when i random values are available, consumes exactly those, and yields a permutation that keeps distinctness |
| Shuffling.Shuffle | logica.js:84-90 | The shuffle returns a permutation of its input of the same length, keeps distinctness, and uses one random value per position after the first |
| Shuffling.ShuffleArray | logica.js:84-90 | The in-place array loop computes exactly the functional shuffle, so its output is a permutation of the input |
| Session.EndGame | logica.js:194-209 | Ending leaves the game ended with the tallies, pool and question untouched; a first end shows the two set sizes; ending an ended game changes nothing |
| Session.EndGameIdempotent | logica.js:194-197 | Ending twice is ending once |
| Session.NextQuestion | logica.js:119-143 | Below 512 questions a new well-formed question about a pool entry is shown and the counter grows by one, whether or not the game has ended; at 512 the game ends; the tallies never change |
| Session.CheckAnswer | logica.js:149-192 | A click on an ended game is ignored; otherwise the correct answer goes into the correct set iff the choice equals it ignoring case, and into the incorrect set otherwise; the tally grows by at most one; the game ends exactly when the tally reaches ten, and then the shown summary holds the final set sizes, while a game that goes on keeps its summary unchanged; the next question is always scheduled |
| Session.InsertAtMostOne | logica.js:163 | Adding an answer to a set grows it by at most one |
| Session.Round | logica.js:187-191 | A click followed by its scheduled `nextQuestion` keeps the invariant: tally at most ten and below ten while running, counter at most 512, summary shown iff ended; the tallies only grow, by at most one |
| Session.Play | logica.js:145-192 | Over any sequence of clicks the invariant holds, the sets only grow, the tally grows by at most one per click, and nothing changes after the end |
| Session.StartNewGame | logica.js:6-34 | Starting builds the pool from the data, resets only the counter and the current question, and shows question number 1; with no admissible record it fails |
| Session.LoadedStartKeepsInv | logica.js:145-147 | The first question after the script loads satisfies the invariant |
| Session.RepeatedAnswerKeepsTallies | logica.js:162-169 | Scoring the same choice twice leaves the sets as a single scoring did |
| Session.EndedIsFinal | logica.js:150-152 | After the end, any further clicks leave the state and the stream unchanged |
| Session.EndingClickStillAdvances | logica.js:187-191 | The click that makes the tally ten ends the game, and the scheduled `nextQuestion` still counts a new question |
| Session.LastQuestionEndsGame | logica.js:120-142 | At 512 questions `nextQuestion` ends the game and shows the current set sizes |
| Session.CaseInsensitiveMatch | logica.js:154-157 | "oslo" matches "Oslo" |
| Session.CorrectOptionScoresCorrect | logica.js:154-163 | Clicking the option whose text is the correct answer always adds it to the correct set and leaves the incorrect set alone |
| Session.AnswerInBothSets | logica.js:119-169 | On a reachable run, the first question asks for Canada's capital, clicking "Ottawa" scores it correct, the scheduled `nextQuestion` asks the same question again, and clicking "Lima" then puts "Ottawa" into the incorrect set as well, so the tally grows from one to two |

## Left out

- Fetching and JSON parsing (`fetch`, `response.json()`): the fetched records are a parameter of `Session.StartNewGame`. The `.catch` handler only logs, so it is modelled as the `Err` result.
- The DOM: question text, button labels, colours, visibility, disabling buttons and the flag image. Only the state the script keeps is modelled. The prompt is kept as the country it names, without its Spanish wording.
- `showQuestion` registers a new click listener on every question and never removes the old ones (`removeEventListener` is given a different function). The model treats one click as one `CheckAnswer` followed by one `nextQuestion`. In the source, a click on a button with n listeners runs `checkAnswer` n times. While the game runs, each of those calls schedules a `nextQuestion`, and each of those adds one more listener. So the question counter doubles with every click (1, 2, 4, …) and reaches 512 after the ninth click. The tenth click always ends the game: either the tally reaches ten, or the scheduled `nextQuestion` calls meet the 512 limit and call `endGame`. `Session.RepeatedAnswerKeepsTallies` covers only the repeated scoring. The effect on the counter and on when the game ends is not modelled.
- `setTimeout(nextQuestion, 200)`: the delay is dropped. The scheduled call runs right after the click (`Session.Round`), so clicks that would land within the 200 ms are not interleaved.
- `Math.random()`: its values are an input stream, so nothing is said about uniformity or distributions. Reals are exact, so floating-point rounding in `Math.random() * n` is not modelled.
- Questions.CollectOptions: the source loop may run forever. The model bounds it by the random values supplied and returns `RandomnessExhausted` when they run out. Its contract is a partial-correctness statement about runs that finish.
- Text.ToLower: lowers only ASCII `A`–`Z`. `toLowerCase` follows full Unicode case mapping, which the model does not cover.
- Catalog.RawCountry: a missing leaf field (`name.common`, `flags.svg`, `flags.png`, `subregion`, or the `capital` list) is modelled as an empty string or an empty list. For these leaf tests, JavaScript truthiness gives the same result on `undefined` as on `""`. A record that lacks the `name` or `flags` object itself is a different case. There, `country.name.common` or `country.flags.svg` throws inside `data.filter`, the whole `.then` handler aborts into `.catch`, and no pool is built. The model assumes every record has both objects, so it filters such a record out instead of failing.
- The script's top-level call `startNewGame()` is the `Session.Loaded` state followed by `Session.StartNewGame`.
