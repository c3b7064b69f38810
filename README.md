# Embedded-JSON extraction and review sentiment tally

This project models two pieces of sequential logic from the `practica-codi`
scripts of the DAM-M06-UF04-PR4.2 repository and proves properties of them.

- **`findJSON`** (practica-codi/src/exercici3.js). It pulls the largest JSON
  value out of free text, such as a language model's answer. Every `{` or `[`
  is tried as a start. From each start the text is scanned forward with:
  - a stack of expected closers;
  - a string-literal flag;
  - a backslash-escape flag.

  A closer that does not match the top of the stack abandons the start. The
  first point where the stack empties gives that start's one candidate span.
  The span goes to `JSON.parse`, and the scan of that start stops whether or
  not the parse succeeds. A parsed candidate replaces the best one only when
  it is strictly longer, so the earliest start wins a tie. Length is
  JavaScript's `.length`, which counts UTF-16 code units: a character outside
  the Basic Multilingual Plane, such as an emoji, counts two
  (`JsonExtract.Utf16Length`).
  `JsonExtract.FindJSON` keeps the outer loop and its two accumulators, and
  is proved equal to the functional specification `JsonExtract.LargestJSON`.
  Its body is the method `JsonExtract.TryStart`, proved to perform one step of
  that specification. The inner loop is the method `JsonExtract.ScanStart`,
  proved equal to the functional scan `JsonExtract.ScanFrom`. The lemmas
  characterise `LargestJSON`: longest parsed candidate, earliest on ties,
  always the parse of a balanced span, none without an opener, and the whole
  text when the text is one balanced value that parses.

- **The tally loop of `main`** (practica-codi/src/exercici2.js). It creates
  one statistics record per game, with the counters `positive`, `negative`,
  `neutral` and `error` at 0. It then walks the reviews in order:
  - A review whose `app_id` names no game is skipped, and the loop bound
    `iterations` grows by one, so the skip does not use up the budget of
    `MAX_REVIEWS` = 10.
  - Each analysed review's sentiment word adds one to exactly one counter of
    the record at index `appid - 1`.

  `SentimentTally.TallyReviews` keeps the loop, the mutated bound and the
  array of records. It is proved equal to `SentimentTally.TallySpec`. That
  specification tallies exactly `SentimentTally.Analysed`: the first
  `min(MAX_REVIEWS, #matched)` reviews that have a game, in order.
  - When an index `appid - 1` falls outside the array, the source reads
    `undefined.statistics`. The TypeError is caught by `main`'s outer `catch`
    and nothing is written. The model returns `None` in that case.
  - Indexing by `appid - 1` credits the reviews of id `k + 1` to the record at
    position `k`, whichever game sits there. `TallyCountsPerPosition` states
    that for any game list.
  - When ids are dense and 1-based (`DenseIds`), each record counts exactly
    its own game's reviews (`DenseTallyCountsPerGame`).

The files:
- `wrappers.dfy` holds the `Option` type.
- `json_extract.dfy` models `findJSON`.
- `json_examples.dfy` holds worked inputs for the extractor.
- `sentiment_tally.dfy` models the tally.

## Model

| member | source | states |
|---|---|---|
| JsonExtract.CloserOf | practica-codi/src/exercici3.js:187-188 | The pushed closer is always `}` or `]`, and it is `}` exactly when the opener is `{`. |
| JsonExtract.Advance | practica-codi/src/exercici3.js:192-215 | One character of the inner loop. Inside a string literal the stack never changes. The character after a backslash never ends the string. Only a closer outside a string ends the scan. It is a mismatch exactly when the closer differs from the stack's top, or the stack is empty. The scan is balanced exactly when the closer pops the last expected closer. The stack holds only closers and never becomes empty while the scan goes on. |
| JsonExtract.EscapedQuoteStaysInString | practica-codi/src/exercici3.js:195-203 | Inside a string, `\` followed by `"` leaves the scan in the string, in exactly the state it had before the backslash. |
| JsonExtract.Scan | practica-codi/src/exercici3.js:191-234 | The scan from position `j` ends in a balance or a mismatch at a closer at or after `j` and inside the text. At the end of the text it ends unterminated. |
| JsonExtract.Candidate | practica-codi/src/exercici3.js:179-218 | Only a `{` or `[` start has a candidate. A candidate is at least two characters long, fits in the rest of the text and ends with a closer. |
| JsonExtract.Consider | practica-codi/src/exercici3.js:217-230 | Offering a start's candidate either leaves the accumulators unchanged, or replaces them with that candidate and its parse. It does the second only when the candidate parses and is strictly longer in UTF-16 code units. A start whose candidate is missing or fails to parse changes nothing. A strictly longer parsed candidate always replaces the best. |
| JsonExtract.Utf16Width | practica-codi/src/exercici3.js:222 | A character takes one UTF-16 code unit, or two exactly when it lies outside the Basic Multilingual Plane. |
| JsonExtract.Utf16LengthBounds | practica-codi/src/exercici3.js:222 | A string's `.length` lies between its number of characters and twice that. |
| JsonExtract.Utf16LengthBmp | practica-codi/src/exercici3.js:222 | For text inside the Basic Multilingual Plane, `.length` is the number of characters. |
| JsonExtract.Utf16LengthAppend | practica-codi/src/exercici3.js:222 | The `.length` of a concatenation is the sum of the parts' lengths. |
| JsonExtract.Utf16LengthSplit | practica-codi/src/exercici3.js:222 | Cutting a string in three splits its `.length` among the pieces. |
| JsonExtract.BestUpToStep | practica-codi/src/exercici3.js:179-218 | One turn of the outer loop. A non-opener start, or one whose scan mismatches or runs off the end, changes nothing. |
| JsonExtract.BestUpToBalanced | practica-codi/src/exercici3.js:217-230 | One turn of the outer loop for a start whose scan balances at `end`. It offers `str[i..end+1]`, which is taken with its parse exactly when it parses and is strictly longer in UTF-16 code units than the best so far. |
| JsonExtract.BestUpToIsLongestEarliest | practica-codi/src/exercici3.js:179-235 | After the starts below `n`, the accumulators are empty exactly when no start parsed. Otherwise they hold the candidate and parse of the unique winning start: it is as long as any parsed candidate, and strictly longer than those of earlier starts, both in UTF-16 code units. |
| JsonExtract.LargestJSONIsLongestEarliest | practica-codi/src/exercici3.js:174-238 | The result is null exactly when no start yields a candidate that parses. Otherwise it is the parse of the longest parsed candidate in UTF-16 code units, the one of the smallest start among those of that length. |
| JsonExtract.NoOpenerNoJSON | practica-codi/src/exercici3.js:181 | A text with no `{` and no `[` gives null. |
| JsonExtract.ResultIsBalancedSpan | practica-codi/src/exercici3.js:217-221 | A non-null result is `parse(str[i..j+1])`, where `str[i]` is `{` or `[` and the scan from `i` first empties its stack at `j`. |
| JsonExtract.NoOpenerKeepsBest | practica-codi/src/exercici3.js:179-181 | A stretch of starts with no opener leaves the accumulators as they were. |
| JsonExtract.SpanShorter | practica-codi/src/exercici3.js:222 | A span that starts after the first character is shorter than the whole text. |
| JsonExtract.WholeTextWins | practica-codi/src/exercici3.js:179-225 | When the whole text is the candidate of the first start and parses, that start is the winner. |
| JsonExtract.WholeTextValue | practica-codi/src/exercici3.js:174-238 | A text that is exactly one balanced value starting with `{` or `[`, and parses, gives the parse of the whole text. |
| JsonExtract.WinnerIsUnique | practica-codi/src/exercici3.js:222-225 | Because of the strict `>`, at most one start can be the winner. |
| JsonExtract.ScanStart | practica-codi/src/exercici3.js:183-234 | The inner loop, with its stack and two flags, returns exactly the functional scan's outcome for the start. Its loop keeps the stack non-empty, so the `stack.length === 0` guard never fires. |
| JsonExtract.TryStart | practica-codi/src/exercici3.js:180-232 | One pass of the outer loop's body, with the scan, the parse and the strictly-longer test on `.length`, takes the accumulators for the starts below `i` to those for the starts below `i + 1`. |
| JsonExtract.FindJSON | practica-codi/src/exercici3.js:174-238 | The nested loops return exactly `LargestJSON`. |
| JsonExamples.BracketsInsideStringIgnored | practica-codi/src/exercici3.js:195-207 | A `[` and a `}` inside a string literal do not take part in the matching. |
| JsonExamples.EscapedQuoteInsideString | practica-codi/src/exercici3.js:196-200 | An escaped quote does not close the string, so the `}` after it is text. |
| JsonExamples.UnterminatedString | practica-codi/src/exercici3.js:191-234 | A string literal left open consumes the rest of the text, and the start records nothing. |
| JsonExamples.LongerWins | practica-codi/src/exercici3.js:222-225 | On `{} [0]`, with both spans parsing, the longer `[0]` is returned. |
| JsonExamples.TieGoesToFirst | practica-codi/src/exercici3.js:222-225 | On `{} []`, with both spans parsing, the first one is returned. |
| JsonExamples.TwoStarts | practica-codi/src/exercici3.js:179-237 | On a text with exactly two openers, both balanced and the first span parsing, the result is the second span's parse when it parses and is strictly longer, and the first span's otherwise. |
| JsonExamples.AstralCharacterCountsTwice | practica-codi/src/exercici3.js:222-225 | On `[0,0] ["😀"]`, with both spans parsing, `["😀"]` is returned: it has five characters but six UTF-16 code units, so it is longer than the five of `[0,0]`. |
| JsonExamples.MismatchThenLaterValue | practica-codi/src/exercici3.js:210-214 | On `{[} []` the first two starts are abandoned at the mismatched `}`, and the later `[]` is returned. |
| SentimentTally.Classify | practica-codi/src/exercici2.js:129-137 | The three exact words `positive`, `negative` and `neutral` go to their own counters. Any other word goes to `error`. |
| SentimentTally.FailedRequestCountsAsError | practica-codi/src/exercici2.js:66 | The `'error'` fallback of a failed request is counted as `error`. |
| SentimentTally.Bump | practica-codi/src/exercici2.js:130-136 | One counter grows by one and the other three stay as they were. |
| SentimentTally.BumpAddsOne | practica-codi/src/exercici2.js:130-136 | A bump adds exactly one to the record's total. |
| SentimentTally.FindGame | practica-codi/src/exercici2.js:122 | `games.find` gives none exactly when no game has the id. Otherwise it gives the first game with that id. |
| SentimentTally.Analysed | practica-codi/src/exercici2.js:116-120 | At most `MAX_REVIEWS` reviews are analysed, and no review index reaches `reviews.length`. |
| SentimentTally.MatchedUpToCharacterised | practica-codi/src/exercici2.js:117-127 | Among the first `n` reviews, the ones with a game are exactly those whose `app_id` some game has, listed in increasing order. |
| SentimentTally.MatchedUpToPrefix | practica-codi/src/exercici2.js:117-127 | The reviews with a game among the first `m` are a prefix of those among the first `n >= m`. |
| SentimentTally.AnalysedIsPrefix | practica-codi/src/exercici2.js:116-127 | The analysed reviews are a prefix of all the reviews with a game. |
| SentimentTally.AnalysedAreFirstMatched | practica-codi/src/exercici2.js:116-127 | Exactly `min(MAX_REVIEWS, #matched)` reviews are analysed, all of them with a game, in increasing order. |
| SentimentTally.SkippedOnlyWhenBudgetSpent | practica-codi/src/exercici2.js:116-127 | A review with a game is left out only when the whole budget is spent, and only if it comes after every analysed review. |
| SentimentTally.Record | practica-codi/src/exercici2.js:129-137 | Counting a review for id `appid` succeeds exactly when `1 <= appid <=` the number of records. Then the record at `appid - 1` gets one more in the bucket's counter and keeps its `appid` and `name`. Every other record is unchanged. |
| SentimentTally.RecordTotal | practica-codi/src/exercici2.js:129-137 | A successful count adds one to the table's total. |
| SentimentTally.ApplyKeepsEntries | practica-codi/src/exercici2.js:129-137 | Tallying keeps the number of records and every record's `appid` and `name`. |
| SentimentTally.ApplyTotals | practica-codi/src/exercici2.js:129-137 | Each tallied review adds exactly one to the counters summed over all records. |
| SentimentTally.ApplyCounts | practica-codi/src/exercici2.js:129-137 | When every id is in range, each counter of the record at `k` grows by the number of tallied reviews with id `k + 1` and a word of that counter's bucket. |
| SentimentTally.ApplyNoneExtends | practica-codi/src/exercici2.js:130 | Once a TypeError is thrown, tallying more reviews after it still ends in the throw. |
| SentimentTally.ApplyThrowsIff | practica-codi/src/exercici2.js:130 | Tallying throws exactly when one of the tallied reviews has an id outside 1 .. the number of records. |
| SentimentTally.TallyThrowsIff | practica-codi/src/exercici2.js:116-138 | The run throws exactly when an analysed review's id lies outside 1 .. the number of games. |
| SentimentTally.TallyTotals | practica-codi/src/exercici2.js:116-138 | At the end there is one record per game with its `appid` and `name`. The counters summed over all games equal the number of analysed reviews, which is at most `MAX_REVIEWS`. |
| SentimentTally.TallyCountsPerPosition | practica-codi/src/exercici2.js:130 | With every analysed id in range, the run does not throw. The record at position `k` counts the analysed reviews with id `k + 1`, bucket by bucket. |
| SentimentTally.DenseTallyCountsPerGame | practica-codi/src/exercici2.js:130 | When game ids are dense and 1-based, the run does not throw, and each game's counters count exactly its own analysed reviews, bucket by bucket. |
| SentimentTally.LoopEndAnalysed | practica-codi/src/exercici2.js:117-120 | Where the loop stops, because the reviews ran out or the budget is spent, the reviews seen so far that have a game are exactly the analysed ones. |
| SentimentTally.InitResults | practica-codi/src/exercici2.js:101-114 | A fresh array with one record per game, in the order of `games`, with its `appid` and `name` and all four counters at 0. |
| SentimentTally.Increment | practica-codi/src/exercici2.js:130-136 | `result.games[idx].statistics.<bucket>++` leaves the array as `Record` describes for id `idx + 1`. |
| SentimentTally.TallyReviews | practica-codi/src/exercici2.js:99-138 | The loop, with its mutated bound `iterations`, ends with exactly `TallySpec`: the records after tallying the analysed reviews, or none when the TypeError ends the run. |

## Left out

- `JSON.parse` (practica-codi/src/exercici3.js:221) is a library call. It is the parameter `parse`, and `None` stands for a thrown `SyntaxError`.
- Serialising a parsed value back to text is not modelled, because `findJSON` never does it. So there is no round trip from a parsed value back to its text.
- `queryOllama`, `analyzeSentiment`, `fetch` and their retries are network I/O. The sentiment words are an input sequence, indexed by review position.
- `analyzeSentiment`'s `.trim().toLowerCase()` is not modelled. Its result is taken as the given word.
- `readCSV` (a csv-parser stream), the environment-variable and file checks, the timestamp, `console` logging and the output file write are I/O and are not modelled.
- The `main` of exercici3.js, its prompt text, `getAllImages` and `imageToBase64` are not part of this model.
- xat-api/src/models/Sentiment.js is not part of this model. It is an ORM schema with no logic.
- SentimentTally.FindGame: CSV `appid` and `app_id` are strings compared with `===`, and `appid - 1` converts them to numbers. Both are modelled on `int`, so the model assumes canonical decimal numerals. For example, `"01"` and `"1"` differ under `===` but not here.
- SentimentTally.TallyReviews: a TypeError part-way leaves the partly updated array behind. Since `main` then writes nothing, the model returns `None` without the partial state.
- Three loop bodies are split into helper methods. The body of `findJSON`'s outer loop is `TryStart`, its inner loop is `ScanStart`, and the counter update of the tally loop is `Increment`. Branches, order and bounds are unchanged.
- JsonExtract.Utf16Length: a JavaScript string may hold a lone surrogate, which a Dafny `char` cannot represent. The model covers well-formed text only, where each character outside the Basic Multilingual Plane is one surrogate pair.
- The undeclared global `iterations` is a local here. Nothing else reads it.
