# A model of the `generate` question-sampling tool

The server exposes an MCP tool `generate(filename?, count?)`. It reads a JSON
file of question records from the storage bucket bound as `DATASET`. It picks
up to `count` of those records (never more than the file holds, and a
fractional count rounds up) at random without replacement and returns one
text item per picked record. The text is the record's `question` when that is
truthy; otherwise it is the record converted with `String`.

A failure gives a response with exactly one error item. The handler checks, in
this order:

1. the bucket is bound;
2. the file exists;
3. its text parses as JSON;
4. the parsed value is an array.

Anything thrown after that, or while fetching, lands in the outer `catch`.

The project has five modules:

- `Wrappers`: the `Option` and `Result` types.
- `JsValue`: the JSON values `JSON.parse` produces. It also gives JavaScript
  truthiness and the `String(value)` conversion, with the case where that
  conversion throws.
- `Sampler`: the sampling loop, as the method `Sample`, over a sequence of
  available indices that shrinks by one `splice` per pass. The loop is proved
  against the specification functions `Run`, `Chosen` and `Selection`. These
  functions carry the sampling properties:
  - no index is picked twice;
  - the picks and the leftovers partition `[0, N)`;
  - the selection is a sub-multiset of the dataset;
  - the selection is a permutation of the dataset when `count >= N`.
- `Formatter`: the `item.question || String(item)` mapping, and the fact that one
  throwing record ends the whole `map`.
- `Handler`: the argument defaults, the validation chain and its error
  precedence, the outer `catch`, and the method `Generate`, which is proved equal
  to the response function `Respond`.

The environment's effects become parameters:

- the bucket binding is an `Option<Bucket>`, where a bucket maps each key to
  `Missing`, `Stored(text)` or `Rejected(message)`;
- `JSON.parse` is a function from text to `Parsed(value)` or
  `SyntaxError(message)`;
- `Math.random` is a stream `rng: nat -> UnitReal`, whose `i`-th value is the draw
  of the `i`-th pass. `UnitReal` is the reals in `[0, 1)`.

What the code does not do:

- It does not shuffle the records in place. Each pass removes a random entry from a list of the
  remaining indices (`splice`) and takes the record at that index.
- It does not isolate a failure to one record. A `null` record, or a record
  whose `String` conversion throws, makes the whole response a single
  generation-failed error.
- It has no fallback that returns the first `count` records.
- Its outer `catch` does not answer with a fixed text. The message carries the
  thrown error's message.

`count` is any JavaScript number, not only an integer. The loop runs while
`i < Math.min(count, N)`, so a fractional count `c` with `0 < c < N` selects
`floor(c) + 1` records (`QuotaOfFractionalCount`).

## Model

| member | source | states |
|---|---|---|
| `Handler.FilenameOf` | src/index.ts:34 | defines the effective filename: the one passed, else "CCPH_subject.json" |
| `Handler.CountOf` | src/index.ts:35 | defines the effective count: the one passed, else 30 |
| `Handler.Records` | src/index.ts:40-80 | defines the check chain: bucket bound, then file present and readable, then the text parses, then it is an array; the first failure wins, and success yields the array's records |
| `Handler.Respond` | src/index.ts:37-111 | defines the whole response: the check chain's single error item, else the sampled records formatted one text item each, or the single generation-failed error when formatting throws |
| `Handler.DefaultsApply` | src/index.ts:34-35 | an absent `filename` means "CCPH_subject.json" and an absent `count` means 30, so omitting both is the same request as passing the defaults |
| `Handler.StoreCheckedFirst` | src/index.ts:40-47 | with no bound bucket the response is the one store-not-configured error, whatever the arguments, file or random draws |
| `Handler.RecordsIff` | src/index.ts:40-80 | the checks pass iff the bucket is bound, holds the file, the text parses and the value is an array; the records are then that array's elements |
| `Handler.MissingFileNamed` | src/index.ts:49-59 | with a bound bucket, a filename the bucket does not hold gives the single not-found error naming that filename |
| `Handler.RejectedFetchFails` | src/index.ts:50-61 | a rejected `get` or `text()` gives the single generation-failed error carrying the rejection's message, through the outer `catch` at lines 103-111 |
| `Handler.UnparsableFileNamed` | src/index.ts:63-79 | a file whose text fails `JSON.parse` gives the single parse error naming the file and carrying the parser's message |
| `Handler.NonArrayFileNamed` | src/index.ts:63-72 | a file that parses to a non-array gives the single not-an-array error naming the file |
| `Handler.ErrorsStandAlone` | src/index.ts:37-111 | every response is either exactly one error item or text items only; errors and texts never mix |
| `Handler.TextsMeanChecksPassed` | src/index.ts:40-102 | a response without error items implies every check passed, and then it has `Quota(count, N)` items |
| `Handler.SuccessShape` | src/index.ts:82-102 | a successful response has `Quota(count, N)` items; item `j` is the text of the record at the `j`-th chosen index; no index is chosen twice |
| `Handler.EmptyArrayGivesNoItems` | src/index.ts:82-102 | a file holding `[]` gives an empty `content`, not an error |
| `Handler.NullRecordFailsFullRequest` | src/index.ts:95-111 | when every record is selected, one `null` record makes the response a single generation-failed error, whatever the draws |
| `Handler.QuestionDatasetGivesQuestions` | src/index.ts:95-102 | when every record has a non-empty `question` string, the response is those strings of the selected records, in selection order |
| `Handler.Generate` | src/index.ts:37-111 | the handler's response equals `Respond`: the checks in order, then sampling, then formatting, with a throw during formatting turned into a generation-failed error |
| `Sampler.Limit` | src/index.ts:83 | `Math.min(count, N)`: not above either argument, and equal to one of them |
| `Sampler.Quota` | src/index.ts:83-88 | the number of passes is at most `N` and is the least natural number not below `Math.min(count, N)` |
| `Sampler.QuotaOfWholeCount` | src/index.ts:83 | a whole count selects that many records, clamped to `[0, N]` |
| `Sampler.QuotaOfFractionalCount` | src/index.ts:83-88 | a fractional count `c` with `0 < c < N` gives `floor(c) + 1` passes |
| `Sampler.Indices` | src/index.ts:85 | the starting list is `0, 1, …, N-1`: exactly the integers in `[0, N)`, without repeats |
| `Sampler.DrawIndex` | src/index.ts:89 | `Math.floor(r * len)` with `0 <= r < 1` is a valid position in a list of length `len > 0` |
| `Sampler.Splice` | src/index.ts:90 | defines `splice(k, 1)`'s effect on the list: the entry at `k` is removed, and the result is one shorter |
| `Sampler.SpliceRemovesOne` | src/index.ts:90 | `splice(k, 1)` leaves the list minus exactly the entry at `k`, as multisets |
| `Sampler.SpliceKeepsDistinct` | src/index.ts:90 | splicing a list without repeats leaves a list without repeats, holding every entry except the removed one |
| `Sampler.Step` | src/index.ts:89-91 | defines one pass: draw a position, splice that entry out of the available indices and append it to the chosen ones; one fewer available, one more chosen |
| `Sampler.Run` | src/index.ts:88-92 | defines the loop state after a number of passes, pass `i` using the `i`-th draw; after `p` passes, `p` indices are chosen and `N - p` remain |
| `Sampler.RunPartition` | src/index.ts:88-92 | after any number of passes, the remaining and the chosen indices together are a permutation of the starting list |
| `Sampler.RunDistinct` | src/index.ts:88-92 | from a list without repeats no index is chosen twice, and a chosen index never stays available |
| `Sampler.Chosen` | src/index.ts:83-92 | the chosen original indices are `Quota(count, N)` distinct indices below `N` |
| `Sampler.ChosenPartitionsIndices` | src/index.ts:85-92 | the chosen indices and the indices left at the end are a permutation of `[0, N)` |
| `Sampler.Selection` | src/index.ts:82-92 | defines `selectedQuestions`: the records at the chosen indices in selection order, `Quota(count, N)` of them |
| `Sampler.SelectionFromDistinctIndices` | src/index.ts:88-92 | selected record `j` is the dataset record at the `j`-th chosen index, and the chosen indices are distinct |
| `Sampler.RunKeepsRecords` | src/index.ts:85-92 | the records at the remaining indices and the selected records together are a permutation of the dataset |
| `Sampler.SelectionWithinDataset` | src/index.ts:88-92 | no record is selected more often than it occurs in the dataset |
| `Sampler.SelectionOfAllIsPermutation` | src/index.ts:83-92 | when `count >= N` every record is returned exactly once, in some order |
| `Sampler.PassKeepsLoopState` | src/index.ts:89-91 | one pass keeps the loop invariant: the two lists are the state `Run` gives after that many passes, every index is in range, and the selection holds the record at each chosen index, in order |
| `Sampler.Sample` | src/index.ts:82-92 | the loop's `selectedQuestions` is exactly `Selection(all, count, rng)` |
| `Formatter.Format` | src/index.ts:95-98 | when formatting succeeds it yields one text per selected record |
| `Formatter.FormatIsPointwise` | src/index.ts:95-98 | formatting succeeds iff every record formats; text `j` is then record `j`'s text, in order |
| `Formatter.FormatStopsAtFirstFailure` | src/index.ts:95-98 | a failed formatting reports the exception of the first record that throws; every record before it formats |
| `Formatter.NullRecordAbortsBatch` | src/index.ts:95-98 | one `null` record makes the whole formatting fail |
| `Formatter.QuestionOf` | src/index.ts:97 | defines `item.question`: the value of an object's `question` key; `undefined` for an object without that key and for any other non-null value; a throw on `null` |
| `Formatter.TextOf` | src/index.ts:97 | defines the text of one item: the question when truthy, else the record's `String` conversion, propagating either throw |
| `Formatter.TextChoice` | src/index.ts:97 | a record's text is its truthy `question`, else its `String` conversion; it throws only on `null` or on a record whose conversion throws |
| `Formatter.QuestionRecordsFormat` | src/index.ts:95-98 | records carrying non-empty `question` strings format to exactly those strings |
| `JsValue.Truthy` | src/index.ts:97 | defines the truthiness the logical-or operator tests: `null`, `false`, `0` and `""` are falsy, every array and object truthy |
| `JsValue.Render` | src/index.ts:97 | defines `String(v)`: the JSON literals and numbers as text, strings as themselves, arrays through `join`, objects as "[object Object]" unless an own `toString` key makes it throw |
| `JsValue.JoinFrom` | src/index.ts:97 | defines the array `join(",")` from position `i`: `null` elements as empty text, the first element conversion that throws ends it |
| `JsValue.RenderThrowsIff` | src/index.ts:97 | `String(v)` throws exactly when `v` is, or holds in an array, an object with an own `toString` key, and the exception is the no-primitive-value TypeError |
| `JsValue.JoinThrowsIff` | src/index.ts:97 | converting an array's elements from position `i` throws exactly when one of them hides `toString` |

## Left out

- Routing, OAuth, the Durable Object agent and the `add` tool: none of these is part of this model.
- Argument validation by the zod schema is left out. The model takes `filename` as a string, `count` as a finite number, and each as optional.
- `console.error` in the outer `catch` is left out because it only logs.
- The exact Chinese wording of the error texts is left out. Each error item carries a `Diagnostic` that holds the same data the text interpolates: the filename, the parser message, or the thrown exception.
- `Math.random`'s distribution is left out; the model proves only what holds for every sequence of draws. IEEE rounding of `Math.random() * length` is also left out: the product is exact on reals.
- `JsValue.Decimal`: prints every integer in full decimal digits. JavaScript prints numbers of magnitude 10^21 or more in exponent form (`"1e+21"`), and `JSON.parse` rounds integers beyond 2^53 to the nearest double. Neither is modelled, because numbers here are unbounded integers rather than doubles.
- `JSON.parse` itself is a parameter. Numbers in parsed values are integers only, so fractional and exponent number syntax, and their `String` forms, are not modelled.
- `Sampler.Splice`: its contract states only the length. Its contents are stated by `Sampler.SpliceRemovesOne` and `Sampler.SpliceAt`.
- Rejections by `bucket.get` and `object.text()` are merged into one `Rejected(message)` outcome of the bucket. Both reach the outer `catch` the same way.
- The object-to-string conversion covers only JSON-decoded objects. Those are never callable, so an own `toString` key always makes `String` throw. An own `valueOf` key does not matter when `toString` is inherited.
