# Polite Guard synthetic data generator, modelled in Dafny

This project models the logic of `data-generator/sdg.py` of the Polite Guard
repository: the generator that asks a language model for labelled example
texts, batch by batch, and appends them to a CSV file. It covers three parts:

- `validate_positive_integer`, the argparse type of `--sample_size`,
  `--max_new_tokens` and `--batch_size`. This is `PositiveInteger`, which
  includes a model of Python's `int(str)` on ASCII decimal text.
- `parse_string`, which splits a model response into the text after
  `OUTPUT:` and after `REASONING:`. This is `ResponseParser`.
  - The regular expression `OUTPUT:\s*(.+?)\s*REASONING:\s*(.+)` with
    `re.DOTALL` is stated as a predicate over index tuples (`IsMatch`),
    together with the order in which `re`'s backtracking tries them
    (`Before`).
  - `FirstMatch` computes the match `re.search` reports, and is proved to be
    the least match in that order.
  - `Text` holds Python's notion of whitespace (`\s`, `str.strip`).
- the batch loop of `sdg`. This is `Batching` (the index arithmetic) and
  `Generator`:
  - the class `CsvFile` stands for the output file; its methods are
    `to_csv` with mode `"w"` and with mode `"a"`;
  - the methods `GenerateSample`, `GenerateBatch`, `RunBatch` and
    `RunBatches` are the two loops. Each is proved against specification
    functions: `Requests`, `DataRows`, `FileAfter`, `Processed` and `Saved`;
  - `Sdg` runs the loop with `parse_string`.

`random.choices` and the text-generation pipeline are inputs, held in an
`Oracle`:
- the label and category draws of every batch;
- the type drawn for every sample;
- the response to every request.

`ValidDraws` constrains these draws to the pools `random.choices` picks from.
The generator calls the loop makes are returned as a trace of `Request`
values. On a response that does not parse, `sdg` raises: the model returns
`Failure(message)` together with the calls made and the file as it was left.

Where the code and a prose description of it differ, the model follows the
code:
- `parse_string` does not always split at the first `REASONING:` after the
  first `OUTPUT:`. The greedy `\s*` after `OUTPUT:` runs first, and group 1
  needs at least one character. So a `REASONING:` that directly follows the
  whitespace after `OUTPUT:` is skipped whenever a later `REASONING:` with at
  least one character after it exists:
  `"OUTPUT: REASONING: x REASONING: y"` gives `("REASONING: x", "y")`. It is
  used only when no such later one exists, and then the output is empty:
  `"OUTPUT: REASONING: x REASONING:"` gives `("", "x REASONING:")`.
- `"OUTPUT:REASONING: x"` is rejected.
- A non-positive value is reported as "must be positive", because the
  `ArgumentTypeError` raised inside the `try` is not caught by
  `except ValueError`.

## Model

| member | source | states |
|---|---|---|
| Text.SkipSpace | data-generator/sdg.py:70 | a greedy `\s*` run from i ends at or after i, at the end of the string or at a non-whitespace character |
| Text.SkipSpaceSkipsSpace | data-generator/sdg.py:70 | every character SkipSpace passes over is whitespace |
| Text.SkipSpaceIsLongest | data-generator/sdg.py:70 | no whitespace run starting at i extends past SkipSpace: the run is the longest one |
| Text.SkipSpaceStops | data-generator/sdg.py:70 | a whitespace run ending at a non-whitespace character is exactly SkipSpace's run |
| Text.BackSpace | data-generator/sdg.py:78-79 | trailing whitespace dropped from s[lo..hi] leaves an end that is lo or follows a non-whitespace character |
| Text.BackSpaceDropsSpace | data-generator/sdg.py:78-79 | every character BackSpace drops is whitespace |
| Text.BackSpaceIsLongest | data-generator/sdg.py:78-79 | no whitespace run ending at hi reaches further back than BackSpace's |
| Text.BackSpaceStops | data-generator/sdg.py:78-79 | a trailing whitespace run preceded by a non-whitespace character is exactly BackSpace's |
| Text.SpaceRunUnique | data-generator/sdg.py:70 | two whitespace runs from the same index that both end at non-whitespace end at the same place |
| Text.Strip | data-generator/sdg.py:78-79 | str.strip() returns a string with no leading or trailing whitespace |
| Text.StripUnique | data-generator/sdg.py:78-79 | strip returns exactly the slice between the leading and the trailing whitespace runs |
| Text.StripStripped | data-generator/sdg.py:78-79 | strip leaves a string without surrounding whitespace unchanged |
| Text.StripIgnoresLeading | data-generator/sdg.py:78-79 | whitespace added in front does not change the strip |
| Text.StripIgnoresTrailing | data-generator/sdg.py:78-79 | whitespace added at the end does not change the strip |
| Text.StripIgnoresPadding | data-generator/sdg.py:78-79 | whitespace added on both sides does not change the strip |
| Text.StripIdempotent | data-generator/sdg.py:78-79 | stripping twice is stripping once |
| ResponseParser.FindFrom | data-generator/sdg.py:70 | a found label occurrence is at or after the start index |
| ResponseParser.FindFromIsFirst | data-generator/sdg.py:70 | FindFrom finds an occurrence whenever there is one at or after the start, and none earlier than any other |
| ResponseParser.MatchAt | data-generator/sdg.py:70 | the match tried from an `OUTPUT:` at p starts at p and group 2 runs to the end of the input (DOTALL) |
| ResponseParser.MatchAtIsMatch | data-generator/sdg.py:70 | what MatchAt returns satisfies the pattern |
| ResponseParser.MatchAtIsFirst | data-generator/sdg.py:70 | from an `OUTPUT:` at p, MatchAt finds a match whenever one starts at p or later, and it comes first in backtracking order |
| ResponseParser.FirstMatch | data-generator/sdg.py:70 | a match found starts at the first `OUTPUT:` and group 2 ends at the end of the input |
| ResponseParser.FirstMatchIsMatch | data-generator/sdg.py:70 | what FirstMatch returns satisfies the pattern |
| ResponseParser.FirstMatchIsFirst | data-generator/sdg.py:70 | whenever the pattern matches, FirstMatch finds the match that comes first in re.search's backtracking order |
| ResponseParser.GroupOneBound | data-generator/sdg.py:70 | the lazy group 1 of any match from a given start reaches at least the first later `REASONING:` |
| ResponseParser.FallbackDelimiter | data-generator/sdg.py:70 | with no usable `REASONING:` after the whitespace run, every match uses the `REASONING:` at the end of that run |
| ResponseParser.ParseString | data-generator/sdg.py:51-81 | a failure carries the ValueError message; on success both returned strings are stripped |
| ResponseParser.ParseStringIsFirstMatch | data-generator/sdg.py:70-81 | parse_string fails exactly when the pattern has no match; otherwise it returns the stripped groups of the first match in backtracking order |
| ResponseParser.MatchFromLabels | data-generator/sdg.py:70-75 | an `OUTPUT:`, followed at least one character after its colon by a `REASONING:` that has a character after it, makes parse_string succeed |
| ResponseParser.LabelsFromMatch | data-generator/sdg.py:70-75 | a successful parse has such an `OUTPUT:` and `REASONING:` |
| ResponseParser.ParseSucceedsIff | data-generator/sdg.py:70-75 | parse_string succeeds if and only if such an `OUTPUT:` and `REASONING:` exist |
| ResponseParser.OutputIsSection | data-generator/sdg.py:78 | the stripped group 1 is the stripped text between `OUTPUT:` and the `REASONING:` used |
| ResponseParser.ReasoningIsSection | data-generator/sdg.py:79 | the stripped group 2 is the stripped rest of the input after the `REASONING:` used |
| ResponseParser.ParsedSections | data-generator/sdg.py:70-81 | on success the output is the stripped text between the first `OUTPUT:` and the chosen `REASONING:`, and the reasoning is the stripped rest of the input |
| ResponseParser.FirstMatchSections | data-generator/sdg.py:70-81 | the result is read off the first match's label positions |
| ResponseParser.FirstMatchDelimiters | data-generator/sdg.py:70 | the first match uses the first `OUTPUT:` and the chosen `REASONING:` |
| ResponseParser.ChosenDelimiterOfFirstMatch | data-generator/sdg.py:70 | the `REASONING:` of the first match is the one ChosenDelimiter describes |
| ResponseParser.DelimiterIsFirstAfterOutput | data-generator/sdg.py:70 | unless a `REASONING:` directly follows the whitespace after `OUTPUT:`, the one used is the first `REASONING:` after `OUTPUT:` that has a character after it |
| ResponseParser.RoundTrip | data-generator/sdg.py:51-81 | for a non-empty stripped output with no inner `REASONING:`, a whitespace separator and a stripped reasoning, parsing `OUTPUT: o` + sep + `REASONING: r` gives back (o, r) |
| ResponseParser.RoundTripMatch | data-generator/sdg.py:70 | the regex match of such a response has its groups exactly around o and r |
| ResponseParser.WellFormedExample | data-generator/sdg.py:51-81 | `"OUTPUT: A\nREASONING: B"` parses to ("A", "B") |
| ResponseParser.BlankReasoning | data-generator/sdg.py:70-81 | `"OUTPUT: a REASONING: "` parses to ("a", ""): group 2 is one space, stripped away |
| ResponseParser.AdjacentLabelsFail | data-generator/sdg.py:70-75 | `"OUTPUT:REASONING: x"` raises: the lazy group 1 needs a character |
| ResponseParser.MissingReasoningFails | data-generator/sdg.py:70-75 | a response without `REASONING:` raises |
| ResponseParser.LeadingReasoningIsOutput | data-generator/sdg.py:70-81 | `"OUTPUT: REASONING: x REASONING: y"` parses to ("REASONING: x", "y") |
| ResponseParser.EmptyOutput | data-generator/sdg.py:70-81 | `"OUTPUT: REASONING: x"` parses to ("", "x") |
| ResponseParser.TrailingLabelIsReasoning | data-generator/sdg.py:70-81 | a later `REASONING:` with nothing after it does not delimit: `"OUTPUT: REASONING: x REASONING:"` parses to ("", "x REASONING:") |
| PositiveInteger.ValidatePositiveInteger | data-generator/sdg.py:27-48 | an accepted value is positive |
| PositiveInteger.TrimIntKeeps | data-generator/sdg.py:41 | the whitespace trimming int() does keeps every character that is not whitespace |
| PositiveInteger.RejectsForeignCharacter | data-generator/sdg.py:40-48 | a value holding a character that is not whitespace, a digit, a sign or `_` is rejected with "Invalid integer value: " followed by the whole value |
| PositiveInteger.Decimal | data-generator/sdg.py:44 | the decimal digits of n are non-empty and no longer than n + 1 |
| PositiveInteger.DigitChar | data-generator/sdg.py:44 | the character written for a digit reads back as that digit |
| PositiveInteger.DecimalDigits | data-generator/sdg.py:44 | str(n) of a natural number is made of digits whose value is n |
| PositiveInteger.RenderTrimmed | data-generator/sdg.py:44 | str(n) is non-empty and has no whitespace at either end |
| PositiveInteger.ParseRender | data-generator/sdg.py:41-44 | int(str(n)) == n for every integer |
| PositiveInteger.TrimIntTrimmed | data-generator/sdg.py:41 | int() trims nothing from text without surrounding whitespace |
| PositiveInteger.TrimIntPadding | data-generator/sdg.py:41 | int() removes any whitespace padding on both sides |
| PositiveInteger.ParseIntPadded | data-generator/sdg.py:41 | whitespace padding does not change int() |
| PositiveInteger.AcceptsPositive | data-generator/sdg.py:40-46 | a padded positive integer is accepted as itself |
| PositiveInteger.RejectsNonPositive | data-generator/sdg.py:42-45 | a padded non-positive integer is rejected with "must be positive" and that integer |
| PositiveInteger.DigitsValueAppend | data-generator/sdg.py:41 | the digits of a + b denote a's number shifted by b's digit count plus b's number |
| PositiveInteger.UnderscoreIgnored | data-generator/sdg.py:41 | an underscore between digits does not change int() |
| PositiveInteger.LeadingZeroIgnored | data-generator/sdg.py:41 | a leading zero does not change int() |
| PositiveInteger.PaddedExample | data-generator/sdg.py:40-46 | `" 42\n"` is accepted as 42 |
| PositiveInteger.LeadingZerosExample | data-generator/sdg.py:40-46 | `"007"` is accepted as 7 |
| PositiveInteger.NegativeExample | data-generator/sdg.py:42-45 | `"-3"` is rejected as not positive |
| PositiveInteger.NotANumberExample | data-generator/sdg.py:47-48 | `"abc"` is rejected as an invalid integer |
| PositiveInteger.DoubleUnderscoreExample | data-generator/sdg.py:47-48 | `"1__0"` is rejected as an invalid integer |
| PositiveInteger.FileSeparatorExample | data-generator/sdg.py:47-48 | U+001C, whitespace to str.strip but not to int(), makes the value invalid |
| Batching.NumBatchesIsCeiling | data-generator/sdg.py:122 | num_batches is the least n with n * batch_size >= sample_size |
| Batching.NoBatchesIffNoSamples | data-generator/sdg.py:122 | there are no batches exactly when sample_size <= 0 |
| Batching.BatchBounds | data-generator/sdg.py:128-131 | every batch the loop runs is a non-empty range inside [0, sample_size) of at most batch_size samples |
| Batching.BatchesContiguous | data-generator/sdg.py:128-131 | each batch starts where the previous one ended |
| Batching.BatchesCoverAll | data-generator/sdg.py:122-131 | the first batch starts at 0 and the last ends at sample_size |
| Batching.AllBatchesDone | data-generator/sdg.py:128-131 | when the batch loop is over, the samples covered are all of them (none for sample_size <= 0) |
| Batching.SampleInBatch | data-generator/sdg.py:130-145 | a sample of batch k lies in [0, sample_size), k is i // batch_size, and i - start is i % batch_size, in range of the draws |
| Batching.StartOfBatchOf | data-generator/sdg.py:130-131 | the batch of sample i starts at most batch_size - 1 before it, and at 0 only for batch 0 |
| Batching.BatchOfSample | data-generator/sdg.py:128-142 | every sample lies in batch i // batch_size and in no other: the ranges are disjoint |
| Batching.Locate | data-generator/sdg.py:130-145 | the offset of sample i in its batch is below batch_size and at most i |
| Batching.LocateIsDivMod | data-generator/sdg.py:130-145 | Locate is (i // batch_size, i % batch_size) |
| Batching.LocateMonotone | data-generator/sdg.py:128-142 | a later sample is in the same batch or a later one |
| Batching.BatchCountIsNumBatches | data-generator/sdg.py:122-128 | one past the batch of the last sample is num_batches (the loop count, none when num_batches <= 0) |
| Batching.LocateInRange | data-generator/sdg.py:128-145 | every sample's batch is one the loop runs |
| Batching.LocateStart | data-generator/sdg.py:130-142 | the batch of sample i starts at i minus its offset |
| Batching.SamplesBeforeIsStart | data-generator/sdg.py:128-131 | the sizes of the first k batches add up to the start of batch k, or to sample_size after the last |
| Batching.BatchSizesSum | data-generator/sdg.py:122-131 | the batch sizes add up to sample_size |
| Batching.FiveInTwos | data-generator/sdg.py:122-131 | five samples in batches of two make batches of sizes 2, 2 and 1 |
| Generator.CsvFile.constructor | data-generator/sdg.py:117-119 | before the loop no file exists and no rows are written |
| Generator.CsvFile.Write | data-generator/sdg.py:201-203 | mode "w" with a header: the file becomes the header followed by the batch's rows |
| Generator.CsvFile.Append | data-generator/sdg.py:204-206 | mode "a" without a header: the batch's rows are added after the existing ones |
| Generator.LabelOf | data-generator/sdg.py:137 | the label drawn for a sample is one of the labels |
| Generator.CategoryOf | data-generator/sdg.py:140 | the category drawn for a sample is a key of categories_types |
| Generator.BatchDrawn | data-generator/sdg.py:128-145 | each batch the loop runs is a range inside the samples whose label and category are read from that batch's own draws at i - start |
| Generator.RequestOf | data-generator/sdg.py:144-179 | a sample's call asks for a drawn label, a category, and a one-element type list from that category's types |
| Generator.Requests | data-generator/sdg.py:142-179 | one call per sample, in order |
| Generator.RequestsAt | data-generator/sdg.py:142-179 | call i is the call for sample i |
| Generator.FirstUnparsed | data-generator/sdg.py:184 | the first response that fails to parse, with every response before it parsed; none when all parse |
| Generator.FirstUnparsedAt | data-generator/sdg.py:184 | a failure after responses that all parse stays the first failure however many responses follow |
| Generator.FirstUnparsedPrefix | data-generator/sdg.py:184 | the first m responses parse exactly when the first failure, if any, comes at m or later |
| Generator.FirstUnparsedIff | data-generator/sdg.py:184 | the first failure is at i exactly when response i fails and all before it parse |
| Generator.Processed | data-generator/sdg.py:142-184 | the number of generator calls is at most sample_size |
| Generator.Saved | data-generator/sdg.py:128-206 | the number of rows written is at most sample_size and all of them parsed |
| Generator.Rows | data-generator/sdg.py:198 | one CSV row per entry |
| Generator.DataRows | data-generator/sdg.py:186-198 | the rows of the first n samples number n |
| Generator.BatchRows | data-generator/sdg.py:186-198 | the rows of samples start .. n - 1 number n - start |
| Generator.EntryStep | data-generator/sdg.py:186-195 | appending a sample's entry to batch_data extends the batch's rows by that sample's row and keeps the reasoning column rule |
| Generator.DataRowsSplit | data-generator/sdg.py:198-206 | the rows before a batch followed by the batch's rows are the rows up to its end |
| Generator.WriteBatch | data-generator/sdg.py:198-206 | writing batch 0 with a header, or appending a later batch, leaves the header and the rows of every sample up to the batch's end |
| Generator.DataRowsAt | data-generator/sdg.py:186-198 | data row i is the row of sample i's entry |
| Generator.BatchBegun | data-generator/sdg.py:134 | an empty batch_data at the batch start satisfies the inner loop's invariant |
| Generator.BatchCompleted | data-generator/sdg.py:142-198 | an inner loop that reaches the end holds every entry of the batch under the header text, label, model (and reasoning when saved) |
| Generator.BatchStopped | data-generator/sdg.py:184 | a failure inside the batch makes the batch stop with that failure's message, the calls up to it made |
| Generator.GenerateSample | data-generator/sdg.py:142-195 | one pass of the inner loop: the call is added to the trace; the entry is added exactly when the response parses, otherwise the batch stops with the parser's error |
| Generator.GenerateBatch | data-generator/sdg.py:134-195 | the inner loop: either all samples of the batch parse and batch_data holds their rows under the header, or it stops at the first failure with the calls up to it made |
| Generator.RunBegun | data-generator/sdg.py:117-128 | before the first batch nothing is written and no call is made |
| Generator.RunCompleted | data-generator/sdg.py:128-206 | after the last batch every response parsed, every call was made and every row is in the file |
| Generator.RunBatch | data-generator/sdg.py:128-206 | one batch: either the file gains the batch's rows (after a header for batch 0), or the run stops at the first failure with the file as the earlier batches left it |
| Generator.RunBatches | data-generator/sdg.py:122-206 | the calls made are those up to and including the first failure; the outcome is success or that failure's message; the file holds the header and the rows of the batches completed before it |
| Generator.BatchFailure | data-generator/sdg.py:184-206 | when a batch fails, the file keeps exactly the batches before it |
| Generator.SavedOnFailure | data-generator/sdg.py:128-206 | if response i fails first, i + 1 calls were made and the file keeps the samples before i's batch, losing the rows of that batch before i |
| Generator.SavedBounds | data-generator/sdg.py:128-206 | rows written <= calls made <= sample_size, with equality when every response parses |
| Generator.SavedRowMatchesRequest | data-generator/sdg.py:163-195 | file row i holds the parsed text, the label that sample's prompt asked for, the model argument, and the reasoning exactly when it is saved |
| Generator.FinishedFile | data-generator/sdg.py:198-206 | a run that finishes leaves one header and sample_size data rows |
| Generator.RejectedIffNoMatch | data-generator/sdg.py:70-75 | parse_string rejects a response exactly when the pattern has no match in it |
| Generator.SdgStopsAtFirstMismatch | data-generator/sdg.py:184 | sdg stops at response i exactly when i is the first response without a match |
| Generator.Sdg | data-generator/sdg.py:84-207 | sdg with parse_string: the same trace and file as RunBatches, and its error is parse_string's ValueError message |

## Left out

- PositiveInteger.ValidatePositiveInteger: int() also accepts non-ASCII decimal digits, such as Arabic-Indic digits. It also rejects strings longer than its 4300-digit limit. Neither is modelled, because both depend on Unicode tables and interpreter settings.
- Generator.RequestOf: the prompt and system-message text (sdg.py:147-175) are not built. A request holds the values the text is made from: the use case, labels, categories, label descriptions, examples, and the drawn label, category and type.
- Generator.RunBatches: the text-generation pipeline (sdg.py:176-179) is an input. The responses are given in the Oracle, so model loading, `max_new_tokens` and the result indexing are not modelled. The request only records the model name and the token budget.
- Generator.ValidDraws: `random.choices` is an input. Its draws are constrained to their pools, and its distribution is not modelled. An empty label, category or type pool makes `random.choices` raise IndexError. No valid draws exist then, so that error path is not modelled.
- Generator.RunBatches: each verdict of `parse_string` is an input, one per response. `Sdg` computes them with `ResponseParser.ParseString`. The function is pure, so computing the verdicts before the loop gives the same outcome.
- Generator.ValidConfig: `batch_size > 0` is assumed. `main` guarantees it through `validate_positive_integer` (sdg.py:253-258); `sdg` itself would divide by zero at sdg.py:122.
- ResponseParser.RoundTrip: it needs the output text to hold no `REASONING:` after its first character. Otherwise the regex may split at the inner label.
- The timestamped file name, `os.makedirs`, `os.path.join` and the `print` messages (sdg.py:117-126, 207) are not modelled; they are clock and I/O.
- The CSV encoding and quoting of `to_csv` are not modelled. A file is its header and data rows, each row a list of cells.
- `read_token`, `login` and `load_dotenv` are not modelled (sdg.py:17-24); they are environment access and network authentication.
- `main`'s argparse wiring and the dynamic loading of the configuration module are not modelled (sdg.py:210-305); they are command-line handling and code loading.
- Exceptions other than the parse failure are not modelled: pipeline errors, I/O errors and interrupts.
