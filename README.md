# relay-util, modelled in Dafny

relay-util is a command-line tool that sends a JSON-RPC request to a Portal
gateway a given number of times and then reports on the replies:

- how many succeeded and how many failed;
- the distinct success bodies and error reasons;
- the latencies, with their lowest, highest and 90th-percentile values.

This project models the sequential logic of that tool and proves properties of the model:

- **`Relay`** (relay/relay.go):
  - how one reply becomes one `RelayResult`;
  - the worker-pool configuration and its validation;
  - the task queue of `runInGoroutines`, filled and then drained one job at a time;
  - the choice of target URL, secret key and request headers;
  - the `Util` object whose fields `NewRelayUtil`, `setURLStringAndKey` and `SendRelays` update.
- **`JsonRpc`**: the JSON-RPC `ID` tagged union and its JSON encoding. This is the `id` member of section 5 of the JSON-RPC 2.0 Specification.
- **`Report`** (log/log.go `LogResults`, and its copy in main.go):
  - the counting loop over the results channel;
  - the two histograms;
  - the latency list and the lowest/highest/sum loop;
  - the in-place sort and the nearest-rank 90th percentile.
- **`Format`** (log/log.go):
  - `formatWithCommas`;
  - the path and password masking of `maskAppID`;
  - `suffixBasedOnLength`;
  - `hexToTextOrNumber`.
- **`Setup`** (setup/setup.go):
  - line-oriented `.env` editing (`updateEnvValue`);
  - the key-name table (`getAppIDAndKeyKeys`);
  - the file update for a dummy app id (`updateEnvFile`);
  - the first-run prompt loop of `createEnvFile`, with its `skipNextKeyPrompt` flag.
- **`Cli`** (main.go):
  - the flag-validation chain of `main`;
  - `planTypeMap`;
  - main.go's own copies of `getGoroutinesConfig` and `getURLStringAndKey`;
  - the keys a dummy-id update writes.
- **`Text`, `Ints`, `Wrappers`**: the Go library behaviour the model depends on:
  - `strings.Split`, `Join`, `TrimSpace`, `Trim` and `HasPrefix`;
  - `strconv.Itoa` and `ParseInt`;
  - int32/int64 wrap-around;
  - `Option` and `Result`.

## Design

**Go integers and durations.**
- Go's fixed-width integers are `Int32`/`Int64` subset types.
- `Wrap32`/`Wrap64` model a truncating conversion: `int32(latency)`, the `atomic.Int32` counter, and `time.Duration(delay) * time.Millisecond`.
- Durations are counted in nanoseconds.

**A reply and the results channel.**
- A reply to one request is an input (`Relay.Observed`): a transport error with its text, a nil response, or a decoded response, plus the elapsed milliseconds.
- The results channel is the `seq` field `Util.ResultChan`.

**URL selection and the `.env` prompts.**
- The dummy-id prompt answers are a list; running out of answers stands for the program exiting.
- The first-run prompt loop reads its lines from a list and yields the `key=value` lines it writes.
- `PromptRun`, the loop's specification, takes the answers already trimmed (`Answers`), and `CreateEnvFile` reads and trims the raw lines one at a time.

**Sorting.**
- `sort.Slice` is modelled by an in-place insertion sort on an array.
- Its contract is the unique sorted permutation of the old contents, so the choice of algorithm does not show in the result.

**Where the code and the design notes disagree, the model follows the code:**
- There is no batch (array) request handling.
- A missing or `null` result counts as a success with body `null`.
- Failed results keep latency 0.
- A JSON `null` id unmarshals as the number 0. Go decodes `null` into an `int` without error.

**Defects kept as written.**
- `Util.SetURLStringAndKey` and `hexToTextOrNumber` keep the defects listed under Findings.
- The corrected behaviour is stated beside them: `Resolve`, which main.go's own copy of the selection follows, and `HexToTextOrNumberIntended`.

## Model

| member | source | states |
|---|---|---|
| Ints.Wrap32 | relay/relay.go:167 | `int32(x)`: the identity on int32 values, and congruent to x modulo 2^32 otherwise |
| Ints.Wrap64 | main.go:122 | `int64` wrap: the identity on int64 values, and congruent to x modulo 2^64 otherwise |
| Ints.Wrap32Step | relay/relay.go:126 | incrementing a wrapped counter equals wrapping the incremented count |
| Text.TrimPrefix | log/log.go:293 | `strings.TrimPrefix`: removes one leading copy of the prefix when present, and leaves the text unchanged otherwise |
| Text.TrimSpaceTrims | setup/setup.go:102 | `strings.TrimSpace` returns a contiguous slice of the input with no white space at either end; everything cut before and after it is white space; it gives "" exactly when the input is all white space |
| Text.TrimSpaceOfTrimmed | setup/setup.go:193 | trimming an already-trimmed answer changes nothing |
| Text.TrimChar | log/log.go:293 | `strings.Trim(s, "\"")`: the result neither starts nor ends with a quote, and a text without quotes is unchanged |
| Text.TrimCharSlice | log/log.go:293 | the trimmed text is the input with its leading and trailing runs of the character removed: a contiguous slice, and every character cut is that character |
| Text.Split | setup/setup.go:222 | `strings.Split` gives at least one piece, and no piece contains the separator |
| Text.JoinSplit | setup/setup.go:222-226 | joining the pieces of a split gives back the text |
| Text.SplitJoin | setup/setup.go:222-226 | splitting the join of separator-free pieces gives back the pieces |
| Text.NatDigits | log/log.go:226 | the digits of n: at least one, all valid in the base, no sign or comma, "0" for 0 and no leading zero otherwise |
| Text.NatDigitsValue | log/log.go:226 | the digits `strconv` writes for n denote n |
| Text.Itoa | log/log.go:226 | `strconv.Itoa` is non-empty, starts with '-' exactly for negative numbers, is "0" exactly for 0, and has no leading zero otherwise (after the sign for negative numbers) |
| Text.ParseInt | log/log.go:296 | `strconv.ParseInt(s, base, 64)` accepts only values in the int64 range and rejects "" |
| Text.ParseIntDigits | log/log.go:296 | an optional sign followed by digits is accepted iff the digits are non-empty, all valid in the base, and their signed value is in the int64 range; the value is then that signed value |
| Text.AtoiItoa | main.go:100-103 | `Atoi(Itoa(n)) == n` for every int64 |
| JsonRpc.IDFromString | relay/relay.go:210-212 | a string id carrying exactly s |
| JsonRpc.IDFromInt | relay/relay.go:215-217 | a numeric id carrying exactly n |
| JsonRpc.UnmarshalJSON | relay/relay.go:220-235 | an integer is tried first, then a string; any other JSON value is an error that carries the data; decoding a string keeps the old number fields |
| JsonRpc.MarshalJSON | relay/relay.go:237-242 | a numeric id encodes as a JSON number and a string id as a JSON string |
| JsonRpc.String | relay/relay.go:244-249 | a number prints as decimal digits that parse back to it; a string prints verbatim |
| JsonRpc.RoundTrip | relay/relay.go:220-249 | unmarshalling a marshalled id succeeds, keeps its variant, and prints the same |
| JsonRpc.ConstructorsRoundTrip | relay/relay.go:210-242 | `IDFromInt(n)` and `IDFromString(s)` marshal to n and s, and unmarshal back to the same id |
| JsonRpc.StringIntoNumericIdStaysNumeric | relay/relay.go:228-231 | a string decoded into a numeric id leaves it numeric, because the flag is not cleared |
| Relay.ErrorReason | relay/relay.go:154 | the failure reason is `code: <Code>, message: <Message>` |
| Relay.Classify | relay/relay.go:125-171 | exactly one result per reply, numbered with the counter; it is a failure iff the reply is not a decoded response with an empty error message and an encodable result; every failure keeps latency 0 and an empty body; each failure kind has its own reason text; a success has the body and the int32-truncated latency |
| Relay.DispatchedNumbering | relay/relay.go:122-131 | n jobs drained in order give n results; job i carries sequence number i+1 while that fits in an int32 |
| Relay.GetGoroutinesConfig | relay/relay.go:284-296 | the starter plan is forced to 30 workers and 1000 ms; other plans pass through unchanged |
| Relay.ValidateConfig | relay/relay.go:332-340 | fails iff workers < 1 or delay < 0; the worker error is reported first |
| Relay.StarterConfigIsValid | relay/relay.go:284-296 | the starter configuration passes validation whatever -g and -d are |
| Relay.Lookup | relay/relay.go:188 | `AppIDs[env][planType]` is the stored entry, or the zero entry when either key is missing |
| Relay.Store | relay/relay.go:346-351 | storing an entry changes that entry and no other |
| Relay.BuildURL | relay/relay.go:194-204 | the local gateway URL, grove.city for production, and grove.town for any other environment |
| Relay.BuildURLEndsWithAppID | relay/relay.go:195-203 | every Portal URL ends in `/v1/<appID>` |
| Relay.RequestHeaders | relay/relay.go:258-261 | the content type is always JSON; Authorization is set iff there is no override and the key is non-empty, and it holds the key |
| Relay.ResolveSound | relay/relay.go:182-207 | an override is used as it is, with the key untouched; otherwise the URL and key come from the same entry, which is not a dummy; only that entry of the table changed |
| Relay.ResolveHalts | relay/relay.go:343-357 | a dummy id with no usable replacement ends the program |
| Relay.AsWrittenAgreesWithoutDummy | relay/relay.go:182-207 | with an override or without a dummy id, the as-written and the corrected selection agree |
| Relay.NoYNoDummy | relay/relay.go:344 | a text without 'y' never contains "dummy" |
| Relay.ReplacedOnce | relay/relay.go:188-206 | after one replacement, both versions store the new entry and take its key; only the corrected one puts its id in the URL |
| Relay.StaleAppIDInURL | relay/relay.go:188-206 | concrete case: the as-written URL still names the dummy id after the replacement |
| Relay.Util.constructor | relay/relay.go:86-101 | the struct literal: fields copied from the config, an empty results channel, URL and key not yet set |
| Relay.DummyEntryPresent | relay/relay.go:188-190 | a dummy id is only read from an entry present in the table, so storing its replacement never meets a missing environment map |
| Relay.Util.SetURLStringAndKey | relay/relay.go:182-207 | as written, with no return after the recursive call: the fields end as the as-written selection says (URL from the id read on entry, key from the updated table), or its halt is returned |
| Relay.Util.Headers | relay/relay.go:258-261 | Authorization is sent iff there is no override and a non-empty secret key |
| Relay.Util.Job | relay/relay.go:125-171 | draws the next (wrapped) sequence number and appends exactly one classified result |
| Relay.Util.RunInGoroutines | relay/relay.go:299-329 | a failed validation, or a negative queue size, panics before any job runs; otherwise exactly `executions` jobs run, the counter ends at `Wrap32(executions)`, that is at `executions` while it fits in an int32, and the channel gains the dispatched results in order |
| Relay.Util.SendRelays | relay/relay.go:109-179 | runs the pool under the plan's configuration; on completion the channel holds the dispatched results and is closed |
| Relay.NewRelayUtil | relay/relay.go:86-106 | a negative capacity panics; otherwise the utility exists iff the as-written selection succeeds, and its fields are that selection's |
| Report.Inc | log/log.go:81 | `h[k]++`: one more under k, and every other count unchanged |
| Report.MapSumInc | log/log.go:81-84 | an increment adds exactly one to the histogram's total |
| Report.CollectResults | log/log.go:77-90 | the loop computes the fold `Collect` over the results, in order |
| Report.SuccessLatencies | log/log.go:85-87 | the collected latencies are all non-zero |
| Report.CollectPartition | log/log.go:77-90 | total is the number of results, and successful + failed = total |
| Report.CollectHistograms | log/log.go:79-84 | each histogram count is the number of results with that exact reason or body; a key is present iff its count is positive |
| Report.HistogramSums | log/log.go:79-84 | the error-reason counts sum to the failures and the success-body counts sum to the successes |
| Report.CollectLatencies | log/log.go:83-87 | the latency list is exactly the non-zero latencies of the successes, in order, so it is no longer than the success count |
| Report.DispatchedTotal | relay/relay.go:307-311 | the report counts exactly as many results as jobs were dispatched |
| Report.SumFits | log/log.go:132-136 | an int64 sum of up to 2^32 int32 values cannot overflow |
| Report.LatencyStats | log/log.go:132-143 | the sum is the wrapped total; lowest ≤ every latency ≤ highest, and both are in the list when it is non-empty; otherwise they keep the sentinels MaxInt32 and MinInt32 |
| Report.Insert | log/log.go:147 | inserting into a sorted list keeps it sorted and adds exactly one copy of the element |
| Report.Sort | log/log.go:147 | the ascending sort is sorted and a permutation of its input |
| Report.SortedUnique | log/log.go:147 | two sorted permutations of each other are equal, so the sort result does not depend on the algorithm |
| Report.SortLatencies | log/log.go:147 | the array ends as the sorted permutation of its old contents |
| Report.SinkLast | log/log.go:147 | one insertion pass: with the first i latencies in order, the first i+1 become `Insert` of the old i-th latency into them, so they end in order; the elements after i are unchanged and the array keeps its multiset |
| Report.SunkIsInsert | log/log.go:147 | the array the pass leaves (the moved value at its stopping place, the larger ones shifted right by one) is `Insert` followed by the untouched rest |
| Report.InsertAt | log/log.go:147 | putting x after the elements of a sorted list that are at most x and before those above it is exactly `Insert` |
| Report.P90Index | log/log.go:149-155 | the index read is max(floor(0.9·n), 1) − 1, which is in range |
| Report.P90Rank | log/log.go:149-155 | nearest rank: every latency up to the index is ≤ p90 and every later one is ≥ p90 |
| Report.P90Examples | log/log.go:149-155 | p90 of [42] is 42, and p90 of [10, 20, …, 100] is 90 |
| Report.P90Between | log/log.go:132-156 | the p90 is one of the latencies and lies between the lowest and the highest |
| Report.P90OrderIndependent | log/log.go:147-156 | the p90 does not depend on the arrival order of the results |
| Report.SortedP90 | log/log.go:146-156 | sorting a copy in place and reading the index gives the p90 of the sorted list, or 0 for an empty list |
| Report.LogResults | main.go:443-522 | the counts partition the results; the latency list is the non-zero success latencies; lowest ≤ each latency ≤ highest; lowest ≤ p90 ≤ highest when there are latencies, and the sentinels and 0 otherwise |
| Format.RemoveCommasAppend | log/log.go:229-234 | removing commas distributes over concatenation |
| Format.GroupDigits | log/log.go:229-234 | grouping inserts exactly (d−1)/3 commas, and removing them gives back the digits |
| Format.GroupPieces | log/log.go:229-234 | the groups are a leading group of 1 to 3 digits followed by groups of exactly 3 |
| Format.EmittedIsGroup | log/log.go:229-234 | the loop's rule (a comma before position i > 0 where (d−i) mod 3 = 0) builds the grouped text |
| Format.FormatWithCommas | main.go:648-660 | the buffer loop gives the grouping of `Itoa(n)`, which is the intended form for n ≥ 0 |
| Format.NegativeGroupingAsWritten | log/log.go:225-237 | for −123 the code as written gives "-,123" |
| Format.FormatCommas | log/log.go:225-237 | the corrected grouping starts with '-' exactly for negative numbers |
| Format.FormatCommasReadsBack | log/log.go:188 | the corrected form never starts with a comma, even after the sign; without commas it is `Itoa(n)`, which `Atoi` reads back as n |
| Format.GroupLeads | log/log.go:229-234 | grouping keeps the first character in front |
| Format.NegativeGroupingIntended | log/log.go:225-237 | for −123 the corrected grouping gives "-123" |
| Format.MaskedSegments | log/log.go:266-273 | masking keeps the number of path segments, and no segment contains '/' |
| Format.MaskPathSegments | log/log.go:266-273 | only the last segment can change, and only an eight-character one, which becomes "******" |
| Format.MaskPathIdempotent | main.go:633-640 | masking a masked path changes nothing |
| Format.MaskPortalPath | log/log.go:266-276 | a `/v1/<appID>` path is masked iff the app id has 8 characters |
| Format.MaskAppID | log/log.go:240-279 | an unparsable URL comes back unchanged; a parsed one is scheme, `://`, the user part (none; `user@`; or `user:******@` when a password is set), the host, and the masked path |
| Format.MaskHidesPassword | log/log.go:250-256 | the output does not depend on the password |
| Format.MaskPortalURL | log/log.go:240-279 | a production Portal URL with an 8-character app id is shown with the id masked |
| Format.SuffixBasedOnLength | log/log.go:282-287 | the suffix is "s" iff the count is above 1, and "" otherwise |
| Format.HexDecode | log/log.go:302 | `hex.DecodeString` succeeds iff the text has even length and only hex digits, and gives half as many bytes |
| Format.HexDecodeBytes | log/log.go:302 | byte i of the decoding is 16 times the value of digit 2i plus the value of digit 2i+1, in either case |
| Format.HexDecodeFF | log/log.go:302 | upper-case digits decode: "FF" is the single byte 255 |
| Format.HexEncode | log/log.go:302 | a reference encoder, `hex.EncodeToString`, which the program does not call: it is the inverse against which `hex.DecodeString` at this line is stated; it gives two hex digits per byte |
| Format.HexRoundTrip | log/log.go:302 | decoding the encoding of bytes gives the bytes back |
| Format.BytesToText | log/log.go:309 | each byte becomes the character with that code |
| Format.HexToTextOrNumber | log/log.go:291-310 | quotes and "0x" are removed; an int64 in base 16 gives `formatWithCommas` of it as written; failing that, decodable hex gives its text; the flag is true iff either succeeded; otherwise the input comes back unchanged |
| Format.HexToTextOrNumberIntended | log/log.go:291-310 | the same conversion with the corrected grouping; it agrees with the as-written one on every input except negative numbers |
| Format.TrimQuotes | log/log.go:293 | surrounding quotes are removed from a quoted value |
| Format.HexQuantity | log/log.go:291-299 | a quoted `0x` quantity of a non-negative value shows as its comma-grouped value, and removing the commas gives back `Itoa` of the value |
| Format.EmptyHexIsText | log/log.go:301-309 | a bare "0x" decodes as empty text with true |
| Format.NegativeHexShown | log/log.go:296-297 | "-7b" parses as −123 and, as written, is shown as "-,123" |
| Format.NegativeHexIntended | log/log.go:296-297 | with the corrected grouping, "-7b" is shown as "-123" |
| Setup.FirstMatch | setup/setup.go:223-224 | the first line from `from` on that starts with the prefix, and no earlier one does; None iff no line does |
| Setup.UpdateEnvValue | setup/setup.go:221-231 | the loop with its early return computes `EnvUpdate`: the first `key=` line is replaced, or the assignment is appended |
| Setup.UpdateReplacesFirstLine | setup/setup.go:222-227 | when a line starts with `key=`, only the first such line becomes `key=newValue`; the line count and every other line are unchanged |
| Setup.UpdateAppends | setup/setup.go:229-230 | without such a line, the result is contents + `key=newValue\n`, so the old contents are a prefix |
| Setup.UpdateIdempotent | setup/setup.go:221-231 | on a file that is empty or ends in a newline, updating twice equals updating once, and the line `key=newValue` is present |
| Setup.UpdateKeepsTerminated | setup/setup.go:221-231 | a file ending in a newline still ends in one |
| Setup.UpdateKeepsOtherLine | setup/setup.go:221-231 | a line for another key survives the update |
| Setup.AssignsKey | setup/setup.go:224-225 | for keys without '=', an assignment line matches `k2=` iff it assigns k2 |
| Setup.GetAppIDAndKeyKeys | setup/setup.go:239-260 | production/staging with starter gives the STARTER pair, with any other plan the ENTERPRISE pair; any other environment gives two empty names |
| Setup.EnvFileUpdateWrites | setup/setup.go:178-218 | for production or staging, each non-blank trimmed answer is a `key=value` line of the updated file, under the table's name, and the file still ends in a newline |
| Setup.TwoUpdatesWrite | setup/setup.go:195-207 | writing the id and then the key, each only when non-blank, under two distinct plain key names, leaves both assignment lines in a file that still ends in a newline |
| Setup.TableKeysPlain | setup/setup.go:239-260 | the production and staging key names are two different names with no newline and no '=' |
| Setup.EnvText | setup/setup.go:118 | the written text ends in a newline, and it is empty iff nothing was written |
| Setup.CreateEnvFile | setup/setup.go:94-128 | the loop with its skip flag, reading and trimming one line per question asked, writes the lines of `PromptRun` over the trimmed answers, in prompt order |
| Setup.AnswersStep | setup/setup.go:101-102 | reading one line and trimming it is taking the next trimmed answer, and the lines left give the answers left |
| Setup.StepOfRun | setup/setup.go:94-116 | one pass of the loop: the next prompt is optional iff it exists and is not required |
| Setup.PromptsArePairs | setup/setup.go:81-88 | the eight prompts alternate: an app-id prompt, then its key prompt |
| Setup.PromptRunIsPairRun | setup/setup.go:94-128 | the flag-driven loop equals the pair-by-pair reading: a blank id writes the dummy and skips the key prompt without reading; a blank key writes nothing |
| Setup.PairRunLength | setup/setup.go:94-128 | one to two lines are written per app-id/key pair |
| Setup.OneEntryPerAppID | setup/setup.go:104-118 | with distinct key names, each app-id key is written exactly once and each secret key at most once |
| Setup.CreateEnvFileEntries | setup/setup.go:81-128 | the first-run file has 4 to 8 lines: each app id exactly once, and each key at most once |
| Setup.BlankAppIDWritesDummy | setup/setup.go:104-111 | a first line that is blank after trimming writes `dummy_starter_app_id`, and the key prompt after it reads nothing |
| Setup.BlankRequiredSkipsNext | setup/setup.go:104-116 | for any prompt list, a blank answer to a required prompt followed by an optional one writes the dummy and skips the optional prompt without consuming an answer |
| Setup.KeysMatchPrompts | setup/setup.go:239-260 | the key-name table names the same variables as the prompts, for each environment and plan |
| Cli.MapPlanType | main.go:147-150 | "starter" maps to FREETIER_V0, "enterprise" to ENTERPRISE, and anything else to "" |
| Cli.CheckFlags | main.go:78-124 | the checks run in order with their messages; a configuration is built iff every check passes; the starter notice is printed iff the run reaches that check with more than 30 workers, and it is not fatal; the executions message is never printed |
| Cli.ExecutionsCheckNeverFails | main.go:100-103 | the executions round trip through text never fails |
| Cli.NegativeExecutionsAccepted | main.go:78-81 | negative executions pass the checks |
| Cli.GetGoroutinesConfig | main.go:256-267 | the FREETIER_V0 plan is forced to 30 workers and 1000 ms; other plans pass through |
| Cli.GoroutinesConfigAgrees | main.go:256-267 | on the renamed plan, main.go's configuration equals relay/relay.go's |
| Cli.AcceptedPoolStarts | main.go:269-309 | for accepted flags, validation passes iff the plan is starter, or there is at least one worker and the wrapped delay is not negative |
| Cli.NegativeWorkersPanic | main.go:269-272 | an accepted enterprise run with negative -g panics with the worker error |
| Cli.GetURLStringAndKeyIsResolve | main.go:560-598 | main.go's selection halts, or succeeds, exactly when the corrected selection does; it returns that selection's URL, and its key except under an override, where the key is "" |
| Cli.StarterUpdateWritesEnterpriseKeys | main.go:569 | a starter dummy-id update in production writes the new id under PRODUCTION_ENTERPRISE_APP_ID, while the starter table entry is read from PRODUCTION_STARTER_APP_ID |
| Cli.UnmapPlanType | main.go:147-150 | the inverse of `planTypeMap` on its two values |
| Cli.DummyUpdateWritesGatheredKeys | main.go:231-254 | with the original plan name, the id and key are written under the variables `gatherAppIDs` reads for that environment and plan |

## Left out

**Concurrency and timing**
- The goroutines, the `sem` channel, the WaitGroup, the `time.After` stagger and the atomic counter's concurrency are not modelled. Jobs are drained one after another. Concurrency is not sequential logic.
- Elapsed times (`time.Since`, `ExecTime`) are inputs: the clock is outside the model.

**Network, encoding and printing**
- HTTP, `http.Client` timeouts, and JSON decoding and encoding of the reply body are not modelled. The reply is an input, as text, nil, or a decoded response. These are foreign library calls.
- The request body's JSON validity (`-r`) is the input flag `requestIsJSON`, because JSON parsing is a foreign call.
- Success and failure rates, the average latency, and the colour thresholds are not modelled: they are floating point.
- Printing is not modelled: `PrintConfig`, the progress bar, the formatted execution time, and the order in which histograms are printed.
- The success-body sort comparator (log/log.go:184-193) is not modelled. It mixes numeric and string comparison and is not a total order.

**Environment, files and URLs**
- env/env.go is not part of this model: its process-environment reads and panics. The `AppIDs` table is an input. `gatherAppIDs`' `MustGetString` panic for an unset variable is likewise outside the model.
- Interactive and file I/O are not modelled: `bufio` reads, `os.OpenFile`/`ReadFile`/`WriteFile`, `os.Setenv`, the interrupt handler, `clearConsole` and `os.Exit`. Prompt answers are lists.
- `updateEnvFile`'s read and write errors, which return two empty strings, are not modelled.
- The yes/no loop of `askForEnvVarUpdate` is not modelled. The dummy-id prompt is its list of answers.
- `url.Parse` is an input: `Format.MaskAppID` takes the parsed URL.
- The help flag and `pflag` parsing are not modelled. The parsed flags are the input.

**Weaker or simplified contracts**
- Report.P90Index: Go computes `int(float64(n) * 0.9)`. The model uses `(9n)/10`, which agrees for every realistic n.
- Format.MaskPath: the overwrite of the last element of `parts` is modelled as a value update of the split path.
- Text.TrimSpace, Format.MaskedSegments, Format.BytesToText: for non-ASCII text the model does not distinguish bytes from runes. One character stands for one byte where Go counts bytes (`len`, slicing, `string(bytes)`) and for one rune where it decodes runes (`unicode.IsSpace`). UTF-8 decoding is not modelled.
- Relay.Util.RunInGoroutines: `reply(i)` fixes what the i-th job observes. Under real concurrency, the order in which results enter the channel is not determined.

## Findings

| source | as written | input that shows it | evidently intended | confidence | as-written member | corrected member |
|---|---|---|---|---|---|---|
| relay/relay.go:188-206 | after the recursive call that follows a dummy-id replacement, the outer call rebuilds the URL from the dummy id it read before the update, while the key comes from the new entry | production starter entry `dummy_starter_app_id`, replaced at the prompt by `1a2b3c4d` with key `secret` | the URL names the new id, as main.go:577 does by returning the recursive result | not executed | Relay.StaleAppIDInURL (Relay.Util.SetURLStringAndKey keeps this behaviour) | Relay.ResolveSound |
| log/log.go:225-237 | `formatWithCommas` puts a comma after the minus sign when the digit count is a multiple of 3 | −123 gives "-,123"; this is reachable through `hexToTextOrNumber("-7b")` | "-123": the sign is not a digit | not executed | Format.NegativeGroupingAsWritten, Format.NegativeHexShown | Format.FormatCommasReadsBack, Format.NegativeHexIntended |
| main.go:569 | `getURLStringAndKey` hands the renamed plan `FREETIER_V0` to `askForEnvVarUpdate`. `getAppIDAndKeyKeys` (main.go:909-929) knows only `starter` by name, so the new starter id is written under PRODUCTION_ENTERPRISE_APP_ID | production, starter plan, dummy starter id, answer `1a2b3c4d` | the id is written under PRODUCTION_STARTER_APP_ID, which `gatherAppIDs` reads for FREETIER_V0 | not executed | Cli.StarterUpdateWritesEnterpriseKeys | Cli.DummyUpdateWritesGatheredKeys |
