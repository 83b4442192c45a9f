# Dewey answer pipeline: a verified model

Dewey is a question-answering assistant over a news archive. For each
question it runs two tracked steps. The first asks a language model for a
structured search intent. The second searches the archive for articles.
It then streams an answer in which the model's citation markers `[SRC<n>]`
become links to the retrieved articles. While it works, it reports
progress as a list of steps, each pending or done.

This project models the parts of that system that are logic rather than
service calls, and proves what they promise:

- `wrappers.dfy` (`Wrappers`): `Option` and `Result`.
- `strings.dfy` (`Strings`): the Python string built-ins the code relies
  on. These are `sep.join`, `int()` of a digit string and `str()` of a
  count. It also defines `split` on one character, which the code never
  calls: the model uses it only to read a joined text back line by line.
- `tips.dfy` (`Tips`): the progress texts of `TipFormatter`, all pure.
- `citations.dfy` (`Citations`): the citation index, the `re.sub` citation
  rewrite as a tokenizer plus a renderer, and the streaming loop. It also
  holds the normalisation of an article's content.
- `setup.dfy` (`Setup`): the setup script's environment check and its
  required-field filter for documents to upload.
- `dewey.dfy` (`Dewey`): the step tracker and `process` itself. The tracker
  is modelled as classes: step records are shared objects, the steps list
  is appended to, and a tracker flips its started flag. `process` is
  written twice: once as written, and once as evidently intended (see
  Findings).

The language model, the search service, the clock, the file system and the
environment are not modelled. What they return, or the fact that they
raised, is passed in as a parameter: `Outcome` and `Chunk` values in
`Dewey`, `FileInput` values and an environment map in `Setup`.

Three properties one might expect of the rewrite, the stream and the step
reports do not hold of the code in general, and the model says so:

- Rewritten emissions need not extend each other. The code rewrites the
  whole accumulator each time, so an unfinished marker is shown raw and
  later replaced (`Citations.SplitMarkerIsReplaced`). An emission does
  extend the previous one whenever the condition of
  `Citations.EmissionExtends` holds, and it is never shorter than the
  previous one (`Citations.EmissionNeverShrinks`).
- Emitted step snapshots share the step records. The code uses
  `list.copy()`, a shallow copy. A snapshot keeps its length, but it holds
  the step records themselves and so shows their later status and content
  (`Dewey.SnapshotSharesRecords`).
- No raw `[SRC<n>]` is left in a rewritten text only when no url in the
  source index holds a `[`: the code puts urls into the text unchecked, so
  a url that spells a marker survives as one
  (`Citations.MarkerInUrlSurvives`). Under that condition no marker is
  left (`Citations.RewriteLeavesNoMarker`), and rewriting twice changes
  nothing more (`Citations.RewriteIdempotent`).

## Model

| member | source | states |
|---|---|---|
| Strings.Join | app/tips.py:21 | definition: `sep.join`, the pieces with the separator between each two (also used at app/tips.py:24 and app/setup.py:57) |
| Strings.DecimalValue | app/dewey.py:184 | definition: `int()` of a digit string, read most significant digit first |
| Strings.NatToString | app/tips.py:27 | `str(n)` is a non-empty run of ASCII digits, with no leading zero unless it is `0` |
| Strings.DecimalValueOfNatToString | app/tips.py:27 | reading back the printed count gives the count |
| Strings.DecimalValueLeadingZero | app/dewey.py:184 | `int()` ignores a leading zero |
| Strings.SplitJoin | app/tips.py:24 | splitting a `"\n".join` on `\n` returns the joined pieces when none contains `\n` |
| Strings.JoinKeepsOut | app/tips.py:21 | a join contains no character that is absent from its pieces and separator |
| Strings.JoinConcat | app/setup.py:55-59 | joining two non-empty lists is joining their joins around the separator |
| Tips.NonEmpty | app/tips.py:23 | definition: the filter keeps only non-empty blocks and never adds any |
| Tips.Truthy | app/tips.py:9-13 | definition: a date tests true when it is present and not the empty string |
| Tips.TipMetadata | app/tips.py:2-24 | the tip always begins with `🔍 Searched "<question>"` |
| Tips.SearchText | app/tips.py:3 | definition: `🔍 Searched "` + the question + `"` |
| Tips.DateText | app/tips.py:8-14 | definition: both dates give `⏳ From s to e.`, only the start `⏳ After s.`, only the end `⏳ Until e` with no period, neither gives nothing |
| Tips.DateTextShape | app/tips.py:8-14 | the date line is present exactly when a date is set, opens with `⏳ `, and ends in a full stop exactly when a start date is set (unless the end date itself ends in one) |
| Tips.AuthorText | app/tips.py:16-21 | definition: no authors give nothing, one gives `🖊️ Written by n`, more give the comma-joined names, the serial comma for three or more, and ` and ` before the last |
| Tips.TextBlocks | app/tips.py:23 | definition: the search, date and author texts with the empty ones filtered out |
| Tips.AuthorTextIsEnglishList | app/tips.py:16-21 | the author line is `🖊️ Written by ` + the names as an English list: none is empty, one is the name, two have no comma, three or more have the Oxford comma |
| Tips.JoinThenSerialComma | app/tips.py:21 | the code's join of all but the last name, plus the comma for three or more, equals the serial-comma list |
| Tips.TextBlocksShape | app/tips.py:23 | the blocks are the search text, then the date text if any, then the author text if any |
| Tips.AuthorTextSingleLine | app/tips.py:16-21 | the author line has no line break when the names have none |
| Tips.TipMetadataLines | app/tips.py:23-24 | when no field of the intent holds a line break, the tip has 1 to 3 lines, none empty: the search line first, the date line if any dates are given, the author line last if any authors are given |
| Tips.TipSearch | app/tips.py:26-27 | the tip is `🔍 Retrieved ` + digits + ` articles.`, and the digits read back as the number of sources |
| Citations.NormalizeContent | app/dewey.py:121 | every `\n` and `\r` becomes a space, and every other character is kept in place |
| Citations.NormalizeContentIdempotent | app/dewey.py:121 | normalised content has no line break, and normalising it again changes nothing |
| Citations.SourceIndex | app/dewey.py:164-167 | the index has exactly the keys 1..n, and key i holds the url of the i-th source |
| Citations.BuildSourceUrls | app/dewey.py:164-167 | the loop builds exactly that index |
| Citations.DigitRun | app/dewey.py:183 | `\d+` is greedy: the run is all digits and is followed by no digit |
| Citations.DigitRunExact | app/dewey.py:183 | a digit run followed by a non-digit has exactly that length |
| Citations.MarkerAt | app/dewey.py:183 | a match at the start of the text is `[SRC` + digits + `]` |
| Citations.MarkerAtIsPattern | app/dewey.py:183 | the scanner finds a match at the start exactly when some prefix is `[SRC<digits>]`, and that match is the only one |
| Citations.MarkerAtAppend | app/dewey.py:182-186 | appending text does not change the match test at the start, unless the text is an unfinished marker and the appended text can continue it |
| Citations.Head | app/dewey.py:182-186 | definition: one step of the scan: a complete marker at the start is one marker piece, anything else is one literal character |
| Citations.HeadLength | app/dewey.py:182-186 | each scanning step consumes a non-empty piece of the text |
| Citations.Tokens | app/dewey.py:182-186 | the text is cut into literal characters and complete markers, every marker carrying at least one digit and digits only |
| Citations.TokensRawText | app/dewey.py:182-186 | the pieces of the scan spell out the text: nothing is lost, reordered or duplicated |
| Citations.RenderAppend | app/dewey.py:182-186 | rendering distributes over concatenation of pieces |
| Citations.RenderLength | app/dewey.py:184 | rendering never shortens: literal-only pieces render as their text, and any marker makes the result strictly longer |
| Citations.TokensAppend | app/dewey.py:182-186 | the scan of `a + b` is the scan of `a` then of `b`, when `a` ends in no unfinished marker or `b` cannot continue one |
| Citations.RewriteAppend | app/dewey.py:182-186 | the rewrite distributes over concatenation under the same condition |
| Citations.TokensOfMarker | app/dewey.py:183 | a text starting with a complete marker scans as that marker, then the rest |
| Citations.RewriteOfMarker | app/dewey.py:184 | a leading marker becomes `[[d]](url)`, and the rest is rewritten on its own |
| Citations.RewriteMarkerInContext | app/dewey.py:182-186 | a complete marker anywhere becomes its link, and the text on each side is rewritten independently |
| Citations.NoMarkerAllLiteral | app/dewey.py:182-186 | a text with no complete marker scans as literal characters only |
| Citations.Lookup | app/dewey.py:184 | definition: the url the index holds for a number, or `#` when it holds none |
| Citations.Cite | app/dewey.py:184 | definition: the digits become `[[digits]](url)`, the url found under their integer value |
| Citations.Rewrite | app/dewey.py:182-186 | definition: the scanned pieces rendered, literal characters as themselves and markers as citations |
| Citations.RewriteNoShorter | app/dewey.py:184 | the rewrite never shortens the text |
| Citations.RewriteLonger | app/dewey.py:184 | a text containing a complete marker gets strictly longer |
| Citations.PlainUrls | app/dewey.py:184 | definition: no url the index holds contains `[` |
| Citations.PlainPrefix | app/dewey.py:182-186 | a prefix of the rewrite that holds no `[` is the same prefix of the text |
| Citations.CiteNoMarkerAt | app/dewey.py:184 | when no url holds `[`, no marker starts inside a citation, whatever follows it |
| Citations.LiteralNoMarkerAt | app/dewey.py:182-186 | no marker starts at a character the scan kept literally, since it would have been a marker of the text |
| Citations.RewriteNoMarkerAt | app/dewey.py:182-186 | when no url holds `[`, no position of the rewritten text starts a complete marker |
| Citations.RewriteLeavesNoMarker | app/dewey.py:182-186 | when no url holds `[`, the rewritten text holds no complete marker |
| Citations.MarkerInUrlSurvives | app/dewey.py:184 | the condition is needed: a url spelling the marker it is looked up for leaves a complete marker in the rewrite |
| Citations.RewriteIdempotent | app/dewey.py:182-186 | when no url holds `[`, rewriting the rewritten text changes nothing |
| Citations.RewriteUnchangedIff | app/dewey.py:182-186 | the rewrite leaves the text unchanged exactly when it contains no complete marker |
| Citations.NoBracket | app/dewey.py:182-186 | text without `[` is unchanged, and does not end in an unfinished marker |
| Citations.CitationTarget | app/dewey.py:184 | a citation links to the url of the source it numbers, and to `#` when no source has that number |
| Citations.CiteLeadingZero | app/dewey.py:184 | the digits are copied verbatim, leading zeros included, and zeros do not change the target |
| Citations.Deltas | app/dewey.py:177-179 | definition: only non-empty text deltas reach the accumulator, in order |
| Citations.Emissions | app/dewey.py:180-187 | definition: one emission per delta, each the rewrite of all deltas so far put together |
| Citations.EmissionsAt | app/dewey.py:176-187 | emission k is the rewrite of the first k+1 deltas put together |
| Citations.StreamAnswer | app/dewey.py:176-187 | one emission per non-empty text delta, each the rewrite of the whole accumulator so far |
| Citations.AccumulatorGrows | app/dewey.py:180 | the raw accumulator only grows by appending |
| Citations.EmissionExtends | app/dewey.py:180-186 | an emission extends the previous one by the rewrite of its delta, when no marker is left unfinished across the boundary |
| Citations.RewriteNeverShrinks | app/dewey.py:182-186 | the rewrite of a text is never longer than the rewrite of that text with more appended |
| Citations.EmissionNeverShrinks | app/dewey.py:180-186 | each emission is at least as long as the one before it |
| Citations.OpenSuffix | app/dewey.py:183 | a text ending in an unfinished marker has a suffix that is that marker |
| Citations.OpenMarkerHasNoMarker | app/dewey.py:183 | an unfinished marker contains no complete one |
| Citations.MarkerStaysRewritten | app/dewey.py:180-186 | once a marker is complete in the accumulator, every later emission shows it as its link |
| Citations.SplitMarkerIsReplaced | app/dewey.py:180-186 | an unfinished `[SRC<d>` is emitted raw, and the emission after its `]` is not an extension of that one |
| Citations.SplitCitationStream | app/dewey.py:176-187 | with a marker split across two deltas, the emissions are: the text, the text with the raw `[SR`, then the text with both markers as links |
| Citations.OpenMarkerShownRaw | app/dewey.py:182-186 | plain text followed by `[SR` is emitted unchanged |
| Citations.MarkerBetweenPlainTexts | app/dewey.py:182-186 | a marker between two plain texts is replaced and the texts are kept |
| Citations.ClosedMarkersRewritten | app/dewey.py:182-186 | two markers between plain texts are both replaced |
| Setup.IsSpace | app/setup.py:49 | definition: the characters for which Python's `str.isspace()` holds, which `strip()` removes |
| Setup.Strip | app/setup.py:49 | definition: `strip()`, white space dropped from both ends |
| Setup.IsMissing | app/setup.py:49 | definition: a variable is missing when unset, empty, or white space only |
| Setup.StripLeft | app/setup.py:49 | stripping leading white space never lengthens the text |
| Setup.StripRight | app/setup.py:49 | stripping trailing white space never lengthens the text |
| Setup.StripLeftSpec | app/setup.py:49 | what is dropped is white space, and the kept suffix starts with none |
| Setup.StripRightSpec | app/setup.py:49 | what is dropped is white space, and the kept prefix ends with none |
| Setup.StripEmptyIff | app/setup.py:49 | `strip()` gives `""` exactly when the value is all white space |
| Setup.StripTrims | app/setup.py:52 | a stripped value is empty, or begins and ends with something other than white space |
| Setup.MissingLines | app/setup.py:47-50 | definition: there is at most one line per required variable, each as `  - NAME: description` in declaration order |
| Setup.MissingLinesEmptyIff | app/setup.py:54 | there are no missing lines exactly when no variable is missing |
| Setup.CheckVariables | app/setup.py:44-62 | the loop fails exactly when some variable is unset, empty or blank, with the message listing those; otherwise it returns exactly the variables, with values stripped |
| Setup.ValidateConfiguration | app/setup.py:29-62 | `ConfigurationError` is raised exactly when one of the nine required variables is missing; on success the map has exactly the nine keys, each holding its stripped value |
| Setup.ValidatedValuesTrimmed | app/setup.py:51-52 | a validated value is non-empty and has no white space at either end |
| Setup.MissingLinesSingleLine | app/setup.py:50 | no missing line holds a line break |
| Setup.ErrorMessage | app/setup.py:55-59 | definition: the header line, the missing lines joined by `\n`, a blank line and the hint followed by the `.env` path |
| Setup.ErrorMessageLines | app/setup.py:54-60 | for a `.env` path without a line break, read line by line, the message is the header, the missing lines in order, a blank line and the hint naming the `.env` file |
| Setup.FilterValid | app/setup.py:95-103 | definition: keeping the valid documents never adds any |
| Setup.FileDocuments | app/setup.py:93 | definition: a list is its items, any other value is one document |
| Setup.Truthy | app/setup.py:97 | definition: Python truthiness of a JSON value: null, false, zero and empty strings, lists and objects test false (also used at app/setup.py:105) |
| Setup.Contains | app/setup.py:97 | definition: `field in doc` on a string document, a substring test |
| Setup.FieldMissing | app/setup.py:97 | definition: `field not in doc or not doc[field]`, which raises on a number, boolean or null, on a list holding the field name as a string, and on a string containing the field name |
| Setup.MissingFields | app/setup.py:97 | definition: the required fields that are missing, in order, or the error of the first field whose test raised |
| Setup.FieldPresent | app/setup.py:105 | definition: `field in doc and doc[field]`, which raises on a number, boolean or null, on a list holding the field name as a string, and on a string containing the field name |
| Setup.AllPresent | app/setup.py:105 | definition: `all(...)`, stopping at the first absent field or the first raise |
| Setup.CountValid | app/setup.py:105 | definition: the number of documents that pass `all(...)`, or the first error raised |
| Setup.ScanDocuments | app/setup.py:95-103 | definition: the documents the loop appends, and whether a raised error cut it short |
| Setup.LoadFile | app/setup.py:88-108 | definition: an unreadable file appends nothing and reports an error; a parsed one appends what its scan keeps and reports the count, or an error if anything raised |
| Setup.LoadAll | app/setup.py:88-108 | definition: what every file appends, file after file |
| Setup.LoadOne | app/setup.py:88-108 | one pass of the loop over files appends and reports exactly what `LoadFile` describes |
| Setup.ScanFile | app/setup.py:95-103 | the loop over a file's documents appends exactly what the scan specification keeps |
| Setup.LoadDocuments | app/setup.py:83-110 | files are read in order; the appended documents are what each file yields, and each file gets its report |
| Setup.MissingFieldsAgree | app/setup.py:97 | the field check finds nothing missing exactly when the document is an object with every required field truthy, and `all(...)` at line 105 then agrees |
| Setup.ObjectNeverRaises | app/setup.py:97 | the field check of an object never raises |
| Setup.ScanKeepsValid | app/setup.py:95-103 | a file keeps exactly its valid documents in order; a file cut short by a raised error keeps the valid documents before the raising one |
| Setup.CountMatchesKept | app/setup.py:105 | the printed count equals the number of documents appended from the file |
| Setup.ReportCountsAppended | app/setup.py:105 | a file whose documents raised nowhere reports as loaded, with that count |
| Setup.SingleDocumentFile | app/setup.py:93 | a non-list top-level value is one document: an object is kept and counted exactly when valid, and a number, boolean or null makes the file report an error |
| Dewey.Step.constructor | app/dewey.py:44 | a new step record has its title, is pending and has no content |
| Dewey.StepList.constructor | app/dewey.py:45-46 | a new steps list is empty |
| Dewey.StepList.Append | app/dewey.py:48 | appending adds the record at the end and leaves earlier records in place |
| Dewey.StepYielder.constructor | app/dewey.py:51-54 | a tracker starts unstarted, bound to its record and the steps list |
| Dewey.StepYielder.Start | app/dewey.py:56-62 | the first call sets the content if one is given and returns `("", snapshot)`; every later call returns nothing and changes nothing |
| Dewey.StepYielder.Complete | app/dewey.py:64-68 | the step becomes done, its content is replaced only by a non-empty argument, and the call returns `("", snapshot)` of the current list |
| Dewey.Dewey.constructor | app/dewey.py:20-36 | a new instance has no steps list yet |
| Dewey.Dewey.EnterStep | app/dewey.py:39-48 | with `show_steps`, one pending record for the title is appended at the end (the list is created if missing) and earlier records are untouched; without it, nothing changes and the bare handle is returned |
| Dewey.Dewey.ExitStep | app/dewey.py:71-74 | leaving the block by any route marks a tracked step done and keeps its content |
| Dewey.Dewey.RunStep | app/dewey.py:142-148 | one tracked block: a start report, then a completion report if the service call returned; on exit the step is always done, with its final content |
| Dewey.Dewey.Run | app/dewey.py:126-187 | the steps are reset, the two steps run in order, and the answer is streamed; an error ends the run after the reports already made |
| Dewey.Dewey.RunHidden | app/dewey.py:126-187 | without `show_steps` nothing is recorded; the bare handle raises at once as written, or else only the answer texts are emitted, with an empty steps list |
| Dewey.Dewey.RunShown | app/dewey.py:126-187 | with `show_steps` the two step records, their reports and the answer emissions are exactly those `ProcessedSteps` describes |
| Dewey.Dewey.RunShownSearch | app/dewey.py:151-187 | once the metadata step came through, the search step and the answer leave exactly what `ProcessedSteps` describes, on the same steps list |
| Dewey.Dewey.Process | app/dewey.py:126-187 | as written: with `show_steps` the events are those `ProcessedSteps` describes: four step reports and then one emission per answer text, all sharing the final records, when both service calls return, and fewer reports and a failure when one raises; without it, nothing is yielded and the run fails with AttributeError |
| Dewey.Dewey.ProcessIntended | app/dewey.py:40-42 | as intended: without `show_steps` no step is recorded, and the answer texts are emitted with an empty steps list |
| Dewey.FinalContent | app/dewey.py:56-68 | definition: a step ends with its non-empty completion text, else its non-empty start text, else no content |
| Dewey.ProcessedSteps | app/dewey.py:126-187 | definition: the metadata step first, the search step second when the first came through, both done with their final content; their start and completion reports, then one emission per answer text, all sharing the final records |
| Dewey.SearchFailedSteps | app/dewey.py:151-158 | a run whose search step raised ends after three reports, as `ProcessedSteps` describes |
| Dewey.AnsweredSteps | app/dewey.py:151-187 | a run whose search step came through has four reports and then the answer emissions, as `ProcessedSteps` describes |
| Dewey.Answer | app/dewey.py:164-187 | the answer stage emits the rewrite of each growing prefix of the stream against the source index |
| Dewey.TextEvents | app/dewey.py:187 | one event per answer text, each carrying the same snapshot |
| Dewey.TipsNotEmpty | app/tips.py:3-27 | both tips are non-empty, so completing a step always replaces its content |
| Dewey.HiddenStepsRaise | app/dewey.py:142-143 | as written, hiding the steps yields nothing and fails, even when every service call succeeds |
| Dewey.HiddenStepsAnswer | app/dewey.py:176-187 | as intended, hiding the steps emits exactly the answer texts, with empty snapshots |
| Dewey.SnapshotSharesRecords | app/dewey.py:61-68 | a report taken while a step was pending keeps its length, but shows the record done with its completion content |
| Dewey.StartReportsOnce | app/dewey.py:56-62 | a second `start` returns nothing; `complete` always returns a report; only the first `start` content is kept |

## Left out

- Service calls: `generate_metadata`, and the embedding and search calls of
  `retrieve_articles` (app/dewey.py:76-124). Their results, or the fact that
  they raised, are parameters.
- `json.dumps` and `json.loads` of the sources are not modelled: a source
  is a `Source` record, and the url read back is the url written.
  `dateutil.parse` of the publish date is left out.
- The conversation messages and prompts sent to the model
  (app/dewey.py:135-139, 160-161) are service inputs. They are not modelled.
- `datetime.now()` and `strftime` (app/dewey.py:131-132) are left out;
  nothing in the model depends on the date.
- Generator suspension is not modelled. A run produces its events as one
  sequence, so a snapshot's records show their final state. A consumer
  reading at the moment of the yield would see the state at that moment.
  Early closing of the generator is not modelled.
- The single `Dewey` instance shared by all sessions (app/main.py:27) is a
  concurrency concern and is left out. app/main.py is not part of this
  model.
- The metadata is typed (`Tips.Metadata`): a key missing from the model's
  JSON, which would raise in `tip_metadata`, shows up only as a raised
  `Outcome`.
- Citations.MarkerAt: `\d` is modelled as the ASCII digits `0`-`9`; Python
  also matches other Unicode decimal digits.
- Citations.Cite: Python's limit of 4300 digits for `int()` of a string is
  not modelled.
- Setup.Truthy: JSON numbers are modelled as reals. The `NaN` and
  `Infinity` that `json.load` also accepts are left out.
- The `print` output of `load_documents` is left out: the skip message with
  the missing field names, and the error text. The per-file outcome is kept
  as a `FileReport`.
- `load_dotenv`, `os.getenv`, `open` and `json.load` are left out: the
  environment is a map, and each file is its parsed value or `Unreadable`.
- The other setup steps (`check_data_folder`, blob upload, index and indexer
  creation, `run_setup`) and app/setup/search_manager.py are SDK plumbing
  with no logic of their own.
- app/tools/ and app/models/ hold prompt text, a tool schema and plain
  record types; they are not part of this model.

## Findings

| source | as written | input that shows it | evidently intended | confidence | as-written member | corrected member |
|---|---|---|---|---|---|---|
| app/dewey.py:40-42 | with `show_steps=False` the step is `lambda: None`, but `process` calls `step.start(...)` on it (line 143), which raises AttributeError before anything is yielded | `process(message, history, show_steps=False)` with every service call succeeding | hiding the steps suppresses the step reports only; the answer is still streamed, with an empty steps list | not executed | Dewey.HiddenStepsRaise | Dewey.HiddenStepsAnswer |
