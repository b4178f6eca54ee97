# A verified model of the benchmark harness

The harness under `harness/` measures streaming systems that read Kafka and write ClickHouse. Its
numbers are only as good as a few codecs, hand-written parsers and decision procedures. This project
models those in Dafny and proves what each of them is for, over every input, every run and every
point of failure.

`dafny verify dfyconfig.toml` checks everything. There is one module per file. `Arithmetic` and
`Unicode` hold what several of them share.

| area | modules | main results |
|---|---|---|
| Native block encoder and its reference decoder | `Wire`, `Decimal`, `Cells`, `Native`, `NativeFormat`, `NativeDecoder`, `NativeReader` | a non-empty block reads back exactly when its header spells the cells' types; a zero-row block exactly when no column is LowCardinality |
| RowBinary and JSONEachRow | `RowBinary`, `JsonText`, `JsonRows`, `JsonFacts` | both carry the rows the Native block carries; a JSON block is one line a row, its text given byte for byte |
| Pipelined Kafka fetch client | `FetchWire`, `FetchFacts`, `FetchLemmas`, `FetchLog`, `FetchClient`, `FetchFairness` | what is reported is exactly the records between the offsets at warm-up and at exit, however responses are cut; when a run succeeds; no partition starves |
| Placeholders | `Placeholders`, `PlaceholderValues`, `PlaceholderNames` | replacing token by token is one simultaneous substitution exactly under a guard on the values, for exactly the names that are apart; a validated descriptor leaves only the values to the guard; what each spelling stands for |
| SQL splitter | `SplitSql`, `SplitSqlText` | refines a lexer of three regions, keeps every quoted text whole, distributes over `;` exactly outside quotes and comments, emits fixed points |
| Oracle and gate | `Corpus`, `CorpusFacts`, `Gate`, `GateReadings` | the gate passes exactly when no kept row is lost, and is blind to copies and to what a quality says; what each check means for any table |
| Paced producers | `Producers` | nothing sent twice or early under any interleaving, and the lag reported is the largest there was; no run can repeat an id of any earlier one exactly when every run stopped balanced, which one-thread loads always do and larger ones need not |
| Concurrency sweep and consume window | `Sweep`, `Backlog` | a pass climbs 2, 4, 8 … up to its bound until two rungs miss, is accepted exactly when nothing refuses it, and then its ceiling is one; the window is the longest that leaves every consumer three tenths of its backlog |
| Dataset version | `Normalise`, `NormaliseText`, `Dataset`, `DottedPaths`, `CanonicalText`, `Twins` | the normal form is a fixed point; the hashed stream is injective; exactly which workload files share a canonical form |
| Chunked HTTP | `Http`, `HttpText` | any prefix of a response gives exactly the chunks that fully arrived; exactly when a plain response decodes to its body |
| Arm lifecycle | `Arms` | for every way the steps of a sweep can end, nothing reaches a truncation or another arm's window but what drops and removals that failed left there; a visit is measured exactly when no step but a container's removal fails |

Strings that travel on a wire are UTF-8 bytes (`Wire.Text`); strings the harness scans character by
character are `string`. A loop of the program is a method with a loop; it is proved equal to a
function, and the results are proved of that function. A step that can fail for reasons outside the
program draws its outcome from an oracle, and the results hold for every oracle. A sweep's state is what
its recorded steps, ending as the oracle has it, left behind. Producer threads are
a state machine whose steps interleave freely.

## Where the code and its own text disagree

The model follows the code. Each of these has its exact condition, and a lemma that names an input.

* The reference decoder demands a LowCardinality key version even where the encoder, having no rows,
  writes none (`NativeDecoder.ZeroRowBlock`, `NativeDecoder.EmptyBlockOfTheTable`).
* The comment at `harness/src/driver.rs:2092-2099` claims `batch_id`s disjoint from every earlier run.
  Threads that stop a round apart break it (`Producers.DisjointFromEveryEarlier`),
  which can happen exactly above 60,000 messages a second (`Producers.CollidesExactly`,
  `Producers.RunsCanCollide`).
* A `//` comment added to a line that ends in a division sign takes the sign with it
  (`Normalise.CommentIsImmaterial`, `Normalise.LastSlashIsTaken`).
* The canonical form of the workload file refuses separators in values but not in keys; a newline in a
  key makes two files one (`Twins.AmbiguityIsExact`, `Dataset.NewlineInKeyIsAmbiguous`), and any file of
  two leaves shares its form with one whose only key spells the rest (`Twins.TwinsExactly`). Tabs in keys
  do no harm.
* The gate takes sums over distinct rows, so a wrong copy of a kept row passes exactly when it adds
  nothing to any of them (`Gate.StrayVersion`, `Gate.HollowRowPasses`).
* Token-by-token replacement is one substitution exactly when every token resolves, no value holds `{{`
  and no value ending in `{` stands before a `{` (`Placeholders.SubstitutionIsSimultaneous`,
  `Placeholders.NestedValueIsReplacedAgain`), provided that no token's text holds that of another one whose
  turn comes earlier; without that, some values break it (`PlaceholderNames.NamesAreExact`,
  `Placeholders.NestedNameIsRefused`).
* `decode` looks for the chunked header in the body too, so a plain response is decoded to its body
  exactly when the body does not hold those words (`Http.PlainResponse`, `Http.BodyIsMistaken`).
* In a release build a chunk size from 2^64 - 2 on wraps, and decoding goes on right behind its line
  (`Http.SizeWraps`, `Http.HexLineWraps`); every smaller one is decoded as meant.

## Model

| member | source | states |
|---|---|---|
| Wire.VarintRoundTrip | harness/src/ceiling.rs:3345-3357 | every u64 is read back from its LEB128 form whatever follows it |
| Wire.StrRoundTrip | harness/src/ceiling.rs:3359-3363 | every string is read back from its length-prefixed form whatever follows it |
| Native.PutVarint | harness/src/ceiling.rs:3345-3357 | the loop over seven-bit groups appends exactly the LEB128 form |
| Native.WidthIsTight | harness/src/ceiling.rs:3407-3440 | every index of a dictionary fits the chosen width, and the next narrower width would not hold its largest index |
| NativeFormat.GroupIsRead | harness/src/ceiling.rs:3443-3450 | a reader that takes the index width from the low byte by number (0, 1, 2, 3 for 1, 2, 4, 8 bytes), and demands the flags 512 and 1024, reads back every non-empty group |
| NativeFormat.KeyVersionIsOne | harness/src/ceiling.rs:3713-3748 | a LowCardinality or array column starts with the eight bytes of key version 1 |
| NativeFormat.DictInOrder | harness/src/ceiling.rs:3473-3520 | behind the empty string at 0 a dictionary holds the block's values in the order in which they first appear, and nothing else |
| NativeFormat.NullIsOneAndZeros | harness/src/ceiling.rs:3713-3748 | a null row is a one in the null map and eight zero bytes in its slot; any other is a zero and its bits |
| Native.DictHoldsItsValues | harness/src/ceiling.rs:3508-3520 | every value pushed has an entry in the interned dictionary |
| Native.DictHasNoDuplicates | harness/src/ceiling.rs:3508-3520 | no entry of the interned dictionary appears twice |
| Native.Dictionary.Push | harness/src/ceiling.rs:3508-3520 | interning one more value keeps entries and indexes those of the values pushed so far |
| Native.Dictionary.WriteGroup | harness/src/ceiling.rs:3522-3560 | one group: width code, entries and every index in the chosen width; what the code says by number is `NativeFormat.GroupIsRead` |
| Native.Column.Push | harness/src/ceiling.rs:3616-3672 | a cell of the column's shape is appended to the accumulated vectors, and any other is refused |
| Native.Column.WriteNative | harness/src/ceiling.rs:3713-3748 | the accumulated vectors are written as the column's block bytes: null map before slots, offsets before the group |
| Native.Transpose | harness/src/ceiling.rs:3765-3800 | rows of equal width and shape become columns holding the same cells, and exactly irregular rows are refused |
| Native.EncodeNativeBlock | harness/src/ceiling.rs:3750-3809 | counts, names, types and columns of the rows, in the order of the format, or a refusal exactly when the rows are not rectangular; the bytes of each part are read back by `NativeFormat.GroupIsRead` and `NativeDecoder.NativeRoundTrip` |
| Cells.TypeNameParses | harness/src/ceiling.rs:3295-3306 | the type a cell claims in a header is the type the decoder reads from that spelling |
| Cells.LooseScalesParse | harness/src/ceiling.rs:6047-6053 | the decoder takes a plus sign in front of a scale and openings and closings too many or too few |
| NativeDecoder.GroupRoundTrip | harness/src/ceiling.rs:5952-5990 | every non-empty group is read back value by value, for every dictionary size and index width |
| NativeDecoder.NullableRoundTrip | harness/src/ceiling.rs:6024-6067 | every null pattern is read back, a null slot's filler being ignored |
| NativeDecoder.ArraysRoundTrip | harness/src/ceiling.rs:6024-6067 | arrays are cut out of the flattened values by cumulative offsets, empty ones included |
| NativeDecoder.ColumnRoundTrip | harness/src/ceiling.rs:6010-6067 | every column of every type reads back its cells and leaves what follows |
| NativeDecoder.NativeRoundTrip | harness/src/ceiling.rs:5992-6067 | a non-empty block decodes to exactly its header and rows if and only if the header spells the cells' types |
| NativeDecoder.DeclaredTypesAgree | harness/src/ceiling.rs:3295-3306 | a header spelled as the cells declare meets that condition |
| NativeDecoder.ZeroRowBlock | harness/src/ceiling.rs:6014-6024 | a block without rows decodes, to no rows, if and only if no column has a key version |
| NativeDecoder.EmptyBlockOfTheTable | harness/src/corpus.rs:391-404 | the block of the twelve columns every encoder call declares, without rows, does not decode |
| NativeReader.DecodeBlock | harness/src/ceiling.rs:5887-6067 | the cursor-driven reader computes the decoder the round trips are about, panics included |
| RowBinary.CellRoundTrip | harness/src/ceiling.rs:3308-3342 | RowBinary cells are self-delimiting for each column type |
| RowBinary.RowBinaryRoundTrip | harness/src/ceiling.rs:4302-4340 | a reader of the format recovers every row list |
| RowBinary.NamesAndTypesRoundTrip | harness/src/ceiling.rs:4302-4340 | the names-and-types header is read back |
| RowBinary.SameRows | harness/src/ceiling.rs:3308-3342 | Native and RowBinary bytes of the same rows decode to the same rows |
| RowBinary.EncodeRows | harness/src/ceiling.rs:4302-4340 | the row loop writes the optional header and every row's cells in order |
| JsonText.StringRoundTrip | harness/src/ceiling.rs:3846-3882 | unescaping by section 7 of RFC 8259 recovers every string |
| JsonText.StringIsPrintable | harness/src/ceiling.rs:3865-3882 | an escaped string holds no control character, hence no newline |
| JsonText.PushJsonString | harness/src/ceiling.rs:3865-3882 | the character loop appends exactly the quoted, escaped string |
| JsonText.PointRecoversTicks | harness/src/ceiling.rs:3919-3969 | deleting the point from a timestamp leaves a numeral of its ticks, and the fraction has exactly `scale` digits |
| JsonText.TimestampRoundTrip | harness/src/ceiling.rs:3947-3969 | a timestamp reader recovers the ticks at the same scale |
| JsonRows.CellRoundTrip | harness/src/ceiling.rs:3971-4020 | every cell is read back by its column type up to the comma or brace behind it |
| JsonRows.JsonRoundTrip | harness/src/ceiling.rs:4022-4082 | cutting a block at newlines gives exactly one line a row, each read back as its row |
| JsonRows.WriteJson | harness/src/ceiling.rs:3988-4020 | a cell's text, or a refusal exactly for a non-finite float or a timestamp that is negative or out of scale |
| JsonRows.EncodeJsonEachRow | harness/src/ceiling.rs:4037-4082 | hoisted keys and the row loop produce the block, or a refusal exactly when some row has none |
| JsonFacts.StringByText | harness/src/ceiling.rs:3865-3882 | a string is itself between two quotes, a quote and a backslash behind a backslash, a control character as `\u00` and two lower-case hexadecimal digits |
| JsonFacts.TimestampByText | harness/src/ceiling.rs:3947-3969 | a timestamp is seconds without a zero in front, a point and exactly `scale` digits between quotes, and without the point the digits are the ticks |
| JsonFacts.FiniteByNumber | harness/src/ceiling.rs:4002-4008 | the floats refused are the infinities and NaNs of either sign, by their bit patterns |
| JsonFacts.CellByText | harness/src/ceiling.rs:3988-4020 | integers are bare decimal digits, a missing figure is `null`, arrays stand between brackets |
| JsonFacts.RowByText | harness/src/ceiling.rs:4037-4082 | a line is its fields, quoted name, colon and value, between braces with commas between them |
| JsonFacts.BlockByText | harness/src/ceiling.rs:4037-4082 | a block is its lines, each ended by a newline |
| FetchFacts.HeaderByNumber | harness/src/fetcher.rs:579-604 | what a batch header says, place by place and byte by byte; a batch of another magic or a compressed one is refused |
| FetchLemmas.BatchesHold | harness/src/fetcher.rs:579-604 | in a record set cut anywhere the header walk finds exactly the whole batches and advances past them |
| FetchLemmas.ResponseHolds | harness/src/fetcher.rs:551-609 | over a whole response, null aborted lists and null record sets included, the walk does so for each partition in turn |
| FetchLemmas.CountHolds | harness/src/fetcher.rs:625-655 | counting the located spans tallies every record and every value byte in them |
| FetchLog.StepConserves | harness/src/fetcher.rs:551-655 | one response's count is exactly the records its offsets moved past, whatever its parts leave null or cut |
| FetchLog.ReadIsAdvance | harness/src/fetcher.rs:664-697 | the messages read between two positions are the total offset advance |
| FetchClient.VarintAt | harness/src/fetcher.rs:612-622 | the zig-zag varint loop equals its specification, running off the end included |
| FetchClient.LocateIn | harness/src/fetcher.rs:551-609 | the nested walk over topics, partitions and batches equals its specification |
| FetchClient.CountIn | harness/src/fetcher.rs:625-655 | the walk over records equals its specification, refusals included |
| FetchClient.Broker.Exactly | harness/src/fetcher.rs:486-501 | short reads are joined into a view of the one reused buffer, or the connection was closed |
| FetchClient.Broker.Recv | harness/src/fetcher.rs:478-484 | a framed response with the expected correlation id is returned whole whenever the stream holds one |
| FetchClient.Turn | harness/src/fetcher.rs:675-693 | the next fetch goes out first, and the count still reads the bytes the walk parsed |
| FetchClient.Window | harness/src/fetcher.rs:671-693 | the measured window keeps the tally equal to the records read since warm-up, and ends well exactly when its clock runs out before the answers do and no answer reports a drained partition |
| FetchClient.Consumer | harness/src/fetcher.rs:658-697 | a run succeeds exactly under that condition; what it reports is exactly the records between the offsets after warm-up and at exit; every request names the offsets and the rotated order that the responses before it left |
| FetchFairness.RotationCycles | harness/src/fetcher.rs:675-678 | after k responses the partition named first is the k-th of the cycle |
| FetchFairness.Fairness | harness/src/fetcher.rs:528-548 | after n times k fetches in which the first-named partition is always served, each of n partitions has passed at least k batches of its log, and its offset has moved by exactly their records |
| Placeholders.PlaceholderTokens | harness/src/entrant.rs:543-563 | the scanning loop yields the tokens of a recursive scanner |
| Placeholders.ValidateEnv | harness/src/entrant.rs:980-1034 | every error of every token, in order, for the variants it binds to |
| Placeholders.Substitute | harness/src/driver.rs:3211-3276 | the tokens' replacements in turn, refused exactly when a double brace is left; the value of each spelling is given by the `PlaceholderValues` rows |
| PlaceholderValues.AddressesAreSpelled | harness/src/driver.rs:3233-3248 | `{{broker_internal}}`, `{{registry_internal}}`, `{{clickhouse_internal}}` and `{{clickhouse_password}}`, by their text, become the broker's, the registry's and the server's address and the password |
| PlaceholderValues.ConsumerIsSpelled | harness/src/driver.rs:3238-3253 | `{{topic}}`, `{{group_id}}` and `{{offset_reset}}`, by their text, become the topic, the group and the offset reset |
| PlaceholderValues.KnobIsSpelled | harness/src/driver.rs:3220-3254 | `{{knob:k}}` becomes the override where there is one and the variant's knob otherwise, a string as it is |
| PlaceholderValues.IntegerIsSpelled | harness/src/driver.rs:3286-3291 | an integer knob is the decimal numeral that reads as it, a minus sign before that of a negative one |
| PlaceholderValues.ContainerIsSpelled | harness/src/driver.rs:3255 | `{{container:c}}` becomes the name of that container |
| PlaceholderValues.UnknownIsRefused | harness/src/driver.rs:3256-3274 | a spelling that is none of the nine is refused at run time and reported by validation |
| PlaceholderValues.MissingIsRefused | harness/src/driver.rs:3254-3274 | so is the name of a knob or container that is not there, at run time |
| Placeholders.TurnRenders | harness/src/driver.rs:3225-3262 | one token's replacement changes its own occurrences and nothing else, for any values the guard admits |
| Placeholders.GuardIsExact | harness/src/driver.rs:3264-3276 | a simultaneous substitution leaves no double brace if and only if every token closes and resolves, no value holds one, and no value ending in a brace stands before a brace |
| Placeholders.SubstitutionIsSimultaneous | harness/src/driver.rs:3211-3276 | for names that are apart, replacing in turn equals replacing all tokens at once, with nothing to refuse, if and only if that leaves no double brace, which is if and only if the guard holds; values are arbitrary |
| Placeholders.ValidatedSubstitution | harness/src/entrant.rs:980-1034 | in a descriptor without validation errors every token closes and resolves, for every variant and override, so only the values decide; values without a double brace or a brace at the end always pass |
| Placeholders.NestedValueIsReplacedAgain | harness/src/driver.rs:3225-3262 | a value that spells another token is replaced again |
| Placeholders.NestedNameIsRefused | harness/src/driver.rs:3225-3276 | a name that holds another token's opening is broken by that token's turn, and the substitution is refused although the guard holds |
| PlaceholderNames.NamesAreExact | harness/src/driver.rs:3225-3276 | over the known vocabulary, every choice of values the guard admits is substituted simultaneously if and only if no token's text holds that of another one whose turn comes earlier |
| SplitSql.Split | harness/src/corpus.rs:695-758 | the quote-tracking loop emits the statements of the three-region lexer; which characters open a region is said by the `SplitSqlText` rows |
| SplitSql.LexAppend | harness/src/corpus.rs:695-758 | any text behind a prefix is lexed from the region the prefix ends in, behind a dash, backslash or closing quote that is still undecided |
| SplitSql.LexSemicolon | harness/src/corpus.rs:695-758 | behind a semicolon nothing is undecided: in code the text is lexed afresh, in a comment `;x` vanishes, in quotes it is content |
| SplitSql.DistributesExactly | harness/src/corpus.rs:695-758 | splitting distributes over `;` behind a text if and only if that text ends outside quotes and comments |
| SplitSql.StatementsAreFixedPoints | harness/src/corpus.rs:695-758 | every emitted statement splits into exactly itself |
| SplitSqlText.RegionIsOneStatement | harness/src/corpus.rs:695-758 | between two single quotes, double quotes or backticks any text whose inner delimiters are doubled or escaped is one statement, semicolons, dashes and the other quotes included |
| SplitSqlText.QuotedTexts | harness/src/corpus.rs:695-758 | so is text without delimiter and backslash, with a doubled delimiter inside, and with an escaped character inside |
| SplitSqlText.PlainTextIsCut | harness/src/corpus.rs:695-758 | text without those three characters, semicolons and double dashes opens nothing: a semicolon behind it ends the statement |
| SplitSqlText.CommentVanishes | harness/src/corpus.rs:695-758 | two dashes behind such text, and what follows them in their line, vanish |
| SplitSqlText.TrimByText | harness/src/corpus.rs:695-758 | trimming takes all the whitespace around a text and nothing else, and leaves nothing of a blank text |
| Unicode.WhiteByNumber | harness/src/corpus.rs:695-758 | what trimming removes are the 25 code points of the White_Space property |
| Corpus.KeptEvent | harness/src/corpus.rs:175-182 | every batch keeps at least one event, one being exhibited |
| Corpus.KeepsHasPeriod200 | harness/src/corpus.rs:121-182 | the filter repeats every 200 batches |
| Corpus.WindowsOf200Agree | harness/src/corpus.rs:542-553 | any 200 consecutive batches keep the same number of rows |
| Corpus.ExpectedRange | harness/src/corpus.rs:591-641 | the nested loops sum what every kept event adds, column by column |
| Corpus.ExpectedRows | harness/src/corpus.rs:542-553 | the cheap count equals the row field of the full expectation |
| Corpus.RangeComposes | harness/src/corpus.rs:555-641 | the expectation of a range is the field-wise sum of those of its parts |
| CorpusFacts.LastEventOf987653 | harness/src/corpus.rs:90-182 | every field of one event, written out |
| CorpusFacts.SecondEventOf50 | harness/src/corpus.rs:90-182 | every field of an event without region, written out, its three tags included |
| CorpusFacts.UnitsInTurn | harness/src/corpus.rs:121-125 | the eight units by name, in turn |
| CorpusFacts.FilterByMeaning | harness/src/corpus.rs:175-182 | an event is kept if and only if its unit does not read "drop" and no quality is below 0.2 |
| CorpusFacts.ScaledIsFloor | harness/src/corpus.rs:168-172 | the scaled value is the largest whole number that, times the event's position, does not exceed a thousand times the value |
| CorpusFacts.FingerprintByBytes | harness/src/corpus.rs:442-457 | a string's fingerprint is the number its first eight bytes spell, lowest first, plus that of its last eight backwards |
| CorpusFacts.ColumnsOfEvent | harness/src/corpus.rs:606-641 | what one event adds to each column, a missing region counting nothing |
| CorpusFacts.ConcatJoins | harness/src/corpus.rs:606-641 | tags are joined with nothing between them |
| Gate.GatedBatches | harness/src/corpus.rs:1536-1547 | a batch is gated if and only if the table holds an earlier and a later one and none more than `max_batches` later |
| GateReadings.RowOf50 | harness/src/corpus.rs:90-182 | the row of one event, column by column, written out |
| GateReadings.RowsMatchExactly | harness/src/corpus.rs:1615-1626 | the row check passes if and only if as many events that should have been dropped are present as kept ones are missing |
| GateReadings.UnfilteredIsRefused | harness/src/corpus.rs:1615-1626 | a table with every kept event and one that should have been dropped is refused |
| GateReadings.ChecksByMeaning | harness/src/corpus.rs:1552-1639 | for any table: how many rows and copies there are, whether every gated batch has a row, and whether no stamp is before the base |
| GateReadings.SumsByColumn | harness/src/corpus.rs:1577-1637 | each of the ten sums over distinct rows is compared with that of the kept events' same column |
| GateReadings.TagCountIsAByte | harness/src/corpus.rs:1577-1594 | an array's length is counted modulo 256 |
| GateReadings.BlindToQuality | harness/src/corpus.rs:1577-1594 | changing qualities that are not null changes no reading of any table |
| Gate.ExactOnLoss | harness/src/corpus.rs:1514-1639 | over genuine rows wide enough to gate, the gate passes if and only if every kept row of the gated batches is present and any batch is gated at all |
| Gate.BlindToCopies | harness/src/corpus.rs:1370-1384 | copies of present rows change only the two counts, each by exactly the copies in the gated batches, for any table |
| Gate.BlindToOrder | harness/src/corpus.rs:1548-1594 | row order is immaterial |
| Gate.StrayVersion | harness/src/corpus.rs:1563-1639 | a wrong version of a kept row beside a complete table passes if and only if it adds nothing to any of the ten sums |
| Gate.HollowRowPasses | harness/src/corpus.rs:1563-1639 | a version of a kept row with every field empty or zero, added to the table of any correct run, passes the gate |
| Gate.KeptRangeSums | harness/src/corpus.rs:591-641 | the distinct projection of a complete range has the expectation's sums and row count |
| Producers.EveryRunHolds | harness/src/corpus.rs:963-1050 | every step of every interleaving keeps the log faithful, full and free of repeats |
| Producers.SafeUnderEveryInterleaving | harness/src/corpus.rs:963-1050 | no batch is sent twice or before it is due, and each stamp is the origin plus the scheduled offset |
| Producers.NoHoleBelowTheSlowest | harness/src/corpus.rs:987-994 | every index below the smallest next index of any thread has been sent |
| Producers.NeverAheadOfSchedule | harness/src/corpus.rs:300-314 | after E microseconds at most ceil((E+1) * rate / 10^6) messages are out |
| Producers.DueOnTime | harness/src/corpus.rs:300-314 | a message is due in the microsecond of its turn at the rate, not later and less than one earlier |
| Producers.DueByExactly | harness/src/corpus.rs:300-314 | the messages due within E microseconds are the first ceil((E+1) * rate / 10^6) and no others |
| Producers.LagIsLargest | harness/src/corpus.rs:995-1008 | in every run, the lag a thread reports is the largest lateness any of its looks at the clock found, and zero if it was never behind |
| Producers.Producer.Turn | harness/src/corpus.rs:986-1046 | one turn of a thread's loop is the machine's steps from any state, and queues what the machine logs |
| Producers.DisjointIffBalanced | harness/src/driver.rs:2092-2099 | a run started past what this one left can never repeat an id of it if and only if no thread of this one had gone past the number of messages sent |
| Producers.DisjointFromEveryEarlier | harness/src/driver.rs:2092-2099 | over any number of stopped runs on one topic, no next run can repeat an id of any run before it if and only if every one of them stopped balanced |
| Producers.CollidesExactly | harness/src/driver.rs:2646-2660 | for loads sized as the driver sizes them, every run is balanced up to 60,000 messages a second, and above that some stopped run is not |
| Producers.RunsCanCollide | harness/src/driver.rs:2092-2099 | at 60,001 messages a second, which the driver shares between two threads, a stopped run that sent two messages lets the next run repeat an id |
| Sweep.Sweep.Observe | harness/src/ceiling.rs:2207-2235 | one rung's figure updates points, incumbent, misses and next rung by the plateau rule; the rule by its numbers is `Sweep.PatienceByNumber` |
| Sweep.EverySweepKeeps | harness/src/ceiling.rs:2148-2255 | the ladder climbs strictly and ends at its bound; the incumbent is strictly above all before it and beaten by the margin by none after; the sweep stops exactly at a plateau or the bound |
| Sweep.FewRungs | harness/src/ceiling.rs:2160-2174 | n rungs need a bound above 2^(n-2) |
| Sweep.Climbed | harness/src/ceiling.rs:2593-2662 | the loop drives each rung the sweep asks for and stops at a failure as the code distinguishes them |
| Sweep.WinnerIsCeiling | harness/src/ceiling.rs:2664-2692 | a strictly higher rung was driven, none exceeds 1.03 times the winner, all lower ones are strictly below it |
| Sweep.LadderByNumber | harness/src/ceiling.rs:2125-2174 | the first rung is two, or the bound below it, and each later one twice the one before, or the bound |
| Sweep.PatienceByNumber | harness/src/ceiling.rs:2207-2235 | the winner is the last rung more than 3% above the winner before it; no rung is driven behind two that missed, and a ladder ends only at two misses, the bound or a rung that fails |
| Sweep.MeasureIngest | harness/src/ceiling.rs:2564-2800 | the ladder was climbed, by the two rows above, to its end; the pass is accepted if and only if nothing refuses it, each refusal having its own cause, and what is accepted is the winner of the ladder, a ceiling |
| Backlog.PartitionSplit | harness/src/ceiling.rs:1803-1810 | consumer i gets every threads-th partition from the i-th on |
| Backlog.EveryPartitionOnce | harness/src/ceiling.rs:1795-1810 | every partition goes to exactly one consumer, once |
| Backlog.SplitIsEven | harness/src/ceiling.rs:1786-1810 | sizes differ by at most one, and none is empty if and only if there are at least as many partitions as consumers |
| Backlog.WindowIsLongestThatLeavesBacklog | harness/src/ceiling.rs:1812-1870 | the window is the longest, up to the request, that leaves every consumer 30% of its backlog at its stream share of the rate |
| Backlog.ThreeTenthsAreLeft | harness/src/ceiling.rs:1812-1870 | the window is the longest, up to the request, in which a consumer of k of n partitions, reading k/n of the rate, reads at most seven tenths of what lies in them |
| Backlog.RateIsShared | harness/src/ceiling.rs:1848-1864 | k of n fetch streams carry k/n of the rate |
| Backlog.AssignedToAll | harness/src/ceiling.rs:1837-1843 | what all partitions hold is the sum of their depths |
| Backlog.StreamsAreThePartitions | harness/src/ceiling.rs:1848-1857 | the fetch streams of a split are the partitions it was made of |
| Backlog.RequestStands | harness/src/ceiling.rs:1843-1857 | without a rate, a message or a partition the window is the one requested |
| Backlog.WindowIsNotNegative | harness/src/ceiling.rs:1867-1870 | the window is a valid duration |
| Normalise.StripLineComment | harness/build.rs:427-441 | the index loop finds where the scanner enters a comment and whether a string is left open |
| Normalise.NormaliseRust | harness/build.rs:406-424 | line by line, the normaliser computes what one scan over the characters does, panics included |
| NormaliseText.CollapseByText | harness/build.rs:443-446 | however a text is spread over whitespace, what is left are its words with one space between each and the next; every text can be cut so (`CutOf`) |
| NormaliseText.RefusedExactly | harness/build.rs:406-424 | a source is refused if and only if it holds `/*` anywhere or some line leaves a string open |
| Normalise.FixedPoint | harness/build.rs:406-446 | normalising what has been normalised changes nothing and never panics |
| Normalise.WhitespaceIsImmaterial | harness/build.rs:389-446 | rewrapping or changing amounts of whitespace outside comments, and within strings short of a newline, changes nothing |
| Normalise.CommentIsImmaterial | harness/build.rs:389-441 | adding a `//` comment to a line changes nothing if and only if the line has one already or does not end in `/` |
| Normalise.LastSlashIsTaken | harness/build.rs:427-441 | a line ending in `/` loses it to an added comment |
| Dataset.Absorb | harness/build.rs:252-268 | label, NUL, eight-byte length and bytes are fed to the digest in that order |
| Dataset.AbsorbAll | harness/build.rs:217-232 | absorbing the inputs in turn feeds the digest their whole framed stream |
| Dataset.StreamIsInjective | harness/build.rs:252-268 | equal streams come from equal inputs, for any NUL-free labels |
| Dataset.LeavesAreReached | harness/build.rs:332-350 | the leaves are exactly the scalars that routes through tables and arrays reach, each with the path built along its route; that path is the keys joined by dots by `DottedPaths.LeafIsDotted` |
| Dataset.CanonicalToml | harness/build.rs:325-364 | recursive flattening, sorting and joining compute the canonical form, panics included; what paths it renders is said by the `DottedPaths` rows |
| Dataset.CanonicalIsExact | harness/build.rs:309-364 | equal canonical text if and only if the same bag of (path, type, value) leaves, for keys without newlines |
| DottedPaths.LeafIsDotted | harness/build.rs:332-350 | a leaf is a scalar some route leads to, and its path is the keys and decimal positions along the route joined by dots (empty ones at the front leave no mark) |
| DottedPaths.TidyFilesAreExact | harness/build.rs:309-364 | for keys that are not empty and hold neither dot nor newline: equal canonical text if and only if the same scalars at the same lists of keys and positions |
| CanonicalText.LineByText | harness/build.rs:352-364 | a leaf's line is its path, a tab, `s`, `i`, `f` or `b`, a tab, its value (an integer in decimal, a boolean as `true` or `false`) and a newline |
| CanonicalText.FormByText | harness/build.rs:325-330 | the form is those lines, one a leaf, in the order of their code points |
| CanonicalText.RefusedExactly | harness/build.rs:352-364 | a file has no form if and only if some leaf is a datetime or a string that holds a tab or a newline |
| Dataset.KeyOrderIsImmaterial | harness/build.rs:309-330 | values equal up to permuting the entries of any of their tables, at every depth, have one canonical form |
| Dataset.NewlineInKeyIsAmbiguous | harness/build.rs:319-330 | a newline in a key lets a table of one entry share its form with a table of two |
| Twins.AmbiguityIsExact | harness/build.rs:309-364 | a renderable value shares its form with some newline-free file of other leaves if and only if a newline stands in one of its own paths and its text, cut at newlines, is an ordered list of leaf lines, at most one of them without a path |
| Twins.TwinsExactly | harness/build.rs:309-364 | a newline-free file shares its form with any file of other leaves if and only if it has at least two leaves |
| Twins.LineGivesBack | harness/build.rs:352-364 | every leaf is read back from its line, whatever tabs or newlines its path holds |
| Http.Decode | harness/src/http.rs:22-46 | the loop over chunks computes the decoded response for every input |
| Http.PrefixGivesWholeChunks | harness/src/http.rs:32-43 | any prefix of a chunked body gives exactly the chunks whose data fully arrived |
| Http.TruncatedResponse | harness/src/http.rs:17-46 | so does a response cut anywhere, its header included |
| Http.WholeResponse | harness/src/http.rs:17-46 | a whole response decodes to its chunks joined |
| Http.PlainResponse | harness/src/http.rs:22-46 | a response whose header does not say it is chunked decodes to its body if and only if the body does not hold the words either |
| Http.BodyIsMistaken | harness/src/http.rs:28-31 | a body that is just those words is lost |
| Http.SizeWraps | harness/src/http.rs:34-43 | the two sizes from 2^64 - 2 on take no data, and decoding goes on behind their line or one byte further |
| Http.HexLineWraps | harness/src/http.rs:34-43 | the hexadecimal line of 2^64 - 2 is such a line |
| Http.HexLineIsSize | harness/src/http.rs:34 | a size in hexadecimal is read as that size, so any non-empty data makes a chunk |
| Http.SaysChunkedExactly | harness/src/http.rs:27-31 | a response counts as chunked if and only if it holds the words somewhere, in any mix of cases |
| Http.HeaderLineSays | harness/src/http.rs:27-31 | the line `Transfer-Encoding: chunked` makes it so |
| HttpText.SizeExactly | harness/src/http.rs:34 | a line says a size if and only if it spells it in hexadecimal of either case below 2^64, perhaps behind a plus sign and between blanks; any other line says zero |
| HttpText.ChunkByNumber | harness/src/http.rs:33-43 | a size line gives the data behind it if all of it is there and ends between two characters, and decoding goes on two bytes further |
| HttpText.ResponseByNumber | harness/src/http.rs:22-46 | a response of such chunks, with every line break by its bytes, decodes to their data |
| HttpText.NoBlankLineNoBody | harness/src/http.rs:23-26 | a response without a blank line decodes to nothing |
| Arms.ArmObjects.Finish | harness/src/driver.rs:1395-1415 | disarmed first; the teardown's statements are tried in order up to the first that fails; it succeeds exactly when none does, and then none of its objects is left |
| Arms.ArmObjects.Drop | harness/src/driver.rs:1417-1448 | while armed the backstop tries every statement of the teardown, in order, whatever became of the ones before; disarmed it does nothing |
| Arms.ArmContainers.Stop | harness/src/driver.rs:995-1009 | a removal is tried for every registered name, in order, and only one that failed leaves a container astray; a second call does nothing |
| Arms.Unwind | harness/src/driver.rs:1358-1363 | on the way out containers stop before the objects are torn down, and only failed removals and drops leave anything |
| Arms.RunArm | harness/src/driver.rs:1469-1566 | the arm is measured if and only if no step but a container's removal failed, and then it was truncated, measured with all of its own objects and containers up, and torn down; on every way out only what failed removals and drops left still stands; the first step that failed, removals aside, decides alone whether the way out is an error or a panic |
| Arms.HoldWindow | harness/src/driver.rs:1566-1955 | whatever fails, containers stop before the one teardown that closes the repetition; the arm is measured if and only if no step but a removal failed, and otherwise the first that did decides between error and panic |
| Arms.MeasureArm | harness/src/driver.rs:1045-1290 | a visit records a measurement if and only if no step but a container's removal failed, and leaves the world at rest; whether it records a refusal, only reports one or ends the sweep is read off its steps: which came first to fail, and how the record's appending went |
| Arms.RunSweep | harness/src/driver.rs:709-762 | the visits, one behind another, take every step and tell every event; each records a measurement if and only if no step of it but a removal failed, records and refusals are counted as the program counts them, what became of each being read off its own steps; it ends early only at a panic or, when asked to, a refusal; and for every oracle no event leaks and nothing of a successful teardown or removal is left at the end |
| Arms.NothingLeaks | harness/src/driver.rs:1482-1498 | however all other steps end: while drops succeed nothing is live at a truncation and a window holds its own arm's objects only; while removals succeed a window runs its own containers only and a truncation or teardown none |

## Left out

- FetchClient.LocateIn: a negative field that would make the program index from the end of its buffer, and a batch or record whose length does not advance the walk, are errors here; the program misreads the first and never finishes the second.
- Placeholders.Substitute: which topic and which offset reset a mode selects is given, as are the addresses and names.
- FetchClient.Consumer: responses carry one topic and no partition error; the window's end is a given predicate over turns in place of the monotonic clock; the bytes of a request, forking, pipes and the offsets request are not part of this model.
- Producers.SafeUnderEveryInterleaving: delivery reports, flushing, and errors other than a full queue are left out, as is the u64 overflow the code's own comment dismisses.
- Corpus.ExpectedRange: batch ids are unbounded; only `value_of` wraps as written. Sums are exact where the program's are 128 bits wide. `quality` is kept in hundredths.
- Gate.ExactOnLoss: the two SQL queries are functions of the table; the server's own evaluation is trusted. That fingerprints separate the corpus's strings is not claimed.
- Sweep.MeasureIngest: figures are compared as reals where the program rounds to doubles; part logs, CPU readings and network waits are not read.
- Backlog.WindowIsLongestThatLeavesBacklog: over reals, so without the rounding of doubles or of `Duration`.
- JsonRows.JsonRoundTrip: how a float prints and parses is a given pair of functions that undo each other on finite values.
- JsonRows.EncodeJsonEachRow: takes the rows as an argument, as the other two encoders do; which rows the corpus keeps is the business of `Corpus`.
- Native.EncodeNativeBlock: rows without cells, which the corpus cannot make, are excluded.
- Dataset.CanonicalIsExact: a float is the text it prints as; the TOML parser, the SHA-256 digest and the workload schema are not part of this model.
- Http.Decode: `size + 2` wraps as in a release build, where a debug build panics; a size line is trimmed of ASCII whitespace only; chunk lengths that end inside a character drop the chunk, as in the program, and what is read before a cut character is not a string there.
- Arms.RunArm: metrics, gates and reports inside a repetition are steps that may fail; a process killed outright runs no destructors and is not modelled, nor is a host without a docker command, where the removal itself panics.
- UTF-8 validity of decoded strings: the decoders here keep the bytes where the program would reject ill-formed ones.
- `normalise_sql`, `corpus_region` and the digest's short form: plain chains of library calls.
- Avro, Arrow IPC, SHA-256, TOML and JSON parsing, and float printing: library behaviour.
- Docker, TCP, rdkafka, ClickHouse and Schema Registry calls, cgroup sampling, report text and descriptor checks other than placeholders: plumbing, or settled by one reading of a branch.
