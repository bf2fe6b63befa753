# llm-redact: verified models

Dafny models of the parts of llm-redact where a mistake is easy to make and hard to see, and proofs
of what those parts promise. Each module models one component of the repository, branch by branch;
code that works by changing state is a method or a class method, proved against a specification
function, and the promises are proved about that function. `dafny verify dfyconfig.toml` checks
everything.

- **Event streams** (`Bytes`, `EventStream`, `EventStreamWire`, `EventStreamParsing`): the Amazon event-stream framing
  of the Smithy specification. Headers and frames print and parse back; the parser accepts exactly
  the printed frames; and the incremental parser loses and repeats no byte, whatever the chunking and
  after failures too. The checksum is any function from bytes to 32 bit words, and UTF-8 is any
  encoder with a partial inverse.
- **SQLite's integer kernels** (`Varint`, `Multiply`, `Decimal`, `Int64Text`, `Atoi64`, `Atoi64Texts`):
  the varint codec with its interleaved decoder on bit-vectors, the 128 and 160 bit products from
  32 bit limbs, and the decimal printer and parser of 64 bit integers.
- **Writing the configuration** (`TomlText`, `TomlTables`, `TomlEmit`, `TomlForms`): the hand-written
  TOML printer, against a reader that follows TOML v1.0.0, down to the characters.
- **Routing** (`RoutingValues`, `RoutingUpstreams`, `RoutingRules`, `Routing`, `StringOrder`): what is
  parsed, written and parsed again is the same configuration, warnings included; and, key by key
  (`RoutingKeys`, `RoutingRuleKeys`, `RoutingTableKeys`), exactly which tables are accepted and as what.
- **Restart-only values** (`RestartOnly`, `RestartOnlyValues`): no sequence of hot reloads moves them.
- **Grounding** (`Propagation`, `PropagationExact`, `GroundingTags`, `GroundingForms`, `GroundedRows`):
  inline tags and spans are two forms of one row; propagation to repeats is complete, stable, refused
  in exactly the conflicting cases, and keeps rows readable.
- **Detection overlays** (`Overlays`, `OverlayAnswers`, `OverlayCache`): tightening is a join in the
  order of strictness, and the bounded cache in front of it is invisible.
- **Live connections** (`Connections`, `ConnectionReasons`, `EventStreams`): closing, re-checking and
  shutting down as a state machine over atomic steps, any number of callers interleaved; every close
  has its reason, and no call is ever stuck.
- **Reviewing rows** (`Review`, `ReviewKeys`, `Freeze`): one decision for each row over any sessions, and shares that
  freeze together.
- **Complexity census** (`Complexity`, `ComplexityCounts`): every branch is counted once, in its own function.

`Wrappers` holds the option and result types. A raise is `Failed` or `None`; which exception it is, and
its message, is not modelled.

## Where the code and its documentation disagree

- `scripts/pii_corpus/grounding.py:14-16` promises that every other whole-token occurrence of a tagged
  value becomes gold. The scan at lines 134-141 goes on from the end of each occurrence, so it skips an
  occurrence that overlaps an earlier one. `Propagation.SkippedRepeats` says exactly when the promise
  holds, `Propagation.SkippedRepeatExample` is a text for which it does not, and
  `PropagationExact.UnborderedValuesAreCovered` is a plain condition under which it always does.
- `scripts/pii_corpus/review.py:15-16` says that a row already decided is not asked again. Within one
  session the code does not look at its own decisions, so two rows with one id get two:
  `Review.OneDecisionExactlyWhenDistinct`.
- `src/llm_redact/config.py:2213-2214` says that a null among the body defaults has no JSON form and is
  refused. `json.dumps` writes it, so the parser keeps it, and the emitter raises on it later:
  `Routing.NullExample` is such a document, and `Routing.RoundTrip` holds exactly without a null.
- `sqlite3VarintLen` differs from what `sqlite3PutVarint` writes from 2^63 on: `Varint.VarintLenIsRight`.

## Model

| member | source | states |
|---|---|---|
| EventStream.ParseHeaders | src/llm_redact/eventstream.py:85-127 | The header loop reads exactly what the recursive grammar of headers reads, never slices past the data, and ends |
| EventStream.SerializeHeaders | src/llm_redact/eventstream.py:130-150 | The print loop writes the concatenated bytes of the headers, or fails when one cannot be written |
| EventStream.ParseHeaderOfBytes | src/llm_redact/eventstream.py:85-150 | A printed header parses back to itself, type code and width included, whatever follows it |
| EventStream.BytesOfParsedHeader | src/llm_redact/eventstream.py:85-150 | Any parsed header prints to exactly the bytes it came from |
| EventStream.HeadersOfBytes | src/llm_redact/eventstream.py:85-150 | A printed header block parses back to the same list |
| EventStream.BytesOfHeaders | src/llm_redact/eventstream.py:85-150 | A parsed header block prints to the identical bytes |
| EventStream.NextFrameOfSerialized | src/llm_redact/eventstream.py:153-206 | A serialized message within the bound is read back whole, whatever bytes follow |
| EventStream.SerializeOfNextFrame | src/llm_redact/eventstream.py:153-206 | An accepted frame re-serializes to the identical bytes |
| EventStream.FrameParserIsExact | src/llm_redact/eventstream.py:153-206 | The parser accepts a frame if and only if it is the printed form of a canonical message within the bound |
| EventStream.NextFrameIsStable | src/llm_redact/eventstream.py:182-206 | What is decided about the first frame, more bytes do not change |
| EventStreamWire.ValuesOnTheWire | src/llm_redact/eventstream.py:33-127 | Codes 0 and 1 are true and false and take no byte, 2, 3, 4, 5 and 8 are signed numbers of 1, 2, 4, 8 and 8 bytes, 9 takes 16 bytes, any code over 9 and any missing byte is refused |
| EventStreamWire.LongValuesOnTheWire | src/llm_redact/eventstream.py:109-118 | Code 6 is a byte array and code 7 a string, after two bytes of length |
| EventStreamWire.LongValuesCut | src/llm_redact/eventstream.py:109-117 | One whose bytes are not all there is refused |
| EventStreamWire.OtherValuesPrinted | src/llm_redact/eventstream.py:130-150 | What is printed for a value of another type than its code, and when that raises |
| EventStreamWire.IntegersPrinted | src/llm_redact/eventstream.py:130-150 | Each integer code prints exactly the numbers of its width |
| EventStreamWire.HeaderOnTheWire | src/llm_redact/eventstream.py:85-127 | A header is the length of its name in one byte, the name, the code and the value |
| EventStreamWire.HeaderCut | src/llm_redact/eventstream.py:88-93 | A header whose name or code is not all there is refused |
| EventStreamWire.StringHeaderExample | src/llm_redact/eventstream.py:85-127 | The bytes 1, e, 7, 0, 1, x are one string header |
| EventStreamWire.FrameOnTheWire | src/llm_redact/eventstream.py:153-206 | A frame number by number: lengths, both checksums, bound, and when it is refused or unfinished |
| EventStreamParsing.EventStreamParser.Feed | src/llm_redact/eventstream.py:182-206 | `feed` leaves the buffer, and returns or raises, as the scan of buffer plus chunk says, also when a frame is refused |
| EventStreamParsing.NewParser | src/llm_redact/eventstream.py:171-173 | Without a bound given, frames of ten mebibytes are allowed |
| EventStreamParsing.ScanOfSum | src/llm_redact/eventstream.py:182-206 | Scanning in two goes is scanning once: the second starts at the residual of the first |
| EventStreamParsing.RunConserves | src/llm_redact/eventstream.py:175-206 | Over every run, failed feeds included, the printed returned messages followed by the residual are all bytes fed |
| EventStreamParsing.CloseMeansAllReturned | src/llm_redact/eventstream.py:175-211 | `close` succeeds exactly when the returned messages account for every byte |
| EventStreamParsing.ReadStream | src/llm_redact/eventstream.py:175-211 | A whole stream on one parser, chunk by chunk: `feed`, `residual` and `close` give that run, and `close` succeeds exactly when the messages account for every byte |
| EventStreamParsing.FailureSticks | src/llm_redact/eventstream.py:182-206 | Once a feed fails every later feed fails, and the residual keeps every byte |
| EventStreamParsing.ResidualIsBounded | src/llm_redact/eventstream.py:182-206 | After a successful feed the residual is shorter than a prelude or than the longest frame allowed |
| EventStreamParsing.ChunkingDoesNotMatter | src/llm_redact/eventstream.py:175-206 | Any cutting into chunks gives the messages and residual of one whole feed, or stops at the same frame |
| EventStreamParsing.PrintedStreamIsReadBack | src/llm_redact/eventstream.py:153-206 | Printed messages, cut anywhere, are returned exactly, if and only if each is canonical and within the bound |
| Varint.NineBytesHoldOne | bench/fp_corpus/sqlite_excerpt.c:1577-1585 | Any nine bytes begin with exactly one varint |
| Varint.GetAny | bench/fp_corpus/sqlite_excerpt.c:1640-1788 | So the decoder is total on nine readable bytes |
| Varint.GetVarint | bench/fp_corpus/sqlite_excerpt.c:1640-1788 | The interleaved decoder returns the length and the 64 bit value of the varint in the buffer, and reads no byte past it |
| Varint.GetVarint32 | bench/fp_corpus/sqlite_excerpt.c:1801-1828 | The 32 bit reader returns the same length and the value clamped to 2^32-1 |
| Varint.PutVarint64 | bench/fp_corpus/sqlite_excerpt.c:1586-1609 | The general writer writes the encoding of any value and nothing past it |
| Varint.PutVarint | bench/fp_corpus/sqlite_excerpt.c:1586-1621 | The writer with its short cuts writes the same encoding |
| Varint.DecodeOfEncode | bench/fp_corpus/sqlite_excerpt.c:1586-1788 | What is written for v is one varint of 1 to 9 bytes with value v, whatever follows |
| Varint.PutThenGet | bench/fp_corpus/sqlite_excerpt.c:1586-1828 | Written and read again, on the caller's buffer: the same length and value from both readers |
| Varint.VarintLen | bench/fp_corpus/sqlite_excerpt.c:1834-1838 | The length loop counts the 7 bit groups |
| Varint.VarintLenIsRight | bench/fp_corpus/sqlite_excerpt.c:1586-1838 | That is the length written exactly for v below 2^63 |
| Multiply.Multiply128Limbs | bench/fp_corpus/sqlite_excerpt.c:480-501 | The limb branch returns the exact 128 bit product: hi*2^64+lo = a*b |
| Multiply.Multiply128Wide | bench/fp_corpus/sqlite_excerpt.c:480-501 | So does the 128 bit integer branch |
| Multiply.Multiply160Limbs | bench/fp_corpus/sqlite_excerpt.c:514-551 | The limb branch returns the upper 96 bits of the 160 bit product, with no column overflowing |
| Multiply.Multiply160Wide | bench/fp_corpus/sqlite_excerpt.c:514-551 | So does the 128 bit integer branch |
| Multiply.Multiply160Carry | bench/fp_corpus/sqlite_excerpt.c:514-551 | So does the branch that detects the carry |
| Multiply.BranchesAgree | bench/fp_corpus/sqlite_excerpt.c:480-551 | The results are determined, so all branches agree word for word |
| Int64Text.UInt64ToText | bench/fp_corpus/sqlite_excerpt.c:1038-1077 | Eight digits at a time or two, the text is the decimal text of the value, at the end of the buffer |
| Int64Text.Int64ToText | bench/fp_corpus/sqlite_excerpt.c:1088-1124 | The printer writes the signed decimal text and a zero byte, and nothing past it, for -2^63 too |
| Int64Text.LongestTextFills | bench/fp_corpus/sqlite_excerpt.c:1038-1124 | The buffers are just long enough for the longest text |
| Int64Text.FourPairs | bench/fp_corpus/sqlite_excerpt.c:1038-1077 | Four pairs taken off together are four pairs taken off one by one |
| Atoi64.Compare2Pow63 | bench/fp_corpus/sqlite_excerpt.c:1140-1154 | Digit by digit, the sign of a 19 digit number minus 2^63 |
| Atoi64.Atoi64 | bench/fp_corpus/sqlite_excerpt.c:1173-1262 | The code and the clamped value for any text, though the accumulator wraps on long ones |
| Atoi64Texts.SplitOf | bench/fp_corpus/sqlite_excerpt.c:1192-1206 | Spaces, a sign of either kind or none, digits and a rest are split as they were put together |
| Atoi64Texts.AnswerFor | bench/fp_corpus/sqlite_excerpt.c:1173-1262 | The value and the code for such a text, in numbers |
| Atoi64Texts.EveryTextSplits | bench/fp_corpus/sqlite_excerpt.c:1173-1262 | Every text is put together so |
| Atoi64.ParseOfPrinted | bench/fp_corpus/sqlite_excerpt.c:1038-1262 | Parsing the printed text of any 64 bit integer gives it back with code 0 |
| TomlText.ReadPrintedString | src/llm_redact/config_write.py:56-64 | Every string printed reads back as itself, whatever follows its closing quote |
| TomlText.ReadPrintedKey | src/llm_redact/config_write.py:82-85 | Every key, bare or quoted, reads back |
| TomlText.ReadPrintedValue | src/llm_redact/config_write.py:88-109 | Every value with a TOML form, nested at any depth, reads back as itself |
| TomlForms.KeyMeans | src/llm_redact/config_write.py:82-85 | Exactly the non-empty keys of letters, figures, underscores and hyphens are written bare |
| TomlForms.EscapeMeans | src/llm_redact/config_write.py:56-64 | The escape of every character, DEL and the controls included |
| TomlForms.StringMeans | src/llm_redact/config_write.py:56-64 | A string is its characters' escapes between quotes |
| TomlForms.SinglesMean | src/llm_redact/config_write.py:67-103 | Booleans and numbers as written |
| TomlForms.ListsMean | src/llm_redact/config_write.py:88-103 | A list item by item |
| TomlForms.DictsMean | src/llm_redact/config_write.py:88-109 | A mapping entry by entry |
| TomlForms.HasTextIs | src/llm_redact/config_write.py:88-109 | Exactly the values without a None at any depth have an inline form |
| TomlForms.EmittableExactly | src/llm_redact/config_write.py:112-142 | Exactly the mappings whose every None is a value of a table of their own are emitted |
| TomlForms.WellFormedMeans | src/llm_redact/config_write.py:120-142 | A mapping need only have each key once, at every depth |
| TomlTables.EmittedTableReplays | src/llm_redact/config_write.py:112-142 | Replaying the lines rebuilds the mapping less its None values; no key lands under another header |
| TomlTables.MembersMean | src/llm_redact/config_write.py:120-142 | Though nested tables come last, the rebuilt table means what the original means |
| TomlEmit.EmitTable | src/llm_redact/config_write.py:120-142 | The recursive emitter appends exactly those lines to the shared list, and raises exactly on a value without a TOML form |
| TomlEmit.EmittedTextReadsBack | src/llm_redact/config_write.py:56-142 | The text itself reads back as the section |
| RoutingValues.HeaderTable | src/llm_redact/config.py:2124-2144 | The loop reads the lowercased, sorted headers and refuses two spellings of one name |
| RoutingValues.HeadersBack | src/llm_redact/config.py:2124-2144 | Headers read are read back from the table written |
| RoutingValues.CanonicalTwice | src/llm_redact/config.py:2207-2218 | The canonical form of body defaults is its own canonical form |
| RoutingValues.BodyBack | src/llm_redact/config.py:2207-2218 | Body defaults read are read back from the table written |
| RoutingValues.CanonicalNullFree | src/llm_redact/config.py:2207-2218 | Putting body defaults in canonical form neither drops nor adds a null |
| StringOrder.AtMostIs | src/llm_redact/config.py:2144 | Strings sort by their first difference, a prefix first |
| RoutingKeys.NamesAre | src/llm_redact/config.py:2013-2015 | The three patterns for names, code by code |
| RoutingKeys.LowerIs | src/llm_redact/config.py:2124-2144 | Header names are kept in small letters |
| RoutingTableKeys.HeadersRead | src/llm_redact/config.py:2124-2144 | Which tables of headers are accepted, and what is kept of them |
| RoutingTableKeys.CanonicalMeans | src/llm_redact/config.py:2207-2218 | The canonical form keeps lists and sorts mappings by key |
| RoutingTableKeys.BodyReads | src/llm_redact/config.py:2204-2218 | Body defaults are refused exactly when a value inside has no JSON form |
| RoutingTableKeys.NullFreeIs | src/llm_redact/config_write.py:88-109 | The emitter raises exactly on a null at some depth |
| RoutingUpstreams.ReadUpstreams | src/llm_redact/config.py:2239-2278 | The two loops give the sorted explicit and registered upstreams |
| RoutingUpstreams.UpstreamBack | src/llm_redact/config.py:2147-2236 | An upstream is read back from what is written, omitted defaults included |
| RoutingUpstreams.UpstreamsBack | src/llm_redact/config.py:2239-2278 | All upstreams are read back in order; the unwritten registered ones register again |
| RoutingUpstreams.UpstreamsNulls | src/llm_redact/config.py:2207-2276 | The upstreams hold a null exactly when a table they were read from does |
| RoutingKeys.AddressReads | src/llm_redact/config.py:2153-2155 | A base address keeps what stands before its closing slashes and has one of two schemes |
| RoutingKeys.CredentialReads | src/llm_redact/config.py:2156-2171 | A credential is passthrough when omitted, none, or a variable's name |
| RoutingKeys.UpstreamExactly | src/llm_redact/config.py:2147-2236 | A table is accepted, and as what, exactly as its keys read; each omitted key stands for a named value, and a passthrough upstream gets no note, budget, header or default |
| RoutingKeys.SpendingMeans | src/llm_redact/config.py:2441-2464 | Which upstreams have a budget to exhaust |
| RoutingTableKeys.UpstreamsExactly | src/llm_redact/config.py:2239-2278 | The upstreams are those of the tables and the registered ones no table names, sorted by name |
| RoutingTableKeys.UpstreamKeysLeftOut | src/llm_redact/config_write.py:207-228 | Which keys are left out when an upstream is written, and when |
| RoutingRules.ReadChain | src/llm_redact/config.py:2281-2319 | The chain loop accepts exactly the valid chains |
| RoutingRules.StatusKeyBack | src/llm_redact/config.py:2355-2364 | A normalized status key is its own normal form |
| RoutingRules.ReadStatuses | src/llm_redact/config.py:2409-2440 | The loop over statuses gathers the chains and the warnings in order |
| RoutingRules.ReadRules | src/llm_redact/config.py:2587-2596 | The loop over rules gathers rules and warnings and refuses a repeated id |
| RoutingRuleKeys.MatchExactly | src/llm_redact/config.py:2322-2352 | A match table is accepted, and as what, exactly as its keys read |
| RoutingRuleKeys.StatusReads | src/llm_redact/config.py:2355-2364 | A status key is a named one, a class, or a number from 100 to 599 as its three figures |
| RoutingRuleKeys.ChainReads | src/llm_redact/config.py:2281-2319 | A chain names other upstreams of the protocol, none twice and none that passes credentials through |
| RoutingRuleKeys.StatusesRead | src/llm_redact/config.py:2405-2440 | Each status and its action is read in order, with the warnings of each |
| RoutingRuleKeys.BudgetReads | src/llm_redact/config.py:2441-2464 | The chain for an exhausted budget, and when it never applies |
| RoutingRuleKeys.RuleExactly | src/llm_redact/config.py:2367-2471 | A rule is accepted, as what and with which warnings, exactly as its keys read; without a policy it is stateless-only on a passthrough upstream and always on any other |
| RoutingRuleKeys.RulesExactly | src/llm_redact/config.py:2587-2596 | The rules are those of the tables in order, no id twice, their warnings one after the other |
| RoutingTableKeys.RuleKeysLeftOut | src/llm_redact/config_write.py:231-256 | Which keys are left out when a rule is written, and when |
| RoutingRules.RuleBack | src/llm_redact/config_write.py:231-256 | A rule is read back from what is written, with the same warnings |
| RoutingRules.RulesBack | src/llm_redact/config_write.py:231-290 | So are all rules, in order |
| Routing.DefaultsBack | src/llm_redact/config.py:2474-2501 | Default upstreams, given as a name or a table, are read back from the table written |
| Routing.LimitsBack | src/llm_redact/config.py:2504-2531 | So is the plan-limit table, left out while it is the built-in one |
| RoutingTableKeys.DefaultsRead | src/llm_redact/config.py:2474-2501 | Which default upstreams are accepted, and as what |
| RoutingTableKeys.LimitsRead | src/llm_redact/config.py:2504-2531 | Which plan-limit tables are accepted, and the built-in one by name |
| RoutingTableKeys.MarkerReads | src/llm_redact/config.py:2578-2580 | The marker is the text without the spaces around it |
| RoutingTableKeys.RoutingExactly | src/llm_redact/config.py:2534-2621 | A routing table is accepted, and as what, exactly as its keys read; each omitted key, and the omitted table, stands for named values |
| RoutingTableKeys.RoutingKeysLeftOut | src/llm_redact/config_write.py:259-290 | Which keys are left out when it is written, and when |
| Routing.RoutingBack | src/llm_redact/config.py:2534-2621 | So is the whole routing table |
| Routing.RoundTrip | src/llm_redact/config_write.py:207-290 | A parsed configuration can be written exactly when the body defaults of its upstream tables held no null, and then parses to the very same value |
| Routing.NullExample | src/llm_redact/config_write.py:88-109 | A document with a null among the body defaults parses and cannot be written |
| Routing.EmitTwice | src/llm_redact/config_write.py:207-290 | Writing is a normal form |
| RestartOnly.Pin | src/llm_redact/config.py:1899-1954 | The loop keeps the running values; it fails exactly when the reload would start the backend with one changed, or the kept address is unusable |
| RestartOnly.ReadBack | src/llm_redact/config.py:1879-1889 | A replaced value is read back, and every path apart from it keeps its value |
| RestartOnly.WithCommutes | src/llm_redact/config.py:1885-1889 | Replacements at separate paths commute |
| RestartOnly.PinnedIs | src/llm_redact/config.py:1899-1954 | Pinning takes the three running values and leaves everything else as loaded |
| RestartOnly.PinTwice | src/llm_redact/config.py:1899-1954 | Pinning is idempotent |
| RestartOnly.Reloaded | src/llm_redact/config.py:1906-1909 | The running configuration after a run of reloads |
| RestartOnly.NeverMoves | src/llm_redact/config.py:1899-1954 | Over any sequence of reloads the three values stay the startup ones, and a reload that starts the backend named exactly them |
| RestartOnlyValues.RefusedExactly | src/llm_redact/config.py:1892-1954 | A reload is refused exactly when it would start the llm backend at another address, permission or key variable than the running ones, or keeps an unusable address; in the values at the paths |
| RestartOnlyValues.ConfigMeans | src/llm_redact/config.py:1879-1896 | A configuration need only hold the values looked at |
| RestartOnlyValues.OneReload | src/llm_redact/config.py:1899-1954 | What one reload leaves running |
| RestartOnlyValues.ServerNeverMoves | src/llm_redact/config.py:1899-1954 | Over any sequence of reloads these three values stay, and a reload after which the backend is newly active named them itself |
| Propagation.FindOccurrences | scripts/pii_corpus/grounding.py:134-141 | The scan yields whole-token occurrences, each search from the end of the one before, and ends |
| Propagation.FindTypes | scripts/pii_corpus/grounding.py:144-151 | The dictionary of types, or the conflict |
| Propagation.TypesHold | scripts/pii_corpus/grounding.py:144-151 | It is refused exactly when one value has two types |
| GroundingForms.WholeTokenMeans | scripts/pii_corpus/grounding.py:118-121 | A whole token has no letter, digit or underscore next to it |
| Propagation.Propagate | scripts/pii_corpus/grounding.py:154-168 | The two loops give the propagated spans and their number, or the conflict |
| Propagation.PropagationHolds | scripts/pii_corpus/grounding.py:154-180 | On success: sorted, disjoint, every input span kept, every added span a longest scanned repeat with its own value's type, no scanned repeat untagged |
| GroundingForms.InReadingOrder | scripts/pii_corpus/grounding.py:154-168 | Each span of a kept row ends before the next one starts |
| GroundingForms.SortedMeans | scripts/pii_corpus/grounding.py:168 | Spans sort by start, then by end |
| GroundingForms.UntaggedMeans | scripts/pii_corpus/grounding.py:171-180 | Which repeats are counted as untagged |
| Propagation.PropagateTwice | scripts/pii_corpus/grounding.py:154-180 | Propagating again succeeds and adds nothing |
| Propagation.ConflictIsReal | scripts/pii_corpus/grounding.py:154-168 | A row dropped for a conflict holds a scanned repeat that partly overlaps a tagged span or another scanned repeat |
| Propagation.OverlapIsAConflict | scripts/pii_corpus/grounding.py:124-168 | A scanned repeat that partly overlaps a tagged span always drops the row |
| PropagationExact.KeptExactlyWhenCompatible | scripts/pii_corpus/grounding.py:154-168 | A row is kept exactly when no outermost scanned repeat overlaps a tagged span or another outermost repeat, whatever the order of the values |
| Propagation.SkippedRepeats | scripts/pii_corpus/grounding.py:134-168 | Every whole-token repeat is covered exactly when each repeat the scan skips lies in a tagged span or a scanned repeat |
| Propagation.SkippedRepeatExample | scripts/pii_corpus/grounding.py:134-168 | A text with a whole-token repeat left untagged |
| PropagationExact.AllYielded | scripts/pii_corpus/grounding.py:134-141 | The scan of a value of which no proper prefix is a suffix yields every whole-token repeat |
| PropagationExact.UnborderedValuesAreCovered | scripts/pii_corpus/grounding.py:134-168 | When all tagged values are such, every whole-token repeat of a kept row is covered |
| GroundingTags.HeadIsTheTag | scripts/pii_corpus/grounding.py:35 | The opening tag read is the only one the expression can match there |
| GroundingForms.KindMeans | scripts/pii_corpus/grounding.py:35 | A type is a capital letter and at most 27 more capitals, figures and underscores |
| GroundingForms.MarkerMeans | scripts/pii_corpus/grounding.py:36 | A marker is an opening or closing pii in any case, at the end of a word |
| GroundingForms.OneTagReads | scripts/pii_corpus/grounding.py:89-109 | A text with one tag, plain or escaped, reads as its value and place |
| GroundingForms.OneSpanPrints | scripts/pii_corpus/grounding.py:219-231 | A text with one span prints as the tag round its value |
| GroundingTags.Parse | scripts/pii_corpus/grounding.py:89-109 | The loop over matches gives the text and spans, or refuses a marker outside the tags |
| GroundingTags.PrintTagged | scripts/pii_corpus/grounding.py:219-231 | The loop prints the text cut at the spans in order of start |
| GroundingTags.PiecesAreTheAnswer | scripts/pii_corpus/grounding.py:89-109 | The matches and the text between them lose and invent no character |
| GroundingTags.ParsedOfTagged | scripts/pii_corpus/grounding.py:89-231 | Reading the printed form gives back text and sorted spans if and only if types fit and no gap or value holds a marker |
| GroundingTags.ParsedIsPrintable | scripts/pii_corpus/grounding.py:89-231 | What parses can be printed, and printing only undoes the escapes of quotes |
| GroundingTags.NormalForm | scripts/pii_corpus/grounding.py:89-231 | Printing what was parsed parses to the same row |
| GroundingTags.DisjointSpansChain | scripts/pii_corpus/grounding.py:219-231 | Non-empty spans that do not overlap can be printed, in any order given |
| GroundedRows.CleanCut | scripts/pii_corpus/grounding.py:89-109 | All pieces of a cut text are free of markers exactly when none stands between two cuts |
| GroundedRows.KeptRowReadsBack | scripts/pii_corpus/grounding.py:183-231 | A row kept with its repeats added prints to a text that parses to that very row |
| Overlays.Tighten | src/llm_redact/authorization.py:176-209 | The loop gives each type the strictest of configured and asked-for modes; its delete always finds its key; the moot entries are those not stricter than configured |
| Overlays.Make | src/llm_redact/authorization.py:148-174 | The build of an overlay, None when it changes nothing, refused for a bad entry or deny string |
| Overlays.NeverLooser | src/llm_redact/authorization.py:176-209 | The mode given is the least that is as strict as the configured one and all that is asked for |
| OverlayAnswers.ModeGiven | src/llm_redact/authorization.py:176-209 | In the entries' own words: block when configured or some entry says so, warn when configured and no entry names the kind, else redact |
| OverlayAnswers.StoredModes | src/llm_redact/authorization.py:200-208 | Which modes are stored: a newly redacted kind is taken out, a newly blocked one put in |
| OverlayAnswers.MootMeans | src/llm_redact/authorization.py:195-199 | Which entries have no effect |
| OverlayAnswers.MootInOrder | src/llm_redact/authorization.py:189-209 | They are all listed, in order, with the configured mode |
| Overlays.OrderDoesNotMatter | src/llm_redact/authorization.py:176-209 | Neither order nor repetition of the entries matters |
| Overlays.FinalBlocksAreAdded | src/llm_redact/authorization.py:160-164 | The final blocks are exactly the types whose block mode the overlay added |
| Overlays.TightenTwice | src/llm_redact/authorization.py:176-209 | Tightening twice is tightening by both at once, and repeating an overlay changes nothing |
| OverlayAnswers.FirstPlaces | src/llm_redact/authorization.py:173 | Deny strings are kept where they first stand |
| OverlayAnswers.WhatIsBuilt | src/llm_redact/authorization.py:132-174 | When an answer is refused, when it changes nothing, and what it builds |
| OverlayCache.OverlayBuilds.Build | src/llm_redact/authorization.py:132-146 | Each answer equals the uncached build, a failed or empty call leaves the cache alone, and the cache stays the most recently used |
| OverlayCache.BuildAll | src/llm_redact/authorization.py:132-146 | So over every sequence of calls |
| OverlayCache.CacheHoldsTheMostRecent | src/llm_redact/authorization.py:132-146 | The cache holds exactly the overlays that build and since whose last use fewer than `size` others were used |
| OverlayAnswers.KeptMeans | src/llm_redact/authorization.py:132-146 | Which answers the cache keeps |
| Connections.StartIsRight | src/llm_redact/connections.py:233-254 | With no connection and no call, the books are right |
| Connections.RunKeeps | src/llm_redact/connections.py:258-375 | Every step of every interleaving keeps the books, the counters and what each call has achieved |
| Connections.CountersAgree | src/llm_redact/connections.py:289-375 | For each cause, the counter plus the closes in flight is the number of connections closed for it; endings at shutdown and relays revoked by a reload are not among them |
| Connections.LeavesOnce | src/llm_redact/connections.py:157-167 | A connection leaves the open state at most once and keeps the cause it left with |
| Connections.CloseClosesAll | src/llm_redact/connections.py:289-306 | When `close` returns, every connection it matched is closing, and its answer counts those it closed itself |
| Connections.PassClosesOrAdmits | src/llm_redact/connections.py:310-375 | When a pass is over, every connection with a re-check is closing, or its check ended as admitted |
| Connections.ShutdownEndsStreams | src/llm_redact/connections.py:268-279 | When `end_event_streams` is through, every open stream has ended |
| ConnectionReasons.EveryCloseHasItsReason | src/llm_redact/connections.py:258-375 | Over every run, a revoked connection was named by a close, a re-checked one refused or failed as its cause says, and any other ended by a reload or a shutdown; the tracked ones are those tracked and not untracked since |
| ConnectionReasons.PassFollowsItsVerdicts | src/llm_redact/connections.py:310-375 | Once a pass is complete, each connection it listed is closing or was answered None or True, and each it got a refusal or a failure for is closing; no connection gets two verdicts |
| ConnectionReasons.CheckClosesAsAnswered | src/llm_redact/connections.py:318-375 | When a check makes the close, the cause is recheck for a refusal and recheck_error for a failure |
| ConnectionReasons.NeverStuck | src/llm_redact/connections.py:289-375 | A call that has not returned can always go on, with any verdict |
| ConnectionReasons.AnyoneMayStart | src/llm_redact/connections.py:268-316 | When a close, a pass or a shutdown may start, and on which connections |
| ConnectionReasons.AlwaysPossible | src/llm_redact/connections.py:258-267 | Connections come and go at any time, and a reload may revoke any relay |
| ConnectionReasons.PassAsks | src/llm_redact/connections.py:310-316 | A pass asks exactly the connections with a re-check that are not closing |
| ConnectionReasons.ShutdownCounts | src/llm_redact/connections.py:268-279 | A shutdown counts the streams it ends itself |
| EventStreams.EventStream.WakeUp | src/llm_redact/connections.py:169-176 | The waking always gets into the queue, at the cost of at most its oldest row |
| EventStreams.EndMany | src/llm_redact/connections.py:148-167 | Of any closes and shutdowns of a stream, the first ends it and schedules the one waking |
| Review.SpansOf | scripts/pii_corpus/review.py:125-144 | The spans are accepted exactly when they are inside the text and none overlap, and come out sorted |
| Review.DecideRow | scripts/pii_corpus/review.py:223-257 | The prompt loop: the decision, the row as edited, and the input left |
| ReviewKeys.DecidedByKeys | scripts/pii_corpus/review.py:223-257 | The first of the keys a, r, s and q decides, the last grounded edit before it is what is accepted, and the other keys are left |
| ReviewKeys.RowByKeys | scripts/pii_corpus/review.py:260-321 | One row from the keys to the files |
| ReviewKeys.RecordMeans | scripts/pii_corpus/review.py:297-321 | What a record of an accepted or edited row holds |
| ReviewKeys.ReviewableMeans | scripts/pii_corpus/review.py:125-152 | Which rows are asked about |
| ReviewKeys.NegativeMeans | scripts/pii_corpus/review.py:95-97 | Which rows are hard negatives |
| Review.Output.ReviewFile | scripts/pii_corpus/review.py:260-321 | A session leaves the files as the specification of a session says |
| Review.SessionAppends | scripts/pii_corpus/review.py:260-321 | A session appends the rows accepted or edited, as decided, to one file and the rejected ids to the other, in order, and nothing else |
| Review.OneDecisionEach | scripts/pii_corpus/review.py:215-321 | Over any sessions, quits and skips, each id has at most one decision, only rows of the file get one, and none is lost |
| Review.OneDecisionExactlyWhenDistinct | scripts/pii_corpus/review.py:260-294 | That holds exactly when no two reviewable rows share an id |
| Review.SharesPartition | scripts/pii_corpus/review.py:108-114 | Each id is in exactly one of the shares 1 to N |
| ReviewKeys.ShareMeans | scripts/pii_corpus/review.py:108-114 | Share K of N holds the ids whose hash leaves the remainder K - 1 |
| Review.SharesDoNotMeet | scripts/pii_corpus/review.py:108-321 | No id is decided in the outputs of two shares |
| Freeze.FreezeRows | scripts/pii_corpus/review.py:354-371 | Freezing fails exactly on no row, a row with a problem or a repeated id, and else writes all rows in id order |
| ReviewKeys.FrozenMeans | scripts/pii_corpus/review.py:324-351 | Which rows can be frozen |
| Freeze.SessionsWrite | scripts/pii_corpus/review.py:223-321 | Every verified row is a generated row as accepted, or as an edit was grounded |
| Freeze.WrittenRowProblem | scripts/pii_corpus/review.py:324-351 | Exactly which rows written by a review cannot be frozen |
| Freeze.SharesFreeze | scripts/pii_corpus/review.py:354-371 | The outputs of all shares freeze without a duplicate id, to exactly the accepted and edited rows in id order |
| Complexity.CyclomaticComplexity | scripts/complexity_gate.py:42-62 | The visitor counts 1 plus the branches outside nested scopes |
| Complexity.FunctionsInFile | scripts/complexity_gate.py:78-102 | The visitor lists the functions in order |
| Complexity.BranchesAreOwned | scripts/complexity_gate.py:42-62 | It counts exactly the nodes whose nearest enclosing scope is the function |
| Complexity.ComplexityIsOwnBranches | scripts/complexity_gate.py:42-102 | Each listed function carries exactly its own branches, none of another's |
| Complexity.EveryFunctionIsFound | scripts/complexity_gate.py:78-102 | Every function, nested ones too, is listed once, in order, under its qualified name |
| Complexity.CensusIsComplete | scripts/complexity_gate.py:42-102 | The complexities above 1 add up to all branches inside functions |
| ComplexityCounts.EachPartAdds | scripts/complexity_gate.py:42-62 | What each construct adds to its function, and that nested scopes add nothing |
| ComplexityCounts.NamesInFile | scripts/complexity_gate.py:78-102 | Each function is listed under the module and the scopes around it |

## Left out

- The CRC-32 polynomial, UTF-8 tables, SHA-256, the letters and spaces of Unicode and the checks of an address (urlsplit, ipaddress): parameters with the few laws the proofs need.
- Messages, logs and the kind of a raised exception.
- SQLite's floating point, its UTF-16 paths and its error handling; the two-digit table is modelled by what it holds, and `sqlite3Isspace`, which the excerpt does not define, by the white space of C.
- Buffers that end inside a varint, which the C readers do not check for.
- The multi-line lists and the sections of the configuration file that are not written by `_emit_table` or `_emit_routing`.
- TOML floats, dates and times in `TomlText`: the printer's `str` of a float is the platform's.
- Text of the routing section: `Routing` models which keys and values are written and read; the spelling of the fixed keys and of numbers, and the order of lines under a header, are not modelled there.
- Decimal digits outside ASCII in a status key: any values, through a parameter.
- RestartOnly.Pin: the two checks of the kept address are one parameter.
- `ground`'s own checks (fence, placeholders, allowed types, lengths) and `_value_ok`: each is settled by reading one branch; `Review` takes `ground` as a parameter.
- Deny detectors themselves: an overlay's build keeps the strings they are made of.
- Abandoned re-checks: an answer that fails covers a check refused because an earlier one still runs. That at most 64 of them are alive is not claimed, since one pass starts many at once.
- The count of failed re-checks kept for bookkeeping, and `open_counts`.
- Real scheduling, timeouts and the start and stop of the backstop task in `Connections`; a step is one lock-held region or one call on one connection.
- The counts `review_file` prints, file modes and the manifest of `freeze`.
- Coverage data, the allow-list and line numbers in the complexity gate.
- The rest of `config.py`, the proxy, the vault, the redactor and the command line.
