# Drenyra audit core: verified model

A Dafny 4.11 model, with proofs, of the parts of the Drenyra monorepo whose correctness rests on
more than one function: the hash-chained audit ledger with its command line, the two graph
searches behind compliance chains and the architecture gate, and five small state machines.
`dafny verify dfyconfig.toml` checks everything.

## What is modelled

**The audit ledger** (`scripts/ledger/ledger-core.ts`, `scripts/ledger/cli.ts`). An append-only
file of JSON lines in which every entry carries the SHA-256 of the one before.

- `JsText`, `Json`, `JsonParser`, `Canonical`: JavaScript strings as UTF-16 code units (lone
  surrogates included), JSON values whose objects are sequences of members, the sorted printer,
  and a parser for RFC 8259 sections 4 to 7 with the `JSON.parse` treatment of repeated keys.
- `LedgerEntry`, `LedgerBuild`, `LedgerShape`, `Validator`: entries, the hashed text, builders,
  signing, optimistic append, and the validator with its shared list of findings.
- `JsonGrammar`, `CanonicalForm`, `PrintedForm`: the grammar as derivation trees, the parser as
  exactly its language, the printer as exactly its tight derivations, and what printed texts
  look like, unit by unit.
- `LedgerChain`, `LedgerRules`: what a valid ledger *is*, with no reference to the validator's
  passes, and its rules written out over hash, signature check, printer and keys alone.
- `Diagnosis`: each kind of finding is reported at exactly the lines that have the fault.
- `TamperEvidence`, `LedgerReach`, `AppendProtocol`: the theorems about whole ledgers and runs.
- `Lines`, `LedgerCli`, `LedgerCommands`: the file as text, the two commands as steps on it, and
  every outcome of theirs, exit codes included.

SHA-256 (section 6.2 of FIPS 180-4) is any function to 64-character texts, and Ed25519
(section 5.1 of RFC 8032) any sign/verify pair in which signatures verify. Injectivity of the
hash is assumed nowhere, so tamper evidence is stated as "the ledgers agree, or two texts hashed
by these very ledgers collide".

**Graphs** (`Graph`, `CycleSearch`, `CompliancePipeline`). The dependency sort and the run of a
compliance chain, and the three-colour search for package cycles, on arbitrary finite graphs.
Both rest on one fact: a graph whose every edge goes down in some rank has no cycle.

**Small machines.** `SnapshotStream` (server-sent lines from arbitrary chunks), `RateLimit` (fixed
windows and a background sweep), `Ratchet` (the type error baseline over any number of runs, and
its second implementation), `RollingHash` (a 32-bit hash and its eight digits) and `Gatekeeper`
(phases wrapped in gates).

The source's loops and mutable objects are methods and classes here, each proved against a
specification function or predicate; the theorems are lemmas about those specifications. Lemmas
carry `{:induction false}` throughout: every induction is written out.

## What the proofs show about the code

Where the code does not do what its comments or its neighbours suggest, the model follows the
code, and a lemma says exactly when it does.

- `findCycles` is documented to return strongly connected components, each once. It returns simple
  cycles: of `a -> b, c`, `b -> a`, `c -> a` it lists one on `{a, b}` and one on `{a, c}`, and none on
  the component `{a, b, c}` (`OneComponentListedTwice`). For names without spaces, every cyclic
  component holds a listed cycle (`ComponentsHoldCycles`), the promise is kept exactly when the
  cycles listed fill their components (`ListsComponentsIff`), and on graphs in which all simple
  cycles do it is kept whatever the order of the search (`FullCyclesGiveComponents`).
- The idempotency lookup uses the ledger id of the request, the recorded entry has its own. If the
  two differ a key can be recorded twice (`LedgerMismatchRepeatsKey`); if they agree it cannot
  (`KeysStayUnique`, and `UniqueKeysIff` for the exact condition).
- The CLI appends a line to whatever the file ends in. It adds one line if and only if the file was
  empty or ended in a newline (`AppendAddsOneLineIff`); otherwise two entries share a line and a
  valid ledger becomes invalid (`GluedIsInvalid`).
- The CLI accepts any JSON as a receipt and any text as an idempotency key: a ledger just created
  takes the receipt `[]` and is invalid from then on (`NewLedgerTakesArrayReceipt`). An append
  leaves the file valid exactly when, besides, the receipt is an object or `null`, no text it was
  given is empty, and the id of a signing key is not `hash-only` and not left out of the key ids
  that the genesis lists (`AppendLeavesValidIff`). `null` passes because the validator tests
  `typeof receipt === "object"`.
- A ledger without lines is reported valid; the chain predicate says the same (`ValidIff`).
- The head hash does not cover signatures and idempotency keys: the signature of any entry of a
  valid ledger can be removed and its key rewritten, and the ledger is valid with the same head hash
  (`SignaturesAreNotCovered`).
- The sweep of the rate limiter is visible exactly when some request comes no later than the reset
  time of a window that an earlier sweep took, and is the first of its client since
  (`SweepsAreInvisibleIff`, for limits of at least one). That needs a sweep later than a later
  request (`SweepsAreInvisible`), and such a trace exists (`EarlySweepIsVisible`); a clock that runs
  back need not make it so (`ClockRunsBackUnseen`). A limit of zero can lose a window unnoticed
  (`ZeroLimitHidesLoss`); `SweepVisibleIff` has the exact condition of one step for every limit.
- Within one window length, that not being zero, the limiter lets through up to one request less
  than twice its limit, and no more (`NeverTwiceTheLimit`, `SlidingLimitIsReached`).
- The two ratchet comparisons agree exactly when some bucket grew or no bucket that vanished had a
  negative count (`ImplementationsAgreeIff`); a count of -1 that vanishes makes the ratchet fail and
  the policy gate pass (`NegativeCountDivides`).
- A phase whose body throws an error with an empty message is reported as a success, because the
  message is tested instead of the fact (`SuccessMeansReturnedIff`, `EmptyMessageLooksLikeSuccess`).
- `runPipeline` can only answer COMPLETED or BLOCKED: its FAILED is unreachable (`StatusOf`).

## Model

| member | source | states |
|---|---|---|
| Canonical.ParseStringify | scripts/ledger/ledger-core.ts:172-185 | for every value and every remainder that does not continue a number, parsing its canonical text followed by the remainder gives the value with its keys sorted, and exactly the remainder |
| Canonical.UniquelyDecodable | scripts/ledger/ledger-core.ts:172-185 | two canonical texts with remainders are equal if and only if the values are equal up to key order at every level and the remainders are equal |
| Canonical.ObjectsUniquelyDecodable | scripts/ledger/ledger-core.ts:172-185 | for objects this holds whatever follows |
| Canonical.SameTextIffSame | scripts/ledger/ledger-core.ts:172-185 | canonical texts are equal exactly for values that differ only in key order |
| Canonical.SameImpliesSameText | scripts/ledger/ledger-core.ts:178-182 | reordering keys anywhere never changes the text |
| Canonical.NormEqualImpliesSame | scripts/ledger/ledger-core.ts:178-182 | values with one sorted form are equal up to key order |
| Canonical.PrintParse | scripts/ledger/ledger-core.ts:691-714 | what was printed can be parsed, is the value up to key order, and prints to the same text again |
| Canonical.OneCanonicalText | scripts/ledger/ledger-core.ts:706-714 | of all texts of one value at most one equals its own canonical form, which is the form all of them have |
| Canonical.StringifyPrintable | scripts/ledger/ledger-core.ts:172-185 | the printer emits no control character, in particular no newline |
| Canonical.GetNorm | scripts/ledger/ledger-core.ts:179-181 | sorting the keys leaves what every key looks up |
| JsonGrammar.ParseIff | scripts/ledger/ledger-core.ts:691-697 | a text parses to a value if and only if it is, between white space, the text of a derivation in the grammar of RFC 8259 (sections 2 to 7, integers for numbers) that has this value |
| JsonGrammar.ParseTree | scripts/ledger/ledger-core.ts:691-697 | the value of every derivation is read off its text, whatever follows that does not continue a number |
| JsonGrammar.ValueDerives | scripts/ledger/ledger-core.ts:691-697 | whatever the parser consumes is white space and the text of a derivation with the value it returns |
| JsonGrammar.Unambiguous | scripts/ledger/ledger-core.ts:691-697 | all derivations of one text have one value |
| JsonGrammar.PutGet | scripts/ledger/ledger-core.ts:691-697 | of a repeated key the last value counts, and every other key keeps its own |
| JsonParser.ParseWf | scripts/ledger/ledger-core.ts:691-697 | parsed objects have distinct keys, repeated ones included |
| JsText.SortDependsOnSetOnly | scripts/ledger/ledger-core.ts:179-180 | sorting keys gives one sequence for one set of keys |
| JsText.LessIff | scripts/ledger/ledger-core.ts:179-180 | one text comes before another exactly if, at the first place where they differ, it ends or has the smaller unit |
| CanonicalForm.PrintedIff | scripts/ledger/ledger-core.ts:172-185 | a text is the canonical text of a value if and only if it has a derivation of that value, up to key order, with no white space, neighbouring keys in the order of their units, escapes only where needed (the short one if there is one, digits in lower case) and no negative zero |
| CanonicalForm.TightIsPrinted | scripts/ledger/ledger-core.ts:172-185 | the text of any such derivation is the canonical text of its value |
| CanonicalForm.CanonicalLineIff | scripts/ledger/ledger-core.ts:691-714 | a line parses and equals its own canonical form if and only if it has such a derivation |
| PrintedForm.PrintedInOrder | scripts/ledger/ledger-core.ts:172-185 | what a canonical text parses to is the value printed, and at every level any two neighbouring keys are in that order of their units |
| PrintedForm.EscapesAreShortest | scripts/ledger/ledger-core.ts:181 | no text that stands for a unit between quotes is shorter than what the printer writes for it, except that lone surrogates are always escaped |
| PrintedForm.HexIsLowerCase | scripts/ledger/ledger-core.ts:181 | the digits of a numeric escape are in lower case |
| PrintedForm.PrintedWellFormed | scripts/ledger/ledger-core.ts:172-185 | no canonical text holds a lone surrogate, whatever its strings hold |
| LedgerEntry.CompactGet | scripts/ledger/ledger-core.ts:311-316 | an object literal with optional fields holds exactly the fields that are present |
| LedgerShape.CollectShapeProblems | scripts/ledger/ledger-core.ts:550-561 | pushes the specified problems of every check in order; its specification is empty exactly for objects with the right fields |
| LedgerShape.CheckAllowedFields | scripts/ledger/ledger-core.ts:563-572 | one problem per key outside the allowed set, in key order |
| LedgerShape.CheckRequiredFields | scripts/ledger/ledger-core.ts:574-583 | one problem per missing required field |
| LedgerShape.CheckStringFields | scripts/ledger/ledger-core.ts:585-595 | one problem per string field that is no string or empty |
| LedgerShape.CheckOptionalFields | scripts/ledger/ledger-core.ts:597-623 | one problem for the sequence and each optional field of the wrong type |
| LedgerShape.ShapedIsEntry | scripts/ledger/ledger-core.ts:698-705 | JSON without shape problems is, up to key order, the JSON of the entry it is cast to, and that entry is well shaped |
| LedgerShape.EntryLineReadsBack | scripts/ledger/ledger-core.ts:698-714 | the line of any entry parses to an object that casts back to that entry, and is free of shape problems exactly when the entry is well shaped |
| LedgerBuild.SigningKeepsHash | scripts/ledger/ledger-core.ts:338-363 | signing changes neither the signed text nor the entry hash, and the signature verifies |
| LedgerBuild.FindKey | scripts/ledger/ledger-core.ts:470-474 | finds the first entry with this ledger id and key, or there is none |
| LedgerBuild.FindId | scripts/ledger/ledger-core.ts:484 | finds an entry with this id, or there is none |
| LedgerBuild.FindIdIsFirst | scripts/ledger/ledger-core.ts:484 | and it is the first |
| Validator.ValidateLedger | scripts/ledger/ledger-core.ts:625-665 | the report is the specified one, finding by finding |
| Validator.ParseLines | scripts/ledger/ledger-core.ts:667-676 | the parsed slots and the findings of all lines in order |
| Validator.ParseLine | scripts/ledger/ledger-core.ts:678-734 | the findings of one line, and its entry unless it is no JSON or misshapen |
| Validator.CheckParsedEntry | scripts/ledger/ledger-core.ts:754-782 | the findings of one entry, given all parsed entries |
| Validator.CheckLinkage | scripts/ledger/ledger-core.ts:784-814 | findings for a broken link and a foreign ledger id |
| Validator.CheckDuplicates | scripts/ledger/ledger-core.ts:851-885 | one finding per earlier entry with this id, and one per earlier entry with this ledger and sequence |
| Validator.CheckGenesis | scripts/ledger/ledger-core.ts:887-965 | the genesis findings, the manifest keys only when there is a payload |
| Validator.CheckReceiptReference | scripts/ledger/ledger-core.ts:967-1005 | the findings for receipt id, receipt and receipt hash |
| Validator.CheckSignatureAndTrust | scripts/ledger/ledger-core.ts:1007-1100 | the signature and trust findings, the genesis trust root included |
| Validator.WithEntryClean | scripts/ledger/ledger-core.ts:754-782 | the checks of an entry add no finding exactly when the entry obeys every rule |
| LedgerChain.ValidIff | scripts/ledger/ledger-core.ts:625-665 | sound and complete: a ledger is reported valid if and only if its lines are the canonical texts of a chain in which every entry obeys the declarative rules |
| LedgerChain.LineOkIsEntry | scripts/ledger/ledger-core.ts:678-734 | a line without findings is the canonical text of the entry read from it |
| LedgerChain.LineOkOfEntry | scripts/ledger/ledger-core.ts:678-734 | the line of an entry has no findings exactly when the entry has the right form |
| LedgerChain.PrefixClosed | scripts/ledger/ledger-core.ts:625-665 | every prefix of a valid ledger is valid |
| LedgerChain.AppendNeedsLocalCheckOnly | scripts/ledger/ledger-core.ts:625-665 | a ledger with one more line is valid exactly when the shorter one is and the new line passes its own check |
| LedgerChain.AppendEntryLocal | scripts/ledger/ledger-core.ts:754-782 | the same for a new entry on the chain that the lines store |
| LedgerChain.ValidByReading | scripts/ledger/ledger-core.ts:651-664 | valid means that every line passes and the chain read from the lines is good |
| LedgerRules.ValidIffLawful | scripts/ledger/ledger-core.ts:625-1100 | a ledger is reported valid if and only if its lines are the canonical texts of entries that obey the rules written out over the hash, the signature check, the printer and the keys of payloads |
| LedgerRules.ValidIsLawful | scripts/ledger/ledger-core.ts:365-384 | in a valid ledger every entry read obeys them; one whose key id is not `hash-only` has a signature and a key, and the check of the signature over its signed text succeeds |
| LedgerRules.SignedTextIs | scripts/ledger/ledger-core.ts:189-210 | the signed text is the JSON of the eight header fields followed by payload hash, receipt hash and previous hash |
| LedgerRules.ReadLineIff | scripts/ledger/ledger-core.ts:550-734 | a line is read as an entry exactly if it parses to an object with that entry's fields and no others, of the right types and with no empty string |
| LedgerRules.BuildThrowsIff | scripts/ledger/ledger-core.ts:277-333 | when the builder throws, and which of the three errors |
| LedgerChain.HeadHash | scripts/ledger/ledger-core.ts:651-664 | for any lines, the reported head hash is the hash of the last line that can be read as an entry, if there is one |
| LedgerChain.HeadHashOfPassing | scripts/ledger/ledger-core.ts:651-664 | which is the last line when all lines pass |
| Diagnosis.LineMarks | scripts/ledger/ledger-core.ts:678-734 | a line gets exactly the findings of its faults: parse, schema, canonicalization, version |
| Diagnosis.EntryMarks | scripts/ledger/ledger-core.ts:754-1100 | the checks of an entry add exactly the kinds of findings whose rule it breaks, at its own line |
| Diagnosis.FindingsAreFaults | scripts/ledger/ledger-core.ts:625-1100 | the report has a finding of a kind at a line if and only if that line has that fault, or is an entry that breaks that rule given the readable lines before it |
| Diagnosis.SignatureMarkIff | scripts/ledger/ledger-core.ts:1007-1060 | a line has a signature finding exactly if it is readable and its entry has a signature that does not verify over its signed text, lacks a part of it, or is `hash-only` and carries one |
| Diagnosis.UnverifiedIsFound | scripts/ledger/ledger-core.ts:365-384 | a readable entry whose signature check fails gets a signature finding at its line, whatever the other lines |
| Diagnosis.ReportNamesEntries | scripts/ledger/ledger-core.ts:632-664 | every finding names its line, and id and sequence of the entry if the line is readable; the report counts all lines and names the ledger of the first readable one |
| TamperEvidence.SigningStringDecodes | scripts/ledger/ledger-core.ts:189-210 | two entries with 64-character hashes have one signed text only if all eight header fields and the three hashes are equal |
| TamperEvidence.SameHashSameContent | scripts/ledger/ledger-core.ts:189-214 | equal entry hashes mean equal header, hashes and payload, or a collision between texts of the two entries |
| TamperEvidence.SameHeadSameLedger | scripts/ledger/ledger-core.ts:625-665 | two non-empty valid ledgers with one head hash have equal length and equal contents at every position, or two texts they hash collide |
| TamperEvidence.SignaturesAreNotCovered | scripts/ledger/ledger-core.ts:189-214 | what the head hash leaves open: any entry of a valid ledger can lose its signature and change its idempotency key, and the other ledger is valid with the same head hash |
| LedgerReach.GenesisValidIff | scripts/ledger/ledger-core.ts:258-275 | a built genesis entry alone is a valid ledger exactly when its manifest has all six keys and no text is empty |
| LedgerReach.NextValidIff | scripts/ledger/ledger-core.ts:277-363 | a fresh entry built on the head, signed or not, leaves a valid ledger valid exactly when its input is in order |
| LedgerReach.BuiltPayload | scripts/ledger/ledger-core.ts:287-333 | the payload of a built entry binds to its hash, and a receipt to payload and receipt hash exactly when it is an object or null with a non-empty id |
| LedgerReach.BuiltReadsBack | scripts/ledger/ledger-core.ts:277-363 | built, signed, printed and read again, an entry gives back every input: texts, type, key, sequence and link to its head, receipt or payload, and a signer whose signature verifies |
| LedgerReach.GenesisReadsBack | scripts/ledger/ledger-core.ts:258-275 | a printed genesis entry reads back with its inputs and its manifest |
| LedgerReach.EveryRunIsValid | scripts/ledger/ledger-core.ts:258-509 | after genesis and any number of steps of build, sign and append with inputs in order, refused steps included, the ledger is reported valid |
| LedgerReach.RunIsGood | scripts/ledger/ledger-core.ts:258-509 | the same as a statement about chains |
| AppendProtocol.AppendIsOptimistic | scripts/ledger/ledger-core.ts:493-508 | whatever the request, a submission adds exactly the requested entry with the next sequence number or changes nothing |
| AppendProtocol.AppendedIff | scripts/ledger/ledger-core.ts:466-508 | any request on a chain with genesis: appended exactly if its key and id are new, both sequences continue the head and both hashes are the head's, with the hash of the new entry; a head conflict with its four fields if they are new and something does not match |
| AppendProtocol.DuplicateOf | scripts/ledger/ledger-core.ts:469-491 | a duplicate names the first entry with the key, as replay or conflict by the three content fields, or else the first with the id |
| AppendProtocol.UnusableChain | scripts/ledger/ledger-core.ts:438-464 | the two invalid chains: an empty one, and a single entry that is no genesis |
| AppendProtocol.RunsKeepLinks | scripts/ledger/ledger-core.ts:493-508 | from a chain in which every entry names the hash of the one before, any requests in any order lead to such a chain |
| AppendProtocol.AdvanceIs | scripts/ledger/ledger-core.ts:466-508 | a writer that builds on the head appends its entry exactly if no entry has its id, or its key in its ledger |
| AppendProtocol.EveryStepIsTakenIff | scripts/ledger/ledger-core.ts:466-508 | a run of build, sign and append takes every step, each entry with the id, ledger and key of its step, if and only if no step repeats an id or a key |
| AppendProtocol.AcceptedSequence | scripts/ledger/ledger-core.ts:466-508 | the request accepted at a point of a run carries the one sequence number the chain was waiting for |
| AppendProtocol.OnePerSequence | scripts/ledger/ledger-core.ts:493-508 | of all requests of any run at most one per sequence number is accepted; no property of the hash is used |
| AppendProtocol.ChainIsAccepted | scripts/ledger/ledger-core.ts:435-509 | after any run the chain is the first one followed by the accepted entries in order |
| AppendProtocol.ChainOnlyGrows | scripts/ledger/ledger-core.ts:435-509 | an earlier chain is a prefix of every later one |
| AppendProtocol.StaleWritersAreFenced | scripts/ledger/ledger-core.ts:435-509 | in every state reachable by any writers, a submission is a duplicate exactly when its key or id is recorded, and otherwise appended exactly when the chain has not grown since the writer read it, and a head conflict exactly when it has |
| AppendProtocol.UniqueKeysIff | scripts/ledger/ledger-core.ts:469-482 | an append keeps idempotency keys unique exactly when the entry's own key is not recorded under its own ledger |
| AppendProtocol.KeysStayUnique | scripts/ledger/ledger-core.ts:469-482 | it does when request and entry name the same ledger |
| AppendProtocol.KeysStayUniqueInRuns | scripts/ledger/ledger-core.ts:469-482 | over any run of such requests every ledger id and key occurs at most once |
| AppendProtocol.LedgerMismatchRepeatsKey | scripts/ledger/ledger-core.ts:470-474 | a request that names another ledger than its entry gets a recorded key appended again |
| AppendProtocol.ContentKeyIff | scripts/ledger/ledger-core.ts:216-222 | content keys are equal exactly when entry type, payload hash and receipt hash are |
| AppendProtocol.ResubmittedKey | scripts/ledger/ledger-core.ts:469-482 | a recorded key gets its entry back, whatever head the request expects: as a replay when the three content fields are equal, as a conflict when not |
| AppendProtocol.ReplayFindsItsEntry | scripts/ledger/ledger-core.ts:469-482 | a request accepted at some time of a run, submitted again at any later time, is a replay that returns its own entry |
| Lines.SplitConcat | scripts/ledger/cli.ts:79-85 | splitting a concatenation glues the last piece of the first text to the first of the second |
| Lines.SplitIsJoined | scripts/ledger/cli.ts:79-85 | every text is its pieces joined with newlines, and no piece holds a newline |
| Lines.SplitJoined | scripts/ledger/cli.ts:79-85 | terminated lines with an unfinished rest split into exactly these |
| LedgerCli.SplitLines | scripts/ledger/cli.ts:79-85 | lines without newlines that give back the content: each with a newline after it, and a last one without if the content does not end in one |
| LedgerCli.LinesInIff | scripts/ledger/cli.ts:79-85 | and they are the only such list of lines |
| LedgerCli.ParseEntries | scripts/ledger/cli.ts:87-102 | the entries of all lines that are not empty and parse, in order, values that are no ledger entry cast to a stand-in |
| LedgerCli.EntriesAreRead | scripts/ledger/cli.ts:187-204 | on lines that pass the validator, the only ones the command line parses, no stand-in occurs: the entries are those the validator read |
| LedgerCli.AppendAddsOneLineIff | scripts/ledger/cli.ts:236-237 | writing behind the content adds exactly one line if and only if the content was empty or ended in a newline |
| LedgerCli.LedgerFile.RunInit | scripts/ledger/cli.ts:135-167 | writes the genesis line to a new file only, and its exit code |
| LedgerCli.LedgerFile.RunAppend | scripts/ledger/cli.ts:169-261 | keeps the content, or adds the line of the appended entry, and its exit code in every case |
| LedgerCli.FileHoldsAccepted | scripts/ledger/cli.ts:135-261 | after any commands the lines of the file are the lines of the accepted entries, and parsing them gives those entries back in order, numbered from 1 |
| LedgerCli.OneMoreLine | scripts/ledger/cli.ts:164-239 | in any run a command leaves the file as it is or keeps every byte and adds exactly one line without newline |
| LedgerCommands.InitOutcomes | scripts/ledger/cli.ts:135-167 | `init` exits 0 and writes one line, a genesis entry with its inputs, exactly if there is no file and the manifest is JSON; else it exits 1 and writes nothing |
| LedgerCommands.NotReady | scripts/ledger/cli.ts:183-209 | `append` to a file that is no valid ledger with entries, or with a receipt that is not JSON: exit 1, nothing written |
| LedgerCommands.RecordedKey | scripts/ledger/cli.ts:242-284 | `append` with a recorded key: exit 0 if it was recorded with this receipt, exit 1 if not, nothing written |
| LedgerCommands.RecordedId | scripts/ledger/cli.ts:242-284 | a recorded entry id under a new key: exit 1, nothing written |
| LedgerCommands.NewIsAppended | scripts/ledger/cli.ts:235-241 | a new key and id: exit 0 and one more line, that of the entry built on the last one |
| LedgerCommands.BuiltIs | scripts/ledger/cli.ts:210-227 | what that entry holds: the command's texts, key and receipt, the hash and number that continue the head, and the signature |
| LedgerCommands.ExitZeroIff | scripts/ledger/cli.ts:235-284 | exit 0 means that a line was written or that the key is recorded with this receipt |
| LedgerCommands.RepeatedKeyInRuns | scripts/ledger/cli.ts:169-284 | in any run of commands, a later `append` with the key of one that wrote, on a valid file, writes nothing and exits 0 exactly if the receipt has the content that was recorded |
| LedgerCommands.ReplayExitsZero | scripts/ledger/cli.ts:169-284 | so the same `append` again exits 0 and changes nothing, at any later time |
| LedgerCli.AppendLeavesValidIff | scripts/ledger/cli.ts:187-239 | a successful append leaves the file valid exactly when the old content ended in a newline, the receipt is an object or null, the texts are not empty, and the signing key is acceptable to the genesis |
| LedgerCli.GluedIsInvalid | scripts/ledger/cli.ts:236-237 | a line written behind a valid ledger without a final newline makes it invalid |
| LedgerCli.ArrayReceiptBreaksLedger | scripts/ledger/cli.ts:197-239 | any valid ledger takes the receipt `[]` under a new key and entry id, and is invalid then |
| LedgerCli.NewLedgerTakesArrayReceipt | scripts/ledger/cli.ts:135-239 | so does every ledger just created from a complete manifest |
| Graph.TailIsCycle | scripts/architecture/rules.ts:192-195 | a node met again on a path of distinct nodes closes a simple cycle with the tail of the path |
| CycleSearch.SameNodesSameKey | scripts/architecture/rules.ts:195-196 | cycles on the same nodes have the same key |
| CycleSearch.SameKeySameNodes | scripts/architecture/rules.ts:195-196 | and for names without spaces only they have |
| CycleSearch.EveryCycleIsMet | scripts/architecture/rules.ts:203-207 | for names without spaces: if every edge falls in finishing order or is covered by a listed cycle, every closed walk has an edge that a listed cycle covers |
| CycleSearch.CycleFinder.Walk | scripts/architecture/rules.ts:190-208 | terminates on any graph, keeps the invariant of the three colours, and leaves the node finished or on the stack with its back edge covered |
| CycleSearch.CycleFinder.CloseCycle | scripts/architecture/rules.ts:192-200 | lists the tail of the stack from the node on, unless its key has been seen, and marks the key as seen |
| CycleSearch.FindCycles | scripts/architecture/rules.ts:184-212 | the result is empty exactly when the graph is acyclic, holds only simple cycles, no two on one node set, and for names without spaces misses no cycle altogether |
| CycleSearch.CyclesLieInComponents | scripts/architecture/rules.ts:183-212 | every listed cycle is a simple cycle inside one cyclic component |
| CycleSearch.ComponentsHoldCycles | scripts/architecture/rules.ts:183-212 | for names without spaces, every cyclic component holds a listed cycle |
| CycleSearch.ListsComponentsIff | scripts/architecture/rules.ts:183-212 | for names without spaces, the node sets listed are exactly the cyclic components, each once, if and only if every listed cycle visits every node it is mutually reachable with |
| CycleSearch.FullCyclesGiveComponents | scripts/architecture/rules.ts:183-212 | that is so on every graph whose simple cycles all do |
| CycleSearch.OneComponentListedTwice | scripts/architecture/rules.ts:183-212 | on a node with cycles to two others, two cycles are listed in one component, and the documented promise fails |
| CompliancePipeline.ResolveDependencyOrder | packages/fiscal-compliance-pipeline/src/runner.ts:145-169 | terminates on any graph; the order of the depth-first search, with one stage per id, and on acyclic graphs every stage after those of its dependencies that are in the chain |
| CompliancePipeline.DependencyResolver.Visit | packages/fiscal-compliance-pipeline/src/runner.ts:150-162 | keeps the search invariant and the path, only adds to what is sorted, and leaves the stage sorted or on the path |
| CompliancePipeline.DistinctIdsPermute | packages/fiscal-compliance-pipeline/src/runner.ts:148-168 | with distinct ids the result is a permutation of the stages |
| CompliancePipeline.ListedOrderIsKept | packages/fiscal-compliance-pipeline/src/runner.ts:145-169 | stages with distinct ids that are listed after their dependencies come back as listed |
| CompliancePipeline.StageMapIsLast | packages/fiscal-compliance-pipeline/src/runner.ts:148 | of several stages with one id the last is the one that is sorted |
| CompliancePipeline.StageSees | packages/fiscal-compliance-pipeline/src/runner.ts:78-117 | each stage executed is shown exactly the results of those before it, and leaves its own result, or a CRITICAL finding with the error if it throws |
| CompliancePipeline.FindingsConcat | packages/fiscal-compliance-pipeline/src/runner.ts:82 | findings of a run are those of its stages one after the other |
| CompliancePipeline.RunChain | packages/fiscal-compliance-pipeline/src/runner.ts:50-140 | every stage executed had all its dependencies executed and PASSED before it, results and findings are those of the executed stages in order, and where and why the chain stopped |
| CompliancePipeline.RunStages | packages/fiscal-compliance-pipeline/src/runner.ts:70-118 | the loop, for any order: stages executed are a prefix of it, and how it ended |
| CompliancePipeline.ResultMapPassed | packages/fiscal-compliance-pipeline/src/runner.ts:174-182 | while everything executed has passed, the dependency check finds exactly the executed stages, and finds them PASSED |
| CompliancePipeline.PassedIff | packages/fiscal-compliance-pipeline/src/runner.ts:50-140 | PASSED exactly when the dependency graph is acyclic, every dependency names a stage of the chain, and every recorded result is PASSED |
| CompliancePipeline.NeverExecutedAboveTrouble | packages/fiscal-compliance-pipeline/src/runner.ts:70-75 | whatever the stages do, one that depends, directly or through others, on a stage that did not pass, on an unknown id or on a stage on a cycle is never executed |
| CompliancePipeline.PassedMeansSound | packages/fiscal-compliance-pipeline/src/runner.ts:70-75 | a chain that ran to its end has an acyclic graph without unknown dependencies, although nothing looks for cycles |
| CompliancePipeline.SoundMeansMet | packages/fiscal-compliance-pipeline/src/runner.ts:174-182 | in a sound graph the dependency check never stops a chain whose stages pass |
| RateLimit.RateLimiter.Handle | apps/api/src/middleware/rate-limit.middleware.ts:196-230 | the answer and the store after one request, with window reset and count |
| RateLimit.RateLimiter.Sweep | apps/api/src/middleware/rate-limit.middleware.ts:67-77 | exactly the entries with a reset time before now are gone |
| RateLimit.CeilSeconds | apps/api/src/middleware/rate-limit.middleware.ts:217 | the retry time is the least number of seconds that is not before the reset |
| RateLimit.SweepsAreInvisible | apps/api/src/middleware/rate-limit.middleware.ts:67-77 | as long as no sweep is later than a later request, sweeps at arbitrary moments change no answer of any trace; requests may run back among themselves |
| RateLimit.TimeFlowsIsOnTime | apps/api/src/middleware/rate-limit.middleware.ts:67-77 | in non-decreasing time no sweep is |
| RateLimit.SweptStoreLacksOnlyExpired | apps/api/src/middleware/rate-limit.middleware.ts:67-77 | then the swept store differs from the other one only in entries that have expired by any time no sweep is later than |
| RateLimit.SweepVisibleIff | apps/api/src/middleware/rate-limit.middleware.ts:67-77 | one sweep changes the answer to a request exactly if it took the client's window and the request comes no later than that window's reset time, for every limit |
| RateLimit.SweepsAreInvisibleIff | apps/api/src/middleware/rate-limit.middleware.ts:67-77 | over any trace with positive limits, in any order of times, sweeps change no answer if and only if no request is the first of its client since a sweep took its window and comes no later than that window's reset time |
| RateLimit.EarlySweepIsVisible | apps/api/src/middleware/rate-limit.middleware.ts:67-77 | a trace of three events in which a sweep ahead of the clock changes an answer |
| RateLimit.ClockRunsBackUnseen | apps/api/src/middleware/rate-limit.middleware.ts:67-77 | a trace of three events whose clock runs back and in which the sweep changes no answer |
| RateLimit.ZeroLimitHidesLoss | apps/api/src/middleware/rate-limit.middleware.ts:214-224 | with a limit of zero a window can be lost and no answer change |
| RateLimit.NeverTwiceTheLimit | apps/api/src/middleware/rate-limit.middleware.ts:200-224 | any interval of at most one window length holds at most 2*max - 1 allowed requests of one client (max if the window has no length or the limit is zero), in any trace of requests and sweeps |
| RateLimit.SlidingLimitIsReached | apps/api/src/middleware/rate-limit.middleware.ts:200-224 | for every limit and window length there is a trace and such an interval with exactly that many |
| RateLimit.TrackBounds | apps/api/src/middleware/rate-limit.middleware.ts:200-224 | the requests allowed in such an interval fall into at most two windows, each with at most the limit, of which the first window spent one before the interval |
| SnapshotStream.Execute | packages/mission-client/src/http-mission-client.ts:106-121 | yields the payloads of the complete lines of the whole text in order, whatever the chunks, and keeps the unfinished line |
| SnapshotStream.OneMoreChunk | packages/mission-client/src/http-mission-client.ts:110-112 | buffer and chunk complete exactly the lines that the longer text has more |
| SnapshotStream.YieldsCompleteLines | packages/mission-client/src/http-mission-client.ts:111-119 | for any chunking of terminated lines and a rest, what is yielded is what the lines carry |
| SnapshotStream.DataLine | packages/mission-client/src/http-mission-client.ts:114-118 | a line that starts with "data: " yields what follows if it parses, and nothing if not |
| SnapshotStream.OtherLine | packages/mission-client/src/http-mission-client.ts:114 | any other line yields nothing |
| Ratchet.CompareToBaseline | scripts/ci/typecheck-ratchet.ts:69-90 | regressions and improvements are exactly the buckets whose count grew and fell, each once |
| Ratchet.Evaluate | scripts/ci/typecheck-ratchet.ts:95-120 | exit code 0 exactly when no bucket grew; an update is allowed exactly when, besides, one fell |
| Ratchet.CompareScope | scripts/architecture/check-baseline-policy.ts:62-89 | findings are exactly the present buckets that grew, improvements those that fell and those that are gone; there are no findings exactly when no present bucket grew |
| Ratchet.ImplementationsAgreeIff | scripts/ci/typecheck-ratchet.ts:95-120 | for results of `CompareToBaseline` and `CompareScope` on the same maps: exit code 0 and an empty list of findings agree if and only if some bucket grew or no vanished bucket had a negative count |
| Ratchet.NegativeCountDivides | scripts/ci/typecheck-ratchet.ts:95-120 | a baseline of one bucket with count -1 that is gone: the ratchet exits 1, the policy gate has no findings |
| Ratchet.BaselineFile.Run | scripts/ci/typecheck-ratchet.ts:139-198 | the baseline file and the exit code 0, 1 or 2 after one invocation, unknown targets and failures of the type check included |
| Ratchet.TotalFalls | scripts/ci/typecheck-ratchet.ts:115-128 | nothing worse and something better means a strictly smaller total |
| Ratchet.OnlyDown | scripts/ci/typecheck-ratchet.ts:166-197 | after bootstrap no run raises any bucket, and the accepted updates and the total together never exceed the first total |
| Ratchet.AcceptedAtMostTotal | scripts/ci/typecheck-ratchet.ts:166-197 | counts being no negative numbers, at most as many updates are accepted as the bootstrapped baseline counts errors |
| RollingHash.HashValue | packages/fiscal-fsd/src/runner.ts:309-315 | the loop computes the sum of s[i]*31^(n-1-i), wrapped to signed 32 bits as in section 7.1.6 of ECMA-262 |
| RollingHash.SimpleHash | packages/fiscal-fsd/src/runner.ts:309-317 | eight hexadecimal digits that denote the absolute value of the wrapped polynomial |
| RollingHash.StepIsHorner | packages/fiscal-fsd/src/runner.ts:312-314 | one step, with its own wrap-around in the shift, is a Horner step modulo 2^32 |
| RollingHash.TermsScale | packages/fiscal-fsd/src/runner.ts:311-315 | one more character multiplies the explicit sum by 31 and adds the character |
| RollingHash.HashTextIsEightDigits | packages/fiscal-fsd/src/runner.ts:316 | the text is always exactly eight lower-case hexadecimal digits, -2^31 included, and denotes the absolute value |
| RollingHash.HashTextsAreExactly | packages/fiscal-fsd/src/runner.ts:309-317 | the texts that occur as hashes are exactly the eight-digit ones up to 80000000 |
| RollingHash.SameHashTextIff | packages/fiscal-fsd/src/runner.ts:309-317 | two texts have one hash exactly when their polynomials agree modulo 2^32 up to sign |
| Gatekeeper.GatedPhasePipeline.EvaluateGates | packages/phase-gatekeeper/src/pipeline.ts:150-187 | the verdicts, messages and recorded results of the gates up to the first that stops, each gate judged on what those before it returned |
| Gatekeeper.GatedPhasePipeline.RunPhase | packages/phase-gatekeeper/src/pipeline.ts:52-143 | the result of a phase, and whether its body is called |
| Gatekeeper.GatedPhasePipeline.RunPipeline | packages/phase-gatekeeper/src/pipeline.ts:198-251 | results of the phases in order up to the first that is no success, the calls of bodies, status and place of the stop |
| Gatekeeper.BodyRunsIff | packages/phase-gatekeeper/src/pipeline.ts:69-90 | a body runs exactly when the mode is to continue or no pre-gate evaluated returned a failing BLOCKING verdict; gates that threw do not hold it up |
| Gatekeeper.SuccessIff | packages/phase-gatekeeper/src/pipeline.ts:125-143 | SUCCESS exactly when the body did not visibly fail and, unless the mode is to continue, every gate returned a verdict that is no failing BLOCKING one |
| Gatekeeper.SuccessOnRecord | packages/phase-gatekeeper/src/pipeline.ts:125-143 | the same read off the verdicts on record, those made for throwing gates included |
| Gatekeeper.FailedIff | packages/phase-gatekeeper/src/pipeline.ts:93-132 | FAILED exactly when the body ran and threw a message that is not empty, whatever the gates said |
| Gatekeeper.LeavesOutput | packages/phase-gatekeeper/src/pipeline.ts:76-143 | the output is what the body returned, or null; null skips the post-gates, and disabled gates leave no verdicts |
| Gatekeeper.MessageTexts | packages/phase-gatekeeper/src/pipeline.ts:95-275 | the texts of the messages |
| Gatekeeper.JoinConcat | packages/phase-gatekeeper/src/pipeline.ts:164-275 | reasons are joined in order with "; " between any two |
| Gatekeeper.SuccessMeansReturnedIff | packages/phase-gatekeeper/src/pipeline.ts:94-132 | a success has a body that returned, unless it threw an empty message and the pre-gates were clear |
| Gatekeeper.EmptyMessageLooksLikeSuccess | packages/phase-gatekeeper/src/pipeline.ts:94-132 | a phase that throws an empty message is a success that did not return |
| Gatekeeper.CompletedIff | packages/phase-gatekeeper/src/pipeline.ts:198-251 | COMPLETED exactly when each phase in turn succeeds on what the one before it left, and then all of them ran |
| Gatekeeper.ExecutedPhasesArePrefix | packages/phase-gatekeeper/src/pipeline.ts:209-235 | the bodies called are those of the first phases, once each and in order; the first is given its own input, any other the output of the phase before unless that is null or undefined, and then its own; only a BLOCKED last phase has no call |
| Gatekeeper.OneRun | packages/phase-gatekeeper/src/pipeline.ts:209-235 | what is promised of a run determines its results |
| Gatekeeper.EscalationOnlyRewords | packages/phase-gatekeeper/src/pipeline.ts:266-275 | ESCALATE gives every phase the result that STOP gives it, except for the words of the errors |
| Gatekeeper.EscalationRunsAlike | packages/phase-gatekeeper/src/pipeline.ts:198-251 | whole runs under the two modes have equal results, errors reworded, and the same end |

## Left out

- Numbers are integers of any size: fractions, exponents and the loss of precision beyond 2^53 are not modelled. A line with such a number is not JSON to this parser.
- SHA-256 and Ed25519 themselves, key formats and base64; lone surrogates are hashed as they are, not as their UTF-8 replacement. A private key that cannot be read makes `signEntry` throw, which is not modelled.
- `extractTrustRootKeys` (scripts/ledger/ledger-core.ts): the trust root is a given set of key ids.
- `signingPolicy.required` and `requiredApproval`: the modelled code never reads them, and nothing is claimed about them.
- The wording of ledger findings is a constructor each; keys that look like array indices would be enumerated first by JavaScript, which changes the order of unknown-field findings only.
- Lookups of inherited keys such as `__proto__` or `constructor` on JavaScript objects.
- Clock, random ids, environment variables, argument parsing and console output of the ledger CLI are parameters or absent; writing a temporary file and renaming it is one step, so is a whole command.
- HTTP, `TextDecoder`, timeouts and errors of the mission client: chunks are decoded text, and the generator's interleaving with its consumer is not modelled.
- Client identification and response headers other than the retry time in the rate limiter; its entries are values in a map instead of shared objects, one window length per trace.
- The Redis rate limiter (`apps/api/src/middleware/rate-limit.ts`), whose steps are not atomic.
- Ratchet.CompareToBaseline: the `localeCompare` order of the deltas is not modelled; they are determined as sets without repetition. So is the order of the baseline file.
- Ratchet.CompareScope: findings and improvements are bucket names; their messages and the order in which JavaScript enumerates keys are not modelled.
- LedgerCli.ParseEntries: a JSON value that is no object is cast to one stand-in entry instead of being kept; the command line only parses files that passed the validator, where none occurs (`LedgerCli.EntriesAreRead`).
- RateLimit.SweepsAreInvisibleIff: requires limits of at least one; with others the condition is sufficient (`NothingForgottenHidesSweeps`) and not necessary (`ZeroLimitHidesLoss`).
- CycleSearch.FullCyclesGiveComponents: one direction only. Whether a graph outside the condition is listed by components depends on the order in which successors are visited.
- `parseTscErrors`, and the messages of the ratchet.
- `buildGraph`: `findCycles` is proved for any graph. Graphs with successor lists for unknown nodes are included.
- Evidence ids, confidence, durations, lenses and evidence stores of compliance chains, and durations, details and scope of gate verdicts.
- Stages, gates and phase bodies are functions of what they are given; those that mutate the shared context behind the runner's back, or call `updateConfig` while a phase runs, are not modelled.
- The other gates, services and packages of the monorepo: their properties follow from single bodies or rest on databases and modules that are not part of this model.
