# CortexDB, verified

A Dafny 4.11 model of the parts of CortexDB that carry state, interleaving or a
real equivalence, with proofs about them. `dafny verify dfyconfig.toml` checks
the whole project.

| group | modules | what is proved |
|---|---|---|
| key policy (`pkg/authz`) | `Authz`, `KeySources`, `KeySourceProtocol`, `KeySourceFailures` | every interleaving of file changes and `Current` calls; the set served always parsed from a text the file held; exactly when an answer can be wrong |
| body check (`pkg/authz`) | `Folding`, `Json`, `Ambiguous`, `Readers`, `Encoding` | the token stack machine is a predicate on trees; a body that passes reads the same to a map reader and a struct decoder |
| argument policy (`pkg/authz`) | `ToolArgs`, `ToolRoutes`, `ToolBodies` | exactly which calls are accepted, route by route; they stay confined at any depth; confining is idempotent, refuses nothing, and leaves a checked body reading the same; wider scopes accept more |
| embedding cache (`cmd/cortexdb-bench`) | `EmbedLog`, `EmbedCache`, `EmbedRuns` | crash at any byte, reopen, concurrent batches: the file is always whole sound records with distinct keys |
| memory store (`pkg/agentmem`) | `Texts`, `Memories`, `MemoryRules`, `Reflection`, `ReflectionResult`, `Supersession`, `MemoryStore` | six tables stay in agreement; `Get` after `Save`; `Reflect` stays in its bank; supersession ends |
| query tokens (`pkg/agentmem`) | `Tokenizer` | the one-pass scanner is the declarative tokenisation of the query's maximal runs |
| JSON repair, paging, naming (`cmd/cortexdb-mcp-stdio`) | `JsonText`, `Repair`, `CutStrings`, `CutEscapes`, `Pager`, `Slugs`, `SlugPieces` | a cut reply is JSON again, whether cut among closers or inside a string; no silent gap from any server; every exported memory gets a file of its own |
| unique numbers (`internal/testname`) | `Nano` | any threads and any clock: increasing, bounded, lock-free |

Code that changes state step by step is a class or a method with loops, proved
against functions of the state; the results are lemmas about those functions,
and about runs of them. Concurrency is a state machine whose events are the
atomic steps of the code.

## What is assumed

These are parameters or preconditions, never axioms.

- **File system, for the key source.** The clock never goes back. A change in
  place at time t stamps a time greater than t - 2 s. A file put at the path
  brings an inode that was never at the path before, or such a stamp (a new file
  under a reused inode). A file is read as its text of one instant; a reader that
  sees a rewrite half done is not modelled. These are what can happen
  (`KeySourceProtocol.CanHappen`). Beyond them the source takes for granted
  (`KeySourceProtocol.Orderly`) that a file moved to the path between the read
  and the stat of `OpenKeySource`, and a file whose permissions change, asks for
  the keys in force if its stat is trusted. Both are exact: see below.
- **Unicode.** `unicode.SimpleFold` cycles through finite orbits that include a
  character itself (`IsOrbits`, `IsSimpleFold`). White space holds no visible
  ASCII character. No space is a letter, a digit or CJK; lower case makes no
  space and no CJK out of a word that has none; it leaves `a-z`, `0-9` and `-`
  alone. Text is a sequence of code points; invalid UTF-8 is not modelled. The
  scanner of `repairJSON` works on bytes, but all it looks at is ASCII, which no
  longer character contains.
- **Hash and model, for the cache.** Keys are 32 bytes; texts with one key have
  one embedding; vectors have the model's dimension. The last is an assumption
  because nothing checks it: `EmbedLog.CloseThenOpenRestores` gives the exact
  condition.
- **Decoders.** `encoding/json` and the key-file decoder are parameters:
  `json.Valid` accepts only RFC 8259 texts (it may refuse some, as it does nesting
  past 10,000); the rest take the tree or the keys it gave. What a number becomes
  when it is read into a float64 and written again is a parameter too. `Marshal`
  lists the keys of a map in code point order (`Encoding.Encoded`).
- **Database.** Each transaction happens whole or not at all. Identifiers that
  `uuid.NewString` gives are not empty and not stored. `ORDER BY` on text is code
  point order.

## Where the code does not do what is promised

- `key_source.go:90-93` says that a change between the read and the stat of
  `OpenKeySource` is seen by the next `Current`. Not for a file moved into place
  with an old stamp: `KeySourceFailures.OpeningCanServeReplacedKeys` is such a
  run, and `OpeningNeedsItsAssumption` has the exact condition.
- `key_source.go:69-76` cannot see a change of permissions, which leaves the time
  stamp. A file moved in unreadable, with an old stamp, is stored with the keys
  before it; once it is made readable its stat is trusted, and its keys never
  come into force: `PermissionCanHideAChange`. `PermissionNeedsItsAssumption` has
  the exact condition.
- `key_source.go:69-72` trusts a failed stat whose error is the snapshot's. If
  the file came back and was served in between, the call answers with keys that
  were right at no instant of it: `FailedStatCanAnswerWithReplacedKeys`.
  `FailedStatAnswer` says exactly from which states every such call is right.
- `allowlist.go:626-636` picks among inexact spellings of a key in map order, so
  `checkPaths` can accept or refuse one body: `ToolBodies.OneBodyTwoVerdicts` is
  a body and two orders, `ToolArgs.VerdictDependsOnOrder` the exact condition
  (with an order of its own for every lookup),
  and a body that passed `CheckUnambiguous` has one verdict
  (`ToolBodies.CheckedBodyHasOneVerdict`).
- `allowlist.go:443-448` has what comes back from `ConfineToolArgs` differ only
  in the gates. It is encoded again from float64 numbers, so 9007199254740993
  reaches the tool as 9007199254740992: `ToolBodies.ALargeNumberChanges`. An
  argument arrives as it was sent exactly when its numbers survive
  (`HandedKeepsExactNumbers`). Encoding also keeps one copy of a repeated
  spelling: `ADroppedCopyChanges` is a body that the handler would have read
  otherwise. Bodies that passed `CheckUnambiguous` are read alike
  (`CheckedBodyReadsAlike`).
- `hindsight.go:91-104` does not look for the memory, so a revision of an
  unknown id leaves rows that belong to nothing: `OnlyAddRevisionOrphans`.
- `capture_session.go:429-478` cannot repair a text that ends inside an escape:
  the closing quote it adds is the escaped character (`RepairScansClean`), or
  ends a `\u` before its four digits. `CutEscapes.CutRepairedExactly` is the
  exact condition.
- `testname.go:50-59` repeats numbers once the counter has reached the greatest
  `int64`: `Nano.FullCounterRepeats`; `NumbersGrow` has the exact condition.
- A failed write leaves keys in the cache's map whose record never reached the
  file, so a later close and open does not restore the map:
  `EmbedRuns.CloseAndOpenRestores`.
- `superseded_by` is written as callers give it: a save or a `MarkStale` that
  names an unknown memory, or closes a loop, and a `Delete` of a memory that
  others name, leave memories whose successors never end.
  `Supersession.CareIsNeeded` is the exact condition, operation by operation.
- `reflect.go:94` skips an observation whose content is empty, but not one of
  blanks: `Save` refuses that one and `Reflect` stops with the earlier ones kept.
  `ReflectStaysInItsBank` holds of the half-done run as well.

## Model

| member | source | states |
|---|---|---|
| Authz.Constraints | pkg/authz/authz.go:147-173 | lists exactly the confined fields, in field order, each with the non-empty values the scope names for it |
| Authz.MergeValues | pkg/authz/authz.go:147-173 | a field's values are those its singular and plural settings name, without blanks or repeats |
| Authz.NamedExactly | pkg/authz/authz.go:147-173 | which two settings of a scope name the values of each of the four fields |
| Authz.NewKeySet | pkg/authz/authz.go:262-293 | accepts exactly the lists whose keys are valid with distinct ids and secrets; otherwise names the first key that breaks a rule and the first rule it breaks |
| Authz.ValidKeysExactly | pkg/authz/authz.go:262-293 | the rules in full: id, secret and a known clearance for each key, no blank in a list of its scope, no id and no secret twice |
| Authz.Lookup | pkg/authz/authz.go:244-260 | finds the last key declared with the secret, and none exactly if there is none |
| Authz.LookupIgnoresOrder | pkg/authz/authz.go:238-260 | two orders of one valid set of keys answer every lookup alike, found or not |
| Authz.ParseExactly | pkg/authz/authz.go:262-293 | a key file is taken exactly when it decodes to at least one key and the keys keep the rules |
| KeySources.KeySource.constructor | pkg/authz/key_source.go:80-97 | an opened source serves a valid set; trusts no stat but its own file's, stamped before the window, and none at all if its stat failed |
| KeySources.KeySource.Reread | pkg/authz/key_source.go:145-178 | for every stat and file content, spelled out: when the keys are replaced, what stat and time they are trusted under, when it has failed, and that it warns exactly when the change that failed is not the one remembered |
| KeySources.KeySource.Current | pkg/authz/key_source.go:120-140 | a trusted stat changes nothing; any other rereads |
| KeySourceProtocol.InvariantAfter | pkg/authz/key_source.go:67-178 | every step of a call or of the file, permissions included, keeps the protocol's invariant |
| KeySourceProtocol.SoundAfter | pkg/authz/key_source.go:67-76 | a snapshot whose stat would be trusted holds the right answer, after any change of the file |
| KeySourceProtocol.InvariantAlways | pkg/authz/key_source.go:80-178 | the invariant holds in every run |
| KeySourceProtocol.AnswersAreRight | pkg/authz/key_source.go:120-178 | the recorded answers are the right answers, instant by instant |
| KeySourceProtocol.CurrentAnswersAsOfOneInstant | pkg/authz/key_source.go:120-178 | in every interleaving a call by trusted stat or locked read answers as of one instant inside it |
| KeySourceProtocol.TrustedStatHidesNoChange | pkg/authz/key_source.go:67-76 | a stat trusted outside the racy window never hides a change: the current snapshot is right at that instant, a loaded one at an instant of its call |
| KeySourceProtocol.ServedKeysWereDeclared | pkg/authz/key_source.go:78-97 | every answer parsed from a text the file held: enabled, not empty, distinct ids and secrets |
| KeySourceProtocol.EveryNewFailureIsReported | pkg/authz/key_source.go:164-178 | in every run a reread is reported exactly when it failed and the one before did not fail of the same change |
| KeySourceProtocol.RecordedFailure | pkg/authz/key_source.go:145-178 | a reread has no failure exactly when the stat found a file whose text could be read and is the one in force or parses; otherwise it is the error of the stat, or the time and size of the file |
| KeySourceProtocol.ReportedOncePerChange | pkg/authz/key_source.go:164-178 | between two reports of one failing change there is a success or another failure |
| KeySourceFailures.FailedStatAnswer | pkg/authz/key_source.go:69-72 | from a reachable state, every way a call can go on to answer by an equal stat error is right at an instant of it, exactly when the current snapshot is not of a failed stat or holds the right answer at the call's start |
| KeySourceFailures.FailedStatCanAnswerWithReplacedKeys | pkg/authz/key_source.go:120-140 | a reachable run in which it is right at no instant of the call |
| KeySourceFailures.OpeningNeedsItsAssumption | pkg/authz/key_source.go:90-97 | once a file was moved in between read and stat, the first call is right at no instant exactly when the file is stamped before the window and asks for other keys |
| KeySourceFailures.OpeningCanServeReplacedKeys | pkg/authz/key_source.go:90-97 | a run from the start in which that happens, for any two texts that parse to different keys |
| KeySourceFailures.PermissionNeedsItsAssumption | pkg/authz/key_source.go:67-76 | after a change of permissions the next call is wrong exactly when the file became readable, its stat is trusted, and its text parses to other keys |
| KeySourceFailures.PermissionCanHideAChange | pkg/authz/key_source.go:145-178 | a run from the start in which that happens |
| Folding.SameFoldIsEqualFold | pkg/authz/ambiguous.go:108-135 | two keys have one fold exactly when they are equal under case folding |
| Folding.EqualFoldIsEquivalence | pkg/authz/ambiguous.go:108-110 | equality under case folding is symmetric and transitive |
| Folding.FoldRune | pkg/authz/ambiguous.go:111-135 | the loop round an orbit stops at its least member |
| Folding.FoldKey | pkg/authz/ambiguous.go:111-135 | the folded key is the least member of each character's orbit, in order |
| Json.LastCopyIsKept | pkg/authz/allowlist.go:593-604 | a map decoder holds the last copy of every exact spelling |
| Json.KeysOfLastCopies | pkg/authz/allowlist.go:593-604 | and the keys of the object, no others |
| Ambiguous.CheckUnambiguous | pkg/authz/ambiguous.go:42-106 | the loop over the tokens is the stack machine, with the key it reports |
| Ambiguous.ScanOfValue | pkg/authz/ambiguous.go:42-106 | over the tokens of a value the machine returns to its stack, or stops at the first repeated key of the tree |
| Ambiguous.ScanOfMembers | pkg/authz/ambiguous.go:56-104 | each frame holds exactly the folds of the keys read so far in its object |
| Ambiguous.RepeatMeansNamesTwice | pkg/authz/ambiguous.go:25-41 | there is a first repeat exactly when some object at some depth has two keys of one fold |
| Ambiguous.CheckIsNamesTwice | pkg/authz/ambiguous.go:25-106 | over any sequence of values the check fails exactly when one of them names a field twice |
| Ambiguous.PrefixVerdictStands | pkg/authz/ambiguous.go:45-55 | a repeat found in a prefix is the verdict, whatever follows |
| Readers.ReadersAgree | pkg/authz/allowlist.go:697-719 | when no object names a field twice, the policy's reader and a struct decoder read the same values at every path |
| Readers.MembersAgree | pkg/authz/allowlist.go:778-811 | one object, fields matched by fold, keys in order |
| Readers.MapOfFoldDistinct | pkg/authz/ambiguous.go:25-41 | an object that names no field twice is the map of its members |
| Readers.TwoCopiesCanDisagree | pkg/authz/ambiguous.go:25-41 | without the check the two readers can differ |
| Encoding.DecodedOfEncoded | pkg/authz/allowlist.go:474-477 | a decoded value written as JSON is read back as it was |
| Encoding.DecodeAlike | pkg/authz/ambiguous.go:25-41 | two bodies that name no field twice and hold one value but for numbers decode alike into every field of strings |
| ToolArgs.Walk | pkg/authz/allowlist.go:496-560 | the walk refuses exactly the trees with a key outside the lists |
| ToolArgs.CheckOpenKeys | pkg/authz/allowlist.go:569-590 | below an open object a key is refused exactly when the engine or a writer owns it |
| ToolArgs.AuthorizeToolArgs | pkg/authz/allowlist.go:395-441 | the verdict for every tool and body, whatever order the map is iterated in at each lookup |
| ToolRoutes.WalkExactly | pkg/authz/allowlist.go:496-590 | the walk lets arguments through exactly when every key on every route is classified and not denied, up to the objects left open, and metadata has no key of the engine or the writer |
| ToolRoutes.CopiesExactly | pkg/authz/allowlist.go:661-691 | the scan reads exactly the non-empty strings at spellings of the field within five keys |
| ToolRoutes.AcceptedExactly | pkg/authz/allowlist.go:395-441 | a call is accepted exactly when the key is not confined, or the tool has a line, the arguments are an object, one at most is sent of those that exclude each other, every key may be sent, every confined field is held, and the store it does not confine is off |
| ToolRoutes.AcceptedCallsHaveTheGateOn | pkg/authz/allowlist.go:432-438 | in an accepted call that touches another store, some key is a spelling of the gate and every one is true |
| ToolArgs.ScanCovers | pkg/authz/allowlist.go:661-691 | the depth-4 scan sees every value of a confined field that the path check let through |
| ToolArgs.AcceptedCallsStayConfined | pkg/authz/allowlist.go:395-441 | in an accepted call of a tool with scope fields every key fold-equal to a confined field, outside open objects and at any depth, holds a permitted value |
| ToolArgs.AcceptedCallsWithoutScope | pkg/authz/allowlist.go:392-394 | in an accepted call of a tool none of whose paths ends in a scope field, no key outside open objects is a spelling of that field |
| ToolArgs.VerdictDependsOnOrder | pkg/authz/allowlist.go:626-636 | the one-of check gives one answer, whatever order each lookup iterates the map in, exactly under a stated condition on spellings and nulls |
| ToolArgs.UnambiguousVerdictIsOne | pkg/authz/allowlist.go:496-560 | arguments without two spellings of a key have one verdict |
| ToolBodies.CheckedBodyHasOneVerdict | pkg/authz/ambiguous.go:25-41 | so has every body that passed CheckUnambiguous |
| ToolBodies.OneBodyTwoVerdicts | pkg/authz/allowlist.go:265-265 | a body of memory_get and two orders of its keys, one accepted and one refused |
| ToolArgs.ConfineToolArgs | pkg/authz/allowlist.go:464-473 | the decoded arguments afterwards: for each confined field every spelling of its gate removed and the gate set |
| ToolBodies.HandToTool | pkg/authz/allowlist.go:449-477 | what the tool is handed, from the body as it arrived, repeated keys included: that body, or decoded, with its gates set, and encoded again |
| ToolBodies.HandedUnchanged | pkg/authz/allowlist.go:449-463 | whose body comes back as it was: no confinement, no gates, no object, or a number out of range |
| ToolBodies.HandedGatesAreOn | pkg/authz/allowlist.go:464-477 | any other, a blank one included, comes back with the gate of every confined field true under its one spelling |
| ToolBodies.HandedKeepsExactNumbers | pkg/authz/allowlist.go:474-477 | an argument that is no gate is handed on as its last copy was sent exactly when every number in it survives float64 |
| ToolBodies.ALargeNumberChanges | pkg/authz/allowlist.go:474-477 | 9007199254740993 does not |
| ToolBodies.HandedSpellsOnce | pkg/authz/allowlist.go:474-477 | what is encoded again spells no key twice at any depth, so a body that did is not handed on as sent |
| ToolBodies.HandedNamesOnce | pkg/authz/allowlist.go:464-477 | a body that names no field twice is handed on as one that names none twice |
| ToolBodies.CheckedBodyReadsAlike | pkg/authz/allowlist.go:449-477 | from a body that passed CheckUnambiguous the handler decodes, at every path that starts with no gate, the same strings as from what was sent |
| ToolBodies.ADroppedCopyChanges | pkg/authz/allowlist.go:474-477 | a body with a repeated key from which it does not |
| ToolBodies.HandingTwiceIsOnce | pkg/authz/allowlist.go:449-477 | handing on what was handed on changes nothing |
| ToolBodies.HandingRefusesNothing | pkg/authz/allowlist.go:449-477 | a call accepted as sent is accepted as handed on |
| ToolArgs.ConfiningTwiceIsOnce | pkg/authz/allowlist.go:449-477 | confining is idempotent |
| ToolArgs.ConfiningSetsGatesOnly | pkg/authz/allowlist.go:449-477 | every gate the scope needs reads as set, and every other decoded argument is as it was |
| ToolArgs.ConfiningRefusesNothing | pkg/authz/allowlist.go:449-477 | an accepted call stays accepted, for the same iteration orders |
| ToolArgs.WiderScopeAccepts | pkg/authz/allowlist.go:395-441 | widening a field or dropping a confinement refuses no accepted call |
| EmbedLog.Uint32RoundTrip | cmd/cortexdb-bench/embedder.go:235-245 | four little-endian bytes read back as the number written |
| EmbedLog.RecordLayout | cmd/cortexdb-bench/embedder.go:232-245 | a record is its key and then four bytes for each number, the lowest first |
| EmbedLog.LogRoundTrip | cmd/cortexdb-bench/embedder.go:166-178 | what was appended is read back record for record, whatever follows |
| EmbedLog.TornLog | cmd/cortexdb-bench/embedder.go:157-191 | a log torn at any byte reads as its whole records, and is cut to exactly their bytes |
| EmbedLog.SpanOfWhole | cmd/cortexdb-bench/embedder.go:169-169 | the length the file is cut to is that of its whole records |
| EmbedLog.CloseThenOpenRestores | cmd/cortexdb-bench/embedder.go:160-192 | close and open restore the map exactly when every vector has the dimension |
| EmbedCache.InnerEmbedBatch | cmd/cortexdb-bench/embedder.go:58-69 | batches of 32 give the model's vector of every text in order exactly when every request is answered; how many are made |
| EmbedCache.LookupAll | cmd/cortexdb-bench/embedder.go:204-218 | what the map answers, the places it does not, and their texts |
| EmbedCache.StoreAll | cmd/cortexdb-bench/embedder.go:226-248 | answers in place; one record and one count for each key that was new |
| EmbedCache.AddedKeepsLog | cmd/cortexdb-bench/embedder.go:226-248 | a batch over any log adds sound records of new keys, and then every key asked for is there |
| EmbedCache.WholeBatch | cmd/cortexdb-bench/embedder.go:204-248 | hits and answers together are the embeddings of the batch, in order, repeats included |
| EmbedCache.OpenedLog | cmd/cortexdb-bench/embedder.go:160-192 | opening a torn file of the cache gives a good log of its whole records |
| EmbedCache.LoadRecords | cmd/cortexdb-bench/embedder.go:166-178 | the loading loop gives the map of the file's whole records |
| EmbedCache.CachedEmbedder.constructor | cmd/cortexdb-bench/embedder.go:160-192 | opening loads exactly the whole records and realigns the file |
| EmbedCache.CachedEmbedder.Lookup | cmd/cortexdb-bench/embedder.go:204-218 | the first locked part changes the hit count only |
| EmbedCache.CachedEmbedder.Store | cmd/cortexdb-bench/embedder.go:226-248 | the second locked part: map, buffer and count |
| EmbedCache.CachedEmbedder.EmbedBatch | cmd/cortexdb-bench/embedder.go:204-248 | returns the embedding of each text in order; makes no request when all are held; an error adds no record |
| EmbedCache.PredictedExactly | cmd/cortexdb-bench/embedder.go:250-270 | which documents have a predicted chunk, of how many words and characters, and its text, word by word |
| EmbedCache.CachedEmbedder.Predicted | cmd/cortexdb-bench/embedder.go:279-298 | Warm asks for predicted chunks that are not held, each key once, and for all of them |
| EmbedCache.CachedEmbedder.Warm | cmd/cortexdb-bench/embedder.go:260-306 | after a success every predicted chunk is held, and it succeeds if the model answers |
| EmbedCache.CachedEmbedder.Close | cmd/cortexdb-bench/embedder.go:309-316 | the file is then every record of the map |
| EmbedCache.CloseAndOpen | cmd/cortexdb-bench/embedder.go:160-192 | a clean close and open restore the whole map |
| EmbedRuns.InvariantAfter | cmd/cortexdb-bench/embedder.go:157-248 | open, lookup, answer, store, failed write, flush, close, failed close or open, and crash keep the invariant |
| EmbedRuns.InvariantAlways | cmd/cortexdb-bench/embedder.go:157-316 | so does every run |
| EmbedRuns.FileIsAlwaysRecords | cmd/cortexdb-bench/embedder.go:157-248 | at every moment the file is a prefix of whole sound records with distinct keys, and opening loads exactly its whole ones |
| EmbedRuns.EveryBatchIsRight | cmd/cortexdb-bench/embedder.go:204-248 | with batches interleaving round the unlocked call, each returns the embedding of each text in order |
| EmbedRuns.CountsAddUp | cmd/cortexdb-bench/embedder.go:204-248 | no key twice; the map holds what was loaded plus what was computed, each the embedding of a text of its key |
| EmbedRuns.CloseAndOpenRestores | cmd/cortexdb-bench/embedder.go:309-316 | close and open restore the map when no write failed, and otherwise exactly when every byte reached the file |
| EmbedRuns.ReturnedBatchIsHeld | cmd/cortexdb-bench/embedder.go:226-248 | in every run the map holds all texts of a batch that returned their embeddings |
| EmbedRuns.ReturnedBatchAsksNothing | cmd/cortexdb-bench/embedder.go:255-306 | after the batches of a Warm have returned, whatever batches run meanwhile, a batch of their texts returns from its first locked part with no inner call |
| EmbedRuns.HeldBatchAsksNothing | cmd/cortexdb-bench/embedder.go:204-221 | once texts are held, loaded or computed, whatever batches run meanwhile, a batch of them returns every embedding from its first locked part, with no inner call |
| Texts.TrimIsTrimmed | pkg/agentmem/crud.go:377-381 | trimming leaves no white space at either end |
| Texts.InOrder | pkg/agentmem/crud.go:413-428 | a column read in order, each value once |
| Texts.ListIsUnique | pkg/agentmem/crud.go:413-428 | there is one such list |
| Memories.BanksSeparateScopes | pkg/agentmem/store.go:113-141 | two scopes share a bank exactly when normalised kind and, unless global, trimmed id agree |
| Memories.OperationsAreLocal | pkg/agentmem/crud.go:19-192 | after any operation the rows of an id in all tables are a function of that id's rows alone; others keep theirs |
| MemoryRules.TablesStayInAgreement | pkg/agentmem/crud.go:19-192 | one text row per memory and none else, side rows of stored memories only and normal, the bank of the scope, revisions 0..n-1 |
| MemoryRules.AgreementInEveryRun | pkg/agentmem/crud.go:19-192 | in every reachable state |
| MemoryRules.OnlyAddRevisionOrphans | pkg/agentmem/hindsight.go:91-122 | an operation leaves revision rows without a memory exactly when it is AddRevision of an unknown id |
| MemoryRules.GetAfterSave | pkg/agentmem/crud.go:19-127 | Get after Save is the normalised memory; an update keeps access count, last access and creation time |
| MemoryRules.SavedFields | pkg/agentmem/crud.go:19-127 | Get after Save field by field, in what the caller gave: each default, what an update keeps, and the rest as it was said |
| MemoryRules.SavedLists | pkg/agentmem/crud.go:361-428 | tags, keywords and evidence come back trimmed, without blanks and repeats, in order |
| MemoryRules.OperationErrors | pkg/agentmem/crud.go:19-194 | which operations fail on which input, with which error, and that a failure changes nothing |
| MemoryRules.SaveOfGetIsFixed | pkg/agentmem/crud.go:19-127 | saving what Get returned and getting again changes the update time only |
| MemoryRules.SaveOfGetKeepsTables | pkg/agentmem/crud.go:19-107 | and keeps every row but that time and the text row's words |
| MemoryRules.GetAfterChange | pkg/agentmem/hindsight.go:12-122 | Get after MarkStale, Archive, Unarchive, AddRevision or IncrementAccess is the memory before with exactly their fields changed and their note at the end of the history |
| MemoryRules.UnarchiveUndoesArchive | pkg/agentmem/hindsight.go:42-88 | Unarchive takes Archive back, but for the update time and the note |
| Reflection.StepsKeep | pkg/agentmem/reflect.go:93-129 | every prefix of the loop keeps to what Reflect may do |
| Reflection.ReflectStaysInItsBank | pkg/agentmem/reflect.go:47-131 | nothing outside the bank changes; only observations active at the start are superseded, by new ones; exactly Created + Updated = NewIDs memories are added |
| ReflectionResult.ReflectReports | pkg/agentmem/reflect.go:93-129 | ids and ignored targets in order; each observation taken is stored as it was said; each memory superseded names the last observation that named it |
| ReflectionResult.ReflectFinishes | pkg/agentmem/reflect.go:93-119 | Reflect with enough facts and an answer fails exactly when an observation it takes is blank |
| ReflectionResult.ReflectTakes | pkg/agentmem/reflect.go:93-118 | an observation is taken exactly when it has content and two pieces of evidence at least; it is then stored as it was said, and no other identifier is reported |
| ReflectionResult.ReflectSupersedes | pkg/agentmem/reflect.go:97-127 | an active observation that none of those names is untouched in every table; any other names the last of them that does |
| ReflectionResult.ReflectDrops | pkg/agentmem/reflect.go:97-102 | the dropped targets are those of observations taken that name no active observation of the bank |
| ReflectionResult.TooFewFacts | pkg/agentmem/reflect.go:82-86 | with fewer than two new facts nothing happens |
| ReflectionResult.NewFactsAre | pkg/agentmem/reflect.go:59-81 | a new fact is a current fact of the bank that no current observation of it rests on |
| Supersession.ReflectAgrees | pkg/agentmem/reflect.go:47-131 | Reflect keeps the tables in agreement |
| Supersession.WritingKeepsLinks | pkg/agentmem/hindsight.go:12-38 | writing a row keeps every chain of successors ending, at an observation, exactly when it is current or names a stored observation from which it is not met |
| Supersession.DeletingKeepsLinks | pkg/agentmem/crud.go:130-153 | deleting a memory does exactly when no other names it |
| Supersession.CareIsNeeded | pkg/agentmem/crud.go:19-192 | each operation does exactly when its caller saw to that; all others are free |
| Supersession.ReflectIsLinked | pkg/agentmem/reflect.go:93-129 | Reflect always does |
| Supersession.SupersessionEnds | pkg/agentmem/reflect.go:93-129 | in every run of careful operations and of reflections, following superseded_by from a stale memory ends at an observation that is not stale |
| MemoryStore.ReplaceStringSet | pkg/agentmem/crud.go:361-391 | the id's rows are then the normal set of the values, all others as they were |
| MemoryStore.ReplaceRevisions | pkg/agentmem/crud.go:393-411 | the id's rows are then the list, numbered from 0 |
| MemoryStore.NextSeq | pkg/agentmem/hindsight.go:111-116 | one more than the id's greatest number, or 0 |
| MemoryStore.LoadRevisions | pkg/agentmem/crud.go:430-445 | the id's revisions by number, whatever the gaps; without gaps all of them at their numbers |
| MemoryStore.Store.constructor | pkg/agentmem/store.go:36-46 | an empty store is in agreement |
| MemoryStore.Store.Save | pkg/agentmem/crud.go:19-107 | the tables and the completed memory, or an error and no change |
| MemoryStore.Store.Get | pkg/agentmem/crud.go:111-127 | the row with its side tables in order, exactly for a stored id |
| MemoryStore.Store.Delete | pkg/agentmem/crud.go:130-153 | every row of the id goes, from every table |
| MemoryStore.Store.Clear | pkg/agentmem/crud.go:157-176 | every row goes |
| MemoryStore.Store.IncrementAccess | pkg/agentmem/crud.go:179-194 | count and time of a stored memory |
| MemoryStore.Store.MarkStale | pkg/agentmem/hindsight.go:12-38 | the row names its successor and a revision says so |
| MemoryStore.Store.Archive | pkg/agentmem/hindsight.go:42-68 | the row's flags and a revision |
| MemoryStore.Store.Unarchive | pkg/agentmem/hindsight.go:71-88 | the row's flags, and no revision |
| MemoryStore.Store.AddRevision | pkg/agentmem/hindsight.go:91-104 | a revision, whether or not the memory is there |
| MemoryStore.Store.AppendRevision | pkg/agentmem/hindsight.go:111-122 | one revision more, under the next number, which is free |
| MemoryStore.Store.ActiveBankMemories | pkg/agentmem/reflect.go:133-145 | the active memories of a bank as Get reads them, each once, oldest first |
| MemoryStore.SelectedExactly | pkg/agentmem/reflect.go:133-145 | such a list is what the tables hold for each id, once, by creation time |
| MemoryStore.SplitActive | pkg/agentmem/reflect.go:59-74 | facts, observations, their ids and what they rest on |
| MemoryStore.NotUsed | pkg/agentmem/reflect.go:76-81 | the facts no active observation rests on, in order |
| MemoryStore.Store.TakeObservation | pkg/agentmem/reflect.go:93-129 | one turn of the loop, its result and its tables |
| MemoryStore.Store.Consolidate | pkg/agentmem/reflect.go:93-129 | the loop, also when a save stops it |
| MemoryStore.Store.Reflect | pkg/agentmem/reflect.go:47-131 | what the reflector is asked about, and result and tables for whatever it answers |
| Repair.RepairJSON | cmd/cortexdb-mcp-stdio/capture_session.go:429-478 | the strip, the early return, and the closed text |
| Repair.RepairAdds | cmd/cortexdb-mcp-stdio/capture_session.go:440-478 | to a text that is not valid a repair adds a quote exactly if it stops inside a string, then a closer for each open bracket, innermost first, and nothing else |
| Repair.ClosedScansClean | cmd/cortexdb-mcp-stdio/capture_session.go:443-477 | the result extends the text, and scans to an empty stack outside a string unless the text ends in an open escape |
| Repair.ValueIsBalanced | cmd/cortexdb-mcp-stdio/capture_session.go:443-470 | a JSON value leaves the scanner as it found it, with every closer the one owed |
| Repair.JsonNeedsNoRepair | cmd/cortexdb-mcp-stdio/capture_session.go:440-470 | on valid JSON the scan adds nothing, so it agrees with the early return |
| Repair.CutJson | cmd/cortexdb-mcp-stdio/capture_session.go:426-477 | a JSON text with closers cut off owes exactly them |
| Repair.RepairRestores | cmd/cortexdb-mcp-stdio/capture_session.go:426-477 | for every JSON text with a run of its closing brackets removed, the repair is the original, ends trimmed |
| Repair.FencedRepairRestores | cmd/cortexdb-mcp-stdio/capture_session.go:429-441 | the same inside a Markdown fence, closed or cut off |
| CutStrings.SwapInJson | cmd/cortexdb-mcp-stdio/capture_session.go:426-477 | in a JSON text the last string, with only brackets after it, can be any other |
| CutStrings.CutStringRestores | cmd/cortexdb-mcp-stdio/capture_session.go:426-477 | a JSON text cut inside a string that only brackets and blanks followed is repaired to JSON: the string ends at the cut, but for white space, and the brackets are closed |
| CutStrings.FencedCutRestores | cmd/cortexdb-mcp-stdio/capture_session.go:429-477 | the same in a fence the cut left open |
| Repair.RepairScansClean | cmd/cortexdb-mcp-stdio/capture_session.go:429-477 | for any input the result extends what the strip leaves and scans clean exactly when that does not end in an open escape |
| Repair.RepairOfJson | cmd/cortexdb-mcp-stdio/capture_session.go:440-442 | repairing valid JSON only trims it |
| CutEscapes.FindInJson | cmd/cortexdb-mcp-stdio/capture_session.go:443-477 | in a JSON text every quote outside strings starts a string of whole characters |
| CutEscapes.CutRepairedExactly | cmd/cortexdb-mcp-stdio/capture_session.go:426-477 | wherever such a string is cut, the repair is JSON exactly when the cut is between two of its characters, not within an escape |
| Tokenizer.PartitionIsRuns | pkg/agentmem/search.go:189-203 | the maximal runs are the only partition of a text into pieces of one kind with unlike neighbours |
| Tokenizer.RunsArePartition | pkg/agentmem/search.go:189-203 | and they are one |
| Tokenizer.CJKIsBlocks | pkg/agentmem/search.go:209-216 | CJK is six blocks of Unicode by name |
| Tokenizer.TokenizeForFTS | pkg/agentmem/search.go:148-207 | the pass gives the first occurrences of the runs' tokens, in order; one of its two buffers is always empty |
| Tokenizer.TokensAre | pkg/agentmem/search.go:142-147 | exactly each maximal word in lower case, each maximal CJK run and its two-character windows; none empty, none mixing CJK with anything else |
| Tokenizer.TokensAreDistinct | pkg/agentmem/search.go:153-165 | no token twice |
| Pager.WalkMemoryPages | cmd/cortexdb-mcp-stdio/remote_bulk.go:88-134 | for every server at most 10,001 calls, and the outcome: what each error means, what a success holds |
| Pager.OutcomeIsUnique | cmd/cortexdb-mcp-stdio/remote_bulk.go:88-134 | no server admits two outcomes |
| Pager.SuccessHasNoGap | cmd/cortexdb-mcp-stdio/remote_bulk.go:88-134 | a success is the in-order concatenation of the pages, chained by cursor, none but the last empty or final and no cursor given twice running; a prefix of it with a limit |
| Pager.RefusalHasACause | cmd/cortexdb-mcp-stdio/remote_bulk.go:88-134 | what the last reply was, for each error |
| Pager.ListingIsHonest | pkg/cortexdb/memory_list_all.go:90-156 | the repository's own pager, over a listing that stands still, is an honest one |
| Pager.HonestWalk | cmd/cortexdb-mcp-stdio/remote_bulk.go:77-134 | from an honest pager the whole list exactly when it has at most 10,001 pages, else a refusal |
| Pager.HonestLimitedWalk | cmd/cortexdb-mcp-stdio/remote_bulk.go:113-115 | with a limit that many records, or the whole list, exactly when they lie within the bound |
| Slugs.SlugifyIsSlug | cmd/cortexdb-mcp-stdio/export_memory.go:257-277 | a slug is lower-case words joined by single dashes, at most 60 characters |
| Slugs.SlugifyFixes | cmd/cortexdb-mcp-stdio/export_memory.go:257-277 | slugify leaves exactly the slugs alone; slugging twice is slugging once |
| Slugs.SlugKeepsWords | cmd/cortexdb-mcp-stdio/export_memory.go:257-277 | a slug holds the title's letters and digits in order, all of them unless clipped; it is empty exactly when there are none |
| SlugPieces.SlugExactly | cmd/cortexdb-mcp-stdio/export_memory.go:257-277 | the slug is the words of the title in lower case with one dash for whatever stands between two; its first 60 characters without a dash at the end when longer |
| SlugPieces.BaseSlugExactly | cmd/cortexdb-mcp-stdio/export_memory.go:78-98 | the name comes from the title if that has a letter or digit, else from the id, else it is the placeholder |
| SlugPieces.NameExactly | cmd/cortexdb-mcp-stdio/export_memory.go:279-297 | the slug itself if it is free, else the slug, a dash and the first number from 2 that is |
| Slugs.CandidatesDiffer | cmd/cortexdb-mcp-stdio/export_memory.go:286-291 | no two candidates of one slug are one name, whatever the case |
| Slugs.SomeAreFree | cmd/cortexdb-mcp-stdio/export_memory.go:279-297 | no more candidates are taken than names |
| Slugs.UniqueSlug | cmd/cortexdb-mcp-stdio/export_memory.go:279-297 | ends within one try more than there are names, with the first candidate free whatever the case |
| Slugs.ExportNames | cmd/cortexdb-mcp-stdio/export_memory.go:78-98 | whatever the titles, pairwise distinct names even where case does not count, none of them the index |
| Nano.InvariantAfter | internal/testname/testname.go:49-60 | every load, clock reading and swap of any thread keeps the invariant |
| Nano.NumbersGrow | internal/testname/testname.go:43-60 | numbers strictly increase in the order of the swaps exactly when no swap found the counter at the greatest number |
| Nano.NumbersAreUnique | internal/testname/testname.go:43-60 | no number is handed out twice while the clock is far enough from the end of 64 bits |
| Nano.NumbersStayClose | internal/testname/testname.go:43-60 | no number passes the greater of start and greatest reading by more than the successes |
| Nano.FailureIsAnothersSuccess | internal/testname/testname.go:56-58 | a failed swap means another thread succeeded since the load, and for no other reason |
| Nano.FailuresAreBounded | internal/testname/testname.go:49-60 | a call fails at most once for each success since it began |
| Nano.FullCounterRepeats | internal/testname/testname.go:52-55 | past the greatest number a number is handed out twice |
| Nano.Counter.Nano | internal/testname/testname.go:49-60 | one call's loop against any interference: the number is the clock's or one more than what its last attempt loaded |

## Left out

- Key files on disk: `Load`, `Resolve`, `ResolveSource` and `StaticKeySource` choose a source and add no state.
- `http.go`, `methods.go` and `rows.go` of `pkg/authz`: the same per-field rule again, or reads of the facade, which is not part of this model.
- The contents of the tool tables: a rule is a value with a well-formedness predicate (paths of at most five segments, gates apart from denied paths and scope fields).
- JSON tokenising: `CheckUnambiguous` is modelled on the token stream; the tokens of a value are a function of its tree.
- `JSONPathValues` error texts, and every other error text: errors are values.
- Retries of one HTTP call of the embedder, and its probe: a call is a function that answers rightly or fails.
- KeySources.KeySource.Current: the stat, the time and the file's content come in as parameters; the interleavings are in KeySourceProtocol.
- KeySourceProtocol.CurrentAnswersAsOfOneInstant: calls answered by a failed stat are apart, in KeySourceFailures.FailedStatAnswer, because the property can fail for them; so are runs that are not orderly, in OpeningNeedsItsAssumption and PermissionNeedsItsAssumption.
- EmbedCache.CachedEmbedder.EmbedBatch: nothing runs between its two locked parts there; interleavings and failing writes are in EmbedRuns.
- EmbedCache.CachedEmbedder.Warm: nothing runs beside it there; in EmbedRuns its batches interleave with others (ReturnedBatchAsksNothing).
- EmbedCache.CachedEmbedder.Store: writes to the buffer do not fail there; in EmbedRuns they do.
- EmbedCache.CachedEmbedder.Close: its flush does not fail there; in EmbedRuns it does.
- ToolBodies.HandToTool: the body is its JSON tree; white space and the escapes of strings, which encoding again may change, are not there.
- MemoryStore.Store.Get: List, ListByScope and GetByType read the same rows with an order and a limit.
- Memories.OperationsAreLocal: the tables of bank configuration, mental models and context slots are not there; no operation here touches them.
- MemoryStore.Store.Reflect: no other writer runs between its saves; the code takes no lock across them.
- Supersession.SupersessionEnds: runs in which a caller names a wrong successor, or deletes one, are left out; CareIsNeeded says that there it fails.
- Search queries, ranking, decay and escaping: SQL text and floating point.
- Tokenizer.TokenizeForFTS: the query built from the tokens is not modelled.
- Pager.ListingIsHonest: expired and forbidden rows, and the SQL that finds a page, are not modelled; a page is cut from the rows that are left.
- Pager.WalkMemoryPages: the gRPC call and the decoding of its reply are the server's reply.
- Slugs.BaseSlug: titles and ids come in as given; `memoryTitle`, the rendering and the writing of the files are not modelled.
- Nano.Counter.Nano: the other threads are a list of writes, each between this call's load and swap; any interleaving is in the state machine. A number past the 64-bit range wraps, as in the code; the process id in the start value does not matter, since the start is any number.
- `pkg/core`, `pkg/graph`, the `pkg/cortexdb` facade, import flows, the watcher, the vault, gRPC, HTTP, MCP and CLI plumbing.
