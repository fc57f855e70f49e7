# A model of yvex in Dafny

yvex packages model weights into artifacts, authenticates them, and loads and executes them on a backend.
This project models the parts of it that carry the hardest promises, each in the form the source has, and
proves those promises for every input, every run or every interleaving.

| files | what they model |
|---|---|
| `JsonGrammar`, `JsonScan`, `JsonProof`, `JsonReader` | the bounded JSON reader, against a grammar of derivation trees taken from sections 2 and 4 to 7 of RFC 8259 |
| `EditDistance`, `Nearest`, `Dispatch` | the command line: distance between commands, the hint for a mistyped one, longest-prefix dispatch and the registry checks it depends on |
| `Encoding`, `Reopen`, `Publishers`, `Admission` | the receipt that replaces a full-file hash, concurrent publishers of it, and the admission gate that uses it |
| `Payload`, `Roundtrip` | full-file validation of an emitted artifact, and the two computations of its payload identity |
| `NameIndex`, `Session` | the plan's name index and the materialization session |
| `Lifecycle`, `Bits`, `Workspace` | backend close with shared owners, and the device and host workspaces |
| `OpShapes`, `OpLoops`, `OpRows`, `OpAttention` | the validators of the primitive operations and the CPU loops behind them |
| `LockOrder`, `WorkerPool` | the QA worker pool and its resource locks |
| `Intake`, `IntakeIdentity` | resumable acquisition of source files and the acquisition identity |

How the source is represented:

- Functions that move a cursor, fill a buffer or update an object are methods, on classes where the source
  has a structure with fields. Each is proved against a specification function, and the lemmas are about
  that function. Code that several threads or processes step through is a state machine whose lemmas range
  over all its runs.
- SHA-256 and SHA-1 are arbitrary functions of the bytes fed to them; a digest stream is those bytes.
- File snapshots stand for file contents: equal snapshots mean equal bytes.
- What the outside world decides (reads that fail, replies of a server, cleanup that fails, the order of
  steps) is a parameter. The contracts cover all of its values; where a promise needs a condition on them,
  the condition is named and its exactness is proved.
- `Common` holds what several models share.
- 64-bit arithmetic is written out where it can wrap or is checked. The masks of the alignment code are
  computed bit by bit on natural numbers.
- Values in the operation loops are real numbers; `exp`, `sqrt` and the activation are arbitrary functions.

Four results are about where a promise stops:

- A cache hit stands for hashing the file. The hit path alone is not equivalent to it: it looks at neither
  the file size nor the admitted snapshot (`HitCanDisagree`). `HitAgrees` says exactly when it
  agrees, and `AdmitCatalog` shows that the checks made before it establish that condition.
- Lock acquisition relies on resource lists without repeats. A test with a repeat is never reported unless
  it is skipped or its locks are given up (`RepeatNeverReported`), and the pool always finishes if and only
  if no list has a repeat (`FinishesIff`). `RegistryQueues` shows that validated registries have none.
- The intake tool accepts a partial answer (206) to a request for a whole file without looking at the range
  it carries. Such an answer keeps the partial file a prefix of the content, for every content, if and only
  if its range starts at byte 0 (`PrefixIff`). `StrayAnswer` follows the content [1, 2] served from its
  second byte: the final file becomes [2, 2] and stays refused. All other answers need no condition.
- A tree row may promise fewer bytes than the provider serves. The acquired file is then that prefix of the
  content, and it is refused unless the digests agree with the prefix; with equal sizes it is the content.

## Model

| member | source | states |
|---|---|---|
| `JsonProof.AcceptsIffText` | src/core/json.c:393-411 | the scan of a whole text succeeds if and only if the text has a derivation in the grammar that nests at most 64 deep |
| `JsonProof.ValueSound` | src/core/json.c:393-406 | whatever the scanner skips as a value is a value of the grammar, ending where the scan ends |
| `JsonProof.ValueComplete` | src/core/json.c:393-406 | a value of the grammar is skipped to its end when what follows cannot extend it and the nesting fits |
| `JsonProof.ItemsSound` | src/core/json.c:312-344 | the members skipped in an array or object are separated items with no trailing comma |
| `JsonProof.ItemsComplete` | src/core/json.c:312-344 | every well-formed item list is skipped to its closing mark |
| `JsonProof.ContainerSound` | src/core/json.c:312-344 | a skipped container is a container of the grammar one level deeper |
| `JsonProof.LeadSound` | src/core/json.c:212-228 | what precedes a member value is a name of legal length and a colon |
| `JsonProof.NumberSound` | src/core/json.c:346-380 | a skipped number has the shape of RFC 8259 section 6 |
| `JsonProof.NumberComplete` | src/core/json.c:346-380 | a number is skipped whole, and not beyond, when no character that would extend it follows |
| `JsonProof.StringTailSound` | src/core/json.c:242-284 | a scanned string body is a sequence of legal characters and escapes with the decoded text it reports |
| `JsonProof.StringTailComplete` | src/core/json.c:242-284 | every legal string body is scanned to its quote and decodes to the same text |
| `JsonProof.ScalarSound` | src/core/json.c:382-406 | a skipped scalar is a literal, a number or a string of the grammar |
| `JsonProof.PaddedComplete` | src/core/json.c:145-151 | whitespace around a value changes neither its acceptance nor its end |
| `JsonReader.Recognise` | src/core/json.c:393-411 | the reader run on a whole text accepts exactly the texts of the grammar, and always terminates |
| `JsonReader.Json.Space` | src/core/json.c:145-151 | the cursor stops at the first character that is not whitespace |
| `JsonReader.Json.IterBegin` | src/core/json.c:153-178 | an iterator exists exactly when the opening mark is next, and starts empty behind it |
| `JsonReader.JsonIter.ArrayValue` | src/core/json.c:180-210 | one step of an iterator: an item, the end, a recorded trailing comma, or an error that leaves it unfinished; a finished iterator only errs |
| `JsonReader.JsonIter.ObjectMember` | src/core/json.c:212-228 | the same for members, with the name decoded into the key and its colon consumed, for any key capacity |
| `JsonReader.Json.NextChar` | src/core/json.c:254-278 | one character or escape of a string is decoded as the grammar decodes it |
| `JsonReader.Json.String` | src/core/json.c:242-284 | accepts exactly the strings of the grammar that fit the buffer, and leaves the decoded, terminated text in it |
| `JsonReader.Json.StringDup` | src/core/json.c:286-310 | a copy exists exactly when the encoding is short enough and there is memory; otherwise the cursor is where it was |
| `JsonReader.DecodedIsShorter` | src/core/json.c:286-310 | a decoded string is shorter than its encoding, so the allocated copy always fits |
| `JsonReader.Json.SkipArray` | src/core/json.c:312-326 | an array is skipped as specified; the depth is restored on success |
| `JsonReader.Json.SkipObject` | src/core/json.c:328-344 | an object is skipped as specified; the depth is restored on success |
| `JsonReader.Json.Number` | src/core/json.c:346-380 | the cursor moves over the longest number or the number is refused |
| `JsonReader.Json.Literal` | src/core/json.c:382-391 | a literal is consumed exactly when it is next |
| `JsonReader.Json.SkipValue` | src/core/json.c:393-406 | one value of any kind is skipped as specified; the depth is restored on success |
| `JsonReader.Json.Complete` | src/core/json.c:408-411 | true exactly when only whitespace is left and no container is open |
| `JsonReader.Json.U64` | src/core/json.c:416-431 | the value of the digit run, refused exactly when there is none or it exceeds 64 bits |
| `EditDistance.DistanceIsLeast` | src/cli/main.c:81-100 | the table's last entry is the least number of single-character insertions, deletions and replacements |
| `EditDistance.NoShorterScript` | src/cli/main.c:81-100 | no script of edits is shorter than the distance |
| `EditDistance.ShortestScript` | src/cli/main.c:81-100 | a script of exactly that many edits exists |
| `EditDistance.Metric` | src/cli/main.c:81-100 | zero exactly for equal strings, symmetric, and the triangle inequality |
| `EditDistance.EntryTriangle` | src/cli/main.c:88-98 | the triangle inequality for every three prefixes |
| `EditDistance.EntrySymmetric` | src/cli/main.c:88-98 | the table of the exchanged strings is the transposed table |
| `EditDistance.FillRow` | src/cli/main.c:90-97 | one row of the loop turns row i of the table into row i + 1 |
| `EditDistance.CommandDistance` | src/cli/main.c:81-100 | the two-row loop returns the distance for strings under 256 characters and the refusal value otherwise |
| `Nearest.CommandText` | src/cli/main.c:64-79 | the buffer holds the leading non-option words joined by spaces, terminated, or the text is empty or too long |
| `Nearest.NearestCommand` | src/cli/main.c:102-125 | for an argument list a hint is given if and only if its leading words make a text that fits and one visible command alone has the least distance, at most 3; it is that command's path, so typing errors are recovered |
| `Nearest.HintRecovers` | src/cli/main.c:102-125 | when the other visible commands are more than 2k away, k at most 3, any input within k edits has the target as its only hint |
| `Dispatch.ValidateRegistry` | tools/generate_operator_registry.py:448-488 | the validator's tables accept a registry exactly when paths and aliases are pairwise disjoint and well formed |
| `Dispatch.AddOperation` | tools/generate_operator_registry.py:448-488 | one operation is added exactly when it collides with nothing before it |
| `Dispatch.CheckAliases` | tools/generate_operator_registry.py:464-486 | the alias loop accepts exactly lists of well-formed, new, unrepeated aliases |
| `Dispatch.EmitAliases` | tools/generate_operator_registry.py:896-915 | the emitted table has exactly the aliases of the operations, with their owners |
| `Dispatch.FindPath` | src/cli/main.c:28-45 | the path scan returns the longest visible canonical path that begins the arguments |
| `Dispatch.DescriptorFind` | src/cli/main.c:23-62 | the result owns the longest canonical or alias path that begins the arguments, and there is a result exactly when such a path exists |
| `Dispatch.OneOwner` | src/cli/main.c:23-62 | in an accepted registry a matching path of a given length has one owner |
| `Dispatch.OrderIrrelevant` | src/cli/main.c:23-62 | in an accepted registry the answer is the same for every order of the tables |
| `Dispatch.OwnPathFound` | src/cli/main.c:23-62 | in an accepted registry every visible command answers to its own path and each of its aliases |
| `LockOrder.PlanAscends` | tools/qa.py:323-357 | the lock list of a test is strictly ascending and is exactly its exclusive resources |
| `LockOrder.PlanRepeats` | tools/qa.py:323-331 | any resource list is locked in order, and a lock is asked for twice exactly when an exclusive resource is listed twice |
| `WorkerPool.RegistryQueues` | tools/generate_qa_registry.py:85-91 | tests from a validated registry have lock lists without repeats |
| `WorkerPool.MoveKeepsSafe` | tools/qa.py:323-470 | every move of every worker keeps the lock table equal to what the workers hold, whatever the lock lists |
| `WorkerPool.MoveKeepsInv` | tools/qa.py:323-470 | every move also keeps the lock lists in flight and in the queues ascending |
| `WorkerPool.MutualExclusion` | tools/qa.py:323-357 | no lock file, of the host or of a checkout, and no build lock is held by two workers |
| `WorkerPool.WaitsForLater` | tools/qa.py:327-352 | a worker that holds a resource and waits, waits for a later one |
| `WorkerPool.NoDeadlock` | tools/qa.py:323-394 | until all work is done some worker can move without a failure |
| `WorkerPool.MoveUsesLoad` | tools/qa.py:422-457 | every move uses up pending work, and no move loses or repeats a test |
| `WorkerPool.RunKeeps` | tools/qa.py:482-517 | over every run the invariant holds, the number of moves is bounded and the tests are conserved |
| `WorkerPool.EveryScheduleFinishes` | tools/qa.py:482-517 | every schedule is finite, and one that cannot go on has a result for each test and all locks free |
| `WorkerPool.RepeatNeverReported` | tools/qa.py:327-352 | over every run a test whose lock list has a repeat is never reported, unless it is skipped or its locks are given up |
| `WorkerPool.MaximalRun` | tools/qa.py:482-517 | from every state a run without failures goes on until nothing can move |
| `WorkerPool.FinishesIff` | tools/qa.py:323-517 | with sorted lock lists every run without failures that cannot go on has finished if and only if no list has a repeat |
| `WorkerPool.PlannedOrderly` | tools/qa.py:327-337 | the lock lists of any registry are sorted, with one lock file to a name, and repeat exactly when an exclusive resource is listed twice |
| `Lifecycle.StepKeepsInv` | src/backend/core.c:305-416 | every step of every close keeps the child count equal to the leases held, for any failing cleanup |
| `Lifecycle.NoUseAfterFree` | src/backend/core.c:305-416 | no step touches a freed backend |
| `Lifecycle.GivenBackStaysAway` | src/backend/core.c:305-328 | a child that has given its lease back never touches its owner again |
| `Lifecycle.StepKeeps` | src/backend/core.c:330-416 | a step never clears the closing mark, never undoes a free and never gives a lease back twice |
| `Lifecycle.RunKeeps` | src/backend/core.c:330-416 | the same over every run |
| `Lifecycle.EveryInterleaving` | src/backend/core.c:305-416 | in every reachable state children equal leases, a shared backend gives its lease back at most once and exactly once when freed, and a freed owner has no child left |
| `Lifecycle.RetryFrees` | src/backend/core.c:362-416 | from any reachable state a childless backend outside a close can be closed to the end |
| `Bits.PowerTest` | src/backend/residency.c:262-263 | `a & (a - 1)` is zero exactly for powers of two |
| `Bits.MaskIsRemainder` | src/artifact/materialize.c:146-160 | masking with a power of two less one is the remainder |
| `Bits.RoundUpIsLeast` | src/backend/residency.c:264-270 | the rounded cursor is the least aligned position not below it |
| `Workspace.AlignmentTest` | src/backend/residency.c:262-263 | the alignment check accepts exactly the powers of two |
| `Workspace.AcquireExact` | src/backend/residency.c:251-276 | a grant is at the least aligned place behind the cursor and inside the arena, is made exactly when it fits, and a refusal changes nothing |
| `Workspace.ReserveExact` | src/backend/residency.c:396-425 | a prefix is first sealed exactly when nothing is in use and an aligned grant would start the arena; a refusal changes nothing |
| `Workspace.GrantPlaced` | src/backend/residency.c:358-394 | in any run each grant lies inside the arena, at the least aligned place behind the cursor it found, and its address is reported |
| `Workspace.GrantsDisjoint` | src/backend/residency.c:251-276 | in any run two grants with no reset or detach between them do not overlap |
| `Workspace.SealUntouched` | src/backend/residency.c:396-425 | in any run, once a prefix is sealed, no later grant reaches into it, whatever is reset |
| `Workspace.SealedWhenFree` | src/backend/residency.c:396-425 | in any run every grant made before the sealing has been given back by then |
| `Workspace.PeakIsHighest` | src/backend/residency.c:270-275 | in any run of an attached arena the peak is the highest cursor reached, or the one it started with |
| `Workspace.DeviceWorkspace.Attach` | src/backend/residency.c:207-231 | attaching succeeds exactly once on a live backend, and a refusal changes nothing |
| `Workspace.DeviceWorkspace.Detach` | src/backend/residency.c:233-249 | nothing of the workspace is left |
| `Workspace.DeviceWorkspace.Acquire` | src/backend/residency.c:251-276 | the fields and the answer become those of the arena's acquire step |
| `Workspace.DeviceWorkspace.Reset` | src/backend/private.h:176-179 | all grants are taken back and the peak stays |
| `Workspace.HostWorkspace.Prepare` | src/backend/residency.c:284-323 | preparing succeeds exactly once on a live backend when memory can be had, and a refusal changes nothing |
| `Workspace.HostWorkspace.Acquire` | src/backend/residency.c:358-394 | the fields and the answer become those of the arena's acquire step, with addresses aligned |
| `Workspace.HostWorkspace.Reserve` | src/backend/residency.c:396-425 | the fields and the answer become those of the arena's reserve step; the same size finds the prefix again |
| `Workspace.HostWorkspace.Reset` | src/backend/private.h:181-184 | the cursor returns to the end of the sealed prefix |
| `Workspace.HostWorkspace.Detach` | src/backend/residency.c:325-351 | everything is cleared, or nothing when the arena cannot be freed |
| `Workspace.DriveHost` | src/backend/residency.c:284-425 | any run of requests on a host workspace gives the answers of the run of its arena |
| `Workspace.DriveDevice` | src/backend/residency.c:207-276 | any run of requests on a device workspace gives the answers of the run of its arena |
| `NameIndex.ProbeNext` | src/artifact/materialize.c:146-160 | stepping with a mask visits the probe sequence modulo the capacity |
| `NameIndex.ProbeReaches` | src/artifact/materialize.c:146-160 | the probe sequence reaches every slot |
| `NameIndex.Index.Insert` | src/artifact/materialize.c:138-162 | for any hash function insertion succeeds if and only if no earlier binding has the name |
| `NameIndex.Index.NotStored` | src/artifact/materialize.c:146-160 | an empty slot on the probe shows that the name is not stored |
| `NameIndex.Index.EmptyProbe` | src/artifact/materialize.c:146-160 | with more slots than names every probe meets an empty slot |
| `NameIndex.IndexAll` | src/artifact/materialize.c:388-391 | all names of a plan are indexed if and only if none occurs twice |
| `Session.Session.Commit` | src/artifact/materialize.c:643-681 | a session commits exactly on an undisturbed file and stays committed |
| `Session.Session.Attach` | src/artifact/materialize.c:714-748 | one provider at a time, on a committed session only |
| `Session.Session.Detach` | src/artifact/materialize.c:750-786 | only the attached context is detached, and it is notified |
| `Session.Session.Close` | src/artifact/materialize.c:683-712 | a provider that is still attached is notified |
| `Session.Session.Access` | src/artifact/materialize.c:816-942 | exactly when an access succeeds, what it delivers, and the whole new state; a failure leaves all but the drift count |
| `Session.Session.WalkBinding` | src/artifact/materialize.c:1015-1040 | the pieces of one binding take the session along the specified walk |
| `Session.Session.Walk` | src/artifact/materialize.c:989-1070 | the walk, its accesses and its success are the specified ones |
| `Session.ChunksStep` | src/artifact/materialize.c:1015-1040 | the ceiling quotient counts the pieces of a binding |
| `Session.RunCounts` | src/artifact/materialize.c:683-942 | in every run the counters are the sums over the accesses that succeeded, resident and artifact parts make the totals, and after a close each attach has one notification |
| `Session.FailureCountsNothing` | src/artifact/materialize.c:833-930 | an access that fails changes nothing but the drift count |
| `Session.AccessDelivers` | src/artifact/materialize.c:870-930 | with an honest provider or none a successful access delivers the file's bytes, even if the provider answers differently each time |
| `Session.RunTrue` | src/artifact/materialize.c:816-942 | in every run with honest providers everything ever delivered is the file's bytes at its place |
| `Session.WalkDelivers` | src/artifact/materialize.c:1014-1040 | a completed walk delivers every byte of every binding once and in order, in as many accesses as the ceiling quotients add up to |
| `Session.WalkAdds` | src/artifact/materialize.c:989-1070 | a completed walk adds the sum of the binding bytes, and of their ceiling quotients as calls |
| `Session.CalmWalk` | src/artifact/materialize.c:989-1070 | an undisturbed walk of a committed session completes, unless a counter would overflow |
| `Session.RunToClose` | src/artifact/materialize.c:643-1070 | any run of requests on a new session, and a close, leaves the specified state with its log of accesses and notifications |
| `Encoding.WordRoundTrip` | src/artifact/reopen.c:31-45 | eight bytes and a 64-bit value determine each other |
| `Encoding.SignedRoundTrip` | src/artifact/reopen.c:115-142 | signed times survive the unsigned encoding |
| `Encoding.HexInjective` | src/core/sha256.c:155-167 | a digest is determined by its hexadecimal text |
| `Encoding.TextPrefix` | src/core/sha256.c:181-203 | a length-prefixed text can be split off in only one way |
| `Reopen.PutWord` | src/artifact/reopen.c:31-36 | the eight bytes at the offset, and only those, become the value |
| `Reopen.GetWord` | src/artifact/reopen.c:38-45 | the value of the eight bytes |
| `Reopen.Encode` | src/artifact/reopen.c:115-142 | the buffer is the canonical receipt |
| `Reopen.WordsMatch` | src/artifact/reopen.c:115-183 | a run of words decodes to given fields exactly when it is their encoding |
| `Reopen.Decode` | src/artifact/reopen.c:144-183 | exactly one byte string is accepted for an identity and snapshot: the encoder's output |
| `Publishers.StepKeeps` | src/artifact/reopen.c:229-266 | no step of a publisher replaces a canonical receipt, and each step brings its publisher nearer the end |
| `Publishers.InterleavingPublishes` | src/artifact/reopen.c:229-266 | from any prior file every interleaving is finite and keeps a canonical receipt once there is one |
| `Publishers.PublishedReceipt` | src/artifact/reopen.c:229-266 | from any prior file, once one publisher has succeeded, the file is the encoder's receipt |
| `Publishers.AllPublish` | src/artifact/reopen.c:229-266 | a run without failures that cannot go on has every publisher through and the receipt in place |
| `Publishers.CheckAfterAll` | src/artifact/reopen.c:201-266 | the check accepts exactly the encoder's receipt, and so accepts once any publisher has succeeded |
| `Admission.EncodedInjective` | src/artifact/reopen.c:115-142 | a receipt determines its identity, lease and snapshot |
| `Admission.Gate.LeaseCheck` | src/artifact/reopen.c:201-227 | a lease is verified exactly when the stored bytes are the canonical receipt of this identity and snapshot |
| `Admission.Gate.LeasePublish` | src/artifact/reopen.c:229-266 | a publication stores the canonical receipt; a failure leaves the cache; the cache stays truthful |
| `Admission.Gate.CatalogCompatible` | src/artifact/roundtrip_gate.c:395-420 | compatible exactly when the row is valid and its size is that of the stable file; the admission carries the snapshot |
| `Admission.Gate.IdentityVerify` | src/artifact/roundtrip_gate.c:523-560 | hashing accepts exactly a complete admission of this size, snapshot and identity, unless it is cut short |
| `Admission.Gate.Authenticate` | src/artifact/roundtrip_gate.c:562-643 | accepted exactly on a cache hit or by hashing that is not cut short; any cache failure falls back to hashing |
| `Admission.Gate.HitAgrees` | src/artifact/roundtrip_gate.c:562-643 | a hit agrees with hashing if and only if the admission is complete and names the size and snapshot of the file |
| `Admission.Gate.HitCanDisagree` | src/artifact/roundtrip_gate.c:562-643 | an admission of the wrong size is accepted by a hit and refused by hashing |
| `Admission.Gate.AdmitCatalog` | src/artifact/roundtrip_gate.c:645-660 | nothing is accepted that hashing would refuse, and unless hashing is cut short the verdict is the same with the cache on as off |
| `Admission.AdmitAll` | src/artifact/roundtrip_gate.c:645-660 | over any sequence of admissions and corruptions of the cache every verdict is the one hashing gives, or a refusal where hashing is cut short |
| `Payload.HashRange` | src/artifact/identity.c:209-237 | for every buffer size the range is hashed once and in order; it fails only out of range or on a failed read |
| `Payload.Compute` | src/artifact/identity.c:499-588 | the identity is the digest of ordinal, type, size and content digest of every tensor, and exists exactly for addressable non-empty tensors inside a stable file |
| `Roundtrip.CheckedIffMade` | src/artifact/roundtrip_gate.c:1266-1422 | checking piece by piece recognises exactly the files made of the prefix, the recorded payloads in order and zero padding |
| `Roundtrip.Validation.HashRange` | src/artifact/roundtrip_gate.c:1064-1093 | the range joins the whole-file stream once and in order; a refusal for padding names the first byte that is not zero |
| `Roundtrip.Validation.VerifyPrefix` | src/artifact/roundtrip_gate.c:1266-1308 | succeeds exactly when the file begins with the plan's prefix, all of it hashed and counted |
| `Roundtrip.Validation.VerifyPayload` | src/artifact/roundtrip_gate.c:1333-1358 | succeeds exactly when the bytes at the cursor have the recorded size and digest |
| `Roundtrip.Validation.VerifyPadding` | src/artifact/roundtrip_gate.c:1359-1375 | succeeds exactly when the padding is zero |
| `Roundtrip.Validation.VerifyTerminal` | src/artifact/roundtrip_gate.c:1315-1379 | one tensor at its place, with its payload and padding; a padded size below the raw size is refused although the subtraction wraps |
| `Roundtrip.ValidateDirectory` | src/artifact/roundtrip_gate.c:1230-1256 | the parsed directory is accepted exactly when its names, dimensions, types, places and sizes are the plan's |
| `Roundtrip.Validate` | src/artifact/roundtrip_gate.c:1429-1471 | a file passes only if it is faithful to the plan, and always does when reads work; each byte is hashed once in file order and counted once; the artifact identity is the digest of the file |
| `Roundtrip.PayloadIdentities` | src/artifact/roundtrip_gate.c:1276-1356 | the identity streamed during validation equals the one computed from the parsed directory, for any two buffer sizes; a faithful file validates, and then the other identity exists too when its reads work and no tensor is empty |
| `OpShapes.DivisionCheck` | src/backend/core.c:1526-1529 | the division check admits exactly the products that fit |
| `OpShapes.ProductExact` | src/backend/private.h:144-149 | a checked product and the byte comparison together say that the bytes are the true product |
| `OpShapes.Mul3Exact` | src/backend/core.c:1292-1302 | three factors are multiplied exactly or refused |
| `OpShapes.EmbedExact` | src/backend/core.c:1304-1366 | the shape checks accept exactly tensors whose bytes are the true products, with no wrap |
| `OpShapes.RmsNormExact` | src/backend/core.c:1377-1456 | the same for normalisation of one row or many |
| `OpShapes.MatmulExact` | src/backend/core.c:1490-1541 | the same for a matrix product |
| `OpShapes.AttentionExact` | src/backend/core.c:1547-1616 | the same for an attention step, with the position inside the sequence |
| `OpShapes.MlpExact` | src/backend/core.c:1622-1746 | the same for a dense step or an existing expert, whose offset is exact |
| `OpLoops.Index` | src/backend/cpu.c:426-436 | a row-major index is computed without wrapping and lies in its tensor |
| `OpLoops.TableAt` | src/backend/cpu.c:426-436 | every cell of a filled output is the formula's value for its row and column |
| `OpLoops.RowTimesColumn` | src/backend/cpu.c:428-433 | the inner loop stays in both operands and returns the dot product of a row and a column |
| `OpLoops.MatmulOp` | src/backend/cpu.c:401-440 | an accepted product writes every output cell with the matrix product; a refused one writes nothing |
| `OpLoops.MlpOp` | src/backend/cpu.c:443-510 | an accepted step writes every cell of both outputs with the gated formula; a refused one writes nothing |
| `OpLoops.RoutedIsDense` | src/backend/cpu.c:478-506 | a routed step computes what a dense step over its expert's weights computes |
| `OpRows.CheckTokens` | src/backend/core.c:1366-1374 | accepted exactly when every token is in the vocabulary |
| `OpRows.EmbedOp` | src/backend/cpu.c:262-303 | an accepted lookup writes every output row with its token's embedding, for both element widths |
| `OpRows.RmsNormOp` | src/backend/cpu.c:585-640 | an accepted normalisation writes every cell with the scaled input; a refused one writes nothing |
| `OpAttention.AttentionOp` | src/backend/cpu.c:307-399 | an accepted step writes every score, share and output cell with the softmax formula, unless the weights do not sum above zero, and then the output is untouched |
| `OpAttention.ScoreAll` | src/backend/cpu.c:357-372 | every score is written, masked positions are zero in both scratches, and the shift is the specified one |
| `OpAttention.TopIsLargest` | src/backend/cpu.c:367-371 | the shift is the largest of the visible scores: none is above it and one attains it |
| `OpAttention.MixedAt` | src/backend/cpu.c:386-392 | each output is the sum of the visible values of its column, weighted by their shares |
| `OpAttention.SharesSumToOne` | src/backend/cpu.c:373-385 | the shares of the visible positions sum to one |
| `OpAttention.CausalIgnoresFuture` | src/backend/cpu.c:357-392 | a causal result does not depend on keys or values after the position |
| `Intake.HashExisting` | tools/minimax_h3_intake.py:1113-1131 | the whole file is hashed, unless it cannot be used or is longer than expected |
| `Intake.StreamKeepsPrefix` | tools/minimax_h3_intake.py:329-379 | a transfer keeps what was there and keeps it a prefix of the content, when a whole-file answer starts at byte 0; success completes the file |
| `Intake.DeliveryCompletes` | tools/minimax_h3_intake.py:363-375 | a reply that delivers what was asked for completes the file |
| `Intake.PrefixIff` | tools/minimax_h3_intake.py:355-362 | an accepted answer to a whole-file request keeps the prefix for every content and read pattern if and only if its status is 200 or its range starts at byte 0 |
| `Intake.StrayAnswer` | tools/minimax_h3_intake.py:355-375 | [1, 2] served from its second byte makes the partial file no prefix and [2, 2] the final file of a row without a content digest, and every later run is refused |
| `Intake.StepKeeps` | tools/minimax_h3_intake.py:1166-1242 | a run keeps final and partial apart, the partial a prefix and the final what is wanted of the content, and reports the content's size and digest |
| `Intake.StepLosesNothing` | tools/minimax_h3_intake.py:1166-1242 | whatever the reply, nothing held is lost, and a report describes a complete final file |
| `Intake.CheckIff` | tools/minimax_h3_intake.py:1180-1189 | a check, or a run that finds the final file, succeeds exactly when the file can be read and is complete |
| `Intake.RunsAcquire` | tools/minimax_h3_intake.py:1166-1242 | over any number of interrupted and repeated runs whose whole-file answers start at byte 0, the files stay as above, every report is true of the content, and a run whose reply delivers succeeds |
| `Intake.SuccessLasts` | tools/minimax_h3_intake.py:1166-1242 | from the first success on every run that can read the file succeeds without a transfer and with the same report |
| `Intake.Destination.StreamFile` | tools/minimax_h3_intake.py:329-379 | whatever the reply, the partial file and the result are those of the specified transfer |
| `Intake.Destination.Fetch` | tools/minimax_h3_intake.py:1190-1210 | the partial file is renamed only when size and digest are right |
| `Intake.Destination.Judge` | tools/minimax_h3_intake.py:1211-1221 | accepted exactly when size, content digest and, without one, the Git identity agree |
| `Intake.Destination.Acquire` | tools/minimax_h3_intake.py:1166-1242 | the two files and the report after a run, in check mode or not, are those of the specified step |
| `Intake.AcquireAll` | tools/minimax_h3_intake.py:1166-1242 | any number of runs on an empty destination leaves the files and gives the reports of the specified steps |
| `IntakeIdentity.PutRow` | tools/minimax_h3_intake.py:98-107 | the updates for one row feed the digest the row's encoding |
| `IntakeIdentity.AcquisitionIdentity` | tools/minimax_h3_intake.py:92-107 | the updates feed the digest exactly the encoding of the acquisition |
| `IntakeIdentity.RowInjective` | tools/minimax_h3_intake.py:98-107 | a row and what follows it can be read back from its encoding |
| `IntakeIdentity.RowsInjective` | tools/minimax_h3_intake.py:98-107 | so can a list of rows of any length |
| `IntakeIdentity.PreimageInjective` | tools/minimax_h3_intake.py:86-107 | the encoded bytes determine repository, revision, subdirectory and every field of every row |
| `IntakeIdentity.IdentityDetermines` | tools/minimax_h3_intake.py:86-107 | equal identities mean equal acquisitions, or a collision of the digest itself |

## Left out

- JSON: the substring probes, `yvex_json_bool`, `yvex_json_number_text` and `yvex_json_u64_array` would only add easy members.
- Command line: refusal of removed paths, help output and offline adapters.
- Registry: the checks of flags, arguments and catalogs, which dispatch does not depend on.
- QA: plan selection, requirement checks, logs and reports; a lane is a queue, and the contents of a test are its resources, its build and its number of runs.
- Registration of a child is one atomic step that needs the closing mark clear; its body is not part of this model.
- Backends: device allocation statistics, resident and state residency, RoPE, expert subviews and every CUDA operation.
- Operation values: floating-point rounding and the polynomial approximations of `exp`, `sqrt` and `silu`.
- OpLoops.MatmulOp: inputs are values, so an output that shares storage with an input is not modelled.
- OpLoops.MlpOp: nor is an intermediate tensor that is also the output, which the source does not refuse.
- OpAttention.AttentionOp: nor are scratch or output tensors that share storage.
- OpRows.RmsNormOp: nor is normalisation in place.
- OpRows.EmbedOp: a half-precision tensor is its decoded elements; the bit layout of a half is not modelled.
- Materialization: plan identity, placement and access modes, progress callbacks and mutexes; the aborted mark of a session, which nothing sets; a provider without a notification callback is detached like any other.
- Admission.Gate.CatalogCompatible: the structural and pinned-fact checks of a catalog row are two answers.
- Admission: drift within one admission; the physical compatibility proof; forged receipts, that is, canonical receipts that nobody published.
- Roundtrip.Validate: parsing, layout validation and the header and tokenizer checks are one accepted-or-refused answer; drift of the file shows as an answer of its own.
- Intake: path safety, and HTTP details other than the ones checked before the body is used.
- IntakeIdentity: texts are their UTF-8 bytes.
- SHA-256, SHA-1 and GGUF parsing are not part of this model.
