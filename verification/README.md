# UsArr protocols, modelled and proved in Dafny

UsArr keeps the API keys of the services it talks to encrypted at rest, rotates the master key behind them,
replicates catalogues from upstream servers and streams progress to browsers. Most of it is wiring. This
project models the small protocols in it whose correctness spans whole runs, and proves what they promise.

| module | what it models |
|---|---|
| `KeyWrap` | AES Key Wrap (RFC 3394): the in-place loops with a running counter, the shift register of section 2.2, and that wrap and unwrap are inverse on exactly what unwrap accepts |
| `Envelope` | the stored envelope, Seal, Open, Verify, Rewrap, and the keyring object |
| `Bytes`, `Base64`, `Text`, `KeyFiles` | big-endian words, both base64 spellings, string splitting and trimming, and what a reader makes of a key or salt file cut off anywhere |
| `Startup` | the first-run ladder for the master key and the salt, run by any number of processes without a lock |
| `Rotation` | key rotation as a transition system over files and rows: batches made from stale readings, a rename over whatever the rows are by then, servers sealing under the live key or a superseded one, and a crash anywhere |
| `RotationWork`, `KeyRotate` | `usarr key rotate` itself: paging, batches, passes, verification, the rename, over operations that can fail and rows others write |
| `Instants`, `Arrivals` | the fixed-width time spelling, and the keyset walk over a library that changes between pages |
| `EventHub` | the SSE hub against the unbounded history of what was published |
| `Breaker`, `Client` | the circuit breaker, the wire exchange, and the single-flight access token |
| `ImportGuard` | the per-instance import claim, its entry points, and the stopped frame |
| `Phc`, `EnvFile`, `RecentGrabs` | password-hash strings, env files, and the two-arm merge |

How concurrency and crashes are modelled. Where the source holds a mutex, one method is one critical section and
what it keeps holds for every interleaving (`EventHub`, `Breaker`). Where it does not, an arbitrary function says
what the others did before each operation, constrained only by a relation that every operation of the process
itself is proved to satisfy (`Startup`, `KeyRotate`, `Client`, `ImportGuard`). A crash is an operation that fails:
the process stops and only the files and rows are left. A ghost trace records every state, so a property of the
trace is a property of every crash point.

AES is any block permutation with its inverse, AES-GCM any scheme that opens what it sealed under the same
associated data (and where a statement needs it, nothing else), key derivation and key ids are arbitrary functions, and random values are parameters.

## What turned out to be conditional

- A successful Rewrap verifies exactly when the envelope was not already at the target id, or verified before: an
  envelope that names the target id is handed back unexamined (`RewrapVerifiesExactlyWhen`, `RewrapNeedNotVerify`).
- "One probe until its recorded outcome" is true of any recorded outcome, not of the probe's own. While a probe is in
  flight no other call is admitted exactly until some other call's end records an outcome (`ProbeIsAloneUntil`), so
  another call can be admitted beside it exactly when it is not the only call in flight (`SecondProbeExactlyWhen`); and
  under every configuration a call admitted while the breaker was closed leads to two probes in flight
  (`StragglerFreesTheProbe`).
- Half-open always has its probe in flight, so the branch that would admit a call in half-open without one is never
  taken (`AlwaysSound`; internal/breaker/breaker.go:163-168).
- A breaker whose last call in flight is a probe that ends in a cancellation, a policy refusal or a build failure
  stays half-open for good, and such states are reachable (`OnlySilenceSticks`, `StuckStaysStuck`, `StuckIsReachable`).
- A waiter with a stale token gets the empty token and no error exactly when it finds the session cleared, which is
  what a failed mint ahead of it leaves (`EmptyTokenExactlyWhen`, `WaiterAfterFailedMint`). One mint per rejected token
  needs mints not to repeat it (`OneMintPerStaleToken`, `RepeatedTokenMintsAgain`).
- The doubling loop of the cooldown stays inside an int64 exactly when the first doubling that reaches the cap does
  (`OverflowsExactlyWhen`); a cap of at most 2^62 ns is enough.
- A re-wrap batch is written without comparing rows to what was read, so a credential re-entered in between reads as
  the old one again (`BatchRestoresWhatWasRead`). It strands nothing: a row is lost only at the rename, exactly when
  the promoted key does not unwrap it, or when a server still running seals it under the superseded key
  (`RenameLosesExactlyWhen`, `StepIsSafe`, `CrashSafety`).
- The verification before the rename speaks for the rows as they were read. Each credential that no other process has
  written since the start of the run is proven at the rename and opens from the promoted file alone, whatever became of
  the others (`GateProves`, `GateKeepsRowsLeftAlone`).
- The rename compares nothing, so of two rotations that overlap the one that replaces a key the other has moved the rows
  to loses them (`OverlappingRenameLoses`).
- A closed hub reports no miss, whatever has left the ring, and the largest possible Last-Event-ID reads as a miss on any
  history, because the sum in the test wraps (`Hub.Subscribe`, `MissedExactlyWhenEvicted`).
- An all-zero master key is written and then refused by every reader (`PartialMasterKey`, `CompleteContent`), so the key
  in hand is then not the key in the file.
- The version field of a password hash is matched as a prefix: a hash is accepted with any text after the version that
  does not begin with a digit, and with no other (`VersionTailIsIgnored`).

## Model

| member | source | states |
|---|---|---|
| `KeyWrap.WrapPasses` | internal/crypto/keywrap.go:46-83 | the two in-place loops with one running counter end in the state the 6n steps of RFC 3394's shift register reach |
| `KeyWrap.UnwrapPass` | internal/crypto/keywrap.go:103-118 | one descending pass uses the same counter values downward, without underflow, and unshifts the register n times |
| `KeyWrap.UnwrapPasses` | internal/crypto/keywrap.go:103-118 | the six descending passes undo the 6n register steps |
| `KeyWrap.IndexedIsShift` | internal/crypto/keywrap.go:60-77 | updating R[i] in place is one step of the shift register turned by i places |
| `KeyWrap.IndexedIsUnshift` | internal/crypto/keywrap.go:103-118 | the same for the inverse step |
| `KeyWrap.UnshiftUndoesShift` | internal/crypto/keywrap.go:46-124 | any number of unshifts undoes as many shifts, for any permutation with its inverse |
| `KeyWrap.ShiftUndoesUnshift` | internal/crypto/keywrap.go:46-124 | and the other way round |
| `KeyWrap.PassesIsProduct` | internal/crypto/keywrap.go:64-76 | the running counter after j passes of n steps is n*j |
| `KeyWrap.UnwrapOfWrap` | internal/crypto/keywrap.go:46-124 | unwrapping a wrap gives the key back, for every length 8n with n at least 2 |
| `KeyWrap.WrapOfUnwrap` | internal/crypto/keywrap.go:88-124 | whatever unwrap accepts is exactly the wrap of what it returned |
| `KeyWrap.UnwrapOfRun` | internal/crypto/keywrap.go:88-124 | data run from any initial value other than the fixed one is refused |
| `KeyWrap.WrapKey` | internal/crypto/keywrap.go:46-83 | refuses exactly the lengths and keys the source does, and returns byte for byte the index-based wrapping of RFC 3394, section 2.2.1, written out apart from the loops |
| `KeyWrap.UnwrapKey` | internal/crypto/keywrap.go:88-124 | computes Unwrapped, errors included; what it accepts is the RFC's wrap of what it returns |
| `KeyWrap.WrappedIsRfc` | internal/crypto/keywrap.go:46-83 | the register specification and the RFC's index-based one, t = n*j+i in each step, give the same bytes |
| `KeyWrap.UnwrapsExactlyRfc` | internal/crypto/keywrap.go:88-124 | unwrap returns a key exactly for the RFC's wrap of it |
| `KeyWrap.IdentityWrap` | internal/crypto/keywrap.go:46-83 | under a cipher that does nothing the first word is 0xA6A6A6A6A6A6A6A6 xored with 1 to 6n and the rest is unchanged, for every plaintext |
| `KeyWrap.IdentityWrapOfZeros` | internal/crypto/keywrap.go:64-82 | the bytes of that for sixteen zeros, which fixes the byte order |
| `KeyWrap.CounterIsBinary` | internal/crypto/keywrap.go:64-76 | the running counter is the step number in binary, modulo 2^64 |
| `Envelope.Parse` | internal/crypto/envelope.go:301-315 | accepts exactly the inputs long enough, and loses no byte |
| `Envelope.ParseOfSerialize` | internal/crypto/envelope.go:152-185 | the layout written is the layout read |
| `Envelope.RewrapPreservesMeaning` | internal/crypto/envelope.go:262-294 | a successful Rewrap names the new id, keeps nonce, payload and length, and opens exactly as before, success or failure alike |
| `Envelope.RewrapSucceedsExactlyWhen` | internal/crypto/envelope.go:262-294 | both ids held, and unless they are equal the data key unwraps |
| `Envelope.RewrapVerifiesExactlyWhen` | internal/crypto/envelope.go:238-294 | when the result of a Rewrap passes Verify |
| `Envelope.RewrapNeedNotVerify` | internal/crypto/envelope.go:262-294 | under every ring some envelope is accepted by Rewrap and refused by Verify |
| `Envelope.OpenOfSeal` | internal/crypto/envelope.go:152-221 | Open undoes Seal under the same associated data |
| `Envelope.OpenExactlyWhen` | internal/crypto/envelope.go:193-221 | a plaintext comes out exactly if the bytes are a seal of it under the same associated data: the id's key wraps a DEK to bytes 16 to 56, and the rest is the AEAD's seal under the nonce in bytes 4 to 16 |
| `Envelope.OpenRefusesExactlyWhen` | internal/crypto/envelope.go:193-221 | each refusal exactly: too short, key not held, or tampered, which is no DEK or a payload the AEAD refuses |
| `Envelope.MovedSecretIsRefused` | internal/crypto/envelope.go:193-294 | a ciphertext opened under associated data the AEAD refuses is a decryption error, after any chain of re-wraps |
| `Envelope.VerifyExactlyWhen` | internal/crypto/envelope.go:238-256 | Verify accepts exactly the envelopes that carry a DEK under a held key, and each refusal for its own reason |
| `Envelope.DekExactlyWhen` | internal/crypto/envelope.go:193-213 | an envelope carries at most one DEK, the one whose wrap its bytes are |
| `Envelope.SealedBytes` | internal/crypto/envelope.go:152-185 | id, nonce, wrapped DEK and payload, in that order |
| `Envelope.RewrappedBytes` | internal/crypto/envelope.go:262-294 | only id and wrapped DEK become other bytes, and the DEK is the same |
| `Bytes.ByteOrder` | internal/crypto/envelope.go:176-178 | ids and counters are written most significant byte first |
| `Envelope.ChainPreservesMeaning` | internal/crypto/envelope.go:193-294 | any chain of re-wraps succeeds exactly when all ids are held, and opens as the envelope did |
| `Envelope.SealRewrapOpen` | internal/crypto/envelope.go:152-294 | Seal, any chain of Rewraps, Open returns the plaintext |
| `Envelope.MoreKeysKeepMeaning` | internal/crypto/envelope.go:93-105 | registering more keys changes nothing about what an openable envelope carries |
| `Envelope.Added` | internal/crypto/envelope.go:96-105 | when registering a key succeeds, and that nothing already held changes |
| `Envelope.Overwrite` | internal/crypto/envelope.go:262-294 | overwriting id and wrapped key in a copy changes nothing else |
| `Envelope.NewKeyring` | internal/crypto/envelope.go:85-91 | a ring of one key, or a refusal of its length |
| `Envelope.Keyring.Add` | internal/crypto/envelope.go:96-105 | the id collision of two keys is refused; otherwise the ring gains exactly the key |
| `Envelope.Keyring.SetPrimary` | internal/crypto/envelope.go:112-118 | only a held key becomes primary |
| `Envelope.Keyring.Drop` | internal/crypto/envelope.go:122-128 | the primary is never dropped, so a ring can always seal |
| `Envelope.Keyring.Seal` | internal/crypto/envelope.go:152-185 | the buffer filled in place is an envelope under the primary that opens to the plaintext |
| `Envelope.Keyring.Rewrap` | internal/crypto/envelope.go:262-294 | the in-place rewrite computes Rewrapped, errors included |
| `KeyFiles.ValidateMasterKey` | internal/config/secretkey.go:520-555 | the or-accumulating loop refuses exactly the all-zero key, and the whole is Validated |
| `KeyFiles.PartialMasterKey` | internal/config/secretkey.go:159-209 | a master-key file cut off anywhere is refused or decodes to the very key, and exactly when |
| `KeyFiles.PartialSalt` | internal/config/secretkey.go:338-440 | the same for the salt file |
| `KeyFiles.CompleteContent` | internal/config/secretkey.go:159-179 | a complete file decodes to its value, unless that is the all-zero key |
| `KeyFiles.PublishedKeyIsRefused` | internal/config/secretkey.go:24-26 | the published placeholder is refused, blanks around it or not |
| `Base64.RawDecodeOfEncode` | internal/crypto/password.go:197-208 | unpadded base64 decodes what it encoded, over an alphabet without separators |
| `Base64.StdDecodeOfEncode` | internal/config/secretkey.go:520-555 | padded base64 decodes what it encoded |
| `Base64.AlphabetIs` | internal/config/secretkey.go:531-538 | the standard alphabet |
| `Base64.Vectors` | internal/config/secretkey.go:531-538 | three, two and one bytes encoded, which fixes the order of the bits |
| `Startup.DecodedStays` | internal/config/secretkey.go:159-209 | once a key or salt file decodes, it decodes to the same value forever |
| `Startup.Convergence` | cmd/usarr/app.go:63-181 | over any interleaving and crash of several first runs, no file is replaced, the legacy salt stays, and all who got a key and a salt got the same |
| `Startup.OwnStepsAreOthersSteps` | internal/config/secretkey.go:186-209 | what one process is proved to do is what every other is assumed to meet |
| `Startup.SuppliedDecides` | internal/config/secretkey.go:72-118 | no environment that sets anything is taken for a first run, and a key it supplies is whole and not zero |
| `Startup.ConfigDir.WriteSecretFile` | internal/config/secretkey.go:186-209 | O_EXCL creation and the partial-write window stay inside the shared relation, and success leaves the whole content |
| `Startup.ConfigDir.ResolveMasterKey` | internal/config/secretkey.go:72-134 | the environment decides if it sets anything: both channels and an empty value are refused, a key or a named file is validated; only failing that the key file, and absence is reported as absence |
| `Startup.ConfigDir.GenerateMasterKey` | internal/config/secretkey.go:159-179 | never over an existing file; the key in hand is the one in the file unless it is all zero |
| `Startup.ConfigDir.ReadSalt` | internal/config/secretkey.go:423-440 | a salt read is the one in the file and 32 bytes long |
| `Startup.ConfigDir.WriteSaltFile` | internal/config/secretkey.go:338-417 | links a complete file into place or refuses; falls back to O_EXCL |
| `Startup.ConfigDir.ResolveKEKSalt` | internal/config/secretkey.go:283-316 | copies the legacy salt forward and adopts whichever salt won: where nothing fails and the legacy salt can be read, it is refused only if the salt it meets cannot be read |
| `Startup.ConfigDir.GenerateKEKSalt` | internal/config/secretkey.go:474-510 | an existing salt wins and the answer is read back from the file; where nothing fails it goes without one only if the file cannot be read |
| `Startup.ConfigDir.Ladder` | cmd/usarr/app.go:63-181 | a process past the ladder holds the key supplied to it or what the files decode to, and one with ciphertext in its database never creates a key or salt; undisturbed, an empty directory with no ciphertext yields the fresh key and salt, complete files are read back untouched, and a lost key beside ciphertext is refused |
| `Rotation.SafeMeans` | cmd/usarr/app.go:304-376 | a safe row's data key unwraps under a key of a complete key file, under the id the ring maps to it; the legacy id always means the live key |
| `Rotation.RingHolds` | cmd/usarr/app.go:304-376 | what the files' ring holds: the live key under its own id and under id 1, and the pending key |
| `Rotation.SealsAreServed` | internal/crypto/envelope.go:152-185 | what a server may store is what Seal produces under the live key |
| `Rotation.RenameLosesExactlyWhen` | cmd/usarr/keyrotate.go:196-218 | a row is lost at the rename exactly when its data key does not unwrap under the promoted key |
| `Rotation.StepIsSafe` | cmd/usarr/keyrotate.go:46-60 | a step of a rotation or of a server leaves a recoverable row recoverable unless it is a rename past it or a seal under a key no file gives |
| `Rotation.CrashSafety` | cmd/usarr/keyrotate.go:127-162 | over any number of runs cut off anywhere, batches from stale readings, servers sealing under any key that was live, and whatever becomes of other rows: a recoverable row is recoverable, or a step in between lost it in one of the two ways |
| `Rotation.SafeUntilRename` | cmd/usarr/keyrotate.go:46-60 | while secret.key keeps its content nothing is lost at all |
| `Rotation.SafeWhileServed` | cmd/usarr/keyrotate.go:46-60 | after it a safe row stays safe until a server seals it under the superseded key |
| `Rotation.ReadingSurvives` | cmd/usarr/keyrotate.go:127-162 | over any stretch of a rotation in which nobody else writes the row it reads as the same plaintext in every state |
| `Rotation.OnlyRenameReplaces` | internal/config/secretkey.go:637-660 | the rename is the only step that replaces secret.key, and it puts the complete pending key there |
| `Rotation.ProvenRowSurvivesPromotion` | cmd/usarr/keyrotate.go:405-467 | a proven row opens from the promoted file alone |
| `Rotation.UnprovenRowIsStranded` | cmd/usarr/keyrotate.go:196-218 | renaming past a row under another key loses it |
| `Rotation.OverlappingRenameLoses` | internal/config/secretkey.go:637-660 | a rename loses every row sealed under the key it replaces, safe as it was |
| `RotationWork.FirstPage` | internal/store/rotate.go:65-92 | a page is the first 500 credentials above the id given, ascending |
| `RotationWork.RewrapPage` | cmd/usarr/keyrotate.go:358-375 | the batch is the re-wrap of exactly the page's rows outside the new id, or the first failure |
| `RotationWork.VerifyPage` | cmd/usarr/keyrotate.go:419-438 | the three checks pass on the page exactly when every row is proven |
| `RotationWork.BatchIsRewrap` | internal/store/rotate.go:107-129 | a batch is a rotation step, however stale the reading it was made from |
| `RotationWork.BatchRestoresWhatWasRead` | internal/store/rotate.go:107-129 | over rows that changed, it restores the meaning they had when read |
| `RotationWork.BatchCounts` | cmd/usarr/keyrotate.go:376-383 | a batch takes exactly its size off the remaining work |
| `RotationWork.PageDone` | cmd/usarr/keyrotate.go:344-384 | after a page's batch nothing up to its last id is left outside |
| `RotationWork.BatchKeepsTidy` | cmd/usarr/keyrotate.go:344-384 | re-wrapping keeps columns and envelopes in agreement and every data key openable |
| `RotationWork.TidyIsProven` | cmd/usarr/keyrotate.go:386-442 | a tidy table with nothing outside passes verification |
| `RotationWork.RingOfPending` | cmd/usarr/keyrotate.go:259-290 | adding the pending key to the ring gives the ring the files give |
| `RotationWork.DropSuperseded` | cmd/usarr/keyrotate.go:455-464 | every key but the promoted one leaves the ring |
| `RotationWork.GateProves` | cmd/usarr/keyrotate.go:127-162 | at the rename every credential nobody else has written since the start is proven under the key promoted, whatever became of the other rows |
| `RotationWork.GateKeepsRowsLeftAlone` | cmd/usarr/keyrotate.go:127-162 | and after it such a row opens from the promoted file alone, reading as it did at the start |
| `RotationWork.StrandedMeansUnopenable` | cmd/usarr/app.go:404-421 | the rows reported at startup are exactly those no held key opens |
| `KeyRotate.Install.EveryCrashIsSafe` | cmd/usarr/keyrotate.go:46-60 | in every state up to the rename each recoverable credential is recoverable, whatever the servers seal; after it, it is, or the rename or a later seal under the superseded key lost it |
| `KeyRotate.Install.BuildKeyring` | cmd/usarr/app.go:304-376 | the ring built is the one the files give, primary on secret.key, with each refusal |
| `KeyRotate.Install.GenerateNewSecretKey` | internal/config/secretkey.go:600-620 | never over an existing secret.key.new, and success leaves the whole content |
| `KeyRotate.Install.PrepareRotation` | cmd/usarr/keyrotate.go:244-299 | resumes without touching a pending file, else writes fresh material; refuses the same key and colliding ids, each as such, and discards a colliding file only if it generated it |
| `KeyRotate.Install.StoreBatch` | internal/store/rotate.go:107-129 | all rows of the batch in place in one change, or no change at all, whoever else writes |
| `KeyRotate.Install.RewrapOnePass` | cmd/usarr/keyrotate.go:344-384 | visits ascending, so nothing twice; every row visited was at the new id in some state of the pass; every row that stays is visited; alone, leaves nothing outside and counts what it moved |
| `KeyRotate.Install.RewrapEverything` | cmd/usarr/keyrotate.go:306-336 | at most four passes; each is a pass over real states and the next is made only because the count found something; success is a count of zero; it gives up only after four, and only if the others changed rows after the fourth began |
| `KeyRotate.Install.PassAndCount` | cmd/usarr/keyrotate.go:309-318 | one pass: every row that stays is at the new id at some point, the count is that of the rows then, and undisturbed it is zero |
| `KeyRotate.Install.VerifyEverything` | cmd/usarr/keyrotate.go:405-442 | every row read during the pass was proven as read, every row that stayed was read; alone, succeeds exactly when the table is proven |
| `KeyRotate.Install.RewrapAndVerify` | cmd/usarr/keyrotate.go:140-157 | under the same conditions re-wrapping and verifying get through |
| `KeyRotate.Install.PromoteNewSecretKey` | internal/config/secretkey.go:637-660 | one rename, over whatever the rows have become; a failure before it has changed nothing, a failure after it is reported although the key is promoted |
| `KeyRotate.Install.PromoteRotation` | cmd/usarr/keyrotate.go:449-467 | renames the pending file over unchanged rows, and leaves one key in the ring |
| `KeyRotate.Install.ReportStranded` | cmd/usarr/keyrotate.go:164-193 | success means nothing is outside the new id after the rename |
| `KeyRotate.Install.RunKeyRotate` | cmd/usarr/keyrotate.go:61-194 | refusals touch nothing; secret.key changes once at most and only through the gate, at which every credential of the start that nobody else wrote is proven; success leaves one file and no row outside it; an undisturbed run over a tidy table succeeds, resumed or not; and with other writers, if nothing fails, every state is tidy and no row is removed, it fails only if they change rows after the fourth pass began or after the count that found nothing |
| `Instants.StampOrder` | internal/bookorbit/arrivals.go:140-149 | renderings compare as strings as the instants do in milliseconds |
| `Instants.ParsedOfStamp` | internal/bookorbit/arrivals.go:140-149 | a rendering is read back as its instant cut to the millisecond |
| `Instants.RenderOrder` | internal/bookorbit/arrivals.go:140-149 | fixed-width fields compare as the numbers they spell |
| `Instants.StampSpelledOut` | internal/bookorbit/arrivals.go:140-149 | year to millisecond as 2006-01-02T15:04:05.000Z, field by field, cut below the millisecond |
| `Arrivals.AdvanceArrivalsCursor` | internal/bookorbit/arrivals.go:392-406 | the one-pass fold returns the second-largest distinct value of an unsorted page, or none when there is none |
| `Arrivals.SecondLargestIsUnique` | internal/bookorbit/arrivals.go:392-406 | there is one such value |
| `Arrivals.NothingIsSkipped` | internal/bookorbit/arrivals.go:196-211 | what the new cursor excludes was on the page just read, although the server compares at full precision |
| `Arrivals.WalkCovers` | internal/bookorbit/arrivals.go:249-347 | whatever changes between pages, a row that stays and lies at or below the cursor reached was on a page |
| `Arrivals.ShortPageFinishes` | internal/bookorbit/arrivals.go:319-322 | ending on a short page means every row that stays was delivered |
| `Arrivals.CursorsClimb` | internal/bookorbit/arrivals.go:324-347 | the cursor strictly increases along the walk |
| `Arrivals.CanAdvanceMeans` | internal/bookorbit/arrivals.go:324-346 | when a full page lets the walk go on, in milliseconds |
| `Arrivals.PageMeans` | internal/bookorbit/arrivals.go:360-383 | a page is the first 200 rows, by time and then id, strictly above the cursor's millisecond |
| `Arrivals.NextCursor` | internal/bookorbit/arrivals.go:324-347 | the walk wedges exactly when no page value lies strictly between the cursor and the largest |
| `Arrivals.StreamBooksSince` | internal/bookorbit/arrivals.go:249-358 | a nil error means every row that stays above the start was handed over; a wedge, with the page's last readable instant, a refusal or the page bound means so were those up to the last cursor; fn gets the pages in order and nothing else; it is refused exactly by a request unanswered before the bound, aborted exactly by fn, and with neither ends done, wedged or too long |
| `Arrivals.OneRun` | internal/bookorbit/arrivals.go:249-358 | those promises leave one result: the answers, fn and the start decide the requests, the deliveries and the end |
| `Arrivals.WillingWalkEnds` | internal/bookorbit/arrivals.go:249-358 | with every request answered, a readable start and a willing fn the walk is done, wedged or too long |
| `Arrivals.OffsetWalkSkips` | internal/bookorbit/catalogue.go:826-886 | the offset walk loses the boundary row to one deletion |
| `EventHub.FramesAreExact` | internal/httpapi/events.go:133-206 | replay plus live events are exactly the visible events after the client's id, a prefix of them once dropped |
| `EventHub.EverythingReadableArrives` | internal/httpapi/events.go:124-206 | on owners: a served connection with no miss is written every event since its position that is its user's or user 0's, and nothing else, once each and in order |
| `EventHub.NothingPrivateLeaks` | internal/httpapi/events.go:113-126 | no connection at all is ever written an event of another user |
| `EventHub.ReplayMeans` | internal/httpapi/events.go:196-205 | the replay is exactly the events of the ring after the id that are the user's or user 0's |
| `EventHub.VisibleClimbs` | internal/httpapi/events.go:124-164 | in order, without duplicates |
| `EventHub.MissedExactlyWhenEvicted` | internal/httpapi/events.go:191-195 | the miss test is true exactly when an event after the client's id has left the ring, the largest id apart |
| `EventHub.ReplayIsVisible` | internal/httpapi/events.go:196-205 | the replay is the visible history from the later of the client's position and the ring's start |
| `EventHub.ReconnectStitches` | internal/httpapi/events.go:228-301 | what was received before, plus the next connection, is the history with no gap and nothing twice |
| `EventHub.Hub.Publish` | internal/httpapi/events.go:133-164 | numbers the event, shifts the ring in place, and sends it to every open stream of its owner, or of anybody if its owner is user 0, closing those that are full |
| `EventHub.Hub.Subscribe` | internal/httpapi/events.go:180-206 | registers the stream and reads replay and miss off the ring: exactly the readable events after the id, and a miss exactly when the hub is open and an event after the id was evicted |
| `EventHub.Hub.Unsubscribe` | internal/httpapi/events.go:208-214 | idempotent, and nothing buffered is lost |
| `EventHub.Hub.Close` | internal/httpapi/events.go:218-225 | closes every stream |
| `EventHub.Hub.Receive` | internal/httpapi/events.go:285-293 | buffered events first, then the end |
| `EventHub.Hub.HandleEvents` | internal/httpapi/events.go:228-301 | replay first, then live, with any number of turns of the others before every write and read, so the connection may be dropped while slow: what is written is readable by the user and a part from the start of what the connection was given, all of it if the channel ended or the client stayed 64 rounds after the others had gone still; and the connection is closed at the end |
| `EventHub.Hub.Delivered` | internal/httpapi/events.go:133-225 | the delivery promise for every connection of every interleaving |
| `Breaker.AlwaysSound` | internal/breaker/breaker.go:145-222 | over every history: closed means no openings, half-open means a probe in flight, open means at least one opening, failures below the threshold |
| `Breaker.HalfOpenAdmitsNothing` | internal/breaker/breaker.go:160-169 | nothing is admitted in half-open until an outcome is recorded |
| `Breaker.OutcomeEndsHalfOpen` | internal/breaker/breaker.go:173-201 | any outcome ends half-open and a later call is admitted |
| `Breaker.OpensAtThreshold` | internal/breaker/breaker.go:187-209 | opens on exactly the threshold-th failure in a row |
| `Breaker.EachOpeningWaitsLonger` | internal/breaker/breaker.go:173-222 | without a success in between, the n-th opening waits base doubled n-1 times, capped and jittered |
| `Breaker.SuccessForgets` | internal/breaker/breaker.go:173-209 | after a success it takes the whole threshold of failures again, whatever came before |
| `Breaker.BackoffMonotone` | internal/breaker/breaker.go:211-219 | the backoff never shrinks as openings grow, and stays within the cap |
| `Breaker.DoubledIsBackoff` | internal/breaker/breaker.go:212-219 | the doubling loop and the cap give base times 2^(openings-1), capped |
| `Breaker.OverflowsExactlyWhen` | internal/breaker/breaker.go:212-219 | when the loop never wraps an int64 |
| `Breaker.CooldownIsNear` | internal/breaker/breaker.go:219-222 | for every jitter the cooldown is within the fraction of the backoff, and up to 100 % never negative |
| `Breaker.CooldownAt` | internal/breaker/breaker.go:219-222 | the middle draw is the backoff and the lowest takes the whole fraction off |
| `Breaker.DefaultsAre` | internal/breaker/breaker.go:89-103 | 5 failures, 5 s, 15 min and 20 % |
| `Breaker.ShownIsWhatIsMet` | internal/breaker/breaker.go:224-245 | the state and retry time shown agree with what the next call meets |
| `Breaker.CircuitBreaker.Allow` | internal/breaker/breaker.go:145-169 | the object's step is the state machine's |
| `Breaker.CircuitBreaker.Success` | internal/breaker/breaker.go:173-181 | closes and resets |
| `Breaker.CircuitBreaker.Failure` | internal/breaker/breaker.go:187-201 | counts, or trips at once from half-open |
| `Breaker.CircuitBreaker.NextCooldown` | internal/breaker/breaker.go:212-222 | the int64 loop computes the jittered, capped backoff |
| `Client.EveryExchangeIsAccountedFor` | internal/bookorbit/client.go:387-425 | over any interleaving of calls: admitted = recorded + silent + in flight |
| `Client.OutcomeMeans` | internal/bookorbit/client.go:387-497 | which endings count against the upstream, which for it, and which are silent |
| `Client.OnlySilenceSticks` | internal/bookorbit/client.go:472-497 | the breaker gets stuck only when the last call in flight ends silently |
| `Client.StuckStaysStuck` | internal/bookorbit/client.go:387-395 | and then for good |
| `Client.StuckIsReachable` | internal/bookorbit/client.go:485-489 | under every configuration a cancelled probe gets there |
| `Client.ProbeIsAloneUntil` | internal/breaker/breaker.go:145-201 | over any interleaving in which the probe stays in flight, another call can be admitted exactly from some other call's recorded outcome on |
| `Client.SecondProbeExactlyWhen` | internal/breaker/breaker.go:160-201 | another call can be admitted beside the probe exactly when another is in flight with it |
| `Client.StragglerFreesTheProbe` | internal/breaker/breaker.go:187-201 | under every configuration a legal interleaving ends half-open with two probes in flight |
| `Client.FreshSessionIsUsable` | internal/bookorbit/auth.go:256-282 | no claim leaves a fresh session expired; it is usable unless the claim falls inside the skew |
| `Client.OneMintPerStaleToken` | internal/bookorbit/auth.go:118-153 | any number of calls rejected on one token try to mint at most once |
| `Client.RepeatedTokenMintsAgain` | internal/bookorbit/auth.go:118-153 | unless a mint hands that token out again |
| `Client.EmptyTokenExactlyWhen` | internal/bookorbit/auth.go:128-134 | when a caller is handed the empty token without an error |
| `Client.WaiterAfterFailedMint` | internal/bookorbit/auth.go:128-151 | what a waiter meets after a failed mint |
| `Client.BookOrbit.RoundTrip` | internal/bookorbit/client.go:387-425 | admitted exactly when the breaker allows; one exchange then, and its outcome, unless silent, is what the breaker as it has become is told |
| `Client.BookOrbit.AccessToken` | internal/bookorbit/auth.go:118-153 | at most one mint; the session it leaves and the token it returns |
| `Client.BookOrbit.DoRaw` | internal/bookorbit/client.go:334-378 | at most two exchanges and two mints, each accounted for; the answer is the last exchange's, and a second one follows only a 401; with nobody else about, a 401 for a token a login replaces is retried |
| `Client.BookOrbit.Retry` | internal/bookorbit/client.go:360-375 | after a 401 the request is sent again exactly when there is another token and the breaker admits it; a token somebody else has renewed is used without a login |
| `Client.BookOrbit.Mint` | internal/bookorbit/auth.go:163-223 | a session exactly when the exchange is admitted and answered 2xx with a token |
| `ImportGuard.EveryInterleavingIsSound` | cmd/usarr/import.go:817-857 | from a process with no runs, over every interleaving: one holder per instance, each claim released once, one stopped frame per stopped import and none otherwise |
| `ImportGuard.AlwaysSound` | cmd/usarr/import.go:817-857 | every act of every run keeps that |
| `ImportGuard.HolderIsNeverRefused` | cmd/usarr/import.go:185-209 | an escalating delta keeps its claim and goes on |
| `ImportGuard.EscalatingThroughTheGuardIsRefused` | cmd/usarr/import.go:185-209 | going back through the guard would be refused every time |
| `ImportGuard.RefusedExactlyWhenHeld` | cmd/usarr/import.go:843-857 | a start is refused exactly when a run holds the instance |
| `ImportGuard.OthersLeaveMineAlone` | cmd/usarr/import.go:843-857 | the acts of other runs leave a run's claim, frames and phase alone, and no act changes a run that is over or was refused |
| `ImportGuard.Registry.BeginImport` | cmd/usarr/import.go:843-851 | claims, or refuses and changes nothing |
| `ImportGuard.Registry.EndImport` | cmd/usarr/import.go:853-857 | releases exactly the run's instance |
| `ImportGuard.Registry.FullImportLocked` | cmd/usarr/import.go:150-169 | ends stopped exactly when the import failed, still holding |
| `ImportGuard.Registry.DeltaSyncLocked` | cmd/usarr/import.go:193-209 | an escalation runs under the claim already held; it fails exactly if the delta does or the import it escalates to, and only the latter ends stopped |
| `ImportGuard.Registry.RunClaimed` | cmd/usarr/import.go:900-1001 | the claim is released once and a stopped import has published one frame |
| `ImportGuard.Registry.RunNow` | cmd/usarr/import.go:134-184 | a new run of that kind for that instance: refused exactly when the instance is taken, otherwise claimed and released once, failing exactly when the work does |
| `ImportGuard.Registry.Start` | cmd/usarr/import.go:878-1001 | every refusal before the claim, each for its own reason, and a synchronous answer |
| `ImportGuard.Registry.BootstrapImport` | cmd/usarr/import.go:776-815 | asks only for an instance never imported; the full import runs its course exactly when the instance was free |
| `ImportGuard.Registry.ReconcileOnce` | cmd/usarr/reconcile.go:226-321 | exactly the enabled instances due at their turn, in the order of the listing, each with one full import of its own that is over or was refused |
| `ImportGuard.DueMeans` | cmd/usarr/reconcile.go:253-279 | an instance is taken exactly if enabled and last synced six hours ago or longer, and never if it never was |
| `Phc.ParsedOfPrinted` | internal/crypto/password.go:197-318 | every in-range hash with a salt and a digest parses back exactly |
| `Phc.ParsePhc` | internal/crypto/password.go:257-318 | the parser with its loop computes Parsed; what it accepts is in range and complete |
| `Phc.RehashExactlyWhenWeaker` | internal/crypto/password.go:243-249 | a printed hash needs rehashing exactly when memory or time is below today's |
| `Phc.VersionTailIsIgnored` | internal/crypto/password.go:268-274 | a hash with text after its version parses as without it exactly when that text does not begin with a digit |
| `Phc.VersionFieldDecides` | internal/crypto/password.go:257-318 | whatever stands in the version field, the rest parses back exactly when the field scans as 19, and which of the two refusals otherwise |
| `Phc.ForeignHashIsRefused` | internal/crypto/password.go:257-268 | what does not have six fields with the first empty is no PHC string, and only argon2id is read |
| `EnvFile.MapRoundTrip` | internal/config/envfile.go:32-122 | every map with valid keys and any values, printed in any order, parses back |
| `EnvFile.ParsedOfPrinted` | internal/config/envfile.go:32-122 | with repeated keys the last value wins |
| `EnvFile.UnescapedOfEscaped` | internal/config/envfile.go:93-122 | unescape is a left inverse of the escape |
| `EnvFile.UnknownEscapeIsKept` | internal/config/envfile.go:114-119 | an unknown escape is kept byte for byte |
| `EnvFile.EscapesAre` | internal/config/envfile.go:93-119 | the five known escapes |
| `EnvFile.CommentIsIgnored` | internal/config/envfile.go:36-39 | blank lines and comments, with or without a carriage return |
| `EnvFile.UnquotedIsLiteral` | internal/config/envfile.go:41-91 | an unquoted value is literal, # and all, without the blanks around it |
| `EnvFile.QuotedIsInside` | internal/config/envfile.go:74-91 | single quotes keep everything, double quotes resolve the escapes |
| `EnvFile.OpenQuoteIsRefused` | internal/config/envfile.go:74-91 | a quote not closed at the very end of the line is an error |
| `EnvFile.NoEqualsIsRefused` | internal/config/envfile.go:41-44 | any other line without an equals sign is an error |
| `EnvFile.BadKeyIsRefused` | internal/config/envfile.go:45-48 | and so is one whose name is not a name |
| `EnvFile.FirstBadLineDecides` | internal/config/envfile.go:32-57 | the first bad line decides, under its number counted from one |
| `EnvFile.Unescape` | internal/config/envfile.go:93-122 | the index-stepping loop computes Unescaped |
| `EnvFile.CheckKey` | internal/config/envfile.go:59-72 | the loop accepts exactly the valid names |
| `EnvFile.ParseEnvFile` | internal/config/envfile.go:32-57 | the loop computes Parsed: first bad line decides, last value wins |
| `Text.SplitOfJoin` | internal/config/envfile.go:32-57 | splitting undoes joining parts that are free of the separator |
| `Text.NumberOfDecimal` | internal/crypto/password.go:197-208 | a printed number reads back |
| `RecentGrabs.SortedIsStable` | internal/httpapi/grabs.go:455-465 | the sort is newest first and keeps the rows of each time in order |
| `RecentGrabs.StableSortIsUnique` | internal/httpapi/grabs.go:455-465 | a stable sort has one answer |
| `RecentGrabs.NewestFirstMeans` | internal/httpapi/grabs.go:455-465 | dated rows go back in time, undated ones come last |
| `RecentGrabs.SortedIsMerged` | internal/httpapi/grabs.go:442-465 | sorting two newest-first arms end to end is merging them |
| `RecentGrabs.UnionOfFirsts` | internal/httpapi/grabs.go:416-469 | the newest N of the first N of each arm are the newest N of both, ties and undated rows included |
| `RecentGrabs.HandleRecentGrabs` | internal/httpapi/grabs.go:398-469 | the handler answers the newest rows of the two full arms |
| `RecentGrabs.EffectiveMeans` | internal/httpapi/grabs.go:408-414 | 10 by default, 200 at most |
| `RecentGrabs.ShownMeans` | internal/httpapi/grabs.go:440-449 | exactly the audit rows with an actor are shown |

## Left out

- KeyWrap.WrapPasses: the register is an array of 64-bit semiblocks, so the byte offsets (i-1)*8 of the source are indexes here; input and output are still byte strings.
- Envelope.Keyring.Seal: the data key and the nonce are parameters; that they are fresh is not stated.
- Startup.ConfigDir.ResolveMasterKey: the file USARR_SECRET_KEY_FILE names is one this process only reads, and is taken not to change; the note of a key file ignored in favour of the environment is left out.
- Startup.ConfigDir.Ladder: directory modes and fsync are not modelled; a created, renamed or linked name is complete and atomic, except for the O_EXCL writers' partial content.
- KeyRotate.Install.RunKeyRotate: assumes the random source does not yield the all-zero key, and a salt that does not change; tombstone counts, audit rows and progress text are left out. The other processes are servers: a second `key rotate` beside this one is not, and what it can do to rows is `Rotation.OverlappingRenameLoses`.
- Instants.StampOrder: years 0 to 9999; an instant is its UTC civil fields as one number, so dates such as 30 February are numbers too and no calendar arithmetic is done.
- Arrivals.StreamBooksSince: a filter value that is not such a rendering is a refused request; nil callbacks, negative ids and deadlines are left out.
- EventHub.Hub.Publish: the 64-bit counter is assumed not to run out, and what an action would publish past its end is not published; a Last-Event-ID of an earlier process (larger than the counter) is outside the delivery statement.
- EventHub.Hub.HandleEvents: heartbeats, headers and encoding are left out; how long the client stays is a bound on the turns, which the statement is for all of.
- Breaker.CircuitBreaker.NextCooldown: the jitter is computed on reals, so float64 rounding is not modelled; a configuration whose doubling overflows is excluded by the constructor.
- Client.BookOrbit.RoundTrip: one exchange has one arbitrary outcome; headers, decoding and the byte count of the body limit are left out.
- ImportGuard.Registry.RunClaimed: what an import or a delta writes is one arbitrary outcome.
- EnvFile.ParseEnvFile: strings are sequences of characters; the source's byte and rune views agree on every character the grammar names.
- RecentGrabs.HandleRecentGrabs: the library's stable sort is the unique stable result rather than its algorithm; each arm is taken as newest first.
- The KDF permit gate (internal/crypto/password.go:148-170) is a counting semaphore on a channel's capacity and adds no property of its own.
- AES, GCM, HKDF, SHA-256 and Argon2 internals, SQLite, HTTP transport, JSON, cookies, the web client, DTO projections and error texts.
