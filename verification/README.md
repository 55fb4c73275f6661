# A verified model of the ortbtools server core

This project models the parts of the server whose correctness is a matter of whole runs rather
than of single calls, and proves what they promise.

- **Crash-safe session revocation** (`SessionModel`, `JournalFormat`, `SessionRuns`,
  `SessionTheorems`, `SessionAnswers`, `CredentialProvenance`, `RestartContinuity`,
  `SessionRecovery`, `Auth`, `ExpiryInstant`). Rows and a checkpoint file survive a process, the
  hot map does not. Every operation is a function of both stores and of the outcomes of its I/O;
  the classes are proved equal to these functions, and a state machine interleaves them with
  crashes between any two durable steps, restarts, damaged files and rows that are lost, kept or
  restored at will.
- **The content-versioned asset renderer** (`AssetModel`, `AssetTheory`, `StaticAssets`,
  `AssetVersions`, `AssetPaths`, `CachePolicy`). Cached rendering is proved equal to cache-free
  evaluation on the current files over whole histories of requests, and a version is proved to
  name one body, hereditarily.
- **Addresses and trust** (`Texts`, `Addresses`, `AddressSpelling`, `AddressClass`,
  `AddressForms`, `LastOf`, `ClientIp`, `TrustedProxies`). The parsers are proved to be exact
  inverses of spelling, the private class a fixed union of value ranges, and the forwarded
  address immune to what a client prepends, with the exact condition.
- **Bounded scheduling and budgets** (`ConcurrencyGate`, `Arrivals`, `SlidingLog`,
  `ByteBudget`). Bounds, fairness and refinement over every run.
- **The creative probe's sweep and ledger** (`DescendantSweep`, `RefusalLedger`,
  `RefusalMeaning`).
- **The library** (`LibraryTables`, `Library`, `LibraryFields`, `Slugs`, `CorpusMatrix`,
  `MatrixMeaning`). Caps and ownership as invariants of every operation, a slug search that
  ends, and a confusion matrix with one order.
- **Pages and redirects** (`LocaleRoutes`, `LocaleLanguage`, `ServedPages`, `RetiredNames`).
  Three hops at most from any path and cookie, always in the reader's language, and exactly
  which paths are pages, which are redirected, and where each chain ends.

Each component keeps the form of its source: objects whose methods update fields are classes,
loops are loops, and each method is proved against a function of the old state. The theorems are
about those functions and about runs of them. `Wrappers` and `Sets` hold shared shapes.

## Where the code falls short of its description

- *Revocation is permanent* fails at one instant. Startup reads the clock once for loading rows
  and again for filtering the journal (`db.js:1102-1108`, `lib/session-recovery.js:178`). A
  journaled row that expires between the two readings is hydrated, and `getCurrentUser` believes
  a session whose expiry equals the current time (`auth.js:212`). `ExpiryInstant` gives the run,
  `HydratesJournaledIff` and `StraddledCookieResolvesIff` the exact conditions, and
  `RevocationIsPermanent` shows that nothing else can go wrong.
- *Caching is transparent* fails where a script holds a placeholder of a missing module.
  `reference` takes any ENOENT for a missing file (`lib/static-assets.js:155-160`), also one
  raised by a placeholder inside a file that exists; the entry then records nothing of that file
  and stays valid when it changes. `EntrySoundIff` gives the exact condition, on the files a
  request reaches by references, and `StalePageExists` an instance. Under that condition `Serve`
  is exact.
- *The worst case is a 2x burst* (`lib/byte-budget.js:17-18`) holds only while the full table is
  not cleared (`lib/byte-budget.js:37`). `TwiceTheCapIff` gives the exact condition: the table
  has room for every address that asks. `ClearingLiftsEveryBound` shows that otherwise, for the
  10,000 entries of the source as for any other size, no fixed multiple of the cap bounds a
  span, and `SpanIsCapped` gives the bound with clears counted.

## Model

| member | source | states |
|---|---|---|
| `SessionTheorems.RevocationIsPermanent` | auth.js:298-326 | Over every run (crashes at any step, clean or unclean ends, failed or half-done checkpoint writes, lost, undeleted or restored rows): once a live session is revoked its cookie resolves to nobody, except possibly at the single instant of its own expiry, and only if some startup of the run read the clock on both sides of the expiry of this very session |
| `SessionTheorems.RevocationIsAbsolute` | auth.js:475-501 | If no startup straddled the expiry of this session, its revoked cookie never resolves again, without exception |
| `SessionTheorems.HydratesJournaledIff` | lib/session-recovery.js:158-181 | The exact condition of the exception: a trusting startup hydrates a journaled row if and only if the row was unexpired at the load reading and expired at the later filter reading |
| `SessionTheorems.StraddledCookieResolvesIff` | auth.js:206-218 | and the revoked cookie is then believed if and only if the request arrives exactly at the expiry |
| `SessionTheorems.LookupOnlyBehindTheFence` | lib/session-recovery.js:177-195 | Over every run: whenever `lookup` can answer, neither the checkpoint a reader would open nor the one a power cut would leave is clean |
| `SessionTheorems.ShutdownCertifiesIff` | auth.js:548-561 | A closing process leaves a clean checkpoint if and only if it was draining, had no unaccounted or uncertain revocation, and the write reached the file; the durable file is clean iff the write was also synced |
| `SessionTheorems.CrashLeavesTheFence` | lib/session-recovery.js:230-246 | A process that dies without certifying leaves no checkpoint a later startup would trust |
| `SessionTheorems.UntrustedStartForgetsAll` | lib/session-recovery.js:167-176 | A start that cannot read a clean checkpoint hydrates no session, and under its rotated key no cookie at all maps to an identity that was ever stored |
| `SessionTheorems.CheckpointReadsBack` | lib/session-recovery.js:197-226 | A recorded revocation leaves on both the visible and the durable file exactly the snapshot in memory; `read` returns it, and every live added entry is in it |
| `SessionTheorems.InvalidatedProofNeverMints` | auth.js:475-501 | A login that read its row, or a proof taken, before `invalidateUserSessions(u)` can never mint afterwards, whatever is interleaved |
| `SessionTheorems.ProofMintsOnce` | auth.js:273-274 | Over every run of one process, each proof mints at most one session |
| `SessionTheorems.HotSessionsAreCurrent` | auth.js:475-494 | Every session in the hot map that this process minted still carries its user's current epoch |
| `SessionTheorems.CertificateAlwaysFits` | lib/session-recovery.js:230-236 | In every state of every run the certifying write of the serving process fits both limits: closing can never fail for size |
| `ExpiryInstant.LoggedOutCookieComesBack` | lib/session-recovery.js:178-181 | A concrete seven-event run (start, proof, mint, logout whose row delete fails, drain, clean shutdown, restart) after which the logged-out cookie resolves |
| `CredentialProvenance.MintHasProvenance` | auth.js:258-296 | Every successful mint goes back to one reading of the user's row by the same process, under the same handle: the hash read then is the one stored at the mint, and no invalidation of that user came in between |
| `CredentialProvenance.TakenAt` | auth.js:409-436 | Every ticket or proof a process holds was taken at an earlier step of that process from the row and epoch of that moment |
| `CredentialProvenance.LoginNeedsPassword` | auth.js:409-436 | A session minted on a login's handle: between the reading of the row and the mint, in the same process, that login's password comparison came out equal |
| `CredentialProvenance.WrongPasswordNeverMints` | auth.js:413-425 | A login whose password was wrong is refused as invalid_credentials, and its handle never mints afterwards, whatever is interleaved |
| `SessionRuns.RunInv` | auth.js:63-71 | The protocol invariant holds in every state of every run: rows are ones ever stored, clean files account for every revocation under their key, an open process is fenced, its journal is well formed and its hot map denies what was revoked |
| `SessionRuns.RevokeKeeps` | lib/session-recovery.js:197-226 | A revocation keeps the invariant whatever its write does; when it succeeds the journal covers the new identities as well |
| `RestartContinuity.RestartIsExact` | lib/session-recovery.js:158-181 | In runs whose stores do what they are told, a startup hydrates exactly the sessions of its key that were created, never revoked and unexpired; after an uncertified ending, none |
| `RestartContinuity.CookieResolvesIff` | auth.js:206-218 | In such runs a cookie resolves if and only if its user exists and its session was created, not revoked and unexpired, or expires at this very instant and is still in the hot map; and then it resolves to the user it was created for |
| `RestartContinuity.ReliableRunExact` | auth.js:552-561 | Every state of a reliable run keeps rows, hot map and clean checkpoint in exact agreement with what is owed |
| `JournalFormat.DecodeExact` | lib/session-recovery.js:101-125 | `read` accepts a document as a snapshot if and only if it is the encoding of that snapshot with unique, well-formed entries |
| `JournalFormat.ReadExact` | lib/session-recovery.js:96-129 | `read` returns a snapshot iff the file holds its encoding, is within the byte limit, and the snapshot is within the entry limit |
| `JournalFormat.WrittenReadsBack` | lib/session-recovery.js:66-94 | A well-formed snapshot written within the limit reads back equal as soon as the rename took effect, and is what a power cut leaves once synced; a failed write changes neither rows nor the durable file |
| `JournalFormat.LiveEntriesExact` | lib/session-recovery.js:200-203 | The expiry filter keeps exactly the live entries and keeps ids unique |
| `JournalFormat.UpsertExact` | lib/session-recovery.js:208-209 | Setting an entry replaces the one of its id and no other |
| `JournalFormat.MergeKeeps` | lib/session-recovery.js:205-210 | Merging loses no live entry, old or new |
| `JournalFormat.MergeAddsNothingElse` | lib/session-recovery.js:205-210 | and adds none that was not asked for |
| `JournalFormat.NextSnapshotWellFormed` | lib/session-recovery.js:211-216 | Every snapshot `revoke` writes passes `read`, is dirty and keeps the key |
| `JournalFormat.StartSnapshotWellFormed` | lib/session-recovery.js:165-179 | So does every snapshot startup writes |
| `SessionRecoveryOwner.SessionRecovery.ReadCheckpoint` | lib/session-recovery.js:96-129 | The validation loop with its set of seen ids equals the value-level `Read` in every case, rejections included |
| `SessionRecoveryOwner.SessionRecovery.Open` | lib/session-recovery.js:143-185 | Startup leaves disk and owner as specified on every path, failures included, and passes through exactly the specified intermediate disks |
| `SessionRecoveryOwner.SessionRecovery.LookupRaw` | lib/session-recovery.js:189-195 | Keyed identity of a well-formed cookie while open, nothing otherwise |
| `SessionRecoveryOwner.SessionRecovery.Revoke` | lib/session-recovery.js:197-226 | New disk, new owner state and answer, for every outcome of the write |
| `SessionRecoveryOwner.SessionRecovery.Close` | lib/session-recovery.js:230-246 | Certification and closing, for every outcome of the write |
| `SessionRecoveryOwner.Store.Write` | lib/session-recovery.js:66-94 | The checkpoint write: all or nothing for a reader, durable only after the directory sync |
| `Authentication.Auth.RecordRevocations` | auth.js:73-81 | Journals the entries and latches `unaccountedRevocation` if that failed |
| `Authentication.Auth.GetCurrentUser` | auth.js:206-218 | Equals the specified resolution, including dropping an expired entry |
| `Authentication.Auth.LoginRead` | auth.js:409-410 | First half of a login: row and epoch are captured together |
| `Authentication.Auth.LoginFinish` | auth.js:413-436 | Second half, when the comparison settles: refused if it failed (`CredentialProvenance.WrongPasswordNeverMints`), otherwise the captured epoch and hash go into the proof |
| `Authentication.Auth.SessionUser` | auth.js:112-121 | A proof for an already authorised user, with its error cases |
| `Authentication.Auth.CreateSession` | auth.js:258-296 | The mint: proof checks in order, proof consumed, row stored before the hot map, every row outcome |
| `Authentication.Auth.DestroySession` | auth.js:298-326 | Journal, hot map, row, in that order; unknown cookies write nothing |
| `Authentication.Auth.Affected` | auth.js:477-479 | The user's hot sessions, each once |
| `Authentication.Auth.InvalidateUserSessions` | auth.js:475-501 | Epoch, journal, rows, hot map; fails only if neither store took the revocation |
| `Authentication.Auth.RetireUser` | auth.js:476-480 | Epoch bumped and all live sessions journaled together |
| `Authentication.Auth.DropHot` | auth.js:489-495 | Removes exactly the user's hot sessions and counts them |
| `Authentication.Auth.DropExpired` | auth.js:165-173 | Removes exactly the expired hot sessions |
| `Authentication.Auth.SweepExpired` | auth.js:165-182 | The periodic sweep over both stores |
| `Authentication.Auth.BeginShutdown` | auth.js:548-550 | Only latches `closing` |
| `Authentication.Auth.Shutdown` | auth.js:552-561 | Clears the hot map and certifies exactly when it may |
| `StaticAssetsRenderer.StaticAssets.Asset` | lib/static-assets.js:202-228 | The memoised renderer returns exactly what a cache-free evaluation of the current files returns, failures included, and leaves the caches sound, whenever no script the file reaches by references holds a placeholder of a missing module |
| `StaticAssetsRenderer.StaticAssets.BundleOf` | lib/static-assets.js:103-148 | So does the memoised bundle |
| `StaticAssetsRenderer.StaticAssets.FilesMayChange` | lib/static-assets.js:52-65 | Outside immutable mode, no change of any file can make sound caches unsound |
| `StaticAssetsRenderer.StaticAssets.StillValid` | lib/static-assets.js:52-65 | The validation loop answers whether every recorded fingerprint still matches (in immutable mode it trusts that) |
| `StaticAssetsRenderer.StaticAssets.Render` | lib/static-assets.js:255-257 | Any request, at any moment in any history of changes and calls |
| `StaticAssetsRenderer.StaticAssets.Transform` | lib/static-assets.js:150-200 | The chunk loop computes the specified transformation and its dependencies |
| `StaticAssetsRenderer.StaticAssets.TransformChunk` | lib/static-assets.js:151-162 | One reference or placeholder: versioned link, native specifier when missing, or failure |
| `StaticAssetsRenderer.StaticAssets.CachePolicy` | lib/static-assets.js:230-253 | The cached decision equals the decision on current files |
| `StaticAssetsRenderer.BundleWalk.Include` | lib/static-assets.js:113-138 | The in-place depth-first walk equals the functional walk: files, fingerprints and failures |
| `StaticAssetsRenderer.StaticAssets.Respond` | server.js:562-575 | One request, policy first and then the body: page, conflict or server error exactly as on the current files |
| `StaticAssetsRenderer.StaticAssets.Serve` | server.js:562-575 | Over any history of requests in which the files may become anything else before each (in immutable mode: stay), every response equals that of a cache-free evaluation of the files of that moment; and any two responses marked immutable for one url and one `a2-` version have equal bodies, whatever changed in between |
| `AssetTheory.AssetLocal` | lib/static-assets.js:202-228 | Where no script it reaches dangles, an asset renders identically over any files that agree on what it recorded |
| `AssetTheory.BundleLocal` | lib/static-assets.js:103-148 | So does a bundle |
| `AssetTheory.MissingLocal` | lib/static-assets.js:75-80 | The one directory listing recorded for a missing path is enough to know that it is still missing |
| `AssetTheory.MissingMeans` | lib/static-assets.js:151-162 | ENOENT from rendering a file says that this very file is missing or that it holds a placeholder of a missing module, and a missing file always gives ENOENT |
| `AssetTheory.ContextFree` | lib/static-assets.js:203-204 | Below any chain of files being rendered, a file that renders on its own (and reaches no dangling script) renders the same: entries may be reused whatever is being visited |
| `AssetTheory.WalkLeavesVisited` | lib/static-assets.js:202-204 | A file that renders, and reaches no dangling script, reaches none of the visited files by references: `visiting` reports cycles and only cycles |
| `AssetVersions.BundleVersionNamesOneBody` | server.js:562-572 | Two answers marked immutable under one bundle version `m2-…`, at any two moments, have equal bodies, whenever no file of the bundle holds a placeholder |
| `AssetVersions.SameVersionSameReference` | lib/static-assets.js:150-161 | Equal versions of a file imply that both file systems reference the same rendering files there, with equal bodies |
| `AssetVersions.VersionNamesWholeGraph` | lib/static-assets.js:150-228 | and so, along any chain of references of a file that reaches no dangling script, equal bodies of every existing file, referenced the same way by the other file system |
| `AssetVersions.BundleIsComplete` | lib/static-assets.js:99-148 | A bundle's version covers every file of its directory and everything those files reference, hereditarily, each with its exact content (not the modules that placeholders in them name) |
| `AssetVersions.EntrySoundIff` | lib/static-assets.js:151-162 | The exact condition of sound caching: where no bundle is recorded, the entry of a file follows every later change of the files if and only if no existing script it reaches by references holds a placeholder of a missing module |
| `AssetVersions.DanglingGoesStale` | lib/static-assets.js:155-160 | The failing half, with its witness: emptying the first dangling script on the way goes unnoticed by the entry, and changes the body |
| `AssetVersions.TidyIsSound` | lib/static-assets.js:202-228 | The other half holds with bundles recorded too |
| `AssetVersions.StalePageExists` | lib/static-assets.js:155-160 | A concrete page and script where that happens |
| `Addresses.ParseIpv4` | lib/traffic-class.js:173-185 | The loop over octets equals the functional parser, rejections included |
| `AddressSpelling.ParseV4Exact` | lib/traffic-class.js:173-185 | A text parses to n if and only if it is the dotted spelling of n |
| `AddressSpelling.SpellingParses` | lib/traffic-class.js:137-164 | Every spelling section 2.2 of RFC 4291 allows (any compressed run, leading zeros, dotted tail) parses to the groups it spells |
| `AddressSpelling.ParseExact` | lib/traffic-class.js:137-164 | and nothing else parses: a text parses to given groups if and only if it is one of their spellings |
| `AddressClass.BitAndMask` | lib/traffic-class.js:206-212 | Masking with a prefix mask is division and multiplication by a power of two |
| `AddressClass.InV4NetIsPrefix` | lib/traffic-class.js:206-212 | The mask test is the integer-division prefix test for every prefix from 0 to 32 |
| `AddressClass.PrivateV4Ranges` | lib/traffic-class.js:188-199 | The ten networks are exactly a fixed union of ranges of the 32-bit value |
| `AddressClass.PrivateWordsRange` | lib/traffic-class.js:243-251 | The group tests of the IPv6 branch are exactly a fixed union of ranges of the 128-bit value |
| `AddressClass.PrivateIsByValue` | lib/traffic-class.js:227-252 | `isPrivateIp` of a text is membership of the value it spells in the fixed ranges; what spells nothing is private |
| `AddressClass.EveryTextSpells` | lib/traffic-class.js:227-252 | Every text spells an IPv4 value, an IPv6 value or nothing, so the previous row speaks of every text |
| `AddressClass.NormalizeExact` | lib/traffic-class.js:98-110 | Normalising rewrites exactly the IPv4-mapped addresses, in every spelling, to their dotted form |
| `AddressClass.MappedExact` | lib/traffic-class.js:120-127 | The mapped form is recognised by value, in the range ::ffff:0:0/96 and nowhere else |
| `AddressClass.ClassSurvivesNormalisation` | lib/traffic-class.js:98-110 | `isPrivateIp(normalizeIp(s))` depends only on the value behind the text |
| `ClientIp.ResolveClientIp` | lib/client-ip.js:98-122 | The right-to-left walk equals the declarative resolution |
| `ClientIp.SpeaksForItselfIff` | lib/client-ip.js:98-122 | A peer speaks for itself whatever headers it sends if and only if it is no trusted proxy |
| `ClientIp.PrependingIsHarmlessIff` | lib/client-ip.js:110-119 | Behind a trusted peer without CF-Connecting-IP, no prepended text whatever changes the result, if and only if the list already holds a usable untrusted entry |
| `ClientIp.CloudflareDecidesIff` | lib/client-ip.js:105-119 | Behind a trusted peer the forwarding list has no say if and only if CF-Connecting-IP names somebody, and then that is the result for every list |
| `ClientIp.RightmostStranger` | lib/client-ip.js:110-122 | Otherwise the request is attributed to the rightmost entry that names somebody not trusted, and to the peer exactly if there is none |
| `LastOf.FrontUnreachable` | lib/client-ip.js:113-118 | What is prepended to a list is reached only if nothing behind it is usable |
| `LastOf.LastSomeIff` | lib/client-ip.js:113-118 | The walk finds the rightmost usable entry, and finds one iff there is one |
| `ConcurrencyGate.GateIsBounded` | lib/concurrency-gate.js:32-88 | Over every run: active ≤ maxActive, queue ≤ maxQueue, a non-empty queue implies active = maxActive, and running, waiting and started calls are exactly those whose fate says so |
| `ConcurrencyGate.CallsSettleOnce` | lib/concurrency-gate.js:53-82 | Each call ends in exactly one of finished, gate_full and gate_wait_timeout for good; its function starts at most once, and a settled call has started iff it finished |
| `ConcurrencyGate.FirstComeFirstStarted` | lib/concurrency-gate.js:41-45 | Of two calls that waited together, the later never starts before the earlier has started or timed out |
| `ConcurrencyGate.WaitIsBounded` | lib/concurrency-gate.js:41-45 | The waiter at position k has started after k + 1 completions, unless its timer fired |
| `ConcurrencyGate.StepKeeps` | lib/concurrency-gate.js:41-82 | Every call, completion and time-out keeps the bounds |
| `ConcurrencyGate.WithoutExact` | lib/concurrency-gate.js:72-78 | Removing a timed-out waiter removes it alone and keeps the queue duplicate-free |
| `ConcurrencyGate.Gatekeeper.constructor` | lib/concurrency-gate.js:33-36 | Defaults and clamps of the limits |
| `ConcurrencyGate.Gatekeeper.Call` | lib/concurrency-gate.js:53-82 | Start now, refuse now, or wait |
| `ConcurrencyGate.Gatekeeper.Release` | lib/concurrency-gate.js:41-45 | The freed slot goes to the waiter in front at once |
| `ConcurrencyGate.Gatekeeper.WaitExpired` | lib/concurrency-gate.js:72-78 | Cancels exactly a waiter that is still queued |
| `ConcurrencyGate.RefusedExactlyWhenFull` | lib/concurrency-gate.js:58-61 | Over every run a call is refused iff every slot is taken and the queue is full, starts at once iff a slot is free, and otherwise joins the end of the queue |
| `ConcurrencyGate.SettledByItself` | lib/concurrency-gate.js:41-79 | A call settles only by its own refusal, its own timer while it waited, or the end of its own function while it ran |
| `ConcurrencyGate.TimeOutIsFinal` | lib/concurrency-gate.js:72-78 | Over every run: a timer that fires on a waiting call takes it, alone, out of the queue for good, and its function is never started; any other timer changes nothing |
| `SlidingLog.DecisionIsIdeal` | auth.js:49-57 | With a monotone clock the decision is "fewer than max accepted calls of this key in the last windowMs", whatever sweeps ran before |
| `SlidingLog.LimiterRefinesIdeal` | auth.js:37-58 | Over every run the limiter accepts exactly the calls that an ideal limiter accepts which remembers everything and never sweeps |
| `SlidingLog.WindowHoldsAtMostMax` | auth.js:37-58 | No window of windowMs ever holds more than max acceptances of a key, and removing every sweep from a run changes no acceptance |
| `SlidingLog.BucketsHoldTheRecent` | auth.js:40-47 | From any cut-off the clock still allows, the swept and filtered buckets hold what the full log holds |
| `SlidingLog.Limiter.Allow` | server.js:111-119 | One call of the limiter |
| `SlidingLog.Limiter.SweepStale` | server.js:103-110 | The interval callback: every bucket filtered, empty ones deleted |
| `SlidingLog.SweepForgetsExactly` | server.js:103-110 | A sweep keeps exactly the recent entries of every key, and no empty bucket |
| `ByteBudget.SpanIsCapped` | lib/byte-budget.js:28-46 | Over every run, a span of one window length accepts at most twice maxBytes for a key, plus one maxBytes for every time the full table was cleared within the span |
| `ByteBudget.TwiceTheCap` | lib/byte-budget.js:28-46 | While the table is never cleared the bound is twice maxBytes and one bucket never passes maxBytes; the table never exceeds its cap in any case |
| `ByteBudget.ClearingLiftsEveryBound` | lib/byte-budget.js:35-38 | Whatever the limits: n rounds, in which one address asks for the cap and then as many others as the table holds ask for nothing, win that address n caps in one instant |
| `ByteBudget.TwiceTheCapIff` | lib/byte-budget.js:28-46 | The exact condition of the 2x bound: every run over a set of addresses keeps every key within twice maxBytes in every window length, if and only if the table holds them all (or the cap is zero) |
| `ByteBudget.RunKeeps` | lib/byte-budget.js:28-46 | Every run keeps the window invariant: charges lie in their windows, windows of a key are a window apart or parted by a clear, each bucket within the cap |
| `ByteBudget.Budget.Charge` | lib/byte-budget.js:31-45 | One charge: bucket renewal, sweep, clear, refusal |
| `ByteBudget.Budget.DropExpired` | lib/byte-budget.js:36-37 | The sweep over the table deletes exactly the expired buckets |
| `ByteBudget.AcceptsExactly` | lib/byte-budget.js:34-44 | A charge is accepted iff it fits beside what its key's current bucket has accepted, or by itself when a new bucket is opened |
| `DescendantSweep.PaintsThroughDescendants` | public/creative-probe.js:304-333 | The explicit-stack walk visits the first 64 nodes of the subtree's recursive preorder, each once, and answers true iff one of them covers |
| `DescendantSweep.LinksStayInside` | public/creative-probe.js:307-330 | First-child and next-sibling links below an element lead through its descendants in preorder and nowhere else |
| `DescendantSweep.ExactWithinBudget` | public/creative-probe.js:304-333 | For a subtree within the budget that is: iff some descendant covers |
| `DescendantSweep.QuarterDecides` | public/creative-probe.js:311-319 | A quarter of the clicked area is enough and less is not; so is an opacity of a twentieth; what paints nothing never covers |
| `DescendantSweep.OnlyTheVisiblePartCounts` | public/creative-probe.js:315-318 | Only the part of an element inside the viewport counts, and an element without one never covers |
| `DescendantSweep.LargerCoversToo` | public/creative-probe.js:315-318 | Whatever contains a covering element and is painted like it covers too |
| `RefusalLedger.ParentHearsAtMostOnce` | public/creative-probe.js:1399-1442 | Over any interleaving of violations and flushes and with any posts lost: the parent receives a duplicate-free, ordered part of at most 200 of what is due, and hears of truncation only if something was dropped |
| `RefusalLedger.ParentHearsEverything` | public/creative-probe.js:1448-1508 | Once no flush is pending and if no post was lost, the parent has exactly the first 200 distinct admissible refusals, and was told of truncation iff something was dropped for length or cap |
| `RefusalLedger.KeyTellsApart` | public/creative-probe.js:1487-1488 | The joined key tells refusals apart whenever directives hold no bar |
| `RefusalLedger.RunKeeps` | public/creative-probe.js:1399-1508 | The ledger invariant over every run |
| `RefusalLedger.Reporter.OnViolation` | public/creative-probe.js:1466-1502 | The listener, all branches |
| `RefusalLedger.Reporter.FlushRefusals` | public/creative-probe.js:1410-1431 | The flush task |
| `RefusalLedger.Reporter.ScheduleRefusalFlush` | public/creative-probe.js:1448-1459 | At most one flush pending; immediate when no task can be posted |
| `LibraryModels.Library.AssertCanAdd` | lib/library-quota.js:97-108 | Refuses exactly when the rows would pass the row cap or the characters the byte cap, rows checked first |
| `LibraryModels.Library.SampleCreate` | db.js:835-880 | Every error in the source's order, the stored row trimmed, the charge untrimmed; keeps all caps, ownership and id invariants |
| `LibraryModels.Library.SampleUpdate` | db.js:881-925 | A partial update is charged by its growth only, refused exactly when that growth does not fit, and keeps every invariant |
| `LibraryModels.Library.SampleDelete` | db.js:926-929 | Deletes exactly the named row of its owner and keeps every invariant |
| `LibraryModels.Library.CorpusCreate` | db.js:1146-1175 | Size limit, row cap and byte cap in order; notes cut before they are charged |
| `LibraryModels.Library.CorpusDestroy` | db.js:1230-1235 | Deletes exactly the named entry of its owner |
| `LibraryModels.Library.PartnerCreate` | db.js:725-750 | Name required, row cap, and as slug the first of base, base-2, base-3, … that no other partner of the account has |
| `LibraryModels.Library.PartnerUpdate` | db.js:751-769 | Keeps the slug unless another is wished for, which becomes the first free one of its base; absent fields stay |
| `LibraryModels.Library.PartnerDelete` | db.js:770-773 | The row goes and its samples are unassigned, so no sample is left naming a missing partner |
| `LibraryModels.StoredIsCharged` | db.js:787-792 | Nothing is stored that was not charged: trimming can only lose characters |
| `LibraryModels.SampleAdded` | db.js:857-879 | An insert within the caps keeps every account's counts and characters within the caps |
| `LibraryModels.SampleUpdated` | db.js:896-922 | So does an update that shrinks or whose growth fits |
| `LibraryModels.PartnerDeleted` | db.js:770-773 | Deleting a partner together with SET NULL keeps assignments inside the account |
| `LibraryModels.SlugsStayUnique` | db.js:751-769 | Updating a partner to its own or a free slug keeps the account's slugs unique |
| `LibraryTables.UpdatedRow` | lib/library-quota.js:55-61 | SUM and COUNT after an update: the owner is charged the difference, nobody else anything |
| `LibraryTables.DeletedRow` | lib/library-quota.js:44-61 | SUM and COUNT after a delete: never more, and unchanged for every other account |
| `Slugs.EnsureUniqueSlug` | db.js:382-390 | The loop ends, after at most as many tries as there are taken slugs and one, at the first free candidate |
| `Slugs.TriedCount` | db.js:382-390 | No candidate is tried twice: the pigeonhole behind that bound |
| `CorpusMatrix.ComputeCorpusMatrix` | lib/corpus-matrix.js:36-128 | Totals, and one row for exactly the patterns that fired on a counted entry, with their counts, in order |
| `CorpusMatrix.MatrixIsConservative` | lib/corpus-matrix.js:87-103 | For every pattern tp + fn is the fraud total and fp + tn the legitimate total, all are non-negative, and precision, recall and F1 lie between 0 and 1 |
| `CorpusMatrix.F1IsCountRatio` | lib/corpus-matrix.js:97-102 | F1 is present exactly if tp > 0, and then is 2tp / (2tp + fp + fn) |
| `CorpusMatrix.MatrixIgnoresOrder` | lib/corpus-matrix.js:106-118 | The same entries listed in any order give the same matrix, row for row |
| `CorpusMatrix.OneOrder` | lib/corpus-matrix.js:106-118 | The comparator admits one order: two ordered lists of the same patterns are equal |
| `CorpusMatrix.OrderIsTotal` | lib/corpus-matrix.js:106-118 | Of two patterns with different ids exactly one comes first |
| `CorpusMatrix.OrderIsTransitive` | lib/corpus-matrix.js:106-118 | The comparator is transitive across its null, F1, tp and id cases |
| `CorpusMatrix.CountHits` | lib/corpus-matrix.js:88-94 | The counting loop computes the sizes of both intersections |
| `LocaleRoutes.RedirectsTerminate` | server.js:484-514 | From any url and under any language cookie, following redirects ends after at most three hops; every hop is a same-origin relative path and carries the original query unchanged |
| `LocaleRoutes.AnyPathIsNear` | lib/locale-routes.js:146-273 | From any path the cookie table and the route table together reach a non-redirect within three steps |
| `LocaleRoutes.CanonicalIsNear` | lib/locale-routes.js:158-273 | From a canonical path, within two |
| `LocaleRoutes.ThreeHopsHappen` | lib/locale-routes.js:250-252 | Three hops are needed: an old link with a trailing slash, with the cookie set |
| `LocaleRoutes.CanonicalIsSettled` | lib/locale-routes.js:126-129 | Canonicalising is idempotent, and only the root becomes the root |
| `LocaleRoutes.ResolvedTarget` | lib/locale-routes.js:131-137 | Every redirect is the canonical form of the path or one of a fixed set of pages, on this origin, printable and unescaped |
| `LocaleRoutes.UrlHop` | server.js:422-427 | One hop: the next url has the target as its path and the first url's query |
| `LocaleRoutes.EscapesAreRefused` | lib/locale-routes.js:77-107 | The bounded decoding guards turn away exactly the paths that hold an escape, valid or not |
| `LocaleRoutes.FullyDecodePath` | lib/locale-routes.js:77-91 | The bounded loop equals three rounds of decoding |
| `LocaleRoutes.StripTrailingSlashes` | lib/locale-routes.js:119-123 | The index loop equals stripping slash by slash |
| `LocaleRoutes.SectionsAreServed` | lib/locale-routes.js:180-240 | Every section is served by its locale's shell, and the old /en prefix redirects to it |
| `SessionAnswers.PromptLoginResolves` | auth.js:409-436 | A login with the right password, minted at once, is believed at once, as that user |
| `SessionAnswers.LogoutAnswersTruthfully` | auth.js:298-326 | A logout always leaves the hot map, and is acknowledged only if no later process can hydrate the session: its row is gone, or both files a reader may find journal it |
| `SessionAnswers.InvalidationAnswersTruthfully` | auth.js:475-501 | The same for all sessions of a user, with the number that were live |
| `SessionAnswers.FailedRevocationBarsCertificate` | lib/session-recovery.js:197-246 | Once a revocation could not be recorded, closing certifies nothing, even after later revocations succeeded |
| `SessionAnswers.DrainTakesNobody` | auth.js:548-550 | Over every run: from `beginShutdown` on a process takes in no login, proof, session or row |
| `SessionAnswers.UnreadableHashIsRefused` | auth.js:92-121 | Neither a proof nor a session is given to a user whose hash cannot be read back |
| `SessionAnswers.SweepIsInvisible` | auth.js:165-182 | The sweep changes the answer to no cookie and leaves nothing expired in the hot map or, if the prune succeeds, in the rows |
| `AssetPaths.UpsThenNames` | lib/static-assets.js:71-73 | k times `..` and then plain names leads to these names below the k-th ancestor, the root being its own parent |
| `AssetPaths.DotsCancel` | lib/static-assets.js:71-73 | A single dot changes nothing and a name followed by two dots cancels, wherever they stand in a specifier |
| `AssetPaths.CanonicalExact` | lib/static-assets.js:71-73 | A relative specifier is read from the directory of its file, an absolute one from the root whatever its file |
| `AssetPaths.ReferenceIsLinked` | lib/static-assets.js:150-200 | In a rendered file each reference of a kind that file type has is a link to exactly the file it names, with the version that file has by itself, if that file renders; and stands as written if there is no such file |
| `AssetPaths.ExistingFileIsLinked` | lib/static-assets.js:150-161 | Where no script it reaches dangles, every reference to an existing file is so linked |
| `AssetPaths.NothingElseIsRewritten` | lib/static-assets.js:164-199 | All other text stands as written, except that a placeholder in a script becomes the version of its own module |
| `CachePolicy.VersionDecides` | lib/static-assets.js:230-253 | A request naming exactly the current version of a file that may be immutable gets its page so marked, one without versions gets it to be revalidated, every other list of versions is a conflict |
| `CachePolicy.FailureIsAnError` | server.js:562-580 | A page is served only if its file renders, with that body; otherwise the answer is an error exactly where the versions would have admitted the page |
| `TrustedProxies.TrustedV4Exact` | lib/client-ip.js:67-80 | An IPv4 peer is trusted if and only if its address is in 127.0.0.0/8, in a configured network, or listed |
| `TrustedProxies.TrustedV6Exact` | lib/client-ip.js:67-80 | An IPv6 peer is trusted if and only if its text is `::1` or listed |
| `AddressForms.DressedAlike` | lib/traffic-class.js:98-110 | However an address is written (any case, padded, in brackets with a port, with a zone), it is normalised to one text: its spelling, or the dotted form of a mapped one |
| `AddressForms.NobodyIsEmpty` | lib/traffic-class.js:99-101 | Blanks and `unknown` in any case name nobody |
| `LibraryFields.NewSampleFields` | db.js:857-879 | Each field of a new sample holds what was given for it, trimmed where the source trims |
| `LibraryFields.EditedSampleFields` | db.js:905-922 | A partial update changes the given fields, each in its own place, and leaves every absent one |
| `LibraryFields.LaterEditWins` | db.js:905-922 | Two updates in a row are one, in which the later value of each field wins |
| `LibraryFields.ReadAfterInsert` | db.js:820-832 | An inserted row is read back by its owner and nobody else; no other read changes |
| `LibraryFields.ReadAfterUpdate` | db.js:905-924 | So is an updated one |
| `LibraryFields.ReadAfterDelete` | db.js:926-929 | A deleted one is not read any more; no other read changes |
| `MatrixMeaning.RatiosMean` | lib/corpus-matrix.js:87-98 | Precision is the share of frauds among the entries fired on, recall the share of entries fired on among the frauds, each present exactly if there are any; fp, fn and tn are the other three corners |
| `MatrixMeaning.BestFirst` | lib/corpus-matrix.js:106-118 | A reader finds the best pattern first: by F1, those without one last, then by true positives, then alphabetically |
| `MatrixMeaning.RowsExactly` | lib/corpus-matrix.js:64-84 | There is a row for exactly the named patterns found in some entry labelled fraud or legitimate whose findings could be read |
| `RefusalMeaning.ReceivedHasEvidence` | public/creative-probe.js:1466-1499 | Every item the parent receives comes from a browser-originated event that names that directive, the effective one where it is known, and that uri |
| `RefusalMeaning.EvidenceIsDue` | public/creative-probe.js:1472-1499 | and every such event that can be described is among what is due, by its joined key |
| `RefusalMeaning.SpellingsAreOneRefusal` | public/creative-probe.js:1469-1474 | Over every run: where the effective directive is known, what engines write into violatedDirective changes nothing |
| `RefusalMeaning.ForgedEventsAreIgnored` | public/creative-probe.js:1465-1468 | Over every run: events a creative dispatches itself leave no trace |
| `RefusalMeaning.NoMessageStorm` | public/creative-probe.js:1393-1398 | Over every run whose flush tasks were posted: the parent gets at most two hundred and one messages, whatever the creative provokes |
| `LocaleLanguage.AnswerSpeaks` | lib/locale-routes.js:146-273 | Every page served for a path, and every redirect of it, is of the language of the path: files of that locale, targets below that prefix |
| `LocaleLanguage.LanguageNeverDrifts` | server.js:484-514 | Along every chain of redirects the language stays what it was; only an English path may change it, to the language of the cookie |
| `LocaleLanguage.FrontDoorEnds` | server.js:484-500 | A reader who chose a language and opens a front door ends at that page in that language, and at its inspector from the root |
| `LocaleLanguage.ChainEnds` | server.js:484-514 | Any chain of urls followed to its last redirect ends where the previous rows and the next ones say |
| `ServedPages.ServedExactly` | lib/locale-routes.js:180-273 | The whole site: a path is answered with a file if and only if it is, as it stands, the path of a page (section, post, findings, specimen, landing, about, account, admin) in some language, and with the file of that page in that language |
| `RetiredNames.MovedExactly` | lib/locale-routes.js:173-261 | The canonical paths that are redirected are exactly the root, the locale roots, the eleven old names and the old English sections |
| `RetiredNames.OldNameEnds` | lib/locale-routes.js:173-261 | An old link ends, under any cookie, at the page it was renamed to in the language chosen |
| `RetiredNames.OldEnglishSectionEnds` | lib/locale-routes.js:233-240 | The old /en prefix falls away, and the section opens in the language chosen |
| `RetiredNames.IncompleteBlogEnds` | lib/locale-routes.js:139-144 | A blog address without a post ends at the blog, in its own language or the one chosen |
| `RetiredNames.RootEndsInEnglish` | lib/locale-routes.js:173-175 | Without a cookie the root ends at the English inspector |
| `RetiredNames.OnlyTheRootIsTemporary` | lib/locale-routes.js:167-182 | Only the redirect of the root is temporary (302); all others are permanent (301) |

## Left out

- `SessionModel`: HMAC lookups and random keys and cookies are names: injective, and fresh when drawn. One process lives at a time (the exclusive lock itself is not modelled). IP and user-agent attributes of sessions carry no logic and are absent.
- `SessionModel.Revoke`: the several clock readings inside one `revoke` are taken as one, and the sort of the journal by id is not modelled; nothing reads the order.
- `SessionModel.Decode`: a one-element array standing where a string is expected, which the source's regular expressions would coerce, is rejected.
- Auth without a recovery owner (the legacy branch), the limiters inside `login` and `register` (modelled by themselves in `SlidingLog`), e-mail and password validation, bcrypt, cookies and headers.
- `SessionTheorems.RevocationIsPermanent`: speaks of sessions live in the hot map when they are revoked; an identity the process does not know is not journaled by the source either.
- `StaticAssetsRenderer.StaticAssets.Asset`: asks that no script the request reaches by references holds a placeholder of a missing module. By `AssetVersions.EntrySoundIff` that is exactly when an entry that records no bundle is sound; where bundles are recorded it is sufficient only, because a swallowed failure can by accident be covered by the fingerprints of a bundle.
- The regular expressions and the comment mask of the renderer: files are taken as already split into text, references and placeholders, in one order. Files do not change during one call. Symbolic links are absent.
- `AssetPaths.CanonicalExact`: a specifier is a list of segments; percent-encoded dots, backslashes, fragments and empty segments, which URL parsing treats specially, are not modelled.
- `AssetVersions.BundleVersionNamesOneBody`: bundles without placeholders only; the `m2-` tokens of others do not cover the modules their placeholders name.
- `Addresses.NormalizeIp`: trimming and lower-casing are those of ASCII text.
- `ClientIp.Resolve`: takes parsed rules; the text of the allow-list is not parsed, and IPv6 rules compare spellings, as in the source. Traffic classification beyond the address class is left out.
- `ConcurrencyGate.Gatekeeper.Call`: promises and timers are events; the microtask between start and the call of the function is not modelled, and limits are whole numbers.
- `ByteBudget.Budget.Charge`: the table limit is a parameter (10,000 in the source) and windows are at least one millisecond. `declaredBodyCost` is a clamp and is left out.
- `DescendantSweep.PaintsThroughDescendants`: what an element paints is given; colours, borders and text nodes are not modelled. Areas are real numbers.
- `RefusalLedger.Reporter.OnViolation`: the channel is taken as ready; a post that throws is modelled as lost.
- The click-burst window, the long-task ring and the rest of the probe.
- `LibraryModels.Library.SampleCreate`: limits are fixed and one length measure is used (the source counts UTF-16 units when it charges and code points when it sums). Row ids are given by the database; IVs, status and the corpus entry's link to a sample carry no quota and are absent, as are the argument checks of `BehaviorCorpus.create` before its size check. Dialects and mappings use the same check and are left out.
- `LibraryModels.Library.PartnerCreate`: the base slug is given; `slugify` is not modelled.
- `CorpusMatrix.ComputeCorpusMatrix`: ratios are real numbers, so equal F1 values that differ in their last floating-point digit are not told apart. The listing limit of 500 and the analysis of events are inputs; the built-in sort is an insertion sort, which `OneOrder` shows to be immaterial.
- `LocaleRoutes.RedirectsTerminate`: lower-casing is that of ASCII, which all page paths are; the decoder is any function that leaves escape-free texts alone and shrinks others. Requests other parts of the server answer before the redirects (sitemap, favicon, API) are not redirects and are absent. Parsing the cookie header is left out.
- Everything else of the server: HTTP, mail, crawling, moderation, telemetry, landings and their copy, language morphing, and the OpenRTB validator, which is not part of this model.
