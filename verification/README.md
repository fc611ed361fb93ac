# Aries Mesh: verified core

A Dafny model of the algorithmic core of Aries Mesh, with proofs of what each part promises. `dafny verify dfyconfig.toml`
checks the whole project.

- Secret sharing (`bits.dfy`, `gf256.dfy`, `field.dfy`, `interpolation.dfy`, `shamir.dfy`): the table-driven field GF(2^8)
  of FIPS 197 section 4.2 against carry-less polynomial multiplication, Lagrange interpolation, and splitting and
  reconstructing a secret.
- Replicated store (`entry.dfy`, `append_log.dfy`, `store.dfy`, `exchange.dfy`, `sync.dfy`, `sync_logs.dfy`): registers
  decided by Lamport time and DID, deduplicated append logs, the three-message exchange, and runs of any number of devices
  over a network that loses, repeats and reorders messages, with crashes and reloads. `sync_exchange.dfy` and
  `log_exchange.dfy` say what an exchange achieves in the middle of other steps, and for logs.
- Delegation (`capability.dfy`, `ucan.dfy`): the attenuation order on capabilities and the recursive validation of proof
  chains.
- Identifiers (`base58.dfy`, `did.dfy`): Base58 (draft-msporny-base58-03, sections 3 and 4) and did:key for Ed25519.
- Inference catalogue (`tables.dfy`, `scoring.dfy`, `catalogue.dfy`, `registry.dfy`): the cached list of configurations
  against its recomputation, and the choice of the best.
- Scheduler (`scoring.dfy`, `scheduler.dfy`), receipts (`receipt.dfy`) and connection identity (`pinning.dfy`).

Objects that the program updates in place (stores, logs, registries, chains, receipts, the scheduler, the field tables, the
transport's tables) are classes; each method is proved against a function of the old state, and the theorems are about those
functions. Systems of several devices or coroutines are state machines over runs. `wrappers.dfy` holds Option and Result.

Some promises do not hold of the code on all inputs; each has a failing case and the exact condition under which it holds:
transitivity of attenuation (`Capabilities.TransitiveExactly`, `Ucan.HoldsExactly`), convergence of logs by exchange
(`LogExchange.ExchangeJoinsLogsExactly`), local before cloud on different devices (`Scheduling.LocalWinsExactly`), and one
identity per connection when PeerInfo objects are shared (`Pinning.ExclusiveExactly`).

Where the code departs from its documentation the model follows the code: the attenuation rules include patterns ending in
`/*` and trailing slashes, which the engineering specification does not mention, and as they stand they are not transitive
(`Capabilities.NotTransitive`, `Capabilities.TransitiveExactly`).

## Model

| member | source | states |
|---|---|---|
| Gf256.RemainderUnique | src/aries/identity/keys.py:96-110 | A carry-less product has one remainder on division by 0x11B, so multiplication in the field of FIPS 197 section 4.2 is well defined |
| Gf256.NoShortPeriod | src/aries/identity/keys.py:96-110 | 0x03 is primitive: no positive power below the 255th is 1, so the table loop meets 255 different values |
| Gf256Field.ExpSurjective | src/aries/identity/keys.py:103-110 | Every non-zero byte is a power of 0x03 below the 255th, so every entry of the log table is written |
| Gf256Field.LogOfExp | src/aries/identity/keys.py:103-105 | The logarithm of a power is its exponent modulo the period: the two tables are mutually inverse |
| Gf256Field.Period | src/aries/identity/keys.py:111-113 | Powers repeat with period 255, which is what copying the second half of the table relies on |
| Gf256Field.TimesIsProduct | src/aries/identity/keys.py:119-122 | A byte is the product through logarithms if and only if it is the remainder of the carry-less polynomial product modulo 0x11B |
| Gf256Field.TimesAssoc | src/aries/identity/keys.py:119-122 | Multiplication is associative |
| Gf256Field.TimesComm | src/aries/identity/keys.py:119-122 | Multiplication is commutative |
| Gf256Field.TimesOne | src/aries/identity/keys.py:119-122 | 1 is neutral |
| Gf256Field.TimesAdd | src/aries/identity/keys.py:119-122 | Multiplication distributes over XOR |
| Gf256Field.TimesInverse | src/aries/identity/keys.py:125-128 | a times its inverse is 1 for every non-zero a |
| Shamir.Tables.constructor | src/aries/identity/keys.py:92-116 | After initialisation EXP holds the powers of 0x03 at 0..511 and LOG the logarithms at 1..255 |
| Shamir.Tables.FillPowers | src/aries/identity/keys.py:102-110 | The first loop fills one period of powers and all logarithms by repeated tripling |
| Shamir.Tables.Extend | src/aries/identity/keys.py:111-113 | The second loop extends the powers to a second period |
| Shamir.Tables.Mul | src/aries/identity/keys.py:119-122 | The table lookup stays in bounds and is the field product |
| Shamir.Tables.Inv | src/aries/identity/keys.py:125-128 | The table lookup stays in bounds and is the field inverse; 0 raises ZeroDivisionError |
| Interpolation.EvalQuotient | src/aries/identity/keys.py:157-187 | Polynomial division by a linear factor: value at x is the value at a plus (x - a) times the value of the quotient |
| Interpolation.InterpolantThrough | src/aries/identity/keys.py:157-187 | For distinct nodes there is a polynomial with as many coefficients as nodes through any values |
| Interpolation.InterpolantUnique | src/aries/identity/keys.py:157-187 | and it is determined by those values |
| Interpolation.BasisSumIsOne | src/aries/identity/keys.py:175-184 | The basis polynomials of distinct nodes sum to 1 at every point |
| Interpolation.LagrangeExact | src/aries/identity/keys.py:170-187 | Lagrange interpolation over n distinct nodes reproduces, at every point, each polynomial with at most n coefficients |
| Shamir.Tables.EvalAt | src/aries/identity/keys.py:148-151 | The Horner loop evaluates the polynomial |
| Shamir.Tables.ShamirSplit | src/aries/identity/keys.py:131-154 | Succeeds exactly for 2 <= k <= n <= 255, with the documented error otherwise, and returns the shares of the polynomials of the secret |
| Shamir.Tables.AppendByte | src/aries/identity/keys.py:143-152 | One turn of the outer loop adds the next polynomial value to every share |
| Shamir.Tables.ShamirReconstruct | src/aries/identity/keys.py:157-187 | Succeeds exactly on at least two non-empty shares of one length with distinct x; each error has its exact condition; each byte is the interpolation at 0 |
| Shamir.Tables.RecoverByte | src/aries/identity/keys.py:171-186 | The two inner loops compute the interpolation formula at 0 |
| Shamir.Tables.RecoverBasis | src/aries/identity/keys.py:175-184 | The innermost loop computes a basis polynomial at 0 and never inverts 0 |
| Shamir.DistinctBySize | src/aries/identity/keys.py:161-162 | Comparing the size of the set of x-coordinates with the number of shares detects exactly the duplicates |
| Shamir.ReconstructSplit | src/aries/identity/keys.py:131-187 | For every secret, threshold, share count and choice of random coefficients, any list of at least k different shares in any order is accepted and gives back every byte of the secret |
| Shamir.OneByteExplained | src/aries/identity/keys.py:143-152 | For any candidate byte and any values at k-1 distinct non-zero points there is exactly one vector of random coefficients that produces them |
| Shamir.FewSharesFixNothing | src/aries/identity/keys.py:131-154 | Fewer than k shares fix nothing: for any k-1 shares and any candidate secret of the same length exactly one choice of all random coefficients explains the shares |
| Entries.SupersedesTransitive | src/aries/memory/store.py:114-117 | supersedes is transitive |
| Entries.SupersedesExactly | src/aries/memory/store.py:114-117 | The later timestamp wins, and at equal timestamps the DID that comes last by its first differing code point or as the longer one |
| Entries.SupersedesTotal | src/aries/memory/store.py:114-117 | supersedes is irreflexive, asymmetric, and decides between any two entries whose stamps differ |
| AppendLogs.StableSortCorrect | src/aries/memory/store.py:173 | The sort gives a permutation sorted by _ts |
| AppendLogs.StableSortStable | src/aries/memory/store.py:173 | Records with equal _ts keep their order |
| AppendLogs.SortedDetermined | src/aries/memory/store.py:173 | A sorted list is determined by its sublists of equal _ts |
| AppendLogs.AppendLog.Append | src/aries/memory/store.py:156-163 | Appends one record numbered by the length of the log |
| AppendLogs.AppendLog.Merge | src/aries/memory/store.py:165-173 | The loop adds the records of unseen identity, each identity once, and sorts |
| AppendLogs.AppendLog.Since | src/aries/memory/store.py:175-178 | A negative index gives the whole list, an index beyond the end nothing |
| AppendLogs.MergeIsUnion | src/aries/memory/store.py:165-173 | Merging loses nothing local and invents nothing; over coherent identities it is exactly set union |
| AppendLogs.MergeKeepsIdentities | src/aries/memory/store.py:165-173 | The result is sorted, has every identity of both logs, and no identity twice if the local log had none twice |
| AppendLogs.MergeLaws | src/aries/memory/store.py:165-173 | Over coherent logs merging is idempotent, commutative and associative on contents |
| AppendLogs.SameUnionSameMerge | src/aries/memory/store.py:165-173 | With distinct _ts the merged list depends only on the union of the records |
| AppendLogs.MergeOrderIrrelevant | src/aries/memory/store.py:165-173 | With distinct _ts merging in any order gives the very same list |
| Store.NormalizeIdempotent | src/aries/memory/store.py:56-64 | Normalizing a key twice changes nothing, and exactly the keys of a known namespace become canonical |
| Store.NormalizeKeepsMeaning | src/aries/memory/store.py:56-83 | Normalizing keeps namespace and path, and two keys that mean the same become the same key |
| Store.CanonicalKeyRead | src/aries/memory/store.py:51-83 | Parsing a key built from a namespace and a path gives them back |
| Store.PermissionIsGrant | src/aries/memory/store.py:425-468 | A token permits a write exactly when its capabilities, in canonical form, grant the write ability on the key; a token absorbed by another permits no more |
| Store.MemoryStore.CheckWritePermission | src/aries/memory/store.py:440-452 | The loop finds a capability that covers the key if there is one |
| Store.MemoryStore.CheckToken | src/aries/memory/store.py:260-261 | No token needs no permission, an unreadable one gives none |
| Store.MemoryStore.Set | src/aries/memory/store.py:251-272 | The new memory and file contents and the returned entry or error, in every branch: unknown namespace, not permitted, refused, installed |
| Store.MemoryStore.GetEntry | src/aries/memory/store.py:231-249 | Returns the register unless it has outlived its TTL, and then drops it from memory |
| Store.MemoryStore.LogAppend | src/aries/memory/store.py:293-307 | Appends to the log of the normalized key and saves; unknown namespaces and missing permission raise and change nothing |
| Store.MemoryStore.MergeEntry | src/aries/memory/store.py:321-330 | Moves the clock one past both stamps and accepts exactly the first entry of a key, a later timestamp, or at an equal one a DID that comes later; registers and file follow |
| Store.MemoryStore.MergeRemoteLog | src/aries/memory/store.py:332-338 | Merges into the log of the normalized key and saves |
| Store.MemoryStore.GetSyncState | src/aries/memory/store.py:342-351 | Tells stamp, hash and device of each unexpired register, log lengths and the clock |
| Store.DiffExactly | src/aries/memory/store.py:353-379 | A diff carries exactly the registers that have not outlived their TTL and are absent, older, or of equal time and other hash on the remote side, and exactly the tails of the longer logs |
| Store.MemoryStore.ComputeDiff | src/aries/memory/store.py:353-379 | The loops compute such a diff; it carries no entry past its TTL |
| Store.MemoryStore.Apply | src/aries/memory/store.py:381-385 | Merges all registers and then all logs of a diff, in dictionary order |
| Store.MemoryStore.constructor | src/aries/memory/store.py:192-202 | A restarted store holds what its file held |
| Store.SetInstalls | src/aries/memory/store.py:251-272 | While the clock is not behind the registers the refuse branch of set is unreachable: the entry is installed with a stamp above all stored ones |
| Exchange.MemorySyncService.SyncWithPeer | src/aries/memory/sync.py:56-65 | The request carries the sync state of the store |
| Exchange.MemorySyncService.Handle | src/aries/memory/sync.py:105-139 | Request, response and update change the store and are answered as the handlers do; an update follows a response only when there is something to send |
| Exchange.ApplyDiffAt | src/aries/memory/store.py:381-385 | What applying a diff does at each key does not depend on the order of the dictionary |
| Exchange.ExchangeJoins | src/aries/memory/sync.py:105-139 | After request, response and update without expiry both stores have a register for every key of either; they agree on time and content hash of the last-writer-wins winner, except at exactly those keys where two writes of one stamp differ |
| Exchange.NoLogsSentExactly | src/aries/memory/store.py:372-377 | A diff carries no record if and only if no log of the sender is longer than the receiver reported, whatever the records are |
| LogExchange.TakenExactly | src/aries/memory/store.py:165-173 | Merging a count-based diff brings exactly the tail of the other log, and all of it is then there if and only if the part below the shorter length was |
| LogExchange.BothTakenExactly | src/aries/memory/store.py:372-385 | After a diff each way two logs hold the same records, their union, if and only if they had the same records below the shorter length |
| LogExchange.ApplyLogsAt | src/aries/memory/store.py:381-385 | What applying a diff does to each log does not depend on the order of the dictionary |
| LogExchange.ExchangeTakes | src/aries/memory/sync.py:105-139 | After request, response and update each log is the one merged with the tail of the other |
| LogExchange.ExchangeJoinsLogsExactly | src/aries/memory/sync.py:105-139 | In every run an exchange leaves two devices with the same records under a key, the union, if and only if they had the same records below the shorter length |
| LogExchange.LogsFailToMeet | src/aries/memory/sync.py:105-139 | A run in which two devices append one record each under one key, complete an exchange, and still hold different logs |
| SyncExchange.ReceivedStays | src/aries/memory/store.py:321-330 | What a device once received under a key without TTL stays, or is superseded, for the rest of the run |
| SyncExchange.InterleavedExchange | src/aries/memory/sync.py:105-139 | With any steps between request, response and update, from then on the register of the requester is no older than that of the responder when it answered, and that of the responder no older than that of the requester after the response |
| Sync.NextPreserves | src/aries/memory/sync.py:105-139 | Each step of the replicated system (set, append, read, send, deliver in any order and any number of times, crash and reload) keeps the register invariant |
| Sync.RunInv | src/aries/memory/store.py:206-211 | The register invariant holds in every reachable state: clocks are never behind registers or own writes, each register is the last writer of what was received |
| Sync.RegisterIsLastWriter | src/aries/memory/store.py:321-330 | In every run each register has the greatest timestamp, and among those the last DID, of all entries set at or merged into it since it last expired, and of all it ever received if no write under its key has a TTL |
| Sync.SameWritesSameRegister | src/aries/memory/store.py:321-330 | Replicas that ever received the same entries for a key without TTL, or the same since the last expiry, hold the same register |
| Sync.MemoryKeysLast | src/aries/memory/store.py:86-90 | A key of the memory namespace that is only ever set with the default TTL has no write with a TTL |
| Sync.MemoryKeysConverge | src/aries/memory/store.py:86-90 | So under such keys replicas that ever received the same entries hold the same register, their maximum, whatever expires under other keys |
| Sync.IssuedBySet | src/aries/memory/store.py:251-272 | Every stored or travelling entry was made by a set of its value on the device it names, under its key |
| Sync.StampsAlwaysFresh | src/aries/memory/store.py:264-272 | In every run, crashes included, set installs its entry, with a stamp above everything its device has set or merged and a (timestamp, DID) pair never used before |
| Sync.ExchangeAgreesInRuns | src/aries/memory/sync.py:105-139 | In every run, devices that complete an exchange while nothing expires hold equal values and times at every key, those of the last writer, if the hash is injective |
| SyncLogs.LogNextPreserves | src/aries/memory/store.py:293-307 | Each step keeps the log invariant: a device never numbers a record at or above the length of its log, so identities stay unique |
| SyncLogs.RunLogs | src/aries/memory/store.py:293-307 | In every run (device, _seq) names at most one record per key, among all logs, files and messages |
| SyncLogs.MergeInRunsIsUnion | src/aries/memory/store.py:332-338 | In every run merging any travelling log into any local one is exactly set union, sorted and without repeats |
| SyncLogs.LogsCoherentInRuns | src/aries/memory/store.py:332-338 | In every run the logs of any three devices for a key meet the conditions of the merge laws |
| Capabilities.AttenuationReflexive | src/aries/identity/ucan.py:43-62 | Every capability is attenuated by itself |
| Capabilities.AttenuatedExactly | src/aries/identity/ucan.py:43-62 | Attenuation spelled out on strings: equal abilities and the star, equality, the base of a pattern, or anything below the base of a pattern or of a resource without its trailing slashes |
| Capabilities.CoversByBase | src/aries/identity/ucan.py:53-62 | The resource rules cover exactly one resource and everything below one path |
| Capabilities.NarrowsExactly | src/aries/identity/ucan.py:53-62 | Two checks on two strings hold if and only if one resource grants nothing that the other does not grant |
| Capabilities.TransitiveExactly | src/aries/identity/ucan.py:43-62 | Attenuation composes through a middle capability if and only if its resource passes those checks against the wide one |
| Capabilities.NotTransitive | src/aries/identity/ucan.py:43-62 | It does not compose always: x/y, x/*, x/*/* and x, x/*, x/ and x, *, */* are chains that break |
| Capabilities.CoveredNarrows | src/aries/identity/ucan.py:53-62 | Between well-formed resources (no trailing slash, no pattern below a pattern) covering is narrowing |
| Capabilities.AttenuationTransitive | src/aries/identity/ucan.py:43-62 | Attenuation is transitive when the middle and the wide resource are well-formed, whatever the narrow one |
| Ucan.FirstUncovered | src/aries/identity/ucan.py:273-277 | Finds a capability no parent covers if and only if there is one |
| Ucan.AcceptedExactly | src/aries/identity/ucan.py:228-280 | A chain is accepted if and only if its head holds the required capability and every path of proofs has at most 17 tokens, each readable, signed by the key of its issuer, active, unrevoked, linked from audience to issuer, attenuated, and ending at the expected root |
| Ucan.AcceptedIsSigned | src/aries/identity/ucan.py:179-188 | Every token on every path of an accepted chain reads, names an issuer whose key reads, and carries a signature of that key |
| Ucan.AcceptedPath | src/aries/identity/ucan.py:264-280 | Every token on every path of an accepted chain is sound, at any depth |
| Ucan.RejectionExplained | src/aries/identity/ucan.py:236-278 | Every rejection names a real defect of the last token of some path, or its depth |
| Capabilities.AbsorbsExactly | src/aries/identity/ucan.py:43-62 | Finitely many checks on strings decide whether capabilities together grant all that others grant: they hold if and only if they do |
| Capabilities.WellFormedAbsorbs | src/aries/identity/ucan.py:43-62 | Well-formed capabilities absorb every well-formed one that one of them covers |
| Ucan.HoldsExactly | src/aries/identity/ucan.py:273-277 | A token holds all that another one holds if and only if its capabilities absorb those of the other, in particular for a proof or the end of a proof path |
| Ucan.RequiredIsHeld | src/aries/identity/ucan.py:250-280 | The required capability is covered by a capability of every token on every path whose steps absorb each other, as those of well-formed tokens do, and a path that ends has reached the expected root |
| Ucan.RootNeedNotGrant | src/aries/identity/ucan.py:264-280 | A condition is needed: an accepted chain x/y, x/*, x/*/* whose root does not grant x/y |
| Ucan.StaysAccepted | src/aries/identity/ucan.py:110-116 | Acceptance is monotone in stored tokens, antitone in revocations and convex in time |
| Ucan.RevocationExactly | src/aries/identity/ucan.py:245-248 | One more revocation rejects an accepted chain if and only if it names the issuer or audience of a token on some path |
| Ucan.StoringExtends | src/aries/identity/ucan.py:199-203 | With ids that do not collide no sequence of stores replaces a token, and every readable one stored is found under its id |
| Ucan.StoringKeepsAccepted | src/aries/identity/ucan.py:199-203 | so an accepted chain stays accepted, whatever is stored |
| Ucan.UCANStore.Store | src/aries/identity/ucan.py:199-203 | Stores a readable token under its content id and keeps the table content-addressed; an unreadable one raises |
| Ucan.UCANStore.Get | src/aries/identity/ucan.py:205-206 | Finds exactly the stored ids, and the token found has that id |
| Ucan.UCANStore.ValidateChain | src/aries/identity/ucan.py:214-226 | Accepts exactly the chains described for the recursive validation |
| Ucan.BuiltChainAccepted | src/aries/identity/ucan.py:287-336 | An agent token issued by a member device is accepted if and only if it lists the required capability, uses household abilities only, both tokens are active, and none of the three identities is revoked |
| Numerals.ValueOfNumeral | src/aries/identity/did.py:18-22 | Repeated division gives the numeral of a number: reading it back gives the number, and it has no leading zero |
| Numerals.NumeralOfValue | src/aries/identity/did.py:36-40 | A numeral without leading zero is the numeral of its value |
| Numerals.TranscodeInverse | src/aries/identity/did.py:17-50 | Rewriting a numeral in another base with its leading zeros kept, and back, restores it |
| Numerals.ShortestBytes | src/aries/identity/did.py:49 | The byte count computed from bit_length is that of the shortest big-endian form |
| Numerals.LeadingDigits | src/aries/identity/did.py:19-22 | Numbers in one block of a power of the base share their leading digits and their length |
| Base58.FindLetter | src/aries/identity/did.py:14 | The 58 letters are different: each is found at its own index |
| Base58.B58Encode | src/aries/identity/did.py:17-30 | The loops compute the base-58 numeral with one 1 per leading zero byte |
| Base58.B58Decode | src/aries/identity/did.py:33-50 | The loops compute the bytes with one zero per leading 1, or the error of the first letter outside the alphabet |
| Base58.DecodeEncode | src/aries/identity/did.py:17-50 | Decoding inverts encoding for every byte string |
| Base58.EncodeDecode | src/aries/identity/did.py:33-50 | Decoding succeeds exactly on strings over the alphabet, and encoding inverts it there |
| Base58.FirstForeignReported | src/aries/identity/did.py:37-40 | The error names the first letter outside the alphabet |
| Did.KeyRoundTrip | src/aries/identity/did.py:53-71 | A key has an identifier exactly when it is 32 bytes long, and comes back from it |
| Did.DidRoundTrip | src/aries/identity/did.py:60-71 | Every accepted identifier is the identifier of the 32-byte key it yields |
| Did.DidShape | src/aries/identity/did.py:53-57 | Every identifier is did:key:z and 47 characters, beginning 6Mk |
| Catalogue.ChoicesExactly | src/aries/inference/registry.py:251-278 | The loops list exactly the feasible local and distributed placements of the given models, none twice |
| Catalogue.FeasibleExactly | src/aries/inference/registry.py:375-378 | A placement is feasible when the free video memory of a device with a graphics card that has some, and else the free main memory, of the host alone or of both devices together, holds the model |
| Registry.CatalogueExactly | src/aries/inference/registry.py:251-278 | A current catalogue has exactly one local configuration per registered model that its host holds in video or else main memory, and one distributed per model, host and other device whose memory suffices together |
| Catalogue.AllocationsFit | src/aries/inference/registry.py:321-355 | The tensor split sums to 1 and the allocations to the model size; they fit both memories if and only if neither memory is negative or the model fills both |
| Catalogue.AllModelsOk | src/aries/inference/registry.py:197-202 | No model is listed twice, and the models listed are those of the entries, each under a registered name |
| Tables.GetPut | src/aries/inference/registry.py:180-181 | Setting a key sets that key and no other |
| Tables.GetDrop | src/aries/inference/registry.py:186-187 | Removing a key removes that key and no other |
| Catalogue.RegisteredAllModels | src/aries/inference/registry.py:180-184 | A report registers all its models in place of those of the same names and devices only |
| Catalogue.PurgedModels | src/aries/inference/registry.py:186-192 | Removing a device takes out its models and no others |
| Catalogue.UpdateThenRemove | src/aries/inference/registry.py:180-192 | Updating a device that reports its own models and removing it equals removing it; for a new device both tables are restored, order included |
| Registry.CatalogueRestored | src/aries/inference/registry.py:180-192 | and so is the catalogue itself, even if the update raised; the removal does not raise |
| Catalogue.DistributedTokens | src/aries/inference/registry.py:332-336 | A worker adds less than one token per second to the estimate of the host alone |
| Catalogue.LocalBeatsDistributed | src/aries/inference/registry.py:221-239 | Where a model fits its host, running it there scores strictly higher than with any worker, under any live healths, if latency weighs at most three times as much as privacy |
| Catalogue.LiveHealthIsLeast | src/aries/inference/registry.py:221-229 | The live health is the least of the stored one and those reported for the devices that take part |
| Registry.BestSharesOnlyIfNeeded | src/aries/inference/registry.py:209-219 | The best configuration of a catalogue is distributed only if the model exceeds the usable memory of its host |
| Registry.CatalogueAllPermitted | src/aries/inference/registry.py:241-249 | No locality removes anything from a catalogue, since it has no cloud configuration |
| Registry.InferenceRegistry.constructor | src/aries/inference/registry.py:169-173 | Starts empty and current, with the default weights unless others are given |
| Registry.InferenceRegistry.UpdateDevice | src/aries/inference/registry.py:180-184 | Records the device and its models; the catalogue is then current, or kept if recomputing raises |
| Registry.InferenceRegistry.RemoveDevice | src/aries/inference/registry.py:186-192 | Removes the device, its models and emptied lists; the catalogue is then current, or kept if recomputing raises |
| Registry.InferenceRegistry.RegisterModel | src/aries/inference/registry.py:194-202 | Replaces the record of the same name and device; the catalogue is then current, or kept if recomputing raises |
| Registry.InferenceRegistry.ComputeConfigs | src/aries/inference/registry.py:251-278 | The catalogue becomes the recomputation; it raises, and changes nothing, exactly when a feasible configuration divides by zero |
| Registry.InferenceRegistry.ConfigsOf | src/aries/inference/registry.py:258-278 | The inner loops build the configurations of one model, or find one that cannot be built |
| Registry.InferenceRegistry.ComputeLiveScore | src/aries/inference/registry.py:221-239 | The loop takes the minimum of the stored and all live healths |
| Registry.InferenceRegistry.FilterByConstraints | src/aries/inference/registry.py:241-249 | Keeps the permitted configurations in order |
| Registry.InferenceRegistry.GetConfigs | src/aries/inference/registry.py:206-207 | Returns the catalogue, which is the recomputed one while current |
| Registry.InferenceRegistry.GetBestConfig | src/aries/inference/registry.py:209-219 | Returns the first of the highest scores, nothing exactly when nothing is permitted, and a distributed configuration only of a model too large for its host |
| Scoring.ComputeHealthScore | src/aries/scheduler/router.py:57-75 | The running product is the product of the three factors |
| Scoring.HealthMonotone | src/aries/scheduler/router.py:57-75 | Health lies between 0.015 and 1 and never falls when load, battery, charging and temperature are no worse |
| Scheduling.HealthInThousandths | src/aries/scheduler/router.py:57-75 | Health scores are whole thousandths, products of fixed tenths by load, battery and temperature |
| Scheduling.LastMandateDecides | src/aries/scheduler/router.py:196-212 | The effective locality is that of the last applicable mandate with a known one |
| Scheduling.LastCostClassDecides | src/aries/scheduler/router.py:208-209 | The maximal cost class is that of the last applicable mandate that names one |
| Scheduling.LastOverrideDecides | src/aries/scheduler/router.py:210-211 | The weights are those of the last applicable mandate that overrides them |
| Scheduling.OtherConstraintsStay | src/aries/scheduler/router.py:196-212 | Mandates change nothing else of the constraints |
| Scheduling.WindowExactly | src/aries/scheduler/router.py:223-237 | A time window holds the minutes met going forward from its start, over midnight if need be, no later than its end |
| Scheduling.NoMandateDecides | src/aries/scheduler/router.py:196-212 | Mandates that do not apply, or enforce nothing, change nothing |
| Scheduling.WeightsStay | src/aries/scheduler/router.py:196-212 | Without overrides in an applicable mandate the weights stay |
| Scheduling.SortedHeadIsFirstMaximal | src/aries/scheduler/router.py:136-143 | The head of the stable descending sort is the earliest agent of maximal score |
| Scheduling.FirstMaximalIsFirstBest | src/aries/scheduler/router.py:132-143 | The first maximum of the filtered list is the earliest agent of the whole list that passes the filter and scores best |
| Scheduling.HealthierDeviceWins | src/aries/scheduler/router.py:138-140 | Of agents equal in all else the one on the strictly healthier device is selected |
| Scheduling.LocalBeatsCloud | src/aries/scheduler/router.py:170-194 | With default weights an eligible local agent scores higher than an eligible cloud-routed one whose device is healthier by at most 0.35 |
| Scheduling.LocalWins | src/aries/scheduler/router.py:124-194 | With default weights, where a cloud-routed agent is selected no local agent passes the filter, except on devices less healthy by more than 0.35 |
| Scheduling.LocalCanLose | src/aries/scheduler/router.py:170-194 | With any greater gap there are an eligible local and an eligible cloud-routed agent of which the local one scores less |
| Scheduling.LocalWinsExactly | src/aries/scheduler/router.py:57-75 | For any two healths, local agents always score higher if and only if the gap is at most 0.35 |
| Scheduling.MandatedLocalFirst | src/aries/scheduler/router.py:124-212 | The same of a whole selection from the constraints as requested, without overriding weights: local first under the mandated constraints |
| Scheduling.Scheduler.ApplyMandates | src/aries/scheduler/router.py:196-212 | The loop yields the mandated constraints and leaves overriding weights in force |
| Scheduling.Scheduler.Filter | src/aries/scheduler/router.py:145-168 | ValueError exactly for an unknown maximal cost class; otherwise the eligible agents in order |
| Scheduling.Scheduler.SelectAgent | src/aries/scheduler/router.py:124-143 | Returns the earliest eligible agent of maximal score under the mandated constraints and weights, or nothing exactly when none is eligible; with default weights and no overrides, a local one first |
| Receipts.SignedVerifies | src/aries/receipt.py:56-69 | A signed receipt verifies, if the signer holds the key of the named DID |
| Receipts.CheckedExactly | src/aries/receipt.py:112-123 | verify_chain is true exactly when every receipt verifies and links to the one before it |
| Receipts.CheckedWrittenOut | src/aries/receipt.py:62-69 | that is, when every receipt has a readable signer whose key accepts the signature for the payload of the content, and names the id and hash of the one before it |
| Receipts.TamperingIsNoticed | src/aries/receipt.py:62-69 | Altering the content of any receipt of a verifying chain makes the check fail, if no signature is accepted for two contents |
| Receipts.FirstFailureDecides | src/aries/receipt.py:112-123 | and otherwise its result, or exception, is that of the first failing receipt |
| Receipts.AddedExactly | src/aries/receipt.py:97-104 | After add the chain verifies exactly when it did before and the receipt, as linked, carries a good signature |
| Receipts.SignedAddsVerify | src/aries/receipt.py:83-104 | Any sequence of signed additions gives a chain that verifies |
| Receipts.LastHashFixesSuffix | src/aries/receipt.py:83-123 | Two verifying chains whose last content hashes agree have equal content, counted from the end, as far as the shorter one goes, if the hash is injective |
| Receipts.LastHashFixesHistory | src/aries/receipt.py:83-123 | and if the first receipt of neither has a predecessor also equal length: the last hash fixes the whole history |
| Receipts.DroppingTheFrontVerifies | src/aries/receipt.py:112-123 | The condition on the first receipt is needed: any tail of a verifying chain verifies and has the same last hash |
| Receipts.Receipt.Sign | src/aries/receipt.py:56-60 | Sets signer and signature of the current content |
| Receipts.Receipt.Verify | src/aries/receipt.py:62-69 | False without signature or signer or with an unreadable DID, an exception on a signature that is not hex, else the check of the signature |
| Receipts.ReceiptChain.Add | src/aries/receipt.py:83-104 | Appends the receipt, links it and optionally signs it, also one that is in the chain already, and leaves all others as they are; signed additions of new receipts keep the chain verifying |
| Receipts.ReceiptChain.VerifyChain | src/aries/receipt.py:112-123 | The loop decides whether the whole chain is intact |
| Pinning.StaticMatchingIsSensible | src/aries/transport/crypto.py:34-47 | No handshake key backs the placeholders for an unknown device |
| Pinning.NextKeeps | src/aries/transport/peer.py:280-398 | Each step between two awaits keeps the identity invariant |
| Pinning.RunInv | src/aries/transport/peer.py:351-398 | In every interleaving each table entry but unknown names a connection pinned to its DID and backed by its handshake key, and every dispatched message with a sender came over a connection pinned to that sender |
| Pinning.PinnedForLife | src/aries/transport/peer.py:357-379 | A pinned DID stays the only one of its connection for the rest of the run |
| Pinning.FirstMessageDecides | src/aries/transport/peer.py:357-370 | A first message whose sender the key backs pins it, enters the connection in the table and is dispatched; one it does not back closes the connection and changes nothing else |
| Pinning.NewVoiceIsEntered | src/aries/transport/peer.py:302-303 | A connection that comes to speak for a DID becomes the entry for it in the same step |
| Pinning.OpenIsEntered | src/aries/transport/peer.py:309-310 | In every run an open connection that speaks for a DID is the entry for it, unless another that speaks for it took the entry or stop or broadcast dropped it |
| Pinning.EntryLost | src/aries/transport/peer.py:388-392 | An entry passes only to a connection backed for the same DID and disappears only with its own connection, stop, or broadcast: teardown never evicts a newer connection |
| Pinning.ExclusiveExactly | src/aries/transport/peer.py:280-307 | The condition on callers is exact, given a DID with one key that backs it and one that does not: a connect meets it if and only if no continuation dispatches a message under a DID that the key of its connection does not back |
| Pinning.ExclusiveNeeded | src/aries/transport/peer.py:357-370 | A connect that gives a PeerInfo without a DID to a second live connection has a continuation that does |
| Pinning.SharedInfoBreaks | src/aries/transport/peer.py:280-307 | and such a connect is reachable: two connects with one PeerInfo that names no device |
| Pinning.TransportServer.HandshakeSucceeded | src/aries/transport/peer.py:280-307 | Registers an outbound connection unless its key contradicts the advertised DID |
| Pinning.TransportServer.ReceiveMessage | src/aries/transport/peer.py:351-387 | Pins, dispatches or drops as one turn of the receive loop |
| Pinning.TransportServer.TearDown | src/aries/transport/peer.py:388-398 | Removes the entry exactly if it is still this connection, and then tells the callbacks that DID |

## Left out

- Ed25519, X25519, SHA-256, BLAKE3, Noise, CBOR, JSON and base64: parameters of the model. Injectivity and "verify accepts
  what sign produced" are stated as conditions where a theorem needs them.
- `did_to_public_key` in tokens, receipts and handshakes is a parameter, of which `Did.DidToPublicKey` is one instance: those
  theorems hold for any such function.
- Floating point: Lamport times are naturals (the program's floats are exact below 2^53), scores, sizes and memories are reals.
- Clocks: every operation takes one instant as a parameter; reading the clock twice within one operation is not modelled.
- Random numbers: the coefficients of `shamir_split` are a parameter.
- Expiry in convergence: dropping an expired register forgets its history, so the statements about all entries ever received
  are for keys under which no write has a time-to-live; the others count from the last drop.
- Convergence of logs by exchange: the count-based diff provides it exactly where `LogExchange.ExchangeJoinsLogsExactly` says.
- Equality of all fields after an exchange: entries of equal time and hash are not sent, so agreement is on time and value.
- Several stores under one DID: each device has one store.
- A crash in the middle of `apply_diff` or of writing the file: crashes fall between operations.
- Store.MemoryStore.constructor: the file is well formed; skipping malformed entries, and the fallback to text for values that
  JSON cannot hold, are not modelled.
- Change callbacks, `delete`, `keys`, and the timers of the sync service.
- Store.MemoryStore.LogAppend: does not call the change callbacks; a token is given as the capabilities read from it.
- Store.MemoryStore.Set: likewise; a log or entry object shared between the store and its caller is not modelled either, stored
  values are values.
- Parsing of tokens (`UCANToken.decode`) and their serialization: one function from text to token. Caveats, facts and nonces
  are not read by validation and are omitted.
- Ucan.UCANStore.Store: its precondition, that the table is content-addressed, holds initially and is kept by every store.
- Ucan.RequiredIsHeld: needs each step of the path absorbed by the next, since the order on all resources is not transitive.
- Capability reports changed by their sender after `update_device`: devices are values. Paths of binaries, GPU names and layer
  counts carry no behaviour.
- Registry.BestSharesOnlyIfNeeded: for sizes and latencies that are not negative, which the program does not check.
- Catalogue.UpdateThenRemove: for a device that reports models of another device, removing it leaves those models.
- The text form HH:MM-HH:MM of a mandate's time window; `max_latency_ms` and `enforce_max_tokens`, which no code reads; the
  YAML loader.
- Scheduling.LocalWins: is about the default weights; overriding weights of a mandate stay in force for later requests, as in
  the code.
- The plaintext mode of the transport without a device keypair, framing, encryption, and sending.
- Pinning.RunInv: supposes that a PeerInfo without a device DID is not given to a second live connection, which the code does
  not check and which `Pinning.ExclusiveExactly` shows to be needed, and that nothing else changes a PeerInfo.
- Key files and passphrases, household manifests, pairing, mDNS, resource probes, subprocesses, HTTP, adapters, the command
  line, the dashboard and `node.py`.
