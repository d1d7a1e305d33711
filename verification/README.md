# A verified model of the chain's scripts, ante wrapper and backend protocols

This project models the parts of the repository where a mistake costs money or
locks an account, and proves what those parts promise.

- **Address codecs and genesis migration.** Two independent Bech32 codecs
  (BIP-173, sections "Bech32" and "Checksum") sit in `scripts/`. `Bits` and
  `Numerals` define the integer operators and positional notation;
  `ChecksumRegister` proves the algebra of the checksum (linear over GF(2),
  injective on 30-bit states, six symbols pack without feedback) and
  `GeneratorPolynomial` that it is the remainder by BIP-173's generator over GF(32);
  `Bech32` is the codec of `fix_genesis_hrp.py` and `GenesisHrp` its rewrite of the
  JSON tree; `Regroup` and `GenesisCodec` are the byte codec of `ensure_genesis.py`.
- **Ante wrapper.** `AnteSpec` is the rate limit and replay check as a machine over
  two maps, with theorems over every run of nondecreasing heights. `AnteStore` is
  the wrapper over its byte-keyed store, proved to refine that machine. Both cover
  a caller that keeps the writes of every transaction and one that discards those
  of a transaction the wrapper or its inner handler rejects.
- **Request protocols.** `Idempotency` interleaves the database steps of any number
  of requests with one key against a clock, with the TTL index free to remove the
  record at any moment from 24 hours on. `Session` is token issue, logout, rotation
  and sign-out-everywhere over expiring markers (RFC 7519, sections 4.1.4 and 4.1.6).
  `CircuitBreaker` is the explorer proxy's breaker.
- **Genesis repair.** `GenesisRepair` runs the ten checks of `ensure_genesis.py` in
  order, over documents whose balance and bond amounts are digit strings.
- **Algorithms.** `Decimal` scales decimal strings by 10^18, `LiquidityPool` does LP
  accounting over reals, `Digest` groups and flushes queued notifications.

Code that changes state in the source is a class or a method with loops here, each
tied to a specification function; the theorems are lemmas about those functions.
Check everything with `dafny verify dfyconfig.toml`.

## What turned out not to hold

- **Idempotency across expiry.** The middleware promises a duplicate the first
  request's outcome. The record's update matches on the key alone
  (`backend/src/middleware/idempotency.js:114`), so when a handler outlives the
  24-hour TTL its update settles the record of a later request. When every update
  lands less than some bound after its create, each duplicate of every run gets 202
  or the outcome of the request that ran in its own life of the key, if and only if
  that bound is at most 24 hours (`Idempotency.RepliesHoldExactly`;
  `Idempotency.LateLandingHappens` is the run that breaks it).
  Within one run the record is right at every moment if and only if no late landing
  carries a foreign outcome (`Idempotency.RecordIsRightExactly`).
- **Sign out everywhere.** The comment at
  `backend/src/middleware/tokenDenylist.js:28` assumes a short session lifetime and
  nothing enforces it. The promise holds in every run if and only if
  `SESSION_TTL_MIN` is at most 43200 (`Session.SignOutHoldsExactly`).
- **Logging in right after.** `iat` is a whole second and the marker a millisecond
  (`backend/src/middleware/tokenDenylist.js:95`), so a token that a login or a refresh
  issues is refused at once if its user signed out everywhere earlier in the same
  second (`Session.IssuedIsAcceptedExactly`). It then stays refused for its whole
  life if and only if `SESSION_TTL_MIN` is at most 43200; a longer session is
  accepted once the marker is gone (`Session.IssuedIsLockedOutExactly`).
- **Rotation.** `requireAuth` lets a request through before `refresh` runs, and
  `refresh` signs the new token before it revokes the old one
  (`backend/src/controllers/authController.js:485-490`). With sessions of at most
  thirty days, no two accepted tokens ever descend from one login along a run if and
  only if no refresh signs while another token of its lineage is accepted, the
  refreshed one included unless its SET lands in the same step
  (`Session.OneAcceptedPerLineage`); with longer sessions that is not enough
  (`Session.RotationHoldsExactly`). Not counting tokens about to be revoked, the
  condition is that no refresh signs while another than the refreshed token is live
  (`Session.OneLivePerLineage`), and then at most one token is accepted whenever no
  revocation is under way (`Session.OneAcceptedWhenSettled`). Two requests with one
  token break both, whether their SETs land later (`Session.OverlappingRefreshes`)
  or with the signing (`Session.AtomicRefreshesOverlapToo`); checking the token again
  in the step that signs and revokes would not
  (`Session.RecheckedRefreshesHold`).
- **Genesis repair.** Check 9 compares the supply with numeral strings and writes
  numbers (`scripts/ensure_genesis.py:312-318`), which it finds wrong again on every
  later run (`GenesisRepair.RepairedSupplyIsRefused`). Once a run has succeeded the
  document keeps its content, and its supply, read as numbers, is the balance sums;
  but every later run reports a modification, writes the file and so resets the chain
  data, if and only if the first one had to write a nonempty supply
  (`GenesisRepair.GenesisFile.EnsureAtEveryStart`).
- **Mixed case.** BIP-173 rejects mixed-case strings; `bech32_decode` looks at no
  case at all (`Bech32.CaseIsIgnored`), so mixed-case addresses are accepted
  (`Bech32.MixedCaseIsAccepted`).
- **Encoding any prefix.** `bech32_encode` accepts prefixes its own decoder refuses;
  `Bech32.EncodeDecodes` gives the exact ones that come back.
- **LP accounting.** A removal may ask for 1e-8 more than the position. It lowers the
  total minus the sum of the positions if and only if it asks for more than the
  position and the total is more than the position
  (`LiquidityPool.SlackFallsExactly`), by at most 1e-8, which is tight
  (`LiquidityPool.SlackBoundIsTight`).

## Model

| member | source | states |
|---|---|---|
| ChecksumRegister.ComputePolymod | scripts/fix_genesis_hrp.py:22-31 | The register loop folds one GF(2)-linear step over the values, starting from 1 |
| ChecksumRegister.FoldBack | scripts/fix_genesis_hrp.py:28-30 | The inner loop adds exactly the generator rows selected by the bits shifted out |
| ChecksumRegister.StepIsLinear | scripts/fix_genesis_hrp.py:25-30 | The register step is linear: feeding v^w to a^b gives the xor of the two separate steps |
| ChecksumRegister.StateStays30Bits | scripts/fix_genesis_hrp.py:25-30 | Any state fed a value below 2^30 yields a state below 2^30 |
| ChecksumRegister.RowsAreIndependent | scripts/fix_genesis_hrp.py:23 | The generator rows are independent already in their low five bits |
| ChecksumRegister.StepIsInjective | scripts/fix_genesis_hrp.py:25-30 | Two different 30-bit states never meet after the same value |
| ChecksumRegister.TailKeepsStatesApart | scripts/fix_genesis_hrp.py:22-31 | Nor after any common tail of values, however long |
| ChecksumRegister.Superposition | scripts/fix_genesis_hrp.py:22-31 | Feeding x from state c is feeding zeros from c, xor feeding x from zero |
| ChecksumRegister.SixSymbolsPack | scripts/fix_genesis_hrp.py:22-31 | From zero, up to six five-bit symbols leave exactly their base-32 value |
| ChecksumRegister.BurstChangesRegister | scripts/fix_genesis_hrp.py:22-31 | Sequences of any length that differ only inside six consecutive symbols leave different registers |
| GeneratorPolynomial.RowsAreGenerator | scripts/fix_genesis_hrp.py:23 | The five generator rows are BIP-173's generator over GF(32), with coefficients 29, 22, 20, 21, 29, 18, and its doublings modulo x^5 + x^3 + 1 |
| GeneratorPolynomial.StepIsDivision | scripts/fix_genesis_hrp.py:25-30 | Read as six coefficients over GF(32), one register step is one step of long division by that generator |
| GeneratorPolynomial.PolymodIsRemainder | scripts/fix_genesis_hrp.py:22-31 | The register over any five-bit values is the remainder of that division |
| Bech32.CharsetIsInjective | scripts/fix_genesis_hrp.py:19-20 | The alphabet map inverts the alphabet; no symbol is written '1' or in upper case |
| Bech32.AlphabetRows | scripts/fix_genesis_hrp.py:19 | The alphabet is BIP-173's table of four rows of eight |
| Bech32.LowersLetters | scripts/fix_genesis_hrp.py:42 | Lowering maps the 26 capital letters to theirs and nothing else |
| Bech32.HrpExpandParts | scripts/fix_genesis_hrp.py:33-34 | The expanded prefix holds the high bits of its characters, a zero, then their low five bits, in order |
| Bech32.PublishedAddress | scripts/fix_genesis_hrp.py:39-63 | The address a12uel5l published in BIP-173 is what the empty payload encodes to under the prefix a, and decodes to it |
| Bech32.ChecksumIsUnique | scripts/fix_genesis_hrp.py:36-59 | For every prefix and data, six symbols verify if and only if they are the created checksum |
| Bech32.BurstBreaksChecksum | scripts/fix_genesis_hrp.py:36-37 | A change confined to six consecutive symbols of a verifying string, at any length, makes verification fail |
| Bech32.BurstIsRefused | scripts/fix_genesis_hrp.py:39-54 | The same on strings: a decodable address with up to six consecutive characters after the separator changed (none to '1') is refused |
| Bech32.Bech32Decode | scripts/fix_genesis_hrp.py:39-54 | The decoder with its early exits computes Decode, which DecodeInvertsEncode characterises |
| Bech32.DecodeDataPart | scripts/fix_genesis_hrp.py:47-54 | The loop over the data part refuses the first foreign character, then tests the checksum and drops it |
| Bech32.DecodeInvertsEncode | scripts/fix_genesis_hrp.py:39-63 | decode(s) is (hrp, data) if and only if s is printable, hrp is nonempty and lower(s) is encode(hrp, data) |
| Bech32.EncodeDecodes | scripts/fix_genesis_hrp.py:39-63 | decode(encode(hrp, data)) is (hrp, data) if and only if hrp is nonempty, printable and without upper case (it may hold '1') |
| Bech32.CaseIsIgnored | scripts/fix_genesis_hrp.py:40-42 | A printable string decodes as its lower-case form does |
| Bech32.MixedCaseIsAccepted | scripts/fix_genesis_hrp.py:40-42 | Under every plain prefix that starts with two letters, each payload has a mixed-case address that is accepted |
| GenesisHrp.ConvertedHrp | scripts/fix_genesis_hrp.py:65-71 | A converted prefix starts with mall, is converted no further, and stays printable lower case |
| GenesisHrp.OldPrefixIsReplaced | scripts/fix_genesis_hrp.py:65-92 | For every plain suffix and all data, the leaf encoded under mp + suffix or marketplace + suffix becomes the one encoded under mall + suffix |
| GenesisHrp.OtherPrefixStays | scripts/fix_genesis_hrp.py:65-92 | An address under a plain prefix that starts with neither stays as it is |
| GenesisHrp.MigrateGenesis | scripts/fix_genesis_hrp.py:102-107 | A migration keeps the tree's skeleton, fixes every string leaf and logs exactly the changed ones in order |
| GenesisHrp.WalkAndFix | scripts/fix_genesis_hrp.py:73-92 | The recursive walk keeps keys, lengths, order and non-string leaves, and appends its changes to the log in traversal order |
| GenesisHrp.WalkAll | scripts/fix_genesis_hrp.py:75-79 | The same for the values of a dictionary or the items of a list |
| GenesisHrp.FixString | scripts/fix_genesis_hrp.py:80-91 | A string leaf is re-encoded and logged, or returned as it is |
| GenesisHrp.TreeIsSkeletonAndLeaves | scripts/fix_genesis_hrp.py:73-92 | Skeleton and string leaves determine a JSON tree, so nothing else can change |
| GenesisHrp.RewrittenKeepsPayload | scripts/fix_genesis_hrp.py:80-88 | A rewritten address decodes to the converted prefix and the old five-bit payload |
| GenesisHrp.ChangedLeaves | scripts/fix_genesis_hrp.py:80-91 | A leaf changes if and only if it decodes with a prefix starting with mp or marketplace |
| GenesisHrp.EveryLeafInItsPlace | scripts/fix_genesis_hrp.py:73-107 | At the end of every path through the tree, a string is replaced by what becomes of it and any other value stays |
| GenesisHrp.MigrationIsIdempotent | scripts/fix_genesis_hrp.py:73-107 | A second migration changes nothing and logs nothing |
| Regroup.ConvertBits | scripts/ensure_genesis.py:37-47 | Regrouping through the masked accumulator rewrites one long number from base 2^from to base 2^to, for any widths with sum at most 33, so the mask drops nothing needed |
| Regroup.TakeGroups | scripts/ensure_genesis.py:42-44 | The inner loop takes whole groups out and the digits and the held bits still make up the number read |
| Regroup.RegroupRoundTrip | scripts/ensure_genesis.py:37-47 | Splitting into smaller groups with padding and joining back without loses nothing, at every length |
| GenesisCodec.EncodeBytes | scripts/ensure_genesis.py:61-67 | The second encoder produces what the first one does for the regrouped bytes |
| GenesisCodec.ComputePolymod2 | scripts/ensure_genesis.py:50-58 | The second copy of the register loop computes the same register |
| GenesisCodec.FoldBack2 | scripts/ensure_genesis.py:56-57 | Folding in a zero where the other copy skips makes no difference |
| GenesisCodec.WordsRoundTrip | scripts/ensure_genesis.py:37-47 | Every byte sequence survives 8 to 5 with padding and 5 to 8 without |
| GenesisCodec.RawRoundTrip | scripts/ensure_genesis.py:61-67 | bech32_decode_raw(bech32_encode(p, b)) is b for every prefix and all bytes |
| GenesisCodec.RawFailsExactly | scripts/ensure_genesis.py:135-137 | The raw decoder raises if and only if there is no separator or a foreign character follows the last one |
| GenesisCodec.ShortIsEmpty | scripts/ensure_genesis.py:135-140 | Up to six symbols behind the separator are all taken for checksum |
| GenesisCodec.RePrefixKeepsBytes | scripts/ensure_genesis.py:132-142 | Deriving an operator address from an account address keeps the raw bytes |
| GenesisCodec.CodecsAgree | scripts/ensure_genesis.py:61-67 | The other script decodes it to that prefix and the regrouped bytes if and only if the prefix is nonempty, printable and lower case |
| GenesisCodec.RawOfDecoded | scripts/ensure_genesis.py:135-140 | On every lower-case address the checking decoder accepts, the raw decoder returns that payload as bytes |
| AnteSpec.HandleCounter | app/app.go:365-397 | One transaction advances its sender's counter by one within the limit and touches no other; it is rejected exactly at ten |
| AnteSpec.BumpExactly | app/ante_helpers.go:75-80 | A new height starts at one, and within a height the count goes up by one and wraps only from 2^64 - 1 |
| AnteSpec.CounterIsCapped | app/app.go:360-397 | In every run the stored count is min(kept submissions of that sender at that height, 10), so the 64-bit counter never wraps; kept means all of them, or with a discarding caller those that succeed in the inner handler too |
| AnteSpec.RateLimitedExactly | app/app.go:381-391 | A transaction is rate-limited if and only if ten kept submissions of its sender precede it at its height |
| AnteSpec.TenPerSigner | app/app.go:348-391 | For a signer other than the empty one and unknown, the transaction is rate-limited if and only if at least ten kept submissions signed by the same signer precede it at its height; those two share one counter |
| AnteSpec.ReplayStoreIsHistory | app/app.go:399-461 | In every run the replay entries are exactly the hashes of transactions that passed with their writes kept, with their latest height, where that is not below the latest prune bound |
| AnteSpec.ReplayedExactly | app/app.go:408-417 | The replay check rejects exactly the hashes that history says are still held |
| AnteSpec.NoReplayWithinRetention | app/app.go:399-461 | A transaction that passed at height h with its writes kept never gets through the checks again at any later step up to height h + 200 |
| AnteSpec.WindowOfEntries | app/app.go:419-453 | All stamps lie within the 201 heights from the latest prune bound |
| AnteSpec.ReplayStoreIsBounded | app/app.go:321-453 | In every reachable state there are at most 201 * 10 * (distinct senders) replay entries |
| AnteStore.Uint64RoundTrip | app/ante_helpers.go:90-100 | The big-endian 8-byte value round-trips |
| AnteStore.HighByteFirst | app/ante_helpers.go:71-73 | Eight stored bytes are read with the highest one first |
| AnteStore.CounterRoundTrip | app/ante_helpers.go:69-92 | The 16-byte counter value gives back height and count |
| AnteStore.RateKeyInjective | app/app.go:361-363 | Different senders have different counter keys |
| AnteStore.ReplayKeyInjective | app/app.go:404-406 | Different hashes have different replay keys |
| AnteStore.RateKeyIsNoReplayKey | app/app.go:361-429 | No counter key lies under the replay prefix, so the iterator never meets one |
| AnteStore.KeyLayout | app/app.go:361-406 | The keys are ante:rl:sender: + sender + :height and ante:replay: + hash |
| AnteStore.MalformedCounterIsZero | app/app.go:365-371 | A missing counter or one of another length than 16 bytes counts as zero |
| AnteStore.SetCounterRefines | app/app.go:393-397 | Writing a counter changes that sender's counter only, and no replay entry |
| AnteStore.PruneRefines | app/app.go:425-448 | Pruning drops exactly the entries below the bound and alters no counter |
| AnteStore.PrunedKeepsOthers | app/app.go:429-444 | Pruning keeps every key outside the replay prefix, every value of another length than 8 bytes and every height from the bound on |
| AnteStore.MarkRefines | app/app.go:450-453 | Marking changes one replay entry and no counter |
| AnteStore.ReplayEntryCount | app/app.go:429-444 | The store holds as many replay keys as the replay map has hashes |
| AnteStore.Store.UpdateCounter | app/ante_helpers.go:67-95 | The counter of a new height restarts at one, else it advances with 64-bit wrap-around; it is written if and only if it is within the limit |
| AnteStore.Store.PruneReplayKeys | app/ante_helpers.go:32-62 | Collect, then delete: the store keeps everything but the stale replay entries |
| AnteStore.Store.CollectStale | app/ante_helpers.go:41-56 | The first pass collects exactly the stale keys in whatever order the iterator yields |
| AnteStore.Store.CountSubmission | app/app.go:355-397 | The counter block refines the counter map, with unknown for a missing sender |
| AnteStore.Store.CheckReplay | app/app.go:399-454 | The replay block, marking with eight height bytes, refines check, prune and mark on the replay map |
| AnteStore.Store.InnerAnte | app/app.go:309-461 | The wrapper over bytes makes the step of the two-map machine and returns its outcome |
| AnteStore.Store.ProcessAll | app/app.go:309-461 | So every run over bytes, with a caller that keeps or discards the writes of failures, is a run of the machine, and the byte store keeps the entry bound |
| Idempotency.Middleware.FindExisting | backend/src/middleware/idempotency.js:31-59 | The first lookup replies from a present record and otherwise goes on to create |
| Idempotency.Middleware.CreatePending | backend/src/middleware/idempotency.js:65-84 | The create starts the handler only where no record was; else the request re-reads |
| Idempotency.Middleware.RereadAfterRace | backend/src/middleware/idempotency.js:84-104 | The loser of the race replies from the record, or 202 when it is pending or gone |
| Idempotency.Middleware.ResJson | backend/src/middleware/idempotency.js:112-127 | The replaced res.json answers and leaves the update in flight |
| Idempotency.Middleware.FindOneAndUpdate | backend/src/middleware/idempotency.js:114-121 | The update settles whatever record has the key by then, and creates none |
| Idempotency.Middleware.ExpireRecord | backend/src/models/IdempotencyKey.js:17 | From 24 hours after its creation the TTL index may remove the record, and a new life of the key begins |
| Idempotency.HandlerStartsOnce | backend/src/middleware/idempotency.js:61-129 | Under any interleaving with expiry at any moment, at most one handler starts per life of the record, and the record names it |
| Idempotency.KnownOutcomeIsTold | backend/src/middleware/idempotency.js:35-98 | A first lookup or reread that meets a record ends as a duplicate of its life, told 202 if and only if the record is pending |
| Idempotency.RecordHasWinner | backend/src/middleware/idempotency.js:61-84 | Every record was created by a request that started the handler in its life |
| Idempotency.FirstRunsLoserRereads | backend/src/middleware/idempotency.js:61-98 | A request that finds and meets no record runs the handler on a pending one; one whose create is refused rereads and is told what the record says |
| Idempotency.SettledReply | backend/src/middleware/idempotency.js:35-121 | A settled record tells the data that a success keeps, or the error of a failure, and never 202 |
| Idempotency.DuplicateIsToldExactly | backend/src/middleware/idempotency.js:31-127 | In a run without late landings, a duplicate that reads a record gets 202 exactly while the winner of its life has not landed, and afterwards the outcome of the winner's data |
| Idempotency.DuplicatesGetWinnersOutcome | backend/src/middleware/idempotency.js:31-127 | At every moment of a run in which no late landing carries a foreign outcome, each duplicate got 202 or the outcome of the request that ran in its life |
| Idempotency.RepliesHoldExactly | backend/src/middleware/idempotency.js:31-127 | In every run whose updates land less than a bound after the create, each duplicate got 202 or the outcome of the request that ran in its life, if and only if the bound is at most 24 hours |
| Idempotency.InTimeIsNotLate | backend/src/middleware/idempotency.js:112-121 | An update that lands less than 24 hours after the create finds the record of its own life or none |
| Idempotency.NoExpiryNoLateLanding | backend/src/middleware/idempotency.js:31-129 | A run in which the record does not expire has no late landing and one life |
| Idempotency.RecordIsRightExactly | backend/src/middleware/idempotency.js:112-121 | Along a run a lookup would be answered right at every moment if and only if no late landing carries an outcome foreign to the record's life |
| Idempotency.LateLandingHappens | backend/src/middleware/idempotency.js:112-121 | For every bound above 24 hours, a run within it in which a duplicate is told another request's outcome while its own winner still runs |
| Idempotency.SettledStays | backend/src/middleware/idempotency.js:112-121 | In a run without late landings a settled record never changes again within its life |
| Session.Denylist.RevokeToken | backend/src/middleware/tokenDenylist.js:59-67 | The marker is set for the remaining lifetime, and not at all when nothing remains |
| Session.Denylist.RevokeAllUserTokens | backend/src/middleware/tokenDenylist.js:70-78 | The user marker holds the millisecond and lives thirty days |
| Session.Denylist.IsRevoked | backend/src/middleware/tokenDenylist.js:84-103 | Revoked means a live token marker, or a live user marker later than the token's issue second |
| Session.AuthController.Verify | backend/src/middleware/requireAuth.js:64-74 | The decision is issued, unexpired and unrevoked |
| Session.AuthController.RequireAuth | backend/src/middleware/requireAuth.js:64-107 | A request enters exactly when that holds; its handler runs at any later time |
| Session.AuthController.IssueToken | backend/src/controllers/authController.js:93-110 | A new token carries a fresh id and whole-second iat and exp |
| Session.AuthController.StartLogout | backend/src/controllers/authController.js:464-468 | Up to its SET, the logout of an entered request changes nothing but the revocation under way, and has none for a token expired meanwhile |
| Session.AuthController.StartRefresh | backend/src/controllers/authController.js:483-490 | Up to its SET, the refresh of an entered request issues a token in the same lineage, whether or not the old one is still accepted, and has its revocation under way unless it expired |
| Session.AuthController.LandSet | backend/src/middleware/tokenDenylist.js:59-67 | The SET of a revocation under way reaches Redis as a step of its own, with the lifetime computed before |
| Session.AuthController.LogoutEverywhere | backend/src/controllers/authController.js:500-504 | Sign-out-everywhere marks the user and no token |
| Session.MarkersKeep | backend/src/middleware/tokenDenylist.js:59-67 | In every run each landed marker outlives its token, despite second and millisecond rounding and late writes |
| Session.LogoutIsPermanent | backend/src/controllers/authController.js:464-472 | Once its revocation has reached Redis, a token is never accepted again |
| Session.LandingRevokes | backend/src/middleware/tokenDenylist.js:59-67 | When the SET of a revocation under way lands, its token is not accepted any more and nothing else under way changes |
| Session.AcceptedExactly | backend/src/middleware/requireAuth.js:64-74 | With sessions of at most thirty days a token is accepted in any run if and only if it was issued, has not expired, its revocation has not landed and its user has not signed out everywhere after its issue second began |
| Session.EnteredExactly | backend/src/middleware/requireAuth.js:64-107 | A token has entered if and only if it was presented at a moment of the run at which it was accepted |
| Session.HandlersNeedEntry | backend/src/middleware/requireAuth.js:72-107 | A logout, refresh or sign-out with a token that never entered changes nothing |
| Session.HandlerRevokes | backend/src/controllers/authController.js:464-494 | At every moment after an entered token's logout or refresh, its revocation is under way or the token is not accepted |
| Session.SignOutRevokes | backend/src/controllers/authController.js:500-504 | With sessions of at most thirty days, after a sign-out everywhere no token its user was issued earlier is accepted again |
| Session.SignOutHoldsExactly | backend/src/middleware/tokenDenylist.js:28-31 | No token issued before its user signed out everywhere is accepted, in every run, if and only if SESSION_TTL_MIN is at most 43200 |
| Session.LongSessionOutlivesMarker | backend/src/middleware/tokenDenylist.js:28-31 | Any longer session is accepted again once the marker is gone |
| Session.IssuedIsAcceptedExactly | backend/src/middleware/tokenDenylist.js:92-97 | The token a login or a refresh issues is accepted at once if and only if the session lifetime is positive and its user did not sign out everywhere after the current second began |
| Session.IssuedIsLockedOutExactly | backend/src/middleware/tokenDenylist.js:92-97 | It is refused in every continuation of the run if and only if the session lifetime is zero, or the user did and SESSION_TTL_MIN is at most 43200 |
| Session.OneAcceptedPerLineage | backend/src/controllers/authController.js:474-494 | With sessions of at most thirty days, no two accepted tokens ever descend from one login along a run if and only if no refresh signs while another token of its lineage is accepted (for a refresh whose SET lands later: any token) |
| Session.RotationHoldsExactly | backend/src/controllers/authController.js:474-494 | That condition suffices in every run if and only if SESSION_TTL_MIN is at most 43200 |
| Session.RecheckedRefreshesHold | backend/src/controllers/authController.js:474-494 | Refreshes that check their token again in the step that signs and revokes would keep one accepted token per login |
| Session.OneLivePerLineage | backend/src/controllers/authController.js:474-494 | With sessions of at most thirty days, no two tokens of one login are ever accepted without a revocation under way along a run, if and only if no refresh signs while another than the refreshed token is so |
| Session.OneAcceptedWhenSettled | backend/src/controllers/authController.js:474-494 | In such a run at most one token of a login is accepted at every moment at which no revocation is under way |
| Session.OverlappingRefreshes | backend/src/controllers/authController.js:483-494 | Two refreshes that overlap before their SETs leave two accepted tokens of one login, with nothing under way |
| Session.AtomicRefreshesOverlapToo | backend/src/middleware/requireAuth.js:72-107 | So do two whose requests entered before the first revoked the token, even if each SET lands with its signing |
| CircuitBreaker.Circuit.CircuitOpenOrTripped | backend/src/index.js:557-562 | A check is blocked if and only if at least three failures occurred since the last success or reset and the latest is under five minutes old |
| CircuitBreaker.Circuit.MarkFailure | backend/src/index.js:563-573 | A failure keeps counter and deadline in step with the history |
| CircuitBreaker.Circuit.MarkSuccess | backend/src/index.js:574-577 | A success resets them as the history says |
| CircuitBreaker.CountIsSinceReset | backend/src/index.js:551-577 | The count is the number of failures after the latest success or cool-off reset |
| CircuitBreaker.CountAfter | backend/src/index.js:551-577 | A failure adds one, a success clears, and a check clears exactly from three failures on once five minutes have passed since the latest |
| GenesisRepair.GenesisFile.EnsureGenesis | scripts/ensure_genesis.py:80-344 | A run that finishes satisfies checks 1 to 8 and 10 (the pool holds the bond) and leaves a supply that, read as numbers, is the balance sums; it modifies the file if and only if one of the ten checks failed before, changes nothing the checks found in order, and fails exactly where no delegator or operator can be had |
| GenesisRepair.GenesisFile.EnsureAgain | scripts/ensure_genesis.py:80-344 | A run on a repaired document gives the same document back, and reports a modification if and only if the supply amounts are not the numerals as text |
| GenesisRepair.GenesisFile.EnsureTwice | scripts/ensure_genesis.py:80-344 | The second run keeps the content, and reports a modification if and only if the supply before the first differs from the final balance sums as text and these are not empty |
| GenesisRepair.GenesisFile.EnsureAtEveryStart | scripts/ensure_genesis.py:80-344 | So does every later run, however many |
| GenesisRepair.RepairedSupplyIsRefused | scripts/ensure_genesis.py:312-318 | A document whose supply check 9 just wrote, which check 9 does not accept |
| GenesisRepair.TextExactly | scripts/ensure_genesis.py:305-319 | After a run check 9 is satisfied if and only if the run did not have to write a nonempty supply |
| GenesisRepair.RepairedIsFixed | scripts/ensure_genesis.py:172-338 | A run keeps a repaired document whole: the sorted supply list is determined by its amounts |
| GenesisRepair.StakedDoesNotFail | scripts/ensure_genesis.py:108-250 | A document that satisfies checks 1 to 6 neither exits nor raises |
| GenesisRepair.PoolBeforeSupply | scripts/ensure_genesis.py:287-319 | Check 8 must run before check 9: setting a missing pool entry breaks any supply that agreed with the balances |
| GenesisRepair.SearchDelegator | scripts/ensure_genesis.py:116-131 | The search finds the first account outside the pools that holds stake and no wallet balance |
| GenesisRepair.DelegatorExactly | scripts/ensure_genesis.py:116-131 | It looks for an account that is neither pool, has no wallet balance and lists a stake coin |
| GenesisRepair.FoundIsFirst | scripts/ensure_genesis.py:116-131 | It finds the first such entry, and nobody if there is none |
| GenesisRepair.Identify | scripts/ensure_genesis.py:108-170 | Operator and delegator come from the file, or the delegator from the balances and the operator from its bytes; it exits or raises exactly where neither works |
| GenesisRepair.FailsExactly | scripts/ensure_genesis.py:108-170 | Who exits and who raises, by the place of the first delegator in the balances |
| GenesisRepair.OperatorExactly | scripts/ensure_genesis.py:132-142 | Without a validator on file the operator is the mallvaloper address of the first delegator's bytes |
| GenesisRepair.FixHeader | scripts/ensure_genesis.py:172-195 | Checks 1 to 3 set their fields and report a change exactly when there was one |
| GenesisRepair.FixValidator | scripts/ensure_genesis.py:197-235 | Check 4 leaves one bonded validator with the node's key, the operator and the bond |
| GenesisRepair.FixDelegation | scripts/ensure_genesis.py:237-250 | After check 5 the first delegation is to the operator; it writes exactly when it was not, then one delegation of the whole bond by the delegator, and touches nothing else |
| GenesisRepair.FixPowers | scripts/ensure_genesis.py:252-260 | After check 6 the operator comes first in the last powers; it writes exactly when it did not, then powers that add up to the total power, and touches nothing else |
| GenesisRepair.FixAccounts | scripts/ensure_genesis.py:262-285 | Check 7 adds the missing module accounts behind the existing ones |
| GenesisRepair.AccountExactly | scripts/ensure_genesis.py:263-266 | An account counts under its address, or under that of its base account when it has none |
| GenesisRepair.FixPool | scripts/ensure_genesis.py:287-303 | Check 8 makes the pool hold the bond and keeps every other balance entry in order |
| GenesisRepair.PoolIsSet | scripts/ensure_genesis.py:294-302 | The rewritten balances give the pool the bond and nobody else anything |
| GenesisRepair.StakeExactly | scripts/ensure_genesis.py:288-290 | The stake check 8 finds is the first stake coin of the address's last entry, or nothing |
| GenesisRepair.NonPoolOfConcat | scripts/ensure_genesis.py:295-298 | Filtering out the pool goes entry by entry, in order |
| GenesisRepair.NonPoolOfEntry | scripts/ensure_genesis.py:295-298 | It drops exactly the entries under the pool's address |
| GenesisRepair.ComputeTotals | scripts/ensure_genesis.py:306-309 | The two loops sum every denom that occurs in the balances, and no other |
| GenesisRepair.TotalAddsUp | scripts/ensure_genesis.py:306-309 | The total in a denom adds up over concatenated entries |
| GenesisRepair.CoinsAddUp | scripts/ensure_genesis.py:306-309 | And over the coins of one entry |
| GenesisRepair.TotalOfCoin | scripts/ensure_genesis.py:306-309 | An entry with one coin counts its amount in that coin's denom and nothing elsewhere |
| GenesisRepair.DenomsExactly | scripts/ensure_genesis.py:306-309 | A denom occurs if and only if some entry lists a coin of it |
| GenesisRepair.FixSupply | scripts/ensure_genesis.py:305-319 | Check 9 writes exactly when the supply is not the balance sums as text; it then writes them as numbers in strictly ascending order of denoms, and either way the supply read as numbers is the sums |
| GenesisRepair.LastAmountCounts | scripts/ensure_genesis.py:311 | Of several entries of one denom in the supply list the last counts |
| Text.LessExactly | scripts/ensure_genesis.py:312 | The order of the supply list compares strings at their first difference, and a prefix comes first |
| GenesisRepair.FixSigning | scripts/ensure_genesis.py:321-338 | Check 10 leaves a signing info for the consensus address, and no other when it had to write one |
| Decimal.LegacyDecIsExact | backend/scripts/create-validator.js:56-65 | For every numeral with a point the result is the sign and the numeral, without leading zeros, of the truncation of its absolute value times 10^18 |
| Decimal.LegacyDecOfInteger | backend/scripts/create-validator.js:56-65 | Without a point nothing is truncated |
| Decimal.SecondPointIsCut | backend/scripts/create-validator.js:60 | Whatever follows a second point is ignored |
| Decimal.PaddedFraction | backend/scripts/create-validator.js:61-62 | Cutting or filling the fraction to 18 digits is truncated scaling by a power of ten |
| Decimal.StripZerosIsNumeral | backend/scripts/create-validator.js:63 | Stripping leading zeros gives the numeral of the value |
| LiquidityPool.Pool.AddLiquidity | backend/src/controllers/liquidityController.js:248-285 | An addition of two positive amounts the chain accepts adds to both reserves, the total and the position; any other changes nothing |
| LiquidityPool.Pool.RemoveLiquidity | backend/src/controllers/liquidityController.js:346-404 | A removal is accepted exactly within position plus 1e-8, slippage 0 to 5 and chain success; it pays pro rata, and a refused one changes nothing |
| LiquidityPool.FirstProviderGetsBack | backend/src/controllers/liquidityController.js:279-404 | Whoever adds to an empty pool and removes all its LP tokens gets back both amounts and leaves the pool empty |
| LiquidityPool.RemovalFromEmptyTotal | backend/src/controllers/liquidityController.js:367-402 | A removal while the total is zero wipes out a positive reserve and turns a zero one into NaN |
| LiquidityPool.AddKeepsSlack | backend/src/controllers/liquidityController.js:283-285 | An addition keeps the total minus the sum of positions |
| LiquidityPool.RemovalMovesSlack | backend/src/controllers/liquidityController.js:403-404 | A removal of lp moves it by exactly min(lp, position) - min(lp, total) |
| LiquidityPool.SlackFallsExactly | backend/src/controllers/liquidityController.js:358-404 | An accepted removal lowers it if and only if it asks for more than the position and the total is more than the position, and then by at most 1e-8 |
| LiquidityPool.SlackNeverFallsExactly | backend/src/controllers/liquidityController.js:279-404 | No request of a run lowers it if and only if no accepted removal is such an overdraft |
| LiquidityPool.SlackOverRun | backend/src/controllers/liquidityController.js:279-404 | Over any run it falls by at most 1e-8 per removal |
| LiquidityPool.SlackBoundIsTight | backend/src/controllers/liquidityController.js:362-404 | Taking the whole tolerance costs exactly 1e-8 |
| LiquidityPool.RemovalKeepsReservePerToken | backend/src/controllers/liquidityController.js:366-403 | A removal from a nonempty pool keeps the reserve per LP token |
| LiquidityPool.SplitPaysTheSame | backend/src/controllers/liquidityController.js:366-403 | Withdrawing in two parts pays, and leaves, what withdrawing at once does |
| LiquidityPool.SplitRemovalIsOneRemoval | backend/src/controllers/liquidityController.js:362-404 | Two accepted removals within position and total leave reserves, total and positions as one removal of the sum does |
| Digest.GroupsPartition | backend/src/jobs/notificationDigest.js:49-55 | Each due entry is in the group of its own key and no other, groups keep the createdAt order, and their sizes add up |
| Digest.KeysExactly | backend/src/jobs/notificationDigest.js:50-55 | There is one group per key that occurs, and none is empty |
| Digest.KeysInOrder | backend/src/jobs/notificationDigest.js:50-55 | Groups come in the order in which their keys first appear among the due entries |
| Digest.KeyIsUserAndChannel | backend/src/jobs/notificationDigest.js:52-58 | For user ids without a colon, a key is a (user, channel) pair and split(':') gives it back |
| Digest.StatsAddUp | backend/src/jobs/notificationDigest.js:46-97 | Every due entry is flushed or in a dropped group once; messages are sent plus failed, at most one per group |
| Digest.SentExactly | backend/src/jobs/notificationDigest.js:57-97 | sent counts the groups with a destination that are delivered, failed those with one that are not |
| Digest.LeavesExactly | backend/src/jobs/notificationDigest.js:42-92 | An entry leaves the queue if and only if it is due and its group was delivered, has no user, no address for its channel or an unknown channel |
| Digest.GroupDue | backend/src/jobs/notificationDigest.js:49-55 | Filling the Map in one pass gives those groups in order of first appearance |
| Digest.Job.FindDue | backend/src/jobs/notificationDigest.js:42-44 | The due list holds exactly the due entries, once each, oldest first |
| Digest.Job.FlushGroup | backend/src/jobs/notificationDigest.js:57-98 | One group sends at most one message and leaves the queue exactly when delivered or without destination |
| Digest.MessageOfGroup | backend/src/jobs/notificationDigest.js:57-89 | A group sends one message, to the email address for email and the phone number for sms and whatsapp, and none without a destination or under another channel |
| Digest.MessageOfOne | backend/src/jobs/notificationDigest.js:22-30 | A single entry is sent with its own title and with its body, or its title when it has none |
| Digest.EveryEntryIsListed | backend/src/jobs/notificationDigest.js:22-30 | Several entries are announced by their number, and every entry has its line in order |
| Digest.LineOfEntry | backend/src/jobs/notificationDigest.js:22-30 | A line is the entry's number, its title and its body if it has one |
| Digest.Job.FlushDueDigests | backend/src/jobs/notificationDigest.js:41-102 | The final queue is the initial one minus the due entries whose group was delivered, had an unknown channel or got no destination from its own user lookup; entries not due are untouched |

## Left out

- HTTP, Express, Mongo, Redis and chain clients, file reading, backups and printing; stores are maps, time and chain answers are inputs.
- SHA-256, JWT signatures and secp256k1: hashes and token ids are opaque, pool and consensus addresses are inputs of the repair.
- The inner SDK ante handler, whose verdict is an input, the circuit decorator, audit events and log lines of the ante wrapper, a failing or absent transaction encoder, and negative block heights.
- Fail-open branches on database or Redis faults: the only database fault modelled is duplicate key 11000, and Redis always answers.
- pruneReplayEntries, a helper of the unit tests, and the global counter key of updateRateLimitCounter; `AnteStore.Store.UpdateCounter` takes the key and the limit as inputs.
- GenesisHrp.WalkAndFix: dictionaries are rewritten as values instead of in place; json.loads yields a tree without sharing, so only aliasing by a caller is not captured.
- Bech32.BurstIsRefused: a changed character that becomes '1' can move the separator, and such strings are not covered; on symbols `Bech32.BurstBreaksChecksum` has no such limit.
- Regroup.ConvertBits: widths whose sum is above 33 and values of more than `from` bits, for neither of which the script calls it.
- GenesisRepair.GenesisFile.EnsureGenesis: documents with missing keys, extra keys in a top-level validator, or amounts int() reads but that are not plain digits are not modelled; neither is the reset of the chain data that follows a modification.
- GenesisRepair.FixPool: like the script it drops all coins of the pool's old entry, so other denoms the pool held are gone afterwards.
- Session.AuthController.RequireAuth: the signature and expiry check and the two marker lookups of one request are made at one instant.
- Session.AuthController.LogoutEverywhere: its SET reaches Redis in the step that reads the clock.
- Session.AcceptedExactly: bans, roles, CSRF, the user cache and tokens without jti, exp or iat are not modelled; SESSION_TTL_MIN is a whole number, one clock serves the application and Redis, and a marker is gone at its expiry instant.
- Idempotency.RepliesHoldExactly: one clock serves the application and the database, and an update takes effect strictly within the bound or not at all; a result the schema cannot cast, which leaves the record pending, is a database fault.
- Idempotency.HandlerStartsOnce: requests without the header or with another method pass straight to the handler in the code and are not part of the model; a handler that calls res.json twice is not either.
- LiquidityPool.Pool.AddLiquidity: IEEE rounding and overflow are not modelled, the square root is an input with its defining property, and price, TVL and share display are omitted.
- LiquidityPool.RemovalFromEmptyTotal: reserves are never negative, as in every run from a pool whose reserves are not.
- LiquidityPool.SlackOverRun: requests do not overlap and the pool object is not refreshed from the chain meanwhile; a refresh replaces positions.
- Digest.Job.FlushDueDigests: nobody else writes the queue meanwhile, entries created at the same instant may come in either order, and the per-channel joining of subject and body is left to the senders.
- `scripts/fix_genesis_supply.js`, the explorer indexers, notification and price feeds, configuration validation and the user interface, which would only add easy members.
