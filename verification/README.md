# A verified model of tr-key-vault

The vault keeps secret keys wrapped under key-encryption keys (KEKs), guards each key with an access control
list, and lets authenticated users encrypt, decrypt, sign, verify, export, revoke and list through one API.
This project models that behaviour in Dafny and proves what its design promises.

Layout, one module per file:

- `Text`, `IpText`, `IpGrammar`, `IpMatch`, `IpPrint`, `IpMeaning`: the `allowedIP` list. The IPv4 and IPv6 text
  parsers are proved against a grammar of spellings, the mask tests of JavaScript's 32-bit integers and 128-bit
  shifts against intervals, and printing against parsing; numbers and entries are then given in plain arithmetic.
- `ClientIp`: the client address behind trusted proxy hops.
- `Acl`, `GenerateAcl`: ACL validation, the capability mask, and the ACL that `generate-key` stores.
- `Kek`, `KeyTable`, `UnwrapCache`, `UnwrapRuns`, `Lru`: wrapping, the key table and its SQL statements, and the
  unwrap cache, both sequentially and with calls split at their `await`.
- `VaultUnwraps`: split `unwrap` calls on the whole vault.
- `Handlers`, `Vault`, `VaultInvariant`: the API operations and the whole vault as a state machine whose steps
  are API requests, expiry sweeps, cache clears, restarts, and the edits of `kv-admin` running in another process;
  the invariant that every step keeps.
- `ServerOps`: the key operations as methods on the key store and database objects, proved to do the vault's steps.
- `Answers`: the exact answer of each operation to each request, by key, caller and library result.
- `Rights`, `Listing`, `Masking`, `Invisible`, `Rotation`, `TokenRoundTrip`: what callers can and cannot get or
  learn.
- `KvAdmin`, `RewrapLive`: the `update-acl` and `rewrap` commands, alone and beside a live server.
- `AuditCoupling` (in `Audit.dfy`), `BodyReader`: dispatch, audit, respond; and reading a request body.
- `Migrate`: the migration runner.

How the model reads the program:

- Each SQL statement is atomic, and so is the JavaScript between two `await`s. `UnwrapRuns` and `VaultUnwraps` split
  `unwrap` at its `await`, `AuditCoupling` splits a request at its audit appends, and `Rights.RevokeGap` a revoke;
  elsewhere a handler is one step.
- A JWE is a free constructor that decrypts only under its own KEK; sha256 is injective; new key ids are fresh.
  A number stands for the randomness of an encryption or a key.
- The JOSE libraries are function-valued parameters (`Handlers.Lib`). Theorems that need something of them say so
  in a `requires` (`TokenRoundTrip.JweContract`, `TokenRoundTrip.JwtContract`).
- The database clock counts microseconds and the process floors it to milliseconds.
- A JavaScript `Map` is a list in which setting a present key keeps its position.
- Existence masking is proved as noninterference, twice: between two runs (`Masking.Indistinguishable`), and by purging
  one run (`Masking.ExistenceMasking`). The rotation of KEKs is proved invisible by refining the vault to a machine
  without KEKs, ciphertexts and cache (`Rotation`).

Where the code and its documentation or its design differ, the model follows the code:

- `clientip.js:19-20` says that a header with fewer entries than hops falls back to the socket peer. The code takes
  the leftmost header entry. `ClientIp.ShortHeader` says exactly when the two agree.
- `API.md` says that a submitted `acl` is used verbatim. If the caller's own entry occurs in two spellings, the code
  drops what the later, lower-case one grants. `GenerateAcl.KeepsAllIffUnshadowed` gives the exact condition.
- The cache is the recency order cut at the capacity only until a cached key is revoked while older keys have been
  evicted. `Lru.ExactOrder` gives the exact order on every trace, and when it is that one; `Lru.RevokeDeficit` is a
  trace on which it is not.
- The cache compares only a hash of the ciphertext. A hit agrees with a direct unwrap exactly when the row names the
  KEK that made its ciphertext (`UnwrapCache.HitAgreesIff`); every row of every reachable table does.
- A masked denial appends to the audit log twice and a missing key once, so the two answers differ if the log fails
  between the appends (`AuditCoupling.MaskingUnderAuditFailure`).
- The audit events of a denial name the key only if the request data does (`AuditCoupling.DenialNamesKey`).

## Model

| member | source | states |
|---|---|---|
| Text.SplitJoin | ipmatch.js:54-71 | Splitting at a separator inverts joining parts that are free of it |
| Text.NumeralRoundTrip | ipmatch.js:26-33 | Parsing the decimal or hexadecimal numeral of a number gives the number back |
| Text.TrimCuts | ipmatch.js:90 | Trimming cuts blanks off both ends, and all of them |
| IpText.ParseIPv4 | ipmatch.js:18-35 | The loop computes the value of four octet words, or null |
| IpText.Ipv4Grammar | ipmatch.js:18-35 | A text parses to a number if and only if, trimmed, it is four words of one to three digits up to 255, read in base 256 |
| IpText.SplitGroups | ipmatch.js:54-72 | The eight group texts around at most one `::`, or null |
| IpText.FoldGroups | ipmatch.js:73-80 | The shifted sum of eight one-to-four-digit hexadecimal groups, or null |
| IpText.ParseIPv6 | ipmatch.js:37-81 | Trimming, the embedded IPv4 tail, the split and the fold together compute Ipv6Of |
| IpGrammar.Sound | ipmatch.js:37-81 | Every permitted spelling parses, to the number it denotes |
| IpGrammar.Complete | ipmatch.js:37-81 | Whatever parses has a permitted spelling |
| IpGrammar.Ipv6Grammar | ipmatch.js:37-81 | A text parses to a number if and only if it is a permitted spelling of it (section 2.2 of RFC 4291): full, or any one run of one or more zero groups as `::`, with or without a dotted-quad tail, leading zeros and either case; the number is below 2^128 |
| IpGrammar.FamiliesDisjoint | ipmatch.js:169-180 | No text parses in both families |
| IpMatch.ClearIsRemainder | ipmatch.js:147-154 | Clearing k low bits subtracts the remainder modulo 2^k |
| IpMatch.JsMask | ipmatch.js:147-148 | The signed 32-bit `&` with the computed mask clears exactly the host bits |
| IpMatch.MatchIsInterval | ipmatch.js:133-159 | Address, range, 32-bit mask test and 128-bit shift test hold exactly on the entry's interval (section 3.1 of RFC 4632) |
| IpMatch.BlockIsRange | ipmatch.js:140-148 | A v4 CIDR block matches exactly what the range from its first to its last address matches |
| IpMatch.BlocksNest | ipmatch.js:142-155 | Two blocks of one family that share an address are nested |
| IpMatch.EntryValid | ipmatch.js:86-131 | A parsed entry is within its family's bounds and a range is not empty |
| IpMatch.AnyMatches | ipmatch.js:181-186 | The loop finds an entry if and only if the address lies in the union of the valid entries' intervals |
| IpMatch.IpAllowed | ipmatch.js:164-187 | An address is allowed if and only if there is a list, the address parses, and it lies in that union |
| IpPrint.PrintV4Parses | ipmatch.js:18-35 | The printed dotted quad of an address parses to that address |
| IpPrint.PrintV6Parses | ipmatch.js:37-81 | The printed eight groups of an address parse to that address |
| IpPrint.PrintRoundTrip | ipmatch.js:86-131 | Printing any valid address, CIDR block or IPv4 range and parsing it gives the descriptor back |
| IpMeaning.WordForms | ipmatch.js:22-77 | The words are one to three decimal digits, and one to four hexadecimal digits |
| IpMeaning.QuadMeaning | ipmatch.js:18-35 | Four words `a.b.c.d` of one to three digits parse to a·2^24 + b·2^16 + c·2^8 + d when all are at most 255, else to null |
| IpMeaning.GroupsMeaning | ipmatch.js:73-80 | Eight groups make the number with the first in bits 112 to 127 and the last in bits 0 to 15 |
| IpMeaning.CidrText | ipmatch.js:92-110 | A text with one slash is the block of its address with the prefix length in digits, up to 32 or 128, or invalid |
| IpMeaning.RangeText | ipmatch.js:111-119 | A text with one dash is the range between two IPv4 addresses in ascending order, or invalid |
| IpMeaning.AddressText | ipmatch.js:120-130 | A text without slash and dash is an address of the family it parses in, or invalid |
| IpMeaning.OtherText | ipmatch.js:86-131 | No other text is an entry: none with a slash but a block, and none with a dash but a range |
| IpMeaning.MatchMeaning | ipmatch.js:133-159 | An entry lets in its address, the addresses from low to high inclusive, or those that agree with the block in the leading bits |
| IpMeaning.UnionMeaning | ipmatch.js:181-186 | An address is in the union exactly if some valid entry of the list lets it in |
| ClientIp.MappedIsPlain | clientip.js:39-47 | An IPv4-mapped address in any case and the plain quad have one canonical form, the quad |
| ClientIp.NormIpTwice | clientip.js:39-47 | A canonical form stays as it is |
| ClientIp.NormIpElse | clientip.js:39-47 | Any text but a mapped quad keeps its form but for the blanks around it, and only blank texts have none |
| ClientIp.BuildList | clientip.js:22-32 | The list is the peer followed by the non-blank header entries from right to left |
| ClientIp.DeriveClientIp | clientip.js:21-37 | The loop and the clamped index select the entry that many hops from the right |
| ClientIp.NoHops | clientip.js:33-36 | With hops missing or not positive the result is the peer whatever the header says |
| ClientIp.HopsFromRight | clientip.js:21-37 | With n hops the result is the n-th header entry from the right, or the leftmost when there are fewer |
| ClientIp.EntriesAppend | clientip.js:24-27 | Whatever precedes a comma only adds entries on the left |
| ClientIp.TrustedSuffix | clientip.js:21-37 | A suffix with an entry for every hop determines the result whatever precedes it |
| ClientIp.ForgedPrefixHarmless | clientip.js:14-17 | A forged prefix can never change the result if and only if the trusted suffix has an entry for every hop |
| ClientIp.ShortHeader | clientip.js:19-20 | With fewer entries than hops the result is the socket peer exactly when there is no entry or the leftmost is the peer; the comment says always |
| ClientIp.ShortHeaderExample | clientip.js:33-36 | One entry and two hops give the entry, not the peer |
| Acl.ValidateAcl | acl.js:23-58 | The loops compute Validated: the normalized ACL or the first error in order |
| Acl.CollectClasses | acl.js:40-48 | The inner loop deduplicates in order of first occurrence, or meets an unknown class |
| Acl.DedupOrder | acl.js:40-48 | Of two classes kept, the one submitted first comes first |
| Acl.ValidatedExactly | acl.js:23-58 | Accepted exactly for objects of UUID users distinct up to case with arrays of known classes and an owner; each user then has its deduplicated classes and nobody else has any |
| Acl.ValidatedError | acl.js:23-58 | A refusal names the first fault from left to right, and a missing owner only when there is no other |
| Acl.UuidShape | basicutils.js:29-33 | A UUID is 8-4-4-4-12 hexadecimal digits of either case |
| Acl.ValidatedWellFormed | acl.js:19-22 | The result has lower-case UUID users, duplicate-free known classes and an owner |
| Acl.WellFormedIsFixpoint | acl.js:19-58 | A well-formed ACL validates to itself in whatever order its members are listed |
| Acl.HasEffectiveAny | acl.js:139-146 | The search loop finds a class if and only if one is granted and unmasked |
| GenerateAcl.MergeCaller | serverhandlers.js:163-183 | The in-place merge computes ExplicitAcl |
| GenerateAcl.AcceptedIff | serverhandlers.js:159-183 | An ACL is accepted if and only if the first own entry of the caller, if any, is a list of known classes, and the entries beside it are valid, for distinct users, and no other spelling of the caller |
| GenerateAcl.ExplicitGrants | serverhandlers.js:159-183 | The caller is an owner on top of its first own entry; every other user keeps its deduplicated grants; nobody else is granted anything |
| GenerateAcl.KeepsAllIffUnshadowed | serverhandlers.js:169-179 | Every submitted grant is kept if and only if no later own entry is shadowed by an earlier spelling of the caller |
| GenerateAcl.ShadowedExample | serverhandlers.js:169-179 | Two spellings of the caller: the second entry's class is lost |
| GenerateAcl.BuildDefault | serverhandlers.js:193-208 | Filtering, deduplicating and assigning the co-owners computes DefaultAcl |
| GenerateAcl.DefaultGrants | serverhandlers.js:188-209 | Without `acl`, owner goes to exactly the caller and the existing valid co-owners, and validation cannot throw |
| Kek.BuildManager | kek.js:117-127 | Succeeds if and only if the ids are distinct, indexing exactly the given KEKs; otherwise names the first repeated id |
| Kek.ExtractIff | kek.js:161-177 | Extraction gives a secret exactly for a configured KEK, a JWE made under it and a consistent embedding of the expected key |
| Kek.EmbedRoundTrip | kek.js:145-177 | Any manager that knows the wrapping KEK, active or retired, extracts what was embedded; any other reports it missing |
| KeyTable.VaultDb.InsertKey | serverdb.js:157-171 | Appends the row in serial order, or fails and changes nothing when the key id exists |
| KeyTable.VaultDb.KeyById | serverdb.js:173-179 | A row with the key id, the only one as ids are unique; none exactly when no row has it |
| KeyTable.VaultDb.KeysByAclUser | serverdb.js:181-187 | Exactly the rows whose ACL has the user as a member, in serial order |
| KeyTable.VaultDb.DeleteKey | serverdb.js:189-192 | Removes the key's row and reports whether it was there |
| KeyTable.VaultDb.UpdateKeyAcl | serverdb.js:194-198 | Replaces one row's ACL and nothing else |
| KeyTable.VaultDb.UpdateKeyEmbedding | serverdb.js:200-206 | Replaces one row's KEK id and ciphertext and nothing else |
| KeyTable.VaultDb.SweepExpiredKeys | serverdb.js:208-216 | Deletes the rows past their expiry by more than the grace and counts them |
| KeyTable.VaultDb.KeysNotEmbeddedWith | serverdb.js:228-234 | Exactly the rows under another KEK, in serial order |
| KeyTable.VaultDb.MissingUsers | serverdb.js:131-138 | Exactly those of the given ids that are no users, in the order given |
| KeyTable.FindAfter | serverdb.js:189-206 | Delete and the two updates change the row of their own key and no other |
| KeyTable.FindInserted | serverdb.js:157-171 | An insert adds its key and disturbs no other |
| KeyTable.FindSwept | serverdb.js:208-216 | A sweep removes a key exactly when its expiry is past by more than the grace |
| KeyTable.UpdatesCommute | serverdb.js:194-206 | The rewrap update and `update-acl` commute |
| KeyTable.UpdateRestoresNothing | serverdb.js:200-206 | An update of a deleted key changes nothing |
| UnwrapCache.KeyStore.constructor | keystore.js:30-42 | The cache begins empty, with the configured limits or 1024 entries and 300 seconds, kept in milliseconds |
| UnwrapCache.KeyStore.BeginUnwrap | keystore.js:100-109 | Before the await: a fresh hit moves to the most recent place, a stale entry is dropped |
| UnwrapCache.KeyStore.FinishUnwrap | keystore.js:111-115 | After the await: store, then the loop evicts the oldest entries beyond the capacity |
| UnwrapCache.KeyStore.UnwrapNow | keystore.js:96-116 | The whole of `unwrap` when nothing comes in between |
| UnwrapCache.KeyStore.Forget | keystore.js:123-127 | A revoke drops the key's entry and no other |
| UnwrapCache.KeyStore.CacheClear | keystore.js:118-120 | Clearing empties the cache |
| UnwrapCache.UnwrapTransparent | keystore.js:96-116 | With any truthful cache, unwrapping a table row equals extracting it, and keeps the cache truthful |
| UnwrapCache.ServedWhileFresh | keystore.js:103-114 | What was stored is served again exactly until its time to live is over |
| UnwrapCache.HitAgreesIff | keystore.js:103-107 | A live hit agrees with a direct extract if and only if the row names the KEK of its ciphertext |
| UnwrapRuns.FinishBounds | keystore.js:111-115 | Storing never exceeds the capacity and keeps the key just stored |
| UnwrapRuns.ReachableBounds | keystore.js:102-115 | In every interleaving the size is within the capacity, a key just returned is cached, and a served entry's extract began less than one time to live ago |
| VaultUnwraps.AlwaysTransparent | keystore.js:96-127 | On the whole vault, in every interleaving of split calls with requests, revokes, rewraps, ACL edits, sweeps, clears and restarts, each unwrap of a row read at any earlier time equals its direct extract: the secret generated for the key, or the KEK is missing |
| VaultUnwraps.Undisturbed | keystore.js:96-116 | A split call with nothing in between answers once, for the table's row of the key, and leaves the cache of the whole unwrap |
| Lru.ExactOrder | keystore.js:100-127 | On every trace the map order is exactly the recency order cut at a number of slots computed from the trace; it is the order cut at the capacity if and only if these are as many as capacity and recency order allow |
| Lru.RevokeDeficit | keystore.js:112-126 | A trace after which the recency order cut at the capacity has a key that the cache lacks |
| Lru.ExactWithoutRevokes | keystore.js:100-115 | Without revokes the map order is exactly the recency order cut at the capacity |
| Lru.StackInclusion | keystore.js:100-127 | On any trace a smaller cache holds the most recent part of what a larger one holds, whatever their times to live |
| Handlers.SecretMatters | serverhandlers.js:107-116 | An operation that does not unwrap cannot depend on the secret; one that does tells an authorized caller of a missing KEK |
| Handlers.NewAclOk | serverhandlers.js:157-209 | Every ACL that generate-key stores is well formed and has the caller as an owner |
| Handlers.GranteesExist | serverhandlers.js:184-202 | Every grantee of a new key exists, apart from a caller without `acl`; the unknown-user error comes exactly for an otherwise valid ACL that names one |
| VaultInvariant.KeyAnswer | serverhandlers.js:85-116 | The answer about a key that is there: a marked denial, key-not-found out of its window, or what the operation makes of the directly extracted secret; the cache never shows |
| VaultInvariant.RowSecret | kek.js:161-177 | Every row ever stored extracts to the secret generated for its id, or its KEK is missing |
| VaultInvariant.RewrappedRowOk | kvadmin.js:355-363 | Rewrapping rebuilds the claims embedded at generation |
| VaultInvariant.StepKeepsInv | serverhandlers.js:118-364 | Every step of the vault keeps the invariant and forgets no generated key |
| VaultInvariant.RunKeepsInv | serverhandlers.js:118-364 | So does every run |
| VaultInvariant.SecretImmutable | keystore.js:48-73 | Over any run a surviving row changes only in ACL and wrapping, extracts exactly when its KEK is known, and always to the same secret |
| VaultInvariant.StoredAclsNormal | acl.js:23-58 | Every ACL in every reachable table is a fixpoint of validateAcl |
| ServerOps.Revoke | keystore.js:123-127 | Deletes the row, then the cache entry |
| ServerOps.UseKey | serverhandlers.js:226-352 | After authorization: unwraps only when the secret is needed, and then through the cache |
| ServerOps.AuthorizedKey | serverhandlers.js:85-102 | Returns the row exactly if it is there, granted, unmasked and in its window; otherwise key-not-found, marked exactly for a denial |
| ServerOps.FinishOperation | serverhandlers.js:226-352 | Given an authorized row, revokes it or uses it: the outcome, the row and the cache entry that are left |
| ServerOps.RunKeyOperation | serverhandlers.js:85-352 | Load, authorize, then unwrap, use or revoke: leaves database, cache and outcome as the vault's step says |
| ServerOps.ListKeys | keystore.js:132-138 | Query and filter loop compute the vault's listing |
| ServerOps.GenerateKeyRow | keystore.js:48-73 | Inserts a row that extracts to the new secret, or fails on a used key id and changes nothing |
| Answers.AskedIff | serverhandlers.js:28-76 | A request names a key exactly if it has no extra property, the key ids given agree, and what its operation demands is present |
| Answers.Refused | serverhandlers.js:28-76 | A request that names none is refused with 1100, 1103 or 1104 as its fault is, before any key is looked at, and changes nothing |
| Answers.NotLiveAnswer | serverhandlers.js:85-102 | Whoever the key is not live for gets 1101 without detail, marked exactly for a denial, and no row changes |
| Answers.PublicKeyAnswer | serverhandlers.js:226-234 | An authorized public-key gives the public half of every asymmetric key, and 1102 for a symmetric one |
| Answers.CreateJwtAnswer | serverhandlers.js:236-257 | An authorized create-jwt gives what the library signs with the generated secret under the key's algorithm; 1102 for an algorithm that does not sign, 1106 without the KEK, 1100 with its reason for a claim the library refuses |
| Answers.VerifyJwtAnswer | serverhandlers.js:259-284 | An authorized verify-jwt gives header and payload when the header names the key's algorithm and the library verifies with the key's half; else 1102, 1103 with a reason only about time, or 1106 |
| Answers.CreateJweAnswer | serverhandlers.js:286-305 | An authorized create-jwe gives what the library encrypts with the secret of a symmetric or the public half of any other key; only the symmetric key needs its KEK |
| Answers.DecryptJweAnswer | serverhandlers.js:307-326 | An authorized decrypt-jwe gives header and payload when the header names the key's algorithm and its secret decrypts; else 1102, 1103 or 1106 |
| Answers.RevokeKeyAnswer | serverhandlers.js:328-338 | An authorized revoke-key succeeds, removes that key and no other |
| Answers.ExportKeyAnswer | serverhandlers.js:340-352 | An authorized export-key gives the generated secret, 1104 where exports are off, 1106 without the KEK |
| Answers.ListKeysAnswer | keystore.js:132-138 | list-keys answers one entry for each key on which some key operation is authorized, with that key's id, type and algorithm, and no other entry |
| Answers.ListKeysRefused | serverhandlers.js:354-361 | An extra property gets 1100, otherwise a mask without list-keys 1107 |
| Answers.HealthcheckAnswer | serverhandlers.js:120-123 | The whole seconds since the start |
| Answers.SinceRestart | serverhandlers.js:120-123 | From one restart to the next, whatever happens, the server counts its time from the first and runs with the KEKs given then; the restart changes no key |
| Answers.GenerateKeyAnswer | serverhandlers.js:125-224 | generate-key succeeds exactly for a mask that allows it, parameters in range and an acceptable ACL of existing users; else it changes nothing and answers 1107, 1100 or 1105 in this order |
| Answers.GeneratedKey | keystore.js:48-73 | The new row comes last with the requested type, algorithm and times, the ACL that was accepted or made up, the public half of an asymmetric key, and the secret with its claims under the active KEK; the answer has the id, and the public half if asked for |
| Rights.ResolvedIff | serverhandlers.js:53-76 | A token operation resolves to the key that the request and the header name, where each names it or is silent and one does |
| Rights.NotFoundIff | serverhandlers.js:80-102 | Key-not-found exactly when the key is missing, not granted by its documented class or owner, masked out, or outside its window; only a denial is marked |
| Rights.NotAvailableIff | serverhandlers.js:104-116 | Key-not-available exactly to callers for whom the key is live, from operations that need the secret, when the server lacks the KEK |
| Rights.DoneMeans | serverhandlers.js:226-352 | Success means a fitting algorithm, a token naming exactly that algorithm, a public half or an export that belongs to the generated secret, and for an export the server's consent |
| Rights.OperationFrame | serverhandlers.js:226-352 | A key operation changes no row, except that a successful revoke deletes its own |
| Rights.MaskIsCap | acl.js:111-134 | Over any run a user never succeeds with an operation whose class its mask lacks, a malformed mask lacking all |
| Rights.RevokedForGood | serverhandlers.js:328-338 | After a revoke no later request on the key, by anyone, gets anything but key-not-found, and no listing has it |
| Rights.LiveKeyKept | serverdb.js:208-216 | Over any run a key that nobody asked to revoke and that is not past its expiry is still there |
| Rights.GoneIffSwept | serverdb.js:208-216 | Over any run a key that nobody asked to revoke is gone if and only if one of the run's sweeps came when its expiry was past by more than the grace |
| Rights.RevokeGap | serverhandlers.js:331-336 | With anything between the load and the delete of a revoke, the delete reports a key missing that nobody else revoked if and only if a sweep in the gap took it; afterwards it is gone |
| Rights.GeneratedUsable | serverhandlers.js:138-149 | A generated key is live for its creator, for what its mask permits, exactly once its start has come, and holds the generated secret |
| Listing.PrefilterLosesNothing | serverdb.js:181-187 | Filtering by ACL membership in SQL loses no key that the listing would show |
| Listing.ListedOnce | keystore.js:132-138 | No key is listed twice |
| Listing.ListExact | keystore.js:132-138 | In every reachable state a key is listed if and only if some key class would be authorized on it at that instant, in table order |
| Masking.SweepTakesExpired | serverdb.js:208-215 | A sweep with any grace deletes only rows that are already expired for the process |
| Masking.StepTogether | serverhandlers.js:85-364 | Two vaults that agree but for hidden and expired keys and caches still do after the same step, and answer an observer alike |
| Masking.StepAlone | serverhandlers.js:85-102 | A step on hidden keys, a sweep, a cache clear, or a rewrap iteration on a hidden or expired key changes nothing that counts |
| Masking.Indistinguishable | serverhandlers.js:80-102 | Two runs that differ only in hidden and expired keys and such steps give every observer, listings included, the same responses; restarts and all other rewraps are in both |
| Masking.ExistenceMasking | serverhandlers.js:80-102 | Remove from any run the keys on which a user never has an effective class, and the steps on them: a possible run remains that gives the user the same responses |
| Invisible.SweepHygiene | keystore.js:79-91 | Runs that differ only in sweeps, cache clears and rewrap iterations on expired keys give every caller the same responses, with restarts and any other rewraps |
| Invisible.SweepFree | keystore.js:79-91 | Every run, rewraps and restarts included, has a possible counterpart without any sweep that gives every caller the same responses |
| Invisible.SweepsUnseen | serverdb.js:208-216 | Where no rewrap is under way, runs equal but for their sweeps give every caller the same responses |
| Invisible.CacheInvisible | keystore.js:93-116 | Over any run every response is the same whatever the cache holds, its capacity and its time to live |
| Rotation.RewrapSeenIff | kvadmin.js:346-364 | A rewrap iteration changes what the server reads of a row exactly when the server knows one of its two KEKs and not the other |
| Rotation.RestartSeenIff | README.md:285-293 | A restart changes what the server reads exactly when some key in force is under a KEK known only before or only after it |
| Rotation.RotationUnseen | README.md:279-293 | A run gives every caller, but for the uptime, the same responses as without its rewraps, restarts, sweeps and cache clears, where each rewrap and restart keeps readable what was |
| Rotation.RunbookUnseen | README.md:279-293 | So the documented rotation is invisible: new KEK added at a restart, rewraps into it, old one dropped at a restart once nothing is under it |
| TokenRoundTrip.TokenSurvives | serverhandlers.js:286-326 | A create-jwe token, sent with or without a key id, opens to its payload in every later state where the key is there and the caller may decrypt, if and only if the KEK is configured |
| TokenRoundTrip.SignatureSurvives | serverhandlers.js:236-284 | A create-jwt token verifies likewise, exactly within its own time limits |
| KvAdmin.UpdateAclCommand | kvadmin.js:316-336 | Succeeds exactly for a valid ACL of known users on an existing key, and changes that ACL alone |
| KvAdmin.RewrapKeys | kvadmin.js:338-369 | The loop leaves the table that its iterations give; rewrapped and skipped add up to the work list |
| KvAdmin.RewrapWrites | kvadmin.js:355-363 | An iteration on a readable key writes the secret with its times of validity as at generation, issued now, under the active KEK |
| KvAdmin.StopAnywhere | kvadmin.js:346-365 | Stopped after any iteration, no key is lost or altered but in its wrapping, and each extracts under active and retired KEKs as before |
| KvAdmin.LeftOver | kvadmin.js:348-354 | A full run leaves a row off the active KEK exactly when it could not extract it |
| KvAdmin.CompleteIff | kvadmin.js:338-369 | Nothing skipped if and only if a second run's work list is empty; then it changes nothing and the active KEK alone extracts every key |
| RewrapLive.StartWork | kvadmin.js:338-345 | A rewrap starts with exactly the keys that are not under its active KEK, in table order |
| RewrapLive.RowStep | kvadmin.js:363-363 | No step brings back a key, and only a rewrap changes which KEK a key is under |
| RewrapLive.NeverRestored | serverdb.js:200-206 | A revoked or swept key never comes back, whatever is still under way |
| RewrapLive.RotationSafe | kvadmin.js:338-369 | Beside a live server and other rewraps, a key extractable before stays extractable to the same secret |
| RewrapLive.RotationComplete | kvadmin.js:338-369 | Finished with nothing skipped, and with no insert or other rewrap under another KEK, every key is under the active KEK |
| AuditCoupling.ServeAccounts | server.js:140-187 | In every interleaving each request's own log events fit where it is |
| AuditCoupling.Coupling | server.js:161-186 | An ok response to an audited operation has exactly its own event in the log, a delivered masked denial its two events; a failed append is answered 1900 |
| AuditCoupling.NothingUnrecorded | server.js:83-84 | In every interleaving an ok response to any operation but healthcheck has exactly one event: its name, user and operation id, outcome ok; an error one with its code; a masked denial that and then `denied`; healthchecks and unknown operations none |
| AuditCoupling.AnsweredInFull | server.js:140-187 | While the log works, a request is answered with what its handler gave, and an unknown operation with 1002 |
| AuditCoupling.MaskingUnderAuditFailure | server.js:173-181 | A masked denial and a missing key are answered alike exactly unless the log fails between the two appends |
| AuditCoupling.SuccessNamesKey | server.js:166-168 | The event of a success names the key acted on or made, also where only a token header named it |
| AuditCoupling.DenialNamesKey | server.js:169-177 | The events of a failed operation name its key exactly when the request data does |
| BodyReader.Reader.constructor | server.js:42-46 | A reader begins unsettled and empty |
| BodyReader.Reader.OnData | server.js:47-58 | A chunk is buffered, or settles the promise as too large; the outcome is that of all events so far |
| BodyReader.Reader.OnEnd | server.js:59-65 | The end resolves to all chunks in order, unless already settled |
| BodyReader.Reader.OnError | server.js:66-72 | An error rejects, unless already settled |
| BodyReader.VerdictStep | server.js:46-72 | The first settlement is final |
| BodyReader.VerdictExact | server.js:42-74 | Resolves exactly when an end follows data within the limit, to that data; too large exactly when data overruns the limit first |
| BodyReader.BufferedInOrder | server.js:59-65 | The data is joined in the order of arrival |
| Migrate.FilesInOrder | dbmigrate.js:44-46 | The files applied are exactly those named digits, underscore, a one-line description and `.sql`; each precedes the later ones by ending first or by the smaller character at the first difference |
| Migrate.ListingOrderIrrelevant | dbmigrate.js:44-46 | It does not depend on the order of the directory listing |
| Migrate.Database.ApplyFile | dbmigrate.js:66-75 | The SQL and its record take effect together or not at all |
| Migrate.DbMigrate | dbmigrate.js:55-81 | The loop ends as its iterations say: finished with its report, or thrown at the file that failed |
| Migrate.AtMostOnce | dbmigrate.js:58-79 | With any failures and concurrent migrators no file takes effect twice, and the schema is the fold of the recorded files |
| Migrate.Resume | dbmigrate.js:12-18 | With a fixed directory the record is always a prefix of the list, and all of it once any migrator finishes |
| Migrate.ResumedEqualsUninterrupted | dbmigrate.js:16-18 | After any history one undisturbed run applies exactly the rest and leaves the state of a single uninterrupted run |

## Left out

- JOSE cryptography, hashing and key generation: libraries; a key's parameters arrive resolved in `KeySpec`.
- The parameter matrix of `keygen.js`: a finite table.
- The audit hash chain, sealing and verification: library code; the log is a sequence whose append may fail.
- HTTP, JSON parsing, header handling, `/healthz` and `/readyz`, signals, timers, startup and option loading: I/O and
  configuration.
- `serverauth.js`: a conjunction of tests; the authenticated user is an input.
- User administration commands of `kv-admin`, other than users coming and going.
- PostgreSQL pooling and reconnection; transactions of the migration runner are atomic.
- JavaScript prototype effects, and strings outside the Basic Multilingual Plane where they would compare differently.
- The text after `Unknown property:` in an error: a function of the request alone.
- A `kid` property sent with an operation that takes none: it would appear in the audit event of the failure.
- Upper-case key ids given to `update-acl`: the database folds them.
- Timestamps beyond the range of a JavaScript date or a PostgreSQL timestamp.
- Vault.Next: a handler and `update-acl` are one step each. What a gap between the load and the delete of `revoke-key`
  can show is stated by `Rights.RevokeGap`.
- AuditCoupling.Coupling: a process that dies between an effect and its event leaves no response and no event.
- Migrate.Resume: a directory that gains a file sorting before an applied one is outside the fixed-directory result;
  `Migrate.AtMostOnce` still holds.
