# Verification of Coinly's identity sessions, money, password hashes and key sets

This project models, in Dafny, the parts of Coinly whose correctness is not visible from one function at a
time, and proves what they promise:

- the refresh-token session protocol of `AuthService`: rotation on every use, reuse detection that ends all
  of a user's sessions, suspension, under failing collaborators and under interleaved calls;
- the two token stores behind it, in memory keyed by hash and in SQL keyed by id with times in whole
  microseconds, and the doubly indexed user store;
- money arithmetic on wrapping int64 minor units, with `Split`;
- the PHC password-hash printer and parser, with Go's base64 and `Sscanf`;
- JSON Web Keys and the static key set.

Run `dafny verify dfyconfig.toml` with Dafny 4.11.

## How it is laid out

| file | content |
|---|---|
| `Wrappers.dfy`, `Sets.dfy`, `GoInt.dfy` | options and results; sizes of finite sets; int64 wrap-around and truncating division |
| `Monetary.dfy` | `Money`, `Split` as a loop over an array, folds, uniqueness of the split |
| `Base64.dfy`, `Text.dfy` | unpadded base64 (sections 4 and 5 of RFC 4648), `strings.Split`, `%d` printing and scanning |
| `PasswordHash.dfy`, `HashGrammar.dfy`, `Argon2.dfy` | the PHC string and `Verify`; which texts are hashes; the hasher as `AuthService` sees it |
| `Jwks.dfy` | `JWK`, `StaticKeySet` |
| `Domain.dfy`, `Tables.dfy` | tokens and users one at a time; the two tables as values, and faults |
| `Repos.dfy`, `Stores.dfy` | the in-memory repositories as classes; the SQL token table and its agreement with the table by hash |
| `Auth.dfy`, `Service.dfy` | the use cases as functions on the tables; `AuthService` as a class proved against them |
| `AuthAnswers.dfy` | what every use case answers and stores, column by column, under every fault |
| `AuthRuns.dfy`, `AuthSafety.dfy`, `AuthSessions.dfy` | runs of uninterrupted calls: effects, safety, families and counts |
| `Steps.dfy`, `StepSafety.dfy` | one step per repository call, any interleaving: what still holds |
| `StepLimits.dfy` | what a state of interleaved calls still allows, exactly: exchanges, revocation times, rows of a suspended user |
| `StepSessions.dfy`, `StepReuse.dfy`, `StepSecrets.dfy` | session families, what outlives a reuse response, and what becomes of each secret when calls interleave |
| `StepRefinement.dfy` | an uninterrupted call is the use case |
| `StepStores.dfy`, `StepRounding.dfy` | memory against SQL in every interleaving: when the stores agree, and when callers notice the rounding |
| `StepWitnesses.dfy` | schedules that show which guarantees need uninterrupted calls |

## How the source is read

- A call to a repository or to the issuer takes a `Fault`: `NoFault`, `Lost` (an error, no effect) or `Torn`
  (an error after the effect). Theorems hold for every combination unless they say otherwise.
- Randomness, ids, the clock, SHA-256, argon2, email normalisation and JWT signing are parameters. Nothing is
  assumed of the token hash, not even that it separates secrets: both stores refuse a second row for a hash.
  New user ids are assumed fresh, as `ids.New` makes them; token ids only where the SQL primary key matters.
- Time is an integer number of nanoseconds. The SQL columns are `timestamptz`
  (services/identity/internal/adapters/out/postgres/migrations/00001_init.sql:18-28) and keep whole
  microseconds, while the clock (services/identity/cmd/identity/main.go:152) need not; what is below a
  microsecond is dropped on the way in, by pgx, which is not part of this model. The step layer has the table
  by hash at any resolution: at a nanosecond it is the store in memory, at a microsecond it behaves as SQL does.
  The expiry announced with a token is not rounded, so over SQL it can lie past the stored one, by less than a
  microsecond (`StepSafety.ReturnedSecretStaysStored`).
- A `char` of a password stands for one byte, a `char` of a hash text for one code point.
- The code and its comment differ in one place: `Revoke` and the SQL comment keep the first revocation time,
  but `Update` writes `revoked_at` whatever the row holds (services/identity/internal/adapters/out/postgres/refresh_tokens.go:34), so two overlapping calls can
  replace it (`StepWitnesses.FirstRevocationTimeCanBeLost` gives the schedule). The time is kept whatever
  follows if and only if no call in flight is about to write that token with another time
  (`StepLimits.RevocationTimeIsKeptWhen`), so always when calls do not interleave (`AuthSafety.RunKeepsInv`).
- `RefreshToken` and `User` are classes whose never-assigned fields are constants. The code paths that
  panic in argon2 (no iterations, no lanes or no key bytes) appear as the error `KdfPanic`; golang.org/x/crypto
  is not part of this model.

## Model

| member | source | states |
|---|---|---|
| `GoInt.TruncatedDivision` | pkg/money/money.go:98-99 | Go's quotient and remainder are the only pair with a = q*b + r, r smaller than b and of a's sign |
| `GoInt.WrapIsResidue` | pkg/money/money.go:71-85 | the value an int64 holds after an overflow is the one int64 congruent to the exact result modulo 2^64 |
| `GoInt.WrapAbsorbs` | pkg/money/money.go:67-81 | wrapping an intermediate sum or difference early does not change the final int64 |
| `Monetary.Split` | pkg/money/money.go:93-116 | for every int64 amount and count: the error exactly for n <= 0, otherwise the even shares; no intermediate operation leaves int64 |
| `Monetary.PrefixTotal` | pkg/money/money.go:98-115 | the first k parts sum to k times the base plus min(k, rem) signed units |
| `Monetary.SplitConserves` | pkg/money/money.go:88-92 | the parts sum to the amount and keep its currency |
| `Monetary.AddingPartsNeverWraps` | pkg/money/money.go:67-116 | folding Add over the parts never errors or wraps, at any prefix, and gives m back |
| `Monetary.SplitIsTheEvenSharing` | pkg/money/money.go:88-116 | a list is a rearrangement of the split if and only if it has n parts, m's currency and sum, and parts that differ by at most one unit |
| `Monetary.NestedSplitIsFlatSplit` | pkg/money/money.go:93-116 | splitting into n and each part into k is, as a multiset, splitting into n*k |
| `Monetary.FoldAddIsTotal` | pkg/money/money.go:67-72 | a fold of Add is the exact sum wrapped once, and fails exactly on a foreign currency |
| `Monetary.FoldAddIgnoresOrder` | pkg/money/money.go:67-72 | the order of additions changes neither result nor failure |
| `Monetary.FoldSubUndoesFoldAdd` | pkg/money/money.go:67-81 | folding Sub over the same list undoes folding Add, wrapped or not |
| `Monetary.SplitCommutesWithNeg` | pkg/money/money.go:83-116 | splitting the negated amount negates the parts if and only if the amount is not the least int64 or n is 1 |
| `Monetary.NegIsTheInverse` | pkg/money/money.go:67-86 | Neg gives the one amount that Add brings to zero, and what Sub takes zero to; the least int64 is its own |
| `Monetary.SubIsAddBackwards` | pkg/money/money.go:67-81 | Sub gives what Add takes back, and fails exactly on a foreign currency |
| `Base64.RoundTrip` | services/identity/internal/domain/password.go:82-129 | every byte string survives encoding and decoding, in both alphabets |
| `Base64.AcceptedIsCanonicalWhen` | services/identity/internal/domain/password.go:121-129 | an accepted text re-encodes to itself if and only if it has no line break and zero spare bits |
| `Base64.CharIsTabulated` | pkg/jwtx/jwks.go:35 | the digits are those of tables 1 and 2 of RFC 4648 |
| `Base64.DigitsAreBits` | services/identity/internal/domain/password.go:82-85 | the digits are the bits of the bytes, six at a time, filled up with zeros |
| `Base64.DecodesWhen` | services/identity/internal/domain/password.go:120-128 | a text is accepted, and as which bytes, if and only if without line breaks it is digits, not one more than whole groups of four, whose bits are those bytes |
| `Base64.DecoderIsLenient` | services/identity/internal/domain/password.go:121-129 | concrete texts that are accepted without being what the encoder writes |
| `Text.SplitOfJoin` | services/identity/internal/domain/password.go:105-109 | splitting at the separator recovers any separator-free parts |
| `Text.JoinOfSplit` | services/identity/internal/domain/password.go:106 | every text is the join of the separator-free parts that it is split into |
| `Text.SpacesAreThese` | services/identity/internal/domain/password.go:111-117 | the white space that a scan skips, one code point at a time |
| `Text.ScanIntWhen` | services/identity/internal/domain/password.go:111-112 | a scan into an int reads n if and only if the text is white space, an optional sign and digits worth n within 64 bits, and then no digit |
| `Text.ScanUintWhen` | services/identity/internal/domain/password.go:116-117 | the same without a sign and below the bound of the variable |
| `Text.ScanUintOfDecimal` | services/identity/internal/domain/password.go:83-117 | an unsigned scan reads back a printed decimal and stops right behind it |
| `PasswordHash.DecodeOfPrint` | services/identity/internal/domain/password.go:73-137 | decoding a printed hash gives exactly parameters, salt and key, or the malformed error when salt or key is empty; text behind the version or the last parameter is ignored |
| `PasswordHash.AcceptedHashCanBeReprinted` | services/identity/internal/domain/password.go:104-137 | any accepted hash, printed afresh from its parts, is read the same way |
| `PasswordHash.VerifyOfHash` | services/identity/internal/domain/password.go:73-100 | any hasher checks another's hash by the parameters in it: right answer when the salt is not empty, error otherwise |
| `HashGrammar.AcceptedWhen` | services/identity/internal/domain/password.go:104-137 | a text is decoded to given parameters, salt and key if and only if it consists of the six parts that denote them: algorithm, a version worth 19, three numbers in range, two non-empty base64 texts |
| `HashGrammar.RefusesInOrder` | services/identity/internal/domain/password.go:104-134 | every other text is refused, with the error of the first part that is wrong |
| `HashGrammar.OnlyVersion19` | services/identity/internal/domain/password.go:110-113 | a version number is accepted if and only if it is 19 |
| `HashGrammar.HashAnswers` | services/identity/internal/domain/password.go:72-86 | Hash fails exactly without randomness or where argon2 panics, and otherwise prints a text that denotes parameters, salt and derived key |
| `HashGrammar.VerifyAnswers` | services/identity/internal/domain/password.go:88-100 | for every text: the candidate's derived key is compared with the key that the text denotes, and a text that denotes none is an error |
| `Argon2.HasherAnswers` | services/identity/internal/domain/password.go:60-100 | the same for the hasher that AuthService uses |
| `Argon2.FaithfulWhen` | services/identity/internal/domain/password.go:60-100 | every hashed password is accepted later if and only if the salt length is positive or the parameters let nothing be hashed |
| `Jwks.PublicKeySurvives` | pkg/jwtx/jwks.go:28-52 | a key survives its JWK if and only if it has 32 bytes |
| `Jwks.PublicKeyWhen` | pkg/jwtx/jwks.go:40-52 | a key is read if and only if the entry has type OKP and curve Ed25519 and x decodes to its 32 bytes; each of the three errors has its exact condition |
| `Jwks.PublishedEntry` | pkg/jwtx/jwks.go:27-37 | a published entry is well-formed for its key, for EdDSA signatures, under its thumbprint |
| `Jwks.CanonicalIsJson` | pkg/jwtx/jwks.go:54-62 | the hashed text is the JSON object of the required members in order, without white space |
| `Jwks.ThumbprintSeparatesKeys` | pkg/jwtx/jwks.go:54-62 | thumbprints are equal if and only if the keys are, short of a digest collision |
| `Jwks.StaticKeySet.constructor` | pkg/jwtx/jwks.go:69-82 | the loop's map answers every kid like the document |
| `Jwks.StaticKeySet.PublicKey` | pkg/jwtx/jwks.go:84-91 | lookup answers with the last well-formed entry of that kid of the document, else unknown key |
| `Jwks.LookupWhen` | pkg/jwtx/jwks.go:69-91 | a key is served under a kid if and only if the last well-formed entry with the kid, by type, curve, encoding and length, holds it; none if and only if there is no such entry |
| `Jwks.LastKeyIsUnshadowed` | pkg/jwtx/jwks.go:69-82 | that entry is the one no later well-formed entry with the kid shadows |
| `Jwks.MalformedEntriesAreInert` | pkg/jwtx/jwks.go:69-82 | malformed entries inserted anywhere change no lookup |
| `Jwks.PublishedKeyIsFound` | pkg/jwtx/jwks.go:27-91 | every published 32-byte key is found under its thumbprint unless the digest collides |
| `Domain.RefreshToken.Revoke` | services/identity/internal/domain/refresh_token.go:74-81 | sets the time once and changes nothing else |
| `Domain.RefreshToken.Validate` | services/identity/internal/domain/refresh_token.go:62-72 | valid exactly when unrevoked and strictly before expiry; a revoked token is always reported as revoked, expired only when unrevoked |
| `Domain.User.Suspend` | services/identity/internal/domain/user.go:102-106 | status and update time change, nothing else |
| `Repos.TokenRepo.Create` | services/identity/internal/app/apptest/fakes.go:187-199 | inserts a private copy unless the hash is taken; whole new table, under each fault |
| `Repos.TokenRepo.FindByHash` | services/identity/internal/app/apptest/fakes.go:202-214 | the stored row in a fresh object, or the error |
| `Repos.TokenRepo.Update` | services/identity/internal/app/apptest/fakes.go:217-229 | replaces the row under the hash by a private copy |
| `Repos.TokenRepo.RevokeAllForUser` | services/identity/internal/app/apptest/fakes.go:232-244 | the in-place loop revokes exactly the user's unrevoked rows |
| `Repos.TokenRepo.ActiveCount` | services/identity/internal/app/apptest/fakes.go:247-257 | the loop counts exactly the user's valid rows |
| `Repos.UserRepo.EmailsAreUnique` | services/identity/internal/app/apptest/fakes.go:88-93 | two agreeing indexes mean one table with unique emails |
| `Repos.UserRepo.Create` | services/identity/internal/app/apptest/fakes.go:101-114 | the whole new table, under each fault; taken email changes nothing; the indexes still agree if and only if the id was new or nothing was written |
| `Repos.UserRepo.FindByEmail` | services/identity/internal/app/apptest/fakes.go:117-129 | the one user with that email, as a fresh copy |
| `Repos.UserRepo.Update` | services/identity/internal/app/apptest/fakes.go:147-160 | the whole new table, under each fault; the indexes still agree if and only if the email is the stored one or nothing was written |
| `Repos.UserRepo.Delete` | services/identity/internal/app/apptest/fakes.go:164-171 | removes the user from both indexes |
| `Stores.AgreeingRowsMeetSchema` | services/identity/internal/adapters/out/postgres/refresh_tokens.go:53-66 | agreement means id and hash are in bijection and both stores find the same row for every hash |
| `Stores.CreateAgrees` | services/identity/internal/adapters/out/postgres/refresh_tokens.go:43-50 | after Create both stores answer alike and stay in agreement if and only if the hash is taken, or the id is new and the times are whole microseconds |
| `Stores.UpdateAgrees` | services/identity/internal/adapters/out/postgres/refresh_tokens.go:34-79 | although SQL sets one column by id and memory replaces the row by hash, tables and answers agree if and only if the row is a copy of a stored one with a whole revocation time, or neither store knows it |
| `Stores.RevokeAllAgrees` | services/identity/internal/adapters/out/postgres/refresh_tokens.go:36-87 | the conditional SQL update is the loop of first-time revocations if and only if the time is a whole microsecond or nothing is left to revoke |
| `Stores.RoundingShortensLife` | services/identity/internal/domain/refresh_token.go:64-72 | a row read back from SQL is judged differently from the row written exactly in the last, partial microsecond of its life: expired instead of valid |
| `Stores.PostgresTokenRepo.Create` | services/identity/internal/adapters/out/postgres/refresh_tokens.go:43-50 | keeps primary key and unique hash; the new row with its times in whole microseconds, under each fault |
| `Stores.PostgresTokenRepo.FindByHash` | services/identity/internal/adapters/out/postgres/refresh_tokens.go:53-66 | the one row with that hash |
| `Stores.PostgresTokenRepo.Update` | services/identity/internal/adapters/out/postgres/refresh_tokens.go:70-79 | one column of the row with that id, in whole microseconds; not found when no row is affected |
| `Service.AuthService.constructor` | services/identity/internal/app/auth.go:58-71 | the wired refresh TTL is the configured one if positive and 30 days otherwise |
| `Service.AuthService.Register` | services/identity/internal/app/auth.go:76-92 | tables and reply are those of the use case function, under every fault |
| `Service.AuthService.Login` | services/identity/internal/app/auth.go:99-127 | tables and reply are those of the use case function, under every fault |
| `Service.AuthService.Refresh` | services/identity/internal/app/auth.go:133-167 | tables and reply are those of the use case function, under every fault |
| `Service.AuthService.Logout` | services/identity/internal/app/auth.go:172-191 | tables and reply are those of the use case function, under every fault |
| `Service.AuthService.StartSession` | services/identity/internal/app/auth.go:207-227 | mint, store, issue in this order, each of which may fail |
| `Service.SuspendAccount` | services/identity/internal/app/auth_test.go:211-215 | find, suspend the copy, write it back: the stored user is suspended, under every fault |
| `AuthAnswers.RegisterRefuses` | services/identity/internal/domain/user.go:61-72 | bad email, short or long password and failed hashing are reported in this order and change nothing |
| `AuthAnswers.RegisterStores` | services/identity/internal/app/auth.go:76-92 | for valid input, under every fault: a taken email changes nothing, a free one is stored with an active account of these columns, then the session is opened |
| `AuthAnswers.LoginAnswers` | services/identity/internal/app/auth.go:94-127 | under every fault: unknown and malformed emails and wrong passwords get the same answer, suspended or not; only the right password shows a suspension; otherwise the session is opened |
| `AuthAnswers.RefreshRefuses` | services/identity/internal/app/auth.go:133-151 | a failed read, an unknown token and an expired one change nothing and have their errors |
| `AuthAnswers.RefreshDetectsReuse` | services/identity/internal/app/auth.go:143-151 | a revoked token leaves every row of its owner revoked and every other row as it was, and is reported, unless the write fails |
| `AuthAnswers.RefreshRotates` | services/identity/internal/app/auth.go:153-167 | a usable token, under every fault: owner missing or suspended is refused; otherwise the token is revoked now, then the session is opened for its owner |
| `AuthAnswers.LogoutAnswers` | services/identity/internal/app/auth.go:172-191 | under every fault: unknown and revoked tokens are no error and change nothing, an unrevoked one is revoked now, failures are reported |
| `AuthAnswers.SuspendAnswers` | services/identity/internal/app/auth_test.go:211-215 | under every fault: the stored user keeps every column but status and update time |
| `AuthAnswers.SessionAnswers` | services/identity/internal/app/auth.go:207-227 | opening a session, under every fault: the columns of the row inserted, the fields of the pair returned, or the error |
| `AuthRuns.DoHasEffect` | services/identity/internal/app/auth.go:76-227 | every call opens, rotates, closes, revokes a user or does nothing, under conditions on the state before; Login only for an active account whose email and password match; a pair is returned exactly when a row was inserted and neither Create nor the issuer reported an error, and it matches row, secret and owner |
| `AuthSafety.DoStepsUsers` | services/identity/internal/app/auth.go:76-127 | the user table changes only by one registration with a free normalized email, an admissible password and its hash, or by a suspension |
| `AuthSafety.DoKeepsInv` | services/identity/internal/app/auth.go:76-191 | one call keeps unique emails, keyed rows, stored owners and createdAt < expiresAt, removes nothing, keeps fixed columns and the first revocation time |
| `AuthSafety.RunKeepsInv` | services/identity/internal/app/auth.go:76-191 | the same over every run, with any faults |
| `AuthSafety.ExchangedAtMostOnce` | services/identity/internal/app/auth.go:129-167 | over a run, at most one Refresh of a given token succeeds |
| `AuthSafety.LogoutIsIdempotent` | services/identity/internal/app/auth.go:169-191 | without faults Logout never reports an error, revokes a known token at its first time and nothing else, and a repetition changes nothing |
| `AuthSafety.ReturnedSecretIsStored` | services/identity/internal/app/auth.go:207-227 | a returned secret has its row in all later states, with the right owner and announced expiry |
| `AuthSafety.RowsWithoutSecret` | services/identity/internal/app/auth.go:207-227 | each row was inserted by exactly one call, and its secret was returned (by that call only) if and only if Create reported success and the issuer worked |
| `AuthSafety.PhaseOnlyGrows` | services/identity/internal/domain/refresh_token.go:64-81 | between any two points of a run a token only moves live, expired, revoked |
| `AuthSafety.TimesStayInOrder` | services/identity/internal/app/auth.go:133-191 | under a monotone clock createdAt <= revokedAt <= now in every run |
| `AuthSafety.RegisteredUserCanLogIn` | services/identity/internal/app/auth.go:76-127 | after Register, in any later state without a suspension of that user, Login under any spelling of the email returns that user |
| `AuthSafety.CollidingRegisterChangesNothing` | services/identity/internal/app/auth.go:79-85 | a taken email leaves both tables as they were, whatever fails |
| `AuthSafety.SuspendedGetNoToken` | services/identity/internal/app/auth.go:118-159 | after a stored suspension no run inserts a token for that user |
| `AuthSafety.SuspendedSessionsOnlyEnd` | services/identity/internal/app/auth.go:118-159 | so that user's number of valid sessions never rises |
| `AuthSessions.OneLiveTokenPerFamily` | services/identity/internal/app/auth.go:161-227 | in every reachable state, with any faults, each session family has at most one unrevoked token |
| `AuthSessions.SessionsAreConserved` | services/identity/internal/app/auth.go:76-191 | without faults the count changes by +1, 0, -1 or to 0 as call and reply say, and no other user's count moves |
| `StepSafety.StepIsSound` | services/identity/internal/app/auth.go:133-191 | one step of any call, with any fault, keeps the invariant of stale copies and unrevokes nothing |
| `StepSafety.RevocationIsForGood` | services/identity/internal/adapters/out/postgres/refresh_tokens.go:34-39 | in every interleaving a revoked token stays revoked and its fixed columns never change |
| `StepSafety.ReturnedSecretStaysStored` | services/identity/internal/app/auth.go:207-227 | in every interleaving a returned secret names a stored row with that expiry as the store keeps it, owned by the user, or by the owner of the token exchanged |
| `StepSafety.OnlyEarlierReadersExchange` | services/identity/internal/app/auth.go:136-166 | once a token is revoked, only Refresh calls that had read it before can reach startSession, so exchanges never outnumber them |
| `StepLimits.ReadersAreWhoCanExchange` | services/identity/internal/app/auth.go:136-166 | and exactly those calls can: no continuation lets anyone else exchange the revoked token, and one lets all of them |
| `StepLimits.RevocationTimesAhead` | services/identity/internal/adapters/out/postgres/refresh_tokens.go:34-39 | the revocation times a revoked token can have in later states are its present one and those of the calls that will write a copy they hold, no more and no fewer |
| `StepLimits.RevocationTimeIsKeptWhen` | services/identity/internal/domain/refresh_token.go:74-81 | in every continuation the revocation time stays, if and only if no call at Update of that token, or at FindByID for an active owner, carries another time |
| `StepLimits.OpenersBoundNewRows` | services/identity/internal/app/auth.go:118-166 | in every continuation a stored suspension stays, and the rows inserted for the user later never outnumber the calls that had read the user before and not yet inserted theirs |
| `StepLimits.SuspensionIsFinalWhen` | services/identity/internal/app/auth.go:118-166 | no continuation inserts a row for a suspended user if and only if there is no such call (or no unused token hash) |
| `StepSafety.ExchangedAtMostOnceWithoutOverlap` | services/identity/internal/app/auth.go:136-166 | if no two calls are between reading and revoking a token at once, it is exchanged at most once |
| `StepSessions.OneLiveTokenPerFamilyWithoutOverlap` | services/identity/internal/app/auth.go:161-227 | in every interleaving with every fault in which no two calls are between reading and revoking one token, each session family has at most one unrevoked token |
| `StepSafety.ReuseEndsAllSessions` | services/identity/internal/app/auth.go:144-151 | rows present at a reuse-triggered revocation are revoked for good, later live rows were inserted later, other users' rows are untouched |
| `StepReuse.FindDecides` | services/identity/internal/app/auth.go:136-151 | a Refresh that has read its token ends for an unknown or expired one, goes to revoke the owner's sessions for a revoked one, and goes on for a usable one |
| `StepReuse.ReuseIsAlwaysAnswered` | services/identity/internal/app/auth.go:143-151 | a Refresh that finds its token revoked leaves every session that the owner has by its second call revoked, whatever other calls do in between, unless one of its own two calls fails |
| `StepReuse.SurvivorsBoundSuccessors` | services/identity/internal/app/auth.go:136-166 | in every continuation, the rows inserted by Refresh calls of revoked tokens never outnumber those calls that had read them, not failed, and not yet inserted theirs |
| `StepReuse.ReuseSurvivors` | services/identity/internal/app/auth.go:144-166 | so after a reuse response the user's old tokens get at most one successor for each such call, and none in any continuation if and only if there is no such call (or no unused token hash) |
| `StepSecrets.EveryRowHasItsCall` | services/identity/internal/app/auth.go:207-227 | in every interleaving each row was inserted by one call; only that call can return its secret, and exactly one of these holds: it has, it waits for the issuer, the issuer failed it, or Create took effect and reported an error |
| `StepRefinement.UninterruptedIsAtomic` | services/identity/internal/app/auth.go:76-227 | in any state with other calls in flight, a call begun and advanced without interruption gives the tables and reply of the use case, under every combination of faults, and touches no other call; in memory at any time, at a coarser resolution at times it keeps |
| `StepStores.SqlIsATableOfMicroseconds` | services/identity/internal/adapters/out/postgres/refresh_tokens.go:43-87 | at any times, every interleaving with every fault gives the same copies and replies over SQL and over a table by hash that keeps whole microseconds, and the rows stay copies of each other |
| `StepStores.StoresAreIndistinguishableWhen` | services/identity/internal/adapters/out/postgres/postgres_test.go:63-65 | memory and SQL hold the same rows and give the same copies and replies in every interleaving if and only if every clock time, with and without the refresh TTL, is a whole microsecond |
| `StepRounding.RoundingIsUnnoticedWhen` | services/identity/internal/domain/refresh_token.go:64-72 | callers get the same replies over SQL as over memory in every interleaving if and only if no clock time falls into the last, partial microsecond of a token |
| `StepStores.SqlRevocationIsForGood` | services/identity/internal/adapters/out/postgres/refresh_tokens.go:34-39 | so revocation is for good in the SQL table too, at any times |
| `StepWitnesses.OverlappingRefreshesForkTheSession` | services/identity/internal/app/auth.go:136-166 | whenever two Refresh calls are between reading and revoking one token, and not about to find its user suspended, both can return a pair, leaving two unrevoked tokens in one family |
| `StepWitnesses.UsableTokenCanFork` | services/identity/internal/app/auth.go:136-166 | two calls can get there from every state with a usable token |
| `StepWitnesses.FirstRevocationTimeCanBeLost` | services/identity/internal/adapters/out/postgres/refresh_tokens.go:34-39 | two overlapping Logout calls replace the revocation time first stored |
| `StepWitnesses.OpenCallOutlivesSuspension` | services/identity/internal/app/auth.go:153-166 | a Refresh that read its user before a suspension was stored opens a session after it |

## Left out

- Repos.UserRepo: operations on indexes that disagree already, after a repeated id or a changed email; `ids.New` repeats none and AuthService changes none.
- AuthSafety.ExchangedAtMostOnce: holds for uninterrupted calls; for interleaved ones the exact form is StepLimits.ReadersAreWhoCanExchange.
- AuthSafety.SuspendedGetNoToken: holds for uninterrupted calls; for interleaved ones the exact form is StepLimits.SuspensionIsFinalWhen.
- Go's strings, fmt and base64 packages: their code is not part of this model; `Text` and `Base64` state how they behave on the calls made here.
- The SQL users table and its case-insensitive email column: the user store is modelled in memory.
- User deletion across tables: SQL removes the tokens of a deleted user, the in-memory store does not; AuthService deletes no one.
- HTTP handlers, configuration, migrations, connections, context cancellation, locks and logging.
- Email syntax, UUID and JWT formats, PEM files, SHA-256 and argon2 themselves, and the effort spent on unknown emails.
- GetUser, status names, the default argon2 parameters the currency table and the construction of amounts: single lookups.
- Monetary.Split: memory limits on a very large n.
- The wallet, ledger and transfers: only their interfaces exist so far.
