# SuperMQ: stores kept in step

SuperMQ's services keep the same fact in two or more places: a Postgres table and a Redis cache, the
channels service's connection table and the clients service's copy, an entity's row and its policies in
SpiceDB, an invitation and a role's member list. They do it with ordered writes, checks and compensating
writes. This project models that code in Dafny and proves what it keeps over whole runs, with a failure
allowed at every store call, and, where the code does not keep it, exactly when it does. It also proves the
two token codecs, the username sanitiser and the purge loop of the users service.

## How to read the model

- A store call takes its `Outcome` as an argument: `Done`, `Refused` (no effect, error) or `Lost` (effect, but
  an error is reported). A statement about all arguments is a statement about all failures. Lookups that the
  code makes before its first write are folded into one `read` or `eligible` argument where they only decide
  whether the request goes on.
- A table is a map or a sequence of rows, Redis a map from live keys to entries, the policy store a set.
- Each component has a value `State`, its requests as a datatype `Op`, and a function `Step`. `Run` folds `Step`.
  Code that changes things step by step is also given as a class or a method with loops, proved to do what
  `Step` says.
- A request reads the clock once; requests do not overlap. Identifiers that the code generates are new.
- Randomness, identifiers, the clock, the order in which a Redis scan or an unordered query returns things, and
  the calls to other services are arguments. scrypt is an arbitrary function, taken as collision free where the
  text says so; JSON is an arbitrary codec that reads back what it wrote. Base64 is modelled in full (sections 4
  and 5 of RFC 4648), as the Go library decodes it, line breaks included.
- JWT times are whole seconds (section 2 of RFC 7519), while the cache keeps milliseconds; `Sessions` keeps both.

| file | models |
|---|---|
| `Outcomes`, `Text`, `Base64` | outcomes of store calls; `strings.Split`/`Join`; `encoding/base64` |
| `PatSecret`, `Hasher`, `PatLifecycle` | personal access tokens: the secret's format, its stored hash, its life |
| `EntityTypes`, `PatScopes` | entity type names; the scope table, its cache and all their requests |
| `PatScopeWildcards`, `PatScopeCoherence`, `PatScopeStaleness`, `PatScopeEffects`, `PatScopeRepo` | the properties of the scope store, what each request leaves, and its code |
| `Sessions`, `SessionHistory` | refresh-token sessions: login, refresh, revocation, listing, and all of it read off the requests |
| `Connections`, `ConnectionEffects`, `ConnectionServices` | the two connection tables, what each request leaves, and the services' code |
| `ParentLinks`, `ParentEffects`, `ParentService` | parent-group links as rows and policies, what each request leaves, and the services' code |
| `Invitations`, `InvitationEffects` | invitations, role membership and the retain-one rule, and what each request leaves |
| `Usernames`, `UserRoles`, `Verification`, `VerificationEffects`, `DeleteHandler` | the users service |

## Where the code falls short of what one would expect

The lemmas named with each say exactly when the expected property holds.

- Widening a scope row to the wildcard caches the new scope's ID while the row keeps its old one, so removing the
  row by its ID leaves a cached grant (`AddScopeCoherentIff`, `StaleAfterWidening`).
- Deleting a token, or all its scopes, leaves its cached grants: `Remove` does not touch the cache and
  `RemoveAllScope` looks for a key that no scope has (`RemovePatCoherentIff`, `PurgeMisses`,
  `RemoveAllScopeCoherentIff`). They last at most one cache duration (`StalenessBound`).
- The cache key joins its fields with colons, and validation accepts any operation text on clients, channels, groups
  and domains, so a scope for operation `view:a` on entity `b` grants `view` on entity `a:b` (`KeyCollision`,
  `CollisionExample`). The bound on stale grants holds exactly when no scope that requests may name has a key of the
  check without granting it (`StalenessIff`); colons in entity IDs alone do no harm (`PlainUnambiguous`).
- A secret that is the bare prefix `pat` passes the length check, which joins its two conditions with "and", and
  is indexed out of range (`OutOfRangeIff`).
- The channels repository never resets the text of its removal query, so after the first typed connection of a
  list it also filters untyped ones by type; the clients repository does not (`RemovalsAgreeIff`). This stays inside
  the repositories: the clients service's decoder refuses lists that name anything but a real type, before either
  table is touched, and on all other lists the two agree (`UniformCovered`).
- A connection request that failed can be repeated only if it left nothing behind (`RetryConnectIff`,
  `HalfConnectSticks`).
- The page of children that the groups service fetches holds enabled groups only, while the row update reaches
  all (`AddChildrenIff`, `RemoveChildrenIff`); undoing a failed removal invents policies for groups that had no
  parent (`RemoveChildrenUndoneIff`).
- Emptying a custom role or deleting a role leaves confirmed invitations without membership
  (`RoleRemoveAllMembersIff`, `RemoveRoleIff`). A built-in role may be renamed, and can then be emptied
  (`RetainOneIff`, `RenamedIsEmptied`). `RemoveEntityMembers` removes invitations only: the role
  repository's part of it does nothing (`RemoveEntityMembersIff`). An acceptance that did not confirm can be
  repeated only if it did not add the member (`RetryAcceptIff`, `HalfAcceptSticks`).
- Two equal separators split by dropped characters end up side by side in a generated username, which the API's
  own validator then refuses (`SanitizeDoubledIff`, `GeneratedValidIff`, `RefusedExample`).
- Demoting a disabled administrator takes the policy and leaves the role (`UpdateRoleIff`, `DisabledDemotionBreaks`).
- A verification that failed can be repeated only if it did not use up the password (`RetryVerifyIff`,
  `AcceptedOnce`).
- The purge loop asks for plain users only (the page's role is left at its zero value; `HandleSafe`), and never moves
  its offset: it runs on until the clock reaches the age of the youngest user to purge (`YoungKeepsGoing`, `EndsIff`),
  and as long as a hundred users are too young every older one waits behind them (`YoungPageHolds`, `OldPurgedIff`).
  The domains service it asks first, to delete the user from its domains, only lists them
  (`domains/private/service.go`), so its answer is all that the log records.

## Model

| member | source | states |
|---|---|---|
| Text.SplitJoin | auth/service.go:710-718 | splitting text joined from separator-free fields gives back the fields |
| Text.JoinSplit | auth/service.go:710-718 | joining the parts of any split text gives back the text |
| Text.SplitPlain | auth/service.go:710-718 | no part of a split text contains the separator |
| Text.JoinInjective | auth/cache/pat.go:118-120 | as many fields, none but the last with the separator, are determined by their joined text |
| Base64.ValueOfSymbol | auth/service.go:765-785 | each of the 64 symbols of either alphabet stands for its own number |
| Base64.EncodedSymbols | auth/hasher/hasher.go:35-47 | encoded text has no line break and no dot, and in the standard alphabet no underscore |
| Base64.DecodeOfEncode | auth/service.go:765-785 | decoding undoes encoding for every byte string, padding included, in both alphabets |
| Base64.FullMeans | auth/service.go:765-785 | four symbols, read as digits of base 64, are the three bytes read as digits of base 256 |
| Base64.EncodedLength | auth/service.go:765-785 | the text has four symbols for each started three bytes |
| Base64.EncodeGroup | auth/service.go:765-785 | three bytes in front of the data are four symbols in front of its text |
| Base64.Vectors | auth/service.go:765-785 | vectors of section 10 of RFC 4648, and the symbols in which the alphabets differ |
| Base64.DecodedText | auth/service.go:770-785 | text that decodes consists of symbols, padding and line breaks, and without the breaks its length is a multiple of four |
| PatSecret.GenerateRandomString | auth/service.go:787-800 | the loop fills the buffer with the letter or digit each random byte selects |
| PatSecret.RandomTextPlain | auth/service.go:787-800 | the random text has no underscore, whatever the bytes |
| PatSecret.DecodeEncode | auth/service.go:765-785 | decoding an encoded pair of identifiers gives back both, in order; the text is one after the other in base 64 and has no separator in it |
| PatSecret.SecretRoundTrip | auth/service.go:745-763 | a generated secret splits into exactly three parts and is read back as its two identifiers, for all identifiers and random bytes |
| PatSecret.SecretInjective | auth/service.go:745-763 | equal secrets were made for the same user and token |
| PatSecret.SecretsEqualIff | auth/service.go:787-800 | two secrets for one token are equal exactly when their random bytes select the same symbols; the source's list has one symbol twice |
| PatSecret.OutOfRangeIff | auth/service.go:710-718 | parsing indexes out of range exactly for the bare prefix |
| Hasher.CompareWithHash | auth/hasher/hasher.go:49-75 | comparing a text with a stored hash compares the keys derived under the stored salt |
| Hasher.CompareIsEquality | auth/hasher/hasher.go:35-75 | with an ideal hash, comparison succeeds exactly for the text that was hashed |
| Hasher.HashFormat | auth/hasher/hasher.go:35-47 | the stored form has two parts that decode to the key, derived from the token under the salt, and to the salt |
| Hasher.CompareSameIff | auth/hasher/hasher.go:49-75 | comparison succeeds exactly for a stored text of two dot-free parts of which the first decodes to the key derived under the second |
| PatLifecycle.StepRow | auth/postgres/repo.go:263-341 | each request changes a token's row as its create, store, revoke, reactivate and remove effects say, and no other way |
| PatLifecycle.RunTracks | auth/postgres/repo.go:263-341 | after any run the row's existence, revocation, hash and expiry are those the history of requests determines |
| PatLifecycle.IdentifyIff | auth/service.go:710-735 | after any run with any failures a secret is accepted exactly when the token was created and not removed, the secret was stored last, it was not revoked since reactivated, and it has not expired |
| PatLifecycle.ListingAgrees | auth/postgres/repo.go:131-157 | listing by status returns exactly the rows shown with that status, and a stored secret is accepted exactly when its token is shown as active |
| PatLifecycle.PatService.constructor | auth/service.go:124-139 | a service starts with no token |
| PatLifecycle.PatService.CreatePat | auth/service.go:503-541 | stores the hashed secret with its expiry and hands out the secret only on success |
| PatLifecycle.PatService.ResetPatSecret | auth/service.go:602-626 | stores a new hash and expiry and then reactivates; a failure between the two leaves the token revoked with the new hash |
| PatLifecycle.PatService.RevokePatSecret | auth/service.go:628-638 | marks the owner's token revoked and changes nothing else |
| PatLifecycle.PatService.DeletePat | auth/service.go:591-600 | removes the owner's token and no other |
| PatLifecycle.PatService.RemoveAllPat | auth/service.go:640-649 | removes all tokens of the user and no other |
| PatLifecycle.PatService.IdentifyPat | auth/service.go:710-735 | answers as the identification function, check by check |
| EntityTypes.ParseOfToString | auth/pat.go:85-125 | a stored entity type name parses back to its type exactly for the known types |
| PatScopes.KeyInjective | auth/cache/pat.go:118-120 | user and scope can be read back from a cache key when user, token, type, domain and operation have no colon, whatever the entity ID |
| PatScopes.KeyCollision | auth/cache/pat.go:118-120 | a colon in the operation gives the key of the shorter operation on another entity, for every user, token, type and domain |
| PatScopes.KeyHasPrefix | auth/cache/pat.go:87-99 | every key of a user has the prefix that the user-wide removal scans for |
| PatScopeWildcards.AddScopeMonotone | auth/postgres/repo.go:379-497 | adding scopes, failed anywhere or not, never takes away an allowed request |
| PatScopeWildcards.StoreScopesPlaces | auth/postgres/repo.go:379-497 | when the database part succeeds, every requested scope has a row, inserted or widened |
| PatScopeWildcards.AddScopeNormalIff | auth/postgres/repo.go:411-497 | a successful addition keeps wildcards alone in their group exactly when no request mixes the wildcard with other entities of a group |
| PatScopeWildcards.RunNormal | auth/postgres/repo.go:379-497 | over any run with any failures of requests that do not mix, a group with the wildcard has no other row |
| PatScopeCoherence.CheckScopeExact | auth/postgres/repo.go:518-577 | on a coherent state a grant implies that the table allows it, and without store failures the answer is the table's; the final re-check never rejects |
| PatScopeCoherence.StepCoherent | auth/postgres/repo.go:359-577 | additions without widening, checks, removals by ID and user-wide removals, each naming the token's owner, with no colon but in entity IDs, keep every cached entry that of a live row |
| PatScopeCoherence.GentleRunExact | auth/postgres/repo.go:359-577 | over every such run each check answers exactly as the plain table query at that moment |
| PatScopeCoherence.RemoveScopeCoherentIff | auth/postgres/repo.go:499-516 | removing scopes by ID keeps the cache coherent exactly when the rows stay or the scan visits every cached entry of the scopes after a deletion that reported success |
| PatScopeCoherence.RemoveAllPatCoherentIff | auth/postgres/repo.go:359-377 | removing a user's tokens keeps the cache coherent exactly when the rows stay or the scan visits every cached entry of the user after a deletion that reported success |
| PatScopeCoherence.RemovePatCoherentIff | auth/postgres/repo.go:343-357 | deleting a token keeps the cache coherent exactly when nothing of it was cached |
| PatScopeCoherence.PurgeMisses | auth/cache/pat.go:101-116 | the key that the removal of all scopes asks for is the key of no scope |
| PatScopeCoherence.RemoveAllScopeCoherentIff | auth/postgres/repo.go:579-597 | removing all scopes of a token keeps the cache coherent exactly when nothing of it was cached |
| PatScopeCoherence.AddScopeCoherentIff | auth/postgres/repo.go:379-497 | a successful addition keeps the cache coherent exactly when no wildcard of it meets a group with a row |
| PatScopeCoherence.StaleAfterWidening | auth/postgres/repo.go:411-516 | after widening a group and removing all its rows by ID, the table denies and the check still grants |
| PatScopeStaleness.StalenessBound | auth/postgres/repo.go:343-597 | after any run with any failures, if no row the requests may name has a key of the check without granting it, a grant at time t has a moment within one cache duration before t at which the table held a row allowing it |
| PatScopeStaleness.StalenessIff | auth/postgres/repo.go:343-597 | the bound holds for a check after all runs if and only if the cache cannot be read or that condition holds, for its exact and its wildcard key |
| PatScopeStaleness.AmbiguityBreaks | auth/cache/pat.go:40-50 | otherwise there is a run after which the check is granted and no table of the run ever allowed it |
| PatScopeStaleness.PlainUnambiguous | auth/cache/pat.go:118-120 | the condition holds when users, tokens, domains and operations have no colon, whatever the entity IDs |
| PatScopeStaleness.CollisionExample | auth/pat.go:148-160 | an operation that validation accepts for which it fails, for every user, token and domain |
| PatScopeEffects.AddScopeAdds | auth/postgres/repo.go:379-497 | an addition, whatever fails, allows nothing new but what was requested |
| PatScopeEffects.AddScopeExact | auth/postgres/repo.go:379-497 | a successful addition of scopes with IDs allows exactly what was allowed and what was requested, and keeps the tokens |
| PatScopeEffects.AddScopeOkIff | auth/postgres/repo.go:379-497 | without failures and widening an addition succeeds exactly when no group has the wildcard, IDs and rows are new and the tokens exist |
| PatScopeEffects.WidenOkIff | auth/postgres/repo.go:411-497 | without failures one wildcard for an occupied group succeeds exactly when the group has one row that is not the wildcard; that row becomes it under its old ID, and no row comes or goes |
| PatScopeEffects.RemovePatEffect | auth/postgres/repo.go:343-357 | a deletion by the owner takes the token and all it allowed, and no other row or token; any other deletion changes nothing |
| PatScopeEffects.RemoveAllPatEffect | auth/postgres/repo.go:359-377 | the same for all tokens of a user |
| PatScopeEffects.RemoveAllScopeEffect | auth/postgres/repo.go:579-597 | takes all that the token allowed, and keeps the token and every other row |
| PatScopeEffects.RemoveScopeEffect | auth/postgres/repo.go:499-516 | takes exactly the named rows, cached or not, and succeeds exactly when one existed and every call worked |
| PatScopeEffects.RemovalCache | auth/cache/pat.go:52-99 | the scans take just the visited keys, by ID only those of the named scopes, after a deletion seen to work |
| PatScopeEffects.SavePatEffect | auth/postgres/repo.go:35-57 | a new token is recorded under its user and an existing one is never taken over |
| PatScopeEffects.TickEffect | auth/cache/pat.go:29-38 | time takes exactly the keys whose expiry it reaches |
| PatScopeEffects.CheckIsCached | auth/postgres/repo.go:518-577 | a check granted from the table is granted again from the cache alone until one cache duration later, and leaves the table alone |
| PatScopeEffects.AuthorizedPermits | auth/pat.go:242-268 | the re-check accepts a scope of the same type and operation, for this domain or for none, that permits the entity |
| PatScopeEffects.RunKept | auth/postgres/init.go:93-101 | over any run with any failures, if so at its start, every scope row belongs to a token and no two rows are the same |
| PatScopeRepo.PatRepo.constructor | auth/postgres/repo.go:28-33 | a repository starts empty |
| PatScopeRepo.PatRepo.SaveToCache | auth/cache/pat.go:29-38 | the loop writes the keys in order and stops at the first error |
| PatScopeRepo.PatRepo.RemoveFromCache | auth/cache/pat.go:52-85 | the scan deletes the visited keys whose value is one of the IDs, keeps the rest, and fails if it breaks off or reports an error at its end |
| PatScopeRepo.PatRepo.RemoveUserFromCache | auth/cache/pat.go:87-99 | the scan deletes the visited keys, keeps the rest, and fails if it breaks off or reports an error at its end |
| PatScopeRepo.PatRepo.ProcessScope | auth/postgres/repo.go:411-497 | rejects under a wildcard, widens the only row of a group, or leaves the scope for insertion |
| PatScopeRepo.PatRepo.AddScopes | auth/postgres/repo.go:379-409 | processes in order, inserts what is left in one statement, then caches; new state and reply are those of the request |
| PatScopeRepo.PatRepo.Check | auth/postgres/repo.go:518-577 | cache first, then the table, caching what it found; new state and reply are those of the request |
| PatScopeRepo.PatRepo.RemoveScopes | auth/postgres/repo.go:499-516 | deletes the rows, then the cached entries with these IDs |
| PatScopeRepo.PatRepo.RemoveAllPats | auth/postgres/repo.go:359-377 | deletes the user's tokens with their scopes, then the user's cached entries |
| PatScopeRepo.PatRepo.Save | auth/postgres/repo.go:35-57 | records the owner of a new token |
| PatScopeRepo.PatRepo.Remove | auth/postgres/repo.go:343-357 | deletes the owner's token with its scopes and leaves the cache alone |
| PatScopeRepo.PatRepo.RemoveAllScopes | auth/postgres/repo.go:579-597 | deletes the token's scopes and asks the cache for one key |
| Sessions.RunFamilies | auth/service.go:280-369 | after any run every refresh token has the ID, subject, role and expiry second recorded at its login, however many refreshes deep |
| Sessions.RenewKeepsFamily | auth/service.go:331-369 | after any run a refresh that succeeds hands out a refresh token with the ID, subject, role and expiry of the one presented, which are those its login fixed |
| Sessions.RenewInTime | auth/service.go:331-369 | after any run a refresh succeeds only before the login time plus the refresh duration, and plus the cache duration when that is positive |
| Sessions.ActiveIff | auth/cache/tokens.go:41-65 | after any run with any failures a session is active exactly when a login stored it, no revocation of its ID took effect since, and less time than its life has passed |
| Sessions.DeadForever | auth/cache/tokens.go:41-64 | once the key of an issued session is gone no run brings it back |
| Sessions.RevokedForever | auth/service.go:157-163 | after a revocation took effect no token of the family is accepted for refresh, after any run |
| Sessions.RunIndexed | auth/cache/tokens.go:41-124 | over any run each user's sorted set holds only that user's sessions, scored by expiry second, and all that are showing |
| Sessions.ListedIff | auth/cache/tokens.go:67-115 | after any run the listing is exactly the user's active sessions not in the last partial second of their life |
| SessionHistory.LogInReply | auth/service.go:280-312 | a login succeeds exactly when the role check passes and the session, if kept, was stored; both tokens carry the request's subject and role, with their kinds and expiries |
| SessionHistory.RenewReply | auth/service.go:331-369 | after any run a refresh succeeds exactly for an unexpired refresh token of a known role whose session is active by its history; the access token has its kind, subject, role and expiry, and nothing else changes |
| SessionHistory.TokensFromRequests | auth/service.go:280-369 | after any run every refresh token has the subject and role of the login request that named its ID, and expires one refresh duration after it |
| SessionHistory.KeyByHistory | auth/cache/tokens.go:41-56 | after any run the key of an active session has the description its login gave and expires when the life that began then ends |
| SessionHistory.ListedByHistory | auth/cache/tokens.go:67-115 | after any run the listing of a user is read off the requests alone |
| SessionHistory.SetsExact | auth/cache/tokens.go:67-124 | revoking takes the ID from the named user's set only, and listing the members whose second has passed |
| Sessions.TokensCache.constructor | auth/cache/tokens.go:30-39 | a cache starts empty with its duration |
| Sessions.TokensCache.SaveActive | auth/cache/tokens.go:41-56 | writes key and score with the shorter of the two lifetimes, or neither, and reports the pipeline's error |
| Sessions.TokensCache.IsActive | auth/cache/tokens.go:58-65 | answers whether the session was opened, not revoked since and not outlived in the run so far; a failed lookup is an error and not an answer |
| Sessions.TokensCache.RemoveActive | auth/cache/tokens.go:117-124 | deletes the key and the member of the named user's set, or neither, and reports the pipeline's error |
| Sessions.TokensCache.Prune | auth/cache/tokens.go:67-77 | removes the members whose second has passed |
| Sessions.TokensCache.Descriptions | auth/cache/tokens.go:88-112 | returns each member that has a key once, with its description, and nothing else |
| Sessions.TokensCache.ListUserTokens | auth/cache/tokens.go:67-115 | prunes the set and returns each listed session once, with its description, and nothing else; returns nothing when either pipeline fails |
| Connections.AppendTypes | channels/service.go:312-331 | the inner loop appends one connection per type |
| Connections.AppendClients | channels/service.go:312-331 | the middle loop appends the product of clients and types |
| Connections.BuildConnections | channels/service.go:312-331 | the three loops build the product of channels, clients and types |
| Connections.InProduct | channels/service.go:312-331 | a connection is in the built list exactly when its channel, client and type were requested in that domain |
| Connections.RemoveRemote | clients/postgres/clients.go:1433-1460 | the clients repository's loop deletes, per connection, the rows of the pair and of the type if one is given |
| Connections.RemoveLocal | channels/postgres/channels.go:962-990 | the channels repository's loop does so with the type condition kept once added |
| Connections.RemovalsAgreeIff | channels/postgres/channels.go:962-990 | the two repositories' removals leave the same rows of every valid table exactly when each untyped pair is reached for both types under the growing query |
| Connections.UniformCovered | channels/postgres/channels.go:962-990 | lists with only typed or only untyped connections meet that condition |
| Connections.StepConstrained | channels/service.go:222-405 | every request, failed or not, keeps foreign keys and type checks of both tables |
| Connections.RunAgrees | channels/service.go:222-405 | the two tables stay equal over every run of connections, disconnections and removals without store failures, whatever the requests name |
| Connections.FailureIsContained | channels/service.go:285-405 | after a connection or disconnection that failed anywhere, the tables differ only inside that request's product |
| Connections.DisconnectRepairs | channels/service.go:353-405 | a successful disconnection makes tables equal that differed only inside its product |
| Connections.HalfConnectSticks | channels/service.go:285-351 | a connection that failed after leaving rows in a table changes nothing and fails when it is repeated |
| Connections.RetryConnectIff | channels/service.go:285-351 | the repetition of a failed connection succeeds exactly when the first left nothing behind and the request can succeed at all |
| Connections.RemoveChannelCleanIff | channels/service.go:222-283 | after a successful channel removal no local row is left, and no remote row exactly when the local table had one or the remote table none |
| ConnectionEffects.ConnectEffect | channels/service.go:312-349 | a successful connection adds every requested combination to both tables and nothing else |
| ConnectionEffects.ConnectOkIff | channels/service.go:285-351 | without store failures it succeeds exactly when all named entities are known, of the domain and enabled, no list is empty or repeats, types are real and nothing is connected yet in either table |
| ConnectionEffects.DisconnectEffect | channels/service.go:353-405 | a successful disconnection takes every requested combination out of both tables and keeps the rest |
| ConnectionEffects.DisconnectOkIff | channels/service.go:353-405 | without store failures it succeeds exactly when all named entities are known and of the domain and the types are real or nothing is named, and otherwise changes nothing |
| ConnectionEffects.RemoveChannelEffect | channels/service.go:222-283 | a successful removal takes the channel, its local rows and, if there were any, its remote rows; all other entities and rows stay |
| ConnectionEffects.DeleteClientEffect | clients/service.go:337-385 | the same for a client, with the tables exchanged |
| ConnectionEffects.RemovalOkIff | channels/service.go:222-283 | without store failures both succeed exactly when the entity exists |
| ConnectionServices.Services.constructor | channels/service.go:44-59 | the services start with empty tables |
| ConnectionServices.Services.CheckEntities | channels/service.go:285-310 | the entity loops accept exactly when all named channels and clients are enabled and of the domain |
| ConnectionServices.Services.ConnectAll | channels/service.go:285-351 | checks, then the clients service, then the local table; new state and reply are those of the request |
| ConnectionServices.Services.DisconnectAll | channels/service.go:353-405 | checks, then the remote removal, refused if a type is not a real one, then the local one; new state and reply are those of the request |
| ConnectionServices.Services.RemoveChannelByID | channels/service.go:222-283 | purges the remote table if the local one has rows, then removes the channel with its rows |
| ConnectionServices.Services.DeleteClientByID | clients/service.go:337-385 | the same for a client, with the tables exchanged |
| ParentLinks.AddThenWriteAgree | channels/service.go:407-458 | creating policies and then writing rows keeps agreement exactly for settled outcomes; a refused write, undone, restores the state |
| ParentLinks.DeleteThenWriteAgree | channels/service.go:460-496 | deleting policies and then writing rows keeps agreement exactly for settled outcomes; a refused write, undone, restores the state |
| ParentLinks.SetParentIff | groups/service.go:214-248 | setting a parent keeps a policy for exactly each stored parent if and only if the outcomes settle |
| ParentLinks.RemoveParentIff | groups/service.go:250-285 | the same for removing a parent |
| ParentLinks.UnsetParentIff | channels/private/service.go:86-120 | the same for taking a group from all its channels or clients |
| ParentLinks.RemoveAllChildrenIff | groups/service.go:373-390 | removing all children keeps agreement exactly when neither or both stores are written |
| ParentLinks.AddChildrenIff | groups/service.go:287-329 | a successful addition of children keeps agreement exactly when requested groups outside the fetched page already have the parent |
| ParentLinks.AddChildrenUndone | groups/service.go:287-329 | a refused row write with the policies taken back leaves both stores as they were |
| ParentLinks.RemoveChildrenIff | groups/service.go:331-371 | a successful removal of children keeps agreement exactly when no requested child of the parent is outside the page |
| ParentLinks.RemoveChildrenUndoneIff | groups/service.go:331-371 | a compensated removal restores the state exactly when every fetched group had this parent |
| ParentLinks.RunAgrees | groups/service.go:214-390 | rows and policies agree after every run of requests that settle and whose pages cover them |
| ParentEffects.SetParentEffect | channels/service.go:407-458 | a success gives the parent to that child only, in the row and as a policy |
| ParentEffects.SetParentOkIff | channels/service.go:407-458 | with working calls it succeeds exactly when the child exists without a parent, the group is eligible and no policy stands in the way |
| ParentEffects.RemoveParentEffect | channels/service.go:460-496 | a success takes the parent from that child only, in the row and as a policy |
| ParentEffects.RemoveParentOkIff | channels/service.go:460-496 | with working calls it succeeds exactly when the child exists |
| ParentEffects.AddChildrenEffect | groups/service.go:287-329 | a success gives the parent to exactly the requested groups, and a policy to those that are enabled |
| ParentEffects.AddChildrenOkIff | groups/service.go:287-329 | with working calls it succeeds exactly when a requested group is enabled and none that is has a parent or a policy |
| ParentEffects.RemoveChildrenEffect | groups/service.go:331-371 | a success takes the parent from exactly the requested groups that have it, and the policy from those that are enabled |
| ParentEffects.RemoveChildrenOkIff | groups/service.go:331-371 | with working calls it succeeds exactly when a requested group is enabled and none that is has another parent |
| ParentEffects.RemoveAllChildrenEffect | groups/service.go:373-390 | takes the named parent from every group that has it, with its policies on groups, and succeeds exactly when there is one and both calls work |
| ParentEffects.UnsetParentEffect | channels/private/service.go:86-120 | takes the group from every channel, or client, that has it, with their policies |
| ParentEffects.UnsetParentOkIff | channels/private/service.go:86-120 | with working calls it always succeeds |
| ParentEffects.SaveEntityEffect | channels/service.go:498-514 | a change of status keeps the parent, and an entity that was not there comes without one; no policy and no other entity changes |
| ParentService.Service.constructor | groups/service.go:40-53 | the service starts with empty stores |
| ParentService.Service.SetParentGroup | channels/service.go:407-458 | policy, then row, then compensation; new state and reply are those of the request |
| ParentService.Service.RemoveParentGroup | channels/service.go:460-496 | policy, then row, then compensation; new state and reply are those of the request |
| ParentService.Service.AddChildrenGroups | groups/service.go:287-329 | the loops check parents and build policies; new state and reply are those of the request |
| ParentService.Service.RemoveChildrenGroups | groups/service.go:331-371 | the loops check parents and build policies; new state and reply are those of the request |
| ParentService.BuildLinks | groups/service.go:302-312 | the loop builds one policy per fetched group |
| Invitations.PrefixConsistent | domains/service.go:258-411 | in every state a request passes through, with failures at any call, a confirmed invitation is not rejected and its invitee is a member of the invited role of the domain |
| Invitations.RunConsistent | domains/service.go:191-411 | the same in every intermediate state of every run without role deletion and emptying |
| Invitations.RoleRemoveAllMembersIff | domains/service.go:413-424 | emptying a custom role keeps this exactly when nobody was confirmed into it |
| Invitations.RemoveRoleIff | pkg/roles/provisionmanage.go:303-320 | deleting a role keeps this exactly when nobody was confirmed into it |
| Invitations.StatusStep | domains/service.go:191-357 | with failures anywhere a request leaves an invitation alone or makes its one move: a deletion takes only invitations it names by domain and invitee, accepted only disappears, rejected waits again only by a resend, the role never changes, and confirmed and rejected never meet |
| Invitations.RunExclusive | domains/service.go:191-357 | over every run no stored invitation is both confirmed and rejected |
| Invitations.HalfAcceptSticks | domains/service.go:258-295 | an acceptance that added the member, with the reply seen or lost, makes every repetition write nothing |
| Invitations.RetryAcceptIff | domains/service.go:258-295 | after an acceptance that did not confirm, one without failures confirms exactly when the first did not add the member |
| Invitations.RemoveEntityMembersIff | domains/service.go:382-388 | removing members of a domain leaves every user in its roles exactly as before, and removes at most the invitations |
| Invitations.RetainOneIff | domains/service.go:390-424 | a built-in role with a member has one in every state of a request, for removal lists with duplicates and strangers, exactly when the request does not delete the role or rename it to a name that is not built in |
| Invitations.RunRetainsOne | domains/service.go:390-424 | the same after every run |
| Invitations.RenamedIsEmptied | pkg/roles/provisionmanage.go:322-338 | a built-in role that was renamed is emptied by the next removal of all members |
| InvitationEffects.DeletionExact | domains/service.go:330-411 | an invitation is gone after a deletion exactly when the request names its domain and invitee and the deletion is made; all others are the same |
| InvitationEffects.SendExact | domains/service.go:191-219 | sending saves an invitation to an existing role with both times unset, unless there is one, and nothing else |
| InvitationEffects.RejectExact | domains/service.go:297-328 | rejecting a waiting invitation sets its time and makes it rejected; otherwise nothing changes |
| InvitationEffects.ResendExact | domains/service.go:221-238 | sending again makes a rejected invitation wait again; otherwise nothing changes |
| InvitationEffects.AcceptExact | domains/service.go:258-295 | accepting adds the invitee and no one else to the invited role, and then sets the time |
| InvitationEffects.RoleAddMembersExact | pkg/roles/provisionmanage.go:495-536 | puts exactly the listed users into the role, if none has one in the domain |
| InvitationEffects.RoleRemoveMembersExact | domains/service.go:390-411 | takes exactly the listed users out of the role once their invitations are seen to be deleted |
| InvitationEffects.DeletionKeepsMembers | domains/service.go:330-388 | the other deletions of invitations keep all roles and members |
| InvitationEffects.RoleRemoveAllMembersExact | domains/service.go:413-424 | empties a role of the domain that is not built in, and only that |
| InvitationEffects.RemoveRoleExact | pkg/roles/provisionmanage.go:303-320 | takes the role and its members and nothing else |
| InvitationEffects.AddRoleExact | pkg/roles/provisionmanage.go:229-301 | a new role has the requested name, domain and members |
| InvitationEffects.UpdateRoleNameExact | pkg/roles/provisionmanage.go:322-338 | changes the name of that role only, to one no other role of the domain has |
| InvitationEffects.RunOneRole | pkg/roles/repo/postgres/init.go:30-50 | over any run with any failures, if so at its start, a user has at most one role in a domain and a domain at most one role of a name |
| Invitations.DomainsService.constructor | domains/service.go:34-47 | the service starts empty |
| Invitations.DomainsService.SendInvitation | domains/service.go:191-219 | saves an invitation with both times zero unless one exists |
| Invitations.DomainsService.ResendInvitation | domains/service.go:221-238 | clears the rejection of an invitation that is not confirmed |
| Invitations.DomainsService.AcceptInvitation | domains/service.go:258-295 | adds the member, then confirms; success means confirmed and member |
| Invitations.DomainsService.RejectInvitation | domains/service.go:297-328 | sets the rejection time of a waiting invitation |
| Invitations.DomainsService.RemoveRoleMembers | domains/service.go:390-411 | deletes the invitations, then the members, unless a built-in role could become empty |
| Invitations.DomainsService.RenameRole | pkg/roles/provisionmanage.go:322-338 | sets the name of a role of the domain unless another one has it |
| Usernames.SanitizeForUsername | users/service.go:810-851 | the byte loop with its last-character state, the trims and the cut compute the sanitising function |
| Usernames.DoubledIff | users/service.go:810-838 | the buffer has a doubled separator at a position exactly when the second of two equal separators with only dropped bytes, and at least one, between them lands there |
| Usernames.BufferDoubledIff | users/service.go:810-838 | the buffer has a doubled separator exactly when the input has such a pair |
| Usernames.SanitizeShape | users/service.go:810-851 | the result has at most maxLen bytes of a-z, 0-9, dash and underscore, with alphanumeric ends |
| Usernames.SanitizeClean | users/service.go:810-851 | clean text that fits is its own sanitised form, and of longer text the front is kept |
| Usernames.SanitizeDoubledIff | users/service.go:810-851 | the result has a doubled separator exactly when the input has such a pair after its first alphanumeric byte and before an alphanumeric byte that still fits |
| Usernames.GeneratedValidIff | users/service.go:766-808 | a generated username has at most 26 bytes and passes the API's validator exactly when the lower-cased prefix of the address has no such pair |
| Usernames.NameOfAddress | users/service.go:766-787 | the name of an address is its sanitised local part cut at 15 bytes, or user if nothing is left or the part is removed whole by the 36-character pattern, with an underscore and the suffix; what follows the at sign does not matter |
| Usernames.ValidUserNameMeans | api/http/common.go:147-157 | the validator is the length, first character and character tests and the two substring tests |
| Usernames.RefusedExample | api/http/common.go:147-157 | an address whose generated username the validator refuses |
| UserRoles.UpdateRoleIff | users/service.go:539-563 | a role update keeps membership and administrator policies equal to what the rows call for exactly for settling outcomes |
| UserRoles.FailedPromotionUndone | users/service.go:733-764 | a failed update of a plain user, compensated, leaves both stores as they were |
| UserRoles.DisabledDemotionBreaks | users/postgres/users.go:276-282 | demoting a disabled administrator breaks agreement although no store call fails |
| UserRoles.RegisterIff | users/service.go:61-105 | registration keeps agreement exactly for settling outcomes, and a refused row write, undone, restores both stores |
| UserRoles.RunAgrees | users/service.go:61-105 | after every settling run a user has the administrator policy exactly when the stored role is admin |
| UserRoles.CalmRunAgrees | users/service.go:539-563 | so without store failures and without demoting a disabled administrator |
| UserRoles.RegisterEffect | users/service.go:61-105 | registration stores the requested role and status and the policies they call for, changes no other user, and succeeds exactly when it is allowed, no policy exists and both writes work |
| UserRoles.UpdateRoleEffect | users/service.go:539-563 | a role update stores the requested role and keeps the rest, and succeeds exactly when it is allowed, the user is enabled, no administrator is promoted again and both writes work |
| UserRoles.ChangeStatusEffect | users/service.go:593-613 | a change of status keeps the role, the policies and every other user |
| UserRoles.UsersService.constructor | users/service.go:50-59 | the service starts with empty stores |
| UserRoles.UsersService.RegisterUser | users/service.go:61-105 | policies, then row, then compensation; new state and reply are those of the request |
| UserRoles.UsersService.UpdateUserPolicy | users/service.go:733-764 | creates or filters out the administrator policy |
| UserRoles.UsersService.ChangeRole | users/service.go:539-563 | policy, then row, then compensation; new state and reply are those of the request |
| Verification.DecodeOfEncode | users/verification.go:49-73 | a token gives back its user, email and password exactly when none is empty, and is rejected otherwise |
| Verification.RunSound | users/postgres/verfications.go:17-68 | over any run stored passwords were generated, and an unused one is in one row only |
| Verification.VerifySpends | users/service.go:143-184 | a verification that changes anything or succeeds leaves every row with its password used |
| Verification.AcceptedOnce | users/service.go:143-184 | over any run a password that was accepted, or used up by a failed verification, is never accepted again and changes nothing |
| Verification.SendMakesLive | users/service.go:107-141 | the record behind a sent token is valid, unused and, if no other is as new, the newest of its user and email |
| Verification.FirstVerifyIff | users/service.go:107-184 | the token of a successful send, if no other record is as new, is accepted by the first verification presenting it, after any other requests, exactly when the record has not expired and the user has its email |
| Verification.RetryVerifyIff | users/service.go:143-184 | after a failed verification of a live record, one without failures succeeds exactly when the lookup had failed or the password was not marked as used |
| Verification.EveryPickIff | users/postgres/verfications.go:28-50 | such a record is accepted whichever row the query returns exactly when no other row of the pair is as new |
| VerificationEffects.VerifyEffect | users/service.go:143-184 | a verification succeeds exactly when its token decodes, the returned row is presentable, the user has the email and every call worked; it leaves exactly that user verified now and exactly the rows of the pair used |
| VerificationEffects.VerifiedIff | users/service.go:143-184 | after any run with any failures a user is verified exactly when a verification marked them after their last change of email, or they were before and changed none |
| VerificationEffects.SendEffect | users/service.go:107-141 | sending to a verified or unknown user fails and changes nothing; otherwise a good record is sent again, or one for the present email, good for a day, is added |
| VerificationEffects.UpdateEmailEffect | users/service.go:413-443 | changing the email takes the verification with it and leaves other users and all rows |
| Verification.UsersService.constructor | users/service.go:50-59 | the service starts empty |
| Verification.UsersService.RetrieveUserVerification | users/postgres/verfications.go:28-50 | finds a newest row of the pair, if there is one, and the preferred one of several |
| Verification.UsersService.SendVerification | users/service.go:107-141 | reuses a valid record or adds a new one, then sends its token; new state and reply are those of the request |
| Verification.UsersService.VerifyEmail | users/service.go:143-184 | decodes, matches, validates, marks used, then marks the user; new state and reply are those of the request |
| DeleteHandler.Handle | users/delete_handler.go:58-109 | a finished loop leaves no user to purge and fetched no more pages than it was given |
| DeleteHandler.HandleSafe | users/delete_handler.go:58-109 | with any failures, a row is gone exactly when its deletion is logged; each deletion is of a plain user marked deleted, at least the configured age old, right after the domains service confirmed and then the policies were removed |
| DeleteHandler.VisitExact | users/delete_handler.go:71-107 | what one visit confirms, removes and deletes follows from the age and the three calls |
| DeleteHandler.OthersStay | users/delete_handler.go:58-109 | whatever fails, administrators and users not marked deleted stay, IDs being distinct |
| DeleteHandler.FinishedIsClean | users/delete_handler.go:58-109 | a finished loop leaves no plain user marked deleted |
| DeleteHandler.YoungKeepsGoing | users/delete_handler.go:61-74 | whatever else fails, a user that is too young in the passes so far is still there, and the loop still runs if their fetches worked |
| DeleteHandler.YoungPageHolds | users/delete_handler.go:61-74 | while the first page holds only users that are too young, nothing is done, whatever fails and however old the users behind them are |
| DeleteHandler.PassShape | users/delete_handler.go:71-107 | a pass without failures removes exactly the old users on the first page and nothing else |
| DeleteHandler.WindowShape | users/delete_handler.go:61-108 | over passes that work, each removes as many old users as fit on the first page behind the ones that stay young |
| DeleteHandler.Drains | users/delete_handler.go:58-109 | if all n users are old enough and calls work, the loop ends after exactly ceil(n/100)+1 fetches with none left, and not before |
| DeleteHandler.ShapeByOrder | users/postgres/users.go:729-753 | in the query's order the last user that stays young and the first that is old tell which users are which |
| DeleteHandler.EndsBy | users/delete_handler.go:58-109 | once every user to purge is old and calls work, at most ceil(n/100)+1 further fetches end the loop, whatever happened before |
| DeleteHandler.EndsIff | users/delete_handler.go:58-109 | with a clock that does not go back, working fetches, and calls that work from some pass on, the loop ends if and only if the clock reaches the age of every user to purge |
| DeleteHandler.OldPurgedIff | users/delete_handler.go:58-109 | in passes that work and in which the young users stay young, all old ones are purged if and only if there are none or the passes' room behind the young ones suffices; a hundred young ones leave none |
| DeleteHandler.Handler.constructor | users/delete_handler.go:33-41 | a handler starts with an empty log |
| DeleteHandler.Handler.RetrieveAll | users/postgres/users.go:120-184 | returns the first hundred users to purge and their number |
| DeleteHandler.Handler.Delete | users/postgres/users.go:308-320 | removes the rows with the ID and reports whether there were any |
| DeleteHandler.Handler.DeleteUser | users/delete_handler.go:71-107 | one visit: age check, memberships, policies, row |
| DeleteHandler.Handler.VisitPage | users/delete_handler.go:71-107 | the inner loop visits the page in order |
| DeleteHandler.Handler.Run | users/delete_handler.go:58-109 | the outer loop fetches, stops on an error or an empty result, and visits each page |

## Left out

- DeleteHandler.Handler.Run: stops after a given number of passes, because the source's loop has no bound; the lemmas speak about every number of passes.
- Users that are marked deleted, restored or changed by others while the purge loop runs; a user marked deleted always has an update time.
- Transport, CLI, event, logging, metrics and tracing layers, message adapters and brokers: no invariant of their own.
- JWT signing and parsing beyond expiry and role; UUID text; the Redis and SQL engines; `strings.ToLower`; random sources.
- Scans: user IDs have no colon and none of Redis's pattern characters, so a scan pattern is a prefix; a scan may stop early, repeat keys and report an error.
- Requests that overlap in time, and the clock moving within one request.
- The role manager's own policies and actions: `Invitations` keeps roles, their names and their members.
- Group paths, hierarchy depth and cycles, and groups, channels and clients created with a parent; deletion of groups and of entities that have a parent.
- Login keys other than access and refresh keys, and token revocation of API keys.
- Names, tags, metadata, pictures, passwords and password reset, and OAuth users; the text of listing queries.
- Emails are delivered or not; verification rows of deleted users.
- Journal counters and the topic parser.
