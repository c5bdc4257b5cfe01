# NNAnalytics core: storage-policy campaign step, usage counters, security context

This project models three pieces of NNAnalytics, the NameNode analytics server, and
proves properties of them.

- **SetStoragePolicy** (`set_storage_policy.dfy`, module `StoragePolicyOperation`): one
  step of a bulk operation over a working set of inodes. A step classifies the cached
  candidate as `FILE` or `DIR`, appends an audit record, records the path as operated,
  removes the entry from the remaining set and caches the next candidate. The class
  `SetStoragePolicy` holds the remaining sequence, the cached candidate, the operated
  paths and the audit log. Each `PerformOp` call is proved equal to the pure step
  function `Step` on a snapshot of those fields. Lemmas about `Step` and its iterate
  `Run` cover accounting, completion of a whole campaign and the permanent stall on an
  inode that is neither a file nor a directory.
- **UserUsageMetrics** (`user_usage_metrics.dfy`, module `UsageMetrics`): the users map
  and the six counter maps, updated in place on login, logout and query events. The
  class methods are proved equal to the pure transitions `LoggedIn`, `LoggedOut` and
  `MadeQuery` on a snapshot, and to keep the table invariant. Among other facts, the
  invariant says that the "Ip" login and logout maps equal the user-keyed ones, because
  the source keys them by user name.
- **SecurityContext** (`security_context.dfy`, module `Security`): the authorization
  decision, a first-match prefix search over the ordered endpoint groups (unsecured,
  admin, writer, reader, cache reader) that ends in a default deny. Also the
  access-level vector and the authentication dispatch. The login endpoint checks the
  user name and password against the local users, then LDAP under each base DN. The
  request filter checks Basic credentials first, in the same order. A failed Basic
  attempt is final. Only a request without a Basic header is checked by its JWT cookie.
- `options.dfy` (module `Options`) holds the `Option` type shared by the modules.

The per-thread current user of the security context is an explicit parameter: each
operation that may change it takes the current user and returns the new one. The
metrics methods take the user name that the source reads from the security context.
The LDAP validator, the JWT validator and the Base64 decoding of Basic credentials are
opaque function values: they are fields of the context, or a parameter for the decoder.

## Model

| member | source | states |
|---|---|---|
| StoragePolicyOperation.Step | src/main/java/org/apache/hadoop/hdfs/server/namenode/operations/SetStoragePolicy.java:43-82 | a step succeeds exactly when a candidate is cached and it is a file or a directory; on failure nothing changes; on success the head entry leaves the remaining sequence, its path is appended to the operated paths, one record (path, FILE-before-DIR type, true) is appended to the log, and the next remaining entry (or none) becomes the candidate; remaining plus operated size is constant |
| StoragePolicyOperation.Initial | src/main/java/org/apache/hadoop/hdfs/server/namenode/operations/SetStoragePolicy.java:31-40 | a fresh operation is consistent with its working set, with a candidate cached exactly when the working set is non-empty |
| StoragePolicyOperation.StepConsistent | src/main/java/org/apache/hadoop/hdfs/server/namenode/operations/SetStoragePolicy.java:73-80 | a step keeps the operated paths and the log equal to the paths and records of the visited prefix of the working set, and the remaining sequence equal to its suffix |
| StoragePolicyOperation.RunAccounting | src/main/java/org/apache/hadoop/hdfs/server/namenode/operations/SetStoragePolicy.java:73-80 | over any number of calls, the log and the operated paths each grow by the number of calls that returned true, only by appending, and remaining plus operated size stays constant |
| StoragePolicyOperation.RunConsistent | src/main/java/org/apache/hadoop/hdfs/server/namenode/operations/SetStoragePolicy.java:43-82 | any number of calls keeps the state consistent with the working set |
| StoragePolicyOperation.DrainRemaining | src/main/java/org/apache/hadoop/hdfs/server/namenode/operations/SetStoragePolicy.java:44-81 | from any consistent state whose remaining entries are all files or directories, one call per remaining entry returns true each time, and the state ends with nothing remaining, no candidate, all paths in visit order and all records; the next call returns false |
| StoragePolicyOperation.CampaignCompletes | src/main/java/org/apache/hadoop/hdfs/server/namenode/operations/SetStoragePolicy.java:44-81 | for N entries that are all files or directories, the first N calls return true, the operated paths list the N paths in visit order with their N records, and call N+1 returns false |
| StoragePolicyOperation.NoPathOperatedTwice | src/main/java/org/apache/hadoop/hdfs/server/namenode/operations/SetStoragePolicy.java:76 | when the working set has distinct paths, no path is ever operated twice |
| StoragePolicyOperation.StallIsPermanent | src/main/java/org/apache/hadoop/hdfs/server/namenode/operations/SetStoragePolicy.java:69-72 | once the candidate is neither a file nor a directory, every further call returns false and the state never changes |
| StoragePolicyOperation.SetStoragePolicy.constructor | src/main/java/org/apache/hadoop/hdfs/server/namenode/operations/SetStoragePolicy.java:31-40 | the new operation keeps its query, owner, log directory and policy, and its state is the initial state of the working set |
| StoragePolicyOperation.SetStoragePolicy.HasNext | src/main/java/org/apache/hadoop/hdfs/server/namenode/operations/SetStoragePolicy.java:44 | a candidate is cached exactly when entries remain |
| StoragePolicyOperation.SetStoragePolicy.PerformOp | src/main/java/org/apache/hadoop/hdfs/server/namenode/operations/SetStoragePolicy.java:43-82 | the call's result and new fields are those of `Step` on the old fields, and consistency with the working set is kept |
| StoragePolicyOperation.SetStoragePolicy.Type | src/main/java/org/apache/hadoop/hdfs/server/namenode/operations/SetStoragePolicy.java:85-87 | the operation name is always "setStoragePolicy" |
| UsageMetrics.Increment | src/main/java/com/paypal/namenode/UserUsageMetrics.java:74-75 | put-if-absent 0 then increment: the key's count becomes the old count plus one, or 1 when it was absent; every other key keeps its count |
| UsageMetrics.PutIfAbsent | src/main/java/com/paypal/namenode/UserUsageMetrics.java:71 | the user gets a record when absent, and an existing record is never replaced |
| UsageMetrics.IncrementGrows | src/main/java/com/paypal/namenode/UserUsageMetrics.java:74-75 | an increment keeps every count at least 1 and decreases none |
| UsageMetrics.TotalWithout | src/main/java/com/paypal/namenode/UserUsageMetrics.java:116-120 | the total of a counter map is any key's count plus the total of the rest |
| UsageMetrics.TotalIncrement | src/main/java/com/paypal/namenode/UserUsageMetrics.java:116-120 | an increment raises the total of a counter map by exactly one |
| UsageMetrics.LoginMovesOwnCounters | src/main/java/com/paypal/namenode/UserUsageMetrics.java:67-80 | a login raises the user's count in both login maps by one and leaves other users' login counts and the logout and query maps unchanged |
| UsageMetrics.LogoutMovesOwnCounters | src/main/java/com/paypal/namenode/UserUsageMetrics.java:88-101 | a logout raises the user's count in both logout maps by one and leaves other users' logout counts and the login and query maps unchanged |
| UsageMetrics.QueryMovesOwnCounters | src/main/java/com/paypal/namenode/UserUsageMetrics.java:109-122 | a query raises the user's query count and the address's query count by one and leaves everything else in the counter maps unchanged |
| UsageMetrics.EmptyInvariant | src/main/java/com/paypal/namenode/UserUsageMetrics.java:48-59 | the empty tables satisfy the invariant |
| UsageMetrics.UsersAfterEvent | src/main/java/com/paypal/namenode/UserUsageMetrics.java:71 | every user record stays filed under its own name |
| UsageMetrics.LoginPreserves | src/main/java/com/paypal/namenode/UserUsageMetrics.java:67-80 | a login keeps the invariant (Ip login map equal to the user login map, user-keyed keys known users, counts at least 1, totals equal to event counts), the user is known afterwards, and no login count decreases |
| UsageMetrics.LogoutPreserves | src/main/java/com/paypal/namenode/UserUsageMetrics.java:88-101 | a logout keeps the invariant, the user is known afterwards, and no logout count decreases |
| UsageMetrics.QueryPreserves | src/main/java/com/paypal/namenode/UserUsageMetrics.java:109-122 | a query keeps the invariant (both query-map totals equal the number of queries), the user is known afterwards, and no query count decreases |
| UsageMetrics.ReplayInvariant | src/main/java/com/paypal/namenode/UserUsageMetrics.java:48-122 | after any sequence of events the invariant holds, and the totals of both query maps equal the number of query events |
| UsageMetrics.ApplyKeepsUsers | src/main/java/com/paypal/namenode/UserUsageMetrics.java:71-72 | every event leaves its user known and keeps every existing record |
| UsageMetrics.UsersOnlyGrow | src/main/java/com/paypal/namenode/UserUsageMetrics.java:71-72 | a record present after a prefix of the events is still present, unchanged, at the end |
| UsageMetrics.ReplayKnowsUsers | src/main/java/com/paypal/namenode/UserUsageMetrics.java:71-72 | every user of any event is known at the end, with the record that was there right after that event |
| UsageMetrics.UserUsageMetrics.constructor | src/main/java/com/paypal/namenode/UserUsageMetrics.java:48-59 | all seven maps start empty and the invariant holds |
| UsageMetrics.UserUsageMetrics.UserLoggedIn | src/main/java/com/paypal/namenode/UserUsageMetrics.java:67-80 | the new maps are `LoggedIn` of the old ones, and the invariant is kept |
| UsageMetrics.UserUsageMetrics.UserLoggedOut | src/main/java/com/paypal/namenode/UserUsageMetrics.java:88-101 | the new maps are `LoggedOut` of the old ones, and the invariant is kept |
| UsageMetrics.UserUsageMetrics.UserMadeQuery | src/main/java/com/paypal/namenode/UserUsageMetrics.java:109-122 | the new maps are `MadeQuery` of the old ones, and the invariant is kept |
| Security.MatchesAny | src/main/java/com/paypal/security/SecurityContext.java:330-334 | a URI matches an endpoint list exactly when it starts with "/" followed by one of the names |
| Security.FirstMatchDecides | src/main/java/com/paypal/security/SecurityContext.java:335-370 | when group i is the first whose endpoints match, the decision is membership in group i alone; later groups are never consulted |
| Security.NoMatchDenies | src/main/java/com/paypal/security/SecurityContext.java:371 | a URI matching no group is denied |
| Security.AllowedOnlyByFirstMatch | src/main/java/com/paypal/security/SecurityContext.java:335-371 | an allowed request has a first matching group that admits the user |
| Security.SecurityContext.HandleAuthorization | src/main/java/com/paypal/security/SecurityContext.java:322-372 | before initialization there is no configuration to read; with authorization off, or for an unsecured URI, every user is allowed; every refusal is an AuthorizationException naming the user and the URI |
| Security.AuthorizationByFirstMatch | src/main/java/com/paypal/security/SecurityContext.java:335-370 | with authorization on and a URI outside the unsecured endpoints, the request is allowed exactly when the first matching group in the order admin, writer, reader, cache admits the user |
| Security.UnknownUriDenied | src/main/java/com/paypal/security/SecurityContext.java:371 | with authorization on, a URI matching no endpoint of any group is denied |
| Security.AllowedUserHasLevel | src/main/java/com/paypal/security/SecurityContext.java:335-396 | when group i (admin, writer, reader, cache) is the first whose endpoints match and the request is allowed, slot i of the user's access-level vector holds that group's level |
| Security.SecurityContext.GetAccessLevels | src/main/java/com/paypal/security/SecurityContext.java:383-396 | exactly four slots; slot i holds the i-th level (admin, writer, reader, cache) exactly when the user is in the i-th set; before the sets exist the call fails |
| Security.SecurityContext.constructor | src/main/java/com/paypal/security/SecurityContext.java:74 | a new context is uninitialized, with no configuration, user sets or authenticators |
| Security.SecurityContext.Init | src/main/java/com/paypal/security/SecurityContext.java:84-101 | stores the configuration and authenticators, builds the user sets from the configuration and marks the context initialized |
| Security.SecurityContext.Refresh | src/main/java/com/paypal/security/SecurityContext.java:108-114 | replaces the user sets only; configuration, authenticators and the initialized flag are unchanged |
| Security.SecurityContext.IsAuthenticationEnabled | src/main/java/com/paypal/security/SecurityContext.java:116-118 | authentication is on with an LDAP authenticator, or with a JWT authenticator and a generator; without either authenticator, or without LDAP and a generator, it is off |
| Security.ProxyUser | src/main/java/com/paypal/security/SecurityContext.java:129-132 | a non-empty proxy parameter becomes the current user; a missing or empty one leaves the current user unchanged |
| Security.ReplaceUser | src/main/java/com/paypal/security/SecurityContext.java:164 | a base DN without a "%u" placeholder is used unchanged |
| Security.ReplaceUserSubstitutes | src/main/java/com/paypal/security/SecurityContext.java:164 | in a base DN whose other text has no placeholder, the user name takes the place of "%u" and the text around it is kept |
| Security.SplitAtColons | src/main/java/com/paypal/security/SecurityContext.java:273 | splitting at colons yields at least one piece and no piece contains a colon |
| Security.SplitJoin | src/main/java/com/paypal/security/SecurityContext.java:273 | putting a colon back between each two pieces gives back the string, so the pieces are exactly the text between colons |
| Security.DropTrailingEmpty | src/main/java/com/paypal/security/SecurityContext.java:273 | removes exactly the trailing empty pieces: the result is a prefix, its last piece is non-empty, and every dropped piece is empty |
| Security.JavaSplit | src/main/java/com/paypal/security/SecurityContext.java:273 | Java's split at ":": a string without a colon comes back whole; otherwise the pieces contain no colon, the last one is non-empty, and joining them with the dropped trailing empty pieces gives back the string |
| Security.BasicCredentialFields | src/main/java/com/paypal/security/SecurityContext.java:273-275 | decoded credentials "name:password" yield the name and the password, and a second colon cuts the password short |
| Security.EmptyPasswordHasNoField | src/main/java/com/paypal/security/SecurityContext.java:273-275 | decoded credentials "name:" have no password field, so reading it fails |
| Security.AuthenticationOffBeforeInit | src/main/java/com/paypal/security/SecurityContext.java:116-118 | authentication is enabled only with an LDAP authenticator or with both a JWT authenticator and generator, so an uninitialized context has it off |
| Security.SecurityContext.LocalLogin | src/main/java/com/paypal/security/SecurityContext.java:191-208 | a local-only user with the stored password becomes the current user when a JWT generator exists, and gets a NullPointerException when none does; with another password the result is BadCredentialsException; a user who is not local-only is declined; the current user changes only on success |
| Security.SecurityContext.LdapLogin | src/main/java/com/paypal/security/SecurityContext.java:158-189 | base DNs are tried in order and the first that accepts wins; if all refuse, the refusal under the last DN is thrown; with no LDAP authenticator or no base DNs the login is declined; only a success changes the current user |
| Security.SecurityContext.CheckCredentials | src/main/java/com/paypal/security/SecurityContext.java:145-155 | local login first; LDAP is never tried for a local-only user; otherwise LDAP decides; an accepted login without a JWT generator is a NullPointerException; when neither accepts, "Authentication required." |
| Security.SecurityContext.Login | src/main/java/com/paypal/security/SecurityContext.java:126-156 | with authentication off only a proxy user is adopted; a missing or empty username or password is rejected; otherwise the credentials are checked |
| Security.SecurityContext.HandleAuthentication | src/main/java/com/paypal/security/SecurityContext.java:246-313 | before initialization every request fails; a /login URI passes untouched; with authentication off only a proxy user is adopted; Basic credentials are checked like a login; a JWT cookie succeeds exactly when it validates and a generator exists; otherwise "Authentication required." |

## Left out

- Logging (`LOG.info`) and locking (`synchronized` methods and blocks). Each call is one atomic step.
- The storage-policy change on the file system is commented out in the source. Every audit record is therefore a success, and the file system handle is not kept.
- `BaseOperation` is not part of this model. Its iterator is modelled as a cursor that always sits at the head of the remaining sequence. `pathsOperated` is modelled as a sequence in visit order, because its collection type is not visible.
- `UserUsageMetricsUser` is not part of this model. A user record holds only its name. The per-user `LoggedIn`/`LoggedOut`/`Queried` bookkeeping, where the IP address goes, is left out. Outside it, the address is used only by the query map.
- `GetUserMetricsJson` (Gson output and the per-user refresh) is left out, because it is serialization.
- UserLoggedIn, UserLoggedOut, UserMadeQuery: counters are unbounded naturals. The 32-bit wrap-around of `AtomicInteger` is not modelled.
- `UserSet` and `UserPasswordSet` are not part of this model. Membership is plain set membership, and local authentication is equality with the stored password.
- The `Constants` endpoint lists are parameters (sequences of endpoint names), not fixed values.
- LDAP base DNs form a `Set` in the source, so the order they are tried in is the set's iteration order. The model takes them as a sequence in that order.
- ReplaceUser: `replaceAll` treats `$` and `\` in the user name as special in the replacement. The model inserts the user name literally.
- LdapLogin: the LDAP authenticator is one predicate on (DN, user name, password). Its exception and the profile it attaches to the credentials are not modelled. A success whose profile is missing is not modelled either.
- Token and session handling are left out: JWT generation, the `Set-Cookie` header, the profile manager and the removal of the `iat` attribute. A missing generator on a success path is modelled as a `NullPointerException`. The JWT validator is an opaque function to an optional profile id. A profile without an id is not modelled.
- `logout` is left out. It only builds HTTP responses and clears sessions and cookies.
- Base64 decoding and trimming of the Basic credentials (RFC 4648 section 4) are one opaque `decode` parameter. The default-charset conversion is part of it.
- `toString` is left out.
