# BuildSet in Dafny

A model of the parts of BuildSet whose correctness spans several functions, several calls or
several processes, with proofs of what they promise. BuildSet is a small publishing site made of
three services (identity, authorization, content), a site in front of them, and a migration runner
each service uses on its own database.

| file | models |
|---|---|
| `Calls.dfy` | what can become of one call: it works, it fails, or it works and is reported failed |
| `Histories.dfy` | "given and not taken away since" over a history of events |
| `Ref.dfy` | resource references and their parser |
| `Authz.dfy` | patterns, roles, grants, purges, decisions |
| `Passwords.dfy` | the hash registry and the bcrypt wrapper |
| `Auth.dfy`, `AuthHistory.dfy`, `AccountHistory.dfy`, `PasswordHistory.dfy` | accounts, passwords and sessions; what whole runs of them mean for sessions, names and passwords, through any sequence of deployments |
| `Setup.dfy` | first-run setup with any number of interleaved submissions |
| `Timestamps.dfy` | instants stored as sortable text |
| `Migrate.dfy`, `Replicas.dfy` | one run of the migration runner, the life of a database, many processes at once |
| `Render.dfy` | the plain-text renderer and a decoder for its output |
| `Site.dfy`, `SiteAnswers.dfy` | handlers that write to several services, one at a time; who may do what, what they answer and what they leave alone |
| `Posts.dfy`, `Overlap.dfy` | post handlers and administrators' requests, interleaved call by call |
| `Wire.dfy`, `Topology.dfy` | the error envelope on the wire; in-process and remote services side by side |

## How it is modelled

- A table is a set, a map or a sequence of rows with the declared keys and cascades. The SQLite and
  the PostgreSQL repositories have the same tables, so one model serves both.
- Every repository call and every call to another service has a `Fate`. `Works` takes effect and
  says so, `Fails` does neither, `WorksUnreported` takes effect although its caller is told that it
  failed. In the interleaved models a call that was given up on may also land later. Reads succeed
  or fail. Time, salts, ids, tokens and checksums are parameters.
- Where the program updates fields or tables step by step there is a class with those fields; each
  of its methods is proved to compute a function of the old state, and the theorems are about that
  function over whole runs (`Auth.Service` against `Auth.Exec`, `Authz.Service` against
  `Authz.After`, `Site.Server` against `Site.Serve`, `Migrate.Database` against `Migrate.Added` and
  `Migrate.Ends`, `Render.PlainText` against `Render.HTML`).
- Where calls of different requests or processes interleave there is a state machine whose steps
  are single calls (`Setup`, `Replicas`, `Posts`, `Overlap`), and the theorems are about every run
  of it. A request or process that is left alone in such a machine goes as the serial specification
  says (`Posts.CreationIsServed`, `Overlap.SubmissionIsServed`, `Replicas.RunsAreSerial`).
- A run of the identity service may cross deployments: every event carries the hash registry of the
  deployment that serves it.
- A character of a password stands for one byte. In `Render`, `Wire` and `Topology` a string is a
  sequence of Unicode scalar values, that is, valid UTF-8.

## Where the code and its comments differ

- `auth/service.go:400-401` says that counting again after the insert leaves exactly one winner. It
  leaves at most one: two submissions may both count two users and both roll back
  (`Setup.TwoSubmissionsMayBothLose`). `Setup.ExactlyOneWinnerWhen` gives the exact condition.
- `authz/service.go:185-187` says that a query may cover a whole service. The code refuses every such
  query (`Authz.WholeServiceRefused`), because the prefix must become a valid reference when one
  character is added to it. `Authz.WildcardQueries` says exactly which wildcard queries are accepted.
- `pkg/sqlmigrate/sqlmigrate.go:142-145` refuses a database with a record that has no file, but only
  after every pending file has been applied; `Migrate.OutcomeContract` states it that way.

## Model

The results come first. The rows after `Topology.ShortMessagesAgree` are the methods that tie the
program's step-by-step form to the functions those results are about.

| member | source | states |
|---|---|---|
| Migrate.OutcomeContract | pkg/sqlmigrate/sqlmigrate.go:119-147 | for any table and files: success means that recorded (version, checksum) pairs equal the files'; a mismatch or a failure at v means that exactly the pending files below v were added (and v if its commit landed unreported); a missing file is reported with every pending file added |
| Migrate.SuccessExactlyWhen | pkg/sqlmigrate/sqlmigrate.go:119-147 | a run succeeds if and only if no applied file was edited, every pending file applies and every record has its file |
| Migrate.LifetimeIsPrefix | pkg/sqlmigrate/sqlmigrate.go:78-148 | over any mix of failed and successful starts with append-only releases, the executed statements are a prefix of the current files and the table says exactly that |
| Migrate.NoReleaseIsRefused | pkg/sqlmigrate/sqlmigrate.go:119-147 | no start in such a lifetime meets an edited or a missing file |
| Migrate.LifetimeEqualsOneRun | pkg/sqlmigrate/sqlmigrate.go:78-148 | several starts execute what one undisturbed start over the same prefix would |
| Migrate.EditsAreNoticed | pkg/sqlmigrate/sqlmigrate.go:119-124 | after a start that succeeded, no start from a directory in which one of its files has other content succeeds: it stops at that version or before it |
| Migrate.ParseNameExactly | pkg/sqlmigrate/sqlmigrate.go:30-30 | a file name is read as a version and a name if and only if it is that version in four digits, an underscore, that plain name and `.sql` |
| Replicas.CommittedAtMostOnce | pkg/sqlmigrate/sqlmigrate.go:209-238 | for any number of processes, any file sets, any interleaving and any failures, with or without a lock: each version commits at most once, and the table lists the committed migrations in commit order |
| Replicas.OnlyHolderWrites | pkg/sqlmigrate/dialect.go:82-104 | under the engine's lock a step that writes is taken by the holder, the only process inside its run |
| Replicas.LockedRuns | pkg/sqlmigrate/sqlmigrate.go:98-147 | in every reachable state at most one process is between lock and unlock, and one about to report success sees a table equal to its files |
| Replicas.RunsAreSerial | pkg/sqlmigrate/sqlmigrate.go:98-147 | processes with any files under the lock, whatever fails: each one that was not cut off did to the table what an undisturbed run of its own would have done to it at that point, and returns that run's outcome |
| Replicas.LoopsArePrepared | pkg/sqlmigrate/sqlmigrate.go:98-117 | no process reaches its loop unless its lock, its table and its read were reported to work |
| Replicas.LockPassesOn | pkg/sqlmigrate/dialect.go:82-104 | the lock is taken only when free, and freed only by its holder's unlock or the loss of its session |
| Replicas.SomeoneCanMove | pkg/sqlmigrate/sqlmigrate.go:98-147 | replicas of one release cannot deadlock |
| Replicas.StepsRunOut | pkg/sqlmigrate/sqlmigrate.go:98-147 | every step brings its process nearer to its return and no other process further from it |
| Replicas.EveryReplicaSucceeds | pkg/sqlmigrate/sqlmigrate.go:98-147 | replicas of one release over a table with nothing else: a run without failing statements is bounded, and at its end every process has returned success and the table equals the files |
| Replicas.CleanRunsEnd | pkg/sqlmigrate/sqlmigrate.go:98-147 | a run without failures takes at most three steps for each file and six more for each process |
| Setup.AtMostOneStands | auth/service.go:385-420 | however submissions interleave with each other and with registrations and deletions, and whatever fails, at most one submission past its recount has its account still stored |
| Setup.NobodyOrTheWinner | auth/service.go:385-434 | on an empty instance without other account operations, with any counts, inserts, hooks and rollbacks failing: setup ends with no account and no winner, or with exactly the winner's account holding the role, if and only if no insert landed although reported failed and no rollback failed; a failed hook's late assignment then names no stored account |
| Setup.LostAcknowledgementStrands | auth/service.go:395-398 | an insert whose acknowledgement is lost leaves an account without the role and turns every later submission away |
| Setup.ExactlyOneWinnerWhen | auth/service.go:400-411 | when no call fails there is exactly one winner if and only if, by the schedule alone, some submission recounts while no other is between its insert and its rollback |
| Setup.TwoSubmissionsMayBothLose | auth/service.go:400-411 | a run in which no call fails and nobody wins |
| Setup.LoneSubmissionWins | auth/service.go:385-420 | a single submission without failures wins, and its account is the only one |
| Setup.EndsAreEarned | auth/service.go:385-420 | however submissions interleave, a winner was told that its count, insert, recount and an attempt at the role worked, and one that lost after its recount was told twice that the role could not be given |
| AuthHistory.SweepIsInvisible | auth/service.go:261-268 | adding or removing sweeps anywhere in a run changes no answer to any other operation |
| AuthHistory.OneSession | auth/service.go:183-268 | what any operation does to any one session; none moves an owner, a creation time or an expiry |
| AuthHistory.TableMatchesHistory | auth/service.go:183-268 | a stored session is in force by history, with expiry = creation + lifetime; a session in force is stored unless its time is up |
| AuthHistory.ResolvesExactlyWhen | auth/service.go:211-251 | a token resolves if and only if it was issued, not revoked, not dropped by a password change or an account deletion, and now is before creation plus lifetime |
| AuthHistory.TouchesFit | auth/service.go:239-248 | creation <= last seen < expiry throughout, and an hour for each successful touch adds up to less than the lifetime |
| AuthHistory.PasswordChangeIsFinal | auth/service.go:339-371 | however a run goes on after a reported password change, no earlier session of that user except the kept one resolves again |
| AccountHistory.ResolvesToItsOwner | auth/service.go:211-251 | over any run, a resolved token answers the session that history put in force under it and the account it was issued to, with that account's last names; after an hour the resolve notes the time; anything else is "no such session" |
| AccountHistory.FailedReadsAreNoAnswer | auth/service.go:123-251 | a read that fails is reported as a failure, never as an absent session or a wrong password, and changes nothing |
| AccountHistory.IssuedTokenResolves | auth/service.go:183-207 | a login issues a token if and only if the account exists and the insert works; the token was never in force before and resolves to that account until its lifetime is over |
| AccountHistory.DroppedForGood | auth/service.go:253-289 | however a run goes on after a reported logout or a reported deletion of the account, the session is never resolved again |
| AccountHistory.DoneMeansGone | auth/service.go:253-289 | logout, sweep and account deletion report success exactly when the call worked (and there was such an account), and then exactly what they name is gone |
| AccountHistory.StoredNamesAreLast | auth/service.go:317-337 | after every run an account's username and display name are those it was last given by its registration or a profile change; no login and no password change writes them |
| AccountHistory.RegistersExactlyWhen | auth/service.go:94-121 | registering succeeds if and only if the username is well formed and by history nobody's, the password can be hashed and the insert works; each refusal is characterised likewise |
| AccountHistory.RenamesExactlyWhen | auth/service.go:317-337 | a profile change succeeds if and only if the account exists and the well-formed username is by history no other account's; then those are its names; each refusal is characterised likewise |
| PasswordHistory.AccountsAcceptLastPassword | auth/service.go:123-179 | over any run through any deployments, with or without failing rehashes and stores: an account exists if it was given a password, and a deployment that lists the scheme of its hash accepts the last password and no other, while one that does not accepts none |
| PasswordHistory.SignsInExactlyWhen | auth/service.go:123-147 | signing in succeeds if and only if that is the username the account was last given, that is its last password, and the deployment lists the scheme of its hash |
| PasswordHistory.MigrationKeepsSignIn | auth/hash/hash.go:37-93 | if deployments keep listing every scheme that was preferred, signing in depends on the last username and the last password alone; an unknown username and a wrong password get the same answer and change nothing |
| PasswordHistory.ChangesExactlyWhen | auth/service.go:339-371 | there a password change succeeds if and only if it is given the last password, the new one can be hashed and the calls work; each refusal is characterised likewise and changes nothing |
| PasswordHistory.DroppedSchemeLocksOut | auth/hash/hash.go:95-107 | a deployment without the scheme of a stored hash refuses every password for it and stores nothing |
| PasswordHistory.LoginUpgrades | auth/service.go:149-179 | after a login the hash needs no rehash, unless hashing was refused or the store failed and nothing changed; no other account and no session changes |
| PasswordHistory.MigrationHappens | auth/service.go:149-179 | a run that meets those hypotheses and in which a login does replace a superseded hash, after which the old scheme may be dropped and before which it may not |
| PasswordHistory.RegisteredSignsIn | auth/service.go:94-147 | a registered account signs in with its username and password and with no other password; other accounts and all sessions stay |
| Auth.ExecConsistent | auth/sqlite/user.go:60-89 | every operation keeps usernames unique and every session tied to a stored account |
| Passwords.FreshHash | auth/hash/hash.go:65-122 | a fresh hash is accepted with exactly the hashed password and needs no rehash |
| Passwords.BcryptIsSound | auth/hash/bcrypt.go:43-74 | although the library looks at 72 bytes only, the wrapper accepts exactly the hashed password |
| Passwords.TruncationWouldMatch | auth/hash/bcrypt.go:60-63 | without the length rule a longer password would match; with it, it is a mismatch |
| Passwords.PasswordLengths | auth/hash/bcrypt.go:43-57 | a deployment that prefers bcrypt hashes every password of 8 to 72 bytes, and says of any other which bound it breaks |
| Passwords.RehashExactlyWhen | auth/hash/hash.go:77-88 | a hash is left alone if and only if the registered scheme that claims its identifier has the preferred one's name |
| Passwords.IdentifyExactly | auth/hash/hash.go:109-122 | a hash names a scheme if and only if it starts with that non-empty name between two dollar signs |
| Timestamps.TextOrderIsTimeOrder | auth/sqlite/repository.go:23-24 | for years 0 to 9999, byte order of the text is chronological order and equal text means equal instants |
| Timestamps.TextSweepIsExpiry | auth/sqlite/session.go:149-164 | the sweep comparing text deletes exactly the sessions that `Expired` rejects |
| Timestamps.ListedByTime | auth/sqlite/user.go:111-117 | rows are in the order of text, then id, if and only if they are in the order of time, then id |
| Timestamps.ParseFormat | auth/sqlite/repository.go:73-79 | parsing the formatted text of an instant gives it back |
| Timestamps.OneFullWidthText | auth/sqlite/repository.go:23-24 | of the texts that have every field of the layout at full width, only the formatted one parses to an instant |
| Timestamps.CalendarIsGregorian | auth/sqlite/repository.go:23-24 | the calendar under the stored text: the number of days before a year in closed form, and the length of every month |
| Timestamps.EpochText | auth/sqlite/repository.go:23-24 | the start of 1970 is day 719528 and is stored as `1970-01-01T00:00:00.000Z` |
| Refs.ParseToString | pkg/ref/ref.go:53-94 | parsing a printed valid reference gives it back |
| Refs.ToStringParse | pkg/ref/ref.go:53-94 | a string that parses is the printed form of what it parses to |
| Refs.RefHasNoWildcard | pkg/ref/ref.go:96-153 | a valid reference contains no wildcard |
| Refs.RefsDiffer | auth/user.go:19-21 | user and post references are injective and never equal to each other |
| Refs.MintedRefs | web/action.go:45-62 | a valid id makes a valid user reference and a valid post reference |
| Authz.ClassQueryMeansEveryMember | authz/match.go:10-22 | a class query is matched by a pattern if and only if the pattern matches every valid reference of the class |
| Authz.AllowedClassAllowsMembers | authz/service.go:24-45 | whoever is allowed a class is allowed every member |
| Authz.GrantsNeverAnswerClasses | authz/service.go:185-204 | direct grants never influence a class query |
| Authz.ConcreteDecision | authz/sqlite/subject.go:24-65 | on one resource, the union of role patterns and grants allows exactly what a grant of that action on it or a covering role allows |
| Authz.StoreEqualsHistory | authz/sqlite/subject.go:98-161 | a grant or an assignment is stored if and only if history gave it and has not taken it away |
| Authz.StoredRowsAreConcrete | authz/service.go:102-139 | stored grants name valid references and actions, never patterns |
| Authz.DecisionsEqualHistory | authz/service.go:24-165 | over any run a decision about a concrete resource is what the history of grants, roles, revocations and purges says |
| Authz.ClassDecisionsEqualHistory | authz/service.go:24-45 | over any run a decision about a class is allowed if and only if a role in force by history has one pattern for the action that matches every valid reference of the class |
| Authz.EverythingDecisionsEqualHistory | authz/service.go:188-204 | the same for everything: only a pattern for everything answers it |
| Authz.DecidedExactlyWhen | authz/service.go:24-45 | a question is decided if and only if its subject and action are valid and it is about a reference, everything, or a class within one type of one service |
| Authz.SuccessIsTrue | authz/service.go:69-165 | an operation reports success if and only if its call worked and afterwards everything it gives is there and everything it takes is gone; unknown roles and invalid actions are told exactly |
| Authz.MatchesExactly | authz/match.go:10-22 | a trailing wildcard matches every continuation of what precedes it; any other pattern matches itself alone |
| Authz.OthersUntouched | authz/service.go:141-165 | an operation on one subject changes no decision about another; purging a resource changes none about another resource or a class |
| Authz.WildcardQueries | authz/service.go:188-204 | a wildcard query is accepted if and only if it is the bare wildcard or a prefix of a service, a type and fewer than 128 id characters |
| Authz.WholeServiceRefused | authz/service.go:185-204 | a query over a whole service is refused, for every service |
| Site.AnAdministratorRemains | web/admin_users.go:84-155 | handlers one at a time, any call inside them failing or landing unreported: once a setup has succeeded, every reachable state has a stored account holding the administrator role |
| Site.OnlyAdministrators | authz/sqlite/migrations/0002_seed_roles.sql:11-13 | whatever has been granted, assigning roles and deleting accounts are allowed if and only if the viewer holds the administrator role |
| Site.AssignerStays | web/admin_users.go:117-135 | a role submission that changes anything leaves its viewer a stored administrator |
| Site.DeleterStays | web/admin_users.go:231-259 | deleting an account leaves the one who deleted it a stored administrator |
| Site.RolesConverge | web/admin_users.go:83-155 | after a submission that went any way, an administrator's clean rerun leaves exactly the requested known roles, as if the first had never been; submitting again changes nothing |
| Site.PostDeletionConverges | web/admin_posts.go:200-222 | after a deletion that went any way, an administrator's clean rerun is authorised and leaves neither post nor grants, and everything else as it was |
| Site.AccountDeletionConverges | web/admin_users.go:231-259 | after a deletion that went any way, another administrator's clean rerun is authorised and leaves neither account nor roles nor grants |
| Site.GrantsNameStoredPosts | web/admin_posts.go:206-222 | with handlers one at a time, a grant over a post's reference is an ownership action of that stored post's author |
| Site.CreatorsOwn | web/admin_posts.go:64-116 | a creation that reports success stored the post under its author, who may read, change, delete and publish it; once the post is stored, one reported grant of two is enough |
| Site.PartialRoles | web/admin_users.go:117-152 | a submission that is refused changes nothing; any other carries out the available roles in order up to the first call reported failed, leaves those after it as they were, and succeeds if and only if there is none |
| SiteAnswers.PostDeletionAnswers | web/admin_posts.go:200-257 | a deletion changes anything only for a stored viewer who is an administrator or has the delete grant over that post; when it is done, forbidden, absent or asks to sign in, each if and only if; what it removes and what it leaves |
| SiteAnswers.PostCreationAnswers | web/admin_posts.go:66-116 | the same for a creation, by administrators and authors; a success adds that post under its author and exactly the four ownership grants |
| SiteAnswers.RoleAnswers | web/admin_users.go:84-191 | the same for a role submission, by administrators; it succeeds if and only if every call for a role that differs works and it does not drop its own viewer's administrator role |
| SiteAnswers.RolesWritten | web/admin_users.go:108-155 | a role submission touches nobody else's roles, no grant, no post and no account; a success leaves exactly the ticked roles that exist |
| SiteAnswers.AccountDeletionAnswers | web/admin_users.go:157-259 | the same for an account deletion, by administrators other than its target; a success removes the account with its roles and grants and nothing else |
| SiteAnswers.SetupAnswers | auth/service.go:383-434 | setup succeeds if and only if nobody is stored, its calls work and one of two attempts at the role does; then its account is the only one and the administrator; a failure whose rollback works leaves nobody unless the insert was reported wrongly |
| Overlap.TimelyRequestsKeepOne | web/admin_users.go:84-155 | however role submissions and deletions overlap, and however late the calls they gave up on land, an administrator remains if every call takes effect while the viewer who sent it still is one |
| Overlap.LastOneLostExactlyWhen | web/admin_users.go:137-152 | one step, a late landing included, loses the last administrator if and only if the call that takes effect in it takes the role or the account of the only one, and then the viewer who sent it is an administrator no longer |
| Overlap.OneViewerRemains | web/admin_users.go:117-135 | overlapping requests of one administrator, late calls included, never cost that administrator the role or the account |
| Overlap.UnthreatenedRemains | web/admin_users.go:84-155 | an administrator stays one through every continuation if no late call takes the role or the account away and no request in flight can still get as far as sending such a call |
| Overlap.SafeExactlyWhen | web/admin_users.go:84-155 | from any requests in flight and late calls, none of which can still make somebody an administrator, every continuation keeps an administrator if and only if some administrator is threatened by none of them |
| Overlap.SafeOnceReturned | web/admin_users.go:137-152 | with handlers all returned: nothing that may still land loses the last administrator if and only if some administrator is not the target of a late demotion, purge or deletion |
| Overlap.LateCallRemovesTheLast | web/admin_users.go:137-152 | handlers one at a time are not enough: a run in which the first handler gives up on its call and returns, the second works, and the late call then removes the only administrator left |
| Overlap.TwoAdministratorsDemoteEachOther | web/admin_users.go:137-152 | two administrators' overlapping submissions in which no call fails and which leave no administrator |
| Overlap.TwoAdministratorsAreReached | auth/service.go:383-434 | the empty site gets to such a pair of administrators by a setup, a sign-up and a role submission |
| Overlap.SubmissionIsServed | web/admin_users.go:84-155 | left alone among the interleaved requests, a role submission leaves what the serial handler leaves, whatever fails in it |
| Overlap.DeletionIsServed | web/admin_users.go:231-259 | so does an account deletion |
| Overlap.LandsAsSent | pkg/httpx/client.go:45-47 | a call that was given up on does, when it lands, what it would have done in time, once |
| Posts.LivePostsAreOwned | web/admin_posts.go:66-116 | under any interleaving of handler calls with failing, unreported and late calls, grants over a stored post name its author and are all four ownership actions or none |
| Posts.CalmRunsOrphanNothing | web/admin_posts.go:200-222 | under any interleaving and failures no grant over an absent post arises if each reported purge of a deletion finds no handler granting the post and no grant for it that may still land; a call lands at most once |
| Posts.CalmPurgesAreTheSafeOnes | web/admin_posts.go:206-222 | after such a run a reported purge meets that condition if and only if no way to go on from it leaves a grant over its post when the post is gone |
| Posts.InterleavingOrphansGrants | web/admin_posts.go:95-98 | both halves of the condition are needed: reachable runs, one for each, that end with a grant over a deleted post |
| Posts.AuthorsNeverChange | content/sqlite/post.go:64-81 | no run changes the author of a stored post |
| Posts.StoredTextIsLast | content/sqlite/post.go:64-81 | whatever interleaves and however late an insertion lands, a stored post has the text it was last given |
| Posts.PhasesAreEarned | web/admin_posts.go:200-222 | however handlers interleave, a handler grants only a post whose insertion was reported, at most twice; it purges only a post it has loaded and deletes only after a reported purge |
| Posts.CreationIsServed | web/admin_posts.go:66-116 | left alone among the interleaved handlers, a creation leaves what the serial handler leaves, whatever fails in it |
| Posts.DeletionIsServed | web/admin_posts.go:200-222 | so does a deletion |
| Posts.LandsAsSent | pkg/httpx/client.go:45-47 | a call that was given up on does, when it lands, what it would have done in time, once |
| Render.RenderIsInvertible | content/render/render.go:37-53 | decoding a page gives the trimmed non-empty paragraphs, exactly if and only if none contains NUL |
| Render.OutputShape | content/render/render.go:35-53 | a page is a sequence of `<p>` blocks whose only inner tag is `<br>`; everything else is escaped and `<br><br>` never occurs |
| Render.RenderAppend | content/render/render.go:40-50 | rendering a, a blank line and b is rendering a followed by rendering b |
| Render.NewlinesDoNotMatter | content/render/render.go:38-38 | LF, CRLF and CR bodies render alike |
| Render.RenderDecodeRender | content/render/render.go:37-53 | reading a page back and rendering that source gives the same page |
| Render.NoTextIsLost | content/render/render.go:37-53 | every character of a body that is not white space is in some paragraph, in order, and nothing else is |
| Render.ParagraphsOfSource | content/render/render.go:38-45 | text whose paragraphs are separated by blank lines has exactly those paragraphs |
| Wire.UnmarshalMarshal | pkg/httpx/server.go:45-58 | decoding undoes encoding for every code and message, whatever follows the envelope |
| Wire.CutEnvelope | pkg/httpx/client.go:166-170 | no envelope can be read from an envelope that was cut off |
| Wire.EnvelopesArePlain | pkg/httpx/server.go:45-58 | whatever a message holds, its envelope is one line without control characters, line separators or markup |
| Wire.PlainEnvelope | pkg/httpx/server.go:45-58 | text with nothing to escape travels as it is |
| Topology.TopologiesAgree | app/direct.go:277-292 | for every service error the two topologies tell the site the same sentinel and message, or both a failure, if and only if the envelope fits the limit or the error is not classified |
| Topology.WrappingKeepsTheCode | auth/httpapi/errors.go:14-29 | however deeply an error is wrapped its code stays, and its message is the fixed sentence or the outermost text |
| Topology.SiteIsTold | auth/httpapi/errors.go:14-29 | for every service and every sentinel, however deeply wrapped: the kind of answer and the sentence the site is told |
| Topology.SeveralCauses | content/httpapi/errors.go:13-27 | an error with several causes says what its causes say, absent before taken before invalid |
| Topology.NotFoundIsSaid | pkg/httpx/client.go:149-182 | whatever answers in a service's place, the site is told "not found", and with which words, if and only if the answer is a JSON envelope with that code and those words on one of three statuses |
| Topology.ShortMessagesAgree | content/httpapi/errors.go:13-27 | the fixed sentences and every message of up to 300 characters always agree |
| Migrate.Load | pkg/sqlmigrate/sqlmigrate.go:240-299 | accepts a directory exactly when no entry is misnamed, unreadable or a second file of a version; then the result holds, for every file and nothing else, its version, name, content and the checksum of that content, in strictly ascending version order; otherwise it names the first bad entry |
| Migrate.Database.Apply | pkg/sqlmigrate/sqlmigrate.go:209-238 | a migration's statements and its row are committed together or not at all, whichever step fails; success is reported only for a reported commit |
| Migrate.Database.Up | pkg/sqlmigrate/sqlmigrate.go:78-148 | a bad table name, a bad directory or a failed preparation changes nothing; otherwise exactly the specified files are added, in order, and the outcome is the specified one; a success leaves every file's version recorded with the checksum of its content |
| Migrate.Database.Applied | pkg/sqlmigrate/sqlmigrate.go:109-117 | the map by version holds every record and nothing else |
| Migrate.Database.Walk | pkg/sqlmigrate/sqlmigrate.go:114-147 | the loop that deletes visited records from the map and applies the others refines the declarative account of what is added and how it ends |
| Setup.RoleHolders.OnFirstUser | app/authapp/hook.go:30-64 | the hook succeeds exactly when one of its two attempts is reported successful; the role is held exactly when an attempt that was made took effect, whatever was reported |
| Auth.Service.constructor | auth/service.go:40-64 | a new service starts with empty tables |
| Auth.Service.SignUp | auth/service.go:94-121 | refines the specified registration: answer and both tables |
| Auth.Service.SignIn | auth/service.go:123-179 | refines the specified login, rehash included |
| Auth.Service.StartSession | auth/service.go:183-207 | refines the specified session creation |
| Auth.Service.Resolve | auth/service.go:211-251 | refines the specified resolve: expiry, lazy deletion, touch |
| Auth.Service.Revoke | auth/service.go:253-259 | removes that token's session and no other |
| Auth.Service.Sweep | auth/service.go:261-268 | removes exactly the expired sessions and counts them |
| Auth.Service.Remove | auth/service.go:279-289 | removes the account with its sessions, or says that there is none |
| Auth.Service.Rename | auth/service.go:317-337 | refines the specified profile change |
| Auth.Service.SetPassword | auth/service.go:339-371 | refines the specified password change: verify, hash, store, drop other sessions |
| Auth.Service.WriteUser | auth/sqlite/user.go:60-77 | rewrites one existing row; a missing row and a taken username are told apart |
| Passwords.NewRegistry | auth/hash/hash.go:43-63 | refuses exactly when an identifier is claimed twice; otherwise every identifier leads to the scheme that claims it |
| Authz.Service.PatternsOf | authz/sqlite/subject.go:24-65 | the union of the patterns of the subject's roles and of its grants is the specified set |
| Authz.Service.Check | authz/service.go:24-45 | answers as specified; a failed read is never an answer and does not hide a refusal |
| Authz.Service.Assign | authz/service.go:69-88 | refines the specified assignment and its refusals |
| Authz.Service.Revoke | authz/service.go:90-100 | refines the specified revocation |
| Authz.Service.GrantAll | authz/service.go:104-139 | all rows or none, and none when any action is invalid |
| Authz.Service.PurgeAllOf | authz/sqlite/subject.go:133-161 | removes a subject's rows from both tables together |
| Authz.Service.PurgeAllOver | authz/sqlite/grant.go:70-80 | removes every grant over one resource and nothing else |
| Site.Server.constructor | authz/sqlite/migrations/0002_seed_roles.sql:6-13 | the site starts with no accounts, no posts and the seeded roles |
| Site.Server.RequirePermission | web/guard.go:18-44 | a failure to reach the authorization service is never a permission |
| Site.Server.CheckUser | web/admin_users.go:157-191 | malformed, unauthenticated, forbidden, failed and absent are told apart in this order |
| Site.Server.CheckPost | web/admin_posts.go:224-257 | the same for a post |
| Site.Server.Known | web/admin_users.go:108-115 | the requested roles are the submitted ones that exist |
| Site.Server.ChangeRole | web/admin_users.go:140-145 | one call for a role that differs, none for one that does not |
| Site.Server.ReplaceRoles | web/admin_users.go:137-152 | the loop refines the specified replacement up to its first failure |
| Site.Server.SetUserRoles | web/admin_users.go:84-155 | refines the specified handler |
| Site.Server.RemoveUser | web/admin_users.go:231-259 | refines the specified handler: purge, then delete |
| Site.Server.GrantPostOwnership | web/admin_posts.go:299-310 | two attempts, successful exactly when one is reported so; what either wrote stays |
| Site.Server.NewPost | web/admin_posts.go:66-116 | refines the specified handler: insert, then grant |
| Site.Server.RemovePost | web/admin_posts.go:200-222 | refines the specified handler: purge, then delete |
| Site.Server.AddUser | auth/service.go:94-121 | refines the specified registration of an account |
| Site.Server.OnFirstUser | app/authapp/hook.go:30-64 | two attempts to assign the role, successful exactly when one is reported so; what either wrote stays |
| Site.Server.FirstRun | auth/service.go:383-434 | refines the specified setup: gate, insert, recount, hook, rollback |
| Render.PlainText | content/render/render.go:37-53 | the loop computes the specified page |
| Render.Fragment | content/render/render.go:18-24 | any other content type is refused before rendering |

## Left out

- Site.AnAdministratorRemains: handlers run one at a time and no call lands after its handler returned; without either the promise is false (`Overlap.TwoAdministratorsDemoteEachOther`, `Overlap.LateCallRemovesTheLast`), and `Overlap.SafeExactlyWhen` says when it holds.
- Overlap.SafeExactlyWhen: while a promotion is still pending only its "if" half is stated (`Overlap.UnthreatenedRemains`), since a pending promotion may keep the last administrator company or authorise further demotions; the exact condition is then about the order of calls and is not stated.
- Site.GrantsNameStoredPosts: handlers run one at a time; `Posts.CalmRunsOrphanNothing` is the interleaved form with its condition.
- Replicas.LockedRuns: safety only; the release of a lock whose unlock fails is modelled as the loss of its session, and one database session taking the same advisory lock twice is not.
- Migrate.Database.Up: which of several records without a file is named is left open, as it is in the program; a directory that cannot be listed is not modelled, and `applied_at` is not kept.
- Timestamps.ParseFormat: the time library's parser also reads texts that the formatter never writes, such as a one-digit hour or a comma before the fraction; the model's parser reads the full-width form only. Instants finer than a millisecond or outside years 0 to 9999 are not modelled.
- Wire.UnmarshalMarshal: the decoder reads one object with `code` before `message` and no white space between its tokens; other JSON spellings that the library accepts are not modelled.
- Topology.TopologiesAgree: covers errors; successful values, requests over the 1 MiB limit and references that the adapters themselves refuse are not modelled.
- AuthHistory.SweepIsInvisible: operations are whole; the statements of two requests to the identity service do not interleave.
- PasswordHistory.AccountsAcceptLastPassword: hashing is an abstract scheme that accepts exactly the hashed password, and no deployment gives an identifier of a used scheme to a scheme that verifies otherwise; what a scheme's cost is, and rehashing for it, is not modelled.
- Usernames are given in normalised form; trimming and truncation of names, user agents and addresses are left out.
- Ids, tokens and their digests come from one supply that never repeats; UUIDs, random tokens and SHA-256 are not modelled.
- The status lifecycle and publication date of a post, and lost updates between concurrent writers of one row.
- Limits and offsets of listings.
- SQL text, drivers, HTTP routing, cookies, templates, logging, configuration and timeouts.
- `pkg/safeurl` and the building of login URLs, which rest on `net/url`.
