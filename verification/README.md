# clawdh: a verified model

clawdh shares Claude logins between people. A gateway holds each login, refreshes it, and
meters what every person uses; a panel keeps the shares; a tool on each machine edits
editors' settings and tidies transcripts. This project models the parts of it whose
correctness does not show in any one function, and proves what the code promises about
them. `dafny verify dfyconfig.toml` checks all of it.

## What is modelled

**The rotation protocol** (`Rotation`, `KeptRotations`, `SingleSignIn`, `LiveLogin`,
`LostAcknowledgement`, `StoredLogin`, `ManagerRefinement`, `TokenManagers`, `Credentials`,
`Doubles`).
A login's refresh token is single-use, as in section 6 of RFC 6749 with rotation.
Managers, the background writer and its flush, panel servers, `diagnose` and the token
service are actors of one state machine whose steps are their sections under a lock, one
answer of the service, or one committed write. A read of the panel row may return any
blob the account has ever held, which covers every cached or late read.

**The panel and its store** (`Panel`, `PanelState`, `PanelInvariants`, `PanelEffects`,
`Stores`, `Serializability`). Decisions are functions of the state they read; the objects the code
edits in place are classes proved against them; `Mutate`'s compare-and-swap loop is proved
alone against rivals, and as a state machine with any number of stores.

**The write-behind queue** (`WriteBehind`, `Flushing`): the bounded event queue under
arrivals, overflow and flushes that fail half-way, and one whole flush as the loops it is.

**Metering** (`Scanner`, `Meter`, `Calendar`, `UsageStore`, `Series`, `Attribution`): the
streaming scanner, hourly counters beside raw events, the split by token class, and the
weekly shares. Floating-point figures are reals.

**Rewriting without disturbing** (`HourCache`, `Settings`, `SettingsEdits`,
`SettingsValues`, `SettingsNeighbours`, `SettingsComments`, `SettingsFinding`,
`SettingsObject`, `SettingsRemoval`, `SettingsReading`, `SettingsLimits`, `Transcripts`,
`Pruning`, `PruningSafety`, `PruningEffects`, `Migration`): the cache-lifetime rewrite, the
comment-preserving settings editor beside one that reads comments and depth, and the two
commands that move and delete transcripts. A walk of a folder carries what every system
call answers, so every mix of failures is one of the walks.

**Two smaller machines**: short names for shared accounts (`Slugs`) and the queue of
requests waiting for their owner's consent (`Consent`, `ConsentQueue`).

`Wrappers`, `Times` and `Strings` are shared. An `Instant` counts nanoseconds from
1970, and `ZERO_TIME` is Go's zero time, the year 1.

## What is assumed

- Sealing and unsealing succeed, so credentials are held unsealed. Tokens, ids, key hashes
  and join-code hashes are fresh when they are minted.
- What a database call reports is what happened, except that `Rotation`, `KeptRotations` and
  `SingleSignIn` also let a flush end after a write that committed, as if told that it had
  failed. `LiveLogin.TheStoredLoginIsTheLiveOne` needs the report to be true
  (`LostAcknowledgement`); `LiveLogin.ClearStepsKeepTheLiveOne` is what holds when it is not.
- A credential expires one fixed lifetime after it was issued; the clock runs forward and
  is never the zero time.
- Account folders, their projects and the shared tree are disjoint and change only through
  the commands modelled; an account's identifier is never reused for another folder.

## Where the code and its comments part

- That an account's newest queued credential is the one that matters
  (cmd/clawdh-server/dbwriter.go:82-83) holds for one manager. A manager forgotten
  mid-rotation can queue an older credential over a newer one:
  `KeptRotations.AForgottenManagerCanLoseARotation` is the run,
  `KeptRotations.EnqueueKeepsExactlyWhen` the exact condition, and `SingleSignIn` the proof
  that it takes a second sign-in.
- A usage row counted as dropped may be stored all the same
  (`WriteBehind.ADroppedRowCanBeStored`).
- The line logged for a revoked share can name another one
  (`PanelInvariants.TheRevokedLineNamesTheNextShare`).
- That an edit leaves every other setting and comment alone
  (internal/editors/settings.go:42-45), and sets the one it is given, needs conditions that
  the code does not check. `SettingsComments`, `SettingsFinding` and `SettingsObject` have
  them; `SettingsLimits` has files that fail them:
  - the first brace is in a block comment, which takes the new entry
    (`ACommentedBraceTakesTheSetting`), or in a line comment, whose rest it opens
    (`AnOpenedCommentHidesASetting`), or ends a line comment, so that the entry stands in
    front of the object (`AnEntryInFrontOfTheObject`); adding is right exactly when that
    brace opens the outermost object;
  - a number or a word has a comment behind it, which goes with it or is cut in two
    (`ATrailingCommentGoesWithTheValue`);
  - a comment in a bracketed value has a bracket or a quote, and the value ends early
    (`ABracketInACommentEndsTheValue`);
  - the key, quoted, occurs earlier as a plain string, and is added twice
    (`AStringHidesItsKey`), or as a key of an inner object, which is edited, or taken out,
    in its place (`AnInnerKeyIsTakenForTheSetting`, `AnInnerKeyIsTakenOutForTheSetting`).
- That rolling a blob forward preserves every other field
  (cmd/clawdh-server/db.go:455-456) is true of a number only if a double gives it back:
  every whole number within two to the 53rd, but not the next one
  (`Credentials.UpdateDisturbsNothingElse`, `Credentials.AWideNumberComesBackChanged`).
- Prune and migration decide by examining the shared path. If that examination fails while
  the copy succeeds, a longer shared file is replaced
  (`PruningSafety.AShareShrinksExactlyWhen`, `Migration.ACopyOverwritesExactlyWhen`).
- That prune never removes what it could not duplicate (internal/accounts/prune.go:71-72)
  fails for a transcript at whose path a folder stands, which passes for a copy once it is
  as large: one that was there (`PruningSafety.AFolderPassesForACopy`) or one the run made
  for another account's transcript (`PruningSafety.AFolderMadeInTheRunHidesATranscript`).
  `PruningSafety.PruneDeletesOnlyWhatIsDuplicated` has the exact condition.
- That an account is not flipped on a short copy (internal/accounts/migrate.go:186-192)
  holds for the run that made the copy and not for the next
  (`Migration.TwoRunsCanMoveAnIncompleteAccount`); `Migration.OneCopying` has the exact
  condition.
- A scanner fed a line over the cap can miss it, and does for some way of cutting the
  stream (`Scanner.ChunkingNeverMattersExactlyWhen`).

## Model

| member | source | states |
|---|---|---|
| `Credentials.UpdateThenParse` | cmd/clawdh-server/db.go:436-472 | Tokens written into a blob are the tokens read back, the expiry to the millisecond; the result decodes if and only if the refresh token was replaced or the one kept was readable |
| `Credentials.UpdateDisturbsNothingElse` | cmd/clawdh-server/db.go:455-472 | Nothing beside the three token fields is added to or dropped from the blob or its oauth object, and a field comes back as it was if and only if every whole number in it is one that a double gives back |
| `Credentials.ReencodeKeepsExactlyWhen` | cmd/clawdh-server/db.go:455-472 | The same of any JSON value that is decoded without a type and written out again |
| `Credentials.SignInEndSurvives` | cmd/clawdh-server/db.go:455-472 | The end of the sign-in is what its double gives back, and so is the same within two to the 53rd |
| `Credentials.ASignInEndIsRead` | panel/loginend.go:45-56 | It is the number in the login's own field, and unknown without one |
| `Credentials.AWideNumberComesBackChanged` | cmd/clawdh-server/db.go:455-472 | A field past two to the 53rd that a rotation changes |
| `Doubles.SmallNumbersSurvive` | cmd/clawdh-server/db.go:455-472 | A whole number within two to the 53rd, rounded to a double and written with the fewest digits that read back, is itself |
| `Doubles.AnExactDoubleCanChange` | cmd/clawdh-server/db.go:455-472 | Two to the 60th is a double and is still written as another number, so being one is not the condition |
| `Credentials.StoreNeverGoesBack` | cmd/clawdh-server/dbwriter.go:258-278 | One store never moves the stored expiry back, although it compares with a rounded-down instant, and ends at least as new as what was written |
| `Credentials.InterleavedStoresNeverGoBack` | cmd/clawdh-server/dbwriter.go:255-278 | Over any interleaving of stores from several processes the stored expiry never decreases, and ends as new as every write |
| `Credentials.OwnRotationIsNotNewer` | internal/gateway/refresh.go:46-57 | A manager never takes its own rotation, read back from the store, for a newer one |
| `TokenManagers.TokenManager.Get` | internal/gateway/refresh.go:222-252 | A login not close to its expiry is answered as it is; otherwise a newer stored one that can be refreshed is held and answered while it is good, or is the one spent, and with none the manager spends its own; the new state and answer for every reload, reply of the service and clock reading |
| `TokenManagers.TokenManager.Renew` | internal/gateway/refresh.go:199-220 | One who was refused a token no longer held gets the one that is; otherwise a newer stored one with another token is held and answered and nothing spent, or the manager spends its own |
| `TokenManagers.AFreshLoginIsAnswered` | internal/gateway/refresh.go:222-229 | A login with more than ten minutes left is answered, and nothing is spent, held anew or queued |
| `TokenManagers.ANewerStoredLoginIsTaken` | internal/gateway/refresh.go:230-237 | A newer stored login that can be refreshed replaces one close to its expiry: it is answered, or its token is spent and never the old one's; and what is held afterwards is no older than it |
| `TokenManagers.AnOlderStoredLoginIsNotTaken` | internal/gateway/refresh.go:230-251 | One that is not newer, or cannot be refreshed, is never held: the manager spends its own |
| `TokenManagers.AnAnsweredTokenLasts` | internal/gateway/refresh.go:238-251 | While the service answers, a token handed out is good for ten more minutes |
| `TokenManagers.ARefusedTokenIsReplaced` | internal/gateway/refresh.go:199-220 | What follows a refusal, by what is held, stored and answered; nobody is handed back the token they were refused unless the service issues it again |
| `TokenManagers.OneCallNeverGoesBack` | internal/gateway/refresh.go:199-252 | One call never takes the held expiry back, queues exactly the rotation it obtained, and returns only an unexpired token |
| `TokenManagers.ExpiryNeverGoesBack` | internal/gateway/refresh.go:199-252 | Under any sequence of calls the held expiry never goes back, from any point to any later one |
| `TokenManagers.EveryTokenIsUnexpired` | internal/gateway/refresh.go:222-252 | Every token `get` returns, anywhere in a run, is unexpired at that moment |
| `TokenManagers.EveryRotationIsQueued` | internal/gateway/refresh.go:213-251 | Every rotation obtained in a run was queued, in order of expiry, and none is newer than the login held at the end |
| `ManagerRefinement.CallsAreProtocolRuns` | internal/gateway/refresh.go:199-252 | Every call of the object is a run of the protocol's steps that ends with the protocol's manager holding what the object holds |
| `Rotation.SoundNext` | cmd/clawdh-server/db.go:393-433 | Every step keeps the basic invariant: every refresh token held, queued, being written, probed or stored is one the service issued, no expiry is more than a lifetime ahead, and a flush has committed only what it took |
| `KeptRotations.SafeNext` | cmd/clawdh-server/dbwriter.go:205-214 | For each account by itself: a step that does not start a second rotation of it beside one under way keeps its newest rotation about to be queued, queued or stored |
| `KeptRotations.NoRotationIsLost` | cmd/clawdh-server/dbwriter.go:84-89 | In every state of every run in which the account's own managers rotate one at a time, whatever other accounts do, the newest credential the gateway obtained for it, while it is on the panel, is on its way to the queue, in it, or stored at least as new; a flush never drops one queued while it was writing |
| `KeptRotations.EnqueueKeepsExactlyWhen` | cmd/clawdh-server/dbwriter.go:82-89 | Queueing a rotation loses the newest one if and only if the newest was only in the queue and what replaces it is older |
| `KeptRotations.AForgottenManagerCanLoseARotation` | cmd/clawdh-server/db.go:380-388 | A run from the empty start, through a manager forgotten mid-rotation and a new sign-in, in which the newest rotation is neither queued nor stored: the condition above is needed |
| `SingleSignIn.ChainedNext` | internal/gateway/refresh.go:30-40 | While no login is handed up again, at most one token known for an account works, and nobody else knows it while a manager is mid-rotation |
| `SingleSignIn.OneSignInIsOrderly` | internal/gateway/refresh.go:30-40 | So within one sign-in of an account a rotation of it can only start when no other manager of it is mid-rotation |
| `SingleSignIn.OneSignInLosesNothing` | cmd/clawdh-server/dbwriter.go:175-253 | While an account's own login is not handed up again no rotation of it is lost, whatever managers are forgotten and rebuilt, whatever stale reads they act on, however the steps interleave and whatever happens to other accounts |
| `LiveLogin.LocatedNext` | cmd/clawdh-server/dbwriter.go:205-214 | Every clear step keeps the working token, if it is known, in hand, queued or in the row, newest among what is in hand, and never to be displaced from the row by a spent one |
| `LiveLogin.ReadIsWrittenNext` | cmd/clawdh-server/dbwriter.go:205-214 | While flushes are told of their writes, every step keeps this: once a working token can be read from the row, or `diagnose` has it, the writer has nothing left to write for the account |
| `LiveLogin.TheStoredLoginIsTheLiveOne` | cmd/clawdh-server/dbwriter.go:158-178 | Within one sign-in, once the queue has drained, the only token known for the account that can still be spent is the one in the panel row; nothing else is asked of a run than that a flush which committed a write is told so |
| `LiveLogin.ClearStepsKeepTheLiveOne` | cmd/clawdh-server/dbwriter.go:205-214 | The same when a flush may be told that a write failed which committed, if writing it again would not displace what works and `diagnose` rotates a millisecond after what is still to be written |
| `LiveLogin.FromTheStart` | cmd/clawdh-server/dbwriter.go:175-253 | For each account, no rotation lost, and both results on the stored login, for every run from the empty start that keeps to one sign-in of that account |
| `StoredLogin.DiagnoseStores` | cmd/clawdh-server/diagnose.go:61-74 | A commit by `diagnose` leaves the row as new as what it obtained, and holding that very login unless the row's was newer |
| `StoredLogin.AFlushStores` | cmd/clawdh-server/dbwriter.go:258-278 | So does a commit by a flush |
| `StoredLogin.AWorkingRotationIsStored` | cmd/clawdh-server/diagnose.go:61-74 | Within one sign-in what `diagnose` obtained, if it still works, is the stored login after its commit |
| `StoredLogin.OneFlushEmptiesTheQueue` | cmd/clawdh-server/dbwriter.go:175-214 | A flush of a resting writer can always be run to its end, and takes an account's rotation off the queue and into the row |
| `StoredLogin.TheWorkingTokenStaysKnown` | cmd/clawdh-server/dbwriter.go:158-214 | Within one sign-in no step forgets a working token but one that spends it, that fails its store in `diagnose`, or that removes the account |
| `StoredLogin.TheWorkingTokenIsNeverLost` | cmd/clawdh-server/dbwriter.go:158-214 | So over any run a token that still works at its end is still known there |
| `StoredLogin.WhatWasObtainedIsStored` | cmd/clawdh-server/dbwriter.go:84-89 | From the empty start, within one sign-in: whatever a manager or `diagnose` obtained anywhere in a run is the stored login once the queue has drained, if it still works |
| `LostAcknowledgement.AnUnacknowledgedWriteCanLoseTheLogin` | cmd/clawdh-server/dbwriter.go:205-214 | That being told is needed: a run of one sign-in in which the database reports a failure for a write that committed, the loop returns before the deletion, `diagnose` rotates in the same millisecond, and a spent token ends in the row |
| `Panel.ShareByKeyHashAt` | panel/store.go:251-261 | The share a key opens at an instant, if one is live |
| `PanelState.RevokeInPlace` | panel/store.go:339-357 | The in-place compaction leaves exactly the other shares in order, and says what the aliased `removed` slot holds afterwards |
| `PanelInvariants.ALoginIsOnlyRefreshedByANewerSignIn` | panel/handlers.go:262-305 | Handing a login up keeps every account and the identity of the one it refreshes; that one then holds what was handed up, which ends later than what it held where both say when |
| `PanelState.State.ExpireShares` | panel/store.go:263-282 | The sweep drops exactly the shares whose time is up and logs each |
| `PanelState.State.PutShare` | panel/store.go:231-242 | The share is in the list afterwards, with exactly the shares that were for another person or account |
| `PanelState.State.IssueShare` | panel/store.go:307-333 | Issuing succeeds if and only if the account and the person are there, and the share it mints, with its end, is then in the list in place of the one they had |
| `PanelState.State.RevokeShare` | panel/store.go:339-357 | Revoking removes the share and logs, or changes nothing |
| `PanelState.State.RemoveAccount` | panel/handlers.go:158-179 | Removing an account takes its shares with it |
| `PanelState.State.RemovePerson` | panel/handlers.go:382-421 | Removing a person takes their shares and machines with them |
| `PanelState.State.Enrol` | panel/handlers.go:595-621 | A join code enrols a machine once, before it expires |
| `PanelState.State.Contribute` | panel/handlers.go:262-310 | A contributed login is added or refreshed, and its owner given access if they had none |
| `PanelState.State.StoreCredential` | cmd/clawdh-server/dbwriter.go:258-278 | The store decision on the account, if it is still there |
| `PanelInvariants.CommitKeepsConsistent` | panel/store.go:113-150 | Every committed transaction keeps one share per account and person, no share without its account, distinct keys and ids, and at most 2000 activity lines |
| `PanelInvariants.RunsKeepConsistent` | panel/store.go:113-150 | And so does every run of them |
| `PanelInvariants.SharesEndExactlyWhen` | panel/store.go:234-357 | A committed transaction drops a share if and only if it ends it (expired at the sweep, rotated, revoked, or gone with its account or person), and its key with it |
| `PanelInvariants.EndedKeysStayEnded` | panel/store.go:251-261 | A key whose share has gone never resolves again, at any instant, through any run that does not mint that key anew |
| `PanelInvariants.EndedForGood` | panel/store.go:251-357 | From the transaction that ends a share on, its key never resolves |
| `PanelInvariants.ACodeEnrolsOneMachine` | panel/handlers.go:595-621 | A join code enrols at most one machine in any run, whichever servers decided it, and none once used |
| `PanelInvariants.TheRevokedLineNamesTheNextShare` | panel/store.go:339-357 | The line logged for a revoked share names the share that followed it; it names the right one if and only if that was the last, or the next is for the same person and account |
| `PanelEffects.AnIssuedKeyOpens` | panel/store.go:307-333 | After a committed issue its key resolves to the share minted, for that account and person, at every instant before its end and at none from then on |
| `PanelEffects.AnIssueIsRefusedExactlyWhen` | panel/store.go:307-316 | An issue is refused if and only if its account or its person is not there |
| `PanelEffects.AContributedLoginIsThere` | panel/handlers.go:262-310 | After a committed contribution the login is on the panel, at a new account or the one it was for, and its owner has a share of it: the one they had, or a new one whose key opens it |
| `PanelEffects.AContributionIsRefusedExactlyWhen` | panel/handlers.go:262-290 | A contribution is refused if and only if the login it is for is held with a sign-in that is known to end no sooner |
| `PanelEffects.ALoginIsFoundByAddressThenName` | panel/handlers.go:262-275 | Which account a login is for: the first of its address, or without an address of ours the first of its name |
| `PanelEffects.SharesStayExactlyWhen` | panel/store.go:234-357 | A share outlives a transaction if and only if it is not past its end at the sweep, issued anew, revoked, or gone with its account or person |
| `PanelEffects.AnIssuedKeyOpensUntilItEnds` | panel/store.go:251-357 | A key that was issued opens its account, through any run of transactions, until one of them ends its share |
| `PanelEffects.AnEnrolmentIsAcceptedExactlyWhen` | panel/handlers.go:595-612 | An enrolment is accepted if and only if its code is there, unused and not past its end |
| `PanelEffects.AnEnrolmentSetsUpAMachine` | panel/handlers.go:595-621 | It then adds one machine, of the person invited, and marks the code used |
| `PanelEffects.AnAccountIsRemoved` | panel/handlers.go:158-179 | Removing an account is refused if and only if it is not there, or is withdrawn by another than who added it; it takes that account and all its shares |
| `PanelEffects.APersonIsRemoved` | panel/handlers.go:382-421 | Removing a person takes exactly their machines and shares along |
| `PanelEffects.ARotationIsHeld` | cmd/clawdh-server/dbwriter.go:258-278 | A rotation that is stored is what its account then holds, unless it held a newer one, and no other account changes |
| `PanelEffects.TheNewestLinesAreKept` | panel/store.go:142-150 | Of the activity lines the newest two thousand are kept |
| `Stores.Backend.Save` | panelpg/panelpg.go:125-140 | The row is replaced, one version on, if and only if its version is the expected one |
| `Stores.Store.Mutate` | panel/store.go:113-150 | The retry loop comes to the outcome of the specification for every pattern of conflicts and failures, and the row's log grows by exactly what landed |
| `Stores.MutateLandsOnceOrNotAtAll` | panel/store.go:111-139 | A failed call writes nothing of its own; a successful one lands exactly one transaction, on the state its predecessors left; every call stops within nine tries |
| `Stores.ACallEndsAsItsLastTry` | panel/store.go:111-139 | Only a try that another store outran is followed by another; the last one's database and decision settle the call, which succeeds if nothing outran or failed it, and is too busy only after nine |
| `Serializability.EveryInterleavingIsSerial` | panel/store.go:113-150 | With any number of calls interleaving, the row at version n is n committed transactions applied in commit order, each to exactly its predecessor; every success owns one of them and every failure none |
| `Serializability.ThePanelIsConsistentUnderInterleaving` | panelpg/panelpg.go:122-140 | So the panel is consistent, and a code enrols one machine, under every interleaving |
| `WriteBehind.Writer.Event` | cmd/clawdh-server/dbwriter.go:106-116 | An arrival past the bound drops the oldest row and counts it |
| `WriteBehind.Writer.DropWritten` | cmd/clawdh-server/dbwriter.go:237-246 | Stored rows leave the queue by sequence, not by position |
| `WriteBehind.Backoff` | cmd/clawdh-server/dbwriter.go:305-315 | Two seconds, doubling, to a minute |
| `WriteBehind.TheWaitsAre` | cmd/clawdh-server/dbwriter.go:305-315 | The waits themselves, after each number of failures |
| `WriteBehind.AnArrivalIsTaken` | cmd/clawdh-server/dbwriter.go:106-116 | An arrival is last in the queue with the next number; past five thousand exactly the oldest row makes room, and is counted |
| `WriteBehind.NextIsGood` | cmd/clawdh-server/dbwriter.go:106-253 | Every arrival, overflow and part of a flush keeps the queue's invariant |
| `WriteBehind.EventsAreStoredOnceInOrder` | cmd/clawdh-server/dbwriter.go:106-253 | However arrivals, overflow and half-failed flushes interleave: every metered event is stored at most once, in order, as metered; one neither stored nor waiting was dropped by overflow; the queue is a contiguous range of at most 5000 |
| `WriteBehind.AFullFlushEmptiesItsBatch` | cmd/clawdh-server/dbwriter.go:236-253 | A flush that stored all it took leaves only what arrived after it began |
| `WriteBehind.ADroppedRowCanBeStored` | cmd/clawdh-server/dbwriter.go:106-116 | From every state with a full queue, a row can be counted as dropped and stored all the same |
| `Flushing.Upstream.Flush` | cmd/clawdh-server/dbwriter.go:175-253 | Whatever is queued while it runs: success stores every credential and row it took and leaves queued only what arrived meanwhile; failure stores a front of the rows and forgets nothing unwritten; what was last queued for an account is still queued or is what was stored; no stored login goes back |
| `Flushing.Upstream.StoreCredentials` | cmd/clawdh-server/dbwriter.go:205-214 | The credentials loop |
| `Flushing.Upstream.StoreRows` | cmd/clawdh-server/dbwriter.go:236-252 | The rows loop |
| `Meter.CostIsInStepWithWeight` | internal/meter/weights.go:93-148 | Dollar cost and weight are in one proportion for every model in the table and every count |
| `Meter.AtMostOneRateMatches` | internal/meter/weights.go:50-81 | No model matches two rates, so the table's order never decides |
| `Meter.LabelKeepsKnown` | cmd/clawdh-server/dbwriter.go:284-303 | The label a model is stored under has a rate if and only if the model has |
| `Meter.PartsVanishExactlyWhenUnused` | internal/meter/weights.go:119-148 | For counts that are not negative, a known model's parts are not negative and vanish if and only if nothing was used |
| `Meter.EachClassIsWeighedByItsPrice` | internal/meter/weights.go:93-148 | Each class of tokens is weighed by its own price: cache reads at a tenth of input, cache writes at one and a quarter or, kept an hour, at twice it |
| `Calendar.CutOfTheHour` | panel/telemetry.go:110-123 | Cutting an hour's start to a unit is cutting anything in that hour, for every unit from the hour up |
| `Calendar.ViewsStartOnTheHour` | panel/telemetry.go:125-139 | Every start a roll-up view can have, full or incremental, is on the hour |
| `Calendar.HoursFollowTheStart` | panel/telemetry.go:125-139 | From a start on the hour, an hour is in the view if and only if anything in it is |
| `Calendar.EveryRollUpGrainIsHourOrCoarser` | panel/telemetry.go:38-47 | The grains that read the counters are exactly those from the hour up |
| `Calendar.AMonthStartsWithItsFirst` | panel/telemetry.go:119-120 | Going back to the first comes to a first of a month, at most thirty days back, on every day of the civil calendar |
| `Calendar.BucketsAreCutOnce` | panel/telemetry.go:110-123 | A bucket's start is not after what it was cut from and is its own start, for every unit |
| `Calendar.EachDayFollowsTheLast` | panel/telemetry.go:119-120 | The dates months are cut by are the calendar's: from the first of January 1970 each day is the one after the day before, by the lengths of the months and the leap years, in both directions |
| `Calendar.ABucketStartsWhere` | panel/telemetry.go:110-123 | Days start at midnight, weeks on a Monday and months on the first of the same month and year; nothing is further from its bucket's start than the unit is long |
| `Calendar.AViewStartsWhere` | panel/telemetry.go:125-139 | A view starts with the bucket its span back falls in, or the one already held if that is later; a view of all of history starts at the zero time |
| `UsageStore.Database.RecordUsage` | panelpg/usage.go:98-145 | An event is appended and its person's and account's counters are those of the whole history |
| `UsageStore.RollUpAgreesWithEvents` | panelpg/usage.go:98-145 | After any history, for a named person, an hour-or-coarser unit and a start on the hour, every bucket and model has the same sums and the same rows from counters as from events |
| `UsageStore.CountersMissExactlyTheUnnamed` | panelpg/usage.go:120-126 | For every query, everyone's included, and any history: in every bucket and model the events' sums are the counters' plus exactly those of the events without a person |
| `UsageStore.EveryonesRollUpAgreesExactlyWhen` | panelpg/series.go:57-72 | For everyone at once the two agree if and only if the unnamed events come to nothing |
| `UsageStore.TheSameRowsAnswerBoth` | panelpg/series.go:33-86 | So the same rows answer the raw query and the counter query, at every roll-up grain and from every start a view can have |
| `UsageStore.CountersAreTheSums` | panelpg/usage.go:98-145 | After any history every counter, a person's or an account's, is there if and only if an event counts under its key, and holds exactly the sums of those events |
| `Series.BuildSeries` | panelpg/series.go:86-112 | One point a bucket, in order, each the sum of its rows, and no row left out |
| `Series.AddModel` | panelpg/series.go:135-154 | One row's part is added to its point |
| `Series.ARowReconcilesExactlyWhen` | panelpg/series.go:135-154 | A row's classes add up to it if and only if it has parts to split by or no weight to split |
| `Series.EachClassHasItsPart` | panelpg/series.go:135-154 | Each class has its own tokens, and of the row's weight the part that its tokens' price has in the row's |
| `Series.EveryBucketReconciles` | panelpg/series.go:24-29 | For any history of responses with counts that are not negative, each bucket's class tokens and class weights add up to the bucket, unknown models included |
| `Series.EveryRolledUpBucketReconciles` | panelpg/series.go:24-29 | And so they do when the bucket is read from the counters |
| `Attribution.WeekScale` | panel/attribution.go:80-114 | The size learned is the largest that any of the first four teaching weeks, or the watched running one, has shown; none when no week teaches |
| `Attribution.TheWeeksAre` | panel/attribution.go:88-114 | Which weeks those are: the first four finished ones with a reading of a quarter or more and metered use, and beside them the running week if its own reading is such |
| `Attribution.ThereIsNoSizeExactlyWhen` | panel/attribution.go:88-108 | There is no size if and only if no finished week tells, whatever the running one does |
| `Attribution.SplitWeek` | panel/attribution.go:116-149 | The shares, scaled where they stand, and the remainder |
| `Attribution.TheLearnedSizeIsALowerBound` | panel/attribution.go:28-35 | If no week metered more than was used of it, the learned size is at most the true one, and is the true one once a week had no use outside |
| `Attribution.NothingIsLostInTheSplit` | panel/attribution.go:116-149 | Shares and remainder add up to the reading, to within 1e-9 |
| `Attribution.SharesAreUpperBounds` | panel/attribution.go:37-45 | Each share, scaled or not, is at least the true fraction and the remainder at most the true outside use; both exact when the size is |
| `Attribution.SharesAreInProportion` | panel/attribution.go:116-149 | Shares are in proportion to what was metered, and none is more than that over the size |
| `Attribution.TheBoardNeverUndercharges` | panel/attribution.go:195-245 | The same from the samples to the shares |
| `Scanner.UsageScanner.Feed` | internal/gateway/metering.go:63-83 | The loop handles exactly the finished lines and keeps the capped rest |
| `Scanner.UsageScanner.Finish` | internal/gateway/metering.go:85-93 | A trailing partial line is handled once |
| `Scanner.ChunkingDoesNotMatter` | internal/gateway/metering.go:70-93 | For every way of cutting a stream whose lines fit the cap, the lines handled are those of the whole stream |
| `Scanner.ChunkingNeverMattersExactlyWhen` | internal/gateway/metering.go:65-83 | Every cutting is scanned alike if and only if no line is longer than the cap |
| `Scanner.MeteringBody.Read` | internal/gateway/metering.go:154-163 | Bytes pass unchanged; the recorder hears once, at the first end, what the bytes until then tell |
| `Scanner.MeteringBody.Close` | internal/gateway/metering.go:165-168 | Closing records if nothing was recorded |
| `Scanner.MeteringBody.Emit` | internal/gateway/metering.go:170-186 | At the first end the recorder hears once, with the model and counts the lines told, if there is one and usage was seen, and not at all otherwise; never again after |
| `Scanner.TheRecordIsTheWholeStreams` | internal/gateway/metering.go:143-186 | What is recorded does not depend on how the response was cut |
| `Scanner.AResponseIsRecordedExactlyWhen` | internal/gateway/metering.go:170-186 | Once a response has ended whose lines fit, one record is made of it if and only if there is a recorder and the lines of the whole stream told of usage; it has the model and counts they told |
| `Scanner.LinesAreTheStream` | internal/gateway/metering.go:63-93 | Those lines, with their newlines and what follows the last, are the stream |
| `HourCache.FiresExactlyWhen` | internal/gateway/cache.go:38-46 | The rewrite fires if and only if the request is a message with a breakpoint and every breakpoint is bare |
| `HourCache.TheRewriteIsAllOrNothing` | internal/gateway/cache.go:25-48 | When it fires every breakpoint has the hour, there are as many, replacing back gives the original bytes and a second rewrite changes nothing; otherwise nothing changes |
| `HourCache.TheBetaIsAsked` | internal/gateway/gateway.go:408-420 | The header names the beta and all it named before, in order; asking again changes nothing |
| `HourCache.ARewrittenRequestNamesTheBeta` | internal/gateway/cache.go:46-47 | A rewritten request always names the extended lifetime |
| `Settings.IndexOutsideString` | internal/editors/settings.go:180-216 | The scan with its three flags finds the specification's place |
| `Settings.MatchBracket` | internal/editors/settings.go:143-178 | The bracket that closes the one at a place |
| `Settings.ValueSpanOf` | internal/editors/settings.go:90-141 | The span of a key's value |
| `Settings.TakeOut` | internal/editors/settings.go:344-374 | The text without a key's entry |
| `SettingsEdits.AnEditReadsBack` | internal/editors/settings.go:80-237 | For a well-formed value and a key that is there, an empty file, or a first brace outside block comments: the value reads back and a second edit changes nothing |
| `SettingsEdits.AnAddedKeyIsUndone` | internal/editors/settings.go:345-374 | Taking out an added key gives the original text with exactly one line end after its brace |
| `SettingsEdits.AKeyOfANewFileIsUndone` | internal/editors/settings.go:219-237 | In a file that was empty, an empty object is left |
| `SettingsEdits.AnAddedKeyGoesWhere` | internal/editors/settings.go:227-236 | An added key goes on a line of its own behind the first brace, with a comma if and only if something other than the closing brace comes next |
| `SettingsLimits.AnAddedKeyReadsBackExactlyWhen` | internal/editors/settings.go:219-237 | For files that open no string before their first brace: the editor's own scan reads an added key back if and only if that brace is not inside a block comment; whether it is a setting of the file is `SettingsObject.AnAddedKeyIsASettingExactlyWhen` |
| `SettingsLimits.ACommentedBraceTakesTheSetting` | internal/editors/settings.go:228-236 | A file in which it is, and the setting is never read |
| `SettingsComments.AddingTouchesNothingElseExactlyWhen` | internal/editors/settings.go:219-237 | Adding a key leaves every character around the entry in the code, string or comment it was in, and the entry in code, though perhaps outside the object, if and only if the scan reaches the first brace in code, or in a line comment of which nothing is behind the brace but the line's end or a comment by itself |
| `SettingsObject.AnAddedKeyIsASettingExactlyWhen` | internal/editors/settings.go:219-237 | A reader that knows comments and brackets takes the added value for that of a key of the outermost object if and only if the first brace is in code with no bracket open before it |
| `SettingsObject.AKeyOfANewFileIsASetting` | internal/editors/settings.go:223-226 | In a file that was empty it always is |
| `SettingsObject.AReplacedValueIsASettingExactlyWhen` | internal/editors/settings.go:219-222 | For a key that the editor finds, the new value is that of a key of the outermost object if and only if the first occurrence of the quoted key in code is in the outermost object; every setting whose value starts where the editor starts it is such |
| `SettingsComments.ReplacingTouchesNothingElseExactlyWhen` | internal/editors/settings.go:219-222 | Replacing a value does, and takes no comment with it, if and only if the span holds no comment and closes the strings it opens or ends the file; a string, array or object closes them unless it holds a comment |
| `SettingsFinding.TheSettingIsFoundExactlyWhen` | internal/editors/settings.go:90-112 | A setting that is there is found if and only if the first occurrence of its quoted key in code is in the outermost object and followed by a colon and a value with no comment before it; for one that is not there nothing is found if and only if no value follows such an occurrence |
| `SettingsFinding.TheMatcherIsRight` | internal/editors/settings.go:143-178 | The matcher ends a bracket, or fails, as a comment-aware one does when no comment on the way has a quote or a bracket of the kind |
| `SettingsFinding.TheSpanIsTheSettingsWhen` | internal/editors/settings.go:113-141 | Once found, the value read and replaced is the setting's: always for a string; for a number or a word if and only if no comment starts within it; for a bracket when its comments have no quote and no bracket of its kind |
| `SettingsFinding.BracketsInACommentMayMatch` | internal/editors/settings.go:143-178 | A value in which they have and it is ended right all the same, so that last condition cannot be made a necessary one |
| `SettingsLimits.ABracketInACommentEndsTheValue` | internal/editors/settings.go:143-178 | A file in which a bracket in a comment ends the value early and the rest of it stays behind |
| `SettingsLimits.AnOpenedCommentHidesASetting` | internal/editors/settings.go:228-236 | A file whose first brace is in a line comment: the entry put behind it opens the comment, and another setting reads as what was commented out |
| `SettingsLimits.AnEntryInFrontOfTheObject` | internal/editors/settings.go:228-236 | A file whose first brace ends a line comment: nothing else is touched and the editor reads the key back, but the entry stands in front of the object and is no setting |
| `SettingsLimits.ATrailingCommentGoesWithTheValue` | internal/editors/settings.go:135-140 | Two files in which a number's span runs over the comment behind it, which is deleted, or cut in two |
| `SettingsLimits.AStringHidesItsKey` | internal/editors/settings.go:94-105 | A file in which an earlier string equal to the key keeps it from being found, and the edit adds the key a second time |
| `SettingsLimits.AnInnerKeyIsTakenForTheSetting` | internal/editors/settings.go:94-105 | A file in which the key of an inner object is read and edited in the setting's place |
| `SettingsLimits.AnInnerKeyIsTakenOutForTheSetting` | internal/editors/settings.go:344-374 | A file in which the key of an inner object is taken out and the setting stays |
| `SettingsValues.JsonIsWellFormed` | internal/editors/settings.go:113-178 | Every JSON string, array and object ends for the editor where it ends |
| `SettingsNeighbours.AddingDisturbsNoOtherSetting` | internal/editors/settings.go:218-237 | Adding a key right after a brace in code leaves what every other setting reads as |
| `SettingsNeighbours.ReplacingDisturbsNoOtherSetting` | internal/editors/settings.go:218-222 | Replacing any JSON value by any other, numbers and words included, leaves what every setting after it, or wholly before its key, reads as |
| `SettingsRemoval.RemovingTouchesNothingElseExactlyWhen` | internal/editors/settings.go:345-374 | Taking out a key that the file had leaves every other character in the code, string or comment it was in, and no comment goes with it, if and only if its value's span holds no comment and no slash in front of what goes meets one, or a star, behind it; for every string, array, object and value without a quote, and any other that closes its strings |
| `SettingsRemoval.RemovingDisturbsNoOtherSetting` | internal/editors/settings.go:326-340 | And then every setting after it, or wholly before its key, reads as before |
| `SettingsRemoval.TheTrailIs` | internal/editors/settings.go:361-374 | What goes with a removed value: the spaces behind it, one comma, the spaces behind that and one line end, each if it is there |
| `SettingsReading.AddingLeavesEveryReading` | internal/editors/settings.go:219-237 | To a reader that knows comments and brackets every other setting reads as before when a key is added where the outermost object opens |
| `SettingsReading.ReplacingLeavesEveryReading` | internal/editors/settings.go:219-222 | And when a value in a bracket is replaced, every setting behind it or with its value wholly before its key |
| `SettingsReading.RemovingLeavesEveryReading` | internal/editors/settings.go:326-374 | And when a key in a bracket is taken out with its value, unless a slash meets what comes behind |
| `SettingsReading.ARemovedKeyIsGoneExactlyWhen` | internal/editors/settings.go:344-374 | A key that was taken out is gone to that reader if and only if no setting of the same key stands behind it, as when the key does not occur there; otherwise that one is what is left |
| `SettingsReading.AnInnerKeyLeavesTheSetting` | internal/editors/settings.go:344-374 | One that was found in an inner bracket leaves the setting of that name reading as it did |
| `Pruning.Disk.ShareProjects` | internal/accounts/prune.go:145-220 | The walk's effect on the shared tree, the folders made for the copies included, and its two counts, for every mix of failures |
| `Pruning.Disk.RemoveEntries` | internal/accounts/prune.go:116-129 | Only names on the allowlist are removed, until a removal fails |
| `Pruning.Disk.Prune` | internal/accounts/prune.go:77-133 | The run over the accounts |
| `PruningSafety.AShareShrinksExactlyWhen` | internal/accounts/prune.go:145-150 | One entry makes a shared file shorter if and only if examining it failed and the copy still landed on a longer one |
| `PruningSafety.SharingDuplicates` | internal/accounts/prune.go:145-220 | Where examinations answer, sharing shortens nothing and, if nothing failed, every file has a shared one at least as long, or a folder, at its path |
| `PruningSafety.ADryRunForetellsTheCopies` | internal/accounts/prune.go:152-153 | A dry run counts exactly the files a real one copies, folders made on the way and all, and writes nothing |
| `PruningSafety.PruneOneIsSafe` | internal/accounts/prune.go:102-114 | An account whose projects are linked, unreadable or could not all be copied keeps everything |
| `PruningEffects.SharingFailsExactlyWhen` | internal/accounts/prune.go:186-217 | Sharing fails in nothing if and only if every entry could be read and examined and, on a real run, was shared already or landed |
| `PruningEffects.NothingIsNeededExactlyWhen` | internal/accounts/prune.go:194-203 | Nothing needs to be copied if and only if every file that can be examined has one as long in the shared tree |
| `PruningEffects.RemovesExactly` | internal/accounts/prune.go:116-129 | A removal takes every listed name up to the first that fails, and nothing else; it fails if and only if it meets one that cannot be removed |
| `PruningEffects.TheListIs` | internal/accounts/prune.go:10-27 | The list: projects and the caches that are rebuilt; not the sign-in, the identity or the history |
| `PruningEffects.AnAccountIsReclaimedExactlyWhen` | internal/accounts/prune.go:84-129 | At its turn an account's folder loses exactly its listed names, transcripts and all, if it is a managed one on the shared scheme, asked for, and its projects could be walked and shared in full; otherwise it is left as it was |
| `PruningEffects.OnlyAskedAccountsAreTouched` | internal/accounts/prune.go:84-90 | Over any run the folder of an account that is the default one, isolated or not asked for stays as it was |
| `PruningEffects.AReportIsMadeExactlyWhen` | internal/accounts/prune.go:84-91 | There is a report for exactly the managed accounts on the shared scheme that are asked for |
| `PruningEffects.ADryRunForetellsTheRest` | internal/accounts/prune.go:74-76 | A dry run names what the real one removes and counts what it copies |
| `PruningSafety.PruneDeletesOnlyWhatIsDuplicated` | internal/accounts/prune.go:56-76 | Over all accounts of a run whose examinations answer: a transcript removed has a shared file at its path at least as long if no folder stood at that path before the run and no account of the run has a file below it; and, when every account could be shared, only if |
| `PruningSafety.ARunLosesNothing` | internal/accounts/prune.go:56-133 | Over any run every transcript still has its place or a shared file at least as long, or a folder, at its path; nothing shared got shorter, nothing off the allowlist went, and a dry run changed nothing |
| `PruningSafety.ARunsFoldersComeFromBelow` | internal/accounts/prune.go:190-220 | A folder in the shared tree after a run stood there before it, or some account of the run has a file below |
| `PruningSafety.OtherAccountsStay` | internal/accounts/prune.go:84-90 | An account the run does not consider keeps its folder as it is |
| `PruningSafety.AFolderMadeInTheRunHidesATranscript` | internal/accounts/prune.go:194-220 | A run of two accounts in which sharing the first makes a folder that passes for the second one's transcript, which is then removed with no copy |
| `PruningSafety.AFolderPassesForACopy` | internal/accounts/prune.go:194-197 | A folder at the path passes for a copy once it is as large as the transcript |
| `Migration.Mover.CopyProjectsTree` | internal/accounts/migrate.go:119-203 | The walk's effect, folders made included, and its three counts |
| `Migration.Mover.Migrate` | internal/accounts/migrate.go:66-117 | The run, and the flip in place: an account is on the shared scheme afterwards if and only if it was before, or it is not the default one and an account of its identifier, still isolated, had projects that could be walked and were all dealt with at their turn |
| `Migration.AccountsAreMovedExactlyWhen` | internal/accounts/migrate.go:72-99 | An account is to be moved if and only if it, or another of its identifier, is such a one |
| `Migration.EveryEntryIsCountedOnce` | internal/accounts/migrate.go:142-203 | Every file, and everything that could not be read, is counted once, as copied, skipped or failed |
| `Migration.ACopyOverwritesExactlyWhen` | internal/accounts/migrate.go:170-174 | One entry overwrites a shared file if and only if examining it failed and the copy landed on other contents |
| `Migration.CopyingPreserves` | internal/accounts/migrate.go:119-203 | Where examinations answer nothing shared changes; and whatever answers, all that is added is copies of files that were not shared and the folders above them |
| `Migration.CopyingCompletes` | internal/accounts/migrate.go:176-203 | With no failure something is shared at every file's path, and every file not shared before is shared as it is |
| `Migration.OneCopying` | internal/accounts/migrate.go:119-203 | After one account's copying that nothing failed in, every file is duplicated if and only if those already shared were shared in full |
| `Migration.OnlyPresentAccountsAreMoved` | internal/accounts/migrate.go:88-99 | Over a run: an account to be moved has something shared at every file's path, and all its files are duplicated if and only if those shared at its turn were shared in full |
| `Migration.AMovedAccountHasAllItsFiles` | internal/accounts/migrate.go:105-117 | The same of every account that changed scheme; only its scheme changed, and nothing shared was overwritten |
| `Migration.TwoRunsCanMoveAnIncompleteAccount` | internal/accounts/migrate.go:186-192 | Two runs after which an account is moved on a short copy the first one made and counted as failed |
| `Slugs.Slugify` | panel/handlers.go:777-791 | A name that is safe to type |
| `Slugs.FreeSlug` | panel/handlers.go:766-769 | The suffix loop stops, because only finitely many names are taken, at the first free name |
| `Slugs.Pigeonhole` | panel/handlers.go:766-769 | Each taken name tried leaves fewer |
| `Slugs.ShareSlugs` | panel/handlers.go:747-775 | The assignment over the sorted accounts |
| `Slugs.SlugsNameEveryShareOnce` | panel/handlers.go:747-775 | Every shared account that is there is named, distinct ones differently and safely, and the order the shares are kept in never shows |
| `Slugs.ASafeNameIsKept` | panel/handlers.go:777-791 | A name that is safe to type is kept, and a login goes by the part of its email before the @ |
| `Slugs.AnAccountKeepsItsNameUnlessTaken` | panel/handlers.go:747-775 | Exactly the accounts shared with the person that are still there are named, each by its own name, or by that and the first number for which no other of theirs has the name |
| `ConsentQueue.Queue.Receive` | internal/remotejobs/queue.go:153-174 | Held, or run at once inside an allow window |
| `ConsentQueue.Queue.Allow` | internal/remotejobs/queue.go:176-184 | One held request is run and recorded |
| `ConsentQueue.Queue.Deny` | internal/remotejobs/queue.go:186-197 | One held request is refused and never run |
| `ConsentQueue.Queue.Trust` | internal/remotejobs/queue.go:199-215 | Everything held is run, oldest first, and the window opens |
| `ConsentQueue.Queue.Expire` | internal/remotejobs/queue.go:225-245 | Everything overdue is declined and none of it run |
| `ConsentQueue.Queue.Settle` | internal/remotejobs/queue.go:274-294 | A case is run, answered and recorded |
| `Consent.EveryCaseIsSettledOnce` | internal/remotejobs/queue.go:153-294 | However the sections under the lock interleave: each entry taken out is settled exactly once, runs at most once and only with consent, and the history is the newest 30 decisions |
| `Consent.NothingRunsWithoutConsent` | internal/remotejobs/queue.go:6-17 | Everything that ran is the request the owner allowed, held under that id at that step, or among all they let run, or arrived inside a window their steps had open; and that step is the one that opened the case |
| `Consent.NoRequestIsForgotten` | internal/remotejobs/queue.go:153-245 | However the sections interleave, a request that arrived is still held or has a case opened since, unless another with its identifier arrived after it |
| `Consent.ARequestIsDeclinedExactlyWhen` | internal/remotejobs/queue.go:225-245 | An expiry declines a held request if and only if it arrived more than an hour before, and leaves every other held |

## Left out

- The HTTP handlers' plumbing, the reverse proxy, cookies, pages, the web UI, processes,
  terminals, keychains and notifications.
- Cryptography, randomness, SQL text, indexes, schemas and connection pooling: a statement
  is one step on maps and sequences.
- A gateway that stops between obtaining a rotation and queueing it, or between queueing
  and storing it, and its restart: the queue is in memory and the code does not claim more
  than one last attempt to write it.
- `reloadLocked`, `freshRead` and the memory of ended logins
  (cmd/clawdh-server/db.go:125-209 and 347-378): the protocol lets any read be stale instead.
- The queues of window readings and collision notes in the writer, and the statement
  `flush` stops at when a collision cannot be written: easier siblings of the credentials.
- StoredLogin.WhatWasObtainedIsStored: leaves out a rotation that `diagnose` obtained and then
  could not store, which the code reports as lost.
- UsageStore.CountersAreTheSums: of keys that name someone; there are no others.
- Flushing.Upstream.Flush: no other process writes the panel row while it runs; rivals on
  the row are in `Rotation` and `Serializability`.
- Credentials.UpdateThenParse: JSON is modelled by its values, so keys that differ only in
  case, token fields beyond 64 bits and a blob that is the bare word null are not covered.
- Credentials.UpdateDisturbsNothingElse: a fraction is taken to come back as it was, which
  is so up to fifteen digits; a number no double comes near is not covered.
- PanelInvariants.RunsKeepConsistent: that every share's person exists is not claimed, because
  contributing a login does not check it (panel/handlers.go:262-310).
- UsageStore.TheSameRowsAnswerBoth: for a named person; everyone at once is
  `UsageStore.EveryonesRollUpAgreesExactlyWhen`. Request counts, which the counters do not
  keep, and dollar costs are not part of a row.
- Series.EveryBucketReconciles: over reals, so rounding in the sums is not modelled; queries
  narrowed to a session are not modelled.
- Attribution.SharesAreUpperBounds: over reals; how samples are stored and which names are
  shown is not modelled.
- Scanner.UsageScanner.Feed: what one line tells is a given function of the line and of what
  is known so far; decoding it is not modelled.
- HourCache.TheRewriteIsAllOrNothing: bytes are characters; that a breakpoint's key cannot
  stand inside a JSON string is the caller's, since it needs a body that is JSON.
- SettingsEdits.AnEditReadsBack: reading and writing the file, and composing the list of
  variables, are not modelled.
- SettingsLimits.AnAddedKeyReadsBackExactlyWhen: asks that neither key nor value holds the
  end of a block comment and that no string opens before the first brace; without that a
  file can be made in which the value is found somewhere else by accident.
- SettingsReading.ReplacingLeavesEveryReading: asks that no colon follows the value, as none
  does in JSON, and that some bracket is open at the key; and it says nothing of a setting
  whose value encloses the edited key.
- SettingsReading.RemovingLeavesEveryReading: asks the same of what comes behind the entry.
- SettingsObject.AnAddedKeyIsASettingExactlyWhen: the reader takes the first of two keys that
  are the same; what a file means that has a key twice is not modelled.
- SettingsRemoval.RemovingTouchesNothingElseExactlyWhen: for a value that is neither a
  string nor a bracket and has a quote in it that it does not close, which no JSON value is,
  only replacing is covered. That the comma before a removed last entry stays is not
  modelled as a fault: the files allow it.
- SettingsFinding.TheSpanIsTheSettingsWhen: for a bracket the condition is not a necessary
  one, because brackets in comments can make up for each other
  (`SettingsFinding.BracketsInACommentMayMatch`).
- SettingsNeighbours.ReplacingDisturbsNoOtherSetting: says nothing of a setting whose value
  encloses the edited key, which does change.
- PruningSafety.PruneDeletesOnlyWhatIsDuplicated: a session still writing to its transcript
  between the examination and the removal is not modelled, nor the sizes reported; a
  projects entry that is a plain file is removed without being shared, and is not a
  transcript here.
- Migration.CopyingCompletes: that a file is shared as it is asks that a folder's walk
  meets each path once and no file above another, as one of a real folder does.
- Migration.AMovedAccountHasAllItsFiles: the account list changing between the copies and
  the flip is modelled only by the list the flip works on.
- Slugs.SlugsNameEveryShareOnce: case is folded for ASCII letters only.
- ConsentQueue.Queue.Receive: the clock is read once a call, and saving the queue to disk and
  loading it back are not modelled; the interleavings are in `Consent`.
- `ShareByKeyHash` at the present instant, sessions, presence, notices, hooks and shell
  profiles: easier siblings of what is kept.
